/**
 * The list logic of the explore page: the sorted list of distinct
 * character types offered by the type filter, the search and type filter,
 * the in-place sort of the filtered characters by the chosen field and
 * order, and the sort buttons' two-state toggle.
 */
module Explore {
  import opened Optional
  import opened Text

  /** What the page reads of a stored character record. */
  datatype Character = Character(name: string, description: string, characterType: Option<string>)

  // ---------------------------------------------------------------------
  // characterTypes: [...new Set(types.filter(Boolean))].sort()
  // ---------------------------------------------------------------------

  /** A character type that is set and non-empty (truthy in JavaScript). */
  predicate HasType(c: Character, t: string) {
    c.characterType == Some(t) && t != []
  }

  /** Each string sorts strictly before the next: sorted and free of duplicates. */
  predicate StrictlyIncreasing(s: seq<string>) {
    forall i, j :: 0 <= i < j < |s| ==> StrLt(s[i], s[j])
  }

  /** Adds t to a strictly increasing list, in its place, unless it is already there. */
  function InsertType(t: string, sorted: seq<string>): (r: seq<string>)
    ensures forall u :: u in r <==> u == t || u in sorted
  {
    if sorted == [] then [t]
    else if t == sorted[0] || StrLt(t, sorted[0]) then
      if t == sorted[0] then sorted else [t] + sorted
    else [sorted[0]] + InsertType(t, sorted[1..])
  }

  lemma {:induction false} InsertTypeIncreasing(t: string, sorted: seq<string>)
    requires StrictlyIncreasing(sorted)
    ensures StrictlyIncreasing(InsertType(t, sorted))
  {
    if sorted == [] {
    } else if t == sorted[0] {
    } else if StrLt(t, sorted[0]) {
      forall j | 0 <= j < |sorted| ensures StrLt(t, sorted[j]) {
        if j > 0 {
          StrLtTransitive(t, sorted[0], sorted[j]);
        }
      }
    } else {
      StrLtTotal(t, sorted[0]);
      InsertTypeIncreasing(t, sorted[1..]);
      var rest := InsertType(t, sorted[1..]);
      forall u | u in rest ensures StrLt(sorted[0], u) {
        if u != t {
          var j :| 0 <= j < |sorted[1..]| && sorted[1..][j] == u;
          assert sorted[j + 1] == u;
        }
      }
    }
  }

  /** Some character has the truthy type t. */
  predicate TypeOccurs(characters: seq<Character>, t: string) {
    exists i :: 0 <= i < |characters| && HasType(characters[i], t)
  }

  /** `characterTypes`: the distinct truthy types of the characters, in increasing order. */
  function CharacterTypes(characters: seq<Character>): (r: seq<string>)
    ensures StrictlyIncreasing(r)
  {
    if characters == [] then []
    else
      var rest := CharacterTypes(characters[1..]);
      if HasType(characters[0], characters[0].characterType.GetOr("")) then
        InsertTypeIncreasing(characters[0].characterType.value, rest);
        InsertType(characters[0].characterType.value, rest)
      else rest
  }

  /** The list holds exactly the types that some character has. */
  lemma {:induction false} CharacterTypesElements(characters: seq<Character>, t: string)
    ensures t in CharacterTypes(characters) <==> TypeOccurs(characters, t)
  {
    if characters != [] {
      var tail := characters[1..];
      CharacterTypesElements(tail, t);
      if TypeOccurs(tail, t) {
        var i :| 0 <= i < |tail| && HasType(tail[i], t);
        assert HasType(characters[i + 1], t);
      }
      if TypeOccurs(characters, t) && !HasType(characters[0], t) {
        var i :| 0 <= i < |characters| && HasType(characters[i], t);
        assert HasType(tail[i - 1], t);
      }
    }
  }

  /**
   * A strictly increasing list is determined by its elements, so the list
   * above is the one a de-duplication followed by a sort produces.
   */
  lemma {:induction false} IncreasingListUnique(a: seq<string>, b: seq<string>)
    requires StrictlyIncreasing(a) && StrictlyIncreasing(b)
    requires forall u :: u in a <==> u in b
    ensures a == b
  {
    HeadIsElement(a);
    HeadIsElement(b);
    if a != [] && b != [] {
      assert a[0] in b && b[0] in a;
      var i :| 0 <= i < |b| && b[i] == a[0];
      var j :| 0 <= j < |a| && a[j] == b[0];
      if a[0] != b[0] {
        assert i > 0 && j > 0;
        StrLtTransitive(a[0], a[j], b[i]);
        StrLtIrreflexive(a[0]);
      }
      StrLtIrreflexive(a[0]);
      forall u ensures u in a[1..] <==> u in b[1..] {
        if u in a[1..] {
          var k :| 0 <= k < |a[1..]| && a[1..][k] == u;
          assert StrLt(a[0], a[k + 1]);
          assert u == a[k + 1] && u in a && u in b;
          var m :| 0 <= m < |b| && b[m] == u;
          assert b[1..][m - 1] == u;
        }
        if u in b[1..] {
          var k :| 0 <= k < |b[1..]| && b[1..][k] == u;
          assert StrLt(b[0], b[k + 1]);
          assert u == b[k + 1] && u in b && u in a;
          var m :| 0 <= m < |a| && a[m] == u;
          assert a[1..][m - 1] == u;
        }
      }
      IncreasingListUnique(a[1..], b[1..]);
      assert a == [a[0]] + a[1..] && b == [b[0]] + b[1..];
    }
  }

  lemma HeadIsElement(s: seq<string>)
    ensures s != [] ==> s[0] in s
  {
  }

  // ---------------------------------------------------------------------
  // The search and type filter
  // ---------------------------------------------------------------------

  /** The search term occurs in the name or the description, ignoring case. */
  predicate MatchesSearch(c: Character, searchTerm: string) {
    Contains(Lower(c.name), Lower(searchTerm)) || Contains(Lower(c.description), Lower(searchTerm))
  }

  /** The filter is "all" or the character's type is exactly the selected one. */
  predicate MatchesType(c: Character, typeFilter: string) {
    typeFilter == "all" || c.characterType == Some(typeFilter)
  }

  predicate Matches(c: Character, searchTerm: string, typeFilter: string) {
    MatchesSearch(c, searchTerm) && MatchesType(c, typeFilter)
  }

  /** `characters.filter(...)`: the matching characters, each as often as it occurs, in order. */
  function Filtered(characters: seq<Character>, searchTerm: string, typeFilter: string): (r: seq<Character>)
    ensures |r| <= |characters|
    ensures forall c :: multiset(r)[c] == if Matches(c, searchTerm, typeFilter) then multiset(characters)[c] else 0
  {
    if characters == [] then []
    else
      assert characters == [characters[0]] + characters[1..];
      var rest := Filtered(characters[1..], searchTerm, typeFilter);
      if Matches(characters[0], searchTerm, typeFilter) then [characters[0]] + rest else rest
  }

  /** The empty search term with the "all" filter keeps every character, in order. */
  lemma {:induction false} EmptySearchKeepsAll(characters: seq<Character>)
    ensures Filtered(characters, "", "all") == characters
  {
    if characters != [] {
      EmptySearchKeepsAll(characters[1..]);
      assert IsPrefix(Lower(""), Lower(characters[0].name));
    }
  }

  /** The search ignores the case of the term. */
  lemma SearchIgnoresCase(c: Character, searchTerm: string)
    ensures MatchesSearch(c, searchTerm) <==> MatchesSearch(c, Lower(searchTerm))
  {
    LowerIdempotent(searchTerm);
  }

  // ---------------------------------------------------------------------
  // The comparator and the in-place sort
  // ---------------------------------------------------------------------

  datatype SortField = ByName | ByType
  datatype SortOrder = Asc | Desc

  /** `(c[sortBy] || '').toLowerCase()`. */
  function SortKey(c: Character, field: SortField): string {
    match field
    case ByName => Lower(c.name)
    case ByType => Lower(c.characterType.GetOr(""))
  }

  /** The comparator handed to `sort`: negative, zero or positive. */
  function Compare(a: Character, b: Character, field: SortField, order: SortOrder): (r: int)
    ensures r == 0 <==> SortKey(a, field) == SortKey(b, field)
    ensures order == Asc ==> (r < 0 <==> StrLt(SortKey(a, field), SortKey(b, field)))
    ensures order == Desc ==> (r < 0 <==> StrLt(SortKey(b, field), SortKey(a, field)))
    ensures order == Asc ==> (r <= 0 <==> !StrLt(SortKey(b, field), SortKey(a, field)))
    ensures order == Desc ==> (r <= 0 <==> !StrLt(SortKey(a, field), SortKey(b, field)))
  {
    var x, y := SortKey(a, field), SortKey(b, field);
    StrLtIrreflexive(x);
    StrLtTotal(x, y);
    StrLtAsymmetric(x, y);
    if order == Asc then (if StrLt(x, y) then -1 else if StrLt(y, x) then 1 else 0)
    else (if StrLt(y, x) then -1 else if StrLt(x, y) then 1 else 0)
  }

  /** a may stay before b: the comparator does not put b first. */
  predicate InOrder(a: Character, b: Character, field: SortField, order: SortOrder) {
    Compare(a, b, field, order) <= 0
  }

  predicate SortedBy(s: seq<Character>, field: SortField, order: SortOrder) {
    forall i, j :: 0 <= i < j < |s| ==> InOrder(s[i], s[j], field, order)
  }

  lemma InOrderTotal(a: Character, b: Character, field: SortField, order: SortOrder)
    ensures InOrder(a, b, field, order) || InOrder(b, a, field, order)
  {
    StrLtAsymmetric(SortKey(a, field), SortKey(b, field));
  }

  lemma InOrderTransitive(a: Character, b: Character, c: Character, field: SortField, order: SortOrder)
    requires InOrder(a, b, field, order) && InOrder(b, c, field, order)
    ensures InOrder(a, c, field, order)
  {
    var x, y, z := SortKey(a, field), SortKey(b, field), SortKey(c, field);
    StrLtTotal(x, y);
    StrLtTotal(y, z);
    if order == Asc && StrLt(z, x) {
      if StrLt(x, y) { StrLtTransitive(z, x, y); }
      if StrLt(y, z) { StrLtTransitive(y, z, x); }
    }
    if order == Desc && StrLt(x, z) {
      if StrLt(y, x) { StrLtTransitive(y, x, z); }
      if StrLt(z, y) { StrLtTransitive(x, z, y); }
    }
  }

  /** In ascending order the sort keys never decrease; in descending order they never increase. */
  lemma SortedByKeys(s: seq<Character>, field: SortField, order: SortOrder, i: int, j: int)
    requires SortedBy(s, field, order) && 0 <= i < j < |s|
    ensures order == Asc ==> !StrLt(SortKey(s[j], field), SortKey(s[i], field))
    ensures order == Desc ==> !StrLt(SortKey(s[i], field), SortKey(s[j], field))
  {
    assert InOrder(s[i], s[j], field, order);
  }

  /** The prefix s[..i + 1] is in order except for the pairs that end at position j. */
  predicate SortedExcept(s: seq<Character>, i: int, j: int, field: SortField, order: SortOrder)
    requires i < |s|
  {
    forall k, l :: 0 <= k < l <= i && l != j ==> InOrder(s[k], s[l], field, order)
  }

  /** Swapping the out-of-order pair at j - 1 and j moves the exception one place down. */
  lemma SwapDown(s: seq<Character>, i: int, j: int, field: SortField, order: SortOrder)
    requires 0 < j <= i < |s| && SortedExcept(s, i, j, field, order)
    requires !InOrder(s[j - 1], s[j], field, order)
    ensures SortedExcept(s[j - 1 := s[j]][j := s[j - 1]], i, j - 1, field, order)
  {
    InOrderTotal(s[j - 1], s[j], field, order);
  }

  /** With the pair at j - 1 and j in order (or j at the front), the whole prefix is in order. */
  lemma SortedExceptDone(s: seq<Character>, i: int, j: int, field: SortField, order: SortOrder)
    requires 0 <= j <= i < |s| && SortedExcept(s, i, j, field, order)
    requires j > 0 ==> InOrder(s[j - 1], s[j], field, order)
    ensures SortedBy(s[..i + 1], field, order)
  {
    forall k, l | 0 <= k < l <= i ensures InOrder(s[k], s[l], field, order) {
      if l == j && k < j - 1 {
        InOrderTransitive(s[k], s[j - 1], s[j], field, order);
      }
    }
  }

  /** Moves a[i] down into the sorted prefix a[..i]. */
  method InsertIntoSorted(a: array<Character>, i: int, field: SortField, order: SortOrder)
    requires 0 <= i < a.Length && SortedBy(a[..i], field, order)
    modifies a
    ensures SortedBy(a[..i + 1], field, order)
    ensures multiset(a[..]) == multiset(old(a[..]))
    ensures a[i + 1..] == old(a[i + 1..])
  {
    var j := i;
    assert SortedExcept(a[..], i, j, field, order) by {
      assert forall k :: 0 <= k < i ==> a[..i][k] == a[k];
    }
    while j > 0 && !InOrder(a[j - 1], a[j], field, order)
      invariant 0 <= j <= i
      invariant SortedExcept(a[..], i, j, field, order)
      invariant multiset(a[..]) == multiset(old(a[..]))
      invariant a[i + 1..] == old(a[i + 1..])
      decreases j
    {
      SwapDown(a[..], i, j, field, order);
      a[j - 1], a[j] := a[j], a[j - 1];
      j := j - 1;
    }
    SortedExceptDone(a[..], i, j, field, order);
  }

  /** `filtered.sort(comparator)`, in place. */
  method SortCharacters(a: array<Character>, field: SortField, order: SortOrder)
    modifies a
    ensures SortedBy(a[..], field, order)
    ensures multiset(a[..]) == multiset(old(a[..]))
  {
    var i := 0;
    while i < a.Length
      invariant 0 <= i <= a.Length
      invariant SortedBy(a[..i], field, order)
      invariant multiset(a[..]) == multiset(old(a[..]))
    {
      InsertIntoSorted(a, i, field, order);
      i := i + 1;
    }
    assert a[..a.Length] == a[..];
  }

  /**
   * `filteredAndSortedCharacters`: the matching characters, as many times
   * as they occur, ordered by the comparator.
   */
  method FilteredAndSorted(characters: seq<Character>, searchTerm: string, typeFilter: string, field: SortField, order: SortOrder)
    returns (shown: seq<Character>)
    ensures SortedBy(shown, field, order)
    ensures multiset(shown) == multiset(Filtered(characters, searchTerm, typeFilter))
    ensures forall c :: c in shown <==> c in characters && Matches(c, searchTerm, typeFilter)
  {
    var filtered := Filtered(characters, searchTerm, typeFilter);
    var a := new Character[|filtered|](k requires 0 <= k < |filtered| => filtered[k]);
    assert a[..] == filtered;
    SortCharacters(a, field, order);
    shown := a[..];
    forall c ensures c in shown <==> c in characters && Matches(c, searchTerm, typeFilter) {
      assert c in shown <==> c in multiset(shown);
      assert c in characters <==> c in multiset(characters);
    }
  }

  // ---------------------------------------------------------------------
  // toggleSort
  // ---------------------------------------------------------------------

  datatype SortState = SortState(field: SortField, order: SortOrder)

  /** The sort state after a click on the button of `field`. */
  function Toggled(s: SortState, field: SortField): (r: SortState)
    ensures r.field == field
    ensures s.field == field ==> r.order != s.order
    ensures s.field != field ==> r.order == Asc
  {
    if s.field == field then SortState(field, if s.order == Asc then Desc else Asc)
    else SortState(field, Asc)
  }

  /** Two clicks on the current field restore the state; two on another field leave it sorted descending. */
  lemma ToggleTwice(s: SortState, field: SortField)
    ensures s.field == field ==> Toggled(Toggled(s, field), field) == s
    ensures s.field != field ==> Toggled(Toggled(s, field), field) == SortState(field, Desc)
  {
  }

  /** The page's state: the search term, the type filter and the sort. */
  class ExploreView {
    var searchTerm: string
    var typeFilter: string
    var sortBy: SortField
    var sortOrder: SortOrder

    constructor ()
      ensures searchTerm == "" && typeFilter == "all" && sortBy == ByName && sortOrder == Asc
    {
      searchTerm := "";
      typeFilter := "all";
      sortBy := ByName;
      sortOrder := Asc;
    }

    method ToggleSort(field: SortField)
      modifies this
      ensures SortState(sortBy, sortOrder) == Toggled(SortState(old(sortBy), old(sortOrder)), field)
      ensures searchTerm == old(searchTerm) && typeFilter == old(typeFilter)
    {
      if sortBy == field {
        sortOrder := if sortOrder == Asc then Desc else Asc;
      } else {
        sortBy := field;
        sortOrder := Asc;
      }
    }

    /** The characters the page shows for the current state. */
    method Shown(characters: seq<Character>) returns (shown: seq<Character>)
      ensures SortedBy(shown, sortBy, sortOrder)
      ensures multiset(shown) == multiset(Filtered(characters, searchTerm, typeFilter))
    {
      shown := FilteredAndSorted(characters, searchTerm, typeFilter, sortBy, sortOrder);
    }
  }
}
