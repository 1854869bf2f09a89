/**
 * The list logic of the compare page: two selectors, each offering the
 * first ten characters whose name matches its own search term, minus the
 * character chosen in the other slot. Characters are JavaScript objects
 * compared by identity (`!==`), so a character is identified here by its
 * position in the page's list.
 */
module Compare {
  import opened Optional
  import opened Text
  import opened Explore

  /** The name contains the search term, ignoring case. */
  predicate NameMatches(c: Character, searchTerm: string) {
    Contains(Lower(c.name), Lower(searchTerm))
  }

  /** Position i is a candidate: its name matches and it is not the other slot's character. */
  predicate IsCandidate(characters: seq<Character>, searchTerm: string, other: Option<nat>, i: int) {
    0 <= i < |characters| && NameMatches(characters[i], searchTerm) && other != Some(i)
  }

  /** The candidates among the first n positions, in increasing order. */
  function CandidatesBelow(characters: seq<Character>, searchTerm: string, other: Option<nat>, n: nat): (r: seq<nat>)
    requires n <= |characters|
    ensures forall k :: 0 <= k < |r| ==> r[k] < n && IsCandidate(characters, searchTerm, other, r[k])
    ensures forall k, l :: 0 <= k < l < |r| ==> r[k] < r[l]
    ensures forall i :: 0 <= i < n && IsCandidate(characters, searchTerm, other, i) ==> i in r
  {
    if n == 0 then []
    else if IsCandidate(characters, searchTerm, other, n - 1) then
      CandidatesBelow(characters, searchTerm, other, n - 1) + [n - 1]
    else CandidatesBelow(characters, searchTerm, other, n - 1)
  }

  /**
   * `filteredCharacters1` (other = character2) and `filteredCharacters2`
   * (other = character1): the matching characters in list order, without
   * the other slot's character.
   */
  function Candidates(characters: seq<Character>, searchTerm: string, other: Option<nat>): (r: seq<nat>)
    ensures forall k :: 0 <= k < |r| ==> IsCandidate(characters, searchTerm, other, r[k])
    ensures forall k, l :: 0 <= k < l < |r| ==> r[k] < r[l]
    ensures forall i :: IsCandidate(characters, searchTerm, other, i) ==> i in r
  {
    CandidatesBelow(characters, searchTerm, other, |characters|)
  }

  /** The character chosen in the other slot is never a candidate. */
  lemma OtherNeverOffered(characters: seq<Character>, searchTerm: string, j: nat)
    ensures j !in Candidates(characters, searchTerm, Some(j))
  {
    var r := Candidates(characters, searchTerm, Some(j));
    forall k | 0 <= k < |r| ensures r[k] != j {
      assert IsCandidate(characters, searchTerm, Some(j), r[k]);
    }
  }

  /** With the empty search term and nothing chosen in the other slot, every character is a candidate. */
  lemma EmptySearchOffersAll(characters: seq<Character>, i: int)
    requires 0 <= i < |characters|
    ensures i in Candidates(characters, "", None)
  {
    assert IsPrefix(Lower(""), Lower(characters[i].name));
  }

  const MaxOptions := 10

  /** `slice(0, 10)`: the first ten candidates. */
  function Options(candidates: seq<nat>): (r: seq<nat>)
    ensures |r| <= MaxOptions
    ensures r <= candidates
    ensures |candidates| <= MaxOptions ==> r == candidates
    ensures |candidates| > MaxOptions ==> |r| == MaxOptions
  {
    if |candidates| <= MaxOptions then candidates else candidates[..MaxOptions]
  }

  /** The page's state: the two search terms and the two chosen characters. */
  class ComparePage {
    const characters: seq<Character>
    var searchTerm1: string
    var searchTerm2: string
    var character1: Option<nat>
    var character2: Option<nat>

    /** Chosen characters are characters of the list, and never the same one in both slots. */
    ghost predicate Valid()
      reads this
    {
      && (character1.Some? ==> character1.value < |characters|)
      && (character2.Some? ==> character2.value < |characters|)
      && (character1.None? || character1 != character2)
    }

    constructor (characters: seq<Character>)
      ensures Valid()
      ensures this.characters == characters
      ensures searchTerm1 == "" && searchTerm2 == "" && character1 == None && character2 == None
    {
      this.characters := characters;
      searchTerm1 := "";
      searchTerm2 := "";
      character1 := None;
      character2 := None;
    }

    /** The options listed under the first selector. */
    function Options1(): seq<nat>
      reads this
    {
      Options(Candidates(characters, searchTerm1, character2))
    }

    /** The options listed under the second selector. */
    function Options2(): seq<nat>
      reads this
    {
      Options(Candidates(characters, searchTerm2, character1))
    }

    /** A click on an option of the first selector. */
    method Select1(i: nat)
      requires Valid() && i in Options1()
      modifies this
      ensures Valid()
      ensures character1 == Some(i)
      ensures character2 == old(character2) && searchTerm1 == old(searchTerm1) && searchTerm2 == old(searchTerm2)
    {
      var options := Options1();
      var k :| 0 <= k < |options| && options[k] == i;
      assert IsCandidate(characters, searchTerm1, character2, i);
      character1 := Some(i);
    }

    /** A click on an option of the second selector. */
    method Select2(i: nat)
      requires Valid() && i in Options2()
      modifies this
      ensures Valid()
      ensures character2 == Some(i)
      ensures character1 == old(character1) && searchTerm1 == old(searchTerm1) && searchTerm2 == old(searchTerm2)
    {
      var options := Options2();
      var k :| 0 <= k < |options| && options[k] == i;
      assert IsCandidate(characters, searchTerm2, character1, i);
      character2 := Some(i);
    }

    /** The clear button of the first card. */
    method Clear1()
      requires Valid()
      modifies this
      ensures Valid()
      ensures character1 == None
      ensures character2 == old(character2) && searchTerm1 == old(searchTerm1) && searchTerm2 == old(searchTerm2)
    {
      character1 := None;
    }

    /** The clear button of the second card. */
    method Clear2()
      requires Valid()
      modifies this
      ensures Valid()
      ensures character2 == None
      ensures character1 == old(character1) && searchTerm1 == old(searchTerm1) && searchTerm2 == old(searchTerm2)
    {
      character2 := None;
    }

    /** Typing in the first search bar. */
    method SetSearchTerm1(term: string)
      requires Valid()
      modifies this
      ensures Valid()
      ensures searchTerm1 == term
      ensures searchTerm2 == old(searchTerm2) && character1 == old(character1) && character2 == old(character2)
    {
      searchTerm1 := term;
    }

    /** Typing in the second search bar. */
    method SetSearchTerm2(term: string)
      requires Valid()
      modifies this
      ensures Valid()
      ensures searchTerm2 == term
      ensures searchTerm1 == old(searchTerm1) && character1 == old(character1) && character2 == old(character2)
    {
      searchTerm2 := term;
    }
  }
}
