/**
 * String operations that the Python and JavaScript sources take from their
 * standard libraries: substring tests, cutting at a separator, whitespace
 * stripping, ASCII case mapping, decimal conversion and the code-point
 * order that `<` uses on strings.
 */
module Text {
  import opened Optional

  // ---------------------------------------------------------------------
  // Prefixes, suffixes and substrings
  // ---------------------------------------------------------------------

  predicate IsPrefix(p: string, s: string) {
    |p| <= |s| && s[..|p|] == p
  }

  predicate IsSuffix(p: string, s: string) {
    |p| <= |s| && s[|s| - |p|..] == p
  }

  /** `t in s` in Python, `s.includes(t)` in JavaScript. */
  predicate Contains(s: string, t: string)
    decreases |s|
  {
    IsPrefix(t, s) || (|s| > 0 && Contains(s[1..], t))
  }

  /** t occurs in s starting at index i. */
  ghost predicate OccursAt(s: string, t: string, i: int) {
    0 <= i && i + |t| <= |s| && s[i..i + |t|] == t
  }

  /** A prefix of s followed by a prefix of the rest is a prefix of s. */
  lemma PrefixThen(a: string, b: string, s: string)
    requires IsPrefix(a, s) && IsPrefix(b, s[|a|..])
    ensures IsPrefix(a + b, s)
  {
    assert s[..|a + b|] == s[..|a|] + s[|a|..][..|b|];
  }

  lemma ShiftOccurs(s: string, t: string)
    requires |s| > 0
    ensures OccursAt(s, t, 0) <==> IsPrefix(t, s)
    ensures forall j :: 0 < j ==> (OccursAt(s, t, j) <==> OccursAt(s[1..], t, j - 1))
  {
    forall j | 0 < j
      ensures OccursAt(s, t, j) <==> OccursAt(s[1..], t, j - 1)
    {
      if j + |t| <= |s| {
        assert s[1..][j - 1..j - 1 + |t|] == s[j..j + |t|];
      }
    }
  }

  lemma {:induction false} OccursToContains(s: string, t: string, i: int)
    requires OccursAt(s, t, i)
    ensures Contains(s, t)
    decreases |s|
  {
    if i > 0 {
      ShiftOccurs(s, t);
      OccursToContains(s[1..], t, i - 1);
    }
  }

  lemma {:induction false} ContainsToOccurs(s: string, t: string)
    requires Contains(s, t)
    ensures exists i :: OccursAt(s, t, i)
    decreases |s|
  {
    if IsPrefix(t, s) {
      assert OccursAt(s, t, 0);
    } else {
      ShiftOccurs(s, t);
      ContainsToOccurs(s[1..], t);
      var i :| OccursAt(s[1..], t, i);
      assert OccursAt(s, t, i + 1);
    }
  }

  /** The recursive substring test agrees with "t occurs at some index of s". */
  lemma ContainsIff(s: string, t: string)
    ensures Contains(s, t) <==> exists i :: OccursAt(s, t, i)
  {
    if Contains(s, t) {
      ContainsToOccurs(s, t);
    }
    forall i | OccursAt(s, t, i) ensures Contains(s, t) {
      OccursToContains(s, t, i);
    }
  }

  /** An occurrence inside a prefix is an occurrence in the whole string. */
  lemma OccursInLonger(p: string, s: string, t: string, i: int)
    requires IsPrefix(p, s)
    ensures OccursAt(p, t, i) ==> OccursAt(s, t, i) && i + |t| <= |p|
  {
    if OccursAt(p, t, i) {
      assert p[i..i + |t|] == s[i..i + |t|];
    }
  }

  /** The index of the first occurrence of t in s (Python's `s.find(t)`). */
  function IndexOf(s: string, t: string): (r: Option<nat>)
    decreases |s|
    ensures r.Some? ==> OccursAt(s, t, r.value)
    ensures r.Some? ==> forall j :: 0 <= j < r.value ==> !OccursAt(s, t, j)
    ensures r.None? ==> forall j :: !OccursAt(s, t, j)
  {
    if IsPrefix(t, s) then
      Some(0)
    else if |s| == 0 then
      None
    else
      ShiftOccurs(s, t);
      match IndexOf(s[1..], t)
      case None => None
      case Some(k) => Some(k + 1)
  }

  lemma NoOccurrenceBefore(s: string, t: string, k: nat)
    requires |t| > 0 && k <= |s|
    requires forall j :: 0 <= j < k ==> !OccursAt(s, t, j)
    ensures !Contains(s[..k], t)
  {
    ContainsIff(s[..k], t);
    forall i ensures !OccursAt(s[..k], t, i) {
      OccursInLonger(s[..k], s, t, i);
    }
  }

  /**
   * The part of s before the first occurrence of t: Python's
   * `s.split(t)[0]`. On a string without line feeds it is also what
   * `re.sub(t + '.*$', '', s)` leaves (see `SubToEnd`).
   */
  function CutAt(s: string, t: string): (r: string)
    ensures IsPrefix(r, s)
    ensures |t| > 0 ==> !Contains(r, t)
    ensures !Contains(s, t) ==> r == s
    ensures Contains(s, t) ==> IsPrefix(t, s[|r|..])
    ensures forall j :: 0 <= j < |r| ==> !OccursAt(s, t, j)
  {
    ContainsIff(s, t);
    match IndexOf(s, t)
    case None => s
    case Some(k) =>
      if |t| > 0 then NoOccurrenceBefore(s, t, k); s[..k]
      else s[..k]
  }

  // ---------------------------------------------------------------------
  // re.sub(t + '.*$', '', s) for a literal t
  // ---------------------------------------------------------------------

  /** No line feed in s from index k on, except possibly as the last character. */
  predicate RunsToEnd(s: string, k: int) {
    forall i :: 0 <= i && k <= i < |s| - 1 ==> s[i] != '\n'
  }

  /**
   * Python's `re.sub(t + '.*$', '', s)` for a literal t, non-empty and
   * without line feeds, with the search starting at index p. `.` does not
   * match a line feed and `$` matches at the end or just before a final
   * line feed, so a match starts at the leftmost occurrence of t after
   * which no line feed comes but a final one; the match is removed and the
   * final line feed kept. Nothing is left after a match for a second one.
   */
  function SubToEndFrom(s: string, t: string, p: nat): string
    requires |t| > 0 && p <= |s|
    decreases |s| - p
  {
    if IsPrefix(t, s[p..]) && RunsToEnd(s, p + |t|) then
      var end := if |s| > p + |t| && s[|s| - 1] == '\n' then |s| - 1 else |s|;
      s[..p] + s[end..]
    else if p == |s| then s
    else SubToEndFrom(s, t, p + 1)
  }

  function SubToEnd(s: string, t: string): string
    requires |t| > 0
  {
    SubToEndFrom(s, t, 0)
  }

  /** On a string without line feeds the substitution cuts at the first occurrence of t. */
  lemma {:induction false} SubToEndFromWithoutLineFeed(s: string, t: string, p: nat)
    requires |t| > 0 && p <= |s|
    requires forall i :: 0 <= i < |s| ==> s[i] != '\n'
    requires forall j :: 0 <= j < p ==> !OccursAt(s, t, j)
    ensures SubToEndFrom(s, t, p) == CutAt(s, t)
    decreases |s| - p
  {
    ContainsIff(s, t);
    if p + |t| <= |s| {
      assert s[p..][..|t|] == s[p..p + |t|];
    }
    if IsPrefix(t, s[p..]) {
      assert OccursAt(s, t, p);
      assert s[..p] + s[|s|..] == s[..p];
    } else if p < |s| {
      SubToEndFromWithoutLineFeed(s, t, p + 1);
    }
  }

  lemma SubToEndWithoutLineFeed(s: string, t: string)
    requires |t| > 0
    ensures (forall i :: 0 <= i < |s| ==> s[i] != '\n') ==> SubToEnd(s, t) == CutAt(s, t)
  {
    if forall i :: 0 <= i < |s| ==> s[i] != '\n' {
      SubToEndFromWithoutLineFeed(s, t, 0);
    }
  }

  /** s[i] == c means that [c] occurs in s. */
  lemma CharOccurs(s: string, c: char, i: int)
    requires 0 <= i < |s|
    ensures s[i] == c ==> Contains(s, [c])
  {
    if s[i] == c {
      assert OccursAt(s, [c], i);
      OccursToContains(s, [c], i);
    }
  }

  /** The one-character substring test is membership. */
  lemma ContainsChar(s: string, c: char)
    ensures Contains(s, [c]) <==> c in s
  {
    forall i | 0 <= i < |s| ensures s[i] == c ==> Contains(s, [c]) {
      CharOccurs(s, c, i);
    }
    if Contains(s, [c]) {
      ContainsToOccurs(s, [c]);
      var i :| OccursAt(s, [c], i);
      assert s[i] == c;
    }
  }

  /** Cutting is idempotent: the first cut removes every occurrence. */
  lemma CutAtIdempotent(s: string, t: string)
    requires |t| > 0
    ensures CutAt(CutAt(s, t), t) == CutAt(s, t)
  {
  }

  /** A prefix of a string without t has no t either. */
  lemma PrefixKeepsAbsence(p: string, s: string, t: string)
    requires IsPrefix(p, s) && !Contains(s, t)
    ensures !Contains(p, t)
  {
    ContainsIff(p, t);
    ContainsIff(s, t);
    forall i ensures !OccursAt(p, t, i) {
      OccursInLonger(p, s, t, i);
    }
  }

  /** The text after the last occurrence of c: Python's `s.split(c)[-1]`. */
  function AfterLast(s: string, c: char): (r: string)
    ensures IsSuffix(r, s) && c !in r
    ensures r == s || s[|s| - |r| - 1] == c
  {
    if s == [] then []
    else if s[|s| - 1] == c then []
    else AfterLast(s[..|s| - 1], c) + [s[|s| - 1]]
  }

  /** Every a replaced by b: Python's `s.replace(a, b)` for single characters. */
  function ReplaceChar(s: string, a: char, b: char): (r: string)
    ensures |r| == |s|
    ensures forall i :: 0 <= i < |s| ==> r[i] == (if s[i] == a then b else s[i])
  {
    if s == [] then [] else [if s[0] == a then b else s[0]] + ReplaceChar(s[1..], a, b)
  }

  /** The first occurrence of t replaced by u: JavaScript's `s.replace(t, u)` for a string pattern. */
  function ReplaceFirst(s: string, t: string, u: string): (r: string)
    ensures !Contains(s, t) ==> r == s
    ensures Contains(s, t) ==> exists i ::
      && OccursAt(s, t, i) && (forall j :: 0 <= j < i ==> !OccursAt(s, t, j))
      && r == s[..i] + u + s[i + |t|..]
  {
    ContainsIff(s, t);
    match IndexOf(s, t)
    case None => s
    case Some(k) => s[..k] + u + s[k + |t|..]
  }

  // ---------------------------------------------------------------------
  // Case mapping (ASCII letters only)
  // ---------------------------------------------------------------------

  predicate IsAsciiLetter(c: char) {
    'a' <= c <= 'z' || 'A' <= c <= 'Z'
  }

  function LowerChar(c: char): char {
    if 'A' <= c <= 'Z' then (c as int + 32) as char else c
  }

  function UpperChar(c: char): char {
    if 'a' <= c <= 'z' then (c as int - 32) as char else c
  }

  /** `s.lower()` / `s.toLowerCase()`, restricted to the ASCII letters. */
  function Lower(s: string): (r: string)
    ensures |r| == |s|
    ensures forall i :: 0 <= i < |s| ==> r[i] == LowerChar(s[i])
  {
    if s == [] then [] else [LowerChar(s[0])] + Lower(s[1..])
  }

  lemma LowerIdempotent(s: string)
    ensures Lower(Lower(s)) == Lower(s)
  {
  }

  // ---------------------------------------------------------------------
  // Whitespace
  // ---------------------------------------------------------------------

  /** Python's `str.isspace()` for one character. */
  predicate IsSpace(c: char) {
    || c == ' '
    || '\t' <= c <= '\r'
    || '\U{1C}' <= c <= '\U{1F}'
    || c == '\U{85}' || c == '\U{A0}' || c == '\U{1680}'
    || '\U{2000}' <= c <= '\U{200A}'
    || c == '\U{2028}' || c == '\U{2029}' || c == '\U{202F}' || c == '\U{205F}' || c == '\U{3000}'
  }

  function StripStart(s: string): (r: string)
    ensures IsSuffix(r, s)
    ensures r == [] || !IsSpace(r[0])
    ensures forall i :: 0 <= i < |s| - |r| ==> IsSpace(s[i])
  {
    if s == [] || !IsSpace(s[0]) then s else StripStart(s[1..])
  }

  function StripEnd(s: string): (r: string)
    ensures IsPrefix(r, s)
    ensures r == [] || !IsSpace(r[|r| - 1])
    ensures forall i :: |r| <= i < |s| ==> IsSpace(s[i])
  {
    if s == [] || !IsSpace(s[|s| - 1]) then s else StripEnd(s[..|s| - 1])
  }

  /** Neither starts nor ends with whitespace. */
  predicate Trimmed(s: string) {
    s == [] || (!IsSpace(s[0]) && !IsSpace(s[|s| - 1]))
  }

  /** Python's `s.strip()`: leading and trailing whitespace removed. */
  function Strip(s: string): (r: string)
    ensures Trimmed(r)
    ensures exists i :: OccursAt(s, r, i)
  {
    var a := StripStart(s);
    var r := StripEnd(a);
    StripParts(s, a, r);
    r
  }

  /** The end-stripped start-stripped text is trimmed and sits inside s. */
  lemma StripParts(s: string, a: string, r: string)
    requires a == StripStart(s) && r == StripEnd(a)
    ensures Trimmed(r) && OccursAt(s, r, |s| - |a|)
  {
    if r != [] {
      assert r[0] == a[0];
    }
    PrefixOfSuffixOccurs(s, a, r);
  }

  /** A prefix of a suffix of s occurs in s where the suffix starts. */
  lemma PrefixOfSuffixOccurs(s: string, a: string, r: string)
    requires IsSuffix(a, s) && IsPrefix(r, a)
    ensures OccursAt(s, r, |s| - |a|)
  {
    var k := |s| - |a|;
    assert s[k..k + |r|] == s[k..][..|r|];
  }

  lemma StripIdempotent(s: string)
    ensures Strip(Strip(s)) == Strip(s)
  {
  }

  /** A string that neither starts nor ends with whitespace is its own strip. */
  lemma StripUnchanged(s: string)
    requires Trimmed(s)
    ensures Strip(s) == s
  {
  }

  /** Python's `s.rstrip(c)` for one character c. */
  function StripEndChar(s: string, c: char): (r: string)
    ensures IsPrefix(r, s)
    ensures r == [] || r[|r| - 1] != c
    ensures forall i :: |r| <= i < |s| ==> s[i] == c
  {
    if s == [] || s[|s| - 1] != c then s else StripEndChar(s[..|s| - 1], c)
  }

  /** Python's `sep.join(parts)`. */
  function Join(sep: string, parts: seq<string>): string {
    if |parts| == 0 then []
    else if |parts| == 1 then parts[0]
    else parts[0] + sep + Join(sep, parts[1..])
  }

  // ---------------------------------------------------------------------
  // The order of `<` on strings
  // ---------------------------------------------------------------------

  /** Lexicographic order on characters: `a < b` on Python or JavaScript strings. */
  predicate StrLt(a: string, b: string)
    decreases |a|
  {
    if |a| == 0 then |b| > 0
    else if |b| == 0 then false
    else if a[0] != b[0] then a[0] < b[0]
    else StrLt(a[1..], b[1..])
  }

  lemma {:induction false} StrLtIrreflexive(a: string)
    ensures !StrLt(a, a)
    decreases |a|
  {
    if |a| > 0 {
      StrLtIrreflexive(a[1..]);
    }
  }

  lemma {:induction false} StrLtTransitive(a: string, b: string, c: string)
    requires StrLt(a, b) && StrLt(b, c)
    ensures StrLt(a, c)
    decreases |a|
  {
    if |a| > 0 && |b| > 0 && |c| > 0 && a[0] == b[0] && b[0] == c[0] {
      StrLtTransitive(a[1..], b[1..], c[1..]);
    }
  }

  lemma StrLtAsymmetric(a: string, b: string)
    ensures !(StrLt(a, b) && StrLt(b, a))
  {
    if StrLt(a, b) && StrLt(b, a) {
      StrLtTransitive(a, b, a);
      StrLtIrreflexive(a);
    }
  }

  lemma {:induction false} StrLtTotal(a: string, b: string)
    ensures a == b || StrLt(a, b) || StrLt(b, a)
    decreases |a|
  {
    if |a| > 0 && |b| > 0 && a[0] == b[0] {
      StrLtTotal(a[1..], b[1..]);
      if a[1..] == b[1..] {
        assert a == [a[0]] + a[1..] && b == [b[0]] + b[1..];
      }
    }
  }
}
