/** Searching and first-occurrence replacement on strings, the behaviour of
    JavaScript's `String.prototype.replace` when both arguments are strings. */
module Strings {
  import opened Optional

  /** `p` occurs in `s` starting at position `i`. */
  predicate OccursAt(s: string, p: string, i: int) {
    0 <= i && i + |p| <= |s| && s[i..i + |p|] == p
  }

  /** `p` occurs somewhere in `s`. */
  predicate Contains(s: string, p: string) {
    exists i :: 0 <= i <= |s| && OccursAt(s, p, i)
  }

  /** `i` is the leftmost position at which `p` occurs in `s`. */
  predicate FirstOccurrence(s: string, p: string, i: int) {
    OccursAt(s, p, i) && forall j :: 0 <= j < i ==> !OccursAt(s, p, j)
  }

  /** The leftmost occurrence of `p` in `s` at or after position `k`. */
  function IndexFrom(s: string, p: string, k: nat): (r: Option<nat>)
    decreases |s| - k
    ensures r.Some? ==> k <= r.value && OccursAt(s, p, r.value)
    ensures r.Some? ==> forall j :: k <= j < r.value ==> !OccursAt(s, p, j)
    ensures r.None? ==> forall j :: k <= j ==> !OccursAt(s, p, j)
  {
    if k + |p| > |s| then None
    else if s[k..k + |p|] == p then Some(k)
    else IndexFrom(s, p, k + 1)
  }

  /** The leftmost occurrence of `p` in `s`, if any. */
  function IndexOf(s: string, p: string): (r: Option<nat>)
    ensures r.Some? <==> Contains(s, p)
    ensures r.Some? ==> FirstOccurrence(s, p, r.value)
  {
    IndexFrom(s, p, 0)
  }

  /** Replaces the first occurrence of `p` in `s` by `rep`; a string in which
      `p` does not occur is returned as it is. (The replacement strings used
      by the widget contain no `$`, so JavaScript's `$&`-style substitution
      patterns play no part.) */
  function ReplaceFirst(s: string, p: string, rep: string): (r: string)
    ensures !Contains(s, p) ==> r == s
    ensures forall i :: FirstOccurrence(s, p, i) ==> r == s[..i] + rep + s[i + |p|..]
  {
    match IndexOf(s, p)
    case None => s
    case Some(i) =>
      FirstOccurrenceUnique(s, p, i);
      s[..i] + rep + s[i + |p|..]
  }

  /** There is only one leftmost occurrence. */
  lemma FirstOccurrenceUnique(s: string, p: string, i: int)
    requires FirstOccurrence(s, p, i)
    ensures forall j :: FirstOccurrence(s, p, j) ==> j == i
  {
  }

  /** A string that begins with `p` has it replaced at the front. */
  lemma ReplaceFirstOfPrefixed(p: string, t: string, rep: string)
    ensures ReplaceFirst(p + t, p, rep) == rep + t
  {
    assert OccursAt(p + t, p, 0) by { assert (p + t)[..|p|] == p; }
    assert FirstOccurrence(p + t, p, 0);
    assert (p + t)[|p|..] == t;
  }

  /** Only the first occurrence is replaced: when `p` occurs first right
      after `a`, everything after that occurrence, including any later
      occurrence of `p` in `b`, is kept verbatim. */
  lemma ReplaceFirstKeepsRest(a: string, p: string, b: string, rep: string)
    requires forall j :: 0 <= j < |a| ==> !OccursAt(a + p + b, p, j)
    ensures ReplaceFirst(a + p + b, p, rep) == a + rep + b
  {
    var s := a + p + b;
    assert s[|a|..|a| + |p|] == p;
    assert FirstOccurrence(s, p, |a|);
    assert s[..|a|] == a;
    assert s[|a| + |p|..] == b;
  }

  /** An occurrence of `p` in `b` is still an occurrence, shifted by `|a|`,
      in `a + b`. */
  lemma OccursInSuffix(a: string, b: string, p: string, k: int)
    requires OccursAt(b, p, k)
    ensures OccursAt(a + b, p, |a| + k)
  {
    assert (a + b)[|a| + k..|a| + k + |p|] == b[k..k + |p|];
  }
}
