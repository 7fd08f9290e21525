/**
  The JavaScript string operations the transform relies on: `startsWith`,
  `endsWith`, `indexOf` and `replace` with a string pattern, which replaces
  only the first occurrence.
 */
module Strings {
  import opened Wrappers

  /** `s.startsWith(prefix)` */
  predicate StartsWith(s: string, prefix: string)
  {
    |prefix| <= |s| && s[..|prefix|] == prefix
  }

  /** `s.endsWith(suffix)` */
  predicate EndsWith(s: string, suffix: string)
  {
    |suffix| <= |s| && s[|s| - |suffix|..] == suffix
  }

  /** `pat` occurs in `s` starting at index `i`. */
  predicate OccursAt(s: string, pat: string, i: int)
  {
    0 <= i && i + |pat| <= |s| && s[i..i + |pat|] == pat
  }

  predicate Contains(s: string, pat: string)
  {
    exists i :: 0 <= i <= |s| && OccursAt(s, pat, i)
  }

  /** `i` is the leftmost position at which `pat` occurs in `s`. */
  predicate IsFirstOccurrence(s: string, pat: string, i: int)
  {
    OccursAt(s, pat, i) && forall j :: 0 <= j < i ==> !OccursAt(s, pat, j)
  }

  /** The leftmost occurrence of `pat` at or after `from`. */
  function IndexOfFrom(s: string, pat: string, from: nat): (r: Option<nat>)
    decreases |s| - from
    ensures r.Some? ==> from <= r.value && OccursAt(s, pat, r.value)
    ensures r.Some? ==> forall j :: from <= j < r.value ==> !OccursAt(s, pat, j)
    ensures r.None? ==> forall j :: from <= j ==> !OccursAt(s, pat, j)
  {
    if |s| < from + |pat| then None
    else if s[from..from + |pat|] == pat then Some(from)
    else IndexOfFrom(s, pat, from + 1)
  }

  /** `s.indexOf(pat)`, with `None` for JavaScript's `-1`. */
  function IndexOf(s: string, pat: string): (r: Option<nat>)
    ensures r.Some? ==> IsFirstOccurrence(s, pat, r.value)
    ensures r.None? <==> !Contains(s, pat)
  {
    IndexOfFrom(s, pat, 0)
  }

  /** A string has at most one first occurrence of a pattern. */
  lemma FirstOccurrenceUnique(s: string, pat: string, i: int, j: int)
    requires IsFirstOccurrence(s, pat, i) && IsFirstOccurrence(s, pat, j)
    ensures i == j
  {
  }

  /** `s.replace(pat, '')`: the first occurrence of `pat` is cut out and
      nothing else changes; without an occurrence `s` is returned as is. */
  function RemoveFirst(s: string, pat: string): (r: string)
    ensures !Contains(s, pat) ==> r == s
    ensures forall i :: IsFirstOccurrence(s, pat, i) ==> r == s[..i] + s[i + |pat|..]
    ensures Contains(s, pat) ==> |r| == |s| - |pat|
  {
    match IndexOf(s, pat)
    case None => s
    case Some(i) =>
      assert forall k :: IsFirstOccurrence(s, pat, k) ==> k == i by {
        forall k | IsFirstOccurrence(s, pat, k) {
          FirstOccurrenceUnique(s, pat, i, k);
        }
      }
      s[..i] + s[i + |pat|..]
  }

  /** A string is its text before an occurrence, the occurrence, and its text after. */
  lemma SplitAtOccurrence(s: string, pat: string, i: int)
    requires OccursAt(s, pat, i)
    ensures s == s[..i] + pat + s[i + |pat|..]
  {
    assert s[i..] == s[i..i + |pat|] + s[i + |pat|..];
    assert s == s[..i] + s[i..];
  }

  /** Putting the pattern back where it was cut out restores the string. */
  lemma RemoveFirstRoundTrip(s: string, pat: string, i: int)
    requires IsFirstOccurrence(s, pat, i)
    ensures RemoveFirst(s, pat)[..i] + pat + RemoveFirst(s, pat)[i..] == s
  {
    var r := RemoveFirst(s, pat);
    var before, after := s[..i], s[i + |pat|..];
    assert r == before + after;
    assert r[..i] == before && r[i..] == after;
    SplitAtOccurrence(s, pat, i);
  }

  /** When the string starts with the pattern, the prefix is what is removed. */
  lemma RemoveFirstOfPrefix(s: string, pat: string)
    requires StartsWith(s, pat)
    ensures pat + RemoveFirst(s, pat) == s
  {
    assert IsFirstOccurrence(s, pat, 0);
    SplitAtOccurrence(s, pat, 0);
  }

  /** A pattern containing a character the string lacks occurs nowhere in it. */
  lemma AbsentWithoutCharacter(s: string, pat: string, k: nat)
    requires k < |pat| && pat[k] !in s
    ensures !Contains(s, pat)
  {
    forall i | 0 <= i <= |s|
      ensures !OccursAt(s, pat, i)
    {
      if i + |pat| <= |s| {
        assert s[i + k] in s;
        assert s[i..i + |pat|][k] == s[i + k];
      }
    }
  }
}
