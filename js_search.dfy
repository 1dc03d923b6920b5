/**
 * JavaScript string search with a string argument: `indexOf(t, from)`,
 * `lastIndexOf(t)`, `substring(a, b)` and `split(sep)`.
 */
module JsSearch {
  /** `t` occurs in `s` starting at position k. */
  predicate OccursAt(s: string, t: string, k: int) {
    0 <= k && k + |t| <= |s| && s[k..k + |t|] == t
  }

  /** `s.indexOf(t, from)`: the first position from `from` on where t occurs, or -1. */
  function IndexOfFrom(s: string, t: string, from: nat): (k: int)
    ensures k == -1 || (from <= k && OccursAt(s, t, k))
    ensures k == -1 ==> forall j :: from <= j ==> !OccursAt(s, t, j)
    ensures k != -1 ==> forall j :: from <= j < k ==> !OccursAt(s, t, j)
    decreases |s| - from
  {
    if from + |t| > |s| then -1
    else if s[from..from + |t|] == t then from
    else IndexOfFrom(s, t, from + 1)
  }

  /** `s.lastIndexOf(t)`: the last position where t occurs, or -1. */
  function LastIndexOf(s: string, t: string): (k: int)
    ensures k == -1 || OccursAt(s, t, k)
    ensures forall j :: k < j ==> !OccursAt(s, t, j)
  {
    LastIndexUpTo(s, t, |s| - |t|)
  }

  /** The last position up to k where t occurs, or -1. */
  function LastIndexUpTo(s: string, t: string, k: int): (r: int)
    ensures r == -1 || (r <= k && OccursAt(s, t, r))
    ensures forall j :: r < j <= k ==> !OccursAt(s, t, j)
    decreases k + 1
  {
    if k < 0 then -1
    else if OccursAt(s, t, k) then k
    else LastIndexUpTo(s, t, k - 1)
  }

  /** Clamps a `substring` argument to the string. */
  function Clamp(a: int, n: nat): (c: nat)
    ensures c <= n
    ensures 0 <= a <= n ==> c == a
  {
    if a < 0 then 0 else if a > n then n else a
  }

  /** `s.substring(a, b)`: arguments clamped to the string, and swapped when reversed. */
  function Substring(s: string, a: int, b: int): (r: string)
    ensures 0 <= a <= b <= |s| ==> r == s[a..b]
    ensures |r| <= |s|
  {
    var x := Clamp(a, |s|);
    var y := Clamp(b, |s|);
    if x <= y then s[x..y] else s[y..x]
  }

  /** `s.split(sep)` for a non-empty separator. */
  function SplitOn(s: string, sep: string): (parts: seq<string>)
    requires |sep| > 0
    ensures |parts| >= 1
    decreases |s|
  {
    var k := IndexOfFrom(s, sep, 0);
    if k == -1 then [s] else [s[..k]] + SplitOn(s[k + |sep|..], sep)
  }

  /** The first occurrence of t from `from` on is at k when none comes before it. */
  lemma {:induction false} FirstOccurrence(s: string, t: string, from: nat, k: nat)
    requires from <= k && OccursAt(s, t, k)
    requires forall j :: from <= j < k ==> !OccursAt(s, t, j)
    ensures IndexOfFrom(s, t, from) == k
  {
  }

  /** The last occurrence of t is at k when no later character could start one. */
  lemma {:induction false} LastOccurrence(s: string, t: string, k: nat)
    requires |t| > 0 && OccursAt(s, t, k)
    requires forall j :: k < j < |s| ==> s[j] != t[0]
    ensures LastIndexOf(s, t) == k
  {
    forall j | OccursAt(s, t, j)
      ensures s[j] == t[0]
    {
      assert s[j..j + |t|][0] == s[j];
    }
  }

  /** A one-character string occurs exactly where the character is. */
  lemma {:induction false} OccursAtChar(s: string, c: char, j: int)
    ensures OccursAt(s, [c], j) <==> 0 <= j < |s| && s[j] == c
  {
    if 0 <= j < |s| {
      assert s[j..j + 1] == [s[j]];
    }
  }

  /** A separator that does not occur in s leaves s whole. */
  lemma {:induction false} SplitOnAbsent(s: string, sep: string)
    requires |sep| > 0 && forall j :: !OccursAt(s, sep, j)
    ensures SplitOn(s, sep) == [s]
  {
    assert IndexOfFrom(s, sep, 0) == -1;
  }

  /** Splitting `a + sep + b`, where sep does not occur before the one written, starts with a then b's pieces. */
  lemma {:induction false} SplitOnFirst(a: string, sep: string, b: string)
    requires |sep| > 0
    requires forall j :: 0 <= j < |a| ==> !OccursAt(a + sep + b, sep, j)
    ensures SplitOn(a + sep + b, sep) == [a] + SplitOn(b, sep)
  {
    var s := a + sep + b;
    assert s[|a|..|a| + |sep|] == sep;
    FirstOccurrence(s, sep, 0, |a|);
    assert s[..|a|] == a;
    assert s[|a| + |sep|..] == b;
  }
}
