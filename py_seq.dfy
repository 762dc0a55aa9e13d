/**
  The two pieces of Python's built-in behaviour the script relies on:
  `marker in line` on strings (substring containment) and slicing a list
  with `s[a:b]` (step 1, out-of-range bounds clamped, negative bounds
  counted from the end, an inverted range giving the empty list).
 */
module PySeq {

  /**
    Python's `marker in line` for two strings: `marker` occurs somewhere in
    `line`. A contained marker is never longer than the line.
   */
  predicate Contains(line: string, marker: string)
    ensures Contains(line, marker) ==> |marker| <= |line|
  {
    exists k :: 0 <= k <= |line| && OccursAt(line, marker, k)
  }

  /** `marker` occupies `line` from position `k` on. */
  predicate OccursAt(line: string, marker: string, k: int)
  {
    0 <= k <= |line| - |marker| && line[k..k + |marker|] == marker
  }

  /** A marker found at a position of a line is contained in it. */
  lemma ContainsAt(line: string, marker: string, k: nat)
    requires k + |marker| <= |line|
    requires line[k..k + |marker|] == marker
    ensures Contains(line, marker)
  {
    assert OccursAt(line, marker, k);
  }

  /** The empty string is in every line, as Python's `"" in line` is always true. */
  lemma ContainsEmpty(line: string)
    ensures Contains(line, "")
  {
    ContainsAt(line, "", 0);
  }

  /** A string is contained in every string that it starts, ends or sits inside of. */
  lemma ContainsInside(before: string, marker: string, after: string)
    ensures Contains(before + marker + after, marker)
  {
    var line := before + marker + after;
    assert line[|before|..|before| + |marker|] == marker;
    ContainsAt(line, marker, |before|);
  }

  /** Where a Python slice bound `i` lands in a sequence of length `n`. */
  function Bound(i: int, n: nat): (r: nat)
    ensures r <= n
  {
    if i < 0 then (if i + n < 0 then 0 else i + n)
    else if i > n then n
    else i
  }

  /** Python's `s[a:b]`. */
  function Slice<T>(s: seq<T>, a: int, b: int): (r: seq<T>)
    ensures Bound(a, |s|) <= Bound(b, |s|) ==> |r| == Bound(b, |s|) - Bound(a, |s|)
    ensures Bound(b, |s|) <= Bound(a, |s|) ==> r == []
    ensures forall k :: 0 <= k < |r| ==> r[k] == s[Bound(a, |s|) + k]
  {
    var lo, hi := Bound(a, |s|), Bound(b, |s|);
    if lo <= hi then s[lo..hi] else []
  }

  /** Python's `s[:i] + s[i:] == s`, for every bound `i`, negative or past the end included. */
  lemma SliceSplit<T>(s: seq<T>, i: int)
    ensures Slice(s, 0, i) + Slice(s, i, |s|) == s
  {
    var b := Bound(i, |s|);
    assert Slice(s, 0, i) == s[..b];
    assert Slice(s, i, |s|) == s[b..];
  }

  /**
    Python's negative and past-the-end bounds: `s[-k:]` is the last `k`
    elements (all of them when `k` exceeds the length), `s[:-k]` is everything
    but the last `k`, and an end bound past the length reads as the length.
   */
  lemma SliceOutOfRange<T>(s: seq<T>, k: int, a: int, b: int)
    requires k > 0
    ensures var m := if k <= |s| then k else |s|;
      Slice(s, -k, |s|) == s[|s| - m..] && Slice(s, 0, -k) == s[..|s| - m]
    ensures b >= |s| ==> Slice(s, a, b) == Slice(s, a, |s|)
  {
  }

  /** Within range, a Python slice is Dafny's subsequence. */
  lemma SliceInRange<T>(s: seq<T>, a: int, b: int)
    requires 0 <= a <= b <= |s|
    ensures Slice(s, a, b) == s[a..b]
  {
  }

  /** A slice whose start is past its end is empty; `s[:b]` and `s[a:]` with in-range bounds. */
  lemma SliceShapes<T>(s: seq<T>, a: int, b: int)
    ensures 0 <= b <= a ==> Slice(s, a, b) == []
    ensures 0 <= b <= |s| ==> Slice(s, 0, b) == s[..b]
    ensures 0 <= a <= |s| ==> Slice(s, a, |s|) == s[a..]
  {
  }
}
