/**
  What the transformation of game/fix_index.py does to a document: the
  scan's indices, the exact output, and, when the markers come
  in their natural order, how many lines come out and where each
  original line goes.
 */
module FixIndexProperties {
  import opened Wrappers
  import opened PySeq
  import opened FixIndex

  /** The header has six lines, and its first line holds the placeholder-start marker again. */
  lemma HeaderShape()
    ensures |Header| == 6
    ensures Contains(Header[0], SourceMarkers.placeholderStart)
  {
    assert Header[0] == "" + SourceMarkers.placeholderStart + "\n";
    ContainsInside("", SourceMarkers.placeholderStart, "\n");
  }

  /** One line can set several indices in the same pass. */
  lemma SharedLineSetsBoth(lines: seq<string>, m1: string, m2: string, i: nat)
    requires i < |lines|
    requires Contains(lines[i], m1) && Contains(lines[i], m2)
    requires forall j :: 0 <= j < i ==> !Contains(lines[j], m1) && !Contains(lines[j], m2)
    ensures FirstMatch(lines, m1) == i && FirstMatch(lines, m2) == i
  {
  }

  /** A found index is kept: lines after it, matching or not, do not move it. */
  lemma {:induction false} FoundIndexStable(lines: seq<string>, more: seq<string>, marker: string)
    requires FirstMatch(lines, marker) != NotFound
    ensures FirstMatch(lines + more, marker) == FirstMatch(lines, marker)
  {
    var r := FirstMatch(lines, marker);
    var all := lines + more;
    assert forall j :: 0 <= j < |lines| ==> all[j] == lines[j];
    assert IsFirstMatchBelow(all, marker, |all|, r);
    FirstMatchUnique(all, marker, |all|, FirstMatch(all, marker), r);
  }

  /**
    On success the output is the concatenation of Python slices taken at
    the first-match indices, whatever order those indices are in.
   */
  lemma FixExactOutput(lines: seq<string>, mk: Markers, ps: int, pe: int, os: int, oe: int)
    requires IsFirstMatchBelow(lines, mk.placeholderStart, |lines|, ps) && ps != NotFound
    requires IsFirstMatchBelow(lines, mk.placeholderEnd, |lines|, pe) && pe != NotFound
    requires IsFirstMatchBelow(lines, mk.orphanedStart, |lines|, os) && os != NotFound
    requires IsFirstMatchBelow(lines, mk.orphanedEnd, |lines|, oe) && oe != NotFound
    ensures Fix(lines, mk) == Some(Slice(lines, 0, ps) + Header + Slice(lines, os, oe) +
                                   Slice(lines, pe, os) + Slice(lines, oe, |lines|))
  {
    var ix := Locate(lines, mk);
    FirstMatchUnique(lines, mk.placeholderStart, |lines|, ix.placeholderStart, ps);
    FirstMatchUnique(lines, mk.placeholderEnd, |lines|, ix.placeholderEnd, pe);
    FirstMatchUnique(lines, mk.orphanedStart, |lines|, ix.orphanedStart, os);
    FirstMatchUnique(lines, mk.orphanedEnd, |lines|, ix.orphanedEnd, oe);
  }

  /** Every index lies within the document (the upper bound may be reached). */
  ghost predicate InRange(lines: seq<string>, ix: Indices)
  {
    0 <= ix.placeholderStart <= |lines| && 0 <= ix.placeholderEnd <= |lines| &&
    0 <= ix.orphanedStart <= |lines| && 0 <= ix.orphanedEnd <= |lines|
  }

  /** The markers come in their natural order. */
  ghost predicate Ordered(lines: seq<string>, ix: Indices)
  {
    0 <= ix.placeholderStart <= ix.placeholderEnd <= ix.orphanedStart <= ix.orphanedEnd <= |lines|
  }

  /** The length of the output for indices in any order: inverted slices contribute nothing. */
  lemma ReassembleLength(lines: seq<string>, ix: Indices)
    requires InRange(lines, ix)
    ensures |Reassemble(lines, ix)| ==
      ix.placeholderStart + |Header| +
      (if ix.orphanedStart <= ix.orphanedEnd then ix.orphanedEnd - ix.orphanedStart else 0) +
      (if ix.placeholderEnd <= ix.orphanedStart then ix.orphanedStart - ix.placeholderEnd else 0) +
      (|lines| - ix.orphanedEnd)
  {
  }

  /** In order, the block `[ps, pe)` is dropped and the six header lines take its place. */
  lemma ReassembleOrderedLength(lines: seq<string>, ix: Indices)
    requires Ordered(lines, ix)
    ensures |Reassemble(lines, ix)| == |lines| + 6 - (ix.placeholderEnd - ix.placeholderStart)
  {
    ReassembleLength(lines, ix);
  }

  /** The first, second and last of five concatenated parts can be read back by slicing. */
  lemma ConcatParts<T>(a: seq<T>, b: seq<T>, c: seq<T>, d: seq<T>, e: seq<T>)
    ensures (a + b + c + d + e)[..|a|] == a
    ensures (a + b + c + d + e)[|a|..|a| + |b|] == b
    ensures (a + b + c + d + e)[|a + b + c + d|..] == e
  {
  }

  /** The lines before the placeholder are kept, followed at once by the header. */
  lemma ReassembleKeepsPrefix(lines: seq<string>, ix: Indices)
    requires 0 <= ix.placeholderStart <= |lines|
    ensures |Reassemble(lines, ix)| >= ix.placeholderStart + |Header|
    ensures Reassemble(lines, ix)[..ix.placeholderStart] == lines[..ix.placeholderStart]
    ensures Reassemble(lines, ix)[ix.placeholderStart..ix.placeholderStart + |Header|] == Header
  {
    SliceShapes(lines, 0, ix.placeholderStart);
    ConcatParts(Slice(lines, 0, ix.placeholderStart), Header, Slice(lines, ix.orphanedStart, ix.orphanedEnd),
                Slice(lines, ix.placeholderEnd, ix.orphanedStart), Slice(lines, ix.orphanedEnd, |lines|));
  }

  /** The lines from the orphaned block's end on are kept and come last. */
  lemma ReassembleKeepsSuffix(lines: seq<string>, ix: Indices)
    requires 0 <= ix.orphanedEnd <= |lines|
    ensures |Reassemble(lines, ix)| >= |lines| - ix.orphanedEnd
    ensures Reassemble(lines, ix)[|Reassemble(lines, ix)| - (|lines| - ix.orphanedEnd)..] == lines[ix.orphanedEnd..]
  {
    SliceShapes(lines, ix.orphanedEnd, |lines|);
    ConcatParts(Slice(lines, 0, ix.placeholderStart), Header, Slice(lines, ix.orphanedStart, ix.orphanedEnd),
                Slice(lines, ix.placeholderEnd, ix.orphanedStart), Slice(lines, ix.orphanedEnd, |lines|));
  }

  /** In order, every slice is an ordinary subsequence. */
  lemma ReassembleOrderedShape(lines: seq<string>, ix: Indices)
    requires Ordered(lines, ix)
    ensures Reassemble(lines, ix) ==
      lines[..ix.placeholderStart] + Header + lines[ix.orphanedStart..ix.orphanedEnd] +
      lines[ix.placeholderEnd..ix.orphanedStart] + lines[ix.orphanedEnd..]
  {
    SliceShapes(lines, 0, ix.placeholderStart);
    SliceInRange(lines, ix.orphanedStart, ix.orphanedEnd);
    SliceInRange(lines, ix.placeholderEnd, ix.orphanedStart);
    SliceShapes(lines, ix.orphanedEnd, |lines|);
  }

  /** In order, the output holds the original lines less the placeholder block, plus the header. */
  lemma ReassembleMultiset(lines: seq<string>, ix: Indices)
    requires Ordered(lines, ix)
    ensures multiset(Reassemble(lines, ix)) + multiset(lines[ix.placeholderStart..ix.placeholderEnd]) ==
            multiset(lines) + multiset(Header)
  {
    var ps, pe, os, oe := ix.placeholderStart, ix.placeholderEnd, ix.orphanedStart, ix.orphanedEnd;
    ReassembleOrderedShape(lines, ix);
    assert lines == lines[..ps] + lines[ps..pe] + lines[pe..os] + lines[os..oe] + lines[oe..];
  }

  /** Where an original line outside `[ps, pe)` ends up in the output. */
  function NewPosition(ix: Indices, j: int): int
  {
    var ps, pe, os, oe := ix.placeholderStart, ix.placeholderEnd, ix.orphanedStart, ix.orphanedEnd;
    if j < ps then j
    else if j < os then ps + |Header| + (oe - os) + (j - pe)
    else if j < oe then ps + |Header| + (j - os)
    else j + |Header| - (pe - ps)
  }

  /** Which original line an output line outside the header came from. */
  function OldPosition(ix: Indices, p: int): int
  {
    var ps, pe, os, oe := ix.placeholderStart, ix.placeholderEnd, ix.orphanedStart, ix.orphanedEnd;
    var orphanedFrom := ps + |Header|;
    var betweenFrom := orphanedFrom + (oe - os);
    var suffixFrom := betweenFrom + (os - pe);
    if p < ps then p
    else if p < orphanedFrom then NotFound
    else if p < betweenFrom then os + (p - orphanedFrom)
    else if p < suffixFrom then pe + (p - betweenFrom)
    else p - |Header| + (pe - ps)
  }

  /** In order, each original line outside `[ps, pe)` appears in the output, outside the header. */
  lemma ReassembleMovesLine(lines: seq<string>, ix: Indices, j: int)
    requires Ordered(lines, ix)
    requires 0 <= j < |lines| && !(ix.placeholderStart <= j < ix.placeholderEnd)
    ensures 0 <= NewPosition(ix, j) < |Reassemble(lines, ix)|
    ensures !(ix.placeholderStart <= NewPosition(ix, j) < ix.placeholderStart + |Header|)
    ensures Reassemble(lines, ix)[NewPosition(ix, j)] == lines[j]
    ensures OldPosition(ix, NewPosition(ix, j)) == j
  {
    ReassembleOrderedShape(lines, ix);
  }

  /**
    In order, each output line outside the header is an original line
    outside `[ps, pe)`, and a different one for each output position: with
    ReassembleMovesLine, every kept line appears exactly once.
   */
  lemma ReassembleOnlyMovedLines(lines: seq<string>, ix: Indices, p: int)
    requires Ordered(lines, ix)
    requires 0 <= p < |Reassemble(lines, ix)|
    requires !(ix.placeholderStart <= p < ix.placeholderStart + |Header|)
    ensures 0 <= OldPosition(ix, p) < |lines|
    ensures !(ix.placeholderStart <= OldPosition(ix, p) < ix.placeholderEnd)
    ensures NewPosition(ix, OldPosition(ix, p)) == p
    ensures Reassemble(lines, ix)[p] == lines[OldPosition(ix, p)]
  {
    ReassembleOrderedShape(lines, ix);
  }

  /**
    What the script writes when its markers are in order: the block
    `[ps, pe)` is replaced by the six header lines, the lines before the
    placeholder and after the orphaned block are kept.
   */
  lemma FixOrdered(lines: seq<string>, mk: Markers, out: seq<string>)
    requires Fix(lines, mk) == Some(out)
    requires Ordered(lines, Locate(lines, mk))
    ensures var ix := Locate(lines, mk);
      |out| == |lines| + 6 - (ix.placeholderEnd - ix.placeholderStart)
    ensures var ix := Locate(lines, mk);
      out[..ix.placeholderStart] == lines[..ix.placeholderStart]
    ensures var ix := Locate(lines, mk);
      out[|out| - (|lines| - ix.orphanedEnd)..] == lines[ix.orphanedEnd..]
  {
    var ix := Locate(lines, mk);
    assert out == Reassemble(lines, ix);
    ReassembleOrderedLength(lines, ix);
    ReassembleKeepsPrefix(lines, ix);
    ReassembleKeepsSuffix(lines, ix);
  }
}
