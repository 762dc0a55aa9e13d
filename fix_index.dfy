/**
  The line-relocation step of game/fix_index.py, between reading the file
  and writing it back: find the first line holding each of four marker
  comments, give up if one is missing, otherwise rebuild the document as
  `lines[:ps] + header + lines[os:oe] + lines[pe:os] + lines[oe:]`.
  A document is the list that Python's `readlines` yields, so each line
  keeps its line terminator.
 */
module FixIndex {
  import opened Wrappers
  import opened PySeq

  /** The four marker substrings, in the order the script declares them. */
  datatype Markers = Markers(
    placeholderStart: string,
    placeholderEnd: string,
    orphanedStart: string,
    orphanedEnd: string)

  /** The markers the script searches for. */
  const SourceMarkers := Markers(
    "    <!-- Loading Screen (New) -->",
    "    <!-- WRAPPER FOR CRT ANIMATION - INITIALLY HIDDEN (Screen Off) -->",
    "            <!-- Top Left Info -->",
    "        <!-- Gameplay Screen (Updated with User's HUD) -->")

  /** The six literal lines put in place of the placeholder block. */
  const Header: seq<string> := [
    "    <!-- Loading Screen (New) -->\n",
    "    <div id=\"loadingScreen\"\n",
    "        class=\"screen active absolute inset-0 z-[60] flex flex-col items-center justify-center bg-background-light dark:bg-background-dark text-black dark:text-white font-mono overflow-hidden transition-colors duration-500\">\n",
    "        <!-- Background elements -->\n",
    "        <!-- Background elements (Moved to global) -->\n",
    "\n"
  ]

  /** The value an index keeps while its marker has not been seen. */
  const NotFound := -1

  /** The four line indices found by the scan, each `NotFound` or a line index. */
  datatype Indices = Indices(
    placeholderStart: int,
    placeholderEnd: int,
    orphanedStart: int,
    orphanedEnd: int)

  /** Some line of the document holds `marker`. */
  predicate Present(lines: seq<string>, marker: string)
  {
    exists i :: 0 <= i < |lines| && Contains(lines[i], marker)
  }

  /**
    `r` is what a first-match search of the first `n` lines for `marker`
    gives: `NotFound` when none of them holds it, otherwise the lowest
    index of one that does.
   */
  ghost predicate IsFirstMatchBelow(lines: seq<string>, marker: string, n: nat, r: int)
    requires n <= |lines|
  {
    if r == NotFound then
      forall j :: 0 <= j < n ==> !Contains(lines[j], marker)
    else
      0 <= r < n && Contains(lines[r], marker) &&
      forall j :: 0 <= j < r ==> !Contains(lines[j], marker)
  }

  /** A first-match search has one answer. */
  lemma FirstMatchUnique(lines: seq<string>, marker: string, n: nat, r1: int, r2: int)
    requires n <= |lines|
    requires IsFirstMatchBelow(lines, marker, n, r1)
    requires IsFirstMatchBelow(lines, marker, n, r2)
    ensures r1 == r2
  {
  }

  /** The index of the first line holding `marker`, or `NotFound`. */
  function FirstMatch(lines: seq<string>, marker: string): (r: int)
    ensures IsFirstMatchBelow(lines, marker, |lines|, r)
    ensures r == NotFound <==> !Present(lines, marker)
    ensures r != NotFound ==> 0 <= r < |lines|
    decreases |lines|
  {
    if |lines| == 0 then NotFound
    else if Contains(lines[0], marker) then 0
    else
      var rest := FirstMatch(lines[1..], marker);
      if rest == NotFound then NotFound else rest + 1
  }

  /** Every marker occurs in the document. */
  predicate AllPresent(lines: seq<string>, mk: Markers)
  {
    Present(lines, mk.placeholderStart) && Present(lines, mk.placeholderEnd) &&
    Present(lines, mk.orphanedStart) && Present(lines, mk.orphanedEnd)
  }

  /** The indices the scan ends with: each the first match of its own marker. */
  function Locate(lines: seq<string>, mk: Markers): (ix: Indices)
    ensures IsFirstMatchBelow(lines, mk.placeholderStart, |lines|, ix.placeholderStart)
    ensures IsFirstMatchBelow(lines, mk.placeholderEnd, |lines|, ix.placeholderEnd)
    ensures IsFirstMatchBelow(lines, mk.orphanedStart, |lines|, ix.orphanedStart)
    ensures IsFirstMatchBelow(lines, mk.orphanedEnd, |lines|, ix.orphanedEnd)
  {
    Indices(
      FirstMatch(lines, mk.placeholderStart),
      FirstMatch(lines, mk.placeholderEnd),
      FirstMatch(lines, mk.orphanedStart),
      FirstMatch(lines, mk.orphanedEnd))
  }

  /** The existence check: no index is still `NotFound`. */
  predicate AllFound(ix: Indices)
  {
    ix.placeholderStart != NotFound && ix.placeholderEnd != NotFound &&
    ix.orphanedStart != NotFound && ix.orphanedEnd != NotFound
  }

  /** The existence check passes at the scan's indices exactly when every marker occurs. */
  lemma AllFoundMeansAllPresent(lines: seq<string>, mk: Markers)
    ensures AllFound(Locate(lines, mk)) <==> AllPresent(lines, mk)
  {
  }

  /**
    The new document, with Python slice semantics and no check of the
    order of the indices: the lines before the placeholder, the header,
    the orphaned block, the lines between the placeholder's end and the
    orphaned block, and the lines from the orphaned block's end on.
   */
  function Reassemble(lines: seq<string>, ix: Indices): seq<string>
  {
    var part1 := Slice(lines, 0, ix.placeholderStart);
    var orphaned := Slice(lines, ix.orphanedStart, ix.orphanedEnd);
    var part2 := Slice(lines, ix.placeholderEnd, ix.orphanedStart);
    var part3 := Slice(lines, ix.orphanedEnd, |lines|);
    part1 + Header + orphaned + part2 + part3
  }

  /**
    The whole transformation: `None` where the script stops with an error
    before writing, otherwise the lines it writes back.
   */
  function Fix(lines: seq<string>, mk: Markers): (r: Option<seq<string>>)
    ensures r.None? <==> !AllPresent(lines, mk)
  {
    var ix := Locate(lines, mk);
    if !AllFound(ix) then None else Some(Reassemble(lines, ix))
  }

  /**
    The scan: one pass over the lines keeping four indices, each set at
    the first line holding its marker and never changed afterwards.
   */
  method LocateMarkers(lines: seq<string>, mk: Markers) returns (ix: Indices)
    ensures ix == Locate(lines, mk)
  {
    var placeholderStart, placeholderEnd, orphanedStart, orphanedEnd := NotFound, NotFound, NotFound, NotFound;
    for i := 0 to |lines|
      invariant IsFirstMatchBelow(lines, mk.placeholderStart, i, placeholderStart)
      invariant IsFirstMatchBelow(lines, mk.placeholderEnd, i, placeholderEnd)
      invariant IsFirstMatchBelow(lines, mk.orphanedStart, i, orphanedStart)
      invariant IsFirstMatchBelow(lines, mk.orphanedEnd, i, orphanedEnd)
    {
      var line := lines[i];
      if placeholderStart == NotFound && Contains(line, mk.placeholderStart) {
        placeholderStart := i;
      }
      if placeholderEnd == NotFound && Contains(line, mk.placeholderEnd) {
        placeholderEnd := i;
      }
      if orphanedStart == NotFound && Contains(line, mk.orphanedStart) {
        orphanedStart := i;
      }
      if orphanedEnd == NotFound && Contains(line, mk.orphanedEnd) {
        orphanedEnd := i;
      }
    }
    ix := Indices(placeholderStart, placeholderEnd, orphanedStart, orphanedEnd);
    var spec := Locate(lines, mk);
    FirstMatchUnique(lines, mk.placeholderStart, |lines|, ix.placeholderStart, spec.placeholderStart);
    FirstMatchUnique(lines, mk.placeholderEnd, |lines|, ix.placeholderEnd, spec.placeholderEnd);
    FirstMatchUnique(lines, mk.orphanedStart, |lines|, ix.orphanedStart, spec.orphanedStart);
    FirstMatchUnique(lines, mk.orphanedEnd, |lines|, ix.orphanedEnd, spec.orphanedEnd);
  }

  /** The script between the read and the write: scan, check, reassemble. */
  method FixLines(lines: seq<string>, mk: Markers) returns (r: Option<seq<string>>)
    ensures r == Fix(lines, mk)
    ensures r.None? <==> !AllPresent(lines, mk)
  {
    var ix := LocateMarkers(lines, mk);
    if !AllFound(ix) {
      return None;
    }
    r := Some(Reassemble(lines, ix));
  }
}
