# fix_index: marker-based line relocation, modelled in Dafny

`game/fix_index.py` is a one-shot maintenance script for the game's
`index.html`. It reads the file as a list of lines, finds the first line
holding each of four marker comments (the placeholder's start and end, the
orphaned block's start and end), stops with an error if any marker is
missing, and otherwise writes back

    lines[:ps] + header + lines[os:oe] + lines[pe:os] + lines[oe:]

where `header` is a fixed block of six lines. The four indices are never
checked for order; Python's slicing clamps bounds and makes a slice whose
start is past its end empty.

The project models the part between the read and the write:

- `wrappers.dfy` — `Option`, whose `None` stands for the script's
  `exit(1)`.
- `py_seq.dfy` (module `PySeq`) — Python's `marker in line` on strings
  (`Contains`, substring containment) and Python's `s[a:b]` (`Slice`: negative
  bounds counted from the end, bounds clamped, inverted ranges empty).
- `fix_index.dfy` (module `FixIndex`) — the markers (`SourceMarkers`, the
  script's literals, with a `Markers` parameter so the logic is stated for any
  four markers), the literal `Header`, the first-match specification
  `FirstMatch`, the scan `LocateMarkers` (a method with the script's single
  loop and four mutable indices), the existence check, `Reassemble` (the
  concatenation of slices) and the whole transformation as the function
  `Fix` and the method `FixLines`.
- `fix_index_properties.dfy` (module `FixIndexProperties`) — lemmas about the
  result: the exact output, the output length for indices
  in any order, and, when `ps <= pe <= os <= oe`, the length
  `len(lines) + 6 - (pe - ps)`, the unchanged prefix and suffix, the multiset
  of lines, and a position bijection showing every original line outside
  `[ps, pe)` appears exactly once outside the header.

For ordered markers the output has `len(lines) + 6 - (pe - ps)` lines:
`lines[:ps]` and `lines[pe:os]` together skip `lines[ps:pe]`
(`ReassembleOrderedLength`).

## Model

| member | source | states |
|---|---|---|
| PySeq.ContainsInside | game/fix_index.py:21-28 | `marker in line` holds whenever the marker occurs anywhere inside the line |
| PySeq.Contains | game/fix_index.py:21-27 | `marker in line`: the marker occurs at some position of the line; a contained marker is never longer than the line |
| PySeq.ContainsEmpty | game/fix_index.py:21-27 | the empty string is in every line, as in Python |
| PySeq.SliceSplit | game/fix_index.py:56-58 | Python's `s[:i] + s[i:] == s` holds for every bound `i`, negative and past-the-end ones included, so the clamping neither loses nor repeats an element |
| PySeq.Slice | game/fix_index.py:56-58 | `s[a:b]` is empty when the clamped start is not before the clamped end; otherwise it has their difference as length and holds `s`'s elements from the clamped start on |
| PySeq.SliceOutOfRange | game/fix_index.py:56-58 | Python's bounds outside the list: `s[-k:]` is the last `k` elements (all when `k` exceeds the length), `s[:-k]` all but the last `k`, and an end bound past the length acts as the length |
| PySeq.SliceInRange | game/fix_index.py:56-58 | with `0 <= a <= b <= len(s)` the Python slice is the plain subsequence |
| PySeq.SliceShapes | game/fix_index.py:56-58 | a slice whose start is past its end is empty; `s[:b]` and `s[a:]` are the prefix and suffix |
| FixIndex.FirstMatchUnique | game/fix_index.py:20-28 | the first-match characterisation determines one index |
| FixIndex.FirstMatch | game/fix_index.py:15-28 | result is -1 exactly when no line holds the marker; otherwise it is a line index, that line holds the marker and no earlier line does |
| FixIndex.Locate | game/fix_index.py:15-28 | each of the four indices is the first match of its own marker, or -1 |
| FixIndex.AllFound | game/fix_index.py:32 | the existence check; it has no contract of its own, and AllFoundMeansAllPresent states what it decides |
| FixIndex.AllFoundMeansAllPresent | game/fix_index.py:32 | no index of the scan is still -1 exactly when every one of the four markers occurs in some line |
| FixIndex.LocateMarkers | game/fix_index.py:15-28 | the single loop with four indices, each set only while still -1, ends with exactly the first-match indices of the four markers |
| FixIndex.Fix | game/fix_index.py:32-34 | the transformation gives up exactly when some marker occurs in no line; no other condition, ordering included, is checked |
| FixIndex.Reassemble | game/fix_index.py:37-60 | the concatenation of the five parts; it has no contract of its own, and FixExactOutput and the Reassemble* lemmas of FixIndexProperties state what it produces |
| FixIndex.FixLines | game/fix_index.py:15-60 | scanning, checking and reassembling gives exactly `Fix`, and gives up exactly when a marker is missing |
| FixIndex.SourceMarkers | game/fix_index.py:9-12 | the four marker literals, character for character; a constant, with no contract |
| FixIndex.Header | game/fix_index.py:40-47 | the six header line literals, each with its line terminator; a constant, with no contract, whose shape HeaderShape states |
| FixIndexProperties.HeaderShape | game/fix_index.py:40-47 | the header has six lines and its first line holds the placeholder-start marker declared at line 9 |
| FixIndexProperties.SharedLineSetsBoth | game/fix_index.py:20-28 | one line holding two markers, with no earlier line holding either, sets both indices to that line |
| FixIndexProperties.FoundIndexStable | game/fix_index.py:21-28 | a found index is never overwritten: appending further lines, matching or not, leaves it unchanged |
| FixIndexProperties.FixExactOutput | game/fix_index.py:37-60 | with the four first-match indices found, the output is `lines[:ps] + header + lines[os:oe] + lines[pe:os] + lines[oe:]` with Python slicing, whatever their order |
| FixIndexProperties.ReassembleLength | game/fix_index.py:37-60 | for indices within the document in any order, the output length is `ps + 6 + max(0, oe - os) + max(0, os - pe) + (len - oe)` |
| FixIndexProperties.ReassembleOrderedLength | game/fix_index.py:40-60 | when `ps <= pe <= os <= oe`, the output has `len(lines) + 6 - (pe - ps)` lines |
| FixIndexProperties.ReassembleKeepsPrefix | game/fix_index.py:56-60 | the first `ps` lines are unchanged and the header follows them immediately |
| FixIndexProperties.ReassembleKeepsSuffix | game/fix_index.py:58-60 | the lines from `oe` on are unchanged and end the output |
| FixIndexProperties.ReassembleOrderedShape | game/fix_index.py:37-60 | in order, the output is the prefix, the header, the orphaned block, the lines between, and the suffix, as plain subsequences |
| FixIndexProperties.ReassembleMultiset | game/fix_index.py:56-60 | in order, the output's lines plus the dropped `[ps, pe)` block are the original lines plus the header, as multisets |
| FixIndexProperties.ReassembleMovesLine | game/fix_index.py:56-60 | in order, each original line outside `[ps, pe)` appears at its new position, outside the header, and that position maps back to it |
| FixIndexProperties.ReassembleOnlyMovedLines | game/fix_index.py:56-60 | in order, each output line outside the header is the original line at its old position, which lies outside `[ps, pe)` and maps back to it; with ReassembleMovesLine every kept line appears exactly once |
| FixIndexProperties.FixOrdered | game/fix_index.py:32-60 | when the script succeeds on ordered markers, its output has `len(lines) + 6 - (pe - ps)` lines, keeps the first `ps` lines and ends with the lines from `oe` on |

## Left out

- Reading and writing the file (game/fix_index.py:3, 5-6, 67-68): the model takes and returns the list of lines, each with its line terminator as `readlines` keeps it. Text encoding is not modelled: a line is a sequence of characters.
- The `print` diagnostics (game/fix_index.py:30, 33, 63-64, 70): console output is not modelled.
- `exit(1)` (game/fix_index.py:34): modelled as the result `None`; the process exit status is not modelled.
- `import os` (game/fix_index.py:1): unused by the script.
- A second run of the script on its own output: the code promises nothing about it, so no lemma is stated.
- Rejection of out-of-order markers: the code has none, so none is modelled; the ordering appears only as a hypothesis of the lemmas that need it.
