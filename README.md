# unidiff: a verified model of the unified-diff parser

This project models the core of a small C++ library that reads a unified diff (as produced by
`diff -u` or `git diff`) into a patch set. A patch set is a list of patched files. Each file
carries its source and target names and timestamps, the free-text preamble that precedes its
hunks (its "patch info"), and its hunks. A hunk has a header `@@ -a,b +c,d @@ section` and a
body of added, removed, context and no-newline lines, each numbered on the side(s) of the
change it belongs to.

The model is split by the structure of the program:

- `text.dfy` (`Text`): characters, digit strings and their values.
- `grammar.dfy` (`Grammar`): the line grammar of `unidiff.h`. It covers the file headers
  `--- name<TAB>timestamp` and `+++ ...`, the three spellings of the git header
  `diff --git a/x b/y`, the `new file mode` and `deleted file mode` lines, the hunk header,
  hunk body lines, the no-newline marker and the blank line. Every pattern becomes a matcher
  function. `Classify` is the order in which the driver tries them.
- `entities.dfy` (`Entities`): the `Line` and `Hunk` values, the line-type tests, the hunk
  invariant (consecutive numbering on each side, matching the header's lengths), and the
  `PatchInfo` class with its `Print`.
- `hunk_scan.dfy` (`HunkScan`): the specification of `parse_hunk`'s reading loop. It gives
  the loop as a recursive function, plus an independent description of a complete hunk body
  and the numbering it must receive.
- `patched_file.dfy` (`PatchedFiles`): the `PatchedFile` class.
  - `ParseHunk` is the imperative loop of `parse_hunk`, proved against that specification.
  - `AddNoNewlineMarkerToLastHunk` and `AppendTrailingEmptyLine` are the two appends to the
    last hunk.
- `patch_set.dfy` (`PatchSets`): the `PatchSet` class and the dispatch loop of
  `parser_patch_file`.
  - `DispatchLine` is one iteration: one kind of line, in the source's order.
  - `ParsePatchFile` is the whole loop.
  - The input is the sequence of lines of the patch without their line terminators. One
    cursor into it is shared by the driver and the hunk reader, as the source shares one
    stream.
  - Where the source prints a diagnostic and returns, the model returns an `Aborted` outcome
    naming the reason and the line.
- `findings.dfy` (`Findings`): defects of the source, each stated as written with an input
  that shows it, next to the corrected behaviour the rest of the model uses.

The patterns in `unidiff.h` are written for a regex engine and several of them, taken
literally, do not express what the format means. They use named groups that
`std::regex` does not accept, and the hunk body pattern has a misplaced bracket. The model
states the intended grammar of each line instead:

- Body lines: a one-character tag (`+`, `-`, space, `\`) followed by the rest of the line.
  A line that is blank is read as an empty context line.
- Hunk header: both ranges, each with an optional length that defaults to 1, and an optional
  section heading after `@@`.
- File headers: a name up to the first tab, and an optional timestamp after it.
- Git header: the paths split at the last space where both halves fit the spelling. The
  three spellings are tried in order: `a/`/`b/` prefixed, URI-like (`scheme://`), then bare.

A blank line is one of at most two characters, all of them carriage returns or line feeds,
the empty line included. This corrects the code as written, which never treats the empty
line the line reader yields as blank (see Findings).

Two behaviours of the code worth noting:

- `new file mode` sets the open file's *source* name to `/dev/null`, and
  `deleted file mode` sets its *target* name to `/dev/null`
  (unidiff.cpp:210, unidiff.cpp:222).
- A git header starts a fresh preamble that holds only that header line. It does not take
  over a preamble pending before it (unidiff.cpp:194-199).

The code also has defects that the model does not reproduce:

- Two places assign a new file through `current_file` instead of allocating one. At
  unidiff.cpp:197, with a file open, this overwrites that file in place and line 198 stores
  its pointer a second time; with none open it writes through a null pointer. At
  unidiff.cpp:249 `current_file` is always null. The model allocates a new `PatchedFile` at
  both places, which is plainly what was meant.
- Addresses of temporaries are stored; the model stores values.
- `parse_hunk` shadows its `line` argument (unidiff.cpp:80). The model hands the hunk reader
  the already parsed header.

## Model

| member | source | states |
|---|---|---|
| Grammar.TagRoundTrip | unidiff.h:40-45 | each line type's tag reads back as that type; added, removed, context and no-newline have distinct one-character tags and the empty type has none |
| Grammar.BodyLineRoundTrip | unidiff.h:33-34 | a tag followed by any text without a line break parses back to exactly that type and text |
| Grammar.BodyLineSound | unidiff.h:33-34 | a line parses as a body line only when it is tag plus text or blank, and a blank line is an empty context line |
| Grammar.FileHeaderRoundTrip | unidiff.h:9-10 | a `---`/`+++` header built from a tab-free name and a timestamp matches back to that name and timestamp |
| Grammar.FileHeaderMatchSound | unidiff.h:9-10 | whatever a file-header match returns rebuilds the line: name without tab, then the timestamp after the first tab |
| Grammar.HunkHeaderRoundTrip | unidiff.h:24 | a header written with both lengths and any section heading matches back to the same four numbers and heading |
| Grammar.HunkHeaderDefaultLengths | unidiff.h:24 | a header written without lengths matches with both lengths 1 |
| Grammar.MatchRangeSound | unidiff.h:24 | a range match consumes a digit string with an optional `,digits`, and its numbers are their decimal values (length 1 when absent) |
| Grammar.HunkHeaderSound | unidiff.h:24 | every line the hunk-header matcher accepts is `@@ -range +range @@` plus an optional space and a heading, and its numbers are those of the ranges |
| Grammar.LastSplit | unidiff.h:13-15 | the chosen split of the git paths fits the spelling, and no later space would fit |
| Grammar.MatchGit | unidiff.h:13-15 | a git-header match rebuilds the line from the two paths in the given spelling; the split is the last one that fits |
| Grammar.PrefixedIsAlsoBare | unidiff.cpp:190-192 | a line in prefixed spelling also matches the bare spelling, so trying prefixed first decides which paths are kept |
| Grammar.SpellingOrderMatters | unidiff.cpp:190-192 | for `diff --git a/x b/y z` the prefixed spelling, tried first, gives `a/x` and `b/y z`, where the bare spelling alone would give `a/x b/y` and `z`; captured paths keep their `a/` and `b/` prefixes |
| Grammar.ModeLineExact | unidiff.h:18-21 | a mode line is exactly its prefix followed by a non-empty digit string |
| Grammar.MatchersOpening | unidiff.h:9-36 | each matcher accepts only lines that start with its own opening text |
| Grammar.ClassifyExact | unidiff.cpp:190-291 | the driver's classification of a line is each kind exactly when that kind's test holds and no earlier test does |
| Entities.NewLine | unidiff.cpp:11-19 | a line built without numbers carries its value and type, with all numbers 0 |
| Entities.LineTestsExclusive | unidiff.cpp:7-9 | is_added, is_removed and is_content each hold exactly for their own type, so at most one holds |
| Entities.HunkValidCounts | unidiff.cpp:85-88 | in a valid hunk, removed-plus-context lines number the source length and added-plus-context lines the target length |
| Entities.AppendToLastHunk | unidiff.cpp:142-162 | appending to the last hunk keeps the hunk count and every other hunk, and adds exactly the line to the last one; no hunks means no change |
| Entities.AppendToLastHunkKeepsValid | unidiff.cpp:142-162 | appending the no-newline marker or the trailing empty line keeps every hunk valid |
| Entities.PatchInfo.constructor | unidiff.cpp:24-27 | a new preamble holds no lines |
| Entities.PatchInfo.Print | unidiff.cpp:34-40 | the printed preamble is all its lines, in order, joined without separator |
| HunkScan.NumberedLineStep | unidiff.cpp:99-117 | added lines take the current target number, removed lines the source number, context lines both; a line advances exactly the counters of the sides it is on |
| HunkScan.ExpectedNumbering | unidiff.cpp:85-117 | numbering a body of body lines from the header's starts gives consecutive source and target numbers over exactly the lines on each side |
| HunkScan.CompleteBodyValid | unidiff.cpp:126-139 | a complete body (it reaches both ends exactly, and never earlier) gives a hunk satisfying the hunk invariant |
| HunkScan.ScanHunkMeaning | unidiff.cpp:77-140 | reading a hunk body ends in one of four ways: a complete body, read and numbered; or a failure on the first line that breaks an open body (a non-body line, or a line that overruns a range), reading stopping right after it; or the end of input with a range short. In each case the lines read are the numbered lines before the stop |
| HunkScan.ScanMeaningDetermines | unidiff.cpp:91-139 | the four cases leave no freedom: any scan with that meaning is exactly the one the reader produces |
| HunkScan.ScanHunkBounds | unidiff.cpp:91 | reading a hunk never moves the shared cursor back or past the end of the input |
| HunkScan.ScanHunkValid | unidiff.cpp:126-139 | a hunk the reader appends satisfies the hunk invariant |
| HunkScan.ScanHunkComplete | unidiff.cpp:91-139 | given a complete body at the cursor, the reader appends exactly that body, numbered, and stops right after it |
| PatchedFiles.PatchedFile.constructor | unidiff.cpp:60-70 | a new file has the given names, timestamps and preamble, and no hunks |
| PatchedFiles.PatchedFile.ParseHunk | unidiff.cpp:77-140 | the reading loop stops where the hunk specification says, with its outcome; only a completed hunk is appended, and the hunks stay valid |
| PatchedFiles.PatchedFile.AddNoNewlineMarkerToLastHunk | unidiff.cpp:142-151 | the marker line is added to the last hunk if there is one, reported by the result; hunks stay valid |
| PatchedFiles.PatchedFile.AppendTrailingEmptyLine | unidiff.cpp:153-162 | the empty line is added to the last hunk if there is one, reported by the result; hunks stay valid |
| PatchSets.PatchSet.constructor | unidiff.cpp:165-168 | a new patch set has no files |
| PatchSets.PatchSet.DispatchLine | unidiff.cpp:189-291 | per kind of line: which file is open afterwards, which preamble is pending, what is added to which file, when the driver aborts, and that everything else is unchanged |
| PatchSets.PatchSet.ParsePatchFile | unidiff.cpp:174-293 | files are only added, each freshly allocated, and no more of them than the input has lines that can open a file (git or target headers); every stored hunk is valid; an abort names a line of the kind that causes it; empty input changes nothing |
| Grammar.TypeOfTag | unidiff.h:33 | the tag character class `[- +\]`: which character opens which line type (properties in TagRoundTrip) |
| Grammar.IsBlank | unidiff.h:34 | a blank line: at most two characters, all carriage returns or line feeds, the empty line included (corrected, see Findings) |
| Grammar.ParseBodyLine | unidiff.h:33-34 | the body and empty-body patterns: a tag and its payload, or a blank line as context (properties in BodyLineRoundTrip and BodyLineSound) |
| Grammar.MatchFileHeader | unidiff.h:9-10 | the source and target header patterns: name up to the first tab, optional timestamp after it (properties in FileHeaderRoundTrip and FileHeaderMatchSound) |
| Grammar.MatchRange | unidiff.h:24 | one `start[,length]` range of the hunk header (properties in MatchRangeSound) |
| Grammar.MatchHunkHeader | unidiff.h:24 | the hunk-header pattern (properties in HunkHeaderRoundTrip, HunkHeaderDefaultLengths and HunkHeaderSound) |
| Grammar.MatchGitHeader | unidiff.h:13-15 | the three git-header spellings tried in order (properties in MatchGit, LastSplit, PrefixedIsAlsoBare and SpellingOrderMatters) |
| Grammar.IsModeLine | unidiff.h:17-21 | the new-file and deleted-file mode patterns (properties in ModeLineExact) |
| Grammar.IsNoNewlineMarker | unidiff.h:36 | the marker line, backslash included (corrected, see Findings) |
| Grammar.Classify | unidiff.cpp:187-291 | the driver's tests in their order, first match deciding (properties in ClassifyExact and MatchersOpening) |
| Entities.Line.IsAdded | unidiff.cpp:7 | the added-line test by tag (properties in LineTestsExclusive) |
| Entities.Line.IsRemoved | unidiff.cpp:8 | the removed-line test by tag (properties in LineTestsExclusive) |
| Entities.Line.IsContent | unidiff.cpp:9 | the context-line test by tag (properties in LineTestsExclusive) |
| Entities.Concat | unidiff.cpp:34-40 | the preamble's lines joined in order without separator, the value Print is proved to return |
| HunkScan.NumberedLine | unidiff.cpp:99-117 | the line stored for a body line at the current counters (properties in NumberedLineStep) |
| HunkScan.ScanFrom | unidiff.cpp:91-139 | the reading loop from a given line with given counters and stored lines (properties in ScanHunkMeaning and ScanMeaningDetermines) |
| HunkScan.ScanHunk | unidiff.cpp:83-139 | the reading loop from the line after the header with the counters at the starts |
| HunkScan.CompleteBody | unidiff.cpp:126-139 | the reference description of a hunk body: body lines only, exactly the declared lengths, reached no earlier (used by ScanHunkMeaning and ScanHunkComplete) |
| HunkScan.ExpectedLines | unidiff.cpp:85-117 | the reference numbering of a body from the header's starts (properties in ExpectedNumbering and CompleteBodyValid) |
| Findings.KindAsWritten | unidiff.cpp:104-119 | the tag chain with the no-newline constant as written (properties in KindAsWrittenDropsMarker) |
| Findings.ParseBodyLineAsWritten | unidiff.h:33-34 | the body-line patterns as written, where the empty-body pattern needs one or two carriage returns or line feeds |
| Findings.BodyLineAsWrittenDiffers | unidiff.h:34 | the body-line reading as written differs from the corrected one exactly on the empty line, which corrected is an empty context line |
| Findings.ScanFromAsWritten | unidiff.cpp:91-139 | the reading loop as written: the empty line is not a body line, and a line whose tag the chain does not select is consumed without moving a counter or being stored |
| Findings.IsNoNewlineMarkerAsWritten | unidiff.h:36 | the marker test as written, matching the text without its backslash |
| Findings.ClassifyAsWritten | unidiff.cpp:187-291 | the driver's tests as written, with the written marker test and the blank test `line == "\n"` |
| Findings.ClassifyAsWrittenDiffers | unidiff.cpp:269-284 | the driver's tests as written and corrected agree on every line that neither marker test nor the blank test accepts |
| Findings.KindAsWrittenDropsMarker | unidiff.h:44 | with the no-newline type written as two backslashes, the tag chain selects added, removed and context but never the one-backslash no-newline tag |
| Findings.MarkerDroppedAsWritten | unidiff.cpp:104-119 | for `-a`, the marker, `+b` under `@@ -1 +1 @@`, the hunk as written holds two lines; corrected, the marker is stored between them |
| Findings.MarkerMissedAsWritten | unidiff.h:36 | as written, the real marker line fails the marker test and every earlier test and is not blank, while the text without the backslash passes |
| Findings.MarkerRecognised | unidiff.h:36 | corrected, a line is classified as the marker exactly when it is the marker line |
| Findings.EmptyLineEndsHunkAsWritten | unidiff.cpp:93-97 | for ` a`, an empty line, ` b` under `@@ -1,3 +1,3 @@`, reading as written stops at the empty line with one line stored; corrected, the three lines form the hunk |
| Findings.BlankMissedAsWritten | unidiff.cpp:279-284 | as written, no line without a line feed passes the blank test, and the empty line and a lone carriage return are free text |
| Findings.EmptyLineRead | unidiff.h:28 | corrected, the empty line and a lone carriage return are empty context lines inside a hunk and blank lines after one |

## Left out

- Opening the patch file and reading it with `getline` are not modelled. The input is the sequence of lines, each without its terminator. An unopenable file is an I/O failure outside the model.
- Diagnostics written to standard output are not modelled. A driver return becomes an `Aborted` outcome. The failure outcome of `parse_hunk` is returned, and the driver ignores it as the source does.
- The regex engine is not modelled. Each pattern is replaced by the grammar it evidently intends, as described above.
- Destructors, pointer ownership and stored addresses of temporaries are not modelled. Values and freshly allocated objects take their place.
- The assignments through `current_file` at unidiff.cpp:197 and unidiff.cpp:249 are not reproduced. At line 197 with a file open they overwrite that file in place, so the patch set holds its pointer twice; otherwise they write through a null pointer. A new file is allocated at both places instead.
- `stoi` overflow is not modelled: hunk numbers are unbounded naturals.
- `DEFAULT_ENCODING` is not modelled, because nothing in the core reads it.
- Patch positions (`diff_line_no`) are never assigned by the source. The model keeps them at 0.
- The stream state test `patch.good()` is not modelled separately. Reading stops at the end of the line sequence.
- PatchSets.PatchSet.ParsePatchFile: does not characterise the final patch set as one function of the whole input. Its effect is stated line by line by `DispatchLine`; the whole loop's `ensures` gives only the invariants it keeps.

## Findings

| source | as written | input that shows it | evidently intended | confidence | as-written member | corrected member |
|---|---|---|---|---|---|---|
| unidiff.h:44 | `LINE_TYPE_NO_NEWLINE` is two backslashes. The one-character tag of a no-newline line never equals it, so the tag chain in `parse_hunk` (unidiff.cpp:104-119) falls through. The marker inside a hunk is then consumed but not stored. | hunk `@@ -1 +1 @@` with body `-a`, `\ No newline at end of file`, `+b` | the marker is stored in the hunk as a no-newline line that moves neither counter | high, given a body pattern that captures the one-character tag; not executed | Findings.MarkerDroppedAsWritten | HunkScan.ScanHunkMeaning |
| unidiff.h:36 | the pattern `^\ No newline at end of file` escapes the space, so it matches the text without its leading backslash. The real marker line after a hunk then falls through to free text, which closes the open file. | the line `\ No newline at end of file` after a hunk's last line | the marker is added to the last hunk of the open file | medium; not executed | Findings.MarkerMissedAsWritten | Findings.MarkerRecognised |
| unidiff.h:34 | the empty-body pattern needs one or two carriage returns or line feeds. The line reader strips the line feed, so an empty line inside a hunk is no body line and ends the hunk early (unidiff.cpp:93-97). | hunk `@@ -1,3 +1,3 @@` with body ` a`, an empty line, ` b` | an empty line inside a hunk is an empty context line, as the comment at unidiff.h:28 says | high; not executed | Findings.EmptyLineEndsHunkAsWritten | Findings.EmptyLineRead |
| unidiff.cpp:280 | the test `line == "\n"` never holds for a line read by `getline`. An empty line after a hunk is free text; the hunk header cleared the preamble (unidiff.cpp:259), so it closes the open file (unidiff.cpp:286-291). | `@@ -1 +1 @@`, `-a`, `+b`, then an empty line | the empty line is appended to the last hunk of the open file | high; not executed | Findings.BlankMissedAsWritten | Findings.EmptyLineRead |
