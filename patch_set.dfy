/** The patch-set driver: a state machine over the file being filled (`current`) and the
    pending preamble (`info`) that classifies each line, opens files, rewrites paths, hands
    hunk bodies to the file's hunk reader and collects free text. The driver and the hunk
    reader share one cursor into the input. */
module PatchSets {
  import opened Text
  import opened Grammar
  import opened Entities
  import opened HunkScan
  import opened PatchedFiles

  /** Why the driver gave up. */
  datatype Abort =
    | UnexpectedNewFile      // a new-file mode line with no open file or no preamble
    | UnexpectedDeletedFile  // a deleted-file mode line with no open file or no preamble
    | TargetWithoutSource    // a target header naming another file than the open one
    | UnexpectedHunk         // a hunk header with no open file
    | UnexpectedMarker       // a no-newline marker with no open file

  datatype ParseOutcome = Completed | Aborted(reason: Abort, line: nat)

  /** The kind of line each abort happens on. */
  predicate AbortsOn(reason: Abort, c: Category) {
    match reason
    case UnexpectedNewFile => c == NewFileMode
    case UnexpectedDeletedFile => c == DeletedFileMode
    case TargetWithoutSource => c.TargetHeader?
    case UnexpectedHunk => c.HunkStart?
    case UnexpectedMarker => c == NoNewlineMarker
  }

  /** The two kinds of line that can open a file. */
  predicate Opens(c: Category) { c.GitHeader? || c.TargetHeader? }

  /** How many lines could open a file. */
  function OpeningCount(lines: seq<string>): nat {
    if lines == [] then 0
    else OpeningCount(lines[..|lines| - 1]) + (if Opens(Classify(lines[|lines| - 1])) then 1 else 0)
  }

  /** Reading further never lowers the count. */
  lemma {:induction false} OpeningCountMonotone(lines: seq<string>, m: nat, n: nat)
    requires m <= n <= |lines|
    ensures OpeningCount(lines[..m]) <= OpeningCount(lines[..n])
    decreases n
  {
    if m < n {
      assert lines[..n][..n - 1] == lines[..n - 1];
      OpeningCountMonotone(lines, m, n - 1);
    }
  }

  lemma OpeningCountStep(lines: seq<string>, i: nat)
    requires i < |lines|
    ensures OpeningCount(lines[..i + 1]) == OpeningCount(lines[..i]) + (if Opens(Classify(lines[i])) then 1 else 0)
  {
    assert lines[..i + 1][..i] == lines[..i];
  }

  class PatchSet {
    var patchedFiles: seq<PatchedFile>

    /** Every hunk of every file satisfies the hunk invariant. */
    predicate Valid()
      reads this, patchedFiles
    {
      forall f | f in patchedFiles :: f.HunksValid()
    }

    constructor()
      ensures patchedFiles == [] && Valid()
    {
      patchedFiles := [];
    }

    /** Handles the line at `input[i]`, whose kind is `category`, with the open file
        `current` and the pending preamble `info`. Returns where to continue, the
        new open file and preamble, and the reason if the driver must stop. */
    method DispatchLine(input: seq<string>, i: nat, category: Category, current: PatchedFile?, info: PatchInfo?)
      returns (next: nat, current': PatchedFile?, info': PatchInfo?, abort: Option<Abort>)
      requires i < |input|
      requires Valid()
      requires current != null ==> current in patchedFiles
      modifies this, current, info
      ensures Valid()
      ensures i < next <= |input|
      ensures old(patchedFiles) <= patchedFiles && |patchedFiles| <= |old(patchedFiles)| + 1
      ensures |patchedFiles| > |old(patchedFiles)| ==>
        Opens(category) && fresh(patchedFiles[|patchedFiles| - 1])
      ensures current' != null ==> current' in patchedFiles && (current' == current || fresh(current'))
      ensures info' != null ==> info' == info || fresh(info')
      ensures abort.Some? ==>
        && AbortsOn(abort.value, category) && next == i + 1 && patchedFiles == old(patchedFiles)
        && (current != null ==> unchanged(current)) && (info != null ==> unchanged(info))
      // a git header opens a file named by its paths, with a fresh preamble holding the header
      ensures category.GitHeader? ==>
        var paths := category.paths;
        && abort == None && next == i + 1
        && current' != null && fresh(current') && info' != null && fresh(info')
        && patchedFiles == old(patchedFiles) + [current']
        && current'.sourceFile == paths.source && current'.targetFile == paths.target
        && current'.sourceTimestamp == "" && current'.targetTimestamp == ""
        && current'.hunks == [] && current'.patchInfo == info' && info'.info == [input[i]]
        && (current != null ==> unchanged(current)) && (info != null ==> unchanged(info))
      // a mode line marks the open file as created or deleted and joins the preamble
      ensures category == NewFileMode ==>
        && next == i + 1
        && (current == null || info == null ==> abort == Some(UnexpectedNewFile))
        && (current != null && info != null ==>
              && abort == None && current' == current && info' == info
              && patchedFiles == old(patchedFiles)
              && current.sourceFile == DevNull && info.info == old(info.info) + [input[i]]
              && unchanged(current`hunks, current`targetFile, current`sourceTimestamp, current`targetTimestamp, current`patchInfo))
      ensures category == DeletedFileMode ==>
        && next == i + 1
        && (current == null || info == null ==> abort == Some(UnexpectedDeletedFile))
        && (current != null && info != null ==>
              && abort == None && current' == current && info' == info
              && patchedFiles == old(patchedFiles)
              && current.targetFile == DevNull && info.info == old(info.info) + [input[i]]
              && unchanged(current`hunks, current`sourceFile, current`sourceTimestamp, current`targetTimestamp, current`patchInfo))
      // a source header either confirms the open file, taking its timestamp, or drops it
      ensures category.SourceHeader? ==>
        var header := category.source;
        && abort == None && next == i + 1 && info' == info && patchedFiles == old(patchedFiles)
        && (info != null ==> unchanged(info))
        && (current == null ==> current' == null)
        && (current != null && old(current.sourceFile) != header.filename ==> current' == null && unchanged(current))
        && (current != null && old(current.sourceFile) == header.filename ==>
              && current' == current && current.sourceTimestamp == header.timestamp
              && unchanged(current`hunks, current`sourceFile, current`targetFile, current`targetTimestamp, current`patchInfo))
      // a target header either confirms the open file or opens one that owns the preamble
      ensures category.TargetHeader? ==>
        var header := category.target;
        && next == i + 1
        && (current != null && old(current.targetFile) != header.filename ==> abort == Some(TargetWithoutSource))
        && (current == null ==>
              && abort == None && current' != null && fresh(current') && info' == null
              && patchedFiles == old(patchedFiles) + [current']
              && current'.sourceFile == "" && current'.targetFile == header.filename
              && current'.sourceTimestamp == "" && current'.targetTimestamp == header.timestamp
              && current'.hunks == [] && current'.patchInfo == info
              && (info != null ==> unchanged(info)))
        && (current != null && old(current.targetFile) == header.filename ==>
              && abort == None && current' == current && info' == info
              && patchedFiles == old(patchedFiles) && current.targetTimestamp == header.timestamp
              && unchanged(current`hunks, current`sourceFile, current`targetFile, current`sourceTimestamp, current`patchInfo))
      // a hunk header ends the preamble and hands the body to the open file
      ensures category.HunkStart? ==>
        var header := category.header;
        var scan := ScanHunk(header, input, i + 1);
        && info' == null && (info != null ==> unchanged(info))
        && (current == null ==> abort == Some(UnexpectedHunk))
        && (current != null ==>
              && abort == None && current' == current && patchedFiles == old(patchedFiles) && next == scan.next
              && current.hunks == old(current.hunks) + (if scan.outcome == Appended then [HunkOf(header, scan.lines)] else [])
              && unchanged(current`sourceFile, current`targetFile, current`sourceTimestamp, current`targetTimestamp, current`patchInfo))
      // a no-newline marker goes to the last hunk of the open file
      ensures category == NoNewlineMarker ==>
        && next == i + 1
        && (info != null ==> unchanged(info))
        && (current == null ==> abort == Some(UnexpectedMarker))
        && (current != null ==>
              && abort == None && current' == current && info' == info && patchedFiles == old(patchedFiles)
              && current.hunks == AppendToLastHunk(old(current.hunks), MarkerLine())
              && unchanged(current`sourceFile, current`targetFile, current`sourceTimestamp, current`targetTimestamp, current`patchInfo))
      // a blank line after a file's hunks goes to its last hunk
      ensures category == Blank && current != null ==>
        && next == i + 1 && abort == None && current' == current && info' == info
        && patchedFiles == old(patchedFiles)
        && current.hunks == AppendToLastHunk(old(current.hunks), TrailingEmptyLine())
        && unchanged(current`sourceFile, current`targetFile, current`sourceTimestamp, current`targetTimestamp, current`patchInfo)
        && (info != null ==> unchanged(info))
      // any other line is preamble; starting a new preamble closes the open file
      ensures category == Other || (category == Blank && current == null) ==>
        && next == i + 1 && abort == None && patchedFiles == old(patchedFiles)
        && (info == null ==>
              && current' == null && info' != null && fresh(info') && info'.info == [input[i]]
              && (current != null ==> unchanged(current)))
        && (info != null ==>
              && current' == current && info' == info && info.info == old(info.info) + [input[i]]
              && (current != null ==> unchanged(current)))
    {
      var line := input[i];
      next, current', info', abort := i + 1, current, info, None;
      if category.GitHeader? {
        info' := new PatchInfo();
        current' := new PatchedFile(category.paths.source, category.paths.target, "", "", info');
        patchedFiles := patchedFiles + [current'];
        info'.info := info'.info + [line];
      } else if category == NewFileMode {
        if current == null || info == null {
          return next, current', info', Some(UnexpectedNewFile);
        }
        current.sourceFile := DevNull;
        info.info := info.info + [line];
      } else if category == DeletedFileMode {
        if current == null || info == null {
          return next, current', info', Some(UnexpectedDeletedFile);
        }
        current.targetFile := DevNull;
        info.info := info.info + [line];
      } else if category.SourceHeader? {
        if current != null && current.sourceFile != category.source.filename {
          current' := null;
        } else if current != null && current.sourceFile == category.source.filename {
          current.sourceTimestamp := category.source.timestamp;
        }
      } else if category.TargetHeader? {
        if current != null && current.targetFile != category.target.filename {
          return next, current', info', Some(TargetWithoutSource);
        }
        if current == null {
          current' := new PatchedFile("", category.target.filename, "", category.target.timestamp, info);
          patchedFiles := patchedFiles + [current'];
          info' := null;
        } else {
          current.targetTimestamp := category.target.timestamp;
        }
      } else if category.HunkStart? {
        info' := null;
        if current == null {
          return next, current', info', Some(UnexpectedHunk);
        }
        var outcome;
        next, outcome := current.ParseHunk(category.header, input, i + 1);
        ScanHunkBounds(category.header, input, i + 1);
      } else if category == NoNewlineMarker {
        if current == null {
          return next, current', info', Some(UnexpectedMarker);
        }
        var _ := current.AddNoNewlineMarkerToLastHunk();
      } else if category == Blank && current != null {
        var _ := current.AppendTrailingEmptyLine();
      } else {
        if info == null {
          current' := null;
          info' := new PatchInfo();
        }
        info'.info := info'.info + [line];
      }
    }

    /** Reads a whole patch, line by line, until the input ends or the driver must stop.
        Files are only ever added, each of them is opened by a git or target header line,
        every hunk stored keeps the hunk invariant, and an abort names the line it happened
        on. */
    method ParsePatchFile(input: seq<string>) returns (outcome: ParseOutcome)
      requires Valid()
      modifies this
      ensures Valid()
      ensures old(patchedFiles) <= patchedFiles
      ensures forall k | |old(patchedFiles)| <= k < |patchedFiles| :: fresh(patchedFiles[k])
      ensures |patchedFiles| - |old(patchedFiles)| <= OpeningCount(input)
      ensures outcome.Aborted? ==> outcome.line < |input| && AbortsOn(outcome.reason, Classify(input[outcome.line]))
      ensures input == [] ==> outcome == Completed && patchedFiles == old(patchedFiles)
    {
      var current: PatchedFile? := null;
      var info: PatchInfo? := null;
      var i := 0;
      while i < |input|
        invariant 0 <= i <= |input|
        invariant Valid()
        invariant old(patchedFiles) <= patchedFiles
        invariant forall k | |old(patchedFiles)| <= k < |patchedFiles| :: fresh(patchedFiles[k])
        invariant current != null ==> current in patchedFiles && fresh(current)
        invariant info != null ==> fresh(info)
        invariant |patchedFiles| - |old(patchedFiles)| <= OpeningCount(input[..i])
        invariant i == 0 ==> patchedFiles == old(patchedFiles)
      {
        var next, abort;
        next, current, info, abort := DispatchLine(input, i, Classify(input[i]), current, info);
        if abort.Some? {
          OpeningCountMonotone(input, i, |input|);
          assert input[..|input|] == input;
          return Aborted(abort.value, i);
        }
        OpeningCountStep(input, i);
        OpeningCountMonotone(input, i + 1, next);
        i := next;
      }
      assert input[..i] == input;
      outcome := Completed;
    }
  }
}
