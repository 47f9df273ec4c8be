/** One file of a patch: its names and timestamps, the preamble it owns (possibly shared
    with the patch-set driver), and the hunks read for it so far. */
module PatchedFiles {
  import opened Text
  import opened Grammar
  import opened Entities
  import opened HunkScan

  class PatchedFile {
    var hunks: seq<Hunk>
    var patchInfo: PatchInfo?
    var sourceFile: string
    var sourceTimestamp: string
    var targetFile: string
    var targetTimestamp: string

    /** Every hunk of the file satisfies the hunk invariant. */
    predicate HunksValid()
      reads this
    {
      forall h | h in hunks :: HunkValid(h)
    }

    constructor(sourceFile: string, targetFile: string, sourceTimestamp: string, targetTimestamp: string,
                patchInfo: PatchInfo?)
      ensures this.sourceFile == sourceFile && this.targetFile == targetFile
      ensures this.sourceTimestamp == sourceTimestamp && this.targetTimestamp == targetTimestamp
      ensures this.patchInfo == patchInfo && hunks == []
      ensures HunksValid()
    {
      this.hunks := [];
      this.sourceFile := sourceFile;
      this.targetFile := targetFile;
      this.sourceTimestamp := sourceTimestamp;
      this.targetTimestamp := targetTimestamp;
      this.patchInfo := patchInfo;
    }

    /** Reads the body of the hunk whose header is `header`, from `input[pos]` on, and adds
        the hunk to the file when its body is complete. Returns where reading stopped and
        how: a failing line is consumed, and on every failure the hunks stay as they were. */
    method ParseHunk(header: HunkHeader, input: seq<string>, pos: nat) returns (next: nat, outcome: HunkOutcome)
      requires pos <= |input|
      modifies this`hunks
      ensures next == ScanHunk(header, input, pos).next && outcome == ScanHunk(header, input, pos).outcome
      ensures hunks == old(hunks) + (if outcome == Appended then [HunkOf(header, ScanHunk(header, input, pos).lines)] else [])
      ensures old(HunksValid()) ==> HunksValid()
    {
      var sourceLineNo: nat, targetLineNo: nat := header.sourceStart, header.targetStart;
      var expectedSourceEnd := sourceLineNo + header.sourceLength;
      var expectedTargetEnd := targetLineNo + header.targetLength;
      var lines: seq<Line> := [];
      next := pos;
      while next < |input|
        invariant pos <= next <= |input|
        invariant ScanFrom(header, input, next, sourceLineNo, targetLineNo, lines) == ScanHunk(header, input, pos)
        decreases |input| - next
      {
        var line := input[next];
        next := next + 1;
        var body := ParseBodyLine(line);
        if body.None? {
          // not a hunk body line: the hunk is abandoned
          return next, NotBodyLine;
        }
        var b := body.value;
        var original := NewLine(b.value, b.kind);
        match b.kind {
          case Added =>
            original := original.(targetLineNo := targetLineNo);
            targetLineNo := targetLineNo + 1;
          case Removed =>
            original := original.(sourceLineNo := sourceLineNo);
            sourceLineNo := sourceLineNo + 1;
          case Context =>
            original := original.(sourceLineNo := sourceLineNo, targetLineNo := targetLineNo);
            sourceLineNo := sourceLineNo + 1;
            targetLineNo := targetLineNo + 1;
          case NoNewline =>
          case Empty =>
        }
        if sourceLineNo > expectedSourceEnd || targetLineNo > expectedTargetEnd {
          // the hunk is longer than its header says
          return next, Overrun;
        }
        lines := lines + [original];
        if sourceLineNo == expectedSourceEnd && targetLineNo == expectedTargetEnd {
          break;
        }
      }
      if sourceLineNo < expectedSourceEnd || targetLineNo < expectedTargetEnd {
        // the input ended before the hunk did
        return next, Undershoot;
      }
      ScanHunkValid(header, input, pos);
      hunks := hunks + [HunkOf(header, lines)];
      outcome := Appended;
    }

    /** Records a no-newline marker at the end of the last hunk; reports whether there was one. */
    method AddNoNewlineMarkerToLastHunk() returns (added: bool)
      modifies this`hunks
      ensures added == (old(hunks) != [])
      ensures hunks == AppendToLastHunk(old(hunks), MarkerLine())
      ensures old(HunksValid()) ==> HunksValid()
    {
      if |hunks| == 0 {
        // the marker has no hunk to belong to
        return false;
      }
      if HunksValid() {
        AppendToLastHunkKeepsValid(hunks, MarkerLine());
      }
      var lastHunk := hunks[|hunks| - 1];
      hunks := hunks[..|hunks| - 1] + [lastHunk.(lines := lastHunk.lines + [MarkerLine()])];
      added := true;
    }

    /** Records a blank line that follows a hunk at the end of the last hunk; reports whether
        there was one. */
    method AppendTrailingEmptyLine() returns (added: bool)
      modifies this`hunks
      ensures added == (old(hunks) != [])
      ensures hunks == AppendToLastHunk(old(hunks), TrailingEmptyLine())
      ensures old(HunksValid()) ==> HunksValid()
    {
      if |hunks| == 0 {
        // the blank line has no hunk to belong to
        return false;
      }
      if HunksValid() {
        AppendToLastHunkKeepsValid(hunks, TrailingEmptyLine());
      }
      var lastHunk := hunks[|hunks| - 1];
      hunks := hunks[..|hunks| - 1] + [lastHunk.(lines := lastHunk.lines + [TrailingEmptyLine()])];
      added := true;
    }
  }
}
