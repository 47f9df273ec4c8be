/** Places where the parser as written departs from the unified format it reads, each
    stated as written, with an input that shows the difference, next to the corrected
    reading that the rest of the model uses. */
module Findings {
  import opened Text
  import opened Grammar
  import opened Entities
  import opened HunkScan

  // ---------------------------------------------------------------------------
  // The no-newline line type inside a hunk (unidiff.h:44, unidiff.cpp:104-119)

  /** The no-newline line type as the constant is written: two backslashes, while the
      captured tag of a marker line is one backslash. */
  const LineTypeNoNewlineAsWritten: string := "\\\\"

  /** The line type the hunk reader's chain of tag tests selects, with the constant as
      written; None means the line is not stored. */
  function KindAsWritten(tag: string): Option<LineType> {
    if tag == LineTypeAdded then Some(Added)
    else if tag == LineTypeRemoved then Some(Removed)
    else if tag == LineTypeContext then Some(Context)
    else if tag == LineTypeNoNewlineAsWritten then Some(NoNewline)
    else None
  }

  /** The empty-body pattern as written (unidiff.h:34) needs one or two carriage returns
      or line feeds, so the empty line the line reader yields for a blank line fails it. */
  predicate IsEmptyBodyAsWritten(line: string) {
    1 <= |line| <= 2 && forall i | 0 <= i < |line| :: line[i] == '\r' || line[i] == '\n'
  }

  /** A hunk body line as the two patterns are written: a tagged line, or one or two
      carriage returns or line feeds read as context. */
  function ParseBodyLineAsWritten(line: string): Option<BodyLine> {
    if |line| > 0 && TypeOfTag(line[0]).Some? then Some(BodyLine(TypeOfTag(line[0]).value, line[1..]))
    else if IsEmptyBodyAsWritten(line) then Some(BodyLine(Context, line))
    else None
  }

  /** The written and the corrected body-line readings differ on the empty line only. */
  lemma BodyLineAsWrittenDiffers(line: string)
    ensures ParseBodyLineAsWritten(line) == if line == "" then None else ParseBodyLine(line)
    ensures ParseBodyLine("") == Some(BodyLine(Context, ""))
  {
  }

  /** The hunk reader as written: an empty line is not a body line, and a line whose tag
      the chain does not select moves no counter and is not stored. */
  function ScanFromAsWritten(h: HunkHeader, input: seq<string>, i: nat, src: nat, tgt: nat, acc: seq<Line>): Scan
    requires i <= |input|
    decreases |input| - i
  {
    if i == |input| then
      Scan(if src < SourceEnd(h) || tgt < TargetEnd(h) then Undershoot else Appended, acc, i)
    else
      match ParseBodyLineAsWritten(input[i])
      case None => Scan(NotBodyLine, acc, i + 1)
      case Some(b) =>
        var k := KindAsWritten(b.kind.Tag());
        var src' := if k.Some? then src + SourceStep(k.value) else src;
        var tgt' := if k.Some? then tgt + TargetStep(k.value) else tgt;
        if src' > SourceEnd(h) || tgt' > TargetEnd(h) then Scan(Overrun, acc, i + 1)
        else
          var acc' := if k.Some? then acc + [NumberedLine(BodyLine(k.value, b.value), src, tgt)] else acc;
          if src' == SourceEnd(h) && tgt' == TargetEnd(h) then Scan(Appended, acc', i + 1)
          else ScanFromAsWritten(h, input, i + 1, src', tgt', acc')
  }

  function ScanHunkAsWritten(h: HunkHeader, input: seq<string>, pos: nat): Scan
    requires pos <= |input|
  {
    ScanFromAsWritten(h, input, pos, h.sourceStart, h.targetStart, [])
  }

  /** As written, the chain keeps added, removed and context lines but never selects the
      no-newline type, whose tag is a single backslash. */
  lemma KindAsWrittenDropsMarker()
    ensures KindAsWritten(Added.Tag()) == Some(Added)
    ensures KindAsWritten(Removed.Tag()) == Some(Removed)
    ensures KindAsWritten(Context.Tag()) == Some(Context)
    ensures KindAsWritten(NoNewline.Tag()) == None
    ensures TypeOfTag('\\') == Some(NoNewline) && NoNewline.Tag() == ['\\']
  {
    assert |LineTypeNoNewlineAsWritten| == 2;
  }

  /** A one-line change to a file without a final newline: as written the marker after the
      removed line is consumed but not stored; the corrected reader stores it between the
      two changed lines. */
  lemma MarkerDroppedAsWritten()
    ensures var h := HunkHeader(1, 1, 1, 1, "");
      var input := ["-a", NoNewlineMarkerLine, "+b"];
      && ScanHunkAsWritten(h, input, 0) == Scan(Appended, [Line("a", Removed, 1, 0, 0), Line("b", Added, 0, 1, 0)], 3)
      && ScanHunk(h, input, 0)
         == Scan(Appended, [Line("a", Removed, 1, 0, 0), Line(LineValueNoNewline, NoNewline, 0, 0, 0), Line("b", Added, 0, 1, 0)], 3)
  {
    var h := HunkHeader(1, 1, 1, 1, "");
    var input := ["-a", NoNewlineMarkerLine, "+b"];
    BodyLineAsWrittenDiffers(input[0]);
    BodyLineAsWrittenDiffers(input[1]);
    BodyLineAsWrittenDiffers(input[2]);
    assert ParseBodyLine(input[0]) == Some(BodyLine(Removed, "a"));
    assert ParseBodyLine(input[1]) == Some(BodyLine(NoNewline, LineValueNoNewline));
    assert ParseBodyLine(input[2]) == Some(BodyLine(Added, "b"));
    KindAsWrittenDropsMarker();
    var removed, marker, added := Line("a", Removed, 1, 0, 0), Line(LineValueNoNewline, NoNewline, 0, 0, 0), Line("b", Added, 0, 1, 0);
    assert NumberedLine(BodyLine(Removed, "a"), 1, 1) == removed;
    assert NumberedLine(BodyLine(NoNewline, LineValueNoNewline), 2, 1) == marker;
    assert NumberedLine(BodyLine(Added, "b"), 2, 1) == added;
    assert [] + [removed] == [removed];
    assert ScanFromAsWritten(h, input, 0, 1, 1, []) == ScanFromAsWritten(h, input, 1, 2, 1, [removed]);
    assert ScanFromAsWritten(h, input, 1, 2, 1, [removed]) == ScanFromAsWritten(h, input, 2, 2, 1, [removed]);
    assert ScanFromAsWritten(h, input, 2, 2, 1, [removed]) == Scan(Appended, [removed, added], 3);
    assert ScanFrom(h, input, 0, 1, 1, []) == ScanFrom(h, input, 1, 2, 1, [removed]);
    assert ScanFrom(h, input, 1, 2, 1, [removed]) == ScanFrom(h, input, 2, 2, 1, [removed, marker]);
    assert ScanFrom(h, input, 2, 2, 1, [removed, marker]) == Scan(Appended, [removed, marker, added], 3);
  }

  // ---------------------------------------------------------------------------
  // The no-newline marker between hunks (unidiff.h:36, unidiff.cpp:269-291)

  /** The marker test as the pattern is written: its `\ ` escapes the space, so it matches
      the marker text without the leading backslash. */
  predicate IsNoNewlineMarkerAsWritten(line: string) { line == LineValueNoNewline }

  /** As written, the real marker line fails the marker test and every test tried before
      it, and it is not blank, so the driver takes it for free text (which drops the open
      file); the pattern instead accepts the text without its backslash. */
  lemma MarkerMissedAsWritten()
    ensures !IsNoNewlineMarkerAsWritten(NoNewlineMarkerLine)
    ensures IsNoNewlineMarkerAsWritten(LineValueNoNewline)
    ensures MatchGitHeader(NoNewlineMarkerLine).None?
    ensures !IsNewFileMode(NoNewlineMarkerLine) && !IsDeletedFileMode(NoNewlineMarkerLine)
    ensures MatchSourceHeader(NoNewlineMarkerLine).None? && MatchTargetHeader(NoNewlineMarkerLine).None?
    ensures MatchHunkHeader(NoNewlineMarkerLine).None? && !IsBlank(NoNewlineMarkerLine)
  {
    MatchersOpening(NoNewlineMarkerLine);
    assert NoNewlineMarkerLine[0] == '\\';
    assert NoNewlineMarkerLine != LineValueNoNewline by {
      assert LineValueNoNewline[0] == ' ';
    }
  }

  /** Corrected, the marker line is recognised as the marker and nothing else is. */
  lemma MarkerRecognised(line: string)
    ensures Classify(NoNewlineMarkerLine) == NoNewlineMarker
    ensures Classify(line) == NoNewlineMarker <==> line == NoNewlineMarkerLine
  {
    MarkerMissedAsWritten();
    ClassifyExact(line);
  }

  // ---------------------------------------------------------------------------
  // Blank lines (unidiff.h:34, unidiff.cpp:279-284)

  /** Inside a hunk: with three context lines declared, the body ` a`, an empty line, ` b`
      ends as written at the empty line with one line stored; corrected, the empty line is
      an empty context line and the hunk is complete. */
  lemma EmptyLineEndsHunkAsWritten()
    ensures var h := HunkHeader(1, 3, 1, 3, "");
      var input := [" a", "", " b"];
      && ScanHunkAsWritten(h, input, 0) == Scan(NotBodyLine, [Line("a", Context, 1, 1, 0)], 2)
      && ScanHunk(h, input, 0)
         == Scan(Appended, [Line("a", Context, 1, 1, 0), Line("", Context, 2, 2, 0), Line("b", Context, 3, 3, 0)], 3)
  {
    var h := HunkHeader(1, 3, 1, 3, "");
    var input := [" a", "", " b"];
    BodyLineAsWrittenDiffers(input[0]);
    BodyLineAsWrittenDiffers(input[1]);
    assert ParseBodyLine(input[0]) == Some(BodyLine(Context, "a"));
    assert ParseBodyLine(input[2]) == Some(BodyLine(Context, "b"));
    KindAsWrittenDropsMarker();
    var a, e, b := Line("a", Context, 1, 1, 0), Line("", Context, 2, 2, 0), Line("b", Context, 3, 3, 0);
    assert NumberedLine(BodyLine(Context, "a"), 1, 1) == a;
    assert NumberedLine(BodyLine(Context, ""), 2, 2) == e;
    assert NumberedLine(BodyLine(Context, "b"), 3, 3) == b;
    assert [] + [a] == [a];
    assert ScanFromAsWritten(h, input, 0, 1, 1, []) == ScanFromAsWritten(h, input, 1, 2, 2, [a]);
    assert ScanFromAsWritten(h, input, 1, 2, 2, [a]) == Scan(NotBodyLine, [a], 2);
    assert ScanFrom(h, input, 0, 1, 1, []) == ScanFrom(h, input, 1, 2, 2, [a]);
    assert ScanFrom(h, input, 1, 2, 2, [a]) == ScanFrom(h, input, 2, 3, 3, [a, e]);
    assert ScanFrom(h, input, 2, 3, 3, [a, e]) == Scan(Appended, [a, e, b], 3);
  }

  /** The driver's tests in their order as written: the marker test as written, and the
      blank test `line == "\n"`. */
  function ClassifyAsWritten(line: string): Category {
    if MatchGitHeader(line).Some? then GitHeader(MatchGitHeader(line).value)
    else if IsNewFileMode(line) then NewFileMode
    else if IsDeletedFileMode(line) then DeletedFileMode
    else if MatchSourceHeader(line).Some? then SourceHeader(MatchSourceHeader(line).value)
    else if MatchTargetHeader(line).Some? then TargetHeader(MatchTargetHeader(line).value)
    else if MatchHunkHeader(line).Some? then HunkStart(MatchHunkHeader(line).value)
    else if IsNoNewlineMarkerAsWritten(line) then NoNewlineMarker
    else if line == "\n" then Blank
    else Other
  }

  /** The written and the corrected driver tests differ only on the marker and blank
      lines. */
  lemma ClassifyAsWrittenDiffers(line: string)
    requires !IsNoNewlineMarker(line) && !IsNoNewlineMarkerAsWritten(line) && !IsBlank(line)
    ensures ClassifyAsWritten(line) == Classify(line)
  {
  }

  /** After a hunk: as written, no line the line reader yields (none holds a line feed) is
      blank, and the empty line and a lone carriage return are free text, which with no
      preamble pending closes the open file. */
  lemma BlankMissedAsWritten(line: string)
    requires '\n' !in line
    ensures ClassifyAsWritten(line) != Blank
    ensures ClassifyAsWritten("") == Other && ClassifyAsWritten("\r") == Other
  {
    assert "\n"[0] == '\n';
    MatchersOpening("");
    MatchersOpening("\r");
    assert LineValueNoNewline[0] == ' ';
  }

  /** Corrected, what the line reader yields for a blank line (an empty line, or a carriage
      return left over from a CRLF terminator) is an empty context line inside a hunk and a
      blank line after one, which goes to the last hunk of the open file. */
  lemma EmptyLineRead(line: string)
    requires line == "" || line == "\r"
    ensures ParseBodyLine(line) == Some(BodyLine(Context, line))
    ensures Classify(line) == Blank
  {
    MatchersOpening(line);
    ClassifyExact(line);
    assert line != NoNewlineMarkerLine by {
      if line != "" { assert NoNewlineMarkerLine[0] != line[0]; }
    }
  }
}
