/** The values a parsed patch is made of: lines, hunks and the free-text preamble that
    precedes a file's hunks. */
module Entities {
  import opened Text
  import opened Grammar

  /** One row of a hunk. A line number the row's type does not use stays 0, and the
      position in the whole patch (`diffLineNo`) is never filled in. */
  datatype Line = Line(value: string, lineType: LineType, sourceLineNo: nat, targetLineNo: nat, diffLineNo: nat) {
    predicate IsAdded() { lineType.Tag() == LineTypeAdded }
    predicate IsRemoved() { lineType.Tag() == LineTypeRemoved }
    predicate IsContent() { lineType.Tag() == LineTypeContext }
  }

  /** A line built without explicit numbers. */
  function NewLine(value: string, lineType: LineType): (l: Line)
    ensures l.value == value && l.lineType == lineType
    ensures l.sourceLineNo == 0 && l.targetLineNo == 0 && l.diffLineNo == 0
  {
    Line(value, lineType, 0, 0, 0)
  }

  /** The three type tests read the type back from its tag, so at most one of them holds. */
  lemma LineTestsExclusive(l: Line)
    ensures l.IsAdded() <==> l.lineType == Added
    ensures l.IsRemoved() <==> l.lineType == Removed
    ensures l.IsContent() <==> l.lineType == Context
    ensures !(l.IsAdded() && l.IsRemoved()) && !(l.IsAdded() && l.IsContent()) && !(l.IsRemoved() && l.IsContent())
  {
  }

  /** Removed and context lines occupy a line of the source file. */
  predicate OnSource(l: Line) { l.IsRemoved() || l.IsContent() }
  /** Added and context lines occupy a line of the target file. */
  predicate OnTarget(l: Line) { l.IsAdded() || l.IsContent() }

  /** The source line numbers of the source-side lines, in order. */
  function SourceNumbers(lines: seq<Line>): seq<nat> {
    if lines == [] then []
    else
      var last := lines[|lines| - 1];
      SourceNumbers(lines[..|lines| - 1]) + (if OnSource(last) then [last.sourceLineNo] else [])
  }

  /** The target line numbers of the target-side lines, in order. */
  function TargetNumbers(lines: seq<Line>): seq<nat> {
    if lines == [] then []
    else
      var last := lines[|lines| - 1];
      TargetNumbers(lines[..|lines| - 1]) + (if OnTarget(last) then [last.targetLineNo] else [])
  }

  function SourceCount(lines: seq<Line>): nat {
    if lines == [] then 0 else (if OnSource(lines[0]) then 1 else 0) + SourceCount(lines[1..])
  }

  function TargetCount(lines: seq<Line>): nat {
    if lines == [] then 0 else (if OnTarget(lines[0]) then 1 else 0) + TargetCount(lines[1..])
  }

  /** `ns` is the n numbers lo, lo + 1, ..., lo + n - 1, in order. */
  predicate Consecutive(ns: seq<nat>, lo: nat, n: nat) {
    |ns| == n && forall i | 0 <= i < n :: ns[i] == lo + i
  }

  lemma {:induction false} SourceCountAppend(lines: seq<Line>, l: Line)
    ensures SourceCount(lines + [l]) == SourceCount(lines) + (if OnSource(l) then 1 else 0)
  {
    if lines != [] {
      assert (lines + [l])[1..] == lines[1..] + [l];
      SourceCountAppend(lines[1..], l);
    }
  }

  lemma {:induction false} TargetCountAppend(lines: seq<Line>, l: Line)
    ensures TargetCount(lines + [l]) == TargetCount(lines) + (if OnTarget(l) then 1 else 0)
  {
    if lines != [] {
      assert (lines + [l])[1..] == lines[1..] + [l];
      TargetCountAppend(lines[1..], l);
    }
  }

  /** There is one source number per source-side line and one target number per
      target-side line. */
  lemma {:induction false} NumbersCount(lines: seq<Line>)
    ensures |SourceNumbers(lines)| == SourceCount(lines)
    ensures |TargetNumbers(lines)| == TargetCount(lines)
  {
    if lines != [] {
      var init := lines[..|lines| - 1];
      assert lines == init + [lines[|lines| - 1]];
      NumbersCount(init);
      SourceCountAppend(init, lines[|lines| - 1]);
      TargetCountAppend(init, lines[|lines| - 1]);
    }
  }

  /** Each line leaves a number its type does not use at 0 and never gets a patch position. */
  predicate UnusedNumbersZero(l: Line) {
    (!OnSource(l) ==> l.sourceLineNo == 0) && (!OnTarget(l) ==> l.targetLineNo == 0) && l.diffLineNo == 0
  }

  datatype Hunk = Hunk(sourceStart: nat, sourceLength: nat, targetStart: nat, targetLength: nat,
                       sectionHeader: string, lines: seq<Line>)

  /** The hunk invariant: the source-side lines are numbered consecutively from sourceStart
      up to sourceStart + sourceLength, the target-side lines likewise from targetStart, and
      numbers a line does not use are 0. */
  predicate HunkValid(h: Hunk) {
    && Consecutive(SourceNumbers(h.lines), h.sourceStart, h.sourceLength)
    && Consecutive(TargetNumbers(h.lines), h.targetStart, h.targetLength)
    && forall i | 0 <= i < |h.lines| :: UnusedNumbersZero(h.lines[i])
  }

  /** In a valid hunk the removed and context lines number exactly sourceLength and the
      added and context lines exactly targetLength. */
  lemma HunkValidCounts(h: Hunk)
    requires HunkValid(h)
    ensures SourceCount(h.lines) == h.sourceLength
    ensures TargetCount(h.lines) == h.targetLength
  {
    NumbersCount(h.lines);
  }

  /** The no-newline marker as it is stored at the end of a hunk. */
  function MarkerLine(): Line { NewLine(LineValueNoNewline + "\n", NoNewline) }

  /** The stray blank line stored at the end of a hunk. */
  function TrailingEmptyLine(): Line { NewLine("\n", Empty) }

  /** The hunks with `l` added at the end of the last one: nothing when there is no hunk,
      otherwise exactly one line more in the last hunk and every other hunk as it was. */
  function AppendToLastHunk(hunks: seq<Hunk>, l: Line): (r: seq<Hunk>)
    ensures |r| == |hunks|
    ensures forall i | 0 <= i < |hunks| - 1 :: r[i] == hunks[i]
    ensures hunks != [] ==>
      var last, last' := hunks[|hunks| - 1], r[|r| - 1];
      last' == last.(lines := last.lines + [l])
  {
    if hunks == [] then [] else
      var last := hunks[|hunks| - 1];
      hunks[..|hunks| - 1] + [last.(lines := last.lines + [l])]
  }

  /** A line that sits on neither side keeps a hunk valid: its counts and its numbering do
      not move. */
  lemma {:induction false} AppendOffSideKeepsValid(h: Hunk, l: Line)
    requires HunkValid(h)
    requires !OnSource(l) && !OnTarget(l) && UnusedNumbersZero(l)
    ensures HunkValid(h.(lines := h.lines + [l]))
  {
    var lines := h.lines + [l];
    assert lines[..|lines| - 1] == h.lines;
    assert SourceNumbers(lines) == SourceNumbers(h.lines);
    assert TargetNumbers(lines) == TargetNumbers(h.lines);
  }

  /** The marker and the trailing blank line keep every hunk valid. */
  lemma AppendToLastHunkKeepsValid(hunks: seq<Hunk>, l: Line)
    requires forall h | h in hunks :: HunkValid(h)
    requires l == MarkerLine() || l == TrailingEmptyLine()
    ensures forall h | h in AppendToLastHunk(hunks, l) :: HunkValid(h)
  {
    var r := AppendToLastHunk(hunks, l);
    if hunks != [] {
      AppendOffSideKeepsValid(hunks[|hunks| - 1], l);
      forall h | h in r ensures HunkValid(h) {
        var i :| 0 <= i < |r| && r[i] == h;
        if i < |r| - 1 {
          assert hunks[i] in hunks;
        }
      }
    }
  }

  /** Free-text lines joined without separator. */
  function Concat(ss: seq<string>): string {
    if ss == [] then "" else ss[0] + Concat(ss[1..])
  }

  lemma {:induction false} ConcatAppend(ss: seq<string>, s: string)
    ensures Concat(ss + [s]) == Concat(ss) + s
  {
    if ss != [] {
      assert (ss + [s])[1..] == ss[1..] + [s];
      ConcatAppend(ss[1..], s);
    }
  }

  /** The free-text lines (git extended headers, index lines, other preamble) that precede a
      file's hunks. A file and the patch-set driver may share one. */
  class PatchInfo {
    var info: seq<string>

    constructor()
      ensures info == []
    {
      info := [];
    }

    /** All preamble lines, in order, as one string. */
    method Print() returns (information: string)
      ensures information == Concat(info)
    {
      information := "";
      var i := 0;
      while i < |info|
        invariant 0 <= i <= |info|
        invariant information == Concat(info[..i])
      {
        ConcatAppend(info[..i], info[i]);
        assert info[..i + 1] == info[..i] + [info[i]];
        information := information + info[i];
        i := i + 1;
      }
      assert info[..i] == info;
    }
  }
}
