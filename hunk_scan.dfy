/** Reading one hunk body: the two line counters, the overrun and undershoot checks, and
    what the lines of a successfully read hunk are. `ScanHunk` is the step-by-step reading
    that `PatchedFile.ParseHunk` performs; `CompleteBody` and `ExpectedLines` say, without
    the counters, which inputs make a hunk and what its lines are. */
module HunkScan {
  import opened Text
  import opened Grammar
  import opened Entities

  datatype HunkOutcome =
    | Appended     // both counters reached their expected ends
    | NotBodyLine  // a line that is neither a body line nor blank ended the hunk
    | Overrun      // a counter went past its expected end
    | Undershoot   // the input ended before both counters reached their ends

  /** The outcome of reading a hunk body, the lines read, and the cursor afterwards. */
  datatype Scan = Scan(outcome: HunkOutcome, lines: seq<Line>, next: nat)

  function SourceEnd(h: HunkHeader): nat { h.sourceStart + h.sourceLength }
  function TargetEnd(h: HunkHeader): nat { h.targetStart + h.targetLength }

  /** How far a body line of this type moves the source counter. */
  function SourceStep(k: LineType): nat { if k == Removed || k == Context then 1 else 0 }
  /** How far a body line of this type moves the target counter. */
  function TargetStep(k: LineType): nat { if k == Added || k == Context then 1 else 0 }

  /** The line stored for a body line read while the counters stand at `src` and `tgt`. */
  function NumberedLine(b: BodyLine, src: nat, tgt: nat): Line {
    var l := NewLine(b.value, b.kind);
    match b.kind
    case Added => l.(targetLineNo := tgt)
    case Removed => l.(sourceLineNo := src)
    case Context => l.(sourceLineNo := src, targetLineNo := tgt)
    case _ => l
  }

  /** An added line takes the target counter and moves only it; a removed line takes the
      source counter and moves only it; a context line (a blank one included) takes and
      moves both; a no-newline marker takes and moves neither. */
  lemma NumberedLineStep(b: BodyLine, src: nat, tgt: nat)
    ensures var l := NumberedLine(b, src, tgt);
      && l.value == b.value && l.lineType == b.kind && UnusedNumbersZero(l)
      && (b.kind == Added ==> l.targetLineNo == tgt && SourceStep(b.kind) == 0 && TargetStep(b.kind) == 1)
      && (b.kind == Removed ==> l.sourceLineNo == src && SourceStep(b.kind) == 1 && TargetStep(b.kind) == 0)
      && (b.kind == Context ==> l.sourceLineNo == src && l.targetLineNo == tgt && SourceStep(b.kind) == 1 && TargetStep(b.kind) == 1)
      && (b.kind == NoNewline ==> SourceStep(b.kind) == 0 && TargetStep(b.kind) == 0)
      && (OnSource(l) <==> SourceStep(b.kind) == 1)
      && (OnTarget(l) <==> TargetStep(b.kind) == 1)
  {
  }

  /** Reading from index `i` with the counters at `src` and `tgt` and the lines `acc`
      already stored. A line is consumed before it is checked, so a failing line is
      consumed too. */
  function ScanFrom(h: HunkHeader, input: seq<string>, i: nat, src: nat, tgt: nat, acc: seq<Line>): Scan
    requires i <= |input|
    decreases |input| - i
  {
    if i == |input| then
      Scan(if src < SourceEnd(h) || tgt < TargetEnd(h) then Undershoot else Appended, acc, i)
    else
      match ParseBodyLine(input[i])
      case None => Scan(NotBodyLine, acc, i + 1)
      case Some(b) =>
        var src', tgt' := src + SourceStep(b.kind), tgt + TargetStep(b.kind);
        if src' > SourceEnd(h) || tgt' > TargetEnd(h) then Scan(Overrun, acc, i + 1)
        else
          var acc' := acc + [NumberedLine(b, src, tgt)];
          if src' == SourceEnd(h) && tgt' == TargetEnd(h) then Scan(Appended, acc', i + 1)
          else ScanFrom(h, input, i + 1, src', tgt', acc')
  }

  /** Reading the body of the hunk with header `h` that starts at `input[pos]`. */
  function ScanHunk(h: HunkHeader, input: seq<string>, pos: nat): Scan
    requires pos <= |input|
  {
    ScanFrom(h, input, pos, h.sourceStart, h.targetStart, [])
  }

  function HunkOf(h: HunkHeader, lines: seq<Line>): Hunk {
    Hunk(h.sourceStart, h.sourceLength, h.targetStart, h.targetLength, h.section, lines)
  }

  // ---------------------------------------------------------------------------
  // The reference: which bodies make a hunk, and what lines they give

  predicate AllBody(body: seq<string>) {
    forall k | 0 <= k < |body| :: ParseBodyLine(body[k]).Some?
  }

  function SourceSide(line: string): nat {
    match ParseBodyLine(line)
    case Some(b) => SourceStep(b.kind)
    case None => 0
  }

  function TargetSide(line: string): nat {
    match ParseBodyLine(line)
    case Some(b) => TargetStep(b.kind)
    case None => 0
  }

  /** The number of source-side lines in a body. */
  function SourceTally(body: seq<string>): nat {
    if body == [] then 0 else SourceTally(body[..|body| - 1]) + SourceSide(body[|body| - 1])
  }

  /** The number of target-side lines in a body. */
  function TargetTally(body: seq<string>): nat {
    if body == [] then 0 else TargetTally(body[..|body| - 1]) + TargetSide(body[|body| - 1])
  }

  /** The body holds exactly the declared numbers of source-side and target-side lines. */
  predicate HitsEnds(h: HunkHeader, body: seq<string>) {
    SourceTally(body) == h.sourceLength && TargetTally(body) == h.targetLength
  }

  /** No non-empty proper prefix of the body already holds the declared numbers. */
  predicate NoEarlierEnd(h: HunkHeader, body: seq<string>) {
    forall m | 0 < m < |body| :: !HitsEnds(h, body[..m])
  }

  /** A hunk body: body lines only, exactly the declared numbers on both sides, and no
      shorter non-empty prefix with them. */
  predicate CompleteBody(h: HunkHeader, body: seq<string>) {
    AllBody(body) && HitsEnds(h, body) && NoEarlierEnd(h, body)
  }

  /** The lines of a hunk read from `body`: line k carries the type and payload of body
      line k, and its numbers are the starts plus the counts of the lines before it. */
  function ExpectedLines(h: HunkHeader, body: seq<string>): (r: seq<Line>)
    requires AllBody(body)
    ensures |r| == |body|
  {
    if body == [] then []
    else
      var init := body[..|body| - 1];
      assert AllBody(init) by {
        forall k | 0 <= k < |init| ensures ParseBodyLine(init[k]).Some? {
          assert init[k] == body[k];
        }
      }
      ExpectedLines(h, init)
        + [NumberedLine(ParseBodyLine(body[|body| - 1]).value, h.sourceStart + SourceTally(init), h.targetStart + TargetTally(init))]
  }

  lemma {:induction false} TallyPrefix(body: seq<string>, m: nat)
    requires m <= |body|
    ensures SourceTally(body[..m]) <= SourceTally(body)
    ensures TargetTally(body[..m]) <= TargetTally(body)
    decreases |body|
  {
    if m < |body| {
      var init := body[..|body| - 1];
      assert body[..m] == init[..m];
      TallyPrefix(init, m);
    } else {
      assert body[..m] == body;
    }
  }

  lemma AllBodyPrefix(body: seq<string>, m: nat)
    requires AllBody(body) && m <= |body|
    ensures AllBody(body[..m])
  {
    forall k | 0 <= k < m ensures ParseBodyLine(body[..m][k]).Some? {
      assert body[..m][k] == body[k];
    }
  }

  lemma NumbersSnoc(lines: seq<Line>, l: Line)
    ensures SourceNumbers(lines + [l]) == SourceNumbers(lines) + (if OnSource(l) then [l.sourceLineNo] else [])
    ensures TargetNumbers(lines + [l]) == TargetNumbers(lines) + (if OnTarget(l) then [l.targetLineNo] else [])
  {
    assert (lines + [l])[..|lines|] == lines;
  }

  lemma ConsecutiveSnoc(ns: seq<nat>, lo: nat, n: nat)
    requires Consecutive(ns, lo, n)
    ensures Consecutive(ns + [lo + n], lo, n + 1)
  {
  }

  /** Adding one line numbered from the counters keeps the numbering consecutive. */
  lemma NumberingStep(prev: seq<Line>, b: BodyLine, ss: nat, sn: nat, ts: nat, tn: nat)
    requires Consecutive(SourceNumbers(prev), ss, sn) && Consecutive(TargetNumbers(prev), ts, tn)
    ensures Consecutive(SourceNumbers(prev + [NumberedLine(b, ss + sn, ts + tn)]), ss, sn + SourceStep(b.kind))
    ensures Consecutive(TargetNumbers(prev + [NumberedLine(b, ss + sn, ts + tn)]), ts, tn + TargetStep(b.kind))
  {
    var l := NumberedLine(b, ss + sn, ts + tn);
    NumberedLineStep(b, ss + sn, ts + tn);
    NumbersSnoc(prev, l);
    if OnSource(l) {
      ConsecutiveSnoc(SourceNumbers(prev), ss, sn);
    }
    if OnTarget(l) {
      ConsecutiveSnoc(TargetNumbers(prev), ts, tn);
    }
  }

  lemma ExpectedLinesSnoc(h: HunkHeader, body: seq<string>)
    requires AllBody(body) && body != []
    ensures AllBody(body[..|body| - 1])
    ensures var init := body[..|body| - 1];
      var b := ParseBodyLine(body[|body| - 1]).value;
      && SourceTally(body) == SourceTally(init) + SourceStep(b.kind)
      && TargetTally(body) == TargetTally(init) + TargetStep(b.kind)
      && ExpectedLines(h, body)
         == ExpectedLines(h, init) + [NumberedLine(b, h.sourceStart + SourceTally(init), h.targetStart + TargetTally(init))]
  {
    AllBodyPrefix(body, |body| - 1);
  }

  /** The lines read from a body are numbered consecutively from the starts, one number
      per line on each side. */
  lemma {:induction false} ExpectedNumbering(h: HunkHeader, body: seq<string>)
    requires AllBody(body)
    ensures Consecutive(SourceNumbers(ExpectedLines(h, body)), h.sourceStart, SourceTally(body))
    ensures Consecutive(TargetNumbers(ExpectedLines(h, body)), h.targetStart, TargetTally(body))
  {
    if body != [] {
      var init := body[..|body| - 1];
      ExpectedLinesSnoc(h, body);
      ExpectedNumbering(h, init);
      var b := ParseBodyLine(body[|body| - 1]).value;
      NumberingStep(ExpectedLines(h, init), b, h.sourceStart, SourceTally(init), h.targetStart, TargetTally(init));
    }
  }

  /** Every line read from a body leaves the numbers its type does not use at 0. */
  lemma {:induction false} ExpectedUnusedZero(h: HunkHeader, body: seq<string>)
    requires AllBody(body)
    ensures forall k | 0 <= k < |body| :: UnusedNumbersZero(ExpectedLines(h, body)[k])
  {
    if body != [] {
      var init := body[..|body| - 1];
      ExpectedLinesSnoc(h, body);
      ExpectedUnusedZero(h, init);
      var b := ParseBodyLine(body[|body| - 1]).value;
      NumberedLineStep(b, h.sourceStart + SourceTally(init), h.targetStart + TargetTally(init));
    }
  }

  /** Every complete body gives a valid hunk: the count invariant and the consecutive
      numbering hold. */
  lemma CompleteBodyValid(h: HunkHeader, body: seq<string>)
    requires CompleteBody(h, body)
    ensures HunkValid(HunkOf(h, ExpectedLines(h, body)))
  {
    ExpectedNumbering(h, body);
    ExpectedUnusedZero(h, body);
    var lines := ExpectedLines(h, body);
    assert |lines| == |body|;
    assert HunkOf(h, lines).lines == lines;
  }

  /** A body read so far without ending the hunk: body lines only, within both declared
      lengths, and no non-empty prefix (itself included) holding exactly those lengths. */
  predicate OpenBody(h: HunkHeader, body: seq<string>) {
    && AllBody(body)
    && SourceTally(body) <= h.sourceLength && TargetTally(body) <= h.targetLength
    && NoEarlierEnd(h, body) && (body != [] ==> !HitsEnds(h, body))
  }

  /** What the outcome of reading a hunk body tells about the input from `pos` on. Every
      failure happens on the first line that breaks the body: the lines before it form an
      open body, and reading stops right after that line. */
  predicate ScanMeaning(h: HunkHeader, input: seq<string>, pos: nat, r: Scan) {
    && pos <= r.next <= |input|
    && (r.next == pos ==> pos == |input|)
    && match r.outcome
       case Appended =>
         CompleteBody(h, input[pos..r.next]) && r.lines == ExpectedLines(h, input[pos..r.next])
       case NotBodyLine =>
         pos < r.next && OpenBody(h, input[pos..r.next - 1]) && ParseBodyLine(input[r.next - 1]).None?
         && r.lines == ExpectedLines(h, input[pos..r.next - 1])
       case Overrun =>
         pos < r.next && OpenBody(h, input[pos..r.next - 1]) && AllBody(input[pos..r.next])
         && (SourceTally(input[pos..r.next]) > h.sourceLength || TargetTally(input[pos..r.next]) > h.targetLength)
         && r.lines == ExpectedLines(h, input[pos..r.next - 1])
       case Undershoot =>
         r.next == |input| && OpenBody(h, input[pos..])
         && (SourceTally(input[pos..]) < h.sourceLength || TargetTally(input[pos..]) < h.targetLength)
         && r.lines == ExpectedLines(h, input[pos..])
  }

  /** One more body line read from `input[i]`: the prefix grows by that line. */
  lemma BodyGrows(h: HunkHeader, input: seq<string>, pos: nat, i: nat)
    requires pos <= i < |input|
    requires AllBody(input[pos..i]) && ParseBodyLine(input[i]).Some?
    ensures AllBody(input[pos..i + 1])
    ensures var body, b := input[pos..i], ParseBodyLine(input[i]).value;
      && SourceTally(input[pos..i + 1]) == SourceTally(body) + SourceStep(b.kind)
      && TargetTally(input[pos..i + 1]) == TargetTally(body) + TargetStep(b.kind)
      && ExpectedLines(h, input[pos..i + 1])
         == ExpectedLines(h, body) + [NumberedLine(b, h.sourceStart + SourceTally(body), h.targetStart + TargetTally(body))]
  {
    var body, body' := input[pos..i], input[pos..i + 1];
    assert body'[..|body'| - 1] == body;
    assert body'[|body'| - 1] == input[i];
    forall k | 0 <= k < |body'| ensures ParseBodyLine(body'[k]).Some? {
      if k < |body| { assert body'[k] == body[k]; }
    }
    ExpectedLinesSnoc(h, body');
  }

  /** If no non-empty prefix shorter than the body hits the ends and the body itself does
      not, then no non-empty prefix shorter than the body one line longer does either. */
  lemma NoEarlierEndGrows(h: HunkHeader, input: seq<string>, pos: nat, i: nat)
    requires pos <= i < |input|
    requires NoEarlierEnd(h, input[pos..i]) && (pos < i ==> !HitsEnds(h, input[pos..i]))
    ensures NoEarlierEnd(h, input[pos..i + 1])
  {
    var body, body' := input[pos..i], input[pos..i + 1];
    forall m | 0 < m < |body'| ensures !HitsEnds(h, body'[..m]) {
      assert |body'[..m]| == |body[..m]| == m;
      assert forall j | 0 <= j < m :: body'[..m][j] == input[pos + j] == body[..m][j];
      assert body'[..m] == body[..m];
      if m == |body| { assert body[..m] == body; }
    }
  }

  /** Whether reading stops at `input[i]` (or at the end of the input) with the counters
      at `src` and `tgt`. */
  predicate StopsAt(h: HunkHeader, input: seq<string>, i: nat, src: nat, tgt: nat)
    requires i <= |input|
  {
    i == |input| || ParseBodyLine(input[i]).None? ||
    var k := ParseBodyLine(input[i]).value.kind;
    src + SourceStep(k) > SourceEnd(h) || tgt + TargetStep(k) > TargetEnd(h)
    || (src + SourceStep(k) == SourceEnd(h) && tgt + TargetStep(k) == TargetEnd(h))
  }

  /** Reading on past a body line that does not stop the hunk. */
  lemma ScanFromStep(h: HunkHeader, input: seq<string>, i: nat, src: nat, tgt: nat, acc: seq<Line>)
    requires i < |input| && !StopsAt(h, input, i, src, tgt)
    ensures var b := ParseBodyLine(input[i]).value;
      ScanFrom(h, input, i, src, tgt, acc)
      == ScanFrom(h, input, i + 1, src + SourceStep(b.kind), tgt + TargetStep(b.kind), acc + [NumberedLine(b, src, tgt)])
  {
  }

  /** A line that does not stop the reader extends the open body by one line, and reading
      goes on from the next line with the counters and lines of the longer body. */
  lemma ScanOpenStep(h: HunkHeader, input: seq<string>, pos: nat, i: nat, src: nat, tgt: nat, acc: seq<Line>)
    returns (src': nat, tgt': nat, acc': seq<Line>)
    requires pos <= i < |input|
    requires OpenBody(h, input[pos..i])
    requires src == h.sourceStart + SourceTally(input[pos..i]) && tgt == h.targetStart + TargetTally(input[pos..i])
    requires acc == ExpectedLines(h, input[pos..i])
    requires ParseBodyLine(input[i]).Some? && !StopsAt(h, input, i, src, tgt)
    ensures OpenBody(h, input[pos..i + 1])
    ensures src' == h.sourceStart + SourceTally(input[pos..i + 1]) && tgt' == h.targetStart + TargetTally(input[pos..i + 1])
    ensures acc' == ExpectedLines(h, input[pos..i + 1])
    ensures ScanFrom(h, input, i, src, tgt, acc) == ScanFrom(h, input, i + 1, src', tgt', acc')
  {
    var b := ParseBodyLine(input[i]).value;
    BodyGrows(h, input, pos, i);
    NoEarlierEndGrows(h, input, pos, i);
    ScanFromStep(h, input, i, src, tgt, acc);
    src', tgt', acc' := src + SourceStep(b.kind), tgt + TargetStep(b.kind), acc + [NumberedLine(b, src, tgt)];
  }

  lemma ScanStopsAtEnd(h: HunkHeader, input: seq<string>, pos: nat, i: nat, src: nat, tgt: nat, acc: seq<Line>)
    requires pos <= i == |input|
    requires OpenBody(h, input[pos..i])
    requires src == h.sourceStart + SourceTally(input[pos..i]) && tgt == h.targetStart + TargetTally(input[pos..i])
    requires acc == ExpectedLines(h, input[pos..i])
    ensures ScanMeaning(h, input, pos, ScanFrom(h, input, i, src, tgt, acc))
  {
    assert input[pos..] == input[pos..i];
  }

  lemma ScanStopsOnOther(h: HunkHeader, input: seq<string>, pos: nat, i: nat, src: nat, tgt: nat, acc: seq<Line>)
    requires pos <= i < |input|
    requires OpenBody(h, input[pos..i])
    requires src == h.sourceStart + SourceTally(input[pos..i]) && tgt == h.targetStart + TargetTally(input[pos..i])
    requires acc == ExpectedLines(h, input[pos..i])
    requires ParseBodyLine(input[i]).None?
    ensures ScanMeaning(h, input, pos, ScanFrom(h, input, i, src, tgt, acc))
  {
    assert ScanFrom(h, input, i, src, tgt, acc) == Scan(NotBodyLine, acc, i + 1);
  }

  lemma ScanStopsOnOverrun(h: HunkHeader, input: seq<string>, pos: nat, i: nat, src: nat, tgt: nat, acc: seq<Line>)
    requires pos <= i < |input|
    requires OpenBody(h, input[pos..i])
    requires src == h.sourceStart + SourceTally(input[pos..i]) && tgt == h.targetStart + TargetTally(input[pos..i])
    requires acc == ExpectedLines(h, input[pos..i])
    requires ParseBodyLine(input[i]).Some?
    requires var k := ParseBodyLine(input[i]).value.kind;
      src + SourceStep(k) > SourceEnd(h) || tgt + TargetStep(k) > TargetEnd(h)
    ensures ScanMeaning(h, input, pos, ScanFrom(h, input, i, src, tgt, acc))
  {
    BodyGrows(h, input, pos, i);
    ScanStopsAsOverrun(h, input, pos, i, src, tgt, acc);
  }

  lemma ScanStopsOnLast(h: HunkHeader, input: seq<string>, pos: nat, i: nat, src: nat, tgt: nat, acc: seq<Line>)
    requires pos <= i < |input|
    requires OpenBody(h, input[pos..i])
    requires src == h.sourceStart + SourceTally(input[pos..i]) && tgt == h.targetStart + TargetTally(input[pos..i])
    requires acc == ExpectedLines(h, input[pos..i])
    requires ParseBodyLine(input[i]).Some?
    requires var k := ParseBodyLine(input[i]).value.kind;
      src + SourceStep(k) == SourceEnd(h) && tgt + TargetStep(k) == TargetEnd(h)
    ensures ScanMeaning(h, input, pos, ScanFrom(h, input, i, src, tgt, acc))
  {
    var body := input[pos..i + 1];
    BodyGrows(h, input, pos, i);
    NoEarlierEndGrows(h, input, pos, i);
    assert HitsEnds(h, body);
    ScanStopsAsAppended(h, input, pos, i, src, tgt, acc);
  }

  lemma {:induction false} ScanFromMeaning(h: HunkHeader, input: seq<string>, pos: nat, i: nat, src: nat, tgt: nat, acc: seq<Line>)
    requires pos <= i <= |input|
    requires OpenBody(h, input[pos..i])
    requires src == h.sourceStart + SourceTally(input[pos..i]) && tgt == h.targetStart + TargetTally(input[pos..i])
    requires acc == ExpectedLines(h, input[pos..i])
    ensures ScanMeaning(h, input, pos, ScanFrom(h, input, i, src, tgt, acc))
    decreases |input| - i
  {
    if i == |input| {
      ScanStopsAtEnd(h, input, pos, i, src, tgt, acc);
    } else if ParseBodyLine(input[i]).None? {
      ScanStopsOnOther(h, input, pos, i, src, tgt, acc);
    } else {
      var k := ParseBodyLine(input[i]).value.kind;
      if src + SourceStep(k) > SourceEnd(h) || tgt + TargetStep(k) > TargetEnd(h) {
        ScanStopsOnOverrun(h, input, pos, i, src, tgt, acc);
      } else if src + SourceStep(k) == SourceEnd(h) && tgt + TargetStep(k) == TargetEnd(h) {
        ScanStopsOnLast(h, input, pos, i, src, tgt, acc);
      } else {
        var src', tgt', acc' := ScanOpenStep(h, input, pos, i, src, tgt, acc);
        ScanFromMeaning(h, input, pos, i + 1, src', tgt', acc');
      }
    }
  }

  /** Reading a hunk always ends in one of four ways, and each says what the input was:
      a complete body whose lines are ExpectedLines, a non-body line, a body with too many
      lines on one side, or an input that ran out with too few. */
  lemma ScanHunkMeaning(h: HunkHeader, input: seq<string>, pos: nat)
    requires pos <= |input|
    ensures ScanMeaning(h, input, pos, ScanHunk(h, input, pos))
  {
    assert input[pos..pos] == [];
    ScanFromMeaning(h, input, pos, pos, h.sourceStart, h.targetStart, []);
  }

  /** Reading a hunk never moves the cursor backwards or past the end of the input. */
  lemma ScanHunkBounds(h: HunkHeader, input: seq<string>, pos: nat)
    requires pos <= |input|
    ensures pos <= ScanHunk(h, input, pos).next <= |input|
  {
    ScanHunkMeaning(h, input, pos);
  }

  /** An appended hunk satisfies the count invariant and is numbered consecutively from
      its starts. */
  lemma ScanHunkValid(h: HunkHeader, input: seq<string>, pos: nat)
    requires pos <= |input|
    ensures ScanHunk(h, input, pos).outcome == Appended ==> HunkValid(HunkOf(h, ScanHunk(h, input, pos).lines))
  {
    var r := ScanHunk(h, input, pos);
    ScanHunkMeaning(h, input, pos);
    if r.outcome == Appended {
      CompleteBodyValid(h, input[pos..r.next]);
    }
  }

  // ---------------------------------------------------------------------------
  // The converse: the meaning pins the reading down

  /** Where reading stops according to `r`: the index of the line that ends the hunk, or
      the end of the input. */
  function StopIndex(input: seq<string>, pos: nat, r: Scan): nat {
    if r.outcome == Undershoot then |input| else if r.next <= pos then pos else r.next - 1
  }

  /** Every prefix of an open body is open. */
  lemma OpenPrefix(h: HunkHeader, body: seq<string>, m: nat)
    requires OpenBody(h, body) && m <= |body|
    ensures OpenBody(h, body[..m])
  {
    var p := body[..m];
    AllBodyPrefix(body, m);
    TallyPrefix(body, m);
    forall k | 0 < k < m ensures !HitsEnds(h, p[..k]) {
      assert p[..k] == body[..k];
    }
    if m == |body| { assert p == body; }
  }

  /** Every proper prefix of a complete body is open. */
  lemma CompletePrefix(h: HunkHeader, body: seq<string>, m: nat)
    requires CompleteBody(h, body) && m < |body|
    ensures OpenBody(h, body[..m])
  {
    var p := body[..m];
    AllBodyPrefix(body, m);
    TallyPrefix(body, m);
    forall k | 0 < k < m ensures !HitsEnds(h, p[..k]) {
      assert p[..k] == body[..k];
    }
  }

  lemma OpenSlicePrefix(h: HunkHeader, input: seq<string>, pos: nat, e: nat, i: nat)
    requires pos <= i <= e <= |input| && OpenBody(h, input[pos..e])
    ensures OpenBody(h, input[pos..i])
  {
    OpenPrefix(h, input[pos..e], i - pos);
    assert input[pos..e][..i - pos] == input[pos..i];
  }

  lemma CompleteSlicePrefix(h: HunkHeader, input: seq<string>, pos: nat, e: nat, i: nat)
    requires pos <= i < e <= |input| && CompleteBody(h, input[pos..e])
    ensures OpenBody(h, input[pos..i])
  {
    CompletePrefix(h, input[pos..e], i - pos);
    assert input[pos..e][..i - pos] == input[pos..i];
  }

  /** The lines before the stopping point of a scan with this meaning form an open body. */
  lemma MeaningOpen(h: HunkHeader, input: seq<string>, pos: nat, r: Scan, i: nat)
    requires ScanMeaning(h, input, pos, r) && pos <= i <= StopIndex(input, pos, r)
    ensures i <= |input| && OpenBody(h, input[pos..i])
  {
    if r.outcome == Undershoot {
      assert input[pos..] == input[pos..|input|];
      OpenSlicePrefix(h, input, pos, |input|, i);
    } else if r.next == pos {
      assert input[pos..i] == [];
    } else if r.outcome == Appended {
      CompleteSlicePrefix(h, input, pos, r.next, i);
    } else {
      OpenSlicePrefix(h, input, pos, r.next - 1, i);
    }
  }

  /** A line inside an open body is a body line that does not stop the reader. */
  lemma OpenLineContinues(h: HunkHeader, input: seq<string>, pos: nat, i: nat, src: nat, tgt: nat)
    requires pos <= i < |input|
    requires OpenBody(h, input[pos..i]) && OpenBody(h, input[pos..i + 1])
    requires src == h.sourceStart + SourceTally(input[pos..i]) && tgt == h.targetStart + TargetTally(input[pos..i])
    ensures ParseBodyLine(input[i]).Some? && !StopsAt(h, input, i, src, tgt)
  {
    assert input[pos..i + 1][i - pos] == input[i];
    BodyGrows(h, input, pos, i);
  }

  /** At its stopping point, the reader produces exactly the scan with the given meaning. */
  lemma ScanStopsAsMeant(h: HunkHeader, input: seq<string>, pos: nat, i: nat, src: nat, tgt: nat, acc: seq<Line>, r: Scan)
    requires ScanMeaning(h, input, pos, r) && pos <= i == StopIndex(input, pos, r)
    requires OpenBody(h, input[pos..i])
    requires src == h.sourceStart + SourceTally(input[pos..i]) && tgt == h.targetStart + TargetTally(input[pos..i])
    requires acc == ExpectedLines(h, input[pos..i])
    ensures i <= |input| && ScanFrom(h, input, i, src, tgt, acc) == r
  {
    if r.outcome == Undershoot {
      assert input[pos..] == input[pos..i];
      assert ScanFrom(h, input, i, src, tgt, acc) == Scan(Undershoot, acc, i);
    } else if r.next == pos {
      assert input[pos..r.next] == [];
      assert ScanFrom(h, input, i, src, tgt, acc) == Scan(Appended, [], i);
    } else if r.outcome == NotBodyLine {
      assert ScanFrom(h, input, i, src, tgt, acc) == Scan(NotBodyLine, acc, i + 1);
    } else if r.outcome == Overrun {
      ScanStopsAsOverrun(h, input, pos, i, src, tgt, acc);
    } else {
      ScanStopsAsAppended(h, input, pos, i, src, tgt, acc);
    }
  }

  lemma ScanStopsAsOverrun(h: HunkHeader, input: seq<string>, pos: nat, i: nat, src: nat, tgt: nat, acc: seq<Line>)
    requires pos <= i < |input|
    requires OpenBody(h, input[pos..i]) && AllBody(input[pos..i + 1])
    requires SourceTally(input[pos..i + 1]) > h.sourceLength || TargetTally(input[pos..i + 1]) > h.targetLength
    requires src == h.sourceStart + SourceTally(input[pos..i]) && tgt == h.targetStart + TargetTally(input[pos..i])
    requires acc == ExpectedLines(h, input[pos..i])
    ensures ScanFrom(h, input, i, src, tgt, acc) == Scan(Overrun, acc, i + 1)
  {
    assert input[pos..i + 1][i - pos] == input[i];
    BodyGrows(h, input, pos, i);
  }

  lemma ScanStopsAsAppended(h: HunkHeader, input: seq<string>, pos: nat, i: nat, src: nat, tgt: nat, acc: seq<Line>)
    requires pos <= i < |input|
    requires OpenBody(h, input[pos..i]) && CompleteBody(h, input[pos..i + 1])
    requires src == h.sourceStart + SourceTally(input[pos..i]) && tgt == h.targetStart + TargetTally(input[pos..i])
    requires acc == ExpectedLines(h, input[pos..i])
    ensures ScanFrom(h, input, i, src, tgt, acc) == Scan(Appended, ExpectedLines(h, input[pos..i + 1]), i + 1)
  {
    assert input[pos..i + 1][i - pos] == input[i];
    BodyGrows(h, input, pos, i);
  }

  lemma {:induction false} ScanFromDetermined(h: HunkHeader, input: seq<string>, pos: nat, i: nat, src: nat, tgt: nat, acc: seq<Line>, r: Scan)
    requires ScanMeaning(h, input, pos, r) && pos <= i <= StopIndex(input, pos, r)
    requires i <= |input| && OpenBody(h, input[pos..i])
    requires src == h.sourceStart + SourceTally(input[pos..i]) && tgt == h.targetStart + TargetTally(input[pos..i])
    requires acc == ExpectedLines(h, input[pos..i])
    ensures ScanFrom(h, input, i, src, tgt, acc) == r
    decreases |input| - i
  {
    if i == StopIndex(input, pos, r) {
      ScanStopsAsMeant(h, input, pos, i, src, tgt, acc, r);
    } else {
      MeaningOpen(h, input, pos, r, i + 1);
      OpenLineContinues(h, input, pos, i, src, tgt);
      var src', tgt', acc' := ScanOpenStep(h, input, pos, i, src, tgt, acc);
      ScanFromDetermined(h, input, pos, i + 1, src', tgt', acc', r);
    }
  }

  /** The four cases of ScanMeaning leave no freedom: the one scan that has this meaning is
      the one the reader produces. */
  lemma ScanMeaningDetermines(h: HunkHeader, input: seq<string>, pos: nat, r: Scan)
    requires pos <= |input| && ScanMeaning(h, input, pos, r)
    ensures ScanHunk(h, input, pos) == r
  {
    assert input[pos..pos] == [];
    ScanFromDetermined(h, input, pos, pos, h.sourceStart, h.targetStart, [], r);
  }

  /** Conversely, a complete body at `pos` is always read as exactly that hunk. */
  lemma ScanHunkComplete(h: HunkHeader, input: seq<string>, pos: nat, n: nat)
    requires pos + n <= |input|
    requires CompleteBody(h, input[pos..pos + n])
    requires n > 0 || pos == |input|
    ensures ScanHunk(h, input, pos) == Scan(Appended, ExpectedLines(h, input[pos..pos + n]), pos + n)
  {
    ScanMeaningDetermines(h, input, pos, Scan(Appended, ExpectedLines(h, input[pos..pos + n]), pos + n));
  }
}
