/** The line grammar of a unified diff with git's extended headers: the patterns of
    unidiff.h written as prefix, character-class and digit matchers. Every matcher matches
    the WHOLE line, as `std::regex_match` does, and lines carry no terminator. */
module Grammar {
  import opened Text

  const DevNull: string := "/dev/null"

  // The line-type tags a hunk line carries.
  const LineTypeAdded: string := "+"
  const LineTypeRemoved: string := "-"
  const LineTypeContext: string := " "
  const LineTypeEmpty: string := ""
  const LineTypeNoNewline: string := "\\"

  const LineValueNoNewline: string := " No newline at end of file"
  /** The no-newline marker line: a backslash followed by the marker text. */
  const NoNewlineMarkerLine: string := LineTypeNoNewline + LineValueNoNewline

  datatype LineType = Added | Removed | Context | NoNewline | Empty {
    /** The tag string the line type stands for. */
    function Tag(): string {
      match this
      case Added => LineTypeAdded
      case Removed => LineTypeRemoved
      case Context => LineTypeContext
      case NoNewline => LineTypeNoNewline
      case Empty => LineTypeEmpty
    }
  }

  /** The character class `[- +\\]` that opens a hunk body line. */
  function TypeOfTag(c: char): Option<LineType> {
    if c == '+' then Some(Added)
    else if c == '-' then Some(Removed)
    else if c == ' ' then Some(Context)
    else if c == '\\' then Some(NoNewline)
    else None
  }

  /** Tags are distinct one-character strings (only Empty's is empty), and reading a
      tag character back gives the type that carries it. */
  lemma TagRoundTrip(c: char, t: LineType)
    ensures TypeOfTag(c) == Some(t) <==> t.Tag() == [c]
    ensures t.Tag() == [] <==> t == Empty
  {
  }

  // ---------------------------------------------------------------------------
  // Hunk body lines (the body and empty-body patterns)

  datatype BodyLine = BodyLine(kind: LineType, value: string)

  /** A blank line: at most two characters, all carriage returns or line feeds. The
      terminator the line reader strips may leave it empty. */
  predicate IsBlank(line: string) {
    |line| <= 2 && forall i | 0 <= i < |line| :: line[i] == '\r' || line[i] == '\n'
  }

  /** A hunk body line: a tag character and the payload after it, or a blank line, which
      counts as context whose payload is the line itself. */
  function ParseBodyLine(line: string): Option<BodyLine> {
    if |line| > 0 && TypeOfTag(line[0]).Some? then Some(BodyLine(TypeOfTag(line[0]).value, line[1..]))
    else if IsBlank(line) then Some(BodyLine(Context, line))
    else None
  }

  /** Every tagged line parses back to its type and payload. */
  lemma BodyLineRoundTrip(t: LineType, value: string)
    requires t != Empty
    ensures ParseBodyLine(t.Tag() + value) == Some(BodyLine(t, value))
  {
    assert (t.Tag() + value)[1..] == value;
  }

  /** A parsed body line is either its tag followed by its payload, or a blank line read
      as context; it is never of the Empty type. */
  lemma BodyLineSound(line: string)
    ensures ParseBodyLine(line).Some? ==>
      var b := ParseBodyLine(line).value;
      b.kind != Empty &&
      (line == b.kind.Tag() + b.value || (b.kind == Context && IsBlank(line) && b.value == line))
  {
    if |line| > 0 && TypeOfTag(line[0]).Some? {
      assert line == [line[0]] + line[1..];
    }
  }

  // ---------------------------------------------------------------------------
  // Source and target file headers: `--- <name>[\t<timestamp>]`, `+++ <name>[\t<timestamp>]`

  const SourceHeaderPrefix: string := "--- "
  const TargetHeaderPrefix: string := "+++ "

  /** The captures of a file header; an absent timestamp is the empty string. */
  datatype FileHeader = FileHeader(filename: string, timestamp: string)

  function FirstTab(s: string): (k: nat)
    ensures k <= |s| && (k < |s| ==> s[k] == '\t')
    ensures forall i | 0 <= i < k :: s[i] != '\t'
  {
    if s == [] || s[0] == '\t' then 0 else 1 + FirstTab(s[1..])
  }

  /** `<prefix>([^\t\n]+)(?:\t([^\n]+))?` over the whole line. */
  function MatchFileHeader(prefix: string, line: string): Option<FileHeader> {
    if !StartsWith(line, prefix) then None
    else
      var rest := line[|prefix|..];
      var k := FirstTab(rest);
      var name := rest[..k];
      if name == [] || !NoTabOrNewline(name) then None
      else if k == |rest| then Some(FileHeader(name, ""))
      else if rest[k + 1..] != [] && NoLineFeed(rest[k + 1..]) then Some(FileHeader(name, rest[k + 1..]))
      else None
  }

  function MatchSourceHeader(line: string): Option<FileHeader> { MatchFileHeader(SourceHeaderPrefix, line) }
  function MatchTargetHeader(line: string): Option<FileHeader> { MatchFileHeader(TargetHeaderPrefix, line) }

  /** What the pattern admits: a non-empty file name without tab or line feed, and a
      timestamp without line feed (empty when absent). */
  predicate ValidFileHeader(h: FileHeader) {
    h.filename != [] && NoTabOrNewline(h.filename) && NoLineFeed(h.timestamp)
  }

  /** The header line written out: the timestamp follows a single tab when present. */
  function FileHeaderLine(prefix: string, h: FileHeader): string {
    prefix + h.filename + (if h.timestamp == [] then [] else "\t" + h.timestamp)
  }

  lemma FileHeaderRoundTrip(prefix: string, h: FileHeader)
    requires ValidFileHeader(h)
    ensures MatchFileHeader(prefix, FileHeaderLine(prefix, h)) == Some(h)
  {
    var line := FileHeaderLine(prefix, h);
    var rest := line[|prefix|..];
    assert rest == h.filename + (if h.timestamp == [] then [] else "\t" + h.timestamp);
    var k := FirstTab(rest);
    if h.timestamp == [] {
      assert rest == h.filename;
    } else {
      assert rest[|h.filename|] == '\t';
      assert rest[|h.filename| + 1..] == h.timestamp;
    }
    assert k == |h.filename|;
    assert rest[..k] == h.filename;
  }

  lemma FileHeaderMatchSound(prefix: string, line: string)
    ensures MatchFileHeader(prefix, line).Some? ==>
      ValidFileHeader(MatchFileHeader(prefix, line).value) &&
      FileHeaderLine(prefix, MatchFileHeader(prefix, line).value) == line
  {
    if MatchFileHeader(prefix, line).Some? {
      var rest := line[|prefix|..];
      var k := FirstTab(rest);
      assert line == prefix + rest;
      if k < |rest| {
        assert rest == rest[..k] + "\t" + rest[k + 1..];
      } else {
        assert rest == rest[..k];
      }
    }
  }

  // ---------------------------------------------------------------------------
  // Hunk header: `@@ -<start>[,<len>] +<start>[,<len>] @@[ ]<section>`

  const HunkHeaderPrefix: string := "@@ -"
  /** The length of a range whose `,<len>` part is omitted. */
  const DefaultLength: nat := 1

  datatype HunkHeader = HunkHeader(sourceStart: nat, sourceLength: nat, targetStart: nat, targetLength: nat, section: string)

  /** `(\d+)(?:,(\d+))?` at the front of `s`: the start, the length (DefaultLength when
      omitted) and what follows. A comma without digits cannot be followed by what the
      pattern needs next, so it fails here. */
  function MatchRange(s: string): Option<(nat, nat, string)> {
    var n := LeadingDigits(s);
    if n == 0 then None
    else
      var start := Decimal(s[..n]);
      var rest := s[n..];
      if StartsWith(rest, ",") then
        var m := LeadingDigits(rest[1..]);
        if m == 0 then None else Some((start, Decimal(rest[1..][..m]), rest[1..][m..]))
      else Some((start, DefaultLength, rest))
  }

  function MatchHunkHeader(line: string): Option<HunkHeader> {
    if !StartsWith(line, HunkHeaderPrefix) then None
    else
      match MatchRange(line[|HunkHeaderPrefix|..])
      case None => None
      case Some((sourceStart, sourceLength, afterSource)) =>
        if !StartsWith(afterSource, " +") then None
        else
          match MatchRange(afterSource[2..])
          case None => None
          case Some((targetStart, targetLength, afterTarget)) =>
            if !StartsWith(afterTarget, " @@") then None
            else
              var tail := afterTarget[3..];
              var section := if StartsWith(tail, " ") then tail[1..] else tail;
              if NoLineBreak(section) then Some(HunkHeader(sourceStart, sourceLength, targetStart, targetLength, section))
              else None
  }

  function SectionSuffix(section: string): string {
    if section == [] then [] else " " + section
  }

  /** A hunk header written with both lengths explicit. */
  function HunkHeaderLine(h: HunkHeader): string {
    HunkHeaderPrefix + (Numeral(h.sourceStart) + "," + Numeral(h.sourceLength)
      + (" +" + (Numeral(h.targetStart) + "," + Numeral(h.targetLength) + (" @@" + SectionSuffix(h.section)))))
  }

  /** A hunk header written with both lengths omitted. */
  function ShortHunkHeaderLine(sourceStart: nat, targetStart: nat, section: string): string {
    HunkHeaderPrefix + (Numeral(sourceStart) + (" +" + (Numeral(targetStart) + (" @@" + SectionSuffix(section)))))
  }

  /** A run of digits followed by a non-digit splits into its value and the rest. */
  lemma DigitsPrefix(d: string, rest: string)
    requires AllDigits(d)
    requires rest == [] || !IsDigit(rest[0])
    ensures LeadingDigits(d + rest) == |d| && (d + rest)[..|d|] == d && (d + rest)[|d|..] == rest
  {
    LeadingDigitsOfNumeral(d, rest);
  }

  lemma MatchRangeExplicitDigits(s: string, a: string, b: string, rest: string)
    requires a != [] && AllDigits(a) && b != [] && AllDigits(b)
    requires rest == [] || !IsDigit(rest[0])
    requires s == a + "," + b + rest
    ensures MatchRange(s) == Some((Decimal(a), Decimal(b), rest))
  {
    var r := "," + b + rest;
    assert s == a + r;
    DigitsPrefix(a, r);
    var n := LeadingDigits(s);
    assert n == |a| && s[..n] == a && s[n..] == r;
    assert StartsWith(r, ",");
    assert r[1..] == b + rest;
    DigitsPrefix(b, rest);
    var m := LeadingDigits(r[1..]);
    assert m == |b| && r[1..][..m] == b && r[1..][m..] == rest;
    assert MatchRange(s) == Some((Decimal(s[..n]), Decimal(r[1..][..m]), r[1..][m..]));
  }

  lemma MatchRangeExplicit(s: string, start: nat, length: nat, rest: string)
    requires rest == [] || !IsDigit(rest[0])
    requires s == Numeral(start) + "," + Numeral(length) + rest
    ensures MatchRange(s) == Some((start, length, rest))
  {
    MatchRangeExplicitDigits(s, Numeral(start), Numeral(length), rest);
    DecimalOfNumeral(start);
    DecimalOfNumeral(length);
  }

  lemma MatchRangeShortDigits(s: string, a: string, rest: string)
    requires a != [] && AllDigits(a)
    requires rest == [] || (!IsDigit(rest[0]) && rest[0] != ',')
    requires s == a + rest
    ensures MatchRange(s) == Some((Decimal(a), DefaultLength, rest))
  {
    DigitsPrefix(a, rest);
    var n := LeadingDigits(s);
    assert n == |a| && s[..n] == a && s[n..] == rest;
    assert MatchRange(s) == Some((Decimal(s[..n]), DefaultLength, s[n..]));
  }

  lemma MatchRangeShort(s: string, start: nat, rest: string)
    requires rest == [] || (!IsDigit(rest[0]) && rest[0] != ',')
    requires s == Numeral(start) + rest
    ensures MatchRange(s) == Some((start, DefaultLength, rest))
  {
    MatchRangeShortDigits(s, Numeral(start), rest);
    DecimalOfNumeral(start);
  }

  lemma SectionRoundTrip(section: string)
    ensures var tail := SectionSuffix(section);
      (if StartsWith(tail, " ") then tail[1..] else tail) == section
  {
  }

  /** The hunk-header pattern read piece by piece. */
  lemma MatchHunkHeaderPieces(line: string, source: string, target: string, h: HunkHeader)
    requires line == HunkHeaderPrefix + source
    requires MatchRange(source) == Some((h.sourceStart, h.sourceLength, " +" + target))
    requires MatchRange(target) == Some((h.targetStart, h.targetLength, " @@" + SectionSuffix(h.section)))
    requires NoLineBreak(h.section)
    ensures MatchHunkHeader(line) == Some(h)
  {
    assert line[|HunkHeaderPrefix|..] == source;
    assert (" +" + target)[2..] == target;
    assert (" @@" + SectionSuffix(h.section))[3..] == SectionSuffix(h.section);
    SectionRoundTrip(h.section);
  }

  /** Every header with a section free of line breaks is read back from its explicit form. */
  lemma HunkHeaderRoundTrip(h: HunkHeader)
    requires NoLineBreak(h.section)
    ensures MatchHunkHeader(HunkHeaderLine(h)) == Some(h)
  {
    var afterTarget := " @@" + SectionSuffix(h.section);
    var target := Numeral(h.targetStart) + "," + Numeral(h.targetLength) + afterTarget;
    var source := Numeral(h.sourceStart) + "," + Numeral(h.sourceLength) + (" +" + target);
    MatchRangeExplicit(source, h.sourceStart, h.sourceLength, " +" + target);
    MatchRangeExplicit(target, h.targetStart, h.targetLength, afterTarget);
    MatchHunkHeaderPieces(HunkHeaderLine(h), source, target, h);
  }

  /** An omitted length reads as DefaultLength on both sides. */
  lemma HunkHeaderDefaultLengths(sourceStart: nat, targetStart: nat, section: string)
    requires NoLineBreak(section)
    ensures MatchHunkHeader(ShortHunkHeaderLine(sourceStart, targetStart, section))
         == Some(HunkHeader(sourceStart, DefaultLength, targetStart, DefaultLength, section))
  {
    var afterTarget := " @@" + SectionSuffix(section);
    var target := Numeral(targetStart) + afterTarget;
    var source := Numeral(sourceStart) + (" +" + target);
    MatchRangeShort(source, sourceStart, " +" + target);
    MatchRangeShort(target, targetStart, afterTarget);
    MatchHunkHeaderPieces(ShortHunkHeaderLine(sourceStart, targetStart, section), source, target,
      HunkHeader(sourceStart, DefaultLength, targetStart, DefaultLength, section));
  }

  /** The text of one range as a header spells it: the start digits and, when present,
      the length digits after a comma. */
  datatype RangeText = RangeText(start: string, length: Option<string>)

  predicate ValidRangeText(r: RangeText) {
    r.start != [] && AllDigits(r.start) && (r.length.Some? ==> r.length.value != [] && AllDigits(r.length.value))
  }

  function RangeTextLine(r: RangeText): string {
    r.start + (if r.length.Some? then "," + r.length.value else "")
  }

  function RangeStart(r: RangeText): nat
    requires ValidRangeText(r)
  {
    Decimal(r.start)
  }

  function RangeLength(r: RangeText): nat
    requires ValidRangeText(r)
  {
    if r.length.Some? then Decimal(r.length.value) else DefaultLength
  }

  /** A range is read only from digits, optionally followed by a comma and digits, and its
      numbers are their decimal values. */
  lemma MatchRangeSound(s: string) returns (r: RangeText, rest: string)
    requires MatchRange(s).Some?
    ensures ValidRangeText(r) && s == RangeTextLine(r) + rest
    ensures MatchRange(s) == Some((RangeStart(r), RangeLength(r), rest))
  {
    var n := LeadingDigits(s);
    var after := s[n..];
    if StartsWith(after, ",") {
      var m := LeadingDigits(after[1..]);
      r, rest := RangeText(s[..n], Some(after[1..][..m])), after[1..][m..];
      assert after == "," + after[1..][..m] + rest;
      assert s == s[..n] + after;
    } else {
      r, rest := RangeText(s[..n], None), after;
      assert s == s[..n] + after;
    }
  }

  /** A hunk header is read only from `@@ -`, a range, ` +`, a range and ` @@`, then the
      section, optionally after one space; its four numbers are the ranges' values in the
      order source start, source length, target start, target length. */
  lemma HunkHeaderSound(line: string) returns (source: RangeText, target: RangeText, space: string)
    requires MatchHunkHeader(line).Some?
    ensures var h := MatchHunkHeader(line).value;
      && ValidRangeText(source) && ValidRangeText(target) && (space == "" || space == " ")
      && NoLineBreak(h.section)
      && line == HunkHeaderPrefix + (RangeTextLine(source) + (" +" + (RangeTextLine(target) + (" @@" + (space + h.section)))))
      && h.sourceStart == RangeStart(source) && h.sourceLength == RangeLength(source)
      && h.targetStart == RangeStart(target) && h.targetLength == RangeLength(target)
  {
    var afterPrefix := line[|HunkHeaderPrefix|..];
    var afterSource;
    source, afterSource := MatchRangeSound(afterPrefix);
    assert StartsWith(afterSource, " +");
    var afterPlus := afterSource[2..];
    var afterTarget;
    target, afterTarget := MatchRangeSound(afterPlus);
    assert StartsWith(afterTarget, " @@");
    var tail := afterTarget[3..];
    space := if StartsWith(tail, " ") then " " else "";
    var section := if StartsWith(tail, " ") then tail[1..] else tail;
    assert MatchHunkHeader(line).value
        == HunkHeader(RangeStart(source), RangeLength(source), RangeStart(target), RangeLength(target), section);
    LineFromPieces(line, afterPrefix, source, afterSource, afterPlus, target, afterTarget, tail, space, section);
  }

  lemma LineFromPieces(line: string, afterPrefix: string, source: RangeText, afterSource: string, afterPlus: string,
                       target: RangeText, afterTarget: string, tail: string, space: string, section: string)
    requires StartsWith(line, HunkHeaderPrefix) && afterPrefix == line[|HunkHeaderPrefix|..]
    requires afterPrefix == RangeTextLine(source) + afterSource
    requires StartsWith(afterSource, " +") && afterPlus == afterSource[2..]
    requires afterPlus == RangeTextLine(target) + afterTarget
    requires StartsWith(afterTarget, " @@") && tail == afterTarget[3..]
    requires space == (if StartsWith(tail, " ") then " " else "")
    requires section == (if StartsWith(tail, " ") then tail[1..] else tail)
    ensures line == HunkHeaderPrefix + (RangeTextLine(source) + (" +" + (RangeTextLine(target) + (" @@" + (space + section)))))
  {
    assert tail == space + section;
    assert afterTarget == " @@" + tail;
    assert afterSource == " +" + afterPlus;
    assert line == HunkHeaderPrefix + afterPrefix;
  }

  // ---------------------------------------------------------------------------
  // git's `diff --git <source> <target>` in its three spellings

  const GitHeaderPrefix: string := "diff --git "

  datatype Spelling = Prefixed | UriLike | Bare
  datatype GitPaths = GitPaths(source: string, target: string)

  /** `.*://[^\t\n]+` */
  predicate HasUriScheme(s: string) {
    exists p | 0 <= p && p + 3 < |s| :: s[p..p + 3] == "://" && NoLineBreak(s[..p]) && NoTabOrNewline(s[p + 3..])
  }

  /** The pattern each spelling puts on the source path. */
  predicate SourceFits(sp: Spelling, s: string) {
    match sp
    case Prefixed => |s| > 2 && s[..2] == "a/" && NoTabOrNewline(s[2..])
    case UriLike => HasUriScheme(s)
    case Bare => s != [] && NoTabOrNewline(s)
  }

  /** The pattern each spelling puts on the target path. */
  predicate TargetFits(sp: Spelling, s: string) {
    match sp
    case Prefixed => |s| > 2 && s[..2] == "b/" && NoTabOrNewline(s[2..])
    case UriLike => HasUriScheme(s)
    case Bare => s != [] && NoTabOrNewline(s)
  }

  /** Splitting the paths at the space at index `k` satisfies both captures. */
  predicate SplitFits(sp: Spelling, paths: string, k: int) {
    0 <= k < |paths| && paths[k] == ' ' && SourceFits(sp, paths[..k]) && TargetFits(sp, paths[k + 1..])
  }

  /** The last fitting split below `bound`: the greedy source capture takes the longest
      source for which the rest of the pattern still matches. */
  function LastSplit(sp: Spelling, paths: string, bound: nat): (r: Option<nat>)
    requires bound <= |paths|
    ensures r.Some? ==> r.value < bound && SplitFits(sp, paths, r.value)
    ensures r.Some? ==> forall k | r.value < k < bound :: !SplitFits(sp, paths, k)
    ensures r.None? ==> forall k | 0 <= k < bound :: !SplitFits(sp, paths, k)
    decreases bound
  {
    if bound == 0 then None
    else if SplitFits(sp, paths, bound - 1) then Some(bound - 1)
    else LastSplit(sp, paths, bound - 1)
  }

  /** One spelling of the git header. A match yields paths that rebuild the line and fit the
      spelling, split at the last space where they do; no match means no split fits. */
  function MatchGit(sp: Spelling, line: string): (r: Option<GitPaths>)
    ensures r.Some? ==>
      line == GitHeaderPrefix + r.value.source + " " + r.value.target &&
      SourceFits(sp, r.value.source) && TargetFits(sp, r.value.target) &&
      forall k | |r.value.source| < k < |line| - |GitHeaderPrefix| :: !SplitFits(sp, line[|GitHeaderPrefix|..], k)
    ensures r.None? ==>
      !StartsWith(line, GitHeaderPrefix) ||
      forall k | 0 <= k < |line| - |GitHeaderPrefix| :: !SplitFits(sp, line[|GitHeaderPrefix|..], k)
  {
    if !StartsWith(line, GitHeaderPrefix) then None
    else
      var paths := line[|GitHeaderPrefix|..];
      match LastSplit(sp, paths, |paths|)
      case None => None
      case Some(k) =>
        assert paths == paths[..k] + " " + paths[k + 1..];
        Some(GitPaths(paths[..k], paths[k + 1..]))
  }

  /** The three spellings in the order they are tried; the first that matches wins. */
  function MatchGitHeader(line: string): Option<GitPaths> {
    var prefixed := MatchGit(Prefixed, line);
    if prefixed.Some? then prefixed
    else
      var uri := MatchGit(UriLike, line);
      if uri.Some? then uri else MatchGit(Bare, line)
  }

  /** Every prefixed header also matches the bare spelling, so the order decides the paths. */
  lemma PrefixedIsAlsoBare(line: string)
    requires MatchGit(Prefixed, line).Some?
    ensures MatchGit(Bare, line).Some?
    ensures MatchGitHeader(line) == MatchGit(Prefixed, line)
  {
    var p := MatchGit(Prefixed, line).value;
    var paths := line[|GitHeaderPrefix|..];
    assert paths == p.source + " " + p.target;
    var k := |p.source|;
    assert paths[..k] == p.source && paths[k + 1..] == p.target;
    assert SplitFits(Bare, paths, k);
  }

  /** A header where the spellings disagree: the prefixed one, tried first, keeps the space
      in the target; the bare one would have split at the last space. */
  lemma SpellingOrderMatters()
    ensures MatchGitHeader("diff --git a/x b/y z") == Some(GitPaths("a/x", "b/y z"))
    ensures MatchGit(Bare, "diff --git a/x b/y z") == Some(GitPaths("a/x b/y", "z"))
  {
    var line := "diff --git a/x b/y z";
    var paths := line[|GitHeaderPrefix|..];
    assert paths == "a/x b/y z";
    assert SplitFits(Prefixed, paths, 3) by {
      assert paths[..3] == "a/x" && paths[4..] == "b/y z";
    }
    assert SplitFits(Bare, paths, 7) by {
      assert paths[..7] == "a/x b/y" && paths[8..] == "z";
    }
    forall k | 3 < k < |paths| ensures !SplitFits(Prefixed, paths, k) {
      if k == 7 {
        assert paths[8..] == "z";
      } else {
        assert paths[k] != ' ';
      }
    }
    assert !SplitFits(Bare, paths, 8) by {
      assert paths[8] == 'z';
    }
    var prefixed := LastSplit(Prefixed, paths, |paths|);
    assert prefixed == Some(3);
    assert LastSplit(Bare, paths, |paths|) == Some(7);
    assert paths[..3] == "a/x" && paths[4..] == "b/y z";
    assert paths[..7] == "a/x b/y" && paths[8..] == "z";
  }

  // ---------------------------------------------------------------------------
  // git mode markers and the no-newline marker

  const NewFileModePrefix: string := "new file mode "
  const DeletedFileModePrefix: string := "deleted file mode "

  /** `^<prefix>\d+$`: the keyword followed by one or more digits up to the end of the line. */
  predicate IsModeLine(prefix: string, line: string) {
    StartsWith(line, prefix) && |line| > |prefix| && AllDigits(line[|prefix|..])
  }

  /** A mode line is the keyword followed by one or more digits and nothing else. */
  lemma ModeLineExact(prefix: string, rest: string)
    ensures IsModeLine(prefix, prefix + rest) <==> rest != [] && AllDigits(rest)
  {
    assert (prefix + rest)[|prefix|..] == rest;
  }

  predicate IsNewFileMode(line: string) { IsModeLine(NewFileModePrefix, line) }
  predicate IsDeletedFileMode(line: string) { IsModeLine(DeletedFileModePrefix, line) }

  predicate IsNoNewlineMarker(line: string) { line == NoNewlineMarkerLine }

  // ---------------------------------------------------------------------------
  // The classifier the patch-set driver applies to each line

  datatype Category =
    | GitHeader(paths: GitPaths)
    | NewFileMode
    | DeletedFileMode
    | SourceHeader(source: FileHeader)
    | TargetHeader(target: FileHeader)
    | HunkStart(header: HunkHeader)
    | NoNewlineMarker
    | Blank
    | Other

  /** The patterns in the order the driver tries them; the first match decides. */
  function Classify(line: string): Category {
    if MatchGitHeader(line).Some? then GitHeader(MatchGitHeader(line).value)
    else if IsNewFileMode(line) then NewFileMode
    else if IsDeletedFileMode(line) then DeletedFileMode
    else if MatchSourceHeader(line).Some? then SourceHeader(MatchSourceHeader(line).value)
    else if MatchTargetHeader(line).Some? then TargetHeader(MatchTargetHeader(line).value)
    else if MatchHunkHeader(line).Some? then HunkStart(MatchHunkHeader(line).value)
    else if IsNoNewlineMarker(line) then NoNewlineMarker
    else if IsBlank(line) then Blank
    else Other
  }

  /** A line starting with `prefix` carries its characters first. */
  lemma PrefixChars(line: string, prefix: string)
    requires StartsWith(line, prefix)
    ensures |line| >= |prefix| && line[..|prefix|] == prefix
  {
  }

  lemma GitHeaderOpening(line: string)
    requires MatchGitHeader(line).Some?
    ensures StartsWith(line, GitHeaderPrefix)
  {
  }

  lemma FileHeaderOpening(prefix: string, line: string)
    requires MatchFileHeader(prefix, line).Some?
    ensures StartsWith(line, prefix)
  {
  }

  lemma HunkHeaderOpening(line: string)
    requires MatchHunkHeader(line).Some?
    ensures StartsWith(line, HunkHeaderPrefix)
  {
  }

  /** Two leading characters that each matcher demands. */
  lemma MatchersOpening(line: string)
    ensures MatchGitHeader(line).Some? ==> |line| > 1 && line[0] == 'd' && line[1] == 'i'
    ensures IsNewFileMode(line) ==> |line| > 0 && line[0] == 'n'
    ensures IsDeletedFileMode(line) ==> |line| > 1 && line[0] == 'd' && line[1] == 'e'
    ensures MatchSourceHeader(line).Some? ==> |line| > 0 && line[0] == '-'
    ensures MatchTargetHeader(line).Some? ==> |line| > 0 && line[0] == '+'
    ensures MatchHunkHeader(line).Some? ==> |line| > 0 && line[0] == '@'
    ensures IsNoNewlineMarker(line) ==> |line| > 0 && line[0] == '\\'
    ensures IsBlank(line) ==> |line| == 0 || line[0] == '\r' || line[0] == '\n'
  {
    if MatchGitHeader(line).Some? {
      GitHeaderOpening(line);
      PrefixChars(line, GitHeaderPrefix);
      assert line[0] == line[..|GitHeaderPrefix|][0] && line[1] == line[..|GitHeaderPrefix|][1];
    }
    if IsNewFileMode(line) {
      PrefixChars(line, NewFileModePrefix);
      assert line[0] == line[..|NewFileModePrefix|][0];
    }
    if IsDeletedFileMode(line) {
      PrefixChars(line, DeletedFileModePrefix);
      assert line[0] == line[..|DeletedFileModePrefix|][0] && line[1] == line[..|DeletedFileModePrefix|][1];
    }
    if MatchSourceHeader(line).Some? {
      FileHeaderOpening(SourceHeaderPrefix, line);
      PrefixChars(line, SourceHeaderPrefix);
      assert line[0] == line[..|SourceHeaderPrefix|][0];
    }
    if MatchTargetHeader(line).Some? {
      FileHeaderOpening(TargetHeaderPrefix, line);
      PrefixChars(line, TargetHeaderPrefix);
      assert line[0] == line[..|TargetHeaderPrefix|][0];
    }
    if MatchHunkHeader(line).Some? {
      HunkHeaderOpening(line);
      PrefixChars(line, HunkHeaderPrefix);
      assert line[0] == line[..|HunkHeaderPrefix|][0];
    }
  }

  /** Outside the git spellings no two patterns match the same line, so the priority order
      never hides a match: each category is reported exactly when its own pattern matches. */
  lemma ClassifyExact(line: string)
    ensures Classify(line).GitHeader? <==> MatchGitHeader(line).Some?
    ensures Classify(line) == NewFileMode <==> IsNewFileMode(line)
    ensures Classify(line) == DeletedFileMode <==> IsDeletedFileMode(line)
    ensures Classify(line).SourceHeader? <==> MatchSourceHeader(line).Some?
    ensures Classify(line).TargetHeader? <==> MatchTargetHeader(line).Some?
    ensures Classify(line).HunkStart? <==> MatchHunkHeader(line).Some?
    ensures Classify(line) == NoNewlineMarker <==> IsNoNewlineMarker(line)
    ensures Classify(line) == Blank <==> IsBlank(line)
  {
    MatchersOpening(line);
  }
}
