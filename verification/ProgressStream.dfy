/** FFmpeg's progress stream: lines arrive in arbitrary chunks, and a line longer than
    1024 bytes is dropped whole. */
module ProgressStream {
  import opened Text

  const MAX_LINE: nat := 1024

  /** The most advanced reports seen so far. */
  datatype Counts = Counts(completedSheets: int, outputTime: int)

  datatype State = State(pending: string, dropping: bool, counts: Counts)

  const START := State("", false, Counts(0, -1))

  // ---------- one line ----------

  /** ASCII white space, as `bytes.strip` and `int` know it. */
  predicate Space(c: char) {
    '\t' <= c <= '\r' || c == ' '
  }

  function StripLeft(s: string): string {
    if s != [] && Space(s[0]) then StripLeft(s[1..]) else s
  }

  function StripRight(s: string): string {
    if s != [] && Space(s[|s| - 1]) then StripRight(s[..|s| - 1]) else s
  }

  function Strip(s: string): string {
    StripRight(StripLeft(s))
  }

  /** Digits with single underscores between them. */
  predicate Numeral(s: string) {
    && s != []
    && IsDigit(s[0]) && IsDigit(s[|s| - 1])
    && (forall i :: 0 <= i < |s| ==> IsDigit(s[i]) || s[i] == '_')
    && (forall i :: 0 <= i < |s| - 1 ==> s[i] == '_' ==> s[i + 1] != '_')
  }

  function Digits(s: string): (d: string)
    requires forall i :: 0 <= i < |s| ==> IsDigit(s[i]) || s[i] == '_'
    ensures AllDigits(d)
  {
    if s == [] then []
    else (if s[0] == '_' then [] else [s[0]]) + Digits(s[1..])
  }

  /** Python's `int` of a byte string; `None` is its `ValueError`. */
  function ParseInt(s: string): Option<int> {
    var t := Strip(s);
    var signed := t != [] && (t[0] == '+' || t[0] == '-');
    var digits := if signed then t[1..] else t;
    if !Numeral(digits) then None
    else
      var magnitude: int := Value(Digits(digits));
      Some(if signed && t[0] == '-' then -magnitude else magnitude)
  }

  /** Position of the first `=`, or the length when there is none. */
  function Cut(s: string): (i: nat)
    ensures i <= |s|
    ensures i < |s| ==> s[i] == '='
    ensures forall j :: 0 <= j < i ==> s[j] != '='
  {
    if s == [] || s[0] == '=' then 0 else 1 + Cut(s[1..])
  }

  /** The number a line reports under a name, if it reports one. */
  function Report(line: string, name: string): Option<int> {
    var s := Strip(line);
    var i := Cut(s);
    if i < |s| && s[..i] == name then ParseInt(s[i + 1..]) else None
  }

  function Min(a: int, b: int): int {
    if a <= b then a else b
  }

  function OnLine(line: string, sheetCount: nat, counts: Counts): Counts {
    match (Report(line, "frame"), Report(line, "out_time_us"))
    case (Some(n), _) =>
      if Min(sheetCount, n) > counts.completedSheets then counts.(completedSheets := Min(sheetCount, n)) else counts
    case (None, Some(n)) => if n > counts.outputTime then counts.(outputTime := n) else counts
    case _ => counts
  }

  // ---------- the stream, byte by byte ----------

  function OnByte(st: State, c: char, sheetCount: nat): State {
    if c == '\n' then
      State("", false, if st.dropping then st.counts else OnLine(st.pending, sheetCount, st.counts))
    else if st.dropping then st
    else if |st.pending| + 1 <= MAX_LINE then st.(pending := st.pending + [c])
    else st.(pending := "", dropping := true)
  }

  function OnBytes(st: State, s: string, sheetCount: nat): State
    decreases |s|
  {
    if s == [] then st else OnBytes(OnByte(st, s[0], sheetCount), s[1..], sheetCount)
  }

  lemma {:induction false} OnBytesConcat(st: State, a: string, b: string, n: nat)
    ensures OnBytes(st, a + b, n) == OnBytes(OnBytes(st, a, n), b, n)
    decreases |a|
  {
    if a == [] {
      assert a + b == b;
    } else {
      OnBytesConcat(OnByte(st, a[0], n), a[1..], b, n);
      assert (a + b)[1..] == a[1..] + b;
    }
  }

  // ---------- the reader ----------

  /** A reachable state keeps its pending bytes within the cap, and none while dropping. */
  predicate Sound(st: State) {
    |st.pending| <= MAX_LINE && (st.dropping ==> st.pending == "")
  }

  /** Appending a newline-free segment at once is appending it byte by byte. */
  lemma {:induction false} SegmentAtOnce(st: State, segment: string, n: nat)
    requires Sound(st) && Free(segment, '\n')
    ensures OnBytes(st, segment, n) ==
      if st.dropping then st
      else if |st.pending| + |segment| <= MAX_LINE then st.(pending := st.pending + segment)
      else st.(pending := "", dropping := true)
    decreases |segment|
  {
    if segment == [] {
      assert st.pending + segment == st.pending;
    } else {
      assert Free(segment[1..], '\n');
      var next := OnByte(st, segment[0], n);
      SegmentAtOnce(next, segment[1..], n);
      if !st.dropping && |st.pending| + 1 <= MAX_LINE {
        assert next.pending + segment[1..] == st.pending + segment;
      }
    }
  }

  lemma {:induction false} OnBytesIsSound(st: State, s: string, n: nat)
    requires Sound(st)
    ensures Sound(OnBytes(st, s, n))
    decreases |s|
  {
    if s != [] {
      OnBytesIsSound(OnByte(st, s[0], n), s[1..], n);
    }
  }

  /** Segments each followed by a newline. */
  function Lines(segments: seq<string>): string {
    if segments == [] then "" else segments[0] + "\n" + Lines(segments[1..])
  }

  lemma {:induction false} LinesSnoc(segments: seq<string>, last: string)
    ensures Lines(segments + [last]) == Lines(segments) + last + "\n"
  {
    if segments == [] {
      assert [last][1..] == [];
    } else {
      LinesSnoc(segments[1..], last);
      assert (segments + [last])[1..] == segments[1..] + [last];
      assert Lines(segments + [last]) == segments[0] + "\n" + (Lines(segments[1..]) + last + "\n");
    }
  }

  /** A text is its complete lines and then its unfinished one. */
  lemma {:induction false} LinesOfSplit(s: string)
    ensures var parts := Split(s, '\n'); var n := |parts| - 1;
      s == Lines(parts[..n]) + parts[n]
  {
    if s != [] {
      LinesOfSplit(s[1..]);
      var rest, parts := Split(s[1..], '\n'), Split(s, '\n');
      var n, m := |parts| - 1, |rest| - 1;
      if s[0] == '\n' {
        assert parts[..n] == [""] + rest[..m];
        assert Lines(parts[..n]) == "" + "\n" + Lines(rest[..m]);
      } else if m > 0 {
        assert parts[..n][1..] == rest[..m][1..];
        assert Lines(parts[..n]) == [s[0]] + Lines(rest[..m]);
      }
    }
  }

  lemma OneByte(st: State, c: char, n: nat)
    ensures OnBytes(st, [c], n) == OnByte(st, c, n)
  {
    assert [c][1..] == [];
  }

  /** Reading up to a segment, the segment itself, and the newline behind it. */
  lemma NextSegment(st: State, segments: seq<string>, i: nat, n: nat)
    requires i < |segments|
    ensures var there := OnBytes(OnBytes(st, Lines(segments[..i]), n), segments[i], n);
      && there == OnBytes(st, Lines(segments[..i]) + segments[i], n)
      && OnByte(there, '\n', n) == OnBytes(st, Lines(segments[..i + 1]), n)
  {
    var done := Lines(segments[..i]);
    OnBytesConcat(st, done, segments[i], n);
    OnBytesConcat(st, done + segments[i], "\n", n);
    OneByte(OnBytes(st, done + segments[i], n), '\n', n);
    assert segments[..i + 1] == segments[..i] + [segments[i]];
    LinesSnoc(segments[..i], segments[i]);
  }

  class ProgressReader {
    const sheetCount: nat
    var pending: string
    var dropping: bool
    var completedSheets: int
    var outputTime: int

    ghost function View(): State
      reads this
    {
      State(pending, dropping, Counts(completedSheets, outputTime))
    }

    constructor (sheetCount: nat)
      ensures this.sheetCount == sheetCount && View() == START
    {
      this.sheetCount := sheetCount;
      pending, dropping, completedSheets, outputTime := "", false, 0, -1;
    }

    /** A complete line that was not dropped. */
    method Interpret()
      modifies this`completedSheets, this`outputTime
      ensures View() == old(View()).(counts := OnLine(pending, sheetCount, old(View()).counts))
    {
      var line := Strip(pending);
      var separator := Cut(line);
      if separator < |line| && line[..separator] == "frame" {
        var value := ParseInt(line[separator + 1..]);
        var sheets := if value.Some? then Min(sheetCount, value.value) else completedSheets;
        if sheets > completedSheets {
          completedSheets := sheets;
        }
      } else if separator < |line| && line[..separator] == "out_time_us" {
        var value := ParseInt(line[separator + 1..]);
        var microseconds := if value.Some? then value.value else outputTime;
        if microseconds > outputTime {
          outputTime := microseconds;
        }
      }
    }

    /** A stretch without a newline, kept whole or not at all. */
    method PushSegment(segment: string)
      requires Sound(View()) && Free(segment, '\n')
      modifies this`pending, this`dropping
      ensures Sound(View()) && View() == OnBytes(old(View()), segment, sheetCount)
    {
      SegmentAtOnce(View(), segment, sheetCount);
      if !dropping {
        if |pending| + |segment| <= MAX_LINE {
          pending := pending + segment;
        } else {
          pending := "";
          dropping := true;
        }
      }
    }

    /** One read. An empty read is the end of the stream and closes the last line. */
    method Feed(chunk: string)
      requires Sound(View())
      modifies this
      ensures Sound(View())
      ensures View() == OnBytes(old(View()), if chunk == "" then "\n" else chunk, sheetCount)
    {
      var text := if chunk == "" then "\n" else chunk;
      var segments := if chunk == "" then ["", ""] else Split(chunk, '\n');
      ghost var st, last := View(), |segments| - 1;
      EndOfStream();
      SplitPartsAreFree(text, '\n');
      LinesOfSplit(text);
      assert segments == Split(text, '\n');
      assert segments[..0] == [] && OnBytes(st, Lines([]), sheetCount) == st;
      hide Split, Lines, OnBytes, OnLine;
      for index := 0 to |segments|
        invariant Sound(View())
        invariant index <= last ==> View() == OnBytes(st, Lines(segments[..index]), sheetCount)
        invariant index > last ==> View() == OnBytes(st, text, sheetCount)
      {
        var segment := segments[index];
        NextSegment(st, segments, index, sheetCount);
        PushSegment(segment);
        if index == |segments| - 1 {
          continue;
        }
        if !dropping {
          Interpret();
        }
        pending := "";
        dropping := false;
      }
    }
  }

  lemma EndOfStream()
    ensures Split("\n", '\n') == ["", ""]
  {
    assert "\n"[1..] == "";
  }

  // ---------- main results ----------

  function Concat(chunks: seq<string>): string {
    if chunks == [] then "" else chunks[0] + Concat(chunks[1..])
  }

  /** Feed every chunk of a cut stream. */
  method FeedAll(reader: ProgressReader, chunks: seq<string>)
    requires Sound(reader.View()) && forall i :: 0 <= i < |chunks| ==> chunks[i] != ""
    modifies reader
    ensures Sound(reader.View())
    ensures reader.View() == OnBytes(old(reader.View()), Concat(chunks), reader.sheetCount)
  {
    ghost var st := reader.View();
    assert chunks[..0] == [];
    for i := 0 to |chunks|
      invariant Sound(reader.View())
      invariant reader.View() == OnBytes(st, Concat(chunks[..i]), reader.sheetCount)
    {
      ConcatSnoc(chunks[..i], chunks[i]);
      assert chunks[..i + 1] == chunks[..i] + [chunks[i]];
      OnBytesConcat(st, Concat(chunks[..i]), chunks[i], reader.sheetCount);
      reader.Feed(chunks[i]);
    }
    assert chunks[..|chunks|] == chunks;
  }

  lemma {:induction false} ConcatSnoc(chunks: seq<string>, last: string)
    ensures Concat(chunks + [last]) == Concat(chunks) + last
  {
    if chunks == [] {
      assert [last][1..] == [];
    } else {
      ConcatSnoc(chunks[1..], last);
      assert (chunks + [last])[1..] == chunks[1..] + [last];
      assert Concat(chunks + [last]) == chunks[0] + (Concat(chunks[1..]) + last);
    }
  }

  /** The complete lines, each counted when it is at most 1024 bytes long. */
  function OnLines(lines: seq<string>, n: nat, counts: Counts): Counts
    decreases |lines|
  {
    if lines == [] then counts
    else OnLines(lines[1..], n, if |lines[0]| <= 1024 then OnLine(lines[0], n, counts) else counts)
  }

  lemma {:induction false} CompleteLines(counts: Counts, lines: seq<string>, n: nat)
    requires forall i :: 0 <= i < |lines| ==> Free(lines[i], '\n')
    ensures OnBytes(State("", false, counts), Lines(lines), n) == State("", false, OnLines(lines, n, counts))
    decreases |lines|
  {
    if lines != [] {
      var st := State("", false, counts);
      SegmentAtOnce(st, lines[0], n);
      OnBytesConcat(st, lines[0] + "\n", Lines(lines[1..]), n);
      OnBytesConcat(st, lines[0], "\n", n);
      OneByte(OnBytes(st, lines[0], n), '\n', n);
      assert "" + lines[0] == lines[0];
      CompleteLines(if |lines[0]| <= MAX_LINE then OnLine(lines[0], n, counts) else counts, lines[1..], n);
    }
  }

  /** What a stream means, however it was cut: its complete lines are counted in order, lines
      over the cap are ignored whole, and only the unfinished last line is kept. */
  lemma StreamMeaning(stream: string, n: nat)
    ensures var parts := Split(stream, '\n');
      var lines, last := parts[..|parts| - 1], parts[|parts| - 1];
      OnBytes(START, stream, n) ==
      State(if |last| <= 1024 then last else "", |last| > 1024, OnLines(lines, n, Counts(0, -1)))
  {
    var parts := Split(stream, '\n');
    var lines, last := parts[..|parts| - 1], parts[|parts| - 1];
    SplitPartsAreFree(stream, '\n');
    LinesOfSplit(stream);
    CompleteLines(START.counts, lines, n);
    OnBytesConcat(START, Lines(lines), last, n);
    SegmentAtOnce(State("", false, OnLines(lines, n, START.counts)), last, n);
    assert "" + last == last;
  }

  /** The state after reading depends on the bytes read, never on how they were cut. */
  method ReadStream(chunks: seq<string>, sheetCount: nat) returns (reader: ProgressReader)
    requires forall i :: 0 <= i < |chunks| ==> chunks[i] != ""
    ensures fresh(reader) && reader.sheetCount == sheetCount
    ensures var parts := Split(Concat(chunks), '\n');
      var lines, last := parts[..|parts| - 1], parts[|parts| - 1];
      reader.View() == State(if |last| <= 1024 then last else "", |last| > 1024,
                             OnLines(lines, sheetCount, Counts(0, -1)))
  {
    reader := new ProgressReader(sheetCount);
    FeedAll(reader, chunks);
    StreamMeaning(Concat(chunks), sheetCount);
  }

  /** The counts only grow, and the sheet count never passes the number of sheets. */
  lemma {:induction false} CountsAdvance(st: State, s: string, n: nat)
    requires 0 <= st.counts.completedSheets <= n
    ensures var after := OnBytes(st, s, n).counts;
      && st.counts.completedSheets <= after.completedSheets <= n
      && st.counts.outputTime <= after.outputTime
    decreases |s|
  {
    if s != [] {
      CountsAdvance(OnByte(st, s[0], n), s[1..], n);
    }
  }

  predicate Counted(line: string, name: string) {
    |line| <= 1024 && Report(line, name).Some?
  }

  predicate CountedTime(line: string) {
    Counted(line, "out_time_us") && Report(line, "frame").None?
  }

  /** The sheet count is the greatest one reported, clipped, in whatever order the reports came. */
  lemma {:induction false} GreatestReport(lines: seq<string>, n: nat, counts: Counts)
    requires 0 <= counts.completedSheets <= n
    ensures var r := OnLines(lines, n, counts).completedSheets;
      && (forall i :: 0 <= i < |lines| && Counted(lines[i], "frame") ==> Min(n, Report(lines[i], "frame").value) <= r)
      && (r == counts.completedSheets ||
          exists i :: 0 <= i < |lines| && Counted(lines[i], "frame") && r == Min(n, Report(lines[i], "frame").value))
      && counts.completedSheets <= r <= n
    decreases |lines|
  {
    hide Report;
    if lines != [] {
      var next := if |lines[0]| <= MAX_LINE then OnLine(lines[0], n, counts) else counts;
      GreatestReport(lines[1..], n, next);
      var r := OnLines(lines, n, counts).completedSheets;
      forall i | 0 <= i < |lines| && Counted(lines[i], "frame")
        ensures Min(n, Report(lines[i], "frame").value) <= r
      {
        if i > 0 { assert lines[i] == lines[1..][i - 1]; }
      }
      if r != next.completedSheets {
        var rest := lines[1..];
        var i :| 0 <= i < |rest| && Counted(rest[i], "frame") && r == Min(n, Report(rest[i], "frame").value);
        assert lines[i + 1] == rest[i];
      } else if r != counts.completedSheets {
        assert Counted(lines[0], "frame");
      }
    }
  }

  /** So is the output time, among the lines that are not sheet reports. */
  lemma {:induction false} GreatestTime(lines: seq<string>, n: nat, counts: Counts)
    ensures var r := OnLines(lines, n, counts).outputTime;
      && (forall i :: 0 <= i < |lines| && CountedTime(lines[i]) ==> Report(lines[i], "out_time_us").value <= r)
      && (r == counts.outputTime ||
          exists i :: 0 <= i < |lines| && CountedTime(lines[i]) && r == Report(lines[i], "out_time_us").value)
      && counts.outputTime <= r
    decreases |lines|
  {
    hide Report;
    if lines != [] {
      var next := if |lines[0]| <= MAX_LINE then OnLine(lines[0], n, counts) else counts;
      GreatestTime(lines[1..], n, next);
      var r := OnLines(lines, n, counts).outputTime;
      forall i | 0 <= i < |lines| && CountedTime(lines[i]) ensures Report(lines[i], "out_time_us").value <= r {
        if i > 0 { assert lines[i] == lines[1..][i - 1]; }
      }
      if r != next.outputTime {
        var rest := lines[1..];
        var i :| 0 <= i < |rest| && CountedTime(rest[i]) && r == Report(rest[i], "out_time_us").value;
        assert lines[i + 1] == rest[i];
      } else if r != counts.outputTime {
        assert CountedTime(lines[0]);
      }
    }
  }

  /** Whole numbers printed by FFmpeg are read back. */
  lemma ReportReadsDecimal(n: nat)
    ensures Report("frame=" + Decimal(n), "frame") == Some(n)
    ensures Report("out_time_us=" + Decimal(n), "out_time_us") == Some(n)
  {
    hide Report, Decimal;
    ReportOf("frame", n);
    ReportOf("out_time_us", n);
    assert "frame=" == "frame" + "=" && "out_time_us=" == "out_time_us" + "=";
  }

  lemma CutIs(s: string, i: nat)
    requires i < |s| && s[i] == '=' && forall j :: 0 <= j < i ==> s[j] != '='
    ensures Cut(s) == i
  {
    assert Cut(s) <= i;
  }

  lemma StripPlain(s: string)
    requires s != [] && !Space(s[0]) && !Space(s[|s| - 1])
    ensures Strip(s) == s
  {
  }

  lemma ParsePlain(n: nat)
    ensures ParseInt(Decimal(n)) == Some(n)
  {
    hide Decimal, Strip, Value, Digits;
    var digits := Decimal(n);
    assert IsDigit(digits[0]) && IsDigit(digits[|digits| - 1]);
    StripPlain(digits);
    DigitsOfDigits(digits);
    ValueOfDecimal(n);
  }

  lemma ReportOf(name: string, n: nat)
    requires name != "" && !Space(name[0]) && Free(name, '=')
    ensures Report(name + "=" + Decimal(n), name) == Some(n)
  {
    hide Decimal, Strip, ParseInt, Cut;
    var digits := Decimal(n);
    var line := name + "=" + digits;
    assert IsDigit(digits[|digits| - 1]) && line[|line| - 1] == digits[|digits| - 1];
    StripPlain(line);
    CutIs(line, |name|);
    assert line[..|name|] == name && line[|name| + 1..] == digits;
    ParsePlain(n);
  }

  lemma {:induction false} DigitsOfDigits(s: string)
    requires AllDigits(s)
    ensures Digits(s) == s
  {
    if s != [] {
      DigitsOfDigits(s[1..]);
      assert s == [s[0]] + s[1..];
    }
  }

  // ---------- what a line reports ----------

  predicate Blank(s: string) {
    forall i :: 0 <= i < |s| ==> s[i] as int == 0x20 || 0x09 <= s[i] as int <= 0x0D
  }

  /** Neither end is a blank. */
  predicate Bare(s: string) {
    s != "" ==> !Blank(s[..1]) && !Blank(s[|s| - 1..])
  }

  lemma {:induction false} StripLeftDrops(before: string, s: string)
    requires Blank(before) && (s == "" || !Space(s[0]))
    ensures StripLeft(before + s) == s
  {
    if before == "" {
      assert before + s == s;
    } else {
      StripLeftDrops(before[1..], s);
      assert (before + s)[0] == before[0] && (before + s)[1..] == before[1..] + s;
    }
  }

  lemma {:induction false} StripRightDrops(s: string, after: string)
    requires Blank(after) && (s == "" || !Space(s[|s| - 1]))
    ensures StripRight(s + after) == s
    decreases |after|
  {
    if after == "" {
      assert s + after == s;
    } else {
      var n := |after| - 1;
      StripRightDrops(s, after[..n]);
      assert (s + after)[|s| + n] == after[n] && (s + after)[..|s| + n] == s + after[..n];
    }
  }

  /** White space is taken off both ends, and nothing else. */
  lemma StripMeaning(before: string, s: string, after: string)
    requires Blank(before) && Blank(after) && Bare(s) && (s == "" ==> after == "")
    ensures Strip(before + s + after) == s
  {
    if s != "" {
      assert s[..1][0] == s[0] && s[|s| - 1..][0] == s[|s| - 1];
    }
    assert before + s + after == before + (s + after);
    StripLeftDrops(before, s + after);
    StripRightDrops(s, after);
  }

  predicate DigitsOrUnderscores(s: string) {
    s != "" && forall i :: 0 <= i < |s| ==> '0' <= s[i] <= '9' || s[i] == '_'
  }

  /** No underscore at either end, and no two in a row. */
  predicate WellSeparated(s: string) {
    s != "" && s[0] != '_' && s[|s| - 1] != '_' && forall i :: 0 < i < |s| ==> !(s[i - 1] == '_' && s[i] == '_')
  }

  lemma NumeralMeaning(s: string)
    requires DigitsOrUnderscores(s)
    ensures Numeral(s) <==> WellSeparated(s)
  {
    if WellSeparated(s) {
      forall i | 0 <= i < |s| - 1 && s[i] == '_' ensures s[i + 1] != '_' {
        assert !(s[i + 1 - 1] == '_' && s[i + 1] == '_');
      }
    }
  }

  /** A number is an optional sign and digits that single underscores may separate. */
  lemma ParseIntMeaning(before: string, sign: string, digits: string, after: string)
    requires Blank(before) && Blank(after) && (sign == "" || sign == "+" || sign == "-")
    requires DigitsOrUnderscores(digits)
    ensures ParseInt(before + (sign + digits) + after) ==
      if !WellSeparated(digits) then None
      else var n: int := Value(Digits(digits)); Some(if sign == "-" then -n else n)
  {
    hide Strip, Value, Digits, Numeral, WellSeparated, Blank, ParseInt;
    SignedIsBare(sign, digits);
    StripMeaning(before, sign + digits, after);
    NumeralMeaning(digits);
    ParseStripped(before + (sign + digits) + after, sign, digits);
  }

  lemma SignedIsBare(sign: string, digits: string)
    requires (sign == "" || sign == "+" || sign == "-") && DigitsOrUnderscores(digits)
    ensures Bare(sign + digits)
  {
    var t := sign + digits;
    assert t[0] == (if sign == "" then digits[0] else sign[0]) && t[|t| - 1] == digits[|digits| - 1];
    assert t[..1][0] == t[0] && t[|t| - 1..][0] == t[|t| - 1];
  }

  lemma ParseStripped(s: string, sign: string, digits: string)
    requires (sign == "" || sign == "+" || sign == "-") && DigitsOrUnderscores(digits)
    requires Strip(s) == sign + digits
    ensures ParseInt(s) ==
      if !Numeral(digits) then None
      else var n: int := Value(Digits(digits)); Some(if sign == "-" then -n else n)
  {
    hide Strip, Value, Digits, Numeral;
    var t := sign + digits;
    if sign == "" {
      assert t == digits;
    } else {
      assert t[0] == sign[0] && t[1..] == digits;
    }
  }

  predicate OnlyDigitsAndUnderscores(s: string) {
    forall i :: 0 <= i < |s| ==> IsDigit(s[i]) || s[i] == '_'
  }

  /** The digits of a number are what stands in it besides its underscores. */
  lemma DigitsMeaning(a: string, c: char, b: string)
    requires OnlyDigitsAndUnderscores(a) && OnlyDigitsAndUnderscores(b) && (IsDigit(c) || c == '_')
    ensures Digits("") == ""
    ensures Digits(a + [c] + b) == Digits(a) + (if c == '_' then "" else [c]) + Digits(b)
  {
    OneDigit(c);
    hide Digits;
    DigitsConcat(a + [c], b);
    DigitsConcat(a, [c]);
  }

  lemma OneDigit(c: char)
    requires IsDigit(c) || c == '_'
    ensures Digits("") == "" && Digits([c]) == if c == '_' then "" else [c]
  {
    assert [c][1..] == "";
  }

  lemma {:induction false} DigitsConcat(a: string, b: string)
    requires OnlyDigitsAndUnderscores(a) && OnlyDigitsAndUnderscores(b)
    ensures Digits(a + b) == Digits(a) + Digits(b)
  {
    if a == "" {
      assert a + b == b;
    } else {
      DigitsConcat(a[1..], b);
      assert (a + b)[0] == a[0] && (a + b)[1..] == a[1..] + b;
      Regroup(if a[0] == '_' then [] else [a[0]], Digits(a[1..]), Digits(b));
    }
  }

  /** A line reports a number under a name when the name, an equals sign and the number are all
      there is in it besides white space at its ends. */
  lemma ReportMeaning(line: string, name: string, n: int)
    requires '=' !in name
    ensures Report(line, name) == Some(n) <==>
      exists text :: Strip(line) == name + "=" + text && ParseInt(text) == Some(n)
  {
    hide Strip, ParseInt;
    var s := Strip(line);
    if Report(line, name) == Some(n) {
      assert s == s[..Cut(s)] + "=" + s[Cut(s) + 1..];
    }
    if text :| s == name + "=" + text && ParseInt(text) == Some(n) {
      CutIs(s, |name|);
      assert s[..|name|] == name && s[|name| + 1..] == text;
    }
  }
}
