/** HTTP/1.x line syntax (RFC 9112 sections 2.1 and 5, RFC 9110 sections 5.5 and 5.6): characters,
    header fields, lines ended by CRLF, and the empty line that ends a header block. */
module HttpSyntax {
  import opened Text

  const CR: char := '\r'
  const LF: char := '\n'
  const CRLF: string := "\r\n"
  const BLANK: string := "\r\n\r\n"

  datatype Field = Field(name: string, value: string)

  // ---------- characters ----------

  predicate TokenByte(c: char) {
    IsDigit(c) || 'a' <= c <= 'z' || 'A' <= c <= 'Z' || c in "!#$%&'*+-.^_`|~"
  }

  predicate Token(s: string) {
    s != "" && forall i :: 0 <= i < |s| ==> TokenByte(s[i])
  }

  predicate ValueByte(c: char) {
    c == '\t' || (c >= ' ' && c as int != 0x7F)
  }

  predicate FieldValue(s: string) {
    forall i :: 0 <= i < |s| ==> ValueByte(s[i])
  }

  predicate Ows(c: char) {
    c == ' ' || c == '\t'
  }

  function TrimLeft(s: string): string {
    if s != [] && Ows(s[0]) then TrimLeft(s[1..]) else s
  }

  function TrimRight(s: string): string {
    if s != [] && Ows(s[|s| - 1]) then TrimRight(s[..|s| - 1]) else s
  }

  /** Trim optional white space: spaces and tabs only. */
  function TrimOws(s: string): string {
    TrimRight(TrimLeft(s))
  }

  /** `split_once(':')`, the value trimmed; `None` when there is no colon. */
  function FieldOf(line: string): Option<Field> {
    if line == [] then None
    else if line[0] == ':' then Some(Field("", TrimOws(line[1..])))
    else match FieldOf(line[1..])
         case None => None
         case Some(f) => Some(f.(name := [line[0]] + f.name))
  }

  /** Token bytes are the visible ASCII characters but the delimiters (RFC 9110 section 5.6.2);
      field values hold tabs, spaces, visible ASCII and bytes above it (section 5.5). */
  lemma BytesMeaning(c: char)
    ensures TokenByte(c) <==> 0x21 <= c as int <= 0x7E && c !in "\"(),/:;<=>?@[\\]{}"
    ensures ValueByte(c) <==> c as int == 0x09 || 0x20 <= c as int <= 0x7E || 0x80 <= c as int
  {
  }

  predicate Blank(s: string) {
    forall i :: 0 <= i < |s| ==> s[i] == ' ' || s[i] == '\t'
  }

  /** Just spaces and tabs are cut off, and neither end has one left. */
  lemma TrimOwsMeaning(s: string) returns (before: string, after: string)
    ensures s == before + TrimOws(s) + after && Blank(before) && Blank(after)
    ensures forall i :: (i == 0 || i == |TrimOws(s)| - 1) && TrimOws(s) != [] ==>
      TrimOws(s)[i] != ' ' && TrimOws(s)[i] != '\t'
  {
    before := CutLeft(s);
    after := CutRight(TrimLeft(s));
    assert TrimOws(s) != [] ==> TrimOws(s)[0] == TrimLeft(s)[0];
  }

  lemma {:induction false} CutLeft(s: string) returns (before: string)
    ensures s == before + TrimLeft(s) && Blank(before)
    ensures TrimLeft(s) != [] ==> !Ows(TrimLeft(s)[0])
  {
    before := [];
    if s != [] && Ows(s[0]) {
      var rest := CutLeft(s[1..]);
      before := [s[0]] + rest;
      assert s == [s[0]] + s[1..];
    }
  }

  lemma {:induction false} CutRight(s: string) returns (after: string)
    ensures s == TrimRight(s) + after && Blank(after)
    ensures TrimRight(s) != [] ==> !Ows(TrimRight(s)[|TrimRight(s)| - 1])
    decreases |s|
  {
    after := [];
    if s != [] && Ows(s[|s| - 1]) {
      var rest := CutRight(s[..|s| - 1]);
      after := rest + [s[|s| - 1]];
      assert s == s[..|s| - 1] + [s[|s| - 1]];
    }
  }

  lemma {:induction false} FieldOfLine(name: string, rest: string)
    requires Free(name, ':')
    ensures FieldOf(name + ":" + rest) == Some(Field(name, TrimOws(rest)))
  {
    var line := name + ":" + rest;
    if name == [] {
      assert line[1..] == rest;
    } else {
      assert line[1..] == name[1..] + ":" + rest;
      FieldOfLine(name[1..], rest);
      assert name == [name[0]] + name[1..];
    }
  }

  lemma {:induction false} NoColonNoField(line: string)
    ensures FieldOf(line) == None <==> Free(line, ':')
  {
    if line != [] {
      NoColonNoField(line[1..]);
      assert line == [line[0]] + line[1..];
    }
  }

  /** Every line with a colon is some name without a colon, the colon, and a rest. */
  lemma {:induction false} FieldParts(line: string) returns (rest: string)
    requires FieldOf(line).Some?
    ensures var f := FieldOf(line).value;
      Free(f.name, ':') && line == f.name + ":" + rest && f.value == TrimOws(rest)
  {
    if line[0] == ':' {
      rest := line[1..];
      assert line == [] + ":" + rest;
    } else {
      rest := FieldParts(line[1..]);
      assert line == [line[0]] + line[1..];
    }
  }

  // ---------- lines ----------

  predicate NoBreak(s: string) {
    Free(s, CR) && Free(s, LF)
  }

  function SplitLines(s: string): (lines: seq<string>)
    ensures |lines| >= 1
  {
    if s == [] then [[]]
    else if CRLF <= s then [[]] + SplitLines(s[2..])
    else
      var rest := SplitLines(s[1..]);
      [[s[0]] + rest[0]] + rest[1..]
  }

  /** Lines, each ended by CRLF. */
  function WireLines(lines: seq<string>): string {
    if lines == [] then "" else lines[0] + CRLF + WireLines(lines[1..])
  }

  lemma {:induction false} SplitLine(line: string, rest: string)
    requires NoBreak(line)
    ensures SplitLines(line + CRLF + rest) == [line] + SplitLines(rest)
    ensures SplitLines(line) == [line]
  {
    var s := line + CRLF + rest;
    if line == [] {
      assert s[2..] == rest && CRLF <= s;
    } else {
      SplitLine(line[1..], rest);
      assert s[1..] == line[1..] + CRLF + rest && s[0] == line[0];
      assert line == [line[0]] + line[1..];
    }
  }

  /** No line end stands anywhere in it. */
  ghost predicate OneLine(s: string) {
    forall k: nat :: k + 1 < |s| ==> !(s[k] == '\r' && s[k + 1] == '\n')
  }

  lemma ByteBeforeLine(c: char, line: string)
    requires OneLine(line) && !(c == '\r' && line != [] && line[0] == '\n')
    ensures OneLine([c] + line)
  {
    forall k: nat | k + 1 < |line| + 1 ensures !(([c] + line)[k] == '\r' && ([c] + line)[k + 1] == '\n') {
      assert k > 0 ==> ([c] + line)[k] == line[k - 1];
    }
  }

  lemma {:induction false} FirstLineLeads(s: string)
    ensures SplitLines(s)[0] <= s
  {
    if s != [] && !(CRLF <= s) {
      FirstLineLeads(s[1..]);
    }
  }

  /** For every text: its lines joined are the text, and no line has a line end in it. */
  lemma {:induction false} SplitLinesMeaning(s: string)
    ensures Join(SplitLines(s), "\r\n") == s
    ensures forall i :: 0 <= i < |SplitLines(s)| ==> OneLine(SplitLines(s)[i])
  {
    hide OneLine, Join;
    NothingIsOneLine();
    if s == [] {
      JoinOne([]);
    } else if CRLF <= s {
      SplitLinesMeaning(s[2..]);
      JoinCons([], SplitLines(s[2..]));
    } else {
      var rest := SplitLines(s[1..]);
      SplitLinesMeaning(s[1..]);
      FirstLineLeads(s[1..]);
      ByteBeforeLine(s[0], rest[0]);
      JoinByte(s[0], rest);
    }
  }

  lemma NothingIsOneLine()
    ensures OneLine([])
  {
  }

  lemma JoinOne(line: string)
    ensures Join([line], CRLF) == line
  {
  }

  lemma JoinCons(line: string, lines: seq<string>)
    requires lines != []
    ensures Join([line] + lines, CRLF) == line + CRLF + Join(lines, CRLF)
  {
    assert ([line] + lines)[1..] == lines;
  }

  lemma JoinByte(c: char, lines: seq<string>)
    requires lines != []
    ensures Join([[c] + lines[0]] + lines[1..], CRLF) == [c] + Join(lines, CRLF)
  {
    if |lines| > 1 {
      JoinCons([c] + lines[0], lines[1..]);
      JoinCons(lines[0], lines[1..]);
      assert lines == [lines[0]] + lines[1..];
    }
  }

  lemma {:induction false} SplitJoinedLines(lines: seq<string>)
    requires lines != [] && forall i :: 0 <= i < |lines| ==> NoBreak(lines[i])
    ensures SplitLines(Join(lines, CRLF)) == lines
  {
    if |lines| == 1 {
      SplitLine(lines[0], "");
    } else {
      SplitJoinedLines(lines[1..]);
      SplitLine(lines[0], Join(lines[1..], CRLF));
    }
  }

  lemma {:induction false} WireIsJoin(lines: seq<string>)
    requires lines != []
    ensures WireLines(lines) == Join(lines, CRLF) + CRLF
  {
    if |lines| == 1 {
      assert lines[1..] == [];
    } else {
      WireIsJoin(lines[1..]);
      assert WireLines(lines) == lines[0] + CRLF + (Join(lines[1..], CRLF) + CRLF);
    }
  }

  // ---------- the end of a header block ----------

  /** Length up to and including the first empty line. */
  function HeaderBlockComplete(buf: string): (end: Option<nat>)
    ensures end.Some? ==> 4 <= end.value <= |buf|
  {
    if |buf| < 4 then None
    else if BLANK <= buf then Some(4)
    else match HeaderBlockComplete(buf[1..])
         case None => None
         case Some(k) => Some(k + 1)
  }

  /** An empty line after a line end starts here. */
  predicate BlankAt(buf: string, i: nat) {
    i + 4 <= |buf| && buf[i] == '\r' && buf[i + 1] == '\n' && buf[i + 2] == '\r' && buf[i + 3] == '\n'
  }

  /** For every text: the block ends four bytes behind the first such place, or nowhere. */
  lemma {:induction false} FirstBlankLine(buf: string)
    ensures var end := HeaderBlockComplete(buf);
      && (end.None? ==> forall i: nat :: !BlankAt(buf, i))
      && (end.Some? ==> BlankAt(buf, end.value - 4) && forall i: nat :: i < end.value - 4 ==> !BlankAt(buf, i))
  {
    if |buf| >= 4 && !(BLANK <= buf) {
      FirstBlankLine(buf[1..]);
      assert !BlankAt(buf, 0);
      assert forall i: nat :: i > 0 ==> BlankAt(buf, i) == BlankAt(buf[1..], i - 1);
    }
  }

  function Shift(k: Option<nat>, n: nat): Option<nat> {
    match k case None => None case Some(i) => Some(i + n)
  }

  lemma SkipByte(s: string)
    requires s != [] && s[0] != CR
    ensures HeaderBlockComplete(s) == Shift(HeaderBlockComplete(s[1..]), 1)
  {
    assert !(BLANK <= s);
  }

  lemma {:induction false} SkipLine(line: string, rest: string)
    requires Free(line, CR)
    ensures HeaderBlockComplete(line + rest) == Shift(HeaderBlockComplete(rest), |line|)
  {
    if line == [] {
      assert line + rest == rest;
    } else {
      SkipLine(line[1..], rest);
      SkipByte(line + rest);
      assert (line + rest)[1..] == line[1..] + rest;
    }
  }

  /** A line end followed by more than a line end is not the end of the block. */
  lemma SkipLineEnd(rest: string)
    requires rest != [] && rest[0] != CR
    ensures HeaderBlockComplete(CRLF + rest) == Shift(HeaderBlockComplete(rest), 2)
  {
    var s := CRLF + rest;
    assert s[1..] == "\n" + rest && s[1..][1..] == rest;
    assert s[2] != BLANK[2];
    SkipByte(s[1..]);
  }

  /** The block ends exactly behind the empty line, whatever body follows. */
  lemma {:induction false} BlockEnds(lines: seq<string>, body: string)
    requires lines != []
    requires forall i :: 0 <= i < |lines| ==> NoBreak(lines[i]) && lines[i] != ""
    ensures HeaderBlockComplete(WireLines(lines) + CRLF + body) == Some(|WireLines(lines)| + 2)
  {
    var line, rest := lines[0], WireLines(lines[1..]) + CRLF + body;
    assert WireLines(lines) + CRLF + body == line + (CRLF + rest);
    SkipLine(line, CRLF + rest);
    if |lines| == 1 {
      assert lines[1..] == [];
      assert CRLF + rest == BLANK + body;
      assert BLANK <= CRLF + rest;
    } else {
      BlockEnds(lines[1..], body);
      assert rest[0] == lines[1][0];
      SkipLineEnd(rest);
    }
  }

  lemma {:induction false} WireLinesLength(lines: seq<string>)
    requires lines != []
    ensures |WireLines(lines)| >= 2
  {
  }

  /** Cutting a block out of a wire text and splitting it gives the lines back. */
  lemma BlockSplits(lines: seq<string>, body: string)
    requires lines != []
    requires forall i :: 0 <= i < |lines| ==> NoBreak(lines[i]) && lines[i] != ""
    ensures var wire := WireLines(lines) + CRLF + body;
      var k := HeaderBlockComplete(wire);
      && k == Some(|WireLines(lines)| + 2) && 4 <= k.value <= |wire|
      && SplitLines(wire[..k.value - 4]) == lines
      && wire[k.value..] == body
  {
    BlockEnds(lines, body);
    WireLinesLength(lines);
    WireIsJoin(lines);
    SplitJoinedLines(lines);
    var wire := WireLines(lines) + CRLF + body;
    assert wire == Join(lines, CRLF) + (CRLF + CRLF + body);
    assert wire[..|WireLines(lines)| - 2] == Join(lines, CRLF);
  }

  // ---------- field lines ----------

  function FieldLine(f: Field): string {
    f.name + ":" + (" " + f.value)
  }

  function TrimmedField(f: Field): Field {
    f.(value := TrimOws(f.value))
  }

  lemma FieldValueHasNoBreak(s: string)
    requires FieldValue(s)
    ensures NoBreak(s)
  {
  }

  lemma TokenIsPlain(s: string)
    requires Token(s)
    ensures NoBreak(s) && Free(s, ':')
  {
  }

  predicate Clean(line: string) {
    NoBreak(line) && line != ""
  }

  lemma FieldLineIsClean(f: Field)
    requires Token(f.name) && FieldValue(f.value)
    ensures Clean(FieldLine(f))
  {
    TokenIsPlain(f.name);
    FieldValueHasNoBreak(f.value);
  }

  lemma TrimAfterSpace(s: string)
    ensures TrimOws(" " + s) == TrimOws(s)
  {
    assert (" " + s)[1..] == s;
  }

  lemma FieldLineReads(f: Field)
    requires Token(f.name)
    ensures FieldOf(FieldLine(f)) == Some(TrimmedField(f))
  {
    TokenIsPlain(f.name);
    FieldOfLine(f.name, " " + f.value);
    TrimAfterSpace(f.value);
  }
}
