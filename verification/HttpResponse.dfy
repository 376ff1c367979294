/** Building and serializing HTTP responses. */
module HttpResponse {
  import opened Text
  import opened HttpSyntax

  datatype WireError =
    | InvalidStatus | InvalidReason | InvalidServer | InvalidDate
    | InvalidHeaderName(index: nat) | InvalidHeaderValue(index: nat) | InvalidContentLength(index: nat)
    | DuplicateContentLength | TransferEncodingWithContentLength | UnsupportedTransferEncoding
    | ContentLengthMismatch(declared: nat, actual: nat) | PersistentBodyWithoutContentLength

  /** A response as a value. */
  datatype Message = Message(status: nat, reason: string, headers: seq<Field>, body: string, persist: bool)

  // ---------- setting a field ----------

  /** The fields of other names, in order. */
  function Others(headers: seq<Field>, name: string): seq<Field> {
    if headers == [] then []
    else (if SameName(headers[0].name, name) then [] else [headers[0]]) + Others(headers[1..], name)
  }

  /** Replace the first field of a name in place and drop the rest, or append. */
  function SetField(headers: seq<Field>, f: Field): seq<Field> {
    if headers == [] then [f]
    else if SameName(headers[0].name, f.name) then [f] + Others(headers[1..], f.name)
    else [headers[0]] + SetField(headers[1..], f)
  }

  predicate Absent(headers: seq<Field>, name: string) {
    forall i :: 0 <= i < |headers| ==> !SameName(headers[i].name, name)
  }

  lemma {:induction false} OthersAreAbsent(headers: seq<Field>, name: string)
    ensures Absent(Others(headers, name), name)
    ensures Absent(headers, name) ==> Others(headers, name) == headers
  {
    if headers != [] {
      OthersAreAbsent(headers[1..], name);
    }
  }

  /** The name stands at one place only, with this value. */
  predicate SingleAt(headers: seq<Field>, f: Field, i: nat) {
    i < |headers| && headers[i] == f && forall j :: 0 <= j < |headers| && j != i ==> !SameName(headers[j].name, f.name)
  }

  /** What is left of a list of fields are those of other names, in order. */
  lemma OthersMeaning(a: seq<Field>, f: Field, b: seq<Field>, name: string)
    ensures Others([], name) == []
    ensures Others(a + [f] + b, name) ==
      Others(a, name) + (if Lower(f.name) == Lower(name) then [] else [f]) + Others(b, name)
  {
    hide Lower, Others;
    OthersConcat(a + [f], b, name);
    OthersConcat(a, [f], name);
    OthersOne(f, name);
  }

  lemma OthersOne(f: Field, name: string)
    ensures Others([], name) == []
    ensures Others([f], name) == if Lower(f.name) == Lower(name) then [] else [f]
  {
  }

  lemma {:induction false} OthersConcat(a: seq<Field>, b: seq<Field>, name: string)
    ensures Others(a + b, name) == Others(a, name) + Others(b, name)
  {
    hide SameName;
    if a == [] {
      assert a + b == b;
    } else {
      OthersConcat(a[1..], b, name);
      assert (a + b)[0] == a[0] && (a + b)[1..] == a[1..] + b;
      var head := if SameName(a[0].name, name) then [] else [a[0]];
      assert Others(a, name) == head + Others(a[1..], name);
      hide Others;
      Regroup(head, Others(a[1..], name), Others(b, name));
    }
  }

  lemma SingleBehind(head: Field, rest: seq<Field>, f: Field, i: nat)
    requires SingleAt(rest, f, i) && !SameName(head.name, f.name)
    ensures SingleAt([head] + rest, f, i + 1)
  {
  }

  /** After setting, the name stands exactly once, with the new value, and every other field
      keeps its place among the others. */
  lemma {:induction false} SetMakesSingle(headers: seq<Field>, f: Field)
    ensures var after := SetField(headers, f);
      Others(after, f.name) == Others(headers, f.name) && exists i :: SingleAt(after, f, i)
  {
    var after := SetField(headers, f);
    if headers == [] {
      assert after[1..] == [] && SingleAt(after, f, 0);
    } else if SameName(headers[0].name, f.name) {
      OthersAreAbsent(headers[1..], f.name);
      OthersAreAbsent(Others(headers[1..], f.name), f.name);
      assert after[1..] == Others(headers[1..], f.name) && SingleAt(after, f, 0);
    } else {
      hide SameName, SingleAt;
      SetMakesSingle(headers[1..], f);
      var rest := SetField(headers[1..], f);
      assert after[1..] == rest;
      var i :| SingleAt(rest, f, i);
      SingleBehind(headers[0], rest, f, i);
    }
  }

  lemma {:induction false} SetFieldAt(headers: seq<Field>, f: Field, first: nat)
    requires first < |headers| && SameName(headers[first].name, f.name)
    requires forall i :: 0 <= i < first ==> !SameName(headers[i].name, f.name)
    ensures SetField(headers, f) == headers[..first] + [f] + Others(headers[first + 1..], f.name)
  {
    if first > 0 {
      SetFieldAt(headers[1..], f, first - 1);
      assert headers[..first] == [headers[0]] + headers[1..][..first - 1];
      assert headers[1..][first..] == headers[first + 1..];
    }
  }

  lemma {:induction false} SetFieldAppends(headers: seq<Field>, f: Field)
    requires Absent(headers, f.name)
    ensures SetField(headers, f) == headers + [f]
  {
    if headers != [] {
      SetFieldAppends(headers[1..], f);
    }
  }

  // ---------- what may be sent ----------

  predicate Reserved(name: string) {
    SameName(name, "Server") || SameName(name, "Date") || SameName(name, "Connection") || SameName(name, "EXT")
  }

  predicate IsLength(f: Field) {
    SameName(f.name, "Content-Length")
  }

  predicate IsTransferEncoding(f: Field) {
    SameName(f.name, "Transfer-Encoding")
  }

  predicate LengthFits(value: string) {
    TrimOws(value) != "" && AllDigits(TrimOws(value)) && Value(TrimOws(value)) <= U64_MAX
  }

  predicate FieldFits(f: Field) {
    Token(f.name) && FieldValue(f.value) && (IsLength(f) ==> LengthFits(f.value))
  }

  predicate Nonblank(s: string) {
    TrimOws(s) != "" && FieldValue(s)
  }

  function DeclaredLength(f: Field): nat
    requires LengthFits(f.value)
  {
    Value(TrimOws(f.value))
  }

  /** Every condition a response has to meet to go on the wire. */
  ghost predicate Sendable(m: Message, server: string, date: string) {
    && 100 <= m.status <= 599 && FieldValue(m.reason) && Nonblank(server) && Nonblank(date)
    && (forall i :: 0 <= i < |m.headers| ==> FieldFits(m.headers[i]) && !IsTransferEncoding(m.headers[i]))
    && (forall i, j :: 0 <= i < j < |m.headers| ==> !(IsLength(m.headers[i]) && IsLength(m.headers[j])))
    && (m.body != "" ==>
          if exists i :: 0 <= i < |m.headers| && IsLength(m.headers[i])
          then forall i :: 0 <= i < |m.headers| && IsLength(m.headers[i]) ==> DeclaredLength(m.headers[i]) == |m.body|
          else !m.persist)
  }

  predicate Named(f: Field, lower: string) {
    Lower(f.name) == lower
  }

  /** A number in decimal, spaces and tabs around it aside, that fits 64 bits. */
  predicate NumberWithin(value: string) {
    var v := TrimOws(value);
    |v| >= 1 && (forall i :: 0 <= i < |v| ==> '0' <= v[i] <= '9') && Value(v) <= 18_446_744_073_709_551_615
  }

  /** The response's own text has to be in order, and so has every field. */
  predicate InOrder(m: Message, server: string, date: string) {
    && 100 <= m.status <= 599 && FieldValue(m.reason) && FieldValue(server) && FieldValue(date)
    && TrimOws(server) != "" && TrimOws(date) != ""
    && forall f :: f in m.headers ==>
         && Token(f.name) && FieldValue(f.value) && !Named(f, "transfer-encoding")
         && (Named(f, "content-length") ==> NumberWithin(f.value))
  }

  /** What may be sent: everything in order, at most one length, and with a body its length or,
      on a connection that is closed behind it, none. */
  lemma SendableMeaning(m: Message, server: string, date: string)
    ensures Sendable(m, server, date) <==>
      && InOrder(m, server, date)
      && (forall i, j :: 0 <= i < j < |m.headers| ==>
            !(Named(m.headers[i], "content-length") && Named(m.headers[j], "content-length")))
      && (forall f :: f in m.headers && Named(f, "content-length") && m.body != "" ==>
            Value(TrimOws(f.value)) == |m.body|)
      && (m.body != "" && m.persist ==> exists f :: f in m.headers && Named(f, "content-length"))
  {
    assert Lower("Content-Length") == "content-length" && Lower("Transfer-Encoding") == "transfer-encoding";
    hide Token, FieldValue, TrimOws, Value, Lower;
    forall f: Field ensures IsLength(f) <==> Named(f, "content-length")
      ensures IsTransferEncoding(f) <==> Named(f, "transfer-encoding")
      ensures LengthFits(f.value) <==> NumberWithin(f.value)
    {
    }
    hide IsLength, IsTransferEncoding, LengthFits, Named, NumberWithin;
  }

  // ---------- the wire text ----------

  function StatusLine(m: Message): string {
    "HTTP/1.1 " + Decimal(m.status) + " " + m.reason
  }

  function Connection(m: Message): string {
    if m.persist then "keep-alive" else "close"
  }

  function FixedLines(m: Message, server: string, date: string): seq<string> {
    [StatusLine(m), "Connection" + ":" + (" " + Connection(m)), "Date" + ":" + (" " + date),
     "Server" + ":" + (" " + server), "EXT" + ":" + ""]
  }

  /** The fields a caller may set: all but the four the serializer writes itself. */
  function Sent(headers: seq<Field>): seq<Field> {
    if headers == [] then []
    else (if Reserved(headers[0].name) then [] else [headers[0]]) + Sent(headers[1..])
  }

  function HeaderLines(m: Message, server: string, date: string): seq<string> {
    FixedLines(m, server, date) + Map(FieldLine, Sent(m.headers))
  }

  function Wire(m: Message, server: string, date: string): string {
    WireLines(HeaderLines(m, server, date)) + CRLF + m.body
  }

  // ---------- reading it back ----------

  lemma {:induction false} SentIsSome(headers: seq<Field>, i: nat)
    requires i < |Sent(headers)|
    ensures exists k :: 0 <= k < |headers| && Sent(headers)[i] == headers[k] && !Reserved(headers[k].name)
  {
    var head := if Reserved(headers[0].name) then [] else [headers[0]];
    if i >= |head| {
      SentIsSome(headers[1..], i - |head|);
      var rest := headers[1..];
      var k :| 0 <= k < |rest| && Sent(rest)[i - |head|] == rest[k] && !Reserved(rest[k].name);
      assert headers[k + 1] == rest[k];
    }
  }

  /** A field is sent, in its place among the others, unless it has one of four names. */
  lemma SentMeaning(a: seq<Field>, f: Field, b: seq<Field>)
    ensures Sent([]) == []
    ensures Sent(a + [f] + b) ==
      Sent(a) + (if FourNames(f.name) then [] else [f]) + Sent(b)
  {
    hide Lower, Sent;
    SentConcat(a + [f], b);
    SentConcat(a, [f]);
    SentOne(f);
  }

  /** The fields that are the serializer's own, in any letter case. */
  predicate FourNames(name: string) {
    Lower(name) in {"server", "date", "connection", "ext"}
  }

  lemma SentOne(f: Field)
    ensures Sent([]) == []
    ensures Sent([f]) == if FourNames(f.name) then [] else [f]
  {
    assert Lower("Server") == "server" && Lower("Date") == "date";
    assert Lower("Connection") == "connection" && Lower("EXT") == "ext";
  }

  lemma {:induction false} SentConcat(a: seq<Field>, b: seq<Field>)
    ensures Sent(a + b) == Sent(a) + Sent(b)
  {
    hide Reserved;
    if a == [] {
      assert a + b == b;
    } else {
      SentConcat(a[1..], b);
      assert (a + b)[0] == a[0] && (a + b)[1..] == a[1..] + b;
      var head := if Reserved(a[0].name) then [] else [a[0]];
      assert Sent(a) == head + Sent(a[1..]);
      hide Sent;
      Regroup(head, Sent(a[1..]), Sent(b));
    }
  }

  lemma LineIsClean(name: string, value: string)
    requires NoBreak(name) && NoBreak(value)
    ensures Clean(name + ":" + (" " + value)) && Clean(name + ":" + "")
  {
  }

  lemma StatusLineIsClean(m: Message)
    requires NoBreak(m.reason)
    ensures Clean(StatusLine(m))
  {
    DigitsAreFree(Decimal(m.status), CR);
    DigitsAreFree(Decimal(m.status), LF);
    hide Decimal;
    assert NoBreak("HTTP/1.1 ") && NoBreak(" ");
  }

  lemma FixedLinesAreClean(m: Message, server: string, date: string)
    requires NoBreak(m.reason) && NoBreak(server) && NoBreak(date)
    ensures forall i :: 0 <= i < 5 ==> Clean(FixedLines(m, server, date)[i])
  {
    assert NoBreak("keep-alive") && NoBreak("close");
    assert NoBreak("Connection") && NoBreak("Date") && NoBreak("Server") && NoBreak("EXT");
    hide NoBreak, Clean, StatusLine;
    StatusLineIsClean(m);
    LineIsClean("Connection", Connection(m));
    LineIsClean("Date", date);
    LineIsClean("Server", server);
    LineIsClean("EXT", server);
  }

  lemma SentLinesAreClean(m: Message, server: string, date: string, i: nat)
    requires Sendable(m, server, date) && i < |Sent(m.headers)|
    ensures Clean(FieldLine(Sent(m.headers)[i]))
  {
    SentIsSome(m.headers, i);
    FieldLineIsClean(Sent(m.headers)[i]);
  }

  /** Every header line is non-empty and free of line breaks, so the block cannot end early. */
  lemma HeaderLinesAreClean(m: Message, server: string, date: string)
    requires Sendable(m, server, date)
    ensures forall i :: 0 <= i < |HeaderLines(m, server, date)| ==> Clean(HeaderLines(m, server, date)[i])
  {
    hide FieldValue, Reserved, LengthFits, Clean, FixedLines, FieldLine, NoBreak;
    FieldValueHasNoBreak(m.reason);
    FieldValueHasNoBreak(server);
    FieldValueHasNoBreak(date);
    FixedLinesAreClean(m, server, date);
    FixedLinesCount(m, server, date);
    var fixed, lines := FixedLines(m, server, date), HeaderLines(m, server, date);
    forall i | 0 <= i < |lines| ensures Clean(lines[i]) {
      if i < 5 {
        assert lines[i] == fixed[i];
      } else {
        SentLinesAreClean(m, server, date, i - 5);
        assert lines[i] == FieldLine(Sent(m.headers)[i - 5]);
      }
    }
  }

  lemma FixedLinesCount(m: Message, server: string, date: string)
    ensures |FixedLines(m, server, date)| == 5 && |HeaderLines(m, server, date)| >= 5
    ensures HeaderLines(m, server, date)[0] == StatusLine(m)
  {
  }

  /** The status code and reason of a status line (RFC 9112 section 4). */
  function ParseStatusLine(line: string): Option<(nat, string)> {
    if !("HTTP/1.1 " <= line) then None
    else
      var rest := line[9..];
      var parts := Split(rest, ' ');
      if |parts| < 2 || parts[0] == "" || !AllDigits(parts[0]) then None
      else Some((Value(parts[0]), Join(parts[1..], " ")))
  }

  lemma StatusLineReads(m: Message)
    ensures ParseStatusLine(StatusLine(m)) == Some((m.status, m.reason))
  {
    var code := Decimal(m.status);
    assert StatusLine(m)[9..] == code + " " + m.reason;
    SplitCons(code, ' ', m.reason);
    JoinSplit(m.reason, ' ');
    ValueOfDecimal(m.status);
    assert Split(code + " " + m.reason, ' ')[1..] == Split(m.reason, ' ');
  }

  /** What a recipient reads: the four fixed fields, then the sent ones. */
  function ReceivedFields(m: Message, server: string, date: string): seq<Field> {
    [Field("Connection", if m.persist then "keep-alive" else "close"), Field("Date", TrimOws(date)),
     Field("Server", TrimOws(server)), Field("EXT", "")] +
    Map(TrimmedField, Sent(m.headers))
  }

  lemma FixedLineReads(name: string, value: string)
    requires Free(name, ':')
    ensures FieldOf(name + ":" + (" " + value)) == Some(Field(name, TrimOws(value)))
  {
    FieldOfLine(name, " " + value);
    TrimAfterSpace(value);
  }

  lemma FieldsRead(m: Message, server: string, date: string)
    requires Sendable(m, server, date)
    ensures FilterMap(FieldOf, HeaderLines(m, server, date)[1..]) == ReceivedFields(m, server, date)
  {
    hide FieldOf, TrimOws, Sendable, FieldValue, Reserved, LengthFits, Token;
    var lines, fields := HeaderLines(m, server, date)[1..], ReceivedFields(m, server, date);
    FixedFieldsRead(m, server, date);
    forall i | 0 <= i < |lines| ensures FieldOf(lines[i]) == Some(fields[i]) {
      if i >= 4 {
        SentLineReads(m, server, date, i - 4);
        assert lines[i] == FieldLine(Sent(m.headers)[i - 4]);
        assert fields[i] == TrimmedField(Sent(m.headers)[i - 4]);
      }
    }
    FilterMapAll(FieldOf, lines, fields);
  }

  lemma SentLineReads(m: Message, server: string, date: string, i: nat)
    requires Sendable(m, server, date) && i < |Sent(m.headers)|
    ensures FieldOf(FieldLine(Sent(m.headers)[i])) == Some(TrimmedField(Sent(m.headers)[i]))
  {
    SentIsSome(m.headers, i);
    FieldLineReads(Sent(m.headers)[i]);
  }

  lemma FixedFieldsRead(m: Message, server: string, date: string)
    ensures var lines, fields := HeaderLines(m, server, date)[1..], ReceivedFields(m, server, date);
      forall i :: 0 <= i < 4 ==> FieldOf(lines[i]) == Some(fields[i])
  {
    hide FieldOf;
    FixedLineReads("Connection", Connection(m));
    FixedLineReads("Date", date);
    FixedLineReads("Server", server);
    FieldOfLine("EXT", "");
    assert TrimOws(Connection(m)) == Connection(m) == if m.persist then "keep-alive" else "close";
  }

  /** For every response that may be sent: the header block ends exactly where the serializer
      ended it, what follows is exactly the body, and the lines of the block read back as the
      status, the fixed fields and every field the caller set, in order. */
  lemma FramingRoundTrip(m: Message, server: string, date: string)
    requires Sendable(m, server, date)
    ensures var wire := Wire(m, server, date);
      var k := HeaderBlockComplete(wire);
      && k.Some? && 4 <= k.value <= |wire| && wire[k.value..] == m.body
      && (var lines := SplitLines(wire[..k.value - 4]);
          && |lines| >= 1
          && ParseStatusLine(lines[0]) == Some((m.status, m.reason))
          && FilterMap(FieldOf, lines[1..]) == ReceivedFields(m, server, date))
  {
    hide Sendable, HeaderLines, SplitLines, HeaderBlockComplete, ParseStatusLine, FilterMap, FieldOf, StatusLine,
      WireLines, ReceivedFields;
    FixedLinesCount(m, server, date);
    HeaderLinesAreClean(m, server, date);
    BlockSplits(HeaderLines(m, server, date), m.body);
    StatusLineReads(m);
    FieldsRead(m, server, date);
  }

  /** Whoever receives a body on a connection that stays open knows its length: a field named
      Content-Length arrives, and every such field is a number, the body's length. */
  lemma LengthArrives(m: Message, server: string, date: string)
    requires Sendable(m, server, date) && m.persist && m.body != ""
    ensures exists i :: LengthAt(ReceivedFields(m, server, date), i, |m.body|)
    ensures var fields := ReceivedFields(m, server, date);
      forall i: nat :: i < |fields| && Lower(fields[i].name) == "content-length" ==> LengthAt(fields, i, |m.body|)
  {
    LengthNames();
    hide Token, FieldValue, SameName, FourNames, TrimOws, Value, Sent, IsTransferEncoding;
    var k :| 0 <= k < |m.headers| && IsLength(m.headers[k]);
    assert FieldFits(m.headers[k]) && DeclaredLength(m.headers[k]) == |m.body|;
    var f, fields := m.headers[k], ReceivedFields(m, server, date);
    LengthIsSent(m.headers, k);
    var i: nat :| i < |Sent(m.headers)| && Sent(m.headers)[i] == f;
    assert fields[4 + i] == TrimmedField(f);
    LengthValueOf(f);
    assert LengthAt(fields, 4 + i, |m.body|);
    forall j: nat | j < |fields| && Lower(fields[j].name) == "content-length"
      ensures LengthAt(fields, j, |m.body|)
    {
      EveryLengthAt(m, server, date, j - 4);
    }
  }

  lemma LengthNames()
    ensures Lower("Content-Length") == "content-length" && Lower("Connection") == "connection"
    ensures Lower("Date") == "date" && Lower("Server") == "server" && Lower("EXT") == "ext"
  {
  }

  lemma EveryLengthAt(m: Message, server: string, date: string, i: nat)
    requires Sendable(m, server, date) && m.body != "" && i < |Sent(m.headers)|
    requires Lower(Sent(m.headers)[i].name) == "content-length"
    ensures LengthAt(ReceivedFields(m, server, date), 4 + i, |m.body|)
  {
    LengthNames();
    hide Token, FieldValue, Lower, TrimOws, Value, Sent, IsTransferEncoding, Reserved;
    SentIsSome(m.headers, i);
    var f := Sent(m.headers)[i];
    var k :| 0 <= k < |m.headers| && f == m.headers[k];
    assert IsLength(m.headers[k]) && FieldFits(m.headers[k]);
    LengthValueOf(f);
    assert ReceivedFields(m, server, date)[4 + i] == TrimmedField(f);
  }

  predicate LengthAt(fields: seq<Field>, i: nat, n: nat) {
    && i < |fields| && Lower(fields[i].name) == "content-length"
    && AllDigits(fields[i].value) && fields[i].value != "" && Value(fields[i].value) == n
  }

  lemma LengthValueOf(f: Field)
    requires FieldFits(f) && IsLength(f)
    ensures var v := TrimOws(f.value);
      v != "" && AllDigits(v) && Value(v) == DeclaredLength(f) && Lower(f.name) == "content-length"
  {
    assert Lower("Content-Length") == "content-length";
  }

  lemma LengthIsSent(headers: seq<Field>, k: nat)
    requires k < |headers| && IsLength(headers[k])
    ensures exists i: nat :: i < |Sent(headers)| && Sent(headers)[i] == headers[k]
  {
    LengthNames();
    hide Lower, Sent, Reserved;
    SentMeaning(headers[..k], headers[k], headers[k + 1..]);
    assert headers == headers[..k] + [headers[k]] + headers[k + 1..];
    assert Sent(headers)[|Sent(headers[..k])|] == headers[k];
  }

  /** A status that may be sent has three digits. */
  lemma ThreeDigits(m: Message, server: string, date: string)
    requires Sendable(m, server, date)
    ensures |Decimal(m.status)| == 3
  {
    hide FieldValue, FieldFits, Nonblank;
    assert |Decimal(m.status / 100)| == 1;
    assert |Decimal(m.status / 10)| == 2;
  }

  // ---------- the program ----------

  /** What an error says about the response: the first check that failed. */
  ghost predicate Explains(m: Message, server: string, date: string, e: WireError) {
    match e
    case InvalidStatus => !(100 <= m.status <= 599)
    case InvalidReason => !FieldValue(m.reason)
    case InvalidServer => !Nonblank(server)
    case InvalidDate => !Nonblank(date)
    case InvalidHeaderName(i) => FirstBad(m.headers, i) && !Token(m.headers[i].name)
    case InvalidHeaderValue(i) => FirstBad(m.headers, i) && Token(m.headers[i].name) && !FieldValue(m.headers[i].value)
    case InvalidContentLength(i) =>
      FirstBad(m.headers, i) && IsLength(m.headers[i]) && !LengthFits(m.headers[i].value)
    case DuplicateContentLength =>
      exists i, j :: 0 <= i < j < |m.headers| && IsLength(m.headers[i]) && IsLength(m.headers[j])
    case TransferEncodingWithContentLength => Has(m.headers, true) && Has(m.headers, false)
    case UnsupportedTransferEncoding => Has(m.headers, true) && !Has(m.headers, false)
    case ContentLengthMismatch(declared, actual) =>
      && actual == |m.body| != declared && m.body != ""
      && exists i :: 0 <= i < |m.headers| && IsLength(m.headers[i]) && LengthFits(m.headers[i].value) &&
                     DeclaredLength(m.headers[i]) == declared
    case PersistentBodyWithoutContentLength => m.persist && m.body != "" && !Has(m.headers, false)
  }

  predicate FirstBad(headers: seq<Field>, i: nat) {
    i < |headers| && !FieldFits(headers[i]) && forall j :: 0 <= j < i ==> FieldFits(headers[j])
  }

  /** A transfer-encoding field, or a length field. */
  predicate Has(headers: seq<Field>, transferEncoding: bool) {
    exists i :: 0 <= i < |headers| && if transferEncoding then IsTransferEncoding(headers[i]) else IsLength(headers[i])
  }

  /** The one length field among the first `i`, and what it declares. */
  predicate OnlyLength(headers: seq<Field>, i: nat, k: nat, declared: nat) {
    && k < i <= |headers| && IsLength(headers[k])
    && LengthFits(headers[k].value) && DeclaredLength(headers[k]) == declared
    && (forall j :: 0 <= j < i && j != k ==> !IsLength(headers[j]))
  }

  /** What the header loop knows after the first `i` fields. */
  ghost predicate Scanned(headers: seq<Field>, i: nat, contentLength: Option<nat>, transferEncoding: bool) {
    && i <= |headers|
    && (forall j :: 0 <= j < i ==> FieldFits(headers[j]))
    && (transferEncoding <==> exists j :: 0 <= j < i && IsTransferEncoding(headers[j]))
    && (contentLength.None? ==> forall j :: 0 <= j < i ==> !IsLength(headers[j]))
    && (contentLength.Some? ==> exists k: nat :: OnlyLength(headers, i, k, contentLength.value))
  }

  class HttpResponse {
    var status: nat
    var reason: string
    var headers: seq<Field>
    var body: string
    var persist: bool

    ghost function View(): Message
      reads this
    {
      Message(status, reason, headers, body, persist)
    }

    constructor (status: nat, reason: string)
      ensures View() == Message(status, reason, [], "", false)
    {
      this.status, this.reason := status, reason;
      headers, body, persist := [], "", false;
    }

    method Set(name: string, value: string)
      modifies this`headers
      ensures headers == SetField(old(headers), Field(name, value))
    {
      hide SameName, SetField, Others;
      var f := Field(name, value);
      var first := 0;
      while first < |headers| && !SameName(headers[first].name, name)
        invariant first <= |headers| && headers == old(headers)
        invariant forall i :: 0 <= i < first ==> !SameName(headers[i].name, name)
      {
        first := first + 1;
      }
      if first == |headers| {
        SetFieldAppends(headers, f);
        headers := headers + [f];
        return;
      }
      SetFieldAt(headers, f, first);
      headers := headers[first := f];
      assert headers[..first + 1] == old(headers)[..first] + [f] && headers[first + 1..] == old(headers)[first + 1..];
      DropLater(name, first + 1);
    }

    /** Remove every field of a name from an index on. */
    method DropLater(name: string, start: nat)
      requires start <= |headers|
      modifies this`headers
      ensures headers == old(headers)[..start] + Others(old(headers)[start..], name)
    {
      hide SameName;
      ghost var whole := old(headers)[..start] + Others(old(headers)[start..], name);
      var index := start;
      while index < |headers|
        invariant start <= index <= |headers|
        invariant headers[..index] + Others(headers[index..], name) == whole
        decreases |headers| - index
      {
        ghost var before := headers;
        assert before[index..][1..] == before[index + 1..];
        if SameName(headers[index].name, name) {
          headers := headers[..index] + headers[index + 1..];
          assert headers[..index] == before[..index] && headers[index..] == before[index + 1..];
        } else {
          index := index + 1;
          assert before[..index] == before[..index - 1] + [before[index - 1]];
        }
      }
      assert headers[..index] == headers && headers[index..] == [];
    }

    method Append(name: string, value: string)
      modifies this`headers
      ensures headers == old(headers) + [Field(name, value)]
    {
      headers := headers + [Field(name, value)];
    }

    /** The header checks of the serializer. */
    method ScanHeaders() returns (e: Option<WireError>, contentLength: Option<nat>, transferEncoding: bool)
      ensures e.None? ==> Scanned(headers, |headers|, contentLength, transferEncoding)
      ensures e.Some? ==>
        forall server, date :: Explains(View(), server, date, e.value) && !Sendable(View(), server, date)
    {
      hide Token, FieldValue, TrimOws, Value, SameName, AllDigits;
      contentLength, transferEncoding, e := None, false, None;
      for i := 0 to |headers|
        invariant e.None? && Scanned(headers, i, contentLength, transferEncoding)
      {
        var f := headers[i];
        if !Token(f.name) {
          assert FirstBad(headers, i);
          return Some(InvalidHeaderName(i)), None, false;
        }
        if !FieldValue(f.value) {
          assert FirstBad(headers, i);
          return Some(InvalidHeaderValue(i)), None, false;
        }
        if IsLength(f) {
          var value := TrimOws(f.value);
          if value == "" || !AllDigits(value) || Value(value) > U64_MAX {
            assert FirstBad(headers, i);
            return Some(InvalidContentLength(i)), None, false;
          }
          if contentLength.Some? {
            return Some(DuplicateContentLength), None, false;
          }
          contentLength := Some(Value(value));
          assert OnlyLength(headers, i + 1, i, Value(value));
          LengthIsNoEncoding(f.name);
        } else {
          if contentLength.Some? {
            var k: nat :| OnlyLength(headers, i, k, contentLength.value);
            assert OnlyLength(headers, i + 1, k, contentLength.value);
          }
          if IsTransferEncoding(f) {
            transferEncoding := true;
          }
        }
      }
    }

    /** The wire text of every sendable response, and a reason for every other. */
    method TryBytesWire(server: string, date: string) returns (r: Result<string, WireError>)
      ensures r.Ok? <==> Sendable(View(), server, date)
      ensures r.Ok? ==> r.value == Wire(View(), server, date)
      ensures r.Err? ==> Explains(View(), server, date, r.error)
    {
      hide Wire, FieldFits, Token, FieldValue, TrimOws, Value;
      if !(100 <= status <= 599) { return Err(InvalidStatus); }
      if !FieldValue(reason) { return Err(InvalidReason); }
      if TrimOws(server) == "" || !FieldValue(server) { return Err(InvalidServer); }
      if TrimOws(date) == "" || !FieldValue(date) { return Err(InvalidDate); }
      var e, contentLength, transferEncoding := ScanHeaders();
      if e.Some? {
        return Err(e.value);
      }
      if transferEncoding {
        return Err(if contentLength.Some? then TransferEncodingWithContentLength else UnsupportedTransferEncoding);
      }
      if body != "" {
        if contentLength.Some? {
          if contentLength.value != |body| {
            return Err(ContentLengthMismatch(contentLength.value, |body|));
          }
        } else if persist {
          return Err(PersistentBodyWithoutContentLength);
        }
      }
      var wire := Serialize(server, date);
      return Ok(wire);
    }

    /** The text once every check has passed. */
    method Serialize(server: string, date: string) returns (out: string)
      ensures out == Wire(View(), server, date)
    {
      ghost var fixed := FixedLines(View(), server, date);
      var connection := if persist then "keep-alive" else "close";
      out := "HTTP/1.1 " + Decimal(status) + " " + reason + CRLF + "Connection: " + connection + CRLF +
        "Date: " + date + CRLF + "Server: " + server + CRLF + "EXT:" + CRLF;
      FixedText(View(), server, date);
      out := AppendFields(fixed, out);
      out := out + CRLF + body;
    }

    /** The loop over the caller's fields. */
    method AppendFields(ghost fixed: seq<string>, start: string) returns (out: string)
      requires start == WireLines(fixed)
      ensures out == WireLines(fixed + Map(FieldLine, Sent(headers)))
    {
      hide Reserved, WireLines;
      out := start;
      assert Sent(headers[..0]) == [];
      assert fixed + Map(FieldLine, Sent(headers[..0])) == fixed;
      for i := 0 to |headers|
        invariant out == WireLines(fixed + Map(FieldLine, Sent(headers[..i])))
      {
        var f := headers[i];
        ghost var sent := Sent(headers[..i]);
        SentSnoc(headers[..i], f);
        assert headers[..i + 1] == headers[..i] + [f];
        if Reserved(f.name) {
          assert sent + [] == sent;
          continue;
        }
        LineAppended(fixed, sent, f);
        out := out + f.name + ": " + f.value + CRLF;
      }
      assert headers[..|headers|] == headers;
    }
  }

  lemma LineAppended(fixed: seq<string>, sent: seq<Field>, f: Field)
    ensures WireLines(fixed + Map(FieldLine, sent + [f])) ==
      WireLines(fixed + Map(FieldLine, sent)) + f.name + ": " + f.value + CRLF
  {
    var lines := fixed + Map(FieldLine, sent);
    assert fixed + Map(FieldLine, sent + [f]) == lines + [FieldLine(f)];
    WireLinesSnoc(lines, FieldLine(f));
    var out := WireLines(lines);
    assert FieldLine(f) == f.name + ": " + f.value;
    assert out + (f.name + ": " + f.value) + CRLF == out + f.name + ": " + f.value + CRLF;
  }

  lemma LengthIsNoEncoding(name: string)
    requires SameName(name, "Content-Length")
    ensures !SameName(name, "Transfer-Encoding")
  {
    assert |Lower(name)| == 14;
  }

  lemma {:induction false} SentSnoc(headers: seq<Field>, f: Field)
    ensures Sent(headers + [f]) == Sent(headers) + if Reserved(f.name) then [] else [f]
  {
    if headers == [] {
      assert [f][1..] == [];
    } else {
      SentSnoc(headers[1..], f);
      assert (headers + [f])[1..] == headers[1..] + [f];
    }
  }

  lemma {:induction false} WireLinesSnoc(lines: seq<string>, line: string)
    ensures WireLines(lines + [line]) == WireLines(lines) + line + CRLF
  {
    if lines == [] {
      assert [line][1..] == [];
    } else {
      WireLinesSnoc(lines[1..], line);
      assert (lines + [line])[1..] == lines[1..] + [line];
      assert WireLines(lines + [line]) == lines[0] + CRLF + (WireLines(lines[1..]) + line + CRLF);
    }
  }

  lemma FixedText(m: Message, server: string, date: string)
    ensures WireLines(FixedLines(m, server, date)) ==
      "HTTP/1.1 " + Decimal(m.status) + " " + m.reason + CRLF + "Connection: " + Connection(m) + CRLF +
      "Date: " + date + CRLF + "Server: " + server + CRLF + "EXT:" + CRLF
  {
    hide WireLines;
    var lines := FixedLines(m, server, date);
    assert lines[1] == "Connection: " + Connection(m);
    assert lines[2] == "Date: " + date;
    assert lines[3] == "Server: " + server;
    assert lines[4] == "EXT:";
    FiveLines(lines[0], lines[1], lines[2], lines[3], lines[4]);
    assert lines == [lines[0], lines[1], lines[2], lines[3], lines[4]];
    FlattenFive(StatusLine(m), Connection(m), date, server);
  }

  lemma FiveLines(a: string, b: string, c: string, d: string, e: string)
    ensures WireLines([a, b, c, d, e]) == a + CRLF + b + CRLF + c + CRLF + d + CRLF + e + CRLF
  {
    var none: seq<string> := [];
    WireLinesSnoc(none, a);
    assert none + [a] == [a] && WireLines(none) + a + CRLF == a + CRLF;
    WireLinesSnoc([a], b);
    assert [a] + [b] == [a, b];
    WireLinesSnoc([a, b], c);
    assert [a, b] + [c] == [a, b, c];
    WireLinesSnoc([a, b, c], d);
    assert [a, b, c] + [d] == [a, b, c, d];
    WireLinesSnoc([a, b, c, d], e);
    assert [a, b, c, d] + [e] == [a, b, c, d, e];
  }

  lemma FlattenFive(status: string, connection: string, date: string, server: string)
    ensures status + CRLF + ("Connection: " + connection) + CRLF + ("Date: " + date) + CRLF +
      ("Server: " + server) + CRLF + "EXT:" + CRLF ==
      status + CRLF + "Connection: " + connection + CRLF + "Date: " + date + CRLF + "Server: " + server + CRLF +
      "EXT:" + CRLF
  {
    var x := status + CRLF;
    assert x + ("Connection: " + connection) == x + "Connection: " + connection;
    var y := x + "Connection: " + connection + CRLF;
    assert y + ("Date: " + date) == y + "Date: " + date;
    var z := y + "Date: " + date + CRLF;
    assert z + ("Server: " + server) == z + "Server: " + server;
  }
}
