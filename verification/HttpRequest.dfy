/** Parsing a request's header block and combining repeated fields. */
module HttpRequest {
  import opened Text
  import opened HttpSyntax

  datatype ParseError =
    | Incomplete | BadRequestLine | UnsupportedVersion | MalformedHeader | ObsoleteFold | InvalidHeaderName
    | InvalidHeaderValue | InvalidContentLength | ConflictingContentLength | TransferEncodingWithContentLength
    | UnsupportedTransferEncoding | DuplicateHost | DuplicateSoapAction

  datatype RequestLine = RequestLine(verb: string, target: string, path: string, query: string, version: string)

  datatype Request = Request(line: RequestLine, headers: seq<Field>)

  // ---------- looking fields up ----------

  /** The first field of a name, ignoring case. */
  function Lookup(headers: seq<Field>, name: string): Option<string> {
    if headers == [] then None
    else if SameName(headers[0].name, name) then Some(headers[0].value)
    else Lookup(headers[1..], name)
  }

  /** `content_length`: the looked-up value as a number. */
  function ContentLength(headers: seq<Field>): Option<nat> {
    match Lookup(headers, "Content-Length")
    case None => None
    case Some(value) => ParseUnsigned(value, USIZE_MAX)
  }

  predicate DistinctNames(headers: seq<Field>) {
    forall i, j :: 0 <= i < j < |headers| ==> !SameName(headers[i].name, headers[j].name)
  }

  // ---------- what a block means ----------

  /** The values of a name in wire order. */
  function Values(fields: seq<Field>, name: string): seq<string> {
    if fields == [] then []
    else
      var f := fields[|fields| - 1];
      Values(fields[..|fields| - 1], name) + if SameName(f.name, name) then [f.value] else []
  }

  /** The combined value of a name: repeats joined by ", ", except that repeats of
      Content-Length, which must agree, count once. */
  function Combined(fields: seq<Field>, name: string): Option<string> {
    var values := Values(fields, name);
    if values == [] then None
    else if SameName(name, "Content-Length") then Some(values[0])
    else Some(Join(values, ", "))
  }

  predicate LengthValue(value: string) {
    value != "" && AllDigits(value) && Value(value) <= USIZE_MAX
  }

  lemma LengthValueMeaning(value: string)
    ensures LengthValue(value) <==>
      |value| >= 1 && (forall i :: 0 <= i < |value| ==> '0' <= value[i] <= '9') &&
      Value(value) <= 18_446_744_073_709_551_615
  {
  }

  /** What the fields of a block have to satisfy together for the loop to take them all. */
  ghost predicate Unrefused(fields: seq<Field>) {
    var lengths := Values(fields, "Content-Length");
    && (forall i :: 0 <= i < |lengths| ==> LengthValue(lengths[i]))
    && (forall i, j :: 0 <= i < j < |lengths| ==> Value(lengths[i]) == Value(lengths[j]))
    && |Values(fields, "Host")| <= 1
    && |Values(fields, "SOAPAction")| <= 1
  }

  /** And for the block to be accepted: no transfer encoding either. */
  ghost predicate Acceptable(fields: seq<Field>) {
    Unrefused(fields) && Values(fields, "Transfer-Encoding") == []
  }

  // ---------- one line at a time ----------

  /** The syntax of one header line. */
  function ParseLine(line: string): Result<Field, ParseError> {
    if line != [] && (line[0] == ' ' || line[0] == '\t') then Err(ObsoleteFold)
    else match FieldOf(line)
         case None => Err(MalformedHeader)
         case Some(f) =>
           if !Token(f.name) then Err(InvalidHeaderName)
           else if !FieldValue(f.value) then Err(InvalidHeaderValue)
           else Ok(f)
  }

  datatype State = State(headers: seq<Field>, contentLength: Option<nat>, transferEncoding: bool,
                         hostSeen: bool, soapActionSeen: bool)

  const START := State([], None, false, false, false)

  /** Append to the field of a name, or add one. */
  function Combine(headers: seq<Field>, f: Field): seq<Field> {
    if headers == [] then [f]
    else if SameName(headers[0].name, f.name) then
      [headers[0].(value := headers[0].value + ", " + f.value)] + headers[1..]
    else [headers[0]] + Combine(headers[1..], f)
  }

  function OnField(st: State, f: Field): Result<State, ParseError> {
    if SameName(f.name, "Content-Length") then
      if !LengthValue(f.value) then Err(InvalidContentLength)
      else if st.contentLength.Some? then
        (if st.contentLength.value != Value(f.value) then Err(ConflictingContentLength) else Ok(st))
      else Ok(st.(contentLength := Some(Value(f.value)), headers := st.headers + [f]))
    else if SameName(f.name, "Host") && st.hostSeen then Err(DuplicateHost)
    else if SameName(f.name, "SOAPAction") && st.soapActionSeen then Err(DuplicateSoapAction)
    else Ok(State(Combine(st.headers, f), st.contentLength,
                  st.transferEncoding || SameName(f.name, "Transfer-Encoding"),
                  st.hostSeen || SameName(f.name, "Host"), st.soapActionSeen || SameName(f.name, "SOAPAction")))
  }

  function OnLine(st: State, line: string): Result<State, ParseError> {
    if line == "" then Ok(st)
    else match ParseLine(line)
         case Err(e) => Err(e)
         case Ok(f) => OnField(st, f)
  }

  function OnLines(st: State, lines: seq<string>): Result<State, ParseError>
    decreases |lines|
  {
    if lines == [] then Ok(st)
    else match OnLine(st, lines[0])
         case Err(e) => Err(e)
         case Ok(next) => OnLines(next, lines[1..])
  }

  function Finish(st: State): Result<seq<Field>, ParseError> {
    if st.transferEncoding && st.contentLength.Some? then Err(TransferEncodingWithContentLength)
    else if st.transferEncoding then Err(UnsupportedTransferEncoding)
    else Ok(st.headers)
  }

  function ParseFields(lines: seq<string>): Result<seq<Field>, ParseError> {
    match OnLines(START, lines)
    case Err(e) => Err(e)
    case Ok(st) => Finish(st)
  }

  /** A header line is taken exactly when it does not start with white space and is a token, a
      colon and a value of allowed bytes once spaces and tabs around it are cut off. */
  lemma LineMeaning(line: string, f: Field)
    ensures ParseLine(line) == Ok(f) <==>
      && Token(f.name) && FieldValue(f.value)
      && exists rest :: line == f.name + ":" + rest && f.value == TrimOws(rest)
  {
    hide TrimOws;
    if ParseLine(line) == Ok(f) {
      var rest := FieldParts(line);
    }
    if Token(f.name) {
      TokenIsPlain(f.name);
      assert TokenByte(f.name[0]);
      if rest :| line == f.name + ":" + rest && f.value == TrimOws(rest) {
        FieldOfLine(f.name, rest);
        assert line[0] == f.name[0];
      }
    }
  }

  /** The line is cut at its first colon. */
  predicate CutAtColon(line: string, name: string, rest: string) {
    line == name + ":" + rest && ':' !in name
  }

  /** Why a line is refused: it continues the one before, lacks a colon, has no token before its
      first colon, or otherwise a byte no value may have. */
  lemma LineErrors(line: string)
    requires line != ""
    ensures var r, folded := ParseLine(line), line[0] == ' ' || line[0] == '\t';
      && (r == Err(ObsoleteFold) <==> folded)
      && (r == Err(MalformedHeader) <==> !folded && ':' !in line)
      && (r == Err(InvalidHeaderName) <==>
            !folded && exists name, rest :: CutAtColon(line, name, rest) && !Token(name))
      && (r.Ok? || r.error in {ObsoleteFold, MalformedHeader, InvalidHeaderName, InvalidHeaderValue})
  {
    hide TrimOws, Token;
    NoColonNoField(line);
    if FieldOf(line).Some? {
      var rest := FieldParts(line);
      assert CutAtColon(line, FieldOf(line).value.name, rest);
    }
    forall name, rest | CutAtColon(line, name, rest)
      ensures FieldOf(line) == Some(Field(name, TrimOws(rest)))
    {
      FieldOfLine(name, rest);
    }
  }

  // ---------- lookups ----------

  lemma {:induction false} LookupAppend(headers: seq<Field>, f: Field, name: string)
    ensures Lookup(headers + [f], name) ==
      if Lookup(headers, name).Some? then Lookup(headers, name)
      else if SameName(f.name, name) then Some(f.value) else None
  {
    hide SameName;
    if headers == [] {
      assert headers + [f] == [f] && [f][1..] == [];
    } else {
      LookupAppend(headers[1..], f, name);
      assert (headers + [f])[1..] == headers[1..] + [f];
    }
  }

  lemma {:induction false} LookupCombine(headers: seq<Field>, f: Field, name: string)
    ensures Lookup(Combine(headers, f), name) ==
      if SameName(f.name, name)
      then (match Lookup(headers, name) case None => Some(f.value) case Some(v) => Some(v + ", " + f.value))
      else Lookup(headers, name)
  {
    if headers == [] {
      assert [f][1..] == [];
    } else {
      LookupCombine(headers[1..], f, name);
      assert Combine(headers, f)[1..] ==
        if SameName(headers[0].name, f.name) then headers[1..] else Combine(headers[1..], f);
    }
  }

  /** Combining keeps the names that were there, in place, and may add one at the end. */
  lemma {:induction false} CombineNames(headers: seq<Field>, f: Field)
    ensures var after := Combine(headers, f);
      && |headers| <= |after| <= |headers| + 1
      && (forall i :: 0 <= i < |headers| ==> after[i].name == headers[i].name)
      && (|after| > |headers| ==>
            after[|headers|] == f && forall i :: 0 <= i < |headers| ==> !SameName(headers[i].name, f.name))
    decreases |headers|
  {
    hide SameName;
    if headers != [] && !SameName(headers[0].name, f.name) {
      CombineNames(headers[1..], f);
      var after, rest := Combine(headers, f), Combine(headers[1..], f);
      assert forall i :: 1 <= i < |after| ==> after[i] == rest[i - 1];
      assert forall i :: 1 <= i < |headers| ==> headers[i] == headers[1..][i - 1];
    }
  }

  lemma {:induction false} LookupNone(headers: seq<Field>, name: string)
    ensures Lookup(headers, name).None? <==> forall i :: 0 <= i < |headers| ==> !SameName(headers[i].name, name)
  {
    hide SameName;
    if headers != [] {
      LookupNone(headers[1..], name);
      assert forall i :: 1 <= i < |headers| ==> headers[i] == headers[1..][i - 1];
    }
  }

  // ---------- the invariant of the loop ----------

  /** The values of a name once a field has been added. */
  function OneMoreValue(fields: seq<Field>, f: Field, name: string): seq<string> {
    if SameName(f.name, name) then Values(fields, name) + [f.value] else Values(fields, name)
  }

  lemma ValuesSnoc(fields: seq<Field>, f: Field, name: string)
    ensures Values(fields + [f], name) == OneMoreValue(fields, f, name)
  {
    assert (fields + [f])[..|fields|] == fields;
  }

  /** The loop's state says of the fields so far what the flags and the headers stand for. */
  ghost predicate Inv(st: State, fields: seq<Field>) {
    var lengths := Values(fields, "Content-Length");
    && Unrefused(fields)
    && (st.contentLength.Some? <==> lengths != [])
    && (st.contentLength.Some? ==> st.contentLength.value == Value(lengths[0]))
    && (st.hostSeen <==> Values(fields, "Host") != [])
    && (st.soapActionSeen <==> Values(fields, "SOAPAction") != [])
    && (st.transferEncoding <==> Values(fields, "Transfer-Encoding") != [])
    && Faithful(st.headers, fields)
  }

  /** The headers hold every name once, with its combined value. */
  ghost predicate Faithful(headers: seq<Field>, fields: seq<Field>) {
    DistinctNames(headers) && forall name :: Lookup(headers, name) == Combined(fields, name)
  }

  lemma NamesDiffer(name: string)
    ensures SameName(name, "Content-Length") ==>
      !SameName(name, "Host") && !SameName(name, "SOAPAction") && !SameName(name, "Transfer-Encoding")
    ensures SameName(name, "Host") ==> !SameName(name, "SOAPAction") && !SameName(name, "Transfer-Encoding")
    ensures SameName(name, "SOAPAction") ==> !SameName(name, "Transfer-Encoding")
  {
    assert |Lower("Content-Length")| == 14 && |Lower("Host")| == 4;
    assert |Lower("SOAPAction")| == 10 && |Lower("Transfer-Encoding")| == 17;
  }

  lemma AppendIsFaithful(headers: seq<Field>, fields: seq<Field>, f: Field)
    requires Faithful(headers, fields) && SameName(f.name, "Content-Length")
    requires Values(fields, "Content-Length") == []
    ensures Faithful(headers + [f], fields + [f])
  {
    hide Lower;
    LookupNone(headers, f.name);
    SameValues(fields, f.name, "Content-Length");
    assert Lookup(headers, f.name) == Combined(fields, f.name);
    forall name ensures Lookup(headers + [f], name) == Combined(fields + [f], name) {
      LookupAppend(headers, f, name);
      ValuesSnoc(fields, f, name);
      if SameName(f.name, name) {
        SameValues(fields, name, "Content-Length");
        assert Values(fields + [f], name) == [f.value];
      }
      assert Lookup(headers, name) == Combined(fields, name);
    }
  }

  /** Values do not depend on the letter case of the name asked for. */
  lemma {:induction false} SameValues(fields: seq<Field>, a: string, b: string)
    requires SameName(a, b)
    ensures Values(fields, a) == Values(fields, b)
    decreases |fields|
  {
    hide Lower;
    if fields != [] {
      SameValues(fields[..|fields| - 1], a, b);
    }
  }

  /** A repeat of an agreed Content-Length changes no combined value. */
  lemma RepeatIsFaithful(headers: seq<Field>, fields: seq<Field>, f: Field)
    requires Faithful(headers, fields) && SameName(f.name, "Content-Length")
    requires Values(fields, "Content-Length") != []
    ensures Faithful(headers, fields + [f])
  {
    hide Lower;
    forall name ensures Lookup(headers, name) == Combined(fields + [f], name) {
      ValuesSnoc(fields, f, name);
      if SameName(f.name, name) {
        SameValues(fields, name, "Content-Length");
      }
      assert Lookup(headers, name) == Combined(fields, name);
    }
  }

  lemma CombineIsFaithful(headers: seq<Field>, fields: seq<Field>, f: Field)
    requires Faithful(headers, fields) && !SameName(f.name, "Content-Length")
    ensures Faithful(Combine(headers, f), fields + [f])
  {
    hide Lower;
    CombineNames(headers, f);
    var after := Combine(headers, f);
    assert DistinctNames(after) by {
      forall i, j | 0 <= i < j < |after| ensures !SameName(after[i].name, after[j].name) {
        assert after[i].name == headers[i].name;
        assert j < |headers| ==> after[j].name == headers[j].name;
      }
    }
    forall name ensures Lookup(after, name) == Combined(fields + [f], name) {
      LookupCombine(headers, f, name);
      ValuesSnoc(fields, f, name);
      JoinSnoc(Values(fields, name), f.value, ", ");
      assert Lookup(headers, name) == Combined(fields, name);
    }
  }

  lemma ValuesOfFour(fields: seq<Field>, f: Field)
    ensures Values(fields + [f], "Content-Length") == OneMoreValue(fields, f, "Content-Length")
    ensures Values(fields + [f], "Host") == OneMoreValue(fields, f, "Host")
    ensures Values(fields + [f], "SOAPAction") == OneMoreValue(fields, f, "SOAPAction")
    ensures Values(fields + [f], "Transfer-Encoding") == OneMoreValue(fields, f, "Transfer-Encoding")
  {
    ValuesSnoc(fields, f, "Content-Length");
    ValuesSnoc(fields, f, "Host");
    ValuesSnoc(fields, f, "SOAPAction");
    ValuesSnoc(fields, f, "Transfer-Encoding");
  }

  /** One more field is taken exactly when the fields so far and it can still be accepted. */
  lemma FieldStep(st: State, fields: seq<Field>, f: Field)
    requires Inv(st, fields)
    ensures OnField(st, f).Ok? <==> Unrefused(fields + [f])
    ensures OnField(st, f).Ok? ==> Inv(OnField(st, f).value, fields + [f])
  {
    hide SameName, Faithful, Values, Combine, LengthValue, Value;
    NamesDiffer(f.name);
    ValuesOfFour(fields, f);
    var lengths := Values(fields, "Content-Length");
    if SameName(f.name, "Content-Length") {
      assert Values(fields + [f], "Content-Length")[|lengths|] == f.value;
      LengthStep(st, fields, f);
    } else {
      CombineIsFaithful(st.headers, fields, f);
      assert Values(fields + [f], "Content-Length") == lengths;
    }
  }

  lemma LengthStep(st: State, fields: seq<Field>, f: Field)
    requires Inv(st, fields) && SameName(f.name, "Content-Length")
    ensures Unrefused(fields + [f]) <==>
      LengthValue(f.value) && (st.contentLength.Some? ==> st.contentLength.value == Value(f.value))
    ensures Unrefused(fields + [f]) ==> Inv(OnField(st, f).value, fields + [f])
  {
    hide SameName, Faithful, Values, Combine, Value;
    NamesDiffer(f.name);
    ValuesOfFour(fields, f);
    var lengths := Values(fields, "Content-Length");
    var more := Values(fields + [f], "Content-Length");
    assert more == lengths + [f.value] && more[|lengths|] == f.value;
    assert lengths != [] ==> more[0] == lengths[0];
    if LengthValue(f.value) && (st.contentLength.Some? ==> st.contentLength.value == Value(f.value)) {
      forall i, j | 0 <= i < j < |more| ensures Value(more[i]) == Value(more[j]) {
        assert i < |lengths| && more[i] == lengths[i];
        assert Value(lengths[0]) == Value(f.value);
      }
      if lengths == [] { AppendIsFaithful(st.headers, fields, f); } else { RepeatIsFaithful(st.headers, fields, f); }
    }
  }

  // ---------- whole blocks ----------

  predicate WellFormed(lines: seq<string>) {
    forall i :: 0 <= i < |lines| ==> lines[i] == "" || ParseLine(lines[i]).Ok?
  }

  function FieldsOf(lines: seq<string>): seq<Field>
    requires WellFormed(lines)
  {
    if lines == [] then []
    else (if lines[0] == "" then [] else [ParseLine(lines[0]).value]) +
         (assert forall i :: 0 <= i < |lines[1..]| ==> lines[1..][i] == lines[i + 1]; FieldsOf(lines[1..]))
  }

  /** Once refused, more fields do not help. */
  lemma {:induction false} RefusedStaysRefused(fields: seq<Field>, more: seq<Field>)
    requires Unrefused(fields + more)
    ensures Unrefused(fields)
    decreases |more|
  {
    hide Values, SameName, LengthValue, Value;
    if more == [] {
      assert fields + more == fields;
    } else {
      var n := |more| - 1;
      var shorter := fields + more[..n];
      assert fields + more == shorter + [more[n]];
      ValuesOfFour(shorter, more[n]);
      ShorterIsUnrefused(shorter, more[n]);
      RefusedStaysRefused(fields, more[..n]);
    }
  }

  lemma ShorterIsUnrefused(fields: seq<Field>, f: Field)
    requires Unrefused(fields + [f])
    ensures Unrefused(fields)
  {
    hide Values, SameName, LengthValue, Value;
    ValuesOfFour(fields, f);
    var lengths, more := Values(fields, "Content-Length"), Values(fields + [f], "Content-Length");
    assert forall i :: 0 <= i < |lengths| ==> lengths[i] == more[i];
  }

  lemma {:induction false} LinesStep(st: State, done: seq<Field>, lines: seq<string>)
    requires Inv(st, done)
    ensures OnLines(st, lines).Ok? <==> WellFormed(lines) && Unrefused(done + FieldsOf(lines))
    ensures OnLines(st, lines).Ok? ==> Inv(OnLines(st, lines).value, done + FieldsOf(lines))
    decreases |lines|
  {
    hide Inv, Unrefused, ParseLine, OnField;
    if lines == [] {
      assert done + FieldsOf(lines) == done;
      InvIsUnrefused(st, done);
    } else {
      var line, rest := lines[0], lines[1..];
      assert WellFormed(lines) <==> (line == "" || ParseLine(line).Ok?) && WellFormed(rest) by {
        assert forall i :: 0 <= i < |rest| ==> rest[i] == lines[i + 1];
      }
      if line == "" {
        LinesStep(st, done, rest);
        if WellFormed(lines) { assert [] + FieldsOf(rest) == FieldsOf(rest); }
      } else if ParseLine(line).Ok? {
        var f := ParseLine(line).value;
        FieldStep(st, done, f);
        if WellFormed(lines) {
          assert done + FieldsOf(lines) == (done + [f]) + FieldsOf(rest);
        }
        if OnField(st, f).Ok? {
          LinesStep(OnField(st, f).value, done + [f], rest);
        } else if WellFormed(lines) && Unrefused(done + FieldsOf(lines)) {
          RefusedStaysRefused(done + [f], FieldsOf(rest));
        }
      }
    }
  }

  /** What is wrong with a field behind others that were taken. */
  function Objection(fields: seq<Field>, f: Field): Option<ParseError> {
    if SameName(f.name, "Content-Length") then
      var lengths := Values(fields, "Content-Length");
      if !LengthValue(f.value) then Some(InvalidContentLength)
      else if lengths != [] && LengthValue(lengths[0]) && Value(lengths[0]) != Value(f.value) then
        Some(ConflictingContentLength)
      else None
    else if SameName(f.name, "Host") && Values(fields, "Host") != [] then Some(DuplicateHost)
    else if SameName(f.name, "SOAPAction") && Values(fields, "SOAPAction") != [] then Some(DuplicateSoapAction)
    else None
  }

  lemma ObjectionIsExact(st: State, fields: seq<Field>, f: Field)
    requires Inv(st, fields)
    ensures OnField(st, f).Ok? <==> Objection(fields, f) == None
    ensures OnField(st, f).Err? ==> Objection(fields, f) == Some(OnField(st, f).error)
  {
    hide Faithful, Values, Lower, Value, Combine;
    NamesDiffer(f.name);
  }

  /** The answer for a refused block is what is wrong with its first bad line: behind lines that
      were all taken, the line's syntax, or else the field's objection to the earlier ones. */
  lemma FirstBadLine(before: seq<string>, line: string, after: seq<string>)
    requires WellFormed(before) && Unrefused(FieldsOf(before)) && line != ""
    requires ParseLine(line).Err? || Objection(FieldsOf(before), ParseLine(line).value).Some?
    ensures ParseFields(before + [line] + after) ==
      match ParseLine(line)
      case Err(e) => Err(e)
      case Ok(f) => Err(Objection(FieldsOf(before), f).value)
  {
    hide WellFormed, FieldsOf, ParseLine, OnField, Unrefused, Inv, OnLines;
    StartInv();
    LinesStep(START, [], before);
    assert [] + FieldsOf(before) == FieldsOf(before);
    var st := OnLines(START, before).value;
    if ParseLine(line).Ok? {
      ObjectionIsExact(st, FieldsOf(before), ParseLine(line).value);
    }
    OnLinesConcat(START, before, [line] + after);
    assert before + [line] + after == before + ([line] + after);
    OneLineRefused(st, line, after);
  }

  lemma OneLineRefused(st: State, line: string, after: seq<string>)
    requires OnLine(st, line).Err?
    ensures OnLines(st, [line] + after) == Err(OnLine(st, line).error)
  {
  }

  lemma {:induction false} OnLinesConcat(st: State, before: seq<string>, after: seq<string>)
    requires OnLines(st, before).Ok?
    ensures OnLines(st, before + after) == OnLines(OnLines(st, before).value, after)
    decreases |before|
  {
    hide OnLine;
    if before == [] {
      assert before + after == after;
    } else {
      assert (before + after)[0] == before[0] && (before + after)[1..] == before[1..] + after;
      OnLinesConcat(OnLine(st, before[0]).value, before[1..], after);
    }
  }

  /** A block with nothing wrong but a transfer encoding is refused for it, or for having a
      length as well. */
  lemma TransferEncodingIsRefused(lines: seq<string>)
    requires WellFormed(lines) && Unrefused(FieldsOf(lines)) && Values(FieldsOf(lines), "Transfer-Encoding") != []
    ensures ParseFields(lines) ==
      if Values(FieldsOf(lines), "Content-Length") != [] then Err(TransferEncodingWithContentLength)
      else Err(UnsupportedTransferEncoding)
  {
    hide WellFormed, FieldsOf, Unrefused, OnLines, Values, Faithful;
    StartInv();
    LinesStep(START, [], lines);
    assert [] + FieldsOf(lines) == FieldsOf(lines);
  }

  lemma InvIsUnrefused(st: State, fields: seq<Field>)
    requires Inv(st, fields)
    ensures Unrefused(fields)
  {
  }

  // ---------- main results ----------

  /** The number a block's Content-Length fields agree on. */
  function LengthIn(fields: seq<Field>): Option<nat>
    requires Unrefused(fields)
  {
    var values := Values(fields, "Content-Length");
    if values == [] then None else Some(Value(values[0]))
  }

  /** A block is accepted exactly when its lines are well-formed and its fields acceptable; then
      names are distinct ignoring case, every lookup returns the combined value, and the length
      is the number that the digits of the first Content-Length denote, or none without one. */
  lemma ParseMeaning(lines: seq<string>)
    ensures ParseFields(lines).Ok? <==> WellFormed(lines) && Acceptable(FieldsOf(lines))
    ensures ParseFields(lines).Ok? ==>
      var headers, fields := ParseFields(lines).value, FieldsOf(lines);
      && DistinctNames(headers)
      && (forall name :: Lookup(headers, name) == Combined(fields, name))
      && ContentLength(headers) == LengthIn(fields)
  {
    hide OnLines, Values, FieldsOf, WellFormed;
    StartInv();
    LinesStep(START, [], lines);
    if WellFormed(lines) {
      assert [] + FieldsOf(lines) == FieldsOf(lines);
    }
    if ParseFields(lines).Ok? {
      LengthIsDefined(ParseFields(lines).value, FieldsOf(lines));
    }
  }

  lemma StartInv()
    ensures Inv(START, [])
  {
    forall name ensures Lookup([], name) == Combined([], name) {
      assert Values([], name) == [];
    }
  }

  lemma LengthIsDefined(headers: seq<Field>, fields: seq<Field>)
    requires Faithful(headers, fields) && Unrefused(fields)
    ensures ContentLength(headers) == LengthIn(fields)
  {
    var values := Values(fields, "Content-Length");
    assert Lookup(headers, "Content-Length") == Combined(fields, "Content-Length");
    if values != [] {
      assert LengthValue(values[0]);
      assert IsDigit(values[0][0]);
    }
  }

  /** Reordering lines of different names is invisible: if two well-formed blocks agree on the
      values of every name, both are accepted or neither, and every lookup is the same. */
  lemma ReorderingIsInvisible(a: seq<string>, b: seq<string>)
    requires WellFormed(a) && WellFormed(b)
    requires forall name :: Values(FieldsOf(a), name) == Values(FieldsOf(b), name)
    ensures ParseFields(a).Ok? <==> ParseFields(b).Ok?
    ensures ParseFields(a).Ok? ==>
      forall name :: Lookup(ParseFields(a).value, name) == Lookup(ParseFields(b).value, name)
  {
    hide ParseFields, FieldsOf, WellFormed, ContentLength, LengthIn, Lookup, DistinctNames;
    ParseMeaning(a);
    ParseMeaning(b);
    forall name ensures Combined(FieldsOf(a), name) == Combined(FieldsOf(b), name) {
      assert Values(FieldsOf(a), name) == Values(FieldsOf(b), name);
    }
  }

  /** Exchanging two neighbouring fields of different names changes no name's values. */
  lemma {:induction false} ExchangeKeepsValues(before: seq<Field>, f: Field, g: Field, after: seq<Field>, name: string)
    requires !SameName(f.name, g.name)
    ensures Values(before + [f, g] + after, name) == Values(before + [g, f] + after, name)
    decreases |after|
  {
    hide Lower;
    if after == [] {
      assert before + [f, g] + after == (before + [f]) + [g];
      assert before + [g, f] + after == (before + [g]) + [f];
      ValuesSnoc(before + [f], g, name);
      ValuesSnoc(before, f, name);
      ValuesSnoc(before + [g], f, name);
      ValuesSnoc(before, g, name);
    } else {
      var n := |after| - 1;
      ExchangeKeepsValues(before, f, g, after[..n], name);
      assert before + [f, g] + after == (before + [f, g] + after[..n]) + [after[n]];
      assert before + [g, f] + after == (before + [g, f] + after[..n]) + [after[n]];
      ValuesSnoc(before + [f, g] + after[..n], after[n], name);
      ValuesSnoc(before + [g, f] + after[..n], after[n], name);
    }
  }

  lemma {:induction false} FieldsOfConcat(a: seq<string>, b: seq<string>)
    requires WellFormed(a) && WellFormed(b)
    ensures WellFormed(a + b) && FieldsOf(a + b) == FieldsOf(a) + FieldsOf(b)
    decreases |a|
  {
    hide ParseLine;
    if a == [] {
      assert a + b == b;
    } else {
      FieldsOfConcat(a[1..], b);
      assert (a + b)[0] == a[0] && (a + b)[1..] == a[1..] + b;
    }
  }

  lemma WellFormedParts(before: seq<string>, x: string, y: string, after: seq<string>)
    ensures WellFormed(before + [x, y] + after) <==>
      WellFormed(before) && WellFormed([x]) && WellFormed([y]) && WellFormed(after)
  {
    hide ParseLine;
    var lines := before + [x, y] + after;
    assert forall i :: 0 <= i < |before| ==> before[i] == lines[i];
    assert forall i :: 0 <= i < |after| ==> after[i] == lines[|before| + 2 + i];
    assert lines[|before|] == x && lines[|before| + 1] == y && [x][0] == x && [y][0] == y;
  }

  lemma FieldsOfParts(before: seq<string>, x: string, y: string, after: seq<string>)
    requires WellFormed(before) && WellFormed([x]) && WellFormed([y]) && WellFormed(after)
    ensures WellFormed(before + [x, y] + after)
    ensures FieldsOf(before + [x, y] + after) == FieldsOf(before) + (FieldsOf([x]) + FieldsOf([y])) + FieldsOf(after)
  {
    hide WellFormed, FieldsOf;
    FieldsOfConcat([x], [y]);
    assert [x] + [y] == [x, y];
    FieldsOfConcat(before, [x, y]);
    FieldsOfConcat(before + [x, y], after);
  }

  lemma OneField(x: string)
    requires WellFormed([x])
    ensures x != "" ==> ParseLine(x).Ok?
    ensures FieldsOf([x]) == if x == "" then [] else [ParseLine(x).value]
  {
    assert [x][0] == x && [x][1..] == [];
  }

  /** Exchanging two neighbouring lines of different names changes neither whether the block is
      accepted nor any lookup; repeated, this is every reordering of lines of different names. */
  lemma ExchangeIsInvisible(before: seq<string>, x: string, y: string, after: seq<string>)
    requires ParseLine(x).Ok? && ParseLine(y).Ok? ==> !SameName(ParseLine(x).value.name, ParseLine(y).value.name)
    ensures var a, b := ParseFields(before + [x, y] + after), ParseFields(before + [y, x] + after);
      && (a.Ok? <==> b.Ok?)
      && (a.Ok? ==> forall name :: Lookup(a.value, name) == Lookup(b.value, name))
  {
    hide WellFormed, FieldsOf, ParseFields, ParseLine;
    var a, b := before + [x, y] + after, before + [y, x] + after;
    WellFormedParts(before, x, y, after);
    WellFormedParts(before, y, x, after);
    ParseMeaning(a);
    ParseMeaning(b);
    if WellFormed(a) {
      FieldsOfParts(before, x, y, after);
      FieldsOfParts(before, y, x, after);
      OneField(x);
      OneField(y);
      var fs, gs := FieldsOf(before), FieldsOf(after);
      forall name ensures Values(FieldsOf(a), name) == Values(FieldsOf(b), name) {
        if x != "" && y != "" {
          var f, g := ParseLine(x).value, ParseLine(y).value;
          assert [f] + [g] == [f, g] && [g] + [f] == [g, f];
          ExchangeKeepsValues(fs, f, g, gs, name);
        } else {
          assert FieldsOf([x]) + FieldsOf([y]) == FieldsOf([y]) + FieldsOf([x]);
        }
      }
      ReorderingIsInvisible(a, b);
    }
  }

  // ---------- the request line ----------

  predicate TargetFits(target: string) {
    target != "" && target[0] == '/' && forall i :: 0 <= i < |target| ==> target[i] > ' ' && target[i] as int != 0x7F
  }

  /** Path and query around the first question mark. */
  function SplitQuery(target: string): (string, string) {
    if target == [] then ("", "")
    else if target[0] == '?' then ("", target[1..])
    else var (path, query) := SplitQuery(target[1..]); ([target[0]] + path, query)
  }

  function ParseRequestLine(line: string): Result<RequestLine, ParseError> {
    var parts := Split(line, ' ');
    if |parts| != 3 || !Token(parts[0]) || !TargetFits(parts[1]) then Err(BadRequestLine)
    else if parts[2] != "HTTP/1.0" && parts[2] != "HTTP/1.1" then Err(UnsupportedVersion)
    else
      var (path, query) := SplitQuery(parts[1]);
      Ok(RequestLine(parts[0], parts[1], path, query, parts[2]))
  }

  lemma {:induction false} SplitQueryMeaning(target: string)
    ensures var (path, query) := SplitQuery(target);
      Free(path, '?') && (target == path + "?" + query || (target == path && query == ""))
  {
    if target != [] && target[0] != '?' {
      SplitQueryMeaning(target[1..]);
      var (path, query) := SplitQuery(target[1..]);
      assert target == [target[0]] + target[1..];
      assert [target[0]] + (path + "?" + query) == ([target[0]] + path) + "?" + query;
    }
  }

  function RequestLineText(r: RequestLine): string {
    r.verb + " " + (r.target + " " + r.version)
  }

  predicate WellSpaced(line: string, r: RequestLine) {
    && line == RequestLineText(r)
    && Token(r.verb) && TargetFits(r.target) && (r.version == "HTTP/1.0" || r.version == "HTTP/1.1")
  }

  lemma ThreeParts(a: string, b: string, c: string)
    requires Free(a, ' ') && Free(b, ' ') && Free(c, ' ')
    ensures Split(a + " " + (b + " " + c), ' ') == [a, b, c]
  {
    hide Split, Free;
    SplitCons(a, ' ', b + " " + c);
    SplitCons(b, ' ', c);
    SplitFree(c, ' ');
  }

  lemma WellSpacedSplits(line: string, r: RequestLine)
    requires WellSpaced(line, r)
    ensures Split(line, ' ') == [r.verb, r.target, r.version]
  {
    NoSpaces(r.verb, r.target);
    assert Free("HTTP/1.0", ' ') && Free("HTTP/1.1", ' ');
    hide Split, Token, TargetFits, Free;
    ThreeParts(r.verb, r.target, r.version);
  }

  /** A request line is exactly a token, a target and a supported version, one space apart. */
  lemma RequestLineMeaning(line: string, r: RequestLine)
    ensures ParseRequestLine(line) == Ok(r) <==> WellSpaced(line, r) && (r.path, r.query) == SplitQuery(r.target)
  {
    hide SplitQuery, Token, TargetFits, Split, Join;
    if ParseRequestLine(line) == Ok(r) {
      JoinSplit(line, ' ');
      JoinThree(Split(line, ' '));
    }
    if WellSpaced(line, r) {
      WellSpacedSplits(line, r);
    }
  }

  /** The target starts with a slash and has no byte up to the space and no DEL. */
  lemma RequestTarget(rest: string)
    ensures TargetFits("/" + rest) <==>
      forall i :: 0 <= i < |rest| ==> 0x21 <= rest[i] as int <= 0x7E || 0x80 <= rest[i] as int
    ensures !TargetFits("") && (rest != [] && rest[0] != '/' ==> !TargetFits(rest))
  {
    var target := "/" + rest;
    assert forall i :: 0 <= i < |rest| ==> target[i + 1] == rest[i];
    assert forall i :: 1 <= i < |target| ==> target[i] == rest[i - 1];
  }

  /** A refused request line either names another version and is right otherwise, or is bad. */
  lemma RequestLineErrors(line: string)
    ensures ParseRequestLine(line).Err? ==> ParseRequestLine(line).error in {BadRequestLine, UnsupportedVersion}
    ensures ParseRequestLine(line) == Err(UnsupportedVersion) <==>
      exists verb, target, version :: line == verb + " " + (target + " " + version) &&
        Token(verb) && TargetFits(target) && ' ' !in version && version != "HTTP/1.0" && version != "HTTP/1.1"
  {
    hide SplitQuery, Token, TargetFits, Split, Join;
    if ParseRequestLine(line) == Err(UnsupportedVersion) {
      var parts := Split(line, ' ');
      JoinSplit(line, ' ');
      JoinThree(parts);
      SplitPartsAreFree(line, ' ');
      assert line == parts[0] + " " + (parts[1] + " " + parts[2]) && ' ' !in parts[2];
    }
    forall verb, target, version | line == verb + " " + (target + " " + version) && Token(verb) &&
                                   TargetFits(target) && ' ' !in version
      ensures Split(line, ' ') == [verb, target, version]
    {
      NoSpaces(verb, target);
      ThreeParts(verb, target, version);
    }
  }

  lemma JoinThree(parts: seq<string>)
    requires |parts| == 3
    ensures Join(parts, " ") == parts[0] + " " + (parts[1] + " " + parts[2])
  {
    assert Join(parts[1..], " ") == parts[1] + " " + Join(parts[1..][1..], " ");
    assert Join(parts[1..][1..], " ") == parts[2];
  }

  lemma NoSpaces(verb: string, target: string)
    requires Token(verb) && TargetFits(target)
    ensures Free(verb, ' ') && Free(target, ' ')
  {
  }

  // ---------- whole requests ----------

  function ParseBlock(raw: string): Result<Request, ParseError> {
    match HeaderBlockComplete(raw)
    case None => Err(Incomplete)
    case Some(end) =>
      var lines := SplitLines(raw[..end - 4]);
      match ParseRequestLine(lines[0])
      case Err(e) => Err(e)
      case Ok(line) =>
        match ParseFields(lines[1..])
        case Err(e) => Err(e)
        case Ok(headers) => Ok(Request(line, headers))
  }

  /** A text is incomplete exactly when it has no empty line. */
  lemma IncompleteMeaning(raw: string)
    ensures ParseBlock(raw) == Err(Incomplete) <==> forall i: nat :: !BlankAt(raw, i)
  {
    hide ParseRequestLine, ParseFields, SplitLines, HeaderBlockComplete, BlankAt;
    FirstBlankLine(raw);
    if HeaderBlockComplete(raw).Some? {
      var lines := SplitLines(raw[..HeaderBlockComplete(raw).value - 4]);
      RequestLineErrors(lines[0]);
      NeverIncomplete(lines[1..]);
    }
  }

  lemma NeverIncomplete(lines: seq<string>)
    ensures ParseFields(lines) != Err(Incomplete)
  {
    LinesAreComplete(START, lines);
    hide OnLines;
  }

  lemma {:induction false} LinesAreComplete(st: State, lines: seq<string>)
    ensures OnLines(st, lines) != Err(Incomplete)
    decreases |lines|
  {
    if lines != [] {
      OneLineIsComplete(st, lines[0]);
      hide OnLine;
      if OnLine(st, lines[0]).Ok? {
        LinesAreComplete(OnLine(st, lines[0]).value, lines[1..]);
      }
    }
  }

  lemma OneLineIsComplete(st: State, line: string)
    ensures OnLine(st, line) != Err(Incomplete)
  {
    hide FieldOf, Token, FieldValue, Lower, Value, Combine;
  }

  /** A request on the wire. */
  function RequestWire(r: RequestLine, headers: seq<Field>, body: string): string {
    WireLines([RequestLineText(r)] + Map(FieldLine, headers)) + CRLF + body
  }

  predicate Printable(r: RequestLine, headers: seq<Field>) {
    && WellSpaced(RequestLineText(r), r) && (r.path, r.query) == SplitQuery(r.target)
    && (forall i :: 0 <= i < |headers| ==> Token(headers[i].name) && FieldValue(headers[i].value))
  }

  lemma RequestLineIsClean(r: RequestLine)
    requires WellSpaced(RequestLineText(r), r)
    ensures Clean(RequestLineText(r))
  {
    TokenIsPlain(r.verb);
    assert NoBreak(r.target) && NoBreak("HTTP/1.0") && NoBreak("HTTP/1.1") && NoBreak(" ");
  }

  lemma {:induction false} TrimLeftKeeps(s: string)
    ensures |TrimLeft(s)| <= |s| && TrimLeft(s) == s[|s| - |TrimLeft(s)|..]
  {
    if s != [] && Ows(s[0]) {
      TrimLeftKeeps(s[1..]);
    }
  }

  lemma {:induction false} TrimRightKeeps(s: string)
    ensures TrimRight(s) <= s
    decreases |s|
  {
    if s != [] && Ows(s[|s| - 1]) {
      TrimRightKeeps(s[..|s| - 1]);
    }
  }

  /** A printed field line is parsed as the field with its value trimmed. */
  lemma FieldLineParses(f: Field)
    requires Token(f.name) && FieldValue(f.value)
    ensures ParseLine(FieldLine(f)) == Ok(TrimmedField(f)) && FieldLine(f) != ""
  {
    FieldLineReads(f);
    TrimmedValueFits(f.value);
    assert FieldLine(f)[0] == f.name[0] && TokenByte(f.name[0]);
    hide FieldOf, FieldLine, FieldValue;
  }

  lemma TrimmedValueFits(value: string)
    requires FieldValue(value)
    ensures FieldValue(TrimOws(value))
  {
    TrimLeftKeeps(value);
    TrimRightKeeps(TrimLeft(value));
    var kept, from := TrimOws(value), |value| - |TrimLeft(value)|;
    assert forall i :: 0 <= i < |kept| ==> kept[i] == value[from + i];
  }

  lemma {:induction false} FieldLinesParse(headers: seq<Field>)
    requires forall i :: 0 <= i < |headers| ==> Token(headers[i].name) && FieldValue(headers[i].value)
    ensures WellFormed(Map(FieldLine, headers)) && FieldsOf(Map(FieldLine, headers)) == Map(TrimmedField, headers)
  {
    hide ParseLine, FieldLine, Token, FieldValue, TrimmedField;
    var lines := Map(FieldLine, headers);
    forall i | 0 <= i < |lines| ensures ParseLine(lines[i]) == Ok(TrimmedField(headers[i])) && lines[i] != "" {
      FieldLineParses(headers[i]);
    }
    if headers != [] {
      FieldLinesParse(headers[1..]);
      assert lines[1..] == Map(FieldLine, headers[1..]);
      assert Map(TrimmedField, headers) == [TrimmedField(headers[0])] + Map(TrimmedField, headers[1..]);
    }
  }

  /** Fields of names not seen before are taken over one by one. */
  lemma {:induction false} DistinctFieldsAreTaken(st: State, done: seq<Field>, headers: seq<Field>)
    requires Inv(st, done) && DistinctNames(st.headers + headers)
    requires forall i :: 0 <= i < |headers| ==>
      Token(headers[i].name) && FieldValue(headers[i].value) && TrimmedField(headers[i]) == headers[i]
    requires OnLines(st, Map(FieldLine, headers)).Ok?
    ensures OnLines(st, Map(FieldLine, headers)).value.headers == st.headers + headers
    decreases |headers|
  {
    hide Inv, OnField, ParseLine, FieldLine, Token, FieldValue, TrimmedField, SameName;
    if headers != [] {
      var f, rest := headers[0], headers[1..];
      FieldLineParses(f);
      assert Map(FieldLine, headers)[1..] == Map(FieldLine, rest);
      FieldStep(st, done, f);
      NewFieldIsAppended(st, done, f, headers);
      assert st.headers + headers == (st.headers + [f]) + rest;
      DistinctFieldsAreTaken(OnField(st, f).value, done + [f], rest);
    } else {
      assert st.headers + headers == st.headers;
    }
  }

  lemma NewFieldIsAppended(st: State, done: seq<Field>, f: Field, headers: seq<Field>)
    requires Inv(st, done) && OnField(st, f).Ok? && headers != [] && headers[0] == f
    requires DistinctNames(st.headers + headers)
    ensures OnField(st, f).value.headers == st.headers + [f]
  {
    hide Lower, Values;
    forall i | 0 <= i < |st.headers| ensures !SameName(st.headers[i].name, f.name) {
      assert (st.headers + headers)[i] == st.headers[i] && (st.headers + headers)[|st.headers|] == f;
    }
    CombineAppends(st.headers, f);
    LookupNone(st.headers, f.name);
    assert Lookup(st.headers, f.name) == Combined(done, f.name);
    if SameName(f.name, "Content-Length") {
      SameValues(done, f.name, "Content-Length");
    }
  }

  /** A printed request is parsed back: the block ends where it was ended and the rest is the
      body; it is accepted exactly when its fields are acceptable together; and then line and
      values are those that were printed, the length is the printed number, and the fields are
      those printed when no name is repeated. */
  lemma RequestRoundTrip(r: RequestLine, headers: seq<Field>, body: string)
    requires Printable(r, headers)
    ensures var wire := RequestWire(r, headers, body);
      var end, parsed, fields := HeaderBlockComplete(wire), ParseBlock(wire), Map(TrimmedField, headers);
      && end.Some? && wire[end.value..] == body
      && (parsed.Ok? <==> Acceptable(fields))
      && (parsed.Ok? ==> parsed.value.line == r && DistinctNames(parsed.value.headers) &&
                         forall name :: Lookup(parsed.value.headers, name) == Combined(fields, name))
      && (parsed.Ok? ==> forall i, n: nat ::
            0 <= i < |headers| && SameName(headers[i].name, "Content-Length") && headers[i].value == Decimal(n) ==>
              ContentLength(parsed.value.headers) == Some(n))
      && (parsed.Ok? && DistinctNames(headers) && fields == headers ==> parsed.value.headers == headers)
  {
    hide ParseFields, ParseRequestLine, SplitLines, HeaderBlockComplete, WireLines, FieldLine, RequestLineText,
      Acceptable, Clean, WellSpaced, TrimmedField, Token, FieldValue, LengthIn, Lower, ContentLength, Decimal;
    var lines := [RequestLineText(r)] + Map(FieldLine, headers);
    RequestLineIsClean(r);
    forall i | 0 <= i < |lines| ensures Clean(lines[i]) {
      if i > 0 { FieldLineIsClean(headers[i - 1]); }
    }
    CleanBlockSplits(lines, body);
    RequestLineMeaning(RequestLineText(r), r);
    assert lines[0] == RequestLineText(r) && lines[1..] == Map(FieldLine, headers);
    FieldLinesParse(headers);
    ParseMeaning(lines[1..]);
    if ParseFields(lines[1..]).Ok? {
      forall i, n: nat | 0 <= i < |headers| && SameName(headers[i].name, "Content-Length") &&
                         headers[i].value == Decimal(n)
        ensures Unrefused(Map(TrimmedField, headers)) && LengthIn(Map(TrimmedField, headers)) == Some(n)
      {
        PrintedLength(headers, i, n);
      }
    }
    if ParseFields(lines[1..]).Ok? && DistinctNames(headers) && Map(TrimmedField, headers) == headers {
      DistinctHeadersAreKept(headers);
    }
  }

  lemma PrintedLength(headers: seq<Field>, i: nat, n: nat)
    requires Acceptable(Map(TrimmedField, headers))
    requires i < |headers| && SameName(headers[i].name, "Content-Length") && headers[i].value == Decimal(n)
    ensures Unrefused(Map(TrimmedField, headers)) && LengthIn(Map(TrimmedField, headers)) == Some(n)
  {
    hide Values, Lower, Decimal, Value;
    var fields := Map(TrimmedField, headers);
    TrimDecimal(n);
    ValueOfDecimal(n);
    var k := ValuesHold(fields, i, "Content-Length");
    var values := Values(fields, "Content-Length");
    assert k > 0 ==> Value(values[0]) == Value(values[k]);
  }

  lemma TrimDecimal(n: nat)
    ensures TrimOws(Decimal(n)) == Decimal(n)
  {
    assert IsDigit(Decimal(n)[0]) && IsDigit(Decimal(n)[|Decimal(n)| - 1]);
  }

  /** The value of a field is among the values of its name. */
  lemma {:induction false} ValuesHold(fields: seq<Field>, i: nat, name: string) returns (k: nat)
    requires i < |fields| && SameName(fields[i].name, name)
    ensures k < |Values(fields, name)| && Values(fields, name)[k] == fields[i].value
    decreases |fields|
  {
    hide Lower;
    var n := |fields| - 1;
    if i < n {
      k := ValuesHold(fields[..n], i, name);
    } else {
      k := |Values(fields[..n], name)|;
    }
  }

  lemma CleanBlockSplits(lines: seq<string>, body: string)
    requires lines != [] && forall i :: 0 <= i < |lines| ==> Clean(lines[i])
    ensures var wire := WireLines(lines) + CRLF + body;
      var k := HeaderBlockComplete(wire);
      k.Some? && 4 <= k.value <= |wire| && SplitLines(wire[..k.value - 4]) == lines && wire[k.value..] == body
  {
    BlockSplits(lines, body);
  }

  lemma DistinctHeadersAreKept(headers: seq<Field>)
    requires DistinctNames(headers) && Map(TrimmedField, headers) == headers
    requires forall i :: 0 <= i < |headers| ==> Token(headers[i].name) && FieldValue(headers[i].value)
    requires ParseFields(Map(FieldLine, headers)).Ok?
    ensures ParseFields(Map(FieldLine, headers)).value == headers
  {
    hide OnLines, Token, FieldValue, TrimmedField, FieldLine;
    StartInv();
    assert START.headers + headers == headers;
    assert forall i :: 0 <= i < |headers| ==> TrimmedField(headers[i]) == Map(TrimmedField, headers)[i];
    DistinctFieldsAreTaken(START, [], headers);
  }

  // ---------- the program ----------

  lemma {:induction false} CombineAt(headers: seq<Field>, f: Field, first: nat)
    requires first < |headers| && SameName(headers[first].name, f.name)
    requires forall i :: 0 <= i < first ==> !SameName(headers[i].name, f.name)
    ensures Combine(headers, f) == headers[first := headers[first].(value := headers[first].value + ", " + f.value)]
  {
    hide SameName;
    if first > 0 {
      CombineAt(headers[1..], f, first - 1);
      assert headers == [headers[0]] + headers[1..];
    }
  }

  lemma {:induction false} CombineAppends(headers: seq<Field>, f: Field)
    requires forall i :: 0 <= i < |headers| ==> !SameName(headers[i].name, f.name)
    ensures Combine(headers, f) == headers + [f]
  {
    hide SameName;
    if headers != [] {
      CombineAppends(headers[1..], f);
    }
  }

  /** Append to an existing field in place, or push a new one. */
  method CombineInto(headers: seq<Field>, f: Field) returns (out: seq<Field>)
    ensures out == Combine(headers, f)
  {
    hide SameName, Combine;
    for i := 0 to |headers|
      invariant forall k :: 0 <= k < i ==> !SameName(headers[k].name, f.name)
    {
      if SameName(headers[i].name, f.name) {
        CombineAt(headers, f, i);
        return headers[i := headers[i].(value := headers[i].value + ", " + f.value)];
      }
    }
    CombineAppends(headers, f);
    return headers + [f];
  }

  method ParseFieldLines(lines: seq<string>) returns (r: Result<seq<Field>, ParseError>)
    ensures r == ParseFields(lines)
  {
    hide SameName, FieldOf, Token, FieldValue, Combine, Value, AllDigits;
    var headers: seq<Field> := [];
    var contentLength: Option<nat> := None;
    var transferEncoding, hostSeen, soapActionSeen := false, false, false;
    assert lines[0..] == lines;
    for i := 0 to |lines|
      invariant OnLines(START, lines) ==
        OnLines(State(headers, contentLength, transferEncoding, hostSeen, soapActionSeen), lines[i..])
    {
      var line := lines[i];
      assert lines[i..][1..] == lines[i + 1..];
      ghost var st := State(headers, contentLength, transferEncoding, hostSeen, soapActionSeen);
      if line == "" {
        continue;
      }
      if line[0] == ' ' || line[0] == '\t' {
        return Err(ObsoleteFold);
      }
      var split := FieldOf(line);
      if split.None? {
        return Err(MalformedHeader);
      }
      var f := split.value;
      if !Token(f.name) {
        return Err(InvalidHeaderName);
      }
      if !FieldValue(f.value) {
        return Err(InvalidHeaderValue);
      }
      assert OnLine(st, line) == OnField(st, f);
      if SameName(f.name, "Content-Length") {
        if f.value == "" || !AllDigits(f.value) || Value(f.value) > USIZE_MAX {
          return Err(InvalidContentLength);
        }
        if contentLength.Some? && contentLength.value != Value(f.value) {
          return Err(ConflictingContentLength);
        }
        if contentLength.None? {
          contentLength := Some(Value(f.value));
          headers := headers + [f];
        }
        continue;
      }
      if SameName(f.name, "Transfer-Encoding") {
        transferEncoding := true;
      }
      NamesDiffer(f.name);
      if SameName(f.name, "Host") {
        if hostSeen {
          return Err(DuplicateHost);
        }
        hostSeen := true;
      }
      if SameName(f.name, "SOAPAction") {
        if soapActionSeen {
          return Err(DuplicateSoapAction);
        }
        soapActionSeen := true;
      }
      headers := CombineInto(headers, f);
    }
    assert lines[|lines|..] == [];
    if transferEncoding && contentLength.Some? {
      return Err(TransferEncodingWithContentLength);
    }
    if transferEncoding {
      return Err(UnsupportedTransferEncoding);
    }
    return Ok(headers);
  }

  method ParseHeaders(raw: string) returns (r: Result<Request, ParseError>)
    ensures r == ParseBlock(raw)
    ensures r.Ok? ==> DistinctNames(r.value.headers)
  {
    hide SplitLines, ParseRequestLine, ParseFields;
    var end := HeaderBlockComplete(raw);
    if end.None? {
      return Err(Incomplete);
    }
    var lines := SplitLines(raw[..end.value - 4]);
    var line := ParseRequestLine(lines[0]);
    if line.Err? {
      return Err(line.error);
    }
    var headers := ParseFieldLines(lines[1..]);
    if headers.Err? {
      return Err(headers.error);
    }
    ParseMeaning(lines[1..]);
    return Ok(Request(line.value, headers.value));
  }
}
