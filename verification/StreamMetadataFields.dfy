/** Escaping a field and reading it back, and what a record's fields can hold. */
module StreamMetadataFields {
  import opened Text
  import opened StreamMetadata
  import Utf8

  /** The bytes an escaped field is made of: neither a comma, a colon nor a bar. */
  predicate Escaped(s: string) {
    forall i :: 0 <= i < |s| ==> Literal(s[i]) || s[i] == '%'
  }

  lemma {:induction false} EncodeFieldIsEscaped(s: string)
    requires Bytes(s)
    ensures Escaped(EncodeField(s))
  {
    if s != [] {
      EncodeFieldIsEscaped(s[1..]);
    }
  }

  lemma HexRoundTrip(n: nat)
    requires n < 16
    ensures HexValue(HexDigit(n)) == Some(n)
  {
  }

  /** One escaped byte in front of any text is read back as that byte. */
  lemma UnescapeByte(c: char, rest: string)
    requires IsByte(c)
    ensures Unescape(EncodeByte(c) + rest) == Prepend(c, Unescape(rest))
  {
    assert !Literal('%');
    hide HexValue, HexDigit, Literal;
    var s := EncodeByte(c) + rest;
    if Literal(c) {
      assert s[1..] == rest;
    } else {
      var high, low := c as int / 16, c as int % 16;
      HexRoundTrip(high);
      HexRoundTrip(low);
      assert s[0] == '%' && s[1] == HexDigit(high) && s[2] == HexDigit(low) && s[3..] == rest;
      assert ((high * 16 + low) % 0x100) as char == c;
    }
  }

  /** Unescaping inverts escaping on every byte string, valid UTF-8 or not. */
  lemma {:induction false} UnescapeEncode(s: string)
    requires Bytes(s)
    ensures Unescape(EncodeField(s)) == Ok(s)
  {
    if s != [] {
      UnescapeByte(s[0], EncodeField(s[1..]));
      UnescapeEncode(s[1..]);
      assert s == [s[0]] + s[1..];
    }
  }

  lemma {:induction false} NoPercentMeansUnchanged(s: string)
    requires Bytes(s) && '%' !in EncodeField(s)
    ensures EncodeField(s) == s && forall i :: 0 <= i < |s| ==> Literal(s[i])
  {
    if s != [] {
      assert EncodeByte(s[0])[0] in EncodeField(s);
      NoPercentMeansUnchanged(s[1..]);
      assert s == [s[0]] + s[1..];
    }
  }

  lemma {:induction false} LiteralTextIsValid(s: string)
    requires forall i :: 0 <= i < |s| ==> Literal(s[i])
    ensures Utf8.Valid(s)
  {
    if s != [] {
      LiteralTextIsValid(s[1..]);
      assert Utf8.ScalarLength(s) == 1;
    }
  }

  /** Decoding inverts encoding exactly on valid UTF-8, and says so otherwise. */
  lemma DecodeEncode(s: string)
    requires Bytes(s)
    ensures DecodeField(EncodeField(s)) == if Utf8.Valid(s) then Ok(s) else Err(InvalidUtf8)
  {
    UnescapeEncode(s);
    if '%' !in EncodeField(s) {
      NoPercentMeansUnchanged(s);
      LiteralTextIsValid(s);
    }
  }

  /** Without a percent byte nothing is rewritten, so the early return changes no answer. */
  lemma {:induction false} UnescapePlain(s: string)
    requires '%' !in s
    ensures Unescape(s) == Ok(s)
  {
    if s != [] {
      UnescapePlain(s[1..]);
      assert s == [s[0]] + s[1..];
    }
  }

  /** A written label is read as it was given; an empty one as absent. */
  lemma DecodeOptionalEncode(s: string)
    requires Str(s)
    ensures DecodeOptional(Some(EncodeField(s))) == if s == "" then Ok(None) else Ok(Some(s))
  {
    DecodeEncode(s);
  }

  // ---------- the loops of the program ----------

  function PrependAll(decoded: string, rest: Result<string, FieldError>): Result<string, FieldError> {
    match rest case Ok(t) => Ok(decoded + t) case Err(e) => Err(e)
  }

  lemma PrependStep(decoded: string, c: char, rest: Result<string, FieldError>)
    ensures PrependAll(decoded + [c], rest) == PrependAll(decoded, Prepend(c, rest))
  {
    if rest.Ok? {
      assert decoded + [c] + rest.value == decoded + ([c] + rest.value);
    }
  }

  lemma PrependNothing(decoded: string, rest: Result<string, FieldError>)
    ensures PrependAll("", rest) == rest
    ensures PrependAll(decoded, Unescape("")) == Ok(decoded)
  {
    if rest.Ok? {
      assert "" + rest.value == rest.value;
    }
    assert decoded + "" == decoded;
  }

  lemma EncodeStep(encoded: string, value: string, i: nat)
    requires Bytes(value) && i < |value|
    ensures encoded + EncodeByte(value[i]) + EncodeField(value[i + 1..]) == encoded + EncodeField(value[i..])
  {
    assert value[i..][1..] == value[i + 1..];
    var head, tail := EncodeByte(value[i]), EncodeField(value[i + 1..]);
    assert encoded + head + tail == encoded + (head + tail);
  }

  method EncodeCompactStreamField(value: string) returns (encoded: string)
    requires Bytes(value)
    ensures encoded == EncodeField(value)
    ensures DecodeField(encoded) == if Utf8.Valid(value) then Ok(value) else Err(InvalidUtf8)
  {
    hide Utf8.Valid, EncodeField, EncodeByte, DecodeField;
    encoded := "";
    assert value[0..] == value;
    for i := 0 to |value|
      invariant encoded + EncodeField(value[i..]) == EncodeField(value)
    {
      EncodeStep(encoded, value, i);
      encoded := encoded + EncodeByte(value[i]);
    }
    EncodeEmpty();
    DecodeEncode(value);
  }

  lemma EncodeEmpty()
    ensures EncodeField("") == ""
  {
  }

  method DecodeCompactStreamField(value: string) returns (r: Result<string, FieldError>)
    ensures r == DecodeField(value)
  {
    hide Utf8.Valid;
    if '%' !in value {
      return Ok(value);
    }
    var decoded := "";
    var index := 0;
    assert value[0..] == value;
    PrependNothing("", Unescape(value));
    while index < |value|
      invariant index <= |value|
      invariant PrependAll(decoded, Unescape(value[index..])) == Unescape(value)
    {
      ghost var rest := value[index..];
      if value[index] == '%' && index + 2 < |value| {
        assert rest[3..] == value[index + 3..];
        var high := HexValue(value[index + 1]);
        if high.None? {
          return Err(InvalidEscape);
        }
        var low := HexValue(value[index + 2]);
        if low.None? {
          return Err(InvalidEscape);
        }
        var c := ((high.value * 16 + low.value) % 0x100) as char;
        PrependStep(decoded, c, Unescape(rest[3..]));
        decoded := decoded + [c];
        index := index + 3;
      } else {
        assert rest[1..] == value[index + 1..];
        PrependStep(decoded, value[index], Unescape(rest[1..]));
        decoded := decoded + [value[index]];
        index := index + 1;
      }
    }
    PrependNothing(decoded, Ok(""));
    r := if Utf8.Valid(decoded) then Ok(decoded) else Err(InvalidUtf8);
  }
}
