/** UTF-8 as defined by RFC 3629: the well-formed byte sequences and their scalar values. */
module Utf8 {
  import opened Text

  predicate In(c: char, low: int, high: int) {
    low <= c as int <= high
  }

  predicate Continuation(c: char) {
    In(c, 0x80, 0xBF)
  }

  /** Byte length of the scalar value a string starts with; 0 when it starts with none. */
  function ScalarLength(s: string): (n: nat)
    ensures n <= |s|
    ensures n > 0 ==> forall i :: 0 <= i < n ==> s[i] as int < 0x100
  {
    if |s| >= 1 && In(s[0], 0, 0x7F) then 1
    else if |s| >= 2 && In(s[0], 0xC2, 0xDF) && Continuation(s[1]) then 2
    else if |s| >= 3 && LeadsThree(s[0], s[1]) && Continuation(s[2]) then 3
    else if |s| >= 4 && LeadsFour(s[0], s[1]) && Continuation(s[2]) && Continuation(s[3]) then 4
    else 0
  }

  predicate LeadsThree(a: char, b: char) {
    || (In(a, 0xE0, 0xE0) && In(b, 0xA0, 0xBF))
    || (In(a, 0xE1, 0xEC) && Continuation(b))
    || (In(a, 0xED, 0xED) && In(b, 0x80, 0x9F))
    || (In(a, 0xEE, 0xEF) && Continuation(b))
  }

  predicate LeadsFour(a: char, b: char) {
    || (In(a, 0xF0, 0xF0) && In(b, 0x90, 0xBF))
    || (In(a, 0xF1, 0xF3) && Continuation(b))
    || (In(a, 0xF4, 0xF4) && In(b, 0x80, 0x8F))
  }

  /** Well-formed UTF-8: what a `&str` holds and `String::from_utf8` accepts. */
  predicate Valid(s: string)
    decreases |s|
  {
    s == [] || (ScalarLength(s) > 0 && Valid(s[ScalarLength(s)..]))
  }

  function ScalarCount(s: string): nat
    requires Valid(s)
    decreases |s|
  {
    if s == [] then 0 else 1 + ScalarCount(s[ScalarLength(s)..])
  }

  /** `chars().take(limit).collect()`. */
  function TakeScalars(s: string, limit: nat): string
    requires Valid(s)
    decreases |s|
  {
    if s == [] || limit == 0 then []
    else s[..ScalarLength(s)] + TakeScalars(s[ScalarLength(s)..], limit - 1)
  }

  /** Every byte of well-formed text is a byte. */
  lemma {:induction false} ValidIsBytes(s: string)
    requires Valid(s)
    ensures forall i :: 0 <= i < |s| ==> s[i] as int < 0x100
    decreases |s|
  {
    if s != [] {
      var n := ScalarLength(s);
      ValidIsBytes(s[n..]);
      forall i | 0 <= i < |s| ensures s[i] as int < 0x100 {
        if i >= n { assert s[i] == s[n..][i - n]; }
      }
    }
  }

  /** A scalar's length depends on its own bytes only. */
  lemma ScalarLengthIsLocal(s: string, rest: string)
    requires ScalarLength(s) > 0
    ensures ScalarLength(s[..ScalarLength(s)] + rest) == ScalarLength(s)
  {
    var t := s[..ScalarLength(s)] + rest;
    assert forall i :: 0 <= i < ScalarLength(s) ==> t[i] == s[i];
  }

  /** Validity, counting and cutting all go one scalar at a time. */
  lemma FirstScalar(a: string, rest: string)
    requires a != [] && ScalarLength(a + rest) == |a|
    ensures Valid(a + rest) == Valid(rest)
    ensures Valid(rest) ==> ScalarCount(a + rest) == 1 + ScalarCount(rest)
    ensures Valid(rest) ==> forall limit: nat :: limit > 0 ==>
      TakeScalars(a + rest, limit) == a + TakeScalars(rest, limit - 1)
  {
    assert (a + rest)[|a|..] == rest && (a + rest)[..|a|] == a;
  }

  /** Cutting after whole scalars keeps the text well-formed, keeps exactly the first ones,
      and changes nothing that is short enough. */
  lemma {:induction false} TakeScalarsCuts(s: string, limit: nat)
    requires Valid(s)
    ensures TakeScalars(s, limit) <= s
    ensures Valid(TakeScalars(s, limit))
    ensures ScalarCount(TakeScalars(s, limit)) ==
      if ScalarCount(s) <= limit then ScalarCount(s) else limit
    ensures ScalarCount(s) <= limit ==> TakeScalars(s, limit) == s
    decreases |s|
  {
    if s != [] && limit > 0 {
      var a, b := s[..ScalarLength(s)], s[ScalarLength(s)..];
      assert s == a + b;
      TakeScalarsCuts(b, limit - 1);
      ScalarLengthIsLocal(s, TakeScalars(b, limit - 1));
      CutsStep(a, b, limit);
    }
  }

  lemma CutsStep(a: string, b: string, limit: nat)
    requires a != [] && limit > 0 && Valid(b) && ScalarLength(a + b) == |a|
    requires ScalarLength(a + TakeScalars(b, limit - 1)) == |a|
    requires TakeScalars(b, limit - 1) <= b && Valid(TakeScalars(b, limit - 1))
    ensures Valid(a + b) && TakeScalars(a + b, limit) == a + TakeScalars(b, limit - 1)
    ensures Valid(a + TakeScalars(b, limit - 1))
    ensures ScalarCount(a + b) == 1 + ScalarCount(b)
    ensures ScalarCount(a + TakeScalars(b, limit - 1)) == 1 + ScalarCount(TakeScalars(b, limit - 1))
  {
    FirstScalar(a, b);
    FirstScalar(a, TakeScalars(b, limit - 1));
  }

  // ---------- against the encoding of scalar values ----------

  /** The Unicode scalar values: every code point but the surrogates. */
  predicate Scalar(u: int) {
    0 <= u <= 0xD7FF || 0xE000 <= u <= 0x10FFFF
  }

  function Byte(n: int): char
    requires 0 <= n < 0x100
  {
    n as char
  }

  /** The bits of a scalar value, six to a continuation byte. */
  function Encode(u: int): (s: string)
    requires Scalar(u)
    ensures 1 <= |s| <= 4
  {
    if u < 0x80 then [Byte(u)]
    else if u < 0x800 then [Byte(0xC0 + u / 0x40), Byte(0x80 + u % 0x40)]
    else if u < 0x1_0000 then [Byte(0xE0 + u / 0x1000), Byte(0x80 + u / 0x40 % 0x40), Byte(0x80 + u % 0x40)]
    else [Byte(0xF0 + u / 0x4_0000), Byte(0x80 + u / 0x1000 % 0x40), Byte(0x80 + u / 0x40 % 0x40),
          Byte(0x80 + u % 0x40)]
  }

  predicate Scalars(us: seq<int>) {
    forall i :: 0 <= i < |us| ==> Scalar(us[i])
  }

  function EncodeAll(us: seq<int>): string
    requires Scalars(us)
  {
    if us == [] then [] else Encode(us[0]) + EncodeAll(us[1..])
  }

  /** The bytes of an encoding lead and continue as the length says. */
  lemma EncodedShape(u: int)
    requires Scalar(u)
    ensures var e := Encode(u);
      && (|e| == 1 ==> In(e[0], 0, 0x7F))
      && (|e| == 2 ==> In(e[0], 0xC2, 0xDF) && Continuation(e[1]))
      && (|e| == 3 ==> LeadsThree(e[0], e[1]) && Continuation(e[2]))
      && (|e| == 4 ==> LeadsFour(e[0], e[1]) && Continuation(e[2]) && Continuation(e[3]))
  {
    if 0x800 <= u < 0x1_0000 {
      ThreeShape(u);
    } else if u >= 0x1_0000 {
      FourShape(u);
    }
  }

  lemma ThreeShape(u: int)
    requires Scalar(u) && 0x800 <= u < 0x1_0000
    ensures LeadsThree(Encode(u)[0], Encode(u)[1]) && Continuation(Encode(u)[2])
  {
    var a, b := u / 0x1000, u / 0x40 % 0x40;
    assert u / 0x40 == a * 0x40 + b;
  }

  lemma FourShape(u: int)
    requires Scalar(u) && 0x1_0000 <= u
    ensures LeadsFour(Encode(u)[0], Encode(u)[1]) && Continuation(Encode(u)[2]) && Continuation(Encode(u)[3])
  {
    var a, b := u / 0x4_0000, u / 0x1000 % 0x40;
    assert u / 0x1000 == a * 0x40 + b;
  }

  lemma EncodedLength(u: int, rest: string)
    requires Scalar(u)
    ensures ScalarLength(Encode(u) + rest) == |Encode(u)|
  {
    EncodedShape(u);
    hide Encode, Scalar;
    var e := Encode(u);
    assert forall i :: 0 <= i < |e| ==> (e + rest)[i] == e[i];
  }

  lemma Digits(a: int, b: int, c: int, d: int)
    requires 0 <= a && 0 <= b < 0x40 && 0 <= c < 0x40 && 0 <= d < 0x40
    ensures var u := a * 0x4_0000 + b * 0x1000 + c * 0x40 + d;
      && u / 0x4_0000 == a && u / 0x1000 % 0x40 == b && u / 0x1000 == a * 0x40 + b
      && u / 0x40 % 0x40 == c && u % 0x40 == d && u / 0x40 == a * 0x1000 + b * 0x40 + c
  {
    By64(a * 0x1000 + b * 0x40 + c, d);
    By64(a * 0x40 + b, c);
    By64(a, b);
    By4096(a * 0x40 + b, c * 0x40 + d);
    By262144(a, b * 0x1000 + c * 0x40 + d);
  }

  lemma By64(w: int, r: int)
    requires 0 <= r < 0x40
    ensures (w * 0x40 + r) / 0x40 == w && (w * 0x40 + r) % 0x40 == r
  {
  }

  lemma By4096(w: int, r: int)
    requires 0 <= r < 0x1000
    ensures (w * 0x1000 + r) / 0x1000 == w
  {
  }

  lemma By262144(w: int, r: int)
    requires 0 <= r < 0x4_0000
    ensures (w * 0x4_0000 + r) / 0x4_0000 == w
  {
  }

  /** What starts with a scalar starts with the encoding of one. */
  lemma FirstIsEncoded(s: string) returns (u: int)
    requires ScalarLength(s) > 0
    ensures Scalar(u) && s[..ScalarLength(s)] == Encode(u)
  {
    var n := ScalarLength(s);
    if n == 1 {
      u := s[0] as int;
    } else if n == 2 {
      u := TwoBytes(s[0], s[1]);
    } else if n == 3 {
      u := ThreeBytes(s[0], s[1], s[2]);
    } else {
      u := FourBytes(s[0], s[1], s[2], s[3]);
    }
  }

  lemma TwoBytes(a: char, b: char) returns (u: int)
    requires In(a, 0xC2, 0xDF) && Continuation(b)
    ensures Scalar(u) && [a, b] == Encode(u)
  {
    u := (a as int - 0xC0) * 0x40 + (b as int - 0x80);
  }

  lemma ThreeBytes(a: char, b: char, c: char) returns (u: int)
    requires LeadsThree(a, b) && Continuation(c)
    ensures Scalar(u) && [a, b, c] == Encode(u)
  {
    Digits(0, a as int - 0xE0, b as int - 0x80, c as int - 0x80);
    u := (a as int - 0xE0) * 0x1000 + (b as int - 0x80) * 0x40 + (c as int - 0x80);
  }

  lemma FourBytes(a: char, b: char, c: char, d: char) returns (u: int)
    requires LeadsFour(a, b) && Continuation(c) && Continuation(d)
    ensures Scalar(u) && [a, b, c, d] == Encode(u)
  {
    Digits(a as int - 0xF0, b as int - 0x80, c as int - 0x80, d as int - 0x80);
    u := (a as int - 0xF0) * 0x4_0000 + (b as int - 0x80) * 0x1000 + (c as int - 0x80) * 0x40 + (d as int - 0x80);
  }

  /** Well-formed text is exactly a sequence of encoded scalar values; it counts as many, and a
      cut keeps the first of them. */
  lemma {:induction false} EncodedIsValid(us: seq<int>, limit: nat)
    requires Scalars(us)
    ensures Valid(EncodeAll(us)) && ScalarCount(EncodeAll(us)) == |us|
    ensures TakeScalars(EncodeAll(us), limit) == EncodeAll(Take(us, limit))
  {
    hide Encode;
    if us != [] {
      var a, rest := Encode(us[0]), us[1..];
      EncodedLength(us[0], EncodeAll(rest));
      EncodedIsValid(rest, if limit == 0 then 0 else limit - 1);
      FirstScalar(a, EncodeAll(rest));
      if limit > 0 {
        assert Take(us, limit)[0] == us[0] && Take(us, limit)[1..] == Take(rest, limit - 1);
      }
    }
  }

  lemma {:induction false} ValidIsEncoded(s: string) returns (us: seq<int>)
    requires Valid(s)
    ensures Scalars(us) && s == EncodeAll(us)
    decreases |s|
  {
    us := [];
    if s != [] {
      var u := FirstIsEncoded(s);
      var rest := ValidIsEncoded(s[ScalarLength(s)..]);
      us := [u] + rest;
      assert us[1..] == rest;
    }
  }

  /** The code points of the Unicode property White_Space. */
  predicate WhiteSpace(u: int) {
    || 0x09 <= u <= 0x0D || u == 0x20 || u == 0x85 || u == 0xA0 || u == 0x1680
    || 0x2000 <= u <= 0x200A || u == 0x2028 || u == 0x2029 || u == 0x202F || u == 0x205F || u == 0x3000
  }

  lemma WhiteSpaceOfTwo(u: int)
    requires 0x80 <= u < 0x800
    ensures WhiteSpace(u) <==> TwoByteSpace(Encode(u)[0], Encode(u)[1])
  {
  }

  lemma WhiteSpaceOfThree(u: int)
    requires 0x800 <= u < 0x1_0000 && Scalar(u)
    ensures WhiteSpace(u) <==> ThreeByteSpace(Encode(u)[0], Encode(u)[1], Encode(u)[2])
  {
    var a, b, c := u / 0x1000, u / 0x40 % 0x40, u % 0x40;
    assert u == a * 0x1000 + b * 0x40 + c;
  }

  /** The bytes behind a lead byte are continuation bytes. */
  lemma EncodedBytes(u: int)
    requires Scalar(u)
    ensures u < 0x80 <==> |Encode(u)| == 1
    ensures u < 0x80 ==> Encode(u)[0] as int == u
    ensures u >= 0x80 ==> Encode(u)[0] as int >= 0xC0
    ensures forall i :: 1 <= i < |Encode(u)| ==> 0x80 <= Encode(u)[i] as int < 0xC0
    ensures |Encode(u)| == 2 <==> 0x80 <= u < 0x800
    ensures |Encode(u)| == 3 <==> 0x800 <= u < 0x1_0000
    ensures |Encode(u)| == 4 ==> Encode(u)[0] as int >= 0xF0
  {
  }

  lemma LeadingOf(u: int, s: string)
    requires Scalar(u)
    ensures LeadingSpace(Encode(u) + s) == if WhiteSpace(u) then |Encode(u)| else 0
  {
    EncodedBytes(u);
    if 0x80 <= u < 0x800 {
      WhiteSpaceOfTwo(u);
    } else if 0x800 <= u < 0x1_0000 {
      WhiteSpaceOfThree(u);
    }
    hide Encode, Scalar;
    var e := Encode(u);
    assert forall i :: 0 <= i < |e| ==> (e + s)[i] == e[i];
  }

  lemma TrailingOf(u: int, s: string)
    requires Scalar(u)
    ensures TrailingSpace(s + Encode(u)) == if WhiteSpace(u) then |Encode(u)| else 0
  {
    EncodedBytes(u);
    if 0x80 <= u < 0x800 {
      WhiteSpaceOfTwo(u);
    } else if 0x800 <= u < 0x1_0000 {
      WhiteSpaceOfThree(u);
    }
    hide Encode, Scalar;
    var e := Encode(u);
    TrailingBytes(s, e);
  }

  /** Only bytes of the last scalar decide. */
  lemma TrailingBytes(s: string, e: string)
    requires 1 <= |e| <= 4 && (|e| == 1 <==> e[0] as int < 0x80) && (|e| > 1 ==> e[0] as int >= 0xC0)
    requires forall i :: 1 <= i < |e| ==> 0x80 <= e[i] as int < 0xC0
    ensures TrailingSpace(s + e) ==
      if |e| == 1 && ('\t' <= e[0] <= '\r' || e[0] == ' ') then 1
      else if |e| == 2 && TwoByteSpace(e[0], e[1]) then 2
      else if |e| == 3 && ThreeByteSpace(e[0], e[1], e[2]) then 3
      else 0
  {
    var t, k, n := s + e, |s| + |e|, |e|;
    assert t[k - 1] == e[n - 1];
    if n >= 2 { assert t[k - 2] == e[n - 2]; }
    if n >= 3 { assert t[k - 3] == e[n - 3]; }
  }

  predicate AllWhite(us: seq<int>) {
    forall i :: 0 <= i < |us| ==> WhiteSpace(us[i])
  }

  lemma {:induction false} EncodeAllConcat(us: seq<int>, vs: seq<int>)
    requires Scalars(us) && Scalars(vs)
    ensures Scalars(us + vs) && EncodeAll(us + vs) == EncodeAll(us) + EncodeAll(vs)
  {
    if us == [] {
      assert us + vs == vs;
    } else {
      hide Encode, Scalar;
      EncodeAllConcat(us[1..], vs);
      assert (us + vs)[0] == us[0] && (us + vs)[1..] == us[1..] + vs;
      Regroup(Encode(us[0]), EncodeAll(us[1..]), EncodeAll(vs));
    }
  }

  lemma TrimStartStep(a: string, rest: string)
    requires a != [] && LeadingSpace(a + rest) == |a|
    ensures TrimStart(a + rest) == TrimStart(rest)
  {
    assert (a + rest)[|a|..] == rest;
  }

  lemma TrimEndStep(rest: string, z: string)
    requires z != [] && TrailingSpace(rest + z) == |z|
    ensures TrimEnd(rest + z) == TrimEnd(rest)
  {
    assert (rest + z)[..|rest|] == rest;
  }

  lemma {:induction false} TrimStartDrops(before: seq<int>, s: string)
    requires Scalars(before) && AllWhite(before) && LeadingSpace(s) == 0
    ensures TrimStart(EncodeAll(before) + s) == s
  {
    if before == [] {
      assert EncodeAll(before) + s == s;
    } else {
      hide Encode, EncodeAll, LeadingSpace, WhiteSpace, Scalar, TrimStart;
      var a, rest := Encode(before[0]), EncodeAll(before[1..]) + s;
      EncodeAllCons(before);
      Regroup(a, EncodeAll(before[1..]), s);
      LeadingOf(before[0], rest);
      TrimStartDrops(before[1..], s);
      TrimStartStep(a, rest);
    }
  }

  lemma {:induction false} TrimEndDrops(s: string, after: seq<int>)
    requires Scalars(after) && AllWhite(after) && TrailingSpace(s) == 0
    ensures TrimEnd(s + EncodeAll(after)) == s
    decreases |after|
  {
    if after == [] {
      assert s + EncodeAll(after) == s;
    } else {
      hide Encode, EncodeAll, TrailingSpace, WhiteSpace, Scalar, TrimEnd;
      var n := |after| - 1;
      var z, rest := Encode(after[n]), s + EncodeAll(after[..n]);
      EncodeAllSnoc(after[..n], after[n]);
      assert after[..n] + [after[n]] == after;
      TrailingOf(after[n], rest);
      TrimEndDrops(s, after[..n]);
      TrimEndStep(rest, z);
      Regroup(s, EncodeAll(after[..n]), z);
    }
  }

  lemma EncodeAllCons(us: seq<int>)
    requires us != [] && Scalars(us)
    ensures EncodeAll(us) == Encode(us[0]) + EncodeAll(us[1..])
  {
  }

  lemma EncodeAllSnoc(us: seq<int>, u: int)
    requires Scalars(us) && Scalar(u)
    ensures Scalars(us + [u]) && EncodeAll(us + [u]) == EncodeAll(us) + Encode(u)
  {
    EncodeAllConcat(us, [u]);
    assert [u][1..] == [];
  }

  /** Trimming cuts exactly the white-space scalars off both ends. */
  lemma TrimMeaning(before: seq<int>, kept: seq<int>, after: seq<int>)
    requires Scalars(before) && Scalars(kept) && Scalars(after) && AllWhite(before) && AllWhite(after)
    requires kept == [] ==> after == []
    requires kept != [] ==> !WhiteSpace(kept[0]) && !WhiteSpace(kept[|kept| - 1])
    ensures Trim(EncodeAll(before) + EncodeAll(kept) + EncodeAll(after)) == EncodeAll(kept)
  {
    hide Encode, EncodeAll, TrimStart, TrimEnd, LeadingSpace, TrailingSpace, WhiteSpace, Scalar;
    var middle := EncodeAll(kept);
    if kept != [] {
      NoSpaceAtTheStart(kept, EncodeAll(after));
      NoSpaceAtTheEnd(kept);
    } else {
      EmptyHasNoSpace();
      assert EncodeAll(after) == "" && middle == "";
    }
    TrimStartDrops(before, middle + EncodeAll(after));
    TrimEndDrops(middle, after);
    Regroup(EncodeAll(before), middle, EncodeAll(after));
  }

  lemma EmptyHasNoSpace()
    ensures EncodeAll([]) == ""
    ensures LeadingSpace([]) == 0 && TrailingSpace([]) == 0
  {
  }

  lemma NoSpaceAtTheStart(kept: seq<int>, rest: string)
    requires Scalars(kept) && kept != [] && !WhiteSpace(kept[0])
    ensures LeadingSpace(EncodeAll(kept) + rest) == 0
  {
    hide Encode, EncodeAll, LeadingSpace, WhiteSpace, Scalar;
    EncodeAllCons(kept);
    Regroup(Encode(kept[0]), EncodeAll(kept[1..]), rest);
    LeadingOf(kept[0], EncodeAll(kept[1..]) + rest);
  }

  lemma NoSpaceAtTheEnd(kept: seq<int>)
    requires Scalars(kept) && kept != [] && !WhiteSpace(kept[|kept| - 1])
    ensures TrailingSpace(EncodeAll(kept)) == 0
  {
    hide Encode, EncodeAll, TrailingSpace, WhiteSpace, Scalar;
    var n := |kept| - 1;
    EncodeAllSnoc(kept[..n], kept[n]);
    assert kept[..n] + [kept[n]] == kept;
    TrailingOf(kept[n], EncodeAll(kept[..n]));
  }
}
