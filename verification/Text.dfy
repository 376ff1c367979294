/** Text as the program sees it: a string holds one char per byte.

    A Rust `&str` is such a string that is well-formed UTF-8 (`Utf8.Valid`); the
    functions below work on single ASCII bytes, so they mean the same on both. */
module Text {

  datatype Option<+T> = None | Some(value: T)

  datatype Result<+T, +E> = Ok(value: T) | Err(error: E)

  // ---------- sequences ----------

  function Map<A, B>(f: A -> B, xs: seq<A>): (ys: seq<B>)
    ensures |ys| == |xs|
    ensures forall i :: 0 <= i < |xs| ==> ys[i] == f(xs[i])
  {
    seq(|xs|, i requires 0 <= i < |xs| => f(xs[i]))
  }

  function FilterMap<A, B>(f: A -> Option<B>, xs: seq<A>): seq<B> {
    if xs == [] then []
    else (match f(xs[0]) case Some(y) => [y] case None => []) + FilterMap(f, xs[1..])
  }

  function Take<T>(xs: seq<T>, n: nat): (ys: seq<T>)
    ensures ys <= xs && |ys| <= n
  {
    if |xs| <= n then xs else xs[..n]
  }

  lemma Regroup<T>(a: seq<T>, b: seq<T>, c: seq<T>)
    ensures a + (b + c) == (a + b) + c
  {
  }

  lemma FilterMapCons<A, B>(f: A -> Option<B>, x: A, xs: seq<A>)
    ensures FilterMap(f, [x] + xs) == (match f(x) case Some(y) => [y] case None => []) + FilterMap(f, xs)
    ensures FilterMap(f, []) == []
  {
    assert ([x] + xs)[1..] == xs;
  }

  lemma {:induction false} FilterMapConcat<A, B>(f: A -> Option<B>, xs: seq<A>, ys: seq<A>)
    ensures FilterMap(f, xs + ys) == FilterMap(f, xs) + FilterMap(f, ys)
  {
    if xs == [] {
      assert xs + ys == ys;
    } else {
      hide FilterMap;
      var x, rest := xs[0], xs[1..];
      FilterMapCons(f, x, rest);
      FilterMapCons(f, x, rest + ys);
      FilterMapConcat(f, rest, ys);
      var head := match f(x) case Some(y) => [y] case None => [];
      Regroup([x], rest, ys);
      Regroup(head, FilterMap(f, rest), FilterMap(f, ys));
      assert xs == [x] + rest;
    }
  }

  /** Every result of a filter comes from some input. */
  lemma {:induction false} FilterMapSource<A, B>(f: A -> Option<B>, xs: seq<A>, j: nat)
    requires j < |FilterMap(f, xs)|
    ensures exists i :: 0 <= i < |xs| && f(xs[i]) == Some(FilterMap(f, xs)[j])
  {
    var head := match f(xs[0]) case Some(y) => [y] case None => [];
    if j < |head| {
      assert f(xs[0]) == Some(FilterMap(f, xs)[j]);
    } else {
      FilterMapSource(f, xs[1..], j - |head|);
      var i :| 0 <= i < |xs[1..]| && f(xs[1..][i]) == Some(FilterMap(f, xs[1..])[j - |head|]);
      assert f(xs[i + 1]) == Some(FilterMap(f, xs)[j]);
    }
  }

  lemma {:induction false} FilterMapAll<A, B>(f: A -> Option<B>, xs: seq<A>, ys: seq<B>)
    requires |xs| == |ys|
    requires forall i :: 0 <= i < |xs| ==> f(xs[i]) == Some(ys[i])
    ensures FilterMap(f, xs) == ys
  {
    if xs != [] {
      FilterMapAll(f, xs[1..], ys[1..]);
      assert ys == [ys[0]] + ys[1..];
    }
  }

  lemma {:induction false} FilterMapNone<A, B>(f: A -> Option<B>, xs: seq<A>)
    requires forall i :: 0 <= i < |xs| ==> f(xs[i]) == None
    ensures FilterMap(f, xs) == []
  {
    if xs != [] {
      FilterMapNone(f, xs[1..]);
    }
  }

  // ---------- splitting and joining ----------

  predicate Free(s: string, c: char) {
    c !in s
  }

  /** `str::split` on one byte: always at least one part. */
  function Split(s: string, sep: char): (parts: seq<string>)
    ensures |parts| >= 1
  {
    if s == [] then [[]]
    else
      var rest := Split(s[1..], sep);
      if s[0] == sep then [[]] + rest else [[s[0]] + rest[0]] + rest[1..]
  }

  function Join(parts: seq<string>, sep: string): string {
    if |parts| == 0 then []
    else if |parts| == 1 then parts[0]
    else parts[0] + sep + Join(parts[1..], sep)
  }

  lemma {:induction false} SplitPartsAreFree(s: string, sep: char)
    ensures forall i :: 0 <= i < |Split(s, sep)| ==> Free(Split(s, sep)[i], sep)
  {
    if s != [] {
      SplitPartsAreFree(s[1..], sep);
    }
  }

  /** No part of a split has a byte the whole did not have. */
  lemma {:induction false} SplitPartsInherit(s: string, sep: char, c: char)
    requires Free(s, c)
    ensures forall i :: 0 <= i < |Split(s, sep)| ==> Free(Split(s, sep)[i], c)
  {
    if s != [] {
      SplitPartsInherit(s[1..], sep, c);
    }
  }

  lemma {:induction false} SplitFree(s: string, sep: char)
    requires Free(s, sep)
    ensures Split(s, sep) == [s]
  {
    if s != [] {
      SplitFree(s[1..], sep);
      assert s == [s[0]] + s[1..];
    }
  }

  /** A separator byte cuts a split in two. */
  lemma {:induction false} SplitAt(a: string, sep: char, b: string)
    ensures Split(a + [sep] + b, sep) == Split(a, sep) + Split(b, sep)
  {
    var s := a + [sep] + b;
    if a == [] {
      assert s[0] == sep && s[1..] == b;
    } else {
      SplitAt(a[1..], sep, b);
      assert s[0] == a[0] && s[1..] == a[1..] + [sep] + b;
    }
  }

  lemma SplitCons(a: string, sep: char, b: string)
    requires Free(a, sep)
    ensures Split(a + [sep] + b, sep) == [a] + Split(b, sep)
  {
    SplitAt(a, sep, b);
    SplitFree(a, sep);
  }

  /** Splitting undoes joining when no part holds the separator. */
  lemma {:induction false} SplitJoin(parts: seq<string>, sep: char)
    requires |parts| >= 1
    requires forall i :: 0 <= i < |parts| ==> Free(parts[i], sep)
    ensures Split(Join(parts, [sep]), sep) == parts
  {
    if |parts| == 1 {
      SplitFree(parts[0], sep);
    } else {
      SplitJoin(parts[1..], sep);
      SplitCons(parts[0], sep, Join(parts[1..], [sep]));
    }
  }

  lemma {:induction false} JoinSplit(s: string, sep: char)
    ensures Join(Split(s, sep), [sep]) == s
  {
    if s != [] {
      JoinSplit(s[1..], sep);
      var rest := Split(s[1..], sep);
      if s[0] == sep {
        assert Split(s, sep)[1..] == rest;
      } else if |rest| > 1 {
        assert Split(s, sep)[1..] == rest[1..];
      }
    }
  }

  lemma {:induction false} JoinConcat(a: seq<string>, b: seq<string>, sep: string)
    requires a != [] && b != []
    ensures Join(a + b, sep) == Join(a, sep) + sep + Join(b, sep)
  {
    if |a| == 1 {
      assert (a + b)[1..] == b;
    } else {
      JoinConcat(a[1..], b, sep);
      assert (a + b)[1..] == a[1..] + b;
      assert Join(a + b, sep) == a[0] + sep + (Join(a[1..], sep) + sep + Join(b, sep));
    }
  }

  lemma JoinSnoc(a: seq<string>, b: string, sep: string)
    ensures Join(a + [b], sep) == if a == [] then b else Join(a, sep) + sep + b
  {
    if a != [] {
      JoinConcat(a, [b], sep);
    }
  }

  function StripPrefix(s: string, prefix: string): Option<string> {
    if prefix <= s then Some(s[|prefix|..]) else None
  }

  // ---------- decimal numbers ----------

  predicate IsDigit(c: char) {
    '0' <= c <= '9'
  }

  predicate AllDigits(s: string) {
    forall i :: 0 <= i < |s| ==> IsDigit(s[i])
  }

  function Digit(n: nat): (c: char)
    requires n < 10
    ensures IsDigit(c)
  {
    ('0' as int + n) as char
  }

  /** The value of a run of digits. */
  function Value(s: string): nat
    requires AllDigits(s)
  {
    if s == [] then 0 else 10 * Value(s[..|s| - 1]) + (s[|s| - 1] as int - '0' as int)
  }

  /** `to_string` of an unsigned number. */
  function Decimal(n: nat): (s: string)
    ensures AllDigits(s) && |s| >= 1
  {
    if n < 10 then [Digit(n)] else Decimal(n / 10) + [Digit(n % 10)]
  }

  /** `to_string` of a signed number. */
  function SignedDecimal(n: int): string {
    if n < 0 then "-" + Decimal(-n) else Decimal(n)
  }

  lemma {:induction false} ValueOfDecimal(n: nat)
    ensures Value(Decimal(n)) == n
  {
    if n >= 10 {
      ValueOfDecimal(n / 10);
      assert Decimal(n)[..|Decimal(n)| - 1] == Decimal(n / 10);
    }
  }

  lemma DigitsAreFree(s: string, c: char)
    requires AllDigits(s) && !IsDigit(c)
    ensures Free(s, c)
  {
  }

  /** Rust's `parse` for an unsigned type with the given greatest value: one optional
      plus sign, at least one digit, nothing else, no overflow. */
  function ParseUnsigned(s: string, max: nat): (r: Option<nat>)
    ensures r.Some? ==> r.value <= max
  {
    var digits := if |s| > 0 && s[0] == '+' then s[1..] else s;
    if digits != [] && AllDigits(digits) && Value(digits) <= max then Some(Value(digits)) else None
  }

  lemma ParseDecimal(n: nat, max: nat)
    ensures ParseUnsigned(Decimal(n), max) == if n <= max then Some(n) else None
  {
    ValueOfDecimal(n);
    assert IsDigit(Decimal(n)[0]);
  }

  /** Digits count in base ten, the most significant first. */
  lemma ValueMeaning(s: string, c: char)
    requires AllDigits(s) && IsDigit(c)
    ensures Value("") == 0 && Value(s + [c]) == 10 * Value(s) + Value([c])
    ensures Value([c]) < 10 && "0123456789"[Value([c])] == c
  {
    assert (s + [c])[..|s|] == s && [c][..0] == [];
  }

  /** The decimal text of a number has that value and no leading zero. */
  lemma {:induction false} DecimalMeaning(n: nat)
    ensures Value(Decimal(n)) == n && (n == 0 || Decimal(n)[0] != '0')
  {
    ValueOfDecimal(n);
    if n >= 10 {
      DecimalMeaning(n / 10);
    }
  }

  /** Exactly digits with at most one plus sign before them are read, leading zeros and all. */
  lemma ParseUnsignedMeaning(s: string, max: nat, n: nat)
    ensures ParseUnsigned(s, max) == Some(n) <==>
      exists digits :: (s == digits || s == "+" + digits) && |digits| >= 1 && AllDigits(digits) &&
                       Value(digits) == n <= max
  {
    if digits :| (s == digits || s == "+" + digits) && |digits| >= 1 && AllDigits(digits) && Value(digits) == n <= max {
      assert s == "+" + digits ==> s[1..] == digits;
    }
    if ParseUnsigned(s, max) == Some(n) && s[0] == '+' {
      assert s == "+" + s[1..];
    }
  }

  const U32_MAX: nat := 0xFFFF_FFFF
  const U64_MAX: nat := 0xFFFF_FFFF_FFFF_FFFF
  const USIZE_MAX: nat := U64_MAX
  const I64_MAX: int := 0x7FFF_FFFF_FFFF_FFFF
  const I64_MIN: int := -0x8000_0000_0000_0000

  predicate FitsI64(n: int) {
    I64_MIN <= n <= I64_MAX
  }

  // ---------- white space ----------

  /** Byte length of the white-space scalar (Unicode White_Space) a string starts with, else 0. */
  function LeadingSpace(s: string): (n: nat)
    ensures n <= |s|
  {
    if |s| >= 1 && ('\t' <= s[0] <= '\r' || s[0] == ' ') then 1
    else if |s| >= 2 && TwoByteSpace(s[0], s[1]) then 2
    else if |s| >= 3 && ThreeByteSpace(s[0], s[1], s[2]) then 3
    else 0
  }

  /** Byte length of the white-space scalar a string ends with, else 0. */
  function TrailingSpace(s: string): (n: nat)
    ensures n <= |s|
  {
    var k := |s|;
    if k >= 1 && ('\t' <= s[k - 1] <= '\r' || s[k - 1] == ' ') then 1
    else if k >= 2 && TwoByteSpace(s[k - 2], s[k - 1]) then 2
    else if k >= 3 && ThreeByteSpace(s[k - 3], s[k - 2], s[k - 1]) then 3
    else 0
  }

  // U+0085 and U+00A0
  predicate TwoByteSpace(a: char, b: char) {
    a as int == 0xC2 && (b as int == 0x85 || b as int == 0xA0)
  }

  // U+1680, U+2000 to U+200A, U+2028, U+2029, U+202F, U+205F, U+3000
  predicate ThreeByteSpace(a: char, b: char, c: char) {
    var (x, y, z) := (a as int, b as int, c as int);
    || (x == 0xE1 && y == 0x9A && z == 0x80)
    || (x == 0xE2 && y == 0x80 && (0x80 <= z <= 0x8A || z == 0xA8 || z == 0xA9 || z == 0xAF))
    || (x == 0xE2 && y == 0x81 && z == 0x9F)
    || (x == 0xE3 && y == 0x80 && z == 0x80)
  }

  function TrimStart(s: string): (t: string)
    ensures |t| <= |s| && LeadingSpace(t) == 0
    ensures t == s[|s| - |t|..]
    decreases |s|
  {
    var n := LeadingSpace(s);
    if n == 0 then s else TrimStart(s[n..])
  }

  function TrimEnd(s: string): (t: string)
    ensures t <= s && TrailingSpace(t) == 0
    decreases |s|
  {
    var n := TrailingSpace(s);
    if n == 0 then s else TrimEnd(s[..|s| - n])
  }

  /** `str::trim`. */
  function Trim(s: string): string {
    TrimEnd(TrimStart(s))
  }

  /** Neither end is white space: exactly the strings `trim` leaves alone. */
  predicate Trimmed(s: string) {
    LeadingSpace(s) == 0 && TrailingSpace(s) == 0
  }

  lemma TrimIsTrimmed(s: string)
    ensures Trimmed(Trim(s))
    ensures Trimmed(s) <==> Trim(s) == s
    ensures forall c :: Free(s, c) ==> Free(Trim(s), c)
  {
    var t := TrimStart(s);
    assert TrimEnd(t) <= t && LeadingSpace(t) == 0;
  }

  /** Leading text with no white space survives a trim when more non-space text follows it. */
  lemma {:induction false} TrimEndKeeps(s: string, k: nat)
    requires k < |s|
    requires forall i :: 0 <= i <= k ==> '!' <= s[i] <= '~'
    ensures |TrimEnd(s)| > k
    decreases |s|
  {
    if TrailingSpace(s) != 0 {
      TrimEndKeeps(s[..|s| - TrailingSpace(s)], k);
    }
  }

  // ---------- letter case ----------

  function LowerChar(c: char): char {
    if 'A' <= c <= 'Z' then (c as int + 32) as char else c
  }

  /** ASCII lower case, the key of `eq_ignore_ascii_case`. */
  function Lower(s: string): (t: string)
    ensures |t| == |s|
    ensures forall i :: 0 <= i < |s| ==> t[i] == LowerChar(s[i])
  {
    seq(|s|, i requires 0 <= i < |s| => LowerChar(s[i]))
  }

  predicate SameName(a: string, b: string) {
    Lower(a) == Lower(b)
  }

  /** Names are the same when they differ in the case of ASCII letters only. */
  lemma SameNameMeaning(a: string, b: string)
    ensures SameName(a, b) <==>
      |a| == |b| && forall i :: 0 <= i < |a| ==>
        || a[i] == b[i]
        || ('A' <= a[i] <= 'Z' && b[i] as int == a[i] as int + 32)
        || ('A' <= b[i] <= 'Z' && a[i] as int == b[i] as int + 32)
  {
    if |a| == |b| {
      assert SameName(a, b) <==> forall i :: 0 <= i < |a| ==> LowerChar(a[i]) == LowerChar(b[i]) by {
        assert forall i :: 0 <= i < |a| ==> Lower(a)[i] == LowerChar(a[i]) && Lower(b)[i] == LowerChar(b[i]);
      }
    }
  }
}
