/** Resource URLs: printing an identifier into a path and reading it back. */
module ResourcePaths {
  import opened Text

  const MEDIA_ITEMS_PREFIX := "/MediaItems/"
  const TRANSCODE_PREFIX := "/Transcode/"
  const ALBUM_ART_PREFIX := "/AlbumArt/"
  const CAPTIONS_PREFIX := "/Captions/"

  datatype CaptionSelector = Default | Index(index: nat)

  datatype CaptionRoute = CaptionRoute(id: int, selector: CaptionSelector)

  predicate Sign(c: char) {
    c == '+' || c == '-'
  }

  // ---------- parsing ----------

  /** How many digits a string starts with. */
  function DigitRun(s: string): (n: nat)
    ensures n <= |s| && AllDigits(s[..n]) && (n < |s| ==> !IsDigit(s[n]))
  {
    if s == [] || !IsDigit(s[0]) then 0 else 1 + DigitRun(s[1..])
  }

  function SignLength(s: string): (n: nat)
    ensures n <= |s| && n <= 1
  {
    if s != [] && Sign(s[0]) then 1 else 0
  }

  /** `parse::<i64>` of an optional sign and digits. */
  function ParseI64(s: string): Option<int> {
    var digits := s[SignLength(s)..];
    if digits == [] || !AllDigits(digits) then None
    else
      var magnitude: int := Value(digits);
      var n := if s[0] == '-' then -magnitude else magnitude;
      if FitsI64(n) then Some(n) else None
  }

  /** The leading integer of a trimmed string; whatever follows is decoration. */
  function StrtollPrefix(s: string): Option<int> {
    var t := Trim(s);
    var sign := SignLength(t);
    var run := DigitRun(t[sign..]);
    if run == 0 then None else ParseI64(t[..sign + run])
  }

  method StrtollPrefixLoop(s: string) returns (r: Option<int>)
    ensures r == StrtollPrefix(s)
  {
    hide Trim, ParseI64;
    var t := Trim(s);
    if t == [] {
      return None;
    }
    var end := 0;
    if Sign(t[0]) {
      end := 1;
    }
    ghost var sign := end;
    while end < |t| && IsDigit(t[end])
      invariant sign <= end <= |t|
      invariant DigitRun(t[sign..]) == (end - sign) + DigitRun(t[end..])
    {
      assert t[end..][1..] == t[end + 1..];
      end := end + 1;
    }
    if end == 0 || (end == 1 && Sign(t[0])) {
      return None;
    }
    return ParseI64(t[..end]);
  }

  /** Everything before the first question mark. */
  function StripQuery(path: string): (r: string)
    ensures r <= path && Free(r, '?')
    ensures |r| < |path| ==> path[|r|] == '?'
  {
    if path == [] || path[0] == '?' then [] else [path[0]] + StripQuery(path[1..])
  }

  function IdFromPath(path: string, prefix: string): Option<int> {
    match StripPrefix(StripQuery(path), prefix)
    case None => None
    case Some(rest) => StrtollPrefix(rest)
  }

  function MediaItemId(path: string): Option<int> {
    IdFromPath(path, MEDIA_ITEMS_PREFIX)
  }

  function TranscodeId(path: string): Option<int> {
    IdFromPath(path, TRANSCODE_PREFIX)
  }

  function AlbumArtId(path: string): Option<int> {
    IdFromPath(path, ALBUM_ART_PREFIX)
  }

  /** A nonnumeric component means the default caption; a negative one only when it is zero. */
  function CaptionIndexPrefix(value: string): Option<nat> {
    var t := Trim(value);
    var sign := SignLength(t);
    var run := DigitRun(t[sign..]);
    var digits := t[sign..][..run];
    if run == 0 then Some(0)
    else if sign == 1 && t[0] == '-' then
      (if forall i :: 0 <= i < |digits| ==> digits[i] == '0' then Some(0) else None)
    else ParseUnsigned(digits, U32_MAX)
  }

  /** `trim_start_matches` of signs and digits. */
  function SkipNumber(s: string): string {
    if s != [] && (Sign(s[0]) || IsDigit(s[0])) then SkipNumber(s[1..]) else s
  }

  function CaptionRouteOf(path: string): Option<CaptionRoute> {
    match StripPrefix(StripQuery(path), CAPTIONS_PREFIX)
    case None => None
    case Some(rest) =>
      match StrtollPrefix(rest)
      case None => None
      case Some(id) =>
        match StripPrefix(SkipNumber(rest), "/")
        case None => Some(CaptionRoute(id, Default))
        case Some(indexed) =>
          match CaptionIndexPrefix(indexed)
          case Some(index) => Some(CaptionRoute(id, Index(index)))
          case None => None
  }

  // ---------- printing ----------

  // Each function is the part of a printed URL behind `http://host:port`.

  function MediaItemPath(id: int, ext: string): string {
    MEDIA_ITEMS_PREFIX + (SignedDecimal(id) + ("." + ext))
  }

  function TranscodePath(id: int): string {
    TRANSCODE_PREFIX + (SignedDecimal(id) + ".mp4")
  }

  function AlbumArtPath(artId: int, detailId: int): string {
    ALBUM_ART_PREFIX + (SignedDecimal(artId) + ("-" + SignedDecimal(detailId) + ".jpg"))
  }

  function CaptionIndexedPath(id: int, index: nat, ext: string): string {
    CAPTIONS_PREFIX + (SignedDecimal(id) + ("/" + (Decimal(index) + ("." + ext))))
  }

  function CaptionDefaultPath(id: int): string {
    CAPTIONS_PREFIX + (SignedDecimal(id) + ".srt")
  }

  // ---------- reading a printed number ----------

  predicate Plain(s: string) {
    forall i :: 0 <= i < |s| ==> '!' <= s[i] <= '~'
  }

  /** Trimming text that starts with plain characters keeps them all and changes no order. */
  lemma TrimKeepsStart(head: string, rest: string)
    requires head != [] && Plain(head)
    ensures Trim(head + rest) <= head + rest && |Trim(head + rest)| >= |head|
  {
    hide TrailingSpace, TrimEnd;
    var s := head + rest;
    assert s[0] == head[0];
    assert LeadingSpace(s) == 0;
    assert TrimStart(s) == s;
    assert forall i :: 0 <= i < |head| ==> s[i] == head[i];
    TrimEndKeeps(s, |head| - 1);
  }

  lemma {:induction false} DigitRunOf(digits: string, rest: string)
    requires AllDigits(digits) && (rest == [] || !IsDigit(rest[0]))
    ensures DigitRun(digits + rest) == |digits|
  {
    if digits == [] {
      assert digits + rest == rest;
    } else {
      assert (digits + rest)[1..] == digits[1..] + rest;
      DigitRunOf(digits[1..], rest);
    }
  }

  lemma ParseSigned(sign: string, digits: string)
    requires digits != [] && AllDigits(digits) && (sign == "" || sign == "-")
    ensures SignLength(sign + digits) == |sign| && (sign + digits)[|sign|..] == digits
    ensures var n := if sign == "-" then -(Value(digits) as int) else Value(digits);
      ParseI64(sign + digits) == if FitsI64(n) then Some(n) else None
  {
    assert IsDigit(digits[0]);
    assert (sign + digits)[|sign|..] == digits;
  }

  lemma SignedDecimalShape(n: int)
    ensures var s := SignedDecimal(n);
      && Plain(s) && s != [] && SignLength(s) == (if n < 0 then 1 else 0)
      && AllDigits(s[SignLength(s)..]) && s[SignLength(s)..] != []
      && (n < 0 ==> s[0] == '-') && ParseI64(s) == if FitsI64(n) then Some(n) else None
  {
    hide Decimal, Value, ParseI64, SignLength;
    var sign, magnitude := if n < 0 then "-" else "", if n < 0 then -n else n;
    var digits := Decimal(magnitude);
    assert SignedDecimal(n) == sign + digits;
    ValueOfDecimal(magnitude);
    ParseSigned(sign, digits);
  }

  /** A printed integer followed by anything that is not a digit is read back; numbers outside
      64 bits are refused. */
  lemma StrtollOfDecimal(n: int, rest: string)
    requires rest == [] || !IsDigit(rest[0])
    ensures StrtollPrefix(SignedDecimal(n) + rest) == if FitsI64(n) then Some(n) else None
  {
    hide SignedDecimal, Trim, ParseI64;
    var head := SignedDecimal(n);
    SignedDecimalShape(n);
    TrimKeepsStart(head, rest);
    var t := Trim(head + rest);
    var tail := t[|head|..];
    assert t == head + tail;
    assert tail != [] ==> tail[0] == rest[0];
    var sign := SignLength(head);
    assert SignLength(t) == sign;
    assert t[sign..] == head[sign..] + tail;
    DigitRunOf(head[sign..], tail);
    assert t[..sign + |head[sign..]|] == head;
  }

  lemma CaptionIndexOfDecimal(index: nat, rest: string)
    requires rest == [] || !IsDigit(rest[0])
    ensures CaptionIndexPrefix(Decimal(index) + rest) == if index <= U32_MAX then Some(index) else None
  {
    hide Trim, Decimal;
    var head := Decimal(index);
    assert IsDigit(head[0]);
    TrimKeepsStart(head, rest);
    var t := Trim(head + rest);
    var tail := t[|head|..];
    assert t == head + tail && t[0..] == t;
    assert tail != [] ==> tail[0] == rest[0];
    DigitRunOf(head, tail);
    assert t[..|head|] == head;
    ParseDecimal(index, U32_MAX);
  }

  /** A negative caption index is refused unless it is zero. */
  lemma NegativeCaptionIndex(index: nat, rest: string)
    requires rest == [] || !IsDigit(rest[0])
    ensures CaptionIndexPrefix("-" + Decimal(index) + rest) == if index == 0 then Some(0) else None
  {
    hide Trim, Decimal, CaptionIndexPrefix;
    var digits := Decimal(index);
    var head := "-" + digits;
    TrimKeepsStart(head, rest);
    var t := Trim(head + rest);
    var tail := t[|head|..];
    assert t == head + tail;
    assert tail != [] ==> tail[0] == rest[0];
    CaptionIndexMeaning(head + rest, "-", digits, tail);
    ValueOfDecimal(index);
  }

  lemma {:induction false} ZerosMeanZero(digits: string)
    requires AllDigits(digits)
    ensures (forall i :: 0 <= i < |digits| ==> digits[i] == '0') <==> Value(digits) == 0
    decreases |digits|
  {
    if digits != [] {
      ZerosMeanZero(digits[..|digits| - 1]);
    }
  }

  // ---------- queries ----------

  lemma {:induction false} StripQueryKeeps(head: string, rest: string)
    requires Free(head, '?')
    ensures StripQuery(head + rest) == head + StripQuery(rest)
  {
    if head == [] {
      assert head + rest == rest;
    } else {
      assert (head + rest)[1..] == head[1..] + rest;
      StripQueryKeeps(head[1..], rest);
    }
  }

  lemma SignedDecimalIsFree(n: int)
    ensures Free(SignedDecimal(n), '?') && Free(SignedDecimal(n), '/') && Free(SignedDecimal(n), '.')
  {
  }

  /** What is left of a printed path once query and prefix are removed. */
  lemma AfterPrefix(prefix: string, n: int, rest: string)
    requires Free(prefix, '?')
    ensures StripPrefix(StripQuery(prefix + (SignedDecimal(n) + rest)), prefix) ==
      Some(SignedDecimal(n) + StripQuery(rest))
  {
    SignedDecimalIsFree(n);
    StripQueryKeeps(prefix, SignedDecimal(n) + rest);
    StripQueryKeeps(SignedDecimal(n), rest);
  }

  lemma StripQueryHead(c: char, rest: string)
    requires c != '?'
    ensures StripQuery([c] + rest) == [c] + StripQuery(rest)
  {
    StripQueryKeeps([c], rest);
  }

  // ---------- main results ----------

  /** Any printed identifier is read back from its path, whatever extension or query follows;
      a number outside 64 bits is refused, and nothing else is. */
  lemma MediaItemRoundTrip(id: int, ext: string)
    ensures MediaItemId(MediaItemPath(id, ext)) == if FitsI64(id) then Some(id) else None
  {
    hide SignedDecimal, StrtollPrefix;
    AfterPrefix(MEDIA_ITEMS_PREFIX, id, "." + ext);
    StripQueryHead('.', ext);
    StrtollOfDecimal(id, "." + StripQuery(ext));
  }

  lemma TranscodeRoundTrip(id: int)
    ensures TranscodeId(TranscodePath(id)) == if FitsI64(id) then Some(id) else None
  {
    hide SignedDecimal, StrtollPrefix;
    AfterPrefix(TRANSCODE_PREFIX, id, ".mp4");
    StripQueryHead('.', "mp4");
    assert ".mp4" == "." + "mp4";
    StrtollOfDecimal(id, "." + StripQuery("mp4"));
  }

  /** Of the two printed numbers only the art identifier is read back, though the second may
      follow its dash with a sign of its own. */
  lemma AlbumArtRoundTrip(artId: int, detailId: int)
    ensures AlbumArtId(AlbumArtPath(artId, detailId)) == if FitsI64(artId) then Some(artId) else None
  {
    hide SignedDecimal, StrtollPrefix;
    var rest := SignedDecimal(detailId) + ".jpg";
    assert "-" + SignedDecimal(detailId) + ".jpg" == "-" + rest;
    AfterPrefix(ALBUM_ART_PREFIX, artId, "-" + rest);
    StripQueryHead('-', rest);
    StrtollOfDecimal(artId, "-" + StripQuery(rest));
  }

  lemma {:induction false} SkipNumberOf(digits: string, rest: string)
    requires forall i :: 0 <= i < |digits| ==> Sign(digits[i]) || IsDigit(digits[i])
    requires rest != [] && !Sign(rest[0]) && !IsDigit(rest[0])
    ensures SkipNumber(digits + rest) == rest
  {
    if digits == [] {
      assert digits + rest == rest;
    } else {
      assert (digits + rest)[1..] == digits[1..] + rest;
      SkipNumberOf(digits[1..], rest);
    }
  }

  lemma SkipSignedDecimal(n: int, rest: string)
    requires rest != [] && !Sign(rest[0]) && !IsDigit(rest[0])
    ensures SkipNumber(SignedDecimal(n) + rest) == rest
  {
    SkipNumberOf(SignedDecimal(n), rest);
  }

  lemma CaptionIndexedRoundTrip(id: int, index: nat, ext: string)
    ensures CaptionRouteOf(CaptionIndexedPath(id, index, ext)) ==
      if FitsI64(id) && index <= U32_MAX then Some(CaptionRoute(id, Index(index))) else None
  {
    hide SignedDecimal, StrtollPrefix, Decimal, CaptionIndexPrefix, SkipNumber;
    var tail := Decimal(index) + ("." + ext);
    AfterPrefix(CAPTIONS_PREFIX, id, "/" + tail);
    StripQueryHead('/', tail);
    StripQueryKeeps(Decimal(index), "." + ext);
    StripQueryHead('.', ext);
    var kept := Decimal(index) + ("." + StripQuery(ext));
    assert StripQuery("/" + tail) == "/" + kept;
    StrtollOfDecimal(id, "/" + kept);
    SkipSignedDecimal(id, "/" + kept);
    assert StripPrefix("/" + kept, "/") == Some(kept);
    CaptionIndexOfDecimal(index, "." + StripQuery(ext));
  }

  lemma CaptionDefaultRoundTrip(id: int)
    ensures CaptionRouteOf(CaptionDefaultPath(id)) ==
      if FitsI64(id) then Some(CaptionRoute(id, Default)) else None
  {
    hide SignedDecimal, StrtollPrefix, SkipNumber;
    AfterPrefix(CAPTIONS_PREFIX, id, ".srt");
    StripQueryHead('.', "srt");
    var kept := "." + StripQuery("srt");
    assert ".srt" == "." + "srt";
    StrtollOfDecimal(id, kept);
    SkipSignedDecimal(id, kept);
  }

  // ---------- any number, any path ----------

  /** A trimmed text that starts with a sign or none and then digits is their number when that
      fits 64 bits; one without digits there is none. */
  lemma StrtollMeaning(s: string, sign: string, digits: string, rest: string)
    requires sign == "" || sign == "+" || sign == "-"
    requires AllDigits(digits) && (rest == "" || !('0' <= rest[0] <= '9'))
    requires digits == "" && sign == "" && rest != "" ==> rest[0] != '+' && rest[0] != '-'
    requires Trim(s) == sign + digits + rest
    ensures StrtollPrefix(s) ==
      if digits == "" then None
      else
        var n: int := if sign == "-" then -(Value(digits) as int) else Value(digits);
        if -9_223_372_036_854_775_808 <= n <= 9_223_372_036_854_775_807 then Some(n) else None
  {
    hide Trim, Value, ParseI64, SignLength, DigitRun;
    NumberParts(Trim(s), sign, digits, rest);
    if digits != "" {
      SignedNumber(sign, digits);
    }
  }

  /** How a text that starts with a sign or none and digits is cut. */
  lemma NumberParts(t: string, sign: string, digits: string, rest: string)
    requires sign == "" || sign == "+" || sign == "-"
    requires AllDigits(digits) && (rest == "" || !IsDigit(rest[0]))
    requires digits == "" && sign == "" && rest != "" ==> !Sign(rest[0])
    requires t == sign + digits + rest
    ensures SignLength(t) == |sign| && t[..|sign|] == sign && t[|sign|..][..|digits|] == digits
    ensures DigitRun(t[|sign|..]) == |digits| && t[..|sign| + |digits|] == sign + digits
  {
    hide DigitRun;
    assert t == sign + (digits + rest);
    assert sign == "" && digits != "" ==> IsDigit((digits + rest)[0]);
    SignIs(sign, digits + rest);
    DigitRunOf(digits, rest);
  }

  lemma SignIs(sign: string, rest: string)
    requires sign == "" || sign == "+" || sign == "-"
    requires sign == "" && rest != "" ==> !Sign(rest[0])
    ensures SignLength(sign + rest) == |sign| && (sign + rest)[|sign|..] == rest
  {
    assert sign == "" ==> sign + rest == rest;
  }

  lemma SignedNumber(sign: string, digits: string)
    requires digits != "" && AllDigits(digits) && (sign == "" || sign == "+" || sign == "-")
    ensures var n: int := if sign == "-" then -(Value(digits) as int) else Value(digits);
      ParseI64(sign + digits) == if FitsI64(n) then Some(n) else None
  {
    hide Value, SignLength;
    SignIs(sign, digits);
    assert (sign + digits)[0] == if sign == "" then digits[0] else sign[0];
  }

  /** A caption component is the number it starts with, in 32 bits; without digits it is the
      first caption; and a minus sign is for zeros only. */
  lemma CaptionIndexMeaning(s: string, sign: string, digits: string, rest: string)
    requires sign == "" || sign == "+" || sign == "-"
    requires AllDigits(digits) && (rest == "" || !('0' <= rest[0] <= '9'))
    requires digits == "" && sign == "" && rest != "" ==> rest[0] != '+' && rest[0] != '-'
    requires Trim(s) == sign + digits + rest
    ensures CaptionIndexPrefix(s) ==
      if digits == "" then Some(0)
      else if sign == "-" then (if Value(digits) == 0 then Some(0) else None)
      else if Value(digits) <= 4_294_967_295 then Some(Value(digits)) else None
  {
    hide Trim, Value, SignLength, DigitRun;
    NumberParts(Trim(s), sign, digits, rest);
    ZerosMeanZero(digits);
    assert sign != "" ==> Trim(s)[..1][0] == sign[0];
    assert digits != "" ==> IsDigit(digits[0]);
  }

  /** An identifier is read behind the route's prefix, up to the query; other paths have none. */
  lemma IdMeaning(path: string, rest: string, query: string)
    requires '?' !in rest && (query == "" || query[0] == '?')
    ensures MediaItemId("/MediaItems/" + rest + query) == StrtollPrefix(rest)
    ensures TranscodeId("/Transcode/" + rest + query) == StrtollPrefix(rest)
    ensures AlbumArtId("/AlbumArt/" + rest + query) == StrtollPrefix(rest)
    ensures !("/MediaItems/" <= path) ==> MediaItemId(path) == None
    ensures !("/Transcode/" <= path) ==> TranscodeId(path) == None
    ensures !("/AlbumArt/" <= path) ==> AlbumArtId(path) == None
  {
    hide StrtollPrefix;
    assert MEDIA_ITEMS_PREFIX == "/MediaItems/" && TRANSCODE_PREFIX == "/Transcode/";
    assert ALBUM_ART_PREFIX == "/AlbumArt/";
    BehindPrefix("/MediaItems/", rest, query);
    BehindPrefix("/Transcode/", rest, query);
    BehindPrefix("/AlbumArt/", rest, query);
  }

  lemma BehindPrefix(prefix: string, rest: string, query: string)
    requires '?' !in prefix && '?' !in rest && (query == "" || query[0] == '?')
    ensures StripPrefix(StripQuery(prefix + rest + query), prefix) == Some(rest)
  {
    StripQueryKeeps(prefix + rest, query);
    assert StripQuery(query) == "" && (prefix + rest) + "" == prefix + rest;
    assert (prefix + rest)[|prefix|..] == rest;
  }

  /** The part of a caption path behind its number selects the caption: none behind no slash,
      otherwise by the component behind it. */
  lemma CaptionMeaning(number: string, rest: string, query: string)
    requires '?' !in number && '?' !in rest && (query == "" || query[0] == '?')
    requires forall i :: 0 <= i < |number| ==> number[i] in "+-0123456789"
    requires rest != "" ==> rest[0] !in "+-0123456789"
    ensures CaptionRouteOf("/Captions/" + (number + rest) + query) ==
      match StrtollPrefix(number + rest)
      case None => None
      case Some(id) =>
        if rest == "" || rest[0] != '/' then Some(CaptionRoute(id, Default))
        else match CaptionIndexPrefix(rest[1..])
             case Some(index) => Some(CaptionRoute(id, Index(index)))
             case None => None
  {
    hide StrtollPrefix, CaptionIndexPrefix, SkipNumber;
    assert CAPTIONS_PREFIX == "/Captions/";
    BehindPrefix("/Captions/", number + rest, query);
    if rest == "" {
      assert number + rest == number;
      SkipWholeNumber(number);
    } else {
      SkipNumberOf(number, rest);
    }
  }

  lemma {:induction false} SkipWholeNumber(number: string)
    requires forall i :: 0 <= i < |number| ==> Sign(number[i]) || IsDigit(number[i])
    ensures SkipNumber(number) == ""
  {
    if number != "" {
      SkipWholeNumber(number[1..]);
    }
  }

  /** What the printed paths look like. */
  lemma PathsInFull(id: int, other: int, index: nat, ext: string)
    ensures MediaItemPath(id, ext) == "/MediaItems/" + (SignedDecimal(id) + ("." + ext))
    ensures TranscodePath(id) == "/Transcode/" + (SignedDecimal(id) + ".mp4")
    ensures AlbumArtPath(id, other) == "/AlbumArt/" + (SignedDecimal(id) + ("-" + SignedDecimal(other) + ".jpg"))
    ensures CaptionIndexedPath(id, index, ext) ==
      "/Captions/" + (SignedDecimal(id) + ("/" + (Decimal(index) + ("." + ext))))
    ensures CaptionDefaultPath(id) == "/Captions/" + (SignedDecimal(id) + ".srt")
    ensures SignedDecimal(id) == if id < 0 then "-" + Decimal(-id) else Decimal(id)
  {
  }
}
