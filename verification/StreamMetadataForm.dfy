/** The form of the compact text, byte for byte, and what the readers make of any record, also of
    those the writer never produces. */
module StreamMetadataForm {
  import opened Text
  import opened StreamMetadata
  import opened StreamMetadataFields
  import Utf8

  // ---------- the field escape ----------

  const UPPER_HEX := "0123456789ABCDEF"
  const LOWER_HEX := "0123456789abcdef"

  /** ASCII letters and digits, and five more. */
  predicate Kept(c: char) {
    || 0x41 <= c as int <= 0x5A || 0x61 <= c as int <= 0x7A || 0x30 <= c as int <= 0x39
    || c == '-' || c == '_' || c == '.' || c == '~' || c == ' '
  }

  lemma ByteForm(c: char)
    requires IsByte(c)
    ensures EncodeByte(c) == if Kept(c) then [c] else ['%', UPPER_HEX[c as int / 16], UPPER_HEX[c as int % 16]]
  {
    HexForm(c as int / 16);
    HexForm(c as int % 16);
  }

  lemma HexForm(n: nat)
    requires n < 16
    ensures HexDigit(n) == UPPER_HEX[n]
  {
  }

  /** Every byte is written for itself, or as a percent sign and two upper-case digits. */
  lemma EscapeForm(a: string, c: char, b: string)
    requires Bytes(a) && IsByte(c) && Bytes(b)
    ensures EncodeField("") == ""
    ensures EncodeField(a + [c] + b) ==
      EncodeField(a) + (if Kept(c) then [c] else ['%', UPPER_HEX[c as int / 16], UPPER_HEX[c as int % 16]]) +
      EncodeField(b)
  {
    ByteForm(c);
    EncodeOne(c);
    hide EncodeField, EncodeByte, Kept;
    EncodeConcat(a + [c], b);
    EncodeConcat(a, [c]);
  }

  lemma EncodeOne(c: char)
    requires IsByte(c)
    ensures EncodeField([c]) == EncodeByte(c) && EncodeField("") == ""
  {
    assert [c][1..] == "";
  }

  lemma {:induction false} EncodeConcat(a: string, b: string)
    requires Bytes(a) && Bytes(b)
    ensures EncodeField(a + b) == EncodeField(a) + EncodeField(b)
  {
    hide EncodeByte;
    if a == "" {
      assert a + b == b;
    } else {
      EncodeConcat(a[1..], b);
      assert (a + b)[0] == a[0] && (a + b)[1..] == a[1..] + b;
      Regroup(EncodeByte(a[0]), EncodeField(a[1..]), EncodeField(b));
    }
  }

  /** A hexadecimal digit of either case and its value. */
  predicate Hex(c: char, v: nat) {
    v < 16 && (c == UPPER_HEX[v] || c == LOWER_HEX[v])
  }

  predicate IsHex(c: char) {
    exists v: nat :: v < 16 && Hex(c, v)
  }

  lemma HexMeaning(c: char)
    ensures HexValue(c).Some? <==> IsHex(c)
    ensures forall v: nat :: Hex(c, v) ==> v < 16 && HexValue(c) == Some(v)
  {
    if HexValue(c).Some? {
      assert Hex(c, HexValue(c).value);
    }
  }

  /** Reading an escaped text, one step at a time: a byte that is no percent sign stands for
      itself; a percent sign and two hexadecimal digits stand for the byte they denote; one
      with any other two bytes behind it is an error; and one with fewer stands for itself. */
  lemma UnescapeForm(c: char, h: char, l: char, rest: string)
    ensures Unescape("") == Ok("")
    ensures c != '%' ==> Unescape([c] + rest) == Prepend(c, Unescape(rest))
    ensures forall v: nat, w: nat :: Hex(h, v) && Hex(l, w) ==>
      Unescape(['%', h, l] + rest) == Prepend((16 * v + w) as char, Unescape(rest))
    ensures !IsHex(h) || !IsHex(l) ==> Unescape(['%', h, l] + rest) == Err(InvalidEscape)
    ensures Unescape("%") == Ok("%") && (c != '%' ==> Unescape(['%', c]) == Ok(['%', c]))
  {
    HexMeaning(h);
    HexMeaning(l);
    hide Hex, IsHex, HexValue, Unescape;
    UnescapeShort(c);
    if c != '%' {
      UnescapePlainByte(c, rest);
    }
    TripletForm(h, l, rest);
  }

  lemma UnescapePlainByte(c: char, rest: string)
    requires c != '%'
    ensures Unescape([c] + rest) == Prepend(c, Unescape(rest))
  {
    assert ([c] + rest)[1..] == rest;
  }

  lemma UnescapeShort(c: char)
    ensures Unescape("") == Ok("") && Unescape("%") == Ok("%")
    ensures c != '%' ==> Unescape(['%', c]) == Ok(['%', c])
  {
    assert "%"[1..] == "" && ['%'] + "" == "%";
    if c != '%' {
      assert ['%', c][1..] == [c] && [c][1..] == "";
      assert [c] + "" == [c] && ['%'] + [c] == ['%', c];
    }
  }

  lemma TripletForm(h: char, l: char, rest: string)
    ensures Unescape(['%', h, l] + rest) ==
      if HexValue(h).Some? && HexValue(l).Some?
      then Prepend(((HexValue(h).value * 16 + HexValue(l).value) % 0x100) as char, Unescape(rest))
      else Err(InvalidEscape)
  {
    hide HexValue;
    var s := ['%', h, l] + rest;
    assert s[0] == '%' && s[1] == h && s[2] == l && s[3..] == rest;
  }

  /** A text is decoded when its unescaped bytes are well-formed, whether or not it has escapes. */
  lemma DecodeForm(s: string, t: string)
    requires Utf8.Valid(s)
    ensures DecodeField(s) == Ok(t) <==> Unescape(s) == Ok(t) && Utf8.Valid(t)
    ensures DecodeField(s) == Err(InvalidEscape) <==> Unescape(s).Err?
  {
    if '%' !in s {
      UnescapePlain(s);
    }
    UnescapeFails(s);
    assert Unescape(s).Err? ==> Unescape(s).error == InvalidEscape;
  }

  lemma {:induction false} UnescapeFails(s: string)
    ensures Unescape(s) != Err(InvalidUtf8)
  {
    hide HexValue;
    if s != "" {
      UnescapeFails(s[1..]);
      if |s| > 2 {
        UnescapeFails(s[3..]);
      }
    }
  }

  // ---------- what is written ----------

  lemma JoinStep(x: string, rest: seq<string>, sep: string)
    requires rest != []
    ensures Join([x] + rest, sep) == x + sep + Join(rest, sep)
  {
    assert ([x] + rest)[1..] == rest;
  }

  lemma JoinTwo(x: string, y: string, sep: string)
    ensures Join([x, y], sep) == x + sep + y
  {
    assert [x, y][1..] == [y];
  }

  lemma JoinFour(a: string, b: string, c: string, d: string)
    ensures Join([a, b, c, d], ":") == a + ":" + (b + ":" + (c + ":" + d))
  {
    hide Join;
    JoinTwo(c, d, ":");
    JoinStep(b, [c, d], ":");
    JoinStep(a, [b, c, d], ":");
    assert [b] + [c, d] == [b, c, d] && [a] + [b, c, d] == [a, b, c, d];
  }

  /** Indices, codec and channels; and behind them the labels and the default flag, unless there
      is nothing to say about them. */
  lemma AudioForm(a: AudioInput)
    requires TypedAudio(a)
    ensures var start := Decimal(a.globalIndex) + ":" + (Decimal(a.audioIndex) + ":" +
                         (a.codec + ":" + Decimal(a.channels)));
      AudioText(a) ==
      if a.language == None && a.title == None && !a.isDefault then start
      else start + ":" + (EncodeField(if a.language.Some? then a.language.value else "") + ":" +
                          (EncodeField(if a.title.Some? then a.title.value else "") + ":" +
                           (if a.isDefault then "1" else "0")))
  {
    var first := [Decimal(a.globalIndex), Decimal(a.audioIndex), a.codec, Decimal(a.channels)];
    JoinFour(first[0], first[1], first[2], first[3]);
    if WritesLabels(a) {
      var labels := [EncodeField(OrEmpty(a.language)), EncodeField(OrEmpty(a.title)), Flag(a.isDefault)];
      JoinThreeFields(labels[0], labels[1], labels[2]);
      assert labels == [labels[0], labels[1], labels[2]];
      JoinConcat(first, labels, ":");
    } else {
      assert AudioFields(a) == first;
    }
  }

  lemma JoinThreeFields(a: string, b: string, c: string)
    ensures Join([a, b, c], ":") == a + ":" + (b + ":" + c)
  {
    hide Join;
    JoinTwo(b, c, ":");
    JoinStep(a, [b, c], ":");
    assert [a] + [b, c] == [a, b, c];
  }

  lemma VideoForm(v: Video)
    requires TypedVideo(v)
    ensures VideoText(v) ==
      "@v" + ":" + (EncodeField(v.profile) + ":" + (Decimal(v.level) + ":" + EncodeField(v.pixelFormat))) + ":" +
      (Decimal(v.bitDepth) + ":" + (EncodeField(v.frameRate) + ":" +
       (EncodeField(v.codecString) + ":" + EncodeField(v.audioLayout))))
  {
    hide Join, Decimal, EncodeField;
    var f := VideoFields(v);
    JoinFour(f[0], f[1], f[2], f[3]);
    JoinFour(f[4], f[5], f[6], f[7]);
    JoinConcat([f[0], f[1], f[2], f[3]], [f[4], f[5], f[6], f[7]], ":");
    assert f == [f[0], f[1], f[2], f[3]] + [f[4], f[5], f[6], f[7]];
  }

  /** The first 256 scalars of a label, escaped; nothing for an absent one. */
  function Written(text: Option<string>): string
    requires OptStr(text)
  {
    match text
    case None => ""
    case Some(t) => (Utf8.TakeScalarsCuts(t, 256); EncodeField(Utf8.TakeScalars(t, 256)))
  }

  lemma LabelForm(text: Option<string>)
    requires OptStr(text)
    ensures EncodeLabel(text) == Written(text)
  {
  }

  lemma ChapterForm(c: ChapterInput)
    requires TypedChapter(c)
    ensures ChapterText(c) == Decimal(c.startMillis) + ":" + (Decimal(c.endMillis) + ":" + Written(c.title))
  {
    hide Join, Decimal, EncodeLabel, Written;
    LabelForm(c.title);
    JoinThreeFields(Decimal(c.startMillis), Decimal(c.endMillis), Written(c.title));
  }

  lemma SubtitleForm(s: Subtitle)
    requires TypedSubtitle(s)
    ensures SubtitleText(s) ==
      "@s" + ":" + (Decimal(s.globalIndex) + ":" + (s.codec + ":" + Written(s.language))) + ":" +
      (Written(s.title) + ":" + ((if s.isDefault then "1" else "0") + ":" + (if s.forced then "1" else "0")))
  {
    hide Join, Decimal, EncodeLabel, Written;
    LabelForm(s.language);
    LabelForm(s.title);
    var f := SubtitleFields(s);
    JoinFour(f[0], f[1], f[2], f[3]);
    JoinThreeFields(f[4], f[5], f[6]);
    JoinConcat([f[0], f[1], f[2], f[3]], [f[4], f[5], f[6]], ":");
    assert f == [f[0], f[1], f[2], f[3]] + [f[4], f[5], f[6]];
  }

  /** The first `n` at most. */
  function FirstOf<T>(xs: seq<T>, n: nat): seq<T> {
    if |xs| <= n then xs else xs[..n]
  }

  /** The whole text: audio records, the video record, the timestamp mode, at most 512 chapters
      in one record if there are any, and the marker and at most 128 subtitles if discovery ran.
      It is refused for more than 1024 audio records, then for more than a mebibyte. */
  lemma TextForm(input: Input)
    requires Typed(input)
    ensures Encoding(input) ==
      Join(AudioTexts(input.audio) + [VideoText(input.video), "@t:" + input.timestampMode] +
           (if input.chapters == [] then []
            else ["@c:" + Join(ChapterTexts(FirstOf(input.chapters, 512)), "|")]) +
           (if input.subtitles == None then []
            else ["@s"] + SubtitleTexts(FirstOf(input.subtitles.value, 128))), ",")
    ensures forall i :: 0 <= i < |input.audio| ==> AudioTexts(input.audio)[i] == AudioText(input.audio[i])
    ensures |input.audio| > 1024 <==> Encode(input) == Err(TooManyAudioRecords(|input.audio|, 1024))
    ensures |input.audio| <= 1024 && |Encoding(input)| > 1_048_576 <==> Encode(input) == Err(TooLong(1_048_576))
    ensures |input.audio| <= 1024 && |Encoding(input)| <= 1_048_576 <==> Encode(input) == Ok(Encoding(input))
  {
    hide AudioText, VideoText, Join;
  }

  // ---------- what is read from any record ----------

  predicate Parts(fields: seq<string>) {
    fields != [] && forall i :: 0 <= i < |fields| ==> Free(fields[i], ':')
  }

  predicate Natural(s: string, max: nat, n: nat) {
    ParseUnsigned(s, max) == Some(n)
  }

  /** A record of at least three parts, the first two numbers, is an audio record. Missing or
      malformed channels are unknown; missing labels are absent; only "1" is the default. */
  lemma AnyAudio(fields: seq<string>)
    requires Parts(fields)
    ensures var r := ParseAudio(Join(fields, ":"));
      && (r.Some? <==> |fields| >= 3 && ParseUnsigned(fields[0], 0xFFFF_FFFF_FFFF_FFFF).Some? &&
                       ParseUnsigned(fields[1], 0xFFFF_FFFF_FFFF_FFFF).Some?)
      && (r.Some? ==> var a := r.value;
          && Natural(fields[0], 0xFFFF_FFFF_FFFF_FFFF, a.globalIndex)
          && Natural(fields[1], 0xFFFF_FFFF_FFFF_FFFF, a.audioIndex)
          && a.codec == Trim(fields[2])
          && (a.channels.Some? <==> |fields| >= 4 && ParseUnsigned(fields[3], 0xFFFF_FFFF).Some?)
          && (a.channels.Some? ==> Natural(fields[3], 0xFFFF_FFFF, a.channels.value))
          && LabelReads(fields, 4, a.language) && LabelReads(fields, 5, a.title)
          && (a.isDefault <==> |fields| >= 7 && fields[6] == "1"))
  {
    hide Split, Join, DecodeField, ParseUnsigned, Trim;
    SplitJoin(fields, ':');
  }

  /** Missing or decoded to nothing: no label. Otherwise the decoded text, or its error. */
  predicate LabelReads(fields: seq<string>, i: nat, r: Result<Option<string>, FieldError>) {
    if i >= |fields| then r == Ok(None)
    else match DecodeField(fields[i])
         case Ok(t) => if t == "" then r == Ok(None) else r == Ok(Some(t))
         case Err(e) => r == Err(e)
  }

  predicate TextReads(fields: seq<string>, i: nat, s: string) {
    if i < |fields| && DecodeField(fields[i]).Ok? then DecodeField(fields[i]) == Ok(s) else s == ""
  }

  predicate NumberReads(fields: seq<string>, i: nat, n: nat) {
    if i < |fields| && ParseUnsigned(fields[i], 0xFFFF_FFFF).Some? then Natural(fields[i], 0xFFFF_FFFF, n) else n == 0
  }

  /** The first field is the marker; each of the next seven is read by itself, and is empty or
      zero when it is missing or malformed. */
  lemma AnyVideo(fields: seq<string>)
    requires Parts(fields)
    ensures var v := ParseVideo(Join(fields, ":"));
      && TextReads(fields, 1, v.profile) && NumberReads(fields, 2, v.level) && TextReads(fields, 3, v.pixelFormat)
      && NumberReads(fields, 4, v.bitDepth) && TextReads(fields, 5, v.frameRate)
      && TextReads(fields, 6, v.codecString) && TextReads(fields, 7, v.audioLayout)
  {
    hide Split, Join, DecodeField, ParseUnsigned;
    SplitJoin(fields, ':');
  }

  /** Exactly six parts behind the marker, with a number and two readable labels. */
  lemma AnySubtitle(fields: seq<string>)
    requires Parts(fields)
    ensures var r := ParseSubtitle("@s:" + Join(fields, ":"));
      && (r.Some? <==> |fields| == 6 && ParseUnsigned(fields[0], 0xFFFF_FFFF).Some? &&
                       DecodeField(fields[2]).Ok? && DecodeField(fields[3]).Ok?)
      && (r.Some? ==> var s := r.value;
          && Natural(fields[0], 0xFFFF_FFFF, s.globalIndex) && s.codec == fields[1]
          && LabelReads(fields, 2, Ok(s.language)) && LabelReads(fields, 3, Ok(s.title))
          && (s.isDefault <==> fields[4] == "1") && (s.forced <==> fields[5] == "1"))
  {
    hide Split, Join, DecodeField, ParseUnsigned;
    SplitJoin(fields, ':');
    assert ("@s:" + Join(fields, ":"))[3..] == Join(fields, ":");
  }

  /** Only records with the marker are subtitles. */
  lemma OtherIsNoSubtitle(record: string)
    requires |record| < 3 || record[..3] != "@s:"
    ensures ParseSubtitle(record) == None
  {
  }

  /** A chapter has two times in order; what follows their second colon, colons and all, is its
      title, and an unreadable or empty one counts as none. */
  lemma AnyChapter(index: nat, start: string, end: string, title: string)
    requires Free(start, ':') && Free(end, ':')
    ensures var max := 0xFFFF_FFFF_FFFF_FFFF;
      var times := ParseUnsigned(start, max).Some? && ParseUnsigned(end, max).Some? &&
                   ParseUnsigned(start, max).value <= ParseUnsigned(end, max).value;
      var bare, full := ParseChapter(index, start + ":" + end), ParseChapter(index, start + ":" + end + ":" + title);
      && (bare.Some? <==> times) && (full.Some? <==> times)
      && (times ==>
            var (s, e) := (ParseUnsigned(start, max).value, ParseUnsigned(end, max).value);
            && bare == Some(Chapter(index, s, e, None))
            && full == Some(Chapter(index, s, e, match DecodeField(title)
                                                 case Ok(t) => if t == "" then None else Some(t)
                                                 case Err(_) => None)))
  {
    hide ParseUnsigned, DecodeField, Split, SplitThree;
    SplitsInTwo(start, end);
    SplitsInThree(start, end, title);
  }

  lemma SplitsInTwo(start: string, end: string)
    requires Free(start, ':') && Free(end, ':')
    ensures SplitThree(start + ":" + end) == [start, end]
  {
    SplitCons(start, ':', end);
    SplitFree(end, ':');
  }

  lemma SplitsInThree(start: string, end: string, title: string)
    requires Free(start, ':') && Free(end, ':')
    ensures SplitThree(start + ":" + end + ":" + title) == [start, end, title]
  {
    var parts := Split(title, ':');
    hide Split, Join;
    SplitCons(end, ':', title);
    SplitCons(start, ':', end + ":" + title);
    JoinSplit(title, ':');
    assert start + ":" + end + ":" + title == start + ":" + (end + ":" + title);
    var all := [start] + ([end] + parts);
    assert all[..2] == [start, end] && all[2..] == parts;
    if |parts| == 1 {
      JoinOnePart(parts);
      assert all == [start, end, title];
    }
  }

  lemma JoinOnePart(parts: seq<string>)
    requires |parts| == 1
    ensures Join(parts, ":") == parts[0]
  {
  }

  /** A chapter entry with fewer than two parts is none. */
  lemma OnePartIsNoChapter(index: nat, text: string)
    requires Free(text, ':')
    ensures ParseChapter(index, text) == None
  {
    SplitFree(text, ':');
  }

  /** The chapter is what the entry at its position reads as, counted from an index. */
  predicate IsEntry(index: nat, texts: seq<string>, c: Chapter) {
    index <= c.sourceIndex < index + |texts| && ParseChapter(c.sourceIndex, texts[c.sourceIndex - index]) == Some(c)
  }

  predicate AreEntries(index: nat, texts: seq<string>, cs: seq<Chapter>) {
    forall k :: 0 <= k < |cs| ==> IsEntry(index, texts, cs[k])
  }

  predicate InOrder(cs: seq<Chapter>) {
    forall j, k :: 0 <= j < k < |cs| ==> cs[j].sourceIndex < cs[k].sourceIndex
  }

  lemma EntryBehind(index: nat, texts: seq<string>, c: Chapter)
    requires texts != [] && IsEntry(index + 1, texts[1..], c)
    ensures IsEntry(index, texts, c) && c.sourceIndex > index
  {
    hide ParseChapter;
    assert texts[1..][c.sourceIndex - (index + 1)] == texts[c.sourceIndex - index];
  }

  lemma OneMoreEntry(index: nat, texts: seq<string>, rest: seq<Chapter>)
    requires texts != [] && AreEntries(index + 1, texts[1..], rest) && InOrder(rest)
    ensures var head := match ParseChapter(index, texts[0]) case Some(c) => [c] case None => [];
      AreEntries(index, texts, head + rest) && InOrder(head + rest)
  {
    KeepsIndex(index, texts[0]);
    hide ParseChapter;
    var head := match ParseChapter(index, texts[0]) case Some(c) => [c] case None => [];
    assert head != [] ==> IsEntry(index, texts, head[0]) && head[0].sourceIndex == index;
    hide IsEntry;
    forall k | 0 <= k < |rest| ensures IsEntry(index, texts, rest[k]) && rest[k].sourceIndex > index {
      EntryBehind(index, texts, rest[k]);
    }
    if head == [] {
      assert head + rest == rest;
    } else {
      InFront(index, texts, head[0], rest);
    }
  }

  lemma InFront(index: nat, texts: seq<string>, c: Chapter, rest: seq<Chapter>)
    requires IsEntry(index, texts, c) && AreEntries(index, texts, rest) && InOrder(rest)
    requires forall k :: 0 <= k < |rest| ==> rest[k].sourceIndex > c.sourceIndex
    ensures AreEntries(index, texts, [c] + rest) && InOrder([c] + rest)
  {
    hide IsEntry;
    var cs := [c] + rest;
    assert cs[0] == c && forall k :: 1 <= k < |cs| ==> cs[k] == rest[k - 1];
  }

  /** Chapters keep the position of their entry: each is what its own entry reads as, and
      positions increase. */
  lemma {:induction false} SourceIndices(index: nat, texts: seq<string>)
    ensures AreEntries(index, texts, ChaptersFrom(index, texts)) && InOrder(ChaptersFrom(index, texts))
    decreases |texts|
  {
    hide ParseChapter, AreEntries, InOrder;
    if texts != [] {
      SourceIndices(index + 1, texts[1..]);
      OneMoreEntry(index, texts, ChaptersFrom(index + 1, texts[1..]));
    } else {
      NoEntries(index);
    }
  }

  lemma NoEntries(index: nat)
    ensures AreEntries(index, [], []) && InOrder([])
  {
  }

  /** And no readable entry is left out. */
  lemma {:induction false} NoEntryIsLeftOut(index: nat, texts: seq<string>, i: nat)
    requires i < |texts| && ParseChapter(index + i, texts[i]).Some?
    ensures ParseChapter(index + i, texts[i]).value in ChaptersFrom(index, texts)
    decreases |texts|
  {
    hide ParseChapter;
    if i > 0 {
      NoEntryIsLeftOut(index + 1, texts[1..], i - 1);
    }
  }

  lemma KeepsIndex(index: nat, text: string)
    ensures ParseChapter(index, text).Some? ==> ParseChapter(index, text).value.sourceIndex == index
  {
    hide SplitThree, ParseUnsigned, DecodeField;
  }

  predicate FirstWith(records: seq<string>, marker: string, i: nat, s: string) {
    i < |records| && records[i] == marker + s && forall j :: 0 <= j < i ==> !(marker <= records[j])
  }

  /** The first record with the marker decides, and just the marker is taken off it. */
  lemma {:induction false} FirstSuffixForm(records: seq<string>, marker: string)
    ensures FirstSuffix(records, marker) == None <==> forall i :: 0 <= i < |records| ==> !(marker <= records[i])
    ensures forall i: nat, s :: FirstWith(records, marker, i, s) ==> FirstSuffix(records, marker) == Some(s)
  {
    if records != [] && !(marker <= records[0]) {
      FirstSuffixForm(records[1..], marker);
      forall i: nat, s | FirstWith(records, marker, i, s) ensures FirstSuffix(records, marker) == Some(s) {
        assert marker <= records[i];
        assert FirstWith(records[1..], marker, i - 1, s);
      }
    }
  }
}
