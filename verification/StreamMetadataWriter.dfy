/** The incremental bounded writer, proved to produce exactly the bounded encoding. */
module StreamMetadataWriter {
  import opened Text
  import opened StreamMetadata
  import opened StreamMetadataFields
  import Utf8

  /** The outcome of appending a text within the size limit. */
  predicate Appended(before: string, text: string, after: string, ok: bool) {
    && (ok <==> |before| + |text| <= MAX_BYTES)
    && (ok ==> after == before + text)
  }

  lemma {:induction false} JoinGrows(a: seq<string>, whole: seq<string>, sep: string)
    requires a <= whole
    ensures |Join(a, sep)| <= |Join(whole, sep)|
  {
    if |a| > 1 {
      JoinGrows(a[1..], whole[1..], sep);
    }
  }

  /** A step that failed on a prefix of the fields fails the whole record. */
  lemma StillTooLong(before: string, done: seq<string>, fields: seq<string>, sep: string, after: string)
    requires done <= fields && Appended(before, Join(done, sep), after, false)
    ensures Appended(before, Join(fields, sep), after, false)
  {
    JoinGrows(done, fields, sep);
  }

  /** The first `k` fields of a record stand behind `start`, or the record cannot fit. */
  predicate Written(start: string, fields: seq<string>, k: nat, output: string, ok: bool)
    requires k <= |fields|
  {
    if ok then output == start + Join(fields[..k], ":") && |output| <= MAX_BYTES
    else |start| + |Join(fields, ":")| > MAX_BYTES
  }

  lemma OneMoreField(fields: seq<string>, k: nat)
    requires 0 < k < |fields|
    ensures Join(fields[..k + 1], ":") == Join(fields[..k], ":") + ":" + fields[k]
    ensures |Join(fields[..k + 1], ":")| <= |Join(fields, ":")|
  {
    assert fields[..k + 1] == fields[..k] + [fields[k]];
    JoinSnoc(fields[..k], fields[k], ":");
    JoinGrows(fields[..k + 1], fields, ":");
  }

  lemma FirstField(fields: seq<string>)
    requires |fields| > 0
    ensures Join(fields[..1], ":") == fields[0] && |fields[0]| <= |Join(fields, ":")|
  {
    JoinGrows(fields[..1], fields, ":");
  }

  lemma {:induction false} EncodeFieldConcat(a: string, b: string)
    requires Bytes(a) && Bytes(b)
    ensures EncodeField(a + b) == EncodeField(a) + EncodeField(b)
  {
    if a == [] {
      assert a + b == b;
    } else {
      EncodeFieldConcat(a[1..], b);
      assert (a + b)[1..] == a[1..] + b;
    }
  }

  lemma EncodeFieldGrows(a: string, whole: string)
    requires Bytes(whole) && a <= whole
    ensures Bytes(a) && |EncodeField(a)| <= |EncodeField(whole)|
  {
    EncodeFieldConcat(a, whole[|a|..]);
    assert whole == a + whole[|a|..];
  }

  lemma EncodeFieldSnoc(value: string, i: nat)
    requires Bytes(value) && i < |value|
    ensures EncodeField(value[..i + 1]) == EncodeField(value[..i]) + EncodeByte(value[i])
  {
    EncodeFieldConcat(value[..i], [value[i]]);
    assert value[..i + 1] == value[..i] + [value[i]];
  }

  class BoundedWriter {
    var output: string

    constructor ()
      ensures output == ""
    {
      output := "";
    }

    method PushStr(value: string) returns (ok: bool)
      modifies this
      ensures Appended(old(output), value, output, ok)
      ensures !ok ==> output == old(output)
    {
      if |output| + |value| > MAX_BYTES {
        return false;
      }
      output := output + value;
      return true;
    }

    method StartRecord() returns (ok: bool)
      modifies this
      ensures Appended(old(output), if old(output) == "" then "" else ",", output, ok)
    {
      if output != "" {
        ok := PushStr(",");
        return;
      }
      return true;
    }

    method PushEncoded(value: string) returns (ok: bool)
      requires Bytes(value) && |output| <= MAX_BYTES
      modifies this
      ensures Appended(old(output), EncodeField(value), output, ok)
    {
      for i := 0 to |value|
        invariant output == old(output) + EncodeField(value[..i])
        invariant |output| <= MAX_BYTES
      {
        EncodeFieldSnoc(value, i);
        EncodeFieldGrows(value[..i + 1], value);
        ok := PushStr(EncodeByte(value[i]));
        if !ok {
          return;
        }
      }
      assert value[..|value|] == value;
      return true;
    }

    /** `push_char(':')` and then one literal field of a record. */
    method PushField(field: string, ghost start: string, ghost fields: seq<string>, ghost k: nat) returns (ok: bool)
      requires 0 < k < |fields| && field == fields[k] && Written(start, fields, k, output, true)
      modifies this
      ensures Written(start, fields, k + 1, output, ok)
    {
      OneMoreField(fields, k);
      ok := PushStr(":");
      if !ok {
        return;
      }
      ok := PushStr(field);
    }

    /** `push_char(':')` and then one escaped field of a record. */
    method PushEncodedField(value: string, ghost start: string, ghost fields: seq<string>, ghost k: nat)
        returns (ok: bool)
      requires Bytes(value) && 0 < k < |fields| && EncodeField(value) == fields[k]
      requires Written(start, fields, k, output, true)
      modifies this
      ensures Written(start, fields, k + 1, output, ok)
    {
      OneMoreField(fields, k);
      ok := PushStr(":");
      if !ok {
        return;
      }
      ok := PushEncoded(value);
    }

    method PushAudio(a: AudioInput) returns (ok: bool)
      requires TypedAudio(a)
      modifies this
      ensures Appended(old(output), AudioText(a), output, ok)
    {
      hide Utf8.Valid, EncodeField, Decimal, Join;
      ghost var start, fields := output, AudioFields(a);
      FirstField(fields);
      ok := PushStr(Decimal(a.globalIndex));
      if !ok { return; }
      ok := PushField(Decimal(a.audioIndex), start, fields, 1);
      if !ok { return; }
      ok := PushField(a.codec, start, fields, 2);
      if !ok { return; }
      ok := PushField(Decimal(a.channels), start, fields, 3);
      if !ok { return; }
      if a.language.Some? || a.title.Some? || a.isDefault {
        ok := PushEncodedField(OrEmpty(a.language), start, fields, 4);
        if !ok { return; }
        ok := PushEncodedField(OrEmpty(a.title), start, fields, 5);
        if !ok { return; }
        ok := PushField(if a.isDefault then "1" else "0", start, fields, 6);
      }
      assert fields[..|fields|] == fields;
    }

    method PushVideo(v: Video) returns (ok: bool)
      requires TypedVideo(v)
      modifies this
      ensures Appended(old(output), VideoText(v), output, ok)
    {
      hide Utf8.Valid, EncodeField, Decimal, Join;
      ghost var start, fields := output, VideoFields(v);
      FirstField(fields);
      ok := PushStr("@v");
      if !ok { return; }
      ok := PushEncodedField(v.profile, start, fields, 1);
      if !ok { return; }
      ok := PushField(Decimal(v.level), start, fields, 2);
      if !ok { return; }
      ok := PushEncodedField(v.pixelFormat, start, fields, 3);
      if !ok { return; }
      ok := PushField(Decimal(v.bitDepth), start, fields, 4);
      if !ok { return; }
      ok := PushEncodedField(v.frameRate, start, fields, 5);
      if !ok { return; }
      ok := PushEncodedField(v.codecString, start, fields, 6);
      if !ok { return; }
      ok := PushEncodedField(v.audioLayout, start, fields, 7);
      assert fields[..8] == fields;
    }

    method PushChapter(c: ChapterInput) returns (ok: bool)
      requires TypedChapter(c)
      modifies this
      ensures Appended(old(output), ChapterText(c), output, ok)
    {
      hide Utf8.Valid, EncodeField, Decimal, Join;
      ghost var start, fields := output, ChapterFields(c);
      CutLabelIsText(c.title);
      FirstField(fields);
      ok := PushStr(Decimal(c.startMillis));
      if !ok { return; }
      ok := PushField(Decimal(c.endMillis), start, fields, 1);
      if !ok { return; }
      ok := PushEncodedField(CutLabel(c.title), start, fields, 2);
      assert fields[..3] == fields;
    }

    method PushSubtitle(s: Subtitle) returns (ok: bool)
      requires TypedSubtitle(s)
      modifies this
      ensures Appended(old(output), SubtitleText(s), output, ok)
    {
      hide Utf8.Valid, EncodeField, Decimal, Join;
      ghost var start, fields := output, SubtitleFields(s);
      CutLabelIsText(s.language);
      CutLabelIsText(s.title);
      FirstField(fields);
      ok := PushStr("@s");
      if !ok { return; }
      ok := PushField(Decimal(s.globalIndex), start, fields, 1);
      if !ok { return; }
      ok := PushField(s.codec, start, fields, 2);
      if !ok { return; }
      ok := PushEncodedField(CutLabel(s.language), start, fields, 3);
      if !ok { return; }
      ok := PushEncodedField(CutLabel(s.title), start, fields, 4);
      if !ok { return; }
      ok := PushField(if s.isDefault then "1" else "0", start, fields, 5);
      if !ok { return; }
      ok := PushField(if s.forced then "1" else "0", start, fields, 6);
      assert fields[..7] == fields;
    }

    /** One chapter entry, with a bar in front unless it is the first. */
    method PushEntry(index: nat, c: ChapterInput, ghost start: string, ghost done: seq<string>) returns (ok: bool)
      requires TypedChapter(c) && index == |done| && output == start + Join(done, "|")
      modifies this
      ensures Appended(start, Join(done + [ChapterText(c)], "|"), output, ok)
    {
      hide Utf8.Valid, Join, ChapterText;
      JoinSnoc(done, ChapterText(c), "|");
      EmptyJoin(done, "|");
      if index > 0 {
        ok := PushStr("|");
        if !ok { return; }
      }
      ok := PushChapter(c);
    }

    /** The body of the chapter record: entries joined by bars. */
    method PushChapters(chapters: seq<ChapterInput>) returns (ok: bool)
      requires forall i :: 0 <= i < |chapters| ==> TypedChapter(chapters[i])
      requires |output| <= MAX_BYTES
      modifies this
      ensures Appended(old(output), Join(ChapterTexts(chapters), "|"), output, ok)
    {
      ghost var start, texts := output, ChapterTexts(chapters);
      hide Utf8.Valid, Join, ChapterText, TypedChapter;
      EmptyJoin(texts[..0], "|");
      for i := 0 to |chapters|
        invariant Appended(start, Join(texts[..i], "|"), output, true)
      {
        assert texts[..i] + [texts[i]] == texts[..i + 1];
        ok := PushEntry(i, chapters[i], start, texts[..i]);
        if !ok { StillTooLong(start, texts[..i + 1], texts, "|", output); return; }
      }
      assert texts[..|texts|] == texts;
      return true;
    }

    /** Start one record after the records already written, then write its text. The record's
        own bytes are pushed by the method named in each caller; this states the separator. */
    method Separate(ghost done: seq<string>) returns (ok: bool)
      requires output == Join(done, ",") && (done != [] ==> done[0] != "")
      modifies this
      ensures Appended("", Join(done, ",") + (if done == [] then "" else ","), output, ok)
    {
      NonEmptyJoin(done, ",");
      ok := StartRecord();
    }

    method WriteAudio(a: AudioInput, ghost done: seq<string>) returns (ok: bool)
      requires TypedAudio(a) && output == Join(done, ",") && (done != [] ==> done[0] != "")
      modifies this
      ensures Appended("", Join(done + [AudioText(a)], ","), output, ok)
    {
      hide Utf8.Valid, Join, AudioText;
      JoinSnoc(done, AudioText(a), ",");
      EmptyJoin(done, ",");
      ok := Separate(done);
      if !ok { return; }
      ok := PushAudio(a);
    }

    method WriteVideo(v: Video, ghost done: seq<string>) returns (ok: bool)
      requires TypedVideo(v) && output == Join(done, ",") && (done != [] ==> done[0] != "")
      modifies this
      ensures Appended("", Join(done + [VideoText(v)], ","), output, ok)
    {
      hide Utf8.Valid, Join, VideoText;
      JoinSnoc(done, VideoText(v), ",");
      EmptyJoin(done, ",");
      ok := Separate(done);
      if !ok { return; }
      ok := PushVideo(v);
    }

    /** A marker and a literal suffix. */
    method WriteLiteral(marker: string, suffix: string, ghost done: seq<string>) returns (ok: bool)
      requires output == Join(done, ",") && (done != [] ==> done[0] != "")
      modifies this
      ensures Appended("", Join(done + [marker + suffix], ","), output, ok)
    {
      hide Join;
      JoinSnoc(done, marker + suffix, ",");
      EmptyJoin(done, ",");
      ok := Separate(done);
      if !ok { return; }
      ok := PushStr(marker);
      if !ok { return; }
      ok := PushStr(suffix);
    }

    method WriteChapters(chapters: seq<ChapterInput>, ghost done: seq<string>) returns (ok: bool)
      requires forall i :: 0 <= i < |chapters| ==> TypedChapter(chapters[i])
      requires output == Join(done, ",") && (done != [] ==> done[0] != "")
      modifies this
      ensures Appended("", Join(done + ["@c:" + Join(ChapterTexts(chapters), "|")], ","), output, ok)
    {
      hide Utf8.Valid, Join, ChapterText, TypedChapter;
      ghost var body := Join(ChapterTexts(chapters), "|");
      JoinSnoc(done, "@c:" + body, ",");
      EmptyJoin(done, ",");
      ok := Separate(done);
      if !ok { return; }
      ok := PushStr("@c:");
      if !ok { return; }
      ok := PushChapters(chapters);
    }

    method WriteSubtitle(s: Subtitle, ghost done: seq<string>) returns (ok: bool)
      requires TypedSubtitle(s) && output == Join(done, ",") && (done != [] ==> done[0] != "")
      modifies this
      ensures Appended("", Join(done + [SubtitleText(s)], ","), output, ok)
    {
      hide Utf8.Valid, Join, SubtitleText;
      JoinSnoc(done, SubtitleText(s), ",");
      EmptyJoin(done, ",");
      ok := Separate(done);
      if !ok { return; }
      ok := PushSubtitle(s);
    }

    method WriteAudios(audio: seq<AudioInput>) returns (ok: bool)
      requires forall i :: 0 <= i < |audio| ==> TypedAudio(audio[i])
      requires output == "" && (audio != [] ==> AudioText(audio[0]) != "")
      modifies this
      ensures Appended("", Join(AudioTexts(audio), ","), output, ok)
    {
      hide Utf8.Valid, Join, AudioText, TypedAudio;
      ghost var texts := AudioTexts(audio);
      EmptyJoin(texts[..0], ",");
      for i := 0 to |audio|
        invariant Appended("", Join(texts[..i], ","), output, true)
      {
        assert texts[..i] + [texts[i]] == texts[..i + 1];
        ok := WriteAudio(audio[i], texts[..i]);
        if !ok { StillTooLong("", texts[..i + 1], texts, ",", output); return; }
      }
      assert texts[..|texts|] == texts;
      return true;
    }

    /** The discovery marker and then the subtitles. */
    method WriteSubtitles(list: seq<Subtitle>, ghost done: seq<string>) returns (ok: bool)
      requires forall i :: 0 <= i < |list| ==> TypedSubtitle(list[i])
      requires output == Join(done, ",") && (done != [] ==> done[0] != "")
      modifies this
      ensures Appended("", Join(done + (["@s"] + SubtitleTexts(list)), ","), output, ok)
    {
      hide Utf8.Valid, Join, SubtitleText, TypedSubtitle;
      ghost var texts := done + (["@s"] + SubtitleTexts(list));
      ghost var n := |done| + 1;
      assert "@s" + "" == "@s";
      assert done + ["@s"] == texts[..n];
      ok := WriteLiteral("@s", "", done);
      if !ok { StillTooLong("", texts[..n], texts, ",", output); return; }
      for i := 0 to |list|
        invariant Appended("", Join(texts[..n + i], ","), output, true)
      {
        assert texts[..n + i] + [SubtitleText(list[i])] == texts[..n + i + 1];
        ok := WriteSubtitle(list[i], texts[..n + i]);
        if !ok { StillTooLong("", texts[..n + i + 1], texts, ",", output); return; }
      }
      assert texts[..n + |list|] == texts;
      return true;
    }
  }

  lemma EmptyJoin(done: seq<string>, sep: string)
    ensures done == [] ==> Join(done, sep) == ""
  {
  }

  lemma NonEmptyJoin(done: seq<string>, sep: string)
    requires done != [] ==> done[0] != ""
    ensures Join(done, sep) == "" <==> done == []
  {
  }

  lemma RecordsStart(input: Input)
    requires Typed(input)
    ensures Records(input)[0] != ""
  {
    hide Utf8.Valid;
    if input.audio == [] {
      assert Records(input)[0] == VideoText(input.video);
    } else {
      assert Records(input)[0] == AudioText(input.audio[0]);
    }
  }

  /** A failed step leaves the whole encoding too long. */
  lemma EncodingTooLong(input: Input, done: seq<string>, output: string)
    requires Typed(input) && |input.audio| <= MAX_AUDIO_RECORDS
    requires done <= Records(input) && Appended("", Join(done, ","), output, false)
    ensures Encode(input) == Err(TooLong(MAX_BYTES))
  {
    StillTooLong("", done, Records(input), ",", output);
  }

  /** The incremental writer returns exactly the bounded encoding: the whole text when it fits,
      and the size error as soon as some prefix of it does not. */
  method EncodeCompactStreamMetadata(input: Input) returns (r: Result<string, WriteError>)
    requires Typed(input)
    ensures r == Encode(input)
    ensures r.Ok? ==> Accepts(r.value)
  {
    hide Utf8.Valid, Join, AudioText, VideoText, ChapterText, SubtitleText, TypedAudio, TypedVideo,
      TypedChapter, TypedSubtitle;
    if |input.audio| > MAX_AUDIO_RECORDS {
      return Err(TooManyAudioRecords(|input.audio|, MAX_AUDIO_RECORDS));
    }
    ghost var records := Records(input);
    RecordsStart(input);
    var writer := new BoundedWriter();
    ghost var n := |input.audio|;
    assert AudioTexts(input.audio) == records[..n];
    var ok := writer.WriteAudios(input.audio);
    if !ok { EncodingTooLong(input, records[..n], writer.output); return Err(TooLong(MAX_BYTES)); }
    assert records[..n] + [VideoText(input.video)] == records[..n + 1];
    ok := writer.WriteVideo(input.video, records[..n]);
    if !ok { EncodingTooLong(input, records[..n + 1], writer.output); return Err(TooLong(MAX_BYTES)); }
    assert records[..n + 1] + ["@t:" + input.timestampMode] == records[..n + 2];
    ok := writer.WriteLiteral("@t:", input.timestampMode, records[..n + 1]);
    if !ok { EncodingTooLong(input, records[..n + 2], writer.output); return Err(TooLong(MAX_BYTES)); }
    n := n + 2;
    if input.chapters != [] {
      var cut := Take(input.chapters, MAX_CHAPTERS);
      assert records[..n] + ["@c:" + Join(ChapterTexts(cut), "|")] == records[..n + 1];
      ok := writer.WriteChapters(cut, records[..n]);
      if !ok { EncodingTooLong(input, records[..n + 1], writer.output); return Err(TooLong(MAX_BYTES)); }
      n := n + 1;
    }
    assert records == records[..n] + SubtitleRecords(input.subtitles);
    if input.subtitles.Some? {
      var list := Take(input.subtitles.value, MAX_SUBTITLE_RECORDS);
      ok := writer.WriteSubtitles(list, records[..n]);
      assert SubtitleRecords(input.subtitles) == ["@s"] + SubtitleTexts(list);
      if !ok { EncodingTooLong(input, records, writer.output); return Err(TooLong(MAX_BYTES)); }
      assert writer.output == Encoding(input);
    } else {
      assert records[..n] == records;
      assert writer.output == Encoding(input);
    }
    return Ok(writer.output);
  }
}
