/** The whole-text round trip: what the readers recover from a written text, and exactly
    for which inputs that is everything the writer was given. */
module StreamMetadataRoundTrip {
  import opened Text
  import opened StreamMetadata
  import opened StreamMetadataFields
  import Utf8

  // ---------- what a lossless read returns ----------

  /** Absent and empty labels are the same to a reader. */
  function Normal(text: Option<string>): Option<string> {
    if text == Some("") then None else text
  }

  function NormalCut(text: Option<string>): Option<string>
    requires OptStr(text)
  {
    match Normal(text)
    case Some(t) => Some(Utf8.TakeScalars(t, 256))
    case None => None
  }

  function AudioOf(a: AudioInput): Audio {
    Audio(a.globalIndex, a.audioIndex, a.codec, Some(a.channels),
          Ok(Normal(a.language)), Ok(Normal(a.title)), a.isDefault)
  }

  function ChapterOf(index: nat, c: ChapterInput): Chapter
    requires TypedChapter(c)
  {
    Chapter(index, c.startMillis, c.endMillis, NormalCut(c.title))
  }

  function SubtitleOf(s: Subtitle): Subtitle
    requires TypedSubtitle(s)
  {
    s.(language := NormalCut(s.language), title := NormalCut(s.title))
  }

  function AudiosOf(audio: seq<AudioInput>): (r: seq<Audio>)
    ensures |r| == |audio|
  {
    seq(|audio|, i requires 0 <= i < |audio| => AudioOf(audio[i]))
  }

  function ChaptersOf(chapters: seq<ChapterInput>): (r: seq<Chapter>)
    requires forall i :: 0 <= i < |chapters| ==> TypedChapter(chapters[i])
    ensures |r| == |chapters|
  {
    seq(|chapters|, i requires 0 <= i < |chapters| => ChapterOf(i, chapters[i]))
  }

  function SubtitlesOf(subtitles: seq<Subtitle>): (r: seq<Subtitle>)
    requires forall i :: 0 <= i < |subtitles| ==> TypedSubtitle(subtitles[i])
    ensures |r| == |subtitles|
  {
    seq(|subtitles|, i requires 0 <= i < |subtitles| => SubtitleOf(subtitles[i]))
  }

  /** The first 128 subtitles; none when discovery never ran. */
  function WrittenSubtitles(input: Input): seq<Subtitle> {
    match input.subtitles case None => [] case Some(list) => Take(list, MAX_SUBTITLE_RECORDS)
  }

  function WrittenChapters(input: Input): seq<ChapterInput> {
    Take(input.chapters, MAX_CHAPTERS)
  }

  /** Everything the writer was given, with labels cut and normalised and lists cut. */
  function Normalised(input: Input): Metadata
    requires Typed(input)
  {
    Metadata(AudiosOf(input.audio), true, Some(input.video), true, Some(input.timestampMode),
             ChaptersOf(WrittenChapters(input)), input.subtitles.Some?, SubtitlesOf(WrittenSubtitles(input)))
  }

  // ---------- the condition ----------

  predicate PlainCodec(codec: string) {
    Free(codec, ',') && Free(codec, ':')
  }

  predicate Ordered(chapters: seq<ChapterInput>) {
    forall i :: 0 <= i < |chapters| ==> chapters[i].startMillis <= chapters[i].endMillis
  }

  /** What a caller has to check: codecs and the timestamp mode are written literally,
      audio codecs are trimmed on reading, chapters must not run backwards, and subtitle
      indices are read back as 32-bit numbers. */
  predicate Admissible(input: Input) {
    && (forall i :: 0 <= i < |input.audio| ==> PlainCodec(input.audio[i].codec) && Trimmed(input.audio[i].codec))
    && Free(input.timestampMode, ',')
    && Ordered(WrittenChapters(input))
    && (forall i :: 0 <= i < |WrittenSubtitles(input)| ==>
          PlainCodec(WrittenSubtitles(input)[i].codec) && WrittenSubtitles(input)[i].globalIndex <= U32_MAX)
  }

  // ---------- one record ----------

  lemma {:induction false} JoinIsFree(parts: seq<string>, sep: string, c: char)
    requires forall i :: 0 <= i < |parts| ==> Free(parts[i], c)
    requires Free(sep, c)
    ensures Free(Join(parts, sep), c)
  {
    if |parts| > 1 {
      JoinIsFree(parts[1..], sep, c);
    }
  }

  lemma EncodedIsFree(s: string)
    requires Str(s)
    ensures Free(EncodeField(s), ',') && Free(EncodeField(s), ':') && Free(EncodeField(s), '|')
  {
    EncodeFieldIsEscaped(s);
  }

  lemma EncodedLabelIsFree(text: Option<string>)
    requires OptStr(text)
    ensures Free(EncodeLabel(text), ',') && Free(EncodeLabel(text), ':') && Free(EncodeLabel(text), '|')
  {
    CutLabelIsText(text);
    EncodedIsFree(CutLabel(text));
  }

  lemma EncodedLabelReads(text: Option<string>)
    requires OptStr(text)
    ensures DecodeOptional(Some(EncodeLabel(text))) == Ok(NormalCut(text))
  {
    CutLabelIsText(text);
    DecodeOptionalEncode(CutLabel(text));
    if OrEmpty(text) != "" { CutIsNotEmpty(text.value); }
  }

  /** Cutting leaves something of every text that has something. */
  lemma CutIsNotEmpty(s: string)
    requires Utf8.Valid(s) && s != ""
    ensures Utf8.TakeScalars(s, 256) != ""
  {
  }

  lemma OrEmptyIsText(text: Option<string>)
    requires OptStr(text)
    ensures Str(OrEmpty(text))
  {
  }

  lemma AudioFieldsAreFree(a: AudioInput, c: char)
    requires TypedAudio(a) && c in ",:" && Free(a.codec, c)
    ensures forall i :: 0 <= i < |AudioFields(a)| ==> Free(AudioFields(a)[i], c)
  {
    EncodedIsFree(OrEmpty(a.language));
    EncodedIsFree(OrEmpty(a.title));
  }

  lemma AudioTextSplits(a: AudioInput)
    requires TypedAudio(a) && PlainCodec(a.codec)
    ensures Split(AudioText(a), ':') == AudioFields(a)
    ensures Free(AudioText(a), ',') && |AudioText(a)| > 0 && IsDigit(AudioText(a)[0])
  {
    hide Utf8.Valid, EncodeField, Decimal;
    var fields := AudioFields(a);
    AudioFieldsAreFree(a, ':');
    AudioFieldsAreFree(a, ',');
    JoinIsFree(fields, ":", ',');
    SplitJoin(fields, ':');
    assert AudioText(a)[0] == Decimal(a.globalIndex)[0];
  }

  lemma AudioReads(a: AudioInput)
    requires TypedAudio(a) && PlainCodec(a.codec) && Trimmed(a.codec)
    ensures ParseAudio(AudioText(a)) == Some(AudioOf(a))
  {
    hide Utf8.Valid, Join, Split, AudioText, EncodeField, DecodeField, Decimal, ParseUnsigned, Free, Trimmed, Trim;
    AudioTextSplits(a);
    ParseDecimal(a.globalIndex, USIZE_MAX);
    ParseDecimal(a.audioIndex, USIZE_MAX);
    ParseDecimal(a.channels, U32_MAX);
    TrimIsTrimmed(a.codec);
    OrEmptyIsText(a.language);
    OrEmptyIsText(a.title);
    DecodeOptionalEncode(OrEmpty(a.language));
    DecodeOptionalEncode(OrEmpty(a.title));
    var fields := AudioFields(a);
    assert fields[2] == a.codec && |fields| == if WritesLabels(a) then 7 else 4;
  }

  /** A tagged record is never an audio record. */
  lemma TaggedIsNotAudio(record: string)
    requires |record| > 0 && record[0] == '@'
    ensures ParseAudio(record) == None
  {
    assert Split(record, ':')[0][0] == '@';
  }

  lemma VideoTextSplits(v: Video)
    requires TypedVideo(v)
    ensures Split(VideoText(v), ':') == VideoFields(v)
    ensures "@v:" <= VideoText(v) && Free(VideoText(v), ',')
  {
    hide Utf8.Valid, EncodeField, Decimal, Split;
    var fields := VideoFields(v);
    EncodedIsFree(v.profile); EncodedIsFree(v.pixelFormat); EncodedIsFree(v.frameRate);
    EncodedIsFree(v.codecString); EncodedIsFree(v.audioLayout);
    JoinIsFree(fields, ":", ',');
    SplitJoin(fields, ':');
    assert Join(fields, ":") == "@v" + ":" + Join(fields[1..], ":");
  }

  lemma VideoReads(v: Video)
    requires TypedVideo(v)
    ensures ParseVideo(VideoText(v)) == v
  {
    hide Utf8.Valid, EncodeField, DecodeField, Decimal, ParseUnsigned, Split, VideoText;
    VideoTextSplits(v);
    ParseDecimal(v.level, U32_MAX); ParseDecimal(v.bitDepth, U32_MAX);
    DecodeEncode(v.profile); DecodeEncode(v.pixelFormat); DecodeEncode(v.frameRate);
    DecodeEncode(v.codecString); DecodeEncode(v.audioLayout);
  }

  lemma ChapterReads(index: nat, c: ChapterInput)
    requires TypedChapter(c)
    ensures ParseChapter(index, ChapterText(c)) ==
      if c.startMillis <= c.endMillis then Some(ChapterOf(index, c)) else None
    ensures Free(ChapterText(c), '|') && Free(ChapterText(c), ',')
  {
    var fields := ChapterFields(c);
    EncodedLabelIsFree(c.title);
    EncodedLabelReads(c.title);
    JoinIsFree(fields, ":", '|');
    JoinIsFree(fields, ":", ',');
    SplitJoin(fields, ':');
    ParseDecimal(c.startMillis, U64_MAX);
    ParseDecimal(c.endMillis, U64_MAX);
  }

  lemma SubtitleTextSplits(s: Subtitle)
    requires TypedSubtitle(s) && PlainCodec(s.codec)
    ensures Free(SubtitleText(s), ',') && "@s:" <= SubtitleText(s)
    ensures Split(SubtitleText(s)[3..], ':') == SubtitleFields(s)[1..]
  {
    hide Utf8.Valid, EncodeLabel, Decimal, Split;
    var fields := SubtitleFields(s);
    EncodedLabelIsFree(s.language); EncodedLabelIsFree(s.title);
    JoinIsFree(fields, ":", ',');
    assert Join(fields, ":") == "@s" + ":" + Join(fields[1..], ":");
    assert SubtitleText(s)[3..] == Join(fields[1..], ":");
    SplitJoin(fields[1..], ':');
  }

  lemma SubtitleReads(s: Subtitle)
    requires TypedSubtitle(s) && PlainCodec(s.codec) && s.globalIndex <= U32_MAX
    ensures ParseSubtitle(SubtitleText(s)) == Some(SubtitleOf(s))
  {
    hide Utf8.Valid, EncodeLabel, DecodeField, Decimal, ParseUnsigned, Split, SubtitleText;
    SubtitleTextSplits(s);
    EncodedLabelReads(s.language); EncodedLabelReads(s.title);
    ParseDecimal(s.globalIndex, U32_MAX);
  }

  // ---------- the record list ----------

  lemma {:induction false} FirstSuffixSkips(a: seq<string>, b: seq<string>, marker: string)
    requires forall i :: 0 <= i < |a| ==> !(marker <= a[i])
    ensures FirstSuffix(a + b, marker) == FirstSuffix(b, marker)
  {
    if a == [] {
      assert a + b == b;
    } else {
      FirstSuffixSkips(a[1..], b, marker);
      assert (a + b)[1..] == a[1..] + b;
    }
  }

  lemma FirstSuffixFinds(a: seq<string>, record: string, b: seq<string>, marker: string)
    requires forall i :: 0 <= i < |a| ==> !(marker <= a[i])
    requires marker <= record
    ensures FirstSuffix(a + [record] + b, marker) == Some(record[|marker|..])
  {
    FirstSuffixSkips(a, [record] + b, marker);
    assert a + [record] + b == a + ([record] + b);
  }

  lemma FirstSuffixMisses(a: seq<string>, marker: string)
    requires forall i :: 0 <= i < |a| ==> !(marker <= a[i])
    ensures FirstSuffix(a, marker) == None
  {
    FirstSuffixSkips(a, [], marker);
    assert a + [] == a;
  }

  /** Audio texts of an admissible input: all read back, none carries a marker. */
  lemma AudioRecordsRead(input: Input)
    requires Typed(input) && Admissible(input)
    ensures FilterMap(ParseAudio, AudioTexts(input.audio)) == AudiosOf(input.audio)
    ensures forall i :: 0 <= i < |input.audio| ==>
      Free(AudioTexts(input.audio)[i], ',') && AudioTexts(input.audio)[i] != [] &&
      AudioTexts(input.audio)[i][0] != '@'
  {
    var texts := AudioTexts(input.audio);
    forall i | 0 <= i < |texts|
      ensures ParseAudio(texts[i]) == Some(AudiosOf(input.audio)[i])
      ensures Free(texts[i], ',') && texts[i] != [] && texts[i][0] != '@'
    {
      AudioReads(input.audio[i]);
      AudioTextSplits(input.audio[i]);
    }
    FilterMapAll(ParseAudio, texts, AudiosOf(input.audio));
  }

  lemma SubtitleRecordsRead(list: seq<Subtitle>)
    requires forall i :: 0 <= i < |list| ==>
      TypedSubtitle(list[i]) && PlainCodec(list[i].codec) && list[i].globalIndex <= U32_MAX
    ensures FilterMap(ParseSubtitle, SubtitleTexts(list)) == SubtitlesOf(list)
    ensures forall i :: 0 <= i < |list| ==> Free(SubtitleTexts(list)[i], ',') && "@s:" <= SubtitleTexts(list)[i]
  {
    var texts := SubtitleTexts(list);
    forall i | 0 <= i < |texts|
      ensures ParseSubtitle(texts[i]) == Some(SubtitlesOf(list)[i])
      ensures Free(texts[i], ',') && "@s:" <= texts[i]
    {
      SubtitleReads(list[i]);
      SubtitleTextSplits(list[i]);
    }
    FilterMapAll(ParseSubtitle, texts, SubtitlesOf(list));
  }

  lemma {:induction false} ChapterTextsRead(index: nat, chapters: seq<ChapterInput>, texts: seq<string>,
                                            out: seq<Chapter>)
    requires |chapters| == |texts| == |out|
    requires Ordered(chapters) && forall i :: 0 <= i < |chapters| ==> TypedChapter(chapters[i])
    requires forall i :: 0 <= i < |chapters| ==> texts[i] == ChapterText(chapters[i])
    requires forall i :: 0 <= i < |chapters| ==> out[i] == ChapterOf(index + i, chapters[i])
    ensures ChaptersFrom(index, texts) == out
    decreases |texts|
  {
    hide Utf8.Valid, ParseChapter, ChapterText, ChapterOf;
    if texts != [] {
      ChapterReads(index, chapters[0]);
      ChapterTextsRead(index + 1, chapters[1..], texts[1..], out[1..]);
      assert out == [out[0]] + out[1..];
    }
  }

  lemma ChapterRecordsRead(chapters: seq<ChapterInput>)
    requires forall i :: 0 <= i < |chapters| ==> TypedChapter(chapters[i])
    requires Ordered(Take(chapters, MAX_CHAPTERS))
    ensures var records := ChapterRecords(chapters);
      && |records| <= 1
      && (forall i :: 0 <= i < |records| ==> "@c:" <= records[i] && Free(records[i], ','))
      && Chapters(records) == ChaptersOf(Take(chapters, MAX_CHAPTERS))
  {
    if chapters != [] {
      var cut := Take(chapters, MAX_CHAPTERS);
      var texts := ChapterTexts(cut);
      forall i | 0 <= i < |texts| ensures Free(texts[i], '|') && Free(texts[i], ',') {
        ChapterReads(i, cut[i]);
      }
      JoinIsFree(texts, "|", ',');
      SplitJoin(texts, '|');
      ChapterTextsRead(0, cut, texts, ChaptersOf(cut));
      assert ("@c:" + Join(texts, "|"))[3..] == Join(texts, "|");
      assert FirstSuffix(ChapterRecords(chapters), "@c:") == Some(Join(texts, "|"));
    }
  }

  /** Reading the record list of an admissible input. The five runs of records are named so
      that each reader is followed through them once. */
  lemma RecordsRead(input: Input)
    requires Typed(input) && Admissible(input) && |input.audio| <= MAX_AUDIO_RECORDS
    ensures ReadRecords(Records(input)) == Normalised(input)
  {
    hide Utf8.Valid, FilterMap, FirstSuffix, Chapters, ParseVideo, VideoText, Records, Admissible, Typed;
    AudioReader(input);
    VideoReader(input);
    TimestampReader(input);
    ChapterReader(input);
    SubtitleReader(input);
  }

  lemma RecordsParts(input: Input) returns (audio: seq<string>, tail: seq<string>)
    requires Typed(input) && Admissible(input)
    ensures audio == AudioTexts(input.audio)
    ensures tail == [VideoText(input.video), "@t:" + input.timestampMode] + ChapterRecords(input.chapters) +
      SubtitleRecords(input.subtitles)
    ensures Records(input) == audio + tail
    ensures forall i :: 0 <= i < |audio| ==> audio[i] != [] && audio[i][0] != '@' && Free(audio[i], ',')
    ensures forall i :: 0 <= i < |tail| ==> tail[i] != [] && tail[i][0] == '@' && Free(tail[i], ',')
    ensures forall i :: 0 <= i < |SubtitleRecords(input.subtitles)| ==> "@s" <= SubtitleRecords(input.subtitles)[i]
  {
    hide Utf8.Valid, Join, AudioText, VideoText, ChapterText, SubtitleText, FilterMap, Chapters,
      ParseVideo, ParseAudio, ParseSubtitle;
    audio := AudioTexts(input.audio);
    AudioRecordsRead(input);
    VideoTextSplits(input.video);
    ChapterRecordsRead(input.chapters);
    SubtitleRecordsRead(WrittenSubtitles(input));
    tail := [VideoText(input.video), "@t:" + input.timestampMode] + ChapterRecords(input.chapters) +
      SubtitleRecords(input.subtitles);
  }

  lemma AudioReader(input: Input)
    requires Typed(input) && Admissible(input)
    ensures FilterMap(ParseAudio, Records(input)) == AudiosOf(input.audio)
  {
    var audio, tail := RecordsParts(input);
    AudioRecordsRead(input);
    forall i | 0 <= i < |tail| ensures ParseAudio(tail[i]) == None {
      TaggedIsNotAudio(tail[i]);
    }
    FilterMapNone(ParseAudio, tail);
    FilterMapConcat(ParseAudio, audio, tail);
  }

  lemma VideoReader(input: Input)
    requires Typed(input) && Admissible(input)
    ensures FirstSuffix(Records(input), "@v:") == Some(VideoText(input.video)[3..])
    ensures "@v:" + VideoText(input.video)[3..] == VideoText(input.video)
    ensures ParseVideo(VideoText(input.video)) == input.video
  {
    hide Utf8.Valid, VideoText, FilterMap, ParseVideo, FirstSuffix, Records, ChapterRecords, SubtitleRecords;
    var audio, tail := RecordsParts(input);
    VideoReads(input.video);
    VideoTextSplits(input.video);
    var video := VideoText(input.video);
    assert audio + tail == audio + [video] + tail[1..];
    FirstSuffixFinds(audio, video, tail[1..], "@v:");
  }

  lemma TimestampReader(input: Input)
    requires Typed(input) && Admissible(input)
    ensures FirstSuffix(Records(input), "@t:") == Some(input.timestampMode)
  {
    hide Utf8.Valid, VideoText, FilterMap, ParseVideo, FirstSuffix, Records, ChapterRecords, SubtitleRecords;
    var audio, tail := RecordsParts(input);
    VideoTextSplits(input.video);
    var video, time := VideoText(input.video), "@t:" + input.timestampMode;
    assert video[1] == 'v';
    assert audio + tail == (audio + [video]) + [time] + tail[2..];
    FirstSuffixFinds(audio + [video], time, tail[2..], "@t:");
  }

  /** Nothing before or after the chapter record can be taken for one. */
  lemma OnlyChaptersAreTagged(input: Input) returns (before: seq<string>)
    requires Typed(input) && Admissible(input)
    ensures Records(input) == before + ChapterRecords(input.chapters) + SubtitleRecords(input.subtitles)
    ensures forall i :: 0 <= i < |before| ==> !("@c:" <= before[i])
    ensures forall i :: 0 <= i < |SubtitleRecords(input.subtitles)| ==> !("@c:" <= SubtitleRecords(input.subtitles)[i])
  {
    hide Utf8.Valid, Join, AudioText, VideoText, ChapterText, SubtitleText, FilterMap, ParseVideo, Chapters,
      SubtitleRecords, ChapterRecords, Records;
    var audio, tail := RecordsParts(input);
    VideoTextSplits(input.video);
    var video, time := VideoText(input.video), "@t:" + input.timestampMode;
    before := audio + [video, time];
    assert video[1] == 'v' && time[1] == 't';
    assert Records(input) == before + ChapterRecords(input.chapters) + SubtitleRecords(input.subtitles);
    forall i | 0 <= i < |SubtitleRecords(input.subtitles)|
      ensures !("@c:" <= SubtitleRecords(input.subtitles)[i])
    {
      assert SubtitleRecords(input.subtitles)[i][1] == 's';
    }
  }

  lemma ChapterReader(input: Input)
    requires Typed(input) && Admissible(input)
    ensures Chapters(Records(input)) == ChaptersOf(WrittenChapters(input))
  {
    hide Utf8.Valid, Join, ChapterText, FirstSuffix, ChaptersFrom, SubtitleRecords, Records, ChapterRecords;
    var before := OnlyChaptersAreTagged(input);
    var chapters, subtitles := ChapterRecords(input.chapters), SubtitleRecords(input.subtitles);
    ChapterRecordsRead(input.chapters);
    if chapters == [] {
      assert before + chapters + subtitles == before + subtitles;
      FirstSuffixMisses(before + subtitles, "@c:");
      FirstSuffixMisses(chapters, "@c:");
    } else {
      assert chapters == [chapters[0]];
      FirstSuffixFinds(before, chapters[0], subtitles, "@c:");
      FirstSuffixFinds([], chapters[0], [], "@c:");
      assert [] + [chapters[0]] + [] == chapters;
    }
  }

  lemma SubtitleReader(input: Input)
    requires Typed(input) && Admissible(input)
    ensures FilterMap(ParseSubtitle, Records(input)) == SubtitlesOf(WrittenSubtitles(input))
    ensures "@s" in Records(input) <==> input.subtitles.Some?
  {
    hide Utf8.Valid, Join, AudioText, VideoText, ChapterText, SubtitleText, Chapters, ParseVideo,
      ParseAudio, TypedVideo, Trimmed;
    var audio, tail := RecordsParts(input);
    VideoTextSplits(input.video);
    ChapterRecordsRead(input.chapters);
    var before := audio + [VideoText(input.video), "@t:" + input.timestampMode] + ChapterRecords(input.chapters);
    var subtitles := SubtitleRecords(input.subtitles);
    assert Records(input) == before + subtitles;
    forall i | 0 <= i < |before| ensures ParseSubtitle(before[i]) == None && before[i] != "@s" {
      if i < |audio| {
        assert before[i] == audio[i];
      } else if i == |audio| {
        assert before[i] == VideoText(input.video) && before[i][1] == 'v';
      } else if i == |audio| + 1 {
        assert before[i] == "@t:" + input.timestampMode && before[i][1] == 't';
      } else {
        assert before[i] == ChapterRecords(input.chapters)[i - |audio| - 2] && before[i][1] == 'c';
      }
    }
    FilterMapNone(ParseSubtitle, before);
    FilterMapConcat(ParseSubtitle, before, subtitles);
    if input.subtitles.Some? {
      var list := WrittenSubtitles(input);
      SubtitleRecordsRead(list);
      assert subtitles == ["@s"] + SubtitleTexts(list);
      assert ParseSubtitle("@s") == None;
      FilterMapConcat(ParseSubtitle, ["@s"], SubtitleTexts(list));
      FilterMapNone(ParseSubtitle, ["@s"]);
      assert subtitles[0] == "@s";
    }
  }

  // ---------- every reader's range ----------

  /** A subtitle, audio, chapter or timestamp result can only hold values of these shapes,
      whatever text it was read from. */
  lemma ReaderRange(raw: string)
    ensures forall i :: 0 <= i < |Read(raw).audio| ==>
      PlainCodec(Read(raw).audio[i].codec) && Trimmed(Read(raw).audio[i].codec)
    ensures Read(raw).timestampMode.Some? ==> Free(Read(raw).timestampMode.value, ',')
    ensures forall i :: 0 <= i < |Read(raw).chapters| ==>
      Read(raw).chapters[i].startMillis <= Read(raw).chapters[i].endMillis
    ensures forall i :: 0 <= i < |Read(raw).subtitles| ==>
      PlainCodec(Read(raw).subtitles[i].codec) && Read(raw).subtitles[i].globalIndex <= U32_MAX
  {
    var records := Split(raw, ',');
    SplitPartsAreFree(raw, ',');
    forall i | 0 <= i < |Read(raw).audio|
      ensures PlainCodec(Read(raw).audio[i].codec) && Trimmed(Read(raw).audio[i].codec)
    {
      FilterMapSource(ParseAudio, records, i);
      var k :| 0 <= k < |records| && ParseAudio(records[k]) == Some(Read(raw).audio[i]);
      SplitPartsAreFree(records[k], ':');
      SplitPartsInherit(records[k], ':', ',');
      TrimIsTrimmed(Split(records[k], ':')[2]);
    }
    forall i | 0 <= i < |Read(raw).subtitles|
      ensures PlainCodec(Read(raw).subtitles[i].codec) && Read(raw).subtitles[i].globalIndex <= U32_MAX
    {
      FilterMapSource(ParseSubtitle, records, i);
      var k :| 0 <= k < |records| && ParseSubtitle(records[k]) == Some(Read(raw).subtitles[i]);
      SplitPartsAreFree(records[k][3..], ':');
      SplitPartsInherit(records[k][3..], ':', ',');
    }
    FirstSuffixRange(records, "@t:");
    ChaptersRange(records);
  }

  lemma {:induction false} FirstSuffixRange(records: seq<string>, marker: string)
    requires forall i :: 0 <= i < |records| ==> Free(records[i], ',')
    ensures FirstSuffix(records, marker).Some? ==> Free(FirstSuffix(records, marker).value, ',')
  {
    if records != [] && !(marker <= records[0]) {
      FirstSuffixRange(records[1..], marker);
    }
  }

  lemma ChaptersRange(records: seq<string>)
    ensures forall i :: 0 <= i < |Chapters(records)| ==>
      Chapters(records)[i].startMillis <= Chapters(records)[i].endMillis
  {
    match FirstSuffix(records, "@c:")
    case None =>
    case Some(text) => ChaptersFromRange(0, Take(Split(text, '|'), MAX_CHAPTERS));
  }

  lemma {:induction false} ChaptersFromRange(index: nat, texts: seq<string>)
    ensures forall i :: 0 <= i < |ChaptersFrom(index, texts)| ==>
      ChaptersFrom(index, texts)[i].startMillis <= ChaptersFrom(index, texts)[i].endMillis
    decreases |texts|
  {
    if texts != [] {
      ChaptersFromRange(index + 1, texts[1..]);
    }
  }

  // ---------- main results ----------

  lemma RecordsSplit(input: Input)
    requires Typed(input) && Admissible(input)
    ensures Split(Encoding(input), ',') == Records(input)
  {
    hide Utf8.Valid, Join, AudioText, VideoText, ChapterText, SubtitleText, FilterMap, Chapters,
      ParseVideo, ParseAudio, ParseSubtitle, Split;
    var audio, tail := RecordsParts(input);
    forall i | 0 <= i < |Records(input)| ensures Free(Records(input)[i], ',') {
      if i < |audio| { assert Records(input)[i] == audio[i]; } else { assert Records(input)[i] == tail[i - |audio|]; }
    }
    SplitJoin(Records(input), ',');
  }

  /** For every input the writer accepts, reading the written text gives back exactly what
      was written if and only if the input is admissible. */
  lemma WholeTextRoundTrip(input: Input)
    requires Typed(input) && Encode(input).Ok?
    ensures Accepts(Encode(input).value)
    ensures Read(Encode(input).value) == Normalised(input) <==> Admissible(input)
  {
    var raw := Encode(input).value;
    if Admissible(input) {
      RecordsSplit(input);
      RecordsRead(input);
    }
    if Read(raw) == Normalised(input) {
      ReaderRange(raw);
      AdmissibleFromRange(input);
    }
  }

  /** A label as it is read back: what was given, unless that is absent or empty. */
  predicate ReadsAs(given: Option<string>, read: Result<Option<string>, FieldError>) {
    && (given.None? || given.value == "" ==> read == Ok(None))
    && (given.Some? && given.value != "" ==> read == Ok(given))
  }

  /** A label that was cut: its longest beginning of at most 256 scalar values. */
  predicate ReadsCut(given: Option<string>, read: Option<string>) {
    && (given.None? || given.value == "" ==> read == None)
    && (given.Some? && given.value != "" ==>
          && read.Some? && read.value <= given.value && Utf8.Valid(read.value) && Utf8.Valid(given.value)
          && Utf8.ScalarCount(read.value) == (if Utf8.ScalarCount(given.value) <= 256
                                              then Utf8.ScalarCount(given.value) else 256)
          && (Utf8.ScalarCount(given.value) <= 256 ==> read == given))
  }

  function AtMost(n: nat, limit: nat): nat {
    if n <= limit then n else limit
  }

  predicate AudioReadsAs(a: AudioInput, r: Audio) {
    && r.globalIndex == a.globalIndex && r.audioIndex == a.audioIndex && r.codec == a.codec
    && r.channels == Some(a.channels) && r.isDefault == a.isDefault
    && ReadsAs(a.language, r.language) && ReadsAs(a.title, r.title)
  }

  predicate ChapterReadsAs(index: nat, c: ChapterInput, r: Chapter) {
    && r.sourceIndex == index && r.startMillis == c.startMillis && r.endMillis == c.endMillis
    && ReadsCut(c.title, r.title)
  }

  predicate SubtitleReadsAs(t: Subtitle, r: Subtitle) {
    && r.globalIndex == t.globalIndex && r.codec == t.codec && r.isDefault == t.isDefault && r.forced == t.forced
    && ReadsCut(t.language, r.language) && ReadsCut(t.title, r.title)
  }

  /** The round trip of an admissible input, field by field. */
  lemma ReadBackFieldByField(input: Input)
    requires Typed(input) && Encode(input).Ok? && Admissible(input)
    ensures var m := Read(Encode(input).value);
      && |m.audio| == |input.audio| <= 1024
      && (forall i :: 0 <= i < |m.audio| ==> AudioReadsAs(input.audio[i], m.audio[i]))
      && m.hasVideo && m.video == Some(input.video)
      && m.hasTimestamp && m.timestampMode == Some(input.timestampMode)
      && |m.chapters| == AtMost(|input.chapters|, 512)
      && (forall i :: 0 <= i < |m.chapters| ==> ChapterReadsAs(i, input.chapters[i], m.chapters[i]))
      && (m.hasSubtitleMarker <==> input.subtitles.Some?)
      && (input.subtitles.None? ==> m.subtitles == [])
      && (input.subtitles.Some? ==>
            && |m.subtitles| == AtMost(|input.subtitles.value|, 128)
            && forall i :: 0 <= i < |m.subtitles| ==> SubtitleReadsAs(input.subtitles.value[i], m.subtitles[i]))
  {
    WholeTextRoundTrip(input);
    assert |input.audio| <= 1024;
    hide Read, Encode, Admissible, Utf8.Valid, AudioReadsAs, ChapterReadsAs, SubtitleReadsAs;
    var m := Read(Encode(input).value);
    forall i | 0 <= i < |m.audio| ensures AudioReadsAs(input.audio[i], m.audio[i]) {
      AudioOfReads(input.audio[i]);
    }
    forall i | 0 <= i < |m.chapters| ensures ChapterReadsAs(i, input.chapters[i], m.chapters[i]) {
      ChapterOfReads(i, input.chapters[i]);
    }
    forall i | 0 <= i < |m.subtitles| ensures SubtitleReadsAs(input.subtitles.value[i], m.subtitles[i]) {
      SubtitleOfReads(input.subtitles.value[i]);
    }
  }

  lemma AudioOfReads(a: AudioInput)
    ensures AudioReadsAs(a, AudioOf(a))
  {
  }

  lemma ChapterOfReads(index: nat, c: ChapterInput)
    requires TypedChapter(c)
    ensures ChapterReadsAs(index, c, ChapterOf(index, c))
  {
    CutReadsCut(c.title);
  }

  lemma SubtitleOfReads(t: Subtitle)
    requires TypedSubtitle(t)
    ensures SubtitleReadsAs(t, SubtitleOf(t))
  {
    CutReadsCut(t.language);
    CutReadsCut(t.title);
  }

  lemma CutReadsCut(text: Option<string>)
    requires OptStr(text)
    ensures ReadsCut(text, NormalCut(text))
  {
    if text.Some? && text.value != "" {
      Utf8.TakeScalarsCuts(text.value, 256);
    }
  }

  lemma AdmissibleFromRange(input: Input)
    requires Typed(input)
    requires var m := Normalised(input);
      && (forall i :: 0 <= i < |m.audio| ==> PlainCodec(m.audio[i].codec) && Trimmed(m.audio[i].codec))
      && Free(m.timestampMode.value, ',')
      && (forall i :: 0 <= i < |m.chapters| ==> m.chapters[i].startMillis <= m.chapters[i].endMillis)
      && (forall i :: 0 <= i < |m.subtitles| ==>
            PlainCodec(m.subtitles[i].codec) && m.subtitles[i].globalIndex <= U32_MAX)
    ensures Admissible(input)
  {
    var m := Normalised(input);
    forall i | 0 <= i < |input.audio|
      ensures PlainCodec(input.audio[i].codec) && Trimmed(input.audio[i].codec)
    {
      assert m.audio[i].codec == input.audio[i].codec;
    }
    forall i | 0 <= i < |WrittenChapters(input)|
      ensures WrittenChapters(input)[i].startMillis <= WrittenChapters(input)[i].endMillis
    {
      assert m.chapters[i].startMillis == WrittenChapters(input)[i].startMillis;
    }
    forall i | 0 <= i < |WrittenSubtitles(input)|
      ensures PlainCodec(WrittenSubtitles(input)[i].codec) && WrittenSubtitles(input)[i].globalIndex <= U32_MAX
    {
      assert m.subtitles[i].codec == WrittenSubtitles(input)[i].codec;
    }
  }

  /** One audio record whose codec is a single space, and nothing else. */
  function SpacedCodec(): Input {
    Input([AudioInput(0, 0, " ", 0, None, None, false)], None, Video("", 0, "", 0, "", "", ""), "", [])
  }

  lemma SpacedCodecIsTyped()
    ensures Typed(SpacedCodec())
  {
    assert Utf8.Valid("") && Utf8.Valid(" ");
  }

  lemma SpacedCodecRecords()
    ensures Typed(SpacedCodec())
    ensures Records(SpacedCodec()) == [AudioText(SpacedCodec().audio[0]), VideoText(SpacedCodec().video), "@t:"]
  {
    SpacedCodecIsTyped();
    hide Utf8.Valid, AudioText, VideoText;
    var input := SpacedCodec();
    assert AudioTexts(input.audio) == [AudioText(input.audio[0])];
    assert ChapterRecords(input.chapters) == [] && SubtitleRecords(input.subtitles) == [];
    assert "@t:" + input.timestampMode == "@t:";
  }

  lemma SpacedCodecAudioIsShort()
    ensures TypedAudio(SpacedCodec().audio[0]) && |AudioText(SpacedCodec().audio[0])| <= 24
  {
    SpacedCodecIsTyped();
    var audio := AudioFields(SpacedCodec().audio[0]);
    assert audio == ["0", "0", " ", "0"];
    hide Utf8.Valid, Join;
    JoinIsShort(audio, ":", 1);
  }

  lemma SpacedCodecVideoIsShort()
    ensures TypedVideo(SpacedCodec().video) && |VideoText(SpacedCodec().video)| <= 24
  {
    SpacedCodecIsTyped();
    var video := VideoFields(SpacedCodec().video);
    hide Utf8.Valid, Join;
    JoinIsShort(video, ":", 2);
  }

  lemma SpacedCodecFits()
    ensures Typed(SpacedCodec()) && Encode(SpacedCodec()).Ok?
  {
    SpacedCodecRecords();
    SpacedCodecAudioIsShort();
    SpacedCodecVideoIsShort();
    hide Utf8.Valid, Join, AudioText, VideoText, Records;
    JoinIsShort(Records(SpacedCodec()), ",", 24);
  }

  lemma {:induction false} JoinIsShort(parts: seq<string>, sep: string, n: nat)
    requires |sep| == 1 && forall i :: 0 <= i < |parts| ==> |parts[i]| <= n
    ensures |Join(parts, sep)| <= |parts| * (n + 1)
  {
    if |parts| > 1 {
      JoinIsShort(parts[1..], sep, n);
    }
  }

  /** It is written, and read back with an empty codec. */
  lemma SpacedCodecIsLost()
    ensures Typed(SpacedCodec()) && Encode(SpacedCodec()).Ok?
    ensures !Admissible(SpacedCodec())
    ensures Read(Encode(SpacedCodec()).value) != Normalised(SpacedCodec())
  {
    SpacedCodecFits();
    assert SpacedCodec().audio[0].codec == " ";
    assert !Trimmed(" ");
    WholeTextRoundTrip(SpacedCodec());
  }
}
