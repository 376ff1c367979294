/** The compact stream-metadata text: its data model, its field escape, the tolerant readers,
    and the encoding the writer has to produce. */
module StreamMetadata {
  import opened Text
  import Utf8

  const MAX_BYTES: nat := 1024 * 1024
  const MAX_AUDIO_RECORDS: nat := 1024
  const MAX_SUBTITLE_RECORDS: nat := 128
  const MAX_CHAPTERS: nat := 512
  const MAX_LABEL_SCALARS: nat := 256

  datatype FieldError = InvalidEscape | InvalidUtf8

  datatype WriteError = TooLong(maxBytes: nat) | TooManyAudioRecords(count: nat, max: nat)

  datatype AudioInput = AudioInput(globalIndex: nat, audioIndex: nat, codec: string, channels: nat,
                                   language: Option<string>, title: Option<string>, isDefault: bool)

  datatype Video = Video(profile: string, level: nat, pixelFormat: string, bitDepth: nat,
                         frameRate: string, codecString: string, audioLayout: string)

  /** Times are the milliseconds `seconds_to_millis` has already rounded. */
  datatype ChapterInput = ChapterInput(startMillis: nat, endMillis: nat, title: Option<string>)

  datatype Subtitle = Subtitle(globalIndex: nat, codec: string, language: Option<string>,
                               title: Option<string>, isDefault: bool, forced: bool)

  datatype Input = Input(audio: seq<AudioInput>, subtitles: Option<seq<Subtitle>>, video: Video,
                         timestampMode: string, chapters: seq<ChapterInput>)

  /** An audio record as read, with its language and title decoded. */
  datatype Audio = Audio(globalIndex: nat, audioIndex: nat, codec: string, channels: Option<nat>,
                         language: Result<Option<string>, FieldError>,
                         title: Result<Option<string>, FieldError>, isDefault: bool)

  datatype Chapter = Chapter(sourceIndex: nat, startMillis: nat, endMillis: nat, title: Option<string>)

  /** Everything the readers report about one text. */
  datatype Metadata = Metadata(audio: seq<Audio>, hasVideo: bool, video: Option<Video>,
                               hasTimestamp: bool, timestampMode: Option<string>,
                               chapters: seq<Chapter>, hasSubtitleMarker: bool, subtitles: seq<Subtitle>)

  // ---------- field escape ----------

  predicate Literal(c: char) {
    'a' <= c <= 'z' || 'A' <= c <= 'Z' || IsDigit(c) || c in "-_.~ "
  }

  predicate IsByte(c: char) {
    c as int < 0x100
  }

  predicate Bytes(s: string) {
    forall i :: 0 <= i < |s| ==> IsByte(s[i])
  }

  function HexDigit(n: nat): char
    requires n < 16
  {
    if n < 10 then ('0' as int + n) as char else ('A' as int + (n - 10)) as char
  }

  function HexValue(c: char): Option<nat> {
    if IsDigit(c) then Some(c as int - '0' as int)
    else if 'a' <= c <= 'f' then Some(c as int - 'a' as int + 10)
    else if 'A' <= c <= 'F' then Some(c as int - 'A' as int + 10)
    else None
  }

  function EncodeByte(c: char): string
    requires IsByte(c)
  {
    if Literal(c) then [c] else ['%', HexDigit(c as int / 16), HexDigit(c as int % 16)]
  }

  function EncodeField(s: string): string
    requires Bytes(s)
  {
    if s == [] then [] else EncodeByte(s[0]) + EncodeField(s[1..])
  }

  /** Replace each complete percent triplet; a `%` with fewer than two bytes behind it stays. */
  function Unescape(s: string): Result<string, FieldError> {
    if s == [] then Ok([])
    else if s[0] == '%' && |s| > 2 then
      match (HexValue(s[1]), HexValue(s[2]))
      case (Some(high), Some(low)) => Prepend(((high * 16 + low) % 0x100) as char, Unescape(s[3..]))
      case _ => Err(InvalidEscape)
    else Prepend(s[0], Unescape(s[1..]))
  }

  function Prepend(c: char, r: Result<string, FieldError>): Result<string, FieldError> {
    match r case Ok(t) => Ok([c] + t) case Err(e) => Err(e)
  }

  function DecodeField(s: string): Result<string, FieldError> {
    if '%' !in s then Ok(s)
    else match Unescape(s)
         case Ok(t) => if Utf8.Valid(t) then Ok(t) else Err(InvalidUtf8)
         case Err(e) => Err(e)
  }

  function Label(s: string): Option<string> {
    if s == [] then None else Some(s)
  }

  function DecodeOptional(field: Option<string>): Result<Option<string>, FieldError> {
    match field
    case None => Ok(None)
    case Some(encoded) =>
      match DecodeField(encoded)
      case Ok(s) => Ok(Label(s))
      case Err(e) => Err(e)
  }

  function DecodeOrEmpty(s: string): string {
    match DecodeField(s) case Ok(t) => t case Err(_) => ""
  }

  // ---------- readers ----------

  function Field(fields: seq<string>, i: nat): Option<string> {
    if i < |fields| then Some(fields[i]) else None
  }

  function ParseAudio(record: string): Option<Audio> {
    var fields := Split(record, ':');
    if |fields| < 3 then None
    else match (ParseUnsigned(fields[0], USIZE_MAX), ParseUnsigned(fields[1], USIZE_MAX))
         case (Some(globalIndex), Some(audioIndex)) =>
           Some(Audio(globalIndex, audioIndex, Trim(fields[2]),
                      if |fields| > 3 then ParseUnsigned(fields[3], U32_MAX) else None,
                      DecodeOptional(Field(fields, 4)), DecodeOptional(Field(fields, 5)),
                      Field(fields, 6) == Some("1")))
         case _ => None
  }

  function ParseSubtitle(record: string): Option<Subtitle> {
    if !("@s:" <= record) then None
    else
      var fields := Split(record[3..], ':');
      if |fields| != 6 then None
      else match (ParseUnsigned(fields[0], U32_MAX), DecodeOptional(Some(fields[2])), DecodeOptional(Some(fields[3])))
           case (Some(globalIndex), Ok(language), Ok(title)) =>
             Some(Subtitle(globalIndex, fields[1], language, title, fields[4] == "1", fields[5] == "1"))
           case _ => None
  }

  function NumberOrZero(field: Option<string>): nat {
    match field
    case None => 0
    case Some(s) => match ParseUnsigned(s, U32_MAX) case Some(n) => n case None => 0
  }

  function TextOrEmpty(field: Option<string>): string {
    match field case None => "" case Some(s) => DecodeOrEmpty(s)
  }

  function ParseVideo(record: string): Video {
    var fields := Split(record, ':');
    Video(TextOrEmpty(Field(fields, 1)), NumberOrZero(Field(fields, 2)), TextOrEmpty(Field(fields, 3)),
          NumberOrZero(Field(fields, 4)), TextOrEmpty(Field(fields, 5)), TextOrEmpty(Field(fields, 6)),
          TextOrEmpty(Field(fields, 7)))
  }

  /** `splitn(3, ':')`: the third part keeps its colons. */
  function SplitThree(s: string): seq<string> {
    var parts := Split(s, ':');
    if |parts| <= 3 then parts else parts[..2] + [Join(parts[2..], ":")]
  }

  function ParseChapter(index: nat, text: string): Option<Chapter> {
    var fields := SplitThree(text);
    if |fields| < 2 then None
    else match (ParseUnsigned(fields[0], U64_MAX), ParseUnsigned(fields[1], U64_MAX))
         case (Some(start), Some(end)) =>
           if end < start then None
           else Some(Chapter(index, start, end,
                             match DecodeOptional(Field(fields, 2)) case Ok(title) => title case Err(_) => None))
         case _ => None
  }

  function ChaptersFrom(index: nat, texts: seq<string>): seq<Chapter>
    decreases |texts|
  {
    if texts == [] then []
    else (match ParseChapter(index, texts[0]) case Some(c) => [c] case None => []) + ChaptersFrom(index + 1, texts[1..])
  }

  /** The first record that carries a marker, with the marker removed. */
  function FirstSuffix(records: seq<string>, marker: string): Option<string> {
    if records == [] then None
    else if marker <= records[0] then Some(records[0][|marker|..])
    else FirstSuffix(records[1..], marker)
  }

  function Chapters(records: seq<string>): seq<Chapter> {
    match FirstSuffix(records, "@c:")
    case None => []
    case Some(text) => ChaptersFrom(0, Take(Split(text, '|'), MAX_CHAPTERS))
  }

  function ReadRecords(records: seq<string>): Metadata {
    var video := FirstSuffix(records, "@v:");
    var timestamp := FirstSuffix(records, "@t:");
    Metadata(Take(FilterMap(ParseAudio, records), MAX_AUDIO_RECORDS),
             video.Some?,
             (match video case None => None case Some(rest) => Some(ParseVideo("@v:" + rest))),
             timestamp.Some?, timestamp,
             Chapters(records),
             "@s" in records,
             Take(FilterMap(ParseSubtitle, records), MAX_SUBTITLE_RECORDS))
  }

  /** What the readers report about a text of at most `MAX_BYTES` bytes. */
  function Read(raw: string): Metadata {
    ReadRecords(Split(raw, ','))
  }

  /** The size test of `CompactStreamMetadata::parse`. */
  predicate Accepts(raw: string) {
    |raw| <= MAX_BYTES
  }

  // ---------- the encoding ----------

  function OrEmpty(s: Option<string>): string {
    match s case None => "" case Some(t) => t
  }

  function Flag(b: bool): string {
    if b then "1" else "0"
  }

  /** The types of the program's fields: `&str` is valid UTF-8, integers fit their width. */
  predicate Str(s: string) {
    Utf8.Valid(s) && Bytes(s)
  }

  predicate OptStr(s: Option<string>) {
    s.Some? ==> Str(s.value)
  }

  predicate TypedAudio(a: AudioInput) {
    a.globalIndex <= USIZE_MAX && a.audioIndex <= USIZE_MAX && a.channels <= U32_MAX &&
    Str(a.codec) && OptStr(a.language) && OptStr(a.title)
  }

  predicate TypedVideo(v: Video) {
    v.level <= U32_MAX && v.bitDepth <= U32_MAX && Str(v.profile) && Str(v.pixelFormat) &&
    Str(v.frameRate) && Str(v.codecString) && Str(v.audioLayout)
  }

  predicate TypedChapter(c: ChapterInput) {
    c.startMillis <= U64_MAX && c.endMillis <= U64_MAX && OptStr(c.title)
  }

  predicate TypedSubtitle(s: Subtitle) {
    s.globalIndex <= USIZE_MAX && Str(s.codec) && OptStr(s.language) && OptStr(s.title)
  }

  predicate Typed(input: Input) {
    && (forall i :: 0 <= i < |input.audio| ==> TypedAudio(input.audio[i]))
    && (input.subtitles.Some? ==>
          forall i :: 0 <= i < |input.subtitles.value| ==> TypedSubtitle(input.subtitles.value[i]))
    && TypedVideo(input.video)
    && Str(input.timestampMode)
    && (forall i :: 0 <= i < |input.chapters| ==> TypedChapter(input.chapters[i]))
  }

  predicate WritesLabels(a: AudioInput) {
    a.language.Some? || a.title.Some? || a.isDefault
  }

  /** A label is cut to its first 256 scalar values before it is escaped. */
  function CutLabel(caption: Option<string>): string
    requires OptStr(caption)
  {
    Utf8.TakeScalars(OrEmpty(caption), MAX_LABEL_SCALARS)
  }

  lemma CutLabelIsText(caption: Option<string>)
    requires OptStr(caption)
    ensures Str(CutLabel(caption))
  {
    Utf8.TakeScalarsCuts(OrEmpty(caption), MAX_LABEL_SCALARS);
  }

  function EncodeLabel(caption: Option<string>): string
    requires OptStr(caption)
  {
    CutLabelIsText(caption);
    EncodeField(CutLabel(caption))
  }

  function AudioFields(a: AudioInput): seq<string>
    requires TypedAudio(a)
  {
    [Decimal(a.globalIndex), Decimal(a.audioIndex), a.codec, Decimal(a.channels)] +
    if WritesLabels(a)
    then [EncodeField(OrEmpty(a.language)), EncodeField(OrEmpty(a.title)), Flag(a.isDefault)]
    else []
  }

  function VideoFields(v: Video): seq<string>
    requires TypedVideo(v)
  {
    ["@v", EncodeField(v.profile), Decimal(v.level), EncodeField(v.pixelFormat), Decimal(v.bitDepth),
     EncodeField(v.frameRate), EncodeField(v.codecString), EncodeField(v.audioLayout)]
  }

  function ChapterFields(c: ChapterInput): seq<string>
    requires TypedChapter(c)
  {
    [Decimal(c.startMillis), Decimal(c.endMillis), EncodeLabel(c.title)]
  }

  function SubtitleFields(s: Subtitle): seq<string>
    requires TypedSubtitle(s)
  {
    ["@s", Decimal(s.globalIndex), s.codec, EncodeLabel(s.language), EncodeLabel(s.title),
     Flag(s.isDefault), Flag(s.forced)]
  }

  function AudioText(a: AudioInput): string
    requires TypedAudio(a)
  {
    Join(AudioFields(a), ":")
  }

  function VideoText(v: Video): string
    requires TypedVideo(v)
  {
    Join(VideoFields(v), ":")
  }

  function ChapterText(c: ChapterInput): string
    requires TypedChapter(c)
  {
    Join(ChapterFields(c), ":")
  }

  function SubtitleText(s: Subtitle): string
    requires TypedSubtitle(s)
  {
    Join(SubtitleFields(s), ":")
  }

  function AudioTexts(audio: seq<AudioInput>): (r: seq<string>)
    requires forall i :: 0 <= i < |audio| ==> TypedAudio(audio[i])
    ensures |r| == |audio|
  {
    seq(|audio|, i requires 0 <= i < |audio| => AudioText(audio[i]))
  }

  function ChapterTexts(chapters: seq<ChapterInput>): (r: seq<string>)
    requires forall i :: 0 <= i < |chapters| ==> TypedChapter(chapters[i])
    ensures |r| == |chapters|
  {
    seq(|chapters|, i requires 0 <= i < |chapters| => ChapterText(chapters[i]))
  }

  function SubtitleTexts(subtitles: seq<Subtitle>): (r: seq<string>)
    requires forall i :: 0 <= i < |subtitles| ==> TypedSubtitle(subtitles[i])
    ensures |r| == |subtitles|
  {
    seq(|subtitles|, i requires 0 <= i < |subtitles| => SubtitleText(subtitles[i]))
  }

  function ChapterRecords(chapters: seq<ChapterInput>): seq<string>
    requires forall i :: 0 <= i < |chapters| ==> TypedChapter(chapters[i])
  {
    if chapters == [] then [] else ["@c:" + Join(ChapterTexts(Take(chapters, MAX_CHAPTERS)), "|")]
  }

  function SubtitleRecords(subtitles: Option<seq<Subtitle>>): seq<string>
    requires subtitles.Some? ==> forall i :: 0 <= i < |subtitles.value| ==> TypedSubtitle(subtitles.value[i])
  {
    match subtitles
    case None => []
    case Some(list) => ["@s"] + SubtitleTexts(Take(list, MAX_SUBTITLE_RECORDS))
  }

  function Records(input: Input): (r: seq<string>)
    requires Typed(input)
    ensures |r| >= 2
  {
    AudioTexts(input.audio) + [VideoText(input.video), "@t:" + input.timestampMode] +
    ChapterRecords(input.chapters) + SubtitleRecords(input.subtitles)
  }

  /** The encoding without any size limit. */
  function Encoding(input: Input): string
    requires Typed(input)
  {
    Join(Records(input), ",")
  }

  /** The bounded encoding: refused for too many audio records, then for its size. */
  function Encode(input: Input): Result<string, WriteError>
    requires Typed(input)
  {
    if |input.audio| > MAX_AUDIO_RECORDS then Err(TooManyAudioRecords(|input.audio|, MAX_AUDIO_RECORDS))
    else if |Encoding(input)| > MAX_BYTES then Err(TooLong(MAX_BYTES))
    else Ok(Encoding(input))
  }
}
