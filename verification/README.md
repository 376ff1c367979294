# rustyDLNA: a verified model of its core algorithms

rustyDLNA is a DLNA / UPnP media server with a set of library-maintenance tools. This project
models the parts of it that carry real state, branching or arithmetic, and proves what those
parts are for: texts that read back as they were written, a gate that never lets anybody pass
the queue, files that survive every failed move, a calendar that is the calendar.

`dafny verify dfyconfig.toml` checks everything.

## What is modelled

| modules | part of the system |
|---|---|
| `StreamMetadata`, `StreamMetadataFields`, `StreamMetadataForm`, `StreamMetadataWriter`, `StreamMetadataRoundTrip` | the compact stream-metadata text of the catalog: field escape, tolerant readers, bounded writer |
| `Calendar` | civil dates from Unix timestamps |
| `HelperGate`, `GateProtocol`, `GateRuns`, `JobGate` | admission of media helpers and title jobs, as locked objects and as protocols of any number of threads |
| `CaptureDrain`, `DescriptorInheritance` | a child's output drained into bounded memory; files handed to a child at chosen descriptors |
| `HttpSyntax`, `HttpResponse`, `HttpRequest` | message framing of RFC 9112 and the field rules of RFC 9110, writing and reading |
| `ResourcePaths` | identifiers printed into URLs and parsed back |
| `ClientCache` | the 25-slot renderer cache |
| `GenreLinks` | reconciling generated genre links |
| `Intake`, `IntakePlanning` | moving new files into the library, all or none, and the plans for it |
| `PreviewDisk`, `PreviewPublication`, `PreviewGenerator` | publishing timeline previews on a disk that may lose power |
| `PreviewSizing`, `ProgressStream` | timeline-preview arithmetic and FFmpeg's progress stream |
| `Text`, `Utf8` | byte strings: splitting, joining, decimal numbers, white space, well-formed UTF-8 |

A `string` holds one char per byte; a Rust `&str` is such a string that is well-formed UTF-8 as
RFC 3629 defines it. Objects the program updates in place are classes. Their methods are proved
against functions on values, and the theorems are about those functions. Time, randomness,
cancellation and read results are parameters, and so is which calls of the file transactions
fail: moves, link operations, and every system call of publication. The theorems hold for
whatever those turn out to be. Threads appear in `GateProtocol` and `JobGate` as steps that
interleave in any order.

## Where the code does less than its purpose suggests

Each of these is proved as an exact condition or shown by a concrete input.

- The stream-metadata writer writes codecs and the timestamp mode literally, and readers trim
  audio codecs, drop chapters that run backwards and read subtitle indices as 32-bit numbers.
  `WholeTextRoundTrip` proves that a written text reads back completely if and only if none of
  that bites (`Admissible`, which a caller can check beforehand); `SpacedCodecIsLost` is an input
  that is written and lost.
- Running the `dup2` steps in order delivers files that differ if and only if no step's target
  is the source of a later step (`DeliversIffNoClobber`). The normalization in `spawn`
  establishes that for several files; a single file needs none.
- Two intake plans can each pass every check and not go through together: a companion file
  whose name continues both videos' names belongs to both groups
  (`SharedCompanionStopsTheRun`). A run of checked plans can be moved if and only if no two of
  them take the same file (`CheckedRunMovesIff`); one plan by itself always can
  (`CheckedPlanMoves`). When it cannot, the run is rolled back.
- Intake's rollback restores the initial files exactly, except for a file whose move took effect
  although it was reported as failed (`ApplyIntake`).
- A specific renderer profile can be displaced by a generic request once it has expired: by one
  that comes for its own address without its hardware address, or by a new address, which makes
  the cache sweep (`ExpiredProfileIsDisplaced`). `SpecificProfileStaysIff` says exactly which
  sequences of calls it outlives.
- Publishing a preview is safe against stopping at any point. It is not safe against a power
  loss: the generator syncs the directory and flushes the manifest, never the sheets, so a
  durable manifest can name a damaged sheet (`UnflushedSheetIsLost`); and regenerating the
  published revision can bring a half-written sheet of an earlier attempt back
  (`StaleTemporaryResurfaces`). A power loss is safe at every point if and only if the sheets'
  data and the clearing of old temporary sheets have reached the disk before the renames
  (`PublicationSurvivesPowerLossIff`, `Publish`). The directory sync that is there is needed
  as well (`SyncBeforeManifestIsNeeded`).

## Model

| member | source | states |
|---|---|---|
| StreamMetadataFields.UnescapeEncode | crates/protocol/src/stream_metadata.rs:107-142 | unescaping gives back every byte string that was escaped, whether or not it is UTF-8 |
| StreamMetadataFields.DecodeEncode | crates/protocol/src/stream_metadata.rs:116-142 | decoding inverts encoding exactly on well-formed UTF-8 and reports invalid UTF-8 on everything else |
| StreamMetadataFields.UnescapePlain | crates/protocol/src/stream_metadata.rs:121-123 | the early return for text without a percent sign answers what the loop would have |
| StreamMetadataFields.EncodeFieldIsEscaped | crates/protocol/src/stream_metadata.rs:590-603 | an escaped field has only literal bytes and percent signs, so it never contains a separator of any record |
| StreamMetadataFields.EncodeCompactStreamField | crates/protocol/src/stream_metadata.rs:107-114 | the encoding loop produces the escaped field, and decoding its output returns the input |
| StreamMetadataFields.DecodeCompactStreamField | crates/protocol/src/stream_metadata.rs:120-142 | the index loop agrees with the recursive decoder on every text, incomplete escapes at the end included |
| StreamMetadataFields.DecodeOptionalEncode | crates/protocol/src/stream_metadata.rs:559-567 | an escaped label is read back as exactly the text that was given, an empty one as absent |
| StreamMetadataForm.EscapeForm | crates/protocol/src/stream_metadata.rs:590-603 | wherever it stands, a letter, digit or one of `-_.~` and space is written for itself and every other byte as a percent sign and two upper-case digits |
| StreamMetadataForm.UnescapeForm | crates/protocol/src/stream_metadata.rs:120-142 | for every text: a percent sign and two digits of either case stand for that byte, any other two bytes behind it are an error, and a percent sign with fewer behind it stands for itself |
| StreamMetadataForm.DecodeForm | crates/protocol/src/stream_metadata.rs:120-142 | decoding succeeds exactly when unescaping does and its bytes are UTF-8, and the two errors are told apart |
| StreamMetadataForm.AudioForm | crates/protocol/src/stream_metadata.rs:438-455 | the written audio record, part by part: four parts when there is nothing to say about labels and default, else seven |
| StreamMetadataForm.VideoForm | crates/protocol/src/stream_metadata.rs:457-471 | the written video record, part by part |
| StreamMetadataForm.ChapterForm | crates/protocol/src/stream_metadata.rs:482-494 | the written chapter: both times and the first 256 scalars of the title, escaped |
| StreamMetadataForm.SubtitleForm | crates/protocol/src/stream_metadata.rs:501-516 | the written subtitle record: index, codec, both labels cut to 256 scalars and escaped, both flags |
| StreamMetadataForm.TextForm | crates/protocol/src/stream_metadata.rs:427-519 | the whole text: audio, video, timestamp, at most 512 chapters in one record, the marker and at most 128 subtitles; refused for more than 1024 audio records and then for more than 1048576 bytes, with those numbers |
| StreamMetadataForm.AnyAudio | crates/protocol/src/stream_metadata.rs:521-539 | any record, also one the writer never produces: it is audio exactly with three parts of which two are numbers; missing or malformed channels are unknown, missing labels absent, only "1" is the default |
| StreamMetadataForm.AnyVideo | crates/protocol/src/stream_metadata.rs:229-242 | any video record: each part is read by itself, and is empty or zero when missing or malformed |
| StreamMetadataForm.AnySubtitle | crates/protocol/src/stream_metadata.rs:200-223 | any subtitle record: it counts exactly with six parts, a number and two readable labels |
| StreamMetadataForm.AnyChapter | crates/protocol/src/stream_metadata.rs:541-557 | any chapter entry: it counts exactly with two times in order; its title keeps its colons, and an unreadable one is none |
| StreamMetadataForm.SourceIndices | crates/protocol/src/stream_metadata.rs:255-266 | chapters carry the position of their entry, are what that entry reads as, and come in order |
| StreamMetadataForm.NoEntryIsLeftOut | crates/protocol/src/stream_metadata.rs:255-266 | malformed entries leave gaps, and no readable one is left out |
| StreamMetadataForm.FirstSuffixForm | crates/protocol/src/stream_metadata.rs:229-249 | of several records with a marker the first decides, and just the marker is taken off it |
| Utf8.TakeScalarsCuts | crates/protocol/src/stream_metadata.rs:488-493 | cutting a label keeps a well-formed prefix of exactly the first scalars and leaves short text alone |
| Utf8.EncodedIsValid | crates/protocol/src/stream_metadata.rs:488-493 | every sequence of encoded scalar values is well-formed and counts as many, and cutting it keeps the first of them |
| Utf8.ValidIsEncoded | crates/protocol/src/stream_metadata.rs:139-141 | and every well-formed text is such a sequence, so the test accepts exactly UTF-8 |
| Utf8.TrimMeaning | crates/protocol/src/stream_metadata.rs:525 | trimming takes the white-space scalars of Unicode, and only those, off both ends |
| StreamMetadataWriter.BoundedWriter.PushStr | crates/protocol/src/stream_metadata.rs:643-656 | text is appended whole if it fits the budget, and otherwise nothing is |
| StreamMetadataWriter.BoundedWriter.StartRecord | crates/protocol/src/stream_metadata.rs:611-616 | a comma separates records, and only records |
| StreamMetadataWriter.BoundedWriter.PushEncoded | crates/protocol/src/stream_metadata.rs:618-624 | byte-by-byte writing succeeds exactly when the whole escaped field fits, and then appends it |
| StreamMetadataWriter.BoundedWriter.WriteAudios | crates/protocol/src/stream_metadata.rs:438-455 | the audio loop succeeds exactly when all records fit, and then holds their comma-joined texts |
| StreamMetadataWriter.BoundedWriter.WriteVideo | crates/protocol/src/stream_metadata.rs:457-471 | the video record follows what was written, whole or as a size failure |
| StreamMetadataWriter.BoundedWriter.WriteChapters | crates/protocol/src/stream_metadata.rs:477-496 | the chapter record is its marker and the bar-joined chapters, whole or as a size failure |
| StreamMetadataWriter.BoundedWriter.WriteSubtitles | crates/protocol/src/stream_metadata.rs:498-517 | the discovery marker and all subtitle records are written, whole or as a size failure |
| StreamMetadataWriter.EncodeCompactStreamMetadata | crates/protocol/src/stream_metadata.rs:427-519 | the incremental writer returns the unbounded encoding when that has at most 1 MiB and the size error otherwise; too many audio records are refused first; every success is accepted by the parser's size test |
| StreamMetadataRoundTrip.AudioReads | crates/protocol/src/stream_metadata.rs:521-539 | an audio record with a plain, trimmed codec reads back with every field: labels that are present and not empty as given, others as absent |
| StreamMetadataRoundTrip.VideoReads | crates/protocol/src/stream_metadata.rs:229-242 | a video record reads back with every field, without any condition |
| StreamMetadataRoundTrip.ChapterReads | crates/protocol/src/stream_metadata.rs:541-557 | a chapter reads back with the first 256 scalars of its title if and only if it does not run backwards |
| StreamMetadataRoundTrip.SubtitleReads | crates/protocol/src/stream_metadata.rs:200-223 | a subtitle record with a plain codec and a 32-bit index reads back with the first 256 scalars of its labels |
| StreamMetadataRoundTrip.TaggedIsNotAudio | crates/protocol/src/stream_metadata.rs:187-191 | no tagged record is mistaken for an audio record |
| StreamMetadataRoundTrip.TimestampReader | crates/protocol/src/stream_metadata.rs:247-249 | among all written records the timestamp reader finds exactly the timestamp record |
| StreamMetadataRoundTrip.ReaderRange | crates/protocol/src/stream_metadata.rs:187-266 | whatever text is read, codecs come out plain and trimmed, chapters ordered, subtitle indices 32-bit |
| StreamMetadataRoundTrip.WholeTextRoundTrip | crates/protocol/src/stream_metadata.rs:427-519 | for every input that encodes, reading returns all audio, video and timestamp fields, the first 512 chapters and 128 subtitles with labels cut to 256 scalars, and keeps "no discovery" apart from "no subtitles", if and only if the input is admissible |
| StreamMetadataRoundTrip.ReadBackFieldByField | crates/protocol/src/stream_metadata.rs:427-519 | what that says, field by field and in numbers: every admissible input that encodes comes back with all its records in order, at most 512 chapters and 128 subtitles, each number, codec and flag as given, each non-empty label as given or its first 256 scalars, each absent or empty one as absent |
| StreamMetadataRoundTrip.SpacedCodecIsLost | crates/protocol/src/stream_metadata.rs:521-525 | an audio codec of one space is written and does not read back |
| Calendar.YearContains | crates/protocol/src/date.rs:36-37 | the division formula finds the year of the era that contains a day, also on leap days |
| Calendar.Locate | crates/protocol/src/date.rs:34-39 | every day of a 400-year era lies in one of its years, and the formula finds that year |
| Calendar.YearIsCalendar | crates/protocol/src/date.rs:40-43 | within a March-based year the month formula gives valid dates, one calendar day after another, leap-aware at its end |
| Calendar.DaysFollowTheCalendar | crates/protocol/src/date.rs:30-54 | for every day number: the date is valid, and the next number is the calendar's next day and next weekday |
| Calendar.EpochIsThursday | crates/protocol/src/date.rs:30-54 | day 0 is Thursday 1 January 1970 |
| Calendar.EqualsCountedCalendar | crates/protocol/src/date.rs:30-54 | the formula equals counting one day at a time from the epoch, forwards and backwards |
| Calendar.DatesIncrease | crates/protocol/src/date.rs:30-54 | later days have later dates, so the conversion loses nothing |
| Calendar.UtcIsValid | crates/protocol/src/date.rs:30-54 | for every 64-bit timestamp: date and time of day are valid, narrowing to 8 bits is lossless, no intermediate value overflows, and day count and time of day add up to the timestamp (`TimestampCounts` says which date that day is) |
| Calendar.NextDayOfTimestamp | crates/protocol/src/date.rs:26-54 | 86400 seconds later is the next day and weekday at the same time |
| Calendar.TimestampZero | crates/protocol/src/date.rs:30-54 | timestamp 0 is Thursday 1 January 1970 at midnight |
| Calendar.TimestampCounts | crates/protocol/src/date.rs:30-54 | n days and s seconds after the epoch are the date counted n days on from 1 January 1970, the weekday counted from Thursday, at second s of the day; and n days before it, n steps lead to the epoch |
| HelperGate.HelperGate.constructor | crates/helper/src/gate.rs:67-82 | a new gate is empty with at least one slot |
| HelperGate.HelperGate.TryAcquireMany | crates/helper/src/gate.rs:120-134 | one critical section of group admission is the gate step the protocol uses |
| HelperGate.HelperGate.TryAcquireIdle | crates/helper/src/gate.rs:140-144 | one critical section of idle admission is the gate step the protocol uses |
| HelperGate.HelperGate.EnterQueue | crates/helper/src/gate.rs:166-181 | the first critical section of a waiting acquisition: cancelled with no effect; or admitted exactly when a slot is free and the queue empty; or queued at the end exactly when fewer wait than it holds; or refused |
| HelperGate.HelperGate.RemoveTicket | crates/helper/src/gate.rs:186-188 | the position search and removal take out the first occurrence of the ticket and keep the order of the rest |
| HelperGate.HelperGate.WaitTurn | crates/helper/src/gate.rs:184-208 | one turn of the wait loop: cancelled; or admitted exactly at the front with a free slot, even when expired; or timed out; or waiting on with no effect |
| HelperGate.HelperGate.Observe | crates/helper/src/gate.rs:100-111 | a finished wait enters total, maximum and exactly one bucket |
| HelperGate.HelperGate.DropPermit | crates/helper/src/gate.rs:249-255 | dropping a permit is the release step the protocol uses, saturating at zero |
| GateProtocol.NextInv | crates/helper/src/gate.rs:120-220 | every step of every thread keeps the invariant that ties active slots, queue and counters to the history |
| GateProtocol.EveryRunKeepsInv | crates/helper/src/gate.rs:90-255 | so does every interleaving of any length |
| GateRuns.GateIsSound | crates/helper/src/gate.rs:90-255 | in every reachable state: active slots are those of the live permits and within the limit, which is at least one; the queue is within its capacity, strictly increasing and holds exactly the waiting tickets; saturated = rejected + queued; rejections are the refusals that happened; finished waits plus the queue are the queued ones; total and maximum are those of the finished waits, and the first buckets together hold those of at most 10, 50, 100, 500 and 1000 ms; admitted slots are active plus released |
| GateRuns.ArrivalOutcomes | crates/helper/src/gate.rs:166-181 | an arrival that is not cancelled gets a permit if and only if a slot is free and nobody waits; else it becomes the last waiting ticket if and only if fewer wait than the queue holds; else it is refused; a cancelled one changes nothing |
| GateRuns.TurnOutcomes | crates/helper/src/gate.rs:184-208 | a cancelled turn settles its ticket as cancelled; otherwise the earliest waiter with a free slot is admitted even after its deadline; otherwise an expired one times out; otherwise nothing changes |
| GateRuns.NoBypass | crates/helper/src/gate.rs:120-197 | whatever step hands out a permit, it fits the free slots, and either nobody waits or the permit goes to the earliest waiting ticket |
| GateRuns.EarlierTicketsAreSettled | crates/helper/src/gate.rs:184-197 | in every run, an admitted waiter finds every earlier ticket admitted, timed out or cancelled |
| GateRuns.FatesAreFinal | crates/helper/src/gate.rs:184-208 | a ticket is settled at most once, whatever happens later |
| GateRuns.AdmissionsAreFirstCome | crates/helper/src/gate.rs:193-197 | over whole runs the admitted waiters were admitted in ticket order, each recorded once |
| GateRuns.SkipsAndRefusalsHoldNothing | crates/helper/src/gate.rs:120-144 | a skipped idle admission changes nothing at all, counters included; a refused group holds no slot; both exactly when there is no room or somebody waits |
| GateRuns.RoundAdmits | crates/helper/src/gate.rs:193-197 | if every waiter takes one turn in ticket order, the earliest are admitted and no slot stays free while somebody waits |
| JobGate.JobGate.TryAdd | crates/helper/src/gate.rs:310-317 | a manual reservation succeeds exactly below the cap, and takes one manual slot |
| JobGate.JobGate.ReleaseManual | crates/helper/src/gate.rs:322-326 | a release gives back a manual slot and never more than were taken |
| JobGate.JobGate.TryAcquire | crates/helper/src/gate.rs:329-338 | a permit is granted exactly below the cap, and takes one permit slot |
| JobGate.CapHolds | crates/helper/src/gate.rs:276-385 | over every interleaving both kinds together stay within the cap, and the permit count is the number of permits still held |
| JobGate.CapHoldsFromTheStart | crates/helper/src/gate.rs:276-385 | so from every new gate, a cap of zero counting as one |
| JobGate.StepOutcomes | crates/helper/src/gate.rs:310-385 | reservation and permit are handed out exactly while reservations and held permits are fewer than the cap; each release takes one away |
| JobGate.ReleasesStayApart | crates/helper/src/gate.rs:319-385 | however often manual slots are released, no permit's slot is given away, and dropping a permit takes no manual slot |
| CaptureDrain.RetainedGrows | crates/helper/src/process.rs:288-302 | keeping the first or last bytes can be done chunk by chunk |
| CaptureDrain.RetainedMeaning | crates/helper/src/process.rs:288-302 | what is kept is everything that fits, else exactly the limit from the beginning or the end |
| CaptureDrain.Keep | crates/helper/src/process.rs:288-302 | one chunk added to the kept bytes leaves the policy's bytes of everything read, and the overflow flag says whether that exceeded the limit |
| CaptureDrain.DrainBounded | crates/helper/src/process.rs:226-310 | for every sequence of read, stop and poll events: the result is exactly the first or last bytes up to the limit, or the overflow error if and only if the policy asks for it and more was read, or the reported read error; at most 32 reads and 256 KiB follow the stop flag; the loop ends exactly at the first event that must end it |
| DescriptorInheritance.NoClobberDelivers | crates/helper/src/process.rs:430-447 | when no step overwrites a later source, every target ends at its own file with close-on-exec cleared; covers one file whose source is its target |
| DescriptorInheritance.ClobberMisdelivers | crates/helper/src/process.rs:430-447 | an overwritten source hands the wrong file to its own target |
| DescriptorInheritance.DeliversIffNoClobber | crates/helper/src/process.rs:430-447 | for files that differ, running the steps in order delivers all of them if and only if no target is a later source |
| DescriptorInheritance.Process.DupAtLeast | crates/helper/src/process.rs:403-408 | the duplicate is the lowest free descriptor from the minimum on, with close-on-exec set; failure means there is none |
| DescriptorInheritance.Process.InstallAt | crates/helper/src/process.rs:436-445 | one pre-exec closure performs the step on the table, or changes nothing when the target is beyond the limit |
| DescriptorInheritance.SupervisedCommand.InheritFileAt | crates/helper/src/process.rs:360-382 | standard descriptors and repeated targets are refused; otherwise a clone is owned at a descriptor that was free, unless none is; owned files always have distinct sources and targets |
| DescriptorInheritance.SupervisedCommand.RaiseSources | crates/helper/src/process.rs:400-414 | moving each source up and closing the original carries every file, keeps all foreign descriptors, and ends without any clobbering; it succeeds while enough descriptors are free |
| DescriptorInheritance.SupervisedCommand.Normalize | crates/helper/src/process.rs:387-415 | with several files every source ends above every target; with one nothing moves; enough free descriptors make it succeed |
| DescriptorInheritance.RunClosures | crates/helper/src/process.rs:430-447 | the closures run in order like the steps on values, and all succeed exactly when every target is below the limit or open |
| DescriptorInheritance.SupervisedCommand.Spawn | crates/helper/src/process.rs:384-448 | for any number of files and any descriptor table, a started child has every file at its target, open across exec, and every other descriptor above standard error as its parent; starting one file succeeds exactly when its target is in reach, several when enough descriptors are free |
| HttpSyntax.FieldOfLine | crates/http/src/request.rs:100-106 | a printed field line splits into its name and its trimmed value |
| HttpSyntax.BlockEnds | crates/http/src/request.rs:169-171 | the header block ends exactly behind the empty line, whatever body follows |
| HttpSyntax.BlockSplits | crates/http/src/request.rs:62-65 | cutting the block out and splitting it returns the lines that were written, and the rest is the body |
| HttpSyntax.FirstBlankLine | crates/http/src/request.rs:169-171 | in any bytes the block ends four behind the first CR LF CR LF, and nowhere without one |
| HttpSyntax.SplitLinesMeaning | crates/http/src/request.rs:63 | any block is its lines joined by CR LF, and no line has one in it |
| HttpSyntax.TrimOwsMeaning | crates/protocol/src/http_syntax.rs:43-45 | spaces and tabs are taken off both ends, and nothing else |
| HttpSyntax.BytesMeaning | crates/protocol/src/http_syntax.rs:6-40 | token bytes are the visible ASCII characters without the delimiters of RFC 9110; value bytes exclude exactly control characters but the tab |
| HttpResponse.SetMakesSingle | crates/http/src/lib.rs:551-572 | after setting a field its name stands exactly once with the new value, and all other fields keep their order |
| HttpResponse.OthersMeaning | crates/http/src/lib.rs:564-571 | a field goes exactly when it has the name, ignoring case, and the others keep their order |
| HttpResponse.HttpResponse.Set | crates/http/src/lib.rs:553-572 | the search and removal loops replace the first occurrence in place, drop the others, or append |
| HttpResponse.HttpResponse.DropLater | crates/http/src/lib.rs:564-571 | the removal loop takes out every later field of the name and nothing else |
| HttpResponse.HttpResponse.Append | crates/http/src/lib.rs:577-579 | a field is added at the end and nothing else changes |
| HttpResponse.HttpResponse.ScanHeaders | crates/http/src/lib.rs:625-648 | either every field is fit to send and the declared length and transfer encoding are known, or the first offending field is named |
| HttpResponse.HttpResponse.TryBytesWire | crates/http/src/lib.rs:610-692 | a response is serialized if and only if it may be sent, as exactly the wire text; every refusal names a defect the response really has |
| HttpResponse.HttpResponse.AppendFields | crates/http/src/lib.rs:675-687 | the loop writes one line for every field the serializer does not write itself, in order |
| HttpResponse.SendableMeaning | crates/http/src/lib.rs:611-668 | what may be sent, in plain terms: a status of 100 to 599, clean texts and fields, no transfer encoding, at most one length, and with a body its length or, on a connection that is closed, none |
| HttpResponse.HeaderLinesAreClean | crates/http/src/lib.rs:611-648 | no accepted response can smuggle in a line break or an empty header line |
| HttpResponse.StatusLineReads | crates/http/src/lib.rs:671-674 | status and reason are recovered from the status line, spaces in the reason included |
| HttpResponse.FramingRoundTrip | crates/http/src/lib.rs:610-692 | for every response that may be sent: the block detector finds exactly the emitted end of headers, the rest is exactly the body, and the lines read back as the status, Connection keep-alive or close as it is to persist or not, Date, Server, EXT and every other field in order |
| HttpResponse.SentMeaning | crates/http/src/lib.rs:675-687 | a field is sent in its place exactly when its name is none of Server, Date, Connection and EXT in any case |
| HttpResponse.LengthArrives | crates/http/src/lib.rs:655-668 | of every body on a connection that stays open the recipient gets a Content-Length, and every one it gets is the body's length |
| HttpRequest.RequestLineMeaning | crates/http/src/request.rs:65-87 | a request line is accepted if and only if it is a token, a target and a supported version one space apart |
| HttpRequest.RequestLineErrors | crates/http/src/request.rs:65-82 | an unsupported version is reported exactly for a line that is right otherwise; every other refused line is bad |
| HttpRequest.LineMeaning | crates/http/src/request.rs:93-108 | a header line is a field exactly when it is a token, a colon and a value of allowed bytes with spaces and tabs around it |
| HttpRequest.LineErrors | crates/http/src/request.rs:97-108 | each error of a header line and the lines it is for |
| HttpRequest.SplitQueryMeaning | crates/http/src/request.rs:84-87 | path and query are what stands around the first question mark |
| HttpRequest.FieldStep | crates/http/src/request.rs:100-150 | one more field is taken exactly when the fields so far and it satisfy the framing rules together, and the parser's flags keep saying what has been seen |
| HttpRequest.LinesStep | crates/http/src/request.rs:93-150 | from any reachable state, the remaining lines are accepted exactly when they are well-formed and satisfy the rules together with what came before |
| HttpRequest.ParseMeaning | crates/http/src/request.rs:88-157 | a block is accepted if and only if its lines are well-formed, lengths agree, Host and SOAPAction come at most once and Transfer-Encoding never; then names are distinct ignoring case, each lookup is the wire-order ", "-join of that name's trimmed values (equal lengths count once), and the length is the number the first Content-Length denotes, or none without one |
| HttpRequest.FirstBadLine | crates/http/src/request.rs:93-150 | a refused block is answered for its first bad line: that line's syntax error, or what its field objects to in the earlier ones |
| HttpRequest.TransferEncodingIsRefused | crates/http/src/request.rs:151-156 | a block with no other fault than a transfer encoding is refused for it, or for having a length as well |
| HttpRequest.IncompleteMeaning | crates/http/src/request.rs:62 | bytes are incomplete exactly when no empty line is in them |
| HttpRequest.ReorderingIsInvisible | crates/http/src/request.rs:34-43 | blocks that agree on the values of every name are both accepted or both refused, with the same lookups |
| HttpRequest.ExchangeKeepsValues | crates/http/src/request.rs:93-150 | exchanging neighbouring fields of different names changes no name's values |
| HttpRequest.ExchangeIsInvisible | crates/http/src/request.rs:93-157 | exchanging neighbouring lines of different names changes neither acceptance nor any lookup, for every block |
| HttpRequest.RequestRoundTrip | crates/http/src/request.rs:61-171 | a printed request parses back: the block ends where it was ended and the rest is the body; it is accepted if and only if its fields are acceptable together, and then with the printed line, every name's combined values, the printed number as its length, and field by field when no name is repeated |
| HttpRequest.CombineInto | crates/http/src/request.rs:141-149 | a repeated field is appended to its first occurrence in place, a new one goes to the end |
| HttpRequest.ParseFieldLines | crates/http/src/request.rs:88-156 | the header loop with its early returns equals the line-by-line specification, error for error |
| HttpRequest.ParseHeaders | crates/http/src/request.rs:61-166 | the whole parser equals its specification, and accepted headers have distinct names |
| ResourcePaths.StrtollPrefixLoop | crates/protocol/src/paths.rs:27-44 | the index loop parses exactly the longest leading integer |
| ResourcePaths.StrtollOfDecimal | crates/protocol/src/paths.rs:25-44 | a printed integer is read back whatever follows it, and refused exactly when it leaves 64 bits |
| ResourcePaths.StrtollMeaning | crates/protocol/src/paths.rs:27-44 | any text: its leading sign and digits are the number, within 64 bits; without digits there is none |
| ResourcePaths.IdMeaning | crates/protocol/src/paths.rs:46-58 | an identifier is read behind the route's prefix and before the query; other paths have none |
| ResourcePaths.CaptionIndexMeaning | crates/protocol/src/paths.rs:60-79 | any caption component: its leading number in 32 bits, the first caption without one, and a minus sign for zeros only |
| ResourcePaths.CaptionMeaning | crates/protocol/src/paths.rs:90-100 | any caption path: the component behind the number's slash selects, and without a slash the default |
| ResourcePaths.MediaItemRoundTrip | crates/protocol/src/paths.rs:50-53 | a media URL's path gives back its identifier for every extension, negative ones and the 64-bit extremes included |
| ResourcePaths.TranscodeRoundTrip | crates/protocol/src/paths.rs:55-58 | a transcode URL's path gives back its identifier |
| ResourcePaths.AlbumArtRoundTrip | crates/protocol/src/paths.rs:131-139 | an album-art URL's path gives back the art identifier and never the second number, whatever its sign |
| ResourcePaths.CaptionIndexedRoundTrip | crates/protocol/src/paths.rs:90-100 | an indexed caption URL gives back identifier and index, and is refused exactly when one of them is out of range |
| ResourcePaths.CaptionDefaultRoundTrip | crates/protocol/src/paths.rs:90-100 | a default caption URL gives back its identifier and the default selector |
| ResourcePaths.CaptionIndexOfDecimal | crates/protocol/src/paths.rs:60-79 | a caption index is read back from whatever decorates it, and refused exactly beyond 32 bits |
| ResourcePaths.NegativeCaptionIndex | crates/protocol/src/paths.rs:75-77 | a negative caption index is refused unless it is zero |
| ClientCache.ClientCache.Len | crates/protocol/src/client_cache.rs:36-38 | counting occupied slots is counting addresses |
| ClientCache.ClientCache.SetAgeOf | crates/protocol/src/client_cache.rs:40-46 | the loop over the slots changes the age of that address and nothing else |
| ClientCache.ClientCache.SearchFor | crates/protocol/src/client_cache.rs:53-81 | searching the slots is searching the map, expiry and extension included |
| ClientCache.ClientCache.Expire | crates/protocol/src/client_cache.rs:98-102 | the sweep removes exactly the expired entries |
| ClientCache.ClientCache.FillFree | crates/protocol/src/client_cache.rs:103-112 | a new entry is stored if and only if fewer than 25 addresses are held |
| ClientCache.ClientCache.AddClient | crates/protocol/src/client_cache.rs:83-113 | adding updates a held entry exactly when the new profile may displace the held one, then with the new profile, address and age; a new address is stored exactly as given when there is room; otherwise nothing changes; and the slots stay the map |
| ClientCache.ClientCache.RememberClient | crates/protocol/src/client_cache.rs:117-137 | a request that may displace the entry of its address is answered with itself and cached; one that may not is answered with the entry, unchanged but for its age; and the slots stay the map |
| ClientCache.AddKeepsLiveEntries | crates/protocol/src/client_cache.rs:83-113 | adding never touches a live entry of another address, refuses if and only if 25 live entries of other addresses fill the cache, and then changes nothing |
| ClientCache.AddMeaning | crates/protocol/src/client_cache.rs:83-113 | a held entry becomes the new profile, seen now, at the new hardware address or the old one, exactly when a generic row meets a standard one or a specific row comes that is not series A upon series B; else it is untouched; a new address takes the place of entries over an hour old |
| ClientCache.SearchMeaning | crates/protocol/src/client_cache.rs:53-81 | an entry seen within 3600 seconds or asked for by its own hardware address is answered, in the latter case as seen now; any other is dropped |
| ClientCache.RememberAtHeldAddress | crates/protocol/src/client_cache.rs:117-137 | for an address with an entry: the request itself where it may displace, the held profile where it may not and the entry is kept, each with the whole map afterwards |
| ClientCache.RememberAtNewAddress | crates/protocol/src/client_cache.rs:117-137 | for a new address: the request itself, cached exactly as given whenever there is room |
| ClientCache.EveryRunFits | crates/protocol/src/client_cache.rs:53-137 | over every sequence of calls the map fits the slots |
| ClientCache.WeakerCallKeepsProfileIff | crates/protocol/src/client_cache.rs:53-137 | a call that may not displace a specific profile keeps it if and only if the entry is not the expired one that the call drops or sweeps |
| ClientCache.SpecificProfileStaysIff | crates/protocol/src/client_cache.rs:53-160 | over every sequence of calls that may not displace it, a specific profile is there in the end if and only if each call spared its entry; once gone it does not come back |
| ClientCache.SpecificProfileStays | crates/protocol/src/client_cache.rs:115-160 | in particular, while its entry stays live, a specific profile is never displaced by a generic one, nor Samsung's series B by series A |
| ClientCache.ExpiredProfileIsDisplaced | crates/protocol/src/client_cache.rs:115-137 | a specific profile stored at second 0 is replaced by a generic request without a hardware address at second 3601 |
| ClientCache.RememberAnswersTheCache | crates/protocol/src/client_cache.rs:131-136 | what a request is told is what the cache holds for it afterwards |
| ClientCache.ExpiryNeedsTheSameMac | crates/protocol/src/client_cache.rs:52-81 | an expired entry survives a search exactly when the same hardware address asks; the answer and the other entries are as they were |
| GenreLinks.ReconcileMeaning | contrib/library/lib/build-genre-links.py:396-459 | reconciliation succeeds if and only if preflight passes; then each desired link is at its movie, each unchanged obsolete recorded link is gone, and every other path, retargeted recorded links included, is untouched |
| GenreLinks.ReconcileInPlainTerms | contrib/library/lib/build-genre-links.py:396-459 | it succeeds if and only if every wanted path is free, right already, or still the very link the old index recorded; then every wanted link is at its movie, also where it led elsewhere before; of the other paths exactly the unchanged recorded links are gone and the rest is as it was |
| GenreLinks.ResumeReachesTheSameEnd | contrib/library/lib/build-genre-links.py:396-459 | a rerun from any interrupted state passes preflight and ends exactly where the uninterrupted run would |
| GenreLinks.ResultIsQuiet | contrib/library/lib/build-genre-links.py:396-399 | a run on its own result has no link operation to do, with the old index or the new |
| GenreLinks.ReconcileLinks | contrib/library/lib/build-genre-links.py:408-459 | a failed preflight touches nothing; after it only a failing link operation can stop the run, in a state that can be resumed from like all in between; success reaches the reconciled tree; a quiet tree sees no operation |
| GenreLinks.UnlinkObsolete | contrib/library/lib/build-genre-links.py:425-439 | the unlink loop removes exactly the obsolete links that still point where the index says, or stops resumably at a failing call |
| GenreLinks.CreateDesired | contrib/library/lib/build-genre-links.py:453-459 | after preflight the create loop never meets an existing path it would have to replace; only a failing call stops it, resumably |
| Intake.RollbackRestores | contrib/library/lib/intake_media.py:1288-1299 | undoing completed moves in reverse order always succeeds and restores every path, also when a target was an earlier origin |
| Intake.MovesRename | contrib/library/lib/intake_media.py:1284-1287 | moves rename files one-to-one: every file survives under exactly one name with its contents, nothing is overwritten, nothing appears |
| Intake.MappingCollision | contrib/library/lib/intake_media.py:949-956 | the check finds nothing if and only if targets are distinct and each is free or an origin; a collision it reports is one |
| Intake.PlanMovesIffVacatedFirst | contrib/library/lib/intake_media.py:949-956 | a plan that passes the check goes through if and only if each occupied target is vacated by an earlier move |
| Intake.SwapPassesTheCheckButFails | contrib/library/lib/intake_media.py:949-956 | the check function alone does not rule out exchanging two names, which cannot be moved; no plan has that shape |
| Intake.FileSystem.MoveWithoutOverwrite | contrib/library/lib/safe_move.py:33-53 | one atomic move: the file has its new name and nothing was replaced, or nothing changed; a privileged retry may have moved the file and still report a failure |
| Intake.StrayStays | contrib/library/lib/intake_media.py:1288-1299 | undoing moves around one that took effect unreported leaves exactly that one |
| Intake.Rollback | contrib/library/lib/intake_media.py:1289-1299 | when every undo works the moves are taken back in reverse order, all but a stray one; when some do not, the failures are reported and still no file is lost |
| Intake.ApplyIntake | contrib/library/lib/intake_media.py:1281-1299 | intake succeeds if and only if every move is possible and works, with the composition of all moves; when it reports a rollback the files are exactly the initial ones, except for one whose move took effect although it was reported failed; in every outcome each file survives exactly once |
| IntakePlanning.GroupIsListed | contrib/library/lib/intake_media.py:893-915 | a video and its companions are moved as existing files, each once, from one folder to another |
| IntakePlanning.StemMeaning | contrib/library/lib/intake_media.py:895-896 | the stem is what stands before the last inner dot |
| IntakePlanning.MappingsMeaning | contrib/library/lib/intake_media.py:893-915 | the mappings are exactly the video, its poster and every companion named by its stem and a suffix, with the same tail behind the new stem, and its preview directory |
| IntakePlanning.ArchivingIsArchived | contrib/library/lib/intake_media.py:1056-1078 | a replaced copy and its companions keep their names below the archive |
| IntakePlanning.PlanVacatesFirst | contrib/library/lib/intake_media.py:1075-1078 | the only occupied targets of a checked plan are names its own incumbent has just left |
| IntakePlanning.CheckedPlanMoves | contrib/library/lib/intake_media.py:1092-1103 | every plan that passes the collision check can be moved, also when it replaces a copy in its place |
| IntakePlanning.KeepPlans | contrib/library/lib/intake_media.py:1092-1194 | the planner's loop keeps a candidate exactly when it has no collision and takes no reserved target, so the kept plans are checked against the files and each other |
| IntakePlanning.KeptStep | contrib/library/lib/intake_media.py:1092-1194 | the next candidate is left out if and only if one of its names is taken: by a file it does not move itself, by another of its mappings, or by a plan kept before |
| IntakePlanning.CheckedRunMovesIff | contrib/library/lib/intake_media.py:1281-1287 | all kept plans together can be moved if and only if no two of them take the same file |
| IntakePlanning.SharedCompanionStopsTheRun | contrib/library/lib/intake_media.py:897-908 | two new videos, of which one's name continues the other's, share a subtitle file; both plans pass every check and the run cannot be moved |
| PreviewDisk.PowerSafeMeansFirm | contrib/library/generate-dlna-previews.py:248-253 | surviving every choice of lost name changes and damaged files means that whatever manifest may be left names only sheets that are flushed and complete |
| PreviewDisk.OutcomeOf | contrib/library/generate-dlna-previews.py:248-253 | whatever a power loss keeps, names lead to different files, and a file seen under a temporary name is under no other |
| PreviewPublication.PreparationIsHarmless | contrib/library/generate-dlna-previews.py:916-1062 | clearing temporary files, writing new ones in any state of completeness, and flushes and syncs by the kernel keep a directory safe against stops and power losses |
| PreviewPublication.InstallingStops | contrib/library/generate-dlna-previews.py:1117-1121 | stopping after any number of renames leaves every manifest with its sheets, also when a revision replaces itself |
| PreviewPublication.InstallingSurvivesPowerLoss | contrib/library/generate-dlna-previews.py:1117-1121 | so does a power loss there, if the clearing of old temporary sheets is durable |
| PreviewPublication.InstallingLosesSheet | contrib/library/generate-dlna-previews.py:1117-1121 | and otherwise one of the renames is not safe |
| PreviewPublication.SwapStops | contrib/library/generate-dlna-previews.py:1139-1148 | stopping while the manifest is replaced leaves the old one or the new one, both complete |
| PreviewPublication.SwapSurvivesPowerLossIff | contrib/library/generate-dlna-previews.py:1139-1148 | a power loss there is safe if and only if the data of the new sheets is on disk |
| PreviewPublication.DeletionIsHarmless | contrib/library/generate-dlna-previews.py:1152-1155 | deleting a sheet of another revision hurts nobody once the new manifest is settled |
| PreviewGenerator.ClearTemporaries | contrib/library/generate-dlna-previews.py:916-918 | exactly the temporary files are unlinked, and no state on the way is less safe than the first |
| PreviewGenerator.InstallSheets | contrib/library/generate-dlna-previews.py:1117-1122 | after success every sheet of the revision has its published name durably; whichever call fails, every state is safe against a stop, and against a power loss if the cleanup is durable; a complete installation only then |
| PreviewGenerator.ReplaceManifest | contrib/library/generate-dlna-previews.py:1139-1150 | the new manifest replaces the old one durably; a temporary name that was not there stays only when two calls in a row fail, the last its removal; every state is safe against a stop, and against a power loss if the sheets are flushed; a complete replacement only then |
| PreviewGenerator.SwapManifest | contrib/library/generate-dlna-previews.py:1142-1148 | flush, rename and sync in this order, through safe states, up to the first call that fails |
| PreviewGenerator.DeleteOtherSheets | contrib/library/generate-dlna-previews.py:1152-1156 | exactly the sheets of other revisions are deleted, in any order, through safe states |
| PreviewGenerator.Publish | contrib/library/generate-dlna-previews.py:1116-1156 | for a new revision and for the published one again, from any directory with validated temporary sheets and whichever calls fail: every state is safe against a stop; after success the new manifest and exactly its sheets are there and no other name is touched; from a start that survives a power loss, every state of a complete publication does if and only if the sheets' data and the cleanup were on disk beforehand |
| PreviewGenerator.PublicationSurvivesPowerLossIff | contrib/library/generate-dlna-previews.py:1117-1148 | the same as a statement about the states of a complete publication |
| PreviewGenerator.SyncedCleanupIsDurable | contrib/library/generate-dlna-previews.py:1117-1122 | flushing the sheets and syncing the directory before the renames would suffice |
| PreviewGenerator.NewRevisionNeedsNoCleanup | contrib/library/generate-dlna-previews.py:906-918 | a revision that was never published needs no durable cleanup |
| PreviewGenerator.UnflushedSheetIsLost | contrib/library/generate-dlna-previews.py:1117-1148 | a first publication of one unflushed sheet starts safe and ends with a manifest that can lose it |
| PreviewGenerator.StaleTemporaryResurfaces | contrib/library/generate-dlna-previews.py:916-1121 | regenerating the published revision after an interrupted attempt, a power loss can put the half-written sheet under the old manifest |
| PreviewGenerator.SyncBeforeManifestIsNeeded | contrib/library/generate-dlna-previews.py:1122 | without the directory sync before the manifest, a power loss can leave a manifest without its sheet, flushed or not |
| PreviewSizing.ValidityWithoutOverflow | crates/protocol/src/trickplay.rs:112-138 | the 32-bit overflow checks never reject a layout the limits accept |
| PreviewSizing.LimitsInNumbers | crates/protocol/src/trickplay.rs:112-138 | a layout is accepted exactly within the limits, in numbers |
| PreviewSizing.IntervalMeaning | contrib/library/generate-dlna-previews.py:282-287 | an interval exists exactly for up to a week and 1 to 2400 samples, and is the least whole number of seconds from 1 on whose samples cover the duration |
| PreviewSizing.ServerIntervalMeaning | crates/protocol/src/trickplay.rs:79-96 | the server takes as many samples as 256 sheets hold, at most 2400, and refuses exactly the layouts off the axes |
| PreviewSizing.CountsMeaning | crates/protocol/src/trickplay.rs:98-149 | frames and sheets are what covers the duration and the frames with none to spare, refused exactly beyond 2400 and 256 |
| PreviewSizing.KeyIsFramesThenRows | contrib/library/generate-dlna-previews.py:184-191 | for one frame size the sort key prefers more frames, then more rows; area never decides |
| PreviewSizing.Candidates | contrib/library/generate-dlna-previews.py:168-179 | the two loops collect exactly the layouts within the limits |
| PreviewSizing.LayoutForFrame | contrib/library/generate-dlna-previews.py:159-191 | every admissible frame gets a layout, which the server accepts and which no accepted layout beats in frames per sheet; other frames are refused |
| PreviewSizing.CoverSymmetry | contrib/library/generate-dlna-previews.py:282-287 | so many samples of so many seconds cover a duration exactly when so many seconds for so many samples do |
| PreviewSizing.IntervalIsLeast | crates/protocol/src/trickplay.rs:80-149 | generator and server agree on the interval; it is the least whole second count from 1 on that keeps frames within capacity; so frames are at most 2400 and sheets at most 256 |
| ProgressStream.ProgressReader.PushSegment | contrib/library/generate-dlna-previews.py:791-796 | a stretch appended at once equals the same bytes one by one, the 1024-byte cap included |
| ProgressStream.ProgressReader.Interpret | contrib/library/generate-dlna-previews.py:799-816 | a complete line raises at most the count it reports |
| ProgressStream.ProgressReader.Feed | contrib/library/generate-dlna-previews.py:782-818 | one read changes the state exactly as its bytes one by one; the end of the stream closes the last line |
| ProgressStream.FeedAll | contrib/library/generate-dlna-previews.py:772-818 | a sequence of reads changes the state exactly as the concatenated bytes |
| ProgressStream.StreamMeaning | contrib/library/generate-dlna-previews.py:787-818 | the state is a fold over the complete lines that ignores lines over 1024 bytes whole, and the unfinished line |
| ProgressStream.ReadStream | contrib/library/generate-dlna-previews.py:772-818 | for every stream and every way of cutting it, the final state is that fold: chunking is invisible |
| ProgressStream.CountsAdvance | contrib/library/generate-dlna-previews.py:800-816 | the counts only grow, and the sheet count never passes the number of sheets |
| ProgressStream.GreatestReport | contrib/library/generate-dlna-previews.py:801-808 | the sheet count is the greatest one reported, clipped, in whatever order the reports came |
| ProgressStream.GreatestTime | contrib/library/generate-dlna-previews.py:809-816 | the output time is the greatest one reported |
| ProgressStream.ReportReadsDecimal | contrib/library/generate-dlna-previews.py:800-813 | whole numbers printed in a report are read as themselves |
| ProgressStream.ReportMeaning | contrib/library/generate-dlna-previews.py:799-812 | a line reports a number under a name exactly when it is the name, an equals sign and the number, white space at its ends aside |
| ProgressStream.ParseIntMeaning | contrib/library/generate-dlna-previews.py:801-812 | a number is an optional sign and digits with single underscores between them, white space around it aside; anything else is none |

## Left out

- Networking, SSDP, SOAP, database, scanning and serving code; FFmpeg itself; the clients of external catalogs and their caches.
- Static tables (renderer rows, MIME types, protocol-info strings): nothing to prove beyond listing them.
- `w3c_date_from_unix` and `w3c_normalize_date` in date.rs: formatting of fields already proved valid.
- `seconds_to_millis` in stream_metadata.rs: chapter times enter the model as already rounded milliseconds.
- Unicode white space appears only as the byte sequences `trim` removes; no other Unicode property is used.
- GateRuns.GateIsSound: tickets and counters are unbounded numbers, so the 64-bit wrap-around of a gate that has seen 2^64 waiters is not modelled.
- Arriving in the gate's queue and the first turn of the wait loop are separate steps, although the program does both under one lock; the model allows every interleaving the program has and some more.
- Condition-variable wake-ups, time-outs and clocks of both gates: a step may find its wait expired or cancelled at any time. `JobGate::acquire_timeout` adds only such a wait around `try_acquire`.
- CaptureDrain.DrainBounded: the elapsed time and the stop flag are events, and the flag is never cleared once set, as in the program.
- DescriptorInheritance.SupervisedCommand.Normalize: enough free descriptors above every target are proved sufficient; whether fewer can do, because closed sources are reused, depends on the order of the files and is not characterised.
- The child's standard input, output and error, which are set up anew, the descriptors the standard library opens while spawning, process groups, termination and waiting.
- `HttpResponse::bytes_wire`'s fixed fallback response, `conn_close` and `conn_keep`, request bodies, routing, range and media responses.
- The `http://host:port` part of printed URLs.
- The static renderer table behind the cache, and identification by user agent: profiles are given by their kind and name.
- Resolution of links and relative link targets in build-genre-links.py: links hold their resolved target. Creating and pruning directories, building the desired dictionary and writing the index file.
- How `plan_intake` identifies a film, compares qualities and chooses folders; plans enter with their folders as the planner builds them. Duplicate manifests. A directory moves as one entry.
- A power loss may drop any of the unsynced name changes and damage any unflushed file, as POSIX allows; a file system that orders them promises more. Locks, retries and FFmpeg attempts of generate_one beyond the temporary files they leave. The asset revision is taken to determine the number of sheets.
- Time-outs, stall detection and progress printing in run_ffmpeg_with_progress; `PreviewRequest.frame_size`.
- Durations are real numbers, so floating-point rounding of a quotient is not modelled.
- build-age-links.py, build-year-links.py and rust-pins.py: variants of the transactions above.
