/** Draining a child's pipe into bounded memory.

    What the outside world does in each turn of the loop is an event: whether the stop flag is
    seen, whether the post-stop time is up, what the read returns and what polling finds. */
module CaptureDrain {
  import opened Text

  const CHUNK: nat := 8192
  const STOP_MAX_READS: nat := 32
  const STOP_MAX_BYTES: nat := 256 * 1024

  datatype Retention = Head | Tail
  datatype Overflow = Truncate | ReportOverflow
  datatype ReadError = Ignore | ReportError

  datatype Config = Config(limit: nat, retention: Retention, overflow: Overflow, readError: ReadError)

  /** `Data("")` is the end of the stream. */
  datatype Read = Data(bytes: string) | Interrupted | WouldBlock | ReadFailed

  datatype Readiness = Ready | TimedOut | Terminal | PollFailed

  datatype Event = Event(stop: bool, timeUp: bool, read: Read, stopBehindRead: bool, readiness: Readiness)

  datatype Failure = Io | Overflowed(limit: nat)

  /** Why the loop ended; `Unfinished` when the events ran out first. */
  datatype Cause = Unfinished | StopBudget | EndOfStream | NothingMore | NoDescriptor | FailedRead | FailedPoll

  predicate IsError(cause: Cause) {
    cause.NoDescriptor? || cause.FailedRead? || cause.FailedPoll?
  }

  /** The buffer holds 8192 bytes, and the stop flag is never cleared. */
  predicate Plausible(events: seq<Event>) {
    && (forall i :: 0 <= i < |events| && events[i].read.Data? ==> |events[i].read.bytes| <= 8192)
    && (forall i, j :: 0 <= i <= j < |events| && events[i].stop ==> events[j].stop)
  }

  // ---------- what was read ----------

  function BytesOf(e: Event): string {
    if e.read.Data? then e.read.bytes else ""
  }

  function Total(events: seq<Event>): string {
    if events == [] then "" else Total(events[..|events| - 1]) + BytesOf(events[|events| - 1])
  }

  /** Reads that returned bytes, and their bytes, from the first event that saw the stop flag. */
  function ReadsAfterStop(events: seq<Event>): nat {
    if events == [] then 0
    else ReadsAfterStop(events[..|events| - 1]) +
         (var e := events[|events| - 1]; if e.stop && BytesOf(e) != "" then 1 else 0)
  }

  function BytesAfterStop(events: seq<Event>): nat {
    if events == [] then 0
    else BytesAfterStop(events[..|events| - 1]) + (var e := events[|events| - 1]; if e.stop then |BytesOf(e)| else 0)
  }

  /** The bytes a limit and a retention policy keep of everything read. */
  function Retained(config: Config, total: string): string {
    if |total| <= config.limit then total
    else match config.retention
         case Head => total[..config.limit]
         case Tail => total[|total| - config.limit..]
  }

  /** It is the whole text when that fits, and else a text of just the limit's length at the
      beginning or the end of it. */
  lemma RetainedMeaning(config: Config, total: string)
    ensures var kept := Retained(config, total);
      && (|total| <= config.limit ==> kept == total)
      && (|total| > config.limit ==>
            && |kept| == config.limit && (config.retention.Head? ==> kept <= total)
            && (config.retention.Tail? ==> total == total[..|total| - config.limit] + kept))
  {
  }

  lemma RetainedGrows(config: Config, total: string, more: string)
    ensures var kept := Retained(config, total);
      match config.retention
      case Head =>
        var room := config.limit - |kept|;
        Retained(config, total + more) == kept + Take(more, room)
      case Tail =>
        var all := kept + more;
        Retained(config, total + more) == if |all| > config.limit then all[|all| - config.limit..] else all
  {
    var kept, all := Retained(config, total), total + more;
    match config.retention
    case Head =>
      if |total| > config.limit {
        assert all[..config.limit] == total[..config.limit];
      }
    case Tail =>
      if |total| > config.limit {
        assert kept + more == all[|total| - config.limit..];
        assert (kept + more)[|more|..] == all[|all| - config.limit..];
      }
  }

  lemma RetainedNothing(config: Config)
    ensures Retained(config, "") == ""
  {
  }

  lemma NothingRead(events: seq<Event>)
    requires events == []
    ensures Total(events) == "" && ReadsAfterStop(events) == 0 && BytesAfterStop(events) == 0
  {
  }

  lemma TotalStep(events: seq<Event>, i: nat)
    requires i < |events|
    ensures Total(events[..i + 1]) == Total(events[..i]) + BytesOf(events[i])
    ensures BytesOf(events[i]) == "" ==> Total(events[..i + 1]) == Total(events[..i])
    ensures ReadsAfterStop(events[..i + 1]) ==
      ReadsAfterStop(events[..i]) + if events[i].stop && BytesOf(events[i]) != "" then 1 else 0
    ensures BytesAfterStop(events[..i + 1]) ==
      BytesAfterStop(events[..i]) + if events[i].stop then |BytesOf(events[i])| else 0
  {
    assert events[..i + 1][..i] == events[..i];
  }

  lemma {:induction false} NoStopYet(events: seq<Event>)
    requires forall i :: 0 <= i < |events| ==> !events[i].stop
    ensures ReadsAfterStop(events) == 0 && BytesAfterStop(events) == 0
  {
    if events != [] {
      NoStopYet(events[..|events| - 1]);
    }
  }

  // ---------- the loop ----------

  /** The loop head's test: the stop flag is seen and the post-stop budget is spent. */
  predicate BudgetSpent(events: seq<Event>, k: nat)
    requires k < |events|
  {
    events[k].stop &&
    (events[k].timeUp || ReadsAfterStop(events[..k]) >= 32 || BytesAfterStop(events[..k]) >= 262_144)
  }

  /** An earlier poll found the writing end closed. */
  predicate SawTerminal(events: seq<Event>, k: nat)
    requires k <= |events|
  {
    exists i :: 0 <= i < k && events[i].read.WouldBlock? && events[i].readiness.Terminal?
  }

  /** A read after which the loop must not go on. */
  predicate EndsAt(events: seq<Event>, hasDescriptor: bool, k: nat)
    requires k < |events|
  {
    match events[k].read
    case Data(bytes) => bytes == ""
    case Interrupted => false
    case ReadFailed => true
    case WouldBlock =>
      events[k].stopBehindRead || SawTerminal(events, k) || !hasDescriptor || events[k].readiness.PollFailed?
  }

  /** What the events must have shown for the loop to end as it did after `used` reads. */
  predicate CauseFits(events: seq<Event>, hasDescriptor: bool, used: nat, cause: Cause)
    requires used <= |events|
  {
    match cause
    case Unfinished => true
    case StopBudget => used < |events| && BudgetSpent(events, used)
    case EndOfStream => used > 0 && events[used - 1].read == Data("")
    case NothingMore =>
      used > 0 && events[used - 1].read.WouldBlock? &&
      (events[used - 1].stopBehindRead || SawTerminal(events, used - 1))
    case NoDescriptor => used > 0 && events[used - 1].read.WouldBlock? && !hasDescriptor
    case FailedRead => used > 0 && events[used - 1].read.ReadFailed?
    case FailedPoll => used > 0 && events[used - 1].read.WouldBlock? && events[used - 1].readiness.PollFailed?
  }

  /** Add one chunk at the retained end. */
  method Keep(config: Config, kept: string, overflowed: bool, chunk: string, ghost total: string)
      returns (kept': string, overflowed': bool)
    requires kept == Retained(config, total) && (overflowed <==> |total| > config.limit)
    requires chunk != ""
    ensures kept' == Retained(config, total + chunk)
    ensures overflowed' <==> |total + chunk| > config.limit
  {
    RetainedGrows(config, total, chunk);
    match config.retention
    case Head =>
      var room := config.limit - |kept|;
      kept' := kept + Take(chunk, room);
      overflowed' := overflowed || |chunk| > room;
    case Tail =>
      kept' := kept + chunk;
      overflowed' := overflowed;
      if |kept'| > config.limit {
        kept' := kept'[|kept'| - config.limit..];
        overflowed' := true;
      }
  }

  /** `used` events were taken to their read. */
  method DrainBounded(events: seq<Event>, hasDescriptor: bool, config: Config)
      returns (result: Result<string, Failure>, cause: Cause, used: nat)
    requires Plausible(events)
    ensures used <= |events| && (cause.Unfinished? ==> used == |events|)
    ensures var total := Total(events[..used]);
      result ==
        if IsError(cause) && config.readError == ReportError then Err(Io)
        else if |total| > config.limit && config.overflow == ReportOverflow then Err(Overflowed(config.limit))
        else Ok(Retained(config, total))
    ensures ReadsAfterStop(events[..used]) <= 32 && BytesAfterStop(events[..used]) <= 262_144
    ensures CauseFits(events, hasDescriptor, used, cause)
    ensures forall k :: 0 <= k < used ==> !BudgetSpent(events, k)
    ensures forall k :: 0 <= k < used && (k < used - 1 || cause.Unfinished? || cause.StopBudget?) ==>
      !EndsAt(events, hasDescriptor, k)
  {
    hide Retained, Total, ReadsAfterStop, BytesAfterStop;
    RetainedNothing(config);
    NothingRead(events[..0]);
    var kept := "";
    var overflowed := false;
    var terminal := false;
    var stopStarted := false;
    var stopReads, stopBytes := 0, 0;
    var index := 0;
    cause := Unfinished;
    used := 0;
    assert events[..0] == [];
    while index < |events| && cause.Unfinished?
      invariant index <= |events| && used <= |events|
      invariant cause.Unfinished? ==> used == index
      invariant CauseFits(events, hasDescriptor, used, cause) && !cause.StopBudget?
      invariant forall k :: 0 <= k < used ==> !BudgetSpent(events, k)
      invariant forall k :: 0 <= k < used && (k < used - 1 || cause.Unfinished?) ==> !EndsAt(events, hasDescriptor, k)
      invariant cause.Unfinished? ==> (terminal <==> SawTerminal(events, used))
      invariant kept == Retained(config, Total(events[..used]))
      invariant overflowed <==> |Total(events[..used])| > config.limit
      invariant stopStarted <==> exists i :: 0 <= i < used && events[i].stop
      invariant stopReads == ReadsAfterStop(events[..used]) <= STOP_MAX_READS
      invariant stopBytes == BytesAfterStop(events[..used]) <= STOP_MAX_BYTES
      invariant stopBytes <= stopReads * CHUNK
      decreases |events| - index, cause.Unfinished?
    {
      var e := events[index];
      TotalStep(events, index);
      if e.stop {
        if !stopStarted {
          NoStopYet(events[..index]);
        }
        if e.timeUp || stopReads >= STOP_MAX_READS || stopBytes >= STOP_MAX_BYTES {
          cause := StopBudget;
          break;
        }
        stopStarted := true;
      }
      index := index + 1;
      used := used + 1;
      var remaining := STOP_MAX_BYTES - stopBytes;
      var readLimit := if stopStarted && remaining < CHUNK then remaining else CHUNK;
      assert readLimit == CHUNK;
      if e.read.Data? {
        var chunk := Take(e.read.bytes, readLimit);
        if chunk == "" {
          cause := EndOfStream;
          break;
        }
        if stopStarted {
          stopReads := stopReads + 1;
          stopBytes := stopBytes + |chunk|;
        }
        kept, overflowed := Keep(config, kept, overflowed, chunk, Total(events[..used - 1]));
      } else if e.read.WouldBlock? {
        if e.stopBehindRead || terminal {
          cause := NothingMore;
        } else if !hasDescriptor {
          cause := NoDescriptor;
        } else if e.readiness.Terminal? {
          terminal := true;
        } else if e.readiness.PollFailed? {
          cause := FailedPoll;
        }
      } else if e.read.ReadFailed? {
        cause := FailedRead;
      }
    }
    if IsError(cause) && config.readError == ReportError {
      return Err(Io), cause, used;
    }
    if overflowed && config.overflow == ReportOverflow {
      return Err(Overflowed(config.limit)), cause, used;
    }
    return Ok(kept), cause, used;
  }
}
