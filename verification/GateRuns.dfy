/** What holds over every run of the admission gate, whatever its threads do. */
module GateRuns {
  import opened HelperGate
  import opened GateProtocol

  /** In every state any interleaving reaches: slots in use are those of the live permits and
      fit the limit, which is at least one; the queue is bounded, holds exactly the waiting
      tickets and increases; every published counter balances; and the first buckets together
      hold the waits of at most 10, 50, 100, 500 and 1000 milliseconds. */
  lemma GateIsSound(maxActive: nat, queueCapacity: nat, steps: seq<Step>)
    requires Schedule(Initial(maxActive, queueCapacity), steps)
    ensures var s := After(Initial(maxActive, queueCapacity), steps);
      var c := s.gate.counters;
      && s.gate.maxActive == (if maxActive == 0 then 1 else maxActive) && s.gate.queueCapacity == queueCapacity
      && s.gate.active == LiveSlots(s.permits) <= s.gate.maxActive
      && |s.gate.queue| <= queueCapacity && Increasing(s.gate.queue)
      && (forall t :: t in s.gate.queue <==> 0 <= t < |s.fates| && s.fates[t] == Waiting)
      && c.rejected == s.refusals && c.saturated == c.rejected + c.queued
      && Sum(c.buckets) + |s.gate.queue| == c.queued == |s.fates|
      && |c.buckets| == 6 && Sum(c.buckets) == |s.waits|
      && Sum(c.buckets[..1]) == CountUpTo(s.waits, 10) && Sum(c.buckets[..2]) == CountUpTo(s.waits, 50)
      && Sum(c.buckets[..3]) == CountUpTo(s.waits, 100) && Sum(c.buckets[..4]) == CountUpTo(s.waits, 500)
      && Sum(c.buckets[..5]) == CountUpTo(s.waits, 1000)
      && c.waitTotal == Sum(s.waits) && c.waitMax == MaxOf(s.waits)
      && c.admitted == s.gate.active + DroppedSlots(s.permits)
      && c.timedOut == CountFate(s.fates, WasTimedOut)
  {
    var start := Initial(maxActive, queueCapacity);
    InitialInv(maxActive, queueCapacity);
    EveryRunKeepsInv(start, steps);
    LimitsStay(start, steps);
    var s := After(start, steps);
    WaitingTicketsAre(s.fates);
    BucketsCount(s.waits, s.gate.counters.buckets);
  }

  /** The waits that took at most so many milliseconds. */
  function CountUpTo(waits: seq<nat>, bound: nat): nat {
    if waits == [] then 0
    else CountUpTo(waits[..|waits| - 1], bound) + (if waits[|waits| - 1] <= bound then 1 else 0)
  }

  lemma {:induction false} BucketsUpTo(waits: seq<nat>)
    ensures CountUpTo(waits, 10) == CountBucket(waits, 0)
    ensures CountUpTo(waits, 50) == CountUpTo(waits, 10) + CountBucket(waits, 1)
    ensures CountUpTo(waits, 100) == CountUpTo(waits, 50) + CountBucket(waits, 2)
    ensures CountUpTo(waits, 500) == CountUpTo(waits, 100) + CountBucket(waits, 3)
    ensures CountUpTo(waits, 1000) == CountUpTo(waits, 500) + CountBucket(waits, 4)
  {
    if waits != [] {
      BucketsUpTo(waits[..|waits| - 1]);
    }
  }

  lemma BucketsCount(waits: seq<nat>, buckets: seq<nat>)
    requires |buckets| == 6 && forall b :: 0 <= b < 6 ==> buckets[b] == CountBucket(waits, b)
    ensures Sum(buckets[..1]) == CountUpTo(waits, 10) && Sum(buckets[..2]) == CountUpTo(waits, 50)
    ensures Sum(buckets[..3]) == CountUpTo(waits, 100) && Sum(buckets[..4]) == CountUpTo(waits, 500)
    ensures Sum(buckets[..5]) == CountUpTo(waits, 1000)
  {
    BucketsUpTo(waits);
    forall n | 0 <= n < 6 ensures buckets[..n + 1][..n] == buckets[..n] {
    }
    assert Sum(buckets[..0]) == 0;
    hide CountUpTo, CountBucket;
    assert Sum(buckets[..1]) == buckets[0] && Sum(buckets[..2]) == buckets[0] + buckets[1];
  }

  lemma {:induction false} LimitsStay(s: System, steps: seq<Step>)
    requires Schedule(s, steps)
    ensures After(s, steps).gate.maxActive == s.gate.maxActive
    ensures After(s, steps).gate.queueCapacity == s.gate.queueCapacity
    decreases |steps|
  {
    if steps != [] {
      LimitsStay(Next(s, steps[0]), steps[1..]);
    }
  }

  /** The step is possible and somebody gets a permit by it. */
  predicate HandsOutPermit(s: System, step: Step) {
    Enabled(s, step) && |Next(s, step).permits| > |s.permits|
  }

  /** No admission of any kind passes a queued waiter: outside the queue only while it is
      empty, from the queue only its earliest ticket, and never beyond the free slots. */
  lemma NoBypass(s: System, step: Step)
    requires Inv(s) && HandsOutPermit(s, step)
    ensures s.gate.active < Next(s, step).gate.active <= s.gate.maxActive
    ensures step.StepTurn? ==> s.gate.queue != [] && s.gate.queue[0] == step.ticket &&
                               forall u :: 0 <= u < step.ticket ==> s.fates[u] != Waiting
    ensures !step.StepTurn? ==> s.gate.queue == [] && forall u :: 0 <= u < |s.fates| ==> s.fates[u] != Waiting
  {
    hide Sum, DroppedSlots, CountFate, WaitingTickets, Without, FirstCome;
    NextInv(s, step);
    WaitingTicketsAre(s.fates);
    LiveSlotsGrant(s.permits, Permit(1, true));
  }

  /** Nobody waits for a permit. */
  predicate NobodyWaits(s: System) {
    forall t :: 0 <= t < |s.fates| ==> s.fates[t] != Waiting
  }

  /** Just one more permit of one slot was handed out, and no ticket was. */
  predicate OnePermitMore(s: System, next: System) {
    next.permits == s.permits + [Permit(1, true)] && next.refusals == s.refusals
  }

  /** An arrival that is not cancelled gets a permit exactly when a slot is free and nobody
      waits; else it becomes the last waiting ticket exactly when fewer wait than the queue
      holds, and is refused exactly when the queue is full. A cancelled one changes nothing. */
  lemma ArrivalOutcomes(s: System)
    requires Inv(s)
    ensures Next(s, StepArrive(true)) == s
    ensures var next := Next(s, StepArrive(false));
      var served := LiveSlots(s.permits) < s.gate.maxActive && NobodyWaits(s);
      var full := |s.gate.queue| >= s.gate.queueCapacity;
      && (served ==> OnePermitMore(s, next) && next.fates == s.fates)
      && (!served && !full ==>
            next.fates == s.fates + [Waiting] && next.gate.queue == s.gate.queue + [|s.fates|] &&
            next.permits == s.permits && next.refusals == s.refusals)
      && (!served && full ==>
            next.refusals == s.refusals + 1 && next.permits == s.permits && next.fates == s.fates &&
            next.gate.queue == s.gate.queue)
  {
    hide Sum, DroppedSlots, CountFate, FirstCome, WaitsCounted;
    NobodyWaitsIff(s);
    hide NobodyWaits, WaitingTickets;
  }

  lemma NobodyWaitsIff(s: System)
    requires Inv(s)
    ensures NobodyWaits(s) <==> s.gate.queue == []
  {
    WaitingTicketsAre(s.fates);
    if s.gate.queue != [] {
      assert s.fates[s.gate.queue[0]] == Waiting;
    }
  }

  /** A turn of a waiting ticket: a cancelled one settles as cancelled; otherwise the earliest
      waiter with a free slot is admitted, even after its deadline; otherwise an expired one
      settles as timed out; otherwise nothing changes. Only the admitted one gets a permit. */
  lemma TurnOutcomes(s: System, turn: Step)
    requires Inv(s) && turn.StepTurn? && Enabled(s, turn)
    ensures var next := Next(s, turn);
      var t := turn.ticket;
      var first := forall u :: 0 <= u < t ==> s.fates[u] != Waiting;
      var served := first && LiveSlots(s.permits) < s.gate.maxActive;
      && (turn.cancelled ==> next.fates == s.fates[t := WasCancelled] && next.permits == s.permits)
      && (!turn.cancelled && served ==> next.fates == s.fates[t := WasAdmitted] && OnePermitMore(s, next))
      && (!turn.cancelled && !served && turn.expired ==>
            next.fates == s.fates[t := WasTimedOut] && next.permits == s.permits)
      && (!turn.cancelled && !served && !turn.expired ==> next == s)
      && (next != s ==> next.waits == s.waits + [turn.millis])
      && next.refusals == s.refusals
  {
    hide Sum, DroppedSlots, CountFate, FirstCome, WaitsCounted;
    WaitingTicketsAre(s.fates);
    var q := s.gate.queue;
    assert turn.ticket in q;
    assert forall i :: 0 < i < |q| ==> q[0] < q[i];
  }

  /** In every run, a waiter that is admitted finds every earlier ticket already admitted, timed
      out or cancelled. */
  lemma EarlierTicketsAreSettled(maxActive: nat, queueCapacity: nat, steps: seq<Step>, turn: Step)
    requires turn.StepTurn? && Schedule(Initial(maxActive, queueCapacity), steps)
    requires HandsOutPermit(After(Initial(maxActive, queueCapacity), steps), turn)
    ensures var s := After(Initial(maxActive, queueCapacity), steps);
      forall u :: 0 <= u < turn.ticket ==> u < |s.fates| && s.fates[u] != Waiting
  {
    InitialInv(maxActive, queueCapacity);
    EveryRunKeepsInv(Initial(maxActive, queueCapacity), steps);
    NoBypass(After(Initial(maxActive, queueCapacity), steps), turn);
  }

  /** A settled ticket stays settled, whatever happens later. */
  lemma {:induction false} FatesAreFinal(s: System, steps: seq<Step>, t: nat)
    requires Schedule(s, steps) && t < |s.fates| && s.fates[t] != Waiting
    ensures t < |After(s, steps).fates| && After(s, steps).fates[t] == s.fates[t]
    decreases |steps|
  {
    if steps != [] {
      FatesAreFinal(Next(s, steps[0]), steps[1..], t);
    }
  }

  /** First come, first served over whole runs: the waiters that were ever admitted are exactly
      the recorded ones, and they were admitted in ticket order. */
  lemma AdmissionsAreFirstCome(maxActive: nat, queueCapacity: nat, steps: seq<Step>)
    requires Schedule(Initial(maxActive, queueCapacity), steps)
    ensures var s := After(Initial(maxActive, queueCapacity), steps);
      && Increasing(s.admissions)
      && (forall t: nat :: t in s.admissions <==> t < |s.fates| && s.fates[t] == WasAdmitted)
  {
    InitialInv(maxActive, queueCapacity);
    EveryRunKeepsInv(Initial(maxActive, queueCapacity), steps);
    AdmissionsAreRecorded(Initial(maxActive, queueCapacity), steps);
  }

  ghost predicate Recorded(s: System) {
    forall t: nat :: t in s.admissions <==> t < |s.fates| && s.fates[t] == WasAdmitted
  }

  lemma {:induction false} AdmissionsAreRecorded(s: System, steps: seq<Step>)
    requires Schedule(s, steps) && Recorded(s)
    ensures Recorded(After(s, steps))
    decreases |steps|
  {
    if steps != [] {
      assert Recorded(Next(s, steps[0])) by {
        var next := Next(s, steps[0]);
        assert next.admissions == s.admissions ||
               (steps[0].StepTurn? && next.admissions == s.admissions + [steps[0].ticket]);
      }
      AdmissionsAreRecorded(Next(s, steps[0]), steps[1..]);
    }
  }

  /** A skipped opportunistic admission changes nothing at all; a refused group holds no slot. */
  lemma SkipsAndRefusalsHoldNothing(s: System, slots: nat)
    requires Inv(s)
    ensures s.gate.active == s.gate.maxActive || s.gate.queue != [] <==> Next(s, StepIdle) == s
    ensures (slots == 0 || slots > s.gate.maxActive - s.gate.active || s.gate.queue != []) <==>
            Next(s, StepMany(slots)).gate.active == s.gate.active
  {
    LiveSlotsGrant(s.permits, Permit(1, true));
  }

  // ---------- progress ----------

  /** Each queued waiter takes one turn, in ticket order, none cancelled or expired. */
  function Round(tickets: seq<nat>): seq<Step> {
    seq(|tickets|, i requires 0 <= i < |tickets| => StepTurn(tickets[i], false, false, 0))
  }

  /** Work is conserved: one round of turns admits the earliest waiters, as many as there are
      free slots, and leaves the others in place, so no slot stays free while somebody waits. */
  lemma {:induction false} RoundAdmits(s: System, from: nat)
    requires Inv(s) && from <= |s.gate.queue|
    requires from > 0 ==> s.gate.active == s.gate.maxActive
    ensures Schedule(s, Round(s.gate.queue[from..]))
    ensures var z := After(s, Round(s.gate.queue[from..]));
      var k := z.gate.active - s.gate.active;
      && Inv(z) && z.gate.maxActive == s.gate.maxActive
      && 0 <= k <= |s.gate.queue| && z.gate.queue == s.gate.queue[k..]
      && (z.gate.queue == [] || z.gate.active == z.gate.maxActive)
    decreases |s.gate.queue| - from
  {
    hide Inv, Next, WaitingTickets;
    if from < |s.gate.queue| {
      TurnInRound(s, from);
      var rest := s.gate.queue[from + 1..];
      var step := StepTurn(s.gate.queue[from], false, false, 0);
      assert Round(s.gate.queue[from..])[0] == step;
      assert Round(s.gate.queue[from..])[1..] == Round(rest);
      var next := Next(s, step);
      if s.gate.active < s.gate.maxActive {
        assert next.gate.queue[0..] == rest;
        RoundAdmits(next, 0);
      } else {
        RoundAdmits(s, from + 1);
      }
    } else {
      assert Round(s.gate.queue[from..]) == [];
    }
  }

  lemma TurnInRound(s: System, from: nat)
    requires Inv(s) && from < |s.gate.queue|
    requires from > 0 ==> s.gate.active == s.gate.maxActive
    ensures var step := StepTurn(s.gate.queue[from], false, false, 0);
      && Enabled(s, step) && Inv(Next(s, step)) && s.gate.active <= s.gate.maxActive
      && (s.gate.active == s.gate.maxActive ==> Next(s, step) == s)
      && (s.gate.active < s.gate.maxActive ==>
            var g := Next(s, step).gate;
            g.queue == s.gate.queue[1..] && g.active == s.gate.active + 1 && g.maxActive == s.gate.maxActive)
  {
    WaitingTicketsAre(s.fates);
    NextInv(s, StepTurn(s.gate.queue[from], false, false, 0));
  }
}
