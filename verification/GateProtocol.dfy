/** The admission gate used by any number of threads, as a state machine: every critical
    section is one atomic step, and the steps of all threads interleave freely.

    The history kept beside the gate (which permits were handed out and dropped, what became
    of every ticket, in which order tickets were admitted, how long each wait was, how often a
    request was refused) only serves to state the properties. */
module GateProtocol {
  import opened HelperGate

  /** A permit is numbered by its position; `live` until its holder drops it. */
  datatype Permit = Permit(slots: nat, live: bool)

  datatype Fate = Waiting | WasAdmitted | WasTimedOut | WasCancelled

  datatype System = System(gate: Gate, permits: seq<Permit>, fates: seq<Fate>, admissions: seq<nat>,
                           waits: seq<nat>, refusals: nat)

  datatype Step =
    | StepMany(slots: nat)
    | StepIdle
    | StepArrive(cancelled: bool)
    | StepTurn(ticket: nat, cancelled: bool, expired: bool, millis: nat)
    | StepDrop(permit: nat)

  function Initial(maxActive: nat, queueCapacity: nat): System {
    System(NewGate(maxActive, queueCapacity), [], [], [], [], 0)
  }

  /** Only a queued thread takes turns, and a permit is dropped once. */
  predicate Enabled(s: System, step: Step) {
    match step
    case StepTurn(t, _, _, _) => t < |s.fates| && s.fates[t] == Waiting && |s.gate.counters.buckets| == 6
    case StepDrop(p) => p < |s.permits| && s.permits[p].live
    case _ => true
  }

  function Grant(s: System, slots: nat): System {
    s.(permits := s.permits + [Permit(slots, true)])
  }

  function Refuse(s: System): System {
    s.(refusals := s.refusals + 1)
  }

  /** A wait of some milliseconds is over. */
  function Settle(s: System, ticket: nat, fate: Fate, millis: nat): System
    requires ticket < |s.fates|
  {
    s.(fates := s.fates[ticket := fate], waits := s.waits + [millis])
  }

  function Next(s: System, step: Step): System
    requires Enabled(s, step)
  {
    match step
    case StepMany(slots) =>
      var (g, admitted) := TryMany(s.gate, slots);
      if admitted then Grant(s.(gate := g), slots) else Refuse(s.(gate := g))
    case StepIdle =>
      var (g, admitted) := TryIdle(s.gate);
      if admitted then Grant(s.(gate := g), 1) else s.(gate := g)
    case StepArrive(cancelled) =>
      var (g, arrival) := Arrive(s.gate, cancelled);
      (match arrival
       case ArrivedAdmitted => Grant(s.(gate := g), 1)
       case Queued(_) => s.(gate := g, fates := s.fates + [Waiting])
       case ArrivedRejected => Refuse(s.(gate := g))
       case ArrivedCancelled => s.(gate := g))
    case StepTurn(t, cancelled, expired, millis) =>
      var (g, turn) := Poll(s.gate, t, cancelled, expired, millis);
      (match turn
       case TurnCancelled => Settle(s.(gate := g), t, WasCancelled, millis)
       case TurnTimedOut => Settle(s.(gate := g), t, WasTimedOut, millis)
       case TurnAdmitted =>
         Settle(Grant(s.(gate := g), 1), t, WasAdmitted, millis).(admissions := s.admissions + [t])
       case StillWaiting => s)
    case StepDrop(p) =>
      s.(gate := Release(s.gate, s.permits[p].slots), permits := s.permits[p := s.permits[p].(live := false)])
  }

  // ---------- what is counted ----------

  function LiveSlots(permits: seq<Permit>): nat {
    if permits == [] then 0
    else LiveSlots(permits[..|permits| - 1]) +
         (var p := permits[|permits| - 1]; if p.live then p.slots else 0)
  }

  function DroppedSlots(permits: seq<Permit>): nat {
    if permits == [] then 0
    else DroppedSlots(permits[..|permits| - 1]) +
         (var p := permits[|permits| - 1]; if p.live then 0 else p.slots)
  }

  /** The tickets still waiting, in the order they were handed out. */
  function WaitingTickets(fates: seq<Fate>): seq<nat> {
    if fates == [] then []
    else WaitingTickets(fates[..|fates| - 1]) + (if fates[|fates| - 1] == Waiting then [|fates| - 1] else [])
  }

  function CountFate(fates: seq<Fate>, fate: Fate): nat {
    if fates == [] then 0
    else CountFate(fates[..|fates| - 1], fate) + (if fates[|fates| - 1] == fate then 1 else 0)
  }

  function Sum(ns: seq<nat>): nat {
    if ns == [] then 0 else Sum(ns[..|ns| - 1]) + ns[|ns| - 1]
  }

  predicate Increasing(ns: seq<nat>) {
    forall i, j :: 0 <= i < j < |ns| ==> ns[i] < ns[j]
  }

  /** The gate's invariant: every number it shows is a fact about the history. */
  ghost predicate Inv(s: System) {
    var g, c := s.gate, s.gate.counters;
    && g.maxActive >= 1
    && g.active == LiveSlots(s.permits) <= g.maxActive
    && (forall p :: 0 <= p < |s.permits| ==> s.permits[p].slots >= 1)
    && g.queue == WaitingTickets(s.fates)
    && |g.queue| <= g.queueCapacity
    && g.nextTicket == |s.fates| == c.queued
    && c.admitted == g.active + DroppedSlots(s.permits)
    && c.rejected == s.refusals && c.saturated == c.rejected + c.queued
    && |s.waits| + |g.queue| == c.queued && WaitsCounted(s.waits, c)
    && c.timedOut == CountFate(s.fates, WasTimedOut)
    && FirstCome(s)
  }

  function MaxOf(ns: seq<nat>): nat {
    if ns == [] then 0
    else
      var rest := MaxOf(ns[..|ns| - 1]);
      if ns[|ns| - 1] > rest then ns[|ns| - 1] else rest
  }

  function CountBucket(waits: seq<nat>, bucket: nat): nat {
    if waits == [] then 0
    else CountBucket(waits[..|waits| - 1], bucket) + (if Bucket(waits[|waits| - 1]) == bucket then 1 else 0)
  }

  /** Total, maximum and every bucket are those of the finished waits. */
  ghost predicate WaitsCounted(waits: seq<nat>, c: Counters) {
    && c.waitTotal == Sum(waits) && c.waitMax == MaxOf(waits)
    && |c.buckets| == 6 && Sum(c.buckets) == |waits|
    && (forall b :: 0 <= b < 6 ==> c.buckets[b] == CountBucket(waits, b))
  }

  /** Tickets were admitted in increasing order, each after all earlier ones were settled. */
  ghost predicate FirstCome(s: System) {
    && Increasing(s.admissions)
    && (forall k :: 0 <= k < |s.admissions| ==> s.admissions[k] < |s.fates|)
    && (forall k :: 0 <= k < |s.admissions| ==> s.fates[s.admissions[k]] == WasAdmitted)
    && (forall k, u :: 0 <= k < |s.admissions| && 0 <= u < s.admissions[k] ==> s.fates[u] != Waiting)
  }

  // ---------- counting lemmas ----------

  lemma LiveSlotsGrant(permits: seq<Permit>, p: Permit)
    ensures LiveSlots(permits + [p]) == LiveSlots(permits) + (if p.live then p.slots else 0)
    ensures DroppedSlots(permits + [p]) == DroppedSlots(permits) + (if p.live then 0 else p.slots)
  {
    assert (permits + [p])[..|permits|] == permits;
  }

  lemma {:induction false} LiveSlotsDrop(permits: seq<Permit>, p: nat)
    requires p < |permits| && permits[p].live
    ensures var after := permits[p := permits[p].(live := false)];
      && LiveSlots(after) == LiveSlots(permits) - permits[p].slots
      && DroppedSlots(after) == DroppedSlots(permits) + permits[p].slots
    decreases |permits|
  {
    var n := |permits| - 1;
    var after := permits[p := permits[p].(live := false)];
    if p < n {
      LiveSlotsDrop(permits[..n], p);
      assert after[..n] == permits[..n][p := permits[p].(live := false)];
    } else {
      assert after[..n] == permits[..n];
    }
  }

  lemma {:induction false} WaitingTicketsAre(fates: seq<Fate>)
    ensures var q := WaitingTickets(fates);
      && Increasing(q)
      && (forall i :: 0 <= i < |q| ==> q[i] < |fates| && fates[q[i]] == Waiting)
      && (forall t :: 0 <= t < |fates| && fates[t] == Waiting ==> t in q)
    decreases |fates|
  {
    if fates != [] {
      var n, q := |fates| - 1, WaitingTickets(fates);
      var shorter := WaitingTickets(fates[..n]);
      WaitingTicketsAre(fates[..n]);
      assert q == shorter + if fates[n] == Waiting then [n] else [];
      hide WaitingTickets;
      forall t | 0 <= t < |fates| && fates[t] == Waiting ensures t in q {
        assert if t < n then t in shorter else q[|shorter|] == n;
      }
    }
  }

  lemma WaitingTicketsPush(fates: seq<Fate>)
    ensures WaitingTickets(fates + [Waiting]) == WaitingTickets(fates) + [|fates|]
  {
    assert (fates + [Waiting])[..|fates|] == fates;
  }

  /** Settling a waiting ticket takes exactly it out of the queue. */
  lemma {:induction false} WaitingTicketsSettle(fates: seq<Fate>, t: nat, fate: Fate)
    requires t < |fates| && fates[t] == Waiting && fate != Waiting
    ensures WaitingTickets(fates[t := fate]) == Without(WaitingTickets(fates), t)
    ensures |WaitingTickets(fates)| == |WaitingTickets(fates[t := fate])| + 1
    decreases |fates|
  {
    var n := |fates| - 1;
    var shorter := WaitingTickets(fates[..n]);
    WaitingTicketsAre(fates[..n]);
    if t < n {
      assert fates[t := fate][..n] == fates[..n][t := fate];
      WaitingTicketsSettle(fates[..n], t, fate);
      WithoutAppend(shorter, if fates[n] == Waiting then [n] else [], t);
    } else {
      assert fates[t := fate][..n] == fates[..n];
      WithoutAbsent(shorter, n);
    }
  }

  lemma {:induction false} WithoutAppend(a: seq<nat>, b: seq<nat>, t: nat)
    requires t in a
    ensures Without(a + b, t) == Without(a, t) + b
  {
    if a[0] == t {
      assert (a + b)[1..] == a[1..] + b;
    } else {
      WithoutAppend(a[1..], b, t);
      assert (a + b)[1..] == a[1..] + b;
    }
  }

  lemma {:induction false} WithoutAbsent(a: seq<nat>, t: nat)
    requires t !in a
    ensures Without(a + [t], t) == a
  {
    if a != [] {
      WithoutAbsent(a[1..], t);
      assert (a + [t])[1..] == a[1..] + [t];
    }
  }

  lemma CountFatePush(fates: seq<Fate>, f: Fate, fate: Fate)
    ensures CountFate(fates + [f], fate) == CountFate(fates, fate) + (if f == fate then 1 else 0)
  {
    assert (fates + [f])[..|fates|] == fates;
  }

  lemma {:induction false} CountFateSettle(fates: seq<Fate>, t: nat, f: Fate, fate: Fate)
    requires t < |fates| && fates[t] == Waiting && f != Waiting && fate != Waiting
    ensures CountFate(fates[t := f], fate) == CountFate(fates, fate) + (if f == fate then 1 else 0)
    decreases |fates|
  {
    var n := |fates| - 1;
    if t < n {
      CountFateSettle(fates[..n], t, f, fate);
      assert fates[t := f][..n] == fates[..n][t := f];
    } else {
      assert fates[t := f][..n] == fates[..n];
    }
  }

  lemma {:induction false} SumIncrement(ns: seq<nat>, i: nat)
    requires i < |ns|
    ensures Sum(ns[i := ns[i] + 1]) == Sum(ns) + 1
    decreases |ns|
  {
    var n := |ns| - 1;
    if i < n {
      SumIncrement(ns[..n], i);
      assert ns[i := ns[i] + 1][..n] == ns[..n][i := ns[i] + 1];
    } else {
      assert ns[i := ns[i] + 1][..n] == ns[..n];
    }
  }

  lemma WaitObserved(waits: seq<nat>, c: Counters, millis: nat)
    requires WaitsCounted(waits, c)
    ensures WaitsCounted(waits + [millis], ObserveWait(c, millis))
  {
    assert (waits + [millis])[..|waits|] == waits;
    SumIncrement(c.buckets, Bucket(millis));
  }

  // ---------- the invariant over every run ----------

  lemma InitialInv(maxActive: nat, queueCapacity: nat)
    ensures Inv(Initial(maxActive, queueCapacity))
  {
    SumOfZeros([0, 0, 0, 0, 0, 0]);
  }

  lemma {:induction false} SumOfZeros(ns: seq<nat>)
    requires forall i :: 0 <= i < |ns| ==> ns[i] == 0
    ensures Sum(ns) == 0
    decreases |ns|
  {
    if ns != [] {
      SumOfZeros(ns[..|ns| - 1]);
    }
  }

  lemma GrantInv(s: System, g: Gate, slots: nat)
    requires Inv(s) && 1 <= slots <= Room(s.gate) && g == Admit(s.gate, slots)
    ensures Inv(Grant(s.(gate := g), slots))
  {
    hide Sum, MaxOf, CountBucket, LiveSlots, DroppedSlots, CountFate, WaitingTickets, Without;
    LiveSlotsGrant(s.permits, Permit(slots, true));
  }

  lemma SettleInv(s: System, g: Gate, t: nat, fate: Fate, millis: nat)
    requires Inv(s) && t < |s.fates| && s.fates[t] == Waiting && (fate == WasTimedOut || fate == WasCancelled)
    requires var observed := ObserveWait(s.gate.counters, millis);
      g == s.gate.(queue := Without(s.gate.queue, t),
                   counters := if fate == WasTimedOut then observed.(timedOut := observed.timedOut + 1) else observed)
    ensures Inv(Settle(s.(gate := g), t, fate, millis))
  {
    hide Sum, MaxOf, CountBucket, LiveSlots, DroppedSlots, CountFate, WaitingTickets, Without;
    WaitingTicketsSettle(s.fates, t, fate);
    CountFateSettle(s.fates, t, fate, WasTimedOut);
    WaitObserved(s.waits, s.gate.counters, millis);
  }

  /** The front of the queue is the earliest waiting ticket. */
  lemma FrontIsEarliest(s: System)
    requires Inv(s) && s.gate.queue != []
    ensures var t := s.gate.queue[0];
      && t < |s.fates| && s.fates[t] == Waiting
      && (forall u :: 0 <= u < t ==> s.fates[u] != Waiting)
      && s.gate.queue[1..] == Without(s.gate.queue, t)
  {
    WaitingTicketsAre(s.fates);
  }

  lemma TurnInv(s: System, t: nat, millis: nat)
    requires Inv(s) && s.gate.active < s.gate.maxActive && s.gate.queue != [] && s.gate.queue[0] == t
    ensures t < |s.fates| && s.fates[t] == Waiting
    ensures Inv(Next(s, StepTurn(t, false, false, millis)))
  {
    hide Sum, MaxOf, CountBucket, LiveSlots, DroppedSlots, CountFate, WaitingTickets, Without;
    FrontIsEarliest(s);
    WaitingTicketsSettle(s.fates, t, WasAdmitted);
    CountFateSettle(s.fates, t, WasAdmitted, WasTimedOut);
    WaitObserved(s.waits, s.gate.counters, millis);
    LiveSlotsGrant(s.permits, Permit(1, true));
  }

  lemma DropInv(s: System, p: nat)
    requires Inv(s) && Enabled(s, StepDrop(p))
    ensures Inv(Next(s, StepDrop(p)))
    ensures Next(s, StepDrop(p)).gate.active == s.gate.active - s.permits[p].slots
  {
    LiveSlotsDrop(s.permits, p);
  }

  lemma ArriveInv(s: System, cancelled: bool)
    requires Inv(s)
    ensures Inv(Next(s, StepArrive(cancelled)))
  {
    hide Sum, MaxOf, CountBucket, LiveSlots, DroppedSlots, CountFate, WaitingTickets, Without;
    match Arrive(s.gate, cancelled).1
    case ArrivedAdmitted => GrantInv(s, Admit(s.gate, 1), 1);
    case Queued(_) =>
      WaitingTicketsPush(s.fates);
      CountFatePush(s.fates, Waiting, WasTimedOut);
    case _ =>
  }

  lemma WaitTurnInv(s: System, t: nat, cancelled: bool, expired: bool, millis: nat)
    requires Inv(s) && Enabled(s, StepTurn(t, cancelled, expired, millis))
    ensures Inv(Next(s, StepTurn(t, cancelled, expired, millis)))
  {
    hide Inv;
    var (g, turn) := Poll(s.gate, t, cancelled, expired, millis);
    match turn
    case TurnCancelled => SettleInv(s, g, t, WasCancelled, millis);
    case TurnTimedOut => SettleInv(s, g, t, WasTimedOut, millis);
    case TurnAdmitted =>
      TurnInv(s, t, millis);
      assert Next(s, StepTurn(t, cancelled, expired, millis)) == Next(s, StepTurn(t, false, false, millis));
    case StillWaiting =>
  }

  lemma NextInv(s: System, step: Step)
    requires Inv(s) && Enabled(s, step)
    ensures Inv(Next(s, step))
  {
    match step
    case StepMany(slots) =>
      if TryMany(s.gate, slots).1 { GrantInv(s, Admit(s.gate, slots), slots); }
    case StepIdle =>
      if TryIdle(s.gate).1 { GrantInv(s, Admit(s.gate, 1), 1); }
    case StepArrive(cancelled) => ArriveInv(s, cancelled);
    case StepTurn(t, cancelled, expired, millis) => WaitTurnInv(s, t, cancelled, expired, millis);
    case StepDrop(p) => DropInv(s, p);
  }

  /** A schedule is a list of steps, each enabled when its time comes. */
  predicate Schedule(s: System, steps: seq<Step>)
    decreases |steps|
  {
    steps == [] || (Enabled(s, steps[0]) && Schedule(Next(s, steps[0]), steps[1..]))
  }

  function After(s: System, steps: seq<Step>): System
    requires Schedule(s, steps)
    decreases |steps|
  {
    if steps == [] then s else After(Next(s, steps[0]), steps[1..])
  }

  lemma {:induction false} EveryRunKeepsInv(s: System, steps: seq<Step>)
    requires Inv(s) && Schedule(s, steps)
    ensures Inv(After(s, steps))
    decreases |steps|
  {
    if steps != [] {
      NextInv(s, steps[0]);
      EveryRunKeepsInv(Next(s, steps[0]), steps[1..]);
    }
  }
}
