/** The media-helper admission gate: its locked state and each of its critical sections.

    Tickets and counters are unbounded numbers; a real gate counts with 64 bits. */
module HelperGate {

  /** Everything behind the gate's lock, and the counters it publishes. */
  datatype Gate = Gate(maxActive: nat, queueCapacity: nat, active: nat, queue: seq<nat>, nextTicket: nat,
                       counters: Counters)

  datatype Counters = Counters(admitted: nat, saturated: nat, queued: nat, rejected: nat, timedOut: nat,
                               waitTotal: nat, waitMax: nat, buckets: seq<nat>)

  /** How the first critical section of a waiting acquisition ends. */
  datatype Arrival = ArrivedCancelled | ArrivedAdmitted | ArrivedRejected | Queued(ticket: nat)

  /** How one turn of the wait loop ends. */
  datatype Turn = TurnCancelled | TurnAdmitted | TurnTimedOut | StillWaiting

  const NO_COUNTS := Counters(0, 0, 0, 0, 0, 0, 0, [0, 0, 0, 0, 0, 0])

  function AtLeastOne(n: nat): nat {
    if n == 0 then 1 else n
  }

  function NewGate(maxActive: nat, queueCapacity: nat): Gate {
    Gate(AtLeastOne(maxActive), queueCapacity, 0, [], 0, NO_COUNTS)
  }

  function Admit(g: Gate, slots: nat): Gate {
    g.(active := g.active + slots, counters := g.counters.(admitted := g.counters.admitted + slots))
  }

  /** Room for another slot: `max_active.saturating_sub(active)`. */
  function Room(g: Gate): nat {
    if g.active <= g.maxActive then g.maxActive - g.active else 0
  }

  function TryMany(g: Gate, slots: nat): (Gate, bool) {
    if slots > 0 && slots <= Room(g) && g.queue == [] then (Admit(g, slots), true)
    else (g.(counters := g.counters.(saturated := g.counters.saturated + 1,
                                     rejected := g.counters.rejected + 1)), false)
  }

  function TryIdle(g: Gate): (Gate, bool) {
    if g.active < g.maxActive && g.queue == [] then (Admit(g, 1), true) else (g, false)
  }

  function Arrive(g: Gate, cancelled: bool): (Gate, Arrival) {
    if cancelled then (g, ArrivedCancelled)
    else if g.active < g.maxActive && g.queue == [] then (Admit(g, 1), ArrivedAdmitted)
    else
      var c := g.counters.(saturated := g.counters.saturated + 1);
      if |g.queue| >= g.queueCapacity then (g.(counters := c.(rejected := c.rejected + 1)), ArrivedRejected)
      else (g.(queue := g.queue + [g.nextTicket], nextTicket := g.nextTicket + 1,
               counters := c.(queued := c.queued + 1)), Queued(g.nextTicket))
  }

  /** Remove the first occurrence of a ticket. */
  function Without(queue: seq<nat>, ticket: nat): seq<nat> {
    if queue == [] then []
    else if queue[0] == ticket then queue[1..]
    else [queue[0]] + Without(queue[1..], ticket)
  }

  /** Wait buckets: at most 10, 50, 100, 500, 1000 milliseconds, and longer. */
  function Bucket(millis: nat): (i: nat)
    ensures i < 6
  {
    if millis <= 10 then 0 else if millis <= 50 then 1 else if millis <= 100 then 2
    else if millis <= 500 then 3 else if millis <= 1000 then 4 else 5
  }

  function ObserveWait(c: Counters, millis: nat): Counters
    requires |c.buckets| == 6
  {
    c.(waitTotal := c.waitTotal + millis,
       waitMax := if millis > c.waitMax then millis else c.waitMax,
       buckets := c.buckets[Bucket(millis) := c.buckets[Bucket(millis)] + 1])
  }

  /** One turn of the wait loop under the lock. `millis` is the time waited so far. */
  function Poll(g: Gate, ticket: nat, cancelled: bool, expired: bool, millis: nat): (Gate, Turn)
    requires |g.counters.buckets| == 6
  {
    var observed := ObserveWait(g.counters, millis);
    if cancelled then (g.(queue := Without(g.queue, ticket), counters := observed), TurnCancelled)
    else if g.active < g.maxActive && g.queue != [] && g.queue[0] == ticket then
      (Admit(g.(queue := g.queue[1..], counters := observed), 1), TurnAdmitted)
    else if expired then
      (g.(queue := Without(g.queue, ticket),
          counters := observed.(timedOut := observed.timedOut + 1)), TurnTimedOut)
    else (g, StillWaiting)
  }

  /** Dropping a permit; the subtraction saturates at zero. */
  function Release(g: Gate, slots: nat): Gate {
    g.(active := if g.active <= slots then 0 else g.active - slots)
  }

  /** The gate as the program holds it. Each method is one critical section. */
  class HelperGate {
    const maxActive: nat
    const queueCapacity: nat
    var active: nat
    var queue: seq<nat>
    var nextTicket: nat
    var admittedTotal: nat
    var saturatedTotal: nat
    var queuedTotal: nat
    var rejectedTotal: nat
    var timedOutTotal: nat
    var waitTotal: nat
    var waitMax: nat
    var buckets: seq<nat>

    ghost predicate Valid()
      reads this
    {
      |buckets| == 6
    }

    ghost function View(): Gate
      reads this
    {
      Gate(maxActive, queueCapacity, active, queue, nextTicket,
           Counters(admittedTotal, saturatedTotal, queuedTotal, rejectedTotal, timedOutTotal,
                    waitTotal, waitMax, buckets))
    }

    constructor (maxActive: nat, queueCapacity: nat)
      ensures Valid() && View() == NewGate(maxActive, queueCapacity)
    {
      this.maxActive := AtLeastOne(maxActive);
      this.queueCapacity := queueCapacity;
      active, queue, nextTicket := 0, [], 0;
      admittedTotal, saturatedTotal, queuedTotal, rejectedTotal, timedOutTotal := 0, 0, 0, 0, 0;
      waitTotal, waitMax, buckets := 0, 0, [0, 0, 0, 0, 0, 0];
    }

    method AdmitSlots(slots: nat)
      modifies this`active, this`admittedTotal
      ensures View() == Admit(old(View()), slots)
    {
      active := active + slots;
      admittedTotal := admittedTotal + slots;
    }

    method TryAcquireMany(slots: nat) returns (admitted: bool)
      requires Valid()
      modifies this
      ensures Valid() && (View(), admitted) == TryMany(old(View()), slots)
    {
      var room := if active <= maxActive then maxActive - active else 0;
      if slots > 0 && slots <= room && queue == [] {
        AdmitSlots(slots);
        return true;
      }
      saturatedTotal := saturatedTotal + 1;
      rejectedTotal := rejectedTotal + 1;
      return false;
    }

    method TryAcquireIdle() returns (admitted: bool)
      requires Valid()
      modifies this
      ensures Valid() && (View(), admitted) == TryIdle(old(View()))
    {
      if active < maxActive && queue == [] {
        AdmitSlots(1);
        return true;
      }
      return false;
    }

    method EnterQueue(cancelled: bool) returns (arrival: Arrival)
      requires Valid()
      modifies this
      ensures Valid() && (View(), arrival) == Arrive(old(View()), cancelled)
      ensures arrival ==
        if cancelled then ArrivedCancelled
        else if old(active) < maxActive && old(queue) == [] then ArrivedAdmitted
        else if |old(queue)| < queueCapacity then Queued(old(nextTicket))
        else ArrivedRejected
      ensures active == old(active) + if arrival.ArrivedAdmitted? then 1 else 0
      ensures queue == old(queue) + if arrival.Queued? then [arrival.ticket] else []
      ensures cancelled ==> View() == old(View())
    {
      if cancelled {
        return ArrivedCancelled;
      }
      if active < maxActive && queue == [] {
        AdmitSlots(1);
        return ArrivedAdmitted;
      }
      saturatedTotal := saturatedTotal + 1;
      if |queue| >= queueCapacity {
        rejectedTotal := rejectedTotal + 1;
        return ArrivedRejected;
      }
      var ticket := nextTicket;
      nextTicket := nextTicket + 1;
      queue := queue + [ticket];
      queuedTotal := queuedTotal + 1;
      return Queued(ticket);
    }

    method Observe(millis: nat)
      requires Valid()
      modifies this`waitTotal, this`waitMax, this`buckets
      ensures Valid() && View() == old(View()).(counters := ObserveWait(old(View()).counters, millis))
    {
      var bucket := Bucket(millis);
      waitTotal := waitTotal + millis;
      if millis > waitMax {
        waitMax := millis;
      }
      buckets := buckets[bucket := buckets[bucket] + 1];
    }

    /** `position` of the ticket, then `remove` when there is one. */
    method RemoveTicket(ticket: nat)
      modifies this`queue
      ensures queue == Without(old(queue), ticket)
    {
      var position := 0;
      while position < |queue| && queue[position] != ticket
        invariant position <= |queue| && queue == old(queue)
        invariant Without(queue, ticket) == queue[..position] + Without(queue[position..], ticket)
      {
        ghost var rest := queue[position..];
        assert rest[1..] == queue[position + 1..];
        assert queue[..position + 1] == queue[..position] + [queue[position]];
        position := position + 1;
      }
      assert queue[..|queue|] == queue;
      if position < |queue| {
        assert queue[position..][1..] == queue[position + 1..];
        queue := queue[..position] + queue[position + 1..];
      }
    }

    method WaitTurn(ticket: nat, cancelled: bool, expired: bool, millis: nat) returns (turn: Turn)
      requires Valid()
      modifies this
      ensures Valid() && (View(), turn) == Poll(old(View()), ticket, cancelled, expired, millis)
      ensures turn ==
        if cancelled then TurnCancelled
        else if old(active) < maxActive && old(queue) != [] && old(queue)[0] == ticket then TurnAdmitted
        else if expired then TurnTimedOut
        else StillWaiting
      ensures active == old(active) + if turn.TurnAdmitted? then 1 else 0
      ensures turn.StillWaiting? ==> View() == old(View())
    {
      if cancelled {
        RemoveTicket(ticket);
        Observe(millis);
        return TurnCancelled;
      }
      if active < maxActive && queue != [] && queue[0] == ticket {
        queue := queue[1..];
        Observe(millis);
        AdmitSlots(1);
        return TurnAdmitted;
      }
      if expired {
        RemoveTicket(ticket);
        timedOutTotal := timedOutTotal + 1;
        Observe(millis);
        return TurnTimedOut;
      }
      return StillWaiting;
    }

    method DropPermit(slots: nat)
      requires Valid()
      modifies this`active
      ensures Valid() && View() == Release(old(View()), slots)
    {
      active := if active <= slots then 0 else active - slots;
    }
  }
}
