/** The cap on title-level jobs, which two kinds of holder share: manual reservations that are
    released by count, and permits that release themselves when dropped. */
module JobGate {

  datatype Gate = Gate(max: nat, manual: nat, permits: nat)

  function InUse(g: Gate): nat {
    g.manual + g.permits
  }

  class JobGate {
    const max: nat
    var manual: nat
    var permits: nat

    ghost function View(): Gate
      reads this
    {
      Gate(max, manual, permits)
    }

    constructor (max: nat)
      ensures View() == Gate(if max == 0 then 1 else max, 0, 0)
    {
      this.max := if max == 0 then 1 else max;
      manual, permits := 0, 0;
    }

    method TryAdd() returns (added: bool)
      modifies this`manual
      ensures added <==> InUse(old(View())) < max
      ensures View() == old(View()).(manual := old(manual) + if added then 1 else 0)
    {
      if manual + permits >= max {
        return false;
      }
      manual := manual + 1;
      return true;
    }

    method ReleaseManual()
      modifies this`manual
      ensures View() == old(View()).(manual := if old(manual) == 0 then 0 else old(manual) - 1)
    {
      manual := if manual == 0 then 0 else manual - 1;
    }

    method TryAcquire() returns (acquired: bool)
      modifies this`permits
      ensures acquired <==> InUse(old(View())) < max
      ensures View() == old(View()).(permits := old(permits) + if acquired then 1 else 0)
    {
      if manual + permits >= max {
        return false;
      }
      permits := permits + 1;
      return true;
    }

    /** A permit going out of scope. */
    method DropPermit()
      modifies this`permits
      ensures View() == old(View()).(permits := if old(permits) == 0 then 0 else old(permits) - 1)
    {
      permits := if permits == 0 then 0 else permits - 1;
    }
  }

  // ---------- every interleaving ----------

  datatype Step = StepAdd | StepRelease | StepAcquire | StepDrop(permit: nat)

  /** `live[i]` says whether the i-th permit handed out is still held. */
  datatype System = System(gate: Gate, live: seq<bool>)

  predicate Enabled(s: System, step: Step) {
    step.StepDrop? ==> step.permit < |s.live| && s.live[step.permit]
  }

  function Next(s: System, step: Step): System
    requires Enabled(s, step)
  {
    var g := s.gate;
    match step
    case StepAdd => if InUse(g) < g.max then s.(gate := g.(manual := g.manual + 1)) else s
    case StepRelease => s.(gate := g.(manual := if g.manual == 0 then 0 else g.manual - 1))
    case StepAcquire =>
      if InUse(g) < g.max then System(g.(permits := g.permits + 1), s.live + [true]) else s
    case StepDrop(p) =>
      System(g.(permits := if g.permits == 0 then 0 else g.permits - 1), s.live[p := false])
  }

  function Held(live: seq<bool>): nat {
    if live == [] then 0 else Held(live[..|live| - 1]) + if live[|live| - 1] then 1 else 0
  }

  predicate Schedule(s: System, steps: seq<Step>)
    decreases |steps|
  {
    steps == [] || (Enabled(s, steps[0]) && Schedule(Next(s, steps[0]), steps[1..]))
  }

  function After(s: System, steps: seq<Step>): System
    requires Schedule(s, steps)
    decreases |steps|
  {
    if steps == [] then s else After(Next(s, steps[0]), steps[1..])
  }

  predicate Inv(s: System) {
    s.gate.permits == Held(s.live) && InUse(s.gate) <= s.gate.max
  }

  lemma {:induction false} HeldDrop(live: seq<bool>, p: nat)
    requires p < |live| && live[p]
    ensures Held(live[p := false]) == Held(live) - 1
    decreases |live|
  {
    var n := |live| - 1;
    if p < n {
      HeldDrop(live[..n], p);
      assert live[p := false][..n] == live[..n][p := false];
    } else {
      assert live[p := false][..n] == live[..n];
    }
  }

  lemma NextInv(s: System, step: Step)
    requires Inv(s) && Enabled(s, step)
    ensures Inv(Next(s, step))
  {
    match step
    case StepAcquire => assert (s.live + [true])[..|s.live|] == s.live;
    case StepDrop(p) => HeldDrop(s.live, p);
    case _ =>
  }

  /** A reservation or a permit is handed out exactly while manual reservations and permits still
      held are fewer than the cap, and otherwise nothing changes; a release or a drop takes
      exactly one away. */
  lemma StepOutcomes(s: System, p: nat)
    requires Inv(s)
    ensures var free := s.gate.manual + Held(s.live) < s.gate.max;
      && Next(s, StepAdd) == (if free then s.(gate := s.gate.(manual := s.gate.manual + 1)) else s)
      && Next(s, StepAcquire).live == (if free then s.live + [true] else s.live)
      && Next(s, StepAcquire).gate.manual == s.gate.manual
    ensures s.gate.manual > 0 ==> Next(s, StepRelease).gate.manual == s.gate.manual - 1
    ensures s.gate.manual == 0 ==> Next(s, StepRelease) == s
    ensures Enabled(s, StepDrop(p)) ==>
      Next(s, StepDrop(p)).live == s.live[p := false] && Next(s, StepDrop(p)).gate.manual == s.gate.manual &&
      Held(Next(s, StepDrop(p)).live) == Held(s.live) - 1
  {
    if Enabled(s, StepDrop(p)) {
      HeldDrop(s.live, p);
    }
  }

  /** Over every interleaving the cap holds, and the permit count is the number of permits
      still held: however often manual slots are released, no permit's slot is given away. */
  lemma {:induction false} CapHolds(s: System, steps: seq<Step>)
    requires Inv(s) && Schedule(s, steps)
    ensures var z := After(s, steps);
      z.gate.permits == Held(z.live) && InUse(z.gate) <= z.gate.max == s.gate.max
    decreases |steps|
  {
    if steps != [] {
      NextInv(s, steps[0]);
      CapHolds(Next(s, steps[0]), steps[1..]);
    }
  }

  /** In particular from a new gate, whatever cap is asked for. */
  lemma CapHoldsFromTheStart(max: nat, steps: seq<Step>)
    requires Schedule(System(Gate(if max == 0 then 1 else max, 0, 0), []), steps)
    ensures var z := After(System(Gate(if max == 0 then 1 else max, 0, 0), []), steps);
      z.gate.permits == Held(z.live) && z.gate.manual + Held(z.live) <= if max == 0 then 1 else max
  {
    CapHolds(System(Gate(if max == 0 then 1 else max, 0, 0), []), steps);
  }

  /** Releasing frees a slot of its own kind only: after any release the permits stand, and
      after any drop the manual reservations do. */
  lemma ReleasesStayApart(s: System, p: nat)
    requires Inv(s) && p < |s.live| && s.live[p]
    ensures Held(Next(s, StepRelease).live) == Next(s, StepRelease).gate.permits == s.gate.permits
    ensures Next(s, StepDrop(p)).gate.manual == s.gate.manual
    ensures InUse(Next(s, StepDrop(p)).gate) == InUse(s.gate) - 1
  {
    HeldDrop(s.live, p);
  }
}
