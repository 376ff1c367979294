/** Handing open files to a child at chosen descriptor numbers, with `dup2` one at a time. */
module DescriptorInheritance {
  import opened Text

  const RAW_FD_MAX: int := 0x7FFF_FFFF
  const STDERR: int := 2

  /** An open descriptor: the file it refers to and its close-on-exec flag. */
  datatype Slot = Slot(file: string, closeOnExec: bool)

  type Table = map<int, Slot>

  /** A file owned by the command through `source`, wanted in the child as `target`. */
  datatype Inherited = Inherited(source: int, target: int)

  datatype Error = InvalidTarget | TargetInUse | DescriptorOverflow | NoDescriptor | BadTarget

  // ---------- the child's steps ----------

  /** One pre-exec closure: `dup2` unless source and target agree, then clear close-on-exec. */
  function ChildStep(t: Table, h: Inherited): Table {
    if h.source in t then t[h.target := Slot(t[h.source].file, false)] else t
  }

  function ChildSteps(t: Table, hs: seq<Inherited>): Table
    decreases |hs|
  {
    if hs == [] then t else ChildSteps(ChildStep(t, hs[0]), hs[1..])
  }

  /** Sources are open descriptors owned one by one; targets differ and lie above stderr. */
  predicate Owned(t: Table, hs: seq<Inherited>) {
    && (forall i :: 0 <= i < |hs| ==> hs[i].source in t && 2 < hs[i].target <= 0x7FFF_FFFF)
    && (forall i, j :: 0 <= i < j < |hs| ==> hs[i].source != hs[j].source && hs[i].target != hs[j].target)
  }

  /** No step overwrites a source that a later step still needs. */
  predicate NoClobber(hs: seq<Inherited>) {
    forall i, j :: 0 <= i < j < |hs| ==> hs[i].target != hs[j].source
  }

  /** Every target refers to its own file, open across exec. */
  predicate Delivered(before: Table, hs: seq<Inherited>, after: Table)
    requires forall i :: 0 <= i < |hs| ==> hs[i].source in before
  {
    forall i :: 0 <= i < |hs| ==>
      hs[i].target in after && after[hs[i].target] == Slot(before[hs[i].source].file, false)
  }

  predicate IsTarget(hs: seq<Inherited>, fd: int) {
    exists i :: 0 <= i < |hs| && hs[i].target == fd
  }

  /** Above the standard descriptors, which are set up anew for the child, everything that is
      no target is as before. */
  ghost predicate OthersKept(before: Table, hs: seq<Inherited>, after: Table) {
    forall fd :: fd > 2 && !IsTarget(hs, fd) ==>
      (fd in before <==> fd in after) && (fd in before ==> after[fd] == before[fd])
  }

  /** What one descriptor refers to once every step has run: the file of the step that targets
      it, looked up when that step ran. */
  lemma {:induction false} StepsAt(t: Table, hs: seq<Inherited>, fd: int)
    requires Owned(t, hs)
    ensures !IsTarget(hs, fd) ==>
      (fd in t <==> fd in ChildSteps(t, hs)) && (fd in t ==> ChildSteps(t, hs)[fd] == t[fd])
    decreases |hs|
  {
    if hs != [] {
      assert !IsTarget(hs, fd) ==> !IsTarget(hs[1..], fd) && hs[0].target != fd by {
        if IsTarget(hs[1..], fd) {
          var i :| 0 <= i < |hs[1..]| && hs[1..][i].target == fd;
          assert hs[i + 1].target == fd;
        }
      }
      StepsAt(ChildStep(t, hs[0]), hs[1..], fd);
    }
  }

  /** No later step touches the target of an earlier one. */
  lemma LastWrite(t: Table, hs: seq<Inherited>)
    requires hs != [] && Owned(t, hs)
    ensures hs[0].target in ChildSteps(t, hs)
    ensures ChildSteps(t, hs)[hs[0].target] == Slot(t[hs[0].source].file, false)
  {
    assert !IsTarget(hs[1..], hs[0].target);
    StepsAt(ChildStep(t, hs[0]), hs[1..], hs[0].target);
  }

  lemma {:induction false} NoClobberDelivers(t: Table, hs: seq<Inherited>)
    requires Owned(t, hs) && NoClobber(hs)
    ensures Delivered(t, hs, ChildSteps(t, hs))
    decreases |hs|
  {
    if hs != [] {
      var next, after := ChildStep(t, hs[0]), ChildSteps(t, hs);
      NoClobberDelivers(next, hs[1..]);
      forall i | 0 <= i < |hs|
        ensures hs[i].target in after && after[hs[i].target] == Slot(t[hs[i].source].file, false)
      {
        if i == 0 {
          LastWrite(t, hs);
        } else {
          assert hs[1..][i - 1] == hs[i];
        }
      }
    }
  }

  lemma {:induction false} StepsConcat(t: Table, a: seq<Inherited>, b: seq<Inherited>)
    ensures ChildSteps(t, a + b) == ChildSteps(ChildSteps(t, a), b)
    decreases |a|
  {
    if a == [] {
      assert a + b == b;
    } else {
      StepsConcat(ChildStep(t, a[0]), a[1..], b);
      assert (a + b)[1..] == a[1..] + b;
    }
  }

  lemma {:induction false} StepsKeepOpen(t: Table, hs: seq<Inherited>)
    ensures t.Keys <= ChildSteps(t, hs).Keys
    decreases |hs|
  {
    if hs != [] {
      StepsKeepOpen(ChildStep(t, hs[0]), hs[1..]);
    }
  }

  /** The shortest run of steps that clobbers a source. */
  lemma {:induction false} FirstClobber(hs: seq<Inherited>, n: nat) returns (i: nat, j: nat)
    requires n <= |hs| && !NoClobber(hs[..n])
    ensures i < j < n && hs[i].target == hs[j].source && NoClobber(hs[..j])
    decreases n
  {
    if NoClobber(hs[..n - 1]) {
      assert hs[..n][..n - 1] == hs[..n - 1];
      i, j :| 0 <= i < j < n && hs[..n][i].target == hs[..n][j].source;
    } else {
      i, j := FirstClobber(hs, n - 1);
    }
  }

  lemma PrefixDelivers(t: Table, hs: seq<Inherited>, n: nat, i: nat)
    requires Owned(t, hs) && i < n <= |hs| && NoClobber(hs[..n])
    ensures hs[i].target in ChildSteps(t, hs[..n])
    ensures ChildSteps(t, hs[..n])[hs[i].target].file == t[hs[i].source].file
  {
    NoClobberDelivers(t, hs[..n]);
    assert hs[..n][i] == hs[i];
  }

  /** An overwritten source hands a wrong file to its own target. */
  lemma ClobberMisdelivers(t: Table, hs: seq<Inherited>, i: nat, j: nat)
    requires Owned(t, hs) && i < j < |hs| && hs[i].target == hs[j].source && NoClobber(hs[..j])
    ensures hs[j].target in ChildSteps(t, hs)
    ensures ChildSteps(t, hs)[hs[j].target].file == t[hs[i].source].file
  {
    hide ChildSteps, NoClobber;
    var before := ChildSteps(t, hs[..j]);
    PrefixDelivers(t, hs, j, i);
    StepsKeepOpen(t, hs[..j]);
    assert hs == hs[..j] + hs[j..];
    StepsConcat(t, hs[..j], hs[j..]);
    LastWrite(before, hs[j..]);
  }

  /** For files that differ, running the steps in order delivers every file exactly when no
      step's target is the source of a later step. */
  lemma DeliversIffNoClobber(t: Table, hs: seq<Inherited>)
    requires Owned(t, hs)
    requires forall i, j :: 0 <= i < j < |hs| ==> t[hs[i].source].file != t[hs[j].source].file
    ensures Delivered(t, hs, ChildSteps(t, hs)) <==> NoClobber(hs)
  {
    if NoClobber(hs) {
      NoClobberDelivers(t, hs);
    } else {
      assert hs[..|hs|] == hs;
      var i, j := FirstClobber(hs, |hs|);
      ClobberMisdelivers(t, hs, i, j);
    }
  }

  // ---------- the descriptor table of a process ----------

  /** The lowest free descriptor from `minimum` on, below the process limit. */
  predicate LowestFree(t: Table, minimum: int, limit: int, fd: int) {
    minimum <= fd < limit && fd !in t && forall k :: minimum <= k < fd ==> k in t
  }

  class Process {
    var table: Table
    const limit: int

    constructor (table: Table, limit: int)
      ensures this.table == table && this.limit == limit
    {
      this.table := table;
      this.limit := limit;
    }

    /** `F_DUPFD_CLOEXEC`. */
    method DupAtLeast(source: int, minimum: int) returns (fd: Option<int>)
      requires source in table
      modifies this
      ensures fd.None? ==> table == old(table) && forall k :: minimum <= k < limit ==> k in table
      ensures fd.Some? ==> LowestFree(old(table), minimum, limit, fd.value) &&
                           table == old(table)[fd.value := Slot(old(table)[source].file, true)]
    {
      var k := minimum;
      while k < limit && k in table
        invariant forall i :: minimum <= i < k ==> i in table
        invariant minimum <= k && table == old(table)
        decreases limit - k
      {
        k := k + 1;
      }
      if k >= limit {
        return None;
      }
      table := table[k := Slot(table[source].file, true)];
      return Some(k);
    }

    method Close(fd: int)
      modifies this
      ensures table == old(table) - {fd}
    {
      table := table - {fd};
    }

    /** `dup2` and then `F_SETFD 0`, as the closure does them. */
    method InstallAt(h: Inherited) returns (ok: bool)
      requires h.source in table
      modifies this
      ensures ok <==> h.target < limit || h.target in old(table)
      ensures ok ==> table == ChildStep(old(table), h)
      ensures !ok ==> table == old(table)
    {
      if h.source != h.target {
        if h.target >= limit && h.target !in table {
          return false;
        }
        table := table[h.target := Slot(table[h.source].file, false)];
      }
      if h.target !in table {
        return false;
      }
      table := table[h.target := table[h.target].(closeOnExec := false)];
      return true;
    }
  }

  // ---------- the command ----------

  /** The same files at other sources, for the same targets. */
  predicate Carries(before: Table, hs: seq<Inherited>, after: Table, hs': seq<Inherited>)
    requires forall i :: 0 <= i < |hs| ==> hs[i].source in before
  {
    && |hs'| == |hs|
    && (forall i :: 0 <= i < |hs| ==> hs'[i].source in after)
    && (forall i :: 0 <= i < |hs| ==> hs'[i].target == hs[i].target &&
                                      after[hs'[i].source].file == before[hs[i].source].file)
  }

  class SupervisedCommand {
    var inherited: seq<Inherited>

    constructor ()
      ensures inherited == []
    {
      inherited := [];
    }

    /** Own a clone of `source` for the child to have as `target`. */
    method InheritFileAt(p: Process, source: int, target: int) returns (r: Result<(), Error>)
      requires source in p.table && Owned(p.table, inherited) && target <= 0x7FFF_FFFF
      modifies this, p
      ensures Owned(p.table, inherited)
      ensures r == Err(InvalidTarget) <==> target <= 2
      ensures r == Err(TargetInUse) <==> target > 2 && IsTarget(old(inherited), target)
      ensures r == Err(NoDescriptor) <==> target > 2 && !IsTarget(old(inherited), target) &&
                                          forall k :: 2 < k < p.limit ==> k in old(p.table)
      ensures r.Err? ==> inherited == old(inherited) && p.table == old(p.table)
      ensures r.Ok? ==> |inherited| == |old(inherited)| + 1 && inherited[..|old(inherited)|] == old(inherited)
      ensures r.Ok? ==> var h := inherited[|old(inherited)|];
        h.target == target && h.source !in old(p.table) &&
        p.table == old(p.table)[h.source := Slot(old(p.table)[source].file, true)]
    {
      if target <= STDERR {
        return Err(InvalidTarget);
      }
      for i := 0 to |inherited|
        invariant forall k :: 0 <= k < i ==> inherited[k].target != target
      {
        if inherited[i].target == target {
          return Err(TargetInUse);
        }
      }
      var fd := p.DupAtLeast(source, STDERR + 1);
      if fd.None? {
        return Err(NoDescriptor);
      }
      inherited := inherited + [Inherited(fd.value, target)];
      return Ok(());
    }

    /** With several files, move every source above every target. It cannot fail while that many
        descriptors are free there. */
    method Normalize(p: Process) returns (r: Result<(), Error>)
      requires Owned(p.table, inherited)
      modifies this, p
      ensures r.Ok? ==> Owned(p.table, inherited) && NoClobber(inherited)
      ensures r.Ok? ==> Carries(old(p.table), old(inherited), p.table, inherited)
      ensures r.Ok? ==> KeptBesideSources(old(p.table), old(inherited), p.table)
      ensures |old(inherited)| <= 1 ==> r.Ok? && p.table == old(p.table) && inherited == old(inherited)
      ensures |old(inherited)| > 1 && r.Ok? ==> forall i :: 0 <= i < |inherited| ==> inherited[i].target < p.limit
      ensures EnoughFree(old(p.table), old(inherited), p.limit) ==> r.Ok?
    {
      if |inherited| <= 1 {
        return Ok(());
      }
      var minimum := STDERR;
      for i := 0 to |inherited|
        invariant STDERR <= minimum <= RAW_FD_MAX
        invariant forall k :: 0 <= k < i ==> inherited[k].target <= minimum
        invariant minimum == MaxTarget(inherited[..i])
      {
        assert inherited[..i + 1][..i] == inherited[..i];
        if inherited[i].target > minimum {
          minimum := inherited[i].target;
        }
      }
      assert inherited[..|inherited|] == inherited;
      if minimum + 1 > RAW_FD_MAX {
        return Err(DescriptorOverflow);
      }
      minimum := minimum + 1;
      r := RaiseSources(p, minimum);
    }

    /** Duplicate each source at or above `floor`, close the original, and go on behind it. */
    method RaiseSources(p: Process, floor: int) returns (r: Result<(), Error>)
      requires Owned(p.table, inherited)
      requires forall k :: 0 <= k < |inherited| ==> inherited[k].target < floor
      requires inherited != []
      modifies this, p
      ensures r.Ok? ==> Owned(p.table, inherited) && NoClobber(inherited)
      ensures r.Ok? ==> Carries(old(p.table), old(inherited), p.table, inherited)
      ensures r.Ok? ==> KeptBesideSources(old(p.table), old(inherited), p.table) && floor < p.limit
      ensures FreeCount(old(p.table), floor, p.limit) >= |old(inherited)| && p.limit <= RAW_FD_MAX ==> r.Ok?
    {
      hide Carries, Owned, KeptBesideSources, FreeCount;
      ghost var first, hs := p.table, inherited;
      var minimum := floor;
      NothingRaised(first, hs, floor);
      for i := 0 to |inherited|
        invariant |inherited| == |hs| && Raised(first, hs, p.table, inherited, i, floor, minimum)
        invariant floor <= minimum && (i > 0 ==> floor < p.limit)
        invariant FreeCount(first, floor, p.limit) >= |hs| ==> FreeCount(p.table, minimum, p.limit) >= |hs| - i
      {
        var source := inherited[i].source;
        SourceIsOpen(first, hs, p.table, inherited, i, floor, minimum);
        ghost var was := p.table;
        var duplicate := p.DupAtLeast(source, minimum);
        if duplicate.None? {
          NoneFree(was, minimum, p.limit);
          return Err(NoDescriptor);
        }
        ghost var moved := was[duplicate.value := Slot(was[source].file, true)] - {source};
        TakeLowest(was, minimum, p.limit, duplicate.value, moved);
        RaiseOne(first, hs, was, inherited, i, floor, minimum, duplicate.value);
        inherited := inherited[i := inherited[i].(source := duplicate.value)];
        p.Close(source);
        if duplicate.value + 1 > RAW_FD_MAX {
          return Err(DescriptorOverflow);
        }
        minimum := duplicate.value + 1;
      }
      AllRaised(first, hs, p.table, inherited, floor, minimum);
      return Ok(());
    }

    /** Fork and run every closure in the child. On success each target the command was asked
        for refers to its own file and stays open across exec, and every other descriptor above
        the standard ones is as the parent has it. One file needs its target below the limit or open;
        several need as many free descriptors above every target. */
    method Spawn(p: Process) returns (r: Result<Process, Error>)
      requires Owned(p.table, inherited)
      modifies this, p
      ensures r.Ok? ==> fresh(r.value) && Delivered(old(p.table), old(inherited), r.value.table)
      ensures r.Ok? ==> OthersKept(p.table, old(inherited), r.value.table)
      ensures |old(inherited)| == 1 ==>
        (r.Ok? <==> old(inherited)[0].target < p.limit || old(inherited)[0].target in old(p.table))
      ensures old(inherited) == [] || EnoughFree(old(p.table), old(inherited), p.limit) ==> r.Ok?
    {
      hide NoClobber, OthersKept;
      ghost var asked := inherited;
      var normalized := Normalize(p);
      if normalized.Err? {
        return Err(normalized.error);
      }
      var hs := inherited;
      var child := new Process(p.table, p.limit);
      NoClobberDelivers(p.table, hs);
      StepsKeepOthers(p.table, hs);
      SameTargets(asked, hs);
      var ok := RunClosures(child, hs);
      if !ok {
        return Err(BadTarget);
      }
      OthersKeptBySameTargets(p.table, asked, hs, child.table);
      return Ok(child);
    }
  }

  method RunClosures(child: Process, hs: seq<Inherited>) returns (ok: bool)
    requires Owned(child.table, hs)
    modifies child
    ensures ok ==> child.table == ChildSteps(old(child.table), hs)
    ensures ok <==> forall i :: 0 <= i < |hs| ==> hs[i].target < child.limit || hs[i].target in old(child.table)
  {
    ghost var start := child.table;
    assert hs[..0] == [] && ChildSteps(start, []) == start;
    hide ChildStep, ChildSteps, Owned;
    for i := 0 to |hs|
      invariant child.table == ChildSteps(start, hs[..i])
      invariant forall k :: 0 <= k < i ==> hs[k].target < child.limit || hs[k].target in start
    {
      OneMoreStep(start, hs, i);
      ok := child.InstallAt(hs[i]);
      if !ok {
        return;
      }
    }
    assert hs[..|hs|] == hs;
    return true;
  }

  lemma OneMoreStep(t: Table, hs: seq<Inherited>, i: nat)
    requires Owned(t, hs) && i < |hs|
    ensures var before := ChildSteps(t, hs[..i]);
      && ChildSteps(t, hs[..i + 1]) == ChildStep(before, hs[i])
      && hs[i].source in before && (hs[i].target in before <==> hs[i].target in t)
  {
    assert hs[..i + 1] == hs[..i] + [hs[i]];
    assert [hs[i]][1..] == [];
    StepsConcat(t, hs[..i], [hs[i]]);
    StepsKeepOpen(t, hs[..i]);
    assert !IsTarget(hs[..i], hs[i].target);
    StepsAt(t, hs[..i], hs[i].target);
  }

  lemma StepsKeepOthers(t: Table, hs: seq<Inherited>)
    requires Owned(t, hs)
    ensures OthersKept(t, hs, ChildSteps(t, hs))
  {
    forall fd | !IsTarget(hs, fd)
      ensures (fd in t <==> fd in ChildSteps(t, hs)) && (fd in t ==> ChildSteps(t, hs)[fd] == t[fd])
    {
      StepsAt(t, hs, fd);
    }
  }

  lemma OthersKeptBySameTargets(t: Table, a: seq<Inherited>, b: seq<Inherited>, after: Table)
    requires OthersKept(t, b, after) && forall fd :: IsTarget(a, fd) <==> IsTarget(b, fd)
    ensures OthersKept(t, a, after)
  {
  }

  lemma SameTargets(a: seq<Inherited>, b: seq<Inherited>)
    requires |a| == |b| && forall i :: 0 <= i < |a| ==> b[i].target == a[i].target
    ensures forall fd :: IsTarget(a, fd) <==> IsTarget(b, fd)
  {
    forall fd ensures IsTarget(a, fd) <==> IsTarget(b, fd) {
      if IsTarget(a, fd) { var i :| 0 <= i < |a| && a[i].target == fd; assert b[i].target == fd; }
      if IsTarget(b, fd) { var i :| 0 <= i < |b| && b[i].target == fd; assert a[i].target == fd; }
    }
  }

  // ---------- free descriptors ----------

  function MaxTarget(hs: seq<Inherited>): int {
    if hs == [] then STDERR
    else
      var rest, last := MaxTarget(hs[..|hs| - 1]), hs[|hs| - 1].target;
      if last > rest then last else rest
  }

  function FreeCount(t: Table, low: int, high: int): nat
    decreases high - low
  {
    if low >= high then 0 else FreeCount(t, low + 1, high) + if low in t then 0 else 1
  }

  /** As many free descriptors above every target as there are files. */
  predicate EnoughFree(t: Table, hs: seq<Inherited>, limit: int) {
    limit <= RAW_FD_MAX && FreeCount(t, MaxTarget(hs) + 1, limit) >= |hs|
  }

  lemma {:induction false} NoneFree(t: Table, low: int, high: int)
    requires forall k :: low <= k < high ==> k in t
    ensures FreeCount(t, low, high) == 0
    decreases high - low
  {
    if low < high {
      NoneFree(t, low + 1, high);
    }
  }

  /** Closing descriptors can only add free ones. */
  lemma {:induction false} FreeGrows(t: Table, after: Table, low: int, high: int)
    requires forall k :: low <= k < high && k in after ==> k in t
    ensures FreeCount(after, low, high) >= FreeCount(t, low, high)
    decreases high - low
  {
    if low < high {
      FreeGrows(t, after, low + 1, high);
    }
  }

  lemma {:induction false} TakeLowest(t: Table, low: int, high: int, fd: int, after: Table)
    requires LowestFree(t, low, high, fd) && forall k :: k in after ==> k in t || k == fd
    ensures FreeCount(after, fd + 1, high) >= FreeCount(t, low, high) - 1
    decreases fd - low
  {
    if low < fd {
      TakeLowest(t, low + 1, high, fd, after);
    } else {
      FreeGrows(t, after, fd + 1, high);
    }
  }

  // ---------- normalization, step by step ----------

  predicate IsSource(hs: seq<Inherited>, fd: int) {
    exists i :: 0 <= i < |hs| && hs[i].source == fd
  }

  ghost predicate KeptBesideSources(before: Table, hs: seq<Inherited>, after: Table) {
    forall fd :: fd in before && !IsSource(hs, fd) ==> fd in after && after[fd] == before[fd]
  }

  /** The first `i` sources have been moved into `floor .. minimum`, the others are untouched. */
  ghost predicate Raised(first: Table, hs: seq<Inherited>, t: Table, now: seq<Inherited>, i: nat, floor: int,
                         minimum: int)
  {
    && Owned(first, hs) && Owned(t, now) && i <= |hs| && floor <= minimum
    && Carries(first, hs, t, now) && KeptBesideSources(first, hs, t)
    && (forall k :: 0 <= k < |hs| ==> hs[k].target < floor)
    && (forall k :: i <= k < |hs| ==> now[k] == hs[k])
    && (forall k :: 0 <= k < i ==> floor <= now[k].source < minimum)
  }

  lemma NothingRaised(first: Table, hs: seq<Inherited>, floor: int)
    requires Owned(first, hs) && forall k :: 0 <= k < |hs| ==> hs[k].target < floor
    ensures Raised(first, hs, first, hs, 0, floor, floor)
  {
  }

  lemma SourceIsOpen(first: Table, hs: seq<Inherited>, t: Table, now: seq<Inherited>, i: nat, floor: int, minimum: int)
    requires Raised(first, hs, t, now, i, floor, minimum) && i < |hs|
    ensures now[i].source in t
  {
  }

  lemma AllRaised(first: Table, hs: seq<Inherited>, t: Table, now: seq<Inherited>, floor: int, minimum: int)
    requires Raised(first, hs, t, now, |hs|, floor, minimum)
    ensures Owned(t, now) && NoClobber(now) && Carries(first, hs, t, now) && KeptBesideSources(first, hs, t)
  {
  }

  lemma RaiseOne(first: Table, hs: seq<Inherited>, t: Table, now: seq<Inherited>, i: nat, floor: int,
                 minimum: int, fd: int)
    requires Raised(first, hs, t, now, i, floor, minimum) && i < |hs|
    requires fd !in t && minimum <= fd
    ensures var source := now[i].source;
      Raised(first, hs, t[fd := Slot(t[source].file, true)] - {source}, now[i := now[i].(source := fd)],
             i + 1, floor, fd + 1)
  {
    var source := now[i].source;
    var t', now' := t[fd := Slot(t[source].file, true)] - {source}, now[i := now[i].(source := fd)];
    assert Owned(t', now');
    assert Carries(first, hs, t', now');
    forall d | d in first && !IsSource(hs, d) ensures d in t' && t'[d] == first[d] {
      assert d in t && source == hs[i].source;
    }
  }
}
