/** The publication tail of the preview generator, every system call of which may fail, and the
    inputs on which it is not safe against a power loss. */
module PreviewGenerator {
  import opened PreviewDisk
  import opened PreviewPublication

  /** A preview directory, with a record of every state it went through. `calls` counts system
      calls; `works` says which of them succeed. A failing one has no effect. */
  class PreviewDirectory {
    var disk: Disk
    var calls: nat
    ghost var trace: seq<Disk>

    constructor (disk: Disk)
      ensures this.disk == disk && calls == 0 && trace == []
    {
      this.disk := disk;
      calls, trace := 0, [];
    }

    method Do(op: Op, works: nat -> bool) returns (ok: bool)
      modifies this
      ensures calls == old(calls) + 1 && (ok <==> works(old(calls)))
      ensures disk == (if ok then Step(old(disk), op) else old(disk))
      ensures trace == (if ok then old(trace) + [disk] else old(trace))
    {
      ok := works(calls);
      calls := calls + 1;
      if ok {
        disk := Step(disk, op);
        trace := trace + [disk];
      }
    }
  }

  /** The states recorded since a point of the trace. */
  function Since(trace: seq<Disk>, earlier: seq<Disk>): seq<Disk> {
    if |earlier| <= |trace| then trace[|earlier|..] else []
  }

  ghost predicate AllPowerSafe(states: seq<Disk>, count: SheetCount) {
    forall k :: 0 <= k < |states| ==> PowerSafe(states[k], count)
  }

  /** Starting from a state that is safe against a stop, all are; and against a power loss too,
      as far as that is promised. */
  ghost predicate StaysSafe(before: Disk, after: Disk, states: seq<Disk>, power: bool, count: SheetCount) {
    && (StopSafe(before, count) ==>
          StopSafe(after, count) && forall k :: 0 <= k < |states| ==> StopSafe(states[k], count))
    && (power && PowerSafe(before, count) ==> PowerSafe(after, count) && AllPowerSafe(states, count))
  }

  /** One call that takes a safe state to a safe state. */
  method DoSafely(dir: PreviewDirectory, op: Op, works: nat -> bool, ghost before: Disk, ghost earlier: seq<Disk>,
                  ghost power: bool, ghost count: SheetCount)
      returns (ok: bool)
    requires earlier <= dir.trace && StaysSafe(before, dir.disk, Since(dir.trace, earlier), power, count)
    requires StaysSafe(dir.disk, Step(dir.disk, op), [], power, count)
    requires WellFormed(dir.disk) && WellFormed(Step(dir.disk, op))
    modifies dir
    ensures WellFormed(dir.disk) && old(dir.trace) <= dir.trace && earlier <= dir.trace
    ensures StaysSafe(before, dir.disk, Since(dir.trace, earlier), power, count)
    ensures dir.calls == old(dir.calls) + 1 && (ok <==> works(old(dir.calls)))
    ensures dir.disk == (if ok then Step(old(dir.disk), op) else old(dir.disk))
    ensures dir.trace == (if ok then old(dir.trace) + [dir.disk] else old(dir.trace))
  {
    hide StopSafe, PowerSafe, WellFormed, Step;
    ok := dir.Do(op, works);
    assert ok ==> Since(dir.trace, earlier) == Since(old(dir.trace), earlier) + [dir.disk];
  }

  /** Unlink temporary sheets and manifests an earlier attempt has left. */
  method ClearTemporaries(dir: PreviewDirectory, works: nat -> bool, ghost count: SheetCount) returns (ok: bool)
    requires WellFormed(dir.disk)
    modifies dir
    ensures WellFormed(dir.disk) && old(dir.trace) <= dir.trace && dir.disk.data == old(dir.disk.data)
    ensures StaysSafe(old(dir.disk), dir.disk, Since(dir.trace, old(dir.trace)), true, count)
    ensures ok ==>
      forall name: Name :: name in Visible(dir.disk) <==> name in old(Visible(dir.disk)) && !Temporary(name)
    ensures (forall k: nat :: works(k)) ==> ok
  {
    hide StopSafe, PowerSafe, WellFormed, StaysSafe;
    var listing := Visible(dir.disk);
    var temps := set name | name in listing && Temporary(name);
    NothingDone(dir.disk, dir.trace, true, count);
    while temps != {}
      invariant WellFormed(dir.disk) && old(dir.trace) <= dir.trace && dir.disk.data == old(dir.disk.data)
      invariant StaysSafe(old(dir.disk), dir.disk, Since(dir.trace, old(dir.trace)), true, count)
      invariant forall name :: name in temps ==> Temporary(name)
      invariant forall name: Name :: name in Visible(dir.disk) <==>
        name in listing && (Temporary(name) ==> name in temps)
      decreases temps
    {
      var name :| name in temps;
      PreparationStaysSafe(dir.disk, Unlink(name), true, count);
      ApplySnoc(dir.disk.durable, dir.disk.pending, Remove(name));
      ok := DoSafely(dir, Unlink(name), works, old(dir.disk), old(dir.trace), true, count);
      if !ok {
        return;
      }
      temps := temps - {name};
    }
    return true;
  }

  lemma NothingDone(disk: Disk, trace: seq<Disk>, power: bool, count: SheetCount)
    ensures StaysSafe(disk, disk, Since(trace, trace), power, count)
  {
    assert Since(trace, trace) == [];
  }

  lemma PreparationStaysSafe(disk: Disk, op: Op, power: bool, count: SheetCount)
    requires WellFormed(disk) && Preparation(disk, op)
    ensures WellFormed(Step(disk, op)) && StaysSafe(disk, Step(disk, op), [], power, count)
  {
    PreparationIsHarmless(disk, op, count);
  }

  function InstallStates(disk: Disk, revision: Revision, k: nat): (states: seq<Disk>)
    ensures |states| == k
  {
    seq(k, i requires 0 <= i < k => Installing(disk, revision, i + 1))
  }

  /** Every temporary sheet of the revision is there to be published. */
  predicate TempsPresent(d: Names, revision: Revision, n: nat) {
    forall i :: 0 <= i < n ==> TempSheet(revision, i) in d
  }

  /** Rename every sheet to its published name and sync the directory. */
  method InstallSheets(dir: PreviewDirectory, revision: Revision, sheetCount: nat, works: nat -> bool,
                       ghost count: SheetCount)
      returns (ok: bool)
    requires sheetCount == count(revision)
    requires WellFormed(dir.disk) && TempsValidated(dir.disk, revision, sheetCount)
    modifies dir
    ensures WellFormed(dir.disk) && old(dir.trace) <= dir.trace
    ensures dir.disk.data == old(dir.disk.data) && dir.disk.flushed == old(dir.disk.flushed)
    ensures StaysSafe(old(dir.disk), dir.disk, Since(dir.trace, old(dir.trace)),
                      CleanupDurable(old(dir.disk), revision, sheetCount), count)
    ensures ok && !CleanupDurable(old(dir.disk), revision, sheetCount) ==>
      !AllPowerSafe(Since(dir.trace, old(dir.trace)), count)
    ensures ok ==> TempsPresent(old(Visible(dir.disk)), revision, sheetCount)
    ensures ok ==>
      dir.disk.pending == [] && dir.disk.durable == ApplyAll(old(Visible(dir.disk)), Renames(revision, sheetCount))
    ensures TempsPresent(old(Visible(dir.disk)), revision, sheetCount) && (forall k: nat :: works(k)) ==> ok
  {
    hide StopSafe, PowerSafe, WellFormed, TempsValidated, CleanupDurable, StaysSafe;
    ghost var before := dir.disk;
    InstallNext(before, revision, 0);
    for index := 0 to sheetCount
      invariant dir.disk == Installing(before, revision, index) && WellFormed(dir.disk)
      invariant dir.trace == old(dir.trace) + InstallStates(before, revision, index)
      invariant forall i :: 0 <= i < index ==> TempSheet(revision, i) in Visible(before)
    {
      TempStaysVisible(before, revision, index);
      InstallationIsSafe(before, revision, index, count);
      assert Since(dir.trace, old(dir.trace)) == InstallStates(before, revision, index);
      if TempSheet(revision, index) !in Visible(dir.disk) {
        return false;
      }
      InstallNext(before, revision, index);
      StepIsWellFormed(dir.disk, Replace(TempSheet(revision, index), Sheet(revision, index)));
      ok := dir.Do(Replace(TempSheet(revision, index), Sheet(revision, index)), works);
      if !ok {
        return;
      }
      assert InstallStates(before, revision, index + 1) == InstallStates(before, revision, index) + [dir.disk];
    }
    InstallationIsSafe(before, revision, sheetCount, count);
    ApplyConcat(before.durable, before.pending, Renames(revision, sheetCount));
    ghost var states := InstallStates(before, revision, sheetCount);
    ghost var power := CleanupDurable(before, revision, sheetCount);
    assert Since(dir.trace, old(dir.trace)) == states;
    PreparationStaysSafe(dir.disk, SyncDirectory, power, count);
    ok := DoSafely(dir, SyncDirectory, works, before, old(dir.trace), power, count);
    if ok {
      assert Since(dir.trace, old(dir.trace)) == states + [dir.disk];
      InstallationIsUnsafe(before, revision, count, states + [dir.disk]);
    }
  }

  lemma TempStaysVisible(before: Disk, revision: Revision, k: nat)
    requires forall i :: 0 <= i < k ==> TempSheet(revision, i) in Visible(before)
    ensures TempSheet(revision, k) in Visible(Installing(before, revision, k)) <==>
      TempSheet(revision, k) in Visible(before)
  {
    ApplyConcat(before.durable, before.pending, Renames(revision, k));
    InstalledNames(Visible(before), revision, k);
    assert SameEntry(Visible(before), ApplyAll(Visible(before), Renames(revision, k)), TempSheet(revision, k));
  }

  lemma InstallationIsSafe(before: Disk, revision: Revision, k: nat, count: SheetCount)
    requires k <= count(revision) && TempsValidated(before, revision, count(revision))
    ensures StaysSafe(before, Installing(before, revision, k), InstallStates(before, revision, k),
                      CleanupDurable(before, revision, count(revision)), count)
  {
    hide StopSafe, PowerSafe, CleanupDurable, TempsValidated;
    forall i: nat | i <= k
      ensures StopSafe(before, count) ==> StopSafe(Installing(before, revision, i), count)
      ensures PowerSafe(before, count) && CleanupDurable(before, revision, count(revision)) ==>
        PowerSafe(Installing(before, revision, i), count)
    {
      if StopSafe(before, count) { InstallingStops(before, revision, i, count); }
      if PowerSafe(before, count) && CleanupDurable(before, revision, count(revision)) {
        InstallingSurvivesPowerLoss(before, revision, i, count);
      }
    }
  }

  lemma InstallationIsUnsafe(before: Disk, revision: Revision, count: SheetCount, states: seq<Disk>)
    requires InstallStates(before, revision, count(revision)) <= states
    ensures !CleanupDurable(before, revision, count(revision)) ==> !AllPowerSafe(states, count)
  {
    hide PowerSafe, CleanupDurable;
    if !CleanupDurable(before, revision, count(revision)) {
      var k := InstallingLosesSheet(before, revision, count);
      assert states[k - 1] == InstallStates(before, revision, count(revision))[k - 1];
    }
  }

  // ---------- the manifest ----------

  /** Write the manifest beside the old one, flush it, rename it over the old one and sync the
      directory. A temporary name that was not there before stays only when two calls in a row
      have failed: one of these, and the removal that follows it. */
  method ReplaceManifest(dir: PreviewDirectory, revision: Revision, token: string, file: File,
                         works: nat -> bool, ghost count: SheetCount)
      returns (ok: bool)
    requires WellFormed(dir.disk) && dir.disk.pending == [] && file !in dir.disk.data
    requires HasAllSheets(dir.disk.durable, dir.disk.data, revision, count(revision))
    modifies dir
    ensures WellFormed(dir.disk) && old(dir.trace) <= dir.trace
    ensures StaysSafe(old(dir.disk), dir.disk, Since(dir.trace, old(dir.trace)),
                      HasAllSheets(old(dir.disk.durable), Firm(old(dir.disk)), revision, count(revision)), count)
    ensures ok && !HasAllSheets(old(dir.disk.durable), Firm(old(dir.disk)), revision, count(revision)) ==>
      !AllPowerSafe(Since(dir.trace, old(dir.trace)), count)
    ensures ok ==> dir.disk.pending == [] && dir.disk.durable == old(dir.disk.durable)[Manifest := file]
    ensures ok ==> dir.disk.data == old(dir.disk.data)[file := ManifestOf(revision)]
    ensures ok ==> TempManifest(token) !in old(dir.disk.durable)
    ensures TempManifest(token) !in old(dir.disk.durable) && (forall k: nat :: works(k)) ==> ok
    ensures TempManifest(token) in old(dir.disk.durable) ==> dir.calls == old(dir.calls) && dir.disk == old(dir.disk)
    ensures TempManifest(token) in Visible(dir.disk) && TempManifest(token) !in old(dir.disk.durable) ==>
      dir.calls >= 2 && !works(dir.calls - 2) && !works(dir.calls - 1)
  {
    hide StopSafe, PowerSafe, WellFormed, HasAllSheets, Step, StaysSafe;
    var temp := TempManifest(token);
    ghost var before, earlier := dir.disk, dir.trace;
    ghost var power := HasAllSheets(before.durable, Firm(before), revision, count(revision));
    NothingDone(before, earlier, power, count);
    if temp in Visible(dir.disk) {
      return false;
    }
    PreparationStaysSafe(dir.disk, Create(temp, file, ManifestOf(revision)), power, count);
    ok := DoSafely(dir, Create(temp, file, ManifestOf(revision)), works, before, earlier, power, count);
    if !ok {
      return;
    }
    SyncedSwap(before, revision, token, file, count);
    ok := SwapManifest(dir, revision, token, file, works, before, earlier, power, count);
    RemoveTemporary(dir, temp, works, before, earlier, power, count);
  }

  /** Flush, rename and sync. The temporary name stays only when one of the first two fails. */
  method SwapManifest(dir: PreviewDirectory, revision: Revision, token: string, file: File, works: nat -> bool,
                      ghost before: Disk, ghost earlier: seq<Disk>, ghost power: bool, ghost count: SheetCount)
      returns (ok: bool)
    requires BeforeSwap(before, revision, token, file, count)
    requires power <==> HasAllSheets(before.durable, Firm(before), revision, count(revision))
    requires dir.disk == Step(before, Create(TempManifest(token), file, ManifestOf(revision))) && WellFormed(dir.disk)
    requires dir.trace == earlier + [dir.disk] && StaysSafe(before, dir.disk, Since(dir.trace, earlier), power, count)
    modifies dir
    ensures WellFormed(dir.disk) && old(dir.trace) <= dir.trace && dir.calls > old(dir.calls)
    ensures StaysSafe(before, dir.disk, Since(dir.trace, earlier), power, count)
    ensures ok && !power ==> !AllPowerSafe(Since(dir.trace, earlier), count)
    ensures ok ==> dir.disk == Step(Swapped(before, revision, token, file), SyncDirectory)
    ensures ok ==> TempManifest(token) !in Visible(dir.disk)
    ensures !ok ==> !works(dir.calls - 1)
  {
    hide StopSafe, PowerSafe, WellFormed, HasAllSheets, Step, StaysSafe;
    var temp := TempManifest(token);
    PreparationStaysSafe(dir.disk, Flush(temp), power, count);
    ok := DoSafely(dir, Flush(temp), works, before, earlier, power, count);
    if !ok {
      return;
    }
    SwapIsSafeSoFar(before, revision, token, file, power, count);
    ok := DoSafely(dir, Replace(temp, Manifest), works, before, earlier, power, count);
    if !ok {
      return;
    }
    PreparationStaysSafe(dir.disk, SyncDirectory, power, count);
    SyncedSwap(before, revision, token, file, count);
    ok := DoSafely(dir, SyncDirectory, works, before, earlier, power, count);
    if ok {
      assert Since(dir.trace, earlier)[2] == Swapped(before, revision, token, file);
      SwappedIsGone(before, revision, token, file, count);
    }
  }

  lemma SwappedIsGone(before: Disk, revision: Revision, token: string, file: File, count: SheetCount)
    requires BeforeSwap(before, revision, token, file, count)
    ensures TempManifest(token) !in Visible(Step(Swapped(before, revision, token, file), SyncDirectory))
  {
    SwapIs(before, revision, token, file, count);
  }

  /** The removal of a temporary name that may be gone already. */
  method RemoveTemporary(dir: PreviewDirectory, temp: Name, works: nat -> bool, ghost before: Disk,
                         ghost earlier: seq<Disk>, ghost power: bool, ghost count: SheetCount)
    requires WellFormed(dir.disk) && Temporary(temp)
    requires earlier <= dir.trace && StaysSafe(before, dir.disk, Since(dir.trace, earlier), power, count)
    modifies dir
    ensures WellFormed(dir.disk) && old(dir.trace) <= dir.trace && earlier <= dir.trace
    ensures StaysSafe(before, dir.disk, Since(dir.trace, earlier), power, count)
    ensures temp in Visible(dir.disk) ==> dir.calls == old(dir.calls) + 1 && !works(old(dir.calls))
    ensures temp !in old(Visible(dir.disk)) ==>
      dir.disk == old(dir.disk) && dir.trace == old(dir.trace) && dir.calls == old(dir.calls)
  {
    hide StopSafe, PowerSafe, WellFormed, Step, StaysSafe;
    if temp in Visible(dir.disk) {
      PreparationStaysSafe(dir.disk, Unlink(temp), power, count);
      UnlinkedIsGone(dir.disk, temp);
      var _ := DoSafely(dir, Unlink(temp), works, before, earlier, power, count);
    }
  }

  lemma UnlinkedIsGone(disk: Disk, name: Name)
    ensures name !in Visible(Step(disk, Unlink(name)))
  {
    ApplySnoc(disk.durable, disk.pending, Remove(name));
  }

  lemma SwapIsSafeSoFar(before: Disk, revision: Revision, token: string, file: File, power: bool, count: SheetCount)
    requires BeforeSwap(before, revision, token, file, count)
    requires power <==> HasAllSheets(before.durable, Firm(before), revision, count(revision))
    ensures var written, swapped := Written(before, revision, token, file), Swapped(before, revision, token, file);
      && WellFormed(swapped) && (!power ==> !PowerSafe(swapped, count))
      && StaysSafe(written, swapped, [], power, count)
  {
    WrittenIsSafe(before, revision, token, file, count);
    StepIsWellFormed(Written(before, revision, token, file), Replace(TempManifest(token), Manifest));
    SwapStops(before, revision, token, file, count);
    if power {
      if PowerSafe(Written(before, revision, token, file), count) {
        SwapKeepsFirmSheets(before, revision, token, file, count);
      }
    } else {
      SwapExposesLooseSheet(before, revision, token, file, count);
    }
  }

  lemma SyncedSwap(before: Disk, revision: Revision, token: string, file: File, count: SheetCount)
    requires BeforeSwap(before, revision, token, file, count)
    ensures var synced := Step(Swapped(before, revision, token, file), SyncDirectory);
      && synced.pending == [] && synced.durable == before.durable[Manifest := file]
      && synced.data == before.data[file := ManifestOf(revision)]
  {
    SwapIs(before, revision, token, file, count);
  }

  // ---------- other sheets ----------

  /** Delete every published sheet that is not one of the revision's, in any order, and sync. */
  method DeleteOtherSheets(dir: PreviewDirectory, revision: Revision, sheetCount: nat, works: nat -> bool,
                           ghost count: SheetCount)
      returns (ok: bool)
    requires sheetCount == count(revision)
    requires WellFormed(dir.disk) && Settled(dir.disk, revision)
    modifies dir
    ensures WellFormed(dir.disk) && old(dir.trace) <= dir.trace
    ensures dir.disk.data == old(dir.disk.data)
    ensures StaysSafe(old(dir.disk), dir.disk, Since(dir.trace, old(dir.trace)), true, count)
    ensures ok ==> dir.disk.pending == []
    ensures ok ==> OwnSheetsOnly(old(Visible(dir.disk)), dir.disk.durable, revision, sheetCount)
    ensures (forall k: nat :: works(k)) ==> ok
  {
    hide StopSafe, PowerSafe, WellFormed, Settled, StaysSafe;
    var listing := Visible(dir.disk);
    var extra := set name | name in listing && Foreign(name, revision, sheetCount);
    NothingDone(dir.disk, dir.trace, true, count);
    while extra != {}
      invariant WellFormed(dir.disk) && Settled(dir.disk, revision)
      invariant old(dir.trace) <= dir.trace && dir.disk.data == old(dir.disk.data)
      invariant StaysSafe(old(dir.disk), dir.disk, Since(dir.trace, old(dir.trace)), true, count)
      invariant forall name :: name in extra ==> Foreign(name, revision, sheetCount)
      invariant forall name: Name :: name in Visible(dir.disk) <==>
        (name in listing && (Foreign(name, revision, sheetCount) ==> name in extra))
      invariant forall name :: name in Visible(dir.disk) ==> Visible(dir.disk)[name] == listing[name]
      decreases extra
    {
      var name :| name in extra;
      DeletionStaysSafe(dir.disk, name, revision, count);
      ApplySnoc(dir.disk.durable, dir.disk.pending, Remove(name));
      ok := DoSafely(dir, Unlink(name), works, old(dir.disk), old(dir.trace), true, count);
      if !ok {
        return;
      }
      extra := extra - {name};
    }
    PreparationStaysSafe(dir.disk, SyncDirectory, true, count);
    ok := DoSafely(dir, SyncDirectory, works, old(dir.disk), old(dir.trace), true, count);
  }

  lemma DeletionStaysSafe(disk: Disk, name: Name, revision: Revision, count: SheetCount)
    requires WellFormed(disk) && Settled(disk, revision) && Foreign(name, revision, count(revision))
    ensures WellFormed(Step(disk, Unlink(name))) && Settled(Step(disk, Unlink(name)), revision)
    ensures StaysSafe(disk, Step(disk, Unlink(name)), [], true, count)
  {
    DeletionIsHarmless(disk, name, revision, count);
    StepIsWellFormed(disk, Unlink(name));
  }

  /** The same names without the published sheets of other revisions. */
  ghost predicate OwnSheetsOnly(before: Names, after: Names, revision: Revision, n: nat) {
    && (forall name: Name :: name in after <==> name in before && !Foreign(name, revision, n))
    && (forall name :: name in after ==> after[name] == before[name])
  }

  // ---------- the whole publication ----------

  /** What a publication leaves: its manifest, exactly its sheets, and no other name touched. */
  ghost predicate Published(before: Names, after: Names, data: Data, revision: Revision, n: nat) {
    && NamesRevision(after, data, revision) && HasAllSheets(after, data, revision, n)
    && (forall name :: name in after ==> !Foreign(name, revision, n))
    && (forall text: string :: SameEntry(before, after, OtherName(text)))
  }

  lemma InstalledSheets(disk: Disk, after: Disk, revision: Revision, n: nat, token: string)
    requires TempsPresent(Visible(disk), revision, n) && TempsValidated(disk, revision, n)
    requires after.durable == ApplyAll(Visible(disk), Renames(revision, n))
    requires after.data == disk.data && after.flushed == disk.flushed
    ensures HasAllSheets(after.durable, after.data, revision, n)
    ensures HasAllSheets(after.durable, Firm(after), revision, n) <==> SheetsFlushed(disk, revision, n)
    ensures TempManifest(token) in after.durable <==> TempManifest(token) in Visible(disk)
  {
    InstalledNames(Visible(disk), revision, n);
    var d := after.durable;
    assert SameEntry(Visible(disk), d, TempManifest(token));
    forall i | 0 <= i < n
      ensures HasSheet(d, disk.data, revision, i)
      ensures HasSheet(d, Firm(after), revision, i) <==> Visible(disk)[TempSheet(revision, i)] in disk.flushed
    {
      assert d[Sheet(revision, i)] == Visible(disk)[TempSheet(revision, i)];
    }
  }

  lemma SyncedIsSettled(swapped: Disk, installed: Disk, revision: Revision, file: File)
    requires swapped.pending == [] && swapped.durable == installed.durable[Manifest := file]
    requires swapped.data == installed.data[file := ManifestOf(revision)]
    ensures Settled(swapped, revision)
  {
  }

  /** What a power loss needs: the sheets' data and the clearing of old temporary sheets have
      reached the disk before publication. */
  ghost predicate DataOnDisk(disk: Disk, revision: Revision, n: nat) {
    SheetsFlushed(disk, revision, n) && CleanupDurable(disk, revision, n)
  }

  /** Publish a new revision, or the published one again. Stopping at any point is safe. A power
      loss is safe at every point if and only if `DataOnDisk`, and the generator does not see to
      that. */
  method Publish(dir: PreviewDirectory, revision: Revision, sheetCount: nat, token: string, file: File,
                 works: nat -> bool, ghost count: SheetCount)
      returns (ok: bool)
    requires sheetCount == count(revision) && file !in dir.disk.data
    requires WellFormed(dir.disk) && TempsValidated(dir.disk, revision, sheetCount)
    modifies dir
    ensures WellFormed(dir.disk) && old(dir.trace) <= dir.trace
    ensures StaysSafe(old(dir.disk), dir.disk, Since(dir.trace, old(dir.trace)),
                      DataOnDisk(old(dir.disk), revision, sheetCount), count)
    ensures ok && AllPowerSafe(Since(dir.trace, old(dir.trace)), count) ==>
      DataOnDisk(old(dir.disk), revision, sheetCount)
    ensures ok ==> dir.disk.pending == [] &&
                   Published(old(Visible(dir.disk)), dir.disk.durable, dir.disk.data, revision, sheetCount)
    ensures ok ==> TempsPresent(old(Visible(dir.disk)), revision, sheetCount)
    ensures TempsPresent(old(Visible(dir.disk)), revision, sheetCount) ==>
      TempManifest(token) !in old(Visible(dir.disk)) && (forall k: nat :: works(k)) ==> ok
  {
    hide StopSafe, PowerSafe, WellFormed, TempsValidated, CleanupDurable, SheetsFlushed, StaysSafe, AllPowerSafe,
      HasAllSheets, TempsPresent, Published, Since;
    ghost var before, earlier := dir.disk, dir.trace;
    ghost var cleared := CleanupDurable(before, revision, sheetCount);
    ghost var flushed := SheetsFlushed(before, revision, sheetCount);
    ok := InstallSheets(dir, revision, sheetCount, works, count);
    if !ok {
      WeakerPromise(before, dir.disk, Since(dir.trace, earlier), cleared, cleared && flushed, count);
      return;
    }
    InstalledSheets(before, dir.disk, revision, sheetCount, token);
    ghost var installed, first := dir.disk, dir.trace;
    ok := ReplaceManifest(dir, revision, token, file, works, count);
    BothStaySafe(before, installed, dir.disk, earlier, first, dir.trace, cleared, flushed, count);
    if !ok {
      return;
    }
    ghost var swapped, second := dir.disk, dir.trace;
    SyncedIsSettled(swapped, installed, revision, file);
    ok := DeleteOtherSheets(dir, revision, sheetCount, works, count);
    BothStaySafe(before, swapped, dir.disk, earlier, second, dir.trace, cleared && flushed, true, count);
    if ok {
      PublishedNames(before, installed, swapped, dir.disk, revision, sheetCount, file);
    }
  }

  lemma WeakerPromise(before: Disk, after: Disk, states: seq<Disk>, power: bool, weaker: bool, count: SheetCount)
    requires StaysSafe(before, after, states, power, count) && (weaker ==> power)
    ensures StaysSafe(before, after, states, weaker, count)
  {
  }

  /** Two stretches of a run make one. */
  lemma BothStaySafe(before: Disk, middle: Disk, after: Disk, earlier: seq<Disk>, mid: seq<Disk>, now: seq<Disk>,
                     first: bool, second: bool, count: SheetCount)
    requires earlier <= mid <= now
    requires StaysSafe(before, middle, Since(mid, earlier), first, count)
    requires StaysSafe(middle, after, Since(now, mid), second, count)
    ensures StaysSafe(before, after, Since(now, earlier), first && second, count)
    ensures AllPowerSafe(Since(now, earlier), count) ==>
      AllPowerSafe(Since(mid, earlier), count) && AllPowerSafe(Since(now, mid), count)
  {
    hide StopSafe, PowerSafe;
    var a, b := Since(mid, earlier), Since(now, mid);
    assert Since(now, earlier) == a + b;
    assert forall k :: 0 <= k < |a| ==> a[k] == (a + b)[k];
    assert forall k :: 0 <= k < |b| ==> b[k] == (a + b)[|a| + k];
  }

  lemma PublishedNames(before: Disk, installed: Disk, swapped: Disk, after: Disk, revision: Revision, n: nat,
                       file: File)
    requires WellFormed(installed) && installed.pending == [] && file !in installed.data
    requires installed.durable == ApplyAll(Visible(before), Renames(revision, n))
    requires TempsPresent(Visible(before), revision, n)
    requires HasAllSheets(installed.durable, installed.data, revision, n)
    requires swapped.pending == [] && swapped.durable == installed.durable[Manifest := file]
    requires swapped.data == installed.data[file := ManifestOf(revision)] == after.data
    requires OwnSheetsOnly(Visible(swapped), after.durable, revision, n)
    ensures Published(Visible(before), after.durable, after.data, revision, n)
  {
    InstalledNames(Visible(before), revision, n);
    forall i | 0 <= i < n ensures HasSheet(after.durable, after.data, revision, i) {
      assert HasSheet(installed.durable, installed.data, revision, i);
    }
    forall text: string ensures SameEntry(Visible(before), after.durable, OtherName(text)) {
      assert SameEntry(Visible(before), installed.durable, OtherName(text));
    }
  }

  // ---------- power losses ----------

  /** The states of a complete publication in which a power loss can hurt: between the renames,
      and once the manifest has been replaced. */
  lemma PublicationSurvivesPowerLossIff(disk: Disk, revision: Revision, token: string, file: File, count: SheetCount)
    requires WellFormed(disk) && PowerSafe(disk, count) && TempsValidated(disk, revision, count(revision))
    requires TempsPresent(Visible(disk), revision, count(revision))
    requires file !in disk.data && TempManifest(token) !in Visible(disk)
    ensures var installed := Step(Installing(disk, revision, count(revision)), SyncDirectory);
      && (forall k: nat :: k <= count(revision) ==> PowerSafe(Installing(disk, revision, k), count))
      && PowerSafe(Swapped(installed, revision, token, file), count)
      <==> DataOnDisk(disk, revision, count(revision))
  {
    hide PowerSafe, WellFormed, TempsValidated, SheetsFlushed, CleanupDurable;
    var n := count(revision);
    var installed := Step(Installing(disk, revision, n), SyncDirectory);
    InstalledIsWellFormed(disk, revision, n);
    StepIsWellFormed(Installing(disk, revision, n), SyncDirectory);
    ApplyConcat(disk.durable, disk.pending, Renames(revision, n));
    InstalledSheets(disk, installed, revision, n, token);
    assert BeforeSwap(installed, revision, token, file, count);
    if CleanupDurable(disk, revision, n) {
      forall k: nat | k <= n ensures PowerSafe(Installing(disk, revision, k), count) {
        InstallingSurvivesPowerLoss(disk, revision, k, count);
      }
      PreparationIsHarmless(Installing(disk, revision, n), SyncDirectory, count);
      SwapSurvivesPowerLossIff(installed, revision, token, file, count);
    } else {
      var k := InstallingLosesSheet(disk, revision, count);
    }
  }

  lemma {:induction false} InstalledIsWellFormed(disk: Disk, revision: Revision, k: nat)
    requires WellFormed(disk)
    ensures WellFormed(Installing(disk, revision, k))
  {
    InstallNext(disk, revision, 0);
    if k > 0 {
      InstalledIsWellFormed(disk, revision, k - 1);
      InstallNext(disk, revision, k - 1);
      StepIsWellFormed(Installing(disk, revision, k - 1), Replace(TempSheet(revision, k - 1), Sheet(revision, k - 1)));
    }
  }

  /** Flushing every sheet and then syncing the directory before the renames would suffice. */
  lemma SyncedCleanupIsDurable(disk: Disk, revision: Revision, n: nat)
    requires disk.pending == [] && TempsValidated(disk, revision, n) && SheetsFlushed(disk, revision, n)
    ensures DataOnDisk(disk, revision, n)
  {
  }

  /** A revision that no possible outcome has published yet needs no clearing. */
  lemma NewRevisionNeedsNoCleanup(disk: Disk, revision: Revision, n: nat)
    requires forall kept :: Subsequence(kept, disk.pending) ==>
      !NamesRevision(ApplyAll(disk.durable, kept), disk.data, revision)
    ensures CleanupDurable(disk, revision, n)
  {
  }

  /** The generator flushes no sheet. A first publication whose one sheet is only in memory ends
      with a durable manifest that can lose it. */
  lemma UnflushedSheetIsLost()
    ensures var disk := Disk(map[TempSheet("r", 0) := 0], [], map[0 := CompleteSheet("r", 0)], {});
      var count := (r: Revision) => 1;
      && WellFormed(disk) && StopSafe(disk, count) && PowerSafe(disk, count) && TempsValidated(disk, "r", 1)
      && !PowerSafe(Swapped(Step(Installing(disk, "r", 1), SyncDirectory), "r", "t", 1), count)
  {
    var disk := Disk(map[TempSheet("r", 0) := 0], [], map[0 := CompleteSheet("r", 0)], {});
    var count := (r: Revision) => 1;
    NoManifestIsSafe(disk, count);
    NewRevisionNeedsNoCleanup(disk, "r", 1);
    assert Visible(disk) == disk.durable;
    PublicationSurvivesPowerLossIff(disk, "r", "t", 1, count);
    forall k: nat | k <= 1 ensures PowerSafe(Installing(disk, "r", k), count) {
      InstallingSurvivesPowerLoss(disk, "r", k, count);
    }
  }

  lemma NoManifestIsSafe(disk: Disk, count: SheetCount)
    requires disk.pending == [] && Manifest !in disk.durable
    ensures PowerSafe(disk, count) && StopSafe(disk, count)
  {
  }

  /** A published revision of one sheet, and the half-written sheet of an interrupted attempt to
      regenerate it. */
  function Interrupted(): Disk {
    Disk(map[Manifest := 0, Sheet("r", 0) := 1, TempSheet("r", 0) := 2], [],
         map[0 := ManifestOf("r"), 1 := CompleteSheet("r", 0), 2 := Damaged], {0, 1, 2})
  }

  function Cleared(): Disk {
    Step(Interrupted(), Unlink(TempSheet("r", 0)))
  }

  /** The next attempt has cleared that sheet and written and flushed a new one. */
  function Retried(): Disk {
    Step(Step(Cleared(), Create(TempSheet("r", 0), 3, CompleteSheet("r", 0))), Flush(TempSheet("r", 0)))
  }

  lemma RetriedIs()
    ensures var disk := Retried();
      && disk.durable == Interrupted().durable
      && disk.pending == [Remove(TempSheet("r", 0)), Link(TempSheet("r", 0), 3)]
      && disk.data == Interrupted().data[3 := CompleteSheet("r", 0)] && disk.flushed == {0, 1, 2, 3}
      && Visible(disk) == map[Manifest := 0, Sheet("r", 0) := 1, TempSheet("r", 0) := 3]
  {
    var temp, d := TempSheet("r", 0), Interrupted().durable;
    assert Cleared().pending == [Remove(temp)];
    assert [Remove(temp)] + [Link(temp, 3)] == [Remove(temp), Link(temp, 3)];
    ApplyOne(d, Remove(temp));
    ApplySnoc(d, [Remove(temp)], Link(temp, 3));
    assert {0, 1, 2} - {3} + {3} == {0, 1, 2, 3};
  }

  lemma InterruptedIsSafe(count: SheetCount)
    requires count("r") == 1
    ensures WellFormed(Interrupted()) && StopSafe(Interrupted(), count) && PowerSafe(Interrupted(), count)
  {
    var disk := Interrupted();
    assert ServedFrom(disk.durable, disk.data, Firm(disk), count);
    hide ServedFrom, Firm, Interrupted;
    PowerSafeMeansFirm(disk, count);
  }

  lemma RetriedIsSafe(count: SheetCount)
    requires count("r") == 1
    ensures WellFormed(Retried()) && StopSafe(Retried(), count) && PowerSafe(Retried(), count)
  {
    hide WellFormed, StopSafe, PowerSafe, Visible;
    var temp := TempSheet("r", 0);
    var create := Create(temp, 3, CompleteSheet("r", 0));
    InterruptedIsSafe(count);
    PreparationIsHarmless(Interrupted(), Unlink(temp), count);
    PreparationIsHarmless(Cleared(), create, count);
    PreparationIsHarmless(Step(Cleared(), create), Flush(temp), count);
  }

  /** The removal and the new sheet are not synced when the new sheet, flushed though it is, is
      renamed. A power loss that keeps only the rename puts the half-written sheet under the
      manifest that is still there. */
  lemma StaleTemporaryResurfaces(count: SheetCount)
    requires count("r") == 1
    ensures var disk := Retried();
      && WellFormed(disk) && StopSafe(disk, count) && PowerSafe(disk, count)
      && TempsValidated(disk, "r", 1) && SheetsFlushed(disk, "r", 1)
      && StopSafe(Installing(disk, "r", 1), count) && !PowerSafe(Installing(disk, "r", 1), count)
  {
    hide StopSafe, PowerSafe, WellFormed, Retried, TempsValidated, SheetsFlushed, CleanupDurable;
    RetriedIsSafe(count);
    RetriedIsReady();
    InstallingStops(Retried(), "r", 1, count);
    var k := InstallingLosesSheet(Retried(), "r", count);
  }

  lemma RetriedIsReady()
    ensures TempsValidated(Retried(), "r", 1) && SheetsFlushed(Retried(), "r", 1) && !CleanupDurable(Retried(), "r", 1)
  {
    RetriedIs();
    NothingKept(Retried());
    hide Retried, Visible, ApplyAll, Apply, Interrupted;
  }

  lemma NothingKept(disk: Disk)
    requires disk == Retried()
    ensures Subsequence([], disk.pending) && NamesRevision(ApplyAll(disk.durable, []), disk.data, "r")
    ensures !TempsGood(ApplyAll(disk.durable, []), Firm(disk), "r", 1)
  {
    RetriedIs();
  }

  /** The sync between the renames and the manifest is needed as well: with a sheet's rename
      still pending, the manifest may reach the disk without its sheet, flushed or not. */
  lemma SyncBeforeManifestIsNeeded(disk: Disk, revision: Revision, token: string, file: File, count: SheetCount)
    requires disk.pending == [RenameOf(revision, 0), Link(TempManifest(token), file),
                              Rename(TempManifest(token), Manifest)]
    requires Look(disk.data, file) == ManifestOf(revision) && count(revision) >= 1
    requires Sheet(revision, 0) !in disk.durable
    ensures !PowerSafe(disk, count)
  {
    var link, rename := disk.pending[1], disk.pending[2];
    assert disk.pending[1..] == [link, rename];
    WholeIsSubsequence([link, rename]);
    assert Subsequence([link, rename], disk.pending);
    ApplyOne(disk.durable, link);
    ApplySnoc(disk.durable, [link], rename);
    assert [link] + [rename] == [link, rename];
    var lost := ApplyAll(disk.durable, [link, rename]);
    assert NamesRevision(lost, disk.data, revision) && !HasSheet(lost, Firm(disk), revision, 0);
    PowerSafeMeansFirm(disk, count);
  }
}
