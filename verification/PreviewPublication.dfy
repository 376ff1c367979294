/** Publishing a preview revision: rename the sheets, sync the directory, replace the manifest,
    sync, delete the sheets of other revisions, sync. The generator may stop between any two
    operations, and the power may fail there. */
module PreviewPublication {
  import opened PreviewDisk

  // ---------- before publication ----------

  /** Clearing temporary files, writing new ones in any state of completeness, and whatever the
      kernel flushes or syncs by itself. */
  predicate Preparation(disk: Disk, op: Op) {
    match op
    case Create(name, file, _) => Temporary(name) && file !in disk.data
    case Write(name, _) => Temporary(name)
    case Flush(_) => true
    case Replace(_, _) => false
    case Unlink(name) => Temporary(name)
    case SyncDirectory => true
  }

  lemma PreparationStops(disk: Disk, op: Op, count: SheetCount)
    requires WellFormed(disk) && Preparation(disk, op) && StopSafe(disk, count)
    ensures StopSafe(Step(disk, op), count)
  {
    var after := Step(disk, op);
    WholeIsSubsequence(disk.pending);
    OutcomeOf(disk, disk.pending);
    assert forall name :: name in Visible(disk) ==> Visible(disk)[name] in Visible(disk).Values;
    match op {
      case Create(name, file, _) => ApplySnoc(disk.durable, disk.pending, Link(name, file));
      case Unlink(name) => ApplySnoc(disk.durable, disk.pending, Remove(name));
      case _ =>
    }
    ServedSame(Visible(disk), disk.data, disk.data, Visible(after), after.data, after.data, count);
  }

  /** What an outcome shows to readers is what some outcome before the operation showed. */
  lemma PreparationOutcome(disk: Disk, op: Op, kept: seq<Change>) returns (before: seq<Change>)
    requires WellFormed(disk) && Preparation(disk, op) && Subsequence(kept, Step(disk, op).pending)
    ensures Subsequence(before, disk.pending)
    ensures var d, d' := ApplyAll(disk.durable, before), ApplyAll(Step(disk, op).durable, kept);
      forall name: Name :: !Temporary(name) ==> SameEntry(d, d', name)
  {
    var added := match op
      case Create(name, file, _) => [Link(name, file)]
      case Unlink(name) => [Remove(name)]
      case _ => [];
    if op.SyncDirectory? {
      before := disk.pending;
      WholeIsSubsequence(before);
    } else {
      var rest: seq<Change>;
      assert Step(disk, op).pending == disk.pending + added;
      before, rest := SplitSubsequence(kept, disk.pending, added);
      if added == [] {
        assert rest == [] && kept == before;
      } else {
        SubsequenceOfOne(rest, added[0]);
        ApplyConcat(disk.durable, before, rest);
        ApplyOne(ApplyAll(disk.durable, before), added[0]);
      }
    }
  }

  lemma PreparationSurvivesPowerLoss(disk: Disk, op: Op, count: SheetCount)
    requires WellFormed(disk) && Preparation(disk, op) && PowerSafe(disk, count)
    ensures PowerSafe(Step(disk, op), count)
  {
    var after := Step(disk, op);
    PowerSafeMeansFirm(disk, count);
    PowerSafeMeansFirm(after, count);
    forall kept | Subsequence(kept, after.pending)
      ensures ServedFrom(ApplyAll(after.durable, kept), after.data, Firm(after), count)
    {
      var before := PreparationOutcome(disk, op, kept);
      var d := ApplyAll(disk.durable, before);
      OutcomeOf(disk, before);
      assert forall name :: name in d ==> d[name] in d.Values;
      ServedSame(d, disk.data, Firm(disk), ApplyAll(after.durable, kept), after.data, Firm(after), count);
    }
  }

  /** Nothing done before publication can hurt what readers are served, not even a sheet that
      is left half written. */
  lemma PreparationIsHarmless(disk: Disk, op: Op, count: SheetCount)
    requires WellFormed(disk) && Preparation(disk, op)
    ensures WellFormed(Step(disk, op))
    ensures StopSafe(disk, count) ==> StopSafe(Step(disk, op), count)
    ensures PowerSafe(disk, count) ==> PowerSafe(Step(disk, op), count)
  {
    StepIsWellFormed(disk, op);
    if StopSafe(disk, count) { PreparationStops(disk, op, count); }
    if PowerSafe(disk, count) { PreparationSurvivesPowerLoss(disk, op, count); }
  }

  // ---------- renaming the sheets ----------

  /** A temporary sheet that is there is complete in `sheets`. */
  predicate TempsGood(d: Names, sheets: Data, revision: Revision, n: nat) {
    forall i :: 0 <= i < n && TempSheet(revision, i) in d ==>
      Look(sheets, d[TempSheet(revision, i)]) == CompleteSheet(revision, i)
  }

  /** What validation has established before publication. */
  predicate TempsValidated(disk: Disk, revision: Revision, n: nat) {
    TempsGood(Visible(disk), disk.data, revision, n)
  }

  /** The data of every sheet to be published is on disk. */
  predicate SheetsFlushed(disk: Disk, revision: Revision, n: nat) {
    forall i :: 0 <= i < n && TempSheet(revision, i) in Visible(disk) ==>
      Visible(disk)[TempSheet(revision, i)] in disk.flushed
  }

  /** Where a power loss could leave a manifest of this very revision, it leaves no bad temporary
      sheet beside it: clearing the old ones has reached the disk. */
  ghost predicate CleanupDurable(disk: Disk, revision: Revision, n: nat) {
    forall kept :: Subsequence(kept, disk.pending) ==>
      var d := ApplyAll(disk.durable, kept);
      NamesRevision(d, disk.data, revision) ==> TempsGood(d, Firm(disk), revision, n)
  }

  function RenameOf(revision: Revision, i: nat): Change {
    Rename(TempSheet(revision, i), Sheet(revision, i))
  }

  function Renames(revision: Revision, k: nat): (cs: seq<Change>)
    ensures |cs| == k
  {
    seq(k, i requires 0 <= i < k => RenameOf(revision, i))
  }

  /** The disk once `k` sheets have been renamed. */
  function Installing(disk: Disk, revision: Revision, k: nat): Disk {
    disk.(pending := disk.pending + Renames(revision, k))
  }

  lemma InstallNext(disk: Disk, revision: Revision, k: nat)
    ensures Installing(disk, revision, 0) == disk
    ensures Step(Installing(disk, revision, k), Replace(TempSheet(revision, k), Sheet(revision, k))) ==
      Installing(disk, revision, k + 1)
  {
    assert disk.pending + Renames(revision, 0) == disk.pending;
    assert Renames(revision, k + 1) == Renames(revision, k) + [RenameOf(revision, k)];
    assert disk.pending + Renames(revision, k) + [RenameOf(revision, k)] ==
           disk.pending + (Renames(revision, k) + [RenameOf(revision, k)]);
  }

  predicate IsRename(c: Change, revision: Revision, n: nat) {
    exists i: nat :: i < n && c == RenameOf(revision, i)
  }

  lemma RenameServes(d: Names, c: Change, data: Data, sheets: Data, revision: Revision, count: SheetCount)
    requires IsRename(c, revision, count(revision)) && ServedFrom(d, data, sheets, count)
    requires NamesRevision(d, data, revision) ==> TempsGood(d, sheets, revision, count(revision))
    ensures ServedFrom(Apply(d, c), data, sheets, count)
    ensures NamesRevision(Apply(d, c), data, revision) ==> TempsGood(Apply(d, c), sheets, revision, count(revision))
  {
    var after := Apply(d, c);
    forall r: Revision, i | NamesRevision(after, data, r) && 0 <= i < count(r) ensures HasSheet(after, sheets, r, i) {
      assert NamesRevision(d, data, r);
      assert HasSheet(d, sheets, r, i);
    }
  }

  lemma {:induction false} RenamesServe(d: Names, cs: seq<Change>, data: Data, sheets: Data, revision: Revision,
                                        count: SheetCount)
    requires forall k :: 0 <= k < |cs| ==> IsRename(cs[k], revision, count(revision))
    requires ServedFrom(d, data, sheets, count)
    requires NamesRevision(d, data, revision) ==> TempsGood(d, sheets, revision, count(revision))
    ensures ServedFrom(ApplyAll(d, cs), data, sheets, count)
    decreases |cs|
  {
    hide ServedFrom, TempsGood, IsRename;
    if cs != [] {
      RenameServes(d, cs[0], data, sheets, revision, count);
      assert forall k :: 0 <= k < |cs[1..]| ==> cs[1..][k] == cs[k + 1];
      RenamesServe(Apply(d, cs[0]), cs[1..], data, sheets, revision, count);
    }
  }

  lemma {:induction false} KeptComeFrom(kept: seq<Change>, whole: seq<Change>)
    requires Subsequence(kept, whole)
    ensures forall k :: 0 <= k < |kept| ==> kept[k] in whole
    decreases |whole|
  {
    if kept != [] {
      if kept[0] == whole[0] && Subsequence(kept[1..], whole[1..]) {
        KeptComeFrom(kept[1..], whole[1..]);
        assert forall k :: 1 <= k < |kept| ==> kept[k] == kept[1..][k - 1];
      } else {
        KeptComeFrom(kept, whole[1..]);
      }
    }
  }

  lemma KeptAreRenames(kept: seq<Change>, revision: Revision, k: nat, n: nat)
    requires k <= n && Subsequence(kept, Renames(revision, k))
    ensures forall j :: 0 <= j < |kept| ==> IsRename(kept[j], revision, n)
  {
    KeptComeFrom(kept, Renames(revision, k));
    forall j | 0 <= j < |kept| ensures IsRename(kept[j], revision, n) {
      var i :| 0 <= i < k && Renames(revision, k)[i] == kept[j];
      assert kept[j] == RenameOf(revision, i);
    }
  }

  /** Stopping between two renames is safe, also when the published revision is replaced by
      itself. */
  lemma InstallingStops(disk: Disk, revision: Revision, k: nat, count: SheetCount)
    requires StopSafe(disk, count) && TempsValidated(disk, revision, count(revision)) && k <= count(revision)
    ensures StopSafe(Installing(disk, revision, k), count)
  {
    WholeIsSubsequence(Renames(revision, k));
    KeptAreRenames(Renames(revision, k), revision, k, count(revision));
    RenamesServe(Visible(disk), Renames(revision, k), disk.data, disk.data, revision, count);
    ApplyConcat(disk.durable, disk.pending, Renames(revision, k));
  }

  /** So is a power loss, when the cleanup is durable. */
  lemma InstallingSurvivesPowerLoss(disk: Disk, revision: Revision, k: nat, count: SheetCount)
    requires PowerSafe(disk, count) && CleanupDurable(disk, revision, count(revision)) && k <= count(revision)
    ensures PowerSafe(Installing(disk, revision, k), count)
  {
    hide ServedFrom, TempsGood, PowerSafe;
    var after := Installing(disk, revision, k);
    PowerSafeMeansFirm(disk, count);
    PowerSafeMeansFirm(after, count);
    forall kept | Subsequence(kept, after.pending)
      ensures ServedFrom(ApplyAll(after.durable, kept), after.data, Firm(after), count)
    {
      var before, renames := SplitSubsequence(kept, disk.pending, Renames(revision, k));
      KeptAreRenames(renames, revision, k, count(revision));
      RenamesServe(ApplyAll(disk.durable, before), renames, disk.data, Firm(disk), revision, count);
      ApplyConcat(disk.durable, before, renames);
    }
  }

  /** Otherwise some rename can put a bad sheet under the manifest that is already there. */
  lemma InstallingLosesSheet(disk: Disk, revision: Revision, count: SheetCount) returns (k: nat)
    requires !CleanupDurable(disk, revision, count(revision))
    ensures 0 < k <= count(revision) && !PowerSafe(Installing(disk, revision, k), count)
  {
    var kept :| Subsequence(kept, disk.pending) &&
                NamesRevision(ApplyAll(disk.durable, kept), disk.data, revision) &&
                !TempsGood(ApplyAll(disk.durable, kept), Firm(disk), revision, count(revision));
    var d := ApplyAll(disk.durable, kept);
    var i :| 0 <= i < count(revision) && TempSheet(revision, i) in d &&
             Look(Firm(disk), d[TempSheet(revision, i)]) != CompleteSheet(revision, i);
    k := i + 1;
    var c := RenameOf(revision, i);
    assert Renames(revision, k) == Renames(revision, i) + [c];
    WholeIsSubsequence([c]);
    JoinSubsequences([], Renames(revision, i), [c], [c]);
    assert [] + [c] == [c];
    JoinSubsequences(kept, disk.pending, [c], Renames(revision, k));
    var after := Installing(disk, revision, k);
    ApplySnoc(disk.durable, kept, c);
    var lost := Apply(d, c);
    assert NamesRevision(lost, disk.data, revision) && !HasSheet(lost, Firm(disk), revision, i);
    assert !ServedFrom(lost, after.data, Firm(after), count);
    PowerSafeMeansFirm(after, count);
  }

  /** The names that renaming the first `k` sheets touches. */
  predicate Moved(name: Name, revision: Revision, k: nat) {
    (name.Sheet? || name.TempSheet?) && name.revision == revision && name.index < k
  }

  /** Where the sheets are once they have all been renamed. */
  lemma {:induction false} InstalledNames(d: Names, revision: Revision, k: nat)
    requires forall i :: 0 <= i < k ==> TempSheet(revision, i) in d
    ensures var after := ApplyAll(d, Renames(revision, k));
      && (forall i :: 0 <= i < k ==>
            Sheet(revision, i) in after && after[Sheet(revision, i)] == d[TempSheet(revision, i)])
      && (forall name: Name :: !Moved(name, revision, k) ==> SameEntry(d, after, name))
  {
    if k > 0 {
      InstalledNames(d, revision, k - 1);
      assert Renames(revision, k) == Renames(revision, k - 1) + [RenameOf(revision, k - 1)];
      ApplySnoc(d, Renames(revision, k - 1), RenameOf(revision, k - 1));
      var before, after := ApplyAll(d, Renames(revision, k - 1)), ApplyAll(d, Renames(revision, k));
      assert SameEntry(d, before, TempSheet(revision, k - 1));
      forall name: Name | !Moved(name, revision, k) ensures SameEntry(d, after, name) {
        assert SameEntry(d, before, name);
      }
    }
  }

  // ---------- replacing the manifest ----------

  /** The disk once the new manifest has been written and flushed beside the old one. */
  function Written(disk: Disk, revision: Revision, token: string, file: File): Disk {
    Step(Step(disk, Create(TempManifest(token), file, ManifestOf(revision))), Flush(TempManifest(token)))
  }

  function Swapped(disk: Disk, revision: Revision, token: string, file: File): Disk {
    Step(Written(disk, revision, token, file), Replace(TempManifest(token), Manifest))
  }

  /** The state in which the manifest is replaced. */
  predicate BeforeSwap(disk: Disk, revision: Revision, token: string, file: File, count: SheetCount) {
    && WellFormed(disk) && disk.pending == [] && file !in disk.data && TempManifest(token) !in disk.durable
    && HasAllSheets(disk.durable, disk.data, revision, count(revision))
  }

  lemma SwapIs(disk: Disk, revision: Revision, token: string, file: File, count: SheetCount)
    requires BeforeSwap(disk, revision, token, file, count)
    ensures var swapped := Swapped(disk, revision, token, file);
      && swapped.durable == disk.durable
      && swapped.pending == [Link(TempManifest(token), file), Rename(TempManifest(token), Manifest)]
      && swapped.data == disk.data[file := ManifestOf(revision)] && swapped.flushed == disk.flushed + {file}
      && Visible(swapped) == disk.durable[Manifest := file]
  {
    var temp := TempManifest(token);
    var created := Step(disk, Create(temp, file, ManifestOf(revision)));
    assert created.pending == [Link(temp, file)];
    ApplyOne(disk.durable, Link(temp, file));
    assert disk.flushed - {file} + {file} == disk.flushed + {file};
    var swapped := Swapped(disk, revision, token, file);
    assert swapped.pending == [Link(temp, file), Rename(temp, Manifest)];
    ApplySnoc(disk.durable, [Link(temp, file)], Rename(temp, Manifest));
    assert [Link(temp, file)] + [Rename(temp, Manifest)] == swapped.pending;
    assert (disk.durable[temp := file] - {temp})[Manifest := file] == disk.durable[Manifest := file];
  }

  /** Readers of the new manifest find the new sheets, readers of the old one the old. */
  lemma ServedByNew(d: Names, data: Data, sheets: Data, revision: Revision, file: File, count: SheetCount)
    requires HasAllSheets(d, sheets, revision, count(revision)) && file !in d.Values && file !in sheets
    ensures ServedFrom(d[Manifest := file], data[file := ManifestOf(revision)], sheets, count)
  {
    var after := d[Manifest := file];
    forall r: Revision, i | NamesRevision(after, data[file := ManifestOf(revision)], r) && 0 <= i < count(r)
      ensures HasSheet(after, sheets, r, i)
    {
      assert HasSheet(d, sheets, revision, i);
    }
  }

  lemma SheetsGrow(d: Names, data: Data, sheets: Data, sheets': Data, count: SheetCount)
    requires ServedFrom(d, data, sheets, count) && forall f :: f in sheets ==> f in sheets' && sheets'[f] == sheets[f]
    ensures ServedFrom(d, data, sheets', count)
  {
    forall r: Revision, i | NamesRevision(d, data, r) && 0 <= i < count(r) ensures HasSheet(d, sheets', r, i) {
      assert HasSheet(d, sheets, r, i);
    }
  }

  lemma SwapStops(disk: Disk, revision: Revision, token: string, file: File, count: SheetCount)
    requires BeforeSwap(disk, revision, token, file, count)
    ensures StopSafe(Swapped(disk, revision, token, file), count)
  {
    SwapIs(disk, revision, token, file, count);
    ServedByNew(disk.durable, disk.data, disk.data, revision, file, count);
    var swapped := Swapped(disk, revision, token, file);
    SheetsGrow(Visible(swapped), swapped.data, disk.data, swapped.data, count);
  }

  lemma SwapOutcomes(kept: seq<Change>, first: Change, second: Change)
    requires Subsequence(kept, [first, second])
    ensures kept == [] || kept == [first] || kept == [second] || kept == [first, second]
  {
    assert [first] + [second] == [first, second];
    var x, y := SplitSubsequence(kept, [first], [second]);
    SubsequenceOfOne(x, first);
    SubsequenceOfOne(y, second);
  }

  lemma SwapKeepsFirmSheets(disk: Disk, revision: Revision, token: string, file: File, count: SheetCount)
    requires BeforeSwap(disk, revision, token, file, count)
    requires PowerSafe(Written(disk, revision, token, file), count)
    requires HasAllSheets(disk.durable, Firm(disk), revision, count(revision))
    ensures PowerSafe(Swapped(disk, revision, token, file), count)
  {
    var swapped, written := Swapped(disk, revision, token, file), Written(disk, revision, token, file);
    SwapIs(disk, revision, token, file, count);
    ServedByNew(disk.durable, disk.data, Firm(disk), revision, file, count);
    SheetsGrow(Visible(swapped), swapped.data, Firm(disk), Firm(swapped), count);
    hide ServedFrom, HasAllSheets, PowerSafe, WellFormed, StopSafe;
    PowerSafeMeansFirm(swapped, count);
    PowerSafeMeansFirm(written, count);
    var link, rename := swapped.pending[0], swapped.pending[1];
    forall kept | Subsequence(kept, swapped.pending)
      ensures ServedFrom(ApplyAll(swapped.durable, kept), swapped.data, Firm(swapped), count)
    {
      SwapOutcomes(kept, link, rename);
      ApplyOne(disk.durable, rename);
      assert kept != swapped.pending && kept != [rename] ==> Subsequence(kept, written.pending);
      assert Subsequence([], written.pending);
    }
  }

  lemma SwapExposesLooseSheet(disk: Disk, revision: Revision, token: string, file: File, count: SheetCount)
    requires BeforeSwap(disk, revision, token, file, count)
    requires !HasAllSheets(disk.durable, Firm(disk), revision, count(revision))
    ensures !PowerSafe(Swapped(disk, revision, token, file), count)
  {
    var swapped := Swapped(disk, revision, token, file);
    SwapIs(disk, revision, token, file, count);
    PowerSafeMeansFirm(swapped, count);
    WholeIsSubsequence(swapped.pending);
    assert NamesRevision(Visible(swapped), swapped.data, revision);
    var i :| 0 <= i < count(revision) && !HasSheet(disk.durable, Firm(disk), revision, i);
    assert HasSheet(disk.durable, disk.data, revision, i);
    assert !HasSheet(Visible(swapped), Firm(swapped), revision, i);
    assert !ServedFrom(Visible(swapped), swapped.data, Firm(swapped), count);
  }

  /** While the manifest is replaced, a power loss is safe if and only if the data of the new
      sheets is on disk. */
  lemma SwapSurvivesPowerLossIff(disk: Disk, revision: Revision, token: string, file: File, count: SheetCount)
    requires BeforeSwap(disk, revision, token, file, count) && PowerSafe(disk, count)
    ensures PowerSafe(Swapped(disk, revision, token, file), count) <==>
      HasAllSheets(disk.durable, Firm(disk), revision, count(revision))
  {
    if HasAllSheets(disk.durable, Firm(disk), revision, count(revision)) {
      WrittenIsSafe(disk, revision, token, file, count);
      SwapKeepsFirmSheets(disk, revision, token, file, count);
    } else {
      SwapExposesLooseSheet(disk, revision, token, file, count);
    }
  }

  lemma WrittenIsSafe(disk: Disk, revision: Revision, token: string, file: File, count: SheetCount)
    requires WellFormed(disk) && file !in disk.data && TempManifest(token) !in Visible(disk)
    ensures var created := Step(disk, Create(TempManifest(token), file, ManifestOf(revision)));
      var written := Written(disk, revision, token, file);
      && WellFormed(created) && WellFormed(written)
      && (StopSafe(disk, count) ==> StopSafe(created, count) && StopSafe(written, count))
      && (PowerSafe(disk, count) ==> PowerSafe(created, count) && PowerSafe(written, count))
  {
    hide StopSafe, PowerSafe, WellFormed, Step;
    var create := Create(TempManifest(token), file, ManifestOf(revision));
    PreparationIsHarmless(disk, create, count);
    PreparationIsHarmless(Step(disk, create), Flush(TempManifest(token)), count);
  }

  // ---------- deleting other sheets ----------

  /** Whatever is lost, the manifest of this revision is there. */
  ghost predicate Settled(disk: Disk, revision: Revision) {
    forall kept :: Subsequence(kept, disk.pending) ==>
      NamesRevision(ApplyAll(disk.durable, kept), disk.data, revision)
  }

  /** A published sheet that the revision does not own. */
  predicate Foreign(name: Name, revision: Revision, n: nat) {
    name.Sheet? && !(name.revision == revision && name.index < n)
  }

  lemma DeletionIsHarmless(disk: Disk, name: Name, revision: Revision, count: SheetCount)
    requires Settled(disk, revision) && (Foreign(name, revision, count(revision)) || Temporary(name))
    ensures Settled(Step(disk, Unlink(name)), revision)
    ensures StopSafe(disk, count) ==> StopSafe(Step(disk, Unlink(name)), count)
    ensures PowerSafe(disk, count) ==> PowerSafe(Step(disk, Unlink(name)), count)
  {
    var after := Step(disk, Unlink(name));
    WholeIsSubsequence(disk.pending);
    ApplySnoc(disk.durable, disk.pending, Remove(name));
    if StopSafe(disk, count) {
      RemoveServes(Visible(disk), name, disk.data, disk.data, revision, count);
    }
    PowerSafeMeansFirm(disk, count);
    PowerSafeMeansFirm(after, count);
    forall kept | Subsequence(kept, after.pending)
      ensures NamesRevision(ApplyAll(after.durable, kept), after.data, revision)
      ensures PowerSafe(disk, count) ==> ServedFrom(ApplyAll(after.durable, kept), after.data, Firm(after), count)
    {
      var before, rest := SplitSubsequence(kept, disk.pending, [Remove(name)]);
      SubsequenceOfOne(rest, Remove(name));
      ApplyConcat(disk.durable, before, rest);
      var d := ApplyAll(disk.durable, before);
      ApplyOne(d, Remove(name));
      if PowerSafe(disk, count) {
        RemoveServes(d, name, disk.data, Firm(disk), revision, count);
      }
    }
  }

  lemma RemoveServes(d: Names, name: Name, data: Data, sheets: Data, revision: Revision, count: SheetCount)
    requires NamesRevision(d, data, revision) && (Foreign(name, revision, count(revision)) || Temporary(name))
    requires ServedFrom(d, data, sheets, count)
    ensures ServedFrom(d - {name}, data, sheets, count) && NamesRevision(d - {name}, data, revision)
  {
    forall r: Revision, i | NamesRevision(d - {name}, data, r) && 0 <= i < count(r)
      ensures HasSheet(d - {name}, sheets, r, i)
    {
      assert HasSheet(d, sheets, revision, i);
    }
  }
}
