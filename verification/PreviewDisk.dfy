/** A preview directory on a disk that may lose power.

    Names lead to files. A change of names waits in memory until the directory is synced, the
    data of a file until the file is flushed. After a power loss any of the waiting name changes
    may be missing, and any file that was not flushed may be damaged. */
module PreviewDisk {

  type Revision = string

  datatype Name =
    | Sheet(revision: Revision, index: nat)
    | TempSheet(revision: Revision, index: nat)
    | Manifest
    | TempManifest(token: string)
    | OtherName(text: string)

  predicate Temporary(name: Name) {
    name.TempSheet? || name.TempManifest?
  }

  /** `Damaged` is whatever is not whole: empty, truncated or half written. */
  datatype Content =
    | CompleteSheet(owner: Revision, number: nat)
    | ManifestOf(named: Revision)
    | Damaged
    | OtherContent(bytes: string)

  type File = nat

  type Names = map<Name, File>

  type Data = map<File, Content>

  /** How many sheets a revision has: its hash covers every input the count depends on. */
  type SheetCount = Revision -> nat

  // ---------- names ----------

  datatype Change = Link(name: Name, file: File) | Rename(source: Name, target: Name) | Remove(gone: Name)

  function Apply(d: Names, c: Change): Names {
    match c
    case Link(name, file) => d[name := file]
    case Rename(source, target) => if source in d then (d - {source})[target := d[source]] else d
    case Remove(name) => d - {name}
  }

  function ApplyAll(d: Names, cs: seq<Change>): Names
    decreases |cs|
  {
    if cs == [] then d else ApplyAll(Apply(d, cs[0]), cs[1..])
  }

  /** Any of the changes may be missing, the others took effect in order. */
  predicate Subsequence(part: seq<Change>, whole: seq<Change>) {
    if part == [] then true
    else if whole == [] then false
    else (part[0] == whole[0] && Subsequence(part[1..], whole[1..])) || Subsequence(part, whole[1..])
  }

  lemma {:induction false} ApplyConcat(d: Names, a: seq<Change>, b: seq<Change>)
    ensures ApplyAll(d, a + b) == ApplyAll(ApplyAll(d, a), b)
    decreases |a|
  {
    if a == [] {
      assert a + b == b;
    } else {
      ApplyConcat(Apply(d, a[0]), a[1..], b);
      assert (a + b)[1..] == a[1..] + b;
    }
  }

  lemma ApplyOne(d: Names, c: Change)
    ensures ApplyAll(d, [c]) == Apply(d, c)
  {
    assert [c][1..] == [];
  }

  lemma ApplySnoc(d: Names, cs: seq<Change>, c: Change)
    ensures ApplyAll(d, cs + [c]) == Apply(ApplyAll(d, cs), c)
  {
    ApplyConcat(d, cs, [c]);
    ApplyOne(ApplyAll(d, cs), c);
  }

  lemma {:induction false} WholeIsSubsequence(cs: seq<Change>)
    ensures Subsequence(cs, cs)
  {
    if cs != [] {
      WholeIsSubsequence(cs[1..]);
    }
  }

  /** What is left of two runs is what is left of each. */
  lemma {:induction false} SplitSubsequence(kept: seq<Change>, a: seq<Change>, b: seq<Change>)
      returns (x: seq<Change>, y: seq<Change>)
    requires Subsequence(kept, a + b)
    ensures kept == x + y && Subsequence(x, a) && Subsequence(y, b)
    decreases |a|
  {
    if a == [] {
      assert a + b == b;
      x, y := [], kept;
    } else if kept == [] {
      x, y := [], [];
    } else {
      assert (a + b)[1..] == a[1..] + b && (a + b)[0] == a[0];
      if kept[0] == a[0] && Subsequence(kept[1..], a[1..] + b) {
        x, y := SplitSubsequence(kept[1..], a[1..], b);
        x := [kept[0]] + x;
      } else {
        x, y := SplitSubsequence(kept, a[1..], b);
      }
    }
  }

  lemma {:induction false} JoinSubsequences(x: seq<Change>, a: seq<Change>, y: seq<Change>, b: seq<Change>)
    requires Subsequence(x, a) && Subsequence(y, b)
    ensures Subsequence(x + y, a + b)
    decreases |a|
  {
    if a == [] {
      assert x + y == y && a + b == b;
    } else {
      assert (a + b)[1..] == a[1..] + b && (a + b)[0] == a[0];
      if x == [] {
        JoinSubsequences([], a[1..], y, b);
        assert [] + y == y && x + y == y;
      } else if x[0] == a[0] && Subsequence(x[1..], a[1..]) {
        JoinSubsequences(x[1..], a[1..], y, b);
        assert (x + y)[1..] == x[1..] + y;
      } else {
        JoinSubsequences(x, a[1..], y, b);
      }
    }
  }

  lemma SubsequenceOfOne(kept: seq<Change>, c: Change)
    requires Subsequence(kept, [c])
    ensures kept == [] || kept == [c]
  {
    assert [c][1..] == [];
  }

  // ---------- the disk ----------

  datatype Disk = Disk(durable: Names, pending: seq<Change>, data: Data, flushed: set<File>)

  /** The directory as running programs see it. */
  function Visible(disk: Disk): Names {
    ApplyAll(disk.durable, disk.pending)
  }

  datatype Op =
    | Create(name: Name, file: File, content: Content)
    | Write(written: Name, text: Content)
    | Flush(synced: Name)
    | Replace(source: Name, target: Name)
    | Unlink(gone: Name)
    | SyncDirectory

  function Step(disk: Disk, op: Op): Disk {
    match op
    case Create(name, file, content) =>
      Disk(disk.durable, disk.pending + [Link(name, file)], disk.data[file := content], disk.flushed - {file})
    case Write(name, content) =>
      if name in Visible(disk)
      then disk.(data := disk.data[Visible(disk)[name] := content], flushed := disk.flushed - {Visible(disk)[name]})
      else disk
    case Flush(name) =>
      if name in Visible(disk) then disk.(flushed := disk.flushed + {Visible(disk)[name]}) else disk
    case Replace(source, target) => disk.(pending := disk.pending + [Rename(source, target)])
    case Unlink(name) => disk.(pending := disk.pending + [Remove(name)])
    case SyncDirectory => disk.(durable := Visible(disk), pending := [])
  }

  // ---------- being served ----------

  function Look(data: Data, file: File): Content {
    if file in data then data[file] else Damaged
  }

  predicate HasSheet(d: Names, data: Data, revision: Revision, i: nat) {
    Sheet(revision, i) in d && Look(data, d[Sheet(revision, i)]) == CompleteSheet(revision, i)
  }

  predicate HasAllSheets(d: Names, data: Data, revision: Revision, n: nat) {
    forall i :: 0 <= i < n ==> HasSheet(d, data, revision, i)
  }

  predicate NamesRevision(d: Names, data: Data, revision: Revision) {
    Manifest in d && Look(data, d[Manifest]) == ManifestOf(revision)
  }

  /** Whatever revision a present manifest names, its sheets are there, complete in `sheets`. */
  ghost predicate ServedFrom(d: Names, data: Data, sheets: Data, count: SheetCount) {
    forall r: Revision :: NamesRevision(d, data, r) ==> HasAllSheets(d, sheets, r, count(r))
  }

  ghost predicate Served(d: Names, data: Data, count: SheetCount) {
    ServedFrom(d, data, data, count)
  }

  /** Safe when the generator stops here: whoever reads the manifest finds its sheets. */
  ghost predicate StopSafe(disk: Disk, count: SheetCount) {
    Served(Visible(disk), disk.data, count)
  }

  function Damage(data: Data, damaged: set<File>): Data {
    map f | f in data :: if f in damaged then Damaged else data[f]
  }

  /** Safe when the power fails here, whatever changes of names and whatever unflushed data are
      lost with it. */
  ghost predicate PowerSafe(disk: Disk, count: SheetCount) {
    forall kept, damaged: set<File> :: Subsequence(kept, disk.pending) && damaged !! disk.flushed ==>
      Served(ApplyAll(disk.durable, kept), Damage(disk.data, damaged), count)
  }

  /** The data that no power loss can take. */
  function Firm(disk: Disk): Data {
    map f | f in disk.data && f in disk.flushed :: disk.data[f]
  }

  /** The same without a choice of damage: manifests count as soon as they are written, sheets
      only once they are flushed. */
  ghost predicate FirmlyServed(disk: Disk, count: SheetCount) {
    forall kept :: Subsequence(kept, disk.pending) ==>
      ServedFrom(ApplyAll(disk.durable, kept), disk.data, Firm(disk), count)
  }

  lemma PowerSafeMeansFirm(disk: Disk, count: SheetCount)
    ensures PowerSafe(disk, count) <==> FirmlyServed(disk, count)
  {
    if PowerSafe(disk, count) {
      forall kept | Subsequence(kept, disk.pending)
        ensures ServedFrom(ApplyAll(disk.durable, kept), disk.data, Firm(disk), count)
      {
        FirmFromSafe(disk, kept, count);
      }
    }
    if FirmlyServed(disk, count) {
      forall kept, damaged: set<File> | Subsequence(kept, disk.pending) && damaged !! disk.flushed
        ensures Served(ApplyAll(disk.durable, kept), Damage(disk.data, damaged), count)
      {
        var d := ApplyAll(disk.durable, kept);
        forall r: Revision | NamesRevision(d, Damage(disk.data, damaged), r)
          ensures HasAllSheets(d, Damage(disk.data, damaged), r, count(r))
        {
          assert NamesRevision(d, disk.data, r);
          forall i | 0 <= i < count(r) ensures HasSheet(d, Damage(disk.data, damaged), r, i) {
            assert HasSheet(d, Firm(disk), r, i);
          }
        }
      }
    }
  }

  lemma FirmFromSafe(disk: Disk, kept: seq<Change>, count: SheetCount)
    requires PowerSafe(disk, count) && Subsequence(kept, disk.pending)
    ensures ServedFrom(ApplyAll(disk.durable, kept), disk.data, Firm(disk), count)
  {
    var d := ApplyAll(disk.durable, kept);
    forall r: Revision, i | NamesRevision(d, disk.data, r) && 0 <= i < count(r) ensures HasSheet(d, Firm(disk), r, i) {
      assert Damage(disk.data, {}) == disk.data;
      assert Served(d, Damage(disk.data, {}), count);
      assert HasSheet(d, disk.data, r, i);
      var file := d[Sheet(r, i)];
      var damaged := if file in disk.flushed then {} else {file};
      assert Served(d, Damage(disk.data, damaged), count);
      assert NamesRevision(d, Damage(disk.data, damaged), r);
      assert HasSheet(d, Damage(disk.data, damaged), r, i);
    }
  }

  predicate SameEntry(a: Names, b: Names, name: Name) {
    (name in a <==> name in b) && (name in a ==> a[name] == b[name])
  }

  /** Only the names readers use matter, and the files behind them. */
  lemma ServedSame(d: Names, data: Data, sheets: Data, d': Names, data': Data, sheets': Data, count: SheetCount)
    requires ServedFrom(d, data, sheets, count)
    requires forall name: Name :: !Temporary(name) ==> SameEntry(d, d', name)
    requires forall name: Name :: !Temporary(name) && name in d ==> Look(data', d[name]) == Look(data, d[name])
    requires forall name: Name :: !Temporary(name) && name in d ==>
      Look(sheets, d[name]) == Damaged || Look(sheets', d[name]) == Look(sheets, d[name])
    ensures ServedFrom(d', data', sheets', count)
  {
    forall r: Revision, i | NamesRevision(d', data', r) && 0 <= i < count(r) ensures HasSheet(d', sheets', r, i) {
      assert SameEntry(d, d', Manifest) && SameEntry(d, d', Sheet(r, i));
      assert NamesRevision(d, data, r);
      assert HasSheet(d, sheets, r, i);
    }
  }

  // ---------- well-formed disks ----------

  predicate Injective(d: Names) {
    forall a, b :: a in d && b in d && d[a] == d[b] ==> a == b
  }

  function Used(used: set<File>, c: Change): set<File> {
    if c.Link? then used + {c.file} else used
  }

  /** Files are created under temporary names, each once, and renamed to published names. */
  predicate Orderly(cs: seq<Change>, used: set<File>)
    decreases |cs|
  {
    cs == [] ||
    match cs[0]
    case Link(name, file) => Temporary(name) && file !in used && Orderly(cs[1..], Used(used, cs[0]))
    case Rename(source, target) => Temporary(source) && !Temporary(target) && Orderly(cs[1..], Used(used, cs[0]))
    case Remove(_) => Orderly(cs[1..], Used(used, cs[0]))
  }

  /** The files that a list of changes creates. */
  function Linked(cs: seq<Change>): set<File> {
    set k | 0 <= k < |cs| && cs[k].Link? :: cs[k].file
  }

  predicate WellFormed(disk: Disk) {
    && Injective(disk.durable) && Orderly(disk.pending, disk.durable.Values)
    && disk.durable.Values <= disk.data.Keys && Linked(disk.pending) <= disk.data.Keys
  }

  /** What a program may do to the directory. A file that is created is a new one. */
  predicate Possible(disk: Disk, op: Op) {
    match op
    case Create(name, file, _) => Temporary(name) && file !in disk.data
    case Replace(source, target) => Temporary(source) && !Temporary(target)
    case _ => true
  }

  lemma {:induction false} OrderlySnoc(cs: seq<Change>, used: set<File>, c: Change)
    requires Orderly(cs, used)
    requires c.Link? ==> Temporary(c.name) && c.file !in used && c.file !in Linked(cs)
    requires c.Rename? ==> Temporary(c.source) && !Temporary(c.target)
    ensures Orderly(cs + [c], used)
    decreases |cs|
  {
    if cs == [] {
      assert (cs + [c])[1..] == [];
    } else {
      assert (cs + [c])[1..] == cs[1..] + [c];
      assert Linked(cs[1..]) <= Linked(cs) by {
        assert forall k :: 0 <= k < |cs[1..]| ==> cs[1..][k] == cs[k + 1];
      }
      assert cs[0].Link? ==> cs[0].file in Linked(cs);
      OrderlySnoc(cs[1..], Used(used, cs[0]), c);
    }
  }

  /** In every outcome names stay apart and lead to files that exist. */
  lemma {:induction false} OutcomeIsSound(d: Names, cs: seq<Change>, kept: seq<Change>, used: set<File>)
    requires Injective(d) && d.Values <= used && Orderly(cs, used) && Subsequence(kept, cs)
    ensures Injective(ApplyAll(d, kept)) && ApplyAll(d, kept).Values <= used + Linked(cs)
    decreases |cs|
  {
    if kept != [] {
      var more := Used(used, cs[0]);
      assert more + Linked(cs[1..]) <= used + Linked(cs) by {
        assert forall k :: 0 <= k < |cs[1..]| ==> cs[1..][k] == cs[k + 1];
      }
      if kept[0] == cs[0] && Subsequence(kept[1..], cs[1..]) {
        OneChangeIsSound(d, cs[0], used);
        OutcomeIsSound(Apply(d, cs[0]), cs[1..], kept[1..], more);
      } else {
        OutcomeIsSound(d, cs[1..], kept, more);
      }
    }
  }

  lemma OneChangeIsSound(d: Names, c: Change, used: set<File>)
    requires Injective(d) && d.Values <= used && (c.Link? ==> c.file !in used)
    ensures Injective(Apply(d, c)) && Apply(d, c).Values <= Used(used, c)
  {
    var after := Apply(d, c);
    forall a | a in after ensures after[a] in Used(used, c) {
      if c.Rename? && c.source in d && a == c.target { assert d[c.source] in d.Values; }
      else if a in d && after[a] == d[a] { assert d[a] in d.Values; }
    }
    forall a, b | a in after && b in after && after[a] == after[b] ensures a == b {
      assert forall x :: x in d ==> d[x] in d.Values;
    }
  }

  /** A file seen under a temporary name has no other name in any outcome. */
  ghost predicate Apart(full: Names, part: Names) {
    forall t, n :: Temporary(t) && t in full && n in part && full[t] == part[n] ==> n == t
  }

  lemma {:induction false} TemporariesStayApart(full: Names, part: Names, cs: seq<Change>, kept: seq<Change>,
                                                used: set<File>)
    requires Apart(full, part) && full.Values <= used && part.Values <= used
    requires Orderly(cs, used) && Subsequence(kept, cs)
    ensures Apart(ApplyAll(full, cs), ApplyAll(part, kept))
    decreases |cs|
  {
    if cs != [] {
      var c := cs[0];
      var more := Used(used, c);
      ValuesAfter(full, c, used);
      if kept != [] && kept[0] == c && Subsequence(kept[1..], cs[1..]) {
        ValuesAfter(part, c, used);
        ApartBoth(full, part, c, used);
        TemporariesStayApart(Apply(full, c), Apply(part, c), cs[1..], kept[1..], more);
      } else {
        ApartOne(full, part, c, used);
        TemporariesStayApart(Apply(full, c), part, cs[1..], kept, more);
      }
    }
  }

  lemma ValuesAfter(d: Names, c: Change, used: set<File>)
    requires d.Values <= used
    ensures Apply(d, c).Values <= Used(used, c)
  {
    var after := Apply(d, c);
    forall a | a in after ensures after[a] in Used(used, c) {
      if c.Rename? && c.source in d && a == c.target { assert d[c.source] in d.Values; }
      else if a in d && after[a] == d[a] { assert d[a] in d.Values; }
    }
  }

  lemma ApartBoth(full: Names, part: Names, c: Change, used: set<File>)
    requires Apart(full, part) && full.Values <= used && part.Values <= used
    requires c.Link? ==> c.file !in used
    requires c.Rename? ==> Temporary(c.source) && !Temporary(c.target)
    ensures Apart(Apply(full, c), Apply(part, c))
  {
    assert forall x :: x in full ==> full[x] in full.Values;
    assert forall x :: x in part ==> part[x] in part.Values;
  }

  lemma ApartOne(full: Names, part: Names, c: Change, used: set<File>)
    requires Apart(full, part) && full.Values <= used && part.Values <= used
    requires c.Link? ==> c.file !in used
    requires c.Rename? ==> Temporary(c.source) && !Temporary(c.target)
    ensures Apart(Apply(full, c), part)
  {
    assert forall x :: x in part ==> part[x] in part.Values;
  }

  lemma OutcomeOf(disk: Disk, kept: seq<Change>)
    requires WellFormed(disk) && Subsequence(kept, disk.pending)
    ensures Injective(ApplyAll(disk.durable, kept))
    ensures ApplyAll(disk.durable, kept).Values <= disk.data.Keys
    ensures Apart(Visible(disk), ApplyAll(disk.durable, kept))
  {
    OutcomeIsSound(disk.durable, disk.pending, kept, disk.durable.Values);
    TemporariesStayApart(disk.durable, disk.durable, disk.pending, kept, disk.durable.Values);
  }

  lemma LinkedSnoc(cs: seq<Change>, c: Change)
    ensures Linked(cs + [c]) == Linked(cs) + if c.Link? then {c.file} else {}
  {
    forall f ensures f in Linked(cs + [c]) <==> f in Linked(cs) + if c.Link? then {c.file} else {} {
      if f in Linked(cs) {
        var k :| 0 <= k < |cs| && cs[k].Link? && cs[k].file == f;
        assert (cs + [c])[k].file == f;
      }
      assert (cs + [c])[|cs|] == c;
    }
  }

  lemma StepIsWellFormed(disk: Disk, op: Op)
    requires WellFormed(disk) && Possible(disk, op)
    ensures WellFormed(Step(disk, op))
  {
    match op
    case Create(name, file, _) =>
      OrderlySnoc(disk.pending, disk.durable.Values, Link(name, file));
      LinkedSnoc(disk.pending, Link(name, file));
    case Replace(source, target) =>
      OrderlySnoc(disk.pending, disk.durable.Values, Rename(source, target));
      LinkedSnoc(disk.pending, Rename(source, target));
    case Unlink(name) =>
      OrderlySnoc(disk.pending, disk.durable.Values, Remove(name));
      LinkedSnoc(disk.pending, Remove(name));
    case SyncDirectory =>
      WholeIsSubsequence(disk.pending);
      OutcomeOf(disk, disk.pending);
    case _ =>
  }
}
