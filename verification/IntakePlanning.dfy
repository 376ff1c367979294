/** The plans that intake applies: a new file with its companions moves from the library root
    into a catalog, or a better copy takes the place of one that is archived first. */
module IntakePlanning {
  import opened Text
  import opened Intake

  // ---------- companions ----------

  /** Python's `stem`: the name without its last suffix. */
  function Stem(name: string): string {
    var i := LastDot(name);
    if 0 < i < |name| - 1 then name[..i] else name
  }

  function LastDot(name: string): (i: int)
    ensures -1 <= i < |name|
  {
    if name == [] then -1
    else if name[|name| - 1] == '.' then |name| - 1
    else LastDot(name[..|name| - 1])
  }

  /** A video, where it goes, the names of the other companion files in its folder, and whether
      its preview directory exists. */
  datatype Group = Group(source: Path, target: Path, siblings: seq<string>, preview: bool)

  /** The new name of a companion of the video; `None` for a companion of something else. */
  function SidecarName(sibling: string, oldStem: string, newStem: string): Option<string> {
    if sibling == oldStem + "-poster.jpg" then Some(newStem + "-poster.jpg")
    else if oldStem + "." <= sibling then Some(newStem + sibling[|oldStem|..])
    else None
  }

  function SidecarMappings(g: Group, siblings: seq<string>): seq<Mapping>
    decreases |siblings|
  {
    if siblings == [] then []
    else
      (match SidecarName(siblings[0], Stem(g.source.name), Stem(g.target.name))
       case Some(name) =>
         [Mapping(Path(g.source.folder, false, siblings[0]), Path(g.target.folder, false, name))]
       case None => []) + SidecarMappings(g, siblings[1..])
  }

  function PreviewMapping(g: Group): Mapping {
    Mapping(Path(g.source.folder, true, Stem(g.source.name)), Path(g.target.folder, true, Stem(g.target.name)))
  }

  function Mappings(g: Group): seq<Mapping> {
    [Mapping(g.source, g.target)] + SidecarMappings(g, g.siblings) + if g.preview then [PreviewMapping(g)] else []
  }

  /** What listing the folder has found is there, each name once. */
  predicate OnDisk(fs: Files, g: Group) {
    && !g.source.preview && !g.target.preview && g.source in fs
    && (forall i :: 0 <= i < |g.siblings| ==>
          g.siblings[i] != g.source.name && Path(g.source.folder, false, g.siblings[i]) in fs)
    && (forall i, j :: 0 <= i < j < |g.siblings| ==> g.siblings[i] != g.siblings[j])
    && (g.preview ==> Path(g.source.folder, true, Stem(g.source.name)) in fs)
  }

  lemma {:induction false} SidecarsAre(g: Group, siblings: seq<string>, k: nat)
    requires k < |SidecarMappings(g, siblings)|
    ensures var m := SidecarMappings(g, siblings)[k];
      exists i :: 0 <= i < |siblings| && m.source == Path(g.source.folder, false, siblings[i]) &&
        var name := SidecarName(siblings[i], Stem(g.source.name), Stem(g.target.name));
        name.Some? && m.target == Path(g.target.folder, false, name.value)
    decreases |siblings|
  {
    var head := SidecarMappings(g, siblings)[..|SidecarMappings(g, siblings)| - |SidecarMappings(g, siblings[1..])|];
    if k >= |head| {
      SidecarsAre(g, siblings[1..], k - |head|);
      assert SidecarMappings(g, siblings)[k] == SidecarMappings(g, siblings[1..])[k - |head|];
    }
  }

  lemma {:induction false} SidecarsAreDistinct(g: Group, siblings: seq<string>)
    requires forall i, j :: 0 <= i < j < |siblings| ==> siblings[i] != siblings[j]
    ensures DistinctSources(SidecarMappings(g, siblings))
    decreases |siblings|
  {
    if siblings != [] {
      SidecarsAreDistinct(g, siblings[1..]);
      var rest := SidecarMappings(g, siblings[1..]);
      forall k | 0 <= k < |rest| ensures rest[k].source != Path(g.source.folder, false, siblings[0]) {
        SidecarsAre(g, siblings[1..], k);
      }
    }
  }

  predicate DistinctSources(ms: seq<Mapping>) {
    forall i, j :: 0 <= i < j < |ms| ==> ms[i].source != ms[j].source
  }

  predicate AllExist(fs: Files, ms: seq<Mapping>) {
    forall i :: 0 <= i < |ms| ==> ms[i].source in fs
  }

  /** A group moves existing files, each once, from one folder to the other. */
  lemma GroupIsListed(fs: Files, g: Group)
    requires OnDisk(fs, g)
    ensures DistinctSources(Mappings(g)) && AllExist(fs, Mappings(g))
    ensures forall k :: 0 <= k < |Mappings(g)| ==>
      Mappings(g)[k].source.folder == g.source.folder && Mappings(g)[k].target.folder == g.target.folder
  {
    var sidecars, ms := SidecarMappings(g, g.siblings), Mappings(g);
    SidecarsAreDistinct(g, g.siblings);
    forall k | 0 <= k < |sidecars|
      ensures sidecars[k].source in fs && !sidecars[k].source.preview && sidecars[k].source != g.source
      ensures sidecars[k].source.folder == g.source.folder && sidecars[k].target.folder == g.target.folder
    {
      SidecarsAre(g, g.siblings, k);
    }
    hide SidecarMappings;
    assert forall k :: 1 <= k <= |sidecars| ==> ms[k] == sidecars[k - 1];
  }

  /** A name ends in a suffix when a dot stands inside it; the stem is what stands before the last. */
  lemma StemMeaning(base: string, suffix: string)
    requires '.' !in suffix
    ensures Stem(suffix) == suffix
    ensures Stem(base + "." + suffix) == if base != "" && suffix != "" then base else base + "." + suffix
  {
    var name := base + "." + suffix;
    LastDotIs(name, |base|);
    if LastDot(suffix) >= 0 {
      LastDotIsThere(suffix);
    }
  }

  lemma {:induction false} LastDotIsThere(name: string)
    requires LastDot(name) >= 0
    ensures name[LastDot(name)] == '.'
  {
    if name[|name| - 1] != '.' {
      LastDotIsThere(name[..|name| - 1]);
    }
  }

  lemma {:induction false} LastDotIs(name: string, i: nat)
    requires i < |name| && name[i] == '.' && forall k :: i < k < |name| ==> name[k] != '.'
    ensures LastDot(name) == i
    decreases |name|
  {
    if i < |name| - 1 {
      LastDotIs(name[..|name| - 1], i);
    }
  }

  /** What may follow the stem in the name of a companion: a poster, or any suffix. */
  predicate Tail(tail: string) {
    tail == "-poster.jpg" || (tail != "" && tail[0] == '.')
  }

  /** The companion's name is the video's stem with a tail, and the new name is the new stem with
      the same tail. */
  predicate Renamed(sibling: string, name: string, oldStem: string, newStem: string, tail: string) {
    Tail(tail) && sibling == oldStem + tail && name == newStem + tail
  }

  lemma SidecarMeaning(sibling: string, oldStem: string, newStem: string, name: string)
    ensures SidecarName(sibling, oldStem, newStem) == Some(name) <==>
      exists tail :: Renamed(sibling, name, oldStem, newStem, tail)
  {
    if SidecarName(sibling, oldStem, newStem) == Some(name) {
      var tail := sibling[|oldStem|..];
      assert sibling == oldStem + tail;
      assert sibling != oldStem + "-poster.jpg" ==> tail[0] == (oldStem + ".")[|oldStem|];
      assert Renamed(sibling, name, oldStem, newStem, tail);
    }
    if tail :| Renamed(sibling, name, oldStem, newStem, tail) {
      assert sibling[|oldStem|..] == tail;
      if tail != "-poster.jpg" {
        assert oldStem + tail != oldStem + "-poster.jpg" by { assert sibling[|oldStem|] == '.'; }
        assert oldStem + "." == sibling[..|oldStem| + 1];
      }
    }
  }

  lemma {:induction false} SidecarIsMapped(g: Group, siblings: seq<string>, i: nat)
    requires i < |siblings| && SidecarName(siblings[i], Stem(g.source.name), Stem(g.target.name)).Some?
    ensures var name := SidecarName(siblings[i], Stem(g.source.name), Stem(g.target.name)).value;
      Mapping(Path(g.source.folder, false, siblings[i]), Path(g.target.folder, false, name)) in
      SidecarMappings(g, siblings)
    decreases |siblings|
  {
    hide SidecarName, Stem;
    if i > 0 {
      SidecarIsMapped(g, siblings[1..], i - 1);
    }
  }

  /** A companion of the video and what it is mapped to. */
  ghost predicate CompanionMapped(g: Group, m: Mapping) {
    exists i, tail ::
      && 0 <= i < |g.siblings|
      && Renamed(g.siblings[i], m.target.name, Stem(g.source.name), Stem(g.target.name), tail)
      && m == Mapping(Path(g.source.folder, false, g.siblings[i]), Path(g.target.folder, false, m.target.name))
  }

  /** A group moves the video to its target, its poster and every file named by its stem and a
      suffix to the same tail behind the new stem, the preview directory to the new stem, and
      nothing else. */
  lemma MappingsMeaning(g: Group, m: Mapping)
    ensures m in Mappings(g) <==>
      || m == Mapping(g.source, g.target)
      || CompanionMapped(g, m)
      || (g.preview && m == Mapping(Path(g.source.folder, true, Stem(g.source.name)),
                                    Path(g.target.folder, true, Stem(g.target.name))))
  {
    hide Stem, SidecarMappings, SidecarName, Renamed;
    SidecarMember(g, m);
  }

  lemma SidecarMember(g: Group, m: Mapping)
    ensures m in SidecarMappings(g, g.siblings) <==> CompanionMapped(g, m)
  {
    hide Stem, SidecarName, Renamed;
    var oldStem, newStem := Stem(g.source.name), Stem(g.target.name);
    if m in SidecarMappings(g, g.siblings) {
      var k :| 0 <= k < |SidecarMappings(g, g.siblings)| && SidecarMappings(g, g.siblings)[k] == m;
      SidecarsAre(g, g.siblings, k);
      var i :| 0 <= i < |g.siblings| && m.source == Path(g.source.folder, false, g.siblings[i]) &&
        var name := SidecarName(g.siblings[i], oldStem, newStem);
        name.Some? && m.target == Path(g.target.folder, false, name.value);
      SidecarMeaning(g.siblings[i], oldStem, newStem, m.target.name);
    }
    if CompanionMapped(g, m) {
      var i, tail :| 0 <= i < |g.siblings| && Renamed(g.siblings[i], m.target.name, oldStem, newStem, tail) &&
        m == Mapping(Path(g.source.folder, false, g.siblings[i]), Path(g.target.folder, false, m.target.name));
      SidecarMeaning(g.siblings[i], oldStem, newStem, m.target.name);
      SidecarIsMapped(g, g.siblings, i);
    }
  }

  // ---------- plans ----------

  /** The incumbent to archive, when the incoming copy replaces one, and the incoming copy. */
  datatype Plan = Plan(incumbent: Option<Group>, incoming: Group)

  function Archiving(p: Plan): seq<Mapping> {
    match p.incumbent case Some(g) => Mappings(g) case None => []
  }

  function PlanMappings(p: Plan): seq<Mapping> {
    Archiving(p) + Mappings(p.incoming)
  }

  predicate Review(root: string, folder: string) {
    root + "/to-review/" <= folder
  }

  predicate Catalog(root: string, folder: string) {
    root + "/" <= folder && !Review(root, folder)
  }

  /** Where a replaced copy goes: its catalog path below a review category. */
  function ArchiveFolder(root: string, folder: string): string
    requires |root| <= |folder|
  {
    root + "/to-review/Duplicates-Replaced" + folder[|root|..]
  }

  /** How the planner builds a plan: incoming files lie in the library root and leave it, an
      incumbent lies in a catalog and keeps its name in the archive. */
  predicate Placed(root: string, p: Plan) {
    && p.incoming.source.folder == root && p.incoming.target.folder != root
    && (p.incumbent.Some? ==>
          var g := p.incumbent.value;
          Catalog(root, g.source.folder) &&
          g.target == Path(ArchiveFolder(root, g.source.folder), false, g.source.name))
  }

  predicate PlanOnDisk(fs: Files, p: Plan) {
    OnDisk(fs, p.incoming) && (p.incumbent.Some? ==> OnDisk(fs, p.incumbent.value))
  }

  predicate LeavesRoot(root: string, m: Mapping) {
    m.source.folder == root && m.target.folder != root
  }

  predicate IsArchived(root: string, m: Mapping) {
    Catalog(root, m.source.folder) &&
    m.target == Path(ArchiveFolder(root, m.source.folder), m.source.preview, m.source.name)
  }

  lemma FoldersDiffer(root: string, folder: string)
    requires Catalog(root, folder)
    ensures folder != root && ArchiveFolder(root, folder) != root && Review(root, ArchiveFolder(root, folder))
  {
    assert |folder| > |root| && |ArchiveFolder(root, folder)| > |root|;
    var rest := folder[|root|..];
    assert ArchiveFolder(root, folder) == root + "/to-review/" + ("Duplicates-Replaced" + rest);
  }

  lemma SameStemKeepsName(sibling: string, stem: string)
    ensures var name := SidecarName(sibling, stem, stem); name.Some? ==> name.value == sibling
  {
    if stem + "." <= sibling {
      assert sibling[..|stem|] == stem;
      assert sibling == sibling[..|stem|] + sibling[|stem|..];
    }
  }

  /** Archiving gives every file of the incumbent's group its own name below the archive. */
  lemma ArchivingIsArchived(fs: Files, root: string, p: Plan)
    requires Placed(root, p) && PlanOnDisk(fs, p)
    ensures forall k :: 0 <= k < |Archiving(p)| ==> IsArchived(root, Archiving(p)[k])
  {
    if p.incumbent.Some? {
      var g := p.incumbent.value;
      var sidecars := SidecarMappings(g, g.siblings);
      forall k | 0 <= k < |sidecars| ensures IsArchived(root, sidecars[k]) {
        SidecarsAre(g, g.siblings, k);
        var i :| 0 <= i < |g.siblings| && sidecars[k].source == Path(g.source.folder, false, g.siblings[i]) &&
          var name := SidecarName(g.siblings[i], Stem(g.source.name), Stem(g.target.name));
          name.Some? && sidecars[k].target == Path(g.target.folder, false, name.value);
        SameStemKeepsName(g.siblings[i], Stem(g.source.name));
      }
      hide SidecarMappings;
      assert forall k :: 1 <= k <= |sidecars| ==> Mappings(g)[k] == sidecars[k - 1];
    }
  }

  /** What each mapping of a plan does: first the archiving, then what leaves the root. */
  lemma PlanShape(fs: Files, root: string, p: Plan)
    requires Placed(root, p) && PlanOnDisk(fs, p)
    ensures var ms, n := PlanMappings(p), |Archiving(p)|;
      && (forall k :: 0 <= k < n ==> IsArchived(root, ms[k]))
      && (forall k :: n <= k < |ms| ==> LeavesRoot(root, ms[k]))
      && AllExist(fs, ms) && DistinctSources(ms)
  {
    hide Mappings, IsArchived;
    ArchivingIsArchived(fs, root, p);
    GroupIsListed(fs, p.incoming);
    var a, b := Archiving(p), Mappings(p.incoming);
    assert forall k :: 0 <= k < |b| ==> PlanMappings(p)[|a| + k] == b[k];
    if p.incumbent.Some? {
      GroupIsListed(fs, p.incumbent.value);
      FoldersDiffer(root, p.incumbent.value.source.folder);
    }
  }

  /** The only occupied targets a plan can have are names its own incumbent has just left. */
  lemma PlanVacatesFirst(fs: Files, root: string, p: Plan)
    requires Placed(root, p) && PlanOnDisk(fs, p) && NoCollision(fs, PlanMappings(p))
    ensures VacatedFirst(fs, PlanMappings(p))
  {
    hide PlanMappings, Archiving, Placed, PlanOnDisk;
    PlanShape(fs, root, p);
    var ms, n := PlanMappings(p), |Archiving(p)|;
    forall i | 0 <= i < |ms| && ms[i].target in fs ensures ms[i].target in Origins(ms[..i]) {
      var k :| 0 <= k < |ms| && ms[k].source == ms[i].target;
      if i < n {
        FoldersDiffer(root, ms[i].source.folder);
      } else {
        assert ms[..i][k] == ms[k];
      }
    }
  }

  /** A plan that passes the collision check can be moved, whatever it replaces. */
  lemma CheckedPlanMoves(fs: Files, root: string, p: Plan)
    requires Placed(root, p) && PlanOnDisk(fs, p) && NoCollision(fs, PlanMappings(p))
    ensures AllMove(fs, PlanMappings(p))
  {
    hide AllMove, NoCollision, VacatedFirst, PlanMappings;
    PlanShape(fs, root, p);
    PlanVacatesFirst(fs, root, p);
    PlanMovesIffVacatedFirst(fs, PlanMappings(p));
  }

  // ---------- all plans of a run ----------

  function AllMappings(plans: seq<Plan>): seq<Mapping> {
    if plans == [] then []
    else AllMappings(plans[..|plans| - 1]) + PlanMappings(plans[|plans| - 1])
  }

  /** Every plan passed the check when it was made, and took no target of an earlier one. */
  ghost predicate Checked(fs: Files, plans: seq<Plan>) {
    && (forall i :: 0 <= i < |plans| ==> NoCollision(fs, PlanMappings(plans[i])))
    && (forall i :: 0 <= i < |plans| ==>
          Targets(PlanMappings(plans[i])) !! Targets(AllMappings(plans[..i])))
  }

  ghost predicate AllPlaced(fs: Files, root: string, plans: seq<Plan>) {
    forall i :: 0 <= i < |plans| ==> Placed(root, plans[i]) && PlanOnDisk(fs, plans[i])
  }

  lemma TargetsConcat(a: seq<Mapping>, b: seq<Mapping>)
    ensures Targets(a + b) == Targets(a) + Targets(b) && Origins(a + b) == Origins(a) + Origins(b)
  {
    forall p ensures p in Targets(a + b) <==> p in Targets(a) + Targets(b) {
      if p in Targets(a) { var i :| 0 <= i < |a| && a[i].target == p; assert (a + b)[i].target == p; }
      if p in Targets(b) { var i :| 0 <= i < |b| && b[i].target == p; assert (a + b)[|a| + i].target == p; }
    }
    forall p ensures p in Origins(a + b) <==> p in Origins(a) + Origins(b) {
      if p in Origins(a) { var i :| 0 <= i < |a| && a[i].source == p; assert (a + b)[i].source == p; }
      if p in Origins(b) { var i :| 0 <= i < |b| && b[i].source == p; assert (a + b)[|a| + i].source == p; }
    }
  }

  lemma NoCollisionConcat(fs: Files, a: seq<Mapping>, b: seq<Mapping>)
    requires NoCollision(fs, a) && NoCollision(fs, b) && Targets(b) !! Targets(a)
    ensures NoCollision(fs, a + b)
  {
    TargetsConcat(a, b);
    var ms := a + b;
    forall i, j | 0 <= i < j < |ms| ensures ms[i].target != ms[j].target {
      if i < |a| <= j {
        assert ms[i].target in Targets(a) && ms[j] == b[j - |a|] && b[j - |a|].target in Targets(b);
      } else if i >= |a| {
        assert ms[i] == b[i - |a|] && ms[j] == b[j - |a|];
      }
    }
    assert forall i :: |a| <= i < |ms| ==> ms[i] == b[i - |a|];
  }

  lemma VacatedConcat(fs: Files, a: seq<Mapping>, b: seq<Mapping>)
    requires VacatedFirst(fs, a) && VacatedFirst(fs, b)
    ensures VacatedFirst(fs, a + b)
  {
    var ms := a + b;
    forall i | 0 <= i < |ms| && ms[i].target in fs ensures ms[i].target in Origins(ms[..i]) {
      if i < |a| {
        assert ms[..i] == a[..i];
      } else {
        assert ms[..i] == a + b[..i - |a|] && ms[i] == b[i - |a|];
        TargetsConcat(a, b[..i - |a|]);
      }
    }
  }

  /** Every mapping of a run archives a file or takes one out of the library root. */
  predicate RunShape(root: string, ms: seq<Mapping>) {
    forall k :: 0 <= k < |ms| ==> IsArchived(root, ms[k]) || LeavesRoot(root, ms[k])
  }

  lemma {:induction false} CheckedRun(fs: Files, root: string, plans: seq<Plan>)
    requires AllPlaced(fs, root, plans) && Checked(fs, plans)
    ensures var ms := AllMappings(plans);
      NoCollision(fs, ms) && VacatedFirst(fs, ms) && AllExist(fs, ms) && RunShape(root, ms)
    decreases |plans|
  {
    hide NoCollision, VacatedFirst, IsArchived, LeavesRoot, PlanMappings, Placed, PlanOnDisk, Targets, Origins;
    if plans == [] {
      EmptyRun(fs);
    } else {
      var n := |plans| - 1;
      assert plans[..n][..n] == plans[..n];
      assert forall i :: 0 <= i < n ==> plans[..n][..i] == plans[..i];
      CheckedRun(fs, root, plans[..n]);
      PlanShape(fs, root, plans[n]);
      PlanVacatesFirst(fs, root, plans[n]);
      NoCollisionConcat(fs, AllMappings(plans[..n]), PlanMappings(plans[n]));
      VacatedConcat(fs, AllMappings(plans[..n]), PlanMappings(plans[n]));
      var a, b, ms := AllMappings(plans[..n]), PlanMappings(plans[n]), AllMappings(plans);
      assert forall k :: |a| <= k < |ms| ==> ms[k] == b[k - |a|];
    }
  }

  lemma EmptyRun(fs: Files)
    ensures NoCollision(fs, []) && VacatedFirst(fs, [])
  {
  }

  /** A file that was moved away is not there again unless something is moved to its name. */
  lemma {:induction false} GoneStaysGone(fs: Files, ms: seq<Mapping>, i: nat, j: nat)
    requires i < j <= |ms| && AllMove(fs, ms[..j]) && ms[i].source !in Targets(ms)
    ensures ms[i].source !in MoveAll(fs, ms[..j])
    decreases j
  {
    var done, m := ms[..j - 1], ms[j - 1];
    assert ms[..j] == done + [m];
    AllMovePrefix(fs, done, m);
    MoveAllSnoc(fs, done, m);
    assert m.target in Targets(ms);
    if i < j - 1 {
      GoneStaysGone(fs, ms, i, j - 1);
    }
  }

  /** Nothing is moved to a name in the library root. */
  lemma RootIsNoTarget(root: string, ms: seq<Mapping>, p: Path)
    requires RunShape(root, ms) && p.folder == root
    ensures p !in Targets(ms)
  {
    forall k | 0 <= k < |ms| ensures ms[k].target != p {
      if IsArchived(root, ms[k]) { FoldersDiffer(root, ms[k].source.folder); }
    }
  }

  /** The archive has one place for each file, so only a file of the root can be taken twice. */
  lemma TakenTwiceIsInRoot(fs: Files, root: string, ms: seq<Mapping>, i: nat, j: nat)
    requires RunShape(root, ms) && NoCollision(fs, ms) && i < j < |ms| && ms[i].source == ms[j].source
    ensures ms[i].source.folder == root
  {
    assert ms[i].target != ms[j].target;
  }

  /** And such a file is missing when the second plan comes. */
  lemma TakenTwiceFails(fs: Files, root: string, ms: seq<Mapping>, i: nat, j: nat)
    requires RunShape(root, ms) && NoCollision(fs, ms) && i < j < |ms| && ms[i].source == ms[j].source
    ensures !AllMove(fs, ms)
  {
    hide RunShape, NoCollision, AllMove, MoveAll, Targets;
    TakenTwiceIsInRoot(fs, root, ms, i, j);
    RootIsNoTarget(root, ms, ms[i].source);
    if AllMove(fs, ms) {
      assert ms == ms[..j + 1] + ms[j + 1..];
      MovesBefore(fs, ms[..j + 1], ms[j + 1..]);
      assert ms[..j + 1] == ms[..j] + [ms[j]];
      AllMovePrefix(fs, ms[..j], ms[j]);
      MoveAllSnoc(fs, ms[..j], ms[j]);
      GoneStaysGone(fs, ms, i, j);
    }
  }

  /** A whole run of checked plans can be moved, short of failing calls, if and only if no two
      of them take the same file. */
  lemma CheckedRunMovesIff(fs: Files, root: string, plans: seq<Plan>)
    requires AllPlaced(fs, root, plans) && Checked(fs, plans)
    ensures AllMove(fs, AllMappings(plans)) <==> DistinctSources(AllMappings(plans))
  {
    hide AllMove, NoCollision, VacatedFirst, Checked, AllPlaced, RunShape, AllMappings;
    var ms := AllMappings(plans);
    CheckedRun(fs, root, plans);
    if DistinctSources(ms) {
      PlanMovesIffVacatedFirst(fs, ms);
    } else {
      var i, j :| 0 <= i < j < |ms| && ms[i].source == ms[j].source;
      TakenTwiceFails(fs, root, ms, i, j);
    }
  }

  // ---------- the planner's loop ----------

  /** A candidate is kept when it has no collision and takes no target of a kept one. */
  predicate Acceptable(fs: Files, kept: seq<Plan>, p: Plan) {
    NoCollision(fs, PlanMappings(p)) && Targets(PlanMappings(p)) !! Targets(AllMappings(kept))
  }

  function KeptOf(fs: Files, candidates: seq<Plan>): seq<Plan> {
    if candidates == [] then []
    else
      var n := |candidates| - 1;
      var kept := KeptOf(fs, candidates[..n]);
      if Acceptable(fs, kept, candidates[n]) then kept + [candidates[n]] else kept
  }

  lemma {:induction false} KeptAreChecked(fs: Files, candidates: seq<Plan>)
    ensures Checked(fs, KeptOf(fs, candidates))
    decreases |candidates|
  {
    hide NoCollision, Targets, PlanMappings, AllMappings;
    if candidates != [] {
      var n := |candidates| - 1;
      KeptAreChecked(fs, candidates[..n]);
      var kept, all := KeptOf(fs, candidates[..n]), KeptOf(fs, candidates);
      assert forall i :: 0 <= i < |kept| ==> (kept + [candidates[n]])[..i] == kept[..i];
      assert (kept + [candidates[n]])[..|kept|] == kept;
    }
  }

  /** The name a candidate's mapping gives is taken: by a file that the candidate does not move
      itself, by another of its mappings, or by a mapping of a kept plan. */
  ghost predicate NameTaken(fs: Files, kept: seq<Plan>, ms: seq<Mapping>, i: nat)
    requires i < |ms|
  {
    || (ms[i].target in fs && forall j :: 0 <= j < |ms| ==> ms[j].source != ms[i].target)
    || (exists j :: 0 <= j < |ms| && j != i && ms[j].target == ms[i].target)
    || (exists k, j :: 0 <= k < |kept| && 0 <= j < |PlanMappings(kept[k])| &&
                       PlanMappings(kept[k])[j].target == ms[i].target)
  }

  /** The next candidate is left out exactly when one of its names is taken. */
  lemma KeptStep(fs: Files, candidates: seq<Plan>, p: Plan)
    ensures KeptOf(fs, []) == []
    ensures var kept, ms := KeptOf(fs, candidates), PlanMappings(p);
      KeptOf(fs, candidates + [p]) ==
      if exists i: nat :: i < |ms| && NameTaken(fs, kept, ms, i) then kept else kept + [p]
  {
    hide PlanMappings;
    assert (candidates + [p])[..|candidates|] == candidates;
    var kept, ms := KeptOf(fs, candidates), PlanMappings(p);
    forall path ensures path in Targets(AllMappings(kept)) <==>
      exists k, j :: 0 <= k < |kept| && 0 <= j < |PlanMappings(kept[k])| && PlanMappings(kept[k])[j].target == path
    {
      TargetsOfAll(kept, path);
    }
    hide KeptOf, AllMappings;
    assert Acceptable(fs, kept, p) <==> !exists i: nat :: i < |ms| && NameTaken(fs, kept, ms, i) by {
      if !Acceptable(fs, kept, p) {
        RejectedIsTaken(fs, kept, p);
      }
      if i: nat :| i < |ms| && NameTaken(fs, kept, ms, i) {
        assert ms[i].target in Targets(ms);
      }
    }
  }

  lemma RejectedIsTaken(fs: Files, kept: seq<Plan>, p: Plan)
    requires !Acceptable(fs, kept, p)
    requires forall path :: path in Targets(AllMappings(kept)) ==>
      exists k, j :: 0 <= k < |kept| && 0 <= j < |PlanMappings(kept[k])| && PlanMappings(kept[k])[j].target == path
    ensures var ms := PlanMappings(p); exists i: nat :: i < |ms| && NameTaken(fs, kept, ms, i)
  {
    hide PlanMappings, AllMappings;
    var ms := PlanMappings(p);
    if !NoCollision(fs, ms) {
      if i, j :| 0 <= i < j < |ms| && ms[i].target == ms[j].target {
        assert NameTaken(fs, kept, ms, i);
      } else {
        var i :| 0 <= i < |ms| && ms[i].target in fs && ms[i].target !in Origins(ms);
        assert NameTaken(fs, kept, ms, i);
      }
    } else {
      var path :| path in Targets(ms) && path in Targets(AllMappings(kept));
      var i :| 0 <= i < |ms| && ms[i].target == path;
      assert NameTaken(fs, kept, ms, i);
    }
  }

  lemma {:induction false} TargetsOfAll(plans: seq<Plan>, path: Path)
    ensures path in Targets(AllMappings(plans)) <==>
      exists k, j :: 0 <= k < |plans| && 0 <= j < |PlanMappings(plans[k])| && PlanMappings(plans[k])[j].target == path
    decreases |plans|
  {
    hide PlanMappings;
    if plans == [] {
      NoTargets();
    } else {
      var n := |plans| - 1;
      var a, b := AllMappings(plans[..n]), PlanMappings(plans[n]);
      TargetsOfAll(plans[..n], path);
      TargetsConcat(a, b);
      hide AllMappings;
      if path in Targets(b) {
        var j :| 0 <= j < |b| && b[j].target == path;
      }
      if path in Targets(a) {
        var k, j :| 0 <= k < n && 0 <= j < |PlanMappings(plans[..n][k])| &&
          PlanMappings(plans[..n][k])[j].target == path;
        assert plans[k] == plans[..n][k];
      }
      if k, j :| 0 <= k < |plans| && 0 <= j < |PlanMappings(plans[k])| && PlanMappings(plans[k])[j].target == path {
        assert k < n ==> plans[..n][k] == plans[k];
      }
    }
  }

  /** The planner's checks, with the targets reserved so far. */
  method KeepPlans(fs: Files, candidates: seq<Plan>) returns (plans: seq<Plan>)
    ensures plans == KeptOf(fs, candidates) && Checked(fs, plans)
  {
    hide NoCollision, Targets, PlanMappings, Checked;
    plans := [];
    var reserved: set<Path> := {};
    NoTargets();
    assert candidates[..0] == [];
    for i := 0 to |candidates|
      invariant plans == KeptOf(fs, candidates[..i])
      invariant reserved == Targets(AllMappings(plans))
    {
      assert candidates[..i + 1][..i] == candidates[..i];
      var mappings := PlanMappings(candidates[i]);
      var collision := MappingCollision(fs, mappings);
      if collision.Some? || !(Targets(mappings) !! reserved) {
        continue;
      }
      TargetsConcat(AllMappings(plans), mappings);
      assert (plans + [candidates[i]])[..|plans|] == plans;
      reserved := reserved + Targets(mappings);
      plans := plans + [candidates[i]];
    }
    assert candidates[..|candidates|] == candidates;
    KeptAreChecked(fs, candidates);
  }

  lemma NoTargets()
    ensures Targets([]) == {}
  {
  }

  // ---------- two plans that take the same file ----------

  const SHARED := "a.b.srt"

  /** Two new videos of which one's name begins the other's, with one subtitle file. */
  function FirstOfTwo(): Plan {
    Plan(None, Group(Path("/m", false, "a.mkv"), Path("/m/c", false, "x.mkv"), [SHARED], false))
  }

  function SecondOfTwo(): Plan {
    Plan(None, Group(Path("/m", false, "a.b.mkv"), Path("/m/c", false, "y.mkv"), [SHARED], false))
  }

  function TwoVideos(): Files {
    map[Path("/m", false, "a.mkv") := "1", Path("/m", false, "a.b.mkv") := "2", Path("/m", false, SHARED) := "3"]
  }

  function FirstMappings(): seq<Mapping> {
    [Mapping(Path("/m", false, "a.mkv"), Path("/m/c", false, "x.mkv")),
     Mapping(Path("/m", false, SHARED), Path("/m/c", false, "x.b.srt"))]
  }

  function SecondMappings(): seq<Mapping> {
    [Mapping(Path("/m", false, "a.b.mkv"), Path("/m/c", false, "y.mkv")),
     Mapping(Path("/m", false, SHARED), Path("/m/c", false, "y.srt"))]
  }

  lemma FirstMappingsAre()
    ensures PlanMappings(FirstOfTwo()) == FirstMappings()
  {
    LastDotIs("a.mkv", 1);
    LastDotIs("x.mkv", 1);
    assert Stem("a.mkv") == "a" && Stem("x.mkv") == "x";
    hide Stem, LastDot;
    assert "a" + "." == SHARED[..2] && SHARED[1..] == ".b.srt" && "x" + ".b.srt" == "x.b.srt";
    assert SidecarName(SHARED, "a", "x") == Some("x.b.srt");
    hide SidecarName;
    OneSidecar(FirstOfTwo().incoming, SHARED);
  }

  lemma SecondMappingsAre()
    ensures PlanMappings(SecondOfTwo()) == SecondMappings()
  {
    LastDotIs("a.b.mkv", 3);
    LastDotIs("y.mkv", 1);
    assert Stem("a.b.mkv") == "a.b" && Stem("y.mkv") == "y";
    hide Stem, LastDot;
    assert "a.b" + "." == SHARED[..4] && SHARED[3..] == ".srt" && "y" + ".srt" == "y.srt";
    assert SidecarName(SHARED, "a.b", "y") == Some("y.srt");
    hide SidecarName;
    OneSidecar(SecondOfTwo().incoming, SHARED);
  }

  lemma OneSidecar(g: Group, sibling: string)
    requires SidecarName(sibling, Stem(g.source.name), Stem(g.target.name)).Some?
    ensures var name := SidecarName(sibling, Stem(g.source.name), Stem(g.target.name)).value;
      SidecarMappings(g, [sibling]) ==
      [Mapping(Path(g.source.folder, false, sibling), Path(g.target.folder, false, name))]
  {
    assert [sibling][1..] == [];
  }

  lemma TwoHaveNoCollision()
    ensures NoCollision(TwoVideos(), FirstMappings()) && NoCollision(TwoVideos(), SecondMappings())
  {
    hide Targets, Origins;
    assert |"x.mkv"| != |"x.b.srt"| && "y.mkv"[2] != "y.srt"[2];
    assert |"/m"| != |"/m/c"|;
    assert forall p :: p in TwoVideos() ==> p.folder == "/m";
  }

  lemma TwoTargetsDiffer()
    ensures Targets(SecondMappings()) !! Targets(FirstMappings())
  {
    var a, b := FirstMappings(), SecondMappings();
    assert forall i :: 0 <= i < 2 ==> a[i].target.name[0] == 'x' && b[i].target.name[0] == 'y';
    assert |a| == 2 && |b| == 2;
    hide FirstMappings, SecondMappings, Targets;
  }

  lemma TwoPlansAreChecked()
    ensures var plans := [FirstOfTwo(), SecondOfTwo()];
      Checked(TwoVideos(), plans) && AllMappings(plans) == FirstMappings() + SecondMappings()
  {
    FirstMappingsAre();
    SecondMappingsAre();
    TwoHaveNoCollision();
    TwoTargetsDiffer();
    NoTargets();
    hide PlanMappings, NoCollision, Targets, FirstOfTwo, SecondOfTwo, TwoVideos, FirstMappings, SecondMappings;
    var plans := [FirstOfTwo(), SecondOfTwo()];
    assert plans[..0] == [] && plans[..1] == [FirstOfTwo()] && plans[..1][..0] == [];
    assert AllMappings(plans[..0]) == [] && AllMappings(plans[..1]) == [] + FirstMappings();
    assert [] + FirstMappings() == FirstMappings();
    forall i | 0 <= i < |plans|
      ensures NoCollision(TwoVideos(), PlanMappings(plans[i]))
      ensures Targets(PlanMappings(plans[i])) !! Targets(AllMappings(plans[..i]))
    {
      assert i == 0 || i == 1;
    }
  }

  lemma TwoPlansArePlaced()
    ensures AllPlaced(TwoVideos(), "/m", [FirstOfTwo(), SecondOfTwo()])
  {
    assert |"/m"| != |"/m/c"|;
    assert |"a.mkv"| != |SHARED| && "a.b.mkv"[4] != SHARED[4];
  }

  /** Each passes every check the planner makes, and together they cannot be moved: the second
      plan does not find the subtitle file, and the whole intake is rolled back. */
  lemma SharedCompanionStopsTheRun()
    ensures var fs, plans := TwoVideos(), [FirstOfTwo(), SecondOfTwo()];
      AllPlaced(fs, "/m", plans) && Checked(fs, plans) && !AllMove(fs, AllMappings(plans))
  {
    var fs, plans := TwoVideos(), [FirstOfTwo(), SecondOfTwo()];
    TwoPlansArePlaced();
    TwoPlansAreChecked();
    hide AllPlaced, Checked, AllMappings;
    var ms := AllMappings(plans);
    assert ms[1].source == ms[3].source;
    CheckedRunMovesIff(fs, "/m", plans);
  }
}
