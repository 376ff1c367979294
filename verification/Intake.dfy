/** Moving intake files into the library: all moves or none, never over an existing file. */
module Intake {
  import opened Text

  /** A path by its media folder: directly in it, or in the preview container inside it. */
  datatype Path = Path(folder: string, preview: bool, name: string)

  type Files = map<Path, string>

  datatype Mapping = Mapping(source: Path, target: Path)

  /** An atomic rename that refuses to replace; anything else that fails leaves no trace. */
  predicate CanMove(fs: Files, m: Mapping) {
    m.source in fs && m.target !in fs
  }

  function Move(fs: Files, m: Mapping): Files
    requires CanMove(fs, m)
  {
    (fs - {m.source})[m.target := fs[m.source]]
  }

  function Undo(m: Mapping): Mapping {
    Mapping(m.target, m.source)
  }

  /** Moves in order, as far as they go. */
  predicate AllMove(fs: Files, ms: seq<Mapping>)
    decreases |ms|
  {
    ms == [] || (CanMove(fs, ms[0]) && AllMove(Move(fs, ms[0]), ms[1..]))
  }

  function MoveAll(fs: Files, ms: seq<Mapping>): Files
    requires AllMove(fs, ms)
    decreases |ms|
  {
    if ms == [] then fs else MoveAll(Move(fs, ms[0]), ms[1..])
  }

  function Undone(ms: seq<Mapping>): (r: seq<Mapping>)
    ensures |r| == |ms|
  {
    if ms == [] then [] else Undone(ms[1..]) + [Undo(ms[0])]
  }

  // ---------- one move and back ----------

  lemma MoveAndBack(fs: Files, m: Mapping)
    requires CanMove(fs, m)
    ensures CanMove(Move(fs, m), Undo(m)) && Move(Move(fs, m), Undo(m)) == fs
  {
  }

  lemma {:induction false} MoveAllConcat(fs: Files, a: seq<Mapping>, b: seq<Mapping>)
    requires AllMove(fs, a)
    ensures AllMove(fs, a + b) <==> AllMove(MoveAll(fs, a), b)
    ensures AllMove(fs, a + b) ==> MoveAll(fs, a + b) == MoveAll(MoveAll(fs, a), b)
    decreases |a|
  {
    if a == [] {
      assert a + b == b;
    } else {
      MoveAllConcat(Move(fs, a[0]), a[1..], b);
      assert (a + b)[1..] == a[1..] + b;
    }
  }

  lemma MoveAllSnoc(fs: Files, a: seq<Mapping>, m: Mapping)
    requires AllMove(fs, a)
    ensures AllMove(fs, a + [m]) <==> CanMove(MoveAll(fs, a), m)
    ensures CanMove(MoveAll(fs, a), m) ==> MoveAll(fs, a + [m]) == Move(MoveAll(fs, a), m)
  {
    MoveAllConcat(fs, a, [m]);
    assert [m][1..] == [];
  }

  /** Undoing completed moves in reverse order always succeeds and restores every path. */
  lemma {:induction false} RollbackRestores(fs: Files, ms: seq<Mapping>)
    requires AllMove(fs, ms)
    ensures AllMove(MoveAll(fs, ms), Undone(ms)) && MoveAll(MoveAll(fs, ms), Undone(ms)) == fs
    decreases |ms|
  {
    if ms != [] {
      var next := Move(fs, ms[0]);
      RollbackRestores(next, ms[1..]);
      MoveAndBack(fs, ms[0]);
      MoveAllSnoc(MoveAll(next, ms[1..]), Undone(ms[1..]), Undo(ms[0]));
    }
  }

  // ---------- where every file ends up ----------

  function FollowOne(p: Path, m: Mapping): Path {
    if p == m.source then m.target else p
  }

  function Follow(p: Path, ms: seq<Mapping>): Path
    decreases |ms|
  {
    if ms == [] then p else Follow(FollowOne(p, ms[0]), ms[1..])
  }

  /** Contents travel with the name. */
  lemma {:induction false} ContentsSurvive(fs: Files, ms: seq<Mapping>, p: Path)
    requires AllMove(fs, ms) && p in fs
    ensures Follow(p, ms) in MoveAll(fs, ms) && MoveAll(fs, ms)[Follow(p, ms)] == fs[p]
    decreases |ms|
  {
    if ms != [] {
      ContentsSurvive(Move(fs, ms[0]), ms[1..], FollowOne(p, ms[0]));
    }
  }

  /** Two files never end up under one name. */
  lemma {:induction false} NamesStayApart(fs: Files, ms: seq<Mapping>, p: Path, q: Path)
    requires AllMove(fs, ms) && p in fs && q in fs && p != q
    ensures Follow(p, ms) != Follow(q, ms)
    decreases |ms|
  {
    if ms != [] {
      NamesStayApart(Move(fs, ms[0]), ms[1..], FollowOne(p, ms[0]), FollowOne(q, ms[0]));
    }
  }

  /** Every file found afterwards was there before. */
  lemma {:induction false} NothingAppears(fs: Files, ms: seq<Mapping>, r: Path) returns (p: Path)
    requires AllMove(fs, ms) && r in MoveAll(fs, ms)
    ensures p in fs && Follow(p, ms) == r
    decreases |ms|
  {
    if ms == [] {
      p := r;
    } else {
      var q := NothingAppears(Move(fs, ms[0]), ms[1..], r);
      p := if q == ms[0].target then ms[0].source else q;
    }
  }

  /** The moves rename the files one-to-one: every file survives under exactly one name with its
      contents, nothing is overwritten and nothing appears. */
  ghost predicate Renames(fs: Files, ms: seq<Mapping>, after: Files) {
    && (forall p :: p in fs ==> Follow(p, ms) in after && after[Follow(p, ms)] == fs[p])
    && (forall p, q :: p in fs && q in fs && p != q ==> Follow(p, ms) != Follow(q, ms))
    && (forall r :: r in after ==> exists p :: p in fs && Follow(p, ms) == r)
  }

  /** Some sequence of moves leads from one state to the other, so no file was lost or doubled. */
  ghost predicate SomeRenaming(fs: Files, after: Files) {
    exists ms :: AllMove(fs, ms) && Renames(fs, ms, after)
  }

  lemma MovesRename(fs: Files, ms: seq<Mapping>)
    requires AllMove(fs, ms)
    ensures Renames(fs, ms, MoveAll(fs, ms))
  {
    forall p | p in fs ensures Follow(p, ms) in MoveAll(fs, ms) && MoveAll(fs, ms)[Follow(p, ms)] == fs[p] {
      ContentsSurvive(fs, ms, p);
    }
    forall p, q | p in fs && q in fs && p != q ensures Follow(p, ms) != Follow(q, ms) {
      NamesStayApart(fs, ms, p, q);
    }
    forall r | r in MoveAll(fs, ms) ensures exists p :: p in fs && Follow(p, ms) == r {
      var p := NothingAppears(fs, ms, r);
    }
  }

  // ---------- the planner's collision check ----------

  function Origins(ms: seq<Mapping>): (r: set<Path>)
    ensures forall p :: p in r <==> exists i :: 0 <= i < |ms| && ms[i].source == p
  {
    set i | 0 <= i < |ms| :: ms[i].source
  }

  function Targets(ms: seq<Mapping>): (r: set<Path>)
    ensures forall p :: p in r <==> exists i :: 0 <= i < |ms| && ms[i].target == p
  {
    set i | 0 <= i < |ms| :: ms[i].target
  }

  /** `_mapping_collision` finds nothing: no target twice, and no target on an existing path
      that is not itself being moved. */
  predicate NoCollision(fs: Files, ms: seq<Mapping>) {
    && (forall i, j :: 0 <= i < j < |ms| ==> ms[i].target != ms[j].target)
    && (forall i :: 0 <= i < |ms| ==> ms[i].target !in fs || ms[i].target in Origins(ms))
  }

  predicate Collides(fs: Files, ms: seq<Mapping>, i: nat)
    requires i < |ms|
  {
    ms[i].target in Targets(ms[..i]) || (ms[i].target in fs && ms[i].target !in Origins(ms))
  }

  lemma TargetTwice(ms: seq<Mapping>, i: nat)
    requires i < |ms|
    ensures ms[i].target in Targets(ms[..i]) <==> exists j :: 0 <= j < i && ms[j].target == ms[i].target
  {
    forall j | 0 <= j < i ensures ms[j].target in Targets(ms[..i]) {
      assert ms[..i][j] == ms[j];
    }
    if ms[i].target in Targets(ms[..i]) {
      var j :| 0 <= j < i && ms[..i][j].target == ms[i].target;
      assert ms[j].target == ms[i].target;
    }
  }

  method MappingCollision(fs: Files, ms: seq<Mapping>) returns (collision: Option<Path>)
    ensures collision.None? <==> NoCollision(fs, ms)
    ensures collision.Some? ==>
      exists i :: 0 <= i < |ms| && ms[i].target == collision.value && Collides(fs, ms, i)
  {
    hide Targets;
    var origins := Origins(ms);
    var seen: set<Path> := {};
    assert ms[..0] == [];
    for i := 0 to |ms|
      invariant seen == Targets(ms[..i])
      invariant forall j, k :: 0 <= j < k < i ==> ms[j].target != ms[k].target
      invariant forall j :: 0 <= j < i ==> ms[j].target !in fs || ms[j].target in origins
    {
      var target := ms[i].target;
      if target in seen || (target in fs && target !in origins) {
        TargetTwice(ms, i);
        return Some(target);
      }
      TargetTwice(ms, i);
      assert ms[..i + 1] == ms[..i] + [ms[i]];
      OneMore(ms[..i], ms[i]);
      seen := seen + {target};
    }
    return None;
  }

  /** Sources exist and are moved once each, as the planner lists them. */
  predicate Listed(fs: Files, ms: seq<Mapping>) {
    && (forall i :: 0 <= i < |ms| ==> ms[i].source in fs)
    && (forall i, j :: 0 <= i < j < |ms| ==> ms[i].source != ms[j].source)
  }

  /** Every target is free, or is vacated by an earlier move. */
  predicate VacatedFirst(fs: Files, ms: seq<Mapping>) {
    forall i :: 0 <= i < |ms| && ms[i].target in fs ==> ms[i].target in Origins(ms[..i])
  }

  /** Nothing is moved away from where an earlier move has put it. */
  lemma SourceIsNoTarget(fs: Files, ms: seq<Mapping>, n: nat)
    requires n < |ms| && Listed(fs, ms) && VacatedFirst(fs, ms[..n])
    ensures ms[n].source !in Targets(ms[..n]) && ms[n].source !in Origins(ms[..n])
  {
    assert forall j :: 0 <= j < n ==> ms[..n][..j] == ms[..j];
  }

  lemma TargetsDiffer(fs: Files, ms: seq<Mapping>, n: nat)
    requires n < |ms| && NoCollision(fs, ms)
    ensures ms[n].target !in Targets(ms[..n])
  {
  }

  lemma VacatedPrefix(fs: Files, ms: seq<Mapping>, n: nat)
    requires n <= |ms| && VacatedFirst(fs, ms)
    ensures VacatedFirst(fs, ms[..n])
  {
    forall i | 0 <= i < n && ms[..n][i].target in fs ensures ms[..n][i].target in Origins(ms[..n][..i]) {
      assert ms[..n][..i] == ms[..i];
    }
  }

  /** Names after a run of moves: the old ones without the origins, and the targets. */
  lemma {:induction false} KeysAfter(fs: Files, ms: seq<Mapping>, n: nat)
    requires n <= |ms| && Listed(fs, ms) && NoCollision(fs, ms)
    requires AllMove(fs, ms[..n]) && VacatedFirst(fs, ms[..n])
    ensures MoveAll(fs, ms[..n]).Keys == fs.Keys - Origins(ms[..n]) + Targets(ms[..n])
    decreases n
  {
    hide AllMove, MoveAll, Listed, NoCollision, VacatedFirst, Origins, Targets;
    if n > 0 {
      var done, m := ms[..n - 1], ms[n - 1];
      assert ms[..n] == done + [m];
      assert ms[..n][..n - 1] == done;
      AllMovePrefix(fs, done, m);
      VacatedPrefix(fs, ms[..n], n - 1);
      KeysAfter(fs, ms, n - 1);
      MoveAllSnoc(fs, done, m);
      SourceIsNoTarget(fs, ms, n - 1);
      OneMore(done, m);
      var before := MoveAll(fs, done);
      assert Move(before, m).Keys == before.Keys - {m.source} + {m.target};
    } else {
      NoMoves(fs, ms[..0]);
    }
  }

  lemma NoMoves(fs: Files, ms: seq<Mapping>)
    requires ms == []
    ensures AllMove(fs, ms) && MoveAll(fs, ms) == fs && Origins(ms) == {} && Targets(ms) == {}
  {
  }

  lemma OneMore(done: seq<Mapping>, m: Mapping)
    ensures Origins(done + [m]) == Origins(done) + {m.source}
    ensures Targets(done + [m]) == Targets(done) + {m.target}
  {
    forall p ensures p in Origins(done + [m]) <==> p in Origins(done) + {m.source} {
      if p in Origins(done) {
        var i :| 0 <= i < |done| && done[i].source == p;
        assert (done + [m])[i].source == p;
      }
      assert (done + [m])[|done|].source == m.source;
    }
    forall p ensures p in Targets(done + [m]) <==> p in Targets(done) + {m.target} {
      if p in Targets(done) {
        var i :| 0 <= i < |done| && done[i].target == p;
        assert (done + [m])[i].target == p;
      }
      assert (done + [m])[|done|].target == m.target;
    }
  }

  lemma {:induction false} AllMovePrefix(fs: Files, a: seq<Mapping>, m: Mapping)
    requires AllMove(fs, a + [m])
    ensures AllMove(fs, a)
    decreases |a|
  {
    if a != [] {
      assert (a + [m])[1..] == a[1..] + [m];
      AllMovePrefix(Move(fs, a[0]), a[1..], m);
    }
  }

  lemma {:induction false} VacatedSuffices(fs: Files, ms: seq<Mapping>, n: nat)
    requires n <= |ms| && Listed(fs, ms) && NoCollision(fs, ms) && VacatedFirst(fs, ms)
    ensures AllMove(fs, ms[..n])
    decreases n
  {
    if n > 0 {
      VacatedSuffices(fs, ms, n - 1);
      VacatedPrefix(fs, ms, n - 1);
      KeysAfter(fs, ms, n - 1);
      SourceIsNoTarget(fs, ms, n - 1);
      TargetsDiffer(fs, ms, n - 1);
      assert ms[n - 1].source in fs && (ms[n - 1].target in fs ==> ms[n - 1].target in Origins(ms[..n - 1]));
      hide AllMove, MoveAll, Listed, NoCollision, VacatedFirst, Origins, Targets;
      assert ms[..n] == ms[..n - 1] + [ms[n - 1]];
      MoveAllSnoc(fs, ms[..n - 1], ms[n - 1]);
    }
  }

  lemma {:induction false} VacatedIsNeeded(fs: Files, ms: seq<Mapping>, n: nat)
    requires n <= |ms| && Listed(fs, ms) && NoCollision(fs, ms) && AllMove(fs, ms[..n])
    ensures VacatedFirst(fs, ms[..n])
    decreases n
  {
    if n > 0 {
      var done, m := ms[..n - 1], ms[n - 1];
      assert ms[..n] == done + [m];
      AllMovePrefix(fs, done, m);
      VacatedIsNeeded(fs, ms, n - 1);
      KeysAfter(fs, ms, n - 1);
      MoveAllSnoc(fs, done, m);
      forall i | 0 <= i < n && ms[..n][i].target in fs ensures ms[..n][i].target in Origins(ms[..n][..i]) {
        assert i < n - 1 ==> done[i].target in Origins(done[..i]);
        assert ms[..n][..i] == if i < n - 1 then done[..i] else done;
      }
    }
  }

  /** The collision check alone does not make a plan movable: it accepts targets that are origins,
      and such a plan goes through exactly when each of them is vacated by an earlier move. */
  lemma PlanMovesIffVacatedFirst(fs: Files, ms: seq<Mapping>)
    requires Listed(fs, ms) && NoCollision(fs, ms)
    ensures AllMove(fs, ms) <==> VacatedFirst(fs, ms)
  {
    assert ms[..|ms|] == ms;
    if VacatedFirst(fs, ms) {
      VacatedSuffices(fs, ms, |ms|);
    }
    if AllMove(fs, ms) {
      VacatedIsNeeded(fs, ms, |ms|);
    }
  }

  /** Exchanging two names would pass the collision check and could not be moved. */
  lemma SwapPassesTheCheckButFails(a: Path, b: Path)
    requires a != b
    ensures var fs, ms := map[a := "x", b := "y"], [Mapping(a, b), Mapping(b, a)];
      Listed(fs, ms) && NoCollision(fs, ms) && !AllMove(fs, ms)
  {
    var ms := [Mapping(a, b), Mapping(b, a)];
    assert ms[0].source in Origins(ms) && ms[1].source in Origins(ms);
  }

  // ---------- the program ----------

  datatype Outcome =
    | Moved
    | RolledBack(failed: nat)
    | NeedsManualRecovery(failed: nat, errors: seq<Mapping>)

  /** How a call that could move a file turns out: it works, it is refused without effect, or it
      moves the file and still reports a failure, as a privileged retry that times out may. */
  datatype Fate = Works | Refused | MovedButReported

  class FileSystem {
    var files: Files

    constructor (files: Files)
      ensures this.files == files
    {
      this.files := files;
    }

    method MoveWithoutOverwrite(m: Mapping, fate: Fate) returns (ok: bool)
      modifies this
      ensures ok <==> fate == Works && CanMove(old(files), m)
      ensures files == if fate != Refused && CanMove(old(files), m) then Move(old(files), m) else old(files)
    {
      if fate == Refused || m.source !in files || m.target in files {
        return false;
      }
      files := (files - {m.source})[m.target := files[m.source]];
      return fate == Works;
    }
  }

  /** Where undoing starts: the moves done so far, and perhaps one that was reported failed. */
  function After(fs: Files, done: seq<Mapping>, stray: Option<Mapping>): Files
    requires AllMove(fs, done) && (stray.Some? ==> CanMove(MoveAll(fs, done), stray.value))
  {
    match stray
    case Some(m) => Move(MoveAll(fs, done), m)
    case None => MoveAll(fs, done)
  }

  /** Undoing a move behind a stray one, where that is possible, leaves the stray one alone. */
  lemma StrayStays(fs: Files, u: Mapping, m: Mapping)
    requires CanMove(fs, u) && CanMove(Move(fs, u), m) && CanMove(Move(Move(fs, u), m), Undo(u))
    ensures CanMove(fs, m) && Move(Move(Move(fs, u), m), Undo(u)) == Move(fs, m)
  {
  }

  lemma UndoBehindStray(fs: Files, done: seq<Mapping>, u: Mapping, stray: Option<Mapping>)
    requires AllMove(fs, done + [u]) && (stray.Some? ==> CanMove(MoveAll(fs, done + [u]), stray.value))
    requires CanMove(After(fs, done + [u], stray), Undo(u))
    ensures AllMove(fs, done) && (stray.Some? ==> CanMove(MoveAll(fs, done), stray.value))
    ensures Move(After(fs, done + [u], stray), Undo(u)) == After(fs, done, stray)
  {
    AllMovePrefix(fs, done, u);
    MoveAllSnoc(fs, done, u);
    MoveAndBack(MoveAll(fs, done), u);
    if stray.Some? {
      StrayStays(MoveAll(fs, done), u, stray.value);
    }
  }

  /** Apply the mappings of all plans in order; on the first failure move everything back in
      reverse order. `fates(i)` and `undos(i)` say how the i-th move, and its undoing, turn out. */
  method ApplyIntake(fs: FileSystem, mappings: seq<Mapping>, fates: nat -> Fate, undos: nat -> Fate)
      returns (outcome: Outcome)
    modifies fs
    ensures outcome.Moved? <==>
      AllMove(old(fs.files), mappings) && forall i :: 0 <= i < |mappings| ==> fates(i) == Works
    ensures outcome.Moved? ==>
      fs.files == MoveAll(old(fs.files), mappings) && Renames(old(fs.files), mappings, fs.files)
    ensures outcome.RolledBack? ==> outcome.failed < |mappings|
    ensures outcome.RolledBack? ==>
      fs.files == RolledBackTo(old(fs.files), mappings, outcome.failed, fates(outcome.failed))
    ensures (forall i: nat :: undos(i) == Works && fates(i) != MovedButReported) ==>
      outcome.Moved? || (outcome.RolledBack? && fs.files == old(fs.files))
    ensures outcome.NeedsManualRecovery? ==> outcome.errors != []
    ensures SomeRenaming(old(fs.files), fs.files)
  {
    hide Renames;
    ghost var start := fs.files;
    assert mappings[..0] == [];
    for i := 0 to |mappings|
      invariant AllMove(start, mappings[..i]) && fs.files == MoveAll(start, mappings[..i])
      invariant forall k :: 0 <= k < i ==> fates(k) == Works
    {
      var m := mappings[i];
      assert mappings[..i + 1] == mappings[..i] + [m];
      MoveAllSnoc(start, mappings[..i], m);
      ghost var stray := if fates(i) == MovedButReported && CanMove(fs.files, m) then Some(m) else None;
      var ok := fs.MoveWithoutOverwrite(m, fates(i));
      if !ok {
        outcome := Rollback(fs, mappings, i, undos, start, stray);
        if AllMove(start, mappings) {
          assert mappings == mappings[..i + 1] + mappings[i + 1..];
          MovesBefore(start, mappings[..i + 1], mappings[i + 1..]);
        }
        return;
      }
    }
    assert mappings[..|mappings|] == mappings;
    MovesRename(start, mappings);
    return Moved;
  }

  /** The initial files, except for a file whose move took effect and was reported failed. */
  function RolledBackTo(fs: Files, ms: seq<Mapping>, failed: nat, fate: Fate): Files
    requires failed < |ms|
  {
    if fate == MovedButReported && AllMove(fs, ms[..failed + 1]) && CanMove(fs, ms[failed])
    then Move(fs, ms[failed]) else fs
  }

  lemma {:induction false} MovesBefore(fs: Files, a: seq<Mapping>, b: seq<Mapping>)
    requires AllMove(fs, a + b)
    ensures AllMove(fs, a)
    decreases |a|
  {
    if a != [] {
      assert (a + b)[1..] == a[1..] + b;
      MovesBefore(Move(fs, a[0]), a[1..], b);
    }
  }

  /** Undo the first `failed` moves in reverse order, skipping those that cannot be undone. */
  method Rollback(fs: FileSystem, mappings: seq<Mapping>, failed: nat, undos: nat -> Fate, ghost start: Files,
                  ghost stray: Option<Mapping>)
      returns (outcome: Outcome)
    requires failed <= |mappings| && AllMove(start, mappings[..failed])
    requires stray.Some? ==> CanMove(MoveAll(start, mappings[..failed]), stray.value)
    requires fs.files == After(start, mappings[..failed], stray)
    modifies fs
    ensures outcome.RolledBack? ==> outcome.failed == failed && (stray.Some? ==> CanMove(start, stray.value))
    ensures outcome.RolledBack? ==> fs.files == After(start, [], stray)
    ensures !outcome.Moved? && (outcome.NeedsManualRecovery? ==> outcome.errors != [])
    ensures (forall i: nat :: undos(i) == Works) && stray.None? ==> outcome.RolledBack?
    ensures SomeRenaming(start, fs.files)
  {
    hide Renames, AllMove, MoveAll, After, CanMove, Move, SomeRenaming, Undo;
    var errors: seq<Mapping> := [];
    ghost var done := mappings[..failed] + if stray.Some? then [stray.value] else [];
    DoneSoFar(start, mappings[..failed], stray);
    var i := failed;
    while i > 0
      invariant i <= failed
      invariant AllMove(start, mappings[..i])
      invariant errors == [] ==> stray.Some? ==> CanMove(MoveAll(start, mappings[..i]), stray.value)
      invariant errors == [] ==> fs.files == After(start, mappings[..i], stray)
      invariant (forall k: nat :: undos(k) == Works) && stray.None? ==> errors == []
      invariant AllMove(start, done) && fs.files == MoveAll(start, done)
    {
      i := i - 1;
      var m := mappings[i];
      assert mappings[..i + 1] == mappings[..i] + [m];
      UndoOne(start, mappings[..i], m, stray, done, fs.files, errors == []);
      ghost var moves := undos(i) != Refused && CanMove(fs.files, Undo(m));
      var ok := fs.MoveWithoutOverwrite(Undo(m), undos(i));
      done := if moves then done + [Undo(m)] else done;
      if !ok {
        errors := errors + [Undo(m)];
      }
    }
    assert mappings[..0] == [];
    DoneIsRenaming(start, done, fs.files);
    NothingLeftToUndo(start);
    outcome := if errors == [] then RolledBack(failed) else NeedsManualRecovery(failed, errors);
  }

  /** One undoing: it is possible while nothing has gone wrong, and then takes one move back. */
  lemma UndoOne(start: Files, prefix: seq<Mapping>, m: Mapping, stray: Option<Mapping>, done: seq<Mapping>,
                files: Files, clean: bool)
    requires AllMove(start, prefix + [m]) && AllMove(start, done) && files == MoveAll(start, done)
    requires clean ==> stray.Some? ==> CanMove(MoveAll(start, prefix + [m]), stray.value)
    requires clean ==> files == After(start, prefix + [m], stray)
    ensures AllMove(start, prefix)
    ensures clean && stray.None? ==> CanMove(files, Undo(m))
    ensures clean && CanMove(files, Undo(m)) ==> stray.Some? ==> CanMove(MoveAll(start, prefix), stray.value)
    ensures clean && CanMove(files, Undo(m)) ==> Move(files, Undo(m)) == After(start, prefix, stray)
    ensures CanMove(files, Undo(m)) ==>
      AllMove(start, done + [Undo(m)]) && MoveAll(start, done + [Undo(m)]) == Move(files, Undo(m))
  {
    AllMovePrefix(start, prefix, m);
    MoveAllSnoc(start, prefix, m);
    MoveAndBack(MoveAll(start, prefix), m);
    MoveAllSnoc(start, done, Undo(m));
    if clean && CanMove(files, Undo(m)) {
      UndoBehindStray(start, prefix, m, stray);
    }
  }

  lemma DoneIsRenaming(start: Files, done: seq<Mapping>, files: Files)
    requires AllMove(start, done) && files == MoveAll(start, done)
    ensures SomeRenaming(start, files)
  {
    MovesRename(start, done);
  }

  lemma NothingLeftToUndo(start: Files)
    ensures AllMove(start, []) && MoveAll(start, []) == start
  {
  }

  lemma DoneSoFar(fs: Files, done: seq<Mapping>, stray: Option<Mapping>)
    requires AllMove(fs, done) && (stray.Some? ==> CanMove(MoveAll(fs, done), stray.value))
    ensures var all := done + if stray.Some? then [stray.value] else [];
      AllMove(fs, all) && MoveAll(fs, all) == After(fs, done, stray)
  {
    if stray.Some? {
      MoveAllSnoc(fs, done, stray.value);
    } else {
      assert done + [] == done;
    }
  }
}
