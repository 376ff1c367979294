/** Reconciling generated genre links with the links a new index asks for.

    A path maps to a link with its resolved target, or to something that is not a link.
    Dictionaries keep their insertion order, as Python's do: a list of distinct keys. */
module GenreLinks {
  import opened Text

  type Path = string

  datatype Entry = Link(target: Path) | Other(what: string)

  type Files = map<Path, Entry>

  datatype Pair = Pair(link: Path, movie: Path)

  type Dict = seq<Pair>

  predicate Distinct(d: Dict) {
    forall i, j :: 0 <= i < j < |d| ==> d[i].link != d[j].link
  }

  predicate Has(d: Dict, p: Pair) {
    p in d
  }

  function Lookup(d: Dict, link: Path): (r: Option<Path>)
    ensures r.Some? ==> Has(d, Pair(link, r.value))
    ensures r.None? ==> forall i :: 0 <= i < |d| ==> d[i].link != link
  {
    if d == [] then None else if d[0].link == link then Some(d[0].movie) else Lookup(d[1..], link)
  }

  predicate PointsTo(fs: Files, link: Path, movie: Path) {
    link in fs && fs[link] == Link(movie)
  }

  // ---------- what the phases must do ----------

  /** A path that may be taken over: free, already right, or still as the previous index left it. */
  predicate Claimable(fs: Files, recorded: Dict, p: Pair) {
    || p.link !in fs
    || PointsTo(fs, p.link, p.movie)
    || (Lookup(recorded, p.link).Some? && PointsTo(fs, p.link, Lookup(recorded, p.link).value))
  }

  predicate Preflight(fs: Files, recorded: Dict, desired: Dict) {
    forall i :: 0 <= i < |desired| ==> Claimable(fs, recorded, desired[i])
  }

  /** A recorded link that is no longer wanted as it is, and that nobody has changed. */
  predicate Obsolete(fs: Files, desired: Dict, p: Pair) {
    && PointsTo(fs, p.link, p.movie)
    && !(Lookup(desired, p.link).Some? && PointsTo(fs, p.link, Lookup(desired, p.link).value))
  }

  /** The entry a path has once everything is done. */
  predicate Final(before: Files, recorded: Dict, desired: Dict, after: Files, link: Path) {
    match Lookup(desired, link)
    case Some(movie) => PointsTo(after, link, movie)
    case None =>
      if Lookup(recorded, link).Some? && PointsTo(before, link, Lookup(recorded, link).value) then link !in after
      else link in before <==> link in after && (link in before ==> after[link] == before[link])
  }

  // ---------- the phases as functions ----------

  function UnlinkOne(fs: Files, desired: Dict, p: Pair): Files {
    if Obsolete(fs, desired, p) then fs - {p.link} else fs
  }

  function UnlinkAll(fs: Files, desired: Dict, recorded: Dict): Files {
    if recorded == [] then fs else UnlinkAll(UnlinkOne(fs, desired, recorded[0]), desired, recorded[1..])
  }

  /** Creating one link; `None` is the refusal to replace an existing path. */
  function CreateOne(fs: Files, p: Pair): Option<Files> {
    if p.link !in fs then Some(fs[p.link := Link(p.movie)])
    else if PointsTo(fs, p.link, p.movie) then Some(fs)
    else None
  }

  function CreateAll(fs: Files, desired: Dict): Option<Files>
    decreases |desired|
  {
    if desired == [] then Some(fs)
    else match CreateOne(fs, desired[0])
         case Some(next) => CreateAll(next, desired[1..])
         case None => None
  }

  /** The whole reconciliation: `None` when it raises. */
  function Reconcile(fs: Files, recorded: Dict, desired: Dict): Option<Files> {
    if !Preflight(fs, recorded, desired) then None else CreateAll(UnlinkAll(fs, desired, recorded), desired)
  }

  // ---------- what the phases do to one path ----------

  predicate Same(a: Files, b: Files, link: Path) {
    (link in a <==> link in b) && (link in a ==> a[link] == b[link])
  }

  lemma {:induction false} LookupFinds(d: Dict, i: nat)
    requires Distinct(d) && i < |d|
    ensures Lookup(d, d[i].link) == Some(d[i].movie)
  {
    if i > 0 {
      assert d[0].link != d[i].link;
      LookupFinds(d[1..], i - 1);
    }
  }

  lemma {:induction false} UnlinkAllAt(fs: Files, desired: Dict, recorded: Dict, link: Path)
    requires Distinct(recorded)
    ensures var after := UnlinkAll(fs, desired, recorded);
      match Lookup(recorded, link)
      case Some(movie) => if Obsolete(fs, desired, Pair(link, movie)) then link !in after else Same(fs, after, link)
      case None => Same(fs, after, link)
    decreases |recorded|
  {
    if recorded != [] {
      var next := UnlinkOne(fs, desired, recorded[0]);
      UnlinkAllAt(next, desired, recorded[1..], link);
    }
  }

  /** Nothing in the way of any link still to be created. */
  predicate Clear(fs: Files, desired: Dict) {
    forall i :: 0 <= i < |desired| ==> desired[i].link !in fs || PointsTo(fs, desired[i].link, desired[i].movie)
  }

  lemma {:induction false} CreateAllAt(fs: Files, desired: Dict, link: Path)
    requires Distinct(desired) && Clear(fs, desired)
    ensures CreateAll(fs, desired).Some?
    ensures var after := CreateAll(fs, desired).value;
      match Lookup(desired, link)
      case Some(movie) => PointsTo(after, link, movie)
      case None => Same(fs, after, link)
    decreases |desired|
  {
    if desired != [] {
      var next := CreateOne(fs, desired[0]).value;
      forall i | 0 <= i < |desired[1..]|
        ensures desired[1..][i].link !in next || PointsTo(next, desired[1..][i].link, desired[1..][i].movie)
      {
        assert desired[1..][i] == desired[i + 1] && desired[0].link != desired[i + 1].link;
      }
      CreateAllAt(next, desired[1..], link);
    }
  }

  /** Preflight clears the way for the create phase. */
  lemma UnlinkedIsClear(fs: Files, recorded: Dict, desired: Dict)
    requires Distinct(recorded) && Distinct(desired) && Preflight(fs, recorded, desired)
    ensures Clear(UnlinkAll(fs, desired, recorded), desired)
  {
    forall i | 0 <= i < |desired|
      ensures desired[i].link !in UnlinkAll(fs, desired, recorded) ||
              PointsTo(UnlinkAll(fs, desired, recorded), desired[i].link, desired[i].movie)
    {
      assert Claimable(fs, recorded, desired[i]);
      LookupFinds(desired, i);
      UnlinkAllAt(fs, desired, recorded, desired[i].link);
    }
  }

  // ---------- main results ----------

  /** When preflight passes, the create phase never raises and every path ends as it should:
      desired links at their movies, obsolete recorded links gone, and everything else,
      including a recorded link somebody pointed elsewhere, untouched. */
  lemma ReconcileMeaning(fs: Files, recorded: Dict, desired: Dict, link: Path)
    requires Distinct(recorded) && Distinct(desired)
    ensures Reconcile(fs, recorded, desired).Some? <==> Preflight(fs, recorded, desired)
    ensures Preflight(fs, recorded, desired) ==>
      Final(fs, recorded, desired, Reconcile(fs, recorded, desired).value, link)
  {
    if Preflight(fs, recorded, desired) {
      var middle := UnlinkAll(fs, desired, recorded);
      UnlinkedIsClear(fs, recorded, desired);
      CreateAllAt(middle, desired, link);
      UnlinkAllAt(fs, desired, recorded, link);
    }
  }

  /** Nothing is at the path, or the right link, or the very link the previous index recorded. */
  predicate MayBeTaken(fs: Files, recorded: Dict, p: Pair) {
    p.link in fs ==>
      fs[p.link] == Link(p.movie) || exists i :: 0 <= i < |recorded| && StillAt(fs, recorded[i], p.link)
  }

  /** The record is about this path, and nobody has changed it since. */
  predicate StillAt(fs: Files, record: Pair, link: Path) {
    record.link == link && link in fs && fs[link] == Link(record.movie)
  }

  predicate Wanted(desired: Dict, link: Path) {
    exists i :: 0 <= i < |desired| && desired[i].link == link
  }

  /** The same without the lookups: it succeeds exactly when every wanted path may be taken; then
      every wanted link is at its movie, wherever it led before; of the other paths exactly those
      are gone that still lead where the previous index says, and the rest is as it was. */
  lemma ReconcileInPlainTerms(fs: Files, recorded: Dict, desired: Dict)
    requires Distinct(recorded) && Distinct(desired)
    ensures Reconcile(fs, recorded, desired).Some? <==>
      forall i :: 0 <= i < |desired| ==> MayBeTaken(fs, recorded, desired[i])
    ensures Reconcile(fs, recorded, desired).Some? ==>
      var after := Reconcile(fs, recorded, desired).value;
      && (forall i :: 0 <= i < |desired| ==>
            desired[i].link in after && after[desired[i].link] == Link(desired[i].movie))
      && (forall link :: !Wanted(desired, link) ==>
            (link in after <==> link in fs && forall i :: 0 <= i < |recorded| ==> !StillAt(fs, recorded[i], link)) &&
            (link in after ==> after[link] == fs[link]))
  {
    hide Reconcile;
    ReconcileMeaning(fs, recorded, desired, "");
    forall i | 0 <= i < |desired|
      ensures Claimable(fs, recorded, desired[i]) <==> MayBeTaken(fs, recorded, desired[i])
    {
      StillAtIff(fs, recorded, desired[i].link);
    }
    if Preflight(fs, recorded, desired) {
      var after := Reconcile(fs, recorded, desired).value;
      forall i | 0 <= i < |desired| ensures PointsTo(after, desired[i].link, desired[i].movie) {
        LookupFinds(desired, i);
        ReconcileMeaning(fs, recorded, desired, desired[i].link);
      }
      forall link | !Wanted(desired, link)
        ensures link in after <==> link in fs && forall i :: 0 <= i < |recorded| ==> !StillAt(fs, recorded[i], link)
        ensures link in after ==> after[link] == fs[link]
      {
        WantedIff(desired, link);
        StillAtIff(fs, recorded, link);
        ReconcileMeaning(fs, recorded, desired, link);
      }
    }
  }

  lemma WantedIff(desired: Dict, link: Path)
    ensures Wanted(desired, link) <==> Lookup(desired, link).Some?
  {
    if Lookup(desired, link).Some? {
      assert Has(desired, Pair(link, Lookup(desired, link).value));
    }
  }

  lemma StillAtIff(fs: Files, recorded: Dict, link: Path)
    requires Distinct(recorded)
    ensures (exists i :: 0 <= i < |recorded| && StillAt(fs, recorded[i], link)) <==>
      Lookup(recorded, link).Some? && PointsTo(fs, link, Lookup(recorded, link).value)
  {
    if i :| 0 <= i < |recorded| && StillAt(fs, recorded[i], link) {
      LookupFinds(recorded, i);
    }
    if Lookup(recorded, link).Some? && PointsTo(fs, link, Lookup(recorded, link).value) {
      var p := Pair(link, Lookup(recorded, link).value);
      assert Has(recorded, p);
      var i :| 0 <= i < |recorded| && recorded[i] == p;
      assert StillAt(fs, recorded[i], link);
    }
  }

  /** A state some interrupted run may leave: wanted paths hold their old entry, nothing, or
      their new link; every other path holds its old entry or its final one. */
  ghost predicate Resumable(fs: Files, recorded: Dict, desired: Dict, now: Files) {
    forall link :: link in fs || link in now ==> ResumableAt(fs, recorded, desired, now, link)
  }

  predicate ResumableAt(fs: Files, recorded: Dict, desired: Dict, now: Files, link: Path) {
    || Same(fs, now, link)
    || Final(fs, recorded, desired, now, link)
    || (Lookup(desired, link).Some? && link !in now)
  }

  /** Rerunning from any such state, with the same index and the same wish, ends exactly where
      the uninterrupted run would have. */
  lemma ResumeReachesTheSameEnd(fs: Files, recorded: Dict, desired: Dict, now: Files)
    requires Distinct(recorded) && Distinct(desired)
    requires Preflight(fs, recorded, desired) && Resumable(fs, recorded, desired, now)
    ensures Preflight(now, recorded, desired)
    ensures Reconcile(now, recorded, desired) == Reconcile(fs, recorded, desired)
  {
    forall i | 0 <= i < |desired| ensures Claimable(now, recorded, desired[i]) {
      LookupFinds(desired, i);
      assert Claimable(fs, recorded, desired[i]);
      assert desired[i].link in now ==> ResumableAt(fs, recorded, desired, now, desired[i].link);
    }
    ReconcileMeaning(fs, recorded, desired, "");
    ReconcileMeaning(now, recorded, desired, "");
    var a, b := Reconcile(fs, recorded, desired).value, Reconcile(now, recorded, desired).value;
    forall link ensures Same(a, b, link) {
      ReconcileMeaning(fs, recorded, desired, link);
      ReconcileMeaning(now, recorded, desired, link);
      assert link in fs || link in now ==> ResumableAt(fs, recorded, desired, now, link);
    }
    SameEverywhere(a, b);
  }

  lemma SameEverywhere(a: Files, b: Files)
    requires forall link :: Same(a, b, link)
    ensures a == b
  {
    assert forall link :: link in a <==> link in b by {
      forall link ensures link in a <==> link in b { assert Same(a, b, link); }
    }
    assert forall link :: link in a ==> a[link] == b[link] by {
      forall link | link in a ensures a[link] == b[link] { assert Same(a, b, link); }
    }
  }

  /** No link operation is left to do. */
  predicate Quiet(fs: Files, recorded: Dict, desired: Dict) {
    && (forall i :: 0 <= i < |recorded| ==> !Obsolete(fs, desired, recorded[i]))
    && (forall i :: 0 <= i < |desired| ==> PointsTo(fs, desired[i].link, desired[i].movie))
  }

  /** A run on its own result has nothing to do, with the index it read or the one it wrote. */
  lemma ResultIsQuiet(fs: Files, recorded: Dict, desired: Dict)
    requires Distinct(recorded) && Distinct(desired) && Preflight(fs, recorded, desired)
    ensures Reconcile(fs, recorded, desired).Some?
    ensures var after := Reconcile(fs, recorded, desired).value;
      Quiet(after, recorded, desired) && Quiet(after, desired, desired)
  {
    ReconcileMeaning(fs, recorded, desired, "");
    var after := Reconcile(fs, recorded, desired).value;
    forall i | 0 <= i < |desired| ensures PointsTo(after, desired[i].link, desired[i].movie) {
      LookupFinds(desired, i);
      ReconcileMeaning(fs, recorded, desired, desired[i].link);
    }
    forall i | 0 <= i < |desired| ensures !Obsolete(after, desired, desired[i]) {
      LookupFinds(desired, i);
    }
    forall i | 0 <= i < |recorded| ensures !Obsolete(after, desired, recorded[i]) {
      LookupFinds(recorded, i);
      ReconcileMeaning(fs, recorded, desired, recorded[i].link);
    }
  }

  // ---------- the program ----------

  /** The directory tree, with a record of every state between two link operations. `calls`
      counts them; `works` says which succeed. A failing one raises and has no effect. */
  class Tree {
    var entries: Files
    var calls: nat
    ghost var history: seq<Files>

    constructor (entries: Files)
      ensures this.entries == entries && calls == 0 && history == []
    {
      this.entries := entries;
      calls, history := 0, [];
    }

    method Unlink(link: Path, works: nat -> bool) returns (ok: bool)
      requires link in entries
      modifies this
      ensures calls == old(calls) + 1 && (ok <==> works(old(calls)))
      ensures entries == (if ok then old(entries) - {link} else old(entries))
      ensures history == (if ok then old(history) + [entries] else old(history))
    {
      ok := works(calls);
      calls := calls + 1;
      if ok {
        entries := entries - {link};
        history := history + [entries];
      }
    }

    method SymlinkTo(link: Path, movie: Path, works: nat -> bool) returns (ok: bool)
      requires link !in entries
      modifies this
      ensures calls == old(calls) + 1 && (ok <==> works(old(calls)))
      ensures entries == (if ok then old(entries)[link := Link(movie)] else old(entries))
      ensures history == (if ok then old(history) + [entries] else old(history))
    {
      ok := works(calls);
      calls := calls + 1;
      if ok {
        entries := entries[link := Link(movie)];
        history := history + [entries];
      }
    }
  }

  lemma {:induction false} UnlinkAllSnoc(fs: Files, desired: Dict, done: Dict, p: Pair)
    ensures UnlinkAll(fs, desired, done + [p]) == UnlinkOne(UnlinkAll(fs, desired, done), desired, p)
    decreases |done|
  {
    if done == [] {
      assert [p][1..] == [];
    } else {
      UnlinkAllSnoc(UnlinkOne(fs, desired, done[0]), desired, done[1..], p);
      assert (done + [p])[1..] == done[1..] + [p];
    }
  }

  lemma {:induction false} CreateAllSnoc(fs: Files, done: Dict, p: Pair)
    ensures CreateAll(fs, done + [p]) ==
      match CreateAll(fs, done) case Some(next) => CreateOne(next, p) case None => None
    decreases |done|
  {
    if done == [] {
      assert [p][1..] == [];
    } else {
      assert (done + [p])[1..] == done[1..] + [p];
      if CreateOne(fs, done[0]).Some? {
        CreateAllSnoc(CreateOne(fs, done[0]).value, done[1..], p);
      }
    }
  }

  lemma DistinctPrefix(d: Dict, i: nat)
    requires Distinct(d) && i <= |d|
    ensures Distinct(d[..i])
    ensures forall link :: Lookup(d[..i], link).Some? ==> Lookup(d, link) == Lookup(d[..i], link)
  {
    forall link | Lookup(d[..i], link).Some? ensures Lookup(d, link) == Lookup(d[..i], link) {
      var p := Pair(link, Lookup(d[..i], link).value);
      assert Has(d[..i], p);
      var k :| 0 <= k < i && d[k] == p;
      LookupFinds(d, k);
    }
  }

  lemma UnlinkPrefixIsResumable(fs: Files, recorded: Dict, desired: Dict, i: nat)
    requires Distinct(recorded) && Distinct(desired) && i <= |recorded|
    ensures Resumable(fs, recorded, desired, UnlinkAll(fs, desired, recorded[..i]))
  {
    DistinctPrefix(recorded, i);
    var now := UnlinkAll(fs, desired, recorded[..i]);
    forall link | link in fs || link in now ensures ResumableAt(fs, recorded, desired, now, link) {
      UnlinkAllAt(fs, desired, recorded[..i], link);
    }
  }

  lemma CreatePrefixIsResumable(fs: Files, recorded: Dict, desired: Dict, i: nat)
    requires Distinct(recorded) && Distinct(desired) && i <= |desired| && Preflight(fs, recorded, desired)
    ensures var middle := UnlinkAll(fs, desired, recorded);
      && CreateAll(middle, desired[..i]).Some?
      && Resumable(fs, recorded, desired, CreateAll(middle, desired[..i]).value)
  {
    var middle := UnlinkAll(fs, desired, recorded);
    DistinctPrefix(desired, i);
    UnlinkedIsClear(fs, recorded, desired);
    CreateAllAt(middle, desired[..i], "");
    var now := CreateAll(middle, desired[..i]).value;
    forall link | link in fs || link in now ensures ResumableAt(fs, recorded, desired, now, link) {
      CreateAllAt(middle, desired[..i], link);
      UnlinkAllAt(fs, desired, recorded, link);
    }
  }

  /** Every state recorded since a point can be resumed from. */
  ghost predicate AllResumable(fs: Files, recorded: Dict, desired: Dict, states: seq<Files>, start: nat) {
    forall k :: start <= k < |states| ==> Resumable(fs, recorded, desired, states[k])
  }

  /** The reconcile phases. A failed preflight touches nothing. A failing link operation leaves a
      tree that can be resumed from, like every state in between. On success the tree is the
      reconciled one, and a quiet tree sees no operation. */
  method ReconcileLinks(tree: Tree, recorded: Dict, desired: Dict, works: nat -> bool) returns (ok: bool)
    requires Distinct(recorded) && Distinct(desired)
    modifies tree
    ensures !Preflight(old(tree.entries), recorded, desired) ==>
      !ok && tree.entries == old(tree.entries) && tree.history == old(tree.history)
    ensures ok ==> Reconcile(old(tree.entries), recorded, desired) == Some(tree.entries)
    ensures Preflight(old(tree.entries), recorded, desired) ==>
      Resumable(old(tree.entries), recorded, desired, tree.entries)
    ensures old(tree.history) <= tree.history
    ensures AllResumable(old(tree.entries), recorded, desired, tree.history, |old(tree.history)|)
    ensures Quiet(old(tree.entries), recorded, desired) ==> ok && tree.history == old(tree.history)
    ensures Preflight(old(tree.entries), recorded, desired) && (forall k: nat :: works(k)) ==> ok
  {
    ghost var fs := tree.entries;
    for i := 0 to |desired|
      invariant forall k :: 0 <= k < i ==> Claimable(fs, recorded, desired[k])
      invariant tree.entries == fs && tree.history == old(tree.history)
    {
      var p := desired[i];
      if p.link !in tree.entries || PointsTo(tree.entries, p.link, p.movie) {
        continue;
      }
      var was := Lookup(recorded, p.link);
      if !(was.Some? && PointsTo(tree.entries, p.link, was.value)) {
        assert !Claimable(fs, recorded, desired[i]);
        return false;
      }
    }
    ok := UnlinkObsolete(tree, recorded, desired, works);
    if !ok {
      return;
    }
    ok := CreateDesired(tree, fs, recorded, desired, works);
  }

  /** On a failure the tree is as the obsolete links so far have left it. */
  method UnlinkObsolete(tree: Tree, recorded: Dict, desired: Dict, works: nat -> bool) returns (ok: bool)
    requires Distinct(recorded) && Distinct(desired)
    modifies tree
    ensures ok ==> tree.entries == UnlinkAll(old(tree.entries), desired, recorded)
    ensures Resumable(old(tree.entries), recorded, desired, tree.entries)
    ensures old(tree.history) <= tree.history
    ensures AllResumable(old(tree.entries), recorded, desired, tree.history, |old(tree.history)|)
    ensures Quiet(old(tree.entries), recorded, desired) ==>
      ok && tree.history == old(tree.history) && tree.entries == old(tree.entries)
    ensures (forall k: nat :: works(k)) ==> ok
  {
    hide Resumable;
    ghost var fs := tree.entries;
    UnlinkPrefixIsResumable(fs, recorded, desired, 0);
    assert recorded[..0] == [];
    for i := 0 to |recorded|
      invariant tree.entries == UnlinkAll(fs, desired, recorded[..i])
      invariant Resumable(fs, recorded, desired, tree.entries)
      invariant old(tree.history) <= tree.history
      invariant AllResumable(fs, recorded, desired, tree.history, |old(tree.history)|)
      invariant Quiet(fs, recorded, desired) ==> tree.history == old(tree.history) && tree.entries == fs
    {
      var p := recorded[i];
      assert recorded[..i + 1] == recorded[..i] + [p];
      UnlinkAllSnoc(fs, desired, recorded[..i], p);
      UnlinkPrefixIsResumable(fs, recorded, desired, i + 1);
      var wanted := Lookup(desired, p.link);
      if wanted.Some? && PointsTo(tree.entries, p.link, wanted.value) {
        continue;
      }
      if PointsTo(tree.entries, p.link, p.movie) {
        ok := tree.Unlink(p.link, works);
        if !ok {
          return;
        }
      }
    }
    assert recorded[..|recorded|] == recorded;
    return true;
  }

  /** Only a failing call can stop this phase: it never meets a path it would have to replace. */
  method CreateDesired(tree: Tree, ghost fs: Files, recorded: Dict, desired: Dict, works: nat -> bool)
      returns (ok: bool)
    requires Distinct(recorded) && Distinct(desired) && Preflight(fs, recorded, desired)
    requires tree.entries == UnlinkAll(fs, desired, recorded)
    modifies tree
    ensures ok ==> Reconcile(fs, recorded, desired) == Some(tree.entries)
    ensures Resumable(fs, recorded, desired, tree.entries)
    ensures old(tree.history) <= tree.history
    ensures AllResumable(fs, recorded, desired, tree.history, |old(tree.history)|)
    ensures Quiet(old(tree.entries), recorded, desired) ==> ok && tree.history == old(tree.history)
    ensures (forall k: nat :: works(k)) ==> ok
  {
    hide Resumable;
    ghost var middle := tree.entries;
    CreatePrefixIsResumable(fs, recorded, desired, 0);
    assert desired[..0] == [];
    for i := 0 to |desired|
      invariant CreateAll(middle, desired[..i]) == Some(tree.entries)
      invariant Resumable(fs, recorded, desired, tree.entries)
      invariant old(tree.history) <= tree.history
      invariant AllResumable(fs, recorded, desired, tree.history, |old(tree.history)|)
      invariant Quiet(middle, recorded, desired) ==> tree.history == old(tree.history) && tree.entries == middle
    {
      var p := desired[i];
      assert desired[..i + 1] == desired[..i] + [p];
      CreateAllSnoc(middle, desired[..i], p);
      CreatePrefixIsResumable(fs, recorded, desired, i + 1);
      if p.link in tree.entries {
        if PointsTo(tree.entries, p.link, p.movie) {
          continue;
        }
        // the refusal to replace an existing path, which preflight has ruled out
        assert false;
      }
      ok := tree.SymlinkTo(p.link, p.movie, works);
      if !ok {
        return;
      }
    }
    assert desired[..|desired|] == desired;
    return true;
  }
}
