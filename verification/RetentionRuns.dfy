/** Whole runs of the remote retention: plan from fresh evidence, apply, and after an interruption
    plan and apply again. */
module RetentionRuns {
  import opened Ranking
  import opened RemoteRetention
  import opened RetentionApply
  import opened RetentionPlanner
  import opened Wrappers

  // ---------- capturing the evidence ----------

  /** The list names every entry of the map once. */
  predicate Listing<T(==,!new)>(rows: seq<T>, m: map<Ref, T>, refOf: T -> Ref) {
    && (forall x :: x in rows ==> refOf(x) in m && m[refOf(x)] == x)
    && (forall r :: r in m ==> m[r] in rows && refOf(m[r]) == r)
    && Distinct(rows, refOf)
  }

  /** The answer of a query, in some order. */
  method Select<T(==,!new)>(m: map<Ref, T>, refOf: T -> Ref) returns (rows: seq<T>)
    requires forall r :: r in m ==> refOf(m[r]) == r
    ensures Listing(rows, m, refOf)
  {
    rows := [];
    var todo := m.Keys;
    while todo != {}
      invariant todo <= m.Keys
      invariant forall x :: x in rows ==> refOf(x) in m.Keys - todo && m[refOf(x)] == x
      invariant forall r :: r in m.Keys - todo ==> m[r] in rows
      invariant Distinct(rows, refOf)
      decreases todo
    {
      var r :| r in todo;
      rows, todo := rows + [m[r]], todo - {r};
    }
  }

  function ProtectionMap(w: World): map<Ref, Protection> {
    var refs := RowRefs(w, false) + RowRefs(w, true);
    map r {:trigger r in refs} | r in refs :: Protection(r.id, w.rows[r.id])
  }

  function PrunedMap(w: World, deleted: bool): map<Ref, Protection> {
    map r {:trigger r in RowRefs(w, deleted)} | r in RowRefs(w, deleted) :: Protection(r.id, w.rows[r.id])
  }

  lemma {:induction false} WithPruneMeans(rows: seq<Protection>, deleted: bool)
    ensures forall x :: x in WithPrune(rows, deleted) <==> x in rows && x.row.prune.Deleted? == deleted
  {
    if rows != [] {
      WithPruneMeans(rows[..|rows| - 1], deleted);
      assert rows == rows[..|rows| - 1] + [rows[|rows| - 1]];
    }
  }

  predicate Distinct<T(!new)>(rows: seq<T>, refOf: T -> Ref) {
    forall i, j :: 0 <= i < j < |rows| ==> refOf(rows[i]) != refOf(rows[j])
  }

  lemma {:induction false} WithPruneDistinct(rows: seq<Protection>, deleted: bool)
    requires Distinct(rows, RowRef)
    ensures Distinct(WithPrune(rows, deleted), RowRef)
  {
    if rows != [] {
      var front, last := rows[..|rows| - 1], rows[|rows| - 1];
      WithPruneDistinct(front, deleted);
      WithPruneMeans(front, deleted);
      var some := WithPrune(front, deleted);
      forall i | 0 <= i < |some| ensures RowRef(some[i]) != RowRef(last) {
        assert some[i] in some;
        var k :| 0 <= k < |front| && front[k] == some[i];
      }
    }
  }

  lemma PrunedListing(rows: seq<Protection>, w: World, deleted: bool)
    requires Listing(rows, ProtectionMap(w), RowRef)
    ensures Listing(WithPrune(rows, deleted), PrunedMap(w, deleted), RowRef)
  {
    WithPruneMeans(rows, deleted);
    WithPruneDistinct(rows, deleted);
    var some, m := WithPrune(rows, deleted), PrunedMap(w, deleted);
    forall x | x in some ensures RowRef(x) in m && m[RowRef(x)] == x {
      assert ProtectionMap(w)[RowRef(x)] == x;
    }
    forall r | r in m ensures m[r] in some {
      assert r in ProtectionMap(w) && ProtectionMap(w)[r] == m[r];
    }
  }

  /** Indexing a listing of known generations gives the map back, and refuses nothing. */
  lemma IndexOfListing<T(!new)>(m: map<Ref, T>, rows: seq<T>, n: map<Ref, T>, refOf: T -> Ref)
    requires Indexes(m, rows, refOf) && Listing(rows, n, refOf) && forall r :: r in n ==> Known(r)
    ensures m == n && WellListed(rows, refOf)
  {
    forall r | r in m ensures r in n && m[r] == n[r] { assert m[r] in rows; }
    forall r | r in n ensures r in m { assert n[r] in rows; }
  }

  lemma ScopeIsKnown(w: World)
    requires InScope(w)
    ensures forall r :: r in CatalogMap(w) ==> Known(r)
    ensures forall r :: r in RemoteMap(w) ==> Known(r)
    ensures forall r :: r in PrunedMap(w, false) ==> Known(r)
    ensures forall r :: r in PrunedMap(w, true) ==> Known(r)
  {
  }

  lemma RowsOfPruned(w: World, deleted: bool)
    ensures RowsBy(PrunedMap(w, deleted)) == RowMap(w, deleted)
  {
  }

  /** `build_fixed_plan`: capture the three lists, then reconcile them. */
  method BuildPlan(w: World) returns (ready: bool, plan: Plan)
    ensures ready <==> Ready(w)
    ensures ready ==> PlanFor(plan, EvidenceOf(w))
  {
    plan := Plan([], [], [], [], [], [], map[]);
    if !InScope(w) { return false, plan; }
    var catalog := Select(CatalogMap(w), CatalogRef);
    var protections := Select(ProtectionMap(w), RowRef);
    var remote := Select(RemoteMap(w), RemoteRef);
    var refusals, e;
    refusals, plan, e := Reconcile(catalog, protections, remote);
    CapturedIsEvidence(w, catalog, protections, remote, e);
    ready := refusals == {};
  }

  lemma CapturedRows(w: World, protections: seq<Protection>, deleted: bool, rows: map<Ref, Row>)
    requires Listing(protections, ProtectionMap(w), RowRef) && forall r :: r in PrunedMap(w, deleted) ==> Known(r)
    requires exists m :: Indexes(m, WithPrune(protections, deleted), RowRef) && rows == RowsBy(m)
    ensures rows == RowMap(w, deleted) && WellListed(WithPrune(protections, deleted), RowRef)
  {
    var m :| Indexes(m, WithPrune(protections, deleted), RowRef) && rows == RowsBy(m);
    PrunedListing(protections, w, deleted);
    IndexOfListing(m, WithPrune(protections, deleted), PrunedMap(w, deleted), RowRef);
    RowsOfPruned(w, deleted);
  }

  lemma CapturedIsEvidence(w: World, catalog: seq<Catalog>, protections: seq<Protection>, remote: seq<Remote>,
                           e: Evidence)
    requires InScope(w) && Listing(catalog, CatalogMap(w), CatalogRef) && Listing(remote, RemoteMap(w), RemoteRef)
    requires Listing(protections, ProtectionMap(w), RowRef)
    requires Indexes(e.catalog, catalog, CatalogRef) && Indexes(e.remote, remote, RemoteRef)
    requires exists m :: Indexes(m, WithPrune(protections, false), RowRef) && e.active == RowsBy(m)
    requires exists m :: Indexes(m, WithPrune(protections, true), RowRef) && e.deleted == RowsBy(m)
    ensures e == EvidenceOf(w) && WellListed(catalog, CatalogRef) && WellListed(remote, RemoteRef)
    ensures WellListed(WithPrune(protections, false), RowRef) && WellListed(WithPrune(protections, true), RowRef)
  {
    assert e.catalog == CatalogMap(w) && WellListed(catalog, CatalogRef) by {
      ScopeIsKnown(w);
      IndexOfListing(e.catalog, catalog, CatalogMap(w), CatalogRef);
    }
    assert e.remote == RemoteMap(w) && WellListed(remote, RemoteRef) by {
      ScopeIsKnown(w);
      IndexOfListing(e.remote, remote, RemoteMap(w), RemoteRef);
    }
    assert e.active == RowMap(w, false) && WellListed(WithPrune(protections, false), RowRef) by {
      ScopeIsKnown(w);
      CapturedRows(w, protections, false, e.active);
    }
    assert e.deleted == RowMap(w, true) && WellListed(WithPrune(protections, true), RowRef) by {
      ScopeIsKnown(w);
      CapturedRows(w, protections, true, e.deleted);
    }
  }

  // ---------- runs ----------

  lemma PartwayTransitive(remote: map<Ref, Archive>, local: map<Ref, Archive>, keep: set<Ref>, now: map<Ref, Archive>,
                          next: map<Ref, Archive>)
    requires Partway(remote, local, keep, now) && Partway(now, local, keep, next)
    ensures Partway(remote, local, keep, next)
  {
  }

  /** A plan that could be applied can still be applied after an interruption. */
  lemma StillApplicable(w: World, now: map<Ref, Archive>)
    requires Applicable(w) && Between(w, now)
    ensures Applicable(w.(remote := now))
  {
    var v := w.(remote := now);
    assert Refs(v) == Refs(w);
    assert Older(v.remote.Keys, Refs(v)) <= Older(w.remote.Keys, Refs(w));
    forall r | r in now ensures 0 <= now[r].size <= MAX_STAGED_BYTES {
      if r in Keep(w) && r in w.local { assert r in Copies(Keep(w), w.local); }
    }
  }

  lemma StillOnTheWay(w0: World, w1: World, remote: map<Ref, Archive>)
    requires w1 == w0.(remote := w1.remote) && Between(w0, w1.remote) && Ready(w1) && Between(w1, remote)
    ensures Ready(w1.(remote := remote)) && Between(w0, remote)
  {
    assert Keep(w1) == Keep(w0) by { assert Refs(w1) == Refs(w0); }
    PartwayTransitive(w0.remote, w0.local, Keep(w0), w1.remote, remote);
    ResumeReachesTheSameTarget(w1, remote);
  }

  lemma GrownIsNotBounded(w: World, now: map<Ref, Archive>)
    requires RemoteOk(w) && Between(w, now) && w.remote.Keys <= now.Keys && Bounded(now)
    ensures Bounded(w.remote)
  {
    forall r | r in w.remote ensures 0 <= w.remote[r].size <= MAX_STAGED_BYTES {
      assert RemoteAt(w, r) && r in now;
    }
  }

  lemma GrownKeepsOlder(w: World, now: map<Ref, Archive>)
    requires w.remote.Keys <= now.Keys
    ensures var v := w.(remote := now); Keep(v) == Keep(w) && Older(w.remote.Keys, Refs(w)) <= Older(now.Keys, Refs(v))
  {
    assert Refs(w.(remote := now)) == Refs(w);
  }

  /** Uploads alone do not make a plan applicable. */
  lemma StillNotApplicable(w: World, now: map<Ref, Archive>)
    requires RemoteOk(w) && !Applicable(w) && Between(w, now) && w.remote.Keys <= now.Keys
    ensures !Applicable(w.(remote := now))
  {
    GrownKeepsOlder(w, now);
    if Applicable(w.(remote := now)) { GrownIsNotBounded(w, now); }
  }

  lemma PartwayOfCopies(local: map<Ref, Archive>, keep: set<Ref>, now: map<Ref, Archive>)
    requires Partway(Copies(keep, local), local, keep, now)
    ensures now == Copies(keep, local)
  {
    forall r | r in now ensures r in Copies(keep, local) && now[r] == Copies(keep, local)[r] {}
  }

  /** A run that was cut off after its commit leaves nothing to upload and nothing to delete. */
  lemma TargetIsStable(w: World, now: map<Ref, Archive>)
    requires Between(Target(w), now)
    ensures Target(w).(remote := now) == Target(w)
  {
    TargetSameRefs(w);
    assert TargetRemote(w) == Copies(Keep(w), w.local);
    PartwayOfCopies(w.local, Keep(w), now);
  }

  /** Where a sequence of runs can be: at the target, or still on the way to it. */
  ghost predicate OnTheWay(w0: World, w: World) {
    w == Target(w0) || (w == w0.(remote := w.remote) && Between(w0, w.remote))
  }

  /** One more run, from a state on the way. */
  lemma RunStaysOnTheWay(w0: World, w1: World, w2: World)
    requires Ready(w0) && Ready(w1) && OnTheWay(w0, w1) && OnTheWay(w1, w2)
    ensures Ready(w2) && OnTheWay(w0, w2) && Target(w1) == Target(w0)
  {
    if w1 == Target(w0) {
      PlanningIsAFixpoint(w0);
      if w2 != Target(w1) { TargetIsStable(w0, w2.remote); }
    } else {
      SameRefsSameTarget(w0, w1.remote);
      if w2 == Target(w1) {
        PlanningIsAFixpoint(w1);
      } else {
        StillOnTheWay(w0, w1, w2.remote);
      }
    }
  }

  /** Any number of runs, each planned from fresh evidence, and each cut off anywhere, before or after
      its commit: every plan is ready, the run that returns has reached what one undisturbed run would
      have, and a plan that is not applicable changes the database in no run. */
  method RunUntilDone(x: Executor, attempts: nat) returns (o: Outcome)
    requires Ready(x.w)
    modifies x
    ensures Ready(x.w) && OnTheWay(old(x.w), x.w)
    ensures o.Done? ==> x.w == Target(old(x.w))
    ensures !Applicable(old(x.w)) ==> !o.Done? && x.w == old(x.w).(remote := x.w.remote)
    ensures old(x.Calm()) && attempts > 0 && Applicable(old(x.w)) ==> o.Done?
  {
    ghost var w0 := x.w;
    o := Interrupted;
    BetweenSelf(w0);
    for k := 0 to attempts
      invariant Ready(x.w) && OnTheWay(w0, x.w) && !o.Done?
      invariant !Applicable(w0) ==> !Applicable(x.w) && x.w == w0.(remote := x.w.remote)
      invariant k > 0 ==> !(old(x.Calm()) && Applicable(w0))
      invariant k == 0 ==> x.script == old(x.script) && x.w == w0
    {
      var ready, plan := BuildPlan(x.w);
      ghost var w1 := x.w;
      o := x.Apply(plan);
      RunStaysOnTheWay(w0, w1, x.w);
      if !Applicable(w1) {
        assert RemoteOk(w1) by { ReadyMeansAccepted(w1); }
        StillNotApplicable(w1, x.w.remote);
      }
      if o.Done? { return; }
    }
  }

  function Unflag(w: World, r: Ref): World
    requires r.id in w.backups
  {
    w.(backups := w.backups[r.id := w.backups[r.id].(isProtected := false)])
  }

  /** A READY plan that is always refused: clearing the flag of one generation that the plan
      prunes keeps the plan ready, but every attempt to apply it fails its row checks. */
  lemma ReadyButNotApplicable(w: World, r: Ref)
    requires Ready(w) && r in Older(w.remote.Keys, Refs(w))
    ensures Ready(Unflag(w, r)) && !Applicable(Unflag(w, r))
  {
    var v := Unflag(w, r);
    assert Ready(v) by {
      assert WorldAccepts(w) by { ReadyMeansAccepted(w); }
      UnflagAccepted(w, r);
      UnflagInScope(w, r);
      ReadyMeansAccepted(v);
    }
    UnflagNotApplicable(w, r);
  }

  lemma UnflagInScope(w: World, r: Ref)
    requires InScope(w) && r.id in w.backups
    ensures InScope(Unflag(w, r))
  {
    assert Refs(Unflag(w, r)) == Refs(w);
  }

  lemma UnflagNotApplicable(w: World, r: Ref)
    requires r in Older(w.remote.Keys, Refs(w))
    ensures !Applicable(Unflag(w, r))
  {
    assert Refs(Unflag(w, r)) == Refs(w);
    assert r in Older(Unflag(w, r).remote.Keys, Refs(Unflag(w, r)));
  }

  lemma UnflagAccepted(w: World, r: Ref)
    requires WorldAccepts(w) && r in Older(w.remote.Keys, Refs(w))
    ensures WorldAccepts(Unflag(w, r))
  {
    var v := Unflag(w, r);
    assert Refs(v) == Refs(w);
    assert Keep(v) == Keep(w);
    forall q | q in Refs(v) ensures LocalAt(v, q) { assert LocalAt(w, q); }
    forall q | q in v.remote ensures RemoteAt(v, q) { assert RemoteAt(w, q); }
    forall q | q in RowRefs(v, false) + RowRefs(v, true) ensures RowAt(v, q) {
      assert q in RowRefs(w, false) + RowRefs(w, true);
      assert RowAt(w, q);
    }
    forall q | q in Keep(v) ensures KeptAt(v, q) { assert KeptAt(w, q); }
    forall q | q in Older(v.remote.Keys, Refs(v)) ensures OlderAt(v, q) { assert OlderAt(w, q); }
  }

  // ---------- a world whose ready plan is refused for ever ----------

  const FIRST := Ref(Sunlit, 1)
  const SECOND := Ref(Sunlit, 2)
  const THIRD := Ref(Sunlit, 3)

  function Archives(): map<Ref, Archive> {
    map r | r in {FIRST, SECOND, THIRD} :: Archive(10, r.id, Some(r))
  }

  /** Three generations of one profile, all in good order: local, remote, flagged and with proven rows. */
  function Orderly(): World {
    var good := Backup(Sunlit, 10, true, true);
    World(map[1 := good, 2 := good, 3 := good],
          map[1 := FreshRow(FIRST, 1), 2 := FreshRow(SECOND, 2), 3 := FreshRow(THIRD, 3)], Archives(), Archives())
  }

  lemma NewestOfThree()
    ensures Newest(Later, {1, 2, 3}, RETENTION) == {2, 3}
  {
    assert Above(Later, {1, 2, 3}, 1) == {2, 3};
    assert Above(Later, {1, 2, 3}, 2) == {3};
    assert Above(Later, {1, 2, 3}, 3) == {};
  }

  lemma OrderlyRefs()
    ensures Refs(Orderly()) == {FIRST, SECOND, THIRD}
  {
  }

  lemma OrderlyKeeps()
    ensures Refs(Orderly()) == {FIRST, SECOND, THIRD} && Keep(Orderly()) == {SECOND, THIRD}
    ensures Older(Orderly().remote.Keys, Refs(Orderly())) == {FIRST}
  {
    var refs := Refs(Orderly());
    assert refs == {FIRST, SECOND, THIRD};
    assert Ids(refs, Sunlit) == {1, 2, 3};
    NewestOfThree();
  }

  lemma NoOrphans(refs: set<Ref>, p: Profile)
    ensures OrphansFit(refs, refs, p)
  {
    assert refs - refs == {};
    assert Ids({}, p) == {};
  }

  lemma OrderlyInScope()
    ensures InScope(Orderly())
  {
    OrderlyRefs();
  }

  lemma OrderlyArchives()
    ensures LocalOk(Orderly()) && RemoteOk(Orderly())
  {
    OrderlyRefs();
  }

  lemma OrderlyRows()
    ensures RowsOk(Orderly())
  {
    var w := Orderly();
    OrderlyKeeps();
    forall r | r in RowRefs(w, false) + RowRefs(w, true) ensures RowAt(w, r) {
      assert r in {FIRST, SECOND, THIRD};
    }
  }

  lemma OrderlyOrphans()
    ensures OrphansOk(Orderly())
  {
    var w := Orderly();
    OrderlyKeeps();
    forall p | p in PROFILES ensures OrphansFit(w.remote.Keys, Refs(w), p) { NoOrphans(Refs(w), p); }
  }

  lemma OrderlyKept()
    ensures KeptOk(Orderly()) && OlderOk(Orderly())
  {
    OrderlyKeeps();
  }

  lemma OrderlyIsReady()
    ensures Ready(Orderly())
  {
    assert WorldAccepts(Orderly()) by {
      OrderlyArchives();
      OrderlyRows();
      OrderlyOrphans();
      OrderlyKept();
    }
    OrderlyInScope();
    ReadyMeansAccepted(Orderly());
  }

  /** With the flag of the oldest generation cleared its plan is ready, and no number of runs, however
      disturbed, returns or changes the database. */
  method RefusedForEver(x: Executor, attempts: nat) returns (o: Outcome)
    requires x.w == Unflag(Orderly(), FIRST)
    modifies x
    ensures Ready(old(x.w)) && !o.Done? && x.w == old(x.w).(remote := x.w.remote)
  {
    OrderlyKeeps();
    OrderlyIsReady();
    ReadyButNotApplicable(Orderly(), FIRST);
    o := RunUntilDone(x, attempts);
  }
}
