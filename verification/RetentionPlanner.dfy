/** The fail-closed planner (`reconcile` and `_reconcile_replacement_mode` in
    src/game_control/backup_reconcile.py): loops over three lists that fill a refusal set and the
    plan's lists. */
module RetentionPlanner {
  import opened Ranking
  import opened RemoteRetention
  import opened RetentionApply
  import opened Wrappers

  /** A row can be indexed: a fixed profile and a generation id. */
  predicate Known(r: Ref) { Fixed(r.profile) && r.id >= 0 }

  /** Every row is known and no generation occurs twice. */
  predicate WellListed<T(==,!new)>(rows: seq<T>, refOf: T -> Ref) {
    && (forall x :: x in rows ==> Known(refOf(x)))
    && (forall i, j :: 0 <= i < j < |rows| ==> refOf(rows[i]) != refOf(rows[j]))
  }

  predicate Indexes<T(==,!new)>(m: map<Ref, T>, rows: seq<T>, refOf: T -> Ref) {
    && (forall r :: r in m ==> m[r] in rows && refOf(m[r]) == r && Known(r))
    && (forall x :: x in rows && Known(refOf(x)) ==> refOf(x) in m)
  }

  /** `_index_catalog`, `_index_protections`, `_index_remote`: the first row of every generation. */
  method Index<T(==,!new)>(rows: seq<T>, refOf: T -> Ref, what: string) returns (m: map<Ref, T>, refusals: set<string>)
    ensures refusals == {} <==> WellListed(rows, refOf)
    ensures Indexes(m, rows, refOf)
  {
    m, refusals := map[], {};
    for k := 0 to |rows|
      invariant Indexes(m, rows[..k], refOf)
      invariant refusals == {} <==> WellListed(rows[..k], refOf)
    {
      var x := rows[k];
      assert rows[..k + 1] == rows[..k] + [x];
      if !Known(refOf(x)) {
        refusals := refusals + {"unknown " + what};
        assert x in rows[..k + 1];
      } else if refOf(x) in m {
        refusals := refusals + {"duplicate " + what};
        ghost var j :| 0 <= j < k && rows[..k][j] == m[refOf(x)];
        assert refOf(rows[..k + 1][j]) == refOf(rows[..k + 1][k]);
      } else {
        m := m[refOf(x) := x];
        assert forall j :: 0 <= j < k ==> rows[..k][j] in rows[..k];
      }
    }
    assert rows[..|rows|] == rows;
  }

  // ---------- the plan's lists, one generation at a time ----------

  datatype Draft = Draft(refusals: set<string>, imports: seq<Item>, flags: seq<Flag>, replacements: seq<Item>,
                         older: seq<Item>, gone: seq<Item>)

  function ItemOf(e: Evidence, r: Ref): Item
    requires r in e.catalog
  {
    Item(r, ArchiveSize(e.catalog[r]), e.catalog[r].sha)
  }

  function Plus<T>(s: seq<T>, c: bool, x: T): seq<T> { if c then s + [x] else s }

  /** The draft with generation `r` added to every list that it belongs to. */
  function Extended(d: Draft, e: Evidence, r: Ref): Draft
    requires r in e.catalog
  {
    var x := ItemOf(e, r);
    Draft(d.refusals,
          Plus(d.imports, r in Imports(e), x),
          Plus(Plus(d.flags, r in Raised(e), Flag(r, true)), r in Lowered(e), Flag(r, false)),
          Plus(d.replacements, r in Replacements(e), x),
          Plus(d.older, r in Prunes(e), x),
          Plus(d.gone, r in Gone(e), x))
  }

  /** The decision for one of the newest two generations of a profile that has a remote object. */
  method PlanRemote(e: Evidence, r: Ref, before: Draft) returns (d: Draft)
    requires r in e.catalog && r in Kept(e) && r in e.remote
    ensures d.refusals == {} <==> before.refusals == {} && KeptSound(e, r)
    ensures d.refusals == {} ==> d == Extended(before, e, r)
  {
    d := before;
    var item := e.catalog[r];
    var proven := r in e.active && ProvesCryptcheck(e.active[r], item, e.remote[r]);
    if r in e.active {
      if !proven {
        d := d.(refusals := d.refusals + {"retained generation lacks canonical cryptcheck proof"});
      }
    } else if r in e.deleted {
      d := d.(refusals := d.refusals + {"deleted protection has matching remote generation"});
    } else {
      d := d.(imports := d.imports + [ItemOf(e, r)]);
    }
    if !item.isProtected {
      if !proven {
        d := d.(refusals := d.refusals + {"unprotected retained generation lacks canonical cryptcheck proof"});
      } else {
        d := d.(flags := d.flags + [Flag(r, true)]);
      }
    }
  }

  /** The decision for one of the newest two generations of a profile. */
  method PlanKept(e: Evidence, r: Ref, before: Draft) returns (d: Draft)
    requires r in e.catalog && r in Kept(e)
    ensures d.refusals == {} <==> before.refusals == {} && KeptSound(e, r)
    ensures d.refusals == {} ==> d == Extended(before, e, r)
  {
    d := before;
    var item := e.catalog[r];
    if r in e.remote {
      d := PlanRemote(e, r, before);
    } else if r in e.deleted {
      d := d.(refusals := d.refusals + {"deleted retained generation cannot be replacement"});
    } else if !item.isProtected {
      d := d.(refusals := d.refusals + {"unprotected local generation cannot be replacement"});
    } else if item.archiveSize.None? || item.archiveSize.value < 0 || item.sha < 0 {
      d := d.(refusals := d.refusals + {"replacement archive is unavailable"});
    } else {
      d := d.(replacements := d.replacements + [ItemOf(e, r)]);
    }
  }

  /** The decision for any other generation of the catalog. */
  method PlanOther(e: Evidence, r: Ref, before: Draft) returns (d: Draft)
    requires r in e.catalog && r !in Kept(e)
    ensures d.refusals == {} <==>
      && before.refusals == {}
      && (r in e.remote ==> OlderSound(e, r))
      && (r !in e.remote && r !in e.active && r in e.deleted ==> ProvesPrune(e.deleted[r], e.catalog[r]))
    ensures d.refusals == {} ==> d == Extended(before, e, r)
  {
    d := before;
    var item := e.catalog[r];
    if r in e.remote {
      if r in e.deleted {
        d := d.(refusals := d.refusals + {"deleted protection has matching remote generation"});
        return;
      }
      if r !in e.active || !ProvesCryptcheck(e.active[r], item, e.remote[r]) {
        d := d.(refusals := d.refusals + {"older remote generation lacks active protection"});
        return;
      }
      d := d.(older := d.older + [ItemOf(e, r)]);
    } else if r in e.active {
      d := d.(gone := d.gone + [ItemOf(e, r)]);
    } else if r in e.deleted && !ProvesPrune(e.deleted[r], item) {
      d := d.(refusals := d.refusals + {"deleted protection state is not proven"});
    }
    if item.isProtected {
      d := d.(flags := d.flags + [Flag(r, false)]);
    }
  }

  predicate FlagsUpto(flags: seq<Flag>, e: Evidence, done: set<Ref>) {
    && (forall i, j :: 0 <= i < j < |flags| ==> flags[i].ref != flags[j].ref)
    && (forall f :: f in flags ==> f.ref in done && f.ref in if f.target then Raised(e) else Lowered(e))
    && (forall r :: r in Raised(e) && r in done ==> Flag(r, true) in flags)
    && (forall r :: r in Lowered(e) && r in done ==> Flag(r, false) in flags)
  }

  /** The lists are complete for the generations in `done`. */
  predicate Drafted(d: Draft, e: Evidence, done: set<Ref>) {
    && FromCatalog(d.imports, Imports(e) * done, e)
    && FromCatalog(d.replacements, Replacements(e) * done, e)
    && FromCatalog(d.older, Prunes(e) * done, e)
    && FromCatalog(d.gone, Gone(e) * done, e)
    && FlagsUpto(d.flags, e, done)
  }

  lemma ListExtended(items: seq<Item>, refs: set<Ref>, e: Evidence, done: set<Ref>, r: Ref)
    requires FromCatalog(items, refs * done, e) && r !in done && r in e.catalog
    ensures FromCatalog(Plus(items, r in refs, ItemOf(e, r)), refs * (done + {r}), e)
  {
    var more := Plus(items, r in refs, ItemOf(e, r));
    forall x | x in items ensures x.ref != r { assert x.ref in Lists(items); }
    assert Lists(more) == refs * (done + {r}) by {
      assert Lists(more) == Lists(items) + (if r in refs then {r} else {});
    }
  }

  lemma FlagsExtended(flags: seq<Flag>, e: Evidence, done: set<Ref>, r: Ref)
    requires FlagsUpto(flags, e, done) && r !in done
    ensures FlagsUpto(Plus(Plus(flags, r in Raised(e), Flag(r, true)), r in Lowered(e), Flag(r, false)), e, done + {r})
  {
    assert !(r in Raised(e) && r in Lowered(e));
  }

  lemma DraftExtended(d: Draft, e: Evidence, done: set<Ref>, r: Ref)
    requires Drafted(d, e, done) && r !in done && r in e.catalog
    ensures Drafted(Extended(d, e, r), e, done + {r})
  {
    ListExtended(d.imports, Imports(e), e, done, r);
    ListExtended(d.replacements, Replacements(e), e, done, r);
    ListExtended(d.older, Prunes(e), e, done, r);
    ListExtended(d.gone, Gone(e), e, done, r);
    FlagsExtended(d.flags, e, done, r);
  }

  /** The decisions about one generation are accepted. */
  predicate Decided(e: Evidence, r: Ref)
    requires r in e.catalog
  {
    if r in Kept(e) then KeptSound(e, r)
    else
      && (r in e.remote ==> OlderSound(e, r))
      && (r !in e.remote && r !in e.active && r in e.deleted ==> ProvesPrune(e.deleted[r], e.catalog[r]))
  }

  /** `sorted(..., reverse=True)` of a profile's generation ids. */
  method SortIds(ids: set<int>) returns (s: seq<int>)
    ensures Elements(s) == ids
    ensures forall i, j :: 0 <= i < j < |s| ==> s[i] > s[j]
  {
    s := [];
    var todo := ids;
    while todo != {}
      invariant forall x :: x in ids <==> x in todo || x in s
      invariant forall i, j :: 0 <= i < j < |s| ==> s[i] > s[j]
      invariant forall x, i :: x in todo && 0 <= i < |s| ==> s[i] < x
      decreases todo
    {
      var least := Least(todo);
      s, todo := [least] + s, todo - {least};
    }
    assert forall x :: x in ids <==> x in s;
  }

  predicate AllDecided(e: Evidence, done: set<Ref>) {
    forall r :: r in done && r in e.catalog ==> Decided(e, r)
  }

  /** A draft whose refusals say whether everything so far was accepted. */
  predicate Tracks(d: Draft, e: Evidence, done: set<Ref>, gate: bool) {
    && done <= e.catalog.Keys
    && (d.refusals == {} <==> gate && AllDecided(e, done))
    && (d.refusals == {} ==> Drafted(d, e, done))
  }

  function OfProfile(refs: set<Ref>, p: Profile): set<Ref> {
    set r {:trigger r in refs} | r in refs && r.profile == p
  }

  lemma KeptAreSortedPrefix(refs: set<Ref>, p: Profile, ordered: seq<int>)
    requires Elements(ordered) == Ids(refs, p)
    requires forall i, j :: 0 <= i < j < |ordered| ==> ordered[i] > ordered[j]
    ensures forall k :: 0 <= k < |ordered| ==> Ref(p, ordered[k]) in refs
    ensures forall k :: 0 <= k < |ordered| ==> (Ref(p, ordered[k]) in Retained(refs) <==> k < RETENTION)
  {
    SortedPrefixIsNewest(Later, ordered, RETENTION);
    var m := Min(RETENTION, |ordered|);
    forall k | 0 <= k < |ordered|
      ensures Ref(p, ordered[k]) in refs && (Ref(p, ordered[k]) in Retained(refs) <==> k < RETENTION)
    {
      assert ordered[k] in Elements(ordered);
      assert ordered[k] in Elements(ordered[..m]) <==> k < m by {
        if k < m { assert ordered[..m][k] == ordered[k]; }
      }
    }
  }

  /** The decision for one generation, and what it adds to the draft. */
  method PlanOne(e: Evidence, r: Ref, kept: bool, before: Draft, ghost done: set<Ref>, ghost gate: bool)
    returns (d: Draft)
    requires Tracks(before, e, done, gate) && r in e.catalog && r !in done && (kept <==> r in Kept(e))
    ensures Tracks(d, e, done + {r}, gate)
  {
    if kept {
      d := PlanKept(e, r, before);
    } else {
      d := PlanOther(e, r, before);
    }
    assert d.refusals == {} <==> before.refusals == {} && Decided(e, r);
    if before.refusals == {} { DraftExtended(before, e, done, r); }
  }

  /** The part of a profile that the first `k` ids of `ordered` cover. */
  function Covered(p: Profile, ordered: seq<int>, k: nat): set<Ref>
    requires k <= |ordered|
  {
    set i | i in Elements(ordered[..k]) :: Ref(p, i)
  }

  lemma CoveredStep(p: Profile, ordered: seq<int>, k: nat)
    requires k < |ordered| && forall i, j :: 0 <= i < j < |ordered| ==> ordered[i] > ordered[j]
    ensures Covered(p, ordered, k + 1) == Covered(p, ordered, k) + {Ref(p, ordered[k])}
    ensures Ref(p, ordered[k]) !in Covered(p, ordered, k)
  {
    assert ordered[..k + 1] == ordered[..k] + [ordered[k]];
  }

  lemma NotSeen(done: set<Ref>, p: Profile, ordered: seq<int>, k: nat)
    requires k < |ordered| && OfProfile(done, p) == {}
    requires forall i, j :: 0 <= i < j < |ordered| ==> ordered[i] > ordered[j]
    ensures done + Covered(p, ordered, k) + {Ref(p, ordered[k])} == done + Covered(p, ordered, k + 1)
    ensures Ref(p, ordered[k]) !in done + Covered(p, ordered, k)
  {
    var r := Ref(p, ordered[k]);
    CoveredStep(p, ordered, k);
    assert r in done ==> r in OfProfile(done, p);
  }

  lemma CoveredAll(refs: set<Ref>, p: Profile, ordered: seq<int>)
    requires Elements(ordered) == Ids(refs, p)
    ensures Covered(p, ordered, |ordered|) == OfProfile(refs, p)
  {
    assert ordered[..|ordered|] == ordered;
    forall r | r in OfProfile(refs, p) ensures r in Covered(p, ordered, |ordered|) {
      assert r.id in Elements(ordered);
    }
  }

  /** The three loops over one profile's generations: the newest two, then the others. */
  method PlanGenerations(e: Evidence, p: Profile, ordered: seq<int>, before: Draft, ghost done: set<Ref>,
                         ghost gate: bool)
    returns (d: Draft)
    requires Tracks(before, e, done, gate) && OfProfile(done, p) == {}
    requires Elements(ordered) == Ids(e.catalog.Keys, p)
    requires forall i, j :: 0 <= i < j < |ordered| ==> ordered[i] > ordered[j]
    ensures Tracks(d, e, done + OfProfile(e.catalog.Keys, p), gate)
  {
    KeptAreSortedPrefix(e.catalog.Keys, p, ordered);
    d := before;
    ghost var seen := done;
    assert seen == done + Covered(p, ordered, 0);
    for k := 0 to |ordered|
      invariant seen == done + Covered(p, ordered, k) && Tracks(d, e, seen, gate)
    {
      var r := Ref(p, ordered[k]);
      NotSeen(done, p, ordered, k);
      d := PlanOne(e, r, k < RETENTION, d, seen, gate);
      seen := seen + {r};
    }
    CoveredAll(e.catalog.Keys, p, ordered);
  }

  function Blocked(d: Draft, reason: string): Draft { d.(refusals := d.refusals + {reason}) }

  lemma OldestKept(catalog: set<Ref>, p: Profile, ordered: seq<int>, orphan: int)
    requires Elements(ordered) == Ids(catalog, p) && ordered != []
    requires forall i, j :: 0 <= i < j < |ordered| ==> ordered[i] > ordered[j]
    ensures orphan < ordered[Min(RETENTION, |ordered|) - 1] <==>
      forall r {:trigger r in Retained(catalog)} :: r in Retained(catalog) && r.profile == p ==> orphan < r.id
  {
    KeptAreSortedPrefix(catalog, p, ordered);
    var m := Min(RETENTION, |ordered|) - 1;
    assert Ref(p, ordered[m]) in Retained(catalog);
    forall r | r in Retained(catalog) && r.profile == p ensures ordered[m] <= r.id {
      assert r.id in Elements(ordered);
      var k :| 0 <= k < |ordered| && ordered[k] == r.id;
      assert Ref(p, ordered[k]) == r;
    }
  }

  lemma BlockedTracks(d: Draft, e: Evidence, done: set<Ref>, more: set<Ref>, reason: string)
    requires done + more <= e.catalog.Keys
    ensures Tracks(Blocked(d, reason), e, done + more, false)
  {
    assert reason in Blocked(d, reason).refusals;
  }

  lemma SameTracks(d: Draft, e: Evidence, done: set<Ref>, more: set<Ref>, gate: bool)
    requires Tracks(d, e, done, gate) && more == {}
    ensures Tracks(d, e, done + more, gate)
  {
    assert done + more == done;
  }

  /** The body of the loop over the fixed profiles. */
  method PlanProfile(e: Evidence, p: Profile, before: Draft, ghost done: set<Ref>, ghost gate: bool) returns (d: Draft)
    requires Tracks(before, e, done, gate) && OfProfile(done, p) == {}
    ensures Tracks(d, e, done + OfProfile(e.catalog.Keys, p), gate && OrphansFit(e.remote.Keys, e.catalog.Keys, p))
  {
    ghost var own := OfProfile(e.catalog.Keys, p);
    var orphans := Ids(e.remote.Keys - e.catalog.Keys, p);
    if |orphans| > MAX_ORPHANS {
      BlockedTracks(before, e, done, own, "remote orphan count exceeds bound");
      return Blocked(before, "remote orphan count exceeds bound");
    }
    var ordered := SortIds(Ids(e.catalog.Keys, p));
    d := before;
    if ordered == [] {
      NoGenerations(e, p);
      if Ids(e.remote.Keys, p) != {} {
        BlockedTracks(before, e, done, own, "remote inventory has no catalog retention set");
        return Blocked(before, "remote inventory has no catalog retention set");
      }
      SameTracks(d, e, done, own, gate);
      return;
    }
    var oldest := ordered[Min(RETENTION, |ordered|) - 1];
    OrphansFitWhen(e.remote.Keys, e.catalog.Keys, p, ordered, oldest);
    if exists o :: o in orphans && o >= oldest {
      BlockedTracks(d, e, done, {}, "remote orphan recency is ambiguous");
      assert done + {} == done;
      d := Blocked(d, "remote orphan recency is ambiguous");
    }
    d := PlanGenerations(e, p, ordered, d, done, gate && OrphansFit(e.remote.Keys, e.catalog.Keys, p));
  }

  lemma NoGenerations(e: Evidence, p: Profile)
    requires Ids(e.catalog.Keys, p) == {}
    ensures OfProfile(e.catalog.Keys, p) == {}
    ensures Ids(e.remote.Keys, p) == {} ==> OrphansFit(e.remote.Keys, e.catalog.Keys, p)
  {
    forall r | r in OfProfile(e.catalog.Keys, p) ensures r.id in Ids(e.catalog.Keys, p) {}
    if Ids(e.remote.Keys, p) == {} {
      forall r | r in e.remote.Keys && r.profile == p ensures r.id in Ids(e.remote.Keys, p) {}
      assert Ids(e.remote.Keys - e.catalog.Keys, p) == {};
    }
  }

  lemma OrphansFitWhen(remote: set<Ref>, catalog: set<Ref>, p: Profile, ordered: seq<int>, oldest: int)
    requires Elements(ordered) == Ids(catalog, p) && ordered != []
    requires forall i, j :: 0 <= i < j < |ordered| ==> ordered[i] > ordered[j]
    requires oldest == ordered[Min(RETENTION, |ordered|) - 1]
    requires |Ids(remote - catalog, p)| <= MAX_ORPHANS
    ensures OrphansFit(remote, catalog, p) <==> !exists o :: o in Ids(remote - catalog, p) && o >= oldest
  {
    assert ordered[0] in Elements(ordered);
    if exists o :: o in Ids(remote - catalog, p) && o >= oldest {
      var o :| o in Ids(remote - catalog, p) && o >= oldest;
      assert Ref(p, o) in remote - catalog;
      OldestKept(catalog, p, ordered, o);
    } else {
      forall o | o in remote - catalog && o.profile == p
        ensures forall r {:trigger r in Retained(catalog)} :: r in Retained(catalog) && r.profile == p ==> o.id < r.id
      {
        assert o.id in Ids(remote - catalog, p);
        OldestKept(catalog, p, ordered, o.id);
      }
    }
  }

  // ---------- the whole planner ----------

  function CatalogRef(c: Catalog): Ref { c.ref }
  function RemoteRef(r: Remote): Ref { r.ref }
  function RowRef(x: Protection): Ref { Ref(x.row.profile, x.id) }

  function RowsBy(m: map<Ref, Protection>): map<Ref, Row> { map r | r in m :: m[r].row }

  function WithPrune(rows: seq<Protection>, deleted: bool): seq<Protection> {
    if rows == [] then []
    else Plus(WithPrune(rows[..|rows| - 1], deleted), rows[|rows| - 1].row.prune.Deleted? == deleted, rows[|rows| - 1])
  }

  /** The orphans as a list of items. */
  method ListOrphans(e: Evidence, orphans: set<Ref>) returns (items: seq<Item>)
    requires orphans <= e.remote.Keys
    ensures Once(items) && Lists(items) == orphans
    ensures forall x :: x in items ==> x.ref in e.remote && x.size == e.remote[x.ref].size
  {
    items := [];
    var todo := orphans;
    while todo != {}
      invariant Once(items) && todo <= orphans && Lists(items) == orphans - todo
      invariant forall x :: x in items ==> x.ref in e.remote && x.size == e.remote[x.ref].size
      decreases todo
    {
      var r :| r in todo;
      forall x | x in items ensures x.ref != r { assert x.ref in Lists(items); }
      var x := Item(r, e.remote[r].size, e.remote[r].sha);
      assert Lists(items + [x]) == Lists(items) + {r};
      items, todo := items + [x], todo - {r};
    }
  }

  /** The refusals of one catalog row. */
  function CatalogRefusals(c: Catalog): set<string> {
    (if c.archiveSize.Some? && c.archiveSize.value != c.size then {"local archive size differs from catalog"} else {})
    + (if c.size < 0 || c.sha < 0 then {"local archive metadata is invalid"} else {})
    + (if !c.verified then {"unverified catalog generation is in scope"} else {})
  }

  lemma CatalogRefusalsExact(c: Catalog)
    ensures CatalogRefusals(c) == {} <==> CatalogSound(c)
  {
    assert CatalogSound(c) ==> CatalogRefusals(c) == {};
  }

  /** The loop over the catalog rows: every refusal of every row is collected, and there is none
      exactly when every row is sound. */
  method CheckCatalog(e: Evidence) returns (refusals: set<string>)
    ensures refusals == {} <==> CatalogAccepted(e)
    ensures forall r :: r in e.catalog ==> CatalogRefusals(e.catalog[r]) <= refusals
    ensures forall m :: m in refusals ==> exists r :: r in e.catalog && m in CatalogRefusals(e.catalog[r])
  {
    refusals := {};
    var todo := e.catalog.Keys;
    while todo != {}
      invariant todo <= e.catalog.Keys
      invariant forall r :: r in e.catalog && r !in todo ==> CatalogRefusals(e.catalog[r]) <= refusals
      invariant forall m :: m in refusals ==> exists r :: r in e.catalog && m in CatalogRefusals(e.catalog[r])
      decreases todo
    {
      var r :| r in todo;
      var item := e.catalog[r];
      if item.archiveSize.Some? && item.archiveSize.value != item.size {
        refusals := refusals + {"local archive size differs from catalog"};
      }
      if item.size < 0 || item.sha < 0 {
        refusals := refusals + {"local archive metadata is invalid"};
      }
      if !item.verified {
        refusals := refusals + {"unverified catalog generation is in scope"};
      }
      todo := todo - {r};
    }
    forall r | r in e.catalog ensures CatalogRefusals(e.catalog[r]) == {} <==> CatalogSound(e.catalog[r]) {
      CatalogRefusalsExact(e.catalog[r]);
    }
    if refusals != {} {
      ghost var m := Ranking.Member(refusals);
      ghost var r :| r in e.catalog && m in CatalogRefusals(e.catalog[r]);
    }
  }

  /** The loop over the listed objects: those that match their catalog row pass, those without one are
      collected as orphans if proven, everything else is refused. */
  method CheckRemote(e: Evidence) returns (refusals: set<string>, orphans: set<Ref>)
    ensures refusals == {} <==> RemoteAccepted(e)
    ensures "unknown remote generation" in refusals <==>
      exists r :: r in e.remote && r !in e.catalog && !OrphanSound(e.remote[r])
    ensures "remote archive does not match verified catalog" in refusals <==>
      exists r :: r in e.remote && r in e.catalog && !RemoteMatches(e.remote[r], e.catalog[r])
    ensures orphans <= e.remote.Keys && (refusals == {} ==> orphans == Orphans(e))
  {
    refusals, orphans := {}, {};
    var todo := e.remote.Keys;
    ghost var unknown, mismatch := false, false;
    while todo != {}
      invariant todo <= e.remote.Keys
      invariant unknown <==> exists r :: r in e.remote && r !in todo && r !in e.catalog && !OrphanSound(e.remote[r])
      invariant mismatch <==>
        exists r :: r in e.remote && r !in todo && r in e.catalog && !RemoteMatches(e.remote[r], e.catalog[r])
      invariant refusals == (if unknown then {"unknown remote generation"} else {})
        + (if mismatch then {"remote archive does not match verified catalog"} else {})
      invariant forall r :: r in orphans <==> r in e.remote && r !in todo && r !in e.catalog && OrphanSound(e.remote[r])
      decreases todo
    {
      var r :| r in todo;
      todo := todo - {r};
      if r !in e.catalog {
        if OrphanSound(e.remote[r]) {
          orphans := orphans + {r};
        } else {
          refusals, unknown := refusals + {"unknown remote generation"}, true;
        }
      } else if !RemoteMatches(e.remote[r], e.catalog[r]) {
        refusals, mismatch := refusals + {"remote archive does not match verified catalog"}, true;
      }
    }
    forall r | r in e.remote
      ensures !RemoteSound(e, r) <==>
        || (r !in e.catalog && !OrphanSound(e.remote[r]))
        || (r in e.catalog && !RemoteMatches(e.remote[r], e.catalog[r]))
    {
    }
    if refusals == {} {
      forall r | r in e.remote ensures RemoteSound(e, r) {}
    }
  }

  /** The refusals of one live protection row. */
  function RowRefusals(e: Evidence, r: Ref): set<string>
    requires r in e.active
  {
    if r !in e.catalog then {"unknown protection row"}
    else
      (if e.active[r].key != Canonical(r) then {"protection destination is not canonical"} else {})
      + (if e.active[r].sha != e.catalog[r].sha then {"protection checksum differs from catalog"} else {})
      + (if !Proven(e.active[r]) then {"protection verification state is not proven"} else {})
  }

  lemma RowRefusalsExact(e: Evidence, r: Ref)
    requires r in e.active
    ensures RowRefusals(e, r) == {} <==> RowSound(e, r)
  {
    assert RowSound(e, r) ==> RowRefusals(e, r) == {};
  }

  /** The loop over the live protection rows. */
  method CheckActive(e: Evidence) returns (refusals: set<string>)
    ensures refusals == {} <==> forall r :: r in e.active ==> RowSound(e, r)
    ensures forall r :: r in e.active ==> RowRefusals(e, r) <= refusals
    ensures forall m :: m in refusals ==> exists r :: r in e.active && m in RowRefusals(e, r)
  {
    refusals := {};
    var todo := e.active.Keys;
    while todo != {}
      invariant todo <= e.active.Keys
      invariant forall r :: r in e.active && r !in todo ==> RowRefusals(e, r) <= refusals
      invariant forall m :: m in refusals ==> exists r :: r in e.active && m in RowRefusals(e, r)
      decreases todo
    {
      var r :| r in todo;
      var item := e.active[r];
      todo := todo - {r};
      if r !in e.catalog {
        refusals := refusals + {"unknown protection row"};
        continue;
      }
      if item.key != Canonical(r) {
        refusals := refusals + {"protection destination is not canonical"};
      }
      if item.sha != e.catalog[r].sha {
        refusals := refusals + {"protection checksum differs from catalog"};
      }
      if !Proven(item) {
        refusals := refusals + {"protection verification state is not proven"};
      }
    }
    forall r | r in e.active ensures RowRefusals(e, r) == {} <==> RowSound(e, r) { RowRefusalsExact(e, r); }
    if refusals != {} {
      ghost var m := Ranking.Member(refusals);
      ghost var r :| r in e.active && m in RowRefusals(e, r);
    }
  }

  /** The two loops over the rows that are marked deleted. */
  method CheckDeleted(e: Evidence) returns (refusals: set<string>)
    ensures refusals == {} <==> forall r :: r in e.deleted ==> DeletedSound(e, r)
    ensures "deleted protection row has no catalog generation" in refusals <==>
      exists r :: r in e.deleted && r !in e.catalog
    ensures "deleted protection state is not proven" in refusals <==> exists r :: r in e.deleted && !DeletedSound(e, r)
  {
    refusals := {};
    var todo := e.deleted.Keys;
    ghost var missing, unproven := false, false;
    while todo != {}
      invariant todo <= e.deleted.Keys
      invariant missing <==> exists r :: r in e.deleted && r !in todo && r !in e.catalog
      invariant unproven <==> exists r :: r in e.deleted && r !in todo && !DeletedSound(e, r)
      invariant refusals == (if missing then {"deleted protection row has no catalog generation"} else {})
        + (if unproven then {"deleted protection state is not proven"} else {})
      decreases todo
    {
      var r :| r in todo;
      todo := todo - {r};
      if r !in e.catalog {
        refusals, missing := refusals + {"deleted protection row has no catalog generation"}, true;
      }
      if !DeletedSound(e, r) {
        refusals, unproven := refusals + {"deleted protection state is not proven"}, true;
      }
    }
  }

  /** The checks that come before the profiles. */
  method CheckAll(e: Evidence, before: set<string>) returns (refusals: set<string>, orphans: set<Ref>)
    ensures refusals == {} <==> before == {} && CatalogAccepted(e) && RemoteAccepted(e) && RowsAccepted(e)
    ensures orphans <= e.remote.Keys && (refusals == {} ==> orphans == Orphans(e))
  {
    var a := CheckCatalog(e);
    var b, found := CheckRemote(e);
    var c := CheckActive(e);
    var d := CheckDeleted(e);
    refusals, orphans := before + a + b + c + d, found;
  }

  lemma DecidedMeansAccepted(e: Evidence)
    requires RowsAccepted(e)
    ensures AllDecided(e, e.catalog.Keys) <==> KeptAccepted(e) && OlderAccepted(e)
  {
    if AllDecided(e, e.catalog.Keys) {
      forall r | r in Kept(e) ensures KeptSound(e, r) { assert Decided(e, r); }
      forall r | r in Older(e.remote.Keys, e.catalog.Keys) ensures OlderSound(e, r) { assert Decided(e, r); }
    }
    if KeptAccepted(e) && OlderAccepted(e) {
      forall r | r in e.catalog ensures Decided(e, r) {
        if r !in Kept(e) && r in e.remote { assert r in Older(e.remote.Keys, e.catalog.Keys); }
      }
    }
  }

  lemma DraftIsPlan(d: Draft, e: Evidence, orphans: seq<Item>)
    requires Drafted(d, e, e.catalog.Keys)
    requires Once(orphans) && Lists(orphans) == Orphans(e)
    requires forall x :: x in orphans ==> x.ref in e.remote && x.size == e.remote[x.ref].size
    ensures PlanFor(PlanOf(d, e, orphans), e)
    ensures Lists(d.replacements) == Replacements(e) && Lists(d.older) == Prunes(e) * e.catalog.Keys
  {
    assert Imports(e) * e.catalog.Keys == Imports(e);
    assert Replacements(e) * e.catalog.Keys == Replacements(e);
    assert Gone(e) * e.catalog.Keys == Gone(e);
  }

  lemma DraftIsExact(d: Draft, e: Evidence, orphans: seq<Item>)
    requires Lists(d.replacements) == Replacements(e) && Lists(d.older) == Prunes(e) * e.catalog.Keys
      && Lists(orphans) == Orphans(e)
    ensures (e.remote.Keys + Lists(d.replacements)) - (Lists(d.older) + Lists(orphans)) == Kept(e)
  {
    RetentionIsExact(e);
    assert Prunes(e) == Prunes(e) * e.catalog.Keys + Orphans(e);
  }

  function PlanOf(d: Draft, e: Evidence, orphans: seq<Item>): Plan {
    Plan(d.imports, d.flags, d.replacements, orphans, d.older, d.gone, map r | r in e.remote :: e.remote[r].size)
  }

  /** The generations of the first `k` profiles. */
  function Upto(refs: set<Ref>, k: nat): set<Ref>
    requires k <= |PROFILES|
  {
    set r {:trigger r in refs} | r in refs && r.profile in PROFILES[..k]
  }

  lemma UptoStep(refs: set<Ref>, k: nat)
    requires k < |PROFILES|
    ensures OfProfile(Upto(refs, k), PROFILES[k]) == {}
    ensures Upto(refs, k + 1) == Upto(refs, k) + OfProfile(refs, PROFILES[k])
  {
    assert PROFILES[k] !in PROFILES[..k];
    assert PROFILES[..k + 1] == PROFILES[..k] + [PROFILES[k]];
  }

  predicate FitUpto(e: Evidence, k: nat)
    requires k <= |PROFILES|
  {
    forall j :: 0 <= j < k ==> OrphansFit(e.remote.Keys, e.catalog.Keys, PROFILES[j])
  }

  /** The loop over the fixed profiles. */
  method PlanProfiles(e: Evidence, before: set<string>) returns (d: Draft)
    requires forall r {:trigger r in e.catalog} :: r in e.catalog ==> Fixed(r.profile)
    ensures Tracks(d, e, e.catalog.Keys, before == {} && OrphansAccepted(e))
  {
    d := Draft(before, [], [], [], [], []);
    for k := 0 to |PROFILES|
      invariant Tracks(d, e, Upto(e.catalog.Keys, k), before == {} && FitUpto(e, k))
    {
      UptoStep(e.catalog.Keys, k);
      d := PlanProfile(e, PROFILES[k], d, Upto(e.catalog.Keys, k), before == {} && FitUpto(e, k));
      assert FitUpto(e, k + 1) <==> FitUpto(e, k) && OrphansFit(e.remote.Keys, e.catalog.Keys, PROFILES[k]);
    }
    assert Upto(e.catalog.Keys, |PROFILES|) == e.catalog.Keys by { assert PROFILES[..|PROFILES|] == PROFILES; }
    assert FitUpto(e, |PROFILES|) <==> OrphansAccepted(e);
  }

  /** Planning from indexed evidence.  The last check, that uploads and deletions leave exactly
      the retention set, refuses nothing that was not refused already. */
  method PlanEvidence(e: Evidence, before: set<string>) returns (refusals: set<string>, plan: Plan)
    requires forall r {:trigger r in e.catalog} :: r in e.catalog ==> Fixed(r.profile)
    ensures refusals == {} <==> before == {} && Accepts(e)
    ensures refusals == {} ==> PlanFor(plan, e)
  {
    var checked, found := CheckAll(e, before);
    var d := PlanProfiles(e, checked);
    var orphans := ListOrphans(e, found);
    if RowsAccepted(e) { DecidedMeansAccepted(e); }
    refusals := d.refusals;
    plan := PlanOf(d, e, orphans);
    if refusals == {} {
      DraftIsPlan(d, e, orphans);
      DraftIsExact(d, e, orphans);
    }
    if (e.remote.Keys + Lists(d.replacements)) - (Lists(d.older) + Lists(orphans)) != Kept(e) {
      refusals := refusals + {"canonical retention result is not exact"};
    }
  }

  /** `reconcile(..., replacement_mode=True)`: the plan is ready exactly when the three lists are
      well formed and their evidence is acceptable, and then it is the plan of that evidence. */
  method Reconcile(catalog: seq<Catalog>, protections: seq<Protection>, remote: seq<Remote>)
    returns (refusals: set<string>, plan: Plan, e: Evidence)
    ensures Indexes(e.catalog, catalog, CatalogRef) && Indexes(e.remote, remote, RemoteRef)
    ensures exists m :: Indexes(m, WithPrune(protections, false), RowRef) && e.active == RowsBy(m)
    ensures exists m :: Indexes(m, WithPrune(protections, true), RowRef) && e.deleted == RowsBy(m)
    ensures refusals == {} <==>
      && WellListed(catalog, CatalogRef) && WellListed(remote, RemoteRef)
      && WellListed(WithPrune(protections, false), RowRef) && WellListed(WithPrune(protections, true), RowRef)
      && Accepts(e)
    ensures refusals == {} ==> PlanFor(plan, e)
  {
    var catalogs, a := Index(catalog, CatalogRef, "catalog generation");
    var active, b := Index(WithPrune(protections, false), RowRef, "protection row");
    var deleted, c := Index(WithPrune(protections, true), RowRef, "deleted protection row");
    var remotes, d := Index(remote, RemoteRef, "remote generation");
    e := Evidence(catalogs, RowsBy(active), RowsBy(deleted), remotes);
    refusals, plan := PlanEvidence(e, a + b + c + d);
  }
}
