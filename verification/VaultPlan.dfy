/** The plan-only candidate enumeration for the laptop archive vault (`build_plan` in
    ops/laptop-backup/retention_plan.py).  Objects are content addressed: several catalog entries,
    its aliases, may share one digest.  Ids, profiles, digests and times are integers. */
module VaultPlan {
  import opened Ranking
  import opened Wrappers

  datatype Outcome<T> = Refused | Done(value: T)

  datatype Scope = RemoteVault | LocalPayload

  datatype LedgerState = Prepared | Quarantined | PurgePrepared | Purged | Failed | Ambiguous
                       | Present | RolledBack | Missing | UnknownState

  /** A catalog row; `created` is `None` for a date that does not parse or names no time zone. */
  datatype Item = Item(id: int, profile: int, size: int, digest: int, created: Option<int>)

  datatype Entry = Entry(id: int, profile: int, size: int, digest: int, created: int)

  datatype LedgerRow = LedgerRow(id: int, state: LedgerState)

  datatype Member = Member(digest: int, size: int)

  datatype Inventory = Inventory(budget: int, reserve: int, used: int, available: int,
                                 keep: Option<int>, scope: Option<Scope>,
                                 catalog: seq<Item>, protections: seq<int>, ledger: seq<LedgerRow>,
                                 manifests: seq<Member>)

  datatype Reason = WithinKeepNewest | IsProtected | BlockingLedgerState | ReferencedByManifest | NoManifestCopy

  datatype Candidate = Candidate(digest: int, size: int, ids: seq<int>)

  datatype Plan = Plan(candidates: seq<Candidate>, excluded: map<int, Reason>, freed: int)

  const MIN_KEEP_NEWEST := 2

  // ---------- what is accepted ----------

  function EntryOf(i: Item): Entry {
    Entry(i.id, i.profile, i.size, i.digest, if i.created.Some? then i.created.value else 0)
  }

  ghost predicate GoodItems(items: seq<Item>) {
    && (forall i :: 0 <= i < |items| ==> items[i].size >= 0 && items[i].created.Some?)
    && (forall i, j :: 0 <= i < j < |items| ==> items[i].id != items[j].id)
    && (forall i, j :: 0 <= i < j < |items| && items[i].digest == items[j].digest ==> items[i].size == items[j].size)
  }

  ghost function Ids(items: seq<Item>): set<int> { set i | i in items :: i.id }

  ghost function EntriesOf(items: seq<Item>): set<Entry> { set i | i in items :: EntryOf(i) }

  ghost predicate GoodProtections(ids: seq<int>, known: set<int>) {
    (forall i, j :: 0 <= i < j < |ids| ==> ids[i] != ids[j]) && forall i :: 0 <= i < |ids| ==> ids[i] in known
  }

  ghost predicate GoodLedger(rows: seq<LedgerRow>, known: set<int>) {
    && (forall i :: 0 <= i < |rows| ==> !rows[i].state.UnknownState? && rows[i].id in known)
    && (forall i, j :: 0 <= i < j < |rows| && rows[i].id == rows[j].id ==> rows[i].state == rows[j].state)
  }

  ghost predicate GoodManifests(ms: seq<Member>, items: seq<Item>) {
    && (forall i :: 0 <= i < |ms| ==> ms[i].size >= 0)
    && (forall i, j :: 0 <= i < j < |ms| && ms[i].digest == ms[j].digest ==> ms[i].size == ms[j].size)
    && (forall i, j :: 0 <= i < |ms| && 0 <= j < |items| && ms[i].digest == items[j].digest ==>
          ms[i].size == items[j].size)
  }

  ghost predicate GoodPolicy(v: Inventory) {
    && v.budget > 0 && v.reserve > 0 && v.used >= 0 && v.available >= 0
    && v.keep.Some? && v.keep.value >= MIN_KEEP_NEWEST && v.scope.Some? && v.catalog != []
  }

  ghost predicate Accepts(v: Inventory) {
    && GoodPolicy(v) && GoodItems(v.catalog)
    && GoodProtections(v.protections, Ids(v.catalog))
    && GoodLedger(v.ledger, Ids(v.catalog))
    && GoodManifests(v.manifests, v.catalog)
  }

  // ---------- what is kept ----------

  predicate Newer(a: Entry, b: Entry) { a.created > b.created || (a.created == b.created && a.id > b.id) }

  predicate Blocks(s: LedgerState) {
    s.Prepared? || s.Quarantined? || s.PurgePrepared? || s.Purged? || s.Failed? || s.Ambiguous?
  }

  /** What decides about an entry: all entries, the protected and the blocked ids, the digests a
      manifest refers to, and the policy. */
  datatype Context = Context(entries: set<Entry>, guarded: set<int>, blocking: set<int>, referenced: set<int>,
                             keep: nat, scope: Scope)

  ghost function ContextOf(v: Inventory): Context
    requires Accepts(v)
  {
    Context(EntriesOf(v.catalog), Elements(v.protections),
            set r | r in v.ledger && Blocks(r.state) :: r.id, set m | m in v.manifests :: m.digest,
            v.keep.value, v.scope.value)
  }

  ghost function OfProfile(entries: set<Entry>, profile: int): set<Entry> {
    set e | e in entries && e.profile == profile
  }

  ghost predicate KeptNewest(c: Context, e: Entry) { e in Newest(Newer, OfProfile(c.entries, e.profile), c.keep) }

  /** Why an entry is kept, if it is: the first reason that applies. */
  ghost function ReasonFor(c: Context, e: Entry): Option<Reason> {
    if KeptNewest(c, e) then Some(WithinKeepNewest)
    else if e.id in c.guarded then Some(IsProtected)
    else if e.id in c.blocking then Some(BlockingLedgerState)
    else if c.scope.RemoteVault? && e.digest in c.referenced then Some(ReferencedByManifest)
    else if c.scope.LocalPayload? && e.digest !in c.referenced then Some(NoManifestCopy)
    else None
  }

  /** A digest whose every alias may go. */
  ghost predicate Eligible(c: Context, digest: int) {
    && (exists e {:trigger e in c.entries} :: e in c.entries && e.digest == digest)
    && (forall e {:trigger e in c.entries} :: e in c.entries && e.digest == digest ==> ReasonFor(c, e).None?)
  }

  // ---------- the plan ----------

  function Total(cs: seq<Candidate>): int { if cs == [] then 0 else Total(cs[..|cs| - 1]) + cs[|cs| - 1].size }

  ghost predicate Sorted(s: seq<int>) { forall i, j :: 0 <= i < j < |s| ==> s[i] < s[j] }

  ghost function Aliases(entries: set<Entry>, digest: int): set<int> {
    set e | e in entries && e.digest == digest :: e.id
  }

  /** A candidate names its digest, the size of its aliases, and all of them in ascending order. */
  ghost predicate Describes(cand: Candidate, entries: set<Entry>) {
    && (forall e {:trigger e in entries} :: e in entries && e.digest == cand.digest ==> e.size == cand.size)
    && Sorted(cand.ids) && Elements(cand.ids) == Aliases(entries, cand.digest)
  }

  /** Exactly the eligible digests, each once, in ascending order. */
  ghost predicate GoodCandidates(cs: seq<Candidate>, c: Context) {
    && (forall i :: 0 <= i < |cs| ==> Eligible(c, cs[i].digest) && Describes(cs[i], c.entries))
    && (forall d :: Eligible(c, d) ==> exists i :: 0 <= i < |cs| && cs[i].digest == d)
    && (forall i, j :: 0 <= i < j < |cs| ==> cs[i].digest < cs[j].digest)
  }

  /** An entry's own reason, or else the reason of an alias that has one. */
  ghost predicate GoodExclusion(excluded: map<int, Reason>, c: Context, e: Entry) {
    if ReasonFor(c, e).Some? then e.id in excluded && excluded[e.id] == ReasonFor(c, e).value
    else if Eligible(c, e.digest) then e.id !in excluded
    else
      && e.id in excluded
      && exists a {:trigger a in c.entries} ::
        a in c.entries && a.digest == e.digest && ReasonFor(c, a) == Some(excluded[e.id])
  }

  ghost predicate GoodPlan(p: Plan, c: Context) {
    && GoodCandidates(p.candidates, c) && p.freed == Total(p.candidates)
    && (forall e {:trigger e in c.entries} :: e in c.entries ==> GoodExclusion(p.excluded, c, e))
    && p.excluded.Keys <= EntryIds(c.entries)
  }

  // ---------- what a plan promises ----------

  ghost function CandidateIds(p: Plan): set<int> { set cand, id | cand in p.candidates && id in cand.ids :: id }

  ghost function EntryIds(entries: set<Entry>): set<int> { set e | e in entries :: e.id }

  ghost predicate DistinctIds(entries: set<Entry>) {
    forall e, f {:trigger e in entries, f in entries} :: e in entries && f in entries && e.id == f.id ==> e == f
  }

  lemma IdsAreDistinct(items: seq<Item>)
    requires GoodItems(items)
    ensures DistinctIds(EntriesOf(items))
  {
    var entries := EntriesOf(items);
    forall e, f | e in entries && f in entries && e.id == f.id ensures e == f {
      var x :| x in items && EntryOf(x) == e;
      var y :| y in items && EntryOf(y) == f;
      var i :| 0 <= i < |items| && items[i] == x;
      var j :| 0 <= j < |items| && items[j] == y;
    }
  }

  lemma CandidateNotExcluded(excluded: map<int, Reason>, c: Context, cand: Candidate, id: int)
    requires DistinctIds(c.entries) && Eligible(c, cand.digest) && Describes(cand, c.entries) && id in cand.ids
    requires forall e {:trigger e in c.entries} :: e in c.entries ==> GoodExclusion(excluded, c, e)
    ensures id in EntryIds(c.entries) && id !in excluded
  {
    assert id in Elements(cand.ids);
    var e :| e in c.entries && e.id == id && e.digest == cand.digest;
    assert GoodExclusion(excluded, c, e);
  }

  lemma NotExcludedIsCandidate(p: Plan, c: Context, e: Entry)
    requires GoodCandidates(p.candidates, c) && e in c.entries && GoodExclusion(p.excluded, c, e) && e.id !in p.excluded
    ensures e.id in CandidateIds(p)
  {
    var i :| 0 <= i < |p.candidates| && p.candidates[i].digest == e.digest;
    assert Describes(p.candidates[i], c.entries);
    assert e.id in Aliases(c.entries, e.digest);
    assert e.id in Elements(p.candidates[i].ids);
    assert p.candidates[i] in p.candidates;
  }

  /** Every catalog id is excluded or belongs to a candidate, and none is both. */
  lemma PlanPartitions(p: Plan, c: Context)
    requires GoodPlan(p, c) && DistinctIds(c.entries)
    ensures p.excluded.Keys !! CandidateIds(p)
    ensures p.excluded.Keys + CandidateIds(p) == EntryIds(c.entries)
  {
    forall id | id in CandidateIds(p) ensures id in EntryIds(c.entries) && id !in p.excluded {
      var cand :| cand in p.candidates && id in cand.ids;
      CandidateNotExcluded(p.excluded, c, cand, id);
    }
    forall id | id in EntryIds(c.entries) ensures id in p.excluded.Keys + CandidateIds(p) {
      var e :| e in c.entries && e.id == id;
      if id !in p.excluded { NotExcludedIsCandidate(p, c, e); }
    }
  }

  /** A digest is a candidate exactly when it is in the catalog and none of its aliases is among the
      newest of its profile, protected, blocked by the ledger, or wrong for the scope. */
  lemma CandidateExactly(p: Plan, c: Context, digest: int)
    requires GoodPlan(p, c)
    ensures (exists i :: 0 <= i < |p.candidates| && p.candidates[i].digest == digest) <==>
      && (exists e {:trigger e in c.entries} :: e in c.entries && e.digest == digest)
      && (forall e {:trigger e in c.entries} :: e in c.entries && e.digest == digest ==>
            !KeptNewest(c, e) && e.id !in c.guarded && e.id !in c.blocking)
      && (digest in c.referenced <==> c.scope.LocalPayload?)
  {
    assert Eligible(c, digest) <==> exists i :: 0 <= i < |p.candidates| && p.candidates[i].digest == digest;
    forall e {:trigger e in c.entries} | e in c.entries && e.digest == digest
      ensures ReasonFor(c, e).None? <==>
        && !KeptNewest(c, e) && e.id !in c.guarded && e.id !in c.blocking
        && (digest in c.referenced <==> c.scope.LocalPayload?)
    {
    }
  }

  // ---------- what a plan says about a catalog row ----------

  /** The rows of the same profile that were created later, or at the same time with a larger id. */
  function LaterIds(v: Inventory, x: Item): set<int> {
    set y | y in v.catalog && y.profile == x.profile && y.created.Some? && x.created.Some?
         && (y.created.value > x.created.value || (y.created.value == x.created.value && y.id > x.id)) :: y.id
  }

  predicate IsBlocked(v: Inventory, x: Item) {
    exists r :: r in v.ledger && r.id == x.id
      && r.state in {Prepared, Quarantined, PurgePrepared, Purged, Failed, Ambiguous}
  }

  predicate IsReferenced(v: Inventory, digest: int) {
    exists m :: m in v.manifests && m.digest == digest
  }

  /** Why a row is retained for its own sake, in the order in which the reasons count. */
  function OwnReason(v: Inventory, x: Item): Option<Reason>
    requires v.keep.Some? && v.scope.Some?
  {
    if |LaterIds(v, x)| < v.keep.value then Some(WithinKeepNewest)
    else if x.id in v.protections then Some(IsProtected)
    else if IsBlocked(v, x) then Some(BlockingLedgerState)
    else if v.scope.value == RemoteVault && IsReferenced(v, x.digest) then Some(ReferencedByManifest)
    else if v.scope.value == LocalPayload && !IsReferenced(v, x.digest) then Some(NoManifestCopy)
    else None
  }

  lemma {:induction false} AsManyIds(entries: set<Entry>)
    requires DistinctIds(entries)
    ensures |EntryIds(entries)| == |entries|
  {
    if entries != {} {
      var e := Ranking.Member(entries);
      AsManyIds(entries - {e});
      assert EntryIds(entries) == EntryIds(entries - {e}) + {e.id};
    }
  }

  lemma LaterAreAbove(v: Inventory, x: Item)
    requires Accepts(v) && x in v.catalog
    ensures |LaterIds(v, x)| == |Above(Newer, OfProfile(EntriesOf(v.catalog), x.profile), EntryOf(x))|
  {
    var above := Above(Newer, OfProfile(EntriesOf(v.catalog), x.profile), EntryOf(x));
    IdsAreDistinct(v.catalog);
    AsManyIds(above);
    forall id | id in LaterIds(v, x) ensures id in EntryIds(above) {
      var y :| y in v.catalog && y.id == id && y.profile == x.profile
        && (y.created.value > x.created.value || (y.created.value == x.created.value && y.id > x.id));
      assert EntryOf(y) in above;
    }
    forall id | id in EntryIds(above) ensures id in LaterIds(v, x) {
      var e :| e in above && e.id == id;
      var y :| y in v.catalog && EntryOf(y) == e;
      assert y.id == id;
    }
    assert LaterIds(v, x) == EntryIds(above);
  }

  /** The rules of the planner are these reasons. */
  lemma ReasonsAgree(v: Inventory, x: Item)
    requires Accepts(v) && x in v.catalog
    ensures ReasonFor(ContextOf(v), EntryOf(x)) == OwnReason(v, x)
  {
    var c, e := ContextOf(v), EntryOf(x);
    LaterAreAbove(v, x);
    assert e in c.entries;
    assert e.id in c.blocking <==> IsBlocked(v, x);
    assert e.digest in c.referenced <==> IsReferenced(v, x.digest);
  }

  /** A row with a reason of its own is excluded for it.  A row without one is excluded exactly when an
      alias has one, and then for the reason of an alias. */
  lemma ExcludedExactly(v: Inventory, p: Plan, x: Item)
    requires Accepts(v) && GoodPlan(p, ContextOf(v)) && x in v.catalog
    ensures OwnReason(v, x).Some? ==> x.id in p.excluded && p.excluded[x.id] == OwnReason(v, x).value
    ensures x.id in p.excluded <==> exists y :: y in v.catalog && y.digest == x.digest && OwnReason(v, y).Some?
    ensures x.id in p.excluded ==>
      exists y :: y in v.catalog && y.digest == x.digest && OwnReason(v, y) == Some(p.excluded[x.id])
  {
    var c := ContextOf(v);
    ReasonsAgree(v, x);
    assert EntryOf(x) in c.entries && GoodExclusion(p.excluded, c, EntryOf(x));
    forall y | y in v.catalog ensures ReasonFor(c, EntryOf(y)) == OwnReason(v, y) { ReasonsAgree(v, y); }
    if x.id in p.excluded && OwnReason(v, x).None? {
      var a :| a in c.entries && a.digest == x.digest && ReasonFor(c, a) == Some(p.excluded[x.id]);
      var y :| y in v.catalog && EntryOf(y) == a;
      assert y.digest == x.digest && OwnReason(v, y) == Some(p.excluded[x.id]);
    }
    if y :| y in v.catalog && y.digest == x.digest && OwnReason(v, y).Some? {
      assert EntryOf(y) in c.entries && !Eligible(c, x.digest);
    }
  }

  /** Three rows of one profile, of which the oldest and the newest are the same object. */
  function SharedObject(): Inventory {
    Inventory(1, 1, 0, 0, Some(2), Some(LocalPayload),
              [Item(1, 0, 5, 10, Some(1)), Item(2, 0, 5, 20, Some(2)), Item(3, 0, 5, 10, Some(3))],
              [], [], [Member.Member(10, 5), Member.Member(20, 5)])
  }

  lemma SharedObjectRows()
    ensures var v := SharedObject(); var c := v.catalog;
      LaterIds(v, c[0]) == {2, 3} && LaterIds(v, c[1]) == {3} && LaterIds(v, c[2]) == {}
  {
    var v := SharedObject();
    var c := v.catalog;
    assert c[0] in c && c[1] in c && c[2] in c;
    assert forall y :: y in c ==> y == c[0] || y == c[1] || y == c[2];
  }

  lemma SharedObjectIsAccepted()
    ensures Accepts(SharedObject())
  {
    var v := SharedObject();
    assert GoodItems(v.catalog) && GoodManifests(v.manifests, v.catalog);
  }

  lemma SharedObjectReasons()
    ensures var v := SharedObject();
      OwnReason(v, v.catalog[0]).None? && OwnReason(v, v.catalog[2]) == Some(WithinKeepNewest)
  {
    var v := SharedObject();
    SharedObjectRows();
    assert v.manifests[0] in v.manifests && IsReferenced(v, 10);
  }

  /** A row that `keep` others are later than has no such reason of its own, but it can inherit one: the
      oldest row here is excluded as one of the newest, because an alias is. */
  lemma OldRowInheritsNewest(p: Plan)
    requires Accepts(SharedObject()) && GoodPlan(p, ContextOf(SharedObject()))
    ensures OwnReason(SharedObject(), SharedObject().catalog[0]).None?
    ensures 1 in p.excluded && p.excluded[1] == WithinKeepNewest
  {
    SharedObjectReasons();
    OnlyReason(SharedObject(), p, SharedObject().catalog[0], SharedObject().catalog[2]);
  }

  /** A row without a reason of its own and with one alias inherits that alias's reason. */
  lemma OnlyReason(v: Inventory, p: Plan, x: Item, alias: Item)
    requires Accepts(v) && GoodPlan(p, ContextOf(v)) && x in v.catalog && alias in v.catalog
    requires x.digest == alias.digest && OwnReason(v, x).None? && OwnReason(v, alias).Some?
    requires forall y :: y in v.catalog && y.digest == x.digest ==> y == x || y == alias
    ensures x.id in p.excluded && p.excluded[x.id] == OwnReason(v, alias).value
  {
    ExcludedExactly(v, p, x);
  }

  predicate InCatalog(v: Inventory, digest: int) {
    exists y :: y in v.catalog && y.digest == digest
  }

  predicate Unwanted(v: Inventory, digest: int)
    requires v.keep.Some? && v.scope.Some?
  {
    forall y :: y in v.catalog && y.digest == digest ==> OwnReason(v, y).None?
  }

  lemma EligibleIsUnwanted(v: Inventory, digest: int)
    requires Accepts(v) && Eligible(ContextOf(v), digest)
    ensures InCatalog(v, digest) && Unwanted(v, digest)
  {
    var c := ContextOf(v);
    var e :| e in c.entries && e.digest == digest;
    var x :| x in v.catalog && EntryOf(x) == e;
    assert x.digest == digest;
    forall y | y in v.catalog && y.digest == digest ensures OwnReason(v, y).None? {
      ReasonsAgree(v, y);
      assert EntryOf(y) in c.entries;
    }
  }

  lemma UnwantedIsEligible(v: Inventory, digest: int)
    requires Accepts(v) && InCatalog(v, digest) && Unwanted(v, digest)
    ensures Eligible(ContextOf(v), digest)
  {
    var c := ContextOf(v);
    var x :| x in v.catalog && x.digest == digest;
    assert EntryOf(x) in c.entries;
    forall e {:trigger e in c.entries} | e in c.entries && e.digest == digest ensures ReasonFor(c, e).None? {
      var y :| y in v.catalog && EntryOf(y) == e;
      ReasonsAgree(v, y);
    }
  }

  /** A digest is offered exactly when it is in the catalog and no row with it has a reason of its own. */
  lemma OfferedExactly(v: Inventory, p: Plan, digest: int)
    requires Accepts(v) && GoodPlan(p, ContextOf(v))
    ensures (exists i :: 0 <= i < |p.candidates| && p.candidates[i].digest == digest) <==>
      InCatalog(v, digest) && Unwanted(v, digest)
  {
    if Eligible(ContextOf(v), digest) { EligibleIsUnwanted(v, digest); }
    if InCatalog(v, digest) && Unwanted(v, digest) { UnwantedIsEligible(v, digest); }
  }

  /** The bytes of these digests, each counted once. */
  ghost function BytesOf(sizes: map<int, int>, digests: set<int>): int {
    if digests == {} then 0
    else
      assert exists d :: d in digests by { var _ := Ranking.Member(digests); }
      var d :| d in digests;
      (if d in sizes then sizes[d] else 0) + BytesOf(sizes, digests - {d})
  }

  lemma {:induction false} BytesAny(sizes: map<int, int>, digests: set<int>, x: int)
    requires x in digests
    ensures BytesOf(sizes, digests) == (if x in sizes then sizes[x] else 0) + BytesOf(sizes, digests - {x})
    decreases digests
  {
    var d :| d in digests && BytesOf(sizes, digests) ==
      (if d in sizes then sizes[d] else 0) + BytesOf(sizes, digests - {d});
    if d != x {
      BytesAny(sizes, digests - {d}, x);
      BytesAny(sizes, digests - {x}, d);
      assert digests - {d} - {x} == digests - {x} - {d};
    }
  }

  ghost function DigestSet(cs: seq<Candidate>): set<int> { set cand | cand in cs :: cand.digest }

  lemma DigestsWithoutLast(cs: seq<Candidate>)
    requires cs != [] && forall i, j :: 0 <= i < j < |cs| ==> cs[i].digest < cs[j].digest
    ensures var last := cs[|cs| - 1];
      last.digest in DigestSet(cs) && DigestSet(cs) - {last.digest} == DigestSet(cs[..|cs| - 1])
  {
    var front, last := cs[..|cs| - 1], cs[|cs| - 1];
    assert last in cs && cs == front + [last];
    forall cand | cand in front ensures cand.digest != last.digest {
      var i :| 0 <= i < |front| && front[i] == cand;
      assert cs[i] == cand;
    }
  }

  lemma {:induction false} TotalIsBytes(cs: seq<Candidate>, sizes: map<int, int>)
    requires forall i, j :: 0 <= i < j < |cs| ==> cs[i].digest < cs[j].digest
    requires forall cand :: cand in cs ==> cand.digest in sizes && sizes[cand.digest] == cand.size
    ensures Total(cs) == BytesOf(sizes, DigestSet(cs))
  {
    if cs != [] {
      var last := cs[|cs| - 1];
      assert last in cs;
      TotalIsBytes(cs[..|cs| - 1], sizes);
      DigestsWithoutLast(cs);
      BytesAny(sizes, DigestSet(cs), last.digest);
    }
  }

  /** The bytes freed are those of the offered digests, each once however many rows share it. */
  lemma FreedExactly(v: Inventory, p: Plan, sizes: map<int, int>)
    requires Accepts(v) && GoodPlan(p, ContextOf(v))
    requires forall x :: x in v.catalog ==> x.digest in sizes && sizes[x.digest] == x.size
    ensures p.freed == BytesOf(sizes, DigestSet(p.candidates))
  {
    var c := ContextOf(v);
    forall cand | cand in p.candidates ensures cand.digest in sizes && sizes[cand.digest] == cand.size {
      assert Eligible(c, cand.digest) && Describes(cand, c.entries);
      var e :| e in c.entries && e.digest == cand.digest;
      var x :| x in v.catalog && EntryOf(x) == e;
    }
    TotalIsBytes(p.candidates, sizes);
  }

  // ---------- the order of the lists ----------

  ghost predicate Reordered(a: Inventory, b: Inventory) {
    && b == a.(catalog := b.catalog, protections := b.protections, ledger := b.ledger, manifests := b.manifests)
    && multiset(a.catalog) == multiset(b.catalog) && multiset(a.protections) == multiset(b.protections)
    && multiset(a.ledger) == multiset(b.ledger) && multiset(a.manifests) == multiset(b.manifests)
  }

  lemma SameElements<T>(s: seq<T>, t: seq<T>)
    requires multiset(s) == multiset(t)
    ensures forall x :: x in s <==> x in t
    ensures forall i :: 0 <= i < |t| ==> t[i] in s
  {
    forall x ensures x in s <==> x in t { assert x in multiset(s) <==> x in multiset(t); }
    assert forall i :: 0 <= i < |t| ==> t[i] in t;
  }

  lemma GoodItemsReordered(a: seq<Item>, b: seq<Item>)
    requires multiset(a) == multiset(b) && GoodItems(a)
    ensures GoodItems(b)
  {
    SameElements(a, b);
    PermutationKeepsDistinct(a, b);
    forall i, j | 0 <= i < j < |b|
      ensures b[i].id != b[j].id && (b[i].digest == b[j].digest ==> b[i].size == b[j].size)
    {
      assert b[i] in b && b[j] in b;
      var k :| 0 <= k < |a| && a[k] == b[i];
      var l :| 0 <= l < |a| && a[l] == b[j];
    }
  }

  lemma GoodLedgerReordered(a: seq<LedgerRow>, b: seq<LedgerRow>, known: set<int>)
    requires multiset(a) == multiset(b) && GoodLedger(a, known)
    ensures GoodLedger(b, known)
  {
    SameElements(a, b);
    forall i, j | 0 <= i < j < |b| && b[i].id == b[j].id ensures b[i].state == b[j].state {
      assert b[i] in b && b[j] in b;
      var k :| 0 <= k < |a| && a[k] == b[i];
      var l :| 0 <= l < |a| && a[l] == b[j];
    }
  }

  lemma GoodManifestsReordered(a: seq<Member>, b: seq<Member>, items: seq<Item>, items': seq<Item>)
    requires multiset(a) == multiset(b) && multiset(items) == multiset(items') && GoodManifests(a, items)
    ensures GoodManifests(b, items')
  {
    SameElements(a, b);
    SameElements(items, items');
    forall i, j | 0 <= i < j < |b| && b[i].digest == b[j].digest ensures b[i].size == b[j].size {
      assert b[i] in b && b[j] in b;
      var k :| 0 <= k < |a| && a[k] == b[i];
      var l :| 0 <= l < |a| && a[l] == b[j];
    }
    forall i, j | 0 <= i < |b| && 0 <= j < |items'| && b[i].digest == items'[j].digest
      ensures b[i].size == items'[j].size
    {
      assert b[i] in b && items'[j] in items';
      var k :| 0 <= k < |a| && a[k] == b[i];
      var l :| 0 <= l < |items| && items[l] == items'[j];
    }
  }

  /** Whether an inventory is accepted does not depend on the order of any of its lists, and neither
      does anything the plan is decided by. */
  lemma ReorderedIsAccepted(a: Inventory, b: Inventory)
    requires Reordered(a, b) && Accepts(a)
    ensures Accepts(b) && ContextOf(a) == ContextOf(b)
  {
    GoodItemsReordered(a.catalog, b.catalog);
    SameElements(a.catalog, b.catalog);
    MultisetLength(a.catalog, b.catalog);
    assert Ids(a.catalog) == Ids(b.catalog);
    SameElements(a.protections, b.protections);
    PermutationKeepsDistinct(a.protections, b.protections);
    assert GoodProtections(b.protections, Ids(b.catalog));
    GoodLedgerReordered(a.ledger, b.ledger, Ids(a.catalog));
    SameElements(a.ledger, b.ledger);
    GoodManifestsReordered(a.manifests, b.manifests, a.catalog, b.catalog);
    SameElements(a.manifests, b.manifests);
  }

  ghost function DigestsOf(cs: seq<Candidate>): seq<int> { seq(|cs|, i requires 0 <= i < |cs| => cs[i].digest) }

  lemma DescriptionUnique(x: Candidate, y: Candidate, c: Context)
    requires x.digest == y.digest && Eligible(c, x.digest) && Describes(x, c.entries) && Describes(y, c.entries)
    ensures x == y
  {
    AscendingUnique(x.ids, y.ids);
  }

  lemma DigestsAreEligible(cs: seq<Candidate>, c: Context, d: int)
    requires GoodCandidates(cs, c)
    ensures d in Elements(DigestsOf(cs)) <==> Eligible(c, d)
  {
    if Eligible(c, d) {
      var i :| 0 <= i < |cs| && cs[i].digest == d;
      assert DigestsOf(cs)[i] == d;
    }
  }

  lemma CandidatesUnique(xs: seq<Candidate>, ys: seq<Candidate>, c: Context)
    requires GoodCandidates(xs, c) && GoodCandidates(ys, c)
    ensures xs == ys
  {
    var s, t := DigestsOf(xs), DigestsOf(ys);
    forall d ensures d in Elements(s) <==> d in Elements(t) {
      DigestsAreEligible(xs, c, d);
      DigestsAreEligible(ys, c, d);
    }
    AscendingUnique(s, t);
    forall i | 0 <= i < |xs| ensures xs[i] == ys[i] {
      assert s[i] == t[i];
      DescriptionUnique(xs[i], ys[i], c);
    }
  }

  /** The candidates and the bytes they free do not depend on the order of any input list. */
  lemma OrderDoesNotMatter(a: Inventory, b: Inventory, p: Plan, q: Plan)
    requires Reordered(a, b) && Accepts(a) && GoodPlan(p, ContextOf(a))
    requires Accepts(b) && GoodPlan(q, ContextOf(b))
    ensures p.candidates == q.candidates && p.freed == q.freed
    ensures p.excluded.Keys == q.excluded.Keys
  {
    ReorderedIsAccepted(a, b);
    var c := ContextOf(a);
    CandidatesUnique(p.candidates, q.candidates, c);
    IdsAreDistinct(a.catalog);
    PlanPartitions(p, c);
    PlanPartitions(q, c);
    assert CandidateIds(p) == CandidateIds(q);
  }
}
