/** `build_plan` in ops/laptop-backup/retention_plan.py, loop by loop: dictionaries from the input
    lists, a refusal at the first thing that is ambiguous, reasons per backup, candidates per digest. */
module VaultPlanner {
  import opened Ranking
  import opened VaultPlan
  import opened Wrappers

  // ---------- the catalog ----------

  /** The dictionaries that the catalog loop fills. */
  datatype Index = Index(entries: map<int, Entry>, sizes: map<int, int>, aliases: map<int, set<int>>,
                         order: map<int, seq<Entry>>)

  ghost predicate ById(m: map<int, Entry>, entries: set<Entry>) {
    && (forall e {:trigger e in entries} :: e in entries ==> e.id in m && m[e.id] == e)
    && (forall id :: id in m ==> m[id] in entries && m[id].id == id)
  }

  ghost predicate SizeByDigest(m: map<int, int>, entries: set<Entry>) {
    && (forall e {:trigger e in entries} :: e in entries ==> e.digest in m && m[e.digest] == e.size)
    && (forall d :: d in m ==> exists e {:trigger e in entries} :: e in entries && e.digest == d)
  }

  ghost predicate IdsByDigest(m: map<int, set<int>>, entries: set<Entry>) {
    && (forall e {:trigger e in entries} :: e in entries ==> e.digest in m)
    && (forall d :: d in m ==> m[d] == Aliases(entries, d) && m[d] != {})
  }

  ghost predicate ByProfile(m: map<int, seq<Entry>>, entries: set<Entry>) {
    && (forall e {:trigger e in entries} :: e in entries ==> e.profile in m)
    && (forall p :: p in m ==> Elements(m[p]) == OfProfile(entries, p))
  }

  ghost predicate Indexes(x: Index, entries: set<Entry>) {
    ById(x.entries, entries) && SizeByDigest(x.sizes, entries) && IdsByDigest(x.aliases, entries)
      && ByProfile(x.order, entries)
  }

  /** What the loop asks of the next row. */
  predicate Fitting(i: Item, x: Index) {
    && i.size >= 0 && i.created.Some? && i.id !in x.entries
    && (i.digest in x.sizes ==> x.sizes[i.digest] == i.size)
  }

  lemma FittingIsGood(items: seq<Item>, i: Item, x: Index)
    requires GoodItems(items) && Indexes(x, EntriesOf(items))
    ensures GoodItems(items + [i]) <==> Fitting(i, x)
  {
    var entries, all := EntriesOf(items), items + [i];
    assert all[|items|] == i;
    if i.id in x.entries {
      var y :| y in items && EntryOf(y) == x.entries[i.id];
      var k :| 0 <= k < |items| && items[k] == y;
      assert all[k].id == all[|items|].id;
    }
    if i.digest in x.sizes {
      var e :| e in entries && e.digest == i.digest;
      var y :| y in items && EntryOf(y) == e;
      var k :| 0 <= k < |items| && items[k] == y;
      assert all[k].digest == all[|items|].digest;
    }
    if Fitting(i, x) {
      forall k | 0 <= k < |items|
        ensures items[k].id != i.id && (items[k].digest == i.digest ==> items[k].size == i.size)
      {
        assert EntryOf(items[k]) in entries;
      }
    }
  }

  lemma BadBeginning(items: seq<Item>, k: nat)
    requires k <= |items| && !GoodItems(items[..k])
    ensures !GoodItems(items)
  {
  }

  function Add(x: Index, e: Entry): Index {
    Index(x.entries[e.id := e], x.sizes[e.digest := e.size],
          x.aliases[e.digest := (if e.digest in x.aliases then x.aliases[e.digest] else {}) + {e.id}],
          x.order[e.profile := (if e.profile in x.order then x.order[e.profile] else []) + [e]])
  }

  lemma AddId(m: map<int, Entry>, entries: set<Entry>, e: Entry)
    requires ById(m, entries) && e.id !in m
    ensures ById(m[e.id := e], entries + {e})
  {
  }

  lemma AddSize(m: map<int, int>, entries: set<Entry>, e: Entry)
    requires SizeByDigest(m, entries) && (e.digest in m ==> m[e.digest] == e.size)
    ensures SizeByDigest(m[e.digest := e.size], entries + {e})
  {
    var all, m' := entries + {e}, m[e.digest := e.size];
    forall d | d in m' ensures exists f {:trigger f in all} :: f in all && f.digest == d {
      if d in m {
        var f :| f in entries && f.digest == d;
        assert f in all;
      } else {
        assert e in all;
      }
    }
  }

  lemma AddAlias(m: map<int, set<int>>, entries: set<Entry>, e: Entry, x: Index)
    requires IdsByDigest(m, entries) && x.aliases == m
    ensures IdsByDigest(Add(x, e).aliases, entries + {e})
  {
    var all := entries + {e};
    assert e.digest !in m ==> Aliases(entries, e.digest) == {};
    assert Aliases(all, e.digest) == Aliases(entries, e.digest) + {e.id};
    forall d | d != e.digest ensures Aliases(all, d) == Aliases(entries, d) {}
  }

  lemma AddToProfile(m: map<int, seq<Entry>>, entries: set<Entry>, e: Entry, x: Index)
    requires ByProfile(m, entries) && x.order == m
    ensures ByProfile(Add(x, e).order, entries + {e})
  {
    var all := entries + {e};
    assert e.profile !in m ==> OfProfile(entries, e.profile) == {};
    assert OfProfile(all, e.profile) == OfProfile(entries, e.profile) + {e};
    var before := if e.profile in m then m[e.profile] else [];
    assert Elements(before + [e]) == Elements(before) + {e};
    forall p | p != e.profile ensures OfProfile(all, p) == OfProfile(entries, p) {}
  }

  lemma AddIndexes(x: Index, entries: set<Entry>, e: Entry)
    requires Indexes(x, entries) && e.id !in x.entries && (e.digest in x.sizes ==> x.sizes[e.digest] == e.size)
    ensures Indexes(Add(x, e), entries + {e})
  {
    AddId(x.entries, entries, e);
    AddSize(x.sizes, entries, e);
    AddAlias(x.aliases, entries, e, x);
    AddToProfile(x.order, entries, e, x);
  }

  /** The catalog loop: refuses exactly a catalog with a malformed row, a duplicate id, or a digest
      with two sizes. */
  method ReadCatalog(items: seq<Item>) returns (r: Outcome<Index>)
    ensures r.Done? <==> GoodItems(items)
    ensures r.Done? ==> Indexes(r.value, EntriesOf(items))
  {
    var x := Index(map[], map[], map[], map[]);
    for k := 0 to |items|
      invariant GoodItems(items[..k]) && Indexes(x, EntriesOf(items[..k]))
    {
      var i := items[k];
      assert items[..k + 1] == items[..k] + [i];
      FittingIsGood(items[..k], i, x);
      if !Fitting(i, x) {
        BadBeginning(items, k + 1);
        return Refused;
      }
      AddIndexes(x, EntriesOf(items[..k]), EntryOf(i));
      assert EntriesOf(items[..k + 1]) == EntriesOf(items[..k]) + {EntryOf(i)};
      x := Add(x, EntryOf(i));
    }
    assert items[..|items|] == items;
    r := Done(x);
  }

  // ---------- protections, ledger, manifests ----------

  method ReadProtections(ids: seq<int>, known: set<int>) returns (r: Outcome<set<int>>)
    ensures r.Done? <==> GoodProtections(ids, known)
    ensures r.Done? ==> r.value == Elements(ids)
  {
    DistinctIff(ids);
    if |Elements(ids)| != |ids| { return Refused; }
    if !(Elements(ids) <= known) {
      assert !forall i :: 0 <= i < |ids| ==> ids[i] in known;
      return Refused;
    }
    assert forall i :: 0 <= i < |ids| ==> ids[i] in Elements(ids);
    r := Done(Elements(ids));
  }

  ghost predicate StateById(m: map<int, LedgerState>, rows: seq<LedgerRow>) {
    && (forall i :: 0 <= i < |rows| ==> rows[i].id in m && m[rows[i].id] == rows[i].state)
    && (forall id :: id in m ==> exists i :: 0 <= i < |rows| && rows[i].id == id)
  }

  predicate FittingRow(row: LedgerRow, m: map<int, LedgerState>, known: set<int>) {
    !row.state.UnknownState? && row.id in known && (row.id in m ==> m[row.id] == row.state)
  }

  lemma FittingRowIsGood(rows: seq<LedgerRow>, row: LedgerRow, m: map<int, LedgerState>, known: set<int>)
    requires GoodLedger(rows, known) && StateById(m, rows)
    ensures GoodLedger(rows + [row], known) <==> FittingRow(row, m, known)
    ensures FittingRow(row, m, known) ==> StateById(m[row.id := row.state], rows + [row])
  {
    var all := rows + [row];
    assert all[|rows|] == row;
    if row.id in m {
      var i :| 0 <= i < |rows| && rows[i].id == row.id;
      assert all[i] == rows[i];
    }
    if FittingRow(row, m, known) {
      var m' := m[row.id := row.state];
      forall id | id in m' ensures exists i :: 0 <= i < |all| && all[i].id == id {
        if id != row.id {
          var i :| 0 <= i < |rows| && rows[i].id == id;
          assert all[i].id == id;
        }
      }
    }
  }

  ghost function BlockedBy(rows: seq<LedgerRow>): set<int> { set r | r in rows && Blocks(r.state) :: r.id }

  lemma BadLedgerBeginning(rows: seq<LedgerRow>, k: nat, known: set<int>)
    requires k <= |rows| && !GoodLedger(rows[..k], known)
    ensures !GoodLedger(rows, known)
  {
  }

  method ReadLedger(rows: seq<LedgerRow>, known: set<int>) returns (r: Outcome<set<int>>)
    ensures r.Done? <==> GoodLedger(rows, known)
    ensures r.Done? ==> r.value == BlockedBy(rows)
  {
    var states: map<int, LedgerState>, blocking: set<int> := map[], {};
    for k := 0 to |rows|
      invariant GoodLedger(rows[..k], known) && StateById(states, rows[..k])
      invariant blocking == BlockedBy(rows[..k])
    {
      var row := rows[k];
      assert rows[..k + 1] == rows[..k] + [row];
      FittingRowIsGood(rows[..k], row, states, known);
      if !FittingRow(row, states, known) {
        BadLedgerBeginning(rows, k + 1, known);
        return Refused;
      }
      states := states[row.id := row.state];
      assert BlockedBy(rows[..k + 1]) == BlockedBy(rows[..k]) + if Blocks(row.state) then {row.id} else {};
      if Blocks(row.state) {
        blocking := blocking + {row.id};
      }
    }
    assert rows[..|rows|] == rows;
    r := Done(blocking);
  }

  ghost predicate GoodMembers(ms: seq<Member>) {
    && (forall i :: 0 <= i < |ms| ==> ms[i].size >= 0)
    && (forall i, j :: 0 <= i < j < |ms| && ms[i].digest == ms[j].digest ==> ms[i].size == ms[j].size)
  }

  ghost predicate SizeByMember(m: map<int, int>, ms: seq<Member>) {
    && (forall i :: 0 <= i < |ms| ==> ms[i].digest in m && m[ms[i].digest] == ms[i].size)
    && (forall d :: d in m ==> exists i :: 0 <= i < |ms| && ms[i].digest == d)
  }

  predicate FittingMember(x: Member, m: map<int, int>) { x.size >= 0 && (x.digest in m ==> m[x.digest] == x.size) }

  lemma FittingMemberIsGood(ms: seq<Member>, x: Member, m: map<int, int>)
    requires GoodMembers(ms) && SizeByMember(m, ms)
    ensures GoodMembers(ms + [x]) <==> FittingMember(x, m)
  {
    var all := ms + [x];
    assert all[|ms|] == x;
    if x.digest in m {
      var i :| 0 <= i < |ms| && ms[i].digest == x.digest;
      assert all[i] == ms[i];
    }
  }

  lemma AddMember(ms: seq<Member>, x: Member, m: map<int, int>)
    requires SizeByMember(m, ms) && FittingMember(x, m)
    ensures SizeByMember(m[x.digest := x.size], ms + [x])
  {
    var all, m' := ms + [x], m[x.digest := x.size];
    assert all[|ms|] == x;
    forall d | d in m' ensures exists i :: 0 <= i < |all| && all[i].digest == d {
      if d != x.digest {
        var i :| 0 <= i < |ms| && ms[i].digest == d;
        assert all[i].digest == d;
      }
    }
  }

  lemma BadMembersBeginning(ms: seq<Member>, k: nat)
    requires k <= |ms| && !GoodMembers(ms[..k])
    ensures !GoodMembers(ms)
  {
  }

  method ReadMembers(ms: seq<Member>) returns (r: Outcome<map<int, int>>)
    ensures r.Done? <==> GoodMembers(ms)
    ensures r.Done? ==> SizeByMember(r.value, ms)
  {
    var referenced: map<int, int> := map[];
    for k := 0 to |ms|
      invariant GoodMembers(ms[..k]) && SizeByMember(referenced, ms[..k])
    {
      var x := ms[k];
      assert ms[..k + 1] == ms[..k] + [x];
      FittingMemberIsGood(ms[..k], x, referenced);
      if !FittingMember(x, referenced) {
        BadMembersBeginning(ms, k + 1);
        return Refused;
      }
      AddMember(ms[..k], x, referenced);
      referenced := referenced[x.digest := x.size];
    }
    assert ms[..|ms|] == ms;
    r := Done(referenced);
  }

  lemma SizesAgree(ms: seq<Member>, referenced: map<int, int>, items: seq<Item>, sizes: map<int, int>)
    requires GoodMembers(ms) && SizeByMember(referenced, ms) && SizeByDigest(sizes, EntriesOf(items))
    ensures GoodManifests(ms, items) <==> forall d :: d in referenced && d in sizes ==> sizes[d] == referenced[d]
  {
    if GoodManifests(ms, items) {
      forall d | d in referenced && d in sizes ensures sizes[d] == referenced[d] {
        var i :| 0 <= i < |ms| && ms[i].digest == d;
        var e :| e in EntriesOf(items) && e.digest == d;
        var y :| y in items && EntryOf(y) == e;
        var j :| 0 <= j < |items| && items[j] == y;
        assert ms[i].digest == items[j].digest;
      }
    } else {
      var i, j :| 0 <= i < |ms| && 0 <= j < |items| && ms[i].digest == items[j].digest && ms[i].size != items[j].size;
      assert EntryOf(items[j]) in EntriesOf(items);
    }
  }

  /** The digests that manifests refer to; refused when two sizes of one object disagree. */
  method ReadManifests(ms: seq<Member>, sizes: map<int, int>, ghost items: seq<Item>) returns (r: Outcome<set<int>>)
    requires SizeByDigest(sizes, EntriesOf(items))
    ensures r.Done? <==> GoodManifests(ms, items)
    ensures r.Done? ==> r.value == set m | m in ms :: m.digest
  {
    var read := ReadMembers(ms);
    if read.Refused? { return Refused; }
    SizesAgree(ms, read.value, items, sizes);
    if exists d :: d in read.value && d in sizes && sizes[d] != read.value[d] { return Refused; }
    forall m | m in ms ensures m.digest in read.value.Keys {
      var i :| 0 <= i < |ms| && ms[i] == m;
    }
    forall d | d in read.value.Keys ensures exists m :: m in ms && m.digest == d {
      var i :| 0 <= i < |ms| && ms[i].digest == d;
      assert ms[i] in ms;
    }
    r := Done(read.value.Keys);
  }

  // ---------- reasons ----------

  lemma NewerIsTotal(entries: set<Entry>)
    requires DistinctIds(entries)
    ensures StrictTotalOn(Newer, entries)
  {
    forall x, y | x in entries && y in entries && x != y ensures Newer(x, y) || Newer(y, x) { assert x.id != y.id; }
  }

  /** The newest `keep` of one profile: sort, then cut. */
  method NewestOf(items: seq<Entry>, keep: nat) returns (ids: set<int>)
    requires DistinctIds(Elements(items))
    ensures ids == EntryIds(Newest(Newer, Elements(items), keep))
  {
    NewerIsTotal(Elements(items));
    var sorted := SortNewest(Newer, Elements(items));
    var top := sorted[..Min(keep, |sorted|)];
    SortedPrefixIsNewest(Newer, sorted, keep);
    ids := set e | e in top :: e.id;
    assert Elements(top) == Newest(Newer, Elements(items), keep);
    assert ids == EntryIds(Elements(top));
  }

  /** `within_keep`: an id is in it exactly when its entry is among the newest of its profile. */
  ghost predicate WithinKeep(ids: set<int>, entries: set<Entry>, keep: nat, profiles: set<int>) {
    && (forall e {:trigger e in entries} :: e in entries && e.profile in profiles ==>
          (e.id in ids <==> e in Newest(Newer, OfProfile(entries, e.profile), keep)))
    && (forall e {:trigger e in entries} :: e in entries && e.profile !in profiles ==> e.id !in ids)
  }

  lemma WithinKeepStep(ids: set<int>, entries: set<Entry>, keep: nat, profiles: set<int>, p: int)
    requires DistinctIds(entries) && WithinKeep(ids, entries, keep, profiles) && p !in profiles
    ensures WithinKeep(ids + EntryIds(Newest(Newer, OfProfile(entries, p), keep)), entries, keep, profiles + {p})
  {
    var top := Newest(Newer, OfProfile(entries, p), keep);
    forall e {:trigger e in entries} | e in entries ensures e.id in EntryIds(top) <==> e in top {
      if e.id in EntryIds(top) {
        var f :| f in top && f.id == e.id;
        assert f in entries;
      }
    }
  }

  method KeepNewest(order: map<int, seq<Entry>>, keep: nat, ghost entries: set<Entry>) returns (within: set<int>)
    requires ByProfile(order, entries) && DistinctIds(entries)
    ensures WithinKeep(within, entries, keep, order.Keys)
  {
    within := {};
    var todo, done: set<int> := order.Keys, {};
    while todo != {}
      invariant todo !! done && todo + done == order.Keys
      invariant WithinKeep(within, entries, keep, done)
      decreases todo
    {
      var p := Pick(todo);
      assert Elements(order[p]) == OfProfile(entries, p);
      var ids := NewestOf(order[p], keep);
      WithinKeepStep(within, entries, keep, done, p);
      within, todo, done := within + ids, todo - {p}, done + {p};
    }
    assert done == order.Keys;
  }

  /** The reasons of the entries with these ids. */
  ghost predicate ReasonsFor(reasons: map<int, Reason>, c: Context, ids: set<int>) {
    && reasons.Keys <= ids
    && (forall e {:trigger e in c.entries} :: e in c.entries && e.id in ids ==>
          HasReason(reasons, e.id, ReasonFor(c, e)))
  }

  predicate HasReason(reasons: map<int, Reason>, id: int, r: Option<Reason>) {
    if r.Some? then id in reasons && reasons[id] == r.value else id !in reasons
  }

  /** One turn of the loop over the entries. */
  method Explain(e: Entry, within: set<int>, guarded: set<int>, blocking: set<int>, referenced: set<int>, scope: Scope,
                 ghost c: Context)
    returns (r: Option<Reason>)
    requires c == Context(c.entries, guarded, blocking, referenced, c.keep, scope)
    requires e.id in within <==> KeptNewest(c, e)
    ensures r == ReasonFor(c, e)
  {
    if e.id in within { return Some(WithinKeepNewest); }
    if e.id in guarded { return Some(IsProtected); }
    if e.id in blocking { return Some(BlockingLedgerState); }
    if scope == RemoteVault && e.digest in referenced { return Some(ReferencedByManifest); }
    if scope == LocalPayload && e.digest !in referenced { return Some(NoManifestCopy); }
    r := None;
  }

  method ExplainAll(entries: map<int, Entry>, within: set<int>, guarded: set<int>, blocking: set<int>,
                    referenced: set<int>, scope: Scope, ghost c: Context)
    returns (reasons: map<int, Reason>)
    requires c == Context(c.entries, guarded, blocking, referenced, c.keep, scope) && ById(entries, c.entries)
    requires forall e {:trigger e in c.entries} :: e in c.entries ==> (e.id in within <==> KeptNewest(c, e))
    ensures ReasonsFor(reasons, c, entries.Keys)
  {
    reasons := map[];
    var todo, done: set<int> := entries.Keys, {};
    while todo != {}
      invariant todo !! done && todo + done == entries.Keys
      invariant ReasonsFor(reasons, c, done)
      decreases todo
    {
      var id := Pick(todo);
      assert entries[id] in c.entries;
      var r := Explain(entries[id], within, guarded, blocking, referenced, scope, c);
      if r.Some? {
        reasons := reasons[id := r.value];
      }
      todo, done := todo - {id}, done + {id};
    }
    assert done == entries.Keys;
  }

  // ---------- exclusions ----------

  predicate Disjoint(s: set<int>, t: set<int>) { forall a :: a in s ==> a !in t }

  ghost predicate ExcludedAs(r: Reason, a: int, group: set<int>, reasons: map<int, Reason>) {
    if a in reasons then r == reasons[a] else exists b :: b in group && b in reasons && reasons[b] == r
  }

  /** Either no alias has a reason and none is excluded, or all are, each with its own reason or else
      with one that an alias has. */
  ghost predicate ExcludedGroup(excluded: map<int, Reason>, group: set<int>, reasons: map<int, Reason>) {
    if Disjoint(group, reasons.Keys) then Disjoint(group, excluded.Keys)
    else forall a :: a in group ==> a in excluded && ExcludedAs(excluded[a], a, group, reasons)
  }

  ghost predicate AgreeOn(excluded: map<int, Reason>, group: set<int>, reasons: map<int, Reason>) {
    forall a :: a in group ==> (a in excluded <==> a in reasons) && (a in excluded ==> excluded[a] == reasons[a])
  }

  /** One turn of the loop that lets aliases inherit a reason. */
  method Inherit(excluded: map<int, Reason>, group: set<int>, reasons: map<int, Reason>) returns (r: map<int, Reason>)
    requires AgreeOn(excluded, group, reasons)
    ensures ExcludedGroup(r, group, reasons)
    ensures excluded.Keys <= r.Keys <= excluded.Keys + group
    ensures forall id :: id in excluded ==> r[id] == excluded[id]
  {
    r := excluded;
    var having := group * reasons.Keys;
    if having == {} {
      assert Disjoint(group, reasons.Keys) by {
        forall a | a in group ensures a !in reasons { assert a !in having; }
      }
      return;
    }
    var from := Pick(having);
    r := (map a | a in group :: reasons[from]) + excluded;
    forall a | a in group ensures a in r && if a in reasons then r[a] == reasons[a] else r[a] == reasons[from] {}
  }

  /** Each id is an alias of one digest only. */
  ghost predicate Apart(aliases: map<int, set<int>>) {
    forall d, f :: d in aliases && f in aliases && d != f ==> Disjoint(aliases[d], aliases[f])
  }

  lemma GroupKept(excluded: map<int, Reason>, r: map<int, Reason>, group: set<int>, other: set<int>,
                  reasons: map<int, Reason>)
    requires Disjoint(other, group) && excluded.Keys <= r.Keys <= excluded.Keys + group
    requires forall id :: id in excluded ==> r[id] == excluded[id]
    ensures AgreeOn(excluded, other, reasons) ==> AgreeOn(r, other, reasons)
    ensures ExcludedGroup(excluded, other, reasons) ==> ExcludedGroup(r, other, reasons)
  {
    forall a | a in other ensures a in r <==> a in excluded {}
  }

  method Exclude(aliases: map<int, set<int>>, reasons: map<int, Reason>, ghost ids: set<int>)
    returns (excluded: map<int, Reason>)
    requires Apart(aliases) && reasons.Keys <= ids && forall d :: d in aliases ==> aliases[d] <= ids
    ensures forall d :: d in aliases ==> ExcludedGroup(excluded, aliases[d], reasons)
    ensures excluded.Keys <= ids
  {
    excluded := reasons;
    var todo, done: set<int> := aliases.Keys, {};
    while todo != {}
      invariant todo !! done && todo + done == aliases.Keys && excluded.Keys <= ids
      invariant forall d :: d in todo ==> AgreeOn(excluded, aliases[d], reasons)
      invariant forall d :: d in done ==> ExcludedGroup(excluded, aliases[d], reasons)
      decreases todo
    {
      var d := Pick(todo);
      var r := Inherit(excluded, aliases[d], reasons);
      forall f | f in aliases && f != d
        ensures AgreeOn(excluded, aliases[f], reasons) ==> AgreeOn(r, aliases[f], reasons)
        ensures ExcludedGroup(excluded, aliases[f], reasons) ==> ExcludedGroup(r, aliases[f], reasons)
      {
        GroupKept(excluded, r, aliases[d], aliases[f], reasons);
      }
      excluded, todo, done := r, todo - {d}, done + {d};
    }
    assert done == aliases.Keys;
  }

  // ---------- candidates ----------

  method Candidates(aliases: map<int, set<int>>, sizes: map<int, int>, reasons: map<int, Reason>,
                    ghost entries: set<Entry>)
    returns (cs: seq<Candidate>)
    requires SizeByDigest(sizes, entries) && IdsByDigest(aliases, entries)
    ensures forall i :: 0 <= i < |cs| ==>
      cs[i].digest in aliases && Disjoint(aliases[cs[i].digest], reasons.Keys) && Describes(cs[i], entries)
    ensures forall d :: d in aliases && Disjoint(aliases[d], reasons.Keys) ==>
      exists i :: 0 <= i < |cs| && cs[i].digest == d
    ensures forall i, j :: 0 <= i < j < |cs| ==> cs[i].digest < cs[j].digest
  {
    var eligible := set d | d in aliases && Disjoint(aliases[d], reasons.Keys);
    var digests := SortAscending(eligible);
    cs := [];
    for k := 0 to |digests|
      invariant |cs| == k && forall i :: 0 <= i < k ==> cs[i].digest == digests[i] && Describes(cs[i], entries)
    {
      var d := digests[k];
      assert d in Elements(digests);
      var ids := SortAscending(aliases[d]);
      ghost var e :| e in entries && e.digest == d;
      cs := cs + [Candidate(d, sizes[d], ids)];
    }
    forall d | d in aliases && Disjoint(aliases[d], reasons.Keys)
      ensures exists i :: 0 <= i < |cs| && cs[i].digest == d
    {
      assert d in eligible;
      assert d in Elements(digests);
      var i :| 0 <= i < |digests| && digests[i] == d;
      assert cs[i].digest == d;
    }
    forall i | 0 <= i < |cs| ensures cs[i].digest in eligible { assert digests[i] in Elements(digests); }
  }

  // ---------- the whole plan ----------

  /** The reasons speak for the digests. */
  lemma EligibleExactly(aliases: map<int, set<int>>, reasons: map<int, Reason>, c: Context, ids: set<int>, d: int)
    requires IdsByDigest(aliases, c.entries) && ReasonsFor(reasons, c, ids) && EntryIds(c.entries) <= ids
    ensures Eligible(c, d) <==> d in aliases && Disjoint(aliases[d], reasons.Keys)
  {
    if d in aliases {
      var a := Ranking.Member(aliases[d]);
      assert a in Aliases(c.entries, d);
      forall e {:trigger e in c.entries} | e in c.entries && e.digest == d
        ensures e.id in aliases[d] && (e.id in reasons <==> ReasonFor(c, e).Some?)
      {
        assert e.id in Aliases(c.entries, d);
        assert e.id in EntryIds(c.entries);
      }
      if Eligible(c, d) {
        forall b | b in aliases[d] ensures b !in reasons {
          assert b in Aliases(c.entries, d);
        }
      }
    }
  }

  lemma CandidatesAreGood(cs: seq<Candidate>, aliases: map<int, set<int>>, reasons: map<int, Reason>, c: Context,
                          ids: set<int>)
    requires IdsByDigest(aliases, c.entries) && ReasonsFor(reasons, c, ids) && EntryIds(c.entries) <= ids
    requires forall i :: 0 <= i < |cs| ==>
      cs[i].digest in aliases && Disjoint(aliases[cs[i].digest], reasons.Keys) && Describes(cs[i], c.entries)
    requires forall d :: d in aliases && Disjoint(aliases[d], reasons.Keys) ==>
      exists i :: 0 <= i < |cs| && cs[i].digest == d
    requires forall i, j :: 0 <= i < j < |cs| ==> cs[i].digest < cs[j].digest
    ensures GoodCandidates(cs, c)
  {
    forall d ensures Eligible(c, d) <==> d in aliases && Disjoint(aliases[d], reasons.Keys) {
      EligibleExactly(aliases, reasons, c, ids, d);
    }
  }

  lemma ExclusionIsGood(excluded: map<int, Reason>, aliases: map<int, set<int>>, reasons: map<int, Reason>, c: Context,
                        ids: set<int>, e: Entry)
    requires IdsByDigest(aliases, c.entries) && ReasonsFor(reasons, c, ids) && EntryIds(c.entries) <= ids
    requires e in c.entries && ExcludedGroup(excluded, aliases[e.digest], reasons)
    ensures GoodExclusion(excluded, c, e)
  {
    var group := aliases[e.digest];
    EligibleExactly(aliases, reasons, c, ids, e.digest);
    assert e.id in Aliases(c.entries, e.digest);
    assert e.id in EntryIds(c.entries);
    if e.id !in reasons && !Disjoint(group, reasons.Keys) {
      var b :| b in group && b in reasons && reasons[b] == excluded[e.id];
      var a :| a in c.entries && a.digest == e.digest && a.id == b;
      assert a.id in EntryIds(c.entries);
    }
  }

  lemma ExclusionsAreGood(excluded: map<int, Reason>, aliases: map<int, set<int>>, reasons: map<int, Reason>,
                          c: Context, ids: set<int>)
    requires IdsByDigest(aliases, c.entries) && ReasonsFor(reasons, c, ids) && EntryIds(c.entries) <= ids
    requires forall d :: d in aliases ==> ExcludedGroup(excluded, aliases[d], reasons)
    ensures forall e {:trigger e in c.entries} :: e in c.entries ==> GoodExclusion(excluded, c, e)
  {
    forall e {:trigger e in c.entries} | e in c.entries ensures GoodExclusion(excluded, c, e) {
      ExclusionIsGood(excluded, aliases, reasons, c, ids, e);
    }
  }

  lemma IdsAreKeys(m: map<int, Entry>, entries: set<Entry>)
    requires ById(m, entries)
    ensures EntryIds(entries) == m.Keys
  {
    forall id | id in m ensures id in EntryIds(entries) { assert m[id] in entries; }
  }

  lemma AliasesApart(aliases: map<int, set<int>>, entries: set<Entry>)
    requires IdsByDigest(aliases, entries) && DistinctIds(entries)
    ensures Apart(aliases)
    ensures forall d :: d in aliases ==> aliases[d] <= EntryIds(entries)
  {
    forall d, f | d in aliases && f in aliases && d != f ensures Disjoint(aliases[d], aliases[f]) {
      assert forall a :: a in Aliases(entries, d) ==> a !in Aliases(entries, f);
    }
  }

  /** From the reasons to the plan. */
  method Select(x: Index, reasons: map<int, Reason>, ghost c: Context) returns (p: Plan)
    requires Indexes(x, c.entries) && DistinctIds(c.entries) && ReasonsFor(reasons, c, x.entries.Keys)
    ensures GoodPlan(p, c)
  {
    ghost var ids := x.entries.Keys;
    IdsAreKeys(x.entries, c.entries);
    AliasesApart(x.aliases, c.entries);
    var excluded := Exclude(x.aliases, reasons, ids);
    ExclusionsAreGood(excluded, x.aliases, reasons, c, ids);
    var cs := Candidates(x.aliases, x.sizes, reasons, c.entries);
    CandidatesAreGood(cs, x.aliases, reasons, c, ids);
    p := Plan(cs, excluded, Total(cs));
  }

  /** The reasons of all entries. */
  method Decide(x: Index, guarded: set<int>, blocking: set<int>, referenced: set<int>, keep: nat, scope: Scope,
                ghost c: Context)
    returns (p: Plan)
    requires c == Context(c.entries, guarded, blocking, referenced, keep, scope)
    requires Indexes(x, c.entries) && DistinctIds(c.entries)
    ensures GoodPlan(p, c)
  {
    var within := KeepNewest(x.order, keep, c.entries);
    assert forall e {:trigger e in c.entries} :: e in c.entries ==> (e.id in within <==> KeptNewest(c, e));
    var reasons := ExplainAll(x.entries, within, guarded, blocking, referenced, scope, c);
    p := Select(x, reasons, c);
  }

  /** `build_plan` up to the report: refuses exactly what is not acceptable, and otherwise plans. */
  method BuildPlan(v: Inventory) returns (r: Outcome<Plan>)
    ensures r.Done? <==> Accepts(v)
    ensures r.Done? ==> GoodPlan(r.value, ContextOf(v))
  {
    if v.budget <= 0 || v.reserve <= 0 || v.used < 0 || v.available < 0 { return Refused; }
    if v.keep.None? || v.keep.value < MIN_KEEP_NEWEST || v.scope.None? { return Refused; }
    if v.catalog == [] { return Refused; }
    var index := ReadCatalog(v.catalog);
    if index.Refused? { return Refused; }
    var x := index.value;
    assert x.entries.Keys == Ids(v.catalog) by { KeysAreIds(x.entries, v.catalog); }
    var guarded := ReadProtections(v.protections, x.entries.Keys);
    if guarded.Refused? { return Refused; }
    var blocking := ReadLedger(v.ledger, x.entries.Keys);
    if blocking.Refused? { return Refused; }
    var referenced := ReadManifests(v.manifests, x.sizes, v.catalog);
    if referenced.Refused? { return Refused; }
    IdsAreDistinct(v.catalog);
    var p := Decide(x, guarded.value, blocking.value, referenced.value, v.keep.value, v.scope.value, ContextOf(v));
    r := Done(p);
  }

  lemma KeysAreIds(m: map<int, Entry>, items: seq<Item>)
    requires ById(m, EntriesOf(items))
    ensures m.Keys == Ids(items)
  {
    forall id | id in m ensures id in Ids(items) {
      var y :| y in items && EntryOf(y) == m[id];
    }
    forall id | id in Ids(items) ensures id in m {
      var y :| y in items && y.id == id;
      assert EntryOf(y) in EntriesOf(items);
    }
  }
}
