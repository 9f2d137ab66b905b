/** Applying a replacement plan (`apply_replacement_plan` in
    src/game_control/backup_reconcile.py): row checks, uploads, verification, deletions and one
    database transaction at the end.  Uploads and deletes are atomic, `verify` succeeds exactly
    when contents are equal, and any remote call may be cut off, as `script` decides. */
module RetentionApply {
  import opened Ranking
  import opened RemoteRetention
  import opened Wrappers

  datatype Item = Item(ref: Ref, size: int, sha: int)

  datatype Flag = Flag(ref: Ref, target: bool)

  /** The plan's lists; `inventory` is the size of every remote object in the plan's evidence. */
  datatype Plan = Plan(imports: seq<Item>, flags: seq<Flag>, replacements: seq<Item>, orphans: seq<Item>,
                       older: seq<Item>, gone: seq<Item>, inventory: map<Ref, int>)

  datatype Outcome = Done | Refused | Interrupted

  function Lists(items: seq<Item>): set<Ref> { set x | x in items :: x.ref }

  predicate Once(items: seq<Item>) {
    forall i, j :: 0 <= i < j < |items| ==> items[i].ref != items[j].ref
  }

  /** The list names every generation of `refs` once, with the catalog's size and digest. */
  predicate FromCatalog(items: seq<Item>, refs: set<Ref>, e: Evidence) {
    && Once(items) && Lists(items) == refs
    && forall x :: x in items ==>
      x.ref in e.catalog && x.size == ArchiveSize(e.catalog[x.ref]) && x.sha == e.catalog[x.ref].sha
  }

  predicate FlagsFor(flags: seq<Flag>, e: Evidence) {
    && (forall i, j :: 0 <= i < j < |flags| ==> flags[i].ref != flags[j].ref)
    && (forall f :: f in flags ==> f.ref in if f.target then Raised(e) else Lowered(e))
    && (forall r :: r in Raised(e) ==> Flag(r, true) in flags)
    && (forall r :: r in Lowered(e) ==> Flag(r, false) in flags)
  }

  /** `plan` is the plan of evidence `e`. */
  predicate PlanFor(plan: Plan, e: Evidence) {
    && FromCatalog(plan.imports, Imports(e), e)
    && FromCatalog(plan.replacements, Replacements(e), e)
    && FromCatalog(plan.older, Prunes(e) * e.catalog.Keys, e)
    && FromCatalog(plan.gone, Gone(e), e)
    && Once(plan.orphans) && Lists(plan.orphans) == Orphans(e)
    && (forall x :: x in plan.orphans ==> x.ref in e.remote && x.size == e.remote[x.ref].size)
    && FlagsFor(plan.flags, e)
    && plan.inventory == map r | r in e.remote :: e.remote[r].size
  }

  /** When an undisturbed run of a ready plan is not refused: every generation that the plan
      prunes is still flagged, and no archive exceeds the inventory's size bound. */
  predicate Applicable(w: World) {
    && (forall r {:trigger r in Older(w.remote.Keys, Refs(w))} :: r in Older(w.remote.Keys, Refs(w)) ==>
          w.backups[r.id].isProtected)
    && Bounded(w.remote) && Bounded(Copies(Keep(w), w.local))
  }

  function Sizes(remote: map<Ref, Archive>): map<Ref, int> {
    map r | r in remote :: remote[r].size
  }

  predicate Bounded(remote: map<Ref, Archive>) {
    forall r :: r in remote ==> 0 <= remote[r].size <= MAX_STAGED_BYTES
  }

  function Copies(refs: set<Ref>, local: map<Ref, Archive>): map<Ref, Archive> {
    map r | r in refs && r in local :: local[r]
  }

  // ---------- the plan's sets in terms of the world ----------

  lemma EvidenceSets(e: Evidence)
    ensures Replacements(e) == Kept(e) - e.remote.Keys
    ensures Prunes(e) * e.catalog.Keys == Older(e.remote.Keys, e.catalog.Keys)
    ensures Orphans(e) == e.remote.Keys - e.catalog.Keys
  {
  }

  lemma PlanSets(w: World)
    ensures var e := EvidenceOf(w);
      && Replacements(e) == Keep(w) - w.remote.Keys
      && Prunes(e) * e.catalog.Keys == Older(w.remote.Keys, Refs(w))
      && Orphans(e) == w.remote.Keys - Refs(w)
  {
    KeepAgrees(w);
    EvidenceSets(EvidenceOf(w));
  }

  lemma ImportsAre(w: World, r: Ref)
    requires RowsOk(w) && KeptOk(w)
    ensures r in Imports(EvidenceOf(w)) <==> r in Keep(w) && r in w.remote && r.id !in w.rows
  {
    KeepAgrees(w);
    if r in Keep(w) {
      RowOfRef(w, r);
      assert KeptAt(w, r);
    }
  }

  lemma GoneAre(w: World, r: Ref)
    requires RowsOk(w)
    ensures r in Gone(EvidenceOf(w)) <==>
      r in Refs(w) && r !in Keep(w) && r !in w.remote && r.id in w.rows && !w.rows[r.id].prune.Deleted?
  {
    KeepAgrees(w);
    if r in Refs(w) { RowOfRef(w, r); }
  }

  lemma PlanRowSets(w: World, r: Ref)
    requires Ready(w)
    ensures r in Imports(EvidenceOf(w)) <==> r in Keep(w) && r in w.remote && r.id !in w.rows
    ensures r in Gone(EvidenceOf(w)) <==>
      r in Refs(w) && r !in Keep(w) && r !in w.remote && r.id in w.rows && !w.rows[r.id].prune.Deleted?
  {
    assert RowsOk(w) && KeptOk(w) by { ReadyMeansAccepted(w); }
    ImportsAre(w, r);
    GoneAre(w, r);
  }

  // ---------- the transaction ----------

  predicate Insertable(items: seq<Item>, rows: map<int, Row>) {
    forall x :: x in items && x.ref.id in rows ==>
      var row := rows[x.ref.id];
      row.profile == x.ref.profile && row.key == Canonical(x.ref) && row.sha == x.sha && Proven(row)
  }

  /** `_insert_protection` for every item: a proven row stays, a missing one is created. */
  method InsertRows(items: seq<Item>, before: map<int, Row>) returns (ok: bool, rows: map<int, Row>)
    requires forall i, j :: 0 <= i < j < |items| ==> items[i].ref.id != items[j].ref.id
    ensures ok <==> Insertable(items, before)
    ensures ok ==> rows.Keys == before.Keys + IdsOf(Lists(items))
    ensures ok ==> forall i :: i in before ==> rows[i] == before[i]
    ensures ok ==> forall x :: x in items && x.ref.id !in before ==>
      x.ref.id in rows && rows[x.ref.id] == FreshRow(x.ref, x.sha)
  {
    rows := before;
    for k := 0 to |items|
      invariant Insertable(items[..k], before)
      invariant rows.Keys == before.Keys + IdsOf(Lists(items[..k]))
      invariant forall i :: i in before ==> rows[i] == before[i]
      invariant forall l :: 0 <= l < k && items[l].ref.id !in before ==>
        items[l].ref.id in rows && rows[items[l].ref.id] == FreshRow(items[l].ref, items[l].sha)
    {
      var x := items[k];
      assert items[..k + 1] == items[..k] + [x];
      assert Lists(items[..k + 1]) == Lists(items[..k]) + {x.ref};
      if x.ref.id in rows {
        var row := rows[x.ref.id];
        if !(row.profile == x.ref.profile && row.key == Canonical(x.ref) && row.sha == x.sha && Proven(row)) {
          return false, before;
        }
      } else {
        rows := rows[x.ref.id := FreshRow(x.ref, x.sha)];
      }
    }
    assert items[..|items|] == items;
    ok := true;
  }

  predicate Markable(items: seq<Item>, rows: map<int, Row>, proven: bool) {
    forall x :: x in items ==>
      && x.ref.id in rows && rows[x.ref.id].profile == x.ref.profile && rows[x.ref.id].key == Canonical(x.ref)
      && (proven ==> rows[x.ref.id].sha == x.sha && Proven(rows[x.ref.id]))
  }

  function Marked(row: Row): Row { row.(prune := Deleted, hasError := false) }

  /** The two `UPDATE ... prune_state='deleted'` loops; `proven` is the stricter filter of the second. */
  method MarkDeleted(items: seq<Item>, before: map<int, Row>, proven: bool) returns (ok: bool, rows: map<int, Row>)
    requires forall i, j :: 0 <= i < j < |items| ==> items[i].ref.id != items[j].ref.id
    ensures ok <==> Markable(items, before, proven)
    ensures ok ==> rows.Keys == before.Keys
    ensures ok ==> forall i :: i in before ==>
      rows[i] == if i in IdsOf(Lists(items)) then Marked(before[i]) else before[i]
  {
    rows := before;
    for k := 0 to |items|
      invariant Markable(items[..k], before, proven) && rows.Keys == before.Keys
      invariant forall i :: i in before ==>
        rows[i] == if i in IdsOf(Lists(items[..k])) then Marked(before[i]) else before[i]
    {
      var x := items[k];
      assert items[..k + 1] == items[..k] + [x];
      assert Lists(items[..k + 1]) == Lists(items[..k]) + {x.ref};
      assert IdsOf(Lists(items[..k + 1])) == IdsOf(Lists(items[..k])) + {x.ref.id};
      assert x.ref.id !in IdsOf(Lists(items[..k]));
      if x.ref.id !in rows || rows[x.ref.id].profile != x.ref.profile || rows[x.ref.id].key != Canonical(x.ref)
        || (proven && !(rows[x.ref.id].sha == x.sha && Proven(rows[x.ref.id])))
      {
        return false, before;
      }
      rows := rows[x.ref.id := Marked(rows[x.ref.id])];
    }
    assert items[..|items|] == items;
    ok := true;
  }

  predicate Flaggable(flags: seq<Flag>, backups: map<int, Backup>) {
    forall f :: f in flags ==>
      && f.ref.id in backups && backups[f.ref.id].profile == f.ref.profile
      && (backups[f.ref.id].isProtected == f.target || backups[f.ref.id].verified)
  }

  /** The protected-flag corrections. */
  method SetFlags(flags: seq<Flag>, before: map<int, Backup>) returns (ok: bool, backups: map<int, Backup>)
    requires forall i, j :: 0 <= i < j < |flags| ==> flags[i].ref.id != flags[j].ref.id
    ensures ok <==> Flaggable(flags, before)
    ensures ok ==> backups.Keys == before.Keys
    ensures ok ==> forall f :: f in flags ==>
      f.ref.id in before && backups[f.ref.id] == before[f.ref.id].(isProtected := f.target)
    ensures ok ==> forall i :: i in before && (forall f :: f in flags ==> f.ref.id != i) ==> backups[i] == before[i]
  {
    backups := before;
    for k := 0 to |flags|
      invariant Flaggable(flags[..k], before) && backups.Keys == before.Keys
      invariant forall l :: 0 <= l < k ==>
        flags[l].ref.id in before
          && backups[flags[l].ref.id] == before[flags[l].ref.id].(isProtected := flags[l].target)
      invariant forall i :: i in before && (forall l :: 0 <= l < k ==> flags[l].ref.id != i) ==> backups[i] == before[i]
    {
      var f := flags[k];
      assert flags[..k + 1] == flags[..k] + [f];
      if f.ref.id !in backups || backups[f.ref.id].profile != f.ref.profile
        || (backups[f.ref.id].isProtected != f.target && !backups[f.ref.id].verified)
      {
        return false, before;
      }
      backups := backups[f.ref.id := backups[f.ref.id].(isProtected := f.target)];
    }
    assert flags[..|flags|] == flags;
    ok := true;
  }

  lemma DistinctIds(items: seq<Item>, w: World)
    requires Once(items) && Lists(items) <= Refs(w)
    ensures forall i, j :: 0 <= i < j < |items| ==> items[i].ref.id != items[j].ref.id
  {
    forall i | 0 <= i < |items| ensures items[i].ref in Refs(w) { assert items[i].ref in Lists(items); }
  }

  lemma CatalogItem(w: World, x: Item)
    requires Ready(w) && x.ref in Refs(w) && x.sha == EvidenceOf(w).catalog[x.ref].sha
    ensures x.ref in w.local && x.sha == w.local[x.ref].sha && w.backups[x.ref.id].verified
    ensures EvidenceOf(w).catalog[x.ref].size == w.backups[x.ref.id].size
    ensures ArchiveSize(EvidenceOf(w).catalog[x.ref]) == w.local[x.ref].size == w.backups[x.ref.id].size
    ensures x.ref.id in w.rows ==> RowAt(w, x.ref)
    ensures x.ref in Keep(w) && x.ref.id in w.rows ==> Proven(w.rows[x.ref.id])
    ensures x.ref in Older(w.remote.Keys, Refs(w)) ==> x.ref.id in w.rows && Proven(w.rows[x.ref.id])
  {
    assert LocalAt(w, x.ref) && RowsOk(w) && KeptOk(w) && OlderOk(w) by { ReadyMeansAccepted(w); }
    RowOfRef(w, x.ref);
    assert x.ref in Keep(w) ==> KeptAt(w, x.ref);
    assert x.ref in Older(w.remote.Keys, Refs(w)) ==> OlderAt(w, x.ref);
  }

  lemma ReplacementsInsertable(w: World, items: seq<Item>, rows: map<int, Row>)
    requires Ready(w) && FromCatalog(items, Replacements(EvidenceOf(w)), EvidenceOf(w))
    requires forall x :: x in items ==> (x.ref.id in rows <==> x.ref.id in w.rows)
    requires forall i :: i in w.rows ==> i in rows && rows[i] == w.rows[i]
    ensures Insertable(items, rows)
  {
    PlanSets(w);
    forall x | x in items && x.ref.id in rows
      ensures var row := rows[x.ref.id];
        row.profile == x.ref.profile && row.key == Canonical(x.ref) && row.sha == x.sha && Proven(row)
    {
      assert x.ref in Lists(items);
      CatalogItem(w, x);
      RowOfRef(w, x.ref) by { ReadyMeansAccepted(w); }
      assert x.ref in RowMap(w, false);
    }
  }

  lemma OlderMarkable(w: World, items: seq<Item>, rows: map<int, Row>)
    requires Ready(w) && FromCatalog(items, Prunes(EvidenceOf(w)) * EvidenceOf(w).catalog.Keys, EvidenceOf(w))
    requires forall i :: i in w.rows ==> i in rows && rows[i] == w.rows[i]
    ensures Markable(items, rows, false)
  {
    PlanSets(w);
    forall x | x in items
      ensures x.ref.id in rows && rows[x.ref.id].profile == x.ref.profile && rows[x.ref.id].key == Canonical(x.ref)
    {
      assert x.ref in Lists(items);
      CatalogItem(w, x);
      RowOfRef(w, x.ref) by { ReadyMeansAccepted(w); }
      assert x.ref in RowMap(w, false);
    }
  }

  lemma GoneMarkable(w: World, items: seq<Item>, rows: map<int, Row>)
    requires Ready(w) && FromCatalog(items, Gone(EvidenceOf(w)), EvidenceOf(w))
    requires forall x :: x in items ==> x.ref.id in w.rows && x.ref.id in rows && rows[x.ref.id] == w.rows[x.ref.id]
    ensures Markable(items, rows, true)
  {
    forall x | x in items
      ensures x.ref.id in rows && rows[x.ref.id].profile == x.ref.profile && rows[x.ref.id].key == Canonical(x.ref)
        && rows[x.ref.id].sha == x.sha && Proven(rows[x.ref.id])
    {
      assert x.ref in Lists(items);
      PlanRowSets(w, x.ref);
      CatalogItem(w, x);
      RowOfRef(w, x.ref) by { ReadyMeansAccepted(w); }
      assert x.ref in RowMap(w, false);
    }
  }

  /** The rows after both insertions. */
  predicate Inserted(w: World, rows: map<int, Row>) {
    && rows.Keys == w.rows.Keys + IdsOf(Keep(w))
    && (forall i :: i in w.rows ==> rows[i] == w.rows[i])
    && (forall r {:trigger r in Keep(w)} :: r in Keep(w) && r.id !in w.rows ==>
          rows[r.id] == FreshRow(r, LocalSha(w, r)))
  }

  lemma ImportsInsertable(plan: Plan, w: World)
    requires Ready(w) && PlanFor(plan, EvidenceOf(w))
    ensures forall i, j :: 0 <= i < j < |plan.imports| ==> plan.imports[i].ref.id != plan.imports[j].ref.id
    ensures forall x :: x in plan.imports ==> x.ref.id !in w.rows
    ensures Insertable(plan.imports, w.rows)
  {
    forall r | r in Imports(EvidenceOf(w)) ensures r in Keep(w) && r.id !in w.rows { PlanRowSets(w, r); }
    forall x | x in plan.imports ensures x.ref.id !in w.rows { assert x.ref in Lists(plan.imports); }
    DistinctIds(plan.imports, w);
  }

  lemma ReplacementIds(plan: Plan, w: World, x: Item)
    requires Ready(w) && PlanFor(plan, EvidenceOf(w)) && x in plan.replacements
    ensures x.ref in Refs(w) && x.ref.id !in IdsOf(Imports(EvidenceOf(w)))
  {
    assert x.ref in Lists(plan.replacements);
    PlanSets(w);
    forall r | r in Imports(EvidenceOf(w)) ensures r.id != x.ref.id { PlanRowSets(w, r); }
  }

  method InsertAll(plan: Plan, before: map<int, Row>, ghost w: World) returns (ok: bool, rows: map<int, Row>)
    requires Ready(w) && PlanFor(plan, EvidenceOf(w)) && before == w.rows
    ensures ok && Inserted(w, rows)
  {
    ImportsInsertable(plan, w);
    ok, rows := InsertRows(plan.imports, before);
    ghost var rows1 := rows;
    forall x | x in plan.replacements ensures x.ref in Refs(w) && (x.ref.id in rows1 <==> x.ref.id in w.rows) {
      ReplacementIds(plan, w, x);
    }
    ReplacementsInsertable(w, plan.replacements, rows);
    DistinctIds(plan.replacements, w);
    ok, rows := InsertRows(plan.replacements, rows);
    InsertedBoth(w, plan, rows1, rows);
  }

  lemma ItemFor(items: seq<Item>, r: Ref) returns (x: Item)
    requires r in Lists(items)
    ensures x in items && x.ref == r
  {
    x :| x in items && x.ref == r;
  }

  lemma KeyUnion(rows: set<int>, keep: set<Ref>, remote: set<Ref>, imports: set<Ref>)
    requires forall r :: r in imports <==> r in keep && r in remote && r.id !in rows
    ensures rows + IdsOf(imports) + IdsOf(keep - remote) == rows + IdsOf(keep)
  {
    forall r | r in keep ensures r.id in rows + IdsOf(imports) + IdsOf(keep - remote) {
      assert r in imports || r in keep - remote || r.id in rows;
    }
  }

  lemma InsertedKeys(w: World)
    requires RowsOk(w) && KeptOk(w)
    ensures var e := EvidenceOf(w);
      w.rows.Keys + IdsOf(Imports(e)) + IdsOf(Replacements(e)) == w.rows.Keys + IdsOf(Keep(w))
  {
    forall r
      ensures r in Imports(EvidenceOf(w)) <==> r in Keep(w) && r in w.remote && r.id !in w.rows
    {
      ImportsAre(w, r);
    }
    KeyUnion(w.rows.Keys, Keep(w), w.remote.Keys, Imports(EvidenceOf(w)));
    PlanSets(w);
  }

  lemma InsertedFresh(w: World, plan: Plan, rows1: map<int, Row>, rows: map<int, Row>, r: Ref)
    requires Ready(w) && PlanFor(plan, EvidenceOf(w)) && r in Keep(w) && r.id !in w.rows
    requires rows1.Keys == w.rows.Keys + IdsOf(Imports(EvidenceOf(w)))
    requires forall x :: x in plan.imports && x.ref.id !in w.rows ==>
      x.ref.id in rows1 && rows1[x.ref.id] == FreshRow(x.ref, x.sha)
    requires forall i :: i in rows1 ==> i in rows && rows[i] == rows1[i]
    requires forall x :: x in plan.replacements && x.ref.id !in rows1 ==>
      x.ref.id in rows && rows[x.ref.id] == FreshRow(x.ref, x.sha)
    ensures r.id in rows && rows[r.id] == FreshRow(r, LocalSha(w, r))
  {
    PlanRowSets(w, r);
    if r in w.remote {
      var x := ItemFor(plan.imports, r);
      CatalogItem(w, x);
    } else {
      assert r in Replacements(EvidenceOf(w)) by { PlanSets(w); }
      var x := ItemFor(plan.replacements, r);
      CatalogItem(w, x);
      assert r.id !in rows1 by {
        forall q | q in Imports(EvidenceOf(w)) ensures q.id != r.id { PlanRowSets(w, q); }
      }
    }
  }

  lemma InsertedBoth(w: World, plan: Plan, rows1: map<int, Row>, rows: map<int, Row>)
    requires rows1.Keys == w.rows.Keys + IdsOf(Imports(EvidenceOf(w)))
    requires forall i :: i in w.rows ==> rows1[i] == w.rows[i]
    requires rows.Keys == rows1.Keys + IdsOf(Replacements(EvidenceOf(w)))
    requires forall i :: i in rows1 ==> rows[i] == rows1[i]
    requires forall x :: x in plan.imports && x.ref.id !in w.rows ==>
      x.ref.id in rows1 && rows1[x.ref.id] == FreshRow(x.ref, x.sha)
    requires forall x :: x in plan.replacements && x.ref.id !in rows1 ==>
      x.ref.id in rows && rows[x.ref.id] == FreshRow(x.ref, x.sha)
    requires Ready(w) && PlanFor(plan, EvidenceOf(w))
    ensures Inserted(w, rows)
  {
    assert rows.Keys == w.rows.Keys + IdsOf(Keep(w)) by {
      assert RowsOk(w) && KeptOk(w) by { ReadyMeansAccepted(w); }
      InsertedKeys(w);
    }
    forall r | r in Keep(w) && r.id !in w.rows ensures rows[r.id] == FreshRow(r, LocalSha(w, r)) {
      InsertedFresh(w, plan, rows1, rows, r);
    }
  }

  lemma MarkedIsTarget(w: World, rows: map<int, Row>, i: int, older: set<Ref>, gone: set<Ref>)
    requires Ready(w) && Inserted(w, rows) && i in rows
    requires older == Older(w.remote.Keys, Refs(w)) && gone == Gone(EvidenceOf(w))
    ensures (if i in IdsOf(older) || i in IdsOf(gone) then Marked(rows[i]) else rows[i]) == TargetRow(w, i)
  {
    assert LocalOk(w) && RowsOk(w) && KeptOk(w) by { ReadyMeansAccepted(w); }
    if i in w.rows {
      var r := Ref(w.rows[i].profile, i);
      assert r in RowRefs(w, false) + RowRefs(w, true);
      assert RowAt(w, r);
      forall q | q in older ensures q.id == i ==> q == r {}
      forall q | q in gone ensures q.id == i ==> q == r { PlanRowSets(w, q); }
      PlanRowSets(w, r);
      assert r in older ==> r.id in IdsOf(older);
      assert r in gone ==> r.id in IdsOf(gone);
      assert r in Older(w.remote.Keys, Refs(w)) ==> OlderAt(w, r) by { ReadyMeansAccepted(w); }
    } else {
      var r :| r in Keep(w) && r.id == i;
      forall q | q in older ensures q.id != i {
        assert OlderAt(w, q) by { ReadyMeansAccepted(w); }
      }
      forall q | q in gone ensures q.id != i { PlanRowSets(w, q); }
    }
  }

  lemma MarkingIsDisjoint(plan: Plan, w: World)
    requires Ready(w) && PlanFor(plan, EvidenceOf(w))
    ensures Lists(plan.older) == Older(w.remote.Keys, Refs(w))
    ensures forall i, j :: 0 <= i < j < |plan.older| ==> plan.older[i].ref.id != plan.older[j].ref.id
    ensures forall i, j :: 0 <= i < j < |plan.gone| ==> plan.gone[i].ref.id != plan.gone[j].ref.id
    ensures forall x :: x in plan.gone ==> x.ref.id in w.rows && x.ref.id !in IdsOf(Lists(plan.older))
  {
    PlanSets(w);
    var older := Older(w.remote.Keys, Refs(w));
    forall r | r in Gone(EvidenceOf(w)) ensures r in Refs(w) && r.id in w.rows && r.id !in IdsOf(older) {
      PlanRowSets(w, r);
      forall q | q in older ensures q.id != r.id {}
    }
    forall x | x in plan.gone ensures x.ref in Gone(EvidenceOf(w)) { assert x.ref in Lists(plan.gone); }
    DistinctIds(plan.older, w);
    DistinctIds(plan.gone, w);
  }

  /** The changes of `_apply_catalog_transitions` to the protection rows. */
  method TransitionRows(plan: Plan, before: map<int, Row>, ghost w: World) returns (ok: bool, rows: map<int, Row>)
    requires Ready(w) && PlanFor(plan, EvidenceOf(w)) && before == w.rows
    ensures ok && rows == TargetRows(w)
  {
    ok, rows := InsertAll(plan, before, w);
    ghost var inserted := rows;
    MarkingIsDisjoint(plan, w);
    OlderMarkable(w, plan.older, rows);
    ok, rows := MarkDeleted(plan.older, rows, false);
    assert forall x :: x in plan.gone ==> x.ref.id in inserted;
    GoneMarkable(w, plan.gone, rows);
    ok, rows := MarkDeleted(plan.gone, rows, true);
    MarkedAll(w, inserted, rows, Lists(plan.older), Lists(plan.gone));
  }

  lemma TargetRowsFrom(w: World, rows: map<int, Row>)
    requires rows.Keys == w.rows.Keys + IdsOf(Keep(w))
    requires forall i :: i in rows ==> (i in w.rows || i in w.backups) && rows[i] == TargetRow(w, i)
    ensures rows == TargetRows(w)
  {
  }

  lemma MarkedAll(w: World, inserted: map<int, Row>, rows: map<int, Row>, older: set<Ref>, gone: set<Ref>)
    requires Ready(w) && Inserted(w, inserted) && rows.Keys == inserted.Keys
    requires older == Older(w.remote.Keys, Refs(w)) && gone == Gone(EvidenceOf(w))
    requires forall i :: i in rows ==>
      rows[i] == if i in IdsOf(older) || i in IdsOf(gone) then Marked(inserted[i]) else inserted[i]
    ensures rows == TargetRows(w)
  {
    forall i | i in rows ensures (i in w.rows || i in w.backups) && rows[i] == TargetRow(w, i) {
      MarkedIsTarget(w, inserted, i, older, gone);
    }
    TargetRowsFrom(w, rows);
  }

  lemma FlagsAre(w: World, r: Ref)
    requires r in Refs(w)
    ensures r in Raised(EvidenceOf(w)) <==> r in Keep(w) && r in w.remote && !w.backups[r.id].isProtected
    ensures r in Lowered(EvidenceOf(w)) <==> r !in Keep(w) && w.backups[r.id].isProtected
  {
    KeepAgrees(w);
  }

  lemma FlagsAreFlaggable(flags: seq<Flag>, w: World)
    requires Ready(w) && FlagsFor(flags, EvidenceOf(w))
    ensures forall f :: f in flags ==> f.ref in Refs(w)
    ensures Flaggable(flags, w.backups)
    ensures forall i, j :: 0 <= i < j < |flags| ==> flags[i].ref.id != flags[j].ref.id
  {
    KeepAgrees(w);
    forall f | f in flags ensures f.ref in Refs(w) && w.backups[f.ref.id].verified {
      assert f.ref in Refs(w);
      assert LocalAt(w, f.ref) by { ReadyMeansAccepted(w); }
    }
    forall i | 0 <= i < |flags| ensures flags[i].ref in Refs(w) { assert flags[i] in flags; }
  }

  /** The changes of `_apply_catalog_transitions` to the catalog. */
  method TransitionBackups(plan: Plan, before: map<int, Backup>, ghost w: World)
    returns (ok: bool, backups: map<int, Backup>)
    requires Ready(w) && PlanFor(plan, EvidenceOf(w)) && before == w.backups
    ensures ok && backups == TargetBackups(w)
  {
    FlagsAreFlaggable(plan.flags, w);
    ok, backups := SetFlags(plan.flags, before);
    BackupsAreTarget(plan.flags, w, backups);
  }

  lemma TargetBackupsFrom(w: World, backups: map<int, Backup>)
    requires backups.Keys == w.backups.Keys
    requires forall i :: i in w.backups ==>
      backups[i] == w.backups[i].(isProtected := Ref(w.backups[i].profile, i) in Keep(w))
    ensures backups == TargetBackups(w)
  {
  }

  lemma BackupsAreTarget(flags: seq<Flag>, w: World, backups: map<int, Backup>)
    requires Ready(w) && FlagsFor(flags, EvidenceOf(w)) && backups.Keys == w.backups.Keys
    requires forall f :: f in flags ==> f.ref in Refs(w)
    requires forall f :: f in flags ==> backups[f.ref.id] == w.backups[f.ref.id].(isProtected := f.target)
    requires forall i :: i in w.backups && (forall f :: f in flags ==> f.ref.id != i) ==> backups[i] == w.backups[i]
    ensures backups == TargetBackups(w)
  {
    forall i | i in w.backups
      ensures backups[i] == w.backups[i].(isProtected := Ref(w.backups[i].profile, i) in Keep(w))
    {
      FlagOutcome(flags, w, i, backups);
    }
    TargetBackupsFrom(w, backups);
  }

  lemma FlagOutcome(flags: seq<Flag>, w: World, i: int, backups: map<int, Backup>)
    requires Ready(w) && FlagsFor(flags, EvidenceOf(w)) && i in w.backups && backups.Keys == w.backups.Keys
    requires forall f :: f in flags ==> f.ref in Refs(w)
    requires forall f :: f in flags ==> backups[f.ref.id] == w.backups[f.ref.id].(isProtected := f.target)
    requires (forall f :: f in flags ==> f.ref.id != i) ==> backups[i] == w.backups[i]
    ensures backups[i] == w.backups[i].(isProtected := Ref(w.backups[i].profile, i) in Keep(w))
  {
    var r := Ref(w.backups[i].profile, i);
    FlagsAre(w, r);
    assert r in Keep(w) && r !in w.remote ==> w.backups[i].isProtected by {
      if r in Keep(w) { assert KeptAt(w, r) by { ReadyMeansAccepted(w); } }
    }
    if r in Raised(EvidenceOf(w)) {
      assert Flag(r, true) in flags;
    } else if r in Lowered(EvidenceOf(w)) {
      assert Flag(r, false) in flags;
    } else {
      forall f | f in flags ensures f.ref.id != i {
        assert f.ref.id == i ==> f.ref == r;
      }
    }
  }

  // ---------- the row checks before anything happens ----------

  predicate ReplacementUnchanged(w: World, x: Item) {
    x.ref.id in w.backups && w.backups[x.ref.id] == Backup(x.ref.profile, x.size, true, true)
  }

  predicate RowUnchanged(w: World, x: Item) {
    && x.ref.id in w.backups && w.backups[x.ref.id].profile == x.ref.profile && w.backups[x.ref.id].verified
    && x.ref.id in w.rows && w.rows[x.ref.id].key == Canonical(x.ref) && w.rows[x.ref.id].sha == x.sha
      && Proven(w.rows[x.ref.id])
  }

  predicate GoneUnchanged(w: World, x: Item, flags: seq<Flag>) {
    RowUnchanged(w, x) && (w.backups[x.ref.id].isProtected ==> Flag(x.ref, false) in flags)
  }

  predicate OlderUnchanged(w: World, x: Item) {
    RowUnchanged(w, x) && w.backups[x.ref.id].isProtected && w.backups[x.ref.id].size == x.size
  }

  predicate RowsUnchanged(plan: Plan, w: World) {
    && (forall x :: x in plan.replacements ==> ReplacementUnchanged(w, x))
    && (forall x :: x in plan.gone ==> GoneUnchanged(w, x, plan.flags))
    && (forall x :: x in plan.older ==> OlderUnchanged(w, x))
  }

  lemma ReplacementsPass(plan: Plan, w: World, x: Item)
    requires Ready(w) && PlanFor(plan, EvidenceOf(w)) && x in plan.replacements
    ensures ReplacementUnchanged(w, x)
  {
    assert x.ref in Lists(plan.replacements);
    PlanSets(w);
    CatalogItem(w, x);
    assert KeptAt(w, x.ref) by { ReadyMeansAccepted(w); }
  }

  lemma GoneRow(w: World, x: Item)
    requires Ready(w) && x.ref in Gone(EvidenceOf(w)) && x.sha == EvidenceOf(w).catalog[x.ref].sha
    ensures RowUnchanged(w, x) && x.ref !in Keep(w)
  {
    PlanRowSets(w, x.ref);
    CatalogItem(w, x);
  }

  lemma GonePass(plan: Plan, w: World, x: Item)
    requires FromCatalog(plan.gone, Gone(EvidenceOf(w)), EvidenceOf(w)) && FlagsFor(plan.flags, EvidenceOf(w))
    requires Ready(w) && x in plan.gone
    ensures GoneUnchanged(w, x, plan.flags)
  {
    assert x.ref in Lists(plan.gone);
    GoneRow(w, x);
    FlagsAre(w, x.ref);
  }

  lemma OlderPass(plan: Plan, w: World, x: Item)
    requires Ready(w) && PlanFor(plan, EvidenceOf(w)) && x in plan.older
    ensures x.ref in Older(w.remote.Keys, Refs(w))
    ensures OlderUnchanged(w, x) <==> w.backups[x.ref.id].isProtected
  {
    assert x.ref in Lists(plan.older);
    PlanSets(w);
    CatalogItem(w, x);
  }

  /** A ready plan passes the row checks exactly when every generation it prunes is still flagged. */
  lemma RowChecks(plan: Plan, w: World)
    requires Ready(w) && PlanFor(plan, EvidenceOf(w))
    ensures RowsUnchanged(plan, w) <==>
      forall r {:trigger r in Older(w.remote.Keys, Refs(w))} :: r in Older(w.remote.Keys, Refs(w)) ==>
        w.backups[r.id].isProtected
  {
    forall x | x in plan.replacements ensures ReplacementUnchanged(w, x) { ReplacementsPass(plan, w, x); }
    forall x | x in plan.gone ensures GoneUnchanged(w, x, plan.flags) { GonePass(plan, w, x); }
    forall x | x in plan.older
      ensures x.ref in Older(w.remote.Keys, Refs(w)) && (OlderUnchanged(w, x) <==> w.backups[x.ref.id].isProtected)
    {
      OlderPass(plan, w, x);
    }
    forall r | r in Older(w.remote.Keys, Refs(w)) ensures exists x :: x in plan.older && x.ref == r {
      PlanSets(w);
      var x := ItemFor(plan.older, r);
    }
  }

  // ---------- the run ----------

  /** Every item names a local archive with its size and digest that is not remote yet. */
  predicate Sendable(items: seq<Item>, local: map<Ref, Archive>, remote: map<Ref, Archive>) {
    Once(items) && forall x :: x in items ==>
      x.ref in local && local[x.ref].size == x.size && local[x.ref].sha == x.sha && x.ref !in remote
  }

  lemma CopyOneMore(remote: map<Ref, Archive>, local: map<Ref, Archive>, done: set<Ref>, r: Ref)
    requires r in local && r !in done && r !in remote
    ensures (remote + Copies(done, local))[r := local[r]] == remote + Copies(done + {r}, local)
    ensures r !in remote + Copies(done, local)
  {
  }

  /** How the plan's uploads and deletions relate to what is kept. */
  predicate Shape(remote: map<Ref, Archive>, local: map<Ref, Archive>, keep: set<Ref>, up: set<Ref>, down: set<Ref>) {
    && up == keep - remote.Keys && down == remote.Keys - keep && keep <= local.Keys
    && forall r :: r in keep && r in remote ==> remote[r] == local[r]
  }

  lemma PartwayUp(remote: map<Ref, Archive>, local: map<Ref, Archive>, keep: set<Ref>, up: set<Ref>, down: set<Ref>,
                  done: set<Ref>)
    requires Shape(remote, local, keep, up, down) && done <= up
    ensures Partway(remote, local, keep, remote + Copies(done, local))
    ensures remote.Keys <= (remote + Copies(done, local)).Keys
  {
  }

  lemma PartwayDown(remote: map<Ref, Archive>, local: map<Ref, Archive>, keep: set<Ref>, up: set<Ref>, down: set<Ref>,
                    done: set<Ref>)
    requires Shape(remote, local, keep, up, down) && done <= down
    ensures Partway(remote, local, keep, remote + Copies(up, local) - done)
    ensures keep <= (remote + Copies(up, local) - done).Keys
    ensures done == down ==> remote + Copies(up, local) - done == Copies(keep, local)
  {
  }

  lemma UploadedBound(remote: map<Ref, Archive>, local: map<Ref, Archive>, keep: set<Ref>, up: set<Ref>, down: set<Ref>)
    requires Shape(remote, local, keep, up, down) && Bounded(remote)
    ensures Bounded(remote + Copies(up, local)) <==> Bounded(Copies(keep, local))
  {
    var full := remote + Copies(up, local);
    forall r | r in keep ensures r in full && full[r] == local[r] && Copies(keep, local)[r] == local[r] {}
    forall r | r in full ensures (r in remote && full[r] == remote[r]) || r in keep {}
  }

  function ItemSizes(items: seq<Item>): map<Ref, int> {
    map r | r in Lists(items) :: SizeOf(items, r)
  }

  /** The size that the last item for a generation carries. */
  function SizeOf(items: seq<Item>, r: Ref): int {
    if items == [] then 0
    else if items[|items| - 1].ref == r then items[|items| - 1].size
    else SizeOf(items[..|items| - 1], r)
  }

  lemma {:induction false} SizeOfItem(items: seq<Item>, x: Item)
    requires Once(items) && x in items
    ensures SizeOf(items, x.ref) == x.size
  {
    var last := |items| - 1;
    if items[last].ref == x.ref {
      var k :| 0 <= k < |items| && items[k] == x;
    } else {
      assert x in items[..last];
      SizeOfItem(items[..last], x);
    }
  }

  lemma UploadedSizes(items: seq<Item>, remote: map<Ref, Archive>, local: map<Ref, Archive>)
    requires Sendable(items, local, remote)
    ensures Sizes(remote + Copies(Lists(items), local)) == Sizes(remote) + ItemSizes(items)
  {
    forall r | r in Lists(items) ensures r in local && SizeOf(items, r) == local[r].size {
      var x := ItemFor(items, r);
      SizeOfItem(items, x);
    }
  }

  /** Every item is a remote object with the item's size. */
  predicate Listed(items: seq<Item>, remote: map<Ref, Archive>) {
    forall x :: x in items ==> x.ref in remote && remote[x.ref].size == x.size
  }

  lemma ListedStill(items: seq<Item>, remote: map<Ref, Archive>, copies: map<Ref, Archive>, keep: set<Ref>,
                    up: set<Ref>)
    requires Listed(items, remote) && up == keep - remote.Keys && copies.Keys <= up
    ensures Listed(items, remote + copies)
  {
  }

  lemma PlanInventory(plan: Plan, w: World)
    requires plan.inventory == map r | r in RemoteMap(w) :: RemoteMap(w)[r].size
    ensures plan.inventory == Sizes(w.remote)
  {
    forall r | r in w.remote ensures plan.inventory[r] == w.remote[r].size {}
  }

  lemma PlanSendable(plan: Plan, w: World)
    requires Ready(w) && PlanFor(plan, EvidenceOf(w))
    ensures Sendable(plan.replacements, w.local, w.remote)
  {
    PlanSets(w);
    forall x | x in plan.replacements
      ensures x.ref in w.local && w.local[x.ref].size == x.size && w.local[x.ref].sha == x.sha && x.ref !in w.remote
    {
      assert x.ref in Lists(plan.replacements);
      CatalogItem(w, x);
    }
  }

  lemma PlanListed(plan: Plan, w: World)
    requires Ready(w) && PlanFor(plan, EvidenceOf(w))
    ensures Listed(plan.orphans + plan.older, w.remote)
  {
    assert RemoteOk(w) by { ReadyMeansAccepted(w); }
    forall x | x in plan.orphans ensures x.ref in w.remote && w.remote[x.ref].size == x.size {
      assert x.ref in EvidenceOf(w).remote;
    }
    forall x | x in plan.older ensures x.ref in w.remote && w.remote[x.ref].size == x.size {
      OlderPass(plan, w, x);
      CatalogItem(w, x);
      assert RemoteAt(w, x.ref);
    }
  }

  lemma PlanDeletes(plan: Plan, w: World)
    requires Ready(w) && PlanFor(plan, EvidenceOf(w))
    ensures Lists(plan.orphans + plan.older) == w.remote.Keys - Keep(w)
  {
    assert Lists(plan.orphans) == w.remote.Keys - Refs(w)
      && Lists(plan.older) == Older(w.remote.Keys, Refs(w)) by { PlanSets(w); }
    ListsOfBoth(plan.orphans, plan.older);
    SplitDeletes(w.remote.Keys, Refs(w));
  }

  lemma ListsOfBoth(a: seq<Item>, b: seq<Item>)
    ensures Lists(a + b) == Lists(a) + Lists(b)
  {
  }

  lemma SplitDeletes(remote: set<Ref>, refs: set<Ref>)
    ensures (remote - refs) + Older(remote, refs) == remote - Retained(refs)
  {
  }

  lemma KeptArchives(w: World)
    requires LocalOk(w) && RemoteOk(w)
    ensures Keep(w) <= w.local.Keys
    ensures forall r :: r in Keep(w) && r in w.remote ==> w.remote[r] == w.local[r]
  {
    forall r | r in Keep(w) ensures r in w.local { assert LocalAt(w, r); }
    forall r | r in Keep(w) && r in w.remote ensures w.remote[r] == w.local[r] { assert RemoteAt(w, r); }
  }

  lemma PlanShape(plan: Plan, w: World)
    requires Ready(w) && PlanFor(plan, EvidenceOf(w))
    ensures Shape(w.remote, w.local, Keep(w), Lists(plan.replacements), Lists(plan.orphans + plan.older))
  {
    assert Lists(plan.replacements) == Keep(w) - w.remote.Keys by { PlanSets(w); }
    PlanDeletes(plan, w);
    assert LocalOk(w) && RemoteOk(w) by { ReadyMeansAccepted(w); }
    KeptArchives(w);
  }

  class Executor {
    var w: World
    var script: seq<bool>      // whether the next remote call is cut off

    constructor (w: World, script: seq<bool>)
      ensures this.w == w && this.script == script
    {
      this.w, this.script := w, script;
    }

    ghost predicate Calm()
      reads this
    {
      true !in script
    }

    method Call() returns (cut: bool)
      modifies this`script
      ensures old(Calm()) ==> !cut && Calm()
    {
      cut := false;
      if script != [] {
        cut, script := script[0], script[1..];
      }
    }

    /** `_fixed_inventory`: refuses an object whose size is out of bounds. */
    method Inventory() returns (o: Outcome, sizes: map<Ref, int>)
      modifies this`script
      ensures o.Done? ==> Bounded(w.remote) && sizes == Sizes(w.remote)
      ensures old(Calm()) ==> Calm() && (o.Done? <==> Bounded(w.remote))
    {
      sizes := map[];
      var cut := Call();
      if cut { return Interrupted, sizes; }
      var todo := w.remote.Keys;
      ghost var rest := script;
      while todo != {}
        invariant script == rest && todo <= w.remote.Keys && sizes.Keys == w.remote.Keys - todo
        invariant forall r :: r in sizes ==> sizes[r] == w.remote[r].size && 0 <= sizes[r] <= MAX_STAGED_BYTES
        decreases todo
      {
        var r := Pick(todo);
        var size := w.remote[r].size;
        if size < 0 || size > MAX_STAGED_BYTES { return Refused, sizes; }
        sizes, todo := sizes[r := size], todo - {r};
      }
      o := Done;
    }

    /** Upload one missing generation, unless it is listed already, and verify it. */
    method UploadOne(x: Item, before: map<Ref, int>) returns (o: Outcome)
      modifies this
      ensures
        || w == old(w)
        || (x.ref in old(w).local && w == old(w).(remote := old(w).remote[x.ref := old(w).local[x.ref]]))
      ensures o.Done? ==> x.ref in w.remote && x.ref in w.local && w.remote[x.ref] == w.local[x.ref]
      ensures old(Calm()) && x.ref !in before && x.ref in w.local ==>
        (w.local[x.ref].size == x.size && w.local[x.ref].sha == x.sha ==> o.Done? && Calm())
    {
      if x.ref !in w.local || w.local[x.ref].size != x.size || w.local[x.ref].sha != x.sha { return Refused; }
      if x.ref !in before {
        var cut := Call();
        if cut { return Interrupted; }
        w := w.(remote := w.remote[x.ref := w.local[x.ref]]);
      } else if before[x.ref] != x.size {
        return Refused;
      }
      var cut := Call();
      if cut || x.ref !in w.remote || w.remote[x.ref] != w.local[x.ref] { return Interrupted; }
      o := Done;
    }

    /** Upload and verify every missing generation. */
    method Upload(items: seq<Item>, before: map<Ref, int>) returns (o: Outcome)
      requires Sendable(items, w.local, w.remote) && before == Sizes(w.remote)
      modifies this
      ensures exists done :: done <= Lists(items) && w == old(w).(remote := old(w).remote + Copies(done, old(w).local))
      ensures o.Done? ==> w == old(w).(remote := old(w).remote + Copies(Lists(items), old(w).local))
      ensures old(Calm()) ==> o.Done? && Calm()
    {
      ghost var done: set<Ref> := {};
      assert w.remote + Copies({}, w.local) == w.remote;
      for k := 0 to |items|
        invariant done == Lists(items[..k]) && done <= Lists(items)
        invariant w == old(w).(remote := old(w).remote + Copies(done, old(w).local))
        invariant old(Calm()) ==> Calm()
      {
        var x := items[k];
        assert items[..k + 1] == items[..k] + [x];
        assert x.ref in Lists(items) && x.ref !in done;
        CopyOneMore(old(w).remote, old(w).local, done, x.ref);
        o := UploadOne(x, before);
        if !o.Done? { return; }
        done := done + {x.ref};
      }
      assert items[..|items|] == items;
      o := Done;
    }

    /** Delete every planned object; an object that is gone or has changed stops the run. */
    method Delete(items: seq<Item>, after: map<Ref, int>) returns (o: Outcome)
      modifies this
      ensures exists done :: done <= Lists(items) && w == old(w).(remote := old(w).remote - done)
      ensures o.Done? ==> w == old(w).(remote := old(w).remote - Lists(items))
      ensures old(Calm()) && (forall x :: x in items ==> x.ref in after && after[x.ref] == x.size) ==> o.Done? && Calm()
    {
      ghost var done: set<Ref> := {};
      assert w.remote - {} == w.remote;
      for k := 0 to |items|
        invariant done == Lists(items[..k]) && done <= Lists(items)
        invariant w == old(w).(remote := old(w).remote - done)
        invariant old(Calm()) ==> Calm()
      {
        var x := items[k];
        assert items[..k + 1] == items[..k] + [x];
        assert x.ref in Lists(items);
        if x.ref !in after || after[x.ref] != x.size { return Refused; }
        var cut := Call();
        if cut { return Interrupted; }
        w := w.(remote := w.remote - {x.ref});
        done := done + {x.ref};
        assert old(w).remote - done == w.remote;
      }
      assert items[..|items|] == items;
      o := Done;
    }

    /** The first half of the remote part: inventory, uploads, inventory. */
    method Send(plan: Plan, ghost keep: set<Ref>, ghost down: set<Ref>) returns (o: Outcome, after: map<Ref, int>)
      requires Shape(w.remote, w.local, keep, Lists(plan.replacements), down)
      requires Sendable(plan.replacements, w.local, w.remote) && plan.inventory == Sizes(w.remote)
      modifies this
      ensures w == old(w).(remote := w.remote) && Partway(old(w).remote, old(w).local, keep, w.remote)
      ensures old(w).remote.Keys <= w.remote.Keys
      ensures o.Done? ==>
        w.remote == old(w).remote + Copies(Lists(plan.replacements), old(w).local) && after == Sizes(w.remote)
      ensures o.Done? ==> Bounded(w.remote) && Bounded(old(w).remote) && Bounded(Copies(keep, old(w).local))
      ensures old(Calm()) ==> Calm() && (o.Done? <==> Bounded(old(w).remote) && Bounded(Copies(keep, old(w).local)))
    {
      ghost var remote, local, up := w.remote, w.local, Lists(plan.replacements);
      var before;
      o, before := Inventory();
      after := before;
      if o.Done? && before != plan.inventory { o := Refused; }
      if !o.Done? { return; }
      o := Upload(plan.replacements, before);
      ghost var done :| done <= up && w == old(w).(remote := remote + Copies(done, local));
      PartwayUp(remote, local, keep, up, down, done);
      if !o.Done? { return; }
      UploadedBound(remote, local, keep, up, down);
      UploadedSizes(plan.replacements, remote, local);
      o, after := Inventory();
      if o.Done? && after != plan.inventory + ItemSizes(plan.replacements) { o := Refused; }
    }

    /** The second half: deletions, inventory. */
    method Drop(items: seq<Item>, after: map<Ref, int>) returns (o: Outcome)
      requires after == Sizes(w.remote) && Bounded(w.remote) && Listed(items, w.remote)
      modifies this
      ensures exists done :: done <= Lists(items) && w == old(w).(remote := old(w).remote - done)
      ensures o.Done? ==> w == old(w).(remote := old(w).remote - Lists(items))
      ensures old(Calm()) ==> o.Done? && Calm()
    {
      o := Delete(items, after);
      if !o.Done? { return; }
      var final;
      o, final := Inventory();
      if o.Done? && final != after - Lists(items) { o := Refused; }
    }

    /** The remote part of the run; no deletion happens before every upload was verified and every
        size was found in bounds. */
    method Exchange(plan: Plan, ghost keep: set<Ref>) returns (o: Outcome)
      requires Shape(w.remote, w.local, keep, Lists(plan.replacements), Lists(plan.orphans + plan.older))
      requires Sendable(plan.replacements, w.local, w.remote) && Listed(plan.orphans + plan.older, w.remote)
      requires plan.inventory == Sizes(w.remote)
      modifies this
      ensures w == old(w).(remote := w.remote) && Partway(old(w).remote, old(w).local, keep, w.remote)
      ensures !(old(w).remote.Keys <= w.remote.Keys) ==>
        keep <= w.remote.Keys && Bounded(old(w).remote) && Bounded(Copies(keep, old(w).local))
      ensures o.Done? ==>
        w.remote == Copies(keep, old(w).local) && Bounded(old(w).remote) && Bounded(Copies(keep, old(w).local))
      ensures old(Calm()) ==> Calm() && (o.Done? <==> Bounded(old(w).remote) && Bounded(Copies(keep, old(w).local)))
    {
      ghost var remote, local := w.remote, w.local;
      ghost var up, down := Lists(plan.replacements), Lists(plan.orphans + plan.older);
      var after;
      o, after := Send(plan, keep, down);
      if !o.Done? { return; }
      ListedStill(plan.orphans + plan.older, remote, Copies(up, local), keep, up);
      o := Drop(plan.orphans + plan.older, after);
      ghost var done :| done <= down && w == old(w).(remote := remote + Copies(up, local) - done);
      PartwayDown(remote, local, keep, up, down, done);
      PartwayDown(remote, local, keep, up, down, down);
    }

    /** The transaction, which may be cut off before it and after it. */
    method Commit(plan: Plan, ghost w0: World) returns (o: Outcome)
      requires Ready(w0) && PlanFor(plan, EvidenceOf(w0)) && w == w0.(remote := TargetRemote(w0))
      modifies this
      ensures w == old(w) || w == Target(w0)
      ensures o.Done? ==> w == Target(w0)
      ensures old(Calm()) ==> o.Done?
    {
      var cut := Call();
      if cut { return Interrupted; }
      var ok, backups := TransitionBackups(plan, w.backups, w0);
      var rows;
      ok, rows := TransitionRows(plan, w.rows, w0);
      w := w.(backups := backups, rows := rows);
      cut := Call();
      o := if cut then Interrupted else Done;
    }

    /** `apply_replacement_plan` for a plan made from the present state.  A run that returns has
        reached the target, and was applicable.  A run that does not return has reached it too (it was
        cut off after the commit) or leaves the database alone and the remote part way, with nothing
        deleted unless everything kept is there.  A plan that is not applicable never changes the
        database and deletes nothing; an undisturbed run of one that is returns. */
    method Apply(plan: Plan) returns (o: Outcome)
      requires Ready(w) && PlanFor(plan, EvidenceOf(w))
      modifies this
      ensures o.Done? ==> w == Target(old(w)) && Applicable(old(w))
      ensures w == Target(old(w)) || (w == old(w).(remote := w.remote) && Between(old(w), w.remote))
      ensures !(old(w).remote.Keys <= w.remote.Keys) ==> Keep(old(w)) <= w.remote.Keys
      ensures !Applicable(old(w)) ==> w == old(w).(remote := w.remote) && Between(old(w), w.remote)
      ensures !Applicable(old(w)) ==> old(w).remote.Keys <= w.remote.Keys
      ensures old(Calm()) ==> (o.Done? <==> Applicable(old(w)))
    {
      ghost var w0 := w;
      RowChecks(plan, w0);
      BetweenSelf(w0);
      if !RowsUnchanged(plan, w) { return Refused; }
      PlanShape(plan, w0);
      PlanSendable(plan, w0);
      PlanListed(plan, w0);
      PlanInventory(plan, w0);
      o := Exchange(plan, Keep(w0));
      if !o.Done? { return; }
      o := Commit(plan, w0);
    }
  }

  lemma BetweenSelf(w: World)
    ensures Between(w, w.remote)
  {
  }
}
