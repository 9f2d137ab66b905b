/** The remote retention rules of src/game_control/backup_reconcile.py (replacement mode):
    what evidence is accepted, what an accepted plan contains, and what state applying it aims at.

    Backup ids are integers in the order of their text, negative when the text is not a
    generation id; digests are integers, negative when the text is not a digest. */
module RemoteRetention {
  import opened Ranking
  import opened Wrappers

  datatype Profile = Sunlit | TerrariaVanilla | TerrariaTmod | Other(name: string)

  const PROFILES := [Sunlit, TerrariaVanilla, TerrariaTmod]

  predicate Fixed(p: Profile) { p in PROFILES }

  /** One generation of one profile. */
  datatype Ref = Ref(profile: Profile, id: int)

  /** A remote key is canonical for one generation, or anything else. */
  datatype Key = Canonical(ref: Ref) | Foreign(text: string)

  datatype PruneState = NotStarted | Succeeded | Deleted | OtherPrune

  datatype Method = Cryptcheck | Manifest | ManifestCryptcheck | OtherMethod

  const RETENTION := 2
  const MAX_ORPHANS := 1
  const MAX_STAGED_BYTES := 8 * 1024 * 1024 * 1024

  // ---------- evidence ----------

  datatype Catalog = Catalog(ref: Ref, size: int, sha: int, verified: bool, isProtected: bool, archiveSize: Option<int>)

  datatype Row = Row(profile: Profile, key: Key, sha: int, localVerified: bool, remoteVerified: bool,
                     comparisonVerified: bool, uploadSucceeded: bool, prune: PruneState, hasError: bool)

  datatype Protection = Protection(id: int, row: Row)

  datatype Remote = Remote(ref: Ref, size: int, sha: int, key: Key, manifest: Option<Ref>, downloaded: Option<int>,
                           proof: Method)

  datatype Evidence = Evidence(catalog: map<Ref, Catalog>, active: map<Ref, Row>, deleted: map<Ref, Row>,
                               remote: map<Ref, Remote>)

  function ArchiveSize(c: Catalog): int {
    if c.archiveSize.Some? then c.archiveSize.value else c.size
  }

  predicate Solid(r: Row) {
    r.localVerified && r.remoteVerified && r.comparisonVerified && r.uploadSucceeded && !r.hasError
  }

  predicate Proven(r: Row) {
    Solid(r) && r.prune in {NotStarted, Succeeded}
  }

  /** `_manifest_proves_orphan` */
  predicate ManifestProves(r: Remote) {
    r.manifest == Some(r.ref) && r.downloaded == Some(r.size) && r.sha >= 0 && r.proof in {Manifest, ManifestCryptcheck}
  }

  /** `_protection_proves_cryptcheck` */
  predicate ProvesCryptcheck(row: Row, c: Catalog, r: Remote) {
    && row.key == Canonical(c.ref) && row.sha == c.sha && Proven(row)
    && r.key == Canonical(c.ref) && r.size == ArchiveSize(c) && r.sha == c.sha
      && r.proof in {Cryptcheck, ManifestCryptcheck}
  }

  /** `_deleted_protection_proves_prune`; the row is stored under the catalog row's own reference. */
  predicate ProvesPrune(row: Row, c: Catalog) {
    row.profile == c.ref.profile && row.key == Canonical(c.ref) && row.sha == c.sha && Solid(row) && row.prune.Deleted?
  }

  predicate CatalogSound(c: Catalog) {
    (c.archiveSize.Some? ==> c.archiveSize.value == c.size) && c.size >= 0 && c.sha >= 0 && c.verified
  }

  predicate RemoteMatches(r: Remote, c: Catalog) {
    && r.key == Canonical(r.ref) && r.size >= 0 && r.size == ArchiveSize(c) && r.sha == c.sha && r.sha >= 0
    && !r.proof.OtherMethod? && (r.manifest.Some? ==> ManifestProves(r))
  }

  predicate OrphanSound(r: Remote) {
    r.key == Canonical(r.ref) && 0 <= r.size <= MAX_STAGED_BYTES && ManifestProves(r)
  }

  // ---------- the retention set ----------

  predicate Later(a: int, b: int) { a > b }

  function Ids(refs: set<Ref>, p: Profile): set<int> {
    set r {:trigger r in refs} | r in refs && r.profile == p :: r.id
  }

  function IdsOf(refs: set<Ref>): set<int> {
    set r {:trigger r in refs} | r in refs :: r.id
  }

  /** The newest two generations of every profile. */
  function Retained(refs: set<Ref>): set<Ref> {
    set r {:trigger r in refs} | r in refs && r.id in Newest(Later, Ids(refs, r.profile), RETENTION)
  }

  /** The remote generations that the catalog owns but retention does not keep. */
  function Older(remote: set<Ref>, catalog: set<Ref>): set<Ref> {
    remote * catalog - Retained(catalog)
  }

  lemma RetainedCount(refs: set<Ref>, p: Profile)
    ensures |Ids(Retained(refs), p)| == Min(RETENTION, |Ids(refs, p)|)
  {
    NewestCount(Later, Ids(refs, p), RETENTION);
    forall i | i in Newest(Later, Ids(refs, p), RETENTION) ensures i in Ids(Retained(refs), p) {
      assert Ref(p, i) in Retained(refs);
    }
    assert Ids(Retained(refs), p) == Newest(Later, Ids(refs, p), RETENTION);
  }

  // ---------- acceptance ----------

  function Orphans(e: Evidence): set<Ref> { set r | r in e.remote && r !in e.catalog }

  function Kept(e: Evidence): set<Ref> { Retained(e.catalog.Keys) }

  predicate KeptSound(e: Evidence, r: Ref)
    requires r in e.catalog
  {
    if r in e.remote then
      && (r in e.active ==> ProvesCryptcheck(e.active[r], e.catalog[r], e.remote[r]))
      && (r !in e.active ==> r !in e.deleted && e.catalog[r].isProtected)
    else
      && r !in e.deleted && e.catalog[r].isProtected
      && e.catalog[r].archiveSize.Some? && e.catalog[r].archiveSize.value >= 0 && e.catalog[r].sha >= 0
  }

  predicate OlderSound(e: Evidence, r: Ref)
    requires r in e.catalog && r in e.remote
  {
    r !in e.deleted && r in e.active && ProvesCryptcheck(e.active[r], e.catalog[r], e.remote[r])
  }

  /** Per profile: at most one orphan, older than everything kept, and none without a catalog. */
  predicate OrphansFit(remote: set<Ref>, catalog: set<Ref>, p: Profile) {
    && |Ids(remote - catalog, p)| <= MAX_ORPHANS
    && (forall o, r {:trigger o in remote - catalog, r in Retained(catalog)} ::
          o in remote - catalog && o.profile == p && r in Retained(catalog) && r.profile == p ==> o.id < r.id)
    && (Ids(catalog, p) == {} ==> Ids(remote, p) == {})
  }

  predicate CatalogAccepted(e: Evidence) {
    forall r :: r in e.catalog ==> CatalogSound(e.catalog[r])
  }

  predicate RemoteSound(e: Evidence, r: Ref)
    requires r in e.remote
  {
    if r in e.catalog then RemoteMatches(e.remote[r], e.catalog[r]) else OrphanSound(e.remote[r])
  }

  predicate RemoteAccepted(e: Evidence) {
    forall r :: r in e.remote ==> RemoteSound(e, r)
  }

  predicate RowSound(e: Evidence, r: Ref)
    requires r in e.active
  {
    r in e.catalog && e.active[r].key == Canonical(r) && e.active[r].sha == e.catalog[r].sha && Proven(e.active[r])
  }

  predicate DeletedSound(e: Evidence, r: Ref)
    requires r in e.deleted
  {
    r in e.catalog && ProvesPrune(e.deleted[r], e.catalog[r])
  }

  predicate RowsAccepted(e: Evidence) {
    && (forall r :: r in e.active ==> RowSound(e, r))
    && (forall r :: r in e.deleted ==> DeletedSound(e, r))
  }

  predicate OrphansAccepted(e: Evidence) {
    forall p :: p in PROFILES ==> OrphansFit(e.remote.Keys, e.catalog.Keys, p)
  }

  predicate KeptAccepted(e: Evidence) {
    forall r :: r in Kept(e) ==> KeptSound(e, r)
  }

  predicate OlderAccepted(e: Evidence) {
    forall r :: r in Older(e.remote.Keys, e.catalog.Keys) ==> OlderSound(e, r)
  }

  /** Exactly what makes a plan READY. */
  predicate Accepts(e: Evidence) {
    CatalogAccepted(e) && RemoteAccepted(e) && RowsAccepted(e) && OrphansAccepted(e) && KeptAccepted(e)
      && OlderAccepted(e)
  }

  // ---------- the contents of an accepted plan ----------

  function Imports(e: Evidence): set<Ref> { set r | r in Kept(e) && r in e.remote && r !in e.active }

  function Raised(e: Evidence): set<Ref> { set r | r in Kept(e) && r in e.remote && !e.catalog[r].isProtected }

  function Lowered(e: Evidence): set<Ref> { set r | r in e.catalog && r !in Kept(e) && e.catalog[r].isProtected }

  function Replacements(e: Evidence): set<Ref> { set r | r in Kept(e) && r !in e.remote }

  function Prunes(e: Evidence): set<Ref> { set r | r in e.remote && r !in Kept(e) }

  function Gone(e: Evidence): set<Ref> { set r | r in e.active && r in e.catalog && r !in Kept(e) && r !in e.remote }

  /** The "canonical retention result is not exact" check of the planner never fires on its own:
      what is remote, plus the uploads, minus the deletions, is the retention set. */
  lemma RetentionIsExact(e: Evidence)
    ensures (e.remote.Keys + Replacements(e)) - Prunes(e) == Kept(e)
  {
  }

  // ---------- the world the evidence is taken from ----------

  datatype Backup = Backup(profile: Profile, size: int, verified: bool, isProtected: bool)

  /** An archive, local or remote: its size, its digest, and the generation its manifest names. */
  datatype Archive = Archive(size: int, sha: int, manifest: Option<Ref>)

  /** The database tables (keyed by backup id, their primary key), the objects under the fixed
      remote prefixes and the archives under the fixed local roots. */
  datatype World = World(backups: map<int, Backup>, rows: map<int, Row>,
                         remote: map<Ref, Archive>, local: map<Ref, Archive>)

  /** `_assert_fixed_profile_scope`, the identity of the local manifest of every catalog row and of the
      remote manifest of every object without one: what building a plan demands before it plans. */
  predicate InScope(w: World) {
    && (forall i :: i in w.backups ==> Fixed(w.backups[i].profile) && i >= 0)
    && (forall i :: i in w.rows ==> Fixed(w.rows[i].profile) && i >= 0)
    && (forall r {:trigger r in w.remote} :: r in w.remote ==> Fixed(r.profile) && r.id >= 0)
    && (forall r {:trigger r in w.local} :: r in w.local && r in Refs(w) ==>
          w.local[r].size >= 0 && w.local[r].sha >= 0 && w.local[r].manifest == Some(r))
    && (forall r {:trigger r in w.remote} :: r in w.remote && r !in Refs(w) ==>
          w.remote[r].manifest == Some(r) && 0 <= w.remote[r].size <= MAX_STAGED_BYTES && w.remote[r].sha >= 0)
  }

  function Refs(w: World): (refs: set<Ref>)
    ensures forall r {:trigger r in refs} :: r in refs <==> r.id in w.backups && w.backups[r.id].profile == r.profile
  {
    set i | i in w.backups :: Ref(w.backups[i].profile, i)
  }

  function CatalogOf(w: World, r: Ref): Catalog
    requires r.id in w.backups
  {
    var b := w.backups[r.id];
    if r in w.local
    then Catalog(r, b.size, w.local[r].sha, b.verified, b.isProtected, Some(w.local[r].size))
    else Catalog(r, b.size, -1, b.verified, b.isProtected, Some(-1))
  }

  function RowRefs(w: World, deleted: bool): (refs: set<Ref>)
    ensures forall r {:trigger r in refs} :: r in refs <==>
      r.id in w.rows && w.rows[r.id].profile == r.profile && w.rows[r.id].prune.Deleted? == deleted
  {
    set i | i in w.rows && w.rows[i].prune.Deleted? == deleted :: Ref(w.rows[i].profile, i)
  }

  /** One entry of the remote listing: compared with the local archive if the catalog owns it (the
      comparison succeeds exactly when the contents are equal), otherwise downloaded. */
  function RemoteOf(w: World, r: Ref): Remote
    requires r in w.remote
  {
    var o := w.remote[r];
    if r in Refs(w) then
      if r in w.local && o == w.local[r]
      then Remote(r, o.size, o.sha, Canonical(r), None, None, Cryptcheck)
      else Remote(r, o.size, -1, Canonical(r), None, None, Manifest)
    else
      Remote(r, o.size, o.sha, Canonical(r), o.manifest, Some(o.size), Manifest)
  }

  function CatalogMap(w: World): (m: map<Ref, Catalog>)
    ensures m.Keys == Refs(w) && forall r :: r in m ==> m[r] == CatalogOf(w, r)
  {
    map r | r in Refs(w) :: CatalogOf(w, r)
  }

  function RowMap(w: World, deleted: bool): (m: map<Ref, Row>)
    ensures m.Keys == RowRefs(w, deleted) && forall r {:trigger m[r]} :: r in m ==> m[r] == w.rows[r.id]
  {
    map r {:trigger r in RowRefs(w, deleted)} | r in RowRefs(w, deleted) :: w.rows[r.id]
  }

  function RemoteMap(w: World): (m: map<Ref, Remote>)
    ensures m.Keys == w.remote.Keys && forall r :: r in m ==> m[r] == RemoteOf(w, r)
  {
    map r | r in w.remote :: RemoteOf(w, r)
  }

  function EvidenceOf(w: World): Evidence {
    Evidence(CatalogMap(w), RowMap(w, false), RowMap(w, true), RemoteMap(w))
  }

  predicate Ready(w: World) { InScope(w) && Accepts(EvidenceOf(w)) }

  /** The retention set of a world. */
  function Keep(w: World): set<Ref> { Retained(Refs(w)) }

  // ---------- the state that applying the plan aims at ----------

  function FreshRow(r: Ref, sha: int): Row {
    Row(r.profile, Canonical(r), sha, true, true, true, true, NotStarted, false)
  }

  function LocalSha(w: World, r: Ref): int {
    if r in w.local then w.local[r].sha else -1
  }

  /** The `backups` table: exactly the kept generations are flagged. */
  function TargetBackups(w: World): map<int, Backup> {
    map i | i in w.backups :: w.backups[i].(isProtected := Ref(w.backups[i].profile, i) in Keep(w))
  }

  function TargetRow(w: World, i: int): Row
    requires i in w.rows || i in w.backups
  {
    if i !in w.rows then FreshRow(Ref(w.backups[i].profile, i), LocalSha(w, Ref(w.backups[i].profile, i)))
    else if Ref(w.rows[i].profile, i) in Keep(w) then w.rows[i]
    else w.rows[i].(prune := Deleted)
  }

  /** The protection rows: a kept generation has a row, every other row is marked deleted. */
  function TargetRows(w: World): map<int, Row> {
    map i | i in w.rows.Keys + IdsOf(Keep(w)) :: TargetRow(w, i)
  }

  /** The remote objects: exactly the kept generations. */
  function TargetRemote(w: World): map<Ref, Archive> {
    map r | r in Keep(w) && r in w.local :: w.local[r]
  }

  function Target(w: World): World {
    World(TargetBackups(w), TargetRows(w), TargetRemote(w), w.local)
  }

  /** `now` is `remote` with some kept generations uploaded and some others deleted. */
  predicate Partway(remote: map<Ref, Archive>, local: map<Ref, Archive>, keep: set<Ref>, now: map<Ref, Archive>) {
    && (forall r :: r in now ==>
          (r in remote && now[r] == remote[r]) || (r in keep && r in local && now[r] == local[r]))
    && (forall r :: r in remote && r in keep ==> r in now)
  }

  /** The remote state of an interrupted run: some uploads done, some deletions done. */
  predicate Between(w: World, now: map<Ref, Archive>) {
    Partway(w.remote, w.local, Keep(w), now)
  }

  // What acceptance says about a world, without the evidence in between.

  predicate LocalAt(w: World, r: Ref) {
    r.id in w.backups && r in w.local && w.local[r].size == w.backups[r.id].size && w.backups[r.id].verified
  }

  predicate LocalOk(w: World) {
    forall r :: r in Refs(w) ==> LocalAt(w, r)
  }

  predicate RemoteAt(w: World, r: Ref)
    requires r in w.remote
  {
    r in Refs(w) ==> r in w.local && w.remote[r] == w.local[r]
  }

  predicate RemoteOk(w: World) {
    forall r :: r in w.remote ==> RemoteAt(w, r)
  }

  predicate RowAt(w: World, r: Ref)
    requires r.id in w.rows
  {
    var row := w.rows[r.id];
    && r in Refs(w) && r in w.local && row.key == Canonical(r) && row.sha == w.local[r].sha
    && row.localVerified && row.remoteVerified && row.comparisonVerified && row.uploadSucceeded && !row.hasError
    && !row.prune.OtherPrune?
  }

  predicate RowsOk(w: World) {
    forall r :: r in RowRefs(w, false) + RowRefs(w, true) ==> RowAt(w, r)
  }

  predicate OrphansOk(w: World) {
    forall p :: p in PROFILES ==> OrphansFit(w.remote.Keys, Refs(w), p)
  }

  predicate KeptAt(w: World, r: Ref)
    requires r in Refs(w)
  {
    && (r.id in w.rows ==> !w.rows[r.id].prune.Deleted?)
    && (r.id !in w.rows || r !in w.remote ==> w.backups[r.id].isProtected)
  }

  predicate KeptOk(w: World) {
    forall r :: r in Keep(w) ==> KeptAt(w, r)
  }

  predicate OlderAt(w: World, r: Ref) {
    r.id in w.rows && !w.rows[r.id].prune.Deleted?
  }

  predicate OlderOk(w: World) {
    forall r :: r in Older(w.remote.Keys, Refs(w)) ==> OlderAt(w, r)
  }

  predicate WorldAccepts(w: World) {
    LocalOk(w) && RemoteOk(w) && RowsOk(w) && OrphansOk(w) && KeptOk(w) && OlderOk(w)
  }

  lemma CatalogAgrees(w: World, r: Ref)
    requires InScope(w) && r in Refs(w)
    ensures CatalogSound(CatalogOf(w, r)) <==> LocalAt(w, r)
  {
  }

  lemma RemoteAgrees(w: World, r: Ref)
    requires InScope(w) && r in w.remote
    ensures r !in Refs(w) ==> OrphanSound(RemoteOf(w, r)) && RemoteAt(w, r)
    ensures r in Refs(w) && LocalAt(w, r) ==> (RemoteMatches(RemoteOf(w, r), CatalogOf(w, r)) <==> RemoteAt(w, r))
  {
  }

  lemma RowAgrees(w: World, r: Ref)
    requires InScope(w) && LocalOk(w)
    ensures r in RowRefs(w, false) ==> (RowAt(w, r) <==> RowSound(EvidenceOf(w), r))
    ensures r in RowRefs(w, true) ==> (RowAt(w, r) <==> r in Refs(w) && ProvesPrune(w.rows[r.id], CatalogOf(w, r)))
  {
    assert r in Refs(w) ==> LocalAt(w, r);
  }

  lemma RowOfRef(w: World, r: Ref)
    requires RowsOk(w) && r in Refs(w)
    ensures r in RowMap(w, false) <==> r.id in w.rows && !w.rows[r.id].prune.Deleted?
    ensures r in RowMap(w, true) <==> r.id in w.rows && w.rows[r.id].prune.Deleted?
    ensures r.id in w.rows ==> RowAt(w, r)
  {
    if r.id in w.rows {
      var s := Ref(w.rows[r.id].profile, r.id);
      assert s in RowRefs(w, w.rows[r.id].prune.Deleted?);
      assert RowAt(w, s);
      assert s == r;
    }
  }

  lemma ProofAgrees(w: World, r: Ref)
    requires r in Refs(w) && LocalAt(w, r) && r in w.remote && RemoteAt(w, r) && OlderAt(w, r) && RowAt(w, r)
    ensures ProvesCryptcheck(w.rows[r.id], CatalogOf(w, r), RemoteOf(w, r))
  {
  }

  lemma KeptAgrees(w: World, r: Ref)
    requires r in Refs(w) && LocalAt(w, r) && RowsOk(w) && (r in w.remote ==> RemoteAt(w, r))
    requires w.local[r].size >= 0 && w.local[r].sha >= 0
    ensures KeptSound(EvidenceOf(w), r) <==> KeptAt(w, r)
    ensures r in w.remote ==> (OlderSound(EvidenceOf(w), r) <==> OlderAt(w, r))
  {
    RowOfRef(w, r);
    if r in w.remote && OlderAt(w, r) {
      ProofAgrees(w, r);
    }
    var e := EvidenceOf(w);
    assert r in e.catalog && e.catalog[r] == CatalogOf(w, r);
    if r in w.remote {
      assert r in e.remote && e.remote[r] == RemoteOf(w, r);
    }
  }

  lemma KeepAgrees(w: World)
    ensures EvidenceOf(w).catalog.Keys == Refs(w) && EvidenceOf(w).remote.Keys == w.remote.Keys
    ensures Kept(EvidenceOf(w)) == Keep(w)
  {
  }

  lemma CatalogListAgrees(w: World)
    requires InScope(w)
    ensures CatalogAccepted(EvidenceOf(w)) <==> LocalOk(w)
  {
    forall r | r in Refs(w) ensures CatalogSound(EvidenceOf(w).catalog[r]) <==> LocalAt(w, r) { CatalogAgrees(w, r); }
  }

  lemma RemoteListAgrees(w: World)
    requires InScope(w) && LocalOk(w)
    ensures RemoteAccepted(EvidenceOf(w)) <==> RemoteOk(w)
  {
    var e := EvidenceOf(w);
    forall r | r in w.remote ensures RemoteAt(w, r) <==> RemoteSound(e, r) {
      RemoteAgrees(w, r);
    }
  }

  predicate RowsOkFor(w: World, deleted: bool) {
    forall r :: r in RowRefs(w, deleted) ==> RowAt(w, r)
  }

  lemma LiveListAgrees(w: World)
    requires InScope(w) && LocalOk(w)
    ensures (forall r :: r in EvidenceOf(w).active ==> RowSound(EvidenceOf(w), r)) <==> RowsOkFor(w, false)
  {
    var e := EvidenceOf(w);
    forall r | r in e.active ensures RowAt(w, r) <==> RowSound(e, r) { RowAgrees(w, r); }
  }

  lemma DeletedListAgrees(w: World)
    requires InScope(w) && LocalOk(w)
    ensures (forall r :: r in EvidenceOf(w).deleted ==> DeletedSound(EvidenceOf(w), r)) <==> RowsOkFor(w, true)
  {
    var e := EvidenceOf(w);
    forall r | r in e.deleted ensures RowAt(w, r) <==> DeletedSound(e, r) { RowAgrees(w, r); }
  }

  lemma RowListAgrees(w: World)
    requires InScope(w) && LocalOk(w)
    ensures RowsAccepted(EvidenceOf(w)) <==> RowsOk(w)
  {
    LiveListAgrees(w);
    DeletedListAgrees(w);
    BothRowsOk(w);
  }

  lemma BothRowsOk(w: World)
    ensures RowsOk(w) <==> RowsOkFor(w, false) && RowsOkFor(w, true)
  {
  }

  predicate Settled(w: World) {
    && LocalOk(w) && RemoteOk(w) && RowsOk(w)
    && forall r :: r in w.local && r in Refs(w) ==> w.local[r].size >= 0 && w.local[r].sha >= 0
  }

  lemma KeptSetAgrees(w: World)
    requires Settled(w)
    ensures KeptAccepted(EvidenceOf(w)) <==> KeptOk(w)
  {
    KeepAgrees(w);
    forall r | r in Keep(w) ensures KeptSound(EvidenceOf(w), r) <==> KeptAt(w, r) { KeptAgrees(w, r); }
  }

  lemma OlderSetAgrees(w: World)
    requires Settled(w)
    ensures OlderAccepted(EvidenceOf(w)) <==> OlderOk(w)
  {
    KeepAgrees(w);
    forall r | r in Older(w.remote.Keys, Refs(w)) ensures OlderSound(EvidenceOf(w), r) <==> OlderAt(w, r) {
      KeptAgrees(w, r);
    }
  }

  /** A world is accepted exactly when its evidence is. */
  lemma ReadyMeansAccepted(w: World)
    requires InScope(w)
    ensures Ready(w) <==> WorldAccepts(w)
  {
    CatalogListAgrees(w);
    KeepAgrees(w);
    if LocalOk(w) {
      RemoteListAgrees(w);
      RowListAgrees(w);
      if RemoteOk(w) && RowsOk(w) {
        KeptSetAgrees(w);
        OlderSetAgrees(w);
      }
    }
  }

  // ---------- resuming an interrupted run ----------

  lemma BetweenOrphans(w: World, remote: map<Ref, Archive>, p: Profile)
    requires Between(w, remote) && OrphansFit(w.remote.Keys, Refs(w), p)
    ensures OrphansFit(remote.Keys, Refs(w), p)
  {
    assert remote.Keys - Refs(w) <= w.remote.Keys - Refs(w);
    assert Ids(remote.Keys - Refs(w), p) <= Ids(w.remote.Keys - Refs(w), p);
    CardinalityMonotone(Ids(remote.Keys - Refs(w), p), Ids(w.remote.Keys - Refs(w), p));
    forall r | r in remote.Keys && r.profile == p ensures r.id in Ids(Refs(w), p) + Ids(w.remote.Keys, p) {
      assert r in Refs(w) || r in w.remote.Keys;
    }
    assert Ids(remote.Keys, p) <= Ids(Refs(w), p) + Ids(w.remote.Keys, p);
  }

  lemma BetweenAccepted(w: World, remote: map<Ref, Archive>)
    requires WorldAccepts(w) && Between(w, remote)
    ensures WorldAccepts(w.(remote := remote))
  {
    var v := w.(remote := remote);
    assert Refs(v) == Refs(w) && Keep(v) == Keep(w);
    forall r | r in Refs(v) ensures LocalAt(v, r) { assert LocalAt(w, r); }
    forall r | r in remote ensures RemoteAt(v, r) {
      if r in w.remote { assert RemoteAt(w, r); }
    }
    assert RowsOk(v) by {
      forall r | r in RowRefs(v, false) + RowRefs(v, true) ensures RowAt(v, r) {
        assert r in RowRefs(w, false) + RowRefs(w, true);
        assert RowAt(w, r);
      }
    }
    forall p | p in PROFILES ensures OrphansFit(v.remote.Keys, Refs(v), p) { BetweenOrphans(w, remote, p); }
    forall r | r in Keep(v) ensures KeptAt(v, r) { assert KeptAt(w, r); }
    forall r | r in Older(v.remote.Keys, Refs(v)) ensures OlderAt(v, r) {
      assert r in Older(w.remote.Keys, Refs(w));
      assert OlderAt(w, r);
    }
  }

  lemma BetweenInScope(w: World, remote: map<Ref, Archive>)
    requires InScope(w) && Between(w, remote)
    ensures InScope(w.(remote := remote))
  {
    var v := w.(remote := remote);
    assert Refs(v) == Refs(w);
    forall r | r in remote ensures Fixed(r.profile) && r.id >= 0 {
      if r !in w.remote { assert r in Refs(w); }
    }
  }

  lemma SameRefsSameTarget(w: World, remote: map<Ref, Archive>)
    ensures Target(w.(remote := remote)) == Target(w)
  {
    var v := w.(remote := remote);
    assert Refs(v) == Refs(w);
    assert Keep(v) == Keep(w);
    assert TargetBackups(v) == TargetBackups(w);
    assert TargetRows(v) == TargetRows(w);
    assert TargetRemote(v) == TargetRemote(w);
  }

  /** An interrupted run can be resumed: whatever part of the uploads and deletions was done, the
      plan made from the new evidence is ready and aims at the same remote set and the same rows. */
  lemma ResumeReachesTheSameTarget(w: World, remote: map<Ref, Archive>)
    requires Ready(w) && Between(w, remote)
    ensures Ready(w.(remote := remote)) && Target(w.(remote := remote)) == Target(w)
  {
    var v := w.(remote := remote);
    assert InScope(v) by { BetweenInScope(w, remote); }
    assert Ready(v) by {
      ReadyMeansAccepted(w);
      BetweenAccepted(w, remote);
      ReadyMeansAccepted(v);
    }
    SameRefsSameTarget(w, remote);
  }

  // ---------- the target is exact and a fixpoint ----------

  lemma TargetSameRefs(w: World)
    ensures Refs(Target(w)) == Refs(w) && Keep(Target(w)) == Keep(w)
  {
    assert Refs(Target(w)) == Refs(w);
  }

  lemma TargetRemoteExact(w: World)
    requires LocalOk(w)
    ensures TargetRemote(w).Keys == Keep(w)
  {
    forall r | r in Keep(w) ensures r in w.local { assert LocalAt(w, r); }
  }

  /** A kept generation has exactly one row, not marked deleted. */
  lemma TargetRowKept(w: World, r: Ref)
    requires RowsOk(w) && KeptOk(w) && r in Keep(w)
    ensures r.id in TargetRows(w) && !TargetRows(w)[r.id].prune.Deleted?
  {
    assert KeptAt(w, r);
    RowOfRef(w, r);
  }

  /** Every row of a generation that is not kept is marked deleted. */
  lemma TargetRowOther(w: World, i: int)
    requires i in TargetRows(w) && Ref(TargetRows(w)[i].profile, i) !in Keep(w)
    ensures TargetRows(w)[i].prune.Deleted?
  {
  }

  /** What a run that returns has established: the remote objects are the newest min(2, n)
      catalog generations of every profile, those are exactly the flagged ones, they have live
      rows, and every other row is marked deleted. */
  lemma TargetIsExact(w: World, p: Profile)
    requires Ready(w)
    ensures Target(w).remote.Keys == Keep(w)
    ensures |Ids(Target(w).remote.Keys, p)| == Min(RETENTION, |Ids(Refs(w), p)|)
    ensures forall i :: i in w.backups ==>
      (Target(w).backups[i].isProtected <==> Ref(w.backups[i].profile, i) in Keep(w))
    ensures forall r {:trigger r in Keep(w)} :: r in Keep(w) ==>
      r.id in Target(w).rows && !Target(w).rows[r.id].prune.Deleted?
    ensures forall i :: i in Target(w).rows && Ref(Target(w).rows[i].profile, i) !in Keep(w) ==>
      Target(w).rows[i].prune.Deleted?
  {
    assert LocalOk(w) && RowsOk(w) && KeptOk(w) by { ReadyMeansAccepted(w); }
    TargetRemoteExact(w);
    RetainedCount(Refs(w), p);
    forall r | r in Keep(w)
      ensures r.id in Target(w).rows && !Target(w).rows[r.id].prune.Deleted?
    {
      TargetRowKept(w, r);
    }
    forall i | i in Target(w).rows && Ref(Target(w).rows[i].profile, i) !in Keep(w)
      ensures Target(w).rows[i].prune.Deleted?
    {
      TargetRowOther(w, i);
    }
  }

  lemma TargetRowAt(w: World, r: Ref)
    requires LocalOk(w) && RowsOk(w) && r in RowRefs(Target(w), false) + RowRefs(Target(w), true)
    ensures RowAt(Target(w), r)
  {
    TargetSameRefs(w);
    if r.id in w.rows {
      assert r in RowRefs(w, false) + RowRefs(w, true);
      assert RowAt(w, r);
    } else {
      var k :| k in Keep(w) && k.id == r.id;
      assert LocalAt(w, k);
    }
  }

  lemma TargetOrphans(w: World, p: Profile)
    requires LocalOk(w)
    ensures OrphansFit(Keep(w), Refs(w), p)
  {
    assert Keep(w) - Refs(w) == {};
    assert Ids({}, p) == {};
    forall r | r in Keep(w) && r.profile == p ensures r.id in Ids(Refs(w), p) {}
  }

  lemma TargetRowInScope(w: World, i: int)
    requires i in TargetRows(w)
    requires forall i :: i in w.backups ==> Fixed(w.backups[i].profile) && i >= 0
    requires forall i :: i in w.rows ==> Fixed(w.rows[i].profile) && i >= 0
    ensures Fixed(TargetRows(w)[i].profile) && i >= 0
  {
    if i !in w.rows { var k :| k in Keep(w) && k.id == i; }
  }

  lemma TargetInScope(w: World)
    requires InScope(w) && LocalOk(w)
    ensures InScope(Target(w))
  {
    var v := Target(w);
    TargetSameRefs(w);
    TargetRemoteExact(w);
    forall i | i in v.rows ensures Fixed(v.rows[i].profile) && i >= 0 { TargetRowInScope(w, i); }
    forall r | r in v.remote ensures Fixed(r.profile) && r.id >= 0 && r in Refs(v) {}
  }

  lemma TargetAccepted(w: World)
    requires WorldAccepts(w)
    ensures WorldAccepts(Target(w))
  {
    var v := Target(w);
    TargetSameRefs(w);
    TargetRemoteExact(w);
    assert LocalOk(v) by {
      forall r | r in Refs(v) ensures LocalAt(v, r) { assert LocalAt(w, r); }
    }
    assert RowsOk(v) by {
      forall r | r in RowRefs(v, false) + RowRefs(v, true) ensures RowAt(v, r) { TargetRowAt(w, r); }
    }
    assert OrphansOk(v) by {
      forall p | p in PROFILES ensures OrphansFit(v.remote.Keys, Refs(v), p) { TargetOrphans(w, p); }
    }
    assert KeptOk(v) by {
      forall r | r in Keep(v) ensures KeptAt(v, r) { TargetRowKept(w, r); }
    }
    assert Older(v.remote.Keys, Refs(v)) == {};
  }

  lemma TargetRowIdempotent(w: World, i: int)
    requires i in TargetRows(w)
    ensures TargetRow(Target(w), i) == TargetRows(w)[i]
  {
    TargetSameRefs(w);
  }

  lemma TargetRowsIdempotent(w: World)
    ensures TargetRows(Target(w)) == TargetRows(w)
  {
    var v := Target(w);
    assert TargetRows(v).Keys == TargetRows(w).Keys by { TargetSameRefs(w); }
    forall i | i in TargetRows(w) ensures TargetRows(v)[i] == TargetRows(w)[i] { TargetRowIdempotent(w, i); }
  }

  lemma TargetIdempotent(w: World)
    ensures Target(Target(w)) == Target(w)
  {
    TargetRowsIdempotent(w);
    TargetSameRefs(w);
    assert TargetBackups(Target(w)) == TargetBackups(w);
    assert TargetRemote(Target(w)) == TargetRemote(w);
  }

  lemma TargetActiveRows(w: World)
    requires WorldAccepts(w)
    ensures RowMap(Target(w), false).Keys == Keep(w)
  {
    var v := Target(w);
    TargetSameRefs(w);
    assert RowsOk(v) by { TargetAccepted(w); }
    forall r | r in Keep(w) ensures r in RowMap(v, false) {
      TargetRowKept(w, r);
      RowOfRef(v, r);
    }
    forall r | r in RowMap(v, false) ensures r in Keep(w) {
      if r !in Keep(w) { TargetRowOther(w, r.id); }
    }
  }

  lemma TargetFlags(w: World, r: Ref)
    requires r in Refs(w)
    ensures CatalogMap(Target(w))[r].isProtected <==> r in Keep(w)
  {
    TargetSameRefs(w);
  }

  predicate Idle(e: Evidence) {
    Imports(e) == {} && Raised(e) == {} && Lowered(e) == {} && Replacements(e) == {} && Prunes(e) == {} && Gone(e) == {}
  }

  lemma SettledIsIdle(e: Evidence)
    requires e.remote.Keys == Kept(e) && e.active.Keys == Kept(e)
    requires forall r :: r in e.catalog ==> (e.catalog[r].isProtected <==> r in Kept(e))
    ensures Idle(e)
  {
    assert Imports(e) == {};
    assert Raised(e) == {};
    assert Lowered(e) == {};
  }

  lemma TargetEvidence(w: World)
    requires LocalOk(w)
    ensures var e := EvidenceOf(Target(w)); Kept(e) == Keep(w) && e.remote.Keys == Keep(w) && e.catalog.Keys == Refs(w)
  {
    TargetSameRefs(w);
    TargetRemoteExact(w);
    KeepAgrees(Target(w));
  }

  lemma IdleWhenActive(w: World)
    requires LocalOk(w) && RowMap(Target(w), false).Keys == Keep(w)
    ensures Idle(EvidenceOf(Target(w)))
  {
    var e := EvidenceOf(Target(w));
    TargetEvidence(w);
    forall r | r in e.catalog ensures e.catalog[r].isProtected <==> r in Kept(e) { TargetFlags(w, r); }
    SettledIsIdle(e);
  }

  lemma NothingToDo(w: World)
    requires WorldAccepts(w)
    ensures Idle(EvidenceOf(Target(w)))
  {
    TargetActiveRows(w);
    IdleWhenActive(w);
  }

  /** Planning after a completed run is a fixpoint: it is ready, has nothing to do and aims at
      the state that is already there. */
  lemma PlanningIsAFixpoint(w: World)
    requires Ready(w)
    ensures Ready(Target(w)) && Target(Target(w)) == Target(w)
    ensures Idle(EvidenceOf(Target(w)))
  {
    assert WorldAccepts(w) by { ReadyMeansAccepted(w); }
    assert Ready(Target(w)) by {
      TargetInScope(w);
      TargetAccepted(w);
      ReadyMeansAccepted(Target(w));
    }
    TargetIdempotent(w);
    NothingToDo(w);
  }

  /** The backups of the same profile with a later id. */
  function LaterIds(w: World, i: int): set<int>
    requires i in w.backups
  {
    set j | j in w.backups && w.backups[j].profile == w.backups[i].profile && j > i
  }

  lemma KeepIsNewestTwo(w: World, i: int)
    requires i in w.backups
    ensures Ref(w.backups[i].profile, i) in Keep(w) <==> |LaterIds(w, i)| < 2
  {
    var p, ids := w.backups[i].profile, Ids(Refs(w), w.backups[i].profile);
    assert Ref(p, i) in Refs(w);
    forall j | j in LaterIds(w, i) ensures j in ids { assert Ref(p, j) in Refs(w); }
    assert LaterIds(w, i) == Above(Later, ids, i);
  }

  /** In terms of the tables: after a run that returns, a generation is remote and flagged exactly when
      fewer than two backups of its profile have a later id, and then its object is the local archive. */
  lemma NewestTwoAreTarget(w: World, i: int)
    requires Ready(w) && i in w.backups
    ensures Ref(w.backups[i].profile, i) in Target(w).remote <==> |LaterIds(w, i)| < 2
    ensures Target(w).backups[i].isProtected <==> |LaterIds(w, i)| < 2
    ensures forall r :: r in Target(w).remote ==> r in w.local && Target(w).remote[r] == w.local[r]
  {
    KeepIsNewestTwo(w, i);
    assert LocalOk(w) by { ReadyMeansAccepted(w); }
    TargetRemoteExact(w);
  }

  lemma FittingOrphans(remote: set<Ref>, catalog: set<Ref>, r: Ref, q: Ref, kept: Ref)
    requires OrphansFit(remote, catalog, r.profile) && r in remote - catalog && q in remote - catalog
    requires r.profile == q.profile == kept.profile && kept in Retained(catalog)
    ensures r == q && r.id < kept.id
  {
    var ids := Ids(remote - catalog, r.profile);
    assert r.id in ids && q.id in ids;
    if r.id != q.id { CardinalityMonotone({r.id, q.id}, ids); }
  }

  lemma ReadyOrphansFit(w: World, p: Profile)
    requires Ready(w) && Fixed(p)
    ensures OrphansFit(w.remote.Keys, Refs(w), p)
  {
    assert OrphansOk(w) by { ReadyMeansAccepted(w); }
  }

  /** A ready world has at most one uncatalogued object per profile, and it is older than every kept
      generation of the profile. */
  lemma OrphansAreFewAndOld(w: World, r: Ref, q: Ref, i: int)
    requires Ready(w) && r in w.remote && q in w.remote && r.profile == q.profile
    requires r !in Refs(w) && q !in Refs(w)
    requires i in w.backups && w.backups[i].profile == r.profile && |LaterIds(w, i)| < 2
    ensures r == q && r.id < i
  {
    ReadyOrphansFit(w, r.profile);
    KeepIsNewestTwo(w, i);
    FittingOrphans(w.remote.Keys, Refs(w), r, q, Ref(r.profile, i));
  }
}
