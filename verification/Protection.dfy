/** Remote protection of one archive at a time (`B2ProtectionService` in
    src/game_control/backups.py): upload, verify, then prune verified peers.

    Uploads and deletes are atomic and `verify` succeeds exactly when the remote content
    equals the local one; any remote or database call may also fail, as `script` decides. */
module Protection {
  import opened Ranking
  import opened Wrappers

  /** A backup id is its generation stamp, a dash and a suffix. */
  datatype BackupId = BackupId(generation: int, suffix: int)

  datatype Key = Key(prefix: nat, name: BackupId)

  datatype Stage = NotStarted | Pending | Failed | Succeeded | Verified | Deleted

  datatype Row = Row(id: BackupId, profile: nat, key: Key, digest: int, localVerified: bool,
                     upload: Stage, remoteVerified: bool, comparison: Stage, prune: Stage, error: Option<string>)

  datatype Record = Record(id: BackupId, profile: nat, digest: int, verified: bool)

  datatype Outcome = Ok | Raised {
    predicate IsFailure() { Raised? }
    function PropagateFailure(): Outcome { this }
  }

  /** The protection rows and the remote objects. */
  datatype State = State(rows: map<BackupId, Row>, remote: map<Key, int>)

  const RETENTION := 2

  function KeyOf(record: Record): Key { Key(record.profile, record.id) }

  predicate Canonical(rows: map<BackupId, Row>) {
    forall id :: id in rows ==> rows[id].id == id && rows[id].key == Key(rows[id].profile, id)
  }

  // ---------- which rows count, and in which order ----------

  predicate Eligible(r: Row, remote: map<Key, int>, profile: nat) {
    r.profile == profile && r.remoteVerified && r.comparison.Verified? && r.key in remote && r.key.prefix == profile
  }

  /** The verified listed rows of a prefix. */
  function EligibleRows(s: State, profile: nat): set<Row> {
    set id | id in s.rows && Eligible(s.rows[id], s.remote, profile) :: s.rows[id]
  }

  /** Where the database's answer puts a row, which decides between rows of one generation. */
  type Position = BackupId -> int

  predicate Injective(position: Position, ids: set<BackupId>) {
    forall a, b :: a in ids && b in ids && position(a) == position(b) ==> a == b
  }

  predicate Before(a: BackupId, b: BackupId, position: Position) {
    a.generation > b.generation || (a.generation == b.generation && position(a) < position(b))
  }

  /** The order of the stable sort by generation, newest first. */
  function Order(position: Position): (Row, Row) -> bool {
    (a: Row, b: Row) => Before(a.id, b.id, position)
  }

  lemma OrderIsTotal(s: State, profile: nat, position: Position)
    requires Canonical(s.rows) && Injective(position, s.rows.Keys)
    ensures StrictTotalOn(Order(position), EligibleRows(s, profile))
  {
    var rows := EligibleRows(s, profile);
    forall x, y | x in rows && y in rows && x != y ensures Order(position)(x, y) || Order(position)(y, x) {
      assert x.id != y.id;
    }
  }

  /** The rows that a prune of this state deletes: all but the newest two verified listed ones. */
  function Doomed(s: State, profile: nat, position: Position): set<Row> {
    EligibleRows(s, profile) - Newest(Order(position), EligibleRows(s, profile), RETENTION)
  }

  function KeysOf(rows: set<Row>): set<Key> { set r | r in rows :: r.key }

  function IdsOf(rows: set<Row>): set<BackupId> { set r | r in rows :: r.id }

  /** Two other verified listed rows are at least as new. */
  ghost predicate Superseded(r: Row, rows: set<Row>) {
    exists a, b :: a in rows && b in rows && a != b && a != r && b != r
      && a.id.generation >= r.id.generation && b.id.generation >= r.id.generation
  }

  lemma DoomedIsSuperseded(s: State, profile: nat, position: Position, r: Row)
    requires r in Doomed(s, profile, position)
    ensures r in EligibleRows(s, profile) && Superseded(r, EligibleRows(s, profile))
  {
    var above := Above(Order(position), EligibleRows(s, profile), r);
    var a := Member(above);
    assert above == {a} + (above - {a});
    var b := Member(above - {a});
  }

  // ---------- the history ----------

  /** What took effect: remote calls, the listing that a prune works from, and row updates. */
  datatype Event =
    | Uploaded(key: Key, digest: int)
    | Checked(key: Key)
    | Saved(row: Row)
    | Listed(key: Key)
    | Removed(key: Key)
    | Marked(id: BackupId)

  function MarkAll(rows: map<BackupId, Row>, ids: set<BackupId>): map<BackupId, Row> {
    map id | id in rows :: if id in ids then rows[id].(prune := Deleted) else rows[id]
  }

  function Effect(s: State, e: Event): State {
    match e
    case Uploaded(k, d) => s.(remote := s.remote[k := d])
    case Saved(row) => s.(rows := s.rows[row.id := row])
    case Removed(k) => s.(remote := s.remote - {k})
    case Marked(id) => s.(rows := MarkAll(s.rows, {id}))
    case _ => s
  }

  /** The state that a history leads to. */
  function Replay(start: State, log: seq<Event>): State {
    if log == [] then start else Effect(Replay(start, log[..|log| - 1]), log[|log| - 1])
  }

  /** What the calls so far entitle the service to: nothing, to verify what it has just uploaded, to
      list the prefix of what it has just uploaded and verified, or to prune that listing. */
  datatype Permit = Nothing | Sent(key: Key) | Proven(key: Key) | Open(key: Key, seen: set<Row>)

  function Granted(p: Permit, s: State, e: Event): Permit {
    match e
    case Uploaded(k, _) => Sent(k)
    case Checked(k) => if p == Sent(k) then Proven(k) else Nothing
    case Listed(k) => if p == Proven(k) then Open(k, EligibleRows(s, k.prefix)) else Nothing
    case _ => p
  }

  function Permission(start: State, log: seq<Event>): Permit {
    if log == [] then Nothing
    else
      var before := log[..|log| - 1];
      Granted(Permission(start, before), Replay(start, before), log[|log| - 1])
  }

  /** The permit covers the deletion of this object: a verified listed row that is not one of the
      newest two of the listing. */
  ghost predicate Covers(p: Permit, key: Key) {
    p.Open? && exists r :: r in p.seen && r.key == key && Superseded(r, p.seen)
  }

  /** The archive of this key has just been uploaded and verified. */
  predicate Vouches(p: Permit, key: Key) { (p.Proven? || p.Open?) && p.key == key }

  /** Nothing is deleted without a permit, and nothing is called verified that was not. */
  ghost predicate Allowed(p: Permit, e: Event) {
    && (e.Removed? ==> Covers(p, e.key))
    && (e.Saved? && (e.row.remoteVerified || e.row.comparison.Verified?) ==> Vouches(p, e.row.key))
  }

  ghost predicate SafeLog(start: State, log: seq<Event>) {
    log == [] ||
    var before, e := log[..|log| - 1], log[|log| - 1];
    SafeLog(start, before) && Allowed(Permission(start, before), e)
  }

  /** Where a permit to prune comes from. */
  lemma {:induction false} PermitMeans(start: State, log: seq<Event>) returns (u: nat, c: nat, l: nat)
    requires !Permission(start, log).Nothing?
    ensures u < |log| && log[u].Uploaded? && log[u].key == Permission(start, log).key
    ensures forall m :: u < m < |log| ==> !log[m].Uploaded?
    ensures !Permission(start, log).Sent? ==> u < c < |log| && log[c] == Checked(log[u].key)
    ensures Permission(start, log).Open? ==> c < l < |log| && log[l] == Listed(log[u].key)
    ensures Permission(start, log).Open? ==>
      Permission(start, log).seen == EligibleRows(Replay(start, log[..l]), log[u].key.prefix)
  {
    var before, e := log[..|log| - 1], log[|log| - 1];
    if e.Uploaded? {
      u, c, l := |log| - 1, 0, 0;
    } else {
      u, c, l := PermitMeans(start, before);
      if e.Checked? { c := |log| - 1; }
      if e.Listed? {
        l := |log| - 1;
      } else if l < |before| {
        assert before[..l] == log[..l];
      }
    }
  }

  lemma {:induction false} SafeUpto(start: State, log: seq<Event>, i: nat)
    requires SafeLog(start, log) && i < |log|
    ensures Allowed(Permission(start, log[..i]), log[i])
  {
    var before := log[..|log| - 1];
    if i < |before| {
      SafeUpto(start, before, i);
      assert before[..i] == log[..i];
    }
  }

  lemma CoveredBy(p: Permit, key: Key) returns (r: Row, a: Row, b: Row)
    requires Covers(p, key)
    ensures {r, a, b} <= p.seen && r.key == key && a != r && b != r && a != b
    ensures a.id.generation >= r.id.generation && b.id.generation >= r.id.generation
  {
    r :| r in p.seen && r.key == key && Superseded(r, p.seen);
    a, b :| a in p.seen && b in p.seen && a != b && a != r && b != r
      && a.id.generation >= r.id.generation && b.id.generation >= r.id.generation;
  }

  lemma EligibleMeans(s: State, profile: nat, rows: set<Row>)
    requires rows <= EligibleRows(s, profile)
    ensures forall x :: x in rows ==>
      && x in s.rows.Values && x.remoteVerified && x.comparison.Verified?
      && x.key in s.remote && x.key.prefix == profile
  {
  }

  /** In a safe history every deletion follows an upload, a verification and a listing by the same
      call, in this order and without another upload since.  At the listing, the removed row and two
      others at least as new had all been verified and were listed in that call's prefix. */
  lemma EveryDeletionIsSafe(start: State, log: seq<Event>, i: nat)
    returns (u: nat, c: nat, l: nat, r: Row, a: Row, b: Row)
    requires SafeLog(start, log) && i < |log| && log[i].Removed?
    ensures u < c < l < i && log[u].Uploaded? && log[c] == Checked(log[u].key) && log[l] == Listed(log[u].key)
    ensures forall m :: u < m < i ==> !log[m].Uploaded?
    ensures r.key == log[i].key && a != r && b != r && a != b
    ensures a.id.generation >= r.id.generation && b.id.generation >= r.id.generation
    ensures var seen := Replay(start, log[..l]);
      forall x :: x in {r, a, b} ==>
        && x in seen.rows.Values && x.remoteVerified && x.comparison.Verified?
        && x.key in seen.remote && x.key.prefix == log[u].key.prefix
  {
    SafeUpto(start, log, i);
    var p := Permission(start, log[..i]);
    u, c, l := PermitMeans(start, log[..i]);
    assert log[..i][..l] == log[..l];
    r, a, b := CoveredBy(p, log[i].key);
    EligibleMeans(Replay(start, log[..l]), log[u].key.prefix, {r, a, b});
  }

  /** In a safe history a row that calls its archive verified was saved after an upload of the archive
      and a verification of it, in this order and with no other upload in between. */
  lemma VerifiedMeansChecked(start: State, log: seq<Event>, i: nat) returns (u: nat, c: nat)
    requires SafeLog(start, log) && i < |log| && log[i].Saved?
    requires log[i].row.remoteVerified || log[i].row.comparison.Verified?
    ensures u < c < i && log[u].Uploaded? && log[u].key == log[i].row.key && log[c] == Checked(log[u].key)
    ensures forall m :: u < m < i ==> !log[m].Uploaded?
  {
    SafeUpto(start, log, i);
    var l;
    u, c, l := PermitMeans(start, log[..i]);
  }

  // ---------- one call on a state ----------

  function RowOf(record: Record, upload: Stage, remoteVerified: bool, comparison: Stage, prune: Stage,
                 error: Option<string>): Row
  {
    Row(record.id, record.profile, KeyOf(record), record.digest, record.verified, upload, remoteVerified, comparison,
        prune, error)
  }

  function RefusedRow(record: Record): Row {
    RowOf(record, NotStarted, false, NotStarted, NotStarted, Some("local_unverified"))
  }

  function UploadFailedRow(record: Record): Row {
    RowOf(record, Failed, false, Failed, NotStarted, Some("upload_failed"))
  }

  function CheckFailedRow(record: Record): Row {
    RowOf(record, Succeeded, false, Failed, NotStarted, Some("remote_check_failed"))
  }

  function PruneFailedRow(record: Record): Row {
    RowOf(record, Succeeded, true, Verified, Failed, Some("prune_failed"))
  }

  function PendingRow(record: Record): Row { RowOf(record, Pending, false, Pending, NotStarted, None) }

  function SentRow(record: Record): Row { RowOf(record, Succeeded, false, Pending, NotStarted, None) }

  function AdmittedRow(record: Record): Row { RowOf(record, Succeeded, true, Verified, Pending, None) }

  function DoneRow(record: Record): Row { RowOf(record, Succeeded, true, Verified, Succeeded, None) }

  /** The state that the prune of a call starts from: the archive is uploaded and verified. */
  function Admitted(s: State, record: Record): State {
    State(s.rows[record.id := AdmittedRow(record)],
          s.remote[KeyOf(record) := record.digest])
  }

  /** The other rows of the archive's prefix that were verified and whose objects are remote. */
  function Others(s: State, record: Record): set<Row> {
    set id | id in s.rows && id != record.id && s.rows[id].remoteVerified && s.rows[id].comparison.Verified?
          && s.rows[id].key in s.remote && s.rows[id].key == Key(record.profile, id)
        :: s.rows[id]
  }

  /** Of these and the archive itself, the ones that rank before `id`. */
  function Ahead(s: State, record: Record, position: Position, id: BackupId): set<Row> {
    set r | r in Others(s, record) + {AdmittedRow(record)} && Before(r.id, id, position)
  }

  /** The ids of these and the archive that at least two rank before. */
  function Outranked(s: State, record: Record, position: Position): set<BackupId> {
    set id | id in IdsOf(Others(s, record)) + {record.id} && |Ahead(s, record, position, id)| >= RETENTION
  }

  function KeysIn(profile: nat, ids: set<BackupId>): set<Key> { set id | id in ids :: Key(profile, id) }

  /** What a call that returns leaves behind: the archive has its row and its object, and then every
      outranked generation, perhaps the archive itself, loses its object. */
  function Protected(s: State, record: Record, position: Position): State {
    var out := Outranked(s, record, position);
    State(MarkAll(s.rows, out)[record.id := DoneRow(record)],
          s.remote[KeyOf(record) := record.digest] - KeysIn(record.profile, out))
  }

  lemma AdmittedRows(s: State, record: Record)
    requires Canonical(s.rows)
    ensures EligibleRows(Admitted(s, record), record.profile) == Others(s, record) + {AdmittedRow(record)}
  {
    var a, own := Admitted(s, record), AdmittedRow(record);
    forall r | r in Others(s, record) ensures r in EligibleRows(a, record.profile) {
      assert a.rows[r.id] == r;
    }
    assert a.rows[record.id] == own;
  }

  /** What the prune of the admitted state deletes are exactly the outranked generations. */
  lemma DoomedAreOutranked(s: State, record: Record, position: Position)
    requires Canonical(s.rows)
    ensures var doomed := Doomed(Admitted(s, record), record.profile, position);
      && IdsOf(doomed) == Outranked(s, record, position)
      && KeysOf(doomed) == KeysIn(record.profile, Outranked(s, record, position))
  {
    var a := Admitted(s, record);
    var eligible, doomed := EligibleRows(a, record.profile), Doomed(a, record.profile, position);
    AdmittedRows(s, record);
    forall r | r in eligible
      ensures r.key == Key(record.profile, r.id) && (r in doomed <==> r.id in Outranked(s, record, position))
    {
      assert Above(Order(position), eligible, r) == Ahead(s, record, position, r.id);
    }
  }

  lemma PrunedAndSaved(s: State, record: Record, position: Position)
    requires Canonical(s.rows)
    ensures var a := Admitted(s, record);
      Effect(Without(a, Doomed(a, record.profile, position)), Saved(DoneRow(record))) == Protected(s, record, position)
  {
    DoomedAreOutranked(s, record, position);
    var a := Admitted(s, record);
    assert MarkAll(a.rows, Outranked(s, record, position))[record.id := DoneRow(record)]
        == MarkAll(s.rows, Outranked(s, record, position))[record.id := DoneRow(record)];
  }

  /** The condition on the state before the call: every generation that was verified and listed, and
      the archive itself, keeps its object exactly when fewer than two rank before it. */
  lemma SurvivesExactly(s: State, record: Record, position: Position, id: BackupId)
    requires Canonical(s.rows) && (id == record.id || id in IdsOf(Others(s, record)))
    ensures Key(record.profile, id) in Protected(s, record, position).remote <==>
      |Ahead(s, record, position, id)| < RETENTION
  {
    if id != record.id {
      assert exists r :: r in Others(s, record) && r.id == id && r.key == Key(record.profile, id);
    }
  }

  /** The ids of the prefix that are verified and have their objects. */
  function VerifiedIds(s: State, profile: nat): set<BackupId> {
    set id | id in s.rows && s.rows[id].remoteVerified && s.rows[id].comparison.Verified?
      && s.rows[id].key in s.remote && s.rows[id].key.prefix == profile
  }

  lemma LeftIsNewest(s: State, record: Record, position: Position, id: BackupId)
    requires Canonical(s.rows) && id in VerifiedIds(Protected(s, record, position), record.profile)
    ensures var a := Admitted(s, record);
      id in IdsOf(Newest(Order(position), EligibleRows(a, record.profile), RETENTION))
  {
    var a := Admitted(s, record);
    DoomedAreOutranked(s, record, position);
    assert a.rows[id] in EligibleRows(a, record.profile);
    assert Key(record.profile, id) !in KeysIn(record.profile, Outranked(s, record, position));
    assert a.rows[id] !in Doomed(a, record.profile, position);
  }

  /** Afterwards at most two generations of the prefix are verified and still have their objects. */
  lemma AtMostTwoRemain(s: State, record: Record, position: Position)
    requires Canonical(s.rows) && Injective(position, s.rows.Keys + {record.id})
    ensures |VerifiedIds(Protected(s, record, position), record.profile)| <= 2
  {
    var left, a := VerifiedIds(Protected(s, record, position), record.profile), Admitted(s, record);
    var newest := Newest(Order(position), EligibleRows(a, record.profile), RETENTION);
    OrderIsTotal(a, record.profile, position);
    NewestCount(Order(position), EligibleRows(a, record.profile), RETENTION);
    forall id | id in left ensures id in IdsOf(newest) { LeftIsNewest(s, record, position, id); }
    CardinalityMonotone(left, IdsOf(newest));
    NoMoreIds(newest);
  }

  lemma ProtectedMeans(s: State, record: Record, position: Position)
    requires Canonical(s.rows) && Injective(position, s.rows.Keys + {record.id})
    ensures var after := Protected(s, record, position);
      && |VerifiedIds(after, record.profile)| <= 2
      && forall id :: id == record.id || id in IdsOf(Others(s, record)) ==>
           (Key(record.profile, id) in after.remote <==> |Ahead(s, record, position, id)| < RETENTION)
  {
    AtMostTwoRemain(s, record, position);
    forall id | id == record.id || id in IdsOf(Others(s, record))
      ensures Key(record.profile, id) in Protected(s, record, position).remote <==>
        |Ahead(s, record, position, id)| < RETENTION
    {
      SurvivesExactly(s, record, position, id);
    }
  }

  lemma {:induction false} NoMoreIds(rows: set<Row>)
    ensures |IdsOf(rows)| <= |rows|
  {
    if rows != {} {
      var r := Member(rows);
      NoMoreIds(rows - {r});
      assert IdsOf(rows) == IdsOf(rows - {r}) + {r.id};
    }
  }

  /** The rows that are newer than an archive, or at least as new. */
  function StrictlyNewer(s: State, record: Record): set<Row> {
    set r | r in Others(s, record) && r.id.generation > record.id.generation
  }

  function AtLeastAsNew(s: State, record: Record): set<Row> {
    set r | r in Others(s, record) && r.id.generation >= record.id.generation
  }

  lemma OwnIsEligible(s: State, record: Record)
    ensures KeyOf(record) in KeysOf(EligibleRows(Admitted(s, record), record.profile))
  {
    assert Admitted(s, record).rows[record.id] == AdmittedRow(record);
    assert AdmittedRow(record) in EligibleRows(Admitted(s, record), record.profile);
  }

  /** Whatever the order of the database: an archive that fewer than two others are at least as new
      as survives its own call, and one that two others are newer than does not. */
  lemma TiesDecideTheRest(s: State, record: Record, position: Position)
    ensures |AtLeastAsNew(s, record)| < RETENTION ==> |Ahead(s, record, position, record.id)| < RETENTION
    ensures |StrictlyNewer(s, record)| >= RETENTION ==> |Ahead(s, record, position, record.id)| >= RETENTION
  {
    CardinalityMonotone(Ahead(s, record, position, record.id), AtLeastAsNew(s, record));
    CardinalityMonotone(StrictlyNewer(s, record), Ahead(s, record, position, record.id));
  }

  /** The call has touched nothing but its own row and its own object. */
  predicate OnlyOwn(before: State, after: State, record: Record) {
    && (after.rows == before.rows
        || (record.id in after.rows && after.rows == before.rows[record.id := after.rows[record.id]]
            && after.rows[record.id].profile == record.profile))
    && (after.remote == before.remote || after.remote == before.remote[KeyOf(record) := record.digest])
  }

  /** Only objects of outranked generations have disappeared, what is there has its content, and of
      the other rows only those of outranked generations are marked. */
  predicate Spares(before: State, after: State, record: Record, position: Position) {
    var out := Outranked(before, record, position);
    && (forall k :: k in before.remote && k !in after.remote ==> k in KeysIn(record.profile, out))
    && (forall k :: k in after.remote ==>
          || (k in before.remote && after.remote[k] == before.remote[k])
          || (k == KeyOf(record) && after.remote[k] == record.digest))
    && before.rows.Keys <= after.rows.Keys <= before.rows.Keys + {record.id}
    && (after.rows == before.rows
        || (record.id in after.rows ==> after.rows[record.id].profile == record.profile))
    && (forall id :: id in before.rows && id != record.id ==>
          || after.rows[id] == before.rows[id]
          || (id in out && after.rows[id] == before.rows[id].(prune := Deleted)))
  }

  lemma OwnIsSpared(before: State, after: State, record: Record, position: Position)
    requires OnlyOwn(before, after, record)
    ensures Spares(before, after, record, position)
  {
  }

  /** The same rows, of which only these may have been marked deleted. */
  predicate SameRows(before: map<BackupId, Row>, after: map<BackupId, Row>, marked: set<BackupId>) {
    && before.Keys == after.Keys
    && forall id :: id in before ==>
         after[id] == before[id] || (id in marked && after[id] == before[id].(prune := Deleted))
  }

  /** Some of these rows' objects are gone and some of their rows are marked; nothing else changed. */
  predicate Partly(before: State, after: State, gone: set<Row>) {
    && SameRows(before.rows, after.rows, IdsOf(gone)) && after.remote.Keys <= before.remote.Keys
    && (forall k :: k in after.remote ==> after.remote[k] == before.remote[k])
    && (forall k :: k in before.remote && k !in after.remote ==> k in KeysOf(gone))
  }

  /** Exactly these rows' objects are gone, and exactly their rows are marked. */
  function Without(s: State, gone: set<Row>): State {
    State(MarkAll(s.rows, IdsOf(gone)), s.remote - KeysOf(gone))
  }

  lemma NothingGone(s: State, gone: set<Row>)
    ensures Partly(s, s, gone)
  {
  }

  lemma WithoutIsPartly(s: State, done: set<Row>, gone: set<Row>)
    requires done <= gone
    ensures Partly(s, Without(s, done), gone)
  {
  }

  lemma OneMoreObject(s: State, done: set<Row>, r: Row, gone: set<Row>, after: State)
    requires done <= gone && r in gone && after == Without(s, done).(remote := s.remote - KeysOf(done) - {r.key})
    ensures Partly(s, after, gone)
  {
  }

  lemma WithoutNone(s: State)
    ensures Without(s, {}) == s
  {
    assert MarkAll(s.rows, {}) == s.rows && s.remote - {} == s.remote;
  }

  lemma ElementsUpto(todo: seq<Row>, i: nat)
    requires i < |todo|
    ensures todo[i] in Elements(todo) && Elements(todo[..i]) <= Elements(todo)
    ensures Elements(todo[..i + 1]) == Elements(todo[..i]) + {todo[i]}
  {
    assert todo[..i + 1] == todo[..i] + [todo[i]];
  }

  lemma WithoutOneMore(s: State, done: set<Row>, r: Row)
    ensures State(MarkAll(Without(s, done).rows, {r.id}), Without(s, done).remote - {r.key}) == Without(s, done + {r})
  {
    assert IdsOf(done + {r}) == IdsOf(done) + {r.id};
    assert KeysOf(done + {r}) == KeysOf(done) + {r.key};
  }

  lemma PrunedIsSpared(before: State, after: State, record: Record, position: Position)
    requires Partly(Admitted(before, record), after, Doomed(Admitted(before, record), record.profile, position))
    requires Canonical(before.rows)
    ensures Spares(before, after, record, position)
  {
    DoomedAreOutranked(before, record, position);
  }

  lemma SavedIsSpared(before: State, after: State, record: Record, position: Position, row: Row)
    requires Spares(before, after, record, position) && row.id == record.id && row.profile == record.profile
    ensures Spares(before, Effect(after, Saved(row)), record, position)
  {
  }

  function RecordIds(records: seq<Record>): set<BackupId> { set r | r in records :: r.id }

  /** What is left of the sorted rows after the newest two is what the prune deletes. */
  lemma TailIsDoomed(sorted: seq<Row>, s: State, profile: nat, position: Position)
    requires Elements(sorted) == EligibleRows(s, profile)
    requires forall i, j :: 0 <= i < j < |sorted| ==> Order(position)(sorted[i], sorted[j])
    ensures Elements(sorted[Min(RETENTION, |sorted|)..]) == Doomed(s, profile, position)
  {
    var m := Min(RETENTION, |sorted|);
    SortedPrefixIsNewest(Order(position), sorted, RETENTION);
    assert sorted == sorted[..m] + sorted[m..];
    forall i, j | 0 <= i < m <= j < |sorted| ensures sorted[i] != sorted[j] {
      assert Order(position)(sorted[i], sorted[j]);
    }
  }

  /** The verified listed rows after the newest two: sort, then cut. */
  method AfterNewest(s: State, profile: nat, position: Position) returns (todo: seq<Row>)
    requires Canonical(s.rows) && Injective(position, s.rows.Keys)
    ensures Elements(todo) == Doomed(s, profile, position)
  {
    OrderIsTotal(s, profile, position);
    var sorted := SortNewest(Order(position), EligibleRows(s, profile));
    TailIsDoomed(sorted, s, profile, position);
    todo := sorted[Min(RETENTION, |sorted|)..];
  }

  lemma DoomedIsCovered(todo: seq<Row>, s: State, current: Key, position: Position)
    requires Canonical(s.rows) && Elements(todo) == Doomed(s, current.prefix, position)
    ensures forall i :: 0 <= i < |todo| ==> Covers(Open(current, EligibleRows(s, current.prefix)), todo[i].key)
  {
    forall i | 0 <= i < |todo| ensures Covers(Open(current, EligibleRows(s, current.prefix)), todo[i].key) {
      assert todo[i] in Elements(todo);
      DoomedIsSuperseded(s, current.prefix, position, todo[i]);
    }
  }

  class B2Protection {
    var rows: map<BackupId, Row>
    var remote: map<Key, int>
    var script: seq<bool>
    ghost const start: State
    ghost var log: seq<Event>

    ghost function Now(): State
      reads this
    {
      State(rows, remote)
    }

    ghost function Permitted(): Permit
      reads this
    {
      Permission(start, log)
    }

    /** Rows carry canonical keys, the history explains every row and every object, and no unsafe
        deletion ever happened. */
    ghost predicate Valid()
      reads this
    {
      Canonical(rows) && Now() == Replay(start, log) && SafeLog(start, log)
    }

    constructor (rows: map<BackupId, Row>, remote: map<Key, int>, script: seq<bool>)
      requires Canonical(rows)
      ensures Valid() && Now() == State(rows, remote) && this.script == script && log == []
    {
      this.rows, this.remote, this.script := rows, remote, script;
      start, log := State(rows, remote), [];
    }

    /** Any remote or database call may fail. */
    method Call() returns (o: Outcome)
      modifies this`script
      ensures old(script) == [] ==> o.Ok? && script == []
    {
      o := Ok;
      if script != [] {
        o := if script[0] then Raised else Ok;
        script := script[1..];
      }
    }

    /** Let an event take effect. */
    method Take(e: Event)
      requires Valid() && Allowed(Permitted(), e)
      requires e.Saved? ==> e.row.key == Key(e.row.profile, e.row.id)
      modifies this`rows, this`remote, this`log
      ensures Valid() && log == old(log) + [e] && Now() == Effect(old(Now()), e)
      ensures Permitted() == Granted(old(Permitted()), old(Now()), e)
    {
      var s := Effect(State(rows, remote), e);
      assert (log + [e])[..|log|] == log;
      rows, remote, log := s.rows, s.remote, log + [e];
    }

    /** `_save` and `_save_by_protection`: a database write, which may fail. */
    method Write(e: Event) returns (o: Outcome)
      requires Valid() && Allowed(Permitted(), e) && (e.Marked? || e.Saved?)
      requires e.Saved? ==> e.row.key == Key(e.row.profile, e.row.id)
      modifies this
      ensures Valid() && Permitted() == old(Permitted())
      ensures log == if o.Ok? then old(log) + [e] else old(log)
      ensures Now() == if o.Ok? then Effect(old(Now()), e) else old(Now())
      ensures old(script) == [] ==> o.Ok? && script == []
    {
      o := Call();
      if o.Ok? {
        Take(e);
      }
    }

    /** Delete one superseded object, then mark its row. */
    method RemoveRow(item: Row) returns (o: Outcome)
      requires Valid() && Covers(Permitted(), item.key)
      modifies this
      ensures Valid() && Permitted() == old(Permitted())
      ensures o.Ok? ==> Now() == State(MarkAll(old(rows), {item.id}), old(remote) - {item.key})
      ensures o.Ok? ==> log == old(log) + [Removed(item.key), Marked(item.id)]
      ensures !o.Ok? ==>
        || (Now() == old(Now()) && log == old(log))
        || (Now() == State(old(rows), old(remote) - {item.key}) && log == old(log) + [Removed(item.key)])
      ensures old(script) == [] ==> o.Ok? && script == []
    {
      o := Call();
      if o.Raised? { return; }
      Take(Removed(item.key));
      o := Write(Marked(item.id));
    }

    /** The deletion loop of `_prune`. */
    method RemoveAll(todo: seq<Row>) returns (o: Outcome)
      requires Valid() && forall i :: 0 <= i < |todo| ==> Covers(Permitted(), todo[i].key)
      modifies this
      ensures Valid() && old(log) <= log && Partly(old(Now()), Now(), Elements(todo))
      ensures Permitted() == old(Permitted())
      ensures o.Ok? ==> Now() == Without(old(Now()), Elements(todo))
      ensures old(script) == [] ==> o.Ok? && script == []
    {
      ghost var s, done: set<Row> := Now(), {};
      WithoutNone(s);
      for i := 0 to |todo|
        invariant Valid() && old(log) <= log && Permitted() == old(Permitted()) && (old(script) == [] ==> script == [])
        invariant done == Elements(todo[..i]) && Now() == Without(s, done)
      {
        ghost var r := todo[i];
        ElementsUpto(todo, i);
        WithoutIsPartly(s, done, Elements(todo));
        WithoutOneMore(s, done, r);
        o := RemoveRow(todo[i]);
        if !o.Ok? {
          if Now() != Without(s, done) { OneMoreObject(s, done, r, Elements(todo), Now()); }
          return;
        }
        done := done + {r};
      }
      assert todo[..|todo|] == todo;
      WithoutIsPartly(s, done, done);
      o := Ok;
    }

    /** The prune of the present listing. */
    method PruneListed(current: Key, position: Position, ghost gone: set<Row>) returns (o: Outcome)
      requires Valid() && Permitted() == Open(current, EligibleRows(Now(), current.prefix))
      requires Injective(position, rows.Keys) && gone == Doomed(Now(), current.prefix, position)
      modifies this
      ensures Valid() && old(log) <= log && Partly(old(Now()), Now(), gone) && Vouches(Permitted(), current)
      ensures o.Ok? ==> Now() == Without(old(Now()), gone)
      ensures old(script) == [] ==> o.Ok? && script == []
    {
      var todo := AfterNewest(State(rows, remote), current.prefix, position);
      DoomedIsCovered(todo, Now(), current, position);
      o := RemoveAll(todo);
    }

    /** List the prefix; the archive itself must be among the verified listed rows. */
    method List(current: Key) returns (o: Outcome)
      requires Valid() && Permitted() == Proven(current)
      modifies this
      ensures Valid() && old(log) <= log && Now() == old(Now()) && Vouches(Permitted(), current)
      ensures o.Ok? ==> Permitted() == Open(current, EligibleRows(Now(), current.prefix))
      ensures o.Ok? ==> current in KeysOf(EligibleRows(Now(), current.prefix))
      ensures old(script) == [] && current in KeysOf(EligibleRows(Now(), current.prefix)) ==> o.Ok? && script == []
    {
      o := Call();
      if o.Raised? { return; }
      Take(Listed(current));
      if current !in KeysOf(EligibleRows(State(rows, remote), current.prefix)) { return Raised; }
    }

    /** `_prune`: delete every verified listed row of the prefix after the newest two. */
    method Prune(current: Key, position: Position, ghost gone: set<Row>) returns (o: Outcome)
      requires Valid() && Permitted() == Proven(current) && Injective(position, rows.Keys)
      requires gone == Doomed(Now(), current.prefix, position)
      modifies this
      ensures Valid() && old(log) <= log && Partly(old(Now()), Now(), gone) && Vouches(Permitted(), current)
      ensures o.Ok? ==> Now() == Without(old(Now()), gone)
      ensures o.Ok? ==> current in KeysOf(EligibleRows(old(Now()), current.prefix))
      ensures old(script) == [] && current in KeysOf(EligibleRows(old(Now()), current.prefix)) ==> o.Ok? && script == []
    {
      NothingGone(Now(), gone);
      o := List(current);
      if o.Raised? { return; }
      o := PruneListed(current, position, gone);
    }

    /** Save a row of the archive that the call is about. */
    method SaveOwn(record: Record, row: Row, ghost before: State) returns (o: Outcome)
      requires Valid() && OnlyOwn(before, Now(), record)
      requires row.id == record.id && row.profile == record.profile && row.key == KeyOf(record)
      requires row.remoteVerified || row.comparison.Verified? ==> Vouches(Permitted(), row.key)
      modifies this
      ensures Valid() && Permitted() == old(Permitted())
      ensures OnlyOwn(before, Now(), record) && remote == old(remote)
      ensures log == if o.Ok? then old(log) + [Saved(row)] else old(log)
      ensures o.Ok? ==> rows == before.rows[record.id := row]
      ensures old(script) == [] ==> o.Ok? && script == []
    {
      o := Write(Saved(row));
    }

    /** The first half of the admission: the upload. */
    method Send(record: Record) returns (o: Outcome)
      requires Valid() && record.verified
      modifies this
      ensures Valid() && old(log) <= log && OnlyOwn(old(Now()), Now(), record)
      ensures o.Ok? ==> Permitted() == Sent(KeyOf(record)) && remote == old(remote)[KeyOf(record) := record.digest]
      ensures o.Ok? ==> log == old(log) + [Saved(PendingRow(record)), Uploaded(KeyOf(record), record.digest)]
      ensures !o.Ok? ==> remote == old(remote)
      ensures !o.Ok? ==>
        || rows == old(rows)
        || rows == old(rows)[record.id := PendingRow(record)]
        || rows == old(rows)[record.id := UploadFailedRow(record)]
      ensures old(script) == [] ==> o.Ok? && script == []
    {
      ghost var s := Now();
      o := SaveOwn(record, PendingRow(record), s);
      if o.Raised? { return; }
      o := Call();
      if o.Raised? {
        var _ := SaveOwn(record, UploadFailedRow(record), s);
        return;
      }
      Take(Uploaded(KeyOf(record), record.digest));
    }

    /** The second half of the admission: the archive is uploaded and not yet verified. */
    method Check(record: Record, ghost s: State) returns (o: Outcome)
      requires Valid() && record.verified && OnlyOwn(s, Now(), record)
      requires Permitted() == Sent(KeyOf(record)) && remote == s.remote[KeyOf(record) := record.digest]
      modifies this
      ensures Valid() && old(log) <= log && OnlyOwn(s, Now(), record)
      ensures o.Ok? ==> Now() == Admitted(s, record) && Permitted() == Proven(KeyOf(record))
      ensures o.Ok? ==> log == old(log) + [Saved(SentRow(record)), Checked(KeyOf(record)), Saved(AdmittedRow(record))]
      ensures !o.Ok? ==> remote == old(remote)
      ensures !o.Ok? ==>
        || rows == old(rows)
        || rows == s.rows[record.id := SentRow(record)]
        || rows == s.rows[record.id := CheckFailedRow(record)]
      ensures old(script) == [] ==> o.Ok? && script == []
    {
      o := SaveOwn(record, SentRow(record), s);
      if o.Raised? { return; }
      o := Call();
      if o.Raised? {
        var _ := SaveOwn(record, CheckFailedRow(record), s);
        return;
      }
      Take(Checked(KeyOf(record)));
      o := SaveOwn(record, AdmittedRow(record), s);
    }

    /** Upload and verify the archive; only then may the call prune. */
    method Admit(record: Record) returns (o: Outcome)
      requires Valid() && record.verified
      modifies this
      ensures Valid() && old(log) <= log && OnlyOwn(old(Now()), Now(), record)
      ensures o.Ok? ==> Now() == Admitted(old(Now()), record) && Permitted() == Proven(KeyOf(record))
      ensures o.Ok? ==> log == old(log) + [Saved(PendingRow(record)), Uploaded(KeyOf(record), record.digest)]
                             + [Saved(SentRow(record)), Checked(KeyOf(record)), Saved(AdmittedRow(record))]
      ensures old(script) == [] ==> o.Ok? && script == []
    {
      ghost var s := Now();
      o := Send(record);
      if o.Raised? { return; }
      o := Check(record, s);
    }

    /** The rest of the call, once the archive is admitted. */
    method PruneAdmitted(record: Record, position: Position, ghost s: State) returns (o: Outcome)
      requires Valid() && Now() == Admitted(s, record) && Permitted() == Proven(KeyOf(record)) && Canonical(s.rows)
      requires Injective(position, rows.Keys) && (record.id in s.rows ==> s.rows[record.id].profile == record.profile)
      modifies this
      ensures Valid() && old(log) <= log && Spares(s, Now(), record, position)
      ensures o.Ok? ==> Now() == Protected(s, record, position)
      ensures old(script) == [] ==> o.Ok?
    {
      OwnIsEligible(s, record);
      o := Prune(KeyOf(record), position, Doomed(Now(), record.profile, position));
      PrunedIsSpared(s, Now(), record, position);
      ghost var pruned := Now();
      var row := if o.Ok? then DoneRow(record) else PruneFailedRow(record);
      SavedIsSpared(s, pruned, record, position, row);
      PrunedAndSaved(s, record, position);
      var w := Write(Saved(row));
      if w.Raised? { o := Raised; }
    }

    /** The call for an archive that is there and locally verified. */
    method ProtectVerified(record: Record, position: Position) returns (o: Outcome)
      requires Valid() && record.verified && Injective(position, rows.Keys + {record.id})
      requires record.id in rows ==> rows[record.id].profile == record.profile
      modifies this
      ensures Valid() && old(log) <= log && Spares(old(Now()), Now(), record, position)
      ensures o.Ok? ==> Now() == Protected(old(Now()), record, position)
      ensures old(script) == [] ==> o.Ok?
    {
      ghost var s := Now();
      o := Admit(record);
      if o.Raised? {
        OwnIsSpared(s, Now(), record, position);
        return;
      }
      o := PruneAdmitted(record, position, s);
    }

    /** `_protect`.  An object disappears only if two other verified listed generations rank before
        it.  A call that returns leaves at most two, and says in its row that it succeeded, although
        its own object may be one of those that went: like any other it survives exactly when fewer
        than two ranked before it. */
    method Protect(record: Record, available: bool, position: Position) returns (o: Outcome)
      requires Valid() && Injective(position, rows.Keys + {record.id})
      requires record.id in rows ==> rows[record.id].profile == record.profile
      modifies this
      ensures Valid() && old(log) <= log && Spares(old(Now()), Now(), record, position)
      ensures !available || !record.verified ==> o.Raised? && remote == old(remote)
      ensures !available ==> rows == old(rows) && log == old(log)
      ensures o.Ok? ==> Now() == Protected(old(Now()), record, position)
      ensures o.Ok? ==> forall id :: id == record.id || id in IdsOf(Others(old(Now()), record)) ==>
        (Key(record.profile, id) in remote <==> |Ahead(old(Now()), record, position, id)| < RETENTION)
      ensures o.Ok? ==> |VerifiedIds(Now(), record.profile)| <= 2
      ensures old(script) == [] && available && record.verified ==> o.Ok?
    {
      if !available { return Raised; }
      ghost var s := Now();
      if !record.verified {
        var _ := SaveOwn(record, RefusedRow(record), s);
        OwnIsSpared(s, Now(), record, position);
        return Raised;
      }
      o := ProtectVerified(record, position);
      ProtectedMeans(s, record, position);
    }

    /** Any sequence of calls, including calls that fail part way: the history grows, still explains
        every row and every object, and has no unsafe deletion. */
    method ProtectAll(records: seq<Record>, available: seq<bool>, positions: seq<Position>)
      requires Valid() && |available| == |positions| == |records|
      requires forall i :: 0 <= i < |positions| ==> Injective(positions[i], rows.Keys + RecordIds(records))
      requires forall i, j :: 0 <= i < |records| && 0 <= j < |records| && records[i].id == records[j].id ==>
        records[i].profile == records[j].profile
      requires forall i :: 0 <= i < |records| && records[i].id in rows ==>
        rows[records[i].id].profile == records[i].profile
      modifies this
      ensures Valid() && old(log) <= log
    {
      for k := 0 to |records|
        invariant Valid() && old(log) <= log && rows.Keys <= old(rows).Keys + RecordIds(records)
        invariant forall i :: 0 <= i < |records| && records[i].id in rows ==>
          rows[records[i].id].profile == records[i].profile
      {
        assert records[k].id in RecordIds(records);
        var _ := Protect(records[k], available[k], positions[k]);
      }
    }
  }

  // ---------- an archive that its own protection deletes ----------

  const OLD := Record(BackupId(1, 0), 0, 1, true)

  function VerifiedRow(id: BackupId): Row {
    DoneRow(Record(id, 0, id.generation, true))
  }

  /** Two verified generations are remote, both newer than the old archive. */
  function TwoNewer(): State {
    var a, b := BackupId(3, 0), BackupId(2, 0);
    State(map[a := VerifiedRow(a), b := VerifiedRow(b)], map[Key(0, a) := 3, Key(0, b) := 2])
  }

  lemma TwoAreAhead(position: Position)
    ensures |Ahead(TwoNewer(), OLD, position, OLD.id)| >= RETENTION
  {
    var s, a, b := TwoNewer(), VerifiedRow(BackupId(3, 0)), VerifiedRow(BackupId(2, 0));
    assert {a, b} <= StrictlyNewer(s, OLD) by {
      assert s.rows[a.id] == a && s.rows[b.id] == b;
    }
    CardinalityMonotone({a, b}, StrictlyNewer(s, OLD));
    TiesDecideTheRest(s, OLD, position);
  }

  /** Protecting the old archive without any disturbance: the call returns, its row says that
      everything succeeded, and the object is gone. */
  method OldArchiveIsLost(service: B2Protection, position: Position) returns (o: Outcome)
    requires service.Valid() && service.Now() == TwoNewer() && service.script == []
    requires Injective(position, service.rows.Keys + {OLD.id})
    modifies service
    ensures o.Ok? && KeyOf(OLD) !in service.remote
    ensures OLD.id in service.rows && service.rows[OLD.id] == DoneRow(OLD)
  {
    TwoAreAhead(position);
    o := service.Protect(OLD, true, position);
  }
}
