/** The capability store (`CapabilityTokenStore` in src/game_control/capability.py): an idempotent
    request table, a fixed-window rate limiter, a wake cooldown and bounded replay retention.

    Times are integers (seconds); one clock reading is used per call.  The canonical text of a
    request is represented by the request itself. */
module Capability {
  import opened Ranking
  import opened Wrappers

  datatype Kind = Status | Wake | Tps

  datatype Request = Request(id: nat, kind: Kind, window: nat)

  /** A response body.  Only the bodies of status and tps requests can exceed the size bound. */
  datatype Response = Ready(generation: nat) | Error(code: string, retryable: bool) | Body(bytes: nat, text: string)

  const MAX_RESPONSE_BYTES := 64 * 1024
  const REPLAY_WINDOW := 600
  const MAINTENANCE_INTERVAL := 60
  const PER_TOKEN_CAP := 128
  const GLOBAL_CAP := 4096

  datatype Token = Token(budget: nat, window: int, cooldown: int, expires: int, revoked: bool,
                         start: int, used: nat, lastWake: Option<int>)

  /** The primary key of the request table. */
  datatype Key = Key(token: nat, id: nat)

  datatype Row = Row(request: Request, response: Option<Response>, completed: bool, successful: bool,
                     created: int, rowid: nat)

  datatype Store = Store(tokens: map<nat, Token>, requests: map<Key, Row>, nextRow: nat, lastPruned: int)

  datatype Begun = Replay(response: Response) | Accepted | Refused(code: string)

  // ---------- the rate limiter ----------

  /** The UPDATE of `_consume_budget`: the token after it, if the row matched. */
  function Consumed(t: Token, kind: Kind, now: int): Option<Token> {
    if t.revoked || t.expires <= now then None
    else if kind.Wake? then
      if t.lastWake.Some? && t.lastWake.value > now - t.cooldown then None
      else Some(t.(lastWake := Some(now)))
    else if t.start <= now - t.window then Some(t.(start := now, used := 1))
    else if t.used < t.budget then Some(t.(used := t.used + 1))
    else None
  }

  // ---------- begin and complete ----------

  /** A completed successful status row, the only kind that retention may remove. */
  predicate Routine(row: Row) {
    row.request.kind.Status? && row.completed && row.successful
  }

  predicate ReplayExpired(row: Row, now: int) {
    Routine(row) && row.created + REPLAY_WINDOW <= now
  }

  /** `begin` */
  function Begin(s: Store, token: nat, request: Request, now: int): (Store, Begun) {
    if token !in s.tokens then (s, Refused("invalid_token"))
    else if s.tokens[token].revoked then (s, Refused("token_revoked"))
    else if s.tokens[token].expires <= now then (s, Refused("token_expired"))
    else
      var k := Key(token, request.id);
      if k in s.requests && s.requests[k].request != request then (s, Refused("request_id_conflict"))
      else if k in s.requests && !(s.requests[k].completed && s.requests[k].response.Some?)
      then (s, Refused("request_in_progress"))
      else if k in s.requests && !ReplayExpired(s.requests[k], now) then (s, Replay(s.requests[k].response.value))
      else
        match Consumed(s.tokens[token], request.kind, now)
        case None =>
          (s.(requests := s.requests - {k}),
           Refused(if request.kind.Wake? then "wake_cooldown" else "rate_window_exhausted"))
        case Some(t) =>
          (s.(tokens := s.tokens[token := t],
              requests := s.requests[k := Row(request, None, false, false, now, s.nextRow)],
              nextRow := s.nextRow + 1),
           Accepted)
  }

  function Stored(response: Response): Response {
    if response.Body? && response.bytes > MAX_RESPONSE_BYTES then Error("response_too_large", false) else response
  }

  /** The UPDATE of `complete`, which touches only a pending row. */
  function Completed(s: Store, k: Key, response: Response, ok: bool): Store {
    if k in s.requests && !s.requests[k].completed
    then s.(requests := s.requests[k := s.requests[k].(response := Some(Stored(response)), completed := true,
                                                       successful := ok && Stored(response) == response)])
    else s
  }

  /** `complete`, including the retention pass. */
  function Complete(s: Store, k: Key, response: Response, ok: bool, now: int): Store {
    Pruned(Completed(s, k, response, ok), now)
  }

  // ---------- the retention pass ----------

  /** What the retention pass orders rows by. */
  datatype Entry = Entry(key: Key, created: int, rowid: nat)

  predicate Newer(a: Entry, b: Entry) {
    a.created > b.created || (a.created == b.created && a.rowid > b.rowid)
  }

  function EntryOf(requests: map<Key, Row>, k: Key): Entry
    requires k in requests
  {
    Entry(k, requests[k].created, requests[k].rowid)
  }

  function RoutineEntries(requests: map<Key, Row>): set<Entry> {
    set k | k in requests && Routine(requests[k]) :: EntryOf(requests, k)
  }

  function OfToken(entries: set<Entry>, token: nat): set<Entry> {
    set x {:trigger x in entries} | x in entries && x.key.token == token
  }

  function Without(requests: map<Key, Row>, entries: set<Entry>): map<Key, Row> {
    map k | k in requests && !(Routine(requests[k]) && EntryOf(requests, k) in entries) :: requests[k]
  }

  /** The first DELETE: rows older than the replay window. */
  function Stale(requests: map<Key, Row>, cutoff: int): set<Entry> {
    set x {:trigger x in RoutineEntries(requests)} | x in RoutineEntries(requests) && x.created < cutoff
  }

  /** The second DELETE: row_number() over (partition by token, newest first) above the cap. */
  function OverTokenCap(requests: map<Key, Row>): set<Entry> {
    var all := RoutineEntries(requests);
    set x {:trigger x in all} | x in all && |Above(Newer, OfToken(all, x.key.token), x)| >= PER_TOKEN_CAP
  }

  /** The third DELETE: the oldest rows in excess of the global cap. */
  function Excess(requests: map<Key, Row>): set<Entry> {
    var all := RoutineEntries(requests);
    set x {:trigger x in all} | x in all && |Below(Newer, all, x)| < |all| - GLOBAL_CAP
  }

  /** `_prune_status_retention`, which runs at most once per maintenance interval. */
  function Pruned(s: Store, now: int): Store {
    if now < s.lastPruned + MAINTENANCE_INTERVAL then s
    else
      var recent := Without(s.requests, Stale(s.requests, now - REPLAY_WINDOW));
      var capped := Without(recent, OverTokenCap(recent));
      s.(requests := Without(capped, Excess(capped)), lastPruned := now)
  }

  /** Row ids are unique, so the order is total. */
  predicate UniqueRows(requests: map<Key, Row>) {
    forall k, l :: k in requests && l in requests && requests[k].rowid == requests[l].rowid ==> k == l
  }

  lemma EntriesOrdered(requests: map<Key, Row>, entries: set<Entry>)
    requires UniqueRows(requests) && entries <= RoutineEntries(requests)
    ensures StrictTotalOn(Newer, entries)
  {
    forall x, y | x in entries && y in entries && x != y ensures Newer(x, y) || Newer(y, x) {
      assert x in RoutineEntries(requests) && y in RoutineEntries(requests);
    }
  }

  lemma EntriesWithout(requests: map<Key, Row>, entries: set<Entry>)
    ensures RoutineEntries(Without(requests, entries)) == RoutineEntries(requests) - entries
  {
    var rest := Without(requests, entries);
    forall x | x in RoutineEntries(requests) - entries ensures x in RoutineEntries(rest) {
      assert x.key in rest && EntryOf(rest, x.key) == x;
    }
    forall x | x in RoutineEntries(rest) ensures x in RoutineEntries(requests) - entries {
      assert EntryOf(rest, x.key) == EntryOf(requests, x.key);
    }
  }

  /** The rows that a retention pass keeps: from the last ten minutes, the newest 128 per token,
      and of those the newest 4096 overall. */
  function FreshEntries(requests: map<Key, Row>, now: int): set<Entry> {
    set x {:trigger x in RoutineEntries(requests)} | x in RoutineEntries(requests) && x.created >= now - REPLAY_WINDOW
  }

  function CappedEntries(requests: map<Key, Row>, now: int): set<Entry> {
    var recent := FreshEntries(requests, now);
    set x {:trigger x in recent} | x in recent && x in Newest(Newer, OfToken(recent, x.key.token), PER_TOKEN_CAP)
  }

  function KeptEntries(requests: map<Key, Row>, now: int): set<Entry> {
    Newest(Newer, CappedEntries(requests, now), GLOBAL_CAP)
  }

  lemma AgeStep(requests: map<Key, Row>, now: int)
    ensures RoutineEntries(Without(requests, Stale(requests, now - REPLAY_WINDOW))) == FreshEntries(requests, now)
  {
    EntriesWithout(requests, Stale(requests, now - REPLAY_WINDOW));
  }

  lemma TokenStep(requests: map<Key, Row>, all: set<Entry>)
    requires all == RoutineEntries(requests)
    ensures RoutineEntries(Without(requests, OverTokenCap(requests))) ==
      set x {:trigger x in all} | x in all && x in Newest(Newer, OfToken(all, x.key.token), PER_TOKEN_CAP)
  {
    EntriesWithout(requests, OverTokenCap(requests));
  }

  lemma GlobalStep(requests: map<Key, Row>, all: set<Entry>)
    requires all == RoutineEntries(requests) && StrictTotalOn(Newer, all)
    ensures RoutineEntries(Without(requests, Excess(requests))) == Newest(Newer, all, GLOBAL_CAP)
  {
    EntriesWithout(requests, Excess(requests));
    forall x | x in all ensures x in Excess(requests) <==> x !in Newest(Newer, all, GLOBAL_CAP) {
      AboveBelow(Newer, all, x);
    }
  }

  lemma WithoutKeeps(requests: map<Key, Row>, entries: set<Entry>)
    ensures Without(requests, entries).Keys <= requests.Keys
    ensures forall k :: k in Without(requests, entries) ==> Without(requests, entries)[k] == requests[k]
    ensures forall k :: k in requests && !Routine(requests[k]) ==> k in Without(requests, entries)
  {
  }

  /** A retention pass that is not skipped keeps exactly `KeptEntries` of the successful status
      rows. */
  lemma RetentionIsExact(s: Store, now: int)
    requires UniqueRows(s.requests) && s.lastPruned + MAINTENANCE_INTERVAL <= now
    ensures RoutineEntries(Pruned(s, now).requests) == KeptEntries(s.requests, now)
  {
    var recent := Without(s.requests, Stale(s.requests, now - REPLAY_WINDOW));
    AgeStep(s.requests, now);
    var capped := Without(recent, OverTokenCap(recent));
    TokenStep(recent, FreshEntries(s.requests, now));
    assert RoutineEntries(capped) == CappedEntries(s.requests, now);
    EntriesOrdered(s.requests, CappedEntries(s.requests, now));
    GlobalStep(capped, CappedEntries(s.requests, now));
  }

  /** Whether skipped or not, it never removes or changes a pending, failed, wake or tps row. */
  lemma RetentionKeepsOthers(s: Store, now: int)
    ensures Pruned(s, now).requests.Keys <= s.requests.Keys
    ensures forall k :: k in Pruned(s, now).requests ==> Pruned(s, now).requests[k] == s.requests[k]
    ensures forall k :: k in s.requests && !Routine(s.requests[k]) ==> k in Pruned(s, now).requests
  {
    var recent := Without(s.requests, Stale(s.requests, now - REPLAY_WINDOW));
    WithoutKeeps(s.requests, Stale(s.requests, now - REPLAY_WINDOW));
    var capped := Without(recent, OverTokenCap(recent));
    WithoutKeeps(recent, OverTokenCap(recent));
    WithoutKeeps(capped, Excess(capped));
  }

  lemma RetentionIsBounded(s: Store, now: int, token: nat)
    requires UniqueRows(s.requests)
    ensures |KeptEntries(s.requests, now)| <= GLOBAL_CAP
    ensures |OfToken(KeptEntries(s.requests, now), token)| <= PER_TOKEN_CAP
  {
    var recent, capped := FreshEntries(s.requests, now), CappedEntries(s.requests, now);
    EntriesOrdered(s.requests, capped);
    NewestCount(Newer, capped, GLOBAL_CAP);
    EntriesOrdered(s.requests, OfToken(recent, token));
    NewestCount(Newer, OfToken(recent, token), PER_TOKEN_CAP);
    var mine := OfToken(KeptEntries(s.requests, now), token);
    assert mine <= Newest(Newer, OfToken(recent, token), PER_TOKEN_CAP);
    CardinalityMonotone(mine, Newest(Newer, OfToken(recent, token), PER_TOKEN_CAP));
  }

  // ---------- retention, row by row ----------

  /** The successful status rows of the last ten minutes. */
  function FreshKeys(requests: map<Key, Row>, now: int): set<Key> {
    set k | k in requests && requests[k].request.kind.Status? && requests[k].completed && requests[k].successful
      && now - 600 <= requests[k].created
  }

  /** Which of `keys` are of a later row than `k`'s. */
  function Later(requests: map<Key, Row>, keys: set<Key>, k: Key): set<Key>
    requires keys <= requests.Keys && k in requests
  {
    set l | l in keys && (requests[l].created > requests[k].created
                          || (requests[l].created == requests[k].created && requests[l].rowid > requests[k].rowid))
  }

  function SameToken(keys: set<Key>, token: nat): set<Key> {
    set k {:trigger k in keys} | k in keys && k.token == token
  }

  /** Of those, the newest 128 of every token. */
  function CappedKeys(requests: map<Key, Row>, now: int): set<Key> {
    var recent := FreshKeys(requests, now);
    set k | k in recent && |Later(requests, SameToken(recent, k.token), k)| < 128
  }

  function KeysOf(entries: set<Entry>): set<Key> { set x | x in entries :: x.key }

  lemma {:induction false} AsManyKeys(requests: map<Key, Row>, entries: set<Entry>)
    requires entries <= RoutineEntries(requests)
    ensures |KeysOf(entries)| == |entries|
  {
    if entries != {} {
      var x := Member(entries);
      AsManyKeys(requests, entries - {x});
      forall y | y in entries && y != x ensures y.key != x.key {
        assert y in RoutineEntries(requests) && x in RoutineEntries(requests);
      }
      assert KeysOf(entries) == KeysOf(entries - {x}) + {x.key};
    }
  }

  lemma LaterIsAbove(requests: map<Key, Row>, entries: set<Entry>, k: Key)
    requires entries <= RoutineEntries(requests) && k in requests
    ensures KeysOf(entries) <= requests.Keys
    ensures |Later(requests, KeysOf(entries), k)| == |Above(Newer, entries, EntryOf(requests, k))|
  {
    var x := EntryOf(requests, k);
    forall y | y in entries ensures y.key in requests && y == EntryOf(requests, y.key) {
      assert y in RoutineEntries(requests);
    }
    assert Later(requests, KeysOf(entries), k) == KeysOf(Above(Newer, entries, x));
    AsManyKeys(requests, Above(Newer, entries, x));
  }

  lemma FreshAgree(requests: map<Key, Row>, now: int)
    ensures KeysOf(FreshEntries(requests, now)) == FreshKeys(requests, now)
  {
    forall k | k in FreshKeys(requests, now) ensures k in KeysOf(FreshEntries(requests, now)) {
      assert EntryOf(requests, k) in RoutineEntries(requests);
    }
  }

  lemma CappedAgree(requests: map<Key, Row>, now: int)
    ensures KeysOf(CappedEntries(requests, now)) == CappedKeys(requests, now)
  {
    FreshAgree(requests, now);
    var recent := FreshEntries(requests, now);
    forall k | k in FreshKeys(requests, now)
      ensures k in CappedKeys(requests, now) <==> EntryOf(requests, k) in CappedEntries(requests, now)
    {
      assert EntryOf(requests, k) in RoutineEntries(requests);
      assert KeysOf(OfToken(recent, k.token)) == SameToken(FreshKeys(requests, now), k.token);
      LaterIsAbove(requests, OfToken(recent, k.token), k);
    }
    forall x | x in recent ensures x == EntryOf(requests, x.key) { assert x in RoutineEntries(requests); }
  }

  /** A retention pass, which is skipped within a minute of the last one, removes a row exactly when it
      is a completed, successful status row that is older than ten minutes, or not among the newest 128
      of its token, or not among the newest 4096 of those; it changes no row. */
  lemma RetentionByRow(s: Store, now: int, k: Key)
    requires UniqueRows(s.requests) && k in s.requests
    ensures CappedKeys(s.requests, now) <= s.requests.Keys
    ensures k in Pruned(s, now).requests <==>
      var row := s.requests[k];
      s.lastPruned + 60 <= now && row.request.kind.Status? && row.completed && row.successful ==>
        k in CappedKeys(s.requests, now) && |Later(s.requests, CappedKeys(s.requests, now), k)| < 4096
    ensures k in Pruned(s, now).requests ==> Pruned(s, now).requests[k] == s.requests[k]
    ensures Pruned(s, now).lastPruned == if s.lastPruned + 60 <= now then now else s.lastPruned
  {
    var row, x, after := s.requests[k], EntryOf(s.requests, k), Pruned(s, now).requests;
    RetentionKeepsOthers(s, now);
    CappedAgree(s.requests, now);
    if Routine(row) && s.lastPruned + 60 <= now {
      RetentionIsExact(s, now);
      assert x in RoutineEntries(s.requests);
      KeptIsEntry(s, now, k);
      forall y | y in CappedEntries(s.requests, now) ensures y == EntryOf(s.requests, y.key) {
        assert y in RoutineEntries(s.requests);
      }
      LaterIsAbove(s.requests, CappedEntries(s.requests, now), k);
    }
  }

  lemma KeptIsEntry(s: Store, now: int, k: Key)
    requires k in s.requests && Routine(s.requests[k])
    ensures k in Pruned(s, now).requests <==> EntryOf(s.requests, k) in RoutineEntries(Pruned(s, now).requests)
  {
    RetentionKeepsOthers(s, now);
    var after := Pruned(s, now).requests;
    if k in after {
      assert after[k] == s.requests[k];
      assert EntryOf(after, k) in RoutineEntries(after);
    }
  }
}
