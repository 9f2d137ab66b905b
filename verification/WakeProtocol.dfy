/** Clients, a lossy network and the capability service together
    (`CapabilityService.handle` and the wake path of `_dispatch` in src/game_control/capability.py,
    `LazyWakeClient.wake_and_wait` in src/game_control/lazymc.py).

    `begin` and `complete` are atomic; dispatch interleaves between them.  A run is any sequence of
    events, so requests may be repeated, delayed and lost, replies may be lost or arrive late, and
    the server may stop at any point, forgetting its tasks but not its tables. */
module WakeProtocol {
  import opened Capability
  import opened RateLimit
  import opened Wrappers

  datatype Stage = Preflight | Started

  /** A request that `begin` accepted and that is being dispatched. */
  datatype Task = Task(key: Key, request: Request, stage: Stage)

  datatype Reply = Reply(key: Key, status: nat, body: Response)

  datatype ClientState = Waiting | Returned | Failed

  /** One call of `wake_and_wait`, which uses one request id for all its attempts. */
  datatype Client = Client(key: Key, state: ClientState)

  datatype System = System(store: Store, clock: int, tasks: map<nat, Task>, starts: seq<Key>, replies: set<Reply>,
                           clients: map<nat, Client>, grants: map<nat, seq<Grant>>, wakes: map<nat, seq<int>>)

  datatype Event =
    | Tick(now: int)
    | Issue(token: nat, budget: nat, window: int, cooldown: int, ttl: int)
    | Revoke(token: nat)
    | Arrive(task: nat, token: nat, request: Request)
    | CallStart(task: nat)
    | Finish(task: nat, response: Response)
    | ServerStops
    | Ask(client: nat, key: Key)
    | Receive(client: nat, reply: Reply)

  /** What a dispatch of this kind can answer. */
  predicate FitsKind(kind: Kind, response: Response) {
    if kind.Wake? then !response.Body? else !response.Ready?
  }

  /** The HTTP status of a refusal, and whether it may be retried. */
  function RefusalStatus(code: string): nat {
    if code in {"wake_cooldown", "rate_window_exhausted"} then 429
    else if code in {"request_id_conflict", "request_in_progress"} then 409
    else 401
  }

  predicate RefusalIsRetryable(code: string) {
    code in {"wake_cooldown", "rate_window_exhausted", "request_in_progress"}
  }

  /** `handle` up to the dispatch: a replay and a refusal answer at once. */
  function Arrived(s: System, task: nat, token: nat, request: Request): System {
    var k := Key(token, request.id);
    match Begin(s.store, token, request, s.clock)
    case (store, Replay(body)) => s.(store := store, replies := s.replies + {Reply(k, 200, body)})
    case (store, Refused(code)) =>
      var reply := Reply(k, RefusalStatus(code), Error(code, RefusalIsRetryable(code)));
      s.(store := store, replies := s.replies + {reply})
    case (store, Accepted) =>
      if token !in store.tokens || token !in s.grants || token !in s.wakes then s else
      s.(store := store,
         tasks := s.tasks[task := Task(k, request, Preflight)],
         grants := if request.kind.Wake? then s.grants
                   else s.grants[token := s.grants[token] + [Grant(s.clock, store.tokens[token].start)]],
         wakes := if request.kind.Wake? then s.wakes[token := s.wakes[token] + [s.clock]] else s.wakes)
  }

  /** The rest of `handle`: complete, then answer. */
  function Finished(s: System, task: nat, response: Response): System
    requires task in s.tasks
  {
    var t := s.tasks[task];
    var ok := !response.Error?;
    s.(store := Complete(s.store, t.key, response, ok, s.clock),
       tasks := s.tasks - {task},
       replies := s.replies + {Reply(t.key, if ok then 200 else if response.retryable then 503 else 400, response)})
  }

  /** One attempt of the client: no usable answer, or a decoded body. */
  datatype Attempt = NoAnswer(retryable: bool) | Answer(body: Response)

  /** The client's HTTP layer turns every error status into a retryable failure. */
  function Received(reply: Reply): Attempt {
    if reply.status == 200 then Answer(reply.body) else NoAnswer(true)
  }

  datatype Verdict = Retry | Woken | Rejected

  /** What `wake_and_wait` makes of one attempt: a body is decisive unless it says that the request is
      still in progress. */
  function Judge(a: Attempt): Verdict {
    match a
    case NoAnswer(retryable) => if retryable then Retry else Rejected
    case Answer(body) =>
      if body.Ready? then Woken else if body == Error("request_in_progress", true) then Retry else Rejected
  }

  function Heard(c: Client, reply: Reply): Client {
    match Judge(Received(reply))
    case Retry => c
    case Woken => c.(state := Returned)
    case Rejected => c.(state := Failed)
  }

  function Next(s: System, e: Event): System {
    match e
    case Tick(now) => if s.clock <= now then s.(clock := now) else s
    case Issue(token, budget, window, cooldown, ttl) =>
      if token in s.store.tokens || budget < 1 || window < 1 || cooldown < 0 then s
      else s.(store := s.store.(tokens := s.store.tokens[token :=
                Token(budget, window, cooldown, s.clock + ttl, false, s.clock, 0, None)]),
              grants := s.grants[token := []], wakes := s.wakes[token := []])
    case Revoke(token) =>
      if token !in s.store.tokens then s
      else s.(store := s.store.(tokens := s.store.tokens[token := s.store.tokens[token].(revoked := true)]))
    case Arrive(task, token, request) => if task in s.tasks then s else Arrived(s, task, token, request)
    case CallStart(task) =>
      if task in s.tasks && s.tasks[task].request.kind.Wake? && s.tasks[task].stage.Preflight?
      then s.(tasks := s.tasks[task := s.tasks[task].(stage := Started)], starts := s.starts + [s.tasks[task].key])
      else s
    case Finish(task, response) =>
      if task in s.tasks && FitsKind(s.tasks[task].request.kind, response) then Finished(s, task, response) else s
    case ServerStops => s.(tasks := map[])
    case Ask(client, key) => if client in s.clients then s else s.(clients := s.clients[client := Client(key, Waiting)])
    case Receive(client, reply) =>
      if client in s.clients && s.clients[client].state.Waiting? && reply in s.replies
        && reply.key == s.clients[client].key
      then s.(clients := s.clients[client := Heard(s.clients[client], reply)])
      else s
  }

  function Initial(clock: int): System {
    System(Store(map[], map[], 0, 0), clock, map[], [], {}, map[], map[], map[])
  }

  function Run(s: System, events: seq<Event>): System {
    if events == [] then s else Next(Run(s, events[..|events| - 1]), events[|events| - 1])
  }

  // ---------- the request table ----------

  predicate IsWake(store: Store, k: Key) {
    k in store.requests && store.requests[k].request.kind.Wake?
  }

  /** The store holds a completed ready response. */
  predicate HoldsReady(store: Store, k: Key) {
    IsWake(store, k) && store.requests[k].completed && store.requests[k].response.Some?
      && store.requests[k].response.value.Ready?
  }

  predicate TableOk(store: Store) {
    && UniqueRows(store.requests)
    && (forall k :: k in store.requests ==> RowOk(store.requests[k], store.nextRow))
  }

  predicate RowOk(row: Row, nextRow: nat) {
    && row.rowid < nextRow
    && (row.completed ==> row.response.Some? && FitsKind(row.request.kind, row.response.value))
  }

  predicate Pending(store: Store, t: Task) {
    t.key in store.requests && !store.requests[t.key].completed && store.requests[t.key].request == t.request
  }

  predicate TasksOk(s: System) {
    && (forall i :: i in s.tasks ==> Pending(s.store, s.tasks[i]))
    && (forall i, j :: i in s.tasks && j in s.tasks && s.tasks[i].key == s.tasks[j].key ==> i == j)
  }

  predicate StartsOk(s: System) {
    && (forall i, j :: 0 <= i < j < |s.starts| ==> s.starts[i] != s.starts[j])
    && (forall k :: k in s.starts ==> IsWake(s.store, k))
    && (forall i :: i in s.tasks && s.tasks[i].stage.Preflight? ==> s.tasks[i].key !in s.starts)
  }

  predicate AnswersOk(s: System) {
    && (forall r :: r in s.replies && r.status == 200 && r.body.Ready? ==> HoldsReady(s.store, r.key))
    && (forall c :: c in s.clients && s.clients[c].state.Returned? ==> HoldsReady(s.store, s.clients[c].key))
  }

  /** What a step of the store never takes back: a wake row stays, and a ready answer stays. */
  ghost predicate Keeps(before: Store, after: Store) {
    && (forall k :: IsWake(before, k) ==> IsWake(after, k))
    && (forall k :: HoldsReady(before, k) ==> HoldsReady(after, k))
  }

  /** An accepted request had no row, or an expired status row. */
  lemma BeginKeeps(store: Store, token: nat, request: Request, now: int)
    requires TableOk(store)
    ensures var (after, out) := Begin(store, token, request, now);
      && TableOk(after) && Keeps(store, after)
      && (forall k :: k in store.requests && !store.requests[k].completed ==>
            k in after.requests && after.requests[k] == store.requests[k])
      && (out.Accepted? ==> Pending(after, Task(Key(token, request.id), request, Preflight)))
      && (out.Accepted? ==> !IsWake(store, Key(token, request.id)))
      && (out.Accepted? ==> Key(token, request.id) in store.requests ==>
        store.requests[Key(token, request.id)].completed)
      && (out.Replay? && out.response.Ready? ==> HoldsReady(after, Key(token, request.id)))
  {
  }

  lemma CompleteKeeps(store: Store, t: Task, response: Response, now: int)
    requires TableOk(store) && Pending(store, t) && FitsKind(t.request.kind, response)
    ensures var after := Complete(store, t.key, response, !response.Error?, now);
      && TableOk(after) && Keeps(store, after)
      && (forall k :: k in store.requests && !store.requests[k].completed && k != t.key ==>
            k in after.requests && after.requests[k] == store.requests[k])
      && (response.Ready? ==> HoldsReady(after, t.key))
  {
    var mid := Completed(store, t.key, response, !response.Error?);
    assert TableOk(mid);
    RetentionKeepsOthers(mid, now);
  }

  // ---------- the limiter ----------

  predicate TokenOk(t: Token, clock: int) {
    && t.budget >= 1 && t.cooldown >= 0 && t.start <= clock && (t.lastWake.Some? ==> t.lastWake.value <= clock)
  }

  ghost predicate HistoryOk(s: System, token: nat)
    requires token in s.store.tokens
  {
    && token in s.grants && token in s.wakes
    && TokenOk(s.store.tokens[token], s.clock)
    && RateOk(s.store.tokens[token], s.grants[token], s.clock)
    && WakesOk(s.store.tokens[token], s.wakes[token], s.clock)
  }

  ghost predicate LimitsOk(s: System) {
    forall token :: token in s.store.tokens ==> HistoryOk(s, token)
  }

  // ---------- every run ----------

  ghost predicate Inv(s: System) {
    TablesOk(s) && LimitsOk(s)
  }

  lemma ArriveKeepsTable(s: System, task: nat, token: nat, request: Request)
    requires TableOk(s.store) && TasksOk(s) && StartsOk(s) && AnswersOk(s) && task !in s.tasks
    ensures var n := Arrived(s, task, token, request);
      TableOk(n.store) && TasksOk(n) && StartsOk(n) && AnswersOk(n)
  {
    BeginKeeps(s.store, token, request, s.clock);
    var k := Key(token, request.id);
    var n := Arrived(s, task, token, request);
    forall i | i in s.tasks ensures Pending(n.store, s.tasks[i]) { assert Pending(s.store, s.tasks[i]); }
    if n.tasks != s.tasks {
      assert k !in s.starts;
      forall i | i in s.tasks ensures s.tasks[i].key != k { assert Pending(s.store, s.tasks[i]); }
    }
  }

  lemma FinishKeepsTable(s: System, task: nat, response: Response)
    requires TableOk(s.store) && TasksOk(s) && StartsOk(s) && AnswersOk(s)
    requires task in s.tasks && FitsKind(s.tasks[task].request.kind, response)
    ensures var n := Finished(s, task, response);
      TableOk(n.store) && TasksOk(n) && StartsOk(n) && AnswersOk(n)
  {
    var t := s.tasks[task];
    CompleteKeeps(s.store, t, response, s.clock);
    var n := Finished(s, task, response);
    forall i | i in n.tasks ensures Pending(n.store, n.tasks[i]) {
      assert Pending(s.store, s.tasks[i]) && s.tasks[i].key != t.key;
    }
  }

  lemma BeginTokens(store: Store, token: nat, request: Request, now: int)
    ensures var (after, out) := Begin(store, token, request, now);
      && (!out.Accepted? ==> after.tokens == store.tokens)
      && (out.Accepted? ==>
            && token in store.tokens && Consumed(store.tokens[token], request.kind, now).Some?
            && after.tokens == store.tokens[token := Consumed(store.tokens[token], request.kind, now).value])
  {
  }

  /** The history of the token whose request was accepted. */
  lemma AcceptedKeepsHistory(s: System, task: nat, token: nat, request: Request)
    requires token in s.store.tokens && HistoryOk(s, token) && Begin(s.store, token, request, s.clock).1.Accepted?
    ensures var n := Arrived(s, task, token, request); token in n.store.tokens && HistoryOk(n, token)
  {
    BeginTokens(s.store, token, request, s.clock);
    var t := s.store.tokens[token];
    if request.kind.Wake? {
      WakeKeepsApart(t, s.wakes[token], s.clock, s.clock);
    } else {
      GrantKeepsRate(t, request.kind, s.grants[token], s.clock, s.clock);
    }
  }

  lemma OthersKeepHistory(s: System, task: nat, token: nat, request: Request, other: nat)
    requires other in s.store.tokens && HistoryOk(s, other)
    requires other != token || !Begin(s.store, token, request, s.clock).1.Accepted?
    ensures var n := Arrived(s, task, token, request); other in n.store.tokens && HistoryOk(n, other)
  {
    BeginTokens(s.store, token, request, s.clock);
  }

  lemma ArriveKeepsLimits(s: System, task: nat, token: nat, request: Request)
    requires LimitsOk(s)
    ensures LimitsOk(Arrived(s, task, token, request))
  {
    BeginTokens(s.store, token, request, s.clock);
    var n := Arrived(s, task, token, request);
    forall other | other in n.store.tokens ensures HistoryOk(n, other) {
      assert HistoryOk(s, other);
      if other == token && Begin(s.store, token, request, s.clock).1.Accepted? {
        AcceptedKeepsHistory(s, task, token, request);
      } else {
        OthersKeepHistory(s, task, token, request, other);
      }
    }
  }

  lemma NewTokenHistory(clock: int, t: Token)
    requires t.budget >= 1 && t.window >= 1 && t.cooldown >= 0 && t.start == clock && t.used == 0 && t.lastWake.None?
    ensures TokenOk(t, clock) && RateOk(t, [], clock) && WakesOk(t, [], clock)
  {
    forall w ensures |InWindow([], w)| <= t.budget { assert InWindow([], w) == {}; }
    assert InWindow([], t.start) == {};
  }

  lemma HistoryStays(t: Token, u: Token, log: seq<Grant>, wakes: seq<int>, clock: int, now: int)
    requires TokenOk(t, clock) && RateOk(t, log, clock) && WakesOk(t, wakes, clock) && clock <= now
    requires u == t || u == t.(revoked := true)
    ensures TokenOk(u, now) && RateOk(u, log, now) && WakesOk(u, wakes, now)
  {
  }

  lemma OldTokenHistory(s: System, e: Event, token: nat)
    requires token in s.store.tokens && HistoryOk(s, token) && (e.Tick? || e.Issue? || e.Revoke?)
    ensures var n := Next(s, e); token in n.store.tokens && HistoryOk(n, token)
  {
    var n := Next(s, e);
    HistoryStays(s.store.tokens[token], n.store.tokens[token], s.grants[token], s.wakes[token], s.clock, n.clock);
  }

  lemma TokenStepsKeepLimits(s: System, e: Event)
    requires LimitsOk(s) && (e.Tick? || e.Issue? || e.Revoke?)
    ensures LimitsOk(Next(s, e))
  {
    var n := Next(s, e);
    forall token | token in n.store.tokens ensures HistoryOk(n, token) {
      if token in s.store.tokens {
        assert HistoryOk(s, token);
        OldTokenHistory(s, e, token);
      } else {
        NewTokenHistory(s.clock, n.store.tokens[token]);
      }
    }
  }

  lemma CompleteTokens(store: Store, k: Key, response: Response, ok: bool, now: int)
    ensures Complete(store, k, response, ok, now).tokens == store.tokens
  {
  }

  lemma SameLimits(s: System, n: System)
    requires LimitsOk(s) && n.store.tokens == s.store.tokens && n.grants == s.grants && n.wakes == s.wakes
      && n.clock == s.clock
    ensures LimitsOk(n)
  {
    forall token | token in n.store.tokens ensures HistoryOk(n, token) { assert HistoryOk(s, token); }
  }

  lemma StepKeepsLimits(s: System, e: Event)
    requires LimitsOk(s)
    ensures LimitsOk(Next(s, e))
  {
    var n := Next(s, e);
    if e.Tick? || e.Issue? || e.Revoke? {
      TokenStepsKeepLimits(s, e);
    } else if e.Arrive? {
      ArriveKeepsLimits(s, e.task, e.token, e.request);
    } else {
      if e.Finish? && e.task in s.tasks {
        CompleteTokens(s.store, s.tasks[e.task].key, e.response, !e.response.Error?, s.clock);
      }
      SameLimits(s, n);
    }
  }

  predicate TablesOk(s: System) {
    TableOk(s.store) && TasksOk(s) && StartsOk(s) && AnswersOk(s)
  }

  lemma StartKeepsTables(s: System, task: nat)
    requires TablesOk(s)
    ensures TablesOk(Next(s, CallStart(task)))
  {
    var n := Next(s, CallStart(task));
    if n != s {
      var k := s.tasks[task].key;
      assert Pending(s.store, s.tasks[task]);
      forall i | i in n.tasks && n.tasks[i].stage.Preflight? ensures n.tasks[i].key !in n.starts {
        assert i != task && s.tasks[i].key != k;
      }
      forall i | i in n.tasks ensures Pending(n.store, n.tasks[i]) { assert Pending(s.store, s.tasks[i]); }
    }
  }

  /** Tokens, limits and the clock do not matter to the tables, and stopping forgets tasks only. */
  lemma SameTables(s: System, n: System)
    requires TablesOk(s) && n.store.requests == s.store.requests && n.store.nextRow == s.store.nextRow
    requires (n.tasks == s.tasks || n.tasks == map[]) && n.starts == s.starts && n.replies == s.replies
      && n.clients == s.clients
    ensures TablesOk(n)
  {
    forall i | i in n.tasks ensures Pending(n.store, n.tasks[i]) { assert Pending(s.store, s.tasks[i]); }
    forall k ensures IsWake(n.store, k) == IsWake(s.store, k) && HoldsReady(n.store, k) == HoldsReady(s.store, k) {}
  }

  lemma ClientStepsKeepTables(s: System, e: Event)
    requires TablesOk(s) && (e.Ask? || e.Receive?)
    ensures TablesOk(Next(s, e))
  {
    var n := Next(s, e);
    assert n == s.(clients := n.clients);
    assert AnswersOk(n);
  }

  lemma TimeStepsKeepTables(s: System, e: Event)
    requires TablesOk(s) && (e.Tick? || e.ServerStops?)
    ensures TablesOk(Next(s, e))
  {
    SameTables(s, Next(s, e));
  }

  lemma TokenStepsKeepTables(s: System, e: Event)
    requires TablesOk(s) && (e.Issue? || e.Revoke?)
    ensures TablesOk(Next(s, e))
  {
    SameTables(s, Next(s, e));
  }

  lemma RequestStepsKeepTables(s: System, e: Event)
    requires TablesOk(s) && (e.Arrive? || e.Finish?)
    ensures TablesOk(Next(s, e))
  {
    if e.Arrive? {
      if e.task !in s.tasks { ArriveKeepsTable(s, e.task, e.token, e.request); }
    } else if e.task in s.tasks && FitsKind(s.tasks[e.task].request.kind, e.response) {
      FinishKeepsTable(s, e.task, e.response);
    }
  }

  lemma StepKeepsTables(s: System, e: Event)
    requires TablesOk(s)
    ensures TablesOk(Next(s, e))
  {
    if e.Tick? || e.ServerStops? {
      TimeStepsKeepTables(s, e);
    } else if e.Issue? || e.Revoke? {
      TokenStepsKeepTables(s, e);
    } else if e.Ask? || e.Receive? {
      ClientStepsKeepTables(s, e);
    } else if e.CallStart? {
      StartKeepsTables(s, e.task);
    } else {
      RequestStepsKeepTables(s, e);
    }
  }

  /** Every step keeps the invariant. */
  lemma StepKeepsInv(s: System, e: Event)
    requires Inv(s)
    ensures Inv(Next(s, e))
  {
    assert TablesOk(Next(s, e)) by { StepKeepsTables(s, e); }
    assert LimitsOk(Next(s, e)) by { StepKeepsLimits(s, e); }
  }

  lemma {:induction false} RunKeepsInv(clock: int, events: seq<Event>)
    ensures Inv(Run(Initial(clock), events))
  {
    if events != [] {
      RunKeepsInv(clock, events[..|events| - 1]);
      StepKeepsInv(Run(Initial(clock), events[..|events| - 1]), events[|events| - 1]);
    }
  }

  function StartsOf(starts: seq<Key>, k: Key): set<int> {
    set i | 0 <= i < |starts| && starts[i] == k
  }

  /** Over every run, at most one Start call is issued for a token and wake request id. */
  lemma AtMostOneStart(clock: int, events: seq<Event>, k: Key)
    ensures |StartsOf(Run(Initial(clock), events).starts, k)| <= 1
  {
    RunKeepsInv(clock, events);
    var starts := Run(Initial(clock), events).starts;
    var at := StartsOf(starts, k);
    if at != {} {
      var i: int :| i in at;
      assert at == {i};
    }
  }

  /** Over every run, `wake_and_wait` returns normally only if the store holds a completed ready
      response for its request id. */
  lemma ReturnsOnlyWhenReady(clock: int, events: seq<Event>, c: nat)
    requires c in Run(Initial(clock), events).clients && Run(Initial(clock), events).clients[c].state.Returned?
    ensures HoldsReady(Run(Initial(clock), events).store, Run(Initial(clock), events).clients[c].key)
  {
    RunKeepsInv(clock, events);
  }

  /** Over every run, each rate window holds at most the budget, any closed interval of one window
      length holds at most twice the budget, and newly accepted wakes are a cooldown apart. */
  lemma LimitsHold(clock: int, events: seq<Event>, token: nat, from: int)
    requires token in Run(Initial(clock), events).store.tokens
    ensures var s := Run(Initial(clock), events);
      var t := s.store.tokens[token];
      && token in s.grants && token in s.wakes
      && |InInterval(s.grants[token], from, t.window)| <= 2 * t.budget
      && |InWindow(s.grants[token], from)| <= t.budget
      && forall i, j :: 0 <= i < j < |s.wakes[token]| ==> s.wakes[token][j] - s.wakes[token][i] >= t.cooldown
  {
    RunKeepsInv(clock, events);
    var s := Run(Initial(clock), events);
    assert HistoryOk(s, token);
    AtMostTwiceTheBudget(s.store.tokens[token], s.grants[token], s.clock, from);
  }

  /** Over every run, a reply that wakes a client is backed by the store. */
  lemma WakingReplyIsBacked(clock: int, events: seq<Event>, reply: Reply)
    requires reply in Run(Initial(clock), events).replies && Judge(Received(reply)).Woken?
    ensures HoldsReady(Run(Initial(clock), events).store, reply.key)
  {
    RunKeepsInv(clock, events);
  }
}
