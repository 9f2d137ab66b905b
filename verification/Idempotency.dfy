/** What a request id means over a whole run of the capability service (`begin` and `complete` in
    src/game_control/capability.py).

    The meaning is read off the run itself: an id is admitted when a task for it appears, and answered
    when that task finishes. */
module Idempotency {
  import opened Capability
  import opened RateLimit
  import opened WakeProtocol
  import opened Wrappers

  /** The last admission of an id: the request, when, and what its dispatch answered. */
  datatype Admission = Admission(request: Request, time: int, answer: Option<Response>)

  predicate Admits(s: System, e: Event, k: Key) {
    e.Arrive? && e.task !in s.tasks && e.task in Next(s, e).tasks && Next(s, e).tasks[e.task].key == k
  }

  predicate Answers(s: System, e: Event, k: Key) {
    e.Finish? && e.task in s.tasks && e.task !in Next(s, e).tasks && s.tasks[e.task].key == k
  }

  function LastAdmission(clock: int, events: seq<Event>, k: Key): Option<Admission> {
    if events == [] then None
    else
      var before, e := events[..|events| - 1], events[|events| - 1];
      var s, last := Run(Initial(clock), before), LastAdmission(clock, before, k);
      if Admits(s, e, k) then Some(Admission(e.request, s.clock, None))
      else if Answers(s, e, k) && last.Some? then Some(last.value.(answer := Some(e.response)))
      else last
  }

  /** What is kept of an answer: an oversized body is replaced by an error. */
  function Kept(answer: Response): Response {
    if answer.Body? && answer.bytes > 64 * 1024 then Error("response_too_large", false) else answer
  }

  /** A successful status answer is kept for ten minutes after the admission. */
  predicate Expired(a: Admission, now: int) {
    a.request.kind.Status? && a.answer.Some? && !Kept(a.answer.value).Error? && a.time + 600 <= now
  }

  /** A row says exactly what its admission says. */
  predicate RowTells(row: Row, a: Admission) {
    && row.request == a.request && row.created == a.time
    && (row.completed <==> a.answer.Some?)
    && row.response == (if a.answer.Some? then Some(Kept(a.answer.value)) else None)
    && row.successful == (a.answer.Some? && !Kept(a.answer.value).Error?)
  }

  predicate TableTells(store: Store, k: Key, last: Option<Admission>) {
    k in store.requests ==> last.Some? && RowTells(store.requests[k], last.value)
  }

  lemma BeginTells(store: Store, token: nat, request: Request, now: int, k: Key, last: Option<Admission>)
    requires TableTells(store, k, last)
    ensures var (after, out) := Begin(store, token, request, now);
      TableTells(after, k,
                 if out.Accepted? && k == Key(token, request.id) then Some(Admission(request, now, None)) else last)
  {
  }

  /** A request is admitted when `begin` accepts it. */
  lemma AdmittedWhenAccepted(s: System, e: Event, k: Key)
    requires e.Arrive? && e.task !in s.tasks && LimitsOk(s)
    ensures var (after, out) := Begin(s.store, e.token, e.request, s.clock);
      && (Admits(s, e, k) <==> out.Accepted? && k == Key(e.token, e.request.id))
      && Next(s, e).store == after
  {
    BeginTokens(s.store, e.token, e.request, s.clock);
    if e.token in s.store.tokens { assert HistoryOk(s, e.token); }
  }

  lemma ArrivalTells(s: System, e: Event, k: Key, last: Option<Admission>)
    requires TableTells(s.store, k, last) && e.Arrive? && LimitsOk(s)
    ensures TableTells(Next(s, e).store, k, if Admits(s, e, k) then Some(Admission(e.request, s.clock, None)) else last)
  {
    if e.task !in s.tasks {
      BeginTells(s.store, e.token, e.request, s.clock, k, last);
      AdmittedWhenAccepted(s, e, k);
    }
  }

  lemma AnswerTells(s: System, e: Event, k: Key, last: Option<Admission>)
    requires TablesOk(s) && TableTells(s.store, k, last) && e.Finish? && Next(s, e) != s
    ensures TableTells(Next(s, e).store, k,
                       if Answers(s, e, k) && last.Some? then Some(last.value.(answer := Some(e.response))) else last)
  {
    var t := s.tasks[e.task];
    assert Pending(s.store, t);
    var mid := Completed(s.store, t.key, e.response, !e.response.Error?);
    RetentionKeepsOthers(mid, s.clock);
  }

  lemma StepTells(s: System, e: Event, k: Key, last: Option<Admission>)
    requires Inv(s) && TableTells(s.store, k, last)
    ensures TableTells(Next(s, e).store, k,
      if Admits(s, e, k) then Some(Admission(e.request, s.clock, None))
      else if Answers(s, e, k) && last.Some? then Some(last.value.(answer := Some(e.response)))
      else last)
  {
    if e.Arrive? {
      ArrivalTells(s, e, k, last);
    } else if e.Finish? && Next(s, e) != s {
      AnswerTells(s, e, k, last);
    }
  }

  /** Over every run, every row of the table says what its last admission says. */
  lemma {:induction false} RunTells(clock: int, events: seq<Event>, k: Key)
    ensures TableTells(Run(Initial(clock), events).store, k, LastAdmission(clock, events, k))
  {
    if events != [] {
      var before, e := events[..|events| - 1], events[|events| - 1];
      RunTells(clock, before, k);
      RunKeepsInv(clock, before);
      StepTells(Run(Initial(clock), before), e, k, LastAdmission(clock, before, k));
    }
  }

  predicate Active(s: System, token: nat) {
    token in s.store.tokens && !s.store.tokens[token].revoked && s.clock < s.store.tokens[token].expires
  }

  /** The idempotency law.  Over every run, while an id has a row: a different request is refused as a
      conflict, the same request waits for the answer of its admission, and from then on gets exactly
      that answer until it expires; none of this changes anything but the replies. */
  lemma SameIdSameAnswer(clock: int, events: seq<Event>, task: nat, token: nat, request: Request)
    requires var s := Run(Initial(clock), events);
      task !in s.tasks && Active(s, token) && Key(token, request.id) in s.store.requests
    ensures var s, k := Run(Initial(clock), events), Key(token, request.id);
      var n := Next(s, Arrive(task, token, request));
      && LastAdmission(clock, events, k).Some?
      && var a := LastAdmission(clock, events, k).value;
      && (request != a.request ==> n == s.(replies := s.replies + {Reply(k, 409, Error("request_id_conflict", false))}))
      && (request == a.request && a.answer.None? ==>
            n == s.(replies := s.replies + {Reply(k, 409, Error("request_in_progress", true))}))
      && (request == a.request && a.answer.Some? && !Expired(a, s.clock) ==>
            n == s.(replies := s.replies + {Reply(k, 200, Kept(a.answer.value))}))
  {
    RunTells(clock, events, Key(token, request.id));
  }

  /** Without a row in the way, the limiter decides. */
  lemma FreshBegin(store: Store, token: nat, request: Request, now: int)
    requires token in store.tokens && !store.tokens[token].revoked && now < store.tokens[token].expires
    requires var k := Key(token, request.id);
      k in store.requests ==>
        && store.requests[k].request == request && store.requests[k].response.Some?
        && ReplayExpired(store.requests[k], now)
    ensures var out := Begin(store, token, request, now).1;
      out == if Consumed(store.tokens[token], request.kind, now).Some? then Accepted
             else Refused(if request.kind.Wake? then "wake_cooldown" else "rate_window_exhausted")
  {
  }

  lemma LimitDecides(t: Token, kind: Kind, log: seq<Grant>, wakes: seq<int>, now: int)
    requires !t.revoked && now < t.expires && RateOk(t, log, now) && WakesOk(t, wakes, now)
    ensures Consumed(t, kind, now).Some? <==>
      if kind.Wake? then forall i :: 0 <= i < |wakes| ==> wakes[i] + t.cooldown <= now
      else t.start + t.window <= now || |InWindow(log, t.start)| < t.budget
  {
  }

  /** The answer to a request that no row is in the way of. */
  lemma FreshArrival(s: System, task: nat, token: nat, request: Request)
    requires LimitsOk(s) && task !in s.tasks && Active(s, token)
    requires Begin(s.store, token, request, s.clock).1 ==
      if Consumed(s.store.tokens[token], request.kind, s.clock).Some? then Accepted
      else Refused(if request.kind.Wake? then "wake_cooldown" else "rate_window_exhausted")
    ensures FreshAnswer(s, task, token, request)
  {
    var k := Key(token, request.id);
    assert HistoryOk(s, token);
    AdmittedWhenAccepted(s, Arrive(task, token, request), k);
    LimitDecides(s.store.tokens[token], request.kind, s.grants[token], s.wakes[token], s.clock);
  }

  /** The request is admitted exactly when its limit allows it, and otherwise told so. */
  predicate FreshAnswer(s: System, task: nat, token: nat, request: Request)
    requires token in s.store.tokens
  {
    var e, k, t := Arrive(task, token, request), Key(token, request.id), s.store.tokens[token];
    && token in s.grants && token in s.wakes
    && (Admits(s, e, k) <==>
          if request.kind.Wake?
          then forall i :: 0 <= i < |s.wakes[token]| ==> s.wakes[token][i] + t.cooldown <= s.clock
          else t.start + t.window <= s.clock || |InWindow(s.grants[token], t.start)| < t.budget)
    && (Admits(s, e, k) ==> Next(s, e).tasks == s.tasks[task := Task(k, request, Preflight)])
    && (!Admits(s, e, k) ==>
          var code := if request.kind.Wake? then "wake_cooldown" else "rate_window_exhausted";
          Next(s, e).replies == s.replies + {Reply(k, 429, Error(code, true))} && Next(s, e).tasks == s.tasks)
  }

  /** Over every run, a request whose id has no row, or an expired one, is admitted exactly when its
      limit allows it: a wake when every earlier admitted wake of the token is a cooldown ago, any other
      request when the token's rate window is over or holds fewer grants than the budget. */
  lemma FreshIdIsAdmittedExactly(clock: int, events: seq<Event>, task: nat, token: nat, request: Request)
    requires var s := Run(Initial(clock), events);
      && task !in s.tasks && Active(s, token)
      && (Key(token, request.id) in s.store.requests ==>
            var a := LastAdmission(clock, events, Key(token, request.id));
            a.Some? && request == a.value.request && Expired(a.value, s.clock))
    ensures FreshAnswer(Run(Initial(clock), events), task, token, request)
  {
    var s := Run(Initial(clock), events);
    RunKeepsInv(clock, events);
    RunTells(clock, events, Key(token, request.id));
    FreshBegin(s.store, token, request, s.clock);
    FreshArrival(s, task, token, request);
  }

  /** A request under a token that is unknown, revoked or expired changes nothing but the replies. */
  lemma InactiveTokenIsRefused(s: System, task: nat, token: nat, request: Request)
    requires task !in s.tasks && !Active(s, token)
    ensures var code := if token !in s.store.tokens then "invalid_token"
                        else if s.store.tokens[token].revoked then "token_revoked" else "token_expired";
      Next(s, Arrive(task, token, request)) ==
        s.(replies := s.replies + {Reply(Key(token, request.id), 401, Error(code, false))})
  {
  }

  /** What a token was issued with. */
  predicate SameTerms(t: Token, u: Token) {
    t.budget == u.budget && t.window == u.window && t.cooldown == u.cooldown && t.expires == u.expires
  }

  lemma StepKeepsToken(s: System, e: Event, token: nat)
    requires token in s.store.tokens
    ensures var n := Next(s, e);
      && token in n.store.tokens && s.clock <= n.clock && SameTerms(s.store.tokens[token], n.store.tokens[token])
      && n.store.tokens[token].revoked == (s.store.tokens[token].revoked || e == Revoke(token))
  {
    if e.Arrive? && e.task !in s.tasks {
      BeginTokens(s.store, e.token, e.request, s.clock);
    } else if e.Finish? && e.task in s.tasks {
      CompleteTokens(s.store, s.tasks[e.task].key, e.response, !e.response.Error?, s.clock);
    }
  }

  /** Over every run the terms of a token never change, and once it is revoked or expired it stays so:
      from then on nothing is admitted under it. */
  lemma {:induction false} InactiveForEver(clock: int, events: seq<Event>, more: seq<Event>, token: nat)
    requires token in Run(Initial(clock), events).store.tokens
    ensures var s, n := Run(Initial(clock), events), Run(Initial(clock), events + more);
      && token in n.store.tokens && s.clock <= n.clock && SameTerms(s.store.tokens[token], n.store.tokens[token])
      && (n.store.tokens[token].revoked <==> s.store.tokens[token].revoked || Revoke(token) in more)
      && (!Active(s, token) ==> !Active(n, token))
    decreases |more|
  {
    if more == [] {
      assert events + more == events;
    } else {
      var front, last := more[..|more| - 1], more[|more| - 1];
      InactiveForEver(clock, events, front, token);
      assert (events + more)[..|events + more| - 1] == events + front;
      StepKeepsToken(Run(Initial(clock), events + front), last, token);
      assert more == front + [last];
    }
  }
}
