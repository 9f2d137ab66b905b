/** The capability store and the wake client as the program runs them: methods that update tables
    in place, and a retry loop.  Each is proved against the functions of `Capability`. */
module CapabilityStore {
  import opened Capability
  import opened WakeProtocol
  import opened Wrappers

  class TokenStore {
    var tokens: map<nat, Token>
    var requests: map<Key, Row>
    var nextRow: nat
    var lastPruned: int

    ghost function Snapshot(): Store
      reads this
    {
      Store(tokens, requests, nextRow, lastPruned)
    }

    constructor ()
      ensures Snapshot() == Store(map[], map[], 0, 0)
    {
      tokens, requests, nextRow, lastPruned := map[], map[], 0, 0;
    }

    /** `_consume_budget` */
    method ConsumeBudget(token: nat, kind: Kind, now: int) returns (ok: bool)
      requires token in tokens
      modifies this`tokens
      ensures ok <==> Consumed(old(tokens)[token], kind, now).Some?
      ensures tokens == if ok then old(tokens)[token := Consumed(old(tokens)[token], kind, now).value] else old(tokens)
    {
      var t := tokens[token];
      if t.revoked || t.expires <= now { return false; }
      if kind.Wake? {
        ok := t.lastWake.None? || t.lastWake.value <= now - t.cooldown;
        if ok { tokens := tokens[token := t.(lastWake := Some(now))]; }
      } else {
        var renew := t.start <= now - t.window;
        ok := renew || t.used < t.budget;
        if ok {
          var next := if renew then t.(start := now, used := 1) else t.(used := t.used + 1);
          tokens := tokens[token := next];
        }
      }
    }

    /** `begin` */
    method BeginRequest(token: nat, request: Request, now: int) returns (out: Begun)
      modifies this
      ensures (Snapshot(), out) == Begin(old(Snapshot()), token, request, now)
    {
      if token !in tokens { return Refused("invalid_token"); }
      if tokens[token].revoked { return Refused("token_revoked"); }
      if tokens[token].expires <= now { return Refused("token_expired"); }
      var k := Key(token, request.id);
      if k in requests {
        var row := requests[k];
        if row.request != request { return Refused("request_id_conflict"); }
        if row.completed && row.response.Some? {
          if !ReplayExpired(row, now) { return Replay(row.response.value); }
          requests := requests - {k};
        } else {
          return Refused("request_in_progress");
        }
      }
      assert requests == old(requests) - {k};
      var ok := ConsumeBudget(token, request.kind, now);
      if !ok { return Refused(if request.kind.Wake? then "wake_cooldown" else "rate_window_exhausted"); }
      assert (old(requests) - {k})[k := Row(request, None, false, false, now, nextRow)]
          == old(requests)[k := Row(request, None, false, false, now, nextRow)];
      requests := requests[k := Row(request, None, false, false, now, nextRow)];
      nextRow := nextRow + 1;
      out := Accepted;
    }

    /** `_prune_status_retention` */
    method PruneStatusRetention(now: int)
      modifies this`requests, this`lastPruned
      ensures Snapshot() == Pruned(old(Snapshot()), now)
    {
      if now < lastPruned + MAINTENANCE_INTERVAL { return; }
      lastPruned := now;
      requests := Without(requests, Stale(requests, now - REPLAY_WINDOW));
      requests := Without(requests, OverTokenCap(requests));
      var count := |RoutineEntries(requests)|;
      if count > GLOBAL_CAP {
        requests := Without(requests, Excess(requests));
      } else {
        assert Excess(requests) == {};
        assert Without(requests, {}) == requests;
      }
    }

    /** `complete` */
    method CompleteRequest(k: Key, response: Response, ok: bool, now: int)
      modifies this`requests, this`lastPruned
      ensures Snapshot() == Complete(old(Snapshot()), k, response, ok, now)
    {
      var stored, good := response, ok;
      if response.Body? && response.bytes > MAX_RESPONSE_BYTES {
        stored, good := Error("response_too_large", false), false;
      }
      if k in requests && !requests[k].completed {
        requests := requests[k := requests[k].(response := Some(stored), completed := true, successful := good)];
      }
      PruneStatusRetention(now);
    }
  }

  // ---------- the client ----------

  datatype WakeOutcome = Returns | Rejects | TimesOut

  /** The attempt is what the client received of some reply of the run to its request id. */
  ghost predicate Delivered(a: Attempt, key: Key, s: System) {
    exists reply :: reply in s.replies && reply.key == key && Received(reply) == a
  }

  /** `wake_and_wait`: `clock[i]` is the time read before attempt i and `attempts[i]` its result.
      The first decisive attempt made before the deadline decides; without one the call times out.
      However the service, other clients and the network behave in a run that delivers the answers,
      the call returns normally only if the store holds a completed ready response for its id. */
  method WakeAndWait(clock: seq<int>, attempts: seq<Attempt>, deadline: int,
                     ghost began: int, ghost events: seq<Event>, ghost key: Key)
    returns (out: WakeOutcome, made: nat)
    requires |clock| == |attempts| + 1 && deadline <= clock[|attempts|]
    requires forall i :: 0 <= i < |attempts| && attempts[i].Answer? ==>
      Delivered(attempts[i], key, Run(Initial(began), events))
    ensures made <= |attempts|
    ensures forall i :: 0 <= i < made ==> clock[i] < deadline
    ensures forall i :: 0 <= i < made - 1 || (0 <= i < made && out.TimesOut?) ==>
      attempts[i] in {NoAnswer(true), Answer(Error("request_in_progress", true))}
    ensures out.Returns? ==> made > 0 && attempts[made - 1].Answer? && attempts[made - 1].body.Ready?
    ensures out.Rejects? ==> made > 0 && !(attempts[made - 1].Answer? && attempts[made - 1].body.Ready?)
    ensures out.Rejects? ==>
      attempts[made - 1] !in {NoAnswer(true), Answer(Error("request_in_progress", true))}
    ensures out.TimesOut? ==> deadline <= clock[made]
    ensures out.Returns? ==> HoldsReady(Run(Initial(began), events).store, key)
  {
    made := 0;
    while clock[made] < deadline
      invariant made <= |attempts|
      invariant forall i :: 0 <= i < made ==> clock[i] < deadline && Judge(attempts[i]).Retry?
      decreases |attempts| - made
    {
      var a := attempts[made];
      made := made + 1;
      if Judge(a).Woken? {
        ghost var reply :| reply in Run(Initial(began), events).replies && reply.key == key && Received(reply) == a;
        WakingReplyIsBacked(began, events, reply);
        return Returns, made;
      }
      if Judge(a).Rejected? { return Rejects, made; }
    }
    out := TimesOut;
  }
}
