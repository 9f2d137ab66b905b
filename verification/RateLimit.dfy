/** What the fixed-window limiter and the wake cooldown of the capability store
    (`_consume_budget` in src/game_control/capability.py) guarantee over every run. */
module RateLimit {
  import opened Capability
  import opened Ranking
  import opened Wrappers

  /** One newly accepted non-wake request: when, and in which window of its token. */
  datatype Grant = Grant(time: int, start: int)

  function InWindow(log: seq<Grant>, start: int): set<int> {
    set k | 0 <= k < |log| && log[k].start == start
  }

  function InInterval(log: seq<Grant>, from: int, length: int): set<int> {
    set k | 0 <= k < |log| && from <= log[k].time <= from + length
  }

  predicate WindowsApart(a: int, b: int, window: int) { a == b || a + window <= b }

  /** The history of a token agrees with its row: every grant falls into its own window, windows
      are a window length apart, and no window holds more than the budget. */
  ghost predicate RateOk(t: Token, log: seq<Grant>, clock: int) {
    && t.window > 0 && t.used <= t.budget
    && (forall k :: 0 <= k < |log| ==>
          log[k].start <= log[k].time < log[k].start + t.window && log[k].time <= clock
            && WindowsApart(log[k].start, t.start, t.window))
    && (forall i, j :: 0 <= i < j < |log| ==> WindowsApart(log[i].start, log[j].start, t.window))
    && (forall w :: |InWindow(log, w)| <= t.budget)
    && |InWindow(log, t.start)| == t.used
  }

  /** Accepted wakes are a cooldown apart. */
  predicate WakesOk(t: Token, wakes: seq<int>, clock: int) {
    && (forall i, j :: 0 <= i < j < |wakes| ==> wakes[j] - wakes[i] >= t.cooldown)
    && (wakes == [] <==> t.lastWake.None?)
    && (wakes != [] ==> wakes[|wakes| - 1] == t.lastWake.value)
    && (forall i :: 0 <= i < |wakes| ==> wakes[i] <= wakes[|wakes| - 1])
  }

  lemma InWindowAppend(log: seq<Grant>, g: Grant, w: int)
    ensures InWindow(log + [g], w) == InWindow(log, w) + (if g.start == w then {|log|} else {})
    ensures |InWindow(log + [g], w)| == |InWindow(log, w)| + (if g.start == w then 1 else 0)
  {
    assert |log| !in InWindow(log, w);
    assert InWindow(log + [g], w) == InWindow(log, w) + (if g.start == w then {|log|} else {});
  }

  lemma EmptyWindow(t: Token, log: seq<Grant>, clock: int, now: int)
    requires RateOk(t, log, clock) && clock <= now && t.start <= now - t.window && t.window > 0
    ensures InWindow(log, now) == {}
  {
  }

  /** A newly accepted request keeps the history in order. */
  lemma GrantKeepsRate(t: Token, kind: Kind, log: seq<Grant>, clock: int, now: int)
    requires RateOk(t, log, clock) && clock <= now && t.start <= clock && !kind.Wake? && Consumed(t, kind, now).Some?
    requires t.budget >= 1
    ensures var next := Consumed(t, kind, now).value;
      RateOk(next, log + [Grant(now, next.start)], now) && next.start <= now
  {
    var next := Consumed(t, kind, now).value;
    var g := Grant(now, next.start);
    if t.start <= now - t.window { EmptyWindow(t, log, clock, now); }
    forall w ensures |InWindow(log + [g], w)| <= next.budget { InWindowAppend(log, g, w); }
    InWindowAppend(log, g, next.start);
  }

  /** The wake branch leaves the rate window alone and keeps wakes a cooldown apart. */
  lemma WakeKeepsApart(t: Token, wakes: seq<int>, clock: int, now: int)
    requires WakesOk(t, wakes, clock) && Consumed(t, Wake, now).Some?
    requires clock <= now && (t.lastWake.Some? ==> t.lastWake.value <= clock)
    ensures WakesOk(Consumed(t, Wake, now).value, wakes + [now], now)
  {
  }

  lemma SomeOrder(t: Token, log: seq<Grant>, clock: int, i: int, j: int)
    requires RateOk(t, log, clock) && 0 <= i < |log| && 0 <= j < |log|
    ensures WindowsApart(log[i].start, log[j].start, t.window) || WindowsApart(log[j].start, log[i].start, t.window)
  {
  }

  /** Three grants within one window length cannot be in three windows. */
  lemma NoThirdWindow(a: Grant, b: Grant, c: Grant, window: int, from: int)
    requires window > 0 && from <= a.time <= from + window && from <= b.time <= from + window
    requires from <= c.time <= from + window && a.start <= a.time < a.start + window
    requires b.start <= b.time < b.start + window && c.start <= c.time < c.start + window
    requires WindowsApart(a.start, b.start, window) || WindowsApart(b.start, a.start, window)
    requires WindowsApart(a.start, c.start, window) || WindowsApart(c.start, a.start, window)
    requires WindowsApart(b.start, c.start, window) || WindowsApart(c.start, b.start, window)
    ensures a.start == b.start || c.start == a.start || c.start == b.start
  {
  }

  /** Any closed interval of one window length meets at most two windows. */
  lemma TwoWindows(t: Token, log: seq<Grant>, clock: int, from: int) returns (a: int, b: int)
    requires RateOk(t, log, clock)
    ensures InInterval(log, from, t.window) <= InWindow(log, a) + InWindow(log, b)
  {
    var hits := InInterval(log, from, t.window);
    a, b := 0, 0;
    if hits != {} {
      var i: int :| i in hits;
      a, b := log[i].start, log[i].start;
      if !(hits <= InWindow(log, a)) {
        var j: int :| j in hits && j !in InWindow(log, a);
        b := log[j].start;
        SomeOrder(t, log, clock, i, j);
        forall k | k in hits ensures k in InWindow(log, a) + InWindow(log, b) {
          SomeOrder(t, log, clock, i, k);
          SomeOrder(t, log, clock, j, k);
          NoThirdWindow(log[i], log[j], log[k], t.window, from);
        }
      }
    }
  }

  /** In any closed time interval of one rate-window length, at most twice the budget was newly
      accepted for the token. */
  lemma AtMostTwiceTheBudget(t: Token, log: seq<Grant>, clock: int, from: int)
    requires RateOk(t, log, clock)
    ensures |InInterval(log, from, t.window)| <= 2 * t.budget
  {
    var a, b := TwoWindows(t, log, clock, from);
    CardinalityMonotone(InInterval(log, from, t.window), InWindow(log, a) + InWindow(log, b));
    UnionBound(InWindow(log, a), InWindow(log, b));
  }

  lemma UnionBound<T>(a: set<T>, b: set<T>)
    ensures |a + b| <= |a| + |b|
  {
    assert a + b == a + (b - a);
    CardinalityMonotone(b - a, b);
  }
}
