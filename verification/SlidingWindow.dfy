/** The bounded sample deques of the performance alerts (src/game_control/alert_policy.py): append,
    keep at most 256, drop what is too old.  They are proved equal to a view of the whole history. */
module SlidingWindow {

  datatype Sample = Sample(time: real, value: real)

  const MAX_SAMPLES := 256
  const TOLERANCE := 5.0

  /** Times never go back. */
  predicate Ordered(h: seq<Sample>) {
    |h| <= 1 || (h[|h| - 2].time <= h[|h| - 1].time && Ordered(h[..|h| - 1]))
  }

  lemma {:induction false} OrderedMeans(h: seq<Sample>)
    ensures Ordered(h) <==> forall i, j :: 0 <= i <= j < |h| ==> h[i].time <= h[j].time
  {
    if |h| > 1 {
      var front := h[..|h| - 1];
      OrderedMeans(front);
      assert forall i :: 0 <= i < |front| ==> front[i] == h[i];
      if Ordered(h) {
        forall i | 0 <= i < |front|
          ensures h[i].time <= h[|h| - 1].time
        {
          assert front[i].time <= front[|h| - 2].time;
        }
      }
    }
  }

  function Max(a: int, b: int): int { if a >= b then a else b }

  /** The newest sample is not older than the one before. */
  predicate Follows(h: seq<Sample>, x: Sample) { h == [] || h[|h| - 1].time <= x.time }

  function Boundary(x: Sample, span: real): real { x.time - span - TOLERANCE }

  /** The first index from `lo` on that is not too old; the newest sample never is. */
  function Cut(h: seq<Sample>, boundary: real, lo: nat): (k: nat)
    requires lo < |h|
    ensures lo <= k < |h|
    ensures forall i :: lo <= i < k ==> h[i].time < boundary
    ensures k < |h| - 1 ==> h[k].time >= boundary
    decreases |h| - lo
  {
    if lo < |h| - 1 && h[lo].time < boundary then Cut(h, boundary, lo + 1) else lo
  }

  /** Where the window of a history begins: among the last 256 samples, the first that is no older
      than the span plus the tolerance. */
  function Begin(h: seq<Sample>, span: real): nat
    requires h != []
  {
    Cut(h, Boundary(h[|h| - 1], span), Max(0, |h| - MAX_SAMPLES))
  }

  function Window(h: seq<Sample>, span: real): seq<Sample> {
    if h == [] then [] else h[Begin(h, span)..]
  }

  lemma {:induction false} CutUnique(h: seq<Sample>, boundary: real, lo: nat, k: nat)
    requires lo <= k < |h| && (k < |h| - 1 ==> h[k].time >= boundary)
    requires forall i :: lo <= i < k ==> h[i].time < boundary
    ensures Cut(h, boundary, lo) == k
  {
  }

  /** What was too old before is too old now. */
  lemma StillTooOld(h: seq<Sample>, x: Sample, span: real)
    requires h != [] && Follows(h, x)
    ensures forall i :: Max(0, |h| - MAX_SAMPLES) <= i < Begin(h, span) ==> h[i].time < Boundary(x, span)
  {
    assert Boundary(h[|h| - 1], span) <= Boundary(x, span);
  }

  /** The deque after the next sample is the window of the longer history. */
  lemma WindowStep(h: seq<Sample>, x: Sample, span: real, lo: nat)
    requires h != [] && Follows(h, x) && lo == Max(Begin(h, span), |h| + 1 - MAX_SAMPLES)
    ensures lo <= |h| && Begin(h + [x], span) == Cut(h + [x], Boundary(x, span), lo)
  {
    var all, boundary := h + [x], Boundary(x, span);
    var k, from := Cut(all, boundary, lo), Max(0, |all| - MAX_SAMPLES);
    StillTooOld(h, x, span);
    CutUnique(all, boundary, from, k);
  }

  function Trimmed(deque: seq<Sample>, boundary: real): seq<Sample>
    requires deque != []
  {
    deque[Cut(deque, boundary, 0)..]
  }

  /** Pop samples from the front while more than one is left and the first is too old. */
  method Trim(deque: seq<Sample>, boundary: real) returns (r: seq<Sample>)
    requires deque != []
    ensures r == Trimmed(deque, boundary)
  {
    r := deque;
    ghost var at := 0;
    while |r| > 1 && r[0].time < boundary
      invariant 0 <= at < |deque| && r == deque[at..] && forall i :: 0 <= i < at ==> deque[i].time < boundary
      decreases |r|
    {
      r := r[1..];
      at := at + 1;
    }
    CutUnique(deque, boundary, 0, at);
  }

  lemma CutOfSuffix(h: seq<Sample>, boundary: real, lo: nat)
    requires lo < |h|
    ensures h[lo..][Cut(h[lo..], boundary, 0)..] == h[Cut(h, boundary, lo)..]
  {
    var k := Cut(h[lo..], boundary, 0);
    forall i | lo <= i < lo + k ensures h[i].time < boundary { assert h[lo..][i - lo] == h[i]; }
    CutUnique(h, boundary, lo, lo + k);
  }

  function Appended(deque: seq<Sample>, x: Sample): seq<Sample> {
    if |deque| >= MAX_SAMPLES then deque[1..] + [x] else deque + [x]
  }

  lemma AppendedIsSuffix(h: seq<Sample>, x: Sample, span: real)
    requires h != []
    ensures var lo := Max(Begin(h, span), |h| + 1 - MAX_SAMPLES);
      lo <= |h| && Appended(Window(h, span), x) == (h + [x])[lo..]
  {
    var k, long := Begin(h, span), Appended(Window(h, span), x);
    assert |h| - k <= MAX_SAMPLES;
    if |h| - k == MAX_SAMPLES {
      assert h[k..][1..] == h[k + 1..];
      assert long == h[k + 1..] + [x];
    } else {
      assert long == h[k..] + [x];
    }
  }

  lemma TrimmedSuffix(all: seq<Sample>, span: real, lo: nat, deque: seq<Sample>)
    requires lo < |all| && deque == all[lo..]
    requires Begin(all, span) == Cut(all, Boundary(all[|all| - 1], span), lo)
    ensures Trimmed(deque, Boundary(all[|all| - 1], span)) == Window(all, span)
  {
    CutOfSuffix(all, Boundary(all[|all| - 1], span), lo);
  }

  lemma FirstPush(x: Sample, span: real)
    ensures Trimmed(Appended(Window([], span), x), Boundary(x, span)) == Window([] + [x], span)
  {
    var deque, all := Appended(Window([], span), x), [] + [x];
    assert deque == all[0..];
    TrimmedSuffix(all, span, 0, deque);
  }

  lemma NextPush(h: seq<Sample>, x: Sample, span: real, lo: nat)
    requires h != [] && lo <= |h| && Appended(Window(h, span), x) == (h + [x])[lo..]
    requires Begin(h + [x], span) == Cut(h + [x], Boundary(x, span), lo)
    ensures Trimmed(Appended(Window(h, span), x), Boundary(x, span)) == Window(h + [x], span)
  {
    var all := h + [x];
    assert all[|all| - 1] == x;
    TrimmedSuffix(all, span, lo, Appended(Window(h, span), x));
  }

  lemma PushedIsWindow(h: seq<Sample>, x: Sample, span: real)
    requires Follows(h, x)
    ensures Trimmed(Appended(Window(h, span), x), Boundary(x, span)) == Window(h + [x], span)
  {
    if h == [] {
      FirstPush(x, span);
    } else {
      var lo := Max(Begin(h, span), |h| + 1 - MAX_SAMPLES);
      WindowStep(h, x, span, lo);
      AppendedIsSuffix(h, x, span);
      NextPush(h, x, span, lo);
    }
  }

  lemma OrderedBefore(h: seq<Sample>, x: Sample)
    requires Ordered(h + [x])
    ensures Ordered(h) && Follows(h, x)
  {
    assert (h + [x])[..|h|] == h;
  }

  /** Append to a deque with `maxlen`, then pop the samples that are too old. */
  method Push(deque: seq<Sample>, x: Sample, span: real, ghost h: seq<Sample>) returns (r: seq<Sample>)
    requires Ordered(h) ==> deque == Window(h, span)
    ensures r != [] && r[|r| - 1] == x
    ensures Ordered(h + [x]) ==> r == Window(h + [x], span)
  {
    r := Trim(Appended(deque, x), Boundary(x, span));
    if Ordered(h + [x]) {
      OrderedBefore(h, x);
      PushedIsWindow(h, x, span);
    }
  }

  /** The window of an ordered history: of its last 256 samples, those no older than the span and five
      seconds. */
  lemma WindowExactly(h: seq<Sample>, span: real) returns (k: nat)
    requires h != [] && Ordered(h) && span >= 0.0
    ensures k < |h| && Window(h, span) == h[k..]
    ensures forall i :: 0 <= i < |h| ==> (k <= i <==> |h| - 256 <= i && h[|h| - 1].time - span - 5.0 <= h[i].time)
  {
    k := Begin(h, span);
    OrderedMeans(h);
    forall i | k <= i < |h| ensures h[|h| - 1].time - span - 5.0 <= h[i].time { assert h[k].time <= h[i].time; }
  }
}
