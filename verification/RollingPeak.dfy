/** Journal evidence (ops/bin/horizon_journal.py): the busiest 30 seconds of a boot, and the rate
    limit derived from it. */
module RollingPeak {
  import opened Ranking

  const WINDOW_US := 30000000

  /** How many timestamps lie in the closed window that begins at `from`. */
  function InWindow(ts: seq<int>, from: int): nat {
    if ts == [] then 0
    else InWindow(ts[..|ts| - 1], from) + if from <= ts[|ts| - 1] <= from + WINDOW_US then 1 else 0
  }

  /** `peak` is the largest number of timestamps in any window. */
  ghost predicate IsPeak(ts: seq<int>, peak: int) {
    && (forall from :: InWindow(ts, from) <= peak)
    && (exists from :: InWindow(ts, from) == peak)
  }

  lemma {:induction false} InWindowConcat(a: seq<int>, b: seq<int>, from: int)
    ensures InWindow(a + b, from) == InWindow(a, from) + InWindow(b, from)
    decreases |b|
  {
    if b == [] {
      assert a + b == a;
    } else {
      assert (a + b)[..|a + b| - 1] == a + b[..|b| - 1];
      InWindowConcat(a, b[..|b| - 1], from);
    }
  }

  function Hit(t: int, from: int): nat { if from <= t <= from + WINDOW_US then 1 else 0 }

  /** Taking one timestamp out takes its own share out. */
  lemma InWindowWithout(ts: seq<int>, k: nat, from: int)
    requires k < |ts|
    ensures InWindow(ts, from) == InWindow(Without(ts, k), from) + Hit(ts[k], from)
  {
    assert ts == (ts[..k] + [ts[k]]) + ts[k + 1..];
    InWindowConcat(ts[..k] + [ts[k]], ts[k + 1..], from);
    InWindowConcat(ts[..k], [ts[k]], from);
    InWindowConcat(ts[..k], ts[k + 1..], from);
    assert InWindow([ts[k]], from) == Hit(ts[k], from);
  }

  function Without(ts: seq<int>, k: nat): seq<int>
    requires k < |ts|
  {
    ts[..k] + ts[k + 1..]
  }

  lemma WithoutOne(ts: seq<int>, k: nat)
    requires k < |ts|
    ensures multiset(Without(ts, k)) == multiset(ts) - multiset{ts[k]} && |Without(ts, k)| == |ts| - 1
  {
    assert ts == ts[..k] + [ts[k]] + ts[k + 1..];
  }

  lemma SameFirst(a: seq<int>, b: seq<int>) returns (k: nat)
    requires multiset(a) == multiset(b) && a != []
    ensures k < |b| && b[k] == a[0]
  {
    assert a[0] in multiset(b);
    k :| 0 <= k < |b| && b[k] == a[0];
  }

  /** The order of the entries does not matter. */
  lemma {:induction false} InWindowPermutes(a: seq<int>, b: seq<int>, from: int)
    requires multiset(a) == multiset(b)
    ensures InWindow(a, from) == InWindow(b, from)
    decreases |a|
  {
    if a == [] {
      MultisetLength(a, b);
    } else {
      var k := SameFirst(a, b);
      WithoutOne(a, 0);
      WithoutOne(b, k);
      InWindowPermutes(Without(a, 0), Without(b, k), from);
      InWindowWithout(a, 0, from);
      InWindowWithout(b, k, from);
    }
  }

  lemma {:induction false} InWindowAtMost(ts: seq<int>, from: int)
    ensures InWindow(ts, from) <= |ts|
    ensures (forall i :: 0 <= i < |ts| ==> from <= ts[i] <= from + WINDOW_US) ==> InWindow(ts, from) == |ts|
    ensures (forall i :: 0 <= i < |ts| ==> ts[i] < from) ==> InWindow(ts, from) == 0
  {
    if ts != [] {
      InWindowAtMost(ts[..|ts| - 1], from);
    }
  }

  predicate Ascending(ts: seq<int>) { forall i, j :: 0 <= i < j < |ts| ==> ts[i] <= ts[j] }

  /** Where the deque begins: everything before `lo` is too old for the newest timestamp, nothing after it is. */
  ghost predicate Splits(ts: seq<int>, lo: nat, newest: int) {
    && lo <= |ts|
    && (forall i :: 0 <= i < lo ==> ts[i] < newest - WINDOW_US)
    && (forall i :: lo <= i < |ts| ==> newest - WINDOW_US <= ts[i] <= newest)
  }

  lemma OldAreNotCounted(stale: seq<int>, newest: int, from: int)
    requires (forall i :: 0 <= i < |stale| ==> stale[i] < newest - WINDOW_US) && newest <= from + WINDOW_US
    ensures InWindow(stale, from) == 0
  {
    InWindowAtMost(stale, from);
  }

  lemma RecentAreCounted(recent: seq<int>, newest: int)
    requires forall i :: 0 <= i < |recent| ==> newest - WINDOW_US <= recent[i] <= newest
    ensures InWindow(recent, newest - WINDOW_US) == |recent|
  {
    InWindowAtMost(recent, newest - WINDOW_US);
  }

  /** Of the windows that hold the newest timestamp none holds more than the deque, and one holds as many. */
  lemma DequeIsFullest(ts: seq<int>, lo: nat, newest: int, from: int)
    requires Splits(ts, lo, newest) && from <= newest <= from + WINDOW_US
    ensures InWindow(ts, from) <= |ts| - lo
    ensures from == newest - WINDOW_US ==> InWindow(ts, from) == |ts| - lo
  {
    var stale, recent := ts[..lo], ts[lo..];
    assert ts == stale + recent;
    InWindowConcat(stale, recent, from);
    OldAreNotCounted(stale, newest, from);
    InWindowAtMost(recent, from);
    RecentAreCounted(recent, newest);
  }

  lemma PeakStep(ts: seq<int>, newest: int, lo: nat, before: int)
    requires IsPeak(ts, before) && Splits(ts + [newest], lo, newest)
    ensures var size := |ts| + 1 - lo; IsPeak(ts + [newest], if size > before then size else before)
  {
    var all, size := ts + [newest], |ts| + 1 - lo;
    assert all[..|ts|] == ts;
    forall from ensures InWindow(all, from) <= if size > before then size else before {
      assert InWindow(ts, from) <= before;
      if from <= newest <= from + WINDOW_US {
        DequeIsFullest(all, lo, newest, from);
      }
    }
    DequeIsFullest(all, lo, newest, newest - WINDOW_US);
    if size <= before {
      var from :| InWindow(ts, from) == before;
      assert InWindow(all, from) == before;
    }
  }

  /** Pop timestamps from the front while they are more than 30 seconds older than the newest. */
  method PopOld(ghost ts: seq<int>, deque: seq<int>, ghost lo: nat, newest: int) returns (rest: seq<int>, ghost at: nat)
    requires Ascending(ts) && ts != [] && ts[|ts| - 1] == newest && lo < |ts| && deque == ts[lo..]
    requires forall i :: 0 <= i < lo ==> ts[i] < newest - WINDOW_US
    ensures Splits(ts, at, newest) && rest == ts[at..]
  {
    rest, at := deque, lo;
    while rest != [] && newest - rest[0] > WINDOW_US
      invariant lo <= at <= |ts| && rest == ts[at..]
      invariant forall i :: 0 <= i < at ==> ts[i] < newest - WINDOW_US
      decreases |rest|
    {
      rest, at := rest[1..], at + 1;
    }
    forall i | at <= i < |ts| ensures newest - WINDOW_US <= ts[i] <= newest {
      assert ts[at] == rest[0];
    }
  }

  /** The deque holds the end of what was seen; what it no longer holds is too old for good. */
  ghost predicate Holds(seen: seq<int>, lo: nat, deque: seq<int>) {
    && lo <= |seen| && deque == seen[lo..]
    && (seen != [] ==> forall i :: 0 <= i < lo ==> seen[i] < seen[|seen| - 1] - WINDOW_US)
  }

  /** One turn of the loop. */
  method Count(ghost seen: seq<int>, t: int, deque: seq<int>, peak: int, ghost lo: nat)
    returns (deque': seq<int>, peak': int, ghost lo': nat)
    requires Ascending(seen + [t]) && Holds(seen, lo, deque) && IsPeak(seen, peak)
    ensures Holds(seen + [t], lo', deque') && IsPeak(seen + [t], peak')
  {
    ghost var all := seen + [t];
    assert seen != [] ==> all[|seen| - 1] <= all[|seen|];
    deque', lo' := PopOld(all, deque + [t], lo, t);
    PeakStep(seen, t, lo', peak);
    peak' := if |deque'| > peak then |deque'| else peak;
  }

  /** The loop over the sorted timestamps. */
  method PeakOfSorted(ts: seq<int>) returns (peak: int)
    requires Ascending(ts)
    ensures IsPeak(ts, peak)
  {
    var deque: seq<int>, i := [], 0;
    peak := 0;
    ghost var lo: nat, seen: seq<int> := 0, [];
    assert InWindow([], 0) == 0;
    while i < |ts|
      invariant i <= |ts| && seen == ts[..i]
      invariant IsPeak(seen, peak) && Holds(seen, lo, deque)
    {
      assert ts[..i + 1] == seen + [ts[i]];
      deque, peak, lo := Count(seen, ts[i], deque, peak, lo);
      seen, i := seen + [ts[i]], i + 1;
    }
    assert seen == ts;
  }

  /** `peak_rolling_30s`: the busiest window, for timestamps in any order. */
  method PeakRolling30s(ts: seq<int>) returns (peak: int)
    ensures IsPeak(ts, peak)
  {
    var key := (t: int) => -t;
    var sorted := SortDescending(ts, key);
    SortDescendingSorts(ts, key);
    assert Ascending(sorted) by {
      forall i, j | 0 <= i < j < |sorted| ensures sorted[i] <= sorted[j] { assert key(sorted[i]) >= key(sorted[j]); }
    }
    peak := PeakOfSorted(sorted);
    PeakPermutes(sorted, ts, peak);
  }

  lemma PeakPermutes(a: seq<int>, b: seq<int>, peak: int)
    requires multiset(a) == multiset(b) && IsPeak(a, peak)
    ensures IsPeak(b, peak)
  {
    forall from ensures InWindow(b, from) == InWindow(a, from) { InWindowPermutes(a, b, from); }
  }

  // ---------- the rate limit ----------

  datatype Entry = Entry(time: int, bootComplete: bool)

  datatype Record = Record(id: string, complete: bool, peak: int)

  datatype Outcome<T> = Refused | Done(value: T)

  function Times(entries: seq<Entry>): seq<int> { seq(|entries|, i requires 0 <= i < |entries| => entries[i].time) }

  predicate CompleteBoot(entries: seq<Entry>) { exists e :: e in entries && e.bootComplete }

  /** A record tells the truth about a boot's journal. */
  ghost predicate Describes(r: Record, entries: seq<Entry>) {
    IsPeak(Times(entries), r.peak) && (r.complete <==> CompleteBoot(entries))
  }

  /** `capture`, without the append to the evidence file. */
  method Capture(id: string, entries: seq<Entry>) returns (r: Outcome<Record>)
    ensures r.Refused? <==> entries == []
    ensures r.Done? ==> r.value.id == id && Describes(r.value, entries)
  {
    if entries == [] { return Refused; }
    var complete := false;
    for i := 0 to |entries|
      invariant complete <==> exists k :: 0 <= k < i && entries[k].bootComplete
    {
      complete := complete || entries[i].bootComplete;
    }
    var peak := PeakRolling30s(Times(entries));
    r := Done(Record(id, complete, peak));
  }

  /** Half as much again as every complete boot's peak, and at least one. */
  ghost predicate Covers(burst: int, records: seq<Record>) {
    burst >= 1 && forall r :: r in records && r.complete ==> 2 * burst >= 3 * r.peak
  }

  function CompleteIds(records: seq<Record>): set<string> { set r | r in records && r.complete :: r.id }

  /** `finalize`, without the file it writes: two distinct complete boots are needed, and the burst
      is the least that covers them all. */
  method Finalize(records: seq<Record>) returns (r: Outcome<int>)
    ensures r.Refused? <==> |CompleteIds(records)| < 2
    ensures r.Done? ==> Covers(r.value, records) && forall b :: Covers(b, records) ==> r.value <= b
  {
    var complete, ids: set<string> := [], {};
    for i := 0 to |records|
      invariant forall x :: x in complete <==> x in records[..i] && x.complete
      invariant ids == CompleteIds(records[..i])
    {
      assert records[..i + 1] == records[..i] + [records[i]];
      if records[i].complete {
        complete, ids := complete + [records[i]], ids + {records[i].id};
      }
    }
    assert records[..|records|] == records;
    if |ids| < 2 { return Refused; }
    assert complete != [];
    var top := complete[0];
    for i := 1 to |complete|
      invariant top in complete && forall k :: 0 <= k < i ==> complete[k].peak <= top.peak
    {
      if complete[i].peak > top.peak { top := complete[i]; }
    }
    var burst := (top.peak * 3 + 1) / 2;
    r := Done(if burst > 1 then burst else 1);
    assert top in records && top.complete;
  }

  /** From the journals to the limit: the burst is half as much again as the number of lines in any
      30 seconds of any complete boot. */
  lemma BurstCoversEveryWindow(burst: int, records: seq<Record>, k: nat, entries: seq<Entry>, from: int)
    requires Covers(burst, records) && k < |records| && Describes(records[k], entries) && CompleteBoot(entries)
    ensures 2 * burst >= 3 * InWindow(Times(entries), from)
  {
    assert records[k] in records;
  }
}
