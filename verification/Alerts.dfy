/** Performance alerts (`PerformanceAlertEvaluator` in src/game_control/alert_policy.py): breach
    flags from bounded sample windows, one incident per de-duplication group, and generations. */
module Alerts {
  import opened SlidingWindow
  import Ranking
  import opened Wrappers

  datatype Signal = SustainedMspt | MemoryGrowth | DiskPressure | WakeSlo | BenchmarkRegression

  datatype Group = RuntimePressure | HostStorage | WakePath | Benchmark

  datatype State = Running | Starting | OtherState

  datatype Emission = Emission(signal: Signal, generation: int)

  const MSPT_THRESHOLD := 50.0
  const MSPT_SPAN := 30.0
  const MSPT_MIN_SAMPLES := 4
  const MEMORY_SPAN := 600.0
  const MEMORY_GROWTH_BYTES := 536870912.0
  const MEMORY_RECOVERY_BYTES := 268435456.0
  const WAKE_SLO_MS := 180000.0

  // ---------- the rule table ----------

  function GroupOf(s: Signal): Group {
    match s
    case SustainedMspt => RuntimePressure
    case MemoryGrowth => RuntimePressure
    case DiskPressure => HostStorage
    case WakeSlo => WakePath
    case BenchmarkRegression => Benchmark
  }

  function Priority(s: Signal): int { if s.SustainedMspt? then 10 else 20 }

  /** A rule that slotd owns and that applies in this profile state. */
  predicate Applies(s: Signal, state: State) {
    match s
    case SustainedMspt => state.Running?
    case MemoryGrowth => state.Running?
    case DiskPressure => false
    case WakeSlo => !state.OtherState?
    case BenchmarkRegression => true
  }

  // ---------- what the flags mean ----------

  /** The samples of a history that count: among the last 256, those no older than 35 seconds. */
  function Counted(h: seq<Sample>): set<int>
    requires h != []
  {
    set i | 0 <= i < |h| && |h| - MAX_SAMPLES <= i && h[i].time >= h[|h| - 1].time - MSPT_SPAN - TOLERANCE
  }

  /** Tick time has been high for the whole window: at least four counted samples, the oldest at
      least 30 seconds old, and all at or above the threshold. */
  predicate Sustained(h: seq<Sample>)
    requires h != []
  {
    && |Counted(h)| >= MSPT_MIN_SAMPLES
    && (exists i :: i in Counted(h) && h[i].time <= h[|h| - 1].time - MSPT_SPAN)
    && (forall i :: i in Counted(h) ==> h[i].value >= MSPT_THRESHOLD)
  }

  /** The test on the deque. */
  predicate DequeSustained(deque: seq<Sample>, now: real) {
    && |deque| >= MSPT_MIN_SAMPLES
    && deque[0].time <= now - MSPT_SPAN
    && forall i :: 0 <= i < |deque| ==> deque[i].value >= MSPT_THRESHOLD
  }

  lemma {:induction false} RangeSize(lo: int, hi: int, s: set<int>)
    requires lo <= hi && forall i :: i in s <==> lo <= i < hi
    ensures |s| == hi - lo
    decreases hi - lo
  {
    if lo < hi {
      RangeSize(lo, hi - 1, s - {hi - 1});
    } else if s != {} {
      var i := Ranking.Member(s);
    }
  }

  lemma CountedIsSuffix(h: seq<Sample>)
    requires h != [] && Ordered(h)
    ensures forall i :: i in Counted(h) <==> Begin(h, MSPT_SPAN) <= i < |h|
  {
    var k := Begin(h, MSPT_SPAN);
    OrderedMeans(h);
    forall i | k <= i < |h| ensures i in Counted(h) { assert h[k].time <= h[i].time; }
  }

  lemma SuffixSustained(h: seq<Sample>, k: nat, counted: set<int>)
    requires Ordered(h) && k < |h| && forall i :: i in counted <==> k <= i < |h|
    ensures h[k].time <= h[|h| - 1].time - MSPT_SPAN <==>
      exists i :: i in counted && h[i].time <= h[|h| - 1].time - MSPT_SPAN
    ensures (forall i :: 0 <= i < |h[k..]| ==> h[k..][i].value >= MSPT_THRESHOLD) <==>
      forall i :: i in counted ==> h[i].value >= MSPT_THRESHOLD
  {
    OrderedMeans(h);
    assert k in counted;
    forall i | i in counted ensures h[i] == h[k..][i - k] && h[k].time <= h[i].time {}
  }

  /** The bounded deque decides exactly what the whole history decides. */
  lemma DequeDecides(h: seq<Sample>)
    requires h != [] && Ordered(h)
    ensures DequeSustained(Window(h, MSPT_SPAN), h[|h| - 1].time) <==> Sustained(h)
  {
    var k := Begin(h, MSPT_SPAN);
    CountedIsSuffix(h);
    RangeSize(k, |h|, Counted(h));
    SuffixSustained(h, k, Counted(h));
  }

  // ---------- groups ----------

  function Breached(flags: map<Signal, bool>, state: State): set<Signal> {
    set s | s in flags && flags[s] && Applies(s, state)
  }

  function Groups(signals: set<Signal>): set<Group> {
    set s | s in signals :: GroupOf(s)
  }

  /** `s` is a breached signal of its group that no other breached signal outranks. */
  predicate Leads(s: Signal, signals: set<Signal>) {
    s in signals && forall r :: r in signals && GroupOf(r) == GroupOf(s) ==> Priority(r) <= Priority(s)
  }

  predicate Chooses(candidates: map<Group, Signal>, signals: set<Signal>) {
    && candidates.Keys == Groups(signals)
    && forall g :: g in candidates ==> GroupOf(candidates[g]) == g && Leads(candidates[g], signals)
  }

  /** The candidate loop, in whatever order the flags are stored. */
  method SelectCandidates(flags: map<Signal, bool>, state: State) returns (candidates: map<Group, Signal>)
    ensures Chooses(candidates, Breached(flags, state))
  {
    candidates := map[];
    var todo, seen: set<Signal> := flags.Keys, {};
    while todo != {}
      invariant todo + seen == flags.Keys
      invariant Chooses(candidates, Breached(flags, state) * seen)
      decreases todo
    {
      var s :| s in todo;
      var before := Breached(flags, state) * seen;
      if flags[s] && Applies(s, state) {
        var g := GroupOf(s);
        assert Breached(flags, state) * (seen + {s}) == before + {s};
        assert Groups(before + {s}) == Groups(before) + {g};
        if g !in candidates || Priority(s) > Priority(candidates[g]) {
          candidates := candidates[g := s];
        }
      } else {
        assert Breached(flags, state) * (seen + {s}) == before;
      }
      todo, seen := todo - {s}, seen + {s};
    }
    assert Breached(flags, state) * seen == Breached(flags, state);
  }

  // ---------- the evaluator ----------

  /** What is kept for one profile. */
  datatype Profile = Profile(mspt: seq<Sample>, rss: seq<Sample>, flags: map<Signal, bool>, active: set<Group>,
                             peak: Option<real>)

  /** One observation: the profile's state and the readings that came with it. */
  datatype Input = Input(state: State, now: real, mspt: Option<real>, rss: Option<real>, wake: Option<real>,
                         benchmark: Option<bool>)

  /** What happened to one profile since it last was not running: its samples, the memory readings
      of the present memory incident; and the groups breached at the last observation. */
  datatype History = History(mspt: seq<Sample>, rss: seq<Sample>, incident: seq<real>, groups: set<Group>)

  const NEW_PROFILE := Profile([], [], map[], {}, None)
  const NEW_HISTORY := History([], [], [], {})

  function Flag(flags: map<Signal, bool>, s: Signal): bool { s in flags && flags[s] }

  function Peak(readings: seq<real>): real
    requires readings != []
  {
    if |readings| == 1 then readings[0]
    else
      var p := Peak(readings[..|readings| - 1]);
      if readings[|readings| - 1] > p then readings[|readings| - 1] else p
  }

  lemma {:induction false} PeakIsMaximum(readings: seq<real>)
    requires readings != []
    ensures Peak(readings) in readings && forall r :: r in readings ==> r <= Peak(readings)
  {
    if |readings| > 1 {
      var front := readings[..|readings| - 1];
      PeakIsMaximum(front);
      assert readings == front + [readings[|readings| - 1]];
    }
  }

  function PeakOf(incident: seq<real>): Option<real> { if incident == [] then None else Some(Peak(incident)) }

  /** A memory incident begins with growth over the window, and lasts until the reading is the
      recovery amount below the incident's highest reading. */
  function NextIncident(incident: seq<real>, grew: bool, value: real): seq<real> {
    if incident == [] then (if grew then [value] else [])
    else if Peak(incident + [value]) - value < MEMORY_RECOVERY_BYTES then incident + [value]
    else []
  }

  /** What is left of an incident after more readings. */
  function Continued(incident: seq<real>, readings: seq<real>): seq<real> {
    if readings == [] then incident
    else NextIncident(Continued(incident, readings[..|readings| - 1]), false, readings[|readings| - 1])
  }

  /** No reading is the recovery amount or more below an earlier one. */
  predicate NeverRecovers(readings: seq<real>) {
    forall i, j :: 0 <= i < j < |readings| ==> readings[i] - readings[j] < 268435456.0
  }

  lemma {:induction false} EndedStaysEnded(first: real, readings: seq<real>)
    ensures Continued([first], readings) == [] || Continued([first], readings) == [first] + readings
  {
    if readings != [] {
      EndedStaysEnded(first, readings[..|readings| - 1]);
      assert readings == readings[..|readings| - 1] + [readings[|readings| - 1]];
      assert [first] + readings[..|readings| - 1] + [readings[|readings| - 1]] == [first] + readings;
    }
  }

  /** An incident that began with a reading lasts exactly until a reading is the recovery amount below
      any reading since. */
  lemma {:induction false} IncidentLasts(first: real, readings: seq<real>)
    ensures Continued([first], readings) != [] <==> NeverRecovers([first] + readings)
  {
    var all := [first] + readings;
    if readings != [] {
      var front, last := readings[..|readings| - 1], readings[|readings| - 1];
      IncidentLasts(first, front);
      EndedStaysEnded(first, front);
      assert ([first] + front) + [last] == all;
      LastDecides([first] + front, last);
      if NeverRecovers([first] + front) {
        assert Continued([first], front) == [first] + front;
      }
    }
  }

  lemma LastDecides(readings: seq<real>, last: real)
    requires readings != []
    ensures NeverRecovers(readings + [last]) <==>
      NeverRecovers(readings) && Peak(readings + [last]) - last < MEMORY_RECOVERY_BYTES
  {
    var all := readings + [last];
    PeakIsMaximum(all);
    var top :| 0 <= top < |all| && all[top] == Peak(all);
    if NeverRecovers(readings) && Peak(all) - last < MEMORY_RECOVERY_BYTES {
      forall i, j | 0 <= i < j < |all| ensures all[i] - all[j] < 268435456.0 {
        if j < |readings| {
          assert readings[i] - readings[j] < 268435456.0;
        } else {
          assert all[i] in all;
        }
      }
    }
    if NeverRecovers(all) {
      forall i, j | 0 <= i < j < |readings| ensures readings[i] - readings[j] < 268435456.0 {
        assert all[i] == readings[i] && all[j] == readings[j];
      }
      assert top == |readings| || all[top] - all[|readings|] < 268435456.0;
    }
  }

  /** The state of a profile agrees with its history. */
  predicate Agrees(p: Profile, h: History) {
    && p.active == h.groups
    && (Ordered(h.mspt) ==> p.mspt == Window(h.mspt, MSPT_SPAN))
    && (Ordered(h.rss) ==> p.rss == Window(h.rss, MEMORY_SPAN))
    && (Flag(p.flags, MemoryGrowth) <==> h.incident != [])
    && p.peak == PeakOf(h.incident)
  }

  /** Memory grew by the threshold over the whole window of this history. */
  predicate Grew(h: seq<Sample>)
    requires h != []
  {
    var w, last := Window(h, MEMORY_SPAN), h[|h| - 1];
    last.time - w[0].time >= MEMORY_SPAN && last.value - w[0].value >= MEMORY_GROWTH_BYTES
  }

  ghost predicate SameOutside(p: Profile, n: Profile) {
    && n.active == p.active
    && Flag(n.flags, WakeSlo) == Flag(p.flags, WakeSlo)
    && Flag(n.flags, BenchmarkRegression) == Flag(p.flags, BenchmarkRegression)
  }

  /** The tick-time branch of `observe`. */
  method ObserveMspt(p: Profile, now: real, value: real, ghost h: History) returns (n: Profile, ghost g: History)
    requires Agrees(p, h)
    ensures g == h.(mspt := h.mspt + [Sample(now, value)])
    ensures Agrees(n, g) && SameOutside(p, n)
    ensures Ordered(g.mspt) ==> (Flag(n.flags, SustainedMspt) <==> Sustained(g.mspt))
  {
    var deque := Push(p.mspt, Sample(now, value), MSPT_SPAN, h.mspt);
    g := h.(mspt := h.mspt + [Sample(now, value)]);
    n := p.(mspt := deque, flags := p.flags[SustainedMspt := DequeSustained(deque, now)]);
    if Ordered(g.mspt) { DequeDecides(g.mspt); }
  }

  /** The incident flag and the incident's peak after the next reading. */
  method UpdateIncident(breached: bool, peak: Option<real>, grew: bool, value: real, ghost incident: seq<real>)
    returns (still: bool, highest: Option<real>)
    requires (breached <==> incident != []) && peak == PeakOf(incident)
    ensures still <==> NextIncident(incident, grew, value) != []
    ensures highest == PeakOf(NextIncident(incident, grew, value))
  {
    if breached {
      var top := if peak.Some? && peak.value > value then peak.value else value;
      assert (incident + [value])[..|incident|] == incident;
      still := top - value < MEMORY_RECOVERY_BYTES;
      highest := if still then Some(top) else None;
    } else {
      still := grew;
      highest := if still then Some(value) else None;
    }
  }

  /** The memory branch of `observe`. */
  method ObserveRss(p: Profile, now: real, value: real, ghost h: History) returns (n: Profile, ghost g: History)
    requires Agrees(p, h)
    ensures Agrees(n, g) && SameOutside(p, n) && Flag(n.flags, SustainedMspt) == Flag(p.flags, SustainedMspt)
    ensures g.mspt == h.mspt && g.groups == h.groups && g.rss == h.rss + [Sample(now, value)]
    ensures h.incident != [] ==> g.incident == NextIncident(h.incident, false, value)
    ensures Ordered(g.rss) ==> g.incident == NextIncident(h.incident, Grew(g.rss), value)
  {
    var deque := Push(p.rss, Sample(now, value), MEMORY_SPAN, h.rss);
    var grew := now - deque[0].time >= MEMORY_SPAN && value - deque[0].value >= MEMORY_GROWTH_BYTES;
    var still, peak := UpdateIncident(Flag(p.flags, MemoryGrowth), p.peak, grew, value, h.incident);
    g := h.(rss := h.rss + [Sample(now, value)], incident := NextIncident(h.incident, grew, value));
    n := p.(rss := deque, flags := p.flags[MemoryGrowth := still], peak := peak);
  }

  /** The memory flag is the only one a profile's history speaks about. */
  lemma OtherFlags(p: Profile, flags: map<Signal, bool>, h: History)
    requires Agrees(p, h) && Flag(flags, MemoryGrowth) == Flag(p.flags, MemoryGrowth)
    ensures Agrees(p.(flags := flags), h)
  {
  }

  /** The tick-time flag after an observation, in terms of the history. */
  ghost predicate MsptStep(before: bool, after: bool, h: seq<Sample>, g: seq<Sample>, o: Input) {
    if !o.state.Running? then g == [] && !after
    else if o.mspt.None? then g == h && after == before
    else g == h + [Sample(o.now, o.mspt.value)] && (Ordered(g) ==> (after <==> Sustained(g)))
  }

  /** The memory readings and the memory incident after an observation. */
  ghost predicate MemoryStep(h: History, g: History, o: Input) {
    if !o.state.Running? then g.rss == [] && g.incident == []
    else if o.rss.None? then g.rss == h.rss && g.incident == h.incident
    else
      var value := o.rss.value;
      && g.rss == h.rss + [Sample(o.now, value)]
      && (h.incident != [] ==> g.incident == NextIncident(h.incident, false, value))
      && (Ordered(g.rss) ==> g.incident == NextIncident(h.incident, Grew(g.rss), value))
  }

  /** The flags that come from outside. */
  ghost predicate OutsideStep(before: map<Signal, bool>, after: map<Signal, bool>, o: Input) {
    && (Flag(after, WakeSlo) <==>
          if o.wake.Some? then o.wake.value > WAKE_SLO_MS else !o.state.OtherState? && Flag(before, WakeSlo))
    && (Flag(after, BenchmarkRegression) <==>
          if o.benchmark.Some? then o.benchmark.value else Flag(before, BenchmarkRegression))
  }

  ghost predicate Step(before: map<Signal, bool>, after: map<Signal, bool>, h: History, g: History, o: Input) {
    && MsptStep(Flag(before, SustainedMspt), Flag(after, SustainedMspt), h.mspt, g.mspt, o)
    && MemoryStep(h, g, o)
    && OutsideStep(before, after, o)
  }

  /** A profile that is not running forgets its samples and its incident. */
  method Forget(p: Profile, ghost h: History) returns (n: Profile, ghost g: History)
    requires Agrees(p, h)
    ensures Agrees(n, g) && g == NEW_HISTORY.(groups := h.groups) && SameOutside(p, n) && !Flag(n.flags, SustainedMspt)
  {
    n := Profile([], [], p.flags[SustainedMspt := false][MemoryGrowth := false], p.active, None);
    g := NEW_HISTORY.(groups := h.groups);
  }

  /** The samples of `observe`. */
  method UpdateSamples(p: Profile, o: Input, ghost h: History) returns (n: Profile, ghost g: History)
    requires Agrees(p, h)
    ensures Agrees(n, g) && g.groups == h.groups && SameOutside(p, n)
    ensures MsptStep(Flag(p.flags, SustainedMspt), Flag(n.flags, SustainedMspt), h.mspt, g.mspt, o)
    ensures MemoryStep(h, g, o)
  {
    if !o.state.Running? {
      n, g := Forget(p, h);
      return;
    }
    n, g := p, h;
    if o.mspt.Some? {
      n, g := ObserveMspt(n, o.now, o.mspt.value, g);
    }
    if o.rss.Some? {
      n, g := ObserveRss(n, o.now, o.rss.value, g);
    }
  }

  /** The two flags that come from outside: wake time and benchmark verdict. */
  method UpdateFlags(p: Profile, o: Input, ghost h: History) returns (n: Profile)
    requires Agrees(p, h)
    ensures Agrees(n, h) && n.active == p.active
    ensures Flag(n.flags, SustainedMspt) == Flag(p.flags, SustainedMspt)
    ensures OutsideStep(p.flags, n.flags, o)
  {
    var flags := p.flags;
    if o.wake.Some? {
      flags := flags[WakeSlo := o.wake.value > WAKE_SLO_MS];
    } else if o.state.OtherState? {
      flags := flags[WakeSlo := false];
    }
    if o.benchmark.Some? {
      flags := flags[BenchmarkRegression := o.benchmark.value];
    }
    OtherFlags(p, flags, h);
    n := p.(flags := flags);
  }

  // ---------- emissions ----------

  /** Exactly one emission for each of these groups, and it is the group's candidate. */
  ghost predicate EmitsFor(out: seq<Emission>, candidates: map<Group, Signal>, groups: set<Group>)
    decreases |out|
  {
    if out == [] then groups == {}
    else
      var e := out[|out| - 1];
      var g := GroupOf(e.signal);
      && g in groups && g in candidates && e.signal == candidates[g]
      && EmitsFor(out[..|out| - 1], candidates, groups - {g})
  }

  lemma EmitsOneMore(out: seq<Emission>, candidates: map<Group, Signal>, groups: set<Group>, e: Emission, g: Group)
    requires EmitsFor(out, candidates, groups) && g !in groups
    requires g in candidates && e.signal == candidates[g] && GroupOf(e.signal) == g
    ensures EmitsFor(out + [e], candidates, groups + {g})
  {
    assert (out + [e])[..|out|] == out;
    assert groups + {g} - {g} == groups;
  }

  /** One emission, led by its highest-priority signal, for exactly the groups that are breached now
      and were not before. */
  ghost predicate RisingEdges(out: seq<Emission>, before: set<Group>, breached: set<Signal>) {
    && (forall e :: e in out ==> GroupOf(e.signal) !in before && Leads(e.signal, breached))
    && (forall g :: g in Groups(breached) - before ==> exists e :: e in out && GroupOf(e.signal) == g)
    && (forall i, j :: 0 <= i < j < |out| ==> GroupOf(out[i].signal) != GroupOf(out[j].signal))
  }

  lemma {:induction false} EmissionsMean(out: seq<Emission>, candidates: map<Group, Signal>, groups: set<Group>)
    requires EmitsFor(out, candidates, groups)
    ensures forall g :: g in groups ==> exists e :: e in out && GroupOf(e.signal) == g
    ensures forall e :: e in out ==> GroupOf(e.signal) in candidates && e.signal == candidates[GroupOf(e.signal)]
    ensures forall e :: e in out ==> GroupOf(e.signal) in groups
    ensures forall i, j :: 0 <= i < j < |out| ==> GroupOf(out[i].signal) != GroupOf(out[j].signal)
    decreases |out|
  {
    if out != [] {
      var front, last := out[..|out| - 1], out[|out| - 1];
      assert out == front + [last];
      var rest := groups - {GroupOf(last.signal)};
      EmissionsMean(front, candidates, rest);
      forall g | g in groups ensures exists e :: e in out && GroupOf(e.signal) == g {
        if g in rest {
          var e :| e in front && GroupOf(e.signal) == g;
          assert e in out;
        } else {
          assert last in out;
        }
      }
      forall i | 0 <= i < |front| ensures GroupOf(out[i].signal) != GroupOf(last.signal) { assert out[i] in front; }
    }
  }

  lemma EmissionsRise(out: seq<Emission>, candidates: map<Group, Signal>, before: set<Group>, breached: set<Signal>)
    requires Chooses(candidates, breached) && EmitsFor(out, candidates, candidates.Keys - before)
    ensures RisingEdges(out, before, breached)
  {
    EmissionsMean(out, candidates, candidates.Keys - before);
  }

  /** All generations handed out so far increase, up to the last one. */
  ghost predicate Increasing(issued: seq<int>, last: int) {
    && (forall i, j :: 0 <= i < j < |issued| ==> issued[i] < issued[j])
    && (forall i :: 0 <= i < |issued| ==> issued[i] <= last)
  }

  ghost function Generations(out: seq<Emission>): seq<int> {
    if out == [] then [] else Generations(out[..|out| - 1]) + [out[|out| - 1].generation]
  }

  lemma GenerationsOneMore(issued: seq<int>, out: seq<Emission>, e: Emission)
    ensures issued + Generations(out + [e]) == issued + Generations(out) + [e.generation]
  {
    assert (out + [e])[..|out|] == out;
  }

  /** `observe` up to the emissions: the new state of the profile and each breached group's candidate. */
  method Evaluate(p: Profile, o: Input, ghost h: History)
    returns (n: Profile, candidates: map<Group, Signal>, ghost g: History)
    requires Agrees(p, h)
    ensures Chooses(candidates, Breached(n.flags, o.state))
    ensures n.active == candidates.Keys && Agrees(n, g)
    ensures Step(p.flags, n.flags, h, g, o)
  {
    n, g := UpdateSamples(p, o, h);
    n := UpdateFlags(n, o, g);
    candidates := SelectCandidates(n.flags, o.state);
    n, g := n.(active := candidates.Keys), g.(groups := candidates.Keys);
  }

  // ---------- what a step emits, flag by flag ----------

  predicate Emits(out: seq<Emission>, s: Signal) { exists e :: e in out && e.signal == s }

  /** The breached groups of a profile in this state with these flags. */
  predicate GroupsFollow(groups: set<Group>, flags: map<Signal, bool>, state: State) {
    && (RuntimePressure in groups <==> state.Running? && (Flag(flags, SustainedMspt) || Flag(flags, MemoryGrowth)))
    && (WakePath in groups <==> (state.Running? || state.Starting?) && Flag(flags, WakeSlo))
    && (Benchmark in groups <==> Flag(flags, BenchmarkRegression))
    && HostStorage !in groups
  }

  /** What is emitted when these groups were breached before: memory growth hides tick time, neither is
      reported unless the profile runs, a stopped profile reports no wake time, and disk pressure is
      left to others. */
  predicate EmissionsFollow(out: seq<Emission>, before: set<Group>, flags: map<Signal, bool>, state: State) {
    && (Emits(out, MemoryGrowth) <==> state.Running? && Flag(flags, MemoryGrowth) && RuntimePressure !in before)
    && (Emits(out, SustainedMspt) <==>
          state.Running? && Flag(flags, SustainedMspt) && !Flag(flags, MemoryGrowth) && RuntimePressure !in before)
    && (Emits(out, WakeSlo) <==> (state.Running? || state.Starting?) && Flag(flags, WakeSlo) && WakePath !in before)
    && (Emits(out, BenchmarkRegression) <==> Flag(flags, BenchmarkRegression) && Benchmark !in before)
    && !Emits(out, DiskPressure)
  }

  lemma GroupsByFlag(flags: map<Signal, bool>, state: State)
    ensures GroupsFollow(Groups(Breached(flags, state)), flags, state)
  {
    var b := Breached(flags, state);
    forall s | s in b ensures GroupOf(s) in Groups(b) {}
    assert SustainedMspt in b <==> state.Running? && Flag(flags, SustainedMspt);
    assert MemoryGrowth in b <==> state.Running? && Flag(flags, MemoryGrowth);
    assert WakeSlo in b <==> !state.OtherState? && Flag(flags, WakeSlo);
    assert BenchmarkRegression in b <==> Flag(flags, BenchmarkRegression);
  }

  lemma EmittedLeads(out: seq<Emission>, before: set<Group>, breached: set<Signal>, s: Signal)
    requires RisingEdges(out, before, breached)
    ensures Emits(out, s) ==> GroupOf(s) !in before && Leads(s, breached)
    ensures GroupOf(s) !in before && s in breached ==>
      exists e :: e in out && GroupOf(e.signal) == GroupOf(s) && Leads(e.signal, breached)
  {
    if s in breached && GroupOf(s) !in before {
      assert GroupOf(s) in Groups(breached) - before;
      var e :| e in out && GroupOf(e.signal) == GroupOf(s);
      assert Leads(e.signal, breached);
    }
  }

  lemma EmissionsByFlag(out: seq<Emission>, before: set<Group>, flags: map<Signal, bool>, state: State)
    requires RisingEdges(out, before, Breached(flags, state))
    ensures EmissionsFollow(out, before, flags, state)
  {
    var b := Breached(flags, state);
    EmittedLeads(out, before, b, SustainedMspt);
    EmittedLeads(out, before, b, MemoryGrowth);
    EmittedLeads(out, before, b, WakeSlo);
    EmittedLeads(out, before, b, BenchmarkRegression);
    EmittedLeads(out, before, b, DiskPressure);
  }

  class Evaluator {
    var profiles: map<string, Profile>
    var lastGeneration: int
    ghost var histories: map<string, History>
    ghost var issued: seq<int>          // every generation handed out so far, for any profile

    ghost predicate Valid()
      reads this
    {
      && profiles.Keys == histories.Keys
      && (forall id :: id in profiles ==> Agrees(profiles[id], histories[id]))
      && Increasing(issued, lastGeneration)
    }

    /** What has happened to a profile; nothing, if it was never observed. */
    ghost function HistoryOf(id: string): History
      reads this
    {
      if id in histories then histories[id] else NEW_HISTORY
    }

    ghost function FlagsOf(id: string): map<Signal, bool>
      reads this
    {
      if id in profiles then profiles[id].flags else map[]
    }

    constructor ()
      ensures Valid() && profiles == map[] && issued == [] && lastGeneration == 0
    {
      profiles, lastGeneration, histories, issued := map[], 0, map[], [];
    }

    /** `_generation`: never below the clock and always above the last one, even if the clock goes back. */
    method NextGeneration(clock: int) returns (g: int)
      requires Increasing(issued, lastGeneration)
      modifies this`lastGeneration, this`issued
      ensures g > old(lastGeneration) && g >= clock && (g == clock || g == old(lastGeneration) + 1)
      ensures lastGeneration == g && issued == old(issued) + [g] && Increasing(issued, lastGeneration)
    {
      g := if lastGeneration + 1 >= clock then lastGeneration + 1 else clock;
      lastGeneration := g;
      issued := issued + [g];
    }

    /** The emission loop: one generation for every newly breached group.  `clock` answers the
        readings of the generation clock. */
    method Emit(candidates: map<Group, Signal>, active: set<Group>, clock: nat -> int) returns (out: seq<Emission>)
      requires Increasing(issued, lastGeneration)
      requires forall g :: g in candidates ==> GroupOf(candidates[g]) == g
      modifies this`lastGeneration, this`issued
      ensures Increasing(issued, lastGeneration) && issued == old(issued) + Generations(out)
      ensures EmitsFor(out, candidates, candidates.Keys - active)
    {
      out := [];
      var todo, done: set<Group> := candidates.Keys, {};
      while todo != {}
        invariant todo !! done && todo + done == candidates.Keys
        invariant Increasing(issued, lastGeneration) && issued == old(issued) + Generations(out)
        invariant EmitsFor(out, candidates, done - active)
        decreases todo
      {
        var g :| g in todo;
        todo := todo - {g};
        if g in active {
          assert done + {g} - active == done - active;
        } else {
          var n := NextGeneration(clock(|out|));
          var e := Emission(candidates[g], n);
          EmitsOneMore(out, candidates, done - active, e, g);
          assert done + {g} - active == (done - active) + {g};
          GenerationsOneMore(old(issued), out, e);
          out := out + [e];
        }
        done := done + {g};
      }
      assert done == candidates.Keys;
    }

    /** Groups that are no longer breached are dropped, then the new ones emit. */
    method EmitNew(candidates: map<Group, Signal>, active: set<Group>, clock: nat -> int, ghost breached: set<Signal>)
      returns (out: seq<Emission>)
      requires Increasing(issued, lastGeneration) && Chooses(candidates, breached)
      modifies this`lastGeneration, this`issued
      ensures Increasing(issued, lastGeneration) && issued == old(issued) + Generations(out)
      ensures RisingEdges(out, active, breached)
    {
      out := Emit(candidates, active * candidates.Keys, clock);
      assert candidates.Keys - active * candidates.Keys == candidates.Keys - active;
      EmissionsRise(out, candidates, active, breached);
    }

    method Store(id: string, p: Profile, ghost h: History)
      requires Valid() && Agrees(p, h)
      modifies this`profiles, this`histories
      ensures Valid() && HistoryOf(id) == h && FlagsOf(id) == p.flags
      ensures forall q :: q != id ==> HistoryOf(q) == old(HistoryOf(q)) && FlagsOf(q) == old(FlagsOf(q))
    {
      profiles := profiles[id := p];
      histories := histories[id := h];
    }

    /** `observe`: over every run a group emits exactly on the rising edges of being breached, and the
        generations of all profiles together increase. */
    method Observe(id: string, o: Input, clock: nat -> int) returns (out: seq<Emission>)
      requires Valid()
      modifies this
      ensures Valid() && issued == old(issued) + Generations(out)
      ensures Step(old(FlagsOf(id)), FlagsOf(id), old(HistoryOf(id)), HistoryOf(id), o)
      ensures HistoryOf(id).groups == Groups(Breached(FlagsOf(id), o.state))
      ensures RisingEdges(out, old(HistoryOf(id)).groups, Breached(FlagsOf(id), o.state))
      ensures GroupsFollow(HistoryOf(id).groups, FlagsOf(id), o.state)
      ensures EmissionsFollow(out, old(HistoryOf(id)).groups, FlagsOf(id), o.state)
      ensures forall q :: q != id ==> HistoryOf(q) == old(HistoryOf(q)) && FlagsOf(q) == old(FlagsOf(q))
    {
      var p := if id in profiles then profiles[id] else NEW_PROFILE;
      ghost var h := HistoryOf(id);
      var n, candidates, g := Evaluate(p, o, h);
      out := EmitNew(candidates, p.active, clock, Breached(n.flags, o.state));
      GroupsByFlag(n.flags, o.state);
      EmissionsByFlag(out, p.active, n.flags, o.state);
      Store(id, n, g);
    }
  }
}
