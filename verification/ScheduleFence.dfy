/** The revision fence that orders schedule reads and saves in the browser (`loadSchedules` and
    `replaceSchedules` in web/app.js).

    A book is represented by the version of the server's book it was taken from.  Between two
    awaits the page runs without interruption, so the steps of a run are the parts of the two
    functions before and after their await, plus what the server does meanwhile. */
module ScheduleFence {
  import opened Wrappers

  /** What `loadSchedules` captures before it awaits. */
  datatype Ticket = Ticket(request: nat, revision: nat)

  /** The page's variables. */
  datatype Page = Page(loads: nat, revision: nat, pending: bool, shown: nat)

  predicate MayApply(p: Page, t: Ticket) { t == Ticket(p.loads, p.revision) && !p.pending }

  function LoadBegun(p: Page): Page { if p.pending then p else p.(loads := p.loads + 1) }

  function LoadFinished(p: Page, t: Ticket, response: Option<nat>): Page {
    if response.Some? && MayApply(p, t) then p.(shown := response.value) else p
  }

  function SaveBegun(p: Page, confirmed: bool): Page {
    if p.pending || !confirmed then p else p.(pending := true, revision := p.revision + 1)
  }

  function SaveFinished(p: Page, response: Option<nat>): Page {
    p.(pending := false, shown := if response.Some? then response.value else p.shown)
  }

  class SchedulePage {
    var loads: nat
    var revision: nat
    var pending: bool
    var shown: nat

    function State(): Page
      reads this
    {
      Page(loads, revision, pending, shown)
    }

    constructor (shown: nat)
      ensures State() == Page(0, 0, false, shown)
    {
      loads, revision, pending := 0, 0, false;
      this.shown := shown;
    }

    /** `loadSchedules` before its await. */
    method BeginLoad() returns (t: Option<Ticket>)
      modifies this`loads
      ensures State() == LoadBegun(old(State()))
      ensures t == if pending then None else Some(Ticket(loads, revision))
    {
      if pending { return None; }
      loads := loads + 1;
      t := Some(Ticket(loads, revision));
    }

    /** `loadSchedules` after its await; `response` is absent if the request failed. */
    method FinishLoad(t: Ticket, response: Option<nat>)
      modifies this`shown
      ensures State() == LoadFinished(old(State()), t, response)
    {
      if response.None? { return; }
      if t.request != loads || t.revision != revision || pending { return; }
      shown := response.value;
    }

    /** `replaceSchedules` before its await. */
    method BeginSave(confirmed: bool) returns (ok: bool)
      modifies this`pending, this`revision
      ensures State() == SaveBegun(old(State()), confirmed)
      ensures ok <==> !old(pending) && confirmed
    {
      if pending || !confirmed { return false; }
      pending, revision := true, revision + 1;
      ok := true;
    }

    /** `replaceSchedules` after its await. */
    method FinishSave(response: Option<nat>)
      modifies this`pending, this`shown
      ensures State() == SaveFinished(old(State()), response)
    {
      if response.Some? { shown := response.value; }
      pending := false;
    }
  }

  // ---------- runs ----------

  /** A read in flight: its ticket, when it started, and the version the server answered with. */
  datatype Read = Read(ticket: Ticket, started: nat, answer: Option<nat>)

  /** The page, the server and what is in flight.  `clock` counts events; `saveBegan` and
      `readBegan` are when the latest save and the latest read began. */
  datatype World = World(page: Page, server: nat, loading: map<nat, Read>, saves: map<nat, Option<nat>>,
                         clock: nat, saveBegan: nat, readBegan: nat)

  datatype Event =
    | StartRead(id: nat)
    | ServeRead(id: nat)
    | EndRead(id: nat, ok: bool)
    | StartSave(id: nat, confirmed: bool)
    | ServeSave(id: nat)
    | EndSave(id: nat, ok: bool)
    | OtherWrite

  /** The step overwrites the displayed book with what a read brought. */
  predicate Overwrites(w: World, e: Event) {
    e.EndRead? && e.id in w.loading && e.ok && w.loading[e.id].answer.Some? && MayApply(w.page, w.loading[e.id].ticket)
  }

  function Step(w: World, e: Event): World {
    match e
    case StartRead(id) =>
      if w.page.pending || id in w.loading then w
      else
        var p := LoadBegun(w.page);
        var read := Read(Ticket(p.loads, p.revision), w.clock, None);
        w.(page := p, readBegan := w.clock, loading := w.loading[id := read])
    case ServeRead(id) =>
      if id in w.loading && w.loading[id].answer.None?
      then w.(loading := w.loading[id := w.loading[id].(answer := Some(w.server))]) else w
    case EndRead(id, ok) =>
      if id !in w.loading || (ok && w.loading[id].answer.None?) then w
      else w.(loading := w.loading - {id},
              page := LoadFinished(w.page, w.loading[id].ticket, if ok then w.loading[id].answer else None))
    case StartSave(id, confirmed) =>
      if w.page.pending || !confirmed || id in w.saves then w
      else w.(page := SaveBegun(w.page, confirmed), saveBegan := w.clock, saves := w.saves[id := None])
    case ServeSave(id) =>
      if id in w.saves && w.saves[id].None?
      then w.(server := w.server + 1, saves := w.saves[id := Some(w.server + 1)]) else w
    case EndSave(id, ok) =>
      if id !in w.saves || (ok && w.saves[id].None?) then w
      else w.(page := SaveFinished(w.page, if ok then w.saves[id] else None), saves := w.saves - {id})
    case OtherWrite => w.(server := w.server + 1)
  }

  function Next(w: World, e: Event): World { Step(w, e).(clock := w.clock + 1) }

  function Initial(server: nat): World { World(Page(0, 0, false, server), server, map[], map[], 1, 0, 0) }

  function Run(w: World, events: seq<Event>): World {
    if events == [] then w else Next(Run(w, events[..|events| - 1]), events[|events| - 1])
  }

  // ---------- what every step keeps ----------

  /** What is known of a read in flight: when it is the newest and no save came after it, it may
      still be applied, and then it brings nothing older than what is shown. */
  predicate ReadOk(w: World, r: Read) {
    && r.started < w.clock && r.started <= w.readBegan
    && r.ticket.request <= w.page.loads && r.ticket.revision <= w.page.revision
    && (r.ticket.request == w.page.loads <==> r.started == w.readBegan)
    && (r.ticket.revision == w.page.revision <==> r.started > w.saveBegan)
    && (r.started > w.saveBegan ==> !w.page.pending)
    && (r.answer.Some? ==> r.answer.value <= w.server)
    && (r.answer.Some? && r.ticket == Ticket(w.page.loads, w.page.revision) ==> w.page.shown <= r.answer.value)
  }

  predicate ReadsOk(w: World) { forall i :: i in w.loading ==> ReadOk(w, w.loading[i]) }

  predicate TicketsApart(loading: map<nat, Read>) {
    forall i, j :: i in loading && j in loading && loading[i].ticket.request == loading[j].ticket.request ==> i == j
  }

  predicate SavesOk(w: World) {
    && (w.page.pending <==> w.saves != map[])
    && (forall i, j :: i in w.saves && j in w.saves ==> i == j)
    && (forall i :: i in w.saves && w.saves[i].Some? ==> w.page.shown <= w.saves[i].value <= w.server)
  }

  predicate Inv(w: World) {
    && w.page.shown <= w.server && w.saveBegan < w.clock && w.readBegan < w.clock
    && SavesOk(w) && ReadsOk(w) && TicketsApart(w.loading)
  }

  lemma ReadStepKeepsInv(w: World, e: Event)
    requires Inv(w) && (e.StartRead? || e.ServeRead? || e.EndRead?)
    ensures Inv(Next(w, e)) && w.page.shown <= Next(w, e).page.shown
  {
    var n := Next(w, e);
    forall i | i in n.loading ensures ReadOk(n, n.loading[i]) {
      if i in w.loading { assert ReadOk(w, w.loading[i]); }
    }
  }

  lemma SaveStepKeepsInv(w: World, e: Event)
    requires Inv(w) && (e.StartSave? || e.ServeSave? || e.EndSave? || e.OtherWrite?)
    ensures Inv(Next(w, e)) && w.page.shown <= Next(w, e).page.shown
  {
    var n := Next(w, e);
    forall i | i in n.loading ensures ReadOk(n, n.loading[i]) { assert ReadOk(w, w.loading[i]); }
    assert SavesOk(n) by { assert n.page.pending <==> n.saves != map[]; }
  }

  lemma {:induction false} RunKeepsInv(server: nat, events: seq<Event>)
    ensures Inv(Run(Initial(server), events))
  {
    if events != [] {
      RunKeepsInv(server, events[..|events| - 1]);
      StepKeepsInv(Run(Initial(server), events[..|events| - 1]), events[|events| - 1]);
    }
  }

  lemma StepKeepsInv(w: World, e: Event)
    requires Inv(w)
    ensures Inv(Next(w, e)) && w.page.shown <= Next(w, e).page.shown
  {
    if e.StartRead? || e.ServeRead? || e.EndRead? {
      ReadStepKeepsInv(w, e);
    } else {
      SaveStepKeepsInv(w, e);
    }
  }

  /** Over every run at most one save is in flight. */
  lemma OneSaveAtATime(server: nat, events: seq<Event>, i: nat, j: nat)
    requires i in Run(Initial(server), events).saves && j in Run(Initial(server), events).saves
    ensures i == j
  {
    RunKeepsInv(server, events);
  }

  /** Over every run, a read that overwrites the displayed book started after the latest save
      began, is the newest read issued, and meets no save in flight. */
  lemma OnlyTheNewestReadOverwrites(server: nat, events: seq<Event>, e: Event)
    requires Overwrites(Run(Initial(server), events), e)
    ensures var w := Run(Initial(server), events);
      w.saveBegan < w.loading[e.id].started == w.readBegan && w.saves == map[]
  {
    RunKeepsInv(server, events);
  }

  /** Over every run, whatever other clients write and whatever requests fail, the displayed book
      never goes back to an older version of the server's book. */
  lemma {:induction false} ShownNeverGoesBack(server: nat, events: seq<Event>, more: seq<Event>)
    ensures Run(Initial(server), events).page.shown <= Run(Initial(server), events + more).page.shown
    decreases |more|
  {
    if more == [] {
      assert events + more == events;
    } else {
      var shorter := more[..|more| - 1];
      ShownNeverGoesBack(server, events, shorter);
      assert (events + more)[..|events + more| - 1] == events + shorter;
      RunKeepsInv(server, events + shorter);
      StepKeepsInv(Run(Initial(server), events + shorter), more[|more| - 1]);
    }
  }

  /** Over every run, exactly this is shown after the next step: what a save that succeeded was answered
      with, what the newest read brought if it succeeded and no save began since, and otherwise what was
      shown before. */
  lemma ShownExactly(server: nat, events: seq<Event>, e: Event)
    ensures var w := Run(Initial(server), events);
      Next(w, e).page.shown ==
        if e.EndSave? && e.ok && e.id in w.saves && w.saves[e.id].Some? then w.saves[e.id].value
        else if e.EndRead? && e.ok && e.id in w.loading && w.loading[e.id].answer.Some?
                && w.saveBegan < w.loading[e.id].started == w.readBegan then w.loading[e.id].answer.value
        else w.page.shown
  {
    RunKeepsInv(server, events);
    var w := Run(Initial(server), events);
    if e.EndRead? && e.id in w.loading { assert ReadOk(w, w.loading[e.id]); }
  }

  /** Over every run, a confirmed save begins exactly when no save is in flight, and so does a read. */
  lemma BeginsExactly(server: nat, events: seq<Event>, id: nat, confirmed: bool)
    ensures var w := Run(Initial(server), events);
      && (id !in w.saves ==> (id in Next(w, StartSave(id, confirmed)).saves <==> confirmed && w.saves == map[]))
      && (id !in w.loading ==> (id in Next(w, StartRead(id)).loading <==> w.saves == map[]))
  {
    RunKeepsInv(server, events);
  }
}
