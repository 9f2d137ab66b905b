/** Crash-safe restore of several data roots (`RestoreService` in
    src/game_control/backups.py).

    A restore stages a new generation for every root, displaces each current
    tree to a rollback path, publishes each staged tree, marks the journal
    `activated` and finally `committed`.  The journal is rewritten between the
    renames; `Reconcile` reads it after a crash.

    Every filesystem operation asks an adversarial `script` what happens to it:
    it may proceed, raise, or be cut off by a crash, and a recursive removal may
    be cut off half way.  The contracts therefore speak about every crash point.
 */
module Restore {
  import opened Wrappers

  datatype Generation = Original | Restored

  /** What a path holds: nothing, a complete tree, or a tree some operation left incomplete. */
  datatype Slot = Absent | Whole(generation: Generation) | Partial

  /** The three paths the protocol uses for one root. */
  datatype Root = Root(dest: Slot, staging: Slot, rollback: Slot)

  datatype Phase = Staged | Displacing | Displaced | Publishing | Activated | Committed

  /** One item of the journal's `roots` list. */
  datatype Entry = Entry(rollbackNamed: bool, originalExists: bool)

  datatype Journal = Journal(phase: Phase, entries: seq<Entry>, activated: seq<nat>, displaced: seq<nat>)

  datatype Disk = Disk(roots: seq<Root>, journal: Option<Journal>)

  /** The adversary's answer to one operation.  `partly` means that the operation's effect
      was reached (or, for a recursive removal, begun) before it was cut off. */
  datatype Fate = Proceeds | Raises(partly: bool) | Dies(partly: bool)

  datatype Outcome = Ok | Raised | Crashed {
    predicate IsFailure() { !Ok? }
    function PropagateFailure(): Outcome { this }
  }

  /** What the caller does with a restore that returned. */
  datatype Finish = Abandon | Commit | RollBack(swallow: set<nat>)

  // ---------- what a disk means ----------

  function Initial(existed: bool): Slot {
    if existed then Whole(Original) else Absent
  }

  function Target(existed: bool, committed: bool): Slot {
    if committed then Whole(Restored) else Initial(existed)
  }

  predicate Distinct(ids: seq<nat>, n: nat) {
    && (forall k :: 0 <= k < |ids| ==> ids[k] < n)
    && (forall k, l :: 0 <= k < l < |ids| ==> ids[k] != ids[l])
  }

  /** What `_validate_journal` checks, for a journal that names the approved roots in order. */
  predicate ValidJournal(j: Journal, n: nat) {
    |j.entries| == n && Distinct(j.activated, n) && Distinct(j.displaced, n)
  }

  /** A journal with the wrong number of roots, or one that lists a root twice or an unknown root. */
  predicate Malformed(j: Journal, n: nat) {
    || |j.entries| != n
    || (exists k :: 0 <= k < |j.activated| && j.activated[k] >= n)
    || (exists k :: 0 <= k < |j.displaced| && j.displaced[k] >= n)
    || (exists k, l :: 0 <= k < l < |j.activated| && j.activated[k] == j.activated[l])
    || (exists k, l :: 0 <= k < l < |j.displaced| && j.displaced[k] == j.displaced[l])
  }

  /** The tree that recovery will leave at a root's destination. */
  function Resolved(d: Disk, i: nat): Slot
    requires i < |d.roots|
    requires d.journal.Some? ==> |d.journal.value.entries| == |d.roots|
  {
    var r := d.roots[i];
    if d.journal.None? || d.journal.value.phase in {Staged, Committed} then r.dest
    else
      var e := d.journal.value.entries[i];
      if e.rollbackNamed && !r.rollback.Absent? then r.rollback
      else if e.originalExists then r.dest
      else Absent
  }

  predicate RootUndecided(existed: bool, r: Root, e: Entry) {
    && e.originalExists == existed
    && if existed then
         || (r.dest == Whole(Original) && r.rollback.Absent?)
         || (r.rollback == Whole(Original) && e.rollbackNamed && r.dest != Whole(Original))
       else
         r.rollback.Absent? && (r.dest.Absent? || r.staging.Absent?)
  }

  /** The invariant of the durable state: it mentions no program counter, so it is what a
      process that starts after a crash can rely on. */
  predicate Recoverable(existed: seq<bool>, d: Disk, committed: bool) {
    && |d.roots| == |existed|
    && match d.journal {
      case None =>
        forall i :: 0 <= i < |existed| ==>
          d.roots[i].dest == Target(existed[i], committed) && d.roots[i].rollback.Absent?
      case Some(j) =>
        && ValidJournal(j, |existed|)
        && (j.phase.Committed? <==> committed)
        && forall i :: 0 <= i < |existed| ==>
          if j.phase.Staged? then
            d.roots[i].dest == Initial(existed[i]) && d.roots[i].rollback.Absent?
          else if j.phase.Committed? then
            && d.roots[i].dest == Whole(Restored)
            && (d.roots[i].rollback.Absent? || j.entries[i].rollbackNamed)
          else
            RootUndecided(existed[i], d.roots[i], j.entries[i])
    }
  }

  function Entries(named: seq<bool>, existed: seq<bool>): (es: seq<Entry>)
    requires |named| == |existed|
    ensures |es| == |existed|
    ensures forall i :: 0 <= i < |es| ==> es[i] == Entry(named[i], existed[i])
  {
    seq(|existed|, i requires 0 <= i < |existed| => Entry(named[i], existed[i]))
  }

  function Upto(k: nat): (s: seq<nat>)
    ensures |s| == k && forall i :: 0 <= i < k ==> s[i] == i
  {
    seq(k, i requires 0 <= i < k => i)
  }

  /** All-or-nothing: a recoverable disk resolves every root to the same generation. */
  lemma ResolvesToOneGeneration(existed: seq<bool>, d: Disk, committed: bool, i: nat)
    requires Recoverable(existed, d, committed) && i < |existed|
    ensures Resolved(d, i) == Target(existed[i], committed)
  {
  }

  /** No original is lost: until the commit, every root that existed still has its complete
      tree at its destination or at the rollback path that the journal names. */
  lemma OriginalSurvives(existed: seq<bool>, d: Disk, i: nat)
    requires Recoverable(existed, d, false) && i < |existed| && existed[i]
    ensures d.roots[i].dest == Whole(Original)
         || (d.journal.Some? && d.journal.value.entries[i].rollbackNamed
             && d.roots[i].rollback == Whole(Original))
  {
  }

  /** The roots after `displaced` roots were displaced and `activated` of them published. */
  function Layout(existed: seq<bool>, displaced: nat, activated: nat): (roots: seq<Root>)
    ensures |roots| == |existed|
  {
    seq(|existed|, i requires 0 <= i < |existed| =>
      if i < activated then Root(Whole(Restored), Absent, Initial(existed[i]))
      else if i < displaced then Root(Absent, Whole(Restored), Initial(existed[i]))
      else Root(Initial(existed[i]), Whole(Restored), Absent))
  }

  /** The rollback paths that are named once `displaced` roots were displaced. */
  function NamedUpto(existed: seq<bool>, displaced: nat): (named: seq<bool>)
    ensures |named| == |existed|
  {
    seq(|existed|, i requires 0 <= i < |existed| => i < displaced && existed[i])
  }

  predicate Covers(entries: seq<Entry>, existed: seq<bool>, displaced: nat) {
    && |entries| == |existed|
    && forall i :: 0 <= i < |existed| ==>
         entries[i].originalExists == existed[i] && (i < displaced && existed[i] ==> entries[i].rollbackNamed)
  }

  /** The state in which an operation of the displacement or publication loop is interrupted. */
  predicate Interrupted(existed: seq<bool>, d: Disk, displaced: nat, activated: nat) {
    && activated <= displaced <= |existed|
    && d.roots == Layout(existed, displaced, activated)
    && d.journal.Some? && !d.journal.value.phase.Committed?
    && (d.journal.value.phase.Staged? ==> displaced == 0)
    && Covers(d.journal.value.entries, existed, displaced)
    && ValidJournal(d.journal.value, |existed|)
  }

  lemma InterruptedIsRecoverable(existed: seq<bool>, d: Disk, displaced: nat, activated: nat)
    requires Interrupted(existed, d, displaced, activated)
    ensures Recoverable(existed, d, false)
  {
  }

  // ---------- scripts with one disturbance ----------

  predicate AllProceed(script: seq<Fate>) {
    forall f :: f in script ==> f.Proceeds?
  }

  predicate NoneDies(script: seq<Fate>) {
    forall f :: f in script ==> !f.Dies?
  }

  /** The only disturbance is an exception at operation `k`. */
  predicate RaiseAt(script: seq<Fate>, k: int) {
    0 <= k < |script| && script[k].Raises? && forall i :: 0 <= i < |script| && i != k ==> script[i].Proceeds?
  }

  /** `n` operations in a row, of which the first one that raises is the last: if only one exception
      is due, it strikes among them and nothing disturbs what follows, or it is due `n` operations
      sooner afterwards. */
  ghost predicate Spends(before: seq<Fate>, after: seq<Fate>, o: Outcome, n: nat) {
    forall k :: RaiseAt(before, k) ==>
      if k < n then o.Raised? && AllProceed(after) else o.Ok? && RaiseAt(after, k - n)
  }

  lemma SpendsThen(before: seq<Fate>, between: seq<Fate>, after: seq<Fate>, o: Outcome, m: nat, n: nat, total: nat)
    requires Spends(before, between, Ok, m) && Spends(between, after, o, n)
    requires if o.Ok? then total == m + n else m + n <= total
    ensures Spends(before, after, o, total)
  {
  }

  /** The operations of the displacement loop for the first `i` roots. */
  function DisplacementSteps(existed: seq<bool>, i: nat): nat
    requires i <= |existed|
  {
    if i == 0 then 0 else DisplacementSteps(existed, i - 1) + if existed[i - 1] then 5 else 3
  }

  lemma DisplacementStepsGrow(existed: seq<bool>, i: nat, j: nat)
    requires i <= j <= |existed|
    ensures DisplacementSteps(existed, i) <= DisplacementSteps(existed, j)
  {
  }

  lemma AfterDisplacing(existed: seq<bool>, i: nat, before: seq<Fate>, now: seq<Fate>, after: seq<Fate>, o: Outcome)
    requires i < |existed| && Spends(before, now, Ok, DisplacementSteps(existed, i))
    requires Spends(now, after, o, if existed[i] then 5 else 3)
    ensures Spends(before, after, o, DisplacementSteps(existed, if o.Ok? then i + 1 else |existed|))
  {
    DisplacementStepsGrow(existed, i + 1, |existed|);
    SpendsThen(before, now, after, o, DisplacementSteps(existed, i), if existed[i] then 5 else 3,
               DisplacementSteps(existed, if o.Ok? then i + 1 else |existed|));
  }

  /** The operations that the exception handler guards: displacement, the `displaced` journal and
      publication. */
  function GuardedSteps(existed: seq<bool>): nat {
    DisplacementSteps(existed, |existed|) + 1 + 5 * |existed|
  }

  /** The operations of a restore before its `activated` journal is written: staging directories and
      first journal, extraction, and what the handler guards. */
  function StepsToActivation(existed: seq<bool>): nat {
    (|existed| + 2) + |existed| + GuardedSteps(existed)
  }

  // ---------- the service ----------

  class RestoreService {
    const existed: seq<bool>      // target.inode != 0 for each approved root
    var disk: Disk
    var script: seq<Fate>
    ghost var committed: bool     // the durable journal has said `committed`

    ghost predicate Inv()
      reads this
    {
      Recoverable(existed, disk, committed)
    }

    ghost predicate Fresh()
      reads this
    {
      && |disk.roots| == |existed| && disk.journal.None? && !committed
      && forall i :: 0 <= i < |existed| ==> disk.roots[i] == Root(Initial(existed[i]), Absent, Absent)
    }

    ghost predicate Calm()
      reads this
    {
      AllProceed(script)
    }

    ghost predicate NoStaging()
      reads this
    {
      forall i :: 0 <= i < |disk.roots| ==> disk.roots[i].staging.Absent?
    }

    /** The complete original tree of a root is at its destination or at the rollback path that the
        journal names. */
    ghost predicate HasOriginal(i: nat)
      reads this
    {
      && i < |disk.roots|
      && (|| disk.roots[i].dest == Whole(Original)
          || (&& disk.journal.Some? && i < |disk.journal.value.entries| && disk.journal.value.entries[i].rollbackNamed
              && disk.roots[i].rollback == Whole(Original)))
    }

    constructor (existed: seq<bool>, script: seq<Fate>)
      ensures Fresh() && this.existed == existed && this.script == script
    {
      this.existed := existed;
      this.script := script;
      disk := Disk(seq(|existed|, i requires 0 <= i < |existed| => Root(Initial(existed[i]), Absent, Absent)), None);
      committed := false;
    }

    // ----- primitive operations -----

    method NextFate() returns (f: Fate)
      modifies this`script
      ensures old(Calm()) ==> f.Proceeds? && Calm()
      ensures forall k :: RaiseAt(old(script), k) ==>
        if k == 0 then f.Raises? && Calm() else f.Proceeds? && RaiseAt(script, k - 1)
      ensures NoneDies(old(script)) ==> !f.Dies? && NoneDies(script)
    {
      if script == [] {
        f := Proceeds;
      } else {
        f := script[0];
        script := script[1..];
      }
    }

    /** A check that touches nothing but may raise: the lease check, an fsync of a directory. */
    method Check() returns (o: Outcome)
      modifies this`script
      ensures old(Calm()) ==> o.Ok? && Calm()
      ensures Spends(old(script), script, o, 1)
    {
      var f := NextFate();
      o := match f case Proceeds => Ok case Raises(_) => Raised case Dies(_) => Crashed;
    }

    /** `_write_json_fsync`: one atomic rename, after which the directory sync can still fail. */
    method WriteJournal(j: Journal) returns (o: Outcome)
      modifies this`script, this`disk, this`committed
      ensures (disk == old(disk) && committed == old(committed))
           || (disk == old(disk).(journal := Some(j)) && committed == (old(committed) || j.phase.Committed?))
      ensures o.Ok? ==> disk == old(disk).(journal := Some(j)) && committed == (old(committed) || j.phase.Committed?)
      ensures old(Calm()) ==> o.Ok? && Calm()
      ensures Spends(old(script), script, o, 1)
    {
      var f := NextFate();
      if f.Proceeds? || f.partly {
        disk := disk.(journal := Some(j));
        committed := committed || j.phase.Committed?;
      }
      o := match f case Proceeds => Ok case Raises(_) => Raised case Dies(_) => Crashed;
    }

    method UnlinkJournal() returns (o: Outcome)
      modifies this`script, this`disk
      ensures disk == if o.Ok? then old(disk).(journal := None) else old(disk)
      ensures old(Calm()) ==> o.Ok? && Calm()
    {
      var f := NextFate();
      if f.Proceeds? {
        disk := disk.(journal := None);
      }
      o := match f case Proceeds => Ok case Raises(_) => Raised case Dies(_) => Crashed;
    }

    /** Replace one root's paths by an atomic step: a rename or a directory creation. */
    method Move(i: nat, r: Root) returns (o: Outcome)
      requires i < |disk.roots|
      modifies this`script, this`disk
      ensures disk == if o.Ok? then old(disk).(roots := old(disk.roots)[i := r]) else old(disk)
      ensures old(Calm()) ==> o.Ok? && Calm()
      ensures Spends(old(script), script, o, 1)
    {
      var f := NextFate();
      if f.Proceeds? {
        disk := disk.(roots := disk.roots[i := r]);
      }
      o := match f case Proceeds => Ok case Raises(_) => Raised case Dies(_) => Crashed;
    }

    /** `shutil.rmtree` (or an extraction): not atomic.  `half` is the root with the tree
        incomplete, `whole` the root with the operation finished. */
    method Rework(i: nat, half: Root, whole: Root) returns (o: Outcome)
      requires i < |disk.roots|
      modifies this`script, this`disk
      ensures disk == old(disk) || disk == old(disk).(roots := old(disk.roots)[i := half])
           || disk == old(disk).(roots := old(disk.roots)[i := whole])
      ensures o.Ok? ==> disk == old(disk).(roots := old(disk.roots)[i := whole])
      ensures old(Calm()) ==> o.Ok? && Calm()
      ensures NoneDies(old(script)) ==> !o.Crashed? && NoneDies(script)
      ensures Spends(old(script), script, o, 1)
    {
      var f := NextFate();
      if f.Proceeds? {
        disk := disk.(roots := disk.roots[i := whole]);
      } else if f.partly {
        disk := disk.(roots := disk.roots[i := half]);
      }
      o := match f case Proceeds => Ok case Raises(_) => Raised case Dies(_) => Crashed;
    }

    method RemoveDest(i: nat) returns (o: Outcome)
      requires i < |disk.roots| && !disk.roots[i].dest.Absent?
      modifies this`script, this`disk
      ensures |disk.roots| == old(|disk.roots|) && disk.journal == old(disk.journal)
      ensures disk.roots == old(disk.roots)[i := old(disk.roots)[i].(dest := disk.roots[i].dest)]
      ensures disk.roots[i].dest in {old(disk.roots)[i].dest, Partial, Absent}
      ensures o.Ok? ==> disk.roots[i].dest.Absent?
      ensures old(Calm()) ==> o.Ok? && Calm()
    {
      var r := disk.roots[i];
      o := Rework(i, r.(dest := Partial), r.(dest := Absent));
    }

    /** `shutil.rmtree(destination, ignore_errors=True)`: an error that strikes is swallowed and
        leaves the tree half removed. */
    method RemoveDestIgnoringErrors(i: nat, strikes: bool) returns (o: Outcome)
      requires i < |disk.roots| && !disk.roots[i].dest.Absent?
      modifies this`script, this`disk
      ensures |disk.roots| == old(|disk.roots|) && disk.journal == old(disk.journal)
      ensures disk.roots == old(disk.roots)[i := old(disk.roots)[i].(dest := disk.roots[i].dest)]
      ensures disk.roots[i].dest in {old(disk.roots)[i].dest, Partial, Absent}
      ensures !o.Raised?
      ensures o.Ok? ==> disk.roots[i].dest == if strikes then Partial else Absent
      ensures old(Calm()) ==> o.Ok? && Calm()
    {
      var r := disk.roots[i];
      var f := NextFate();
      o := if f.Dies? then Crashed else Ok;
      if o.Ok? {
        disk := disk.(roots := disk.roots[i := r.(dest := if strikes then Partial else Absent)]);
      } else if f.partly {
        disk := disk.(roots := disk.roots[i := r.(dest := Partial)]);
      }
    }

    method RemoveRollback(i: nat) returns (o: Outcome)
      requires i < |disk.roots| && !disk.roots[i].rollback.Absent?
      modifies this`script, this`disk
      ensures |disk.roots| == old(|disk.roots|) && disk.journal == old(disk.journal)
      ensures disk.roots == old(disk.roots)[i := old(disk.roots)[i].(rollback := disk.roots[i].rollback)]
      ensures disk.roots[i].rollback in {old(disk.roots)[i].rollback, Partial, Absent}
      ensures o.Ok? ==> disk.roots[i].rollback.Absent?
      ensures old(Calm()) ==> o.Ok? && Calm()
    {
      var r := disk.roots[i];
      o := Rework(i, r.(rollback := Partial), r.(rollback := Absent));
    }

    /** Remove a staging directory if it is there. */
    method RemoveStaging(i: nat) returns (o: Outcome)
      requires i < |disk.roots|
      modifies this`script, this`disk
      ensures |disk.roots| == old(|disk.roots|) && disk.journal == old(disk.journal)
      ensures disk.roots == old(disk.roots)[i := old(disk.roots)[i].(staging := disk.roots[i].staging)]
      ensures old(disk.roots)[i].staging.Absent? ==> disk.roots[i].staging.Absent?
      ensures o.Ok? ==> disk.roots[i].staging.Absent?
      ensures old(Calm()) ==> o.Ok? && Calm()
      ensures NoneDies(old(script)) ==> !o.Crashed? && NoneDies(script)
    {
      o := Ok;
      if !disk.roots[i].staging.Absent? {
        var r := disk.roots[i];
        o := Rework(i, r.(staging := Partial), r.(staging := Absent));
      }
    }

    // ----- restore -----

    ghost predicate At(phase: Phase, displaced: nat, activated: nat)
      reads this
    {
      && Interrupted(existed, disk, displaced, activated) && !committed
      && disk.journal.value.phase == phase
      && disk.journal.value.entries == Entries(NamedUpto(existed, displaced), existed)
    }

    /** Create the staging directories and write the first journal.  A failure here is not
        followed by any cleanup. */
    method Prepare() returns (o: Outcome)
      requires Fresh()
      modifies this
      ensures Inv() && !committed
      ensures forall i :: 0 <= i < |existed| ==> disk.roots[i].dest == Initial(existed[i])
      ensures o.Ok? ==> disk.journal == Some(Journal(Staged, Entries(NamedUpto(existed, 0), existed), [], []))
      ensures o.Ok? ==> forall i :: 0 <= i < |existed| ==> disk.roots[i] == Root(Initial(existed[i]), Partial, Absent)
      ensures old(Calm()) ==> o.Ok? && Calm()
      ensures Spends(old(script), script, o, |existed| + 2)
    {
      for i := 0 to |existed|
        invariant |disk.roots| == |existed| && disk.journal.None? && !committed
        invariant forall k :: 0 <= k < |existed| ==>
          disk.roots[k] == Root(Initial(existed[k]), if k < i then Partial else Absent, Absent)
        invariant (old(Calm()) ==> Calm()) && Spends(old(script), script, Ok, i)
      {
        :- Move(i, disk.roots[i].(staging := Partial));
      }
      :- WriteJournal(Journal(Staged, Entries(NamedUpto(existed, 0), existed), [], []));
      o := Check();
    }

    /** Extract the archive into the staging directories. */
    method Extract() returns (o: Outcome)
      requires Inv() && !committed
      requires disk.journal == Some(Journal(Staged, Entries(NamedUpto(existed, 0), existed), [], []))
      requires forall i :: 0 <= i < |existed| ==> disk.roots[i] == Root(Initial(existed[i]), Partial, Absent)
      modifies this
      ensures Inv() && !committed && disk.journal == old(disk.journal)
      ensures forall i :: 0 <= i < |existed| ==> disk.roots[i].dest == Initial(existed[i])
      ensures o.Ok? ==> At(Staged, 0, 0)
      ensures old(Calm()) ==> o.Ok? && Calm()
      ensures Spends(old(script), script, o, |existed|)
    {
      for i := 0 to |existed|
        invariant |disk.roots| == |existed| && disk.journal == old(disk.journal) && !committed
        invariant forall k :: 0 <= k < |existed| ==>
          disk.roots[k] == Root(Initial(existed[k]), if k < i then Whole(Restored) else Partial, Absent)
        invariant (old(Calm()) ==> Calm()) && Spends(old(script), script, Ok, i)
      {
        var r := disk.roots[i];
        :- Rework(i, r, r.(staging := Whole(Restored)));
      }
      o := Ok;
    }

    /** Name the rollback path of a root in the journal, then check the lease. */
    method AnnounceDisplacement(i: nat, before: seq<bool>) returns (o: Outcome)
      requires i < |existed| && At(if i == 0 then Staged else Displacing, i, 0) && before == NamedUpto(existed, i)
      modifies this
      ensures !committed && Interrupted(existed, disk, i, 0)
      ensures o.Ok? ==> disk.journal == Some(Journal(Displacing, Entries(before[i := true], existed), [], Upto(i)))
      ensures old(Calm()) ==> o.Ok? && Calm()
      ensures Spends(old(script), script, o, 2)
    {
      o := WriteJournal(Journal(Displacing, Entries(before[i := true], existed), [], Upto(i)));
      if !o.Ok? { return; }
      o := Check();
    }

    /** One turn of the displacement loop. */
    method DisplaceRoot(i: nat, before: seq<bool>) returns (o: Outcome, named: seq<bool>, displaced: seq<nat>)
      requires i < |existed| && At(if i == 0 then Staged else Displacing, i, 0) && before == NamedUpto(existed, i)
      modifies this
      ensures !committed && displaced == Upto(|displaced|) && Interrupted(existed, disk, |displaced|, 0)
      ensures |named| == |existed| && forall k :: 0 <= k < |displaced| ==> named[k] == existed[k]
      ensures o.Ok? ==> |displaced| == i + 1 && named == NamedUpto(existed, i + 1) && At(Displacing, i + 1, 0)
      ensures old(Calm()) ==> o.Ok? && Calm()
      ensures Spends(old(script), script, o, if existed[i] then 5 else 3)
    {
      named, displaced := before[i := true], Upto(i);
      :- AnnounceDisplacement(i, before);
      var r := disk.roots[i];
      if !r.dest.Absent? {
        :- Move(i, r.(dest := Absent, rollback := r.dest));
      } else {
        named := named[i := false];
      }
      displaced := displaced + [i];
      assert displaced == Upto(i + 1);
      assert disk.roots == Layout(existed, i + 1, 0);
      assert named == NamedUpto(existed, i + 1);
      if named[i] {
        :- Check();
      }
      :- WriteJournal(Journal(Displacing, Entries(named, existed), [], displaced));
      o := Ok;
    }

    /** One turn of the publication loop. */
    method PublishRoot(i: nat) returns (o: Outcome, activated: seq<nat>)
      requires i < |existed| && At(if i == 0 then Displaced else Publishing, |existed|, i)
      modifies this
      ensures !committed && activated == Upto(|activated|) && Interrupted(existed, disk, |existed|, |activated|)
      ensures o.Ok? ==> |activated| == i + 1 && At(Publishing, |existed|, i + 1)
      ensures old(Calm()) ==> o.Ok? && Calm()
      ensures Spends(old(script), script, o, 5)
    {
      activated := Upto(i);
      var entries := Entries(NamedUpto(existed, |existed|), existed);
      :- WriteJournal(Journal(Publishing, entries, activated, []));
      :- Check();
      var r := disk.roots[i];
      :- Move(i, r.(staging := Absent, dest := r.staging));
      activated := activated + [i];
      assert activated == Upto(i + 1);
      assert disk.roots == Layout(existed, |existed|, i + 1);
      :- Check();
      :- WriteJournal(Journal(Publishing, entries, activated, []));
      o := Ok;
    }

    /** The displacement loop. */
    method DisplaceAll() returns (o: Outcome, named: seq<bool>, displaced: seq<nat>)
      requires At(Staged, 0, 0)
      modifies this
      ensures !committed && displaced == Upto(|displaced|) && Interrupted(existed, disk, |displaced|, 0)
      ensures |named| == |existed| && forall k :: 0 <= k < |displaced| ==> named[k] == existed[k]
      ensures o.Ok? ==> |displaced| == |existed| && named == NamedUpto(existed, |existed|)
      ensures o.Ok? ==> At(if |existed| == 0 then Staged else Displacing, |existed|, 0)
      ensures old(Calm()) ==> o.Ok? && Calm()
      ensures Spends(old(script), script, o, DisplacementSteps(existed, |existed|))
    {
      named, displaced := NamedUpto(existed, 0), [];
      for i := 0 to |existed|
        invariant At(if i == 0 then Staged else Displacing, i, 0)
        invariant named == NamedUpto(existed, i) && displaced == Upto(i)
        invariant (old(Calm()) ==> Calm()) && Spends(old(script), script, Ok, DisplacementSteps(existed, i))
      {
        ghost var now := script;
        o, named, displaced := DisplaceRoot(i, named);
        AfterDisplacing(existed, i, old(script), now, script, o);
        if !o.Ok? { return; }
      }
      o := Ok;
    }

    /** The publication loop. */
    method PublishAll() returns (o: Outcome, activated: seq<nat>)
      requires At(Displaced, |existed|, 0)
      modifies this
      ensures !committed && activated == Upto(|activated|) && Interrupted(existed, disk, |existed|, |activated|)
      ensures o.Ok? ==> |activated| == |existed|
      ensures old(Calm()) ==> o.Ok? && Calm()
      ensures Spends(old(script), script, o, 5 * |existed|)
    {
      activated := [];
      for i := 0 to |existed|
        invariant At(if i == 0 then Displaced else Publishing, |existed|, i)
        invariant activated == Upto(i)
        invariant (old(Calm()) ==> Calm()) && Spends(old(script), script, Ok, 5 * i)
      {
        o, activated := PublishRoot(i);
        if !o.Ok? { return; }
      }
      o := Ok;
    }

    /** The guarded body of `restore`: displace every root, then publish every root.  The
        out-parameters are what the exception handler sees. */
    method Publish() returns (o: Outcome, named: seq<bool>, displaced: seq<nat>, activated: seq<nat>)
      requires At(Staged, 0, 0)
      modifies this
      ensures !committed && displaced == Upto(|displaced|) && activated == Upto(|activated|)
      ensures Interrupted(existed, disk, |displaced|, |activated|)
      ensures |named| == |existed| && forall k :: 0 <= k < |displaced| ==> named[k] == existed[k]
      ensures o.Ok? ==> |displaced| == |activated| == |existed|
      ensures o.Ok? ==> named == NamedUpto(existed, |existed|)
      ensures old(Calm()) ==> o.Ok? && Calm()
      ensures Spends(old(script), script, o, GuardedSteps(existed))
    {
      activated := [];
      o, named, displaced := DisplaceAll();
      if !o.Ok? { return; }
      o := WriteJournal(Journal(Displaced, Entries(named, existed), [], []));
      if !o.Ok? { return; }
      o, activated := PublishAll();
    }

    /** The first loop of the exception handler: remove what was published. */
    method RemovePublished(activated: seq<nat>, ghost displaced: nat) returns (o: Outcome)
      requires !committed && activated == Upto(|activated|) && Interrupted(existed, disk, displaced, |activated|)
      modifies this`script, this`disk
      ensures Inv() && disk.journal == old(disk.journal)
      ensures o.Ok? ==> forall i :: 0 <= i < |existed| ==>
        disk.roots[i] == old(disk.roots)[i].(dest := if i < displaced then Absent else Initial(existed[i]))
      ensures old(Calm()) ==> o.Ok? && Calm()
    {
      InterruptedIsRecoverable(existed, disk, displaced, |activated|);
      for k := 0 to |activated|
        invariant Inv() && disk.journal == old(disk.journal) && (old(Calm()) ==> Calm())
        invariant forall i :: 0 <= i < |existed| ==>
          disk.roots[i] == old(disk.roots)[i].(dest := if i < k then Absent else old(disk.roots)[i].dest)
      {
        if !disk.roots[activated[k]].dest.Absent? {
          :- RemoveDest(activated[k]);
          :- Check();
        }
      }
      o := Ok;
    }

    /** The second loop: move back what was displaced. */
    method MoveBack(named: seq<bool>, displaced: seq<nat>) returns (o: Outcome)
      requires Inv() && !committed && displaced == Upto(|displaced|) && |displaced| <= |existed|
      requires |named| == |existed| && forall k :: 0 <= k < |displaced| ==> named[k] == existed[k]
      requires disk.journal.Some? && Covers(disk.journal.value.entries, existed, |displaced|)
      requires disk.journal.value.phase.Staged? ==> |displaced| == 0
      requires forall i :: 0 <= i < |existed| ==>
        && disk.roots[i].dest == (if i < |displaced| then Absent else Initial(existed[i]))
        && disk.roots[i].rollback == (if i < |displaced| then Initial(existed[i]) else Absent)
      modifies this`script, this`disk
      ensures Inv() && disk.journal == old(disk.journal)
      ensures o.Ok? ==> forall i :: 0 <= i < |existed| ==>
        disk.roots[i].dest == Initial(existed[i]) && disk.roots[i].rollback.Absent?
      ensures old(Calm()) ==> o.Ok? && Calm()
    {
      for k := 0 to |displaced|
        invariant Inv() && disk.journal == old(disk.journal) && (old(Calm()) ==> Calm())
        invariant forall i :: 0 <= i < |existed| ==>
          && disk.roots[i].staging == old(disk.roots)[i].staging
          && disk.roots[i].rollback == (if k <= i < |displaced| then Initial(existed[i]) else Absent)
          && disk.roots[i].dest == (if k <= i < |displaced| then Absent else Initial(existed[i]))
      {
        var i := displaced[k];
        var r := disk.roots[i];
        if named[i] && !r.rollback.Absent? {
          :- Move(i, r.(rollback := Absent, dest := r.rollback));
          :- Check();
        }
      }
      o := Ok;
    }

    /** The exception handler: remove what was published, then move back what was displaced. */
    method Undo(named: seq<bool>, displaced: seq<nat>, activated: seq<nat>) returns (o: Outcome)
      requires !committed && displaced == Upto(|displaced|) && activated == Upto(|activated|)
      requires Interrupted(existed, disk, |displaced|, |activated|)
      requires |named| == |existed| && forall k :: 0 <= k < |displaced| ==> named[k] == existed[k]
      modifies this
      ensures Inv() && !committed && disk.journal == old(disk.journal)
      ensures o.Ok? ==> forall i :: 0 <= i < |existed| ==>
        disk.roots[i].dest == Initial(existed[i]) && disk.roots[i].rollback.Absent?
      ensures old(Calm()) ==> o.Ok? && Calm()
    {
      o := RemovePublished(activated, |displaced|);
      if !o.Ok? { return; }
      o := MoveBack(named, displaced);
    }

    /** Remove every staging directory, ignoring errors (the `finally` clause of `restore`). */
    method CleanStagings() returns (o: Outcome)
      requires Inv()
      modifies this`script, this`disk
      ensures Inv() && disk.journal == old(disk.journal)
      ensures forall i :: 0 <= i < |existed| ==>
        && disk.roots[i].dest == old(disk.roots)[i].dest && disk.roots[i].rollback == old(disk.roots)[i].rollback
        && (old(disk.roots)[i].staging.Absent? ==> disk.roots[i].staging.Absent?)
      ensures !o.Raised? && (NoneDies(old(script)) ==> o.Ok?)
      ensures old(Calm()) ==> o.Ok? && Calm() && NoStaging()
    {
      for k := 0 to |existed|
        invariant Inv() && disk.journal == old(disk.journal) && (NoneDies(old(script)) ==> NoneDies(script))
        invariant forall i :: 0 <= i < |existed| ==>
          && disk.roots[i].dest == old(disk.roots)[i].dest && disk.roots[i].rollback == old(disk.roots)[i].rollback
          && (old(disk.roots)[i].staging.Absent? ==> disk.roots[i].staging.Absent?)
        invariant old(Calm()) ==> Calm() && forall i :: 0 <= i < k ==> disk.roots[i].staging.Absent?
      {
        var c := RemoveStaging(k);
        if c.Crashed? { return Crashed; }
      }
      o := Ok;
    }

    /** The body of `restore` before its cleanup: extract, displace and publish under the exception
        handler, then write the `activated` journal. */
    method Activate() returns (o: Outcome, undone: bool)
      requires Inv() && !committed
      requires disk.journal == Some(Journal(Staged, Entries(NamedUpto(existed, 0), existed), [], []))
      requires forall i :: 0 <= i < |existed| ==> disk.roots[i] == Root(Initial(existed[i]), Partial, Absent)
      modifies this
      ensures Inv() && !committed
      ensures o.Ok? ==> At(Activated, |existed|, |existed|)
      ensures o.Raised? && undone ==> forall i :: 0 <= i < |existed| ==> disk.roots[i].dest == Initial(existed[i])
      ensures old(Calm()) ==> o.Ok? && Calm()
      ensures Spends(old(script), script, o, |existed| + GuardedSteps(existed) + 1)
      ensures forall k :: RaiseAt(old(script), k) && o.Raised? ==>
        if k == |existed| + GuardedSteps(existed) then disk.roots == Layout(existed, |existed|, |existed|)
        else forall i :: 0 <= i < |existed| ==>
          disk.roots[i].dest == Initial(existed[i]) && disk.roots[i].rollback.Absent?
    {
      undone := true;
      o := Extract();
      if o.Ok? {
        var named, displaced, activated;
        o, named, displaced, activated := Publish();
        InterruptedIsRecoverable(existed, disk, |displaced|, |activated|);
        if o.Raised? {
          var u := Undo(named, displaced, activated);
          if u.Crashed? { return Crashed, false; }
          undone := u.Ok?;
        } else if o.Ok? {
          undone := false;
          o := WriteJournal(Journal(Activated, Entries(named, existed), [], []));
          InterruptedIsRecoverable(existed, disk, |existed|, |existed|);
        }
      }
    }

    /** `restore`.  Whatever happens, recovery would still bring back every original root; if
        the call returns, every root is published under an `activated` journal; if it raises and
        the handler ran to its end (`undone`), every root is already back.

        If one exception is all that happens, where it strikes decides everything: before the
        `activated` write the call raises with every root back in place (and no staging directory,
        once they are journalled), at that write it raises with every root published, and during the
        cleanup it goes unnoticed. */
    method RestoreRoots() returns (o: Outcome, undone: bool)
      requires Fresh()
      modifies this
      ensures Inv() && !committed
      ensures o.Ok? ==> At(Activated, |existed|, |existed|)
      ensures o.Raised? && undone ==> forall i :: 0 <= i < |existed| ==> disk.roots[i].dest == Initial(existed[i])
      ensures old(Calm()) ==> o.Ok? && Calm()
      ensures forall k :: RaiseAt(old(script), k) ==> (o.Raised? <==> k <= StepsToActivation(existed)) && !o.Crashed?
      ensures forall k :: RaiseAt(old(script), k) && k < StepsToActivation(existed) ==>
        forall i :: 0 <= i < |existed| ==> disk.roots[i].dest == Initial(existed[i]) && disk.roots[i].rollback.Absent?
      ensures RaiseAt(old(script), StepsToActivation(existed)) ==> disk.roots == Layout(existed, |existed|, |existed|)
      ensures forall k :: RaiseAt(old(script), k) && |existed| + 2 <= k < StepsToActivation(existed) ==> NoStaging()
    {
      undone := true;
      :- Prepare();
      o, undone := Activate();
      if o.Crashed? { return; }
      ghost var roots := disk.roots;
      var c := CleanStagings();
      if c.Crashed? { return Crashed, undone; }
      assert o.Ok? ==> disk.roots == roots;
    }

    // ----- after a restore returned -----

    /** `finalize`: commit the journal, then delete the displaced originals. */
    method Finalize() returns (o: Outcome)
      requires At(Activated, |existed|, |existed|)
      modifies this
      ensures Inv() && (disk.journal.None? ==> NoStaging())
      ensures o.Ok? ==> committed && disk.journal.None? && forall i :: 0 <= i < |existed| ==>
        disk.roots[i] == Root(Whole(Restored), Absent, Absent)
      ensures old(Calm()) ==> o.Ok? && Calm()
    {
      InterruptedIsRecoverable(existed, disk, |existed|, |existed|);
      var record := disk.journal.value.(phase := Committed);
      :- WriteJournal(record);
      for i := 0 to |existed|
        invariant Inv() && committed && disk.journal == Some(record) && (old(Calm()) ==> Calm())
        invariant forall k :: 0 <= k < |existed| ==>
          disk.roots[k] == Root(Whole(Restored), Absent, if k < i then Absent else Initial(existed[k]))
      {
        if record.entries[i].rollbackNamed {
          if !disk.roots[i].rollback.Absent? {
            :- RemoveRollback(i);
          }
          :- Check();
        }
      }
      :- UnlinkJournal();
      o := Check();
    }

    /** `rollback` of a returned restore.  Removal of the published tree of a root that did not
        exist before ignores errors; `swallow` is the set of roots where such an error strikes.
        The call gives back every original state exactly when no such root is in `swallow`. */
    method Rollback(swallow: set<nat>) returns (o: Outcome)
      requires At(Activated, |existed|, |existed|)
      modifies this
      ensures !committed && (!o.Ok? ==> Inv() && disk.journal.Some?)
      ensures o.Ok? ==> disk.journal.None? && |disk.roots| == |existed| && NoStaging()
      ensures o.Ok? ==> forall i :: 0 <= i < |existed| ==>
        && disk.roots[i].rollback.Absent?
        && disk.roots[i].dest == (if !existed[i] && i in swallow then Partial else Initial(existed[i]))
      ensures o.Ok? ==> (Inv() <==> forall i :: 0 <= i < |existed| && i in swallow ==> existed[i])
      ensures old(Calm()) ==> o.Ok? && Calm()
    {
      InterruptedIsRecoverable(existed, disk, |existed|, |existed|);
      var record := disk.journal.value;
      for i := 0 to |existed|
        invariant Inv() && !committed && disk.journal == Some(record) && (old(Calm()) ==> Calm())
        invariant forall k :: i <= k < |existed| ==> disk.roots[k] == Root(Whole(Restored), Absent, Initial(existed[k]))
        invariant forall k :: 0 <= k < i ==>
          disk.roots[k] == Root(if !existed[k] && k in swallow then Partial else Initial(existed[k]), Absent, Absent)
      {
        var r := disk.roots[i];
        if !record.entries[i].rollbackNamed {
          if !r.dest.Absent? {
            :- RemoveDestIgnoringErrors(i, i in swallow);
            :- Check();
          }
        } else if !r.rollback.Absent? {
          if !r.dest.Absent? {
            :- RemoveDest(i);
          }
          :- Move(i, disk.roots[i].(rollback := Absent, dest := r.rollback));
          :- Check();
        }
      }
      o := UnlinkJournal();
    }

    // ----- recovery -----

    /** The recovery of one root of an undecided journal. */
    method RecoverRoot(i: nat) returns (o: Outcome)
      requires Inv() && !committed && i < |existed|
      requires disk.journal.Some? && !disk.journal.value.phase.Staged?
      modifies this`script, this`disk
      ensures Inv() && disk.journal == old(disk.journal)
      ensures forall k :: 0 <= k < |existed| && k != i ==> disk.roots[k] == old(disk.roots)[k]
      ensures o.Ok? ==> disk.roots[i] == Root(Initial(existed[i]), Absent, Absent)
      ensures old(Calm()) ==> o.Ok? && Calm()
    {
      var j := disk.journal.value;
      var r := disk.roots[i];
      if j.entries[i].rollbackNamed && !r.rollback.Absent? {
        if !r.dest.Absent? {
          :- RemoveDest(i);
        }
        :- Move(i, disk.roots[i].(rollback := Absent, dest := r.rollback));
        :- Check();
      } else if !j.entries[i].originalExists
        && (i in j.activated || i in j.displaced || (r.staging.Absent? && !r.dest.Absent?))
      {
        if !r.dest.Absent? {
          :- RemoveDest(i);
          :- Check();
        }
      }
      o := RemoveStaging(i);
    }

    /** The cleanup of one root, by the phase that the journal records. */
    method ReconcileRoot(i: nat) returns (o: Outcome)
      requires Inv() && i < |existed| && disk.journal.Some?
      modifies this`script, this`disk
      ensures Inv() && disk.journal == old(disk.journal)
      ensures forall k :: 0 <= k < |existed| && k != i ==> disk.roots[k] == old(disk.roots)[k]
      ensures o.Ok? ==> disk.roots[i] == Root(Target(existed[i], committed), Absent, Absent)
      ensures old(Calm()) ==> o.Ok? && Calm()
    {
      var j := disk.journal.value;
      if j.phase.Staged? {
        o := RemoveStaging(i);
      } else if j.phase.Committed? {
        if j.entries[i].rollbackNamed {
          if !disk.roots[i].rollback.Absent? {
            :- RemoveRollback(i);
          }
          :- Check();
        }
        o := RemoveStaging(i);
      } else {
        o := RecoverRoot(i);
      }
    }

    /** There is a journal, and it can be read. */
    ghost predicate Interruption()
      reads this
    {
      disk.journal.Some? && !Malformed(disk.journal.value, |existed|)
    }

    /** `reconcile`: finish or undo an interrupted restore.  A run that completes leaves every
        root at the state that the disk it found resolves to, with no journal, rollback or staging
        directory left; a run that crashes or raises leaves a disk that resolves to the same.  A
        malformed journal is refused and nothing is touched. */
    method Reconcile() returns (o: Outcome)
      requires Interruption() ==> Inv()
      modifies this`script, this`disk
      ensures !old(Interruption()) ==> disk == old(disk) && o == if disk.journal.None? then Ok else Raised
      ensures old(Interruption()) ==> Inv() && (disk.journal.None? ==> NoStaging())
      ensures old(Interruption()) ==> forall i :: 0 <= i < |existed| ==> Resolved(disk, i) == Resolved(old(disk), i)
      ensures o.Ok? ==> disk.journal.None?
      ensures old(Interruption()) && o.Ok? ==> forall i :: 0 <= i < |existed| ==>
        disk.roots[i] == Root(Resolved(old(disk), i), Absent, Absent)
      ensures old(Calm()) ==> Calm() && (old(Interruption()) || old(disk.journal.None?) ==> o.Ok?)
    {
      if disk.journal.None? { return Ok; }
      var j := disk.journal.value;
      if !ValidJournal(j, |existed|) { return Raised; }
      for i := 0 to |existed|
        invariant Inv() && disk.journal == Some(j) && (old(Calm()) ==> Calm())
        invariant forall k :: 0 <= k < i ==> disk.roots[k] == Root(Target(existed[k], committed), Absent, Absent)
      {
        :- ReconcileRoot(i);
      }
      :- UnlinkJournal();
      o := Check();
    }

    /** One restore from beginning to end: `restore`, then perhaps `finalize` or `rollback`, then
        up to `attempts` runs of `reconcile`, each of which may crash anywhere.

        Wherever it stops, the durable state is recoverable, and until the commit every root that
        existed still has its complete original tree.  Once a run of `reconcile` completes, every
        root is at its original state or every root is at the new generation, the latter exactly when
        the journal had reached `committed`, and no rollback directory is left, nor any staging
        directory that a journal ever named (`journalled`).  The only exception is a root whose
        ignored removal error in a completed `rollback` went unnoticed. */
    method Lifetime(finish: Finish, attempts: nat) returns (settled: bool, rolledBack: bool, ghost journalled: bool)
      requires Fresh()
      modifies this
      ensures !rolledBack ==> Inv()
      ensures !committed ==> forall i :: 0 <= i < |existed| && existed[i] ==> HasOriginal(i)
      ensures rolledBack ==> finish.RollBack? && !committed
      ensures settled ==> disk.journal.None? && |disk.roots| == |existed|
      ensures settled ==> forall i :: 0 <= i < |existed| ==>
        && disk.roots[i].rollback.Absent?
        && disk.roots[i].dest == if rolledBack && !existed[i] && i in finish.swallow then Partial
                                 else Target(existed[i], committed)
      ensures settled && journalled ==> NoStaging()
      ensures committed ==> finish.Commit? && journalled
      ensures old(Calm()) ==> journalled && (committed <==> finish.Commit?) && (rolledBack <==> finish.RollBack?)
      ensures old(Calm()) && attempts > 0 ==> settled
    {
      rolledBack := false;
      var o, _ := RestoreRoots();
      journalled := disk.journal.Some?;
      if o.Ok? {
        InterruptedIsRecoverable(existed, disk, |existed|, |existed|);
        match finish {
          case Abandon =>
          case Commit =>
            o := Finalize();
          case RollBack(swallow) =>
            o := Rollback(swallow);
            rolledBack := o.Ok?;
        }
      }
      settled := false;
      var k := 0;
      while k < attempts && !settled
        invariant !rolledBack ==> Inv()
        invariant rolledBack ==> finish.RollBack? && !committed && disk.journal.None? && |disk.roots| == |existed|
        invariant rolledBack ==> forall i :: 0 <= i < |existed| ==>
          && disk.roots[i].rollback.Absent?
          && disk.roots[i].dest == if !existed[i] && i in finish.swallow then Partial else Initial(existed[i])
        invariant settled ==> disk.journal.None?
        invariant journalled && disk.journal.None? ==> NoStaging()
        invariant committed ==> finish.Commit? && journalled
        invariant old(Calm()) ==> Calm() && journalled && (k > 0 ==> settled)
        invariant old(Calm()) ==> (committed <==> finish.Commit?) && (rolledBack <==> finish.RollBack?)
      {
        o := Reconcile();
        settled := o.Ok?;
        k := k + 1;
      }
      if !committed && !rolledBack {
        forall i | 0 <= i < |existed| && existed[i] ensures HasOriginal(i) { OriginalSurvives(existed, disk, i); }
      }
    }
  }

  /** A `rollback` that returns without a disturbance although the removal of a root that did not
      exist before hits an error: the root stays half removed, and no journal is left to recover it. */
  method RollbackLeavesHalfARoot(service: RestoreService)
    requires service.Fresh() && service.existed == [false] && service.Calm()
    modifies service
    ensures |service.disk.roots| == 1 && service.disk.roots[0].dest.Partial?
    ensures service.disk.journal.None? && !service.committed
  {
    var _, _, _ := service.Lifetime(RollBack({0}), 1);
  }
}
