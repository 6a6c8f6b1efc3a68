/**
  Safety of the ownership lock over every interleaving, crash and lost reply.
  */
module CapacityLockSafety {
  import opened Options
  import opened CapacityLock

  // ---------- the invariant ----------

  ghost predicate Gone(w: World, r: Record) {
    exists d :: d in w.removed && d.record == r
  }

  ghost predicate GoneBy(w: World, id: nat) {
    exists d :: d in w.removed && d.remover == id
  }

  /** A record whose owner was told it holds the lock stays in the table exactly until
      somebody removes it; owners are never reused. */
  ghost predicate TableOk(w: World) {
    && (forall k <- w.table :: w.table[k].target == k && w.table[k].owner in w.used)
    && (forall r <- w.acquired :: r.owner in w.used && (Held(w, r) <==> !Gone(w, r)))
    && (forall d <- w.removed :: d.record.owner in w.used)
    && (forall r <- w.live :: r in w.acquired && Held(w, r))
    && (forall r <- w.stopped :: r.owner in w.used && r !in w.live)
    && (forall f <- w.files :: w.files[f] in w.acquired)
  }

  /** The write numbered `n + 1` was made by process `id` with its profile. */
  predicate WroteAt(w: World, n: nat, id: nat, profile: string) {
    n < |w.parameter| && w.parameter[n] == Written(Some(id), profile)
  }

  ghost predicate WroteSince(w: World, n: nat, id: nat, profile: string) {
    exists j: nat :: n <= j && WroteAt(w, j, id, profile)
  }

  predicate BeforeAttempt(pc: PC) {
    pc.AskLock? || pc.WriteFile? || pc.ReadVersion? || pc.PutProfile?
  }

  ghost predicate SelectOk(w: World, p: Process)
    requires p.command.Select?
  {
    var profile, expected := p.command.profile, p.command.expected;
    && (BeforeAttempt(p.pc) ==> !p.attempted && !GoneBy(w, p.id))
    && (p.confirmed ==> p.attempted)
    && (p.attempted && !p.confirmed ==> (p.pc.ReadBack? || p.pc.Failed?) && !GoneBy(w, p.id))
    && (p.attempted ==> p.record.Some?)
    && (p.pc.PutProfile? ==> expected <= |w.parameter|)
    && (p.pc.ReadBack? ==> p.attempted && !p.confirmed && WroteSince(w, expected, p.id, profile))
    && (p.confirmed ==> WroteAt(w, expected, p.id, profile))
    && (p.pc.Done? ==> p.confirmed)
    && (p.pc.Giving? ==> !GoneBy(w, p.id) && (p.attempted ==> p.pc.unlink))
    && (p.pc.Unlinking? ==> GoneBy(w, p.id))
  }

  /** The process that took the lock itself, and not one that was given the record. */
  predicate Took(p: Process) {
    (p.command.Select? || p.command.Acquire?) && p.record.Some?
  }

  /** No two processes took the lock under one record. */
  predicate OneTaker(w: World) {
    forall a <- w.processes, b <- w.processes |
      a != b && Took(w.processes[a]) && Took(w.processes[b]) :: w.processes[a].record != w.processes[b].record
  }

  ghost predicate ProcessOk(w: World, p: Process) {
    && (p.pc.AskLock? ==> p.record.None?)
    && ((p.pc.WriteFile? || p.pc.ReadVersion? || p.pc.PutProfile? || p.pc.ReadBack?) ==> p.record.Some?)
    && (BeforeAttempt(p.pc) ==> !p.command.Recover?)
    && (p.pc.Checking? ==> p.command.Verify? || p.command.Recover?)
    && (p.record.Some? && !p.command.Recover? ==> p.record.value in w.acquired)
    && (p.record.Some? && p.command.Recover? ==> p.record.value in w.stopped)
    && (Took(p) ==> p.record.value.target == p.key)
    && (p.command.Select? ==> SelectOk(w, p))
  }

  ghost predicate Invariant(w: World) {
    && TableOk(w) && OneTaker(w)
    && (forall id <- w.processes :: w.processes[id].id == id && ProcessOk(w, w.processes[id]))
    && (forall d <- w.removed :: d.remover in w.processes && w.processes[d.remover].record == Some(d.record))
  }

  // ---------- what other processes may do to what a process relies on ----------

  /** Time passing for the processes that did not move: logs only grow, nothing is
      unlearnt, and removals carry the name of whoever moved. */
  ghost predicate Later(w: World, v: World, mover: nat) {
    && w.parameter <= v.parameter
    && w.acquired <= v.acquired && w.stopped <= v.stopped
    && (forall d <- w.removed :: d in v.removed)
    && (forall d <- v.removed :: d in w.removed || d.remover == mover)
  }

  lemma LaterKeepsProcess(w: World, v: World, mover: nat, p: Process)
    requires ProcessOk(w, p) && Later(w, v, mover) && p.id != mover
    ensures ProcessOk(v, p)
  {
    if p.command.Select? {
      if WroteSince(w, p.command.expected, p.id, p.command.profile) {
        var j: nat :| p.command.expected <= j && WroteAt(w, j, p.id, p.command.profile);
        assert WroteAt(v, j, p.id, p.command.profile);
      }
      if WroteAt(w, p.command.expected, p.id, p.command.profile) {
        assert WroteAt(v, p.command.expected, p.id, p.command.profile);
      }
      if GoneBy(v, p.id) {
        var d :| d in v.removed && d.remover == p.id;
        assert d in w.removed;
      }
      if GoneBy(w, p.id) {
        var d :| d in w.removed && d.remover == p.id;
        assert d in v.removed;
      }
    }
  }

  predicate FreshOwner(w: World, p: Process)
    requires p.record.Some?
  {
    p.record.value.owner !in w.used
  }

  lemma OneMoves(w: World, v: World, p: Process)
    requires Invariant(w) && Later(w, v, p.id) && TableOk(v) && ProcessOk(v, p)
    requires v.processes == w.processes[p.id := p]
    requires forall d <- v.removed | d.remover == p.id :: p.record == Some(d.record)
    requires Took(p) ==> FreshOwner(w, p) || (p.id in w.processes && Took(w.processes[p.id]) && w.processes[p.id].record == p.record)
    ensures Invariant(v)
  {
    forall id <- v.processes ensures v.processes[id].id == id && ProcessOk(v, v.processes[id]) {
      if id != p.id { LaterKeepsProcess(w, v, p.id, w.processes[id]); }
    }
  }

  // ---------- every step keeps the invariant ----------

  lemma LockKeepsTable(w: World, p: Process, owner: nat, started: int, reply: Reply)
    requires TableOk(w) && owner !in w.used
    ensures TableOk(LockStep(w, p, owner, started, reply))
  {
  }

  lemma LockKeeps(w: World, id: nat, owner: nat, started: int, reply: Reply)
    requires Invariant(w) && id in w.processes && w.processes[id].pc.AskLock? && owner !in w.used
    ensures Invariant(LockStep(w, w.processes[id], owner, started, reply))
  {
    var p := w.processes[id];
    var v := LockStep(w, p, owner, started, reply);
    LockKeepsTable(w, p, owner, started, reply);
    assert forall i :: GoneBy(v, i) <==> GoneBy(w, i);
    OneMoves(w, v, v.processes[id]);
  }

  lemma GrownLog(w: World, v: World, d: Removed)
    requires v.removed == w.removed + [d]
    ensures forall r :: Gone(v, r) <==> Gone(w, r) || r == d.record
    ensures forall id :: GoneBy(v, id) <==> GoneBy(w, id) || id == d.remover
  {
    assert d in v.removed && forall x :: x in v.removed <==> x in w.removed || x == d;
  }

  lemma DeleteKeepsTable(w: World, p: Process, reply: Reply)
    requires TableOk(w) && p.pc.Giving? && p.record.Some? && p.record.value.owner in w.used
    requires p.record.value in w.acquired || p.record.value in w.stopped
    ensures TableOk(DeleteStep(w, p, reply))
  {
    var v, r := DeleteStep(w, p, reply), p.record.value;
    if v.removed != w.removed {
      GrownLog(w, v, Removed(p.id, r));
    } else {
      assert forall x :: Gone(v, x) <==> Gone(w, x);
    }
    forall x <- v.acquired ensures Held(v, x) <==> !Gone(v, x) {
      assert Held(v, x) <==> Held(w, x) && !(v.removed != w.removed && x == r);
    }
  }

  lemma DeleteKeeps(w: World, id: nat, reply: Reply)
    requires Invariant(w) && id in w.processes && w.processes[id].pc.Giving? && w.processes[id].record.Some?
    ensures Invariant(DeleteStep(w, w.processes[id], reply))
  {
    var p := w.processes[id];
    var v := DeleteStep(w, p, reply);
    DeleteKeepsTable(w, p, reply);
    if v.removed != w.removed {
      GrownLog(w, v, Removed(id, p.record.value));
    }
    OneMoves(w, v, v.processes[id]);
  }

  /** A step that touches neither the table nor the parameter. */
  lemma QuietMove(w: World, v: World, p: Process)
    requires Invariant(w) && ProcessOk(w, p)
    requires v == w.(processes := w.processes[p.id := p], files := v.files)
    requires forall f <- v.files :: v.files[f] in w.acquired
    requires if p.id in w.processes then w.processes[p.id].record == p.record && w.processes[p.id].command == p.command
             else !GoneBy(w, p.id) && !Took(p)
    ensures Invariant(v)
  {
    assert forall r :: Gone(v, r) <==> Gone(w, r);
    assert TableOk(v);
    LaterKeepsProcess(w, v, p.id + 1, p);
    OneMoves(w, v, p);
  }

  lemma CheckKeeps(w: World, id: nat, step: Step)
    requires Invariant(w) && id in w.processes && step.Check?
    ensures Invariant(ProcessStep(w, w.processes[id], step))
  {
    var v := ProcessStep(w, w.processes[id], step);
    if v != w {
      QuietMove(w, v, v.processes[id]);
    }
  }

  lemma CreateFileKeeps(w: World, id: nat, ok: bool)
    requires Invariant(w) && id in w.processes && w.processes[id].pc.WriteFile? && w.processes[id].record.Some?
    ensures Invariant(CreateFileStep(w, w.processes[id], ok))
  {
    var v := CreateFileStep(w, w.processes[id], ok);
    QuietMove(w, v, v.processes[id]);
  }

  lemma LastStepsKeep(w: World, id: nat, step: Step)
    requires Invariant(w) && id in w.processes && (step.Unlink? || step.Crash?)
    ensures Invariant(ProcessStep(w, w.processes[id], step))
  {
    var v := ProcessStep(w, w.processes[id], step);
    if v != w {
      QuietMove(w, v, v.processes[id]);
    }
  }

  lemma GetVersionKeeps(w: World, id: nat, ok: bool)
    requires Invariant(w) && id in w.processes && w.processes[id].pc.ReadVersion? && w.processes[id].command.Select?
    ensures Invariant(GetVersionStep(w, w.processes[id], ok))
  {
    var v := GetVersionStep(w, w.processes[id], ok);
    QuietMove(w, v, v.processes[id]);
  }

  lemma GetBackKeeps(w: World, id: nat, ok: bool)
    requires Invariant(w) && id in w.processes && w.processes[id].pc.ReadBack? && w.processes[id].command.Select?
    ensures Invariant(GetBackStep(w, w.processes[id], ok))
  {
    var p, v := w.processes[id], GetBackStep(w, w.processes[id], ok);
    var j: nat :| p.command.expected <= j && WroteAt(w, j, id, p.command.profile);
    assert v.processes[id].confirmed ==> j == p.command.expected;
    QuietMove(w, v, v.processes[id]);
  }

  lemma PutParameterKeeps(w: World, id: nat, reply: Reply)
    requires Invariant(w) && id in w.processes && w.processes[id].pc.PutProfile? && w.processes[id].command.Select?
    ensures Invariant(PutParameterStep(w, w.processes[id], reply))
  {
    var p, v := w.processes[id], PutParameterStep(w, w.processes[id], reply);
    assert forall r :: Gone(v, r) <==> Gone(w, r);
    assert forall i :: GoneBy(v, i) <==> GoneBy(w, i);
    assert TableOk(v);
    if reply.Delivered? {
      assert WroteAt(v, |w.parameter|, id, p.command.profile);
    }
    OneMoves(w, v, v.processes[id]);
  }

  // A command starts without the lock, or with a record it was given.
  lemma NewcomerKeeps(w: World, p: Process)
    requires Invariant(w) && p.id !in w.processes && ProcessOk(w, p) && !Took(p)
    ensures Invariant(Moved(w, p))
  {
    QuietMove(w, Moved(w, p), p);
  }

  lemma BeginKeeps(w: World, id: nat, command: Command, key: Key, file: string)
    requires Invariant(w) && id !in w.processes
    ensures Invariant(Moved(w, Begin(w, id, command, key, file)))
  {
    NewcomerKeeps(w, Begin(w, id, command, key, file));
  }

  lemma RecoverKeeps(w: World, id: nat, r: Record)
    requires Invariant(w) && id !in w.processes && r in w.stopped
    ensures Invariant(Moved(w, Process(id, Recover, r.target, "", Checking, Some(r), false, false)))
  {
    NewcomerKeeps(w, Process(id, Recover, r.target, "", Checking, Some(r), false, false));
  }

  lemma ProcessStepKeeps(w: World, id: nat, step: Step)
    requires Invariant(w) && id in w.processes
    ensures Invariant(ProcessStep(w, w.processes[id], step))
  {
    var p := w.processes[id];
    match step {
      case Lock(_, owner, started, reply) =>
        if p.pc.AskLock? && owner !in w.used { LockKeeps(w, id, owner, started, reply); }
      case Delete(_, reply) =>
        if p.pc.Giving? && p.record.Some? { DeleteKeeps(w, id, reply); }
      case GetVersion(_, ok) =>
        if p.pc.ReadVersion? && p.command.Select? { GetVersionKeeps(w, id, ok); }
      case PutParameter(_, reply) =>
        if p.pc.PutProfile? && p.command.Select? { PutParameterKeeps(w, id, reply); }
      case GetBack(_, ok) =>
        if p.pc.ReadBack? && p.command.Select? { GetBackKeeps(w, id, ok); }
      case CreateFile(_, ok) =>
        if p.pc.WriteFile? && p.record.Some? { CreateFileKeeps(w, id, ok); }
      case Unlink(_) => LastStepsKeep(w, id, step);
      case Check(_, _) => CheckKeeps(w, id, step);
      case Crash(_) => LastStepsKeep(w, id, step);
      case _ =>
    }
  }

  lemma StepKeeps(w: World, step: Step)
    requires Invariant(w)
    ensures Invariant(Apply(w, step))
  {
    match step {
      case Start(id, command, key, file) =>
        if id !in w.processes { BeginKeeps(w, id, command, key, file); }
      case StartRecover(id, r) =>
        if id !in w.processes && r in w.stopped {
          RecoverKeeps(w, id, r);
        }
      case Stop(r) =>
        if r.owner in w.used && HasStopped(w, r) { StopKeeps(w, r); }
      case OutsidePut(profile) => OutsidePutKeeps(w, profile);
      case _ =>
        if step.id in w.processes { ProcessStepKeeps(w, step.id, step); }
    }
  }

  /** A step no process makes. */
  lemma QuietStep(w: World, v: World)
    requires Invariant(w) && TableOk(v)
    requires v.processes == w.processes && v.removed == w.removed
    requires w.parameter <= v.parameter && w.acquired <= v.acquired && w.stopped <= v.stopped
    ensures Invariant(v)
  {
    forall id <- v.processes ensures ProcessOk(v, v.processes[id]) {
      LaterKeepsProcess(w, v, id + 1, w.processes[id]);
    }
  }

  lemma StopKeeps(w: World, r: Record)
    requires Invariant(w) && r.owner in w.used
    ensures Invariant(w.(live := w.live - {r}, stopped := w.stopped + {r}))
  {
    var v := w.(live := w.live - {r}, stopped := w.stopped + {r});
    assert forall x :: Gone(v, x) <==> Gone(w, x);
    QuietStep(w, v);
  }

  lemma OutsidePutKeeps(w: World, profile: string)
    requires Invariant(w)
    ensures Invariant(Apply(w, OutsidePut(profile)))
  {
    var v := Apply(w, OutsidePut(profile));
    assert forall x :: Gone(v, x) <==> Gone(w, x);
    QuietStep(w, v);
  }

  lemma {:induction false} Always(steps: seq<Step>)
    ensures Invariant(Execute(steps))
  {
    if steps != [] {
      Always(steps[..|steps| - 1]);
      StepKeeps(Execute(steps[..|steps| - 1]), steps[|steps| - 1]);
    }
  }

  // ---------- what holds after any interleaving ----------

  /** At most one live owner exists for a target, and its record is the table's. */
  lemma OneLiveOwner(steps: seq<Step>, a: Record, b: Record)
    requires a in Execute(steps).live && b in Execute(steps).live && a.target == b.target
    ensures a == b && Held(Execute(steps), a)
  {
    Always(steps);
  }

  /** A live owner's record only ever leaves the table by a delete made under that very
      record, and never by a recovery. */
  lemma OnlyItsOwnerRemoves(steps: seq<Step>, step: Step, r: Record)
    requires r in Execute(steps).live && !Held(Apply(Execute(steps), step), r)
    ensures step.Delete? && step.id in Execute(steps).processes
    ensures var p := Execute(steps).processes[step.id];
            p.record == Some(r) && !p.command.Recover?
  {
    Always(steps);
    var w := Execute(steps);
    assert Held(w, r);
  }

  /** A selection that returns made exactly the write from the expected version to the
      next one, with its own profile, even though the parameter is not fenced. */
  lemma SelectionMovedTheVersion(steps: seq<Step>, id: nat)
    requires id in Execute(steps).processes
    requires var p := Execute(steps).processes[id]; p.command.Select? && p.pc.Done?
    ensures var p := Execute(steps).processes[id];
            p.command.expected < |Execute(steps).parameter|
            && Execute(steps).parameter[p.command.expected] == Written(Some(id), p.command.profile)
  {
    Always(steps);
  }

  /** Mutual exclusion: of two selections of one target that hold their records, between
      taking the lock and giving it back, neither removed, both are the same one. */
  lemma OneSelectionInside(steps: seq<Step>, a: nat, b: nat)
    requires a in Execute(steps).processes && b in Execute(steps).processes
    requires var w := Execute(steps);
      var p, q := w.processes[a], w.processes[b];
      && p.key == q.key && Inside(p) && Inside(q)
      && !Gone(w, p.record.value) && !Gone(w, q.record.value)
    ensures a == b
  {
    Always(steps);
    var w := Execute(steps);
    var p, q := w.processes[a], w.processes[b];
    assert ProcessOk(w, p) && ProcessOk(w, q);
    assert Held(w, p.record.value) && Held(w, q.record.value);
  }

  /** A selection from its first reply to its last request. */
  predicate Inside(p: Process) {
    && p.command.Select? && p.record.Some?
    && (p.pc.WriteFile? || p.pc.ReadVersion? || p.pc.PutProfile? || p.pc.ReadBack? || p.pc.Giving?)
  }

  // ---------- a selection that fails after its write ----------

  ghost predicate RemovedByOther(w: World, id: nat, r: Record) {
    exists d :: d in w.removed && d.record == r && d.remover != id
  }

  /** The failing step leaves the lock alone: its own delete had not been answered yet,
      and it is no delete that lands with its reply lost. */
  predicate LeavesLock(pc: PC, step: Step) {
    !pc.Unlinking? && !(step.Delete? && step.reply.LostAfterLanding?)
  }

  /** `step` makes the selection `id` fail after its write was attempted. */
  predicate FailsAfterWrite(w: World, step: Step, id: nat) {
    && id in w.processes && w.processes[id].command.Select? && !w.processes[id].pc.Failed?
    && id in Apply(w, step).processes
    && Apply(w, step).processes[id].pc.Failed? && Apply(w, step).processes[id].attempted
  }

  /** What holds of a selection that failed after its write: whether it had removed its
      own record is decided by the step that made it fail. */
  ghost predicate FailedWith(w: World, id: nat, r: Record, leaves: bool) {
    && id in w.processes && w.processes[id].pc.Failed? && w.processes[id].record == Some(r)
    && r in w.acquired && (leaves ==> !GoneBy(w, id)) && (!leaves ==> Gone(w, r))
  }

  lemma FailingDelete(w: World, id: nat, reply: Reply)
    requires Invariant(w) && FailsAfterWrite(w, Delete(id, reply), id)
    ensures w.processes[id].record.Some?
    ensures FailedWith(Apply(w, Delete(id, reply)), id, w.processes[id].record.value,
                       LeavesLock(w.processes[id].pc, Delete(id, reply)))
  {
    var p, v := w.processes[id], Apply(w, Delete(id, reply));
    SelectionStands(w, id);
    var r := p.record.value;
    if Held(w, r) && !reply.LostBeforeLanding? {
      assert v.removed[|w.removed|] == Removed(id, r);
    } else {
      assert v.removed == w.removed;
      assert Gone(w, r) ==> Gone(v, r);
      assert GoneBy(v, id) ==> GoneBy(w, id);
    }
  }

  // What the invariant says of a selection whose write was attempted.
  lemma SelectionStands(w: World, id: nat)
    requires Invariant(w) && id in w.processes && w.processes[id].command.Select?
    ensures var p := w.processes[id];
      && p.id == id
      && (p.attempted || p.pc.PutProfile? || p.pc.ReadBack? ==> p.record.Some?)
      && (p.record.Some? ==> p.record.value in w.acquired && (Held(w, p.record.value) <==> !Gone(w, p.record.value)))
      && (!p.pc.Unlinking? && !Ended(p) ==> !GoneBy(w, id))
      && (p.pc.Unlinking? && p.record.Some? ==> Gone(w, p.record.value))
      && (p.pc.Giving? && p.attempted ==> p.pc.unlink)
      && (p.pc.AskLock? ==> !p.attempted)
  {
    var p := w.processes[id];
    assert ProcessOk(w, p) && SelectOk(w, p);
    if p.pc.Unlinking? {
      var d :| d in w.removed && d.remover == id;
    }
  }

  lemma FailingElsewhere(w: World, step: Step, id: nat)
    requires Invariant(w) && FailsAfterWrite(w, step, id) && !step.Delete?
    ensures w.processes[id].record.Some?
    ensures FailedWith(Apply(w, step), id, w.processes[id].record.value, LeavesLock(w.processes[id].pc, step))
  {
    SelectionStands(w, id);
    var p, v := w.processes[id], Apply(w, step);
    if By(step) != Some(id) { OthersStay(w, step, id); }
    FailsWithRecord(w, p, step);
    RemovesNothing(w, step);
    assert GoneBy(v, id) ==> GoneBy(w, id);
    assert Gone(w, p.record.value) ==> Gone(v, p.record.value);
  }

  /** The process that makes a step, if one does. */
  function By(step: Step): Option<nat> {
    if step.Stop? || step.OutsidePut? then None else Some(step.id)
  }

  lemma FailsWithRecord(w: World, p: Process, step: Step)
    requires p.id in w.processes && p == w.processes[p.id] && p.command.Select? && By(step) == Some(p.id) && !step.Delete?
    requires Apply(w, step).processes[p.id].attempted && (p.attempted || p.pc.PutProfile? ==> p.record.Some?)
    requires p.pc.AskLock? ==> !p.attempted
    ensures p.record.Some? && Apply(w, step).processes[p.id].record == p.record
  {
  }

  lemma RemovesNothing(w: World, step: Step)
    requires !step.Delete?
    ensures Apply(w, step).removed == w.removed && w.acquired <= Apply(w, step).acquired
  {
  }

  lemma OthersStay(w: World, step: Step, id: nat)
    requires id in w.processes && By(step) != Some(id)
    ensures id in Apply(w, step).processes && Apply(w, step).processes[id] == w.processes[id]
  {
  }

  lemma EndedStays(w: World, step: Step, id: nat)
    requires id in w.processes && w.processes[id].id == id && Ended(w.processes[id])
    ensures id in Apply(w, step).processes && Apply(w, step).processes[id] == w.processes[id]
  {
    if By(step) != Some(id) { OthersStay(w, step, id); }
  }

  lemma RemovesOwn(w: World, step: Step, id: nat)
    requires id in w.processes && w.processes[id].id == id && Ended(w.processes[id])
    ensures var v := Apply(w, step);
      && w.acquired <= v.acquired && (forall d <- w.removed :: d in v.removed)
      && (forall d <- v.removed | d.remover == id :: d in w.removed)
  {
    if !step.Delete? { RemovesNothing(w, step); }
  }

  lemma FailedStays(w: World, step: Step, id: nat, r: Record, leaves: bool)
    requires Invariant(w) && FailedWith(w, id, r, leaves)
    ensures FailedWith(Apply(w, step), id, r, leaves)
  {
    assert w.processes[id].id == id;
    EndedStays(w, step, id);
    RemovesOwn(w, step, id);
  }

  lemma {:induction false} FailedForever(steps: seq<Step>, more: seq<Step>, id: nat, r: Record, leaves: bool)
    requires FailedWith(Execute(steps), id, r, leaves)
    ensures FailedWith(Execute(steps + more), id, r, leaves)
  {
    if more == [] {
      assert steps + more == steps;
    } else {
      var front, last := more[..|more| - 1], more[|more| - 1];
      FailedForever(steps, front, id, r, leaves);
      Always(steps + front);
      assert steps + more == (steps + front) + [last];
      ExecuteSnoc(steps + front, last);
      FailedStays(Execute(steps + front), last, id, r, leaves);
    }
  }

  /** A selection fails after its write by some step. From then on, whatever happens, it
      holds the lock exactly if that step was no crash after the answer of its own last
      delete, nor that delete landing with its answer lost, and nobody else removed the
      record. */
  lemma FailedSelectionKeepsLock(steps: seq<Step>, step: Step, more: seq<Step>, id: nat)
    requires FailsAfterWrite(Execute(steps), step, id)
    ensures var w, now := Execute(steps), Execute(steps + [step] + more);
            && w.processes[id].record.Some?
            && var r := w.processes[id].record.value;
            && id in now.processes && now.processes[id].pc.Failed?
            && (Held(now, r) <==> LeavesLock(w.processes[id].pc, step) && !RemovedByOther(now, id, r))
  {
    Always(steps);
    var w := Execute(steps);
    assert step.Delete? ==> step.id == id;
    if step.Delete? { FailingDelete(w, id, step.reply); } else { FailingElsewhere(w, step, id); }
    var r, leaves := w.processes[id].record.value, LeavesLock(w.processes[id].pc, step);
    ExecuteSnoc(steps, step);
    FailedForever(steps + [step], more, id, r, leaves);
    Always(steps + [step] + more);
    RemovedBySomebody(Execute(steps + [step] + more), id, r, leaves);
  }

  lemma RemovedBySomebody(w: World, id: nat, r: Record, leaves: bool)
    requires Invariant(w) && FailedWith(w, id, r, leaves)
    ensures Held(w, r) <==> leaves && !RemovedByOther(w, id, r)
  {
    if leaves && Gone(w, r) {
      var d :| d in w.removed && d.record == r;
      assert d.remover != id;
    }
  }

  lemma ExecuteSnoc(steps: seq<Step>, step: Step)
    ensures Execute(steps + [step]) == Apply(Execute(steps), step)
  {
  }

  function Selecting(key: Key, file: string, pc: PC, record: Option<Record>): Process {
    Process(0, Select("default", 0), key, file, pc, record, false, false)
  }

  lemma SelectionTakesLock(key: Key, file: string) returns (steps: seq<Step>)
    ensures var w := Execute(steps);
            && w.parameter == [] && Held(w, Record(key, 1, 0))
            && 0 in w.processes && w.processes[0] == Selecting(key, file, ReadVersion, Some(Record(key, 1, 0)))
  {
    var start, lock, create := Start(0, Select("default", 0), key, file), Lock(0, 1, 0, Delivered), CreateFile(0, true);
    ExecuteSnoc([], start);
    ExecuteSnoc([start], lock);
    ExecuteSnoc([start, lock], create);
    assert [] + [start] == [start] && [start] + [lock] == [start, lock];
    assert Execute([start]).processes[0] == Selecting(key, file, AskLock, None);
    assert Execute([start]).files == map[] && Execute([start]).table == map[];
    assert Execute([start, lock]).processes[0] == Selecting(key, file, WriteFile, Some(Record(key, 1, 0)));
    steps := [start, lock] + [create];
  }

  lemma SelectionConfirms(w: World, p: Process) returns (v: World, more: seq<Step>)
    requires p.id == 0 && 0 in w.processes && w.processes[0] == p && p.command == Select("default", 0)
    requires p.pc == ReadVersion && w.parameter == []
    ensures more == [GetVersion(0, true), PutParameter(0, Delivered), GetBack(0, true)]
    ensures v == Apply(Apply(Apply(w, more[0]), more[1]), more[2])
    ensures 0 in v.processes && v.table == w.table
    ensures v.processes[0] == p.(pc := Giving(true), attempted := true, confirmed := true)
  {
    more := [GetVersion(0, true), PutParameter(0, Delivered), GetBack(0, true)];
    var a := Apply(w, more[0]);
    assert a == Moved(w, p.(pc := PutProfile));
    var b := Apply(a, more[1]);
    assert b.processes[0] == p.(pc := ReadBack, attempted := true) && b.parameter == [Written(Some(0), "default")];
    v := Apply(b, more[2]);
  }

  // An execution that comes to the last delete of a confirmed selection.
  lemma SelectionComesToDelete(key: Key, file: string) returns (steps: seq<Step>)
    ensures var w, r := Execute(steps), Record(key, 1, 0);
      && 0 in w.processes && Held(w, r)
      && w.processes[0] == Selecting(key, file, Giving(true), Some(r)).(attempted := true, confirmed := true)
  {
    var first := SelectionTakesLock(key, file);
    var v, more := SelectionConfirms(Execute(first), Execute(first).processes[0]);
    ExecuteSnoc(first, more[0]);
    ExecuteSnoc(first + [more[0]], more[1]);
    ExecuteSnoc(first + [more[0]] + [more[1]], more[2]);
    steps := first + [more[0]] + [more[1]] + [more[2]];
  }

  ghost predicate FailedAndFree(steps: seq<Step>, key: Key) {
    var w := Execute(steps);
    && 0 in w.processes && w.processes[0].command.Select? && w.processes[0].pc.Failed? && w.processes[0].attempted
    && w.processes[0].record == Some(Record(key, 1, 0)) && !Held(w, Record(key, 1, 0))
  }

  /** Both ways to fail with the lock given back happen: the answer of the last delete is
      lost, or it comes and the process ends before its owner file is removed. */
  lemma FailedSelectionMayHaveReleased(key: Key, file: string)
    ensures exists steps :: FailedAndFree(steps + [Delete(0, LostAfterLanding)], key)
    ensures exists steps :: FailedAndFree(steps + [Delete(0, Delivered)] + [Crash(0)], key)
  {
    var steps := SelectionComesToDelete(key, file);
    ExecuteSnoc(steps, Delete(0, LostAfterLanding));
    assert FailedAndFree(steps + [Delete(0, LostAfterLanding)], key);
    ExecuteSnoc(steps, Delete(0, Delivered));
    ExecuteSnoc(steps + [Delete(0, Delivered)], Crash(0));
    assert FailedAndFree(steps + [Delete(0, Delivered)] + [Crash(0)], key);
  }
}
