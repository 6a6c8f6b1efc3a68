/**
  What the end of each capacity lock command means, at every step of every interleaving:
  from which state, by which answered request, and with what in the lock table.
  */
module CapacityLockOutcomes {
  import opened Options
  import opened CapacityLock
  import opened CapacityLockSafety

  /** The table holds exactly this record. */
  predicate InTable(w: World, r: Option<Record>) {
    r.Some? && r.value.target in w.table && w.table[r.value.target] == r.value
  }

  /** Once past asking for the lock a process has its record. */
  predicate HasRecord(p: Process) {
    !p.pc.AskLock? && !p.pc.Done? && !p.pc.Failed? ==> p.record.Some?
  }

  /** Where each command can stand. */
  predicate Fits(p: Process) {
    p.pc.Done? || p.pc.Failed? ||
    match p.command
    case Acquire => p.pc.AskLock? || p.pc.WriteFile? || p.pc == Giving(false)
    case Select(_, _) => !p.pc.Checking?
    case Release => p.pc == Giving(true) || p.pc.Unlinking?
    case Verify => p.pc.Checking?
    case Recover => p.pc.Checking? || p.pc == Giving(false)
  }

  predicate Recorded(p: Process) {
    HasRecord(p) && Fits(p)
  }

  predicate AllRecorded(w: World) {
    forall id <- w.processes :: w.processes[id].id == id && Recorded(w.processes[id])
  }

  // One step of a process leaves the others alone.
  predicate OnlyChanges(w: World, v: World, id: nat) {
    id in v.processes && v.processes == w.processes[id := v.processes[id]]
  }

  lemma ProcessStepAlone(w: World, p: Process, step: Step)
    requires p.id in w.processes && w.processes[p.id] == p
    ensures OnlyChanges(w, ProcessStep(w, p, step), p.id)
  {
    assert w.processes[p.id := p] == w.processes;
  }

  lemma ProcessStepHasRecord(w: World, p: Process, step: Step)
    requires p.id in w.processes && w.processes[p.id] == p && HasRecord(p)
    ensures p.id in ProcessStep(w, p, step).processes && HasRecord(ProcessStep(w, p, step).processes[p.id])
  {
  }

  lemma ProcessStepFits(w: World, p: Process, step: Step)
    requires p.id in w.processes && w.processes[p.id] == p && Fits(p)
    ensures p.id in ProcessStep(w, p, step).processes
    ensures var q := ProcessStep(w, p, step).processes[p.id];
      q.id == p.id && q.command == p.command && Fits(q)
  {
  }

  lemma StepRecorded(w: World, step: Step)
    requires AllRecorded(w)
    ensures AllRecorded(Apply(w, step))
  {
    if !step.Start? && !step.StartRecover? && !step.Stop? && !step.OutsidePut? && step.id in w.processes {
      ProcessStepAlone(w, w.processes[step.id], step);
      ProcessStepHasRecord(w, w.processes[step.id], step);
      ProcessStepFits(w, w.processes[step.id], step);
    }
  }

  lemma {:induction false} AlwaysRecorded(steps: seq<Step>)
    ensures AllRecorded(Execute(steps))
  {
    if steps != [] {
      AlwaysRecorded(steps[..|steps| - 1]);
      StepRecorded(Execute(steps[..|steps| - 1]), steps[|steps| - 1]);
    }
  }

  /** A process before and after one more step of an interleaving. */
  ghost predicate Turns(steps: seq<Step>, step: Step, id: nat, p: Process, q: Process) {
    && id in Execute(steps).processes && Execute(steps).processes[id] == p
    && id in Execute(steps + [step]).processes && Execute(steps + [step]).processes[id] == q
  }

  predicate Moves(step: Step, id: nat) {
    !step.Start? && !step.StartRecover? && !step.Stop? && !step.OutsidePut? && step.id == id
  }

  lemma TurnIs(steps: seq<Step>, step: Step, id: nat, p: Process, q: Process)
    requires Turns(steps, step, id, p, q)
    ensures p.id == id && Recorded(p) && id in Execute(steps).processes
    ensures Moves(step, id) ==> Execute(steps + [step]) == ProcessStep(Execute(steps), p, step)
    ensures Moves(step, id) ==> ProcessStep(Execute(steps), p, step).processes[id] == q
    ensures !Moves(step, id) ==> q == p
  {
    AlwaysRecorded(steps);
    ExecuteSnoc(steps, step);
    if !Moves(step, id) { OthersTurn(Execute(steps), step, id); }
  }

  lemma OthersTurn(w: World, step: Step, id: nat)
    requires AllRecorded(w) && id in w.processes && !Moves(step, id)
    ensures id in Apply(w, step).processes && Apply(w, step).processes[id] == w.processes[id]
  {
    if !step.Start? && !step.StartRecover? && !step.Stop? && !step.OutsidePut? && step.id in w.processes {
      ProcessStepAlone(w, w.processes[step.id], step);
    }
  }

  // ---------- how a command begins ----------

  /** A new `verify` or `release` takes its record from the owner file, which must name the
      asked target; a recovery takes the record of an owner that has stopped. */
  lemma BeginsExactly(steps: seq<Step>, id: nat, command: Command, key: Key, file: string)
    requires id !in Execute(steps).processes && (command.Verify? || command.Release?)
    ensures var w := Execute(steps);
      var after := Execute(steps + [Start(id, command, key, file)]).processes;
      && id in after && after[id].command == command && after[id].key == key && after[id].file == file
      && if file in w.files && w.files[file].target == key
         then after[id].record == Some(w.files[file])
              && after[id].pc == (if command.Verify? then Checking else Giving(true))
         else after[id].record.None? && after[id].pc.Failed?
  {
    ExecuteSnoc(steps, Start(id, command, key, file));
  }

  /** `acquire` asks for the lock at once; `select` does so exactly for a supported profile. */
  lemma AsksExactly(steps: seq<Step>, id: nat, command: Command, key: Key, file: string)
    requires id !in Execute(steps).processes && (command.Acquire? || command.Select?)
    ensures var after := Execute(steps + [Start(id, command, key, file)]).processes;
      && id in after && after[id].command == command && after[id].key == key && after[id].file == file
      && after[id].record.None? && !after[id].attempted && !after[id].confirmed
      && after[id].pc == if command.Acquire? || command.profile == "default" || command.profile == "llm-proxy"
                         then AskLock else Failed
  {
    ExecuteSnoc(steps, Start(id, command, key, file));
  }

  lemma RecoveryBeginsExactly(steps: seq<Step>, id: nat, r: Record)
    requires id !in Execute(steps).processes
    ensures var after := Execute(steps + [StartRecover(id, r)]).processes;
      if r in Execute(steps).stopped
      then id in after && after[id].command.Recover? && after[id].record == Some(r) && after[id].pc.Checking?
      else after == Execute(steps).processes
  {
    ExecuteSnoc(steps, StartRecover(id, r));
  }

  // ---------- verify and recover ----------

  /** A check passes exactly by its own answered read, while the table holds exactly its
      record: then `verify` is done, and a recovery may delete. Any other outcome of that
      read is a failure. */
  lemma ChecksExactly(steps: seq<Step>, step: Step, id: nat, p: Process, q: Process)
    requires Turns(steps, step, id, p, q) && p.pc.Checking?
    ensures var passes := step == Check(id, true) && InTable(Execute(steps), p.record);
      && (q.pc.Done? <==> passes && p.command.Verify?)
      && (q.pc.Giving? <==> passes && p.command.Recover?)
      && (q.pc.Giving? ==> !q.pc.unlink && q.record == p.record)
      && (q.pc.Failed? <==> step == Crash(id) || (step.Check? && step.id == id && !passes))
      && (!q.pc.Done? && !q.pc.Giving? && !q.pc.Failed? ==> q == p)
  {
    TurnIs(steps, step, id, p, q);
  }

  /** So a `verify` that is done has seen its record in the table, and a recovery that may
      delete has too. */
  lemma OnlyChecksPass(steps: seq<Step>, step: Step, id: nat, p: Process, q: Process)
    requires Turns(steps, step, id, p, q) && p.pc != q.pc
    requires (p.command.Verify? && q.pc.Done?) || (p.command.Recover? && q.pc.Giving?)
    ensures p.pc.Checking? && step == Check(id, true) && InTable(Execute(steps), p.record)
  {
    TurnIs(steps, step, id, p, q);
    if p.pc.Checking? {
      ChecksExactly(steps, step, id, p, q);
    } else if Ended(p) {
      EndsStay(Execute(steps), p, step);
    } else {
      DeletesExactly(steps, step, id, p, q);
    }
  }

  lemma EndsStay(w: World, p: Process, step: Step)
    requires p.id in w.processes && w.processes[p.id] == p && Ended(p)
    ensures ProcessStep(w, p, step) == w
  {
  }

  // ---------- deleting ----------

  /** A delete is confirmed exactly by its own answered request, while the table holds
      exactly the record. */
  lemma DeletesExactly(steps: seq<Step>, step: Step, id: nat, p: Process, q: Process)
    requires Turns(steps, step, id, p, q) && p.pc.Giving?
    ensures var confirmed := step == Delete(id, Delivered) && InTable(Execute(steps), p.record);
      && (q.pc.Unlinking? <==> confirmed && p.pc.unlink)
      && (q.pc.Done? <==> confirmed && !p.pc.unlink && p.command.Recover?)
      && (q.pc.Failed? <==> step == Crash(id) || (step.Delete? && step.id == id && !q.pc.Unlinking? && !q.pc.Done?))
      && (confirmed ==> p.record.value.target !in Execute(steps + [step]).table)
  {
    TurnIs(steps, step, id, p, q);
    ExecuteSnoc(steps, step);
  }

  /** Removing the owner file ends the command, as done unless a selection was not confirmed. */
  lemma UnlinksExactly(steps: seq<Step>, step: Step, id: nat, p: Process, q: Process)
    requires Turns(steps, step, id, p, q) && p.pc.Unlinking?
    ensures q.pc.Done? <==> step == Unlink(id) && (p.command.Select? ==> p.confirmed)
    ensures step == Unlink(id) ==> p.file !in Execute(steps + [step]).files
  {
    TurnIs(steps, step, id, p, q);
    ExecuteSnoc(steps, step);
  }

  // ---------- acquiring ----------

  /** The lock is granted exactly by an answered request with a fresh owner, while no owner
      file is in the way and the table has no item of the target; the item is the record. */
  lemma GrantsExactly(steps: seq<Step>, step: Step, id: nat, p: Process, q: Process)
    requires Turns(steps, step, id, p, q) && p.pc.AskLock?
    ensures var w := Execute(steps);
      && (q.pc.WriteFile? <==>
            step.Lock? && step.id == id && step.reply.Delivered? && step.owner !in w.used
            && p.file !in w.files && p.key !in w.table)
      && (q.pc.WriteFile? ==>
            q.record == Some(Record(p.key, step.owner, step.started)) && InTable(Execute(steps + [step]), q.record))
      && (!q.pc.WriteFile? ==> q == p || q == p.(pc := Failed))
  {
    TurnIs(steps, step, id, p, q);
    ExecuteSnoc(steps, step);
  }

  /** Its owner file is written exactly when the name is still free; else the lock is given
      back. Then `acquire` is done and a selection goes on. */
  lemma FilesExactly(steps: seq<Step>, step: Step, id: nat, p: Process, q: Process)
    requires Turns(steps, step, id, p, q) && p.pc.WriteFile?
    ensures var written := step == CreateFile(id, true) && p.file !in Execute(steps).files;
      && (written ==> q.pc == (if p.command.Select? then ReadVersion else Done))
      && (written ==> p.file in Execute(steps + [step]).files
                      && p.record == Some(Execute(steps + [step]).files[p.file]))
      && (step.CreateFile? && step.id == id && !written ==> q.pc == Giving(false))
      && (q.pc.Done? || q.pc.ReadVersion? ==> written)
  {
    TurnIs(steps, step, id, p, q);
    ExecuteSnoc(steps, step);
  }

  // ---------- selecting ----------

  /** A selection goes on to write exactly when the answered read shows the expected version. */
  lemma VersionChecked(steps: seq<Step>, step: Step, id: nat, p: Process, q: Process)
    requires Turns(steps, step, id, p, q) && p.pc.ReadVersion? && p.command.Select?
    ensures q.pc.PutProfile? <==> step == GetVersion(id, true) && |Execute(steps).parameter| == p.command.expected
    ensures step.GetVersion? && step.id == id && !q.pc.PutProfile? ==> q == p.(pc := Giving(true))
  {
    TurnIs(steps, step, id, p, q);
  }

  lemma ReadbackStep(w: World, p: Process, step: Step)
    requires p.pc.ReadBack? && p.command.Select? && p.id in w.processes && w.processes[p.id] == p
    ensures p.id in ProcessStep(w, p, step).processes
    ensures var q, n := ProcessStep(w, p, step).processes[p.id], |w.parameter|;
      && (q.pc.Giving? <==>
            step.GetBack? && step.ok && n == p.command.expected + 1 && w.parameter[n - 1].profile == p.command.profile)
      && (q.pc.Giving? ==> q.confirmed && q.pc.unlink)
      && (step.GetBack? && !q.pc.Giving? ==> q.pc.Failed?)
  {
  }

  /** It is confirmed exactly when the answered readback shows its profile at the next version. */
  lemma ReadbackChecked(steps: seq<Step>, step: Step, id: nat, p: Process, q: Process)
    requires Turns(steps, step, id, p, q) && p.pc.ReadBack? && p.command.Select?
    ensures var n := |Execute(steps).parameter|;
      && (q.pc.Giving? <==>
            step == GetBack(id, true) && n == p.command.expected + 1
            && Execute(steps).parameter[n - 1].profile == p.command.profile)
      && (q.pc.Giving? ==> q.confirmed && q.pc.unlink)
      && (step.GetBack? && step.id == id && !q.pc.Giving? ==> q.pc.Failed?)
  {
    var w := Execute(steps);
    TurnIs(steps, step, id, p, q);
    if Moves(step, id) {
      ReadbackStep(w, p, step);
      assert step.GetBack? && step.ok <==> step == GetBack(id, true);
    } else {
      assert q == p;
    }
  }

  // ---------- the lock table ----------

  /** The table changes by two kinds of landed request only. */
  lemma TableChangesExactly(steps: seq<Step>, step: Step)
    ensures var w, table := Execute(steps), Execute(steps + [step]).table;
      && (table != w.table ==> step.Lock? || step.Delete?)
      && (step.Lock? && table != w.table ==>
            step.id in w.processes &&
            var key := w.processes[step.id].key;
            key !in w.table && table == w.table[key := Record(key, step.owner, step.started)])
      && (step.Delete? && table != w.table ==>
            step.id in w.processes && InTable(w, w.processes[step.id].record)
            && table == w.table - {w.processes[step.id].record.value.target})
  {
    ExecuteSnoc(steps, step);
  }
}
