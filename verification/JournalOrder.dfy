/**
  What a complete journal says about the order of events: each target's configuration was
  read, then its code was updated once, and the two readings that verify it came after
  that and saw the configuration unchanged.
  */
module JournalOrder {
  import opened Options
  import opened Journal
  import opened JournalSafety

  /** The code of target `j` was updated before reading `n`, and the configuration that
      the operation is held to was read before that update. */
  ghost predicate LandedBefore(effects: seq<Effect>, j: nat, n: nat, readings: seq<Reading>, op: Operation) {
    exists e <- effects :: e.Update? && e.index == j && e.after <= n && Configured(readings, e.after, op)
  }

  ghost predicate SeenAfter(effects: seq<Effect>, j: nat, readings: seq<Reading>, op: Operation, revision: string) {
    exists k: nat :: VerifiedAt(readings, k, op, revision) && LandedBefore(effects, j, k, readings, op)
  }

  ghost predicate OrderOk(op: Operation, j: nat, effects: seq<Effect>, readings: seq<Reading>) {
    && (op.updated ==> LandedBefore(effects, j, |readings|, readings, op))
    && (op.verified ==> op.settled.Some? && SeenAfter(effects, j, readings, op, op.settled.value))
  }

  ghost predicate AllOrdered(b: Body, effects: seq<Effect>, readings: seq<Reading>) {
    forall j | 0 <= j < |b.operations| :: OrderOk(b.operations[j], j, effects, readings)
  }

  // The target that a run works on has not been updated before it gets to the update.
  predicate Untouched(run: Run, i: nat) {
    i < |run.data.operations| && !run.data.operations[i].updated
  }

  ghost predicate Updated(run: Run, effects: seq<Effect>, i: nat, n: nat) {
    i < |run.data.operations| && LandedBefore(effects, i, n, run.readings, run.data.operations[i])
  }

  ghost predicate StandsOk(run: Run, effects: seq<Effect>) {
    match run.pc
    case Uploading(i) => Untouched(run, i)
    case RecordingSource(i, _) => Untouched(run, i)
    case Inspecting(i) => Untouched(run, i)
    case Intending(i, _) => Untouched(run, i)
    case RecordingUpdate(i) => Updated(run, effects, i, |run.readings|)
    case Settling(i, _, at) =>
      && Updated(run, effects, i, |run.readings|)
      && (at.Some? ==> |run.readings| > 0 && Updated(run, effects, i, |run.readings| - 1))
    case Verifying(i, revision) =>
      i < |run.data.operations| && SeenAfter(effects, i, run.readings, run.data.operations[i], revision)
    case _ => true
  }

  ghost predicate Ordered(w: World) {
    w.remote.Some? ==>
      && w.remote.value.run in w.runs
      && var owner := w.runs[w.remote.value.run];
      && AllOrdered(w.remote.value, w.effects, owner.readings)
      && (Live(owner.pc) ==> StandsOk(owner, w.effects))
  }

  // ---------- later events keep what came before ----------

  lemma ConfiguredKept(readings: seq<Reading>, later: seq<Reading>, n: nat, op: Operation)
    requires Configured(readings, n, op)
    ensures Configured(readings + later, n, op)
  {
    var c: nat :| c < n && c < |readings| && SawConfiguration(readings[c], op);
    assert SawConfiguration((readings + later)[c], op);
  }

  lemma LandedKept(
    effects: seq<Effect>, more: seq<Effect>, j: nat, n: nat, m: nat,
    readings: seq<Reading>, later: seq<Reading>, op: Operation)
    requires LandedBefore(effects, j, n, readings, op) && n <= m
    ensures LandedBefore(effects + more, j, m, readings + later, op)
  {
    var e :| e in effects && e.Update? && e.index == j && e.after <= n && Configured(readings, e.after, op);
    ConfiguredKept(readings, later, e.after, op);
    assert e in effects + more;
  }

  // Only the item and the configuration matter.
  lemma LandedAlike(effects: seq<Effect>, j: nat, n: nat, readings: seq<Reading>, op: Operation, other: Operation)
    requires op.item == other.item && op.config == other.config
    requires LandedBefore(effects, j, n, readings, op)
    ensures LandedBefore(effects, j, n, readings, other)
  {
    var e :| e in effects && e.Update? && e.index == j && e.after <= n && Configured(readings, e.after, op);
    SameEvidence(readings, e.after, op, other, "");
  }

  lemma VerifiedKept(readings: seq<Reading>, more: seq<Reading>, k: nat, op: Operation, revision: string)
    requires VerifiedAt(readings, k, op, revision)
    ensures VerifiedAt(readings + more, k, op, revision)
  {
    var c: nat :| c < k && c < |readings| && SawConfiguration(readings[c], op);
    assert SawConfiguration((readings + more)[c], op);
  }

  lemma SeenKept(
    effects: seq<Effect>, more: seq<Effect>, j: nat,
    readings: seq<Reading>, later: seq<Reading>, op: Operation, revision: string)
    requires SeenAfter(effects, j, readings, op, revision)
    ensures SeenAfter(effects + more, j, readings + later, op, revision)
  {
    var k: nat :| VerifiedAt(readings, k, op, revision) && LandedBefore(effects, j, k, readings, op);
    VerifiedKept(readings, later, k, op, revision);
    LandedKept(effects, more, j, k, k, readings, later, op);
  }

  lemma AllKept(b: Body, effects: seq<Effect>, more: seq<Effect>, readings: seq<Reading>, later: seq<Reading>)
    requires AllOrdered(b, effects, readings)
    ensures AllOrdered(b, effects + more, readings + later)
  {
    forall j | 0 <= j < |b.operations| ensures OrderOk(b.operations[j], j, effects + more, readings + later) {
      var op := b.operations[j];
      assert OrderOk(op, j, effects, readings);
      if op.updated { LandedKept(effects, more, j, |readings|, |readings + later|, readings, later, op); }
      if op.verified { SeenKept(effects, more, j, readings, later, op, op.settled.value); }
    }
  }

  // ---------- the owner's steps ----------

  lemma SeenAlike(effects: seq<Effect>, j: nat, readings: seq<Reading>, op: Operation, other: Operation, revision: string)
    requires op.item == other.item && op.config == other.config
    requires SeenAfter(effects, j, readings, op, revision)
    ensures SeenAfter(effects, j, readings, other, revision)
  {
    var k: nat :| VerifiedAt(readings, k, op, revision) && LandedBefore(effects, j, k, readings, op);
    var c: nat :| c < k && c < |readings| && SawConfiguration(readings[c], op);
    assert SawConfiguration(readings[c], other);
    assert VerifiedAt(readings, k, other, revision);
    LandedAlike(effects, j, k, readings, op, other);
  }

  // The edits before a save keep that a target was updated.
  lemma UpdatedKept(run: Run, effects: seq<Effect>, j: nat)
    requires OwnerOk(run) && Live(run.pc) && Saves(run.pc) && AtOperation(run) && WorksOn(run.pc, j)
    requires AllOrdered(run.data, effects, run.readings) && StandsOk(run, effects)
    requires j < |run.data.operations| && Edited(run).operations[j].updated
    ensures LandedBefore(effects, j, |run.readings|, run.readings, Edited(run).operations[j])
  {
    assert OrderOk(run.data.operations[j], j, effects, run.readings);
    LandedAlike(effects, j, |run.readings|, run.readings, run.data.operations[j], Edited(run).operations[j]);
  }

  lemma EditOrders(run: Run, effects: seq<Effect>, j: nat)
    requires OwnerOk(run) && Live(run.pc) && Saves(run.pc) && AtOperation(run)
    requires AllOrdered(run.data, effects, run.readings) && StandsOk(run, effects)
    requires j < |Edited(run).operations|
    ensures OrderOk(Edited(run).operations[j], j, effects, run.readings)
  {
    var ops, op := run.data.operations, Edited(run).operations[j];
    if j < |ops| {
      assert OrderOk(ops[j], j, effects, run.readings);
      if WorksOn(run.pc, j) {
        if run.pc.Verifying? { SeenAlike(effects, j, run.readings, ops[j], op, run.pc.revision); }
        if op.updated { UpdatedKept(run, effects, j); }
      } else {
        assert op == ops[j];
      }
    }
  }

  lemma EditAllOrdered(run: Run, effects: seq<Effect>)
    requires OwnerOk(run) && Live(run.pc) && Saves(run.pc) && AtOperation(run)
    requires AllOrdered(run.data, effects, run.readings) && StandsOk(run, effects)
    ensures AllOrdered(Edited(run), effects, run.readings)
    ensures StandsOk(Saved(run), effects)
  {
    forall j | 0 <= j < |Edited(run).operations|
      ensures OrderOk(Edited(run).operations[j], j, effects, run.readings)
    {
      EditOrders(run, effects, j);
    }
  }

  lemma SaveOrdered(w: World, id: nat, reply: Reply)
    requires Invariant(w) && Ordered(w) && id in w.runs && Live(w.runs[id].pc)
    requires Saves(w.runs[id].pc) && AtOperation(w.runs[id])
    ensures Ordered(SaveStep(w, w.runs[id], reply))
  {
    LiveIsOwner(w, id);
    EditAllOrdered(w.runs[id], w.effects);
  }

  lemma PutOrdered(w: World, id: nat, landed: bool, version: Option<string>)
    requires Invariant(w) && Ordered(w) && id in w.runs && w.runs[id].pc.Uploading?
    ensures Ordered(PutStep(w, w.runs[id], landed, version))
  {
    LiveIsOwner(w, id);
    var run := w.runs[id];
    AllKept(run.data, w.effects, [Upload(id, run.pc.i)], run.readings, []);
    assert run.readings + [] == run.readings;
  }

  lemma ChangeOrdered(w: World, id: nat, landed: bool, response: Option<Observation>)
    requires Invariant(w) && Ordered(w) && id in w.runs
    requires w.runs[id].pc.Updating? && w.runs[id].pc.i < |w.runs[id].manifest|
    ensures Ordered(ChangeStep(w, w.runs[id], landed, response))
  {
    LiveIsOwner(w, id);
    var run := w.runs[id];
    var update := Update(id, run.pc.i, run.manifest[run.pc.i].target.arn, |run.readings|);
    AllKept(run.data, w.effects, [update], run.readings, []);
    assert run.readings + [] == run.readings;
    assert update in w.effects + [update];
    assert WorksOn(run.pc, run.pc.i) && OpOk(run.data.operations[run.pc.i], run);
  }

  lemma UpdatedAfterLook(run: Run, effects: seq<Effect>, seen: Observation, i: nat, n: nat, m: nat)
    requires Looks(run) && Updated(run, effects, i, n) && n <= m
    ensures Updated(Looked(run, seen), effects, i, m)
  {
    var more := [Reading(run.manifest[run.pc.i].target.arn, seen)];
    LandedKept(effects, [], i, n, m, run.readings, more, run.data.operations[i]);
    assert effects + [] == effects;
  }

  lemma SettledStands(run: Run, effects: seq<Effect>, seen: Observation)
    requires OwnerOk(run) && run.pc.Settling? && Looks(run) && StandsOk(run, effects)
    requires AfterLook(run, seen).Verifying?
    ensures StandsOk(Looked(run, seen), effects)
  {
    var i, n := run.pc.i, |run.readings|;
    assert WorksOn(run.pc, i) && run.manifest[i] == run.data.operations[i].item;
    SettleEvidence(run, seen);
    UpdatedAfterLook(run, effects, seen, i, n - 1, n - 1);
    assert VerifiedAt(Looked(run, seen).readings, n - 1, run.data.operations[i], AfterLook(run, seen).revision);
  }

  lemma LookStands(run: Run, effects: seq<Effect>, seen: Observation)
    requires OwnerOk(run) && Live(run.pc) && Looks(run) && StandsOk(run, effects)
    ensures StandsOk(Looked(run, seen), effects)
  {
    if run.pc.Settling? {
      if AfterLook(run, seen).Verifying? {
        SettledStands(run, effects, seen);
      } else {
        UpdatedAfterLook(run, effects, seen, run.pc.i, |run.readings|, |run.readings|);
        UpdatedAfterLook(run, effects, seen, run.pc.i, |run.readings|, |run.readings| + 1);
      }
    }
  }

  lemma ReadOrdered(w: World, id: nat, seen: Observation)
    requires Invariant(w) && Ordered(w) && id in w.runs && Looks(w.runs[id])
    ensures Ordered(Moved(w, Looked(w.runs[id], seen)))
  {
    LiveIsOwner(w, id);
    var run := w.runs[id];
    AllKept(run.data, w.effects, [], run.readings, [Reading(run.manifest[run.pc.i].target.arn, seen)]);
    assert w.effects + [] == w.effects;
    LookStands(run, w.effects, seen);
  }

  // ---------- every step ----------

  lemma OpeningOrdered(w: World, id: nat, reply: Reply)
    requires Invariant(w) && Ordered(w) && id in w.runs && w.runs[id].pc.Opening?
    ensures Ordered(SaveStep(w, w.runs[id], reply))
  {
  }

  lemma EndOrdered(w: World, id: nat)
    requires Invariant(w) && Ordered(w) && id in w.runs
    ensures Ordered(Moved(w, Kill(w.runs[id])))
  {
  }

  lemma StepOrdered(w: World, step: Step)
    requires Invariant(w) && Ordered(w)
    ensures Ordered(Apply(w, step))
  {
    match step {
      case Start(id, manifest) =>
      case Save(id, reply) =>
        if id in w.runs && Saves(w.runs[id].pc) && AtOperation(w.runs[id]) {
          if w.runs[id].pc.Opening? { OpeningOrdered(w, id, reply); } else { SaveOrdered(w, id, reply); }
        }
      case Put(id, landed, version) =>
        if id in w.runs && w.runs[id].pc.Uploading? { PutOrdered(w, id, landed, version); }
      case Read(id, seen) =>
        if id in w.runs && Looks(w.runs[id]) { ReadOrdered(w, id, seen); }
      case Change(id, landed, response) =>
        if id in w.runs && w.runs[id].pc.Updating? && w.runs[id].pc.i < |w.runs[id].manifest| {
          ChangeOrdered(w, id, landed, response);
        }
      case Crash(id) =>
        if id in w.runs { EndOrdered(w, id); }
    }
  }

  lemma {:induction false} AlwaysOrdered(steps: seq<Step>)
    ensures Ordered(Execute(steps))
  {
    if steps != [] {
      AlwaysOrdered(steps[..|steps| - 1]);
      Always(steps[..|steps| - 1]);
      StepOrdered(Execute(steps[..|steps| - 1]), steps[|steps| - 1]);
    }
  }

  /**
    In a complete journal each target was updated exactly once, and was read Successful
    twice in a row after that update, with the built code, the expected role, and the
    configuration that a Successful reading before the update had shown.
    */
  lemma VerifiedAfterItsUpdate(steps: seq<Step>, i: nat) returns (at: nat, k: nat)
    requires Execute(steps).remote.Some? && Execute(steps).remote.value.complete
    requires i < |Execute(steps).remote.value.manifest|
    ensures var w := Execute(steps);
      var b := w.remote.value;
      && b.run in w.runs && at < |w.effects| && w.effects[at].Update?
      && w.effects[at].run == b.run && w.effects[at].arn == b.manifest[i].target.arn
      && (forall x: nat | x < |w.effects| && w.effects[x].Update? ::
            w.effects[x].arn == b.manifest[i].target.arn ==> x == at)
      && i < |b.operations| && b.operations[i].settled.Some?
      && VerifiedAt(w.runs[b.run].readings, k, b.operations[i], b.operations[i].settled.value)
      && Configured(w.runs[b.run].readings, w.effects[at].after, b.operations[i])
      && w.effects[at].after <= k
  {
    Always(steps);
    AlwaysOrdered(steps);
    CompleteMeansVerified(steps, i);
    var w := Execute(steps);
    var b := w.remote.value;
    var op := b.operations[i];
    assert OrderOk(op, i, w.effects, w.runs[b.run].readings);
    var readings := w.runs[b.run].readings;
    k :| VerifiedAt(readings, k, op, op.settled.value) && LandedBefore(w.effects, i, k, readings, op);
    var e :| e in w.effects && e.Update? && e.index == i && e.after <= k && Configured(readings, e.after, op);
    at :| at < |w.effects| && w.effects[at] == e;
    forall x: nat | x < |w.effects| && w.effects[x].Update? && w.effects[x].arn == b.manifest[i].target.arn ensures x == at {
      if x < at { UpdatedAtMostOnce(steps, x, at); }
      if at < x { UpdatedAtMostOnce(steps, at, x); }
    }
  }
}
