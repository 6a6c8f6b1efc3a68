/**
  Safety of the deployment journal over every interleaving, crash and lost reply.
  */
module JournalSafety {
  import opened Options
  import Sequences
  import opened Journal

  // ---------- what a journal body promises about the run that wrote it ----------

  /** The configuration an operation is held to was read, Successful and in the
      expected role, among the first `n` readings. */
  ghost predicate Configured(readings: seq<Reading>, n: nat, op: Operation) {
    exists k: nat :: k < n && k < |readings| && SawConfiguration(readings[k], op)
  }

  predicate SawConfiguration(reading: Reading, op: Operation) {
    && op.config == Some(reading.seen.config) && reading.arn == op.item.target.arn
    && reading.seen.role == op.item.target.role && reading.seen.status.Successful?
  }

  predicate SawSuccess(reading: Reading, op: Operation, revision: string) {
    && op.config == Some(reading.seen.config) && reading.arn == op.item.target.arn
    && reading.seen.role == op.item.target.role && reading.seen.code == op.item.code
    && reading.seen.status.Successful? && reading.seen.revision == revision && revision != ""
  }

  /** Two readings in a row of the operation's function, both Successful, at the
      recorded revision, with the expected code digest and role and the configuration
      that an earlier Successful reading had shown. */
  ghost predicate VerifiedAt(readings: seq<Reading>, k: nat, op: Operation, revision: string) {
    && k + 1 < |readings|
    && SawSuccess(readings[k], op, revision) && SawSuccess(readings[k + 1], op, revision)
    && Configured(readings, k, op)
  }

  ghost predicate Witnessed(readings: seq<Reading>, op: Operation, revision: string) {
    exists k: nat :: VerifiedAt(readings, k, op, revision)
  }

  predicate Follows(b: Body, manifest: Manifest) {
    && |b.operations| <= |manifest|
    && (forall j | 0 <= j < |b.operations| :: b.operations[j].item == manifest[j])
  }

  predicate VerifiedBelow(b: Body, n: nat) {
    forall j | 0 <= j < n && j < |b.operations| :: b.operations[j].verified
  }

  ghost predicate OpOk(op: Operation, run: Run) {
    && (op.config.Some? ==> Configured(run.readings, |run.readings|, op))
    && (op.verified ==> op.settled.Some? && Witnessed(run.readings, op, op.settled.value))
  }

  ghost predicate BodyOk(b: Body, run: Run) {
    && b.run == run.id && b.manifest == run.manifest && Follows(b, run.manifest)
    && (forall j | 0 <= j < |b.operations| :: OpOk(b.operations[j], run))
    && (b.complete ==> |b.operations| == |run.manifest| && VerifiedBelow(b, |b.operations|))
  }

  // ---------- where a live run stands ----------

  /** The operation the run works on, if any. */
  predicate WorksOn(pc: PC, i: nat) {
    match pc
    case Uploading(n) => n == i
    case RecordingSource(n, _) => n == i
    case Inspecting(n) => n == i
    case Intending(n, _) => n == i
    case Updating(n) => n == i
    case RecordingUpdate(n) => n == i
    case Settling(n, _, _) => n == i
    case Verifying(n, _) => n == i
    case _ => false
  }

  predicate AfterIntent(pc: PC) {
    pc.Updating? || pc.RecordingUpdate? || pc.Settling? || pc.Verifying?
  }

  ghost predicate PositionOk(run: Run) {
    var data := run.data;
    && !data.complete
    && (run.pc.Announcing? ==>
          run.pc.i < |run.manifest| && |data.operations| == run.pc.i && VerifiedBelow(data, run.pc.i))
    && (forall i: nat | WorksOn(run.pc, i) ::
          i < |run.manifest| && |data.operations| == i + 1 && VerifiedBelow(data, i)
          && !data.operations[i].verified
          && (AfterIntent(run.pc) ==> data.operations[i].updateIntent && data.operations[i].config.Some?))
    && (run.pc.Closing? ==> |data.operations| == |run.manifest| && VerifiedBelow(data, |run.manifest|))
  }

  ghost predicate EvidenceOk(run: Run) {
    match run.pc
    case Intending(i, seen) =>
      exists k: nat :: k < |run.readings| && i < |run.data.operations|
        && SawConfiguration(run.readings[k], run.data.operations[i].(config := Some(seen.config)))
    case Settling(i, _, settledAt) =>
      settledAt.Some? ==>
        && |run.readings| > 0 && i < |run.data.operations|
        && SawSuccess(run.readings[|run.readings| - 1], run.data.operations[i], settledAt.value)
        && Configured(run.readings, |run.readings| - 1, run.data.operations[i])
    case Verifying(i, revision) =>
      i < |run.data.operations| && Witnessed(run.readings, run.data.operations[i], revision)
    case _ => true
  }

  /** How many operations may have been updated when the run stands at `pc`. */
  function UpdateBound(run: Run): nat {
    match run.pc
    case Announcing(i) => i
    case Uploading(i) => i
    case RecordingSource(i, _) => i
    case Inspecting(i) => i
    case Intending(i, _) => i
    case Updating(i) => i
    case RecordingUpdate(i) => i + 1
    case Settling(i, _, _) => i + 1
    case Verifying(i, _) => i + 1
    case _ => |run.manifest|
  }

  predicate Live(pc: PC) {
    !pc.Opening? && !pc.Dead? && !pc.Finished?
  }

  ghost predicate OwnerOk(run: Run) {
    && BodyOk(run.data, run)
    && (Live(run.pc) ==> PositionOk(run) && EvidenceOk(run))
  }

  // ---------- the invariant ----------

  /** A run that never got past its first journal write. */
  predicate Shut(run: Run) {
    (run.pc.Opening? || run.pc.Dead?) && !run.passed && run.etag.None?
  }

  predicate WellFormed(run: Run) {
    && ValidManifest(run.manifest)
    && (run.pc.Opening? ==> run == OpenRun(run.id, run.manifest))
  }

  /** Every landed upload and update is covered by an intent in the journal `b`. */
  predicate Covered(effects: seq<Effect>, b: Body) {
    forall e <- effects ::
      && e.run == b.run && e.index < |b.operations|
      && (e.Update? ==> b.operations[e.index].updateIntent && e.arn == b.operations[e.index].item.target.arn)
  }

  predicate UpdatesOnce(effects: seq<Effect>) {
    forall x, y | 0 <= x < y < |effects| && effects[x].Update? && effects[y].Update? ::
      effects[x].index != effects[y].index
  }

  predicate UpdatesBelow(effects: seq<Effect>, bound: nat) {
    forall e <- effects | e.Update? :: e.index < bound
  }

  ghost predicate Owned(w: World, b: Body) {
    && b.run in w.runs
    && BodyOk(b, w.runs[b.run])
    && Covered(w.effects, b)
    && UpdatesOnce(w.effects)
    && (forall id <- w.runs | id != b.run :: Shut(w.runs[id]))
    && var owner := w.runs[b.run];
       !owner.pc.Opening?
       && (!owner.pc.Dead? ==> owner.etag == Some(b) && owner.data == b && OwnerOk(owner))
       && (Live(owner.pc) ==> UpdatesBelow(w.effects, UpdateBound(owner)))
  }

  ghost predicate Invariant(w: World) {
    && (forall id <- w.runs :: w.runs[id].id == id && WellFormed(w.runs[id]))
    && (w.remote.None? ==> w.effects == [] && forall id <- w.runs :: Shut(w.runs[id]))
    && (w.remote.Some? ==> Owned(w, w.remote.value))
  }

  // ---------- the edits a run makes before saving ----------

  /** Evidence is about the item and the configuration; the other fields do not matter. */
  lemma SameEvidence(readings: seq<Reading>, n: nat, op: Operation, other: Operation, revision: string)
    requires op.item == other.item && op.config == other.config
    ensures Configured(readings, n, op) ==> Configured(readings, n, other)
    ensures Witnessed(readings, op, revision) ==> Witnessed(readings, other, revision)
  {
    if Configured(readings, n, op) {
      var k: nat :| k < n && k < |readings| && SawConfiguration(readings[k], op);
      assert SawConfiguration(readings[k], other);
    }
    if Witnessed(readings, op, revision) {
      var k: nat :| VerifiedAt(readings, k, op, revision);
      var c: nat :| c < k && c < |readings| && SawConfiguration(readings[c], op);
      assert SawConfiguration(readings[c], other);
      assert VerifiedAt(readings, k, other, revision);
    }
  }

  lemma SaveKeepsOperation(run: Run, j: nat)
    requires OwnerOk(run) && Live(run.pc) && Saves(run.pc) && AtOperation(run)
    requires j < |Edited(run).operations|
    ensures OpOk(Edited(run).operations[j], run)
  {
    var ops, op := run.data.operations, Edited(run).operations[j];
    if j < |ops| {
      assert OpOk(ops[j], run);
      if run.pc.Intending? && j == run.pc.i {
        assert WorksOn(run.pc, j);
        var k: nat :| k < |run.readings| && SawConfiguration(run.readings[k], ops[j].(config := Some(run.pc.seen.config)));
        assert SawConfiguration(run.readings[k], op);
      } else {
        var revision := if run.pc.Verifying? && j == run.pc.i then run.pc.revision
                        else if ops[j].settled.Some? then ops[j].settled.value else "";
        SameEvidence(run.readings, |run.readings|, ops[j], op, revision);
        assert !op.verified || (run.pc.Verifying? && j == run.pc.i) || ops[j].verified;
      }
    }
  }

  function Saved(run: Run): Run
    requires Saves(run.pc) && AtOperation(run)
  {
    run.(etag := Some(Edited(run)), data := Edited(run), pc := AfterSave(run), passed := true)
  }

  lemma SaveKeepsBody(run: Run)
    requires OwnerOk(run) && Live(run.pc) && Saves(run.pc) && AtOperation(run)
    ensures BodyOk(Edited(run), run)
  {
    var body := Edited(run);
    forall j | 0 <= j < |body.operations| ensures OpOk(body.operations[j], run) {
      SaveKeepsOperation(run, j);
    }
    assert Follows(body, run.manifest);
  }

  lemma BodyOkElsewhere(b: Body, run: Run, other: Run)
    requires BodyOk(b, run)
    requires run.id == other.id && run.manifest == other.manifest && run.readings == other.readings
    ensures BodyOk(b, other)
  {
  }

  lemma SaveKeepsPosition(run: Run)
    requires PositionOk(run) && Live(run.pc) && Saves(run.pc) && AtOperation(run)
    ensures Live(AfterSave(run)) ==> PositionOk(Saved(run)) && EvidenceOk(Saved(run))
    ensures UpdateBound(run) <= UpdateBound(Saved(run))
  {
  }

  // ---------- every step keeps the invariant ----------

  lemma LiveIsOwner(w: World, id: nat)
    requires Invariant(w) && id in w.runs && Live(w.runs[id].pc)
    ensures w.remote.Some? && w.remote.value.run == id
    ensures w.runs[id].data == w.remote.value && w.runs[id].etag == w.remote
    ensures OwnerOk(w.runs[id]) && UpdatesBelow(w.effects, UpdateBound(w.runs[id]))
  {
  }

  /** Replacing the owner's run and journal, with everybody else as before. */
  lemma OwnerMoves(w: World, run: Run, b: Body, effects: seq<Effect>)
    requires Invariant(w) && w.remote.Some? && w.remote.value.run == run.id == b.run
    requires run.id in w.runs && run.manifest == w.runs[run.id].manifest && WellFormed(run) && !run.pc.Opening?
    requires BodyOk(b, run) && Covered(effects, b) && UpdatesOnce(effects)
    requires !run.pc.Dead? ==> run.etag == Some(b) && run.data == b && OwnerOk(run)
    requires Live(run.pc) ==> UpdatesBelow(effects, UpdateBound(run))
    ensures Invariant(World(Some(b), w.runs[run.id := run], effects))
  {
  }

  lemma CoveredByEdit(run: Run, effects: seq<Effect>)
    requires OwnerOk(run) && Live(run.pc) && Saves(run.pc) && AtOperation(run)
    requires Covered(effects, run.data)
    ensures Covered(effects, Edited(run))
  {
  }

  lemma OwnerSaves(w: World, id: nat, reply: Reply)
    requires Invariant(w) && id in w.runs && Live(w.runs[id].pc) && Saves(w.runs[id].pc) && AtOperation(w.runs[id])
    ensures Invariant(SaveStep(w, w.runs[id], reply))
  {
    LiveIsOwner(w, id);
    var run := w.runs[id];
    var body := Edited(run);
    SaveKeepsBody(run);
    CoveredByEdit(run, w.effects);
    if reply.Delivered? {
      SaveKeepsPosition(run);
      BodyOkElsewhere(body, run, Saved(run));
      OwnerMoves(w, Saved(run), body, w.effects);
    } else {
      var b := if reply.LostAfterLanding? then body else run.data;
      BodyOkElsewhere(b, run, Kill(run));
      OwnerMoves(w, Kill(run), b, w.effects);
    }
  }

  /** The first write of a run: it lands only if no journal exists yet. */
  lemma OpeningSaves(w: World, id: nat, reply: Reply)
    requires Invariant(w) && id in w.runs && w.runs[id].pc.Opening?
    ensures Invariant(SaveStep(w, w.runs[id], reply))
  {
  }

  lemma OwnerUploads(w: World, id: nat, landed: bool, version: Option<string>)
    requires Invariant(w) && id in w.runs && w.runs[id].pc.Uploading?
    ensures Invariant(PutStep(w, w.runs[id], landed, version))
  {
    LiveIsOwner(w, id);
    var run := w.runs[id];
    var next := PutStep(w, run, landed, version);
    UploadLogged(w.effects, run);
    UploadedKeepsPosition(run, next.runs[id]);
    OwnerMoves(w, next.runs[id], run.data, next.effects);
  }

  // An upload after its announcement keeps the log in order.
  lemma UploadLogged(effects: seq<Effect>, run: Run)
    requires OwnerOk(run) && run.pc.Uploading?
    requires Covered(effects, run.data) && UpdatesOnce(effects) && UpdatesBelow(effects, run.pc.i)
    ensures var log := effects + [Upload(run.id, run.pc.i)];
      Covered(log, run.data) && UpdatesOnce(log) && UpdatesBelow(log, run.pc.i)
  {
    assert WorksOn(run.pc, run.pc.i);
  }

  lemma UploadedKeepsPosition(run: Run, after: Run)
    requires OwnerOk(run) && run.pc.Uploading?
    requires after == Kill(run) || exists v :: after == run.(pc := RecordingSource(run.pc.i, v))
    ensures OwnerOk(after)
  {
    assert WorksOn(run.pc, run.pc.i);
  }

  lemma OwnerUpdates(w: World, id: nat, landed: bool, response: Option<Observation>)
    requires Invariant(w) && id in w.runs && w.runs[id].pc.Updating? && w.runs[id].pc.i < |w.runs[id].manifest|
    ensures Invariant(ChangeStep(w, w.runs[id], landed, response))
  {
    LiveIsOwner(w, id);
    var run := w.runs[id];
    var next := ChangeStep(w, run, landed, response);
    UpdateLogged(w.effects, run);
    UpdatedKeepsPosition(run, next.runs[id]);
    OwnerMoves(w, next.runs[id], run.data, next.effects);
  }

  // An update after its intent is the first one of its target.
  lemma UpdateLogged(effects: seq<Effect>, run: Run)
    requires OwnerOk(run) && run.pc.Updating? && run.pc.i < |run.manifest|
    requires Covered(effects, run.data) && UpdatesOnce(effects) && UpdatesBelow(effects, run.pc.i)
    ensures var log := effects + [Update(run.id, run.pc.i, run.manifest[run.pc.i].target.arn, |run.readings|)];
      Covered(log, run.data) && UpdatesOnce(log) && UpdatesBelow(log, run.pc.i + 1)
    ensures UpdatesBelow(effects, run.pc.i + 1)
  {
    assert WorksOn(run.pc, run.pc.i);
  }

  lemma UpdatedKeepsPosition(run: Run, after: Run)
    requires OwnerOk(run) && run.pc.Updating?
    requires after == Kill(run) || after == run.(pc := RecordingUpdate(run.pc.i))
    ensures OwnerOk(after)
  {
    assert WorksOn(run.pc, run.pc.i);
  }

  // ---------- readings only add evidence ----------

  lemma MoreReadings(readings: seq<Reading>, more: Reading, n: nat, op: Operation, revision: string)
    ensures Configured(readings, n, op) ==> Configured(readings + [more], n, op)
    ensures Witnessed(readings, op, revision) ==> Witnessed(readings + [more], op, revision)
  {
    var all := readings + [more];
    if Configured(readings, n, op) {
      var k: nat :| k < n && k < |readings| && SawConfiguration(readings[k], op);
      assert SawConfiguration(all[k], op);
    }
    if Witnessed(readings, op, revision) {
      var k: nat :| VerifiedAt(readings, k, op, revision);
      var c: nat :| c < k && c < |readings| && SawConfiguration(readings[c], op);
      assert SawConfiguration(all[c], op);
      assert VerifiedAt(all, k, op, revision);
    }
  }

  lemma ReadingKeepsBody(b: Body, run: Run, more: Reading, pc: PC)
    requires BodyOk(b, run)
    ensures BodyOk(b, run.(readings := run.readings + [more], pc := pc))
  {
    var after := run.(readings := run.readings + [more], pc := pc);
    forall j | 0 <= j < |b.operations| ensures OpOk(b.operations[j], after) {
      var op := b.operations[j];
      assert OpOk(op, run);
      MoreReadings(run.readings, more, |run.readings|, op, if op.settled.Some? then op.settled.value else "");
    }
  }

  /** The reading before an intent records what the update will be held to. */
  lemma InspectionEvidence(run: Run, seen: Observation)
    requires OwnerOk(run) && run.pc.Inspecting? && run.pc.i < |run.data.operations|
    requires seen.role == run.data.operations[run.pc.i].item.target.role && seen.status.Successful?
    ensures EvidenceOk(run.(readings := run.readings + [Reading(run.data.operations[run.pc.i].item.target.arn, seen)],
                            pc := Intending(run.pc.i, seen)))
  {
    var op := run.data.operations[run.pc.i];
    var all := run.readings + [Reading(op.item.target.arn, seen)];
    assert SawConfiguration(all[|run.readings|], op.(config := Some(seen.config)));
  }

  /** One accepted settle reading: the first success is kept as evidence, the second
      in a row completes it. */
  lemma SettleEvidence(run: Run, seen: Observation)
    requires OwnerOk(run) && run.pc.Settling? && run.pc.i < |run.data.operations|
    requires run.data.operations[run.pc.i].config.Some?
    requires Clean(run.data.operations[run.pc.i].item, run.data.operations[run.pc.i].config.value, seen)
    requires seen.status.Successful?
    ensures var op := run.data.operations[run.pc.i];
            var all := run.readings + [Reading(op.item.target.arn, seen)];
            && SawSuccess(all[|all| - 1], op, seen.revision) && Configured(all, |all| - 1, op)
            && (run.pc.settledAt == Some(seen.revision) ==> |all| > 1 && VerifiedAt(all, |all| - 2, op, seen.revision))
  {
    var op := run.data.operations[run.pc.i];
    var all := run.readings + [Reading(op.item.target.arn, seen)];
    var last := |all| - 1;
    assert OpOk(op, run);
    MoreReadings(run.readings, all[last], |run.readings|, op, seen.revision);
    if run.pc.settledAt == Some(seen.revision) {
      MoreReadings(run.readings, all[last], |run.readings| - 1, op, seen.revision);
      assert VerifiedAt(all, last - 1, op, seen.revision);
    }
  }

  lemma LookKeepsEvidence(run: Run, seen: Observation)
    requires OwnerOk(run) && Live(run.pc) && Looks(run) && PositionOk(run)
    ensures Live(AfterLook(run, seen)) ==> EvidenceOk(Looked(run, seen))
  {
    var i := run.pc.i;
    assert WorksOn(run.pc, i) && run.manifest[i] == run.data.operations[i].item;
    if AfterLook(run, seen).Intending? {
      InspectionEvidence(run, seen);
    } else if run.pc.Settling? && !AfterLook(run, seen).Dead? && seen.status.Successful? {
      SettleEvidence(run, seen);
    }
  }

  lemma LookKeepsPosition(run: Run, seen: Observation)
    requires PositionOk(run) && Looks(run)
    ensures Live(AfterLook(run, seen)) ==> PositionOk(Looked(run, seen))
    ensures Live(AfterLook(run, seen)) ==> UpdateBound(Looked(run, seen)) == UpdateBound(run)
  {
    assert WorksOn(run.pc, run.pc.i);
  }

  lemma OwnerReads(w: World, id: nat, seen: Observation)
    requires Invariant(w) && id in w.runs && Looks(w.runs[id])
    ensures Invariant(Moved(w, Looked(w.runs[id], seen)))
  {
    LiveIsOwner(w, id);
    var run := w.runs[id];
    var after := Looked(run, seen);
    ReadingKeepsBody(run.data, run, Reading(run.manifest[run.pc.i].target.arn, seen), after.pc);
    LookKeepsPosition(run, seen);
    LookKeepsEvidence(run, seen);
    OwnerMoves(w, after, run.data, w.effects);
  }

  lemma CrashKeeps(w: World, id: nat)
    requires Invariant(w) && id in w.runs
    ensures Invariant(Moved(w, Kill(w.runs[id])))
  {
  }

  lemma StartKeeps(w: World, id: nat, manifest: Manifest)
    requires Invariant(w) && id !in w.runs && ValidManifest(manifest)
    ensures Invariant(Moved(w, OpenRun(id, manifest)))
  {
  }

  lemma StepKeeps(w: World, step: Step)
    requires Invariant(w)
    ensures Invariant(Apply(w, step))
  {
    match step {
      case Start(id, manifest) =>
        if id !in w.runs && ValidManifest(manifest) { StartKeeps(w, id, manifest); }
      case Save(id, reply) =>
        if id in w.runs && Saves(w.runs[id].pc) && AtOperation(w.runs[id]) {
          if w.runs[id].pc.Opening? { OpeningSaves(w, id, reply); } else { OwnerSaves(w, id, reply); }
        }
      case Put(id, landed, version) =>
        if id in w.runs && w.runs[id].pc.Uploading? { OwnerUploads(w, id, landed, version); }
      case Read(id, seen) =>
        if id in w.runs && Looks(w.runs[id]) { OwnerReads(w, id, seen); }
      case Change(id, landed, response) =>
        if id in w.runs && w.runs[id].pc.Updating? && w.runs[id].pc.i < |w.runs[id].manifest| {
          OwnerUpdates(w, id, landed, response);
        }
      case Crash(id) =>
        if id in w.runs { CrashKeeps(w, id); }
    }
  }

  lemma {:induction false} Always(steps: seq<Step>)
    ensures Invariant(Execute(steps))
  {
    if steps != [] {
      Always(steps[..|steps| - 1]);
      StepKeeps(Execute(steps[..|steps| - 1]), steps[|steps| - 1]);
    }
  }

  // ---------- what holds after any interleaving ----------

  /** At most one run ever gets past its first journal write. */
  lemma OneRunPasses(steps: seq<Step>, a: nat, b: nat)
    requires a in Execute(steps).runs && b in Execute(steps).runs
    requires Execute(steps).runs[a].passed && Execute(steps).runs[b].passed
    ensures a == b
  {
    Always(steps);
  }

  /** Every landed upload and update was announced: the remote journal holds the
      operation of the run that did it, and for an update the update intent. */
  lemma EffectsWereIntended(steps: seq<Step>, e: Effect)
    requires e in Execute(steps).effects
    ensures Execute(steps).remote.Some?
    ensures var b := Execute(steps).remote.value;
            && e.run == b.run && e.index < |b.operations| <= |b.manifest|
            && b.operations[e.index].item == b.manifest[e.index]
            && (e.Update? ==> b.operations[e.index].updateIntent && e.arn == b.manifest[e.index].target.arn)
  {
    Always(steps);
  }

  /** No function's code is updated twice, by any runs, under any failures. */
  lemma UpdatedAtMostOnce(steps: seq<Step>, x: nat, y: nat)
    requires x < y < |Execute(steps).effects|
    requires Execute(steps).effects[x].Update? && Execute(steps).effects[y].Update?
    ensures Execute(steps).effects[x].arn != Execute(steps).effects[y].arn
  {
    Always(steps);
    var w := Execute(steps);
    var b := w.remote.value;
    var ex, ey := w.effects[x], w.effects[y];
    assert ex in w.effects && ey in w.effects;
    assert ex.arn == b.manifest[ex.index].target.arn && ey.arn == b.manifest[ey.index].target.arn;
  }

  /** A journal marked complete: every target of its manifest was read Successful twice
      in a row at one revision, with the built code, the expected role, and the
      configuration of an earlier Successful reading. JournalOrder places the update
      between that reading and these two. */
  lemma CompleteMeansVerified(steps: seq<Step>, i: nat)
    requires Execute(steps).remote.Some? && Execute(steps).remote.value.complete
    requires i < |Execute(steps).remote.value.manifest|
    ensures var b := Execute(steps).remote.value;
            && b.run in Execute(steps).runs && i < |b.operations|
            && b.operations[i].item == b.manifest[i] && b.operations[i].settled.Some?
            && Witnessed(Execute(steps).runs[b.run].readings, b.operations[i], b.operations[i].settled.value)
  {
    Always(steps);
    var w := Execute(steps);
    var b := w.remote.value;
    assert OpOk(b.operations[i], w.runs[b.run]);
  }

  /** Nothing more can come of the run. */
  predicate Ended(pc: PC) {
    pc.Finished? || pc.Dead?
  }

  function ByRun(id: nat): Effect -> bool {
    (e: Effect) => e.run == id
  }

  /** Nothing of the ended run `id` differs between two worlds but that it may have died
      after finishing: neither its own state, nor its effects, nor the journal if it owns it. */
  ghost predicate Frozen(a: World, b: World, id: nat) {
    && id in a.runs && id in b.runs && Ended(a.runs[id].pc)
    && (b.runs[id] == a.runs[id] || b.runs[id] == Kill(a.runs[id]))
    && Sequences.Filter(b.effects, ByRun(id)) == Sequences.Filter(a.effects, ByRun(id))
    && (a.remote.Some? && a.remote.value.run == id ==> b.remote == a.remote)
  }

  lemma OthersEffects(effects: seq<Effect>, e: Effect, id: nat)
    requires e.run != id
    ensures Sequences.Filter(effects + [e], ByRun(id)) == Sequences.Filter(effects, ByRun(id))
  {
    Sequences.FilterSnoc(effects, e, ByRun(id));
  }

  lemma OwnStepSilent(w: World, step: Step, id: nat)
    requires id in w.runs && Ended(w.runs[id].pc) && step.id == id
    ensures Apply(w, step) == w || Apply(w, step) == Moved(w, Kill(w.runs[id]))
  {
  }

  lemma OthersStepSilent(w: World, step: Step, id: nat)
    requires id in w.runs && step.id != id && forall x <- w.runs :: w.runs[x].id == x
    ensures id in Apply(w, step).runs && Apply(w, step).runs[id] == w.runs[id]
    ensures Sequences.Filter(Apply(w, step).effects, ByRun(id)) == Sequences.Filter(w.effects, ByRun(id))
  {
    forall e: Effect ensures e.run != id ==>
      Sequences.Filter(w.effects + [e], ByRun(id)) == Sequences.Filter(w.effects, ByRun(id))
    {
      if e.run != id { OthersEffects(w.effects, e, id); }
    }
  }

  lemma OthersKeepJournal(w: World, step: Step, id: nat)
    requires Invariant(w) && w.remote.Some? && w.remote.value.run == id && step.id != id
    ensures Apply(w, step).remote == w.remote
  {
    assert step.id in w.runs ==> Shut(w.runs[step.id]);
  }

  lemma EndedStaysSilent(w: World, step: Step, id: nat)
    requires Invariant(w) && id in w.runs && Ended(w.runs[id].pc)
    ensures Frozen(w, Apply(w, step), id)
  {
    assert w.runs[id].id == id;
    if step.id == id {
      OwnStepSilent(w, step, id);
    } else {
      OthersStepSilent(w, step, id);
      if w.remote.Some? && w.remote.value.run == id { OthersKeepJournal(w, step, id); }
    }
  }

  lemma FrozenChains(a: World, b: World, c: World, id: nat)
    requires Frozen(a, b, id) && Frozen(b, c, id)
    ensures Frozen(a, c, id)
  {
  }

  lemma FrozenOneMore(steps: seq<Step>, now: seq<Step>, step: Step, id: nat)
    requires Frozen(Execute(steps), Execute(now), id)
    ensures Frozen(Execute(steps), Execute(now + [step]), id)
  {
    Always(now);
    assert (now + [step])[..|now|] == now;
    EndedStaysSilent(Execute(now), step, id);
    FrozenChains(Execute(steps), Execute(now), Execute(now + [step]), id);
  }

  /** A run that has ended never changes anything again, whatever the others do. */
  lemma {:induction false} EndedForever(steps: seq<Step>, more: seq<Step>, id: nat)
    requires id in Execute(steps).runs && Ended(Execute(steps).runs[id].pc)
    ensures Frozen(Execute(steps), Execute(steps + more), id)
  {
    if more == [] {
      assert steps + more == steps;
    } else {
      var front, step := more[..|more| - 1], more[|more| - 1];
      EndedForever(steps, front, id);
      assert steps + more == steps + front + [step];
      FrozenOneMore(steps, steps + front, step, id);
    }
  }

  /** A save that is not acknowledged ends its run. */
  lemma UncertainWriteKills(w: World, id: nat, reply: Reply)
    requires id in w.runs && w.runs[id].id == id && Saves(w.runs[id].pc) && AtOperation(w.runs[id])
    requires !PutAcknowledged(w.remote, w.runs[id].etag, reply)
    ensures id in Apply(w, Save(id, reply)).runs && Apply(w, Save(id, reply)).runs[id].pc.Dead?
  {
  }

  /** After a save whose condition failed or whose reply was lost, the run is dead: it never
      writes, uploads or updates again, and a journal of its own stays as that save left it. */
  lemma UncertainWriteIsFinal(steps: seq<Step>, more: seq<Step>, id: nat, reply: Reply)
    requires id in Execute(steps).runs && Saves(Execute(steps).runs[id].pc) && AtOperation(Execute(steps).runs[id])
    requires !PutAcknowledged(Execute(steps).remote, Execute(steps).runs[id].etag, reply)
    ensures var after := Execute(steps + [Save(id, reply)]);
      && id in after.runs && after.runs[id].pc.Dead?
      && Frozen(after, Execute(steps + [Save(id, reply)] + more), id)
      && after.effects == Execute(steps).effects
  {
    Always(steps);
    assert (steps + [Save(id, reply)])[..|steps|] == steps;
    UncertainWriteKills(Execute(steps), id, reply);
    EndedForever(steps + [Save(id, reply)], more, id);
  }
}
