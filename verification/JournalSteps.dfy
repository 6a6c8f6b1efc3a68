/**
  When a run of the deployment goes on and when it dies, request by request, and that a run
  nothing goes wrong for comes to its end.
  */
module JournalSteps {
  import opened Options
  import opened Journal

  // ---------- one step of a run ----------

  predicate OwnIds(w: World) {
    forall id <- w.runs :: w.runs[id].id == id
  }

  lemma {:induction false} AlwaysOwnIds(steps: seq<Step>)
    ensures OwnIds(Execute(steps))
  {
    if steps != [] { AlwaysOwnIds(steps[..|steps| - 1]); }
  }

  /** A run before and after one more step of an interleaving. */
  ghost predicate Turns(steps: seq<Step>, step: Step, id: nat, p: Run, q: Run) {
    && id in Execute(steps).runs && Execute(steps).runs[id] == p
    && id in Execute(steps + [step]).runs && Execute(steps + [step]).runs[id] == q
  }

  lemma ExecuteSnoc(steps: seq<Step>, step: Step)
    ensures Execute(steps + [step]) == Apply(Execute(steps), step)
  {
    assert (steps + [step])[..|steps|] == steps;
  }

  lemma TurnIs(steps: seq<Step>, step: Step, id: nat, p: Run, q: Run)
    requires Turns(steps, step, id, p, q)
    ensures p.id == id && id in Apply(Execute(steps), step).runs && Apply(Execute(steps), step).runs[id] == q
    ensures step.id != id ==> q == p
  {
    AlwaysOwnIds(steps);
    ExecuteSnoc(steps, step);
  }

  /** The remote journal is what this run wrote last, or is not there yet. */
  predicate Unchallenged(w: World, run: Run) {
    if run.etag.Some? then w.remote == run.etag else w.remote.None?
  }

  /** A run gets past a save exactly by an acknowledged conditional write; it dies of any
      other outcome. */
  lemma SavesExactly(steps: seq<Step>, step: Step, id: nat, p: Run, q: Run)
    requires Turns(steps, step, id, p, q) && Saves(p.pc) && AtOperation(p)
    ensures var saved := step == Save(id, Delivered) && Unchallenged(Execute(steps), p);
      && (saved ==> q.passed && q.etag == Some(q.data) && Execute(steps + [step]).remote == Some(q.data) && !q.pc.Dead?)
      && (!saved ==> q == p || (q == p.(pc := Dead) && step.id == id && (step.Save? || step.Crash?)))
  {
    TurnIs(steps, step, id, p, q);
    ExecuteSnoc(steps, step);
  }

  /** What each save writes: a new operation, the version of its archive, the configuration
      with the intent to update, the update, its verification, and the completion. */
  lemma WritesExactly(steps: seq<Step>, id: nat, p: Run, q: Run)
    requires Turns(steps, Save(id, Delivered), id, p, q) && Saves(p.pc) && AtOperation(p)
    requires Unchallenged(Execute(steps), p)
    ensures q.data.run == p.data.run && q.data.manifest == p.data.manifest
    ensures q.data.complete <==> p.data.complete || p.pc.Closing?
    ensures p.pc.Announcing? ==>
      q.data.operations
      == p.data.operations + [Operation(p.manifest[p.pc.i], None, None, false, false, None, false)]
    ensures p.pc.Opening? || p.pc.Closing? ==> q.data.operations == p.data.operations
    ensures p.pc.RecordingSource? ==>
      q.data.operations == p.data.operations[p.pc.i := p.data.operations[p.pc.i].(source := Some(p.pc.version))]
    ensures p.pc.Intending? ==>
      q.data.operations
      == p.data.operations[p.pc.i := p.data.operations[p.pc.i].(config := Some(p.pc.seen.config), updateIntent := true)]
    ensures p.pc.RecordingUpdate? ==>
      q.data.operations == p.data.operations[p.pc.i := p.data.operations[p.pc.i].(updated := true)]
    ensures p.pc.Verifying? ==>
      q.data.operations
      == p.data.operations[p.pc.i := p.data.operations[p.pc.i].(settled := Some(p.pc.revision), verified := true)]
  {
    TurnIs(steps, Save(id, Delivered), id, p, q);
  }

  /** Where an acknowledged save leads: to the next request of the same target, to the next
      target, and after the last one to the end. */
  lemma LeadsExactly(steps: seq<Step>, id: nat, p: Run, q: Run)
    requires Turns(steps, Save(id, Delivered), id, p, q) && Saves(p.pc) && AtOperation(p)
    requires Unchallenged(Execute(steps), p)
    ensures p.pc.Opening? ==> q.pc == if |p.manifest| == 0 then Closing else Announcing(0)
    ensures p.pc.Announcing? ==> q.pc == Uploading(p.pc.i)
    ensures p.pc.RecordingSource? ==> q.pc == Inspecting(p.pc.i)
    ensures p.pc.Intending? ==> q.pc == Updating(p.pc.i)
    ensures p.pc.RecordingUpdate? ==> q.pc == Settling(p.pc.i, 0, None)
    ensures p.pc.Verifying? ==> q.pc == if p.pc.i + 1 < |p.manifest| then Announcing(p.pc.i + 1) else Closing
    ensures p.pc.Closing? ==> q.pc == Finished
  {
    TurnIs(steps, Save(id, Delivered), id, p, q);
  }

  /** An upload goes on exactly when it landed and its reply has a version. */
  lemma UploadsExactly(steps: seq<Step>, step: Step, id: nat, p: Run, q: Run)
    requires Turns(steps, step, id, p, q) && p.pc.Uploading?
    ensures forall v :: q.pc == RecordingSource(p.pc.i, v) <==> step == Put(id, true, Some(v))
    ensures q.pc.RecordingSource? || q == p || q == p.(pc := Dead)
  {
    TurnIs(steps, step, id, p, q);
  }

  /** The reading before the update goes on exactly with the expected role, a revision, and
      no update in progress. */
  lemma InspectsExactly(steps: seq<Step>, step: Step, id: nat, p: Run, q: Run)
    requires Turns(steps, step, id, p, q) && p.pc.Inspecting? && Looks(p)
    ensures forall seen :: q.pc == Intending(p.pc.i, seen) <==>
      step == Read(id, seen) && seen.role == p.manifest[p.pc.i].target.role && seen.revision != ""
      && seen.status.Successful?
    ensures q.pc.Intending? || q.pc == p.pc || q.pc.Dead?
  {
    TurnIs(steps, step, id, p, q);
  }

  /** An update goes on exactly when it landed and its reply has the expected role, the built
      code and a revision. */
  lemma UpdatesExactly(steps: seq<Step>, step: Step, id: nat, p: Run, q: Run)
    requires Turns(steps, step, id, p, q) && p.pc.Updating? && p.pc.i < |p.manifest|
    ensures q.pc == RecordingUpdate(p.pc.i) <==>
      && step.Change? && step.id == id && step.landed && step.response.Some?
      && step.response.value.role == p.manifest[p.pc.i].target.role
      && step.response.value.code == p.manifest[p.pc.i].code && step.response.value.revision != ""
    ensures q.pc.RecordingUpdate? || q == p || q == p.(pc := Dead)
  {
    TurnIs(steps, step, id, p, q);
  }

  /** The reading is of the target, with the built code and the given configuration. */
  predicate AsExpected(item: Item, config: string, seen: Observation) {
    && seen.role == item.target.role && seen.code == item.code && seen.config == config && seen.revision != ""
  }

  /** A settling run is verified exactly by a second success in a row at the same revision,
      keeps waiting after clean progress or a first success, at most 60 times, and dies of
      anything else. */
  lemma SettlesExactly(steps: seq<Step>, step: Step, id: nat, p: Run, q: Run)
    requires Turns(steps, step, id, p, q) && p.pc.Settling? && Looks(p)
    requires p.data.operations[p.pc.i].config.Some?
    ensures var item, config := p.manifest[p.pc.i], p.data.operations[p.pc.i].config.value;
      var clean := step.Read? && step.id == id && AsExpected(item, config, step.seen);
      var at := p.pc.settledAt;
      && (q.pc.Verifying? <==> clean && step.seen.status.Successful? && at == Some(step.seen.revision))
      && (q.pc.Verifying? ==> q.pc == Verifying(p.pc.i, step.seen.revision))
      && (q.pc.Settling? && q.pc != p.pc <==>
            clean && at.None? && !step.seen.status.OtherStatus? && p.pc.attempt + 1 < 60)
      && (q.pc.Settling? && q.pc != p.pc ==>
            q.pc == Settling(p.pc.i, p.pc.attempt + 1,
                             if step.seen.status.Successful? then Some(step.seen.revision) else None))
      && (q.pc.Verifying? || q.pc.Settling? || q.pc.Dead?)
  {
    TurnIs(steps, step, id, p, q);
  }

  // ---------- a run nothing goes wrong for ----------

  /** The run stands at `pc` with its journal as it wrote it, after `n` operations. */
  ghost predicate Alone(w: World, id: nat, manifest: Manifest, pc: PC, n: nat) {
    && id in w.runs && w.runs[id].id == id && w.runs[id].manifest == manifest && w.runs[id].pc == pc
    && w.runs[id].data.run == id && w.runs[id].data.manifest == manifest
    && w.remote == w.runs[id].etag == Some(w.runs[id].data) && |w.runs[id].data.operations| == n
  }

  /** The operation it works on is held to this configuration. */
  predicate HeldTo(w: World, id: nat, i: nat, config: string) {
    id in w.runs && i < |w.runs[id].data.operations| && w.runs[id].data.operations[i].config == Some(config)
  }

  function Ideal(item: Item): Observation {
    Observation(item.target.role, "1", item.code, "", Successful)
  }

  lemma SaveGoes(w: World, id: nat, manifest: Manifest, pc: PC, n: nat)
    requires Alone(w, id, manifest, pc, n) && Saves(pc) && !pc.Opening? && AtOperation(w.runs[id])
    ensures Alone(Apply(w, Save(id, Delivered)), id, manifest, AfterSave(w.runs[id]), if pc.Announcing? then n + 1 else n)
    ensures pc.Intending? ==> HeldTo(Apply(w, Save(id, Delivered)), id, pc.i, pc.seen.config)
    ensures forall config :: pc.RecordingUpdate? && HeldTo(w, id, pc.i, config) ==>
      HeldTo(Apply(w, Save(id, Delivered)), id, pc.i, config)
    ensures pc.Closing? ==> Apply(w, Save(id, Delivered)).runs[id].data.complete
  {
  }

  lemma PutGoes(w: World, id: nat, manifest: Manifest, i: nat, n: nat)
    requires Alone(w, id, manifest, Uploading(i), n)
    ensures Alone(Apply(w, Put(id, true, Some("1"))), id, manifest, RecordingSource(i, "1"), n)
  {
  }

  lemma InspectionGoes(w: World, id: nat, manifest: Manifest, i: nat, n: nat)
    requires Alone(w, id, manifest, Inspecting(i), n) && i < |manifest| && i < n
    ensures Alone(Apply(w, Read(id, Ideal(manifest[i]))), id, manifest, Intending(i, Ideal(manifest[i])), n)
  {
  }

  lemma UpdateGoes(w: World, id: nat, manifest: Manifest, i: nat, n: nat)
    requires Alone(w, id, manifest, Updating(i), n) && i < |manifest| && HeldTo(w, id, i, "")
    ensures Alone(Apply(w, Change(id, true, Some(Ideal(manifest[i])))), id, manifest, RecordingUpdate(i), n)
    ensures HeldTo(Apply(w, Change(id, true, Some(Ideal(manifest[i])))), id, i, "")
  {
  }

  lemma SettleGoes(w: World, id: nat, manifest: Manifest, i: nat, attempt: nat, at: Option<string>, n: nat)
    requires Alone(w, id, manifest, Settling(i, attempt, at), n) && i < |manifest| && i < n && HeldTo(w, id, i, "")
    requires attempt < 2 && (at.None? || at == Some("1"))
    ensures Alone(Apply(w, Read(id, Ideal(manifest[i]))), id, manifest,
                  if at.None? then Settling(i, attempt + 1, Some("1")) else Verifying(i, "1"), n)
    ensures HeldTo(Apply(w, Read(id, Ideal(manifest[i]))), id, i, "")
  {
  }

  /** Steps after some steps, one at a time. */
  lemma Then(steps: seq<Step>, step: Step) returns (more: seq<Step>)
    ensures more == steps + [step] && Execute(more) == Apply(Execute(steps), step)
  {
    more := steps + [step];
    ExecuteSnoc(steps, step);
  }

  lemma PrepareTarget(steps: seq<Step>, id: nat, manifest: Manifest, i: nat) returns (more: seq<Step>)
    requires i < |manifest| && Alone(Execute(steps), id, manifest, Announcing(i), i)
    ensures steps <= more && Alone(Execute(more), id, manifest, Updating(i), i + 1) && HeldTo(Execute(more), id, i, "")
  {
    SaveGoes(Execute(steps), id, manifest, Announcing(i), i);
    more := Then(steps, Save(id, Delivered));
    PutGoes(Execute(more), id, manifest, i, i + 1);
    more := Then(more, Put(id, true, Some("1")));
    SaveGoes(Execute(more), id, manifest, RecordingSource(i, "1"), i + 1);
    more := Then(more, Save(id, Delivered));
    InspectionGoes(Execute(more), id, manifest, i, i + 1);
    more := Then(more, Read(id, Ideal(manifest[i])));
    SaveGoes(Execute(more), id, manifest, Intending(i, Ideal(manifest[i])), i + 1);
    more := Then(more, Save(id, Delivered));
  }

  lemma UpdateTarget(steps: seq<Step>, id: nat, manifest: Manifest, i: nat) returns (more: seq<Step>)
    requires i < |manifest| && Alone(Execute(steps), id, manifest, Updating(i), i + 1) && HeldTo(Execute(steps), id, i, "")
    ensures steps <= more
    ensures Alone(Execute(more), id, manifest, Settling(i, 0, None), i + 1) && HeldTo(Execute(more), id, i, "")
  {
    UpdateGoes(Execute(steps), id, manifest, i, i + 1);
    more := Then(steps, Change(id, true, Some(Ideal(manifest[i]))));
    SaveGoes(Execute(more), id, manifest, RecordingUpdate(i), i + 1);
    more := Then(more, Save(id, Delivered));
  }

  lemma SettleTarget(steps: seq<Step>, id: nat, manifest: Manifest, i: nat) returns (more: seq<Step>)
    requires i < |manifest| && Alone(Execute(steps), id, manifest, Settling(i, 0, None), i + 1)
    requires HeldTo(Execute(steps), id, i, "")
    ensures steps <= more && Alone(Execute(more), id, manifest, Verifying(i, "1"), i + 1)
  {
    SettleGoes(Execute(steps), id, manifest, i, 0, None, i + 1);
    more := Then(steps, Read(id, Ideal(manifest[i])));
    SettleGoes(Execute(more), id, manifest, i, 1, Some("1"), i + 1);
    more := Then(more, Read(id, Ideal(manifest[i])));
  }

  lemma FinishTarget(steps: seq<Step>, id: nat, manifest: Manifest, i: nat) returns (more: seq<Step>)
    requires i < |manifest| && Alone(Execute(steps), id, manifest, Verifying(i, "1"), i + 1)
    ensures steps <= more
    ensures Alone(Execute(more), id, manifest, if i + 1 < |manifest| then Announcing(i + 1) else Closing, i + 1)
  {
    SaveGoes(Execute(steps), id, manifest, Verifying(i, "1"), i + 1);
    more := Then(steps, Save(id, Delivered));
  }

  lemma {:induction false} AllTargets(steps: seq<Step>, id: nat, manifest: Manifest, i: nat) returns (more: seq<Step>)
    requires i < |manifest| && Alone(Execute(steps), id, manifest, Announcing(i), i)
    ensures steps <= more && Alone(Execute(more), id, manifest, Closing, |manifest|)
    decreases |manifest| - i
  {
    more := PrepareTarget(steps, id, manifest, i);
    more := UpdateTarget(more, id, manifest, i);
    more := SettleTarget(more, id, manifest, i);
    more := FinishTarget(more, id, manifest, i);
    if i + 1 < |manifest| { more := AllTargets(more, id, manifest, i + 1); }
  }

  /** A run that starts while there is no journal, and whose requests are all answered well,
      ends with a complete journal: the way to the end is always open. */
  lemma UndisturbedCompletes(steps: seq<Step>, id: nat, manifest: Manifest) returns (more: seq<Step>)
    requires ValidManifest(manifest) && Execute(steps).remote.None? && id !in Execute(steps).runs
    ensures steps <= more
    ensures var w := Execute(more);
      && id in w.runs && w.runs[id].pc.Finished? && w.remote.Some?
      && w.remote.value.complete && w.remote.value.run == id && w.remote.value.manifest == manifest
      && |w.remote.value.operations| == |manifest|
  {
    more := Then(steps, Start(id, manifest));
    OpeningGoes(Execute(more), id, manifest);
    more := Then(more, Save(id, Delivered));
    more := AllTargets(more, id, manifest, 0);
    SaveGoes(Execute(more), id, manifest, Closing, |manifest|);
    more := Then(more, Save(id, Delivered));
  }

  lemma OpeningGoes(w: World, id: nat, manifest: Manifest)
    requires ValidManifest(manifest) && w.remote.None? && id in w.runs && w.runs[id] == OpenRun(id, manifest)
    ensures Alone(Apply(w, Save(id, Delivered)), id, manifest, Announcing(0), 0)
  {
  }
}
