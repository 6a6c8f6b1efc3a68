/**
  The write-ahead journal of platform/automation-infra/deploy-webhook-code.py.

  `Receipt` is the source's class. `World` and `Apply` put any number of runs for one
  source commit around one remote journal object: every step is one request of one
  run (or its crash), and a request's reply may be lost before or after it landed.
  A sequence of steps is one interleaving, so a statement about `Execute(steps)`
  for all `steps` is a statement about all of them.
  */
module Journal {
  import opened Options

  // ---------- what the journal records ----------

  datatype Target = Target(arn: string, artifact: string, role: string)

  /** A target with the digest of its built archive. */
  datatype Item = Item(target: Target, code: string)

  type Manifest = seq<Item>

  datatype Status = Successful | InProgress | OtherStatus

  /** One reply of get_function_configuration; `config` is `configuration_digest`. */
  datatype Observation = Observation(role: string, revision: string, code: string, config: string, status: Status)

  datatype Operation = Operation(
    item: Item,
    source: Option<string>,
    config: Option<string>,
    updateIntent: bool,
    updated: bool,
    settled: Option<string>,
    verified: bool)

  datatype Body = Body(run: nat, manifest: Manifest, complete: bool, operations: seq<Operation>)

  /** The part of `validate_manifest` that compares targets with each other. */
  predicate ValidManifest(manifest: Manifest) {
    && 0 < |manifest| <= 20
    && (forall i, j | 0 <= i < j < |manifest| :: manifest[i].target.arn != manifest[j].target.arn)
    && (forall i, j | 0 <= i < j < |manifest| :: manifest[i].target.artifact != manifest[j].target.artifact)
  }

  // ---------- the conditional store ----------

  /** How a request to the store ends for its sender. */
  datatype Reply = Delivered | LostBeforeLanding | LostAfterLanding

  /** `put_object` with IfMatch on the entity tag, or IfNoneMatch without one. The
      entity tag is a digest of the body, so it is represented by the body. */
  predicate PutAllowed(remote: Option<Body>, etag: Option<Body>) {
    if etag.Some? then remote == etag else remote.None?
  }

  function PutLands(remote: Option<Body>, etag: Option<Body>, body: Body, reply: Reply): Option<Body> {
    if PutAllowed(remote, etag) && !reply.LostBeforeLanding? then Some(body) else remote
  }

  predicate PutAcknowledged(remote: Option<Body>, etag: Option<Body>, reply: Reply) {
    PutAllowed(remote, etag) && reply.Delivered?
  }

  class Store {
    var remote: Option<Body>

    constructor ()
      ensures remote.None?
    {
      remote := None;
    }
  }

  class Receipt {
    const store: Store
    var etag: Option<Body>
    var poisoned: bool
    var data: Body

    constructor (store: Store, data: Body)
      ensures this.store == store && etag.None? && !poisoned && this.data == data
    {
      this.store, etag, poisoned, this.data := store, None, false, data;
    }

    /** `save`; false is the source's exception. A write whose acknowledgement did not
        come back leaves the receipt poisoned, and a poisoned receipt writes nothing. */
    method Save(reply: Reply) returns (ok: bool)
      modifies this, store
      ensures data == old(data)
      ensures ok <==> !old(poisoned) && PutAcknowledged(old(store.remote), old(etag), reply)
      ensures poisoned <==> !ok
      ensures etag == if ok then Some(data) else old(etag)
      ensures store.remote == if old(poisoned) then old(store.remote)
                              else PutLands(old(store.remote), old(etag), data, reply)
    {
      if poisoned { return false; }
      poisoned := true;
      var allowed := if etag.Some? then store.remote == etag else store.remote.None?;
      if allowed && !reply.LostBeforeLanding? {
        store.remote := Some(data);
      }
      if !allowed || !reply.Delivered? { return false; }
      etag := Some(data);
      poisoned := false;
      return true;
    }
  }

  // ---------- one run of deploy ----------

  /** Where a run stands; each names the request it makes next. */
  datatype PC =
    | Opening
    | Announcing(i: nat)
    | Uploading(i: nat)
    | RecordingSource(i: nat, version: string)
    | Inspecting(i: nat)
    | Intending(i: nat, seen: Observation)
    | Updating(i: nat)
    | RecordingUpdate(i: nat)
    | Settling(i: nat, attempt: nat, settledAt: Option<string>)
    | Verifying(i: nat, revision: string)
    | Closing
    | Finished
    | Dead

  datatype Reading = Reading(arn: string, seen: Observation)

  datatype Run = Run(id: nat, manifest: Manifest, pc: PC, etag: Option<Body>, data: Body, passed: bool, readings: seq<Reading>)

  function OpenRun(id: nat, manifest: Manifest): Run {
    Run(id, manifest, Opening, None, Body(id, manifest, false, []), false, [])
  }

  function Fresh(item: Item): Operation {
    Operation(item, None, None, false, false, None, false)
  }

  predicate Saves(pc: PC) {
    pc.Opening? || pc.Announcing? || pc.RecordingSource? || pc.Intending? || pc.RecordingUpdate? || pc.Verifying? || pc.Closing?
  }

  predicate AtOperation(run: Run) {
    match run.pc
    case RecordingSource(i, _) => i < |run.data.operations|
    case Intending(i, _) => i < |run.data.operations|
    case RecordingUpdate(i) => i < |run.data.operations|
    case Verifying(i, _) => i < |run.data.operations|
    case Announcing(i) => i < |run.manifest|
    case _ => true
  }

  /** The in-memory edit that precedes each save. */
  function Edited(run: Run): Body
    requires Saves(run.pc) && AtOperation(run)
  {
    var data := run.data;
    var ops := data.operations;
    match run.pc
    case Opening => data
    case Announcing(i) => data.(operations := ops + [Fresh(run.manifest[i])])
    case RecordingSource(i, version) => data.(operations := ops[i := ops[i].(source := Some(version))])
    case Intending(i, seen) => data.(operations := ops[i := ops[i].(config := Some(seen.config), updateIntent := true)])
    case RecordingUpdate(i) => data.(operations := ops[i := ops[i].(updated := true)])
    case Verifying(i, revision) => data.(operations := ops[i := ops[i].(settled := Some(revision), verified := true)])
    case Closing => data.(complete := true)
  }

  function AfterSave(run: Run): PC
    requires Saves(run.pc)
  {
    match run.pc
    case Opening => Next(run, 0)
    case Announcing(i) => Uploading(i)
    case RecordingSource(i, _) => Inspecting(i)
    case Intending(i, _) => Updating(i)
    case RecordingUpdate(i) => Settling(i, 0, None)
    case Verifying(i, _) => Next(run, i + 1)
    case Closing => Finished
  }

  function Next(run: Run, i: nat): PC {
    if i < |run.manifest| then Announcing(i) else Closing
  }

  // ---------- waiting for an update to settle ----------

  const ATTEMPTS := 60

  datatype Verdict = Again(settledAt: Option<string>) | Settled(revision: string) | Drifted

  /** Every check one reading must pass, whatever its status. */
  predicate Clean(item: Item, config: string, seen: Observation) {
    && seen.role == item.target.role && seen.code == item.code
    && seen.config == config
    && seen.revision != ""
    && !seen.status.OtherStatus?
  }

  function Judge(item: Item, config: string, settledAt: Option<string>, seen: Observation): Verdict {
    if !Clean(item, config, seen) then Drifted
    else if seen.status.Successful? then
      if settledAt.None? then Again(Some(seen.revision))
      else if seen.revision != settledAt.value then Drifted
      else Settled(seen.revision)
    else if settledAt.Some? then Drifted
    else Again(None)
  }

  predicate Progress(item: Item, config: string, seen: Observation) {
    && seen.role == item.target.role && seen.code == item.code && seen.config == config
    && seen.revision != "" && seen.status.InProgress?
  }

  predicate Success(item: Item, config: string, revision: string, seen: Observation) {
    && seen.role == item.target.role && seen.code == item.code && seen.config == config
    && seen.revision == revision && revision != "" && seen.status.Successful?
  }

  /** Progress for a while, then two successes in a row at one revision. */
  predicate SettlesAt(item: Item, config: string, replies: seq<Observation>, n: nat, revision: string) {
    && n + 1 < |replies|
    && (forall k | 0 <= k < n :: Progress(item, config, replies[k]))
    && Success(item, config, revision, replies[n])
    && Success(item, config, revision, replies[n + 1])
  }

  /** The settle loop over the replies it would get: it succeeds exactly when they
      settle within 60 attempts. */
  method SettleLoop(item: Item, config: string, replies: seq<Observation>) returns (revision: Option<string>)
    requires |replies| == 60
    ensures forall r :: revision == Some(r) <==> exists n: nat :: SettlesAt(item, config, replies, n, r)
  {
    var settled: Option<string> := None;
    for attempt := 0 to ATTEMPTS
      invariant settled.None? ==> forall k | 0 <= k < attempt :: Progress(item, config, replies[k])
      invariant settled.Some? ==> attempt > 0 && Success(item, config, settled.value, replies[attempt - 1])
      invariant settled.Some? ==> forall k | 0 <= k < attempt - 1 :: Progress(item, config, replies[k])
    {
      match Judge(item, config, settled, replies[attempt]) {
        case Drifted =>
          return None;
        case Settled(r) =>
          assert SettlesAt(item, config, replies, attempt - 1, r);
          return Some(r);
        case Again(at) =>
          settled := at;
      }
    }
    return None;
  }

  // ---------- all runs together ----------

  datatype Effect = Upload(run: nat, index: nat) | Update(run: nat, index: nat, arn: string, after: nat)

  /** `effects` is a log of the archive uploads and code updates that landed; an update
      came `after` so many readings of its run. */
  datatype World = World(remote: Option<Body>, runs: map<nat, Run>, effects: seq<Effect>)

  datatype Step =
    | Start(id: nat, manifest: Manifest)
    | Save(id: nat, reply: Reply)
    | Put(id: nat, landed: bool, version: Option<string>)
    | Read(id: nat, seen: Observation)
    | Change(id: nat, landed: bool, response: Option<Observation>)
    | Crash(id: nat)

  function Moved(w: World, run: Run): World {
    w.(runs := w.runs[run.id := run])
  }

  function Kill(run: Run): Run {
    run.(pc := Dead)
  }

  /** One save of one run, against whatever the remote object is now. */
  function SaveStep(w: World, run: Run, reply: Reply): World
    requires Saves(run.pc) && AtOperation(run)
  {
    var body := Edited(run);
    var remote := PutLands(w.remote, run.etag, body, reply);
    var after := if PutAcknowledged(w.remote, run.etag, reply)
                 then run.(etag := Some(body), data := body, pc := AfterSave(run), passed := true)
                 else Kill(run);
    Moved(w, after).(remote := remote)
  }

  function PutStep(w: World, run: Run, landed: bool, version: Option<string>): World
    requires run.pc.Uploading?
  {
    var after := if landed && version.Some? then run.(pc := RecordingSource(run.pc.i, version.value)) else Kill(run);
    var log := if landed then w.effects + [Upload(run.id, run.pc.i)] else w.effects;
    Moved(w, after).(effects := log)
  }

  predicate Looks(run: Run) {
    (run.pc.Inspecting? || run.pc.Settling?) && run.pc.i < |run.manifest| && run.pc.i < |run.data.operations|
  }

  function AfterLook(run: Run, seen: Observation): PC
    requires Looks(run)
  {
    var i := run.pc.i;
    var item, op := run.manifest[i], run.data.operations[i];
    if run.pc.Inspecting? then
      if seen.role == item.target.role && seen.revision != "" && seen.status.Successful? then Intending(i, seen) else Dead
    else if op.config.None? then Dead
    else match Judge(item, op.config.value, run.pc.settledAt, seen)
      case Drifted => Dead
      case Settled(revision) => Verifying(i, revision)
      case Again(at) => if run.pc.attempt + 1 < ATTEMPTS then Settling(i, run.pc.attempt + 1, at) else Dead
  }

  function Looked(run: Run, seen: Observation): Run
    requires Looks(run)
  {
    run.(readings := run.readings + [Reading(run.manifest[run.pc.i].target.arn, seen)], pc := AfterLook(run, seen))
  }

  function ChangeStep(w: World, run: Run, landed: bool, response: Option<Observation>): World
    requires run.pc.Updating? && run.pc.i < |run.manifest|
  {
    var i := run.pc.i;
    var item := run.manifest[i];
    var good := landed && response.Some? && response.value.role == item.target.role
                && response.value.code == item.code && response.value.revision != "";
    var after := run.(pc := if good then RecordingUpdate(i) else Dead);
    var log := if landed then w.effects + [Update(run.id, i, item.target.arn, |run.readings|)] else w.effects;
    Moved(w, after).(effects := log)
  }

  /** One step; a step that does not fit the state changes nothing. */
  function Apply(w: World, step: Step): World {
    if step.Start? then
      if step.id !in w.runs && ValidManifest(step.manifest) then Moved(w, OpenRun(step.id, step.manifest)) else w
    else if step.id !in w.runs || w.runs[step.id].id != step.id then w
    else
      var run := w.runs[step.id];
      match step
      case Start(_, _) => w
      case Save(_, reply) => if Saves(run.pc) && AtOperation(run) then SaveStep(w, run, reply) else w
      case Put(_, landed, version) => if run.pc.Uploading? then PutStep(w, run, landed, version) else w
      case Read(_, seen) => if Looks(run) then Moved(w, Looked(run, seen)) else w
      case Change(_, landed, response) =>
        if run.pc.Updating? && run.pc.i < |run.manifest| then ChangeStep(w, run, landed, response) else w
      case Crash(_) => Moved(w, Kill(run))
  }

  const EMPTY_WORLD := World(None, map[], [])

  function Execute(steps: seq<Step>): World {
    if steps == [] then EMPTY_WORLD else Apply(Execute(steps[..|steps| - 1]), steps[|steps| - 1])
  }
}
