/**
  The ownership lock and the guarded selection of
  platform/scripts/gateway-capacity-lock.py, as steps of any number of processes on
  one shared lock table, one versioned parameter and the private owner files.

  Every command is one process; every request is one step, whose reply may be lost
  before or after the request landed, and any process may crash between steps. The
  parameter is shared by all targets of an environment, and others may write it too.
  */
module CapacityLock {
  import opened Options

  type Key = string

  /** A lock item, and the record its owner keeps. Owners are uuid4 values. */
  datatype Record = Record(target: Key, owner: nat, started: int)

  datatype Reply = Delivered | LostBeforeLanding | LostAfterLanding

  datatype Command = Acquire | Select(profile: string, expected: nat) | Release | Verify | Recover

  datatype PC =
    | AskLock
    | WriteFile
    | ReadVersion
    | PutProfile
    | ReadBack
    | Giving(unlink: bool)
    | Unlinking
    | Checking
    | Done
    | Failed

  /** `attempted` is the source's flag; `confirmed` records that the readback of a
      selection succeeded. */
  datatype Process = Process(
    id: nat,
    command: Command,
    key: Key,
    file: string,
    pc: PC,
    record: Option<Record>,
    attempted: bool,
    confirmed: bool)

  /** One write of the parameter: version n is entry n - 1. */
  datatype Written = Written(writer: Option<nat>, profile: string)

  datatype Removed = Removed(remover: nat, record: Record)

  /** `acquired` and `live` are bookkeeping of the proof: the records whose owner was
      told it holds the lock, and those of them not yet given up or stopped. */
  datatype World = World(
    table: map<Key, Record>,
    parameter: seq<Written>,
    files: map<string, Record>,
    processes: map<nat, Process>,
    used: set<nat>,
    removed: seq<Removed>,
    acquired: set<Record>,
    live: set<Record>,
    stopped: set<Record>)

  const EMPTY_WORLD := World(map[], [], map[], map[], {}, [], {}, {}, {})

  datatype Step =
    | Start(id: nat, command: Command, key: Key, file: string)
    | StartRecover(id: nat, record: Record)
    | Lock(id: nat, owner: nat, started: int, reply: Reply)
    | CreateFile(id: nat, ok: bool)
    | GetVersion(id: nat, ok: bool)
    | PutParameter(id: nat, reply: Reply)
    | GetBack(id: nat, ok: bool)
    | Delete(id: nat, reply: Reply)
    | Unlink(id: nat)
    | Check(id: nat, ok: bool)
    | Crash(id: nat)
    | Stop(record: Record)
    | OutsidePut(profile: string)

  predicate Ended(p: Process) {
    p.pc.Done? || p.pc.Failed?
  }

  predicate Supported(profile: string) {
    profile == "default" || profile == "llm-proxy"
  }

  function Moved(w: World, p: Process): World {
    w.(processes := w.processes[p.id := p])
  }

  predicate Held(w: World, r: Record) {
    r.target in w.table && w.table[r.target] == r
  }

  // ---------- starting a command ----------

  /** The checks a command makes before its first request. `release` and `verify` take
      their record from the owner file and require it to name the asked target. */
  function Begin(w: World, id: nat, command: Command, key: Key, file: string): Process {
    var p := Process(id, command, key, file, Failed, None, false, false);
    match command
    case Acquire => p.(pc := AskLock)
    case Select(profile, _) => if Supported(profile) then p.(pc := AskLock) else p
    case Release =>
      if file in w.files && w.files[file].target == key then p.(pc := Giving(true), record := Some(w.files[file])) else p
    case Verify =>
      if file in w.files && w.files[file].target == key then p.(pc := Checking, record := Some(w.files[file])) else p
    case Recover => p
  }

  // ---------- the requests ----------

  /** put-item on condition that no item exists. */
  function LockStep(w: World, p: Process, owner: nat, started: int, reply: Reply): World {
    var r := Record(p.key, owner, started);
    if p.file in w.files then Moved(w, p.(pc := Failed))
    else
      var allowed := p.key !in w.table;
      var lands := allowed && !reply.LostBeforeLanding?;
      var told := allowed && reply.Delivered?;
      Moved(w, if told then p.(pc := WriteFile, record := Some(r)) else p.(pc := Failed))
      .(table := if lands then w.table[p.key := r] else w.table,
        used := w.used + {owner},
        acquired := if told then w.acquired + {r} else w.acquired,
        live := if told then w.live + {r} else w.live)
  }

  function CreateFileStep(w: World, p: Process, ok: bool): World
    requires p.record.Some?
  {
    if ok && p.file !in w.files
    then Moved(w, p.(pc := if p.command.Select? then ReadVersion else Done)).(files := w.files[p.file := p.record.value])
    else Moved(w, p.(pc := Giving(false)))
  }

  function GetVersionStep(w: World, p: Process, ok: bool): World
    requires p.command.Select?
  {
    if ok && |w.parameter| == p.command.expected
    then Moved(w, p.(pc := PutProfile))
    else Moved(w, p.(pc := Giving(true)))
  }

  /** put-parameter with overwrite: unconditional. */
  function PutParameterStep(w: World, p: Process, reply: Reply): World
    requires p.command.Select?
  {
    var tried := p.(attempted := true, pc := if reply.Delivered? then ReadBack else Failed);
    Moved(w, tried).(parameter := if reply.LostBeforeLanding? then w.parameter
                                  else w.parameter + [Written(Some(p.id), p.command.profile)])
  }

  function GetBackStep(w: World, p: Process, ok: bool): World
    requires p.command.Select?
  {
    var n := |w.parameter|;
    if ok && n == p.command.expected + 1 && w.parameter[n - 1].profile == p.command.profile
    then Moved(w, p.(pc := Giving(true), confirmed := true))
    else Moved(w, p.(pc := Failed))
  }

  /** delete-item on condition that the item is exactly the record's. */
  function DeleteStep(w: World, p: Process, reply: Reply): World
    requires p.pc.Giving? && p.record.Some?
  {
    var r := p.record.value;
    var lands := Held(w, r) && !reply.LostBeforeLanding?;
    var told := Held(w, r) && reply.Delivered?;
    var after := p.(pc := if told && p.pc.unlink then Unlinking
                          else if told && p.command.Recover? then Done else Failed);
    Moved(w, after).(table := if lands then w.table - {r.target} else w.table,
                     removed := if lands then w.removed + [Removed(p.id, r)] else w.removed,
                     live := w.live - {r})
  }

  /** Removing the owner file: a selection that was never attempted has failed all the same. */
  function UnlinkStep(w: World, p: Process): World {
    Moved(w, p.(pc := if p.command.Select? && !p.confirmed then Failed else Done)).(files := w.files - {p.file})
  }

  function CheckStep(w: World, p: Process, ok: bool): World
    requires p.record.Some?
  {
    Moved(w, p.(pc := if ok && Held(w, p.record.value) then (if p.command.Recover? then Giving(false) else Done)
                      else Failed))
  }

  /** Evidence that an owner stopped: nothing is running under its record any more. */
  predicate HasStopped(w: World, r: Record) {
    forall id <- w.processes | w.processes[id].record == Some(r) :: Ended(w.processes[id])
  }

  /** One step; a step that does not fit the state changes nothing. */
  function Apply(w: World, step: Step): World {
    match step
    case Start(id, command, key, file) =>
      if id in w.processes then w else Moved(w, Begin(w, id, command, key, file))
    case StartRecover(id, r) =>
      if id in w.processes || r !in w.stopped then w
      else Moved(w, Process(id, Recover, r.target, "", Checking, Some(r), false, false))
    case Stop(r) =>
      if r.owner in w.used && HasStopped(w, r) then w.(live := w.live - {r}, stopped := w.stopped + {r}) else w
    case OutsidePut(profile) => w.(parameter := w.parameter + [Written(None, profile)])
    case _ =>
      if step.id !in w.processes || w.processes[step.id].id != step.id then w
      else ProcessStep(w, w.processes[step.id], step)
  }

  function ProcessStep(w: World, p: Process, step: Step): World {
    match step
    case Lock(_, owner, started, reply) =>
      if p.pc.AskLock? && owner !in w.used then LockStep(w, p, owner, started, reply) else w
    case CreateFile(_, ok) => if p.pc.WriteFile? && p.record.Some? then CreateFileStep(w, p, ok) else w
    case GetVersion(_, ok) => if p.pc.ReadVersion? && p.command.Select? then GetVersionStep(w, p, ok) else w
    case PutParameter(_, reply) => if p.pc.PutProfile? && p.command.Select? then PutParameterStep(w, p, reply) else w
    case GetBack(_, ok) => if p.pc.ReadBack? && p.command.Select? then GetBackStep(w, p, ok) else w
    case Delete(_, reply) => if p.pc.Giving? && p.record.Some? then DeleteStep(w, p, reply) else w
    case Unlink(_) => if p.pc.Unlinking? then UnlinkStep(w, p) else w
    case Check(_, ok) => if p.pc.Checking? && p.record.Some? then CheckStep(w, p, ok) else w
    case Crash(_) => if Ended(p) then w else Moved(w, p.(pc := Failed))
    case _ => w
  }

  function Execute(steps: seq<Step>): World {
    if steps == [] then EMPTY_WORLD else Apply(Execute(steps[..|steps| - 1]), steps[|steps| - 1])
  }
}
