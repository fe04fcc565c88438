/**
 * Instance files shared by many processes: each owner rewrites its own file by atomic renames and
 * removes it on release, while every process sweeps the files of dead peers.
 */
module InstanceRegistry {
  import opened Sequences

  type ServerId = nat
  type Pid = nat

  // ----- one registration's variables -----

  /**
   * `draining` is set once `onWritesDrained` holds a resolver, `drained` once it has been called
   * (or was not needed).
   */
  datatype Local = Local(port: int, released: bool, inflightWrites: nat, draining: bool, drained: bool)

  function WriteBegins(l: Local): Local {
    if l.released then l else l.(inflightWrites := l.inflightWrites + 1)
  }

  function WriteEnds(l: Local): Local
    requires l.inflightWrites > 0
  {
    var left := l.inflightWrites - 1;
    l.(inflightWrites := left, drained := l.drained || (left == 0 && l.draining))
  }

  function PortUpdated(l: Local, port: Option<int>): Local {
    if l.released || port.None? then l else l.(port := port.value)
  }

  function ReleaseCalled(l: Local): Local {
    if l.released then l
    else if l.inflightWrites > 0 then l.(released := true, draining := true)
    else l.(released := true, drained := true)
  }

  /** The closure variables of `register`; each method is the code between two awaits. */
  class Registration {
    var port: int
    var released: bool
    var inflightWrites: nat
    var draining: bool
    var drained: bool

    constructor (port: int)
      ensures View() == Local(port, false, 0, false, false)
    {
      this.port, released, inflightWrites, draining, drained := port, false, 0, false, false;
    }

    function View(): Local
      reads this
    {
      Local(port, released, inflightWrites, draining, drained)
    }

    /** Up to the first await of `write`: the port to be written, or None when it bails out. */
    method BeginWrite() returns (content: Option<int>)
      modifies this
      ensures View() == WriteBegins(old(View()))
      ensures content == if old(released) then None else Some(old(port))
    {
      if released {
        return None;
      }
      inflightWrites := inflightWrites + 1;
      content := Some(port);
    }

    /** The `finally` of `write`. */
    method EndWrite()
      requires inflightWrites > 0
      modifies this
      ensures View() == WriteEnds(old(View()))
    {
      inflightWrites := inflightWrites - 1;
      if inflightWrites == 0 {
        if draining {
          drained := true;
        }
      }
    }

    method Update(port: Option<int>) returns (content: Option<int>)
      modifies this
      ensures View() == WriteBegins(PortUpdated(old(View()), port))
      ensures content == if old(released) then None else Some(PortUpdated(old(View()), port).port)
    {
      if released {
        return None;
      }
      if port.Some? {
        this.port := port.value;
      }
      content := BeginWrite();
    }

    /** Up to the await or the unlink in `release`; false where another call already released. */
    method BeginRelease() returns (first: bool)
      modifies this
      ensures View() == ReleaseCalled(old(View())) && first == !old(released)
    {
      if released {
        return false;
      }
      released := true;
      if inflightWrites > 0 {
        draining := true;
      } else {
        drained := true;
      }
      first := true;
    }
  }

  // ----- many processes and one directory -----

  datatype Entry = Entry(pid: Pid, port: int)

  /** An atomic write: not renamed yet, or renamed but not yet ended. */
  datatype Write = Pending(port: int) | Renamed

  /** How far the first `release` call has come after its wait. */
  datatype Outcome = Open | Unlinked | Resolved | Rejected

  /** A registration of process `proc`; `registered` once its first write succeeded. */
  datatype Owner = Owner(proc: nat, pid: Pid, local: Local, registered: bool, writes: map<nat, Write>, outcome: Outcome)

  /** A sweep of one file: its entry was read, or its pid was found dead. */
  datatype Sweep = Read(id: ServerId, pid: Pid) | FoundDead(id: ServerId)

  /** `alive` maps running processes to their pids; a process number is never used again, a pid may be. */
  datatype World = World(files: map<ServerId, Entry>, owners: map<ServerId, Owner>, alive: map<nat, Pid>, born: set<nat>,
                         sweeps: map<nat, Sweep>)

  const EmptyWorld := World(map[], map[], map[], {}, map[])

  datatype Step =
    | ProcessStarts(proc: nat, pid: Pid)
    | ProcessDies(proc: nat)
    | Register(proc: nat, id: ServerId, port: int, write: nat)
    | Heartbeat(id: ServerId, write: nat)
    | UpdatePort(id: ServerId, newPort: Option<int>, write: nat)
    | Rename(id: ServerId, write: nat)
    | EndWrite(id: ServerId, write: nat)
    | Release(id: ServerId)
    | Unlink(id: ServerId, ok: bool)
    | Resolve(id: ServerId)
    | SweepRead(sweep: nat, id: ServerId)
    | SweepProbe(sweep: nat)
    | SweepUnlink(sweep: nat)
    | SweepAbandoned(sweep: nat)

  predicate Runs(w: World, id: ServerId) {
    id in w.owners && w.owners[id].proc in w.alive
  }

  /** `write()`: nothing after release, otherwise a new write in flight. */
  function Begin(o: Owner, write: nat): Owner {
    if o.local.released then o
    else o.(local := WriteBegins(o.local), writes := o.writes[write := Pending(o.local.port)])
  }

  predicate Enabled(w: World, step: Step) {
    match step
    case ProcessStarts(proc, pid) => proc !in w.born && pid !in w.alive.Values
    case ProcessDies(proc) => proc in w.alive
    case Register(proc, id, _, _) => proc in w.alive && id !in w.owners
    case Heartbeat(id, write) => Runs(w, id) && w.owners[id].registered && write !in w.owners[id].writes
    case UpdatePort(id, _, write) => Runs(w, id) && w.owners[id].registered && write !in w.owners[id].writes
    case Rename(id, write) => Runs(w, id) && write in w.owners[id].writes && w.owners[id].writes[write].Pending?
    case EndWrite(id, write) => Runs(w, id) && write in w.owners[id].writes && w.owners[id].local.inflightWrites > 0
    case Release(id) => Runs(w, id) && w.owners[id].registered
    case Unlink(id, _) => Runs(w, id) && w.owners[id].local.drained && w.owners[id].outcome == Open
    case Resolve(id) => Runs(w, id) && w.owners[id].outcome == Unlinked
    case SweepRead(sweep, id) => sweep !in w.sweeps && id in w.files
    case SweepProbe(sweep) => sweep in w.sweeps && w.sweeps[sweep].Read?
    case SweepUnlink(sweep) => sweep in w.sweeps && w.sweeps[sweep].FoundDead?
    case SweepAbandoned(sweep) => sweep in w.sweeps
  }

  function OwnerAfter(o: Owner, step: Step): Owner
    requires step.EndWrite? ==> o.local.inflightWrites > 0 && step.write in o.writes
    requires step.Rename? ==> step.write in o.writes
  {
    match step
    case Heartbeat(_, write) => Begin(o, write)
    case UpdatePort(_, port, write) => Begin(o.(local := PortUpdated(o.local, port)), write)
    case Rename(_, write) => o.(writes := o.writes[write := Renamed])
    case EndWrite(_, write) =>
      o.(local := WriteEnds(o.local), writes := o.writes - {write}, registered := o.registered || o.writes[write].Renamed?)
    case Release(_) => o.(local := ReleaseCalled(o.local))
    case Unlink(_, ok) => o.(outcome := if ok then Unlinked else Rejected)
    case Resolve(_) => o.(outcome := Resolved)
    case _ => o
  }

  predicate IsOwnerStep(step: Step) {
    step.Heartbeat? || step.UpdatePort? || step.Rename? || step.EndWrite? || step.Release? || step.Unlink? || step.Resolve?
  }

  function FilesAfter(w: World, step: Step): map<ServerId, Entry>
    requires Enabled(w, step)
  {
    match step
    case Rename(id, write) => w.files[id := Entry(w.owners[id].pid, w.owners[id].writes[write].port)]
    case Unlink(id, ok) => if ok then w.files - {id} else w.files
    case SweepUnlink(sweep) => w.files - {w.sweeps[sweep].id}
    case _ => w.files
  }

  /** A step that is not possible changes nothing. */
  function Next(w: World, step: Step): World {
    if !Enabled(w, step) then w
    else if IsOwnerStep(step) then
      w.(files := FilesAfter(w, step), owners := w.owners[step.id := OwnerAfter(w.owners[step.id], step)])
    else
      match step
      case ProcessStarts(proc, pid) => w.(alive := w.alive[proc := pid], born := w.born + {proc})
      case ProcessDies(proc) => w.(alive := w.alive - {proc})
      case Register(proc, id, port, write) =>
        var begun := Owner(proc, w.alive[proc], Local(port, false, 0, false, false), false, map[], Open);
        w.(owners := w.owners[id := Begin(begun, write)])
      case SweepRead(sweep, id) => w.(sweeps := w.sweeps[sweep := Read(id, w.files[id].pid)])
      case SweepProbe(sweep) =>
        var read := w.sweeps[sweep];
        w.(sweeps := if read.pid in w.alive.Values then w.sweeps - {sweep} else w.sweeps[sweep := FoundDead(read.id)])
      case SweepUnlink(sweep) => w.(files := FilesAfter(w, step), sweeps := w.sweeps - {sweep})
      case SweepAbandoned(sweep) => w.(sweeps := w.sweeps - {sweep})
  }

  /** The world after any sequence of steps, taken in any order. */
  function After(steps: seq<Step>): World {
    if steps == [] then EmptyWorld else Next(After(steps[..|steps| - 1]), steps[|steps| - 1])
  }
}
