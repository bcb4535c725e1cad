/**
 * One run of a ROS experiment, from the request that starts it to its last manifest write.
 * `ProcessManager` and `RunStore` hold the shared state; every method is one locked section.
 * The request handler, the waiter thread, any number of stopping threads and the child process
 * interleave freely between those sections.
 */
module RunLifecycle {
  import opened Optional

  type Id = string

  datatype Status = Starting | Running | Completed | Failed | Stopped

  predicate Terminal(s: Status) { s.Completed? || s.Failed? || s.Stopped? }

  datatype Manifest = Manifest(status: Status, exitCode: Option<int>)

  datatype Managed = Managed(stopped: bool, exitCode: Option<int>, explicitlyStopped: bool, callbackFired: bool)

  // What the completion callback is told.
  datatype Outcome = Outcome(exitCode: Option<int>, wasStopped: bool)

  datatype Table = Table(processes: map<Id, Managed>, reserved: Option<Id>)

  // ---- The locked sections, on values --------------------------------------------------

  predicate Busy(t: Table) {
    t.reserved.Some? || exists id :: id in t.processes && !t.processes[id].stopped
  }

  function Registered(t: Table, id: Id): Table {
    Table(t.processes[id := Managed(false, None, false, false)], None)
  }

  function Changed(t: Table, id: Id, m: Managed): Table {
    t.(processes := t.processes[id := m])
  }

  type Store = map<Id, Manifest>

  function Finalised(s: Store, id: Id, m: Manifest): Store {
    if id in s && !Terminal(s[id].status) then s[id := m] else s
  }

  function Advanced(s: Store, id: Id, expected: Status, status: Status): Store {
    if id in s && s[id].status == expected then s[id := s[id].(status := status)] else s
  }

  /** The manifest the completion callback writes. */
  function ManifestOf(o: Outcome): Manifest {
    Manifest(if o.wasStopped then Stopped else if o.exitCode == Some(0) then Completed else Failed, o.exitCode)
  }

  // ---- The two shared objects ----------------------------------------------------------

  class RunStore {
    var manifests: Store

    constructor ()
      ensures manifests == map[]
    {
      manifests := map[];
    }

    method SaveRun(id: Id, m: Manifest)
      modifies this
      ensures manifests == old(manifests)[id := m]
    {
      manifests := manifests[id := m];
    }

    /** Compare and set: the record after the call, or None when there is none. */
    method UpdateRunIfStatus(id: Id, expected: Status, status: Status) returns (r: Option<Manifest>)
      modifies this
      ensures manifests == Advanced(old(manifests), id, expected, status)
      ensures r == if id in manifests then Some(manifests[id]) else None
    {
      if id !in manifests { return None; }
      var record := manifests[id];
      if record.status != expected { return Some(record); }
      record := record.(status := status);
      manifests := manifests[id := record];
      return Some(record);
    }

    /** True exactly when the run was known and not terminal, and then it holds `m`. */
    method FinalizeRun(id: Id, m: Manifest) returns (done: bool)
      modifies this
      ensures manifests == Finalised(old(manifests), id, m)
      ensures done <==> id in old(manifests) && !Terminal(old(manifests)[id].status)
    {
      if id !in manifests { return false; }
      if Terminal(manifests[id].status) { return false; }
      manifests := manifests[id := m];
      return true;
    }
  }

  class ProcessManager {
    var processes: map<Id, Managed>
    var reserved: Option<Id>

    function State(): Table
      reads this
    {
      Table(processes, reserved)
    }

    constructor ()
      ensures State() == Table(map[], None)
    {
      processes, reserved := map[], None;
    }

    /** The check and the reservation, in one section: refused exactly when something runs or starts. */
    method TryReserve(id: Id) returns (ok: bool)
      modifies this
      ensures ok <==> !Busy(old(State()))
      ensures State() == if ok then old(State()).(reserved := Some(id)) else old(State())
    {
      var active := set p | p in processes && !processes[p].stopped;
      assert forall p :: p in processes && !processes[p].stopped ==> p in active;
      if active != {} {
        var p :| p in active;
        assert !State().processes[p].stopped;
      }
      if active != {} || reserved.Some? {
        return false;
      }
      reserved := Some(id);
      return true;
    }

    /** The spawned process takes over the reservation. */
    method Register(id: Id)
      modifies this
      ensures State() == Registered(old(State()), id)
    {
      processes := processes[id := Managed(false, None, false, false)];
      reserved := None;
    }

    method Release()
      modifies this
      ensures State() == old(State()).(reserved := None)
    {
      reserved := None;
    }

    method MarkExplicitlyStopped(id: Id)
      requires id in processes
      modifies this
      ensures State() == Changed(old(State()), id, old(processes)[id].(explicitlyStopped := true))
    {
      processes := processes[id := processes[id].(explicitlyStopped := true)];
    }

    method MarkStopped(id: Id, exitCode: Option<int>)
      requires id in processes
      modifies this
      ensures State() == Changed(old(State()), id, old(processes)[id].(stopped := true, exitCode := exitCode))
    {
      processes := processes[id := processes[id].(stopped := true, exitCode := exitCode)];
    }

    /** Test and set: only the first caller gets an outcome. */
    method ClaimCompletion(id: Id) returns (outcome: Option<Outcome>)
      requires id in processes
      modifies this
      ensures State() == Changed(old(State()), id, old(processes)[id].(callbackFired := true))
      ensures outcome == if old(processes)[id].callbackFired then None
                         else Some(Outcome(processes[id].exitCode, processes[id].explicitlyStopped))
    {
      if processes[id].callbackFired { return None; }
      processes := processes[id := processes[id].(callbackFired := true)];
      return Some(Outcome(processes[id].exitCode, processes[id].explicitlyStopped));
    }
  }

  // ---- All threads together ------------------------------------------------------------

  datatype Process = NotStarted | Alive | Exited(code: int)

  datatype HandlerPc =
    | Saved        // the manifest is written
    | Reserving    // the slot is reserved
    | Spawned      // the child runs, unregistered
    | Unwatched    // registered, the waiter not yet started
    | Watched      // start_ros_experiment is about to return
    | Failing      // refused or not launched
    | Done

  datatype Pc =
    | Waiting                   // the waiter, in `proc.wait()`
    | Stopping                  // a stopper that saw the process unstopped
    | Signalling                // it recorded the stop and signals
    | Firing                    // the process is marked stopped
    | Calling(outcome: Outcome) // this thread runs the callback
    | Finished

  datatype Thread = Thread(run: Id, pc: Pc)

  // `history`, `calls`, `surrendered`, `asked` and `lost` only record what happened.
  datatype Run = Run(
    handler: HandlerPc, process: Process, waiter: Option<nat>,
    history: seq<Status>,   // every status the manifest has had
    calls: seq<nat>,        // the threads that ran the callback
    surrendered: bool,      // a stopper gave up waiting while the process was alive
    asked: bool,            // a stop was recorded before the process exited
    lost: bool)             // the callback raised before it wrote the manifest

  datatype World = World(table: Table, store: Store, runs: map<Id, Run>, threads: map<nat, Thread>)

  datatype Event =
    | Start(run: Id) | Reserve(run: Id) | Spawn(run: Id) | SpawnFails(run: Id) | Register(run: Id)
    | Watch(run: Id, thread: nat) | MarkRunning(run: Id) | MarkFailed(run: Id)
    | Exit(run: Id, code: int)
    | StopBegins(run: Id, thread: nat) | StopIsRecorded(thread: nat) | StopMarks(thread: nat, seen: bool)
    | WaitEnds(thread: nat) | Claim(thread: nat) | Finalise(thread: nat) | CallbackRaises(thread: nat)

  const Init: World := World(Table(map[], None), map[], map[], map[])

  predicate At(w: World, id: Id, h: HandlerPc) { id in w.runs && w.runs[id].handler == h }

  predicate ThreadAt(w: World, t: nat, pc: Pc) {
    t in w.threads && w.threads[t].pc == pc && w.threads[t].run in w.table.processes && w.threads[t].run in w.runs
  }

  function WithRun(w: World, id: Id, r: Run): World { w.(runs := w.runs[id := r]) }

  function WithPc(w: World, t: nat, id: Id, pc: Pc): World { w.(threads := w.threads[t := Thread(id, pc)]) }

  // The manifest write `store`, recorded in the run's history when it changed the status.
  function Written(w: World, id: Id, store: Store): World
    requires id in w.runs && id in w.store && id in store
  {
    var r := w.runs[id];
    w.(store := store,
       runs := w.runs[id := if store[id] == w.store[id] then r else r.(history := r.history + [store[id].status])])
  }

  function Poll(p: Process): Option<int> { if p.Exited? then Some(p.code) else None }

  /**
   * One step of one thread, or None when that thread is not at that point. `seen` is false
   * when a stopper's poll misses the exit, as it does while the waiter holds the process's wait lock.
   */
  function Next(w: World, e: Event): Option<World> {
    match e
    case Start(id) =>
      if id in w.runs || id in w.store || id in w.table.processes then None else
        Some(World(w.table, w.store[id := Manifest(Starting, None)],
                   w.runs[id := Run(Saved, NotStarted, None, [Starting], [], false, false, false)], w.threads))
    case Reserve(id) =>
      if !At(w, id, Saved) then None
      else if Busy(w.table) then Some(WithRun(w, id, w.runs[id].(handler := Failing)))
      else Some(WithRun(w.(table := w.table.(reserved := Some(id))), id, w.runs[id].(handler := Reserving)))
    case Spawn(id) =>
      if !At(w, id, Reserving) then None else
        Some(WithRun(w, id, w.runs[id].(handler := Spawned, process := Alive)))
    case SpawnFails(id) =>
      if !At(w, id, Reserving) then None else
        Some(WithRun(w.(table := w.table.(reserved := None)), id, w.runs[id].(handler := Failing)))
    case Register(id) =>
      if !At(w, id, Spawned) then None else
        Some(WithRun(w.(table := Registered(w.table, id)), id, w.runs[id].(handler := Unwatched)))
    case Watch(id, t) =>
      if !At(w, id, Unwatched) || t in w.threads then None else
        Some(WithPc(WithRun(w, id, w.runs[id].(handler := Watched, waiter := Some(t))), t, id, Waiting))
    case MarkRunning(id) =>
      if !At(w, id, Watched) || id !in w.store then None else
        Some(Written(WithRun(w, id, w.runs[id].(handler := Done)), id, Advanced(w.store, id, Starting, Running)))
    case MarkFailed(id) =>
      if !At(w, id, Failing) || id !in w.store then None else
        Some(Written(WithRun(w, id, w.runs[id].(handler := Done)), id, Finalised(w.store, id, Manifest(Failed, None))))
    case Exit(id, code) =>
      if id !in w.runs || w.runs[id].process != Alive then None else
        Some(WithRun(w, id, w.runs[id].(process := Exited(code))))
    case StopBegins(id, t) =>
      if t in w.threads || id !in w.table.processes || w.table.processes[id].stopped then None else
        Some(WithPc(w, t, id, Stopping))
    case StopIsRecorded(t) =>
      if !ThreadAt(w, t, Stopping) then None else
        var id := w.threads[t].run;
        var r := w.runs[id];
        Some(WithPc(WithRun(w.(table := Changed(w.table, id, w.table.processes[id].(explicitlyStopped := true))),
                            id, r.(asked := r.asked || r.process.Alive?)), t, id, Signalling))
    case StopMarks(t, seen) =>
      if !ThreadAt(w, t, Signalling) then None else
        var id := w.threads[t].run;
        var r := w.runs[id];
        Some(WithPc(WithRun(w.(table := Changed(w.table, id, w.table.processes[id].(stopped := true, exitCode := if seen then Poll(r.process) else None))),
                            id, r.(surrendered := r.surrendered || r.process.Alive?)), t, id, Firing))
    case WaitEnds(t) =>
      if !ThreadAt(w, t, Waiting) || !w.runs[w.threads[t].run].process.Exited? then None else
        var id := w.threads[t].run;
        Some(WithPc(w.(table := Changed(w.table, id, w.table.processes[id].(stopped := true, exitCode := Poll(w.runs[id].process)))),
                    t, id, Firing))
    case Claim(t) =>
      if !ThreadAt(w, t, Firing) then None else
        var id := w.threads[t].run;
        var m := w.table.processes[id];
        if m.callbackFired then Some(WithPc(w, t, id, Finished)) else
          Some(WithPc(WithRun(w.(table := Changed(w.table, id, m.(callbackFired := true))),
                              id, w.runs[id].(calls := w.runs[id].calls + [t])),
                      t, id, Calling(Outcome(m.exitCode, m.explicitlyStopped))))
    case Finalise(t) =>
      if t !in w.threads || !w.threads[t].pc.Calling? || w.threads[t].run !in w.runs || w.threads[t].run !in w.store then None else
        var id := w.threads[t].run;
        Some(WithPc(Written(w, id, Finalised(w.store, id, ManifestOf(w.threads[t].pc.outcome))), t, id, Finished))
    case CallbackRaises(t) => // the exception is swallowed, and nobody tries again
      if t !in w.threads || !w.threads[t].pc.Calling? || w.threads[t].run !in w.runs then None else
        var id := w.threads[t].run;
        Some(WithPc(WithRun(w, id, w.runs[id].(lost := true)), t, id, Finished))
  }

  // A run of the system: every event must be enabled.
  function Execute(w: World, es: seq<Event>): Option<World> {
    if es == [] then Some(w) else
      match Execute(w, es[..|es| - 1])
      case None => None
      case Some(w') => Next(w', es[|es| - 1])
  }

  // ---- The invariant -------------------------------------------------------------------

  /** starting, then optionally running, then one terminal status. */
  predicate Lifecycle(h: seq<Status>) {
    && 1 <= |h| <= 3 && h[0] == Starting
    && (|h| == 2 ==> h[1] != Starting)
    && (|h| == 3 ==> h[1] == Running && Terminal(h[2]))
  }

  function Get<V>(m: map<Id, V>, id: Id): Option<V> { if id in m then Some(m[id]) else None }

  predicate Launched(r: Run, managed: bool) {
    && (r.process.NotStarted? <==> r.handler.Saved? || r.handler.Reserving? || r.handler.Failing? || (r.handler.Done? && !managed))
    && (managed <==> r.handler.Unwatched? || r.handler.Watched? || (r.handler.Done? && !r.process.NotStarted?))
    && (r.waiter.Some? <==> managed && !r.handler.Unwatched?)
    && (!managed ==> r.calls == [] && !r.surrendered && !r.asked && !r.lost)
  }

  predicate ManagedOk(process: Process, calls: seq<nat>, surrendered: bool, asked: bool, m: Managed) {
    && (if m.callbackFired then |calls| == 1 && m.stopped else calls == [])
    && (m.stopped && !m.explicitlyStopped ==> process.Exited? && m.exitCode == Some(process.code))
    && (m.exitCode.Some? ==> process == Exited(m.exitCode.value))
    && (m.stopped && process.Alive? ==> surrendered)
    && (surrendered ==> m.stopped && m.explicitlyStopped)
    && (asked ==> m.explicitlyStopped)
  }

  // Whether a stop is on record, for a registered process.
  function StopRecord(m: Option<Managed>): Option<bool> {
    if m.Some? then Some(m.value.explicitlyStopped) else None
  }

  /** What a terminal manifest says is true; `stop` is the process's stop record. */
  predicate Truthful(process: Process, asked: bool, stop: Option<bool>, s: Manifest) {
    && (s.exitCode.Some? ==> process == Exited(s.exitCode.value))
    && (s.status.Completed? ==> process == Exited(0) && s.exitCode == Some(0) && !asked)
    && (s.status.Stopped? ==> stop == Some(true))
    && (s.status.Failed? ==> if stop.None? then process.NotStarted? else process.Exited? && process.code != 0 && s.exitCode.Some? && !asked)
  }

  predicate ManifestOk(history: seq<Status>, done: bool, process: Process, called: bool, asked: bool, stop: Option<bool>, s: Manifest) {
    && Lifecycle(history) && history[|history| - 1] == s.status
    && (s.status.Starting? || s.status.Running? ==> s.exitCode == None)
    && (s.status.Running? ==> done)
    && (stop.None? ==> s.status == if done then Failed else Starting)
    && (stop.Some? && Terminal(s.status) ==> called)
    && Truthful(process, asked, stop, s)
  }

  predicate RunOk(r: Run, m: Option<Managed>, s: Manifest) {
    && Launched(r, m.Some?)
    && ManifestOk(r.history, r.handler.Done?, r.process, r.calls != [], r.asked, StopRecord(m), s)
    && (m.Some? ==> ManagedOk(r.process, r.calls, r.surrendered, r.asked, m.value))
  }

  // The recorded threads exist; the one that ran the callback is done only when the manifest is terminal or lost.
  predicate Linked(id: Id, waiter: Option<nat>, calls: seq<nat>, threads: map<nat, Thread>, terminal: bool, lost: bool) {
    && (waiter.Some? ==> waiter.value in threads && threads[waiter.value].run == id)
    && (calls != [] ==>
          var t := calls[0];
          t in threads && threads[t].run == id
          && (threads[t].pc.Calling? || threads[t].pc.Finished?) && (threads[t].pc.Finished? <==> terminal || lost))
    && (lost ==> !terminal && calls != [])
  }

  predicate ThreadOk(t: nat, pc: Pc, process: Process, calls: seq<nat>, asked: bool, m: Managed) {
    match pc
    case Waiting => true
    case Stopping => true
    case Signalling => m.explicitlyStopped
    case Firing => m.stopped
    case Calling(o) =>
      && calls == [t]
      && (o.exitCode.Some? ==> process == Exited(o.exitCode.value))
      && (o.wasStopped ==> m.explicitlyStopped)
      && (!o.wasStopped ==> o.exitCode.Some? && !asked)
    case Finished => m.callbackFired
  }

  // Every thread that works on the run is where the run's record allows it to be.
  ghost predicate ThreadsOk(id: Id, threads: map<nat, Thread>, process: Process, calls: seq<nat>, asked: bool, m: Option<Managed>) {
    forall t :: t in threads && threads[t].run == id ==>
      m.Some? && ThreadOk(t, threads[t].pc, process, calls, asked, m.value)
  }

  ghost predicate SlotOk(t: Table, runs: map<Id, Run>) {
    && (forall id :: id in runs && (runs[id].handler.Reserving? || runs[id].handler.Spawned?) ==> t.reserved == Some(id))
    && (t.reserved.Some? ==>
          t.reserved.value in runs && (runs[t.reserved.value].handler.Reserving? || runs[t.reserved.value].handler.Spawned?)
          && (forall id :: id in t.processes ==> t.processes[id].stopped))
    && (forall id, id' :: id in t.processes && id' in t.processes && !t.processes[id].stopped && !t.processes[id'].stopped ==> id == id')
  }

  // Everything about one run.
  ghost predicate InvAt(w: World, id: Id) {
    && id in w.runs && id in w.store
    && RunOk(w.runs[id], Get(w.table.processes, id), w.store[id])
    && Linked(id, w.runs[id].waiter, w.runs[id].calls, w.threads, Terminal(w.store[id].status), w.runs[id].lost)
    && ThreadsOk(id, w.threads, w.runs[id].process, w.runs[id].calls, w.runs[id].asked, Get(w.table.processes, id))
  }

  ghost predicate Inv(w: World) {
    && (forall id :: id in w.runs || id in w.store || id in w.table.processes ==> InvAt(w, id))
    && (forall t :: t in w.threads ==> w.threads[t].run in w.runs)
    && SlotOk(w.table, w.runs)
  }

  // The two worlds differ only in what concerns run `id`.
  ghost predicate SameBut(w: World, w': World, id: Id) {
    && (forall j :: j != id ==>
          Get(w.runs, j) == Get(w'.runs, j) && Get(w.store, j) == Get(w'.store, j)
          && Get(w.table.processes, j) == Get(w'.table.processes, j))
    && (forall t :: t in w.threads && w.threads[t].run != id ==> t in w'.threads && w'.threads[t] == w.threads[t])
    && (forall t :: t in w'.threads && w'.threads[t].run != id ==> t in w.threads && w'.threads[t] == w.threads[t])
  }

  lemma OthersUnmoved(w: World, w': World, id: Id, j: Id)
    requires InvAt(w, j) && SameBut(w, w', id) && j != id
    ensures InvAt(w', j)
  {
    hide RunOk, ThreadOk;
    assert Get(w.runs, j) == Get(w'.runs, j) && Get(w.store, j) == Get(w'.store, j);
  }

  lemma InvFromOne(w: World, w': World, id: Id)
    requires Inv(w) && SameBut(w, w', id) && InvAt(w', id) && SlotOk(w'.table, w'.runs)
    ensures Inv(w')
  {
    hide SlotOk, InvAt;
    forall j | j in w'.runs || j in w'.store || j in w'.table.processes
      ensures InvAt(w', j)
    {
      assert Get(w.runs, j) == Get(w.runs, j);
      if j != id { OthersUnmoved(w, w', id, j); }
    }
    forall t | t in w'.threads ensures w'.threads[t].run in w'.runs {
      var j := w'.threads[t].run;
      if j != id {
        assert t in w.threads && w'.threads[t] == w.threads[t];
        assert Get(w.runs, j) == Get(w'.runs, j);
      } else {
        InvAtKnows(w', id);
      }
    }
  }

  lemma InvAtKnows(w: World, id: Id)
    requires InvAt(w, id)
    ensures id in w.runs && id in w.store
  {
  }

  /** The run an event is about. */
  function About(w: World, e: Event): Id {
    match e
    case StopIsRecorded(t) => if t in w.threads then w.threads[t].run else ""
    case StopMarks(t, _) => if t in w.threads then w.threads[t].run else ""
    case WaitEnds(t) => if t in w.threads then w.threads[t].run else ""
    case Claim(t) => if t in w.threads then w.threads[t].run else ""
    case Finalise(t) => if t in w.threads then w.threads[t].run else ""
    case CallbackRaises(t) => if t in w.threads then w.threads[t].run else ""
    case _ => e.run
  }

  lemma ThreadStepIsLocal(w: World, e: Event)
    requires Inv(w) && Next(w, e).Some?
    requires e.StopBegins? || e.StopIsRecorded? || e.StopMarks? || e.WaitEnds? || e.Claim? || e.Finalise? || e.CallbackRaises?
    ensures SameBut(w, Next(w, e).value, About(w, e))
  {
    hide InvAt, SlotOk, Inv, Busy, Registered, Advanced, ManifestOf, Poll, Terminal;
  }

  lemma StepIsLocal(w: World, e: Event)
    requires Inv(w) && Next(w, e).Some?
    ensures SameBut(w, Next(w, e).value, About(w, e))
  {
    if e.StopBegins? || e.StopIsRecorded? || e.StopMarks? || e.WaitEnds? || e.Claim? || e.Finalise? || e.CallbackRaises? {
      hide Inv, Next, SameBut;
      ThreadStepIsLocal(w, e);
    } else {
      hide InvAt, SlotOk, Inv;
    }
  }

  lemma StartStep(w: World, e: Event)
    requires e.Start? && Next(w, e).Some? && forall t :: t in w.threads ==> w.threads[t].run != e.run
    ensures InvAt(Next(w, e).value, e.run)
  {
    assert Next(w, e).value.runs[e.run].history == [Starting];
  }

  lemma ReserveStep(w: World, e: Event)
    requires e.Reserve? && Next(w, e).Some? && InvAt(w, About(w, e))
    ensures InvAt(Next(w, e).value, About(w, e))
  {
    hide ManifestOk, ManagedOk, Linked, ThreadsOk;
  }

  lemma SpawnStep(w: World, e: Event)
    requires e.Spawn? && Next(w, e).Some? && InvAt(w, About(w, e))
    ensures InvAt(Next(w, e).value, About(w, e))
  {
    hide Linked, ThreadOk;
  }

  lemma SpawnFailsStep(w: World, e: Event)
    requires e.SpawnFails? && Next(w, e).Some? && InvAt(w, About(w, e))
    ensures InvAt(Next(w, e).value, About(w, e))
  {
    hide ManifestOk, ManagedOk, Linked, ThreadsOk;
  }

  lemma RegisterStep(w: World, e: Event)
    requires e.Register? && Next(w, e).Some? && InvAt(w, About(w, e))
    ensures InvAt(Next(w, e).value, About(w, e))
  {
    hide Linked;
  }

  lemma WatchStep(w: World, e: Event)
    requires e.Watch? && Next(w, e).Some? && InvAt(w, About(w, e))
    ensures InvAt(Next(w, e).value, About(w, e))
  {
    hide ManifestOk, ManagedOk;
  }

  lemma MarkRunningStep(w: World, e: Event)
    requires e.MarkRunning? && Next(w, e).Some? && InvAt(w, About(w, e))
    ensures InvAt(Next(w, e).value, About(w, e))
  {
    hide ManagedOk, ThreadsOk, Linked;
  }

  lemma MarkFailedStep(w: World, e: Event)
    requires e.MarkFailed? && Next(w, e).Some? && InvAt(w, About(w, e))
    ensures InvAt(Next(w, e).value, About(w, e))
  {
    hide ManagedOk, ThreadsOk;
  }

  lemma ExitStep(w: World, e: Event)
    requires e.Exit? && Next(w, e).Some? && InvAt(w, About(w, e))
    ensures InvAt(Next(w, e).value, About(w, e))
  {
    hide Linked;
  }

  lemma StopBeginsStep(w: World, e: Event)
    requires e.StopBegins? && Next(w, e).Some? && InvAt(w, About(w, e))
    ensures InvAt(Next(w, e).value, About(w, e))
  {
    hide RunOk;
  }

  lemma StopIsRecordedStep(w: World, e: Event)
    requires e.StopIsRecorded? && Next(w, e).Some? && InvAt(w, About(w, e))
    ensures InvAt(Next(w, e).value, About(w, e))
  {
    hide Lifecycle;
  }

  lemma StopMarksStep(w: World, e: Event)
    requires e.StopMarks? && Next(w, e).Some? && InvAt(w, About(w, e))
    ensures InvAt(Next(w, e).value, About(w, e))
  {
    hide ManifestOk;
  }

  lemma WaitEndsStep(w: World, e: Event)
    requires e.WaitEnds? && Next(w, e).Some? && InvAt(w, About(w, e))
    ensures InvAt(Next(w, e).value, About(w, e))
  {
    hide Launched, ManifestOk;
  }

  lemma ClaimStep(w: World, e: Event)
    requires e.Claim? && Next(w, e).Some? && InvAt(w, About(w, e))
    ensures InvAt(Next(w, e).value, About(w, e))
  {
    hide Truthful, Lifecycle;
  }

  lemma FinaliseStep(w: World, e: Event)
    requires e.Finalise? && Next(w, e).Some? && InvAt(w, About(w, e))
    ensures InvAt(Next(w, e).value, About(w, e))
  {
    var id := w.threads[e.thread].run;
    var r, m := w.runs[id], w.table.processes[id];
    assert ThreadOk(e.thread, w.threads[e.thread].pc, r.process, r.calls, r.asked, m);
    assert m.callbackFired;
    hide ManagedOk, ManifestOf;
    ManifestOfIs(w.threads[e.thread].pc.outcome);
  }

  lemma CallbackRaisesStep(w: World, e: Event)
    requires e.CallbackRaises? && Next(w, e).Some? && InvAt(w, About(w, e))
    ensures InvAt(Next(w, e).value, About(w, e))
  {
    var id := w.threads[e.thread].run;
    var r, m := w.runs[id], w.table.processes[id];
    assert ThreadOk(e.thread, w.threads[e.thread].pc, r.process, r.calls, r.asked, m);
    assert m.callbackFired;
    hide ManagedOk, ManifestOk;
  }

  lemma ManifestOfIs(o: Outcome)
    ensures ManifestOf(o).exitCode == o.exitCode && Terminal(ManifestOf(o).status)
    ensures ManifestOf(o).status.Stopped? <==> o.wasStopped
    ensures ManifestOf(o).status.Completed? ==> o.exitCode == Some(0)
    ensures ManifestOf(o).status.Failed? ==> o.exitCode != Some(0)
  {
  }

  // A handler that neither takes nor holds the slot, and a process that only moves towards stopped, keep the slot's rule.
  lemma SlotKept(t: Table, runs: map<Id, Run>, t': Table, runs': map<Id, Run>, id: Id)
    requires SlotOk(t, runs) && t'.reserved == t.reserved
    requires forall j :: j in t'.processes ==> j in t.processes && (t.processes[j].stopped ==> t'.processes[j].stopped)
    requires forall j :: j != id ==> Get(runs, j) == Get(runs', j)
    requires id in runs' && (id in runs || t.reserved != Some(id))
    requires runs'[id].handler.Reserving? || runs'[id].handler.Spawned? <==>
               id in runs && (runs[id].handler.Reserving? || runs[id].handler.Spawned?)
    ensures SlotOk(t', runs')
  {
    forall j | j in runs' && (runs'[j].handler.Reserving? || runs'[j].handler.Spawned?)
      ensures t'.reserved == Some(j)
    {
      if j != id { assert Get(runs, j) == Get(runs', j); }
    }
    if t.reserved.Some? && t.reserved.value != id {
      assert Get(runs, t.reserved.value) == Get(runs', t.reserved.value);
    }
  }

  lemma SlotTaken(w: World, e: Event)
    requires SlotOk(w.table, w.runs) && Next(w, e).Some? && (e.Reserve? || e.SpawnFails? || e.Register?)
    requires InvAt(w, e.run)
    ensures SlotOk(Next(w, e).value.table, Next(w, e).value.runs)
  {
    hide ManifestOk, ManagedOk, Linked, ThreadsOk;
  }

  lemma SlotLeftAlone(w: World, e: Event)
    requires SlotOk(w.table, w.runs) && Next(w, e).Some? && !(e.Reserve? || e.SpawnFails? || e.Register?)
    requires if e.Start? then w.table.reserved != Some(e.run) else About(w, e) in w.runs
    ensures SlotOk(Next(w, e).value.table, Next(w, e).value.runs)
  {
    hide SlotOk, Finalised, Advanced, ManifestOf, Poll;
    var w' := Next(w, e).value;
    SlotKept(w.table, w.runs, w'.table, w'.runs, About(w, e));
  }

  lemma SlotStep(w: World, e: Event)
    requires Inv(w) && Next(w, e).Some?
    ensures SlotOk(Next(w, e).value.table, Next(w, e).value.runs)
  {
    InvGives(w, e);
    if e.Reserve? || e.SpawnFails? || e.Register? {
      hide Inv, InvAt, SlotOk, Next;
      SlotTaken(w, e);
    } else {
      hide Inv, SlotOk, Next, RunOk, Linked, ThreadsOk;
      SlotLeftAlone(w, e);
    }
  }

  // What the step lemmas use of the whole invariant.
  lemma InvGives(w: World, e: Event)
    requires Inv(w) && Next(w, e).Some?
    ensures SlotOk(w.table, w.runs)
    ensures if e.Start? then (forall t :: t in w.threads ==> w.threads[t].run != e.run) && w.table.reserved != Some(e.run)
            else InvAt(w, About(w, e))
  {
    hide InvAt;
  }

  lemma NextKeepsInv(w: World, e: Event)
    requires Inv(w) && Next(w, e).Some?
    ensures Inv(Next(w, e).value)
  {
    hide Inv, InvAt, SlotOk, SameBut, Next;
    StepIsLocal(w, e);
    SlotStep(w, e);
    InvGives(w, e);
    match e {
      case Start(_) => StartStep(w, e);
      case Reserve(_) => ReserveStep(w, e);
      case Spawn(_) => SpawnStep(w, e);
      case SpawnFails(_) => SpawnFailsStep(w, e);
      case Register(_) => RegisterStep(w, e);
      case Watch(_, _) => WatchStep(w, e);
      case MarkRunning(_) => MarkRunningStep(w, e);
      case MarkFailed(_) => MarkFailedStep(w, e);
      case Exit(_, _) => ExitStep(w, e);
      case StopBegins(_, _) => StopBeginsStep(w, e);
      case StopIsRecorded(_) => StopIsRecordedStep(w, e);
      case StopMarks(_, _) => StopMarksStep(w, e);
      case WaitEnds(_) => WaitEndsStep(w, e);
      case Claim(_) => ClaimStep(w, e);
      case Finalise(_) => FinaliseStep(w, e);
      case CallbackRaises(_) => CallbackRaisesStep(w, e);
    }
    InvFromOne(w, Next(w, e).value, About(w, e));
  }

  // ---- Every interleaving --------------------------------------------------------------

  lemma {:induction false} ReachableInv(es: seq<Event>)
    requires Execute(Init, es).Some?
    ensures Inv(Execute(Init, es).value)
  {
    if es != [] {
      ReachableInv(es[..|es| - 1]);
      hide Inv, Next;
      NextKeepsInv(Execute(Init, es[..|es| - 1]).value, es[|es| - 1]);
    }
  }

  // A reserved run is not in the table yet.
  lemma ReservedIsUnregistered(w: World)
    requires Inv(w) && w.table.reserved.Some?
    ensures w.table.reserved.value !in w.table.processes
  {
    assert InvAt(w, w.table.reserved.value);
  }

  predicate HoldsSlot(t: Table, id: Id) {
    t.reserved == Some(id) || (id in t.processes && !t.processes[id].stopped)
  }

  /** Whatever the interleaving, at most one run holds the slot, and none does exactly when the next start is let in. */
  lemma OneRunAtATime(es: seq<Event>, id: Id, id': Id)
    requires Execute(Init, es).Some?
    ensures var t := Execute(Init, es).value.table;
            && (HoldsSlot(t, id) && HoldsSlot(t, id') ==> id == id')
            && !(t.reserved.Some? && t.reserved.value in t.processes)
            && (Busy(t) <==> exists j :: HoldsSlot(t, j))
  {
    ReachableInv(es);
    var w := Execute(Init, es).value;
    hide Execute, Next, InvAt;
    if w.table.reserved.Some? { ReservedIsUnregistered(w); }
    OneHolder(w, id, id');
  }

  lemma OneHolder(w: World, id: Id, id': Id)
    requires SlotOk(w.table, w.runs)
    requires w.table.reserved.Some? ==> w.table.reserved.value !in w.table.processes
    ensures HoldsSlot(w.table, id) && HoldsSlot(w.table, id') ==> id == id'
    ensures Busy(w.table) <==> exists j :: HoldsSlot(w.table, j)
  {
    if w.table.reserved.Some? {
      assert HoldsSlot(w.table, w.table.reserved.value);
    } else if j :| j in w.table.processes && !w.table.processes[j].stopped {
      assert HoldsSlot(w.table, j);
    }
  }

  /** The callback runs at most once for a run, and only after the run is marked stopped. */
  lemma CallbackOnceAfterStop(es: seq<Event>, id: Id)
    requires Execute(Init, es).Some? && id in Execute(Init, es).value.runs
    ensures var w := Execute(Init, es).value;
            && |w.runs[id].calls| <= 1
            && (w.runs[id].calls != [] ==> id in w.table.processes && w.table.processes[id].stopped)
  {
    ReachableInv(es);
    var w := Execute(Init, es).value;
    assert InvAt(w, id);
  }

  /** The statuses a manifest has had are starting, then perhaps running, then one terminal status. */
  lemma ManifestLifecycle(es: seq<Event>, id: Id)
    requires Execute(Init, es).Some? && id in Execute(Init, es).value.runs
    ensures var w := Execute(Init, es).value;
            && id in w.store && Lifecycle(w.runs[id].history)
            && w.store[id].status == w.runs[id].history[|w.runs[id].history| - 1]
            && (forall i :: 0 <= i < |w.runs[id].history| - 1 ==> !Terminal(w.runs[id].history[i]))
  {
    ReachableInv(es);
    var w := Execute(Init, es).value;
    hide Execute, Linked, ThreadsOk, ManagedOk, Truthful, SlotOk, Launched, Lifecycle;
    assert InvAt(w, id);
    LifecycleEndsOnce(w.runs[id].history);
  }

  lemma LifecycleEndsOnce(h: seq<Status>)
    requires Lifecycle(h)
    ensures |h| > 0 && forall i :: 0 <= i < |h| - 1 ==> !Terminal(h[i])
  {
  }

  lemma StepKeepsTerminal(w: World, e: Event, id: Id)
    requires Next(w, e).Some? && id in w.store && id in w.runs && Terminal(w.store[id].status)
    ensures var w' := Next(w, e).value;
            id in w'.store && id in w'.runs && w'.store[id] == w.store[id] && w'.runs[id].history == w.runs[id].history
  {
  }

  /** A terminal manifest is never written again, whatever happens next. */
  lemma {:induction false} TerminalIsFinal(w: World, es: seq<Event>, id: Id)
    requires id in w.store && id in w.runs && Terminal(w.store[id].status)
    requires Execute(w, es).Some?
    ensures var w' := Execute(w, es).value;
            id in w'.store && id in w'.runs && w'.store[id] == w.store[id] && w'.runs[id].history == w.runs[id].history
  {
    if es != [] {
      TerminalIsFinal(w, es[..|es| - 1], id);
      hide Next;
      StepKeepsTerminal(Execute(w, es[..|es| - 1]).value, es[|es| - 1], id);
    }
  }

  /**
   * What a manifest says is so. Completed: the process exited with 0 and nobody had asked it to
   * stop before it exited. Failed: it never ran, or it exited with another code, likewise unasked.
   * Stopped: a stop was recorded; and a stop recorded before the exit is never reported otherwise.
   */
  lemma ManifestsAreTruthful(es: seq<Event>, id: Id)
    requires Execute(Init, es).Some? && id in Execute(Init, es).value.runs
    ensures var w := Execute(Init, es).value;
            var r := w.runs[id];
            id in w.store
            && (w.store[id].status.Completed? ==> r.process == Exited(0) && w.store[id].exitCode == Some(0) && !r.asked)
            && (w.store[id].status.Failed? ==>
                  && (r.process.NotStarted? || (r.process.Exited? && r.process.code != 0 && w.store[id].exitCode == Some(r.process.code)))
                  && !r.asked)
            && (w.store[id].status.Stopped? ==> id in w.table.processes && w.table.processes[id].explicitlyStopped)
            && (r.asked && Terminal(w.store[id].status) ==> w.store[id].status.Stopped?)
            && (w.store[id].exitCode.Some? ==> r.process == Exited(w.store[id].exitCode.value))
  {
    ReachableInv(es);
    var w := Execute(Init, es).value;
    assert InvAt(w, id);
  }

  // The handler has returned and every thread that worked on the run is through.
  ghost predicate Quiet(w: World, id: Id) {
    At(w, id, Done) && forall t :: t in w.threads && w.threads[t].run == id ==> w.threads[t].pc.Finished?
  }

  /**
   * Once everybody is through with a run, its manifest is terminal if and only if its completion
   * callback did not raise, and a launched run's callback has been called.
   */
  lemma QuietRunsAreTerminal(es: seq<Event>, id: Id)
    requires Execute(Init, es).Some? && Quiet(Execute(Init, es).value, id)
    ensures var w := Execute(Init, es).value;
            id in w.store && (Terminal(w.store[id].status) <==> !w.runs[id].lost)
            && (w.runs[id].process.NotStarted? || |w.runs[id].calls| == 1)
            && (w.runs[id].process.NotStarted? ==> !w.runs[id].lost)
  {
    ReachableInv(es);
    var w := Execute(Init, es).value;
    hide Execute, Next;
    assert InvAt(w, id);
  }

  lemma StepKeepsLost(w: World, e: Event, id: Id)
    requires Next(w, e).Some? && id in w.runs && w.runs[id].lost
    ensures id in Next(w, e).value.runs && Next(w, e).value.runs[id].lost
  {
  }

  lemma {:induction false} ExecuteConcat(w: World, es: seq<Event>, more: seq<Event>)
    requires Execute(w, es).Some?
    ensures Execute(w, es + more) == Execute(Execute(w, es).value, more)
  {
    hide Next;
    if more == [] {
      assert es + more == es;
    } else {
      var n := |more| - 1;
      ExecuteConcat(w, es, more[..n]);
      assert (es + more)[..|es| + n] == es + more[..n];
    }
  }

  lemma {:induction false} LostStays(w: World, es: seq<Event>, id: Id)
    requires Execute(w, es).Some? && id in w.runs && w.runs[id].lost
    ensures id in Execute(w, es).value.runs && Execute(w, es).value.runs[id].lost
  {
    if es != [] {
      LostStays(w, es[..|es| - 1], id);
      hide Next;
      StepKeepsLost(Execute(w, es[..|es| - 1]).value, es[|es| - 1], id);
    }
  }

  /** A run whose callback raised is never finished: whatever happens later, its manifest says starting or running. */
  lemma LostRunsStayOpen(es: seq<Event>, more: seq<Event>, id: Id)
    requires Execute(Init, es).Some? && id in Execute(Init, es).value.runs && Execute(Init, es).value.runs[id].lost
    requires Execute(Execute(Init, es).value, more).Some?
    ensures var w := Execute(Execute(Init, es).value, more).value;
            id in w.store && !Terminal(w.store[id].status)
  {
    LostStays(Execute(Init, es).value, more, id);
    ExecuteConcat(Init, es, more);
    ReachableInv(es + more);
    var w := Execute(Init, es + more).value;
    hide Execute, Next;
    assert InvAt(w, id);
  }

  // A registered, live first run, and the same run once it is watched, reported running and has exited.
  predicate Registering(w: World, id: Id) {
    && At(w, id, Unwatched) && w.runs[id].process.Alive? && w.threads == map[]
    && id in w.store && w.store[id].status == Starting
    && id in w.table.processes && w.table.processes[id] == Managed(false, None, false, false)
  }

  predicate HasExited(w: World, id: Id) {
    && At(w, id, Done) && w.runs[id].process.Exited? && w.threads == map[0 := Thread(id, Waiting)]
    && id in w.store && w.store[id].status == Running
    && id in w.table.processes && w.table.processes[id] == Managed(false, None, false, false)
  }

  lemma GetsWatched(w: World, id: Id, code: int)
    requires Registering(w, id)
    ensures var w' := Execute(w, [Watch(id, 0), MarkRunning(id), Exit(id, code)]);
            w'.Some? && HasExited(w'.value, id)
  {
    var es := [Watch(id, 0), MarkRunning(id), Exit(id, code)];
    assert Execute(w, es[..0]) == Some(w);
    hide Execute;
    OneMore(w, es, 0, w);
    var w1 := Next(w, es[0]).value;
    OneMore(w, es, 1, w1);
    OneMore(w, es, 2, Next(w1, es[1]).value);
    assert es[..3] == es;
  }

  lemma GetsLost(w: World, id: Id)
    requires HasExited(w, id)
    ensures var w' := Execute(w, [WaitEnds(0), Claim(0), CallbackRaises(0)]);
            w'.Some? && Quiet(w'.value, id) && w'.value.runs[id].lost
            && id in w'.value.store && w'.value.store[id].status == Running
  {
    var es := [WaitEnds(0), Claim(0), CallbackRaises(0)];
    assert Execute(w, es[..0]) == Some(w);
    hide Execute, Next, Quiet;
    CallbackFails(w, id);
    OneMore(w, es, 0, w);
    var w1 := Next(w, es[0]).value;
    OneMore(w, es, 1, w1);
    OneMore(w, es, 2, Next(w1, es[1]).value);
    assert es[..3] == es;
  }

  lemma CallbackFails(w: World, id: Id)
    requires HasExited(w, id)
    ensures var w1 := Next(w, WaitEnds(0));
            && w1.Some?
            && var w2 := Next(w1.value, Claim(0));
            && w2.Some?
            && var w3 := Next(w2.value, CallbackRaises(0));
            w3.Some? && Quiet(w3.value, id) && w3.value.runs[id].lost
            && id in w3.value.store && w3.value.store[id].status == Running
  {
    hide Written, Finalised, Advanced, Busy, Registered;
  }

  function LosingRun(id: Id, code: int): seq<Event> {
    [Start(id), Reserve(id), Spawn(id), Register(id)] + [Watch(id, 0), MarkRunning(id), Exit(id, code)]
    + [WaitEnds(0), Claim(0), CallbackRaises(0)]
  }

  /** It does happen, for every exit code: a run ends with everybody through and a manifest that says running. */
  lemma CallbackCanLoseRun(id: Id, code: int)
    ensures var w := Execute(Init, LosingRun(id, code));
            w.Some? && Quiet(w.value, id) && w.value.runs[id].lost
            && id in w.value.store && w.value.store[id].status == Running
  {
    hide Execute, Next, Quiet, Registering, HasExited;
    var a, b := [Start(id), Reserve(id), Spawn(id), Register(id)], [Watch(id, 0), MarkRunning(id), Exit(id, code)];
    FirstRunGetsUnderWay(id);
    GetsWatched(Execute(Init, a).value, id, code);
    ExecuteConcat(Init, a, b);
    GetsLost(Execute(Init, a + b).value, id);
    ExecuteConcat(Init, a + b, [WaitEnds(0), Claim(0), CallbackRaises(0)]);
  }

  /**
   * A live process holds the slot if and only if no stop gave up on it. So while no stop has
   * given up on a live process, at most one is alive.
   */
  lemma LiveHoldsSlotUnlessSurrendered(es: seq<Event>, id: Id)
    requires Execute(Init, es).Some? && id in Execute(Init, es).value.runs && Execute(Init, es).value.runs[id].process.Alive?
    ensures var w := Execute(Init, es).value;
            HoldsSlot(w.table, id) <==> !w.runs[id].surrendered
  {
    ReachableInv(es);
    var w := Execute(Init, es).value;
    assert InvAt(w, id);
    if w.table.reserved == Some(id) { ReservedIsUnregistered(w); }
  }

  lemma AtMostOneAlive(es: seq<Event>, id: Id, id': Id)
    requires Execute(Init, es).Some? && id != id'
    requires var w := Execute(Init, es).value;
             id in w.runs && w.runs[id].process.Alive? && id' in w.runs && w.runs[id'].process.Alive?
    ensures var w := Execute(Init, es).value; w.runs[id].surrendered || w.runs[id'].surrendered
  {
    LiveHoldsSlotUnlessSurrendered(es, id);
    LiveHoldsSlotUnlessSurrendered(es, id');
    OneRunAtATime(es, id, id');
  }

  /** And after a stop gave up on a live process, the next start brings a second one to life. */
  lemma SurrenderAdmitsSecond(w: World, id: Id, next: Id)
    requires id in w.runs && w.runs[id].process.Alive? && !Busy(w.table)
    requires next !in w.runs && next !in w.store && next !in w.table.processes
    ensures var w' := Execute(w, [Start(next), Reserve(next), Spawn(next)]);
            w'.Some? && id in w'.value.runs && w'.value.runs[id].process.Alive?
            && next in w'.value.runs && w'.value.runs[next].process.Alive?
  {
    var es := [Start(next), Reserve(next), Spawn(next)];
    assert es[..2] == [Start(next), Reserve(next)] && es[..2][..1] == [Start(next)] && es[..2][..1][..0] == [];
    assert Execute(w, es[..2][..1]) == Next(w, Start(next));
    var w1 := Next(w, Start(next)).value;
    assert !Busy(w1.table);
    assert Execute(w, es[..2]) == Next(w1, Reserve(next));
  }

  /** And a stop can give up on any running process: its child survives every signal, and the slot is free. */
  lemma StopCanSurrender(w: World, id: Id, t: nat)
    requires Inv(w) && id in w.table.processes && !w.table.processes[id].stopped && w.runs[id].process.Alive?
    requires t !in w.threads
    ensures var w' := Execute(w, [StopBegins(id, t), StopIsRecorded(t), StopMarks(t, false)]);
            w'.Some? && id in w'.value.runs && w'.value.runs[id].process.Alive? && !Busy(w'.value.table)
  {
    assert w.table.reserved.None? && forall j :: j in w.table.processes && j != id ==> w.table.processes[j].stopped;
    assert InvAt(w, id);
    hide Inv, InvAt, RunOk, Linked, ThreadsOk, SlotOk, Execute;
    SoleRunSurrenders(w, id, t);
  }

  lemma SoleRunSurrenders(w: World, id: Id, t: nat)
    requires id in w.table.processes && !w.table.processes[id].stopped && id in w.runs && w.runs[id].process.Alive?
    requires w.table.reserved.None? && forall j :: j in w.table.processes && j != id ==> w.table.processes[j].stopped
    requires t !in w.threads
    ensures var w' := Execute(w, [StopBegins(id, t), StopIsRecorded(t), StopMarks(t, false)]);
            w'.Some? && id in w'.value.runs && w'.value.runs[id].process.Alive? && !Busy(w'.value.table)
  {
    var es := [StopBegins(id, t), StopIsRecorded(t), StopMarks(t, false)];
    assert Execute(w, es[..0]) == Some(w);
    hide Execute, Next;
    StopIsBegun(w, id, t);
    OneMore(w, es, 0, w);
    var w1 := Next(w, es[0]).value;
    OneMore(w, es, 1, w1);
    OneMore(w, es, 2, Next(w1, es[1]).value);
    assert es[..3] == es;
  }

  lemma StopIsBegun(w: World, id: Id, t: nat)
    requires id in w.table.processes && !w.table.processes[id].stopped && id in w.runs && w.runs[id].process.Alive?
    requires w.table.reserved.None? && forall j :: j in w.table.processes && j != id ==> w.table.processes[j].stopped
    requires t !in w.threads
    ensures var w1 := Next(w, StopBegins(id, t));
            && w1.Some?
            && var w2 := Next(w1.value, StopIsRecorded(t));
            && w2.Some?
            && var w3 := Next(w2.value, StopMarks(t, false));
            w3.Some? && id in w3.value.runs && w3.value.runs[id].process.Alive? && !Busy(w3.value.table)
  {
  }

  lemma OneMore(w: World, es: seq<Event>, k: nat, w1: World)
    requires k < |es| && Execute(w, es[..k]) == Some(w1)
    ensures Execute(w, es[..k + 1]) == Next(w1, es[k])
  {
    assert es[..k + 1][..k] == es[..k];
  }

  /** Such a process is reachable: from the empty state, a first run gets registered and lives. */
  lemma FirstRunGetsUnderWay(id: Id)
    ensures var w := Execute(Init, [Start(id), Reserve(id), Spawn(id), Register(id)]);
            w.Some? && id in w.value.table.processes && !w.value.table.processes[id].stopped
            && id in w.value.runs && w.value.runs[id].process.Alive? && Registering(w.value, id)
  {
    var es := [Start(id), Reserve(id), Spawn(id), Register(id)];
    assert Execute(Init, es[..0]) == Some(Init);
    hide Execute;
    OneMore(Init, es, 0, Init);
    var w1 := Next(Init, es[0]).value;
    OneMore(Init, es, 1, w1);
    var w2 := Next(w1, es[1]).value;
    OneMore(Init, es, 2, w2);
    var w3 := Next(w2, es[2]).value;
    OneMore(Init, es, 3, w3);
    assert es[..4] == es;
  }

  // ---- The locked sections carry out the steps -----------------------------------------

  /**
   * The console: the two shared objects, and the state of the whole system beside them. Every
   * locked section of the source, run on the objects, is the step that `Next` describes.
   */
  class Console {
    const manager: ProcessManager
    const store: RunStore
    ghost var world: World

    ghost predicate Coupled()
      reads this, manager, store
    {
      world.table == manager.State() && world.store == store.manifests
    }

    ghost predicate Can(e: Event)
      reads this
    {
      Next(world, e).Some?
    }

    // The thread works on the run.
    ghost predicate WorksOn(t: nat, id: Id)
      reads this
    {
      t in world.threads && world.threads[t].run == id
    }

    constructor ()
      ensures Coupled() && world == Init && fresh(manager) && fresh(store)
    {
      manager := new ProcessManager();
      store := new RunStore();
      world := Init;
    }

    /** The handler writes the first manifest. */
    method SavesManifest(id: Id)
      requires Coupled() && Can(Start(id))
      modifies this, store
      ensures Coupled() && Some(world) == Next(old(world), Start(id))
    {
      store.SaveRun(id, Manifest(Starting, None));
      world := Next(world, Start(id)).value;
    }

    method Reserves(id: Id) returns (ok: bool)
      requires Coupled() && Can(Reserve(id))
      modifies this, manager
      ensures Coupled() && Some(world) == Next(old(world), Reserve(id))
      ensures At(world, id, if ok then Reserving else Failing)
    {
      ok := manager.TryReserve(id);
      world := Next(world, Reserve(id)).value;
    }

    /** The launch failed; the slot is given back. */
    method ReleasesSlot(id: Id)
      requires Coupled() && Can(SpawnFails(id))
      modifies this, manager
      ensures Coupled() && Some(world) == Next(old(world), SpawnFails(id))
    {
      manager.Release();
      world := Next(world, SpawnFails(id)).value;
    }

    method Registers(id: Id)
      requires Coupled() && Can(Register(id))
      modifies this, manager
      ensures Coupled() && Some(world) == Next(old(world), Register(id))
    {
      manager.Register(id);
      world := Next(world, Register(id)).value;
    }

    method MarksRunning(id: Id) returns (r: Option<Manifest>)
      requires Coupled() && Can(MarkRunning(id))
      modifies this, store
      ensures Coupled() && Some(world) == Next(old(world), MarkRunning(id))
      ensures id in world.store && r == Some(world.store[id])
    {
      r := store.UpdateRunIfStatus(id, Starting, Running);
      world := Next(world, MarkRunning(id)).value;
    }

    method MarksFailed(id: Id)
      requires Coupled() && Can(MarkFailed(id))
      modifies this, store
      ensures Coupled() && Some(world) == Next(old(world), MarkFailed(id))
    {
      var _ := store.FinalizeRun(id, Manifest(Failed, None));
      world := Next(world, MarkFailed(id)).value;
    }

    /** A stopper puts the stop on record before it signals. */
    method RecordsStop(t: nat, id: Id)
      requires Coupled() && Can(StopIsRecorded(t)) && WorksOn(t, id)
      modifies this, manager
      ensures Coupled() && Some(world) == Next(old(world), StopIsRecorded(t))
    {
      manager.MarkExplicitlyStopped(id);
      world := Next(world, StopIsRecorded(t)).value;
    }

    /** A stopper is done waiting; `polled` is what the poll returned. */
    method MarksStopped(t: nat, id: Id, polled: Option<int>)
      requires Coupled() && WorksOn(t, id) && Can(StopMarks(t, polled.Some?))
      requires polled.Some? ==> id in world.runs && world.runs[id].process == Exited(polled.value)
      modifies this, manager
      ensures Coupled() && Some(world) == Next(old(world), StopMarks(t, polled.Some?))
    {
      manager.MarkStopped(id, polled);
      world := Next(world, StopMarks(t, polled.Some?)).value;
    }

    /** The waiter's process has exited. */
    method MarksExited(t: nat, id: Id, code: int)
      requires Coupled() && WorksOn(t, id) && Can(WaitEnds(t))
      requires id in world.runs && world.runs[id].process == Exited(code)
      modifies this, manager
      ensures Coupled() && Some(world) == Next(old(world), WaitEnds(t))
    {
      manager.MarkStopped(id, Some(code));
      world := Next(world, WaitEnds(t)).value;
    }

    /** The caller that gets an outcome is the one that runs the callback. */
    method Claims(t: nat, id: Id) returns (outcome: Option<Outcome>)
      requires Coupled() && WorksOn(t, id) && Can(Claim(t))
      modifies this, manager
      ensures Coupled() && Some(world) == Next(old(world), Claim(t))
      ensures WorksOn(t, id) && world.threads[t].pc == (if outcome.Some? then Calling(outcome.value) else Finished)
    {
      outcome := manager.ClaimCompletion(id);
      world := Next(world, Claim(t)).value;
    }

    /** The callback's manifest write. */
    method Finalises(t: nat, id: Id, outcome: Outcome)
      requires Coupled() && WorksOn(t, id) && Can(Finalise(t)) && world.threads[t].pc == Calling(outcome)
      modifies this, store
      ensures Coupled() && Some(world) == Next(old(world), Finalise(t))
    {
      var _ := store.FinalizeRun(id, ManifestOf(outcome));
      world := Next(world, Finalise(t)).value;
    }

    /** The callback raised; nothing is written. */
    method SwallowsException(t: nat, id: Id, outcome: Outcome)
      requires Coupled() && WorksOn(t, id) && Can(CallbackRaises(t)) && world.threads[t].pc == Calling(outcome)
      modifies this
      ensures Coupled() && Some(world) == Next(old(world), CallbackRaises(t))
    {
      world := Next(world, CallbackRaises(t)).value;
    }
  }
}
