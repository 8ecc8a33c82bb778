/** The root readiness gate as its atomic steps: any number of callers of `set_ready`,
    `set_not_ready` and `begin_shutdown` in any interleaving. */
module Readiness {
  import opened BerylTypes

  datatype Reason =
    | Unformatted
    | MarkerMismatch
    | RaftUninitialized
    | NotLeader
    | RootMountMissing
    | RootMountOwnerMismatch
    | Shutdown

  datatype State = Starting | NotReady(reason: Reason) | Ready

  datatype Call = SetReady | SetNotReady(reason: Reason) | BeginShutdown

  /** The next step of a call. */
  datatype Pc =
    | Flag    // raise the shutdown flag
    | Lock    // take the state lock
    | Check   // look at the shutdown flag
    | Write   // write the state
    | Unlock  // release the state lock
    | Publish // write the ready flag
    | Meter   // write the metric
    | Return

  datatype Task = Task(call: Call, pc: Pc)

  type TaskId = nat

  /** What the calls share. `closed` and `returned` record that some shutdown has written the
      state and that some shutdown has returned. */
  datatype Gate = Gate(
    ready: bool,
    shuttingDown: bool,
    state: State,
    meter: bool,
    holder: Option<TaskId>,
    closed: bool,
    returned: bool)

  datatype System = System(gate: Gate, tasks: map<TaskId, Task>)

  datatype Action = Start(id: TaskId, call: Call) | Run(id: TaskId)

  const FRESH: System := System(Gate(false, false, Starting, false, None, false, false), map[])

  function First(call: Call): Pc { if call.BeginShutdown? then Flag else Lock }

  /** The step of a task: the gate after it and the step it takes next. A task that waits for
      the lock stays where it is. */
  function Advance(g: Gate, id: TaskId, t: Task): (Gate, Pc) {
    match (t.call, t.pc)
    case (_, Lock) =>
      if g.holder.Some? then (g, Lock)
      else (g.(holder := Some(id)), if t.call.BeginShutdown? then Write else Check)
    case (_, Check) => (g, if g.shuttingDown then Unlock else Write)
    case (SetReady, Write) => (g.(state := Ready), Publish)
    case (SetReady, Publish) => (g.(ready := true), if g.ready then Unlock else Meter)
    case (SetReady, Meter) => (g.(meter := true), Unlock)
    case (SetNotReady(reason), Write) => (g.(state := NotReady(reason)), Publish)
    case (SetNotReady(_), Publish) => (g.(ready := false), Meter)
    case (SetNotReady(_), Meter) => (g.(meter := false), Unlock)
    case (BeginShutdown, Flag) => (g.(shuttingDown := true), Lock)
    case (BeginShutdown, Write) => (g.(state := NotReady(Shutdown), closed := true), Unlock)
    case (BeginShutdown, Unlock) => (g.(holder := None), Publish)
    case (BeginShutdown, Publish) => (g.(ready := false), Meter)
    case (BeginShutdown, Meter) => (g.(meter := false), Return)
    case (BeginShutdown, Return) => (g.(returned := true), Return)
    case (_, Unlock) => (g.(holder := None), Return)
    case (_, _) => (g, Return)
  }

  function Step(s: System, action: Action): System {
    match action
    case Start(id, call) => if id in s.tasks then s else s.(tasks := s.tasks[id := Task(call, First(call))])
    case Run(id) =>
      if id !in s.tasks then s
      else
        var t := s.tasks[id];
        var (gate, pc) := Advance(s.gate, id, t);
        System(gate, if t.pc == Return then s.tasks - {id} else s.tasks[id := t.(pc := pc)])
  }

  function Reached(actions: seq<Action>): System {
    if actions == [] then FRESH else Step(Reached(actions[..|actions| - 1]), actions[|actions| - 1])
  }

  // ---- What every step keeps ------------------------------------------------------------

  predicate Holding(t: Task) {
    match t.pc
    case Check => true
    case Write => true
    case Unlock => true
    case Publish => !t.call.BeginShutdown?
    case Meter => !t.call.BeginShutdown?
    case _ => false
  }

  /** A setter that found the shutdown flag down and is not done writing. */
  predicate Writing(t: Task) {
    !t.call.BeginShutdown? && (t.pc.Write? || t.pc.Publish? || t.pc.Meter?)
  }

  predicate TaskHolds(g: Gate, id: TaskId, t: Task) {
    && (Holding(t) <==> g.holder == Some(id))
    && (Writing(t) ==> !g.closed)
    && (t.call.BeginShutdown? ==>
          && !t.pc.Check?
          && (!t.pc.Flag? ==> g.shuttingDown)
          && (t.pc.Unlock? || t.pc.Publish? || t.pc.Meter? || t.pc.Return? ==> g.closed)
          && (t.pc.Meter? || t.pc.Return? ==> !g.ready)
          && (t.pc.Return? ==> !g.meter))
    && (!t.call.BeginShutdown? ==> !t.pc.Flag?)
  }

  predicate GateHolds(g: Gate) {
    && (g.closed ==> g.shuttingDown && g.state == NotReady(Shutdown))
    && (g.returned ==> g.closed && !g.ready && !g.meter)
  }

  /** Before the shutdown has written the state, state, flag and metric agree except in the
      middle of a setter's own writes. */
  predicate Agrees(s: System) {
    s.gate.closed
    || (match s.gate.holder
        case None => Settled(s.gate)
        case Some(id) =>
          id in s.tasks &&
          var t := s.tasks[id];
          match (t.call, t.pc)
          case (SetReady, Publish) => s.gate.state == Ready && s.gate.meter == s.gate.ready
          case (SetReady, Meter) => s.gate.state == Ready && s.gate.ready
          case (SetNotReady(reason), Publish) => s.gate.state == NotReady(reason)
          case (SetNotReady(reason), Meter) => s.gate.state == NotReady(reason) && !s.gate.ready
          case (_, _) => Settled(s.gate))
  }

  predicate Settled(g: Gate) { (g.ready <==> g.state == Ready) && g.meter == g.ready }

  ghost predicate Inv(s: System) {
    && GateHolds(s.gate)
    && (forall id {:trigger s.tasks[id]} :: id in s.tasks ==> TaskHolds(s.gate, id, s.tasks[id]))
    && (s.gate.holder.Some? ==> s.gate.holder.value in s.tasks)
    && Agrees(s)
  }

  lemma OwnStep(g: Gate, id: TaskId, t: Task)
    requires GateHolds(g) && TaskHolds(g, id, t)
    ensures var (g', pc) := Advance(g, id, t);
            GateHolds(g') && (!t.pc.Return? ==> TaskHolds(g', id, t.(pc := pc)))
  {
  }

  lemma OthersStep(g: Gate, id: TaskId, t: Task, other: TaskId, u: Task)
    requires GateHolds(g) && TaskHolds(g, id, t) && TaskHolds(g, other, u) && other != id
    ensures TaskHolds(Advance(g, id, t).0, other, u)
  {
  }

  lemma AgreesStep(s: System, id: TaskId)
    requires Agrees(s) && id in s.tasks && TaskHolds(s.gate, id, s.tasks[id])
    ensures Agrees(Step(s, Run(id)))
  {
  }

  lemma StepKeeps(s: System, action: Action)
    requires Inv(s)
    ensures Inv(Step(s, action))
  {
    hide TaskHolds, GateHolds, Agrees;
    var s' := Step(s, action);
    match action {
      case Start(id, call) => {
        StartKeeps(s, id, call);
      }
      case Run(id) => {
        if id in s.tasks {
          OwnStep(s.gate, id, s.tasks[id]);
          AgreesStep(s, id);
          HolderStays(s, id);
          forall other | other in s'.tasks ensures TaskHolds(s'.gate, other, s'.tasks[other]) {
            if other != id {
              OthersStep(s.gate, id, s.tasks[id], other, s.tasks[other]);
            }
          }
        }
      }
    }
  }

  lemma StartKeeps(s: System, id: TaskId, call: Call)
    requires Inv(s)
    ensures Inv(Step(s, Start(id, call)))
  {
  }

  lemma HolderStays(s: System, id: TaskId)
    requires Inv(s) && id in s.tasks
    ensures var s' := Step(s, Run(id)); s'.gate.holder.Some? ==> s'.gate.holder.value in s'.tasks
  {
    assert TaskHolds(s.gate, id, s.tasks[id]);
  }

  lemma {:induction false} ReachedHolds(actions: seq<Action>)
    ensures Inv(Reached(actions))
  {
    if actions != [] {
      ReachedHolds(actions[..|actions| - 1]);
      StepKeeps(Reached(actions[..|actions| - 1]), actions[|actions| - 1]);
    }
  }

  // ---- Shutdown is final -------------------------------------------------------------------

  /** In every interleaving, from the moment a `begin_shutdown` has returned the gate is not
      ready, its state is Shutdown and the metric says so. */
  lemma ShutdownIsFinal(actions: seq<Action>, more: seq<Action>)
    requires Reached(actions).gate.returned
    ensures var gate := Reached(actions + more).gate;
            gate.returned && !gate.ready && !gate.meter && gate.state == NotReady(Shutdown)
  {
    ReturnedStays(actions, more);
    ReachedHolds(actions + more);
  }

  lemma StepReturned(s: System, action: Action)
    requires s.gate.returned
    ensures Step(s, action).gate.returned
  {
  }

  lemma {:induction false} ReturnedStays(actions: seq<Action>, more: seq<Action>)
    requires Reached(actions).gate.returned
    ensures Reached(actions + more).gate.returned
    decreases |more|
  {
    hide Step;
    if more == [] {
      assert actions + more == actions;
    } else {
      var front := more[..|more| - 1];
      ReturnedStays(actions, front);
      StepReturned(Reached(actions + front), more[|more| - 1]);
      assert (actions + more)[..|actions + more| - 1] == actions + front;
    }
  }

  /** Before any shutdown has written the state, whoever takes the free lock finds state, flag
      and metric in agreement. */
  lemma UnlockedGateIsSettled(actions: seq<Action>)
    ensures var gate := Reached(actions).gate;
            gate.holder.None? && !gate.closed ==> (gate.ready <==> gate.state == Ready) && gate.meter == gate.ready
  {
    ReachedHolds(actions);
  }

  // ---- A call that runs alone ---------------------------------------------------------------

  /** The call starts and runs to its end, with no other step in between. */
  function Alone(s: System, id: TaskId, call: Call): System {
    Steps(Step(s, Start(id, call)), id, 8)
  }

  function Steps(s: System, id: TaskId, n: nat): System
    decreases n
  {
    if n == 0 then s else Steps(Step(s, Run(id)), id, n - 1)
  }

  /** One step of a task that does not end with it. */
  lemma OneStep(s: System, id: TaskId, n: nat)
    requires n > 0 && id in s.tasks && !s.tasks[id].pc.Return?
    ensures var (gate, pc) := Advance(s.gate, id, s.tasks[id]);
            Steps(s, id, n) == Steps(System(gate, s.tasks[id := s.tasks[id].(pc := pc)]), id, n - 1)
  {
  }

  lemma LastStep(s: System, id: TaskId, n: nat)
    requires n > 0 && id in s.tasks && s.tasks[id].pc.Return?
    ensures Steps(s, id, n) == Steps(System(Advance(s.gate, id, s.tasks[id]).0, s.tasks - {id}), id, n - 1)
  {
  }

  lemma {:induction false} Finished(s: System, id: TaskId, n: nat)
    requires id !in s.tasks
    ensures Steps(s, id, n) == s
    decreases n
  {
    if n > 0 {
      Finished(s, id, n - 1);
    }
  }

  /** What a call leaves when nobody interferes: with the lock free and no shutdown begun, the gate
      is ready, or not ready for the reason given; after a shutdown has begun, a setter leaves it as
      it was; and a shutdown itself closes it. */
  function Left(g: Gate, call: Call): Gate {
    match call
    case SetReady =>
      if g.shuttingDown then g else g.(state := Ready, ready := true, meter := if g.ready then g.meter else true)
    case SetNotReady(reason) =>
      if g.shuttingDown then g else g.(state := NotReady(reason), ready := false, meter := false)
    case BeginShutdown =>
      g.(state := NotReady(Shutdown), ready := false, meter := false, shuttingDown := true, closed := true, returned := true)
  }

  lemma AloneExact(s: System, id: TaskId, call: Call)
    requires id !in s.tasks && s.gate.holder.None?
    ensures Alone(s, id, call) == System(Left(s.gate, call), s.tasks)
  {
    hide Steps, Advance;
    match call
    case SetReady => SetterAlone(s, id, call);
    case SetNotReady(_) => SetterAlone(s, id, call);
    case BeginShutdown => ShutdownAlone(s, id);
  }

  lemma At(s: System, g: Gate, id: TaskId, call: Call, pc: Pc, n: nat)
    requires n > 0 && id !in s.tasks && !pc.Return?
    ensures var (gate, next) := Advance(g, id, Task(call, pc));
            Steps(System(g, s.tasks[id := Task(call, pc)]), id, n) == Steps(System(gate, s.tasks[id := Task(call, next)]), id, n - 1)
  {
    hide Steps, Advance;
    var here := System(g, s.tasks[id := Task(call, pc)]);
    OneStep(here, id, n);
    var next := Advance(g, id, Task(call, pc)).1;
    assert here.tasks[id := Task(call, next)] == s.tasks[id := Task(call, next)];
  }

  lemma AtReturn(s: System, g: Gate, id: TaskId, call: Call, n: nat)
    requires n > 0 && id !in s.tasks
    ensures Steps(System(g, s.tasks[id := Task(call, Return)]), id, n) == System(Advance(g, id, Task(call, Return)).0, s.tasks)
  {
    hide Steps, Advance;
    var here := System(g, s.tasks[id := Task(call, Return)]);
    LastStep(here, id, n);
    assert here.tasks - {id} == s.tasks;
    Finished(System(Advance(g, id, Task(call, Return)).0, s.tasks), id, n - 1);
  }

  lemma SetterAlone(s: System, id: TaskId, call: Call)
    requires id !in s.tasks && s.gate.holder.None? && !call.BeginShutdown?
    ensures Alone(s, id, call) == System(Left(s.gate, call), s.tasks)
  {
    hide Steps;
    var held := s.gate.(holder := Some(id));
    At(s, s.gate, id, call, Lock, 8);
    At(s, held, id, call, Check, 7);
    if s.gate.shuttingDown {
      At(s, held, id, call, Unlock, 6);
      AtReturn(s, s.gate, id, call, 5);
    } else {
      WriterAlone(s, id, call);
    }
  }

  lemma WriterAlone(s: System, id: TaskId, call: Call)
    requires id !in s.tasks && s.gate.holder.None? && !call.BeginShutdown? && !s.gate.shuttingDown
    ensures Steps(System(s.gate.(holder := Some(id)), s.tasks[id := Task(call, Write)]), id, 6) == System(Left(s.gate, call), s.tasks)
  {
    hide Steps;
    var held := s.gate.(holder := Some(id));
    var written := held.(state := if call.SetReady? then Ready else NotReady(call.reason));
    var published := written.(ready := call.SetReady?);
    At(s, held, id, call, Write, 6);
    At(s, written, id, call, Publish, 5);
    if call.SetReady? && s.gate.ready {
      At(s, published, id, call, Unlock, 4);
      AtReturn(s, published.(holder := None), id, call, 3);
    } else {
      var metered := published.(meter := call.SetReady?);
      At(s, published, id, call, Meter, 4);
      At(s, metered, id, call, Unlock, 3);
      AtReturn(s, metered.(holder := None), id, call, 2);
    }
  }

  lemma ShutdownAlone(s: System, id: TaskId)
    requires id !in s.tasks && s.gate.holder.None?
    ensures Alone(s, id, BeginShutdown) == System(Left(s.gate, BeginShutdown), s.tasks)
  {
    hide Steps;
    var call := BeginShutdown;
    var flagged := s.gate.(shuttingDown := true);
    var held := flagged.(holder := Some(id));
    var written := held.(state := NotReady(Shutdown), closed := true);
    var freed := written.(holder := None);
    var published := freed.(ready := false);
    At(s, s.gate, id, call, Flag, 8);
    At(s, flagged, id, call, Lock, 7);
    At(s, held, id, call, Write, 6);
    At(s, written, id, call, Unlock, 5);
    At(s, freed, id, call, Publish, 4);
    At(s, published, id, call, Meter, 3);
    AtReturn(s, published.(meter := false), id, call, 2);
  }
}
