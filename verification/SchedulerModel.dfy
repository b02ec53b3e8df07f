/**
 The task scheduler as steps of an event loop: timers, explicit runs, enabling and disabling, the ends of executions
 and their continuations, and `stop`, in any order the event loop allows.
 */
module SchedulerModel {
  import opened Common

  /** A task record, with the number of start and interval timers of it that are really armed. */
  datatype Task = Task(
    enabled: bool, timer: bool, startTimer: bool, running: bool, inFlight: Option<nat>, runCount: nat,
    armedStarts: nat, armedIntervals: nat)

  /**
   An execution: in the synchronous prefix of the task function, before its promise is stored; under way; over, with
   the continuation of `runTask` still to come.
   */
  datatype Phase = Starting | Busy | Ended

  datatype Exec = Exec(task: string, phase: Phase)

  /** A call of `stop`: the executions it waits for, those under way at the time, and whether none was starting. */
  datatype StopCall = StopCall(awaited: set<nat>, present: set<nat>, clean: bool)

  datatype State = State(
    order: seq<string>, tasks: map<string, Task>, execs: map<nat, Exec>, nextId: nat, stops: seq<StopCall>)

  datatype Event =
    | Register(id: string, on: bool)
    | StartAll
    | StartTimerFires(id: string)
    | IntervalFires(id: string)
    | RunNow(id: string)
    | SetEnabled(id: string, on: bool)
    | Suspends(e: nat)
    | ThrowsAtOnce(e: nat)
    | Ends(e: nat, ok: bool)
    | Continues(e: nat)
    | Stop

  const INIT := State([], map[], map[], 0, [])

  /** No task function is on the call stack, so timers and promise callbacks may run. */
  predicate Idle(s: State) { forall e :: e in s.execs ==> !s.execs[e].phase.Starting? }

  predicate Enabled(s: State, ev: Event) {
    match ev
    case Register(id, _) => id !in s.tasks
    case StartTimerFires(id) => Idle(s) && id in s.tasks && s.tasks[id].armedStarts > 0
    case IntervalFires(id) => Idle(s) && id in s.tasks && s.tasks[id].armedIntervals > 0
    case Suspends(e) => e in s.execs && s.execs[e].phase.Starting? && s.execs[e].task in s.tasks
    case ThrowsAtOnce(e) => e in s.execs && s.execs[e].phase.Starting? && s.execs[e].task in s.tasks
    case Ends(e, _) => Idle(s) && e in s.execs && s.execs[e].phase.Busy? && s.execs[e].task in s.tasks
    case Continues(e) => Idle(s) && e in s.execs && s.execs[e].phase.Ended? && s.execs[e].task in s.tasks
    case _ => true
  }

  /** `scheduleTask` */
  function Schedule(t: Task): Task {
    t.(startTimer := true, timer := true, armedStarts := t.armedStarts + 1, armedIntervals := t.armedIntervals + 1)
  }

  function ClearInterval(t: Task): Task {
    if t.timer && t.armedIntervals > 0 then t.(timer := false, armedIntervals := t.armedIntervals - 1)
    else t.(timer := false)
  }

  function ClearStart(t: Task): Task {
    if t.startTimer && t.armedStarts > 0 then t.(startTimer := false, armedStarts := t.armedStarts - 1)
    else t.(startTimer := false)
  }

  function StartOne(t: Task): Task { if t.enabled && !t.timer then Schedule(t) else t }

  function SwitchOne(t: Task, on: bool): Task {
    var u := t.(enabled := on);
    if !on && t.timer then ClearStart(ClearInterval(u)) else if on && !t.timer then Schedule(u) else u
  }

  function StopOne(t: Task): Task { ClearStart(ClearInterval(t)) }

  /** `runTask` up to the first call into the task function. */
  function RunTask(s: State, id: string): State
    requires id in s.tasks
  {
    if !s.tasks[id].enabled || s.tasks[id].running then s
    else s.(tasks := s.tasks[id := s.tasks[id].(running := true)], execs := s.execs[s.nextId := Exec(id, Starting)],
            nextId := s.nextId + 1)
  }

  /** The start timer of the task has gone off. */
  function Fired(s: State, id: string): State
    requires id in s.tasks && s.tasks[id].armedStarts > 0
  {
    s.(tasks := s.tasks[id := s.tasks[id].(startTimer := false, armedStarts := s.tasks[id].armedStarts - 1)])
  }

  function Awaited(s: State): set<nat> {
    set id | id in s.tasks && s.tasks[id].inFlight.Some? :: s.tasks[id].inFlight.value
  }

  function Active(s: State): set<nat> { set e | e in s.execs && !s.execs[e].phase.Ended? }

  function Next(s: State, ev: Event): State
    requires Enabled(s, ev)
  {
    match ev
    case Register(id, on) =>
      s.(order := s.order + [id], tasks := s.tasks[id := Task(on, false, false, false, None, 0, 0, 0)])
    case StartAll => s.(tasks := map id | id in s.tasks :: StartOne(s.tasks[id]))
    case StartTimerFires(id) => RunTask(Fired(s, id), id)
    case IntervalFires(id) => RunTask(s, id)
    case RunNow(id) => if id in s.tasks then RunTask(s, id) else s
    case SetEnabled(id, on) => if id in s.tasks then s.(tasks := s.tasks[id := SwitchOne(s.tasks[id], on)]) else s
    case Suspends(e) =>
      var id := s.execs[e].task;
      s.(tasks := s.tasks[id := s.tasks[id].(inFlight := Some(e))], execs := s.execs[e := Exec(id, Busy)])
    case ThrowsAtOnce(e) =>
      var id := s.execs[e].task;
      s.(tasks := s.tasks[id := s.tasks[id].(running := false, inFlight := Some(e))], execs := s.execs[e := Exec(id, Ended)])
    case Ends(e, ok) =>
      var id := s.execs[e].task;
      var t := s.tasks[id];
      s.(tasks := s.tasks[id := t.(running := false, runCount := if ok then t.runCount + 1 else t.runCount)],
         execs := s.execs[e := Exec(id, Ended)])
    case Continues(e) =>
      var id := s.execs[e].task;
      var t := s.tasks[id];
      s.(tasks := s.tasks[id := t.(inFlight := if t.inFlight == Some(e) then None else t.inFlight)],
         execs := s.execs - {e})
    case Stop =>
      s.(tasks := map id | id in s.tasks :: StopOne(s.tasks[id]),
         stops := s.stops + [StopCall(Awaited(s), Active(s), Idle(s))])
  }

  function Run(es: seq<Event>): Option<State> {
    if es == [] then Some(INIT)
    else
      var before := Run(es[..|es| - 1]);
      if before.Some? && Enabled(before.value, es[|es| - 1]) then Some(Next(before.value, es[|es| - 1])) else None
  }

  ghost predicate Reachable(s: State) { exists es :: Run(es) == Some(s) }

  // ----- the invariant -----

  /** The timers really armed are exactly those the record holds, and a disabled task holds none. */
  predicate TimersOk(t: Task) {
    && t.armedStarts == (if t.startTimer then 1 else 0)
    && t.armedIntervals == (if t.timer then 1 else 0)
    && (t.startTimer ==> t.timer)
    && (!t.enabled ==> !t.timer)
  }

  ghost predicate TasksOk(s: State) {
    forall id :: id in s.tasks ==> TimersOk(s.tasks[id])
  }

  /** Execution `e` agrees with the record of its task. */
  predicate ExecOk(tasks: map<string, Task>, execs: map<nat, Exec>, nextId: nat, e: nat)
    requires e in execs
  {
    var x := execs[e];
    && e < nextId && x.task in tasks
    && (!x.phase.Ended? ==> tasks[x.task].running)
    && (x.phase.Busy? ==> tasks[x.task].inFlight == Some(e))
  }

  /** The execution held by the record of task `id` is one of that task, past its start. */
  predicate HeldOk(tasks: map<string, Task>, execs: map<nat, Exec>, id: string)
    requires id in tasks
  {
    tasks[id].inFlight.Some? ==>
      var e := tasks[id].inFlight.value;
      e in execs && execs[e].task == id && !execs[e].phase.Starting?
  }

  predicate Overlap(execs: map<nat, Exec>, e: nat, f: nat)
    requires e in execs && f in execs
  {
    e != f && execs[e].task == execs[f].task && !execs[e].phase.Ended? && !execs[f].phase.Ended?
  }

  ghost predicate Agree(tasks: map<string, Task>, execs: map<nat, Exec>, nextId: nat) {
    && (forall e :: e in execs ==> ExecOk(tasks, execs, nextId, e))
    && (forall e, f :: e in execs && f in execs ==> !Overlap(execs, e, f))
    && (forall id :: id in tasks ==> HeldOk(tasks, execs, id))
  }

  ghost predicate ExecsOk(s: State) { Agree(s.tasks, s.execs, s.nextId) }

  ghost predicate StopsOk(s: State) {
    forall i :: 0 <= i < |s.stops| ==>
      && (s.stops[i].clean <==> s.stops[i].present <= s.stops[i].awaited)
      && (forall e :: e in s.stops[i].present + s.stops[i].awaited ==> e < s.nextId)
  }

  ghost predicate Inv(s: State) { TasksOk(s) && ExecsOk(s) && StopsOk(s) }

  lemma SwitchTasks(s: State, ev: Event)
    requires TasksOk(s) && Enabled(s, ev)
    requires ev.Register? || ev.StartAll? || ev.SetEnabled? || ev.Stop?
    ensures TasksOk(Next(s, ev))
  {
  }

  lemma RunTasks(s: State, ev: Event)
    requires TasksOk(s) && Enabled(s, ev)
    requires ev.StartTimerFires? || ev.IntervalFires? || ev.RunNow?
    ensures TasksOk(Next(s, ev))
  {
  }

  lemma EndTasks(s: State, ev: Event)
    requires TasksOk(s) && Enabled(s, ev)
    requires ev.Suspends? || ev.ThrowsAtOnce? || ev.Ends? || ev.Continues?
    ensures TasksOk(Next(s, ev))
  {
  }

  lemma TasksStep(s: State, ev: Event)
    requires TasksOk(s) && Enabled(s, ev)
    ensures TasksOk(Next(s, ev))
  {
    if ev.Register? || ev.StartAll? || ev.SetEnabled? || ev.Stop? {
      SwitchTasks(s, ev);
    } else if ev.StartTimerFires? || ev.IntervalFires? || ev.RunNow? {
      RunTasks(s, ev);
    } else {
      EndTasks(s, ev);
    }
  }

  lemma RunTaskExecs(s: State, id: string)
    requires ExecsOk(s) && id in s.tasks
    ensures ExecsOk(RunTask(s, id))
  {
    var t := RunTask(s, id);
    forall e | e in t.execs ensures ExecOk(t.tasks, t.execs, t.nextId, e) {
      assert e in s.execs ==> ExecOk(s.tasks, s.execs, s.nextId, e);
    }
    forall e, f | e in t.execs && f in t.execs ensures !Overlap(t.execs, e, f) {
      assert e in s.execs ==> ExecOk(s.tasks, s.execs, s.nextId, e);
      assert f in s.execs ==> ExecOk(s.tasks, s.execs, s.nextId, f);
      assert e in s.execs && f in s.execs ==> !Overlap(s.execs, e, f);
    }
    forall i | i in t.tasks ensures HeldOk(t.tasks, t.execs, i) {
      assert HeldOk(s.tasks, s.execs, i);
      assert s.tasks[i].inFlight.Some? ==> ExecOk(s.tasks, s.execs, s.nextId, s.tasks[i].inFlight.value);
    }
  }

  /** Executions only depend on two fields of the task records. */
  lemma SameMarks(s: State, tasks: map<string, Task>)
    requires ExecsOk(s)
    requires forall id :: id in s.tasks ==>
               id in tasks && tasks[id].running == s.tasks[id].running && tasks[id].inFlight == s.tasks[id].inFlight
    requires forall id :: id in tasks && id !in s.tasks ==> tasks[id].inFlight.None?
    ensures Agree(tasks, s.execs, s.nextId)
  {
    forall e | e in s.execs ensures ExecOk(tasks, s.execs, s.nextId, e) {
      assert ExecOk(s.tasks, s.execs, s.nextId, e);
    }
    forall id | id in tasks ensures HeldOk(tasks, s.execs, id) {
      assert id in s.tasks ==> HeldOk(s.tasks, s.execs, id);
    }
  }

  lemma RegisterExecs(s: State, id: string, on: bool)
    requires ExecsOk(s) && Enabled(s, Register(id, on))
    ensures ExecsOk(Next(s, Register(id, on)))
  {
    SameMarks(s, Next(s, Register(id, on)).tasks);
  }

  lemma StartAllExecs(s: State)
    requires ExecsOk(s)
    ensures ExecsOk(Next(s, StartAll))
  {
    SameMarks(s, Next(s, StartAll).tasks);
  }

  lemma SetEnabledExecs(s: State, id: string, on: bool)
    requires ExecsOk(s)
    ensures ExecsOk(Next(s, SetEnabled(id, on)))
  {
    SameMarks(s, Next(s, SetEnabled(id, on)).tasks);
  }

  lemma StopKeepsMarks(t: Task)
    ensures StopOne(t).running == t.running && StopOne(t).inFlight == t.inFlight
  {
  }

  lemma StopExecs(s: State)
    requires ExecsOk(s)
    ensures Agree(map id | id in s.tasks :: StopOne(s.tasks[id]), s.execs, s.nextId)
  {
    var tasks := map id | id in s.tasks :: StopOne(s.tasks[id]);
    forall id | id in s.tasks
      ensures tasks[id].running == s.tasks[id].running && tasks[id].inFlight == s.tasks[id].inFlight
    {
      StopKeepsMarks(s.tasks[id]);
    }
    SameMarks(s, tasks);
  }

  lemma StartTimerExecs(s: State, id: string)
    requires ExecsOk(s) && Enabled(s, StartTimerFires(id))
    ensures ExecsOk(Next(s, StartTimerFires(id)))
  {
    var t := s.tasks[id].(startTimer := false, armedStarts := s.tasks[id].armedStarts - 1);
    SameMarks(s, s.tasks[id := t]);
    RunTaskExecs(s.(tasks := s.tasks[id := t]), id);
  }

  lemma EndExecs(s: State, ev: Event, e: nat)
    requires ExecsOk(s) && Enabled(s, ev)
    requires ev in {Suspends(e), ThrowsAtOnce(e), Ends(e, true), Ends(e, false), Continues(e)}
    ensures ExecsOk(Next(s, ev))
  {
    var t := Next(s, ev);
    assert ExecOk(s.tasks, s.execs, s.nextId, e);
    forall f | f in t.execs ensures ExecOk(t.tasks, t.execs, t.nextId, f) {
      assert ExecOk(s.tasks, s.execs, s.nextId, f);
      assert !Overlap(s.execs, e, f);
    }
    forall f, g | f in t.execs && g in t.execs ensures !Overlap(t.execs, f, g) {
      assert !Overlap(s.execs, f, g);
    }
    forall id | id in t.tasks ensures HeldOk(t.tasks, t.execs, id) {
      assert HeldOk(s.tasks, s.execs, id);
    }
  }

  lemma ExecsStep(s: State, ev: Event)
    requires ExecsOk(s) && Enabled(s, ev)
    ensures ExecsOk(Next(s, ev))
  {
    match ev {
      case Register(id, on) => RegisterExecs(s, id, on);
      case StartAll => StartAllExecs(s);
      case SetEnabled(id, on) => SetEnabledExecs(s, id, on);
      case Stop => StopExecs(s);
      case StartTimerFires(id) => StartTimerExecs(s, id);
      case IntervalFires(id) => RunTaskExecs(s, id);
      case RunNow(id) => if id in s.tasks { RunTaskExecs(s, id); }
      case Suspends(e) => EndExecs(s, ev, e);
      case ThrowsAtOnce(e) => EndExecs(s, ev, e);
      case Ends(e, _) => EndExecs(s, ev, e);
      case Continues(e) => EndExecs(s, ev, e);
    }
  }

  /** What `stop` waits for covers everything under way exactly when no task function is on the call stack. */
  lemma StopCovers(s: State)
    requires ExecsOk(s)
    ensures Active(s) <= Awaited(s) <==> Idle(s)
  {
    if Idle(s) {
      forall e | e in Active(s) ensures e in Awaited(s) {
        assert ExecOk(s.tasks, s.execs, s.nextId, e);
        assert s.tasks[s.execs[e].task].inFlight == Some(e);
      }
    } else {
      var e :| e in s.execs && s.execs[e].phase.Starting?;
      assert e in Active(s);
      forall id | id in s.tasks ensures s.tasks[id].inFlight != Some(e) {
        assert HeldOk(s.tasks, s.execs, id);
      }
      assert e !in Awaited(s);
    }
  }

  lemma StopsStep(s: State, ev: Event)
    requires ExecsOk(s) && StopsOk(s) && Enabled(s, ev)
    ensures StopsOk(Next(s, ev))
  {
    if ev.Stop? {
      StopCovers(s);
      forall e | e in Active(s) + Awaited(s) ensures e < s.nextId {
        if e !in Active(s) {
          var id :| id in s.tasks && s.tasks[id].inFlight == Some(e);
          assert HeldOk(s.tasks, s.execs, id);
        }
        assert ExecOk(s.tasks, s.execs, s.nextId, e);
      }
    }
  }

  lemma {:induction false} RunInv(es: seq<Event>)
    requires Run(es).Some?
    ensures Inv(Run(es).value)
  {
    if es == [] {
    } else {
      var s, ev := Run(es[..|es| - 1]).value, es[|es| - 1];
      RunInv(es[..|es| - 1]);
      TasksStep(s, ev);
      ExecsStep(s, ev);
      StopsStep(s, ev);
    }
  }

  lemma ReachableInv(s: State)
    requires Reachable(s)
    ensures Inv(s)
  {
    var es :| Run(es) == Some(s);
    RunInv(es);
  }

  // ----- what is promised -----

  /** In every interleaving a task has at most one execution under way, and one past its start is the one in `inFlight`. */
  lemma NeverOverlaps(s: State, e: nat, f: nat)
    requires Reachable(s) && e in Active(s) && f in Active(s) && s.execs[e].task == s.execs[f].task
    ensures e == f
    ensures s.execs[e].phase.Busy? ==> s.execs[e].task in s.tasks && s.tasks[s.execs[e].task].inFlight == Some(e)
  {
    ReachableInv(s);
    assert ExecOk(s.tasks, s.execs, s.nextId, e) && !Overlap(s.execs, e, f);
  }

  /** No execution of the task is under way. */
  ghost predicate AtRest(s: State, id: string) {
    forall e :: e in s.execs && s.execs[e].task == id ==> s.execs[e].phase.Ended?
  }

  /** A task whose record is not marked running has no execution under way. */
  lemma NotRunning(s: State, id: string)
    requires Reachable(s) && id in s.tasks && !s.tasks[id].running
    ensures AtRest(s, id)
  {
    ReachableInv(s);
    forall e | e in s.execs && s.execs[e].task == id ensures s.execs[e].phase.Ended? {
      assert ExecOk(s.tasks, s.execs, s.nextId, e);
    }
  }

  /** An execution of the task is in its synchronous prefix or under way. */
  ghost predicate UnderWay(execs: map<nat, Exec>, id: string) {
    exists e :: e in execs && execs[e].task == id && !execs[e].phase.Ended?
  }

  ghost predicate MarksOk(s: State) { forall id :: id in s.tasks && s.tasks[id].running ==> UnderWay(s.execs, id) }

  lemma StillUnderWay(execs: map<nat, Exec>, execs': map<nat, Exec>, id: string)
    requires UnderWay(execs, id)
    requires forall e :: e in execs && execs[e].task == id && !execs[e].phase.Ended? ==>
               e in execs' && execs'[e].task == id && !execs'[e].phase.Ended?
    ensures UnderWay(execs', id)
  {
    var e :| e in execs && execs[e].task == id && !execs[e].phase.Ended?;
    assert e in execs';
  }

  lemma RunTaskMarks(s: State, id: string)
    requires ExecsOk(s) && MarksOk(s) && id in s.tasks
    ensures MarksOk(RunTask(s, id))
  {
    var t := RunTask(s, id);
    forall i | i in t.tasks && t.tasks[i].running ensures UnderWay(t.execs, i) {
      forall e | e in s.execs ensures e != s.nextId {
        assert ExecOk(s.tasks, s.execs, s.nextId, e);
      }
      if i == id && !s.tasks[id].running {
        assert t.execs[s.nextId] == Exec(id, Starting);
      } else {
        StillUnderWay(s.execs, t.execs, i);
      }
    }
  }

  lemma EndMarks(s: State, ev: Event, e: nat)
    requires ExecsOk(s) && MarksOk(s) && Enabled(s, ev)
    requires ev in {Suspends(e), ThrowsAtOnce(e), Ends(e, true), Ends(e, false), Continues(e)}
    ensures MarksOk(Next(s, ev))
  {
    var t := Next(s, ev);
    forall i | i in t.tasks && t.tasks[i].running ensures UnderWay(t.execs, i) {
      assert s.tasks[i].running;
      StillUnderWay(s.execs, t.execs, i);
    }
  }

  lemma SwitchMarks(s: State, ev: Event)
    requires MarksOk(s) && Enabled(s, ev)
    requires ev.Register? || ev.StartAll? || ev.SetEnabled? || ev.Stop?
    ensures MarksOk(Next(s, ev))
  {
    var t := Next(s, ev);
    forall i | i in t.tasks && t.tasks[i].running ensures UnderWay(t.execs, i) {
      assert i in s.tasks && s.tasks[i].running;
    }
  }

  lemma MarksStep(s: State, ev: Event)
    requires ExecsOk(s) && MarksOk(s) && Enabled(s, ev)
    ensures MarksOk(Next(s, ev))
  {
    match ev {
      case Register(_, _) => SwitchMarks(s, ev);
      case StartAll => SwitchMarks(s, ev);
      case SetEnabled(_, _) => SwitchMarks(s, ev);
      case Stop => SwitchMarks(s, ev);
      case StartTimerFires(id) =>
        var t := s.tasks[id].(startTimer := false, armedStarts := s.tasks[id].armedStarts - 1);
        SameMarks(s, s.tasks[id := t]);
        RunTaskMarks(Fired(s, id), id);
      case IntervalFires(id) => RunTaskMarks(s, id);
      case RunNow(id) => if id in s.tasks { RunTaskMarks(s, id); }
      case Suspends(e) => EndMarks(s, ev, e);
      case ThrowsAtOnce(e) => EndMarks(s, ev, e);
      case Ends(e, _) => EndMarks(s, ev, e);
      case Continues(e) => EndMarks(s, ev, e);
    }
  }

  lemma {:induction false} RunMarks(es: seq<Event>)
    requires Run(es).Some?
    ensures MarksOk(Run(es).value)
  {
    if es == [] {
    } else {
      RunMarks(es[..|es| - 1]);
      RunInv(es[..|es| - 1]);
      MarksStep(Run(es[..|es| - 1]).value, es[|es| - 1]);
    }
  }

  /** A task is marked running exactly while an execution of it is under way. */
  lemma RunningIff(s: State, id: string)
    requires Reachable(s) && id in s.tasks
    ensures s.tasks[id].running <==> !AtRest(s, id)
  {
    var es :| Run(es) == Some(s);
    RunMarks(es);
    if !s.tasks[id].running { NotRunning(s, id); }
  }

  // ----- timers are there when they should be -----

  /** After `startAll` every enabled task has its interval, and a task that had none its start timer too. */
  lemma StartAllArms(s: State, id: string)
    requires Reachable(s) && id in s.tasks && s.tasks[id].enabled
    ensures var t := Next(s, StartAll).tasks[id];
            t.armedIntervals == 1 && (s.tasks[id].armedIntervals == 0 ==> t.armedStarts == 1)
  {
    ReachableInv(s);
  }

  lemma AllArmed(s: State)
    requires Reachable(s)
    ensures var t := Next(s, StartAll).tasks;
            && t.Keys == s.tasks.Keys
            && forall id :: id in t && t[id].enabled ==>
                 t[id].armedIntervals == 1 && (s.tasks[id].armedIntervals == 0 ==> t[id].armedStarts == 1)
  {
    forall id | id in s.tasks && s.tasks[id].enabled
      ensures StartOne(s.tasks[id]).armedIntervals == 1
      ensures s.tasks[id].armedIntervals == 0 ==> StartOne(s.tasks[id]).armedStarts == 1
    {
      StartAllArms(s, id);
    }
  }

  /** Enabling a task arms its interval, if need be with a start timer. */
  lemma EnablingArms(s: State, id: string)
    requires Reachable(s) && id in s.tasks
    ensures var t := Next(s, SetEnabled(id, true)).tasks[id];
            t.enabled && t.armedIntervals == 1 && (s.tasks[id].armedIntervals == 0 ==> t.armedStarts == 1)
  {
    ReachableInv(s);
  }

  /** The event takes timers of the task away. */
  predicate Silences(ev: Event, id: string) { ev.Stop? || ev == SetEnabled(id, false) }

  lemma IntervalKept(s: State, ev: Event, id: string)
    requires Reachable(s) && Enabled(s, ev) && id in s.tasks && s.tasks[id].enabled && s.tasks[id].armedIntervals == 1
    requires !Silences(ev, id)
    ensures var t := Next(s, ev); id in t.tasks && t.tasks[id].enabled && t.tasks[id].armedIntervals == 1
  {
    ReachableInv(s);
    if ev.StartAll? { StartAllArms(s, id); }
  }

  /** Over every run: an enabled task with its interval keeps it until it is disabled or everything is stopped. */
  lemma {:induction false} IntervalStays(before: seq<Event>, es: seq<Event>, id: string)
    requires Run(before + es).Some? && forall i :: 0 <= i < |es| ==> !Silences(es[i], id)
    requires Run(before).Some? && id in Run(before).value.tasks
    requires Run(before).value.tasks[id].enabled && Run(before).value.tasks[id].armedIntervals == 1
    ensures var t := Run(before + es).value; id in t.tasks && t.tasks[id].enabled && t.tasks[id].armedIntervals == 1
    decreases |es|
  {
    if es == [] {
      assert before + es == before;
    } else {
      var init, ev := es[..|es| - 1], es[|es| - 1];
      assert (before + es)[..|before + es| - 1] == before + init;
      assert forall i :: 0 <= i < |init| ==> init[i] == es[i];
      IntervalStays(before, init, id);
      IntervalKept(Run(before + init).value, ev, id);
    }
  }

  /** A due timer of an enabled task begins an execution exactly when none is under way. */
  lemma BeginsIff(s: State, ev: Event)
    requires Reachable(s) && Enabled(s, ev) && (ev.StartTimerFires? || ev.IntervalFires? || ev.RunNow?) && ev.id in s.tasks
    ensures s.nextId in Next(s, ev).execs <==> s.tasks[ev.id].enabled && AtRest(s, ev.id)
  {
    RunningIff(s, ev.id);
    ReachableInv(s);
    forall e | e in s.execs ensures e < s.nextId {
      assert ExecOk(s.tasks, s.execs, s.nextId, e);
    }
  }

  /** The continuation of an earlier execution never clears the mark of a later one. */
  lemma EarlierCannotClear(s: State, e: nat, f: nat)
    requires Reachable(s) && Enabled(s, Continues(e)) && f in s.execs && s.execs[f].phase.Busy?
    ensures var t := Next(s, Continues(e));
            && f in t.execs && t.execs[f] == s.execs[f] && t.execs[f].task in t.tasks
            && t.tasks[t.execs[f].task].inFlight == Some(f)
  {
    ReachableInv(s);
    assert ExecOk(s.tasks, s.execs, s.nextId, f);
  }

  /** The event is the successful end of an execution of task `id`. */
  predicate Succeeds(s: State, ev: Event, id: string) {
    ev.Ends? && ev.ok && ev.e in s.execs && s.execs[ev.e].task == id
  }

  /** The successful ends of executions of task `id` in a run, counted from its events. */
  function Successes(es: seq<Event>, id: string): nat {
    if es == [] then 0
    else
      var before := Run(es[..|es| - 1]);
      Successes(es[..|es| - 1], id)
      + if before.Some? && Succeeds(before.value, es[|es| - 1], id) then 1 else 0
  }

  /** The count in the record of task `id`; a task that is not registered has none. */
  function CountOf(s: State, id: string): nat { if id in s.tasks then s.tasks[id].runCount else 0 }

  lemma SwitchesKeepCounts(t: Task, on: bool)
    ensures StopOne(t).runCount == StartOne(t).runCount == SwitchOne(t, on).runCount == t.runCount
  {
  }

  lemma StepCounts(s: State, ev: Event, id: string)
    requires Enabled(s, ev)
    ensures CountOf(Next(s, ev), id) == CountOf(s, id) + if Succeeds(s, ev, id) then 1 else 0
  {
    if id in s.tasks {
      SwitchesKeepCounts(s.tasks[id], ev.SetEnabled? && ev.on);
    }
  }

  lemma {:induction false} CountsAreSuccesses(es: seq<Event>, id: string)
    requires Run(es).Some?
    ensures CountOf(Run(es).value, id) == Successes(es, id)
  {
    if es == [] {
    } else {
      CountsAreSuccesses(es[..|es| - 1], id);
      StepCounts(Run(es[..|es| - 1]).value, es[|es| - 1], id);
    }
  }

  /**
   After any run a disabled task has no armed timer, an enabled one at most one of each kind; `runCount` is the number
   of executions of the task that ended in success.
   */
  lemma TimersAndCounts(es: seq<Event>, id: string)
    requires Run(es).Some? && id in Run(es).value.tasks
    ensures var t := Run(es).value.tasks[id];
            && t.armedStarts <= t.armedIntervals <= 1
            && (!t.enabled ==> t.armedIntervals == 0)
            && t.runCount == Successes(es, id)
  {
    RunInv(es);
    CountsAreSuccesses(es, id);
  }

  /** `stop` leaves no timer of any task armed. */
  lemma StopDisarms(s: State, id: string)
    requires Reachable(s) && id in s.tasks
    ensures var t := Next(s, Stop).tasks[id]; t.armedStarts == 0 && t.armedIntervals == 0 && t.enabled == s.tasks[id].enabled
  {
    ReachableInv(s);
  }

  /** No timer of any task is armed. */
  ghost predicate Quiet(s: State) {
    forall id :: id in s.tasks ==> s.tasks[id].armedStarts == s.tasks[id].armedIntervals == 0
  }

  lemma AllDisarmed(s: State)
    requires Reachable(s)
    ensures Quiet(Next(s, Stop))
  {
    forall id | id in s.tasks
      ensures StopOne(s.tasks[id]).armedStarts == StopOne(s.tasks[id]).armedIntervals == 0
    {
      StopDisarms(s, id);
    }
  }

  /** Only timers differ. */
  predicate SameWork(t: Task, u: Task) {
    t.enabled == u.enabled && t.running == u.running && t.inFlight == u.inFlight && t.runCount == u.runCount
  }

  /** Starting and stopping everything touches nothing but timers. */
  lemma OnlyTimers(s: State, ev: Event)
    requires ev.StartAll? || ev.Stop?
    ensures var t := Next(s, ev);
            && t.tasks.Keys == s.tasks.Keys && t.execs == s.execs && t.order == s.order
            && forall id :: id in s.tasks ==> SameWork(s.tasks[id], t.tasks[id])
  {
  }

  /** What `stop` waits for has begun: it is past its start and under way, or over with its continuation to come. */
  lemma AwaitedBegun(s: State)
    requires Reachable(s)
    ensures forall e :: e in Awaited(s) ==> e in s.execs && !s.execs[e].phase.Starting?
  {
    ReachableInv(s);
    forall e | e in Awaited(s) ensures e in s.execs && !s.execs[e].phase.Starting? {
      var id :| id in s.tasks && s.tasks[id].inFlight == Some(e);
      assert HeldOk(s.tasks, s.execs, id);
    }
  }

  /** The promise returned by the i-th `stop` can resolve: everything it waits for is over. */
  predicate StopResolves(s: State, i: nat)
    requires i < |s.stops|
  {
    s.stops[i].awaited !! Active(s)
  }

  /**
   `stop` resolves only after everything that was under way has ended, provided no task function was in its
   synchronous prefix when `stop` was called, that is, provided `stop` was not called by a task function itself.
   */
  lemma StopWaits(s: State, i: nat)
    requires Reachable(s) && i < |s.stops| && s.stops[i].clean && StopResolves(s, i)
    ensures s.stops[i].present !! Active(s)
  {
    ReachableInv(s);
  }

  /** Exactly then: a call of `stop` misses an execution under way if and only if one is in its synchronous prefix. */
  lemma StopMissesIff(s: State)
    requires Reachable(s)
    ensures !(Active(s) <= Awaited(s)) <==> exists e :: e in s.execs && s.execs[e].phase.Starting?
  {
    ReachableInv(s);
    StopCovers(s);
  }

  /** Every execution past its start and not over is held by the record of its task. */
  ghost predicate Held(s: State) {
    forall f :: f in s.execs && s.execs[f].phase.Busy? ==>
      s.execs[f].task in s.tasks && s.tasks[s.execs[f].task].inFlight == Some(f)
  }

  lemma AllHeld(s: State)
    requires Reachable(s)
    ensures Held(s)
  {
    ReachableInv(s);
    forall f | f in s.execs && s.execs[f].phase.Busy?
      ensures s.execs[f].task in s.tasks && s.tasks[s.execs[f].task].inFlight == Some(f)
    {
      assert ExecOk(s.tasks, s.execs, s.nextId, f);
    }
  }

  lemma ReachStep(s: State, ev: Event) returns (t: State)
    requires Reachable(s) && Enabled(s, ev)
    ensures t == Next(s, ev) && Reachable(t)
  {
    t := Next(s, ev);
    var es :| Run(es) == Some(s);
    assert (es + [ev])[..|es + [ev]| - 1] == es;
    assert Run(es + [ev]) == Some(t);
  }

  /** Such a run: a task function that calls `stop` before its first await is running when that `stop` resolves. */
  lemma StopFromTask() returns (s: State)
    ensures Reachable(s) && |s.stops| == 1 && StopResolves(s, 0)
    ensures s.stops[0].present == {0} && 0 in Active(s)
  {
    assert Run([]) == Some(INIT);
    s := ReachStep(INIT, Register("a", true));
    s := ReachStep(s, RunNow("a"));
    assert 0 in s.execs && s.execs[0].phase.Starting?;
    assert Awaited(s) == {} && Active(s) == {0};
    s := ReachStep(s, Stop);
    assert s.stops[0].awaited == {} && s.execs[0] == Exec("a", Starting);
    s := ReachStep(s, Suspends(0));
  }
}
