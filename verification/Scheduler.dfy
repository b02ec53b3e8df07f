/**
 The `Scheduler` object: its methods and callbacks. Each is one step of the scheduler model, so an object built by its
 constructor is always in a reachable state, and what is proved of every run holds for it.
 */
module Schedulers {
  import opened Common
  import opened SchedulerModel

  class Scheduler {
    var order: seq<string>
    var tasks: map<string, Task>

    // the event loop around the object
    var execs: map<nat, Exec>
    var nextId: nat

    ghost var stops: seq<StopCall>

    ghost function View(): State
      reads this
    {
      State(order, tasks, execs, nextId, stops)
    }

    /** The map of tasks iterates over all its keys, each once. */
    ghost predicate Ordered()
      reads this
    {
      && (forall id :: id in order <==> id in tasks)
      && forall i, j :: 0 <= i < j < |order| ==> order[i] != order[j]
    }

    ghost predicate Valid()
      reads this
    {
      Ordered() && Reachable(View())
    }

    constructor ()
      ensures Valid() && View() == INIT
    {
      order, tasks, execs, nextId, stops := [], map[], map[], 0, [];
      new;
      assert Run([]) == Some(View());
    }

    /** What holds of the object between any two of its methods and callbacks. */
    lemma AlwaysOne(id: string, e: nat, f: nat)
      requires Valid()
      ensures id in tasks ==>
                && tasks[id].armedStarts <= tasks[id].armedIntervals <= 1
                && (!tasks[id].enabled ==> tasks[id].armedIntervals == 0)
      ensures e in Active(View()) && f in Active(View()) && execs[e].task == execs[f].task ==> e == f
    {
      ReachableInv(View());
      if e in Active(View()) && f in Active(View()) && execs[e].task == execs[f].task {
        NeverOverlaps(View(), e, f);
      }
    }

    method RegisterTask(id: string, on: bool)
      requires Valid() && Enabled(View(), Register(id, on))
      modifies this
      ensures Valid() && View() == Next(old(View()), Register(id, on))
      ensures id in tasks && tasks == old(tasks)[id := tasks[id]] && order == old(order) + [id]
      ensures tasks[id].enabled == on && tasks[id].armedStarts == tasks[id].armedIntervals == tasks[id].runCount == 0
    {
      ghost var next := ReachStep(View(), Register(id, on));
      order := order + [id];
      tasks := tasks[id := Task(on, false, false, false, None, 0, 0, 0)];
    }

    method StartTasks()
      requires Valid()
      modifies this
      ensures Valid() && View() == Next(old(View()), StartAll)
      ensures tasks.Keys == old(tasks).Keys
      ensures forall id :: id in tasks && tasks[id].enabled ==>
                tasks[id].armedIntervals == 1 && (old(tasks)[id].armedIntervals == 0 ==> tasks[id].armedStarts == 1)
      ensures forall id :: id in tasks ==> SameWork(old(tasks)[id], tasks[id])
    {
      ghost var next := ReachStep(View(), StartAll);
      OnlyTimers(View(), StartAll);
      AllArmed(View());
      tasks := ScheduleEach();
    }

    /** The loop of `startAll`. */
    method ScheduleEach() returns (ts: map<string, Task>)
      requires Ordered()
      ensures ts == map id | id in tasks :: StartOne(tasks[id])
    {
      ts := tasks;
      var i := 0;
      while i < |order|
        invariant 0 <= i <= |order| && ts.Keys == tasks.Keys
        invariant forall j :: 0 <= j < i ==> ts[order[j]] == StartOne(tasks[order[j]])
        invariant forall j :: i <= j < |order| ==> ts[order[j]] == tasks[order[j]]
      {
        var id := order[i];
        var t := ts[id];
        if t.enabled && !t.timer { ts := ts[id := Schedule(t)]; }
        i := i + 1;
      }
    }

    /** `runTask` up to the call of the task function. */
    method BeginRun(id: string) returns (began: bool)
      requires id in tasks
      modifies this
      ensures View() == RunTask(old(View()), id) && tasks.Keys == old(tasks).Keys && order == old(order)
      ensures began ==>
                && tasks == old(tasks)[id := old(tasks)[id].(running := true)]
                && execs == old(execs)[old(nextId) := Exec(id, Starting)]
      ensures !began ==> View() == old(View())
      ensures began <==> old(tasks[id]).enabled && !old(tasks[id]).running
    {
      var t := tasks[id];
      if !t.enabled || t.running { return false; }
      tasks := tasks[id := t.(running := true)];
      execs := execs[nextId := Exec(id, Starting)];
      nextId := nextId + 1;
      began := true;
    }

    /** A timer, an interval and an explicit run begin an execution only when none of that task is under way. */
    method OnStartTimer(id: string) returns (began: bool)
      requires Valid() && Enabled(View(), StartTimerFires(id))
      modifies this
      ensures Valid() && View() == Next(old(View()), StartTimerFires(id))
      ensures began <==> AtRest(old(View()), id) && old(tasks[id]).enabled
      ensures began ==> execs == old(execs)[old(nextId) := Exec(id, Starting)]
    {
      ghost var next := ReachStep(View(), StartTimerFires(id));
      RunningIff(View(), id);
      ForgetStartTimer(id);
      began := BeginRun(id);
    }

    method ForgetStartTimer(id: string)
      requires id in tasks && tasks[id].armedStarts > 0
      modifies this`tasks
      ensures View() == Fired(old(View()), id)
    {
      var t := tasks[id];
      tasks := tasks[id := t.(startTimer := false, armedStarts := t.armedStarts - 1)];
    }

    method OnInterval(id: string) returns (began: bool)
      requires Valid() && Enabled(View(), IntervalFires(id))
      modifies this
      ensures Valid() && View() == Next(old(View()), IntervalFires(id))
      ensures began <==> AtRest(old(View()), id) && old(tasks[id]).enabled
      ensures began ==> execs == old(execs)[old(nextId) := Exec(id, Starting)]
      ensures tasks == if began then old(tasks)[id := old(tasks)[id].(running := true)] else old(tasks)
    {
      ghost var next := ReachStep(View(), IntervalFires(id));
      RunningIff(View(), id);
      began := BeginRun(id);
    }

    method RunOnDemand(id: string) returns (known: bool, began: bool)
      requires Valid()
      modifies this
      ensures Valid() && View() == Next(old(View()), RunNow(id))
      ensures known == (id in old(tasks))
      ensures began <==> known && AtRest(old(View()), id) && old(tasks[id]).enabled
      ensures began ==> execs == old(execs)[old(nextId) := Exec(id, Starting)]
    {
      ghost var next := ReachStep(View(), RunNow(id));
      known, began := id in tasks, false;
      if known {
        RunningIff(View(), id);
        began := BeginRun(id);
      }
    }

    /** Disabling a task leaves none of its timers armed. */
    method SetTaskEnabled(id: string, on: bool) returns (known: bool)
      requires Valid()
      modifies this
      ensures Valid() && View() == Next(old(View()), SetEnabled(id, on))
      ensures known == (id in old(tasks))
      ensures known ==> tasks == old(tasks)[id := tasks[id]] && SameWork(old(tasks)[id].(enabled := on), tasks[id])
      ensures known && !on ==> tasks[id].armedStarts == tasks[id].armedIntervals == 0
      ensures known && on ==>
                tasks[id].armedIntervals == 1 && (old(tasks[id]).armedIntervals == 0 ==> tasks[id].armedStarts == 1)
    {
      ghost var next := ReachStep(View(), SetEnabled(id, on));
      if on && id in tasks { EnablingArms(View(), id); }
      known := id in tasks;
      if !known { return; }
      ReachableInv(next);
      var t := tasks[id].(enabled := on);
      if !on && t.timer {
        t := ClearInterval(t);
        if t.startTimer { t := ClearStart(t); }
      } else if on && !t.timer {
        t := Schedule(t);
      }
      tasks := tasks[id := t];
    }

    /** The task function reached its first await; its promise is stored. */
    method OnSuspended(e: nat)
      requires Valid() && Enabled(View(), Suspends(e))
      modifies this
      ensures Valid() && View() == Next(old(View()), Suspends(e))
      ensures var id := old(execs[e]).task;
              id in tasks && tasks[id].inFlight == Some(e) && execs == old(execs)[e := Exec(id, Busy)]
    {
      ghost var next := ReachStep(View(), Suspends(e));
      var id := execs[e].task;
      tasks := tasks[id := tasks[id].(inFlight := Some(e))];
      execs := execs[e := Exec(id, Busy)];
    }

    /** The task function threw before its first await: the stored promise is already settled. */
    method OnThrownAtOnce(e: nat)
      requires Valid() && Enabled(View(), ThrowsAtOnce(e))
      modifies this
      ensures Valid() && View() == Next(old(View()), ThrowsAtOnce(e))
      ensures var id := old(execs[e]).task;
              && id in tasks && tasks[id].inFlight == Some(e) && !tasks[id].running
              && tasks[id].runCount == old(tasks[execs[e].task]).runCount && execs == old(execs)[e := Exec(id, Ended)]
    {
      ghost var next := ReachStep(View(), ThrowsAtOnce(e));
      var id := execs[e].task;
      tasks := tasks[id := tasks[id].(running := false, inFlight := Some(e))];
      execs := execs[e := Exec(id, Ended)];
    }

    /** Whether it succeeded or failed, afterwards no execution of the task is under way. */
    method OnEnded(e: nat, ok: bool)
      requires Valid() && Enabled(View(), Ends(e, ok))
      modifies this
      ensures Valid() && View() == Next(old(View()), Ends(e, ok))
      ensures AtRest(View(), old(execs[e]).task)
      ensures var id := old(execs[e]).task;
              && id in tasks && !tasks[id].running
              && tasks[id].runCount == old(tasks[execs[e].task]).runCount + if ok then 1 else 0
    {
      ghost var next := ReachStep(View(), Ends(e, ok));
      var id := execs[e].task;
      var t := tasks[id];
      tasks := tasks[id := t.(running := false, runCount := if ok then t.runCount + 1 else t.runCount)];
      execs := execs[e := Exec(id, Ended)];
      NotRunning(View(), id);
    }

    /** The continuation of `runTask`: whatever is under way past its start stays in its record. */
    method OnContinued(e: nat)
      requires Valid() && Enabled(View(), Continues(e))
      modifies this
      ensures Valid() && View() == Next(old(View()), Continues(e))
      ensures Held(View()) && execs == old(execs) - {e}
      ensures var id := old(execs[e]).task; id in tasks && tasks[id].inFlight != Some(e)
    {
      ghost var next := ReachStep(View(), Continues(e));
      AllHeld(next);
      var id := execs[e].task;
      if tasks[id].inFlight == Some(e) {
        tasks := tasks[id := tasks[id].(inFlight := None)];
      } else {
        assert tasks == tasks[id := tasks[id]];
      }
      execs := execs - {e};
    }

    /** No timer is armed any more; what is waited for is everything under way, unless a job is on the call stack. */
    method StopTasks() returns (awaited: set<nat>)
      requires Valid()
      modifies this
      ensures Valid() && View() == Next(old(View()), SchedulerModel.Stop)
      ensures Quiet(View())
      ensures Active(View()) <= awaited <==> Idle(View())
      ensures forall e :: e in awaited ==> e in execs && !execs[e].phase.Starting?
      ensures tasks.Keys == old(tasks).Keys && execs == old(execs)
      ensures forall id :: id in tasks ==> SameWork(old(tasks)[id], tasks[id])
    {
      ghost var next := ReachStep(View(), SchedulerModel.Stop);
      AllDisarmed(View());
      AwaitedBegun(View());
      OnlyTimers(View(), SchedulerModel.Stop);
      StopMissesIff(View());
      awaited := CollectInFlight();
      stops := stops + [StopCall(awaited, Active(View()), Idle(View()))];
      tasks := ClearEach();
    }

    /** The loop of `stop`. */
    method ClearEach() returns (ts: map<string, Task>)
      requires Ordered()
      ensures ts == map id | id in tasks :: StopOne(tasks[id])
    {
      ts := tasks;
      var i := 0;
      while i < |order|
        invariant 0 <= i <= |order| && ts.Keys == tasks.Keys
        invariant forall j :: 0 <= j < i ==> ts[order[j]] == StopOne(tasks[order[j]])
        invariant forall j :: i <= j < |order| ==> ts[order[j]] == tasks[order[j]]
      {
        var id := order[i];
        ts := ts[id := StopOne(ts[id])];
        i := i + 1;
      }
    }

    /** The promises `stop` waits for. */
    method CollectInFlight() returns (awaited: set<nat>)
      ensures awaited == Awaited(View())
    {
      awaited := set id | id in tasks && tasks[id].inFlight.Some? :: tasks[id].inFlight.value;
    }
  }
}
