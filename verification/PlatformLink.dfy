/**
 The `PlatformLink` object: the handlers of the worker poll loop. Each is one step of the loop, so an object built by
 its constructor is always in a reachable state, and what is proved of every run holds for it.
 */
module PlatformLinks {
  import opened Common
  import opened PollLoop

  class PlatformLink {
    var taskTimer: Option<nat>
    var taskPollInFlight: Option<nat>
    var tasksBusy: bool
    var taskLoopEnabled: bool
    var idlePollMs: int
    var nextTaskPollMs: int
    var taskPollFailures: nat
    var taskBackoffUntil: int

    // the event loop around the object
    var now: int
    var armed: map<nat, int>
    var polls: map<nat, Stage>
    var ready: nat
    var nextId: nat

    ghost var started: bool
    ghost var stops: seq<Option<nat>>

    ghost function View(): State
      reads this
    {
      State(now, taskTimer, taskPollInFlight, tasksBusy, taskLoopEnabled, idlePollMs, nextTaskPollMs, taskPollFailures,
            taskBackoffUntil, armed, polls, ready, nextId, started, stops)
    }

    ghost predicate Valid()
      reads this
    {
      Reachable(View())
    }

    constructor (now: int)
      requires now >= 0
      ensures Valid() && View() == Init(now)
    {
      this.now := now;
      taskTimer, taskPollInFlight, tasksBusy, taskLoopEnabled := None, None, false, false;
      idlePollMs, nextTaskPollMs, taskPollFailures, taskBackoffUntil := 30_000, 30_000, 0, 0;
      armed, polls, ready, nextId, started, stops := map[], map[], 0, 0, false, [];
      new;
      assert Run(Init(now), []) == Some(View());
    }

    /** What holds of the object between any two of its handlers. */
    lemma AlwaysOne()
      requires Valid()
      ensures |armed| <= 1 && (forall id :: id in armed ==> taskTimer == Some(id))
      ensures |polls| <= 1 && (forall id :: id in polls ==> taskPollInFlight == Some(id))
      ensures taskLoopEnabled ==> armed != map[] || ready > 0 || polls != map[]
    {
      NeverDoublesNeverDies(View());
    }

    // ----- parts of handlers -----

    method ClearTaskTimer()
      modifies this`armed
      ensures View() == ClearTimer(old(View()))
    {
      if taskTimer.Some? { armed := armed - {taskTimer.value}; }
    }

    /** Clears the pending timer, if any, and arms a new one. */
    method ScheduleTaskPoll()
      modifies this
      ensures View() == Schedule(old(View()))
    {
      if !taskLoopEnabled { return; }
      ClearTaskTimer();
      taskTimer := Some(nextId);
      armed := armed[nextId := now + nextTaskPollMs];
      nextId := nextId + 1;
    }

    /** Up to its first await: leave a poll in flight alone, skip, or send a request. */
    method RunPoll(registered: bool, capacity: bool) returns (issued: bool)
      modifies this
      ensures View() == RunTaskPoll(old(View()), registered, capacity)
      ensures issued <==> old(taskPollInFlight).None? && !old(tasksBusy) && registered && capacity
    {
      if taskPollInFlight.Some? {
        ready := ready + 1;
        return false;
      }
      issued := !tasksBusy && registered && capacity;
      if issued { tasksBusy := true; }
      polls := polls[nextId := if issued then Polling else Skipped];
      taskPollInFlight := Some(nextId);
      nextId := nextId + 1;
    }

    /** The `finally` of `pollAndProcess`. */
    method End(id: nat)
      modifies this
      ensures View() == Settle(old(View()), id)
    {
      tasksBusy := false;
      polls := polls[id := Settled];
    }

    // ----- the handlers: each is one step -----

    method StartTaskLoop(intervalMs: int)
      requires Valid() && Enabled(View(), StartLoop(intervalMs))
      modifies this
      ensures Valid() && View() == Next(old(View()), StartLoop(intervalMs))
      ensures taskLoopEnabled && idlePollMs == Max(5_000, intervalMs) && ArmedFor(View(), idlePollMs)
    {
      StepReachable(View(), StartLoop(intervalMs));
      StartArms(View(), intervalMs);
      taskLoopEnabled, started := true, true;
      idlePollMs := Max(5_000, intervalMs);
      nextTaskPollMs := idlePollMs;
      ScheduleTaskPoll();
    }

    /** A timer never leads to a request before the backoff deadline or beside another poll. */
    method OnTaskTimer(id: nat, registered: bool, capacity: bool) returns (issued: bool)
      requires Valid() && Enabled(View(), TimerFires(id, registered, capacity))
      modifies this
      ensures Valid() && View() == Next(old(View()), TimerFires(id, registered, capacity))
      ensures armed == map[]
      ensures issued ==> now >= taskBackoffUntil && old(polls) == map[] && taskLoopEnabled
      ensures issued <==> old(polls) == map[] && registered && capacity
      ensures issued ==> polls.Values == {Polling}
    {
      var e := TimerFires(id, registered, capacity);
      PollsWhenDue(View(), e);
      StepReachable(View(), e);
      NeverDoublesNeverDies(View());
      ReachableInv(View());
      armed := armed - {id};
      taskTimer := None;
      issued := RunPoll(registered, capacity);
    }

    /** Neither does a wake-up; during the backoff it does nothing at all. */
    method WakeTaskLoop(registered: bool, capacity: bool) returns (issued: bool)
      requires Valid()
      modifies this
      ensures Valid() && View() == Next(old(View()), Wake(registered, capacity))
      ensures issued ==> now >= taskBackoffUntil && old(polls) == map[] && taskLoopEnabled
      ensures now < taskBackoffUntil ==> View() == old(View())
      ensures taskLoopEnabled && now >= taskBackoffUntil ==> (issued <==> old(polls) == map[] && registered && capacity)
      ensures taskLoopEnabled && now >= taskBackoffUntil ==> armed == map[]
    {
      StepReachable(View(), Wake(registered, capacity));
      NeverDoublesNeverDies(View());
      ReachableInv(View());
      if !taskLoopEnabled || now < taskBackoffUntil { return false; }
      ClearTaskTimer();
      taskTimer := None;
      issued := RunPoll(registered, capacity);
    }

    /** The platform answered; `hasTask` says whether it handed out a task. */
    method OnAnswer(id: nat, hasTask: bool)
      requires Valid() && Enabled(View(), Answer(id, hasTask))
      modifies this
      ensures Valid() && View() == Next(old(View()), Answer(id, hasTask))
      ensures nextTaskPollMs == (if hasTask then 5_000 else idlePollMs) && taskPollFailures == 0
      ensures polls == old(polls)[id := if hasTask then Working else Settled] && tasksBusy == (old(tasksBusy) && hasTask)
      ensures idlePollMs == old(idlePollMs) && taskBackoffUntil == old(taskBackoffUntil) && armed == old(armed)
    {
      StepReachable(View(), Answer(id, hasTask));
      taskPollFailures, nextTaskPollMs := 0, idlePollMs;
      if !hasTask {
        End(id);
        return;
      }
      nextTaskPollMs := 5_000;
      polls := polls[id := Working];
    }

    method OnTaskDone(id: nat)
      requires Valid() && Enabled(View(), Finish(id))
      modifies this
      ensures Valid() && View() == Next(old(View()), Finish(id))
      ensures nextTaskPollMs == old(nextTaskPollMs) && polls == old(polls)[id := Settled] && !tasksBusy
    {
      StepReachable(View(), Finish(id));
      End(id);
    }

    /** A failure of local inference is no outage: the idle interval, and no backoff. */
    method OnInferenceFailure(id: nat)
      requires Valid() && Enabled(View(), FailInference(id))
      modifies this
      ensures Valid() && View() == Next(old(View()), FailInference(id))
      ensures nextTaskPollMs == idlePollMs == old(idlePollMs) && taskBackoffUntil == 0
      ensures taskPollFailures == old(taskPollFailures) && polls == old(polls)[id := Settled] && !tasksBusy
    {
      StepReachable(View(), FailInference(id));
      nextTaskPollMs, taskBackoffUntil := idlePollMs, 0;
      End(id);
    }

    /** Any other failure doubles the delay up to its cap, unless Retry-After asks for more, and holds wake-ups off. */
    method OnOutage(id: nat, retryAfterMs: Option<int>, t1: int, t2: int, t3: int)
      requires Valid() && Enabled(View(), FailOutage(id, retryAfterMs, t1, t2, t3))
      modifies this
      ensures Valid() && View() == Next(old(View()), FailOutage(id, retryAfterMs, t1, t2, t3))
      ensures taskBackoffUntil == now + nextTaskPollMs
      ensures Min(60_000 * Pow2(old(taskPollFailures)), 300_000) <= nextTaskPollMs <= 900_000
      ensures retryAfterMs.None? || retryAfterMs.value <= 0 ==>
                nextTaskPollMs == Min(60_000 * Pow2(old(taskPollFailures)), 300_000)
      ensures retryAfterMs.Some? && retryAfterMs.value > 0 ==>
                nextTaskPollMs == Max(Min(60_000 * Pow2(old(taskPollFailures)), 300_000),
                                      t1 + Min(retryAfterMs.value, 900_000) - t2)
      ensures retryAfterMs.Some? && retryAfterMs.value > 0 ==>
                taskBackoffUntil >= t1 + Min(retryAfterMs.value, 900_000)
      ensures taskPollFailures == old(taskPollFailures) + 1 && polls == old(polls)[id := Settled] && !tasksBusy
    {
      StepReachable(View(), FailOutage(id, retryAfterMs, t1, t2, t3));
      ReachableInv(View());
      OutageDelay(View(), id, retryAfterMs, t1, t2, t3);
      FailedPoll(id, retryAfterMs, t1, t2, t3);
    }

    /** The statements of the catch branch after the inference case, and the `finally`. */
    method FailedPoll(id: nat, retryAfterMs: Option<int>, t1: int, t2: int, t3: int)
      modifies this
      ensures View() == Outage(old(View()), id, retryAfterMs, t1, t2, t3)
    {
      if retryAfterMs.Some? && retryAfterMs.value > 0 {
        taskBackoffUntil := t1 + Min(retryAfterMs.value, RETRY_AFTER_CAP);
      }
      taskPollFailures := taskPollFailures + 1;
      nextTaskPollMs := Max(Min(MINUTE * Pow2(Min(taskPollFailures - 1, 3)), BACKOFF_CAP), taskBackoffUntil - t2);
      taskBackoffUntil := t3 + nextTaskPollMs;
      now := t3;
      End(id);
    }

    /** The continuation of `runTaskPoll`: the slot is cleared only by the poll in it, which is always this one. */
    method OnPollSettled(id: nat)
      requires Valid() && Enabled(View(), Release(id))
      modifies this
      ensures Valid() && View() == Next(old(View()), Release(id))
      ensures taskPollInFlight.None? && polls == map[] && ready == old(ready) + 1
    {
      StepReachable(View(), Release(id));
      SettledIsAlone(View(), id);
      polls := polls - {id};
      if taskPollInFlight == Some(id) { taskPollInFlight := None; }
      ready := ready + 1;
    }

    /** The continuation of a caller of `runTaskPoll`: never two timers, and none once stopped. */
    method OnCallerResumes()
      requires Valid() && Enabled(View(), Reschedule)
      modifies this
      ensures Valid() && View() == Next(old(View()), Reschedule)
      ensures if taskLoopEnabled then |armed| == 1 && ArmedFor(View(), nextTaskPollMs) else armed == map[]
      ensures ready == old(ready) - 1 && nextTaskPollMs == old(nextTaskPollMs)
    {
      StepReachable(View(), Reschedule);
      ReachableInv(View());
      ready := ready - 1;
      ScheduleTaskPoll();
      assert taskLoopEnabled ==> armed.Keys == {taskTimer.value};
      assert |armed| == |armed.Keys|;
    }

    /** Returns the poll the caller then waits for: whatever is under way; nothing is armed any more. */
    method StopLoop() returns (awaits: Option<nat>)
      requires Valid()
      modifies this
      ensures Valid() && View() == Next(old(View()), Stop) && stops == old(stops) + [awaits]
      ensures armed == map[] && !taskLoopEnabled && taskTimer.None?
      ensures polls == old(polls) && forall id :: id in polls ==> awaits == Some(id)
    {
      StepReachable(View(), Stop);
      NeverDoublesNeverDies(View());
      ReachableInv(View());
      taskLoopEnabled := false;
      ClearTaskTimer();
      taskTimer := None;
      awaits := taskPollInFlight;
      stops := stops + [awaits];
    }
  }
}
