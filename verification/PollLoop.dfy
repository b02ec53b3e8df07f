/**
 The worker poll loop as steps of an event loop: a timer slot and the armed timers, a slot for the poll in flight and
 the polls under way, wake-ups from outside, exponential backoff and Retry-After. Times are milliseconds.
 */
module PollLoop {
  import opened Common

  /** How far a call of `pollAndProcess` is: nothing to do; waiting for the platform; working on a task; over. */
  datatype Stage = Skipped | Polling | Working | Settled

  datatype State = State(
    now: int,
    // fields of the object
    taskTimer: Option<nat>, inFlight: Option<nat>, tasksBusy: bool, enabled: bool,
    idlePollMs: int, nextPollMs: int, failures: nat, backoffUntil: int,
    // the event loop: armed timers with their due times, polls whose caller has not resumed, callers about to reschedule
    armed: map<nat, int>, polls: map<nat, Stage>, ready: nat,
    // history
    nextId: nat, started: bool, stops: seq<Option<nat>>)

  datatype Event =
    | Advance(to: int)
    | StartLoop(intervalMs: int)
    | TimerFires(id: nat, registered: bool, capacity: bool)
    | Wake(registered: bool, capacity: bool)
    | Answer(id: nat, hasTask: bool)
    | Finish(id: nat)
    | FailOutage(id: nat, retryAfterMs: Option<int>, t1: int, t2: int, t3: int)
    | FailInference(id: nat)
    | Release(id: nat)
    | Reschedule
    | Stop

  const MINUTE := 60_000
  const BACKOFF_CAP := 300_000
  const RETRY_AFTER_CAP := 900_000

  function Pow2(n: nat): (p: nat)
    ensures p >= 1
  {
    if n == 0 then 1 else 2 * Pow2(n - 1)
  }

  /** The delay the code computes for the given failure count, before Retry-After is considered. */
  function CodedDelay(failures: nat): int
    requires failures > 0
  {
    Min(MINUTE * Pow2(Min(failures - 1, 3)), BACKOFF_CAP)
  }

  function Init(now: int): State {
    State(now, None, None, false, false, 30_000, 30_000, 0, 0, map[], map[], 0, 0, false, [])
  }

  /** The poll has taken the busy mark and not given it back. */
  predicate Busy(s: State, id: nat) { id in s.polls && s.polls[id] in {Polling, Working} }

  predicate Running(s: State) { exists id :: id in s.polls && Busy(s, id) }

  /** No continuation is waiting to run, so the event loop may turn to timers. */
  predicate Drained(s: State) {
    s.ready == 0 && forall id :: id in s.polls ==> Busy(s, id)
  }

  predicate Enabled(s: State, e: Event) {
    match e
    case Advance(to) => s.now <= to
    case StartLoop(_) => !s.started && s.stops == []
    case TimerFires(id, _, _) => id in s.armed && s.armed[id] <= s.now && Drained(s)
    case Wake(_, _) => true
    case Answer(id, _) => id in s.polls && s.polls[id].Polling?
    case Finish(id) => id in s.polls && s.polls[id].Working?
    case FailOutage(id, _, t1, t2, t3) => Busy(s, id) && s.now <= t1 <= t2 <= t3
    case FailInference(id) => id in s.polls && s.polls[id].Working?
    case Release(id) => id in s.polls && !Busy(s, id)
    case Reschedule => s.ready > 0
    case Stop => true
  }

  function ClearTimer(s: State): State {
    s.(armed := if s.taskTimer.Some? then s.armed - {s.taskTimer.value} else s.armed)
  }

  /** `scheduleTaskPoll` */
  function Schedule(s: State): State {
    if !s.enabled then s
    else
      var c := ClearTimer(s);
      c.(armed := c.armed[s.nextId := s.now + s.nextPollMs], taskTimer := Some(s.nextId), nextId := s.nextId + 1)
  }

  /** `runTaskPoll` up to its first await; a caller that finds a poll in flight goes straight on to reschedule. */
  function RunTaskPoll(s: State, registered: bool, capacity: bool): State {
    if s.inFlight.Some? then s.(ready := s.ready + 1)
    else
      var skips := s.tasksBusy || !registered || !capacity;
      s.(polls := s.polls[s.nextId := if skips then Skipped else Polling], inFlight := Some(s.nextId),
         tasksBusy := s.tasksBusy || !skips, nextId := s.nextId + 1)
  }

  function Settle(s: State, id: nat): State {
    s.(polls := s.polls[id := Settled], tasksBusy := false)
  }

  /** The failure path outside inference; the three readings of the clock may differ. */
  function Outage(s: State, id: nat, retryAfterMs: Option<int>, t1: int, t2: int, t3: int): State {
    var until := if retryAfterMs.Some? && retryAfterMs.value > 0 then t1 + Min(retryAfterMs.value, RETRY_AFTER_CAP)
                 else s.backoffUntil;
    var next := Max(CodedDelay(s.failures + 1), until - t2);
    Settle(s, id).(failures := s.failures + 1, nextPollMs := next, backoffUntil := t3 + next, now := t3)
  }

  function Next(s: State, e: Event): State
    requires Enabled(s, e)
  {
    match e
    case Advance(to) => s.(now := to)
    case StartLoop(intervalMs) =>
      var idle := Max(5_000, intervalMs);
      Schedule(s.(enabled := true, started := true, idlePollMs := idle, nextPollMs := idle))
    case TimerFires(id, registered, capacity) =>
      RunTaskPoll(s.(armed := s.armed - {id}, taskTimer := None), registered, capacity)
    case Wake(registered, capacity) =>
      if !s.enabled || s.now < s.backoffUntil then s
      else RunTaskPoll(ClearTimer(s).(taskTimer := None), registered, capacity)
    case Answer(id, hasTask) =>
      var t := s.(failures := 0, nextPollMs := s.idlePollMs);
      if hasTask then t.(nextPollMs := 5_000, polls := s.polls[id := Working]) else Settle(t, id)
    case Finish(id) => Settle(s, id)
    case FailOutage(id, retryAfterMs, t1, t2, t3) => Outage(s, id, retryAfterMs, t1, t2, t3)
    case FailInference(id) => Settle(s, id).(nextPollMs := s.idlePollMs, backoffUntil := 0)
    case Release(id) =>
      s.(polls := s.polls - {id}, inFlight := if s.inFlight == Some(id) then None else s.inFlight, ready := s.ready + 1)
    case Reschedule => Schedule(s.(ready := s.ready - 1))
    case Stop =>
      ClearTimer(s).(enabled := false, taskTimer := None,
                     stops := s.stops + [s.inFlight])
  }

  function Run(s: State, es: seq<Event>): Option<State> {
    if es == [] then Some(s)
    else
      var before := Run(s, es[..|es| - 1]);
      if before.Some? && Enabled(before.value, es[|es| - 1]) then Some(Next(before.value, es[|es| - 1])) else None
  }

  ghost predicate Reachable(s: State) {
    exists start, es :: start >= 0 && Run(Init(start), es) == Some(s)
  }

  // ----- the invariant -----

  predicate TimersMatch(s: State) {
    && s.armed.Keys == (if s.taskTimer.Some? then {s.taskTimer.value} else {})
    && (!s.enabled ==> s.taskTimer.None?)
  }

  /** The poll under way, if any, is the one in the slot. */
  predicate PollsMatch(s: State) {
    s.polls.Keys == (if s.inFlight.Some? then {s.inFlight.value} else {})
  }

  predicate Alive(s: State) {
    s.enabled ==> s.taskTimer.Some? || s.ready > 0 || s.inFlight.Some?
  }

  predicate BackoffInv(s: State) {
    && s.now >= 0 && s.nextPollMs > 0 && s.idlePollMs > 0
    && s.backoffUntil <= s.now + s.nextPollMs
    && (!s.started ==> s.backoffUntil <= s.now)
    && (Running(s) ==> s.backoffUntil <= s.now)
    && (s.taskTimer.Some? && Drained(s) ==> s.taskTimer.value in s.armed && s.armed[s.taskTimer.value] >= s.backoffUntil)
  }

  predicate StopInv(s: State) {
    && (s.tasksBusy <==> Running(s))
    && (s.enabled ==> s.started && s.stops == [])
    && (s.inFlight.Some? ==> s.started && s.inFlight.value < s.nextId)
    && (forall i, id :: 0 <= i < |s.stops| && id in s.polls && Busy(s, id) ==> s.stops[i] == Some(id))
  }

  predicate Inv(s: State) { TimersMatch(s) && PollsMatch(s) && Alive(s) && BackoffInv(s) && StopInv(s) }

  lemma TimerStep(s: State, e: Event)
    requires Inv(s) && Enabled(s, e) && (e.TimerFires? || e.Wake? || e.StartLoop? || e.Reschedule?)
    ensures Inv(Next(s, e))
  {
  }

  lemma AnswerStep(s: State, e: Event)
    requires Inv(s) && Enabled(s, e) && e.Answer?
    ensures Inv(Next(s, e))
  {
  }

  lemma OutcomeStep(s: State, e: Event)
    requires Inv(s) && Enabled(s, e) && (e.Finish? || e.FailInference?)
    ensures Inv(Next(s, e))
  {
  }

  lemma OutageStep(s: State, e: Event)
    requires Inv(s) && Enabled(s, e) && e.FailOutage?
    ensures Inv(Next(s, e))
  {
    CodedDelayPositive(s.failures + 1);
  }

  lemma QuietStep(s: State, e: Event)
    requires Inv(s) && Enabled(s, e) && (e.Advance? || e.Release? || e.Stop?)
    ensures Inv(Next(s, e))
  {
  }

  lemma StepInv(s: State, e: Event)
    requires Inv(s) && Enabled(s, e)
    ensures Inv(Next(s, e))
  {
    if e.TimerFires? || e.Wake? || e.StartLoop? || e.Reschedule? {
      TimerStep(s, e);
    } else if e.Answer? {
      AnswerStep(s, e);
    } else if e.Finish? || e.FailInference? {
      OutcomeStep(s, e);
    } else if e.FailOutage? {
      OutageStep(s, e);
    } else {
      QuietStep(s, e);
    }
  }

  lemma CodedDelayPositive(n: nat)
    requires n > 0
    ensures 0 < CodedDelay(n) <= BACKOFF_CAP
  {
  }

  lemma {:induction false} RunInv(start: int, es: seq<Event>)
    requires start >= 0 && Run(Init(start), es).Some?
    ensures Inv(Run(Init(start), es).value)
  {
    if es == [] {
    } else {
      RunInv(start, es[..|es| - 1]);
      StepInv(Run(Init(start), es[..|es| - 1]).value, es[|es| - 1]);
    }
  }

  lemma ReachableInv(s: State)
    requires Reachable(s)
    ensures Inv(s)
  {
    var start, es :| start >= 0 && Run(Init(start), es) == Some(s);
    RunInv(start, es);
  }

  // ----- what is promised -----

  /** The step takes a request to the platform. */
  predicate IssuesPoll(s: State, e: Event)
    requires Enabled(s, e)
  {
    exists id :: id in Next(s, e).polls && Next(s, e).polls[id].Polling? && id !in s.polls
  }

  /** In every interleaving: no poll is issued before the backoff deadline, and none while another is in flight. */
  lemma BackoffHonoured(s: State, e: Event)
    requires Reachable(s) && Enabled(s, e) && IssuesPoll(s, e)
    ensures s.now >= s.backoffUntil && s.polls == map[] && s.enabled
  {
    ReachableInv(s);
  }

  lemma StepReachable(s: State, e: Event)
    requires Reachable(s) && Enabled(s, e)
    ensures Reachable(Next(s, e))
  {
    var start, es :| start >= 0 && Run(Init(start), es) == Some(s);
    assert (es + [e])[..|es + [e]| - 1] == es;
    assert Run(Init(start), es + [e]) == Some(Next(s, e));
  }

  /** The whole window: from a moment with no poll running until the deadline known then, no run of events polls. */
  lemma {:induction false} BackoffWindow(s: State, es: seq<Event>)
    requires Reachable(s) && !Running(s) && Run(s, es).Some? && Run(s, es).value.now < s.backoffUntil
    ensures var t := Run(s, es).value; Reachable(t) && !Running(t) && t.backoffUntil == s.backoffUntil
  {
    if es == [] {
    } else {
      var u, e := Run(s, es[..|es| - 1]).value, es[|es| - 1];
      ClockNeverBack(u, e);
      BackoffWindow(s, es[..|es| - 1]);
      ReachableInv(u);
      StepReachable(u, e);
    }
  }

  lemma ClockNeverBack(s: State, e: Event)
    requires Enabled(s, e)
    ensures Next(s, e).now >= s.now
  {
  }

  /**
   The loop never doubles and never dies: at most one armed timer, the one in the slot; at most one poll, the one in
   the slot, so that a returning poll always finds itself there; while enabled somebody goes on.
   */
  lemma NeverDoublesNeverDies(s: State)
    requires Reachable(s)
    ensures |s.armed| <= 1 && (forall id :: id in s.armed ==> s.taskTimer == Some(id))
    ensures |s.polls| <= 1 && (forall id :: id in s.polls ==> s.inFlight == Some(id))
    ensures s.inFlight.Some? ==> s.inFlight.value in s.polls
    ensures s.enabled ==> s.armed != map[] || s.ready > 0 || s.polls != map[]
  {
    ReachableInv(s);
    if s.inFlight.Some? {
      assert |s.polls.Keys| == 1;
      assert s.inFlight.value in s.polls;
    }
    if s.taskTimer.Some? {
      assert |s.armed.Keys| == 1;
      assert s.taskTimer.value in s.armed;
    }
  }

  /** The one armed timer is due after `delay`. */
  predicate ArmedFor(s: State, delay: int) {
    s.taskTimer.Some? && s.armed.Keys == {s.taskTimer.value} && s.armed[s.taskTimer.value] == s.now + delay
  }

  /** Starting the loop arms the one timer, for the idle interval. */
  lemma StartArms(s: State, intervalMs: int)
    requires Reachable(s) && Enabled(s, StartLoop(intervalMs))
    ensures var t := Next(s, StartLoop(intervalMs));
            ArmedFor(t, t.idlePollMs)
  {
    ReachableInv(s);
  }

  // ----- when the next poll comes -----

  /** A poll that is over, its slot released, and its caller rescheduling: the one timer is armed for the delay left. */
  function Resume(s: State, id: nat): State
    requires Enabled(s, Release(id))
  {
    Next(Next(s, Release(id)), Reschedule)
  }

  lemma ResumeArms(s: State, id: nat)
    requires Reachable(s) && Enabled(s, Release(id))
    ensures if s.enabled then ArmedFor(Resume(s, id), s.nextPollMs) else Resume(s, id).armed == map[]
  {
    ReachableInv(s);
    assert s.armed.Keys == (if s.taskTimer.Some? then {s.taskTimer.value} else {});
  }

  /** The platform had no task: the next poll comes after the idle interval. */
  lemma IdleAfterNoTask(s: State, id: nat)
    requires Reachable(s) && s.enabled && Enabled(s, Answer(id, false))
    ensures var t := Next(s, Answer(id, false));
            Enabled(t, Release(id)) && ArmedFor(Resume(t, id), s.idlePollMs) && Resume(t, id).failures == 0
  {
    StepReachable(s, Answer(id, false));
    ResumeArms(Next(s, Answer(id, false)), id);
  }

  /** The platform had a task: once it is done, whatever happened meanwhile, the next poll comes after five seconds. */
  lemma SoonAfterTask(s: State, id: nat, es: seq<Event>)
    requires Reachable(s) && Enabled(s, Answer(id, true))
    requires Meanwhile(es)
    requires var r := Run(Next(s, Answer(id, true)), es); r.Some? && r.value.enabled && Enabled(r.value, Finish(id))
    ensures var u := Next(Run(Next(s, Answer(id, true)), es).value, Finish(id));
            Enabled(u, Release(id)) && ArmedFor(Resume(u, id), 5_000)
  {
    var t := Next(s, Answer(id, true));
    StepReachable(s, Answer(id, true));
    MeanwhileKeeps(t, es);
    var v := Run(t, es).value;
    StepReachable(v, Finish(id));
    ResumeArms(Next(v, Finish(id)), id);
  }

  /** What can happen while a task is worked on: the clock, timers, wake-ups, rescheduling callers and `stop`. */
  predicate Meanwhile(es: seq<Event>) {
    forall i :: 0 <= i < |es| ==> es[i].Advance? || es[i].TimerFires? || es[i].Wake? || es[i].Reschedule? || es[i].Stop?
  }

  lemma {:induction false} MeanwhileKeeps(s: State, es: seq<Event>)
    requires Reachable(s) && Meanwhile(es) && Run(s, es).Some?
    ensures Reachable(Run(s, es).value) && Run(s, es).value.nextPollMs == s.nextPollMs
  {
    if es == [] {
    } else {
      var init, e := es[..|es| - 1], es[|es| - 1];
      assert Meanwhile(init) && Meanwhile([e]);
      MeanwhileKeeps(s, init);
      StepReachable(Run(s, init).value, e);
      QuietDelay(Run(s, init).value, e);
    }
  }

  lemma QuietDelay(s: State, e: Event)
    requires Enabled(s, e) && Meanwhile([e])
    ensures Next(s, e).nextPollMs == s.nextPollMs
  {
    assert [e][0] == e;
  }

  /** Local inference failed: the idle interval again, and no backoff. */
  lemma IdleAfterInference(s: State, id: nat)
    requires Reachable(s) && s.enabled && Enabled(s, FailInference(id))
    ensures var t := Next(s, FailInference(id));
            && Enabled(t, Release(id)) && ArmedFor(Resume(t, id), s.idlePollMs)
            && t.backoffUntil <= t.now && t.failures == s.failures
  {
    ReachableInv(s);
    StepReachable(s, FailInference(id));
    ResumeArms(Next(s, FailInference(id)), id);
  }

  /** An outage: the timer is armed for the end of the backoff. */
  lemma BackoffAfterOutage(s: State, id: nat, retryAfterMs: Option<int>, t1: int, t2: int, t3: int)
    requires Reachable(s) && s.enabled && Enabled(s, FailOutage(id, retryAfterMs, t1, t2, t3))
    ensures var t := Next(s, FailOutage(id, retryAfterMs, t1, t2, t3));
            && Enabled(t, Release(id)) && ArmedFor(Resume(t, id), t.nextPollMs)
            && t.backoffUntil == Resume(t, id).now + t.nextPollMs
  {
    var e := FailOutage(id, retryAfterMs, t1, t2, t3);
    StepReachable(s, e);
    ResumeArms(Next(s, e), id);
  }

  /** A timer that is due, or a wake-up after the backoff, does poll: unless a poll is under way or the node cannot work. */
  lemma PollsWhenDue(s: State, e: Event)
    requires Reachable(s) && Enabled(s, e)
    requires e.TimerFires? || (e.Wake? && s.enabled && s.now >= s.backoffUntil)
    ensures IssuesPoll(s, e) <==> s.polls == map[] && e.registered && e.capacity
  {
    ReachableInv(s);
    if s.inFlight.None? {
      assert s.polls == map[];
      assert !s.tasksBusy;
      if e.registered && e.capacity {
        assert s.nextId in Next(s, e).polls && Next(s, e).polls[s.nextId].Polling?;
      }
    } else {
      assert s.inFlight.value in s.polls;
    }
  }

  predicate Stopped(s: State) { s.started && s.stops != [] }

  /** Once stopped, always stopped: no timer is armed, now or after any further step, and no poll is ever issued. */
  lemma QuietAfterStop(s: State, e: Event)
    requires Reachable(s) && Stopped(s)
    ensures s.armed == map[] && !s.enabled
    ensures Enabled(s, e) ==> Stopped(Next(s, e)) && Next(s, e).armed == map[] && !IssuesPoll(s, e)
  {
    ReachableInv(s);
    if Enabled(s, e) {
      StepInv(s, e);
      assert Next(s, e).armed.Keys == {};
    }
  }

  /** The promise returned by the i-th `stop` can resolve: the poll it found in flight, if any, is over. */
  predicate StopResolves(s: State, i: nat)
    requires i < |s.stops|
  {
    s.stops[i].None? || !Busy(s, s.stops[i].value)
  }

  /** `stop` resolves only after the poll in flight has ended, whichever call of `stop` it is. */
  lemma StopWaits(s: State, i: nat)
    requires Reachable(s) && i < |s.stops| && StopResolves(s, i)
    ensures !Running(s)
  {
    ReachableInv(s);
  }

  /** The poll whose caller resumes is the one in the slot, and there is no other. */
  lemma SettledIsAlone(s: State, id: nat)
    requires Reachable(s) && Enabled(s, Release(id))
    ensures s.inFlight == Some(id) && s.polls - {id} == map[]
  {
    ReachableInv(s);
    assert s.polls.Keys == {id};
  }

  // ----- exact delays -----

  /** Consecutive outage failures at the end of the record; a poll answered by the platform ends the streak. */
  function Streak(es: seq<Event>): nat {
    if es == [] then 0
    else
      match es[|es| - 1]
      case FailOutage(_, _, _, _, _) => Streak(es[..|es| - 1]) + 1
      case Answer(_, _) => 0
      case _ => Streak(es[..|es| - 1])
  }

  lemma StepFailures(s: State, e: Event)
    requires Enabled(s, e)
    ensures Next(s, e).failures == if e.FailOutage? then s.failures + 1 else if e.Answer? then 0 else s.failures
  {
  }

  lemma {:induction false} FailuresAreStreak(start: int, es: seq<Event>)
    requires Run(Init(start), es).Some?
    ensures Run(Init(start), es).value.failures == Streak(es)
  {
    if es == [] {
    } else {
      FailuresAreStreak(start, es[..|es| - 1]);
      StepFailures(Run(Init(start), es[..|es| - 1]).value, es[|es| - 1]);
    }
  }

  lemma {:induction false} Pow2Grows(a: nat, b: nat)
    requires a <= b
    ensures Pow2(a) <= Pow2(b)
  {
    if a == b {
    } else {
      Pow2Grows(a, b - 1);
    }
  }

  /** Capping the exponent at 3 is the same as not capping it, because 60 s times 8 is above the 300 s cap. */
  lemma CappedExponent(n: nat)
    requires n > 0
    ensures CodedDelay(n) == Min(60_000 * Pow2(n - 1), 300_000)
  {
    if n > 4 {
      Pow2Grows(3, n - 1);
      assert Pow2(3) == 8;
    }
  }

  lemma StreakGoesOn(start: int, es: seq<Event>, e: Event)
    requires Run(Init(start), es).Some? && e.FailOutage?
    ensures Streak(es + [e]) == Run(Init(start), es).value.failures + 1
  {
    FailuresAreStreak(start, es);
    assert (es + [e])[..|es + [e]| - 1] == es;
  }

  /**
   The delay chosen at the failure: `exact` without Retry-After; with it, read at `t1` and cut to 15 minutes, what is left
   of it at `t2` if that is more.
   */
  predicate Delayed(t: State, exact: int, retryAfterMs: Option<int>, t1: int, t2: int) {
    && t.backoffUntil == t.now + t.nextPollMs
    && exact <= t.nextPollMs <= 900_000
    && if retryAfterMs.None? || retryAfterMs.value <= 0 then t.nextPollMs == exact
       else
         && t.nextPollMs == Max(exact, t1 + Min(retryAfterMs.value, 900_000) - t2)
         && t.backoffUntil >= t1 + Min(retryAfterMs.value, 900_000)
  }

  /**
   After any run, the n-th consecutive outage failure without Retry-After delays the next poll by exactly
   min(60 s * 2^(n-1), 300 s); with Retry-After the delay is at least that and never above 15 minutes.
   */
  lemma ExactDelay(
    start: int, es: seq<Event>, s: State, id: nat, retryAfterMs: Option<int>, t1: int, t2: int, t3: int)
    requires start >= 0 && Run(Init(start), es) == Some(s) && Enabled(s, FailOutage(id, retryAfterMs, t1, t2, t3))
    ensures var e := FailOutage(id, retryAfterMs, t1, t2, t3);
            var n := Streak(es + [e]);
            n > 0 && Delayed(Next(s, e), Min(60_000 * Pow2(n - 1), 300_000), retryAfterMs, t1, t2)
  {
    RunInv(start, es);
    StreakGoesOn(start, es, FailOutage(id, retryAfterMs, t1, t2, t3));
    OutageDelay(s, id, retryAfterMs, t1, t2, t3);
  }

  lemma OutageDelay(s: State, id: nat, retryAfterMs: Option<int>, t1: int, t2: int, t3: int)
    requires Inv(s) && Enabled(s, FailOutage(id, retryAfterMs, t1, t2, t3))
    ensures var t := Outage(s, id, retryAfterMs, t1, t2, t3);
            Delayed(t, Min(60_000 * Pow2(s.failures), 300_000), retryAfterMs, t1, t2)
  {
    CappedExponent(s.failures + 1);
    CodedDelayPositive(s.failures + 1);
  }
}
