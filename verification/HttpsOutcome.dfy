/**
 How a worker ends: the status it leaves in memory and on disk, read from the files and from what went before, and what
 happens when the world does as asked.
 */
module HttpsOutcome {
  import opened Common
  import opened Caddyfile
  import opened HttpsProtocol
  import opened HttpsSafety

  // ----- the status at the end -----

  /** Verified means: persisted as such, and no backup left. */
  predicate VerifiedEnd(t: Sys) {
    t.mem.mode == Verified && t.disk.status == Some(t.mem) && t.disk.backup.None?
  }

  /**
   The end of an attempt for `domain` that started from status `before` over the Caddyfile `original`. It failed with an
   old set-up to fall back on exactly if the old status named a domain and the old file was there and `read`.
   */
  predicate ConfigureEnd(
    t: Sys, before: Status, domain: Option<string>, deadline: Option<real>, original: Option<string>, wanted: string,
    read: bool)
  {
    match t.mem.mode
    case Verified =>
      && VerifiedEnd(t) && t.disk.target == Some(wanted)
      && t.mem.domain == domain && t.mem.retryAfter == deadline
    case VerificationRequired =>
      && before.domain.Some? && original.Some?
      && t.mem == before.(mode := VerificationRequired, retryAfter := deadline)
    case Failed =>
      && t.mem.domain == domain && t.mem.retryAfter == deadline
      && (read ==> before.domain.None? || original.None?)
    case _ => false
  }

  /** The end of a recovery: confirmed with a Caddyfile in place, or failed. */
  predicate RecoverEnd(t: Sys, domain: Option<string>, deadline: Option<real>) {
    && t.mem.domain == domain && t.mem.retryAfter == deadline
    && match t.mem.mode
       case Verified => VerifiedEnd(t) && t.disk.target.Some?
       case Failed => true
       case _ => false
  }

  /**
   The last operation before a verified end only removes the backup: status and memory agree already. What an attempt
   read, if anything, is the old Caddyfile.
   */
  predicate DropInv(s: Sys) {
    && (s.worker.Configure? && s.worker.pc.DropBackup? ==> s.mem.mode == Verified && s.disk.status == Some(s.mem))
    && (s.worker.Recover? && s.worker.rpc.RDropBackup? ==> s.mem.mode == Verified && s.disk.status == Some(s.mem))
    && (s.worker.Recover? && s.worker.rpc in {REnable, RPersist, RDropBackup} ==> s.disk.target.Some?)
    && (s.worker.Configure? && s.worker.c.previous.Some? ==> s.worker.c.previous == ReadOpt(s.history.original))
  }

  lemma ConfigureDrop(s: Sys, o: Outcome)
    requires s.worker.Configure? && ConfigureInv(s) && DropInv(s)
    ensures DropInv(DoConfigure(s, o))
  {
  }

  lemma RecoverDrop(s: Sys, o: Outcome)
    requires s.worker.Recover? && DropInv(s)
    ensures DropInv(DoRecover(s, o))
  {
  }

  lemma StepDrop(s: Sys, e: Event)
    requires Inv(s) && DropInv(s) && Enabled(s, e)
    ensures DropInv(Next(s, e))
  {
    if e.Work? {
      if s.worker.Configure? { ConfigureDrop(s, e.o); } else { RecoverDrop(s, e.o); }
    }
  }

  lemma {:induction false} RunDrop(init: Sys, es: seq<Event>)
    requires Init(init) && Run(init, es).Some?
    ensures DropInv(Run(init, es).value)
  {
    if es == [] {
    } else {
      RunDrop(init, es[..|es| - 1]);
      RunInv(init, es[..|es| - 1]);
      StepDrop(Run(init, es[..|es| - 1]).value, es[|es| - 1]);
    }
  }

  /** The attempt has read the old Caddyfile. */
  predicate HasRead(s: Sys) {
    s.worker.Configure? && !s.worker.pc.Begin? && s.worker.c.previous == ReadOpt(s.history.original)
  }

  /** One step either goes on with the same attempt or ends it as stated. */
  predicate ConfigureGoesOn(s: Sys, t: Sys) {
    && s.worker.Configure? && t.worker.Configure? && t.worker.c.previousState == s.worker.c.previousState
    && t.mem.domain == s.mem.domain && t.mem.retryAfter == s.mem.retryAfter
    && t.history.original == s.history.original && t.history.wanted == s.history.wanted
    && (HasRead(s) ==> HasRead(t))
  }

  lemma ForwardEnds(s: Sys, o: Outcome)
    requires Inv(s) && DropInv(s) && s.worker.Configure?
    requires s.worker.pc in {Begin, Write, Validating, Reload, Probe, Enable, Persist, DropBackup}
    ensures var t := DoConfigure(s, o);
            if t.worker.Idle?
            then ConfigureEnd(t, s.worker.c.previousState, s.mem.domain, s.mem.retryAfter, s.history.original,
                              s.history.wanted, HasRead(s))
            else ConfigureGoesOn(s, t)
  {
  }

  lemma FinishEnds(s: Sys, o: Outcome)
    requires Inv(s) && DropInv(s) && s.worker.Configure? && s.worker.pc.Finish?
    ensures var t := DoConfigure(s, o);
            && t.worker.Idle?
            && ConfigureEnd(t, s.worker.c.previousState, s.mem.domain, s.mem.retryAfter, s.history.original,
                            s.history.wanted, HasRead(s))
  {
  }

  lemma BackwardEnds(s: Sys, o: Outcome)
    requires Inv(s) && DropInv(s) && s.worker.Configure? && s.worker.pc in {Rollback, Restart, Remove}
    ensures !DoConfigure(s, o).worker.Idle? && ConfigureGoesOn(s, DoConfigure(s, o))
  {
  }

  /** One step of an attempt either goes on with it or ends it as stated. */
  lemma ConfigureStepEnds(s: Sys, o: Outcome)
    requires Inv(s) && DropInv(s) && s.worker.Configure?
    ensures var t := DoConfigure(s, o);
            if t.worker.Idle?
            then ConfigureEnd(t, s.worker.c.previousState, s.mem.domain, s.mem.retryAfter, s.history.original,
                              s.history.wanted, HasRead(s))
            else ConfigureGoesOn(s, t)
  {
    if s.worker.pc.Finish? {
      FinishEnds(s, o);
    } else if s.worker.pc in {Rollback, Restart, Remove} {
      BackwardEnds(s, o);
    } else {
      ForwardEnds(s, o);
    }
  }

  lemma {:induction false} WorkOnEnds(s: Sys, os: seq<Outcome>)
    requires Inv(s) && DropInv(s) && s.up && s.worker.Configure? && |os| >= Rank(s.worker)
    ensures var t := WorkOn(s, os);
            t.worker.Idle? && ConfigureEnd(t, s.worker.c.previousState, s.mem.domain, s.mem.retryAfter,
                                           s.history.original, s.history.wanted, HasRead(s))
    decreases |os|
  {
    var next := Next(s, Work(os[0]));
    WorkRank(s, os[0]);
    StepInv(s, Work(os[0]));
    StepDrop(s, Work(os[0]));
    ConfigureStepEnds(s, os[0]);
    if next.worker.Idle? {
      assert WorkOn(next, os[1..]) == next;
    } else {
      WorkOnEnds(next, os[1..]);
    }
  }

  /**
   Over every run: an attempt left alone ends verified, with the new Caddyfile in place, that status persisted and no
   backup; or with the old status, to be verified again; or failed. Never verified with anything else on disk.
   */
  lemma ConfigureStatus(s: Sys, os: seq<Outcome>)
    requires Reachable(s) && s.up && s.worker.Configure? && |os| >= Rank(s.worker)
    ensures var t := WorkOn(s, os);
            t.worker.Idle? && ConfigureEnd(t, s.worker.c.previousState, s.mem.domain, s.mem.retryAfter,
                                           s.history.original, s.history.wanted, HasRead(s))
  {
    var init, es :| Init(init) && Run(init, es) == Some(s);
    RunInv(init, es);
    RunDrop(init, es);
    WorkOnEnds(s, os);
  }

  lemma RecoverStepEnds(s: Sys, o: Outcome)
    requires DropInv(s) && s.worker.Recover?
    ensures var t := DoRecover(s, o);
            if t.worker.Idle? then RecoverEnd(t, s.mem.domain, s.mem.retryAfter)
            else t.worker.Recover? && t.mem.domain == s.mem.domain && t.mem.retryAfter == s.mem.retryAfter
  {
  }

  lemma {:induction false} WorkOnRecovers(s: Sys, os: seq<Outcome>)
    requires Inv(s) && DropInv(s) && s.up && s.worker.Recover? && |os| >= Rank(s.worker)
    ensures var t := WorkOn(s, os); t.worker.Idle? && RecoverEnd(t, s.mem.domain, s.mem.retryAfter)
    decreases |os|
  {
    var next := Next(s, Work(os[0]));
    WorkRank(s, os[0]);
    StepInv(s, Work(os[0]));
    StepDrop(s, Work(os[0]));
    RecoverStepEnds(s, os[0]);
    if next.worker.Idle? {
      assert WorkOn(next, os[1..]) == next;
    } else {
      WorkOnRecovers(next, os[1..]);
    }
  }

  /** The same of recovery: verified with a Caddyfile in place, persisted and without backup, or failed. */
  lemma RecoverStatus(s: Sys, os: seq<Outcome>)
    requires Reachable(s) && s.up && s.worker.Recover? && |os| >= Rank(s.worker)
    ensures var t := WorkOn(s, os); t.worker.Idle? && RecoverEnd(t, s.mem.domain, s.mem.retryAfter)
  {
    var init, es :| Init(init) && Run(init, es) == Some(s);
    RunInv(init, es);
    RunDrop(init, es);
    WorkOnRecovers(s, os);
  }

  // ----- a world that does as asked -----

  predicate AllOk(os: seq<Outcome>) { forall i :: 0 <= i < |os| ==> os[i].ok }

  /** The attempt has got this far without a failure. */
  predicate OnTheWay(s: Sys) {
    && PortAllowed(s.port) && s.up && s.worker.Configure? && s.mem.domain.Some?
    && match s.worker.pc
       case Begin => true
       case Write => true
       case Validating => s.disk.target == Some(s.worker.c.text)
       case Reload => s.disk.target == Some(s.worker.c.text)
       case Probe => s.disk.target == Some(s.worker.c.text)
       case Enable => s.disk.target == Some(s.worker.c.text)
       case Persist => s.disk.target == Some(s.worker.c.text)
       case DropBackup =>
         s.disk.target == Some(s.worker.c.text) && s.mem.mode == Verified && s.disk.status == Some(s.mem)
       case _ => false
  }

  /** Operations left when nothing fails. */
  function Left(pc: ConfigurePc): nat {
    match pc
    case Begin => 8
    case Write => 7
    case Validating => 6
    case Reload => 5
    case Probe => 4
    case Enable => 3
    case Persist => 2
    case DropBackup => 1
    case _ => 0
  }

  lemma GoodStep(s: Sys, o: Outcome)
    requires OnTheWay(s) && o.ok
    ensures var t := DoConfigure(s, o);
            && t.history == s.history && t.port == s.port && t.up
            && if s.worker.pc.DropBackup?
               then t.worker.Idle? && VerifiedEnd(t) && t.disk.target == Some(s.worker.c.text)
               else OnTheWay(t) && t.worker.c.text == s.worker.c.text && Left(t.worker.pc) + 1 == Left(s.worker.pc)
  {
  }

  /**
   An operation that fails ends the way: nothing is loaded after a failed check, a failure of another kind than the
   retried ones gives up, and the rest goes round the probe loop.
   */
  lemma BadStep(s: Sys, o: Outcome)
    requires OnTheWay(s) && !o.ok
    ensures var t := DoConfigure(s, o);
            && t.worker.Configure? && t.disk.target == s.disk.target && t.disk.backup == s.disk.backup
            && t.history == s.history
            && (s.worker.pc in {Begin, Write, Validating, Reload} ==> t.worker.pc == Rollback)
            && (s.worker.pc in {Probe, Enable} ==> (t.worker.pc == Rollback <==> !o.retry || s.worker.c.tries >= 23))
            && (s.worker.pc in {Persist, DropBackup} ==> (t.worker.pc == Rollback <==> s.worker.c.tries >= 23))
            && (t.worker.pc != Rollback ==> t.worker.pc == Probe && t.worker.c.tries == s.worker.c.tries + 1)
            && (s.worker.pc != Persist ==> t.mem == s.mem && t.disk.status == s.disk.status)
  {
  }

  /** If every operation succeeds the attempt ends verified, with its configuration in place. */
  lemma {:induction false} AllOkVerifies(s: Sys, os: seq<Outcome>)
    requires OnTheWay(s) && AllOk(os) && |os| >= Left(s.worker.pc)
    ensures var t := WorkOn(s, os);
            t.worker.Idle? && VerifiedEnd(t) && t.disk.target == Some(s.worker.c.text) && t.history == s.history
    decreases |os|
  {
    var next := Next(s, Work(os[0]));
    GoodStep(s, os[0]);
    if next.worker.Idle? {
      assert WorkOn(next, os[1..]) == next;
    } else {
      assert AllOk(os[1..]);
      AllOkVerifies(next, os[1..]);
    }
  }

  predicate Retryable(o: Outcome) { !o.ok && o.retry }

  /** A probe that fails is repeated up to the 24th; that leads to the rollback. */
  lemma RetryStep(s: Sys, o: Outcome)
    requires OnTheWay(s) && s.worker.pc.Probe? && Retryable(o)
    ensures DoConfigure(s, o) == if s.worker.c.tries < 23
                                 then s.(worker := Configure(Probe, s.worker.c.(tries := s.worker.c.tries + 1)))
                                 else s.(worker := Configure(Rollback, s.worker.c))
  {
  }

  /** `n` probes that fail and can be repeated, then a world that does as asked: verified if `n` is below 24. */
  lemma {:induction false} LateProbeVerifies(s: Sys, n: nat, os: seq<Outcome>)
    requires OnTheWay(s) && s.worker.pc.Probe? && s.worker.c.tries + n < 24 && |os| >= n + 4
    requires (forall i :: 0 <= i < n ==> Retryable(os[i])) && AllOk(os[n..])
    ensures var t := WorkOn(s, os); t.worker.Idle? && VerifiedEnd(t) && t.disk.target == Some(s.worker.c.text)
    decreases n
  {
    if n == 0 {
      assert os[0..] == os;
      AllOkVerifies(s, os);
    } else {
      RetryStep(s, os[0]);
      assert os[n..] == os[1..][n - 1..];
      LateProbeVerifies(Next(s, Work(os[0])), n - 1, os[1..]);
    }
  }

  /** And exactly 24 failures give up. */
  lemma {:induction false} ProbesGiveUp(s: Sys, os: seq<Outcome>)
    requires OnTheWay(s) && s.worker.pc.Probe? && s.worker.c.tries + |os| == 24 && |os| > 0
    requires forall i :: 0 <= i < |os| ==> Retryable(os[i])
    ensures var t := WorkOn(s, os); t.worker.Configure? && t.worker.pc.Rollback? && t.disk == s.disk
    decreases |os|
  {
    RetryStep(s, os[0]);
    var next := Next(s, Work(os[0]));
    if |os| == 1 {
      assert os[1..] == [];
      assert WorkOn(next, []) == next;
    } else {
      ProbesGiveUp(next, os[1..]);
    }
  }

  /** The service that was told to load a configuration runs it, if its state had been read rightly. */
  lemma LoadServes(s: Sys, o: Outcome)
    requires OnTheWay(s) && s.worker.pc.Reload? && o.ok && s.worker.c.previousActive == s.service.Running?
    ensures DoConfigure(s, o).service == Running(s.worker.c.text)
  {
  }

  // ----- a rollback and a recovery in a world that does as asked -----

  /** The flags say nothing failed, and the Caddyfile is again what the attempt had read, or gone. */
  predicate PutBack(t: Sys, flags: History, file: Option<string>) {
    && t.worker.Idle? && t.disk.target == file && t.disk.status == Some(t.mem)
    && t.history.restoreFailed == flags.restoreFailed && t.mem.mode in {VerificationRequired, Failed}
  }

  lemma WorkOnOnce(s: Sys, os: seq<Outcome>)
    requires PortAllowed(s.port) && s.up && !s.worker.Idle? && os != []
    ensures WorkOn(s, os) == WorkOn(Next(s, Work(os[0])), os[1..])
  {
  }

  lemma FinishPuts(s: Sys, os: seq<Outcome>)
    requires PortAllowed(s.port) && s.up && AllOk(os) && os != []
    requires s.worker.Configure? && s.worker.pc.Finish?
    ensures PutBack(WorkOn(s, os), s.history, s.disk.target)
  {
    WorkOnOnce(s, os);
    var next := Next(s, Work(os[0]));
    assert WorkOn(next, os[1..]) == next;
  }

  /** A rollback in which every operation succeeds puts the Caddyfile back, and persists that the attempt failed. */
  lemma RollbackPutsBack(s: Sys, os: seq<Outcome>)
    requires PortAllowed(s.port) && s.up && AllOk(os) && |os| >= 3
    requires s.worker.Configure? && s.worker.pc.Rollback?
    ensures PutBack(WorkOn(s, os), s.history, if s.worker.c.mutated then s.worker.c.previous else s.disk.target)
  {
    WorkOnOnce(s, os);
    var next := Next(s, Work(os[0]));
    if next.worker.pc.Finish? {
      FinishPuts(next, os[1..]);
    } else {
      WorkOnOnce(next, os[1..]);
      FinishPuts(Next(next, Work(os[1])), os[1..][1..]);
    }
  }

  /** A recovery that finds a sound set-up in a world that does as asked confirms it and changes nothing else. */
  lemma RecoveryConfirms(s: Sys, os: seq<Outcome>)
    requires PortAllowed(s.port) && s.up && AllOk(os) && |os| >= 4 && s.mem.domain.Some?
    requires s.worker.Recover? && s.worker.rpc.RProbe? && s.disk.target.Some?
    requires s.worker.saved.domain.Some? && IsDomain(s.worker.saved.domain.value)
    ensures var t := WorkOn(s, os);
            && t.worker.Idle? && VerifiedEnd(t) && t.disk.target == s.disk.target && t.service == s.service
            && t.history == s.history && t.mem == s.mem.(mode := Verified)
  {
    WorkOnOnce(s, os);
    var a := Next(s, Work(os[0]));
    WorkOnOnce(a, os[1..]);
    var b := Next(a, Work(os[1]));
    WorkOnOnce(b, os[1..][1..]);
    var c := Next(b, Work(os[2]));
    WorkOnOnce(c, os[1..][1..][1..]);
    var d := Next(c, Work(os[3]));
    assert WorkOn(d, os[1..][1..][1..][1..]) == d;
  }

  lemma RFinishPuts(s: Sys, os: seq<Outcome>)
    requires PortAllowed(s.port) && s.up && AllOk(os) && os != []
    requires s.worker.Recover? && s.worker.rpc.RFinish?
    ensures PutBack(WorkOn(s, os), s.history, s.disk.target) && WorkOn(s, os).mem == s.mem.(mode := Failed)
  {
    WorkOnOnce(s, os);
    var next := Next(s, Work(os[0]));
    assert WorkOn(next, os[1..]) == next;
  }

  /** A recovery that could not confirm the set-up, in a world that then does as asked, puts the backup back. */
  lemma RecoveryPutsBack(s: Sys, os: seq<Outcome>)
    requires PortAllowed(s.port) && s.up && AllOk(os) && |os| >= 3
    requires s.worker.Recover? && s.worker.rpc.RRestore?
    ensures PutBack(WorkOn(s, os), s.history,
                    if s.worker.saved.hadPrevious && s.disk.backup.Some? then ReadOpt(s.disk.backup) else None)
    ensures WorkOn(s, os).mem == s.mem.(mode := Failed)
  {
    WorkOnOnce(s, os);
    var next := Next(s, Work(os[0]));
    WorkOnOnce(next, os[1..]);
    RFinishPuts(Next(next, Work(os[1])), os[1..][1..]);
  }
}
