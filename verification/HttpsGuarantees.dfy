/** What every run of the HTTPS set-up keeps beside crash safety: pacing, the installed host, and the service. */
module HttpsGuarantees {
  import opened Common
  import opened Caddyfile
  import opened HttpsProtocol
  import opened HttpsSafety

  // ----- pacing of certificate attempts -----

  function Last(s: Sys): real
    requires Launched(s)
  {
    s.history.attempts[|s.history.attempts| - 1]
  }

  predicate Paced(times: seq<real>) {
    forall i, j :: 0 <= i < j < |times| ==> times[j] >= times[i] + 600.0
  }

  predicate PacingInv(s: Sys) {
    && Paced(s.history.attempts)
    && (!s.worker.Idle? ==> Launched(s) && s.mem.retryAfter == Some(Last(s) + COOLDOWN))
    && (!Launched(s) ==> s.disk.status.None?)
    && (Launched(s) ==>
          && s.now >= Last(s)
          && s.disk.status.Some? && s.disk.status.value.domain.Some?
          && s.disk.status.value.retryAfter == Some(Last(s) + COOLDOWN)
          && (s.up ==> s.mem.domain.Some? && s.mem.retryAfter.Some? && s.mem.retryAfter.value >= Last(s) + COOLDOWN)
          && (!s.request.NoRequest? ==> s.now >= Last(s) + COOLDOWN))
  }

  /** A step that persists at most the status held in memory, and leaves the deadline in it alone. */
  predicate KeepsDeadline(s: Sys, t: Sys) {
    && t.mem.retryAfter == s.mem.retryAfter && t.mem.domain.Some?
    && (t.disk.status == s.disk.status || t.disk.status == Some(t.mem))
    && t.history.attempts == s.history.attempts && t.now == s.now && t.up == s.up && t.request == s.request
  }

  lemma InstallDeadline(s: Sys, o: Outcome)
    requires s.worker.Configure? && s.mem.domain.Some?
    requires s.worker.pc !in {Persist, DropBackup, Finish, Rollback, Restart, Remove}
    ensures KeepsDeadline(s, DoConfigure(s, o))
  {
  }

  lemma CommitDeadline(s: Sys, o: Outcome)
    requires s.worker.Configure? && s.mem.domain.Some? && s.worker.pc in {Persist, DropBackup, Finish}
    ensures KeepsDeadline(s, DoConfigure(s, o))
  {
  }

  lemma RollbackDeadline(s: Sys, o: Outcome)
    requires s.worker.Configure? && s.mem.domain.Some? && s.worker.pc in {Rollback, Restart, Remove}
    ensures KeepsDeadline(s, DoConfigure(s, o))
  {
  }

  lemma ConfirmDeadline(s: Sys, o: Outcome)
    requires s.worker.Recover? && s.mem.domain.Some? && s.worker.rpc in {RProbe, REnable, RPersist, RDropBackup}
    ensures KeepsDeadline(s, DoRecover(s, o))
  {
  }

  lemma UndoDeadline(s: Sys, o: Outcome)
    requires s.worker.Recover? && s.mem.domain.Some? && s.worker.rpc !in {RProbe, REnable, RPersist, RDropBackup}
    ensures KeepsDeadline(s, DoRecover(s, o))
  {
  }

  lemma WorkDeadline(s: Sys, o: Outcome)
    requires PortAllowed(s.port) && Enabled(s, Work(o)) && s.mem.domain.Some?
    ensures KeepsDeadline(s, Next(s, Work(o)))
  {
    if s.worker.Configure? {
      if s.worker.pc in {Persist, DropBackup, Finish} { CommitDeadline(s, o); }
      else if s.worker.pc in {Rollback, Restart, Remove} { RollbackDeadline(s, o); }
      else { InstallDeadline(s, o); }
    } else if s.worker.rpc in {RProbe, REnable, RPersist, RDropBackup} {
      ConfirmDeadline(s, o);
    } else {
      UndoDeadline(s, o);
    }
  }

  lemma StepPacing(s: Sys, e: Event)
    requires PortAllowed(s.port) && PacingInv(s) && Enabled(s, e)
    requires s.request.NoRequest? || (s.up && s.worker.Idle?)
    ensures PacingInv(Next(s, e))
  {
    if e.Work? {
      WorkDeadline(s, e.o);
      PacingKept(s, Next(s, e));
    } else if e.SaveStatus? {
      LaunchPacing(s, e.o);
    }
  }

  lemma PacingKept(s: Sys, t: Sys)
    requires PacingInv(s) && KeepsDeadline(s, t) && !s.worker.Idle?
    ensures PacingInv(t)
  {
  }

  /** A launch: the cooldown since the latest attempt has passed. */
  lemma LaunchPacing(s: Sys, o: Outcome)
    requires PortAllowed(s.port) && PacingInv(s) && Enabled(s, SaveStatus(o)) && s.worker.Idle?
    ensures PacingInv(DoSaveStatus(s, o))
  {
  }

  lemma {:induction false} RunPacing(init: Sys, es: seq<Event>)
    requires Init(init) && Run(init, es).Some?
    ensures PacingInv(Run(init, es).value)
  {
    if es == [] {
    } else {
      RunPacing(init, es[..|es| - 1]);
      RunInv(init, es[..|es| - 1]);
      StepPacing(Run(init, es[..|es| - 1]).value, es[|es| - 1]);
    }
  }

  /**
   Over any run, crashes and restarts included, any two attempts `start` launched are at least 600 seconds
   apart, because the persisted deadline is always the latest attempt's and the one in memory is never earlier.
   */
  lemma AttemptsPaced(s: Sys)
    requires Reachable(s)
    ensures Paced(s.history.attempts)
    ensures Launched(s) ==> s.disk.status.Some? && s.disk.status.value.retryAfter == Some(Last(s) + 600.0)
    ensures Launched(s) && s.up ==> RetryAfter(s.mem) >= Last(s) + 600.0
  {
    var init, es :| Init(init) && Run(init, es) == Some(s);
    RunPacing(init, es);
  }

  // ----- the installed host -----

  predicate NamesHost(file: Option<string>, domain: string) {
    file.Some? ==> Hosts(ReadText(file.value)) == [domain]
  }

  predicate HostInv(s: Sys) {
    Launched(s) ==> NamesHost(s.history.original, s.history.domain) && NamesHost(Some(s.history.wanted), s.history.domain)
  }

  lemma TargetHost(s: Sys)
    requires HostInv(s) && Launched(s) && (Restored(s) || s.disk.target == Some(s.history.wanted))
    ensures NamesHost(s.disk.target, s.history.domain)
  {
    ReadOptTwice(s.history.original);
  }

  lemma StepHost(s: Sys, e: Event)
    requires Inv(s) && HostInv(s) && Enabled(s, e)
    ensures HostInv(Next(s, e))
  {
    if e.Work? {
      WorkHistory(s, e.o);
    }
  }

  predicate SameAttempt(s: Sys, t: Sys) {
    && t.history.attempts == s.history.attempts && t.history.domain == s.history.domain
    && t.history.original == s.history.original && t.history.wanted == s.history.wanted
    && t.history.tainted == s.history.tainted
  }

  /** The worker's steps leave the record of the latest attempt alone. */
  lemma WorkHistory(s: Sys, o: Outcome)
    requires PortAllowed(s.port) && Enabled(s, Work(o))
    ensures SameAttempt(s, Next(s, Work(o)))
  {
    if s.worker.Configure? {
      ConfigureHistory(s, o);
    } else if s.worker.rpc in {RProbe, REnable, RPersist, RDropBackup} {
      ConfirmHistory(s, o);
    } else {
      RecoverHistory(s, o);
    }
  }

  lemma ConfigureHistory(s: Sys, o: Outcome)
    requires s.worker.Configure?
    ensures SameAttempt(s, DoConfigure(s, o))
  {
  }

  lemma ConfirmHistory(s: Sys, o: Outcome)
    requires s.worker.Recover? && s.worker.rpc in {RProbe, REnable, RPersist, RDropBackup}
    ensures SameAttempt(s, DoRecover(s, o))
  {
  }

  lemma RecoverHistory(s: Sys, o: Outcome)
    requires s.worker.Recover? && s.worker.rpc !in {RProbe, REnable, RPersist, RDropBackup}
    ensures SameAttempt(s, DoRecover(s, o))
  {
  }

  lemma {:induction false} RunHost(init: Sys, es: seq<Event>)
    requires Init(init) && Run(init, es).Some?
    ensures HostInv(Run(init, es).value)
  {
    if es == [] {
    } else {
      RunHost(init, es[..|es| - 1]);
      RunInv(init, es[..|es| - 1]);
      StepHost(Run(init, es[..|es| - 1]).value, es[|es| - 1]);
    }
  }

  /** Once an attempt was launched, an existing Caddyfile names exactly its domain, and `start` accepts no other. */
  lemma HostPinned(s: Sys, body: Option<map<string, Json>>)
    requires Reachable(s) && Launched(s) && s.disk.target.Some?
    ensures Hosts(ReadText(s.disk.target.value)) == [s.history.domain]
    ensures Enabled(s, AcceptStart(body)) ==> Validate(body).value.0 == s.history.domain
  {
    var init, es :| Init(init) && Run(init, es) == Some(s);
    RunInv(init, es);
    RunHost(init, es);
    TargetHost(s);
  }

  /** No step ever changes the host of a Caddyfile that exists before and after it. */
  lemma HostNeverChanges(s: Sys, e: Event)
    requires Reachable(s) && Enabled(s, e)
    requires s.disk.target.Some? && Next(s, e).disk.target.Some?
    ensures Hosts(ReadText(s.disk.target.value)) == Hosts(ReadText(Next(s, e).disk.target.value))
  {
    ReachableInv(s);
    if e.Work? {
      var init, es :| Init(init) && Run(init, es) == Some(s);
      RunHost(init, es);
      WorkKeepsHost(s, e.o);
    }
  }

  lemma WorkKeepsHost(s: Sys, o: Outcome)
    requires Inv(s) && HostInv(s) && Enabled(s, Work(o))
    requires s.disk.target.Some? && Next(s, Work(o)).disk.target.Some?
    ensures Hosts(ReadText(s.disk.target.value)) == Hosts(ReadText(Next(s, Work(o)).disk.target.value))
  {
    var t := Next(s, Work(o));
    StepInv(s, Work(o));
    StepHost(s, Work(o));
    WorkHistory(s, o);
    OldOrNew(s);
    OldOrNew(t);
    SameHost(s, t);
  }

  lemma OldOrNew(s: Sys)
    requires Inv(s)
    ensures Restored(s) || s.disk.target == Some(s.history.wanted)
    ensures !s.worker.Idle? ==> Launched(s)
  {
  }

  lemma SameHost(s: Sys, t: Sys)
    requires HostInv(s) && HostInv(t) && Launched(s) && SameAttempt(s, t)
    requires Restored(s) || s.disk.target == Some(s.history.wanted)
    requires Restored(t) || t.disk.target == Some(t.history.wanted)
    requires s.disk.target.Some? && t.disk.target.Some?
    ensures Hosts(ReadText(s.disk.target.value)) == Hosts(ReadText(t.disk.target.value))
  {
    TargetHost(s);
    TargetHost(t);
  }

  // ----- the service after a restore -----

  /** The service runs the installed file, or is down; one about to be restarted will load the installed file. */
  predicate Serves(s: Sys) {
    !s.service.Running? || (s.disk.target.Some? && s.service == Running(s.disk.target.value))
  }

  /** Recovery decided that the file needed no change and the active service no command. */
  predicate Untouched(w: Worker) { w.Recover? && w.saved.hadPrevious && w.saved.previousActive && !w.changed }

  /** Every file operation and service command of the latest rollback or recovery went as intended. */
  predicate RestoreWorked(s: Sys) { !s.history.restoreFailed && !s.history.serviceFailed }

  predicate ServiceInv(s: Sys) {
    && (s.worker.Configure? && s.worker.pc.Remove? ==> s.service.Stopped?)
    && (s.worker.Recover? && s.worker.rpc.RRemove? ==> s.service.Stopped?)
    && (s.worker.Configure? && s.worker.pc.Finish? && s.worker.c.mutated && RestoreWorked(s) ==>
          && Serves(s)
          && (s.worker.c.previous.None? || !s.worker.c.previousActive ==> s.service.Stopped?))
    && (s.worker.Recover? && s.worker.rpc.RFinish? && RestoreWorked(s) ==>
          && (Serves(s) || Untouched(s.worker))
          && (!s.worker.saved.hadPrevious || !s.worker.saved.previousActive ==> s.service.Stopped?))
  }

  lemma ForwardService(s: Sys, o: Outcome)
    requires s.worker.Configure? && s.worker.pc !in {Rollback, Restart, Remove, Finish}
    ensures ServiceInv(DoConfigure(s, o))
  {
  }

  lemma RollbackService(s: Sys, o: Outcome)
    requires ConfigureInv(s) && ServiceInv(s) && s.worker.Configure? && s.worker.pc in {Rollback, Restart, Remove, Finish}
    ensures ServiceInv(DoConfigure(s, o))
  {
    if s.worker.pc.Restart? && o.ok && Honest(s, o) {
      assert s.disk.target.Some?;
    }
  }

  lemma RecoverService(s: Sys, o: Outcome)
    requires RecoverInv(s) && ServiceInv(s) && s.worker.Recover?
    ensures ServiceInv(DoRecover(s, o))
  {
  }

  lemma StepService(s: Sys, e: Event)
    requires Inv(s) && ServiceInv(s) && Enabled(s, e)
    ensures ServiceInv(Next(s, e))
  {
    if e.Work? {
      if s.worker.Recover? {
        RecoverService(s, e.o);
      } else if s.worker.pc in {Rollback, Restart, Remove, Finish} {
        RollbackService(s, e.o);
      } else {
        ForwardService(s, e.o);
      }
    }
  }

  lemma {:induction false} RunService(init: Sys, es: seq<Event>)
    requires Init(init) && Run(init, es).Some?
    ensures ServiceInv(Run(init, es).value)
  {
    if es == [] {
    } else {
      RunService(init, es[..|es| - 1]);
      RunInv(init, es[..|es| - 1]);
      StepService(Run(init, es[..|es| - 1]).value, es[|es| - 1]);
    }
  }

  /**
   A failed first set-up leaves nothing running; a rollback or recovery that had to write or restart serves the
   file it restored. Recovery that found the file already in place is the one exception.
   */
  lemma ServiceRestored(s: Sys)
    requires Reachable(s) && RestoreWorked(s)
    ensures s.worker.Configure? && s.worker.pc.Finish? && s.worker.c.mutated ==>
              Serves(s) && (s.history.original.None? ==> s.service.Stopped?)
    ensures s.worker.Recover? && s.worker.rpc.RFinish? ==>
              && (Serves(s) || Untouched(s.worker))
              && (s.history.original.None? ==> s.service.Stopped?)
  {
    var init, es :| Init(init) && Run(init, es) == Some(s);
    RunInv(init, es);
    RunService(init, es);
  }

  /**
   The exact condition: when the restart step of recovery goes as asked, the service ends up serving the restored
   file if and only if the file had to be changed, the service had to be stopped or started, or it was already
   serving that file.
   */
  lemma RecoveryServesIff(s: Sys, o: Outcome)
    requires Reachable(s) && Enabled(s, Work(o)) && s.worker.Recover? && s.worker.rpc.RRestart?
    requires o.ok && Honest(s, o)
    ensures Serves(Next(s, Work(o))) <==> !Untouched(s.worker) || Serves(s)
  {
    ReachableInv(s);
  }
}
