/** The `Manager` object: its methods in their own order of operations, each operation one step of the protocol. */
module HttpsManager {
  import opened Common
  import opened Caddyfile
  import opened HttpsProtocol
  import opened HttpsSafety
  import opened HttpsOutcome
  import opened CaddyReader

  class Manager {
    // the machine: three files, the service, the clock, and the answers of operations still to come
    var target: Option<string>
    var backup: Option<string>
    var saved: Option<Status>
    var service: Service
    var now: real
    const world: nat -> Outcome
    var asked: nat

    // the program
    const port: int
    var state: Status
    var workerAlive: bool

    // the protocol state the object is in; only ever advanced by protocol steps
    ghost var sys: Sys

    ghost predicate Valid()
      reads this
    {
      && Reachable(sys) && PortAllowed(port)
      && sys.disk == Disk(target, backup, saved) && sys.service == service
      && sys.port == port && sys.now == now && sys.mem == state
      && workerAlive == !sys.worker.Idle?
    }

    /** A machine on which the helper has never run. */
    constructor (
      port: int, target: Option<string>, backup: Option<string>, service: Service, now: real, world: nat -> Outcome)
      requires PortAllowed(port)
      ensures Valid() && !sys.up && !Launched(sys)
      ensures this.target == target && this.port == port
    {
      this.port, this.target, this.backup, this.saved, this.service := port, target, backup, None, service;
      this.now, this.world, this.asked, this.state, this.workerAlive := now, world, 0, BLANK, false;
      sys := Sys(Disk(target, backup, None), service, port, now, false, BLANK, Idle, NoRequest,
                 History([], "", target, "", false, false, false));
      new;
      assert Run(sys, []) == Some(sys);
    }

    method Ask() returns (o: Outcome)
      modifies this`asked
      ensures o == world(old(asked)) && asked == old(asked) + 1
    {
      o := world(asked);
      asked := asked + 1;
    }

    /** From this answer on the world does as asked. */
    ghost predicate WorldGood(from: nat) { forall i :: i >= from ==> world(i).ok }

    /** One protocol step. */
    ghost method Advance(e: Event)
      requires Reachable(sys) && PortAllowed(sys.port) && Enabled(sys, e)
      modifies this`sys
      ensures sys == Next(old(sys), e) && Reachable(sys)
    {
      var init, es :| Init(init) && Run(init, es) == Some(sys);
      assert (es + [e])[..|es + [e]| - 1] == es;
      sys := Next(sys, e);
      assert Run(init, es + [e]) == Some(sys);
    }

    /** The checks of `start` passed: the request is accepted. */
    ghost method Accept(body: Option<map<string, Json>>)
      requires Valid() && sys.up && sys.request.NoRequest? && StartAllowed(sys, body)
      modifies this`sys
      ensures Valid() && Render(Validate(body).value.0, Validate(body).value.1, port).Success?
      ensures sys == old(sys).(request :=
                Accepted(Validate(body).value.0, Render(Validate(body).value.0, Validate(body).value.1, port).value))
    {
      HostCheckDecides(body, port, Validate(body).value.0);
      Advance(AcceptStart(body));
    }

    method BackUp() returns (o: Outcome)
      requires Valid() && sys.up && sys.request.Accepted?
      modifies this`backup, this`sys, this`asked
      ensures o == world(old(asked)) && asked == old(asked) + 1
      ensures backup == if target.Some? && o.ok then ReadOpt(target) else old(backup)
      ensures Valid() && sys == DoSaveBackup(old(sys), o)
    {
      o := Ask();
      if target.Some? && o.ok { backup := ReadOpt(target); }
      Advance(SaveBackup(o));
    }

    method PersistIntent(domain: string, hadPrevious: bool, previousActive: bool) returns (o: Outcome)
      requires Valid() && sys.up && sys.request.BackedUp? && sys.worker.Idle?
      requires sys.request.domain == domain
      requires sys.request.hadPrevious == hadPrevious && sys.request.previousActive == previousActive
      modifies this`state, this`saved, this`workerAlive, this`sys, this`asked
      ensures o == world(old(asked)) && asked == old(asked) + 1
      ensures IntentOf(state, domain, now, hadPrevious) && state.previousActive == previousActive
      ensures saved == if o.ok then Some(state) else old(saved)
      ensures workerAlive == o.ok
      ensures Valid() && sys == DoSaveStatus(old(sys), o)
    {
      state := Status(Configuring, Some(domain), Some(now + COOLDOWN), hadPrevious, previousActive);
      o := Ask();
      SavedStatus(sys, o, state);
      if o.ok { saved, workerAlive := Some(state), true; }
      Advance(SaveStatus(o));
    }

    lemma SavedStatus(s: Sys, o: Outcome, st: Status)
      requires PortAllowed(s.port) && s.up && s.request.BackedUp? && s.worker.Idle?
      requires st == Status(Configuring, Some(s.request.domain), Some(s.now + COOLDOWN),
                            s.request.hadPrevious, s.request.previousActive)
      ensures var t := Next(s, SaveStatus(o));
              && t == DoSaveStatus(s, o) && t.mem == st && t.service == s.service && t.port == s.port && t.now == s.now
              && t.disk == (if o.ok then s.disk.(status := Some(st)) else s.disk) && t.worker.Idle? == !o.ok
    {
    }

    /** The status an attempt over `domain` starts with: unfinished, and no other attempt for ten minutes. */
    ghost predicate IntentOf(st: Status, domain: string, at: real, hadPrevious: bool) {
      st == Status(Configuring, Some(domain), Some(at + COOLDOWN), hadPrevious, st.previousActive)
    }

    /** Save the backup, persist the intent and launch the worker; a failing write stops before the launch. */
    method Launch(domain: string) returns (ok: bool)
      requires Valid() && sys.up && sys.request.Accepted? && sys.worker.Idle? && sys.request.domain == domain
      modifies this
      ensures Valid() && sys.up && sys.request.NoRequest? && target == old(target) && now == old(now)
      ensures !ok ==> sys.worker.Idle? && sys.history.attempts == old(sys).history.attempts
      ensures ok ==>
                && sys.worker == HttpsProtocol.Configure(
                                   Begin, Attempt(domain, old(sys).request.text, old(state), None, false, false, 0))
                && sys.history ==
                     History(old(sys).history.attempts + [now], domain, target, old(sys).request.text, false, false, false)
                && (target.Some? ==> backup == ReadOpt(target))
                && saved == Some(state) && IntentOf(state, domain, now, target.Some?)
      ensures asked >= old(asked) && (WorldGood(old(asked)) ==> ok)
    {
      var o := BackUp();
      if target.Some? && !o.ok { return false; }
      o := PersistIntent(domain, target.Some?, o.active);
      ok := o.ok;
    }

    /** `start`: the error codes in the order the code checks them; success launches one worker. */
    method Start(body: Option<map<string, Json>>) returns (r: Result<()>)
      requires Valid() && sys.up && sys.request.NoRequest?
      modifies this
      ensures Valid() && sys.up && sys.request.NoRequest?
      ensures Validate(body).Failure? ==> r == Failure(Validate(body).error)
      ensures Validate(body).Success? && !HostCheck(old(target), Validate(body).value.0) ==>
                r == Failure("domain_change_requires_manual")
      ensures Validate(body).Success? && HostCheck(old(target), Validate(body).value.0) && !old(sys).worker.Idle? ==>
                r == Failure("https_busy")
      ensures (Validate(body).Success? && HostCheck(old(target), Validate(body).value.0) && old(sys).worker.Idle?
               && now < RetryAfter(old(state))) ==> r == Failure("https_cooldown")
      ensures !StartAllowed(old(sys), body) ==> r.Failure? && sys == old(sys)
      ensures r.Failure? ==> sys.worker == old(sys).worker && sys.history.attempts == old(sys).history.attempts
      ensures r.Success? ==>
                && sys.worker.Configure? && sys.worker.pc.Begin?
                && Validate(body).value.0 == sys.history.domain
                && Render(sys.history.domain, Validate(body).value.1, port) == Success(sys.history.wanted)
                && sys.worker.c == Attempt(sys.history.domain, sys.history.wanted, old(state), None, false, false, 0)
                && sys.history.attempts == old(sys).history.attempts + [now]
                && target == old(target) == sys.history.original
                && (target.Some? ==> backup == ReadOpt(target))
                && saved == Some(state) && IntentOf(state, sys.history.domain, now, target.Some?)
                && Proxies(sys.history.wanted, sys.history.domain, Validate(body).value.1, port)
      ensures StartAllowed(old(sys), body) && WorldGood(old(asked)) ==> r.Success?
    {
      var v := Validate(body);
      if v.Failure? { return Failure(v.error); }
      var (domain, email) := v.value;
      RenderedProxies(body, port);
      if !HostCheck(target, domain) { return Failure("domain_change_requires_manual"); }
      if workerAlive { return Failure("https_busy"); }
      if now < RetryAfter(state) { return Failure("https_cooldown"); }
      Accept(body);
      var launched := Launch(domain);
      r := if launched then Success(()) else Failure("os_error");
    }

    /** `status`: with a known domain, no worker and the last check 30 seconds ago, look again; memory only. */
    method CheckStatus(due: bool) returns (ghost seen: Outcome)
      requires Valid() && sys.up && sys.request.NoRequest?
      modifies this
      ensures Valid() && sys.disk == old(sys).disk && sys.worker == old(sys).worker && sys.history == old(sys).history
      ensures state == old(state).(mode := state.mode)
      ensures !due || old(state).domain.None? || !old(sys).worker.Idle? ==> sys == old(sys)
      ensures due && state.domain.Some? && sys.worker.Idle? ==>
                state.mode == Verified || state.mode == VerificationRequired
      ensures due && state.domain.Some? && sys.worker.Idle? ==> (state.mode == Verified <==> target.Some? && seen.ok)
    {
      seen := Outcome(false, false, false, false);
      if state.domain.None? || workerAlive || !due { return; }
      var o := Ask();
      seen := o;
      state := state.(mode := if target.Some? && o.ok then Verified else VerificationRequired);
      Advance(RefreshStatus(o));
    }

    /** `__init__`: load the persisted status; an unfinished attempt starts the recovering worker. */
    method Boot()
      requires Valid() && !sys.up
      modifies this
      ensures Valid() && sys.up && sys == Next(old(sys), HttpsProtocol.Boot)
      ensures workerAlive <==> Has(sys, Configuring)
      ensures target == old(target) && backup == old(backup) && saved == old(saved) && service == old(service)
      ensures saved.None? || saved.value.domain.None? ==> state == BLANK && !workerAlive
      ensures saved.Some? && saved.value.domain.Some? ==>
                && state.domain == saved.value.domain && state.retryAfter == saved.value.retryAfter
                && state.mode == if saved.value.mode == Configuring then Configuring else VerificationRequired
    {
      ReachableInv(sys);
      state := BLANK;
      if saved.Some? && saved.value.domain.Some? {
        state := Status(VerificationRequired, saved.value.domain, saved.value.retryAfter, false, false);
        if saved.value.mode.Configuring? {
          state := state.(mode := Configuring);
          workerAlive := true;
        }
      }
      Advance(HttpsProtocol.Boot);
    }

    /** The process dies: what was in memory is gone, the disk and the service stay. */
    method Crash()
      requires Valid() && sys.up
      modifies this
      ensures Valid() && !sys.up && sys == DoCrash(old(sys)) && state == BLANK && !workerAlive
      ensures target == old(target) && backup == old(backup) && saved == old(saved) && service == old(service)
    {
      ReachableInv(sys);
      state, workerAlive := BLANK, false;
      Advance(HttpsProtocol.Crash);
    }

    // ----- single operations: each does what it says to the machine and is one step of the protocol -----

    ghost predicate Standing(pc: ConfigurePc, c: Attempt)
      reads this
    {
      Valid() && sys.up && sys.worker == HttpsProtocol.Configure(pc, c)
    }

    ghost predicate Recovering(pc: RecoverPc, pending: Status, changed: bool)
      reads this
    {
      Valid() && sys.up && sys.worker == HttpsProtocol.Recover(pc, pending, changed)
    }

    method ReadPrevious(ghost c: Attempt) returns (o: Outcome, previous: Option<string>, active: bool)
      requires Standing(Begin, c) && c.previous.None? && !c.previousActive
      modifies this`sys, this`asked
      ensures o == world(old(asked)) && asked == old(asked) + 1
      ensures Valid() && sys == BeginStep(old(sys), c, o)
      ensures previous == (if o.ok || o.applied then ReadOpt(old(target)) else None) && active == (o.ok && o.active)
    {
      o := Ask();
      previous, active := if o.ok || o.applied then ReadOpt(target) else None, o.ok && o.active;
      Advance(Work(o));
    }

    method WriteTarget(text: string, ghost c: Attempt) returns (o: Outcome)
      requires Standing(Write, c) && c.text == text
      modifies this`target, this`sys, this`asked
      ensures o == world(old(asked)) && asked == old(asked) + 1
      ensures target == if o.ok then Some(text) else old(target)
      ensures Valid() && sys == WriteStep(old(sys), c, o)
    {
      o := Ask();
      if o.ok { target := Some(text); }
      Advance(Work(o));
    }

    method ValidateConfig(ghost c: Attempt) returns (o: Outcome)
      requires Standing(Validating, c)
      modifies this`sys, this`asked
      ensures o == world(old(asked)) && asked == old(asked) + 1
      ensures Valid() && sys == ValidateStep(old(sys), c, o)
    {
      o := Ask();
      Advance(Work(o));
    }

    method LoadConfig(previousActive: bool, ghost c: Attempt) returns (o: Outcome)
      requires Standing(Reload, c) && c.previousActive == previousActive
      modifies this`service, this`sys, this`asked
      ensures o == world(old(asked)) && asked == old(asked) + 1
      ensures o.ok && previousActive == old(service).Running? && target.Some? ==> service == Running(target.value)
      ensures Valid() && sys == ReloadStep(old(sys), c, o)
    {
      o := Ask();
      service := LoadService(service, target, previousActive, o);
      Advance(Work(o));
    }

    /** The TLS probe (a passed deadline counts as a failure without retry), or `systemctl enable`. */
    method TryOnce(pc: ConfigurePc, ghost c: Attempt) returns (o: Outcome)
      requires Standing(pc, c) && pc in {Probe, Enable}
      modifies this`sys, this`asked
      ensures o == world(old(asked)) && asked == old(asked) + 1
      ensures Valid() && sys == TryStep(old(sys), c, if pc.Probe? then Enable else Persist, o)
    {
      o := Ask();
      Advance(Work(o));
    }

    method PersistVerified(ghost c: Attempt) returns (o: Outcome)
      requires Standing(Persist, c)
      modifies this`state, this`saved, this`sys, this`asked
      ensures o == world(old(asked)) && asked == old(asked) + 1
      ensures state == old(state).(mode := Verified) && saved == if o.ok then Some(state) else old(saved)
      ensures Valid() && sys == PersistStep(old(sys), c, o)
    {
      state := state.(mode := Verified);
      o := Ask();
      if o.ok { saved := Some(state); }
      Advance(Work(o));
    }

    method DropTheBackup(ghost c: Attempt) returns (o: Outcome)
      requires Standing(DropBackup, c)
      modifies this`backup, this`workerAlive, this`sys, this`asked
      ensures o == world(old(asked)) && asked == old(asked) + 1
      ensures o.ok ==> backup.None? && !workerAlive
      ensures !o.ok ==> backup == old(backup) && workerAlive
      ensures Valid() && sys == DropStep(old(sys), c, o)
    {
      o := Ask();
      if o.ok { backup, workerAlive := None, false; }
      Advance(Work(o));
    }

    /** Undoing starts by writing the old file back, or by stopping the service of a failed first set-up. */
    method UndoWrite(previous: Option<string>, mutated: bool, ghost c: Attempt) returns (o: Outcome)
      requires Standing(Rollback, c) && c.previous == previous && c.mutated == mutated
      modifies this`target, this`service, this`sys, this`asked
      ensures o == world(old(asked)) && asked == old(asked) + 1
      ensures target == if mutated && previous.Some? && o.ok then previous else old(target)
      ensures service == if mutated && previous.None? && (o.ok || o.applied) then Stopped else old(service)
      ensures Valid() && sys == RollbackStep(old(sys), c, o)
    {
      o := Ask();
      if mutated && previous.Some? {
        if o.ok { target := previous; }
      } else if mutated {
        service := StopService(service, o);
      }
      Advance(Work(o));
    }

    method UndoService(previousActive: bool, ghost c: Attempt) returns (o: Outcome)
      requires Standing(Restart, c) && c.previousActive == previousActive
      modifies this`service, this`sys, this`asked
      ensures o == world(old(asked)) && asked == old(asked) + 1
      ensures o.ok && previousActive && o.active == old(service).Running? && target.Some? ==> service == Running(target.value)
      ensures o.ok && !previousActive ==> service == Stopped
      ensures Valid() && sys == RestartStep(old(sys), c, o)
    {
      o := Ask();
      service := if previousActive then LoadService(service, target, o.active, o) else StopService(service, o);
      Advance(Work(o));
    }

    method UnlinkTarget(ghost c: Attempt) returns (o: Outcome)
      requires Standing(Remove, c)
      modifies this`target, this`sys, this`asked
      ensures o == world(old(asked)) && asked == old(asked) + 1
      ensures target == if o.ok then None else old(target)
      ensures Valid() && sys == RemoveStep(old(sys), c, o)
    {
      o := Ask();
      if o.ok { target := None; }
      Advance(Work(o));
    }

    method PersistFailure(previous: Option<string>, previousState: Status, ghost c: Attempt) returns (o: Outcome)
      requires Standing(Finish, c) && c.previous == previous && c.previousState == previousState
      modifies this`state, this`saved, this`workerAlive, this`sys, this`asked
      ensures o == world(old(asked)) && asked == old(asked) + 1
      ensures !workerAlive && saved == if o.ok then Some(state) else old(saved)
      ensures state.mode == VerificationRequired || state.mode == Failed
      ensures state.mode == VerificationRequired <==> previousState.domain.Some? && previous.Some?
      ensures state.domain == if state.mode == Failed then old(state).domain else previousState.domain
      ensures state.retryAfter == old(state).retryAfter
      ensures Valid() && sys == FinishStep(old(sys), c, o)
    {
      if previousState.domain.Some? && previous.Some? {
        state := previousState.(mode := VerificationRequired, retryAfter := state.retryAfter);
      } else {
        state := state.(mode := Failed);
      }
      o := Ask();
      FinishedAs(sys, c, o, state);
      if o.ok { saved := Some(state); }
      workerAlive := false;
      Advance(Work(o));
    }

    lemma FinishedAs(s: Sys, c: Attempt, o: Outcome, st: Status)
      requires PortAllowed(s.port) && s.up && s.worker == HttpsProtocol.Configure(Finish, c)
      requires st == if c.previousState.domain.Some? && c.previous.Some?
                     then c.previousState.(mode := VerificationRequired, retryAfter := s.mem.retryAfter)
                     else s.mem.(mode := Failed)
      ensures var t := Next(s, Work(o));
              && t == FinishStep(s, c, o) && t.mem == st && t.worker.Idle?
              && t.service == s.service && t.port == s.port && t.now == s.now
              && t.disk == if o.ok then s.disk.(status := Some(st)) else s.disk
    {
    }

    // ----- the single operations of `recover` -----

    method RecheckTls(pending: Status) returns (ok: bool, o: Outcome)
      requires Recovering(RProbe, pending, false)
      modifies this`sys, this`asked
      ensures o == world(old(asked)) && asked == old(asked) + 1
      ensures ok <==> o.ok && target.Some? && pending.domain.Some? && IsDomain(pending.domain.value)
      ensures Valid() && sys == RProbeStep(old(sys), pending, o) && ok == sys.worker.rpc.REnable?
    {
      o := Ask();
      ok := pending.domain.Some? && IsDomain(pending.domain.value) && target.Some? && o.ok;
      Advance(Work(o));
    }

    method EnableAgain(ghost pending: Status) returns (o: Outcome)
      requires Recovering(REnable, pending, false)
      modifies this`sys, this`asked
      ensures o == world(old(asked)) && asked == old(asked) + 1
      ensures Valid() && sys == REnableStep(old(sys), pending, o)
    {
      o := Ask();
      Advance(Work(o));
    }

    method PersistRecovered(ghost pending: Status) returns (o: Outcome)
      requires Recovering(RPersist, pending, false)
      modifies this`state, this`saved, this`sys, this`asked
      ensures o == world(old(asked)) && asked == old(asked) + 1
      ensures state == old(state).(mode := Verified) && saved == if o.ok then Some(state) else old(saved)
      ensures Valid() && sys == RPersistStep(old(sys), pending, o)
    {
      state := state.(mode := Verified);
      o := Ask();
      if o.ok { saved := Some(state); }
      Advance(Work(o));
    }

    method DropRecovered(ghost pending: Status) returns (o: Outcome)
      requires Recovering(RDropBackup, pending, false)
      modifies this`backup, this`workerAlive, this`sys, this`asked
      ensures o == world(old(asked)) && asked == old(asked) + 1
      ensures o.ok ==> backup.None? && !workerAlive
      ensures !o.ok ==> backup == old(backup) && workerAlive
      ensures Valid() && sys == RDropStep(old(sys), pending, o)
    {
      o := Ask();
      if o.ok { backup, workerAlive := None, false; }
      Advance(Work(o));
    }

    method RestoreFile(pending: Status) returns (o: Outcome, changed: bool)
      requires Recovering(RRestore, pending, false)
      modifies this`target, this`service, this`sys, this`asked
      ensures o == world(old(asked)) && asked == old(asked) + 1
      ensures target == if pending.hadPrevious && backup.Some? && o.ok then ReadOpt(backup) else old(target)
      ensures !(pending.hadPrevious && backup.Some?) && o.ok ==> service == Stopped
      ensures Valid() && sys == RRestoreStep(old(sys), pending, o) && backup == old(backup)
      ensures changed == (ReadOpt(old(target)) != ReadOpt(backup))
    {
      o := Ask();
      changed := ReadOpt(target) != ReadOpt(backup);
      if pending.hadPrevious && backup.Some? {
        if o.ok { target := ReadOpt(backup); }
      } else {
        service := StopService(service, o);
      }
      Advance(Work(o));
    }

    method RestoreService(pending: Status, changed: bool) returns (o: Outcome)
      requires Recovering(RRestart, pending, changed)
      modifies this`service, this`sys, this`asked
      ensures o == world(old(asked)) && asked == old(asked) + 1
      ensures o.ok && pending.previousActive && changed && o.active == old(service).Running? && target.Some? ==>
                service == Running(target.value)
      ensures o.ok && !pending.previousActive ==> service == Stopped
      ensures Valid() && sys == RRestartStep(old(sys), pending, changed, o)
    {
      o := Ask();
      if !pending.previousActive {
        service := StopService(service, o);
      } else if changed || !o.active {
        service := LoadService(service, target, o.active, o);
      }
      Advance(Work(o));
    }

    method UnlinkRecovered(ghost pending: Status) returns (o: Outcome)
      requires Recovering(RRemove, pending, false)
      modifies this`target, this`sys, this`asked
      ensures o == world(old(asked)) && asked == old(asked) + 1
      ensures target == if o.ok then None else old(target)
      ensures Valid() && sys == RRemoveStep(old(sys), pending, o)
    {
      o := Ask();
      if o.ok { target := None; }
      Advance(Work(o));
    }

    method PersistRecoveryFailure() returns (o: Outcome)
      requires Valid() && sys.up && sys.worker.Recover? && sys.worker.rpc.RFinish?
      modifies this`state, this`saved, this`workerAlive, this`sys, this`asked
      ensures o == world(old(asked)) && asked == old(asked) + 1
      ensures state == old(state).(mode := Failed) && !workerAlive && saved == if o.ok then Some(state) else old(saved)
      ensures Valid() && sys == RFinishStep(old(sys), o)
    {
      state := state.(mode := Failed);
      o := Ask();
      if o.ok { saved := Some(state); }
      workerAlive := false;
      Advance(Work(o));
    }

    // ----- the worker's two procedures -----

    /** Nothing but the two failure flags differs. */
    ghost predicate SameRecord(h: History, k: History) {
      k == h.(restoreFailed := k.restoreFailed, serviceFailed := k.serviceFailed)
    }

    /**
     `configure`: whatever the world answers, every operation is a protocol step, and when the worker ends the old
     Caddyfile is back or the new one is recorded as verified, unless the rollback could not put it back.
     */
    method Configure(domain: string, text: string, previousState: Status)
      requires Standing(Begin, Attempt(domain, text, previousState, None, false, false, 0))
      modifies this
      ensures Valid() && sys.up && sys.worker.Idle? && sys.request.NoRequest?
      ensures SameRecord(old(sys).history, sys.history)
      ensures sys.history.restoreFailed || Settled(sys)
      ensures state.mode == Verified ==> saved == Some(state) && target == Some(text) && backup.None?
      ensures state.mode != Verified ==> state.mode == VerificationRequired || state.mode == Failed
      ensures state.mode == VerificationRequired ==>
                && previousState.domain.Some? && old(target).Some?
                && state.domain == previousState.domain && state.retryAfter == old(state).retryAfter
      ensures state.mode == Failed && previousState.domain.Some? && old(target).Some? ==> !world(old(asked)).ok
      ensures WorldGood(old(asked)) ==> state.mode == Verified
    {
      ReachableInv(sys);
      ghost var c := sys.worker.c;
      var verified, previous, previousActive, mutated := Install(text, c);
      if !verified {
        RollBack(previous, previousActive, mutated, previousState, sys.worker.c);
      }
      ReachableInv(sys);
    }

    /** The locals with which an unverified attempt reaches its rollback; the number of tries no longer matters. */
    ghost predicate GivesUp(previous: Option<string>, previousActive: bool, mutated: bool, previousState: Status)
      reads this
    {
      && sys.worker.Configure? && Standing(Rollback, sys.worker.c)
      && sys.worker.c.previous == previous && sys.worker.c.previousActive == previousActive
      && sys.worker.c.mutated == mutated && sys.worker.c.previousState == previousState
    }

    /** The protected part of `configure`: read, check, write, validate, load and probe. */
    method Install(text: string, ghost c: Attempt)
      returns (verified: bool, previous: Option<string>, previousActive: bool, mutated: bool)
      requires Standing(Begin, c)
      requires c.text == text && c.tries == 0 && !c.mutated && c.previous.None? && !c.previousActive
      modifies this
      ensures Valid() && sys.up && sys.request == old(sys).request && sys.history == old(sys).history
      ensures verified ==> sys.worker.Idle? && Has(sys, Verified) && saved == Some(state) && backup.None?
      ensures verified ==> target == Some(text) && state.mode == Verified
      ensures verified ==> FourOk(old(asked))
      ensures WorldGood(old(asked)) ==> verified
      ensures state.domain == old(state).domain && state.retryAfter == old(state).retryAfter
      ensures previous.Some? ==> old(target).Some?
      ensures world(old(asked)).ok ==> previous == ReadOpt(old(target))
      ensures !verified ==> GivesUp(previous, previousActive, mutated, c.previousState)
    {
      verified := false;
      var loaded;
      loaded, previous, previousActive, mutated := Prepare(text, c);
      if loaded { verified := ProbeLoop(sys.worker.c); }
    }

    /** Four answers in a row without a failure. */
    ghost predicate FourOk(from: nat) { world(from).ok && world(from + 1).ok && world(from + 2).ok && world(from + 3).ok }

    /** Up to the command that loads the new Caddyfile: nothing is loaded that was not written and found valid. */
    method Prepare(text: string, ghost c: Attempt)
      returns (loaded: bool, previous: Option<string>, previousActive: bool, mutated: bool)
      requires Standing(Begin, c)
      requires c.text == text && c.tries == 0 && !c.mutated && c.previous.None? && !c.previousActive
      modifies this`target, this`service, this`sys, this`asked
      ensures Valid() && sys.up && sys.request == old(sys).request && sys.history == old(sys).history
      ensures loaded <==> FourOk(old(asked))
      ensures loaded ==> target == Some(text) && asked == old(asked) + 4
      ensures loaded ==>
                sys.worker == HttpsProtocol.Configure(
                                Probe, c.(previous := previous, previousActive := previousActive, mutated := mutated))
      ensures previous.Some? ==> old(target).Some?
      ensures world(old(asked)).ok ==> previous == ReadOpt(old(target))
      ensures !loaded ==> GivesUp(previous, previousActive, mutated, c.previousState)
    {
      loaded, mutated := false, false;
      var o;
      o, previous, previousActive := ReadPrevious(c);
      if !o.ok { return; }
      o := WriteTarget(text, sys.worker.c);
      if !o.ok { return; }
      mutated := true;
      o := ValidateConfig(sys.worker.c);
      if !o.ok { return; }
      o := LoadConfig(previousActive, sys.worker.c);
      loaded := o.ok;
    }

    /** At most 24 probes; success ends the worker with the verified status persisted. */
    method ProbeLoop(ghost c: Attempt) returns (verified: bool)
      requires Standing(Probe, c) && c.tries == 0
      modifies this
      ensures Valid() && sys.up && sys.request == old(sys).request && sys.history == old(sys).history
      ensures verified ==> sys.worker.Idle? && Has(sys, Verified) && saved == Some(state) && backup.None?
      ensures verified ==> state.mode == Verified
      ensures target == old(target) && state == old(state).(mode := state.mode)
      ensures WorldGood(old(asked)) ==> verified
      ensures !verified ==> GivesUp(c.previous, c.previousActive, c.mutated, c.previousState)
    {
      verified := false;
      var again, tries := true, 0;
      while tries < ATTEMPTS && again
        invariant 0 <= tries <= ATTEMPTS
        invariant Valid() && sys.up && sys.request == old(sys).request && sys.history == old(sys).history
        invariant target == old(target) && state == old(state).(mode := state.mode)
        invariant asked >= old(asked) && (tries == 0 ==> asked == old(asked) && again)
        invariant verified ==> state.mode == Verified
        invariant WorldGood(old(asked)) ==> tries == 0 || verified
        invariant again && tries < ATTEMPTS ==> !verified && Standing(Probe, c.(tries := tries))
        invariant verified ==> sys.worker.Idle? && Has(sys, Verified) && saved == Some(state) && backup.None?
        invariant !verified && (!again || tries == ATTEMPTS) ==>
                    GivesUp(c.previous, c.previousActive, c.mutated, c.previousState)
      {
        verified, again := ProbeOnce(sys.worker.c);
        tries := tries + 1;
      }
    }

    /** One round of the probe loop: verified for good, to be tried again, or a failure that ends the attempt. */
    method ProbeOnce(ghost c: Attempt) returns (verified: bool, again: bool)
      requires Standing(Probe, c) && c.tries < ATTEMPTS
      modifies this
      ensures Valid() && sys.up && sys.request == old(sys).request && sys.history == old(sys).history
      ensures target == old(target) && state == old(state).(mode := state.mode) && asked >= old(asked)
      ensures verified ==> state.mode == Verified && FourOk(old(asked))
      ensures WorldGood(old(asked)) ==> verified
      ensures verified ==> sys.worker.Idle? && Has(sys, Verified) && saved == Some(state) && backup.None? && !again
      ensures again && c.tries + 1 < ATTEMPTS ==> Standing(Probe, c.(tries := c.tries + 1))
      ensures !verified && (!again || c.tries + 1 == ATTEMPTS) ==> Standing(Rollback, c)
    {
      verified := false;
      var o := Certify(c);
      if !o.ok { return false, o.retry; }
      verified := Commit(c);
      again := !verified;
    }

    /** The TLS probe, then the enabling of the unit. */
    method Certify(ghost c: Attempt) returns (o: Outcome)
      requires Standing(Probe, c) && c.tries < ATTEMPTS
      modifies this`sys, this`asked
      ensures Valid() && sys.up && sys.request == old(sys).request && sys.history == old(sys).history
      ensures o.ok <==> world(old(asked)).ok && world(old(asked) + 1).ok
      ensures o.ok ==> Standing(Persist, c) && asked == old(asked) + 2
      ensures asked >= old(asked)
      ensures !o.ok && o.retry && c.tries + 1 < ATTEMPTS ==> Standing(Probe, c.(tries := c.tries + 1))
      ensures !o.ok && (!o.retry || c.tries + 1 == ATTEMPTS) ==> Standing(Rollback, c)
    {
      o := TryOnce(Probe, c);
      if o.ok { o := TryOnce(Enable, c); }
    }

    /** The verified status, then the end of the backup. */
    method Commit(ghost c: Attempt) returns (done: bool)
      requires Standing(Persist, c) && c.tries < ATTEMPTS
      modifies this`state, this`saved, this`backup, this`workerAlive, this`sys, this`asked
      ensures Valid() && sys.up && sys.request == old(sys).request && sys.history == old(sys).history
      ensures state == old(state).(mode := Verified) && asked >= old(asked)
      ensures done <==> world(old(asked)).ok && world(old(asked) + 1).ok
      ensures done ==> sys.worker.Idle? && Has(sys, Verified) && saved == Some(state) && backup.None?
      ensures !done && c.tries + 1 < ATTEMPTS ==> Standing(Probe, c.(tries := c.tries + 1))
      ensures !done && c.tries + 1 == ATTEMPTS ==> Standing(Rollback, c)
    {
      done := false;
      var o := PersistVerified(c);
      if o.ok {
        o := DropTheBackup(c);
        done := o.ok;
      }
    }

    /** The second protected part of `configure` and its final status. */
    method RollBack(previous: Option<string>, previousActive: bool, mutated: bool, previousState: Status, ghost c: Attempt)
      requires GivesUp(previous, previousActive, mutated, previousState) && sys.worker.c == c
      modifies this
      ensures state.mode == VerificationRequired || state.mode == Failed
      ensures state.mode == VerificationRequired <==> previousState.domain.Some? && previous.Some?
      ensures state.domain == if state.mode == Failed then old(state).domain else previousState.domain
      ensures state.retryAfter == old(state).retryAfter
      ensures WorldGood(old(asked)) ==>
                && target == (if mutated then previous else old(target)) && saved == Some(state)
                && sys.history.restoreFailed == old(sys).history.restoreFailed
      ensures Valid() && sys.up && sys.worker.Idle? && sys.request == old(sys).request
      ensures SameRecord(old(sys).history, sys.history)
    {
      var o := UndoWrite(previous, mutated, c);
      if mutated && o.ok {
        if previous.Some? {
          o := UndoService(previousActive, c);
        } else {
          o := UnlinkTarget(c);
        }
      }
      o := PersistFailure(previous, previousState, c);
    }

    /** `recover`: verify what a crash left behind, or put the backup back. */
    method Recover(pending: Status)
      requires Recovering(RProbe, pending, false)
      modifies this
      ensures Valid() && sys.up && sys.worker.Idle? && sys.request.NoRequest?
      ensures SameRecord(old(sys).history, sys.history)
      ensures sys.history.restoreFailed || Settled(sys)
      ensures state.mode == Verified || state.mode == Failed
      ensures state.mode == Verified ==> saved == Some(state) && target == old(target) && target.Some? && backup.None?
      ensures state.domain == old(state).domain && state.retryAfter == old(state).retryAfter
      ensures WorldGood(old(asked)) && old(target).Some? && pending.domain.Some? && IsDomain(pending.domain.value) ==>
                state.mode == Verified && service == old(service)
    {
      ReachableInv(sys);
      var confirmed := Confirm(pending);
      if !confirmed {
        Undo(pending);
      }
      ReachableInv(sys);
    }

    /** The protected first part of `recover`. */
    method Confirm(pending: Status) returns (confirmed: bool)
      requires Recovering(RProbe, pending, false)
      modifies this
      ensures Valid() && sys.up && sys.request == old(sys).request && sys.history == old(sys).history
      ensures target == old(target) && service == old(service) && state == old(state).(mode := state.mode)
      ensures confirmed ==> state.mode == Verified
      ensures WorldGood(old(asked)) && target.Some? && pending.domain.Some? && IsDomain(pending.domain.value) ==> confirmed
      ensures confirmed ==> sys.worker.Idle? && Has(sys, Verified) && saved == Some(state) && backup.None? && target.Some?
      ensures !confirmed ==> Recovering(RRestore, pending, false)
    {
      var ok, _ := RecheckTls(pending);
      if !ok { return false; }
      var o := EnableAgain(pending);
      if !o.ok { return false; }
      o := PersistRecovered(pending);
      if !o.ok { return false; }
      o := DropRecovered(pending);
      confirmed := o.ok;
    }

    /** The second protected part of `recover` and its final status. */
    method Undo(pending: Status)
      requires Recovering(RRestore, pending, false)
      modifies this
      ensures state == old(state).(mode := Failed)
      ensures WorldGood(old(asked)) ==>
                && target == (if pending.hadPrevious && backup.Some? then ReadOpt(backup) else None) && saved == Some(state)
                && sys.history.restoreFailed == old(sys).history.restoreFailed
      ensures Valid() && sys.up && sys.worker.Idle? && sys.request == old(sys).request
      ensures SameRecord(old(sys).history, sys.history)
    {
      var o, changed := RestoreFile(pending);
      if o.ok {
        if pending.hadPrevious && backup.Some? {
          o := RestoreService(pending, changed);
        } else {
          o := UnlinkRecovered(pending);
        }
      }
      o := PersistRecoveryFailure();
    }
  }
}
