/**
 Safety of the HTTPS set-up over every run, with crashes and restarts anywhere, also inside recovery.
 */
module HttpsSafety {
  import opened Common
  import opened Caddyfile
  import opened HttpsProtocol

  // ----- what is promised -----

  /** The Caddyfile is what it was when the latest attempt was launched, up to line-ending translation. */
  predicate Restored(s: Sys) {
    s.disk.target == s.history.original || s.disk.target == ReadOpt(s.history.original)
  }

  predicate Has(s: Sys, m: Mode) { s.disk.status.Some? && s.disk.status.value.mode == m }

  /** Either the old configuration is back or the new one is in place and recorded as verified. */
  predicate Settled(s: Sys) {
    Restored(s) || (s.disk.target == Some(s.history.wanted) && Has(s, Verified))
  }

  /** The persisted status says that an attempt over an existing Caddyfile is unfinished. */
  predicate Unsettled(s: Sys) { Has(s, Configuring) && s.disk.status.value.hadPrevious }

  predicate Launched(s: Sys) { s.history.attempts != [] }

  // ----- the invariant -----

  predicate BackupGood(s: Sys) {
    && s.disk.backup.Some?
    && (s.disk.backup == ReadOpt(s.history.original) || s.disk.backup == Some(s.history.wanted))
    && (!s.history.tainted ==> s.disk.backup == ReadOpt(s.history.original))
  }

  predicate DiskInv(s: Sys) {
    var h := s.history;
    && (!Launched(s) ==> s.disk.status.None? && s.disk.target == h.original && !h.restoreFailed && s.worker.Idle?)
    && (Launched(s) ==>
          && s.disk.status.Some? && s.disk.status.value.domain.Some?
          && !s.disk.status.value.mode.NotConfigured?
          && ReadText(h.wanted) == h.wanted)
    && (Restored(s) || s.disk.target == Some(h.wanted))
    && (h.original.Some? ==> s.disk.target.Some?)
    && (Has(s, Configuring) ==> s.disk.status.value.hadPrevious == h.original.Some?)
    && (Unsettled(s) ==> BackupGood(s))
    && (h.tainted ==> h.restoreFailed)
    && (!Has(s, Configuring) ==> h.restoreFailed || Settled(s))
  }

  predicate RequestInv(s: Sys) {
    match s.request
    case NoRequest => true
    case Accepted(domain, text) =>
      s.up && s.worker.Idle? && HostCheck(s.disk.target, domain) && ReadText(text) == text && Hosts(text) == [domain]
    case BackedUp(domain, text, hadPrevious, _) =>
      && s.up && s.worker.Idle? && HostCheck(s.disk.target, domain) && ReadText(text) == text && Hosts(text) == [domain]
      && hadPrevious == s.disk.target.Some?
      && (hadPrevious ==> s.disk.backup == ReadOpt(s.disk.target))
  }

  predicate ConfigureInv(s: Sys) {
    s.worker.Configure? ==>
      var c := s.worker.c;
      var before := !c.mutated && s.disk.target == s.history.original;
      var read := c.previous == ReadOpt(s.history.original);
      var installed := c.mutated && s.disk.target == Some(s.history.wanted) && read;
      && c.text == s.history.wanted && c.tries < ATTEMPTS
      && match s.worker.pc
         case Begin => before
         case Write => before && read
         case Rollback => before || installed
         case Restart => c.mutated && s.disk.target == ReadOpt(s.history.original) && c.previous.Some? && read
         case Remove => installed && c.previous.None?
         case Finish => (s.history.restoreFailed || Restored(s)) && (c.mutated ==> read)
         case DropBackup => installed && Has(s, Verified)
         case _ => installed
  }

  predicate RecoverInv(s: Sys) {
    s.worker.Recover? ==>
      var saved := s.worker.saved;
      && saved.domain.Some?
      && saved.hadPrevious == s.history.original.Some?
      && match s.worker.rpc
         case RRestart =>
           && saved.hadPrevious && (s.history.restoreFailed || Restored(s))
           && (!s.history.tainted ==> s.disk.target == ReadOpt(s.history.original))
         case RRemove => !saved.hadPrevious
         case RFinish => s.history.restoreFailed || Restored(s)
         case RDropBackup => Has(s, Verified) && (saved.hadPrevious ==> BackupGood(s))
         case _ => saved.hadPrevious ==> BackupGood(s)
  }

  predicate WorkerInv(s: Sys) {
    && (!s.worker.Idle? ==>
          s.up && Launched(s) && s.request.NoRequest? && s.mem.domain.Some? && (Has(s, Configuring) || Has(s, Verified)))
    && (s.worker.Idle? && s.up ==> s.history.restoreFailed || Settled(s))
    && ConfigureInv(s)
    && RecoverInv(s)
  }

  predicate Inv(s: Sys) {
    PortAllowed(s.port) && DiskInv(s) && RequestInv(s) && WorkerInv(s)
  }

  lemma ReadOptTwice(file: Option<string>)
    ensures ReadOpt(ReadOpt(file)) == ReadOpt(file)
  {
    if file.Some? {
      ReadTextTwice(file.value);
    }
  }

  lemma InitInv(s: Sys)
    requires Init(s)
    ensures Inv(s)
  {
  }

  /** The forward half of `configure`: up to the probes, and the probes. */
  lemma InstallStep(s: Sys, o: Outcome)
    requires Inv(s) && Enabled(s, Work(o)) && s.worker.Configure?
    requires s.worker.pc in {Begin, Write, Validating, Reload}
    ensures Inv(Next(s, Work(o)))
  {
  }

  lemma ProbeStep(s: Sys, o: Outcome)
    requires Inv(s) && Enabled(s, Work(o)) && s.worker.Configure?
    requires s.worker.pc.Probe?
    ensures Inv(Next(s, Work(o)))
  {
  }

  lemma EnableStep(s: Sys, o: Outcome)
    requires Inv(s) && Enabled(s, Work(o)) && s.worker.Configure?
    requires s.worker.pc.Enable?
    ensures Inv(Next(s, Work(o)))
  {
  }

  lemma CommitStep(s: Sys, o: Outcome)
    requires Inv(s) && Enabled(s, Work(o)) && s.worker.Configure?
    requires s.worker.pc.Persist?
    ensures Inv(Next(s, Work(o)))
  {
  }

  lemma DropBackupStep(s: Sys, o: Outcome)
    requires Inv(s) && Enabled(s, Work(o)) && s.worker.Configure?
    requires s.worker.pc.DropBackup?
    ensures Inv(Next(s, Work(o)))
  {
  }

  lemma RollingBackStep(s: Sys, o: Outcome)
    requires Inv(s) && Enabled(s, Work(o)) && s.worker.Configure?
    requires s.worker.pc.Rollback? && !(s.worker.c.mutated && s.worker.c.previous.Some?)
    ensures Inv(Next(s, Work(o)))
  {
  }

  lemma WritingBackStep(s: Sys, o: Outcome)
    requires Inv(s) && Enabled(s, Work(o)) && s.worker.Configure?
    requires s.worker.pc.Rollback? && s.worker.c.mutated && s.worker.c.previous.Some?
    ensures Inv(Next(s, Work(o)))
  {
  }

  lemma RemovingStep(s: Sys, o: Outcome)
    requires Inv(s) && Enabled(s, Work(o)) && s.worker.Configure?
    requires s.worker.pc.Remove?
    ensures Inv(Next(s, Work(o)))
  {
  }

  lemma RolledBackStep(s: Sys, o: Outcome)
    requires Inv(s) && Enabled(s, Work(o)) && s.worker.Configure?
    requires s.worker.pc in {Restart, Finish}
    ensures Inv(Next(s, Work(o)))
  {
  }

  lemma ConfirmStep(s: Sys, o: Outcome)
    requires Inv(s) && Enabled(s, Work(o)) && s.worker.Recover?
    requires s.worker.rpc in {RProbe, REnable, RPersist, RDropBackup}
    ensures Inv(Next(s, Work(o)))
  {
  }

  lemma UndoStep(s: Sys, o: Outcome)
    requires Inv(s) && Enabled(s, Work(o)) && s.worker.Recover?
    requires s.worker.rpc in {RRestore, RRemove}
    ensures Inv(Next(s, Work(o)))
  {
    ReadOptTwice(s.history.original);
  }

  lemma UndoneStep(s: Sys, o: Outcome)
    requires Inv(s) && Enabled(s, Work(o)) && s.worker.Recover?
    requires s.worker.rpc in {RRestart, RFinish}
    ensures Inv(Next(s, Work(o)))
  {
    ReadOptTwice(s.history.original);
  }

  lemma AcceptStep(s: Sys, body: Option<map<string, Json>>)
    requires Inv(s) && Enabled(s, AcceptStart(body))
    ensures Inv(Next(s, AcceptStart(body)))
  {
    HostCheckDecides(body, s.port, Validate(body).value.0);
  }

  lemma SaveBackupStep(s: Sys, o: Outcome)
    requires Inv(s) && Enabled(s, SaveBackup(o))
    ensures Inv(Next(s, SaveBackup(o)))
  {
    ReadOptTwice(s.history.original);
  }

  lemma SaveStatusStep(s: Sys, o: Outcome)
    requires Inv(s) && Enabled(s, SaveStatus(o))
    ensures Inv(Next(s, SaveStatus(o)))
  {
    ReadOptTwice(s.disk.target);
  }

  lemma WorkStep(s: Sys, o: Outcome)
    requires Inv(s) && Enabled(s, Work(o))
    ensures Inv(Next(s, Work(o)))
  {
    if s.worker.Configure? {
      if s.worker.pc.Persist? {
        CommitStep(s, o);
      } else if s.worker.pc.DropBackup? {
        DropBackupStep(s, o);
      } else if s.worker.pc.Rollback? {
        if s.worker.c.mutated && s.worker.c.previous.Some? { WritingBackStep(s, o); } else { RollingBackStep(s, o); }
      } else if s.worker.pc.Remove? {
        RemovingStep(s, o);
      } else if s.worker.pc in {Restart, Finish} {
        RolledBackStep(s, o);
      } else if s.worker.pc.Probe? {
        ProbeStep(s, o);
      } else if s.worker.pc.Enable? {
        EnableStep(s, o);
      } else {
        InstallStep(s, o);
      }
    } else if s.worker.rpc in {RProbe, REnable, RPersist, RDropBackup} {
      ConfirmStep(s, o);
    } else if s.worker.rpc in {RRestore, RRemove} {
      UndoStep(s, o);
    } else {
      UndoneStep(s, o);
    }
  }

  lemma EnvironmentStep(s: Sys, e: Event)
    requires Inv(s) && Enabled(s, e)
    requires !e.Work? && !e.AcceptStart? && !e.SaveBackup? && !e.SaveStatus?
    ensures Inv(Next(s, e))
  {
  }

  lemma StepInv(s: Sys, e: Event)
    requires Inv(s) && Enabled(s, e)
    ensures Inv(Next(s, e))
  {
    match e {
      case Work(o) => WorkStep(s, o);
      case AcceptStart(body) => AcceptStep(s, body);
      case SaveBackup(o) => SaveBackupStep(s, o);
      case SaveStatus(o) => SaveStatusStep(s, o);
      case _ => EnvironmentStep(s, e);
    }
  }

  // ----- every run -----

  lemma {:induction false} RunInv(init: Sys, es: seq<Event>)
    requires Init(init) && Run(init, es).Some?
    ensures Inv(Run(init, es).value)
  {
    if es == [] {
      InitInv(init);
    } else {
      RunInv(init, es[..|es| - 1]);
      StepInv(Run(init, es[..|es| - 1]).value, es[|es| - 1]);
    }
  }

  lemma ReachableInv(s: Sys)
    requires Reachable(s)
    ensures Inv(s)
  {
    var init, es :| Init(init) && Run(init, es) == Some(s);
    RunInv(init, es);
  }

  /**
   Crash safety. Unless the latest rollback or recovery could not put the file back, whenever no worker is running
   in a live process the set-up is settled; and so it is, live or crashed, whenever the persisted status is not
   "configuring". Failing service commands, earlier failed restores and wrong answers about the service do not matter.
   */
  lemma CrashSafety(s: Sys)
    requires Reachable(s) && !s.history.restoreFailed
    ensures s.up && s.worker.Idle? ==> Settled(s)
    ensures !Has(s, Configuring) ==> Settled(s)
  {
    ReachableInv(s);
  }

  /** A file operation of the rollback or of recovery has just put the old Caddyfile back. */
  predicate JustRestored(s: Sys) {
    || (s.worker.Configure? && s.worker.pc.Restart?)
    || (s.worker.Recover? && s.worker.rpc.RRestart? && !s.history.tainted)
  }

  /** What a restore puts back is the old file to the character if and only if that holds no carriage return. */
  lemma RestoreExactIff(s: Sys)
    requires Reachable(s) && JustRestored(s)
    ensures s.history.original.Some? && s.disk.target == ReadOpt(s.history.original)
    ensures s.disk.target == s.history.original <==> '\r' !in s.history.original.value
  {
    ReachableInv(s);
    ReadTextExact(s.history.original.value);
  }

  /** With an original that holds no carriage return the old file is back to the character. */
  lemma CrashSafetyExact(s: Sys)
    requires Reachable(s) && !s.history.restoreFailed && s.up && s.worker.Idle?
    requires s.history.original.Some? ==> '\r' !in s.history.original.value
    ensures s.disk.target == s.history.original || (s.disk.target == Some(s.history.wanted) && Has(s, Verified))
  {
    CrashSafety(s);
    if s.history.original.Some? {
      ReadTextExact(s.history.original.value);
    }
  }

  /** A Caddyfile that existed when an attempt was launched is never missing afterwards, even if restoring fails. */
  lemma NeverLost(s: Sys)
    requires Reachable(s)
    ensures s.history.original.Some? ==> s.disk.target.Some?
    ensures s.worker.Configure? && s.worker.pc.Remove? ==> s.history.original.None?
    ensures s.worker.Recover? && s.worker.rpc.RRemove? ==> s.history.original.None?
  {
    ReachableInv(s);
  }

  /** The backup promise: an unfinished attempt over an existing file has that file's text in the backup. */
  predicate BackupTrue(s: Sys) {
    Unsettled(s) ==> s.disk.backup == ReadOpt(s.history.original)
  }

  /** The one step that breaks the backup promise: a new `start` saving a Caddyfile that was never restored. */
  predicate OverwritesBackup(s: Sys, e: Event) {
    && e.SaveBackup? && e.o.ok && s.disk.target.Some?
    && Unsettled(s) && ReadOpt(s.disk.target) != ReadOpt(s.history.original)
  }

  /** While the status stays "configuring" the worker touches neither it nor the backup. */
  lemma ConfigureKeepsBackup(s: Sys, o: Outcome)
    requires s.worker.Configure? && (s.worker.pc.DropBackup? ==> Has(s, Verified))
    ensures Unsettled(DoConfigure(s, o)) ==> Unsettled(s) && DoConfigure(s, o).disk.backup == s.disk.backup
  {
  }

  lemma RecoverKeepsBackup(s: Sys, o: Outcome)
    requires s.worker.Recover? && (s.worker.rpc.RDropBackup? ==> Has(s, Verified))
    ensures Unsettled(DoRecover(s, o)) ==> Unsettled(s) && DoRecover(s, o).disk.backup == s.disk.backup
  {
  }

  lemma WorkKeepsBackup(s: Sys, o: Outcome)
    requires Inv(s) && Enabled(s, Work(o)) && BackupTrue(s)
    ensures BackupTrue(Next(s, Work(o)))
  {
    if s.worker.Configure? {
      ConfigureKeepsBackup(s, o);
    } else {
      RecoverKeepsBackup(s, o);
    }
  }

  /** Step by step, the backup promise is kept exactly unless `start` overwrites the backup of an unrestored file. */
  lemma BackupKeptIff(s: Sys, e: Event)
    requires Reachable(s) && Enabled(s, e) && BackupTrue(s)
    ensures BackupTrue(Next(s, e)) <==> !OverwritesBackup(s, e)
  {
    ReachableInv(s);
    if e.Work? {
      WorkKeepsBackup(s, e.o);
    }
  }

  /** Unless it was overwritten that way the promise holds in every reachable state, and the backup always exists. */
  lemma BackupPromise(s: Sys)
    requires Reachable(s) && Unsettled(s)
    ensures s.disk.backup.Some? && s.history.original.Some?
    ensures !s.history.tainted ==> s.disk.backup == ReadOpt(s.history.original)
    ensures !s.history.tainted ==> (s.disk.backup == s.history.original <==> '\r' !in s.history.original.value)
    ensures !s.history.restoreFailed ==> !s.history.tainted
  {
    ReachableInv(s);
    ReadTextExact(s.history.original.value);
  }

  // ----- the worker always finishes -----

  /** An upper bound on the steps the worker still takes. */
  function Rank(w: Worker): nat {
    match w
    case Idle => 0
    case Configure(pc, c) =>
      var left := if c.tries < ATTEMPTS then 4 * (ATTEMPTS - c.tries) else 0;
      (match pc
       case Begin => left + 7
       case Write => left + 6
       case Validating => left + 5
       case Reload => left + 4
       case Probe => left + 3
       case Enable => left + 2
       case Persist => left + 1
       case DropBackup => left
       case Rollback => 3
       case Restart => 2
       case Remove => 2
       case Finish => 1)
    case Recover(pc, _, _) =>
      match pc
      case RProbe => 7
      case REnable => 6
      case RPersist => 5
      case RDropBackup => 4
      case RRestore => 3
      case RRestart => 2
      case RRemove => 2
      case RFinish => 1
  }

  lemma ForwardRank(s: Sys, o: Outcome)
    requires s.worker.Configure? && s.worker.c.tries < ATTEMPTS
    requires s.worker.pc in {Begin, Write, Validating, Reload, Probe, Enable}
    ensures Rank(DoConfigure(s, o).worker) < Rank(s.worker)
  {
  }

  lemma BackwardRank(s: Sys, o: Outcome)
    requires s.worker.Configure? && s.worker.c.tries < ATTEMPTS
    requires s.worker.pc !in {Begin, Write, Validating, Reload, Probe, Enable}
    ensures Rank(DoConfigure(s, o).worker) < Rank(s.worker)
  {
  }

  lemma RecoverRank(s: Sys, o: Outcome)
    requires s.worker.Recover?
    ensures Rank(DoRecover(s, o).worker) < Rank(s.worker)
  {
  }

  lemma WorkRank(s: Sys, o: Outcome)
    requires Inv(s) && Enabled(s, Work(o))
    ensures Rank(Next(s, Work(o)).worker) < Rank(s.worker)
  {
    if s.worker.Configure? && s.worker.pc in {Begin, Write, Validating, Reload, Probe, Enable} {
      ForwardRank(s, o);
    } else if s.worker.Configure? {
      BackwardRank(s, o);
    } else {
      RecoverRank(s, o);
    }
  }

  /** The worker left alone, with the world answering `os` in order, until it is idle or the answers run out. */
  function WorkOn(s: Sys, os: seq<Outcome>): Sys
    decreases |os|
  {
    if os == [] || !PortAllowed(s.port) || !Enabled(s, Work(os[0])) then s
    else WorkOn(Next(s, Work(os[0])), os[1..])
  }

  /**
   From every reachable state a worker left alone finishes within `Rank` steps, whatever the world answers,
   and unless it could not put the file back it leaves the set-up settled.
   */
  lemma WorkerSettles(s: Sys, os: seq<Outcome>)
    requires Reachable(s) && s.up && |os| >= Rank(s.worker)
    ensures var t := WorkOn(s, os); t.worker.Idle? && (t.history.restoreFailed || Settled(t))
  {
    ReachableInv(s);
    WorkOnSettles(s, os);
  }

  lemma {:induction false} WorkOnSettles(s: Sys, os: seq<Outcome>)
    requires Inv(s) && s.up && |os| >= Rank(s.worker)
    ensures var t := WorkOn(s, os); Inv(t) && t.up && t.worker.Idle? && (t.history.restoreFailed || Settled(t))
    decreases |os|
  {
    if !s.worker.Idle? {
      WorkRank(s, os[0]);
      StepInv(s, Work(os[0]));
      WorkOnSettles(Next(s, Work(os[0])), os[1..]);
    }
  }
}
