/**
 The crash-safe HTTPS set-up as a transition system. Every disk write, unlink and service command is one
 step; a crash may fall between any two of them and forgets everything held in memory.
 */
module HttpsProtocol {
  import opened Common
  import opened Caddyfile

  datatype Mode = NotConfigured | Configuring | Verified | VerificationRequired | Failed

  /** The part of `Manager.state`, and of status.json, on which later behaviour depends. */
  datatype Status = Status(
    mode: Mode, domain: Option<string>, retryAfter: Option<real>, hadPrevious: bool, previousActive: bool)

  const BLANK := Status(NotConfigured, None, None, false, false)

  /** Caddyfile, previous-Caddyfile and status.json. */
  datatype Disk = Disk(target: Option<string>, backup: Option<string>, status: Option<Status>)

  /**
   The web server: down; died, with systemd about to restart it; or running the configuration it last loaded.
   Only a running one counts as active.
   */
  datatype Service = Stopped | Died | Running(config: string)

  /** The locals of one `configure` call. */
  datatype Attempt = Attempt(
    domain: string, text: string, previousState: Status,
    previous: Option<string>, previousActive: bool, mutated: bool, tries: nat)

  datatype ConfigurePc =
    | Begin | Write | Validating | Reload | Probe | Enable | Persist | DropBackup
    | Rollback | Restart | Remove | Finish

  datatype RecoverPc = RProbe | REnable | RPersist | RDropBackup | RRestore | RRestart | RRemove | RFinish

  datatype Worker =
    | Idle
    | Configure(pc: ConfigurePc, c: Attempt)
    | Recover(rpc: RecoverPc, saved: Status, changed: bool)

  /** Where the request thread is inside `start`, with what it has checked. */
  datatype Request =
    | NoRequest
    | Accepted(domain: string, text: string)
    | BackedUp(domain: string, text: string, hadPrevious: bool, previousActive: bool)

  /** What history records beside the program's own state. */
  datatype History = History(
    attempts: seq<real>,      // the time stamps of the attempts `start` launched
    domain: string,           // domain of the latest launched attempt
    original: Option<string>, // the Caddyfile when the latest attempt was launched
    wanted: string,           // the configuration the latest attempt wants to install
    restoreFailed: bool,      // the latest rollback or recovery could not put the Caddyfile back
    serviceFailed: bool,      // it could not command the service as intended, or misread its state
    tainted: bool)            // the backup of an unsettled attempt was overwritten with something else

  datatype Sys = Sys(
    disk: Disk, service: Service, port: int, now: real,
    up: bool, mem: Status, worker: Worker, request: Request, history: History)

  /**
   What the world answers to one operation: whether it succeeds; for a failure whether it is of the kind
   the probe loop retries; what `is-active` says; whether a failing service command still took effect.
   */
  datatype Outcome = Outcome(ok: bool, retry: bool, active: bool, applied: bool)

  datatype Event =
    | Tick(to: real)
    | AcceptStart(body: Option<map<string, Json>>)
    | SaveBackup(o: Outcome)
    | SaveStatus(o: Outcome)
    | RefreshStatus(o: Outcome)
    | Work(o: Outcome)
    | ServiceDies(restarts: bool)
    | ServiceRestarts
    | ServiceAutoStarts
    | Crash
    | Boot

  const ATTEMPTS := 24
  const COOLDOWN := 600.0

  // ----- service commands -----

  /** A start loads the Caddyfile; without one the unit's condition fails and it stays down. */
  function StartService(s: Service, target: Option<string>): Service {
    if s.Running? then s else if target.Some? then Running(target.value) else Stopped
  }

  function ReloadService(s: Service, target: Option<string>): Service {
    if s.Running? && target.Some? then Running(target.value) else s
  }

  /** systemctl "reload" or "start", as chosen by an earlier answer of `is-active`. */
  function LoadService(s: Service, target: Option<string>, reload: bool, o: Outcome): Service {
    if !o.ok && !o.applied then s
    else if reload then ReloadService(s, target) else StartService(s, target)
  }

  /** An explicit stop also cancels a pending restart. */
  function StopService(s: Service, o: Outcome): Service {
    if o.ok || o.applied then Stopped else s
  }

  predicate Honest(s: Sys, o: Outcome) { o.active == s.service.Running? }

  // ----- the request thread: start and status -----

  function RetryAfter(st: Status): real {
    if st.retryAfter.Some? then st.retryAfter.value else 0.0
  }

  /** The checks of `start`: a valid request, no other domain installed, no worker, no cooldown. */
  predicate StartAllowed(s: Sys, body: Option<map<string, Json>>) {
    && Validate(body).Success?
    && HostCheck(s.disk.target, Validate(body).value.0)
    && s.worker.Idle?
    && s.now >= RetryAfter(s.mem)
  }

  function DoSaveBackup(s: Sys, o: Outcome): Sys
    requires s.request.Accepted?
  {
    var target := s.disk.target;
    var r := BackedUp(s.request.domain, s.request.text, target.Some?, o.active);
    if target.None? then s.(request := r)
    else if !o.ok then s.(request := NoRequest)
    else
      var unsettled := s.disk.status.Some? && s.disk.status.value.mode.Configuring? && s.disk.status.value.hadPrevious;
      s.(disk := s.disk.(backup := ReadOpt(target)), request := r,
         history := s.history.(
           tainted := s.history.tainted || (unsettled && ReadOpt(target) != ReadOpt(s.history.original))))
  }

  function DoSaveStatus(s: Sys, o: Outcome): Sys
    requires s.request.BackedUp?
  {
    var r := s.request;
    var next := Status(Configuring, Some(r.domain), Some(s.now + COOLDOWN), r.hadPrevious, r.previousActive);
    if !o.ok then s.(mem := next, request := NoRequest)
    else
      s.(mem := next, disk := s.disk.(status := Some(next)), request := NoRequest,
         worker := Configure(Begin, Attempt(r.domain, r.text, s.mem, None, false, false, 0)),
         history := History(s.history.attempts + [s.now], r.domain, s.disk.target, r.text, false, false, false))
  }

  // ----- the worker -----

  function At(s: Sys, pc: ConfigurePc, c: Attempt): Sys { s.(worker := Configure(pc, c)) }

  /** The end of one probe-loop iteration that did not verify. */
  function NextTry(s: Sys, c: Attempt): Sys {
    if c.tries + 1 < ATTEMPTS then At(s, Probe, c.(tries := c.tries + 1)) else At(s, Rollback, c)
  }

  function Spoil(s: Sys, failed: bool): Sys {
    s.(history := s.history.(restoreFailed := s.history.restoreFailed || failed))
  }

  function Falter(s: Sys, failed: bool): Sys {
    s.(history := s.history.(serviceFailed := s.history.serviceFailed || failed))
  }

  function PutTarget(s: Sys, file: Option<string>): Sys { s.(disk := s.disk.(target := file)) }

  function SetMem(s: Sys, m: Status, persisted: bool): Sys {
    s.(mem := m, disk := if persisted then s.disk.(status := Some(m)) else s.disk)
  }

  // The operations of `configure`, in order.

  function BeginStep(s: Sys, c: Attempt, o: Outcome): Sys {
    if o.ok then At(s, Write, c.(previous := ReadOpt(s.disk.target), previousActive := o.active))
    else At(s, Rollback, c.(previous := if o.applied then ReadOpt(s.disk.target) else None))
  }

  function WriteStep(s: Sys, c: Attempt, o: Outcome): Sys {
    if o.ok then At(PutTarget(s, Some(c.text)), Validating, c.(mutated := true)) else At(s, Rollback, c)
  }

  function ValidateStep(s: Sys, c: Attempt, o: Outcome): Sys {
    At(s, if o.ok then Reload else Rollback, c)
  }

  function ReloadStep(s: Sys, c: Attempt, o: Outcome): Sys {
    At(s.(service := LoadService(s.service, s.disk.target, c.previousActive, o)), if o.ok then Probe else Rollback, c)
  }

  /** A probe, or the enabling of the unit: some failures lead to the next try, others to the rollback. */
  function TryStep(s: Sys, c: Attempt, next: ConfigurePc, o: Outcome): Sys {
    if o.ok then At(s, next, c) else if o.retry then NextTry(s, c) else At(s, Rollback, c)
  }

  function PersistStep(s: Sys, c: Attempt, o: Outcome): Sys {
    var t := SetMem(s, s.mem.(mode := Verified), o.ok);
    if o.ok then At(t, DropBackup, c) else NextTry(t, c)
  }

  function DropStep(s: Sys, c: Attempt, o: Outcome): Sys {
    if o.ok then s.(disk := s.disk.(backup := None), worker := Idle) else NextTry(s, c)
  }

  function RollbackStep(s: Sys, c: Attempt, o: Outcome): Sys {
    if !c.mutated then At(s, Finish, c)
    else if c.previous.Some? then
      if o.ok then At(PutTarget(s, c.previous), Restart, c) else At(Spoil(s, true), Finish, c)
    else
      var t := s.(service := StopService(s.service, o));
      if o.ok then At(t, Remove, c) else At(Spoil(t, true), Finish, c)
  }

  function RestartStep(s: Sys, c: Attempt, o: Outcome): Sys {
    var service := if c.previousActive then LoadService(s.service, s.disk.target, o.active, o)
                   else StopService(s.service, o);
    At(Falter(s.(service := service), !o.ok || (c.previousActive && !Honest(s, o))), Finish, c)
  }

  function RemoveStep(s: Sys, c: Attempt, o: Outcome): Sys {
    if o.ok then At(PutTarget(s, None), Finish, c) else At(Spoil(s, true), Finish, c)
  }

  function FinishStep(s: Sys, c: Attempt, o: Outcome): Sys {
    var m := if c.previousState.domain.Some? && c.previous.Some?
             then c.previousState.(mode := VerificationRequired, retryAfter := s.mem.retryAfter)
             else s.mem.(mode := Failed);
    SetMem(s, m, o.ok).(worker := Idle)
  }

  function DoConfigure(s: Sys, o: Outcome): Sys
    requires s.worker.Configure?
  {
    var c := s.worker.c;
    match s.worker.pc
    case Begin => BeginStep(s, c, o)
    case Write => WriteStep(s, c, o)
    case Validating => ValidateStep(s, c, o)
    case Reload => ReloadStep(s, c, o)
    case Probe => TryStep(s, c, Enable, o)
    case Enable => TryStep(s, c, Persist, o)
    case Persist => PersistStep(s, c, o)
    case DropBackup => DropStep(s, c, o)
    case Rollback => RollbackStep(s, c, o)
    case Restart => RestartStep(s, c, o)
    case Remove => RemoveStep(s, c, o)
    case Finish => FinishStep(s, c, o)
  }

  // The operations of `recover`, in order.

  function RAt(s: Sys, pc: RecoverPc, saved: Status, changed: bool): Sys { s.(worker := Recover(pc, saved, changed)) }

  function RProbeStep(s: Sys, saved: Status, o: Outcome): Sys {
    var sound := saved.domain.Some? && IsDomain(saved.domain.value) && s.disk.target.Some?;
    RAt(s, if sound && o.ok then REnable else RRestore, saved, false)
  }

  function REnableStep(s: Sys, saved: Status, o: Outcome): Sys {
    RAt(s, if o.ok then RPersist else RRestore, saved, false)
  }

  function RPersistStep(s: Sys, saved: Status, o: Outcome): Sys {
    RAt(SetMem(s, s.mem.(mode := Verified), o.ok), if o.ok then RDropBackup else RRestore, saved, false)
  }

  function RDropStep(s: Sys, saved: Status, o: Outcome): Sys {
    if o.ok then s.(disk := s.disk.(backup := None), worker := Idle) else RAt(s, RRestore, saved, false)
  }

  function RRestoreStep(s: Sys, saved: Status, o: Outcome): Sys {
    if saved.hadPrevious && s.disk.backup.Some? then
      var previous := ReadOpt(s.disk.backup);
      if o.ok then RAt(PutTarget(s, previous), RRestart, saved, ReadOpt(s.disk.target) != previous)
      else RAt(Spoil(s, true), RFinish, saved, false)
    else
      var t := s.(service := StopService(s.service, o));
      if o.ok then RAt(t, RRemove, saved, false) else RAt(Spoil(t, true), RFinish, saved, false)
  }

  function RRestartStep(s: Sys, saved: Status, changed: bool, o: Outcome): Sys {
    var quiet := saved.previousActive && !changed && o.active;
    var service := if quiet then s.service
                   else if saved.previousActive then LoadService(s.service, s.disk.target, o.active, o)
                   else StopService(s.service, o);
    RAt(Falter(s.(service := service), (!quiet && !o.ok) || (saved.previousActive && !Honest(s, o))), RFinish, saved, changed)
  }

  function RRemoveStep(s: Sys, saved: Status, o: Outcome): Sys {
    RAt(if o.ok then PutTarget(s, None) else Spoil(s, true), RFinish, saved, false)
  }

  function RFinishStep(s: Sys, o: Outcome): Sys {
    SetMem(s, s.mem.(mode := Failed), o.ok).(worker := Idle)
  }

  function DoRecover(s: Sys, o: Outcome): Sys
    requires s.worker.Recover?
  {
    var saved := s.worker.saved;
    match s.worker.rpc
    case RProbe => RProbeStep(s, saved, o)
    case REnable => REnableStep(s, saved, o)
    case RPersist => RPersistStep(s, saved, o)
    case RDropBackup => RDropStep(s, saved, o)
    case RRestore => RRestoreStep(s, saved, o)
    case RRestart => RRestartStep(s, saved, s.worker.changed, o)
    case RRemove => RRemoveStep(s, saved, o)
    case RFinish => RFinishStep(s, o)
  }

  // ----- crash and restart -----

  function DoCrash(s: Sys): Sys { s.(up := false, mem := BLANK, worker := Idle, request := NoRequest) }

  /** A restarting process that finds an unfinished attempt starts recovery, which tries the restore afresh. */
  function DoBoot(s: Sys): Sys {
    if s.disk.status.None? || s.disk.status.value.domain.None? then s.(up := true, mem := BLANK)
    else
      var saved := s.disk.status.value;
      var m := Status(VerificationRequired, saved.domain, saved.retryAfter, false, false);
      if saved.mode.Configuring?
      then s.(up := true, mem := m.(mode := Configuring), worker := Recover(RProbe, saved, false),
                history := s.history.(restoreFailed := s.history.tainted, serviceFailed := false))
      else s.(up := true, mem := m)
  }

  predicate Enabled(s: Sys, e: Event) {
    match e
    case Tick(to) => s.now <= to
    case AcceptStart(body) => s.up && s.request.NoRequest? && StartAllowed(s, body)
    case SaveBackup(_) => s.up && s.request.Accepted?
    case SaveStatus(_) => s.up && s.request.BackedUp?
    case RefreshStatus(_) => s.up && s.request.NoRequest? && s.worker.Idle? && s.mem.domain.Some?
    case Work(_) => s.up && !s.worker.Idle?
    case ServiceDies(_) => !s.service.Stopped?
    case ServiceRestarts => s.service.Died?
    case ServiceAutoStarts => !s.up
    case Crash => s.up
    case Boot => !s.up
  }

  /** One step of the whole system. */
  function Next(s: Sys, e: Event): Sys
    requires PortAllowed(s.port) && Enabled(s, e)
  {
    match e
    case Tick(to) => s.(now := to)
    case AcceptStart(body) =>
      var (domain, email) := Validate(body).value;
      HostCheckDecides(body, s.port, domain);
      s.(request := Accepted(domain, Render(domain, email, s.port).value))
    case SaveBackup(o) => DoSaveBackup(s, o)
    case SaveStatus(o) => DoSaveStatus(s, o)
    case RefreshStatus(o) =>
      s.(mem := s.mem.(mode := if s.disk.target.Some? && o.ok then Verified else VerificationRequired))
    case Work(o) => if s.worker.Configure? then DoConfigure(s, o) else DoRecover(s, o)
    case ServiceDies(restarts) => s.(service := if restarts then Died else Stopped)
    case ServiceRestarts => s.(service := StartService(s.service, s.disk.target))
    case ServiceAutoStarts => s.(service := StartService(s.service, s.disk.target))
    case Crash => DoCrash(s)
    case Boot => DoBoot(s)
  }

  /** A fresh installation: no status yet; any Caddyfile, backup and service may already be there. */
  predicate Init(s: Sys) {
    && PortAllowed(s.port)
    && s.disk.status.None? && !s.up && s.mem == BLANK && s.worker.Idle? && s.request.NoRequest?
    && s.history == History([], "", s.disk.target, "", false, false, false)
  }

  /** `Run(s, es)` is the state after the events, or `None` if one of them could not happen. */
  function Run(s: Sys, es: seq<Event>): (r: Option<Sys>)
  {
    if es == [] then Some(s)
    else
      var before := Run(s, es[..|es| - 1]);
      var e := es[|es| - 1];
      if before.Some? && PortAllowed(before.value.port) && Enabled(before.value, e)
      then Some(Next(before.value, e)) else None
  }

  ghost predicate Reachable(s: Sys) {
    exists init, es :: Init(init) && Run(init, es) == Some(s)
  }
}
