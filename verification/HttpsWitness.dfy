/** Three runs that show how far the guarantees reach: concrete sequences of events, replayed from an initial state. */
module HttpsWitness {
  import opened Common
  import opened Caddyfile
  import opened HttpsProtocol
  import opened HttpsSafety
  import opened HttpsGuarantees

  const GOOD := Outcome(true, false, true, true)
  const BAD := Outcome(false, false, true, false)

  lemma ReachStep(s: Sys, e: Event) returns (t: Sys)
    requires Reachable(s) && PortAllowed(s.port) && Enabled(s, e)
    ensures t == Next(s, e) && Reachable(t)
  {
    t := Next(s, e);
    var init, es :| Init(init) && Run(init, es) == Some(s);
    assert (es + [e])[..|es + [e]| - 1] == es;
    assert Run(init, es + [e]) == Some(t);
  }

  lemma Works(s: Sys, o: Outcome) returns (t: Sys)
    requires Reachable(s) && PortAllowed(s.port) && s.up && !s.worker.Idle?
    ensures t == (if s.worker.Configure? then DoConfigure(s, o) else DoRecover(s, o)) && Reachable(t)
  {
    t := ReachStep(s, Work(o));
  }

  /** A helper that runs for the first time, over an installed, running configuration, has accepted a request. */
  lemma Accept(body: Option<map<string, Json>>, port: int, prior: string) returns (s: Sys)
    requires Validate(body).Success? && PortAllowed(port)
    requires HostCheck(Some(prior), Validate(body).value.0)
    ensures var (domain, email) := Validate(body).value;
            && Render(domain, email, port).Success? && Reachable(s)
            && s == Sys(Disk(Some(prior), None, None), Running(prior), port, 0.0, true, BLANK, Idle,
                        Accepted(domain, Render(domain, email, port).value),
                        History([], "", Some(prior), "", false, false, false))
  {
    var init := Sys(Disk(Some(prior), None, None), Running(prior), port, 0.0, false, BLANK, Idle, NoRequest,
                    History([], "", Some(prior), "", false, false, false));
    assert Run(init, []) == Some(init);
    HostCheckDecides(body, port, Validate(body).value.0);
    s := ReachStep(init, Boot);
    s := ReachStep(s, AcceptStart(body));
  }

  /** A start over an installed, running configuration `prior`. */
  lemma Launch(body: Option<map<string, Json>>, port: int, prior: string) returns (s: Sys)
    requires Validate(body).Success? && PortAllowed(port)
    requires HostCheck(Some(prior), Validate(body).value.0)
    ensures var (domain, email) := Validate(body).value;
            && Reachable(s) && s.up && s.port == port && s.now == 0.0 && s.service == Running(prior) && s.request.NoRequest?
            && Render(domain, email, port).Success?
            && s.worker == Configure(Begin, Attempt(domain, Render(domain, email, port).value, BLANK, None, false, false, 0))
            && s.disk == Disk(Some(prior), Some(ReadText(prior)), Some(Status(Configuring, Some(domain), Some(COOLDOWN), true, true)))
            && s.mem == s.disk.status.value
            && s.history == History([0.0], domain, Some(prior), Render(domain, email, port).value, false, false, false)
  {
    s := Accept(body, port, prior);
    s := ReachStep(s, SaveBackup(GOOD));
    s := ReachStep(s, SaveStatus(GOOD));
  }

  /** A crash, a restart whose probe fails, and the backup written back over the Caddyfile. */
  lemma CrashAndRestore(s: Sys) returns (t: Sys)
    requires Reachable(s) && PortAllowed(s.port) && s.up && Unsettled(s)
    requires s.disk.backup.Some? && s.disk.target.Some? && s.disk.status.value.domain.Some?
    ensures Reachable(t) && t.up && t.port == s.port && t.service == s.service
    ensures t.history == s.history.(restoreFailed := s.history.tainted, serviceFailed := false)
    ensures t.disk == s.disk.(target := ReadOpt(s.disk.backup))
    ensures t.worker == Recover(RRestart, s.disk.status.value, ReadOpt(s.disk.target) != ReadOpt(s.disk.backup))
  {
    t := ReachStep(s, Crash);
    t := ReachStep(t, Boot);
    t := Works(t, BAD);
    t := Works(t, GOOD);
  }

  /** The launched attempt up to the point where the service has loaded the new configuration. */
  lemma Load(s: Sys) returns (t: Sys)
    requires Reachable(s) && PortAllowed(s.port) && s.up && s.service.Running?
    requires s.worker.Configure? && s.worker.pc.Begin?
    ensures Reachable(t) && t.up && t.port == s.port && t.history == s.history
    ensures t.disk == s.disk.(target := Some(s.worker.c.text)) && t.service == Running(s.worker.c.text)
  {
    t := Works(s, GOOD);
    t := Works(t, GOOD);
    t := Works(t, GOOD);
    t := Works(t, GOOD);
  }

  /** The state `Launch` leaves: an attempt to replace `prior`, which is installed, backed up and served. */
  predicate LaunchedOver(s: Sys, prior: string, text: string) {
    && s.up && PortAllowed(s.port) && s.service == Running(prior) && s.request.NoRequest?
    && s.worker.Configure? && s.worker.pc.Begin? && s.worker.c.text == text
    && s.disk.target == s.disk.backup == s.history.original == Some(prior)
    && Unsettled(s) && s.disk.status.value.domain.Some? && s.disk.status.value.previousActive
    && s.history.wanted == text && !s.history.restoreFailed && !s.history.tainted
    && ReadText(prior) == prior && ReadText(text) == text && prior != text
  }

  lemma InterruptRecovery(s: Sys, prior: string, text: string) returns (t: Sys)
    requires Reachable(s) && LaunchedOver(s, prior, text)
    ensures Reachable(t) && t.up && t.worker.Idle? && RestoreWorked(t) && t.mem.mode == Failed
    ensures t.disk.target == t.history.original == Some(prior)
    ensures t.service == Running(t.history.wanted) && t.history.wanted == text
  {
    t := Load(s);
    t := CrashAndRestore(t);
    t := CrashAndRestore(t);
    t := Works(t, GOOD);  // nothing changed and the service is active: no command
    t := Works(t, GOOD);
  }

  /**
   Recovery interrupted between writing the restored file and reloading the service: the second recovery finds the
   file unchanged and sends no command, so the service goes on serving the abandoned configuration although every
   operation of the recovery went as intended.
   */
  lemma InterruptedRecoveryServesAbandoned(body: Option<map<string, Json>>, port: int, prior: string) returns (s: Sys)
    requires Suitable(body, port, prior)
    ensures Reachable(s) && s.up && s.worker.Idle? && RestoreWorked(s) && s.mem.mode == Failed
    ensures s.disk.target == s.history.original == Some(prior)
    ensures s.service == Running(s.history.wanted) && s.history.wanted != prior
  {
    HostCheckDecides(body, port, Validate(body).value.0);
    var launched := Launch(body, port, prior);
    s := InterruptRecovery(launched, prior, launched.history.wanted);
  }

  /** Where the carriage-return run ends: at rest, nothing failed to be restored, and the old file is not what it was. */
  predicate Rewritten(s: Sys, prior: string) {
    && s.up && s.worker.Idle? && RestoreWorked(s) && Settled(s)
    && s.history.original == Some(prior) && s.disk.target == Some(ReadText(prior)) && s.disk.target != Some(prior)
  }

  /** A new file is written and rejected. */
  lemma Reject(s: Sys, prior: string) returns (t: Sys)
    requires Reachable(s) && s.up && PortAllowed(s.port) && s.service.Running?
    requires s.worker.Configure? && s.worker.pc.Begin? && s.disk.target == Some(prior)
    ensures Reachable(t) && t.up && t.port == s.port && t.service == s.service && t.history == s.history
    ensures t.worker.Configure? && t.worker.pc.Rollback? && t.worker.c.mutated && t.worker.c.previousActive
    ensures t.worker.c.previous == Some(ReadText(prior))
  {
    t := Works(s, GOOD);
    t := Works(t, GOOD);
    t := Works(t, BAD);
  }

  /** The old file is written back, as it was read. */
  lemma PutBack(s: Sys, prior: string) returns (t: Sys)
    requires Reachable(s) && s.up && PortAllowed(s.port) && s.service.Running?
    requires s.worker.Configure? && s.worker.pc.Rollback? && s.worker.c.mutated && s.worker.c.previousActive
    requires s.worker.c.previous == Some(ReadText(prior))
    requires s.history.original == Some(prior) && '\r' in prior
    requires RestoreWorked(s)
    ensures Reachable(t) && Rewritten(t, prior)
  {
    ReadTextExact(prior);
    t := Works(s, GOOD);
    t := Works(t, GOOD);
    t := Works(t, GOOD);
  }

  /** Every Caddyfile with a carriage return that `start` accepts is rewritten by an attempt whose new file is rejected. */
  lemma CarriageReturnLost(body: Option<map<string, Json>>, port: int, prior: string) returns (s: Sys)
    requires Validate(body).Success? && PortAllowed(port)
    requires HostCheck(Some(prior), Validate(body).value.0) && '\r' in prior
    ensures Reachable(s) && Rewritten(s, prior)
  {
    var launched := Launch(body, port, prior);
    var rejected := Reject(launched, prior);
    s := PutBack(rejected, prior);
  }

  /** An attempt whose new file is rejected, whose restore fails, and whose final status cannot be written. */
  lemma FailTwice(s: Sys, prior: string, text: string) returns (t: Sys)
    requires Reachable(s) && LaunchedOver(s, prior, text)
    ensures Reachable(t) && t.up && t.port == s.port && t.now == s.now && t.request.NoRequest? && t.worker.Idle?
    ensures t.disk == s.disk.(target := Some(text)) && t.history == s.history.(restoreFailed := true)
    ensures t.mem.retryAfter == s.mem.retryAfter
  {
    t := WriteAndReject(s, prior, text);
    t := FailToRestore(t);
  }

  lemma WriteAndReject(s: Sys, prior: string, text: string) returns (t: Sys)
    requires Reachable(s) && LaunchedOver(s, prior, text)
    ensures Reachable(t) && t.up && t.port == s.port && t.now == s.now && t.request == s.request && t.mem == s.mem
    ensures t.worker.Configure? && t.worker.pc.Rollback? && t.worker.c.mutated && t.worker.c.previous.Some?
    ensures t.disk == s.disk.(target := Some(text)) && t.history == s.history
  {
    t := Works(s, GOOD);
    t := Works(t, GOOD);
    t := Works(t, BAD);
  }

  lemma FailToRestore(s: Sys) returns (t: Sys)
    requires Reachable(s) && PortAllowed(s.port) && s.up
    requires s.worker.Configure? && s.worker.pc.Rollback? && s.worker.c.mutated && s.worker.c.previous.Some?
    ensures Reachable(t) && t.up && t.port == s.port && t.now == s.now && t.request == s.request && t.worker.Idle?
    ensures t.disk == s.disk && t.history == s.history.(restoreFailed := true)
    ensures t.mem.retryAfter == s.mem.retryAfter
  {
    t := Works(s, BAD);
    t := Works(t, BAD);
  }

  /** After the cooldown the same request is accepted again. */
  lemma AcceptAgain(s: Sys, body: Option<map<string, Json>>) returns (t: Sys)
    requires Reachable(s) && PortAllowed(s.port) && s.up && s.now == 0.0 && s.request.NoRequest? && s.worker.Idle?
    requires Validate(body).Success? && s.disk.target.Some? && HostCheck(s.disk.target, Validate(body).value.0)
    requires s.mem.retryAfter == Some(COOLDOWN)
    ensures Reachable(t) && t.up && t.port == s.port && t.request.Accepted?
    ensures t.disk == s.disk && t.history == s.history
  {
    t := ReachStep(s, Tick(COOLDOWN));
    t := ReachStep(t, AcceptStart(body));
  }

  /** A second start copies the never restored configuration over the backup, and the process crashes and recovers. */
  lemma OverwriteBackup(s: Sys, prior: string, text: string) returns (broken: Sys, t: Sys)
    requires Reachable(s) && s.up && PortAllowed(s.port) && s.request.Accepted?
    requires s.disk.target == Some(text) && s.history.original == Some(prior)
    requires Unsettled(s) && s.disk.status.value.domain.Some?
    requires ReadText(prior) == prior && ReadText(text) == text && prior != text
    ensures Reachable(broken) && Unsettled(broken) && !BackupTrue(broken)
    ensures Reachable(t) && t.up && t.worker.Idle? && t.history.original == Some(prior)
    ensures t.disk.target == t.disk.backup == Some(text) && !Has(t, Verified)
  {
    broken := ReachStep(s, SaveBackup(GOOD));
    t := CrashAndRestore(broken);
    t := Works(t, GOOD);
    t := Works(t, GOOD);
  }

  /**
   A failed restore, a failed final status write and a second start: the second start copies the never restored
   configuration over the backup while the first attempt is still recorded as unfinished. The backup promise
   breaks, and after a crash recovery installs the abandoned configuration for good.
   */
  lemma SecondStartLosesBackup(body: Option<map<string, Json>>, port: int, prior: string) returns (broken: Sys, s: Sys)
    requires Suitable(body, port, prior)
    ensures Reachable(broken) && Unsettled(broken) && !BackupTrue(broken)
    ensures Reachable(s) && s.up && s.worker.Idle? && !Settled(s)
    ensures s.history.original == Some(prior) && s.disk.target != Some(prior) && s.disk.backup != Some(prior)
  {
    HostCheckDecides(body, port, Validate(body).value.0);
    var launched := Launch(body, port, prior);
    var text := launched.history.wanted;
    s := FailTwice(launched, prior, text);
    s := AcceptAgain(s, body);
    broken, s := OverwriteBackup(s, prior, text);
  }

  /** A well-formed request for a lower-case public domain is accepted with its domain and address. */
  lemma ValidRequest(domain: string, email: string)
    requires IsDomain(domain) && Lower(domain) == domain && domain != "localhost"
    requires forall i :: 0 <= i < |PRIVATE_SUFFIXES| ==> !EndsWith(domain, PRIVATE_SUFFIXES[i])
    requires IsEmail(email) && |email| <= 254
    ensures Validate(Some(RequestFor(domain, email))) == Success((domain, email))
  {
    assert RequestFor(domain, email).Keys == REQUEST_KEYS;
  }

  /** What the first and the last run above ask of their inputs. */
  predicate Suitable(body: Option<map<string, Json>>, port: int, prior: string) {
    && Validate(body).Success? && PortAllowed(port)
    && HostCheck(Some(prior), Validate(body).value.0) && ReadText(prior) == prior
    && Render(Validate(body).value.0, Validate(body).value.1, port) != Success(prior)
  }

  lemma TextStart(domain: string, email: string, port: int)
    ensures Render(domain, email, port).Success? ==>
              Render(domain, email, port).value != [] && Render(domain, email, port).value[0] == '{'
  {
    if Render(domain, email, port).Success? {
      assert ConfigLines(domain, email, port)[0] == "{";
    }
  }

  lemma SuitableInput(body: Option<map<string, Json>>, port: int, prior: string, domain: string, email: string)
    requires Validate(body) == Success((domain, email)) && PortAllowed(port)
    requires Hosts(prior) == [domain] && '\r' !in prior && prior != [] && prior[0] != '{'
    ensures Suitable(body, port, prior)
  {
    ReadTextExact(prior);
    TextStart(domain, email, port);
  }

  lemma ConcreteRequest()
    ensures Validate(Some(RequestFor("ab.cd", "e@f.gh"))) == Success(("ab.cd", "e@f.gh"))
  {
    ConcreteDomain();
    ConcreteEmail();
    ConcretePublic();
    ValidRequest("ab.cd", "e@f.gh");
  }

  /** The runs above do start somewhere. */
  lemma ConcreteInput()
    ensures Suitable(Some(RequestFor("ab.cd", "e@f.gh")), 8080, "ab.cd {\n")
  {
    ConcreteRequest();
    ConcreteHosts();
    SuitableInput(Some(RequestFor("ab.cd", "e@f.gh")), 8080, "ab.cd {\n", "ab.cd", "e@f.gh");
  }

  /** So does the run that loses carriage returns. */
  lemma ConcreteCarriageReturn()
    ensures var body := Some(RequestFor("ab.cd", "e@f.gh"));
            Validate(body).Success? && HostCheck(Some("ab.cd {\r\n"), Validate(body).value.0) && '\r' in "ab.cd {\r\n"
  {
    ConcreteRequest();
    ConcreteHosts();
    ConcreteTranslation();
    assert "ab.cd {\r\n"[7] == '\r';
  }

  lemma ConcreteTranslation()
    ensures ReadText("ab.cd {\r\n") == "ab.cd {\n"
  {
    PlainPrefix("ab.cd {", "\r\n");
    assert "ab.cd {" + "\r\n" == "ab.cd {\r\n";
    assert ReadText("\r\n") == "\n";
  }

  /** Characters that are not carriage returns are read as they are. */
  lemma {:induction false} PlainPrefix(a: string, b: string)
    requires '\r' !in a
    ensures ReadText(a + b) == a + ReadText(b)
  {
    if a == [] {
      assert a + b == b;
    } else {
      PlainPrefix(a[1..], b);
      assert (a + b)[1..] == a[1..] + b;
      assert a + ReadText(b) == [a[0]] + (a[1..] + ReadText(b));
    }
  }

  lemma ConcretePublic()
    ensures forall i :: 0 <= i < |PRIVATE_SUFFIXES| ==> !EndsWith("ab.cd", PRIVATE_SUFFIXES[i])
  {
    assert forall i :: 0 <= i < |PRIVATE_SUFFIXES| ==>
             |PRIVATE_SUFFIXES[i]| > 5 || PRIVATE_SUFFIXES[i] in [".lan", ".home", ".corp"];
    assert "ab.cd"[0] != '.' && "ab.cd"[1] != '.';
  }

  lemma ConcreteDomain()
    ensures IsDomain("ab.cd")
  {
    SplitOnPiece("ab", '.');
    SplitOnPiece("cd", '.');
    SplitOnConcat("ab", '.', "cd");
    assert "ab" + ['.'] + "cd" == "ab.cd";
  }

  lemma ConcreteEmail()
    ensures IsEmail("e@f.gh")
  {
    ConcreteEmailHost();
    SplitOnPiece("e", '@');
    SplitOnPiece("f.gh", '@');
    SplitOnConcat("e", '@', "f.gh");
    assert "e" + ['@'] + "f.gh" == "e@f.gh";
  }

  lemma ConcreteEmailHost()
    ensures IsEmailHost("f.gh")
  {
    SplitOnPiece("f", '.');
    SplitOnPiece("gh", '.');
    SplitOnConcat("f", '.', "gh");
    assert "f" + ['.'] + "gh" == "f.gh";
  }

  lemma ConcreteHost()
    ensures HostOf("ab.cd {") == Some("ab.cd") && HostOf("").None?
  {
    var line := "ab.cd {";
    assert line[5..] == " {" && line[..5] == "ab.cd";
  }

  lemma ConcreteHosts()
    ensures Hosts("ab.cd {\n") == ["ab.cd"]
  {
    ConcreteHost();
    SplitOnPiece("ab.cd {", '\n');
    SplitOnConcat("ab.cd {", '\n', "");
    assert "ab.cd {" + ['\n'] + "" == "ab.cd {\n";
    assert HostLines([""]) == [];
    assert ["ab.cd {", ""][1..] == [""];
  }
}
