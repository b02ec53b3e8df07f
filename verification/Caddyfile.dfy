/**
 The printer and the parser of the managed Caddyfile: request validation, the rendered
 configuration, and the host expression with which a later request is compared with it.
 */
module Caddyfile {
  import opened Common

  /** The JSON values a request body may hold, as far as validation tells them apart. */
  datatype Json = JString(s: string) | JBool(b: bool) | JOther

  const REQUEST_KEYS := {"action", "domain", "email", "agreeTerms", "exposePublic"}
  const PRIVATE_SUFFIXES :=
    [".local", ".localhost", ".internal", ".lan", ".home", ".corp", ".intranet", ".localdomain"]

  const DATA := "/var/lib/gstd-node-https"
  const ADMIN := " admin unix/" + DATA + "/admin/caddy.sock"
  const CA_HOST := "acme-v02.api.letsencrypt.org"
  const CA := "https://" + CA_HOST + "/directory"

  predicate LowerLetter(c: char) { 'a' <= c <= 'z' }
  predicate Letter(c: char) { LowerLetter(c) || 'A' <= c <= 'Z' }
  predicate LabelChar(c: char) { LowerLetter(c) || Digit(c) || c == '-' }
  predicate HostChar(c: char) { LowerLetter(c) || Digit(c) || c == '.' || c == '-' }
  predicate EmailLocalChar(c: char) { Letter(c) || Digit(c) || c in "._%+-" }
  predicate EmailHostChar(c: char) { Letter(c) || Digit(c) || c in ".-" }

  predicate EndsWith(s: string, suffix: string) {
    |s| >= |suffix| && s[|s| - |suffix|..] == suffix
  }

  /** `str.lower` on the characters that can become ASCII: A-Z and the Kelvin sign. */
  function LowerChar(c: char): char {
    if 'A' <= c <= 'Z' then (c as int - 'A' as int + 'a' as int) as char
    else if c == '\U{212A}' then 'k'
    else c
  }

  function Lower(s: string): (r: string)
    ensures |r| == |s|
  {
    seq(|s|, i requires 0 <= i < |s| => LowerChar(s[i]))
  }

  predicate IsLabel(l: string) {
    && 1 <= |l| <= 63
    && (forall i :: 0 <= i < |l| ==> LabelChar(l[i]))
    && l[0] != '-' && l[|l| - 1] != '-'
  }

  predicate IsTopLevel(l: string) {
    2 <= |l| <= 63 && forall i :: 0 <= i < |l| ==> LowerLetter(l[i])
  }

  /** What the DOMAIN expression matches in full. */
  predicate IsDomain(s: string) {
    var labels := SplitOn(s, '.');
    && 1 <= |s| <= 253
    && |labels| >= 2
    && IsTopLevel(labels[|labels| - 1])
    && forall i :: 0 <= i < |labels| - 1 ==> IsLabel(labels[i])
  }

  /** What the EMAIL expression matches in full. */
  predicate IsEmail(s: string) {
    var parts := SplitOn(s, '@');
    && |parts| == 2
    && |parts[0]| > 0
    && (forall i :: 0 <= i < |parts[0]| ==> EmailLocalChar(parts[0][i]))
    && IsEmailHost(parts[1])
  }

  predicate IsLetters(l: string) {
    2 <= |l| <= 63 && forall i :: 0 <= i < |l| ==> Letter(l[i])
  }

  predicate IsEmailHost(h: string) {
    var labels := SplitOn(h, '.');
    && |labels| >= 2
    && (forall i :: 0 <= i < |h| ==> EmailHostChar(h[i]))
    && |h| - |labels[|labels| - 1]| >= 2
    && IsLetters(labels[|labels| - 1])
  }

  /** `validate`: the checked domain (in lower case) and e-mail address. `None` is a body that is no object. */
  function Validate(body: Option<map<string, Json>>): Result<(string, string)> {
    if body.None? || body.value.Keys != REQUEST_KEYS then Failure("invalid_request")
    else
      var m := body.value;
      if !m["domain"].JString? || !IsDomain(Lower(m["domain"].s)) then Failure("invalid_domain")
      else
        var domain := Lower(m["domain"].s);
        if (exists i :: 0 <= i < |PRIVATE_SUFFIXES| && EndsWith(domain, PRIVATE_SUFFIXES[i])) || domain == "localhost"
        then Failure("invalid_domain")
        else if !m["email"].JString? || |m["email"].s| > 254 || !IsEmail(m["email"].s) then Failure("invalid_email")
        else if m["action"] != JString("configure") || m["agreeTerms"] != JBool(true) || m["exposePublic"] != JBool(true)
        then Failure("consent_required")
        else Success((domain, m["email"].s))
  }

  predicate PortAllowed(port: int) { 1024 <= port <= 65535 && port != 2019 }

  function RequestFor(domain: string, email: string): map<string, Json> {
    map["action" := JString("configure"), "domain" := JString(domain), "email" := JString(email),
        "agreeTerms" := JBool(true), "exposePublic" := JBool(true)]
  }

  /** `render_config`: the inputs are validated again before anything is printed. */
  function Render(domain: string, email: string, port: int): Result<string> {
    match Validate(Some(RequestFor(domain, email)))
    case Failure(e) => Failure(e)
    case Success(_) => if !PortAllowed(port) then Failure("invalid_upstream") else Success(ConfigText(domain, email, port))
  }

  /** Each line followed by a line feed. */
  function Unlines(lines: seq<string>): string {
    if lines == [] then "" else lines[0] + "\n" + Unlines(lines[1..])
  }

  function ConfigLines(domain: string, email: string, port: nat): seq<string> {
    ["{",
     ADMIN,
     "}",
     domain + " {",
     " tls {",
     "  issuer acme {",
     "   dir " + CA,
     "   email " + email,
     "  }",
     " }",
     " reverse_proxy 127.0.0.1:" + Digits(port),
     "}"]
  }

  function ConfigText(domain: string, email: string, port: nat): string {
    Unlines(ConfigLines(domain, email, port))
  }

  /**
   Reading a file in text mode: every CR LF pair and every lone CR becomes one LF.
   The files are always written without translation.
   */
  function ReadText(raw: string): (r: string)
    ensures '\r' !in r
    ensures raw != [] ==> r != []
  {
    if raw == [] then []
    else if raw[0] != '\r' then [raw[0]] + ReadText(raw[1..])
    else if |raw| > 1 && raw[1] == '\n' then ReadText(raw[1..])
    else ['\n'] + ReadText(raw[1..])
  }

  function ReadOpt(file: Option<string>): (r: Option<string>)
    ensures r.Some? == file.Some?
  {
    if file.None? then None else Some(ReadText(file.value))
  }

  /** The capture of the host expression on one line: a non-empty host followed by " {". */
  function HostOf(line: string): Option<string> {
    if |line| >= 3 && line[|line| - 2..] == " {" && forall i :: 0 <= i < |line| - 2 ==> HostChar(line[i])
    then Some(line[..|line| - 2]) else None
  }

  function HostLines(lines: seq<string>): seq<string> {
    if lines == [] then []
    else (if HostOf(lines[0]).Some? then [HostOf(lines[0]).value] else []) + HostLines(lines[1..])
  }

  /** All captures of the host expression, in order. */
  function Hosts(text: string): seq<string> { HostLines(SplitOn(text, '\n')) }

  /** The check `start` makes against an existing Caddyfile. */
  predicate HostCheck(target: Option<string>, domain: string) {
    target.Some? ==> Hosts(ReadText(target.value)) == [domain]
  }

  // ----- reading text -----

  /** Reading gives back exactly the stored text if and only if it holds no carriage return. */
  lemma {:induction false} ReadTextExact(raw: string)
    ensures ReadText(raw) == raw <==> '\r' !in raw
  {
    if raw != [] && raw[0] != '\r' {
      ReadTextExact(raw[1..]);
      assert raw == [raw[0]] + raw[1..];
    }
  }

  lemma {:induction false} ReadTextBefore(a: string, tail: string)
    requires tail != [] && tail[0] == '\r'
    ensures ReadText(a + tail) == ReadText(a) + ReadText(tail)
    decreases |a|
  {
    if a == [] {
      assert a + tail == tail;
    } else {
      ReadTextBefore(a[1..], tail);
      assert (a + tail)[1..] == a[1..] + tail;
      ReadFirst(a, a + tail, ReadText(tail));
    }
  }

  /** The first character is read alike in `a` and in `whole`, which begins with `a` and has no LF behind it. */
  lemma ReadFirst(a: string, whole: string, more: string)
    requires a != [] && whole != [] && whole[0] == a[0]
    requires |a| > 1 ==> |whole| > 1 && whole[1] == a[1]
    requires |a| == 1 && |whole| > 1 ==> whole[1] != '\n'
    requires ReadText(whole[1..]) == ReadText(a[1..]) + more
    ensures ReadText(whole) == ReadText(a) + more
  {
  }

  /** Wherever a CR LF pair stands, or a CR that no LF follows, one LF is read; what is before and after is not affected. */
  lemma ReadTextAt(a: string, end: string, b: string)
    requires end == "\r\n" || (end == "\r" && (b == "" || b[0] != '\n'))
    ensures ReadText(a + end + b) == ReadText(a) + ("\n" + ReadText(b))
  {
    assert a + end + b == a + (end + b);
    ReadTextBefore(a, end + b);
    ReadTextEnd(end, b, end + b);
  }

  lemma ReadTextEnd(end: string, b: string, tail: string)
    requires end == "\r\n" || (end == "\r" && (b == "" || b[0] != '\n'))
    requires tail == end + b
    ensures ReadText(tail) == "\n" + ReadText(b)
  {
    if end == "\r\n" {
      assert tail[1..] == ['\n'] + b && tail[1..][1..] == b;
    } else {
      assert tail[1..] == b;
    }
  }

  lemma ReadTextTwice(raw: string)
    ensures ReadText(ReadText(raw)) == ReadText(raw)
  {
    ReadTextExact(ReadText(raw));
  }

  // ----- the round trip -----

  /** No line break of any kind. */
  predicate OneLine(s: string) { forall i :: 0 <= i < |s| ==> s[i] != '\n' && s[i] != '\r' }

  /** A line that does not begin with a host character, and so names no host. */
  predicate Plain(line: string) { line != [] && !HostChar(line[0]) }

  /** A line in front of a text is read before the text. */
  lemma HostsOfFirst(line: string, rest: string)
    requires OneLine(line)
    ensures Hosts(line + "\n" + rest) == HostLines([line] + SplitOn(rest, '\n'))
  {
    SplitOnPiece(line, '\n');
    SplitOnConcat(line, '\n', rest);
    assert line + "\n" + rest == line + ['\n'] + rest;
  }

  lemma {:induction false} UnlinesHosts(lines: seq<string>)
    requires forall l :: l in lines ==> OneLine(l)
    ensures Hosts(Unlines(lines)) == HostLines(lines)
    decreases |lines|
  {
    if lines == [] {
      assert SplitOn("", '\n') == [""] && HostOf("").None?;
    } else {
      var first, rest := lines[0], lines[1..];
      assert first in lines && forall l :: l in rest ==> l in lines;
      UnlinesHosts(rest);
      HostsOfFirst(first, Unlines(rest));
      assert ([first] + SplitOn(Unlines(rest), '\n'))[1..] == SplitOn(Unlines(rest), '\n');
    }
  }

  lemma {:induction false} UnlinesPlain(lines: seq<string>)
    requires forall l :: l in lines ==> OneLine(l)
    ensures '\r' !in Unlines(lines)
    decreases |lines|
  {
    if lines == [] {
    } else {
      assert lines[0] in lines && forall l :: l in lines[1..] ==> l in lines;
      UnlinesPlain(lines[1..]);
    }
  }

  lemma {:induction false} OnlyHost(lines: seq<string>, k: nat, host: string)
    requires k <= |lines|
    requires forall i :: 0 <= i < |lines| && i != k ==> Plain(lines[i])
    requires k < |lines| ==> HostOf(lines[k]) == Some(host)
    ensures HostLines(lines) == if k < |lines| then [host] else []
  {
    if lines == [] {
    } else {
      OnlyHost(lines[1..], if k == 0 then |lines| - 1 else k - 1, host);
    }
  }

  lemma {:induction false} CharsOfPieces(s: string, sep: char, ok: char -> bool)
    requires forall p, i :: p in SplitOn(s, sep) && 0 <= i < |p| ==> ok(p[i])
    ensures forall i :: 0 <= i < |s| ==> s[i] == sep || ok(s[i])
  {
    if s == [] {
    } else {
      var rest := SplitOn(s[1..], sep);
      var all := SplitOn(s, sep);
      forall p, i | p in rest && 0 <= i < |p| ensures ok(p[i]) {
        var k :| 0 <= k < |rest| && rest[k] == p;
        if s[0] == sep {
          assert all[k + 1] == p;
        } else if k == 0 {
          assert all[0][i + 1] == p[i] && all[0] in all;
        } else {
          assert all[k] == p;
        }
      }
      CharsOfPieces(s[1..], sep, ok);
      assert s[0] != sep ==> all[0][0] == s[0] && all[0] in all;
    }
  }

  lemma DomainChars(s: string)
    requires IsDomain(s)
    ensures s != [] && forall i :: 0 <= i < |s| ==> HostChar(s[i])
  {
    var labels := SplitOn(s, '.');
    forall p, i | p in labels && 0 <= i < |p| ensures HostChar(p[i]) {
      var k :| 0 <= k < |labels| && labels[k] == p;
      assert k < |labels| - 1 ==> IsLabel(labels[k]);
    }
    CharsOfPieces(s, '.', HostChar);
  }

  lemma EmailChars(s: string)
    requires IsEmail(s)
    ensures s != "" && '\n' !in s && '\r' !in s && ' ' !in s && '{' !in s
  {
    var ok := (c: char) => c != '\n' && c != '\r' && c != ' ' && c != '{';
    var parts := SplitOn(s, '@');
    forall p, i | p in parts && 0 <= i < |p| ensures ok(p[i]) {
      assert p == parts[0] || p == parts[1];
      assert p == parts[0] ==> EmailLocalChar(p[i]);
      assert p == parts[1] ==> EmailHostChar(p[i]);
    }
    CharsOfPieces(s, '@', ok);
  }

  lemma OneLineConcat(a: string, b: string)
    requires OneLine(a) && OneLine(b)
    ensures OneLine(a + b)
  {
  }

  lemma AdminLine()
    ensures OneLine(ADMIN) && ADMIN[0] == ' '
  {
    assert OneLine(DATA);
    OneLineConcat(" admin unix/", DATA);
    OneLineConcat(" admin unix/" + DATA, "/admin/caddy.sock");
  }

  lemma DirectoryUrl()
    ensures OneLine(CA)
  {
    assert OneLine(CA_HOST);
    OneLineConcat("https://", CA_HOST);
    OneLineConcat("https://" + CA_HOST, "/directory");
  }

  lemma ConfigLinesClean(domain: string, email: string, port: nat)
    requires IsDomain(domain) && IsEmail(email)
    ensures forall l :: l in ConfigLines(domain, email, port) ==> OneLine(l)
  {
    AdminLine();
    DirectoryUrl();
    OneLineConcat("   dir ", CA);
    DomainChars(domain);
    EmailChars(email);
    DigitChars(port);
    assert OneLine(Digits(port));
    OneLineConcat(domain, " {");
    OneLineConcat("   email ", email);
    OneLineConcat(" reverse_proxy 127.0.0.1:", Digits(port));
  }

  /** Printing then parsing yields exactly the one domain, and reading the text back changes nothing. */
  lemma ConfigParses(domain: string, email: string, port: nat)
    requires IsDomain(domain) && IsEmail(email)
    ensures Hosts(ConfigText(domain, email, port)) == [domain]
    ensures '\r' !in ConfigText(domain, email, port)
  {
    var lines := ConfigLines(domain, email, port);
    ConfigLinesClean(domain, email, port);
    UnlinesHosts(lines);
    UnlinesPlain(lines);
    SiteLineHost(domain);
    OtherLinesPlain(domain, email, port);
    OnlyHost(lines, 3, domain);
  }

  lemma SiteLineHost(domain: string)
    requires IsDomain(domain)
    ensures HostOf(domain + " {") == Some(domain)
  {
    DomainChars(domain);
    var site := domain + " {";
    assert site[|site| - 2..] == " {" && site[..|site| - 2] == domain;
  }

  lemma OtherLinesPlain(domain: string, email: string, port: nat)
    ensures var lines := ConfigLines(domain, email, port);
            forall i :: 0 <= i < |lines| && i != 3 ==> Plain(lines[i])
  {
    AdminLine();
    var lines := ConfigLines(domain, email, port);
    forall i | 0 <= i < |lines| && i != 3 ensures Plain(lines[i]) {
      assert lines[0][0] == '{' && lines[2][0] == lines[11][0] == '}';
      assert lines[1][0] == lines[4][0] == lines[5][0] == lines[6][0] == ' ';
      assert lines[7][0] == lines[8][0] == lines[9][0] == lines[10][0] == ' ';
    }
  }

  lemma LowerTwice(s: string)
    ensures Lower(Lower(s)) == Lower(s)
  {
  }

  /**
   A validated request with an allowed port always renders, and the host check on the
   installed result accepts that request's domain and no other domain.
   */
  lemma HostCheckDecides(body: Option<map<string, Json>>, port: int, other: string)
    requires Validate(body).Success? && PortAllowed(port)
    ensures var (domain, email) := Validate(body).value;
            var text := Render(domain, email, port);
            && text.Success?
            && Hosts(text.value) == [domain]
            && ReadText(text.value) == text.value
            && (HostCheck(Some(text.value), other) <==> other == domain)
  {
    var (domain, email) := Validate(body).value;
    LowerTwice(body.value["domain"].s);
    assert RequestFor(domain, email).Keys == REQUEST_KEYS;
    assert Validate(Some(RequestFor(domain, email))) == Success((domain, email));
    ConfigParses(domain, email, port);
    ReadTextExact(Render(domain, email, port).value);
  }

  // ----- which requests are accepted -----

  predicate IsPrivate(domain: string) {
    domain == "localhost" || exists i :: 0 <= i < |PRIVATE_SUFFIXES| && EndsWith(domain, PRIVATE_SUFFIXES[i])
  }

  /** The action and the two consents of a request. */
  predicate Consents(m: map<string, Json>)
    requires m.Keys == REQUEST_KEYS
  {
    m["action"] == JString("configure") && m["agreeTerms"] == JBool(true) && m["exposePublic"] == JBool(true)
  }

  /**
   A request is accepted with a domain and an address if and only if it has exactly the five fields, its domain is, in
   lower case, a public one, the address is one of at most 254 characters, and both consents are given.
   */
  lemma AcceptedIff(body: Option<map<string, Json>>, domain: string, email: string)
    ensures Validate(body) == Success((domain, email)) <==>
              && body.Some? && body.value.Keys == REQUEST_KEYS
              && body.value["domain"].JString? && Lower(body.value["domain"].s) == domain
              && IsDomain(domain) && !IsPrivate(domain)
              && body.value["email"] == JString(email) && |email| <= 254 && IsEmail(email)
              && Consents(body.value)
  {
    if body.Some? && body.value.Keys == REQUEST_KEYS {
      var m := body.value;
      assert "domain" in m && "email" in m && "action" in m && "agreeTerms" in m && "exposePublic" in m;
    }
  }

  /** The code of a refusal says what is the first thing wrong. */
  lemma RefusedAs(body: Option<map<string, Json>>)
    requires Validate(body).Failure?
    ensures var code := Validate(body).error;
            if body.None? || body.value.Keys != REQUEST_KEYS then code == "invalid_request"
            else
              var m := body.value;
              if !m["domain"].JString? || !IsDomain(Lower(m["domain"].s)) || IsPrivate(Lower(m["domain"].s))
              then code == "invalid_domain"
              else if !m["email"].JString? || |m["email"].s| > 254 || !IsEmail(m["email"].s) then code == "invalid_email"
              else code == "consent_required" && !Consents(m)
  {
  }
}
