/**
 A reader of Caddyfiles: words, directives and nested blocks. It knows nothing of the printer, and gets back from a
 printed configuration everything that went into it.
 */
module CaddyReader {
  import opened Common
  import opened Caddyfile

  /** A directive: its words, and the directives of the block it opens, if any. */
  datatype Node = Node(words: seq<string>, block: seq<Node>)

  /** What a configuration for one proxied site says. */
  datatype Site = Site(socket: string, domain: string, authority: string, email: string, host: string, port: nat)

  function NonEmpty(pieces: seq<string>): seq<string> {
    if pieces == [] then [] else (if pieces[0] == "" then [] else [pieces[0]]) + NonEmpty(pieces[1..])
  }

  /** The words of a line, which are separated by blanks. */
  function Words(line: string): seq<string> { NonEmpty(SplitOn(line, ' ')) }

  /** The words of each line. */
  function AllWords(lines: seq<string>): seq<seq<string>> {
    seq(|lines|, i requires 0 <= i < |lines| => Words(lines[i]))
  }

  const OPEN := "{"
  const CLOSE := ["}"]

  /** The directives up to the end or to a line that closes the surrounding block, and the lines from there on. */
  function Nodes(lines: seq<seq<string>>): (r: (seq<Node>, seq<seq<string>>))
    ensures |r.1| <= |lines|
    decreases |lines|
  {
    if lines == [] then ([], [])
    else
      var words := lines[0];
      if words == [] then Nodes(lines[1..])
      else if words == CLOSE then ([], lines)
      else if words[|words| - 1] == OPEN then
        var (block, after) := Nodes(lines[1..]);
        var (more, rest) := Nodes(if after == [] then [] else after[1..]);
        ([Node(words[..|words| - 1], block)] + more, rest)
      else
        var (more, rest) := Nodes(lines[1..]);
        ([Node(words, [])] + more, rest)
  }

  /** The number written in decimal digits. */
  function ReadNumber(s: string): Option<nat> {
    if s == [] || !Digit(s[|s| - 1]) then None
    else
      var last := s[|s| - 1] as int - '0' as int;
      if |s| == 1 then Some(last)
      else
        var rest := ReadNumber(s[..|s| - 1]);
        if rest.None? then None else Some(10 * rest.value + last)
  }

  /** "host:port" */
  function ReadAddress(s: string): Option<(string, nat)> {
    var parts := SplitOn(s, ':');
    if |parts| != 2 || ReadNumber(parts[1]).None? then None else Some((parts[0], ReadNumber(parts[1]).value))
  }

  predicate Named(n: Node, words: nat, name: string) { |n.words| == words && words > 0 && n.words[0] == name }

  /** A site whose certificates an ACME issuer gets and whose requests go to one address. */
  function ReadSite(options: Node, site: Node): Option<Site> {
    if |options.block| != 1 || !Named(options.block[0], 2, "admin") then None
    else if |site.words| != 1 || |site.block| != 2 then None
    else
      var tls, proxy := site.block[0], site.block[1];
      if !Named(tls, 1, "tls") || |tls.block| != 1 || !Named(proxy, 2, "reverse_proxy") then None
      else
        var issuer := tls.block[0];
        if issuer.words != ["issuer", "acme"] || |issuer.block| != 2 then None
        else if !Named(issuer.block[0], 2, "dir") || !Named(issuer.block[1], 2, "email") then None
        else
          var address := ReadAddress(proxy.words[1]);
          if address.None? then None
          else
            Some(Site(options.block[0].words[1], site.words[0], issuer.block[0].words[1], issuer.block[1].words[1],
                      address.value.0, address.value.1))
  }

  /** The one site of a configuration with a block of global options and a site block. */
  function ReadConfig(text: string): Option<Site> {
    var (nodes, rest) := Nodes(AllWords(SplitOn(text, '\n')));
    if rest != [] || |nodes| != 2 || nodes[0].words != [] then None else ReadSite(nodes[0], nodes[1])
  }

  // ----- numbers and words -----

  lemma {:induction false} DigitsReadBack(n: nat)
    ensures ReadNumber(Digits(n)) == Some(n)
  {
    if n < 10 {
    } else {
      DigitsReadBack(n / 10);
      var s := Digits(n);
      assert s[..|s| - 1] == Digits(n / 10) && |Digits(n / 10)| > 0;
    }
  }

  lemma {:induction false} NonEmptyConcat(a: seq<string>, b: seq<string>)
    ensures NonEmpty(a + b) == NonEmpty(a) + NonEmpty(b)
  {
    if a == [] {
      assert a + b == b;
    } else {
      assert (a + b)[1..] == a[1..] + b;
      NonEmptyConcat(a[1..], b);
    }
  }

  lemma OneWord(w: string)
    requires w != "" && ' ' !in w
    ensures Words(w) == [w]
  {
    SplitOnPiece(w, ' ');
    assert NonEmpty([w]) == [w] + NonEmpty([w][1..]);
  }

  lemma MoreWords(a: string, b: string)
    ensures Words(a + " " + b) == Words(a) + Words(b)
  {
    SplitOnConcat(a, ' ', b);
    NonEmptyConcat(SplitOn(a, ' '), SplitOn(b, ' '));
    assert a + " " + b == a + [' '] + b;
  }

  lemma NoWords()
    ensures Words("") == []
  {
    SplitOnPiece("", ' ');
  }

  lemma Indented(s: string)
    ensures Words(" " + s) == Words(s)
  {
    MoreWords("", s);
    NoWords();
    assert "" + " " + s == " " + s;
  }

  lemma TwoWords(a: string, b: string)
    requires a != "" && ' ' !in a && b != "" && ' ' !in b
    ensures Words(a + " " + b) == [a, b]
  {
    OneWord(a);
    OneWord(b);
    MoreWords(a, b);
  }

  // ----- lines -----

  lemma LineCloses(rest: seq<seq<string>>)
    ensures Nodes([CLOSE] + rest) == ([], [CLOSE] + rest)
  {
  }

  /** A line that is a directive without a block. */
  predicate Stands(words: seq<string>) { words != [] && words != CLOSE && words[|words| - 1] != OPEN }

  lemma LineStands(words: seq<string>, rest: seq<seq<string>>)
    requires Stands(words)
    ensures Nodes([words] + rest) == ([Node(words, [])] + Nodes(rest).0, Nodes(rest).1)
  {
    assert ([words] + rest)[1..] == rest;
  }

  lemma LineOpens(words: seq<string>, inner: seq<seq<string>>, block: seq<Node>, rest: seq<seq<string>>)
    requires Nodes(inner) == (block, [CLOSE] + rest)
    ensures Nodes([words + [OPEN]] + inner) == ([Node(words, block)] + Nodes(rest).0, Nodes(rest).1)
  {
    assert ([words + [OPEN]] + inner)[1..] == inner && ([CLOSE] + rest)[1..] == rest;
    assert (words + [OPEN])[..|words + [OPEN]| - 1] == words;
  }

  lemma LastLine()
    ensures Nodes([[]]) == ([], [])
  {
    var none: seq<seq<string>> := [];
    assert [[]][1..] == none;
  }

  /** A block of two directives without blocks of their own, at the end of the block around it. */
  lemma PairBlock(words: seq<string>, a: seq<string>, b: seq<string>, after: seq<seq<string>>)
    requires Stands(a) && Stands(b)
    ensures Nodes([words + [OPEN]] + ([a] + ([b] + ([CLOSE] + ([CLOSE] + after)))))
            == ([Node(words, [Node(a, []), Node(b, [])])], [CLOSE] + after)
  {
    var tail := [CLOSE] + after;
    LineCloses(after);
    LineCloses(tail);
    LineStands(b, [CLOSE] + tail);
    LineStands(a, [b] + ([CLOSE] + tail));
    assert [Node(a, [])] + ([Node(b, [])] + []) == [Node(a, []), Node(b, [])];
    LineOpens(words, [a] + ([b] + ([CLOSE] + tail)), [Node(a, []), Node(b, [])], tail);
    var block := Node(words, [Node(a, []), Node(b, [])]);
    assert [block] + [] == [block];
  }

  /** A block with one block in it, then a directive, at the end of the block around them. */
  lemma NestedBlock(
    words: seq<string>, inner: seq<seq<string>>, node: Node, next: seq<string>, after: seq<seq<string>>)
    requires Stands(next) && Nodes(inner) == ([node], [CLOSE] + ([next] + ([CLOSE] + after)))
    ensures Nodes([words + [OPEN]] + inner) == ([Node(words, [node]), Node(next, [])], [CLOSE] + after)
  {
    LineCloses(after);
    LineStands(next, [CLOSE] + after);
    LineOpens(words, inner, [node], [next] + ([CLOSE] + after));
    assert [Node(words, [node])] + ([Node(next, [])] + []) == [Node(words, [node]), Node(next, [])];
  }

  /** A block of one directive, and after it a block that is last. */
  lemma TwoBlocks(
    words: seq<string>, only: seq<string>, second: seq<string>, inner: seq<seq<string>>, block: seq<Node>)
    requires Stands(only) && Nodes(inner) == (block, [CLOSE] + [[]])
    ensures Nodes([words + [OPEN]] + ([only] + ([CLOSE] + ([second + [OPEN]] + inner))))
            == ([Node(words, [Node(only, [])]), Node(second, block)], [])
  {
    var from := [second + [OPEN]] + inner;
    LastLine();
    LineOpens(second, inner, block, [[]]);
    LineCloses(from);
    LineStands(only, [CLOSE] + from);
    assert [Node(only, [])] + [] == [Node(only, [])];
    LineOpens(words, [only] + ([CLOSE] + from), [Node(only, [])], from);
    assert [Node(words, [Node(only, [])])] + ([Node(second, block)] + []) ==
           [Node(words, [Node(only, [])]), Node(second, block)];
  }

  // ----- the words of the printed lines -----

  lemma Braces()
    ensures Words("{") == ["{"] && Words("}") == ["}"] && Words(" }") == ["}"] && Words("  }") == ["}"]
  {
    OneWord("{");
    OneWord("}");
    Indented("}");
    Indented(" }");
    assert " " + "}" == " }" && " " + " }" == "  }";
  }

  lemma TlsWords(line: string)
    requires line == " tls {"
    ensures Words(line) == ["tls"] + ["{"]
  {
    TwoWords("tls", "{");
    Indented("tls {");
    assert "tls" + " " + "{" == "tls {" && " " + "tls {" == " tls {";
  }

  lemma ThreeWords(a: string, b: string, c: string)
    requires a != "" && ' ' !in a && b != "" && ' ' !in b && c != "" && ' ' !in c
    ensures Words(a + " " + (b + " " + c)) == [a, b, c]
  {
    TwoWords(b, c);
    OneWord(a);
    MoreWords(a, b + " " + c);
  }

  lemma TwiceIndented(s: string)
    ensures Words(" " + (" " + s)) == Words(s)
  {
    Indented(s);
    Indented(" " + s);
  }

  lemma IssuerWords(line: string)
    requires line == "  issuer acme {"
    ensures Words(line) == ["issuer", "acme"] + ["{"]
  {
    ThreeWords("issuer", "acme", "{");
    TwiceIndented("issuer" + " " + ("acme" + " " + "{"));
    IssuerText();
  }

  lemma IssuerText()
    ensures " " + (" " + ("issuer" + " " + ("acme" + " " + "{"))) == "  issuer acme {"
  {
  }

  const SOCKET := "unix/" + DATA + "/admin/caddy.sock"

  lemma IndentedPair(a: string, b: string)
    requires a != "" && ' ' !in a && b != "" && ' ' !in b
    ensures Words(" " + (a + " " + b)) == [a, b]
  {
    TwoWords(a, b);
    Indented(a + " " + b);
  }

  lemma AdminWords()
    ensures Words(ADMIN) == ["admin", SOCKET]
  {
    AdminLineText();
    IndentedPair("admin", SOCKET);
  }

  lemma AdminLineText()
    ensures ADMIN == " " + ("admin" + " " + SOCKET) && ' ' !in SOCKET
  {
    assert ' ' !in DATA;
    assert " " + "admin" + " " + "unix/" == " admin unix/";
  }

  lemma DirWords()
    ensures Words("   dir " + CA) == ["dir", CA]
  {
    assert ' ' !in CA_HOST && ' ' !in CA;
    ThreeDeep("dir", CA);
    assert "   " + "dir" + " " + CA == "   dir " + CA;
  }

  lemma ThreeDeep(a: string, b: string)
    requires a != "" && ' ' !in a && b != "" && ' ' !in b
    ensures Words("   " + a + " " + b) == [a, b]
  {
    var s := a + " " + b;
    TwoWords(a, b);
    Indented(s);
    Indented(" " + s);
    Indented(" " + (" " + s));
    assert " " + (" " + (" " + s)) == "   " + a + " " + b;
  }

  lemma EmailWords(email: string)
    requires email != "" && ' ' !in email
    ensures Words("   email " + email) == ["email", email]
  {
    ThreeDeep("email", email);
    assert "   " + "email" + " " + email == "   email " + email;
  }

  lemma ProxyWords(port: nat)
    ensures Words(" reverse_proxy 127.0.0.1:" + Digits(port)) == ["reverse_proxy", "127.0.0.1:" + Digits(port)]
  {
    ProxyText(port);
    IndentedPair("reverse_proxy", "127.0.0.1:" + Digits(port));
  }

  lemma ProxyText(port: nat)
    ensures " reverse_proxy 127.0.0.1:" + Digits(port) == " " + ("reverse_proxy" + " " + ("127.0.0.1:" + Digits(port)))
    ensures ' ' !in "127.0.0.1:" + Digits(port)
  {
    DigitChars(port);
    assert " " + "reverse_proxy" + " " + "127.0.0.1:" == " reverse_proxy 127.0.0.1:";
    assert ' ' !in "127.0.0.1:" && ' ' !in Digits(port);
  }

  lemma PairAddress(host: string, port: string)
    requires ':' !in host && ':' !in port
    ensures SplitOn(host + ":" + port, ':') == [host, port]
  {
    SplitOnPiece(host, ':');
    SplitOnPiece(port, ':');
    SplitOnConcat(host, ':', port);
    assert host + [':'] + port == host + ":" + port;
  }

  lemma AddressReads(port: nat)
    ensures ReadAddress("127.0.0.1:" + Digits(port)) == Some(("127.0.0.1", port))
  {
    DigitChars(port);
    PairAddress("127.0.0.1", Digits(port));
    AddressText(port);
    DigitsReadBack(port);
  }

  lemma AddressText(port: nat)
    ensures "127.0.0.1" + ":" + Digits(port) == "127.0.0.1:" + Digits(port)
  {
    assert "127.0.0.1" + ":" == "127.0.0.1:";
  }

  // ----- the whole text -----

  lemma {:induction false} UnlinesSplit(lines: seq<string>)
    requires forall l :: l in lines ==> OneLine(l)
    ensures SplitOn(Unlines(lines), '\n') == lines + [""]
    decreases |lines|
  {
    if lines == [] {
      assert lines + [""] == [""];
    } else {
      var first, rest := lines[0], lines[1..];
      assert first in lines && forall l :: l in rest ==> l in lines;
      UnlinesSplit(rest);
      SplitOnPiece(first, '\n');
      SplitOnConcat(first, '\n', Unlines(rest));
      assert first + "\n" + Unlines(rest) == first + ['\n'] + Unlines(rest);
      assert [first] + (rest + [""]) == lines + [""];
    }
  }

  function IssuerNode(email: string): Node {
    Node(["issuer", "acme"], [Node(["dir", CA], []), Node(["email", email], [])])
  }

  function ProxyNode(port: nat): Node { Node(["reverse_proxy", "127.0.0.1:" + Digits(port)], []) }

  function SiteNode(domain: string, email: string, port: nat): Node {
    Node([domain], [Node(["tls"], [IssuerNode(email)]), ProxyNode(port)])
  }

  /** The words that are printed, line by line. */
  function PrintedWords(domain: string, email: string, port: nat): seq<seq<string>> {
    [[] + [OPEN], ["admin", SOCKET], CLOSE, [domain] + [OPEN], ["tls"] + [OPEN], ["issuer", "acme"] + [OPEN], ["dir", CA],
     ["email", email], CLOSE, CLOSE, ProxyNode(port).words, CLOSE]
  }

  lemma PrintedNodes(domain: string, email: string, port: nat)
    requires email != OPEN
    ensures Nodes(PrintedWords(domain, email, port) + [[]])
            == ([Node([], [Node(["admin", SOCKET], [])]), SiteNode(domain, email, port)], [])
  {
    StandingWords(email, port);
    TwelveNodes(PrintedWords(domain, email, port), [], ["admin", SOCKET], [domain], ["tls"], ["issuer", "acme"],
                ["dir", CA], ["email", email], ProxyNode(port).words);
  }

  lemma StandingWords(email: string, port: nat)
    requires email != OPEN
    ensures Stands(["admin", SOCKET]) && Stands(["dir", CA]) && Stands(["email", email]) && Stands(ProxyNode(port).words)
  {
    assert |SOCKET| > 1 && |CA| > 1 && |ProxyNode(port).words[1]| > 1;
  }

  /** Twelve lines of this shape, whatever their words. */
  lemma TwelveNodes(
    l: seq<seq<string>>, options: seq<string>, only: seq<string>, site: seq<string>, tls: seq<string>,
    issuer: seq<string>, a: seq<string>, b: seq<string>, next: seq<string>)
    requires Stands(only) && Stands(a) && Stands(b) && Stands(next)
    requires |l| == 12 && l[0] == options + [OPEN] && l[1] == only && l[2] == CLOSE && l[3] == site + [OPEN]
    requires l[4] == tls + [OPEN] && l[5] == issuer + [OPEN] && l[6] == a && l[7] == b && l[8] == l[9] == CLOSE
    requires l[10] == next && l[11] == CLOSE
    ensures Nodes(l + [[]]) ==
              ([Node(options, [Node(only, [])]),
                Node(site, [Node(tls, [Node(issuer, [Node(a, []), Node(b, [])])]), Node(next, [])])], [])
  {
    var inner := [issuer + [OPEN]] + ([a] + ([b] + ([CLOSE] + ([CLOSE] + ([next] + ([CLOSE] + [[]]))))));
    PairBlock(issuer, a, b, [next] + ([CLOSE] + [[]]));
    NestedBlock(tls, inner, Node(issuer, [Node(a, []), Node(b, [])]), next, [[]]);
    var body := [tls + [OPEN]] + inner;
    TwoBlocks(options, only, site, body,
              [Node(tls, [Node(issuer, [Node(a, []), Node(b, [])])]), Node(next, [])]);
    TwelveLines(l);
  }

  lemma TwelveLines(l: seq<seq<string>>)
    requires |l| == 12
    ensures l + [[]] ==
              [l[0]] + ([l[1]] + ([l[2]] + ([l[3]] + ([l[4]] + ([l[5]] + ([l[6]] + ([l[7]] + ([l[8]] + ([l[9]]
              + ([l[10]] + ([l[11]] + [[]])))))))))))
  {
  }

  lemma BraceLines(domain: string, email: string, port: nat)
    ensures var l, w := ConfigLines(domain, email, port), PrintedWords(domain, email, port);
            forall i :: i in {0, 2, 8, 9, 11} ==> Words(l[i]) == w[i]
  {
    Braces();
  }

  lemma SiteWords(domain: string)
    requires domain != "" && ' ' !in domain
    ensures Words(domain + " {") == [domain] + [OPEN]
  {
    TwoWords(domain, "{");
    assert domain + " " + "{" == domain + " {";
  }

  lemma SiteLines(domain: string, email: string, port: nat)
    requires domain != "" && ' ' !in domain
    ensures var l, w := ConfigLines(domain, email, port), PrintedWords(domain, email, port);
            Words(l[1]) == w[1] && Words(l[3]) == w[3]
  {
    AdminWords();
    SiteWords(domain);
  }

  lemma TlsLine(domain: string, email: string, port: nat)
    ensures Words(ConfigLines(domain, email, port)[4]) == PrintedWords(domain, email, port)[4]
  {
    TlsWords(ConfigLines(domain, email, port)[4]);
  }

  lemma IssuerLine(domain: string, email: string, port: nat)
    ensures Words(ConfigLines(domain, email, port)[5]) == PrintedWords(domain, email, port)[5]
  {
    IssuerWords(ConfigLines(domain, email, port)[5]);
  }

  lemma ValueLines(domain: string, email: string, port: nat)
    requires email != "" && ' ' !in email
    ensures var l, w := ConfigLines(domain, email, port), PrintedWords(domain, email, port);
            Words(l[6]) == w[6] && Words(l[7]) == w[7] && Words(l[10]) == w[10]
  {
    DirWords();
    EmailWords(email);
    ProxyWords(port);
  }

  lemma LineWords(domain: string, email: string, port: nat)
    requires domain != "" && ' ' !in domain && email != "" && ' ' !in email
    ensures forall i :: 0 <= i < 12 ==> Words(ConfigLines(domain, email, port)[i]) == PrintedWords(domain, email, port)[i]
  {
    BraceLines(domain, email, port);
    SiteLines(domain, email, port);
    TlsLine(domain, email, port);
    IssuerLine(domain, email, port);
    ValueLines(domain, email, port);
    AnyOfTwelve(ConfigLines(domain, email, port), PrintedWords(domain, email, port));
  }

  lemma AnyOfTwelve(l: seq<string>, w: seq<seq<string>>)
    requires |l| == |w| == 12
    requires Words(l[0]) == w[0] && Words(l[1]) == w[1] && Words(l[2]) == w[2] && Words(l[3]) == w[3]
    requires Words(l[4]) == w[4] && Words(l[5]) == w[5] && Words(l[6]) == w[6] && Words(l[7]) == w[7]
    requires Words(l[8]) == w[8] && Words(l[9]) == w[9] && Words(l[10]) == w[10] && Words(l[11]) == w[11]
    ensures forall i :: 0 <= i < 12 ==> Words(l[i]) == w[i]
  {
  }

  lemma WordsAll(l: seq<string>, w: seq<seq<string>>)
    requires |l| == |w| && forall i :: 0 <= i < |l| ==> Words(l[i]) == w[i]
    ensures AllWords(l + [""]) == w + [[]]
  {
    NoWords();
  }

  lemma TextWords(domain: string, email: string, port: nat)
    requires IsDomain(domain) && IsEmail(email)
    ensures AllWords(SplitOn(ConfigText(domain, email, port), '\n')) == PrintedWords(domain, email, port) + [[]]
  {
    DomainChars(domain);
    EmailChars(email);
    ConfigLinesClean(domain, email, port);
    UnlinesSplit(ConfigLines(domain, email, port));
    LineWords(domain, email, port);
    WordsAll(ConfigLines(domain, email, port), PrintedWords(domain, email, port));
  }

  /**
   The round trip: from the printed text the reader gets back the domain, the e-mail address and the port, with the one
   certificate authority, the one host and the one control socket.
   */
  lemma ConfigReadsBack(domain: string, email: string, port: nat)
    requires IsDomain(domain) && IsEmail(email)
    ensures ReadConfig(ConfigText(domain, email, port)) ==
              Some(Site("unix//var/lib/gstd-node-https/admin/caddy.sock", domain,
                        "https://acme-v02.api.letsencrypt.org/directory", email, "127.0.0.1", port))
  {
    TextWords(domain, email, port);
    EmailChars(email);
    PrintedNodes(domain, email, port);
    AddressReads(port);
    AuthorityText();
    SocketText();
  }

  lemma AuthorityText()
    ensures CA == "https://acme-v02.api.letsencrypt.org/directory"
  {
  }

  lemma SocketText()
    ensures SOCKET == "unix//var/lib/gstd-node-https/admin/caddy.sock"
  {
  }

  /** The text makes the service get certificates for `domain` and pass its requests on to this machine's `port`. */
  predicate Proxies(text: string, domain: string, email: string, port: nat) {
    ReadConfig(text) ==
      Some(Site("unix//var/lib/gstd-node-https/admin/caddy.sock", domain,
                "https://acme-v02.api.letsencrypt.org/directory", email, "127.0.0.1", port))
  }

  /** So says whatever is rendered for an accepted request. */
  lemma RenderedProxies(body: Option<map<string, Json>>, port: int)
    requires Validate(body).Success? && PortAllowed(port)
    ensures var (domain, email) := Validate(body).value;
            Render(domain, email, port).Success? && Proxies(Render(domain, email, port).value, domain, email, port)
  {
    var (domain, email) := Validate(body).value;
    HostCheckDecides(body, port, domain);
    ConfigReadsBack(domain, email, port);
  }
}
