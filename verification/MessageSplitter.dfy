/**
 Splitting a long HTML answer into messages: the newline collapse that precedes it, and the greedy packing of
 paragraphs. A character stands for one UTF-16 code unit.
 */
module MessageSplitter {
  const MAX := 4000
  const BREAK := "\n\n"

  // ----- text -----

  /** The white space that `trim` removes. */
  predicate Blank(c: char): (blank: bool)
    ensures '!' <= c <= '~' ==> !blank
    ensures c == '\n' || c == ' ' ==> blank
  {
    || '\t' <= c <= '\r' || c == ' ' || c == '\U{A0}' || c == '\U{1680}' || '\U{2000}' <= c <= '\U{200A}'
    || c == '\U{2028}' || c == '\U{2029}' || c == '\U{202F}' || c == '\U{205F}' || c == '\U{3000}' || c == '\U{FEFF}'
  }

  function TrimStart(s: string): (r: string)
    ensures r == [] || !Blank(r[0])
    ensures |r| <= |s| && r == s[|s| - |r|..]
    ensures forall i :: 0 <= i < |s| - |r| ==> Blank(s[i])
  {
    if s == [] || !Blank(s[0]) then s else TrimStart(s[1..])
  }

  function TrimEnd(s: string): (r: string)
    ensures r == [] || !Blank(r[|r| - 1])
    ensures |r| <= |s| && r == s[..|r|]
    ensures forall i :: |r| <= i < |s| ==> Blank(s[i])
  {
    if s == [] || !Blank(s[|s| - 1]) then s else TrimEnd(s[..|s| - 1])
  }

  function Trim(s: string): (r: string)
    ensures |r| <= |s|
    ensures r == [] || (!Blank(r[0]) && !Blank(r[|r| - 1]))
  {
    TrimEnd(TrimStart(s))
  }

  /** Trimming keeps a part of the text, and only blanks are in front of it and behind it. */
  lemma TrimExact(s: string) returns (from: nat, to: nat)
    ensures from <= to <= |s| && Trim(s) == s[from..to]
    ensures forall i :: 0 <= i < from || to <= i < |s| ==> Blank(s[i])
  {
    var a := TrimStart(s);
    from := |s| - |a|;
    to := from + |TrimEnd(a)|;
    PartOfPart(s, a, TrimEnd(a));
  }

  lemma PartOfPart(s: string, a: string, b: string)
    requires |a| <= |s| && a == s[|s| - |a|..] && |b| <= |a| && b == a[..|b|]
    requires forall i :: 0 <= i < |s| - |a| ==> Blank(s[i])
    requires forall i :: |b| <= i < |a| ==> Blank(a[i])
    ensures b == s[|s| - |a|..|s| - |a| + |b|]
    ensures forall i :: |s| - |a| + |b| <= i < |s| ==> Blank(s[i])
  {
    forall i | |s| - |a| + |b| <= i < |s| ensures Blank(s[i]) {
      assert s[i] == a[i - (|s| - |a|)];
    }
  }

  /** The characters that are no blanks, in order. */
  function Solid(s: string): string {
    if s == [] then [] else (if Blank(s[0]) then [] else [s[0]]) + Solid(s[1..])
  }

  function SolidAll(ps: seq<string>): string { if ps == [] then [] else Solid(ps[0]) + SolidAll(ps[1..]) }

  lemma {:induction false} SolidConcat(a: string, b: string)
    ensures Solid(a + b) == Solid(a) + Solid(b)
  {
    if a == [] {
      assert a + b == b;
    } else {
      assert (a + b)[1..] == a[1..] + b;
      SolidConcat(a[1..], b);
    }
  }

  lemma {:induction false} SolidBlanks(s: string)
    ensures Solid(s) == [] <==> forall i :: 0 <= i < |s| ==> Blank(s[i])
  {
    if s == [] {
    } else {
      SolidBlanks(s[1..]);
      assert forall i :: 0 <= i < |s[1..]| ==> s[1..][i] == s[i + 1];
      assert forall i :: 0 < i < |s| ==> s[i] == s[1..][i - 1];
    }
  }

  lemma BlankEnds(a: string, b: string, c: string)
    requires Solid(a) == "" && Solid(c) == ""
    ensures Solid(a + b + c) == Solid(b)
  {
    SolidConcat(a + b, c);
    SolidConcat(a, b);
  }

  lemma ThreeParts(s: string, from: nat, to: nat)
    requires from <= to <= |s|
    ensures s == s[..from] + s[from..to] + s[to..]
  {
  }

  lemma BlankPart(s: string, from: nat, to: nat)
    requires from <= to <= |s| && forall i :: from <= i < to ==> Blank(s[i])
    ensures Solid(s[from..to]) == ""
  {
    var part := s[from..to];
    assert forall k :: 0 <= k < |part| ==> part[k] == s[from + k];
    SolidBlanks(part);
  }

  lemma SolidOfPart(s: string, from: nat, to: nat)
    requires from <= to <= |s| && forall i :: 0 <= i < from || to <= i < |s| ==> Blank(s[i])
    ensures Solid(s[from..to]) == Solid(s)
  {
    BlankPart(s, 0, from);
    BlankPart(s, to, |s|);
    BlankEnds(s[0..from], s[from..to], s[to..|s|]);
    ThreeParts(s, from, to);
    assert s[0..from] == s[..from] && s[to..|s|] == s[to..];
  }

  /** Trimming loses nothing but blanks, and leaves nothing exactly of text that is all blank. */
  lemma TrimKeepsSolid(s: string)
    ensures Solid(Trim(s)) == Solid(s)
    ensures Trim(s) == "" <==> Solid(s) == ""
  {
    var from, to := TrimExact(s);
    SolidOfPart(s, from, to);
    InkyStart(Trim(s));
  }

  lemma InkyStart(t: string)
    requires t == [] || !Blank(t[0])
    ensures t == "" <==> Solid(t) == ""
  {
  }

  lemma {:induction false} SolidAllConcat(a: seq<string>, b: seq<string>)
    ensures SolidAll(a + b) == SolidAll(a) + SolidAll(b)
  {
    if a == [] {
      assert a + b == b;
    } else {
      assert (a + b)[1..] == a[1..] + b;
      SolidAllConcat(a[1..], b);
    }
  }

  /** How many line feeds `s` begins with. */
  function Leading(s: string): (n: nat)
    ensures n <= |s|
    ensures forall i :: 0 <= i < n ==> s[i] == '\n'
    ensures n < |s| ==> s[n] != '\n'
  {
    if s == [] || s[0] != '\n' then 0 else 1 + Leading(s[1..])
  }

  /** Every run of three or more line feeds becomes two. */
  function Collapse(s: string): string
    decreases |s|
  {
    if s == [] then []
    else if s[0] != '\n' then [s[0]] + Collapse(s[1..])
    else (if Leading(s) >= 3 then BREAK else s[..Leading(s)]) + Collapse(s[Leading(s)..])
  }

  predicate TripleAt(s: string, i: nat)
    requires i + 2 < |s|
  {
    s[i] == '\n' && s[i + 1] == '\n' && s[i + 2] == '\n'
  }

  /** Nowhere three line feeds in a row. */
  predicate Untripled(s: string) { forall i :: 0 <= i && i + 2 < |s| ==> !TripleAt(s, i) }

  /** `split('\n\n')`: cut at each break, from the left, without overlap. */
  function Split(s: string): (ps: seq<string>)
    ensures ps != []
    decreases |s|
  {
    if s == [] then [[]]
    else if BREAK <= s then [[]] + Split(s[2..])
    else
      var rest := Split(s[1..]);
      [[s[0]] + rest[0]] + rest[1..]
  }

  function Join(ps: seq<string>): string {
    if ps == [] then [] else if |ps| == 1 then ps[0] else ps[0] + BREAK + Join(ps[1..])
  }

  lemma {:induction false} SplitJoins(s: string)
    ensures Join(Split(s)) == s
    decreases |s|
  {
    if s == [] {
    } else if BREAK <= s {
      SplitJoins(s[2..]);
      assert s == BREAK + s[2..];
    } else {
      SplitJoins(s[1..]);
      var rest := Split(s[1..]);
      assert Split(s)[1..] == rest[1..];
      assert s == [s[0]] + s[1..];
    }
  }

  /** Text without three line feeds in a row is left alone. */
  lemma {:induction false} UntripledUnchanged(s: string)
    requires Untripled(s)
    ensures Collapse(s) == s
    decreases |s|
  {
    if s == [] {
    } else if s[0] != '\n' {
      UntripledPart(s, 1, |s|);
      assert s[1..|s|] == s[1..];
      UntripledUnchanged(s[1..]);
    } else {
      var n := Leading(s);
      assert n < 3 by {
        if n >= 3 { assert TripleAt(s, 0); }
      }
      UntripledPart(s, n, |s|);
      assert s[n..|s|] == s[n..];
      UntripledUnchanged(s[n..]);
      LinesUnchanged(s, n, s[n..]);
    }
  }

  lemma LinesUnchanged(s: string, n: nat, rest: string)
    requires s != [] && s[0] == '\n' && n == Leading(s) < 3 && rest == s[n..] && Collapse(rest) == rest
    ensures Collapse(s) == s
  {
    assert s == s[..n] + rest;
    CollapseFirst(s, n, rest);
  }

  lemma {:induction false} LeadingRun(n: nat, b: string)
    ensures Leading(Feeds(n) + b) == n + Leading(b)
  {
    if n == 0 {
      assert Feeds(0) + b == b;
    } else {
      assert (Feeds(n) + b)[1..] == Feeds(n - 1) + b;
      LeadingRun(n - 1, b);
    }
  }

  function Feeds(n: nat): string { seq(n, _ => '\n') }

  /** A run of line feeds in front of a text that does not begin with one. */
  lemma CollapseRun(n: nat, b: string)
    requires b == [] || b[0] != '\n'
    ensures Collapse(Feeds(n) + b) == Feeds(if n >= 3 then 2 else n) + Collapse(b)
  {
    LeadingRun(n, b);
    var s := Feeds(n) + b;
    if n == 0 {
      assert s == b;
      assert Feeds(0) + Collapse(b) == Collapse(b);
    } else {
      assert s[n..] == b && s[..n] == Feeds(n);
      CollapseFirst(s, n, b);
      assert Shortened(s, n) == Feeds(if n >= 3 then 2 else n);
    }
  }

  /**
   With the text in front of it ending in something else, a run of line feeds becomes two if it is longer, and stays as
   it is otherwise; the rest is collapsed by itself. This says what `Collapse` does to every text, run by run.
   */
  lemma CollapseAtRun(a: string, n: nat, b: string)
    requires a == [] || a[|a| - 1] != '\n'
    requires b == [] || b[0] != '\n'
    ensures Collapse(a + Feeds(n) + b) == Collapse(a) + Feeds(if n >= 3 then 2 else n) + Collapse(b)
  {
    var tail := Feeds(n) + b;
    CollapseRun(n, b);
    CollapseAppend(a, tail);
    Regroup(a, Feeds(n), b);
    Regroup(Collapse(a), Feeds(if n >= 3 then 2 else n), Collapse(b));
  }

  lemma Regroup(a: string, b: string, c: string)
    ensures a + b + c == a + (b + c)
  {
  }

  lemma {:induction false} CollapseAppend(a: string, b: string)
    requires a == [] || a[|a| - 1] != '\n'
    ensures Collapse(a + b) == Collapse(a) + Collapse(b)
    decreases |a|
  {
    if a == [] {
      assert a + b == b;
    } else if a[0] != '\n' {
      assert (a + b)[1..] == a[1..] + b;
      CollapseAppend(a[1..], b);
    } else {
      LeadingKept(a, b);
      CollapseAppend(a[Leading(a)..], b);
      CollapseLines(a, b);
    }
  }

  /** What becomes of the run of `n` line feeds at the beginning. */
  function Shortened(s: string, n: nat): string
    requires n <= |s|
  {
    if n >= 3 then BREAK else s[..n]
  }

  lemma CollapseFirst(s: string, n: nat, rest: string)
    requires s != [] && s[0] == '\n' && n == Leading(s) && rest == s[n..]
    ensures Collapse(s) == Shortened(s, n) + Collapse(rest)
  {
  }

  lemma Behind(a: string, b: string, n: nat)
    requires n <= |a|
    ensures (a + b)[n..] == a[n..] + b && (a + b)[..n] == a[..n]
  {
  }

  lemma CollapseLines(a: string, b: string)
    requires a != [] && a[0] == '\n' && Leading(a + b) == Leading(a)
    requires Collapse(a[Leading(a)..] + b) == Collapse(a[Leading(a)..]) + Collapse(b)
    ensures Collapse(a + b) == Collapse(a) + Collapse(b)
  {
    var n := Leading(a);
    Behind(a, b, n);
    CollapseFirst(a, n, a[n..]);
    CollapseFirst(a + b, n, a[n..] + b);
    Regroup(Shortened(a, n), Collapse(a[n..]), Collapse(b));
  }

  lemma {:induction false} LeadingKept(a: string, b: string)
    requires a != [] && a[|a| - 1] != '\n'
    ensures Leading(a) < |a| && Leading(a + b) == Leading(a)
    decreases |a|
  {
    if a[0] != '\n' {
    } else {
      assert (a + b)[1..] == a[1..] + b;
      LeadingKept(a[1..], b);
    }
  }

  /** Cut from the left: no piece holds a break, and none but the last ends with a line feed. */
  ghost predicate CutLeft(ps: seq<string>) {
    && ps != [] && (forall p :: p in ps ==> Unbroken(p))
    && forall i :: 0 <= i < |ps| - 1 && ps[i] != [] ==> ps[i][|ps[i]| - 1] != '\n'
  }

  predicate BreakAt(s: string, i: nat)
    requires i + 1 < |s|
  {
    s[i] == '\n' && s[i + 1] == '\n'
  }

  predicate Unbroken(s: string) { forall i :: 0 <= i && i + 1 < |s| ==> !BreakAt(s, i) }

  lemma {:induction false} SplitCuts(s: string)
    ensures CutLeft(Split(s))
    decreases |s|
  {
    if s == [] {
    } else if BREAK <= s {
      SplitCuts(s[2..]);
      CutLonger([], Split(s[2..]));
    } else {
      var rest := Split(s[1..]);
      SplitCuts(s[1..]);
      SplitJoins(s[1..]);
      assert s == [s[0]] + s[1..];
      AheadOfPieces(s[0], rest, s);
      CutFirst(s[0], rest);
    }
  }

  lemma CutLonger(first: string, rest: seq<string>)
    requires Unbroken(first) && (first != [] ==> first[|first| - 1] != '\n') && CutLeft(rest)
    ensures CutLeft([first] + rest)
  {
    var ps := [first] + rest;
    forall i | 0 <= i < |ps| - 1 && ps[i] != [] ensures ps[i][|ps[i]| - 1] != '\n' {
      assert i > 0 ==> ps[i] == rest[i - 1];
    }
  }

  /** The joined text begins with the first piece, and behind it with the break if there are more. */
  lemma FirstOfJoin(ps: seq<string>)
    requires ps != []
    ensures ps[0] <= Join(ps)
    ensures |ps| > 1 ==> ps[0] + BREAK <= Join(ps)
  {
  }

  /** Where a text does not begin with a break, neither does a line feed followed by the first piece of its rest. */
  predicate NoBreakAhead(c: char, rest: seq<string>)
    requires rest != []
  {
    c == '\n' ==> if rest[0] == [] then |rest| == 1 else rest[0][0] != '\n'
  }

  lemma AheadOfPieces(c: char, rest: seq<string>, s: string)
    requires rest != [] && s == [c] + Join(rest) && !(BREAK <= s)
    ensures NoBreakAhead(c, rest)
  {
    FirstOfJoin(rest);
    var j := Join(rest);
    assert s[1..] == j;
    assert |s| > 1 && c == '\n' ==> s[1] != '\n' by {
      assert |s| > 1 ==> s[..2] == [c, s[1]];
    }
    assert |j| > 0 ==> s[1] == j[0];
  }

  lemma UnbrokenFirst(c: char, piece: string)
    requires Unbroken(piece) && (c == '\n' && piece != [] ==> piece[0] != '\n')
    ensures Unbroken([c] + piece)
  {
    var first := [c] + piece;
    forall i | 0 <= i && i + 1 < |first| ensures !BreakAt(first, i) {
      assert i > 0 ==> !BreakAt(piece, i - 1);
    }
  }

  lemma CutFirst(c: char, rest: seq<string>)
    requires CutLeft(rest) && NoBreakAhead(c, rest)
    ensures CutLeft([[c] + rest[0]] + rest[1..])
  {
    var first := [c] + rest[0];
    assert rest[0] in rest;
    UnbrokenFirst(c, rest[0]);
    var ps := [first] + rest[1..];
    forall p | p in ps ensures Unbroken(p) {
      assert p == first || p in rest;
    }
    forall i | 0 <= i < |ps| - 1 && ps[i] != [] ensures ps[i][|ps[i]| - 1] != '\n' {
      assert i > 0 ==> ps[i] == rest[i];
    }
  }

  /** That and joining to the text fix the pieces. */
  lemma {:induction false} SplitUnique(s: string, ps: seq<string>)
    requires CutLeft(ps) && Join(ps) == s
    ensures ps == Split(s)
    decreases |s|
  {
    FirstOfJoin(ps);
    var first, rest := ps[0], ps[1..];
    assert first in ps && forall p :: p in rest ==> p in ps;
    if first == [] && |ps| > 1 {
      assert s == BREAK + Join(rest) && s[2..] == Join(rest);
      CutRest(ps);
      SplitUnique(s[2..], rest);
      assert ps == [[]] + rest;
    } else if s == [] {
      assert ps == [[]];
    } else {
      BeginsWithPiece(s, ps);
      ShorterFirst(ps, s);
      SplitUnique(s[1..], [first[1..]] + rest);
      Longer(ps, s[0], [first[1..]] + rest);
    }
  }

  /** Putting the first character back. */
  lemma Longer(ps: seq<string>, c: char, shorter: seq<string>)
    requires ps != [] && ps[0] != [] && c == ps[0][0] && shorter == [ps[0][1..]] + ps[1..]
    ensures ps == [[c] + shorter[0]] + shorter[1..]
  {
    assert [c] + ps[0][1..] == ps[0];
  }

  lemma CutRest(ps: seq<string>)
    requires CutLeft(ps) && |ps| > 1
    ensures CutLeft(ps[1..])
  {
    var rest := ps[1..];
    assert forall p :: p in rest ==> p in ps;
    forall i | 0 <= i < |rest| - 1 && rest[i] != [] ensures rest[i][|rest[i]| - 1] != '\n' {
      assert rest[i] == ps[i + 1];
    }
  }

  /** A text that begins with a piece that is not empty does not begin with a break. */
  lemma BeginsWithPiece(s: string, ps: seq<string>)
    requires CutLeft(ps) && ps[0] != [] && Join(ps) == s
    ensures !(BREAK <= s)
  {
    var first := ps[0];
    FirstOfJoin(ps);
    assert first in ps && first[0] == s[0];
    if |first| > 1 {
      assert !BreakAt(first, 0) && first[1] == s[1];
    }
  }

  lemma ShorterFirst(ps: seq<string>, s: string)
    requires CutLeft(ps) && ps[0] != [] && Join(ps) == s
    ensures CutLeft([ps[0][1..]] + ps[1..]) && Join([ps[0][1..]] + ps[1..]) == s[1..] && s[0] == ps[0][0]
  {
    var first, rest := ps[0], ps[1..];
    var shorter := [first[1..]] + rest;
    assert first in ps;
    forall i | 0 <= i && i + 1 < |first[1..]| ensures !BreakAt(first[1..], i) {
      assert !BreakAt(first, i + 1);
    }
    forall p | p in shorter ensures Unbroken(p) {
      assert p == first[1..] || p in ps;
    }
    forall i | 0 <= i < |shorter| - 1 && shorter[i] != [] ensures shorter[i][|shorter[i]| - 1] != '\n' {
      assert i > 0 ==> shorter[i] == ps[i];
    }
    assert shorter[1..] == rest;
  }

  // ----- the collapsed text has no empty paragraph -----

  lemma {:induction false} CollapseUntriples(s: string)
    ensures Untripled(Collapse(s))
    ensures s != [] && s[0] != '\n' ==> Collapse(s) != [] && Collapse(s)[0] == s[0]
    ensures s == [] ==> Collapse(s) == []
    decreases |s|
  {
    if s == [] {
    } else if s[0] != '\n' {
      CollapseUntriples(s[1..]);
      PrependUntripled([s[0]], Collapse(s[1..]));
    } else {
      var n := Leading(s);
      CollapseUntriples(s[n..]);
      PrependUntripled(if n >= 3 then BREAK else s[..n], Collapse(s[n..]));
    }
  }

  lemma PrependUntripled(head: string, r: string)
    requires 0 < |head| <= 2 && Untripled(r)
    requires r == [] || r[0] != '\n' || (|head| == 1 && head[0] != '\n')
    ensures Untripled(head + r)
  {
    var t, n := head + r, |head|;
    forall i | 0 <= i && i + 2 < |t| ensures !TripleAt(t, i) {
      if i >= n {
        assert !TripleAt(r, i - n);
      } else {
        assert t[n] == r[0];
      }
    }
  }

  lemma UntripledPart(s: string, from: nat, to: nat)
    requires Untripled(s) && from <= to <= |s|
    ensures Untripled(s[from..to])
  {
    var t := s[from..to];
    forall i | 0 <= i && i + 2 < |t| ensures !TripleAt(t, i) {
      assert !TripleAt(s, from + i);
    }
  }

  /** Text without a tripled line feed that neither begins nor ends with one splits into non-empty paragraphs. */
  lemma {:induction false} SplitNonEmpty(s: string)
    requires Untripled(s) && s != [] && !(BREAK <= s) && s[|s| - 1] != '\n'
    ensures forall p :: p in Split(s) ==> p != []
    decreases |s|
  {
    var t := s[1..];
    if t == [] {
    } else {
      UntripledPart(s, 1, |s|);
      assert s[1..|s|] == t;
      var rest := Split(t);
      if BREAK <= t {
        assert !TripleAt(s, 0);
        assert |t| > 2 && t[2] != '\n' by { assert !TripleAt(s, 1); }
        UntripledPart(t, 2, |t|);
        assert t[2..|t|] == t[2..];
        SplitNonEmpty(t[2..]);
        assert rest[1..] == Split(t[2..]);
        assert forall p :: p in rest[1..] ==> p != [];
      } else {
        SplitNonEmpty(t);
      }
      assert forall p :: p in rest[1..] ==> p in rest;
      assert Split(s) == [[s[0]] + rest[0]] + rest[1..];
    }
  }

  /** What `markdownToHtml` returns. */
  function Html(text: string): string { Trim(Collapse(text)) }

  lemma UntripledTrim(c: string)
    requires Untripled(c)
    ensures Untripled(Trim(c))
  {
    var from, to := TrimExact(c);
    UntripledPart(c, from, to);
  }

  /** Trimmed text neither begins nor ends with a line feed. */
  lemma TrimmedEnds(t: string)
    requires t == [] || (!Blank(t[0]) && !Blank(t[|t| - 1]))
    ensures t == [] || (!(BREAK <= t) && t[|t| - 1] != '\n')
  {
  }

  lemma TrimmedParagraphs(c: string)
    requires Untripled(c)
    ensures Trim(c) == [] || AllNonEmpty(Split(Trim(c)))
  {
    var t := Trim(c);
    UntripledTrim(c);
    TrimmedEnds(t);
    if t != [] { SplitNonEmpty(t); }
  }

  /** So the splitter only ever sees non-empty paragraphs. */
  lemma HtmlParagraphs(text: string)
    ensures Html(text) == [] || AllNonEmpty(Split(Html(text)))
  {
    CollapseUntriples(text);
    TrimmedParagraphs(Collapse(text));
  }

  // ----- groupings -----

  /** A message holds at most 4000 characters, or it is a single paragraph. */
  predicate Fits(group: seq<string>) { |group| == 1 || (|group| > 1 && |Join(group)| <= MAX) }

  predicate AllNonEmpty(ps: seq<string>) { forall p :: p in ps ==> p != [] }

  function Flatten(gs: seq<seq<string>>): seq<string> { if gs == [] then [] else gs[0] + Flatten(gs[1..]) }

  /** Some way of sending the paragraphs in order, every message fitting. */
  predicate Grouping(gs: seq<seq<string>>, ps: seq<string>) {
    Flatten(gs) == ps && forall g :: g in gs ==> Fits(g)
  }

  /** The groups of the greedy packing, with `group` already collected. */
  function Greedy(group: seq<string>, ps: seq<string>): (gs: seq<seq<string>>)
    requires group != []
    decreases |ps|
  {
    if ps == [] then [group]
    else if |Join(group + [ps[0]])| > MAX then [group] + Greedy([ps[0]], ps[1..])
    else Greedy(group + [ps[0]], ps[1..])
  }

  lemma {:induction false} JoinAppend(a: seq<string>, b: seq<string>)
    requires a != [] && b != []
    ensures Join(a + b) == Join(a) + BREAK + Join(b)
  {
    if |a| == 1 {
      assert (a + b)[1..] == b;
    } else {
      assert (a + b)[1..] == a[1..] + b;
      JoinAppend(a[1..], b);
    }
  }

  lemma {:induction false} GreedyIsGrouping(group: seq<string>, ps: seq<string>)
    requires group != [] && Fits(group)
    ensures Grouping(Greedy(group, ps), group + ps)
    decreases |ps|
  {
    if ps == [] {
      assert Flatten([group]) == group + [];
    } else if |Join(group + [ps[0]])| > MAX {
      GreedyIsGrouping([ps[0]], ps[1..]);
      var rest := Greedy([ps[0]], ps[1..]);
      assert ([group] + rest)[1..] == rest;
      assert group + ([ps[0]] + ps[1..]) == group + ps;
    } else {
      GreedyIsGrouping(group + [ps[0]], ps[1..]);
      assert group + [ps[0]] + ps[1..] == group + ps;
    }
  }

  /** Prefixing paragraphs never shortens a joined text. */
  lemma JoinSuffix(x: seq<string>, c: seq<string>)
    requires c != []
    ensures |Join(x + c)| >= |Join(c)|
  {
    if x == [] {
      assert x + c == c;
    } else {
      JoinAppend(x, c);
    }
  }

  lemma JoinPrefix(c: seq<string>, y: seq<string>)
    requires c != []
    ensures |Join(c + y)| >= |Join(c)|
  {
    if y == [] {
      assert c + y == c;
    } else {
      JoinAppend(c, y);
    }
  }

  /**
   The greedy packing stays ahead: if any grouping has to cover `x` in front of the group collected so far, it uses
   at least as many messages.
   */
  lemma {:induction false} StaysAhead(x: seq<string>, group: seq<string>, ps: seq<string>, gs: seq<seq<string>>)
    requires group != [] && Grouping(gs, x + group + ps)
    ensures |Greedy(group, ps)| <= |gs|
    decreases |ps|, |gs|
  {
    assert gs != [];
    if ps == [] {
    } else if |Join(group + [ps[0]])| > MAX {
      var first, rest := gs[0], gs[1..];
      assert first in gs && Fits(first);
      var whole := x + group + ps;
      assert whole == first + Flatten(rest);
      if |first| > |x + group| {
        // A first message that reaches past the group is too long.
        var y := whole[|x + group| + 1..|first|];
        assert first == whole[..|first|];
        assert first == x + (group + [ps[0]]) + y;
        JoinPrefix(x + (group + [ps[0]]), y);
        JoinSuffix(x, group + [ps[0]]);
        assert false;
      }
      var x' := (x + group)[|first|..];
      assert Flatten(rest) == whole[|first|..];
      assert x' + [ps[0]] + ps[1..] == whole[|first|..];
      assert forall g :: g in rest ==> g in gs;
      StaysAhead(x', [ps[0]], ps[1..], rest);
    } else {
      assert x + (group + [ps[0]]) + ps[1..] == x + group + ps;
      StaysAhead(x, group + [ps[0]], ps[1..], gs);
    }
  }

  /** No order-preserving grouping under the rule sends fewer messages. */
  lemma GreedyOptimal(ps: seq<string>, gs: seq<seq<string>>)
    requires ps != [] && Grouping(gs, ps)
    ensures |Greedy([ps[0]], ps[1..])| <= |gs|
    ensures Grouping(Greedy([ps[0]], ps[1..]), ps)
  {
    assert [] + [ps[0]] + ps[1..] == ps;
    StaysAhead([], [ps[0]], ps[1..], gs);
    assert [ps[0]] + ps[1..] == ps;
    GreedyIsGrouping([ps[0]], ps[1..]);
  }

  // ----- joined groups -----

  function Joined(gs: seq<seq<string>>): seq<string> { seq(|gs|, i requires 0 <= i < |gs| => Join(gs[i])) }

  function Trimmed(chunks: seq<string>): seq<string> { seq(|chunks|, i requires 0 <= i < |chunks| => Trim(chunks[i])) }

  /** Re-joining the chunks gives the text back. */
  lemma {:induction false} JoinedJoins(gs: seq<seq<string>>)
    requires gs != [] && forall g :: g in gs ==> g != []
    ensures Join(Joined(gs)) == Join(Flatten(gs))
    ensures |Joined(gs)| == |gs|
  {
    if |gs| == 1 {
      assert Flatten(gs) == gs[0] + [];
      assert Flatten(gs) == gs[0];
    } else {
      assert forall g :: g in gs[1..] ==> g in gs;
      assert gs[0] in gs;
      JoinedJoins(gs[1..]);
      assert Joined(gs)[1..] == Joined(gs[1..]);
      FlattenNonEmpty(gs[1..]);
      JoinAppend(gs[0], Flatten(gs[1..]));
    }
  }

  lemma FlattenNonEmpty(gs: seq<seq<string>>)
    requires gs != [] && forall g :: g in gs ==> g != []
    ensures Flatten(gs) != []
  {
    assert gs[0] in gs;
  }

  /** Everything that is promised about the chunks of one long answer, before they are trimmed. */
  ghost predicate SplitWell(chunks: seq<string>, html: string) {
    && Join(chunks) == html
    && (forall c :: c in chunks ==> |c| <= 4000 || c in Split(html))
    && forall gs :: Grouping(gs, Split(html)) ==> |chunks| <= |gs|
  }

  lemma {:induction false} InFlatten(gs: seq<seq<string>>, k: nat, p: string)
    requires k < |gs| && p in gs[k]
    ensures p in Flatten(gs)
  {
    if k == 0 {
    } else {
      InFlatten(gs[1..], k - 1, p);
    }
  }

  lemma GreedySplitsWell(html: string)
    ensures var ps := Split(html); SplitWell(Joined(Greedy([ps[0]], ps[1..])), html)
  {
    var ps := Split(html);
    var gs := Greedy([ps[0]], ps[1..]);
    assert [ps[0]] + ps[1..] == ps;
    GreedyIsGrouping([ps[0]], ps[1..]);
    JoinedJoins(gs);
    SplitJoins(html);
    forall c | c in Joined(gs) ensures |c| <= MAX || c in ps {
      var k :| 0 <= k < |gs| && c == Join(gs[k]);
      assert gs[k] in gs;
      if |gs[k]| == 1 {
        InFlatten(gs, k, gs[k][0]);
      }
    }
    forall other | Grouping(other, ps) ensures |Joined(gs)| <= |other| {
      GreedyOptimal(ps, other);
    }
  }

  // ----- the sending loop -----

  /** The messages for these chunks: trimmed, and without a last one that would be blank. */
  function Messages(chunks: seq<string>): seq<string> {
    if chunks != [] && Trim(chunks[|chunks| - 1]) == "" then Trimmed(chunks[..|chunks| - 1]) else Trimmed(chunks)
  }

  /** The chunks the loop produces from the current chunk, which is none while empty, and the paragraphs to come. */
  function Chunks(chunk: string, ps: seq<string>): seq<string>
    decreases |ps|
  {
    if ps == [] then [chunk]
    else if chunk == "" then Chunks(ps[0], ps[1..])
    else if |chunk + BREAK + ps[0]| > MAX then [chunk] + Chunks(ps[0], ps[1..])
    else Chunks(chunk + BREAK + ps[0], ps[1..])
  }

  lemma {:induction false} ChunksAreGroups(group: seq<string>, ps: seq<string>)
    requires group != [] && Join(group) != "" && AllNonEmpty(ps)
    ensures Chunks(Join(group), ps) == Joined(Greedy(group, ps))
    decreases |ps|
  {
    if ps == [] {
    } else {
      assert ps[0] in ps && forall p :: p in ps[1..] ==> p in ps;
      JoinAppend(group, [ps[0]]);
      if |Join(group + [ps[0]])| > MAX {
        ChunksAreGroups([ps[0]], ps[1..]);
        var rest := Greedy([ps[0]], ps[1..]);
        assert Joined([group] + rest) == [Join(group)] + Joined(rest);
      } else {
        ChunksAreGroups(group + [ps[0]], ps[1..]);
      }
    }
  }

  // ----- what holds of any paragraphs, empty ones included -----

  /** The text without its line feeds. */
  function Ink(s: string): string {
    if s == [] then [] else (if s[0] == '\n' then [] else [s[0]]) + Ink(s[1..])
  }

  function InkAll(ps: seq<string>): string { if ps == [] then [] else Ink(ps[0]) + InkAll(ps[1..]) }

  lemma {:induction false} InkConcat(a: string, b: string)
    ensures Ink(a + b) == Ink(a) + Ink(b)
  {
    if a == [] {
      assert a + b == b;
    } else {
      assert (a + b)[1..] == a[1..] + b;
      InkConcat(a[1..], b);
    }
  }

  lemma InkOfBreak()
    ensures Ink(BREAK) == []
  {
    assert BREAK[1..] == "\n";
  }

  lemma InkAppend(a: string, b: string)
    ensures Ink(a + BREAK + b) == Ink(a) + Ink(b)
  {
    InkConcat(a + BREAK, b);
    InkConcat(a, BREAK);
    InkOfBreak();
  }

  lemma {:induction false} InkJoin(ps: seq<string>)
    ensures Ink(Join(ps)) == InkAll(ps)
  {
    if ps == [] {
    } else if |ps| == 1 {
      assert InkAll(ps) == Ink(ps[0]) + [];
    } else {
      InkJoin(ps[1..]);
      InkAppend(ps[0], Join(ps[1..]));
    }
  }

  lemma {:induction false} ChunksInk(chunk: string, ps: seq<string>)
    ensures InkAll(Chunks(chunk, ps)) == Ink(chunk) + InkAll(ps)
    decreases |ps|
  {
    if ps == [] {
      assert InkAll([chunk]) == Ink(chunk) + [];
    } else if chunk == "" {
      ChunksInk(ps[0], ps[1..]);
    } else if |chunk + BREAK + ps[0]| > MAX {
      ChunksInk(ps[0], ps[1..]);
      var rest := Chunks(ps[0], ps[1..]);
      assert ([chunk] + rest)[1..] == rest;
    } else {
      InkAppend(chunk, ps[0]);
      ChunksInk(chunk + BREAK + ps[0], ps[1..]);
    }
  }

  lemma {:induction false} ChunksFit(chunk: string, ps: seq<string>)
    requires |chunk| <= MAX || chunk in ps
    ensures forall c :: c in Chunks(chunk, ps) ==> |c| <= MAX || c in ps
  {
    ChunksFitAmong(chunk, ps, ps);
  }

  lemma {:induction false} ChunksFitAmong(chunk: string, ps: seq<string>, all: seq<string>)
    requires |chunk| <= MAX || chunk in all
    requires forall p :: p in ps ==> p in all
    ensures forall c :: c in Chunks(chunk, ps) ==> |c| <= MAX || c in all
    decreases |ps|
  {
    if ps == [] {
    } else {
      assert ps[0] in ps && forall p :: p in ps[1..] ==> p in ps;
      if chunk == "" || |chunk + BREAK + ps[0]| > MAX {
        ChunksFitAmong(ps[0], ps[1..], all);
      } else {
        ChunksFitAmong(chunk + BREAK + ps[0], ps[1..], all);
      }
    }
  }

  /** Nothing but line feeds is lost or added, and every chunk has at most 4000 characters or is one paragraph. */
  predicate SplitSoundly(chunks: seq<string>, html: string) {
    Ink(Join(chunks)) == Ink(html) && forall c :: c in chunks ==> |c| <= 4000 || c in Split(html)
  }

  lemma ChunksSound(html: string)
    ensures SplitSoundly(Chunks("", Split(html)), html)
  {
    var ps := Split(html);
    SplitJoins(html);
    InkJoin(ps);
    ChunksInk("", ps);
    InkJoin(Chunks("", ps));
    ChunksFit("", ps);
  }

  /** Without empty paragraphs the chunks are the greedy groups. */
  lemma ChunksSplitWell(html: string)
    requires AllNonEmpty(Split(html))
    ensures SplitWell(Chunks("", Split(html)), html)
  {
    var ps := Split(html);
    GreedySplitsWell(html);
    assert ps[0] in ps && forall p :: p in ps[1..] ==> p in ps;
    ChunksAreGroups([ps[0]], ps[1..]);
    assert Chunks("", ps) == Chunks(ps[0], ps[1..]);
  }

  /** The same chunks, by position in the list. */
  function ChunksFrom(chunk: string, paras: seq<string>, i: nat): seq<string>
    requires i <= |paras|
    decreases |paras| - i
  {
    if i == |paras| then [chunk]
    else if chunk == "" then ChunksFrom(paras[i], paras, i + 1)
    else if |chunk + BREAK + paras[i]| > MAX then [chunk] + ChunksFrom(paras[i], paras, i + 1)
    else ChunksFrom(chunk + BREAK + paras[i], paras, i + 1)
  }

  lemma {:induction false} ChunksFromAre(chunk: string, paras: seq<string>, i: nat)
    requires i <= |paras|
    ensures ChunksFrom(chunk, paras, i) == Chunks(chunk, paras[i..])
    decreases |paras| - i
  {
    if i == |paras| {
    } else {
      var p := paras[i];
      assert paras[i..][0] == p && paras[i..][1..] == paras[i + 1..];
      if chunk == "" || |chunk + BREAK + p| > MAX {
        ChunksFromAre(p, paras, i + 1);
      } else {
        ChunksFromAre(chunk + BREAK + p, paras, i + 1);
      }
    }
  }

  /** The packing loop. */
  method Pack(paras: seq<string>) returns (sent: seq<string>)
    ensures sent == Messages(Chunks("", paras)) && SentFor(sent, Chunks("", paras))
  {
    var chunk := "";
    sent := [];
    ghost var done := [];
    var i := 0;
    while i < |paras|
      invariant 0 <= i <= |paras|
      invariant done + ChunksFrom(chunk, paras, i) == ChunksFrom("", paras, 0)
      invariant sent == Trimmed(done)
    {
      var p := paras[i];
      if chunk != "" && |chunk + BREAK + p| > MAX {
        TrimmedSnoc(done, chunk);
        assert done + ([chunk] + ChunksFrom(p, paras, i + 1)) == (done + [chunk]) + ChunksFrom(p, paras, i + 1);
        sent := sent + [Trim(chunk)];
        done := done + [chunk];
        chunk := p;
      } else {
        chunk := if chunk != "" then chunk + BREAK + p else p;
      }
      i := i + 1;
    }
    ChunksFromAre("", paras, 0);
    assert paras[0..] == paras;
    LastChunk(done, chunk);
    if Trim(chunk) != "" { sent := sent + [Trim(chunk)]; }
    MessagesSent(Chunks("", paras));
  }

  lemma LastChunk(done: seq<string>, chunk: string)
    ensures Messages(done + [chunk]) == Trimmed(done) + (if Trim(chunk) == "" then [] else [Trim(chunk)])
  {
    var all := done + [chunk];
    assert all[|all| - 1] == chunk && all[..|all| - 1] == done;
    TrimmedSnoc(done, chunk);
  }

  lemma TrimmedSnoc(done: seq<string>, chunk: string)
    ensures Trimmed(done + [chunk]) == Trimmed(done) + [Trim(chunk)]
  {
  }

  // ----- what reaches the reader -----

  lemma {:induction false} SolidInk(s: string)
    ensures Solid(Ink(s)) == Solid(s)
  {
    if s == [] {
    } else {
      SolidInk(s[1..]);
      SolidConcat(if s[0] == '\n' then [] else [s[0]], Ink(s[1..]));
    }
  }

  lemma {:induction false} SolidInkAll(ps: seq<string>)
    ensures Solid(InkAll(ps)) == SolidAll(ps)
  {
    if ps == [] {
    } else {
      SolidInk(ps[0]);
      SolidInkAll(ps[1..]);
      SolidConcat(Ink(ps[0]), InkAll(ps[1..]));
    }
  }

  lemma {:induction false} SolidTrimmed(chunks: seq<string>)
    ensures SolidAll(Trimmed(chunks)) == SolidAll(chunks)
  {
    if chunks == [] {
    } else {
      SolidTrimmed(chunks[1..]);
      TrimKeepsSolid(chunks[0]);
      TrimmedRest(chunks);
    }
  }

  lemma TrimmedRest(chunks: seq<string>)
    requires chunks != []
    ensures Trimmed(chunks) != [] && Trimmed(chunks)[0] == Trim(chunks[0])
    ensures Trimmed(chunks)[1..] == Trimmed(chunks[1..])
  {
    var a, b, rest := Trimmed(chunks)[1..], Trimmed(chunks[1..]), chunks[1..];
    forall i | 0 <= i < |b| ensures a[i] == b[i] {
      assert rest[i] == chunks[i + 1];
    }
    assert |a| == |b|;
  }

  lemma SolidAllSnoc(init: seq<string>, last: string)
    ensures SolidAll(init + [last]) == SolidAll(init) + Solid(last)
  {
    SolidAllConcat(init, [last]);
    assert SolidAll([last]) == Solid(last) + SolidAll([]);
  }

  lemma SolidLast(init: seq<string>, last: string)
    ensures SolidAll(Messages(init + [last])) == SolidAll(init + [last])
  {
    LastChunk(init, last);
    TrimKeepsSolid(last);
    SolidTrimmed(init);
    LastSolid(init, last, Trimmed(init), Trim(last));
  }

  /** With or without a last text that is blank. */
  lemma LastSolid(init: seq<string>, last: string, trimmed: seq<string>, kept: string)
    requires SolidAll(trimmed) == SolidAll(init) && Solid(kept) == Solid(last) && (kept == "" ==> Solid(last) == "")
    ensures SolidAll(trimmed + (if kept == "" then [] else [kept])) == SolidAll(init + [last])
  {
    SolidAllSnoc(init, last);
    if kept == "" {
      assert trimmed + [] == trimmed;
    } else {
      SolidAllSnoc(trimmed, kept);
    }
  }

  lemma InitAndLast(chunks: seq<string>) returns (init: seq<string>, last: string)
    requires chunks != []
    ensures chunks == init + [last]
  {
    init, last := chunks[..|chunks| - 1], chunks[|chunks| - 1];
  }

  lemma SolidMessages(chunks: seq<string>)
    ensures SolidAll(Messages(chunks)) == SolidAll(chunks)
  {
    if chunks == [] {
      assert Messages([]) == [];
    } else {
      var init, last := InitAndLast(chunks);
      SolidLast(init, last);
    }
  }

  /**
   What is sent for these chunks: one message each, in order, with the same characters but blanks at its ends; it is
   empty only if the chunk is blank, and a last blank chunk is not sent at all.
   */
  ghost predicate SentFor(sent: seq<string>, chunks: seq<string>) {
    && |sent| <= |chunks| <= |sent| + 1
    && (forall i :: 0 <= i < |sent| ==> Solid(sent[i]) == Solid(chunks[i]) && |sent[i]| <= |chunks[i]|)
    && (forall i :: 0 <= i < |sent| && sent[i] == "" ==> Solid(chunks[i]) == "")
    && (|sent| < |chunks| <==> chunks != [] && Solid(chunks[|chunks| - 1]) == "")
  }

  lemma MessagesSent(chunks: seq<string>)
    ensures SentFor(Messages(chunks), chunks)
  {
    forall i | 0 <= i < |chunks| ensures Solid(Trim(chunks[i])) == Solid(chunks[i])
      ensures Trim(chunks[i]) == "" <==> Solid(chunks[i]) == ""
    {
      TrimKeepsSolid(chunks[i]);
    }
  }

  /** The chunks have the non-blank characters of the text. */
  lemma ChunksSolid(html: string, ps: seq<string>, chunks: seq<string>)
    requires Join(ps) == html && InkAll(chunks) == InkAll(ps)
    ensures SolidAll(chunks) == Solid(html)
  {
    InkJoin(ps);
    SolidInk(html);
    SolidInkAll(chunks);
  }

  lemma ChunksInkAll(ps: seq<string>)
    ensures InkAll(Chunks("", ps)) == InkAll(ps)
  {
    ChunksInk("", ps);
    assert Ink("") == "";
  }

  /** All non-blank characters of the text are sent, in order. */
  lemma NothingLost(html: string)
    ensures SolidAll(Messages(Chunks("", Split(html)))) == Solid(html)
  {
    var ps := Split(html);
    SplitJoins(html);
    ChunksInkAll(ps);
    ChunksSolid(html, ps, Chunks("", ps));
    SolidMessages(Chunks("", ps));
  }

  /**
   `sendHtml`: a short answer goes out whole; a long one as trimmed chunks that fit and lose nothing but line feeds. On
   the output of `markdownToHtml`, which has no empty paragraph, they join back to it and are as few as possible.
   */
  method SendHtml(html: string) returns (sent: seq<string>, ghost chunks: seq<string>)
    ensures |html| <= 4000 ==> sent == [html]
    ensures |html| > 4000 ==> SplitSoundly(chunks, html) && sent == Messages(chunks)
    ensures |html| > 4000 && AllNonEmpty(Split(html)) ==> SplitWell(chunks, html)
    ensures |html| > 4000 ==> SentFor(sent, chunks)
    ensures SolidAll(sent) == Solid(html)
  {
    chunks := Chunks("", Split(html));
    if |html| <= MAX {
      assert SolidAll([html]) == Solid(html) + SolidAll([html][1..]);
      return [html], chunks;
    }
    MessagesSent(chunks);
    NothingLost(html);
    sent := Pack(Split(html));
    ChunksSound(html);
    if AllNonEmpty(Split(html)) { ChunksSplitWell(html); }
  }
}
