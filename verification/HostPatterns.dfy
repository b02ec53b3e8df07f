/**
 The regular expressions of the helper, with the usual meaning of a full match, and that the label-by-label checks of
 `Caddyfile` are exactly these expressions.
 */
module HostPatterns {
  import opened Common
  import opened Caddyfile

  /** `Times` repeats an expression that does not match the empty text, at least and at most so often. */
  datatype Re = One(ok: char -> bool) | Cat(first: Re, second: Re) | Times(re: Re, least: nat, most: Option<nat>)

  function Fewer(n: nat): nat { if n == 0 then 0 else n - 1 }

  /** What is left of the bounds after one repetition. */
  function Rest(r: Re): Re
    requires r.Times?
  {
    Times(r.re, Fewer(r.least), if r.most.Some? then Some(Fewer(r.most.value)) else None)
  }

  /** The expression matches the whole text. */
  ghost predicate Matches(r: Re, s: string)
    decreases |s|, r
  {
    match r
    case One(ok) => |s| == 1 && ok(s[0])
    case Cat(first, second) => exists k :: 0 <= k <= |s| && Matches(first, s[..k]) && Matches(second, s[k..])
    case Times(re, least, most) =>
      || (least == 0 && s == "")
      || ((most.Some? ==> most.value > 0)
          && exists k :: 0 < k <= |s| && Matches(re, s[..k]) && Matches(Rest(r), s[k..]))
  }

  function Optional(r: Re): Re { Times(r, 0, Some(1)) }

  predicate AlNum(c: char) { LowerLetter(c) || Digit(c) }
  predicate Point(c: char) { c == '.' }
  predicate AtSign(c: char) { c == '@' }
  predicate Space(c: char) { c == ' ' }
  predicate Brace(c: char) { c == '{' }

  /** `[a-z0-9](?:[a-z0-9-]{0,61}[a-z0-9])?` */
  function LabelRe(): Re {
    Cat(One(AlNum), Optional(Cat(Times(One(LabelChar), 0, Some(61)), One(AlNum))))
  }

  function LabelAndPoint(): Re { Cat(LabelRe(), One(Point)) }

  /** `[a-z]{2,63}` */
  function TopLevelRe(): Re { Times(One(LowerLetter), 2, Some(63)) }

  /** At least so many labels with their points, and a top level. */
  function Labels(least: nat): Re { Cat(Times(LabelAndPoint(), least, None), TopLevelRe()) }

  /** `(?:label\.)+top` */
  function DomainRe(): Re { Labels(1) }

  /** `[A-Za-z0-9.-]+\.[A-Za-z]{2,63}` */
  function EmailHostRe(): Re {
    Cat(Times(One(EmailHostChar), 1, None), Cat(One(Point), Times(One(Letter), 2, Some(63))))
  }

  /** `[A-Za-z0-9._%+\-]+@host` */
  function EmailRe(): Re { Cat(Times(One(EmailLocalChar), 1, None), Cat(One(AtSign), EmailHostRe())) }

  /** `[a-z0-9.-]+ \{` */
  function HostLineRe(): Re { Cat(Times(One(HostChar), 1, None), Cat(One(Space), One(Brace))) }

  // ----- single characters -----

  lemma {:induction false} TimesOne(ok: char -> bool, least: nat, most: Option<nat>, s: string)
    ensures Matches(Times(One(ok), least, most), s) <==>
              least <= |s| && (most.Some? ==> |s| <= most.value) && forall i :: 0 <= i < |s| ==> ok(s[i])
    decreases |s|
  {
    if s == "" {
    } else {
      var r := Rest(Times(One(ok), least, most));
      TimesOne(ok, r.least, r.most, s[1..]);
      assert s[..1] == [s[0]];
      assert Matches(One(ok), s[..1]) <==> ok(s[0]);
      assert forall i :: 0 < i < |s| ==> s[i] == s[1..][i - 1];
    }
  }

  lemma OneFirst(ok: char -> bool, r: Re, s: string)
    ensures Matches(Cat(One(ok), r), s) <==> s != "" && ok(s[0]) && Matches(r, s[1..])
  {
    if s != "" {
      assert s[..1] == [s[0]];
      assert Matches(One(ok), s[..1]) <==> ok(s[0]);
    }
  }

  lemma OneLast(r: Re, ok: char -> bool, s: string)
    ensures Matches(Cat(r, One(ok)), s) <==> s != "" && Matches(r, s[..|s| - 1]) && ok(s[|s| - 1])
  {
    if s != "" {
      assert s[|s| - 1..] == [s[|s| - 1]];
      assert Matches(One(ok), s[|s| - 1..]) <==> ok(s[|s| - 1]);
    }
  }

  lemma OptionalMatches(r: Re, s: string)
    ensures Matches(Optional(r), s) <==> s == "" || Matches(r, s)
  {
    var none := Rest(Optional(r));
    assert forall t :: Matches(none, t) <==> t == "";
    assert s[..|s|] == s && s[|s|..] == "";
  }

  // ----- domains -----

  lemma LabelMatches(s: string)
    ensures Matches(LabelRe(), s) <==> IsLabel(s)
  {
    var tail := Cat(Times(One(LabelChar), 0, Some(61)), One(AlNum));
    OneFirst(AlNum, Optional(tail), s);
    if |s| > 1 {
      var rest := s[1..];
      OptionalMatches(tail, rest);
      OneLast(Times(One(LabelChar), 0, Some(61)), AlNum, rest);
      var inner := rest[..|rest| - 1];
      TimesOne(LabelChar, 0, Some(61), inner);
      assert forall i :: 0 <= i < |inner| ==> inner[i] == s[i + 1];
      assert forall i :: 0 < i < |s| - 1 ==> s[i] == inner[i - 1];
    } else if |s| == 1 {
      OptionalMatches(tail, s[1..]);
    }
  }

  lemma LabelAndPointMatches(s: string)
    ensures Matches(LabelAndPoint(), s) <==> s != "" && IsLabel(s[..|s| - 1]) && s[|s| - 1] == '.'
  {
    OneLast(LabelRe(), Point, s);
    if s != "" { LabelMatches(s[..|s| - 1]); }
  }

  /** Cutting off one repetition in front of something else. */
  ghost predicate OneMore(r: Re, least: nat, next: Re, s: string) {
    exists j :: 0 < j <= |s| && Matches(r, s[..j]) && Matches(Cat(Times(r, Fewer(least), None), next), s[j..])
  }

  lemma CutOne(r: Re, least: nat, next: Re, s: string, k: nat)
    requires k <= |s| && Matches(Times(r, least, None), s[..k]) && Matches(next, s[k..])
    ensures (least == 0 && Matches(next, s)) || OneMore(r, least, next, s)
  {
    if least == 0 && s[..k] == "" {
      assert s[k..] == s;
    } else {
      var j :| 0 < j <= k && Matches(r, s[..k][..j]) && Matches(Rest(Times(r, least, None)), s[..k][j..]);
      assert s[..k][..j] == s[..j];
      assert s[..k][j..] == s[j..][..k - j] && s[k..] == s[j..][k - j..];
    }
  }

  lemma AddOne(r: Re, least: nat, next: Re, s: string, j: nat)
    requires 0 < j <= |s| && Matches(r, s[..j]) && Matches(Cat(Times(r, Fewer(least), None), next), s[j..])
    ensures Matches(Cat(Times(r, least, None), next), s)
  {
    var rest := s[j..];
    var k :| 0 <= k <= |rest| && Matches(Times(r, Fewer(least), None), rest[..k]) && Matches(next, rest[k..]);
    var front := s[..j + k];
    assert front[..j] == s[..j] && front[j..] == rest[..k] && s[j + k..] == rest[k..];
    assert Matches(Rest(Times(r, least, None)), front[j..]);
    assert Matches(Times(r, least, None), front);
  }

  lemma TimesThen(r: Re, least: nat, next: Re, s: string)
    ensures Matches(Cat(Times(r, least, None), next), s) <==>
              (least == 0 && Matches(next, s)) || OneMore(r, least, next, s)
  {
    if Matches(Cat(Times(r, least, None), next), s) {
      var k :| 0 <= k <= |s| && Matches(Times(r, least, None), s[..k]) && Matches(next, s[k..]);
      CutOne(r, least, next, s, k);
    }
    if OneMore(r, least, next, s) {
      var j :| 0 < j <= |s| && Matches(r, s[..j]) && Matches(Cat(Times(r, Fewer(least), None), next), s[j..]);
      AddOne(r, least, next, s, j);
    }
    assert s[..0] == "" && s[0..] == s;
  }

  lemma CutMore(r: Re, least: nat, next: Re, s: string) returns (j: nat)
    requires Matches(Cat(Times(r, least, None), next), s) && !Matches(next, s)
    ensures 0 < j <= |s| && Matches(r, s[..j]) && Matches(Cat(Times(r, Fewer(least), None), next), s[j..])
  {
    TimesThen(r, least, next, s);
    j :| 0 < j <= |s| && Matches(r, s[..j]) && Matches(Cat(Times(r, Fewer(least), None), next), s[j..]);
  }

  /** Labels, the last of them a top level. */
  predicate AllLabels(labels: seq<string>)
    requires labels != []
  {
    IsTopLevel(labels[|labels| - 1]) && forall i :: 0 <= i < |labels| - 1 ==> IsLabel(labels[i])
  }

  lemma LabelsOfFirst(first: string, rest: seq<string>)
    requires rest != []
    ensures AllLabels([first] + rest) <==> IsLabel(first) && AllLabels(rest)
  {
    var all := [first] + rest;
    assert forall i :: 0 <= i < |rest| ==> rest[i] == all[i + 1];
    if AllLabels(all) {
      assert IsLabel(all[0]);
    }
  }

  /** No point before `n`. */
  predicate NoPoint(s: string, n: nat)
    requires n <= |s|
  {
    forall m :: 0 <= m < n ==> s[m] != '.'
  }

  /** One label and what follows it, in a text whose first point is at `i`. */
  lemma FirstLabel(s: string, i: nat, j: nat)
    requires i < |s| && s[i] == '.' && NoPoint(s, i) && 0 < j <= |s|
    ensures Matches(LabelAndPoint(), s[..j]) <==> j == i + 1 && IsLabel(s[..i])
  {
    LabelAndPointMatches(s[..j]);
    var l := s[..j - 1];
    assert s[..j][..j - 1] == l;
    assert IsLabel(l) ==> NoPoint(s, j - 1) by {
      assert forall m :: 0 <= m < j - 1 ==> s[m] == l[m];
    }
  }

  lemma LabelsWithoutPoint(least: nat, s: string)
    requires NoPoint(s, |s|)
    ensures Matches(Labels(least), s) <==> least == 0 && IsTopLevel(s)
  {
    TimesThen(LabelAndPoint(), least, TopLevelRe(), s);
    TimesOne(LowerLetter, 2, Some(63), s);
    forall j | 0 < j <= |s| ensures !Matches(LabelAndPoint(), s[..j]) {
      LabelAndPointMatches(s[..j]);
    }
  }

  lemma FirstLabelCut(least: nat, s: string, i: nat)
    requires least <= 1 && i < |s| && s[i] == '.' && NoPoint(s, i) && Matches(Labels(least), s)
    ensures IsLabel(s[..i]) && Matches(Labels(0), s[i + 1..])
  {
    NoTopLevel(s, i);
    var j := CutMore(LabelAndPoint(), least, TopLevelRe(), s);
    FirstLabel(s, i, j);
  }

  lemma NoTopLevel(s: string, i: nat)
    requires i < |s| && s[i] == '.'
    ensures !Matches(TopLevelRe(), s)
  {
    TimesOne(LowerLetter, 2, Some(63), s);
  }

  lemma FirstLabelAdded(least: nat, s: string, i: nat)
    requires least <= 1 && i < |s| && s[i] == '.' && NoPoint(s, i)
    requires IsLabel(s[..i]) && Matches(Labels(0), s[i + 1..])
    ensures Matches(Labels(least), s)
  {
    FirstLabel(s, i, i + 1);
    AddOne(LabelAndPoint(), least, TopLevelRe(), s, i + 1);
  }

  lemma LabelsFromPoint(least: nat, s: string, i: nat)
    requires least <= 1 && i < |s| && s[i] == '.' && NoPoint(s, i)
    ensures Matches(Labels(least), s) <==> IsLabel(s[..i]) && Matches(Labels(0), s[i + 1..])
  {
    if Matches(Labels(least), s) { FirstLabelCut(least, s, i); }
    if IsLabel(s[..i]) && Matches(Labels(0), s[i + 1..]) { FirstLabelAdded(least, s, i); }
  }

  lemma {:induction false} FirstPoint(s: string) returns (i: nat)
    requires !NoPoint(s, |s|)
    ensures i < |s| && s[i] == '.' && NoPoint(s, i)
  {
    if s[0] == '.' {
      i := 0;
    } else {
      i := FirstPoint(s[1..]);
      i := i + 1;
    }
  }

  lemma SplitFirst(s: string, i: nat)
    requires i < |s| && s[i] == '.' && NoPoint(s, i)
    ensures SplitOn(s, '.') == [s[..i]] + SplitOn(s[i + 1..], '.')
  {
    AroundPoint(s, i, s[..i], s[i + 1..]);
  }

  lemma AroundPoint(s: string, i: nat, first: string, rest: string)
    requires i < |s| && s[i] == '.' && NoPoint(s, i) && first == s[..i] && rest == s[i + 1..]
    ensures SplitOn(s, '.') == [first] + SplitOn(rest, '.')
  {
    SplitOnPiece(first, '.');
    SplitOnConcat(first, '.', rest);
    assert s == first + ['.'] + rest;
  }

  lemma {:induction false} LabelsMatch(least: nat, s: string)
    requires least <= 1
    ensures Matches(Labels(least), s) <==> AllLabels(SplitOn(s, '.')) && |SplitOn(s, '.')| > least
    decreases |s|
  {
    if NoPoint(s, |s|) {
      SplitOnPiece(s, '.');
      LabelsWithoutPoint(least, s);
    } else {
      var i := FirstPoint(s);
      SplitFirst(s, i);
      LabelsFromPoint(least, s, i);
      LabelsMatch(0, s[i + 1..]);
      LabelsOfFirst(s[..i], SplitOn(s[i + 1..], '.'));
    }
  }

  lemma DomainByLabels(s: string, labels: seq<string>)
    requires labels == SplitOn(s, '.')
    ensures IsDomain(s) <==> 1 <= |s| <= 253 && |labels| > 1 && AllLabels(labels)
  {
  }

  /** The check of a domain is the expression, with at most 253 characters in all. */
  lemma DomainMatches(s: string)
    ensures IsDomain(s) <==> 1 <= |s| <= 253 && Matches(DomainRe(), s)
  {
    DomainByLabels(s, SplitOn(s, '.'));
    LabelsMatch(1, s);
  }

  // ----- addresses and host lines -----

  /** A run of one kind of character, a mark, and something else. */
  function RunRe(run: char -> bool, mark: char -> bool, next: Re): Re {
    Cat(Times(One(run), 1, None), Cat(One(mark), next))
  }

  predicate RunTo(run: char -> bool, mark: char -> bool, s: string, k: nat) {
    0 < k < |s| && (forall i :: 0 <= i < k ==> run(s[i])) && mark(s[k])
  }

  lemma CutRun(run: char -> bool, mark: char -> bool, next: Re, s: string) returns (k: nat)
    requires Matches(RunRe(run, mark, next), s)
    ensures RunTo(run, mark, s, k) && Matches(next, s[k + 1..])
  {
    k :| 0 <= k <= |s| && Matches(Times(One(run), 1, None), s[..k]) && Matches(Cat(One(mark), next), s[k..]);
    TimesOne(run, 1, None, s[..k]);
    OneFirst(mark, next, s[k..]);
    assert s[k..][1..] == s[k + 1..];
    assert forall i :: 0 <= i < k ==> s[..k][i] == s[i];
  }

  lemma JoinRun(run: char -> bool, mark: char -> bool, next: Re, s: string, k: nat)
    requires RunTo(run, mark, s, k) && Matches(next, s[k + 1..])
    ensures Matches(RunRe(run, mark, next), s)
  {
    TimesOne(run, 1, None, s[..k]);
    OneFirst(mark, next, s[k..]);
    assert s[k..][1..] == s[k + 1..];
  }

  /** The host expression on one line. */
  lemma HostLineMatches(line: string)
    ensures Matches(HostLineRe(), line) <==> HostOf(line).Some?
  {
    if Matches(HostLineRe(), line) {
      var k := CutRun(HostChar, Space, One(Brace), line);
      assert line[k + 1..] == [line[k + 1]];
      assert line[k..] == [line[k], line[k + 1]];
    }
    if HostOf(line).Some? {
      var k := |line| - 2;
      assert line[k..] == [line[k], line[k + 1]];
      assert line[k + 1..] == [line[k + 1]];
      JoinRun(HostChar, Space, One(Brace), line, k);
    }
  }

  // ----- e-mail addresses -----

  /** The last piece of a split text stands at its end, behind the separator. */
  lemma {:induction false} LastPiece(s: string, sep: char)
    ensures var last := SplitOn(s, sep)[|SplitOn(s, sep)| - 1];
            && |last| <= |s| && s[|s| - |last|..] == last
            && (|SplitOn(s, sep)| > 1 <==> sep in s)
            && (|SplitOn(s, sep)| > 1 ==> |last| < |s| && s[|s| - |last| - 1] == sep)
  {
    if s == "" {
    } else {
      LastPiece(s[1..], sep);
      var rest := SplitOn(s[1..], sep);
      if |rest| == 1 {
        SplitOnWhole(s[1..], sep);
      }
    }
  }

  lemma {:induction false} SplitOnWhole(s: string, sep: char)
    ensures |SplitOn(s, sep)| == 1 ==> SplitOn(s, sep) == [s]
  {
    if s == "" {
    } else {
      SplitOnWhole(s[1..], sep);
      assert s == [s[0]] + s[1..];
    }
  }

  lemma EmailHostCut(h: string)
    requires Matches(EmailHostRe(), h)
    ensures IsEmailHost(h)
  {
    var k := CutRun(EmailHostChar, Point, Times(One(Letter), 2, Some(63)), h);
    var top := h[k + 1..];
    TimesOne(Letter, 2, Some(63), top);
    SplitOnPiece(top, '.');
    SplitOnConcat(h[..k], '.', top);
    assert h == h[..k] + ['.'] + top;
    assert SplitOn(h, '.') == SplitOn(h[..k], '.') + [top];
    HostChars(h, k, top);
  }

  lemma HostChars(h: string, k: nat, top: string)
    requires RunTo(EmailHostChar, Point, h, k) && top == h[k + 1..] && IsLetters(top)
    ensures forall i :: 0 <= i < |h| ==> EmailHostChar(h[i])
  {
    assert forall i :: k < i < |h| ==> h[i] == top[i - k - 1];
  }

  lemma EmailHostJoined(h: string)
    requires IsEmailHost(h)
    ensures Matches(EmailHostRe(), h)
  {
    var labels := SplitOn(h, '.');
    LastPiece(h, '.');
    var k := |h| - |labels[|labels| - 1]| - 1;
    TimesOne(Letter, 2, Some(63), h[k + 1..]);
    JoinRun(EmailHostChar, Point, Times(One(Letter), 2, Some(63)), h, k);
  }

  lemma EmailHostMatches(h: string)
    ensures Matches(EmailHostRe(), h) <==> IsEmailHost(h)
  {
    if Matches(EmailHostRe(), h) { EmailHostCut(h); }
    if IsEmailHost(h) { EmailHostJoined(h); }
  }

  /** The check of an address is the expression. */
  lemma EmailMatches(s: string)
    ensures IsEmail(s) <==> Matches(EmailRe(), s)
  {
    if Matches(EmailRe(), s) {
      var k := CutRun(EmailLocalChar, AtSign, EmailHostRe(), s);
      EmailHostMatches(s[k + 1..]);
      SplitAtMark(s, k);
    }
    if IsEmail(s) {
      var parts := SplitOn(s, '@');
      LastPiece(s, '@');
      var k := |s| - |parts[1]| - 1;
      BeforeLast(s, k);
      EmailHostMatches(s[k + 1..]);
      JoinRun(EmailLocalChar, AtSign, EmailHostRe(), s, k);
    }
  }

  lemma SplitAtMark(s: string, k: nat)
    requires RunTo(EmailLocalChar, AtSign, s, k) && IsEmailHost(s[k + 1..])
    ensures SplitOn(s, '@') == [s[..k], s[k + 1..]]
  {
    var h := s[k + 1..];
    assert '@' !in h;
    assert forall i :: 0 <= i < k ==> s[..k][i] == s[i];
    SplitOnPiece(s[..k], '@');
    SplitOnPiece(h, '@');
    SplitOnConcat(s[..k], '@', h);
    assert s == s[..k] + ['@'] + h;
  }

  lemma BeforeLast(s: string, k: nat)
    requires |SplitOn(s, '@')| == 2 && k < |s| && s[k] == '@' && s[k + 1..] == SplitOn(s, '@')[1]
    ensures SplitOn(s, '@')[0] == s[..k]
  {
    assert s == s[..k] + ['@'] + s[k + 1..];
    SplitOnConcat(s[..k], '@', s[k + 1..]);
    SplitOnWhole(s[..k], '@');
  }
}
