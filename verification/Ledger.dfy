/**
 The in-memory ledgers of the gateway: validator stakes, with amounts as they come in JSON, and node rewards with their
 platform fees.
 */
module Ledger {
  import opened Common
  import opened JsNumbers

  // ----- sums over maps -----

  ghost function Sum(m: map<string, real>): real
    decreases |m|
  {
    if m == map[] then 0.0 else var k :| k in m; m[k] + Sum(m - {k})
  }

  /** Any key may be taken out first. */
  lemma {:induction false} SumMinus(m: map<string, real>, k: string)
    requires k in m
    ensures Sum(m) == m[k] + Sum(m - {k})
    decreases |m|
  {
    var j :| j in m && Sum(m) == m[j] + Sum(m - {j});
    if j != k {
      SumMinus(m - {j}, k);
      SumMinus(m - {k}, j);
      assert m - {j} - {k} == m - {k} - {j};
    }
  }

  function At(m: map<string, real>, k: string): real { if k in m then m[k] else 0.0 }

  /** Setting one entry changes the sum by the change of that entry. */
  lemma SumUpdate(m: map<string, real>, k: string, v: real)
    ensures Sum(m[k := v]) == Sum(m) - At(m, k) + v
  {
    SumMinus(m[k := v], k);
    assert m[k := v] - {k} == m - {k};
    if k in m {
      SumMinus(m, k);
    } else {
      assert m - {k} == m;
    }
  }

  lemma SumRemove(m: map<string, real>, k: string)
    ensures Sum(m - {k}) == Sum(m) - At(m, k)
  {
    if k in m {
      SumMinus(m, k);
    } else {
      assert m - {k} == m;
    }
  }

  // ----- stakes -----

  /** The record of a validator, with whatever value the handlers have left in it. */
  datatype Validator = Validator(stakedTotal: Value, stakers: map<string, Value>, active: bool)

  const MIN_STAKE := 100.0
  const MIN_BALANCE := 1_000_000.0

  /** `validator.stakers[who] || 0` */
  function Current(v: Validator, who: string): Value {
    if who in v.stakers && v.stakers[who] != NaN then v.stakers[who] else Num(0.0)
  }

  /** The amount passes the checks of `stake`: it is there and not below 100. */
  predicate Accepted(other: string -> Option<real>, amount: Json) {
    Truthy(amount) && !Below(other, Primitive(amount), MIN_STAKE)
  }

  /** `stake`, after its checks. */
  function Stake(v: Validator, who: string, amount: Value): Validator {
    v.(stakers := v.stakers[who := Plus(Current(v, who), amount)], stakedTotal := Plus(v.stakedTotal, amount))
  }

  /** What `unstake` takes out: at most the stake, and all of it when no amount is given. */
  function Payout(other: string -> Option<real>, v: Validator, who: string, asked: Json): Value {
    if Truthy(asked) then MinOf(other, Primitive(asked), Current(v, who)) else Current(v, who)
  }

  function Unstake(other: string -> Option<real>, v: Validator, who: string, asked: Json): Validator {
    var payout := Payout(other, v, who, asked);
    var left := Minus(other, Current(v, who), payout);
    v.(stakers := if left.Num? && left.x <= 0.0 then v.stakers - {who} else v.stakers[who := left],
       stakedTotal := Minus(other, v.stakedTotal, payout))
  }

  datatype StakeEvent =
    | Registered(validator: string)
    | Staked(validator: string, who: string, amount: Json)
    | Unstaked(validator: string, who: string, asked: Json)

  /** The effect of one request that passed the checks on address and signature. */
  function ApplyStake(other: string -> Option<real>, m: map<string, Validator>, e: StakeEvent): map<string, Validator> {
    match e
    case Registered(v) => m[v := Validator(Num(0.0), map[], true)]
    case Staked(v, who, amount) =>
      if v in m && m[v].active && Accepted(other, amount) then m[v := Stake(m[v], who, Primitive(amount))] else m
    case Unstaked(v, who, asked) => if v in m then m[v := Unstake(other, m[v], who, asked)] else m
  }

  function RunStakes(other: string -> Option<real>, es: seq<StakeEvent>): map<string, Validator> {
    if es == [] then map[] else ApplyStake(other, RunStakes(other, es[..|es| - 1]), es[|es| - 1])
  }

  // ----- when a record is in order -----

  /** The entries as numbers; what is none counts as zero. */
  function Amounts(other: string -> Option<real>, m: map<string, Value>): map<string, real> {
    map k | k in m :: if ToNumber(other, m[k]).Some? then ToNumber(other, m[k]).value else 0.0
  }

  /** The entries are positive numbers, and the total is the number they add up to. */
  ghost predicate Balanced(other: string -> Option<real>, v: Validator) {
    && (forall a :: a in v.stakers ==> v.stakers[a].Num? && v.stakers[a].x > 0.0)
    && v.stakedTotal == Num(Sum(Amounts(other, v.stakers)))
  }

  /** Entries and total all read as numbers, texts included, and the total reads as the sum. */
  ghost predicate AddsUp(other: string -> Option<real>, v: Validator) {
    && (forall a :: a in v.stakers ==> ToNumber(other, v.stakers[a]).Some?)
    && ToNumber(other, v.stakedTotal) == Some(Sum(Amounts(other, v.stakers)))
  }

  lemma BalancedAddsUp(other: string -> Option<real>, v: Validator)
    requires Balanced(other, v)
    ensures AddsUp(other, v)
  {
  }

  /** The sum after one entry was set to a value that reads as `x`. */
  lemma AmountsUpdate(other: string -> Option<real>, m: map<string, Value>, who: string, value: Value, x: real)
    requires ToNumber(other, value) == Some(x)
    ensures Amounts(other, m[who := value]) == Amounts(other, m)[who := x]
    ensures Sum(Amounts(other, m[who := value])) == Sum(Amounts(other, m)) - At(Amounts(other, m), who) + x
  {
    SumUpdate(Amounts(other, m), who, x);
  }

  lemma AmountsRemove(other: string -> Option<real>, m: map<string, Value>, who: string)
    ensures Sum(Amounts(other, m - {who})) == Sum(Amounts(other, m)) - At(Amounts(other, m), who)
  {
    assert Amounts(other, m - {who}) == Amounts(other, m) - {who};
    SumRemove(Amounts(other, m), who);
  }

  lemma {:induction false} SumPositive(m: map<string, real>)
    requires forall k :: k in m ==> m[k] > 0.0
    ensures Sum(m) >= 0.0 && (Sum(m) > 0.0 <==> m != map[])
    decreases |m|
  {
    if m == map[] {
    } else {
      var k :| k in m && Sum(m) == m[k] + Sum(m - {k});
      SumPositive(m - {k});
    }
  }

  // ----- numbers keep a record in order; texts do when -----

  /** Somebody other than `who` has a stake. */
  predicate OthersHold(v: Validator, who: string) { exists a :: a in v.stakers && a != who }

  /** In a balanced record: own stake, total, and what the others hold. */
  lemma OwnAndTotal(other: string -> Option<real>, v: Validator, who: string) returns (c: real, t: real)
    requires Balanced(other, v)
    ensures Current(v, who) == Num(c) && c == At(Amounts(other, v.stakers), who) >= 0.0
    ensures v.stakedTotal == Num(t) && t == Sum(Amounts(other, v.stakers)) >= c
    ensures t > c <==> OthersHold(v, who)
  {
    c, t := Current(v, who).x, v.stakedTotal.x;
    var rest := v.stakers - {who};
    AmountsRemove(other, v.stakers, who);
    SumPositive(Amounts(other, rest));
    if a :| a in v.stakers && a != who {
      assert a in rest;
      assert a in Amounts(other, rest);
    } else {
      assert rest == map[];
      assert Amounts(other, rest) == map[];
    }
  }

  /** One's own stake becomes `x`, and the total moves with it. */
  function WithOwn(v: Validator, who: string, x: real): Validator
    requires v.stakedTotal.Num? && Current(v, who).Num?
  {
    v.(stakers := if x <= 0.0 then v.stakers - {who} else v.stakers[who := Num(x)],
       stakedTotal := Num(v.stakedTotal.x - Current(v, who).x + x))
  }

  lemma OwnMoved(other: string -> Option<real>, v: Validator, who: string, x: real)
    requires Balanced(other, v) && Current(v, who).Num? && x >= 0.0
    ensures Balanced(other, WithOwn(v, who, x))
  {
    var c, t := OwnAndTotal(other, v, who);
    AmountsUpdate(other, v.stakers, who, Num(x), x);
    AmountsRemove(other, v.stakers, who);
  }

  /** Own entry and total become any values: they still add up if and only if they read as numbers as far apart as before. */
  lemma OwnReads(other: string -> Option<real>, v: Validator, who: string, entry: Value, total: Value)
    requires Balanced(other, v)
    ensures AddsUp(other, v.(stakers := v.stakers[who := entry], stakedTotal := total)) <==>
              && ToNumber(other, entry).Some? && ToNumber(other, total).Some?
              && ToNumber(other, total).value - ToNumber(other, entry).value == v.stakedTotal.x - Current(v, who).x
  {
    var c, t := OwnAndTotal(other, v, who);
    if ToNumber(other, entry).Some? {
      AmountsUpdate(other, v.stakers, who, entry, ToNumber(other, entry).value);
    } else {
      assert who in v.stakers[who := entry];
    }
  }

  /** Nothing but the entry of `who` and the total differs. */
  ghost predicate OnlyOwn(v: Validator, w: Validator, who: string) {
    v.active == w.active && v.stakers - {who} == w.stakers - {who}
  }

  /**
   A stake keeps a balanced record one of numbers that add up if and only if it is no text. Nobody else's entry changes,
   and a number moves the own stake by exactly that.
   */
  lemma StakeBalancedIff(other: string -> Option<real>, v: Validator, who: string, amount: Json)
    requires Balanced(other, v) && Accepted(other, amount)
    ensures Balanced(other, Stake(v, who, Primitive(amount))) <==> Primitive(amount).Num?
    ensures OnlyOwn(v, Stake(v, who, Primitive(amount)), who)
    ensures amount.JNum? ==> Current(Stake(v, who, Primitive(amount)), who) == Num(Current(v, who).x + amount.x)
  {
    StakeOnlyOwn(v, who, Primitive(amount));
    if Primitive(amount).Num? {
      NumberStake(other, v, who, Primitive(amount).x);
    } else {
      assert Stake(v, who, Primitive(amount)).stakedTotal.Text?;
    }
  }

  lemma NumberStake(other: string -> Option<real>, v: Validator, who: string, x: real)
    requires Balanced(other, v) && x > 0.0
    ensures Balanced(other, Stake(v, who, Num(x)))
    ensures Current(Stake(v, who, Num(x)), who) == Num(Current(v, who).x + x)
  {
    var c, t := OwnAndTotal(other, v, who);
    StakeMoves(v, who, x);
    OwnMoved(other, v, who, c + x);
  }

  /** Among numbers, staking is setting one's own stake to the sum. */
  lemma StakeMoves(v: Validator, who: string, x: real)
    requires v.stakedTotal.Num? && Current(v, who).Num? && Current(v, who).x + x > 0.0
    ensures Stake(v, who, Num(x)) == WithOwn(v, who, Current(v, who).x + x)
    ensures Current(Stake(v, who, Num(x)), who) == Num(Current(v, who).x + x)
  {
  }

  lemma StakeOnlyOwn(v: Validator, who: string, amount: Value)
    ensures OnlyOwn(v, Stake(v, who, amount), who)
  {
    OthersSame(v.stakers, who, Plus(Current(v, who), amount));
  }

  lemma UnstakeOnlyOwn(other: string -> Option<real>, v: Validator, who: string, asked: Json)
    ensures OnlyOwn(v, Unstake(other, v, who, asked), who)
  {
    OthersSame(v.stakers, who, Minus(other, Current(v, who), Payout(other, v, who, asked)));
    assert v.stakers - {who} - {who} == v.stakers - {who};
  }

  lemma OthersSame<T>(m: map<string, T>, k: string, x: T)
    ensures m[k := x] - {k} == m - {k}
  {
  }

  /** Accepted are numbers from 100 on, texts that read as such, and every text that reads as no number. */
  lemma AcceptedExact(other: string -> Option<real>, amount: Json)
    ensures Accepted(other, amount) <==>
              match amount
              case Missing => false
              case Flag(_) => false
              case JNum(x) => x >= 100.0
              case JText(s) => s != "" && (NumberOf(other, s).None? || NumberOf(other, s).value >= 100.0)
              case Compound(s) => NumberOf(other, s).None? || NumberOf(other, s).value >= 100.0
  {
  }

  /** The amount to unstake is none, a number, or a text that reads as one. */
  predicate Readable(other: string -> Option<real>, asked: Json) {
    Truthy(asked) ==> ToNumber(other, Primitive(asked)).Some?
  }

  /** `x` is the amount asked for or the stake `c`, whichever is less; all of it where no amount or zero is asked for. */
  predicate Least(other: string -> Option<real>, x: real, asked: Json, c: real) {
    match asked
    case Missing => x == c
    case Flag(b) => x == if b && 1.0 < c then 1.0 else c
    case JNum(a) => x == if a != 0.0 && a < c then a else c
    case JText(s) => x == if s != "" && NumberOf(other, s).Some? && NumberOf(other, s).value < c
                          then NumberOf(other, s).value else c
    case Compound(s) => x == if NumberOf(other, s).Some? && NumberOf(other, s).value < c
                             then NumberOf(other, s).value else c
  }

  /**
   Unstaking keeps a balanced record balanced, and what is left of it adding up, if and only if the amount reads as a
   number; otherwise entry and total become NaN. It takes out the amount or the stake, whichever is less, and the whole
   stake when the amount is missing, zero or an empty text; nobody else's entry changes. A negative amount adds to it.
   */
  lemma UnstakeBalancedIff(other: string -> Option<real>, v: Validator, who: string, asked: Json)
    requires Balanced(other, v)
    ensures Balanced(other, Unstake(other, v, who, asked)) <==> Readable(other, asked)
    ensures AddsUp(other, Unstake(other, v, who, asked)) <==> Readable(other, asked)
    ensures Readable(other, asked) ==>
              var payout := Payout(other, v, who, asked);
              && payout.Num? && Least(other, payout.x, asked, Current(v, who).x)
              && Current(Unstake(other, v, who, asked), who) == Num(Current(v, who).x - payout.x)
    ensures OnlyOwn(v, Unstake(other, v, who, asked), who)
    ensures !Readable(other, asked) ==>
              var w := Unstake(other, v, who, asked); w.stakedTotal == NaN && who in w.stakers && w.stakers[who] == NaN
  {
    var c, t := OwnAndTotal(other, v, who);
    UnstakeOnlyOwn(other, v, who, asked);
    if Readable(other, asked) {
      NumberUnstake(other, v, who, asked);
      BalancedAddsUp(other, Unstake(other, v, who, asked));
    }
  }

  lemma NumberUnstake(other: string -> Option<real>, v: Validator, who: string, asked: Json)
    requires Balanced(other, v) && Readable(other, asked)
    ensures Balanced(other, Unstake(other, v, who, asked))
    ensures var payout := Payout(other, v, who, asked);
            && payout.Num? && Least(other, payout.x, asked, Current(v, who).x)
            && Current(Unstake(other, v, who, asked), who) == Num(Current(v, who).x - payout.x)
  {
    var c, t := OwnAndTotal(other, v, who);
    UnstakeMoves(other, v, who, asked);
    OwnMoved(other, v, who, c - Payout(other, v, who, asked).x);
  }

  /** Among numbers, unstaking is setting one's own stake to what is left. */
  lemma UnstakeMoves(other: string -> Option<real>, v: Validator, who: string, asked: Json)
    requires v.stakedTotal.Num? && Current(v, who).Num? && Readable(other, asked)
    ensures var payout := Payout(other, v, who, asked);
            && payout.Num? && Least(other, payout.x, asked, Current(v, who).x)
            && Unstake(other, v, who, asked) == WithOwn(v, who, Current(v, who).x - payout.x)
  {
  }

  /**
   A text stake of digits and points on a balanced record, all numbers being decimals: afterwards the total reads as the
   sum of the entries if and only if the joined texts are still numbers and
   - nobody else has a stake, so that entry and total are the same text, or
   - the text is a single point, or
   - own stake and total have the same number of decimals, not none, so that both move by the same fraction.
   */
  lemma TextStakeAddsUpIff(other: string -> Option<real>, v: Validator, who: string, d: string)
    requires Balanced(other, v) && Plain(d) && Accepted(other, JText(d))
    requires Decimal(Current(v, who).x, MAX_PLACES) && Decimal(v.stakedTotal.x, MAX_PLACES)
    ensures var c, t := Current(v, who).x, v.stakedTotal.x;
            AddsUp(other, Stake(v, who, Text(d))) <==>
              && Joins(c, d) && Joins(t, d)
              && (!OthersHold(v, who) || d == "." || PlacesOf(c) == PlacesOf(t) > 0)
  {
    var c, t := OwnAndTotal(other, v, who);
    TextStakeReads(other, v, who, d);
    if Joins(c, d) && Joins(t, d) && t > c {
      JoinKeepsDistanceIff(c, t, d);
    }
  }

  /** What the joined texts read as: the total moves away from the others' share, or keeps its distance. */
  lemma TextStakeReads(other: string -> Option<real>, v: Validator, who: string, d: string)
    requires Balanced(other, v) && Plain(d)
    requires Decimal(Current(v, who).x, MAX_PLACES) && Decimal(v.stakedTotal.x, MAX_PLACES)
    ensures var c, t := Current(v, who).x, v.stakedTotal.x;
            AddsUp(other, Stake(v, who, Text(d))) <==>
              Joins(c, d) && Joins(t, d) && JoinedValue(t, d) - JoinedValue(c, d) == t - c
  {
    var c, t := OwnAndTotal(other, v, who);
    var entry, total := Text(Show(c) + d), Text(Show(t) + d);
    JoinedReads(other, c, d);
    JoinedReads(other, t, d);
    assert Stake(v, who, Text(d)) == v.(stakers := v.stakers[who := entry], stakedTotal := total);
    OwnReads(other, v, who, entry, total);
  }

  /** Whatever the text: with nobody else, entry and total become one and the same value. */
  lemma AloneSameText(other: string -> Option<real>, v: Validator, who: string, amount: Value)
    requires Balanced(other, v) && !OthersHold(v, who)
    ensures var w := Stake(v, who, amount); w.stakedTotal == w.stakers[who] && w.stakers.Keys == {who}
  {
    var c, t := OwnAndTotal(other, v, who);
  }

  /** In particular with whole numbers and a text of digits: exactly if nobody else has a stake. */
  lemma DigitsStakeAddsUpIff(other: string -> Option<real>, v: Validator, who: string, d: string)
    requires Balanced(other, v) && AllDigits(d) && Accepted(other, JText(d))
    requires Whole(Current(v, who).x) && Whole(v.stakedTotal.x)
    ensures AddsUp(other, Stake(v, who, Text(d))) <==> !OthersHold(v, who)
  {
    TextStakeAddsUpIff(other, v, who, d);
  }

  // ----- runs -----

  /** The request cannot disturb a record in order. */
  predicate Harmless(other: string -> Option<real>, e: StakeEvent) {
    match e
    case Registered(_) => true
    case Staked(_, _, amount) => Accepted(other, amount) ==> Primitive(amount).Num?
    case Unstaked(_, _, asked) => Readable(other, asked)
  }

  /**
   After any sequence of registrations, stakes and unstakes in which accepted stakes are numbers and amounts to unstake
   read as numbers, every total is the sum of its positive entries.
   */
  lemma {:induction false} AlwaysBalanced(other: string -> Option<real>, es: seq<StakeEvent>, v: string)
    requires v in RunStakes(other, es) && forall i :: 0 <= i < |es| ==> Harmless(other, es[i])
    ensures Balanced(other, RunStakes(other, es)[v])
  {
    if es == [] {
    } else {
      var before, e := es[..|es| - 1], es[|es| - 1];
      var m := RunStakes(other, before);
      assert forall i :: 0 <= i < |before| ==> before[i] == es[i];
      if v in m {
        AlwaysBalanced(other, before, v);
        if e.Staked? && Accepted(other, e.amount) {
          StakeBalancedIff(other, m[v], e.who, e.amount);
        } else if e.Unstaked? {
          UnstakeBalancedIff(other, m[v], e.who, e.asked);
        }
      }
    }
  }

  /** And the first request that is not harmless, where it takes effect, does disturb it. */
  lemma FirstTextUnbalances(other: string -> Option<real>, es: seq<StakeEvent>, e: StakeEvent)
    requires forall i :: 0 <= i < |es| ==> Harmless(other, es[i])
    requires !Harmless(other, e) && e.validator in RunStakes(other, es)
    requires e.Staked? ==> RunStakes(other, es)[e.validator].active
    ensures !Balanced(other, RunStakes(other, es + [e])[e.validator])
  {
    assert (es + [e])[..|es + [e]| - 1] == es;
    AlwaysBalanced(other, es, e.validator);
    var v := RunStakes(other, es)[e.validator];
    if e.Staked? {
      StakeBalancedIff(other, v, e.who, e.amount);
    } else {
      UnstakeBalancedIff(other, v, e.who, e.asked);
    }
  }

  lemma RunSnoc(other: string -> Option<real>, es: seq<StakeEvent>, e: StakeEvent)
    ensures RunStakes(other, es + [e]) == ApplyStake(other, RunStakes(other, es), e)
  {
    assert (es + [e])[..|es + [e]| - 1] == es;
  }

  const OPENED := [Registered("v"), Staked("v", "a", JText("500"))]

  /** A stake of "500": entry and total are both the text "0500". */
  lemma TextOpens(other: string -> Option<real>)
    ensures RunStakes(other, OPENED) == map["v" := Validator(Text("0500"), map["a" := Text("0500")], true)]
  {
    FiveHundred(other);
    assert Accepted(other, JText("500"));
    Opens(other, JText("500"));
    assert [Registered("v"), Staked("v", "a", JText("500"))] == OPENED;
    ShowSmall();
    assert "0" + "500" == "0500";
  }

  /** The first stake on a new validator. */
  lemma Opens(other: string -> Option<real>, amount: Json)
    requires Accepted(other, amount)
    ensures var first := Plus(Num(0.0), Primitive(amount));
            RunStakes(other, [Registered("v"), Staked("v", "a", amount)])
            == map["v" := Validator(first, map["a" := first], true)]
  {
    RunSnoc(other, [], Registered("v"));
    assert [] + [Registered("v")] == [Registered("v")];
    RunSnoc(other, [Registered("v")], Staked("v", "a", amount));
    assert [Registered("v")] + [Staked("v", "a", amount)] == [Registered("v"), Staked("v", "a", amount)];
    var first := Plus(Num(0.0), Primitive(amount));
    assert Stake(Validator(Num(0.0), map[], true), "a", Primitive(amount)) == Validator(first, map["a" := first], true);
  }

  lemma FiveHundred(other: string -> Option<real>)
    ensures NumberOf(other, "500") == Some(500.0) && NumberOf(other, "0500") == Some(500.0)
  {
    SmallTexts();
    NoPoint("500");
    NoPoint("0500");
  }

  lemma ShowSmall()
    ensures Show(0.0) == "0" && Show(200.0) == "200"
  {
    assert Digits(200) == Digits(20) + ['0'] && Digits(20) == Digits(2) + ['0'];
  }

  const UNBALANCED := Validator(Text("0500200"), map["a" := Text("0500"), "b" := Num(200.0)], true)

  /** With a stake of 200 by somebody else the entries read 500 and 200, and the total is the text "0500200". */
  lemma TextStakeRun(other: string -> Option<real>)
    ensures RunStakes(other, OPENED + [Staked("v", "b", JNum(200.0))]) == map["v" := UNBALANCED]
    ensures !AddsUp(other, UNBALANCED)
  {
    TextOpens(other);
    RunSnoc(other, OPENED, Staked("v", "b", JNum(200.0)));
    SecondStake(other);
    Differs(other);
  }

  lemma SecondStake(other: string -> Option<real>)
    ensures var m := map["v" := Validator(Text("0500"), map["a" := Text("0500")], true)];
            ApplyStake(other, m, Staked("v", "b", JNum(200.0))) == map["v" := UNBALANCED]
  {
    JoinsTotal();
  }

  lemma Differs(other: string -> Option<real>)
    ensures !AddsUp(other, UNBALANCED)
  {
    TwoStakers(other);
    JoinedTotal(other);
  }

  lemma JoinsTotal()
    ensures Stake(Validator(Text("0500"), map["a" := Text("0500")], true), "b", Num(200.0))
            == UNBALANCED
  {
    ShowSmall();
    assert "0500" + "200" == "0500200";
  }

  lemma TwoStakers(other: string -> Option<real>)
    ensures Sum(Amounts(other, map["a" := Text("0500"), "b" := Num(200.0)])) == 700.0
  {
    FiveHundred(other);
    var empty: map<string, Value> := map[];
    assert Amounts(other, empty) == map[];
    AmountsUpdate(other, empty, "a", Text("0500"), 500.0);
    AmountsUpdate(other, map["a" := Text("0500")], "b", Num(200.0), 200.0);
    assert map["a" := Text("0500")]["b" := Num(200.0)] == map["a" := Text("0500"), "b" := Num(200.0)];
  }

  lemma JoinedTotal(other: string -> Option<real>)
    ensures NumberOf(other, "0500200") == Some(500200.0)
  {
    JoinedDigits();
    assert "0500" + "200" == "0500200";
    NoPoint("0500200");
  }

  lemma JoinedDigits()
    ensures AllDigits("0500" + "200") && IntValue("0500" + "200") == 500200.0
  {
    SmallTexts();
    LiftedFive();
    IntValueConcat("0500", "200");
  }

  lemma LiftedFive()
    ensures Lift(500.0, 3) == 500000.0
  {
    assert Lift(500.0, 1) == 5000.0;
  }

  lemma SmallTexts()
    ensures IntValue("500") == 500.0 && IntValue("0500") == 500.0 && IntValue("200") == 200.0
  {
    assert "2"[..0] == "" && "20"[..1] == "2" && "200"[..2] == "20";
    assert "5"[..0] == "" && "50"[..1] == "5" && "500"[..2] == "50";
    assert "0"[..0] == "" && "05"[..1] == "0" && "050"[..2] == "05" && "0500"[..3] == "050";
    assert IntValue("50") == 50.0 && IntValue("050") == 50.0;
  }

  /** Unstaked while it is alone, the text is a number again: zero, and no entry. */
  lemma TextSettles(other: string -> Option<real>)
    ensures RunStakes(other, OPENED + [Unstaked("v", "a", Missing)]) == map["v" := Validator(Num(0.0), map[], true)]
  {
    TextOpens(other);
    RunSnoc(other, OPENED, Unstaked("v", "a", Missing));
    FiveHundred(other);
  }

  /** A stake of the number 500, and an amount to unstake that is a word: entry and total are NaN. */
  lemma WordUnstakeRun(other: string -> Option<real>)
    requires other("abc").None?
    ensures RunStakes(other, [Registered("v"), Staked("v", "a", JNum(500.0))] + [Unstaked("v", "a", JText("abc"))])
            == map["v" := Validator(NaN, map["a" := NaN], true)]
  {
    Opens(other, JNum(500.0));
    RunSnoc(other, [Registered("v"), Staked("v", "a", JNum(500.0))], Unstaked("v", "a", JText("abc")));
    assert "abc"[0] == 'a';
    var v := Validator(Num(500.0), map["a" := Num(500.0)], true);
    assert Unstake(other, v, "a", JText("abc")) == Validator(NaN, map["a" := NaN], true);
  }

  class ValidatorRegistry {
    var validators: map<string, Validator>
    const other: string -> Option<real>

    ghost var history: seq<StakeEvent>  // the requests that changed something

    ghost predicate Valid()
      reads this
    {
      validators == RunStakes(other, history)
    }

    constructor (other: string -> Option<real>)
      ensures Valid() && validators == map[] && history == [] && this.other == other
    {
      this.other, validators, history := other, map[], [];
    }

    /** While only harmless requests took effect every record is in order. */
    lemma InOrder()
      requires Valid() && forall i :: 0 <= i < |history| ==> Harmless(other, history[i])
      ensures forall v :: v in validators ==> Balanced(other, validators[v])
    {
      forall v | v in validators ensures Balanced(other, validators[v]) {
        AlwaysBalanced(other, history, v);
      }
    }

    /** The HTTP status, and for success what became of the registry. `signed` says whether the signature is right. */
    method Register(address: string, signature: string, signed: bool, balance: real) returns (code: int)
      requires Valid()
      modifies this
      ensures Valid()
      ensures code == if address == "" || signature == "" then 400
                      else if !signed then 401 else if balance < 1_000_000.0 then 403 else 200
      ensures validators == if code == 200 then ApplyStake(other, old(validators), Registered(address)) else old(validators)
      ensures code == 200 ==> validators == old(validators)[address := Validator(Num(0.0), map[], true)]
      ensures history == if code == 200 then old(history) + [Registered(address)] else old(history)
    {
      if address == "" || signature == "" { return 400; }
      if !signed { return 401; }
      if balance < MIN_BALANCE { return 403; }
      RunSnoc(other, history, Registered(address));
      validators := validators[address := Validator(Num(0.0), map[], true)];
      history := history + [Registered(address)];
      code := 200;
    }

    method StakeOn(address: string, signature: string, signed: bool, validator: string, amount: Json) returns (code: int)
      requires Valid()
      modifies this
      ensures Valid()
      ensures code == if address == "" || signature == "" || validator == "" || !Truthy(amount) then 400
                      else if !signed then 401
                      else if validator !in old(validators) || !old(validators)[validator].active then 404
                      else if Below(other, Primitive(amount), 100.0) then 400 else 200
      ensures validators == if code == 200 then ApplyStake(other, old(validators), Staked(validator, address, amount))
                            else old(validators)
      ensures history == if code == 200 then old(history) + [Staked(validator, address, amount)] else old(history)
      ensures code == 200 && Balanced(other, old(validators)[validator]) ==>
                && (Balanced(other, validators[validator]) <==> Primitive(amount).Num?)
                && (amount.JNum? ==> Current(validators[validator], address)
                                     == Num(Current(old(validators)[validator], address).x + amount.x))
      ensures code == 200 ==>
                && OnlyOwn(old(validators)[validator], validators[validator], address)
                && validators - {validator} == old(validators) - {validator}
    {
      if address == "" || signature == "" || validator == "" || !Truthy(amount) { return 400; }
      if !signed { return 401; }
      if validator !in validators || !validators[validator].active { return 404; }
      var value := Primitive(amount);
      if Below(other, value, MIN_STAKE) { return 400; }
      StakeOnlyOwn(validators[validator], address, value);
      OthersSame(validators, validator, Stake(validators[validator], address, value));
      RunSnoc(other, history, Staked(validator, address, amount));
      var v := validators[validator];
      if Balanced(other, v) { StakeBalancedIff(other, v, address, amount); }
      var current := if address in v.stakers && v.stakers[address] != NaN then v.stakers[address] else Num(0.0);
      v := v.(stakers := v.stakers[address := Plus(current, value)]);
      v := v.(stakedTotal := Plus(v.stakedTotal, value));
      validators := validators[validator := v];
      history := history + [Staked(validator, address, amount)];
      code := 200;
    }

    method UnstakeFrom(address: string, signature: string, signed: bool, validator: string, amount: Json)
      returns (code: int, unstaked: Value, remaining: Value)
      requires Valid()
      modifies this
      ensures Valid()
      ensures code == if address == "" || signature == "" || validator == "" then 400
                      else if !signed then 401 else if validator !in old(validators) then 404 else 200
      ensures validators == if code == 200 then ApplyStake(other, old(validators), Unstaked(validator, address, amount))
                            else old(validators)
      ensures history == if code == 200 then old(history) + [Unstaked(validator, address, amount)] else old(history)
      ensures code == 200 ==>
                && unstaked == Payout(other, old(validators)[validator], address, amount)
                && remaining == Current(validators[validator], address)
      ensures code == 200 && Balanced(other, old(validators)[validator]) ==>
                && (Balanced(other, validators[validator]) <==> Readable(other, amount))
                && (Readable(other, amount) ==>
                      var before := Current(old(validators)[validator], address).x;
                      unstaked.Num? && Least(other, unstaked.x, amount, before) && remaining == Num(before - unstaked.x))
      ensures code == 200 ==>
                && OnlyOwn(old(validators)[validator], validators[validator], address)
                && validators - {validator} == old(validators) - {validator}
    {
      if address == "" || signature == "" || validator == "" { return 400, Num(0.0), Num(0.0); }
      if !signed { return 401, Num(0.0), Num(0.0); }
      if validator !in validators { return 404, Num(0.0), Num(0.0); }
      UnstakeOnlyOwn(other, validators[validator], address, amount);
      OthersSame(validators, validator, Unstake(other, validators[validator], address, amount));
      RunSnoc(other, history, Unstaked(validator, address, amount));
      var v := validators[validator];
      if Balanced(other, v) { UnstakeBalancedIff(other, v, address, amount); }
      var w;
      w, unstaked := TakeOut(v, address, amount);
      remaining := Current(w, address);
      validators := validators[validator := w];
      history := history + [Unstaked(validator, address, amount)];
      code := 200;
    }

    /** The statements of `unstake` on the record of one validator. */
    method TakeOut(v: Validator, address: string, amount: Json) returns (w: Validator, unstaked: Value)
      ensures w == Unstake(other, v, address, amount) && unstaked == Payout(other, v, address, amount)
    {
      var current := if address in v.stakers && v.stakers[address] != NaN then v.stakers[address] else Num(0.0);
      unstaked := if Truthy(amount) then MinOf(other, Primitive(amount), current) else current;
      var left := Minus(other, current, unstaked);
      w := v.(stakers := v.stakers[address := left]);
      w := w.(stakedTotal := Minus(other, w.stakedTotal, unstaked));
      if left.Num? && left.x <= 0.0 {
        assert v.stakers[address := left] - {address} == v.stakers - {address};
        w := w.(stakers := w.stakers - {address});
      }
    }
  }

  // ----- rewards -----

  /** Occurrences of `node` among those paid. */
  function Count(nodes: seq<string>, node: string): nat {
    if nodes == [] then 0 else Count(nodes[..|nodes| - 1], node) + (if nodes[|nodes| - 1] == node then 1 else 0)
  }

  /** `n` equal shares. */
  function Shares(n: nat, share: real): real {
    if n == 0 then 0.0 else Shares(n - 1, share) + share
  }

  lemma {:induction false} SharesAreProduct(n: nat, share: real)
    ensures Shares(n, share) == n as real * share
  {
    if n == 0 {
    } else {
      SharesAreProduct(n - 1, share);
    }
  }

  datatype Bounty = Bounty(creator: string, reward: real, submissions: seq<string>, status: string)

  class RewardLedger {
    var nodeRewards: map<string, real>
    var bounties: map<string, Bounty>

    ghost var approved: real  // rewards of all approved verifications
    ghost var fees: real      // platform fees of all distributions
    ghost var claimed: real   // all claims paid out

    /** Conservation: what was approved is fees, pending rewards and paid claims. */
    ghost predicate Valid()
      reads this
    {
      approved == fees + Sum(nodeRewards) + claimed
    }

    constructor (bounties: map<string, Bounty>)
      ensures Valid() && approved == 0.0 && fees == 0.0 && claimed == 0.0 && nodeRewards == map[]
      ensures this.bounties == bounties
    {
      nodeRewards, this.bounties, approved, fees, claimed := map[], bounties, 0.0, 0.0, 0.0;
    }

    /**
     `distributeTokens`: the fee is kept, the rest shared equally; a node named twice is paid twice. Fee and shares add
     up to the total unless there is nobody to pay.
     */
    method DistributeTokens(total: real, nodes: seq<string>, commission: real)
      returns (platformFee: real, perNode: real, distributed: real)
      modifies this`nodeRewards
      ensures platformFee == total * commission && distributed == total - platformFee
      ensures nodes != [] ==> platformFee + (Sum(nodeRewards) - Sum(old(nodeRewards))) == total
      ensures nodes == [] ==> nodeRewards == old(nodeRewards)
      ensures nodes != [] ==> perNode * |nodes| as real == distributed
      ensures forall n :: At(nodeRewards, n) == At(old(nodeRewards), n) + Shares(Count(nodes, n), perNode)
    {
      platformFee := total * commission;
      distributed := total - platformFee;
      perNode := distributed / (if |nodes| > 1 then |nodes| else 1) as real;
      PayEach(nodes, perNode);
      SharesAreProduct(|nodes|, perNode);
    }

    /** The paying loop. */
    method PayEach(nodes: seq<string>, share: real)
      modifies this`nodeRewards
      ensures Sum(nodeRewards) == Sum(old(nodeRewards)) + Shares(|nodes|, share)
      ensures nodes == [] ==> nodeRewards == old(nodeRewards)
      ensures forall n :: At(nodeRewards, n) == At(old(nodeRewards), n) + Shares(Count(nodes, n), share)
    {
      var i := 0;
      while i < |nodes|
        invariant 0 <= i <= |nodes|
        invariant i == 0 ==> nodeRewards == old(nodeRewards)
        invariant Sum(nodeRewards) == Sum(old(nodeRewards)) + Shares(i, share)
        invariant forall n :: At(nodeRewards, n) == At(old(nodeRewards), n) + Shares(Count(nodes[..i], n), share)
      {
        var node := nodes[i];
        assert nodes[..i + 1][..i] == nodes[..i];
        SumUpdate(nodeRewards, node, At(nodeRewards, node) + share);
        nodeRewards := nodeRewards[node := (if node in nodeRewards then nodeRewards[node] else 0.0) + share];
        i := i + 1;
      }
      assert nodes[..i] == nodes;
    }

    /**
     Verifying a bounty: approval pays the chosen submission; a task without submissions is rejected even then. The
     status is not consulted, so each approval pays again.
     */
    method VerifyTask(address: string, signature: string, signed: bool, taskId: string, approval: bool, submission: int)
      returns (code: int)
      requires Valid()
      modifies this
      ensures Valid() && claimed == old(claimed)
      ensures code == if address == "" || signature == "" || taskId == "" then 400
                      else if !signed then 401
                      else if taskId !in old(bounties) then 404
                      else if old(bounties)[taskId].creator != address then 403
                      else if approval && old(bounties)[taskId].submissions != []
                              && !(0 <= submission < |old(bounties)[taskId].submissions|) then 400
                      else 200
      ensures code != 200 || !approval || old(bounties)[taskId].submissions == [] ==>
                nodeRewards == old(nodeRewards) && approved == old(approved) && fees == old(fees)
      ensures code != 200 ==> bounties == old(bounties)
      ensures code == 200 && (!approval || old(bounties)[taskId].submissions == []) ==>
                bounties == old(bounties)[taskId := old(bounties)[taskId].(status := "rejected")]
      ensures code == 200 && approval && old(bounties)[taskId].submissions != [] ==>
                var b := old(bounties)[taskId];
                && approved == old(approved) + b.reward && fees == old(fees) + b.reward * 0.05
                && bounties == old(bounties)[taskId := b.(status := "completed")]
                && (forall n :: At(nodeRewards, n) ==
                      At(old(nodeRewards), n) + if n == b.submissions[submission] then b.reward - b.reward * 0.05 else 0.0)
    {
      if address == "" || signature == "" || taskId == "" { return 400; }
      if !signed { return 401; }
      if taskId !in bounties { return 404; }
      var task := bounties[taskId];
      if task.creator != address { return 403; }
      if approval && |task.submissions| > 0 {
        if !(0 <= submission < |task.submissions|) { return 400; }
        var node := task.submissions[submission];
        var fee, share, _ := DistributeTokens(task.reward, [node], 0.05);
        fees, approved := fees + fee, approved + task.reward;
        assert forall n :: Shares(Count([node], n), share) == if n == node then share else 0.0 by {
          assert [node][..0] == [];
        }
        bounties := bounties[taskId := task.(status := "completed")];
      } else {
        bounties := bounties[taskId := task.(status := "rejected")];
      }
      code := 200;
    }

    /** Claiming pays out everything pending and leaves zero behind. */
    method Claim(address: string, signature: string, signed: bool) returns (code: int, amount: real)
      requires Valid()
      modifies this
      ensures Valid() && approved == old(approved) && fees == old(fees) && bounties == old(bounties)
      ensures code == if address == "" || signature == "" then 400 else if !signed then 401
                      else if At(old(nodeRewards), address) <= 0.0 then 400 else 200
      ensures code == 200 ==>
                && amount == At(old(nodeRewards), address) > 0.0 && claimed == old(claimed) + amount
                && nodeRewards == old(nodeRewards)[address := 0.0]
      ensures code != 200 ==> nodeRewards == old(nodeRewards) && claimed == old(claimed)
    {
      if address == "" || signature == "" { return 400, 0.0; }
      if !signed { return 401, 0.0; }
      amount := if address in nodeRewards then nodeRewards[address] else 0.0;
      if amount <= 0.0 { return 400, amount; }
      SumUpdate(nodeRewards, address, 0.0);
      nodeRewards := nodeRewards[address := 0.0];
      claimed := claimed + amount;
      code := 200;
    }
  }
}
