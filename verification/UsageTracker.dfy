/**
 Usage accounting: the truncated list of records, the daily aggregates, and the summary, which adds the records up per
 model and then adds the models up. Times are milliseconds.
 */
module UsageTracking {
  import opened Common

  datatype Rec = Rec(model: string, tokensIn: nat, tokensOut: nat, time: int)

  datatype Tally = Tally(requests: nat, tokensIn: nat, tokensOut: nat)

  /** Tallies by key, with the keys in order of first use. */
  datatype Groups<K(==)> = Groups(keys: seq<K>, tallies: map<K, Tally>)

  const MAX_RECORDS := 10_000
  const DAY_MS := 86_400_000
  const ZERO := Tally(0, 0, 0)

  function Plus(a: Tally, b: Tally): Tally {
    Tally(a.requests + b.requests, a.tokensIn + b.tokensIn, a.tokensOut + b.tokensOut)
  }

  predicate AtMost(a: Tally, b: Tally) {
    a.requests <= b.requests && a.tokensIn <= b.tokensIn && a.tokensOut <= b.tokensOut
  }

  function One(r: Rec): Tally { Tally(1, r.tokensIn, r.tokensOut) }

  /** The sum of all records: the reference for everything else. */
  function Totals(rs: seq<Rec>): Tally {
    if rs == [] then ZERO else Plus(Totals(rs[..|rs| - 1]), One(rs[|rs| - 1]))
  }

  /** The sum of the records with key `k`. */
  function TotalsOf<K(==)>(rs: seq<Rec>, key: Rec -> K, k: K): Tally {
    if rs == [] then ZERO
    else
      var last := rs[|rs| - 1];
      var rest := TotalsOf(rs[..|rs| - 1], key, k);
      if key(last) == k then Plus(rest, One(last)) else rest
  }

  /** The sum of one model's records that are less than 24 hours old. */
  function RecentOf(rs: seq<Rec>, now: int, model: string): Tally {
    if rs == [] then ZERO
    else
      var last := rs[|rs| - 1];
      var rest := RecentOf(rs[..|rs| - 1], now, model);
      if last.model == model && RecentAt(now, last) then Plus(rest, One(last)) else rest
  }

  function Get<K>(g: Groups<K>, k: K): Tally { if k in g.tallies then g.tallies[k] else ZERO }

  /** One more record under key `k`. */
  function Add<K>(g: Groups<K>, k: K, r: Rec): Groups<K> {
    Groups(if k in g.tallies then g.keys else g.keys + [k], g.tallies[k := Plus(Get(g, k), One(r))])
  }

  function GroupAll<K>(rs: seq<Rec>, key: Rec -> K): Groups<K> {
    if rs == [] then Groups([], map[])
    else Add(GroupAll(rs[..|rs| - 1], key), key(rs[|rs| - 1]), rs[|rs| - 1])
  }

  /** The sum over the groups, in order. */
  function SumOver<K>(keys: seq<K>, tallies: map<K, Tally>): Tally
    requires forall k :: k in keys ==> k in tallies
  {
    if keys == [] then ZERO else Plus(SumOver(keys[..|keys| - 1], tallies), tallies[keys[|keys| - 1]])
  }

  ghost predicate Proper<K(!new)>(g: Groups<K>) {
    && (forall k :: k in g.keys <==> k in g.tallies)
    && forall i, j :: 0 <= i < j < |g.keys| ==> g.keys[i] != g.keys[j]
  }

  lemma {:induction false} SumUnaffected<K>(keys: seq<K>, a: map<K, Tally>, b: map<K, Tally>)
    requires forall k :: k in keys ==> k in a && k in b && a[k] == b[k]
    ensures SumOver(keys, a) == SumOver(keys, b)
  {
    if keys == [] {
    } else {
      SumUnaffected(keys[..|keys| - 1], a, b);
    }
  }

  lemma {:induction false} SumChanged<K>(keys: seq<K>, a: map<K, Tally>, k: K, d: Tally)
    requires forall x :: x in keys ==> x in a
    requires k in keys && forall i, j :: 0 <= i < j < |keys| ==> keys[i] != keys[j]
    ensures SumOver(keys, a[k := Plus(a[k], d)]) == Plus(SumOver(keys, a), d)
  {
    var init, last := keys[..|keys| - 1], keys[|keys| - 1];
    if last == k {
      assert k !in init;
      SumUnaffected(init, a, a[k := Plus(a[k], d)]);
    } else {
      assert keys == init + [last];
      SumChanged(init, a, k, d);
    }
  }

  lemma AddProper<K(!new)>(g: Groups<K>, k: K, r: Rec)
    requires Proper(g)
    ensures Proper(Add(g, k, r))
  {
  }

  lemma AddToOld<K(!new)>(g: Groups<K>, k: K, r: Rec)
    requires Proper(g) && k in g.tallies
    ensures SumOver(Add(g, k, r).keys, Add(g, k, r).tallies) == Plus(SumOver(g.keys, g.tallies), One(r))
  {
    SumChanged(g.keys, g.tallies, k, One(r));
  }

  lemma SumSnoc<K>(keys: seq<K>, k: K, tallies: map<K, Tally>)
    requires k in tallies && forall x :: x in keys ==> x in tallies
    ensures SumOver(keys + [k], tallies) == Plus(SumOver(keys, tallies), tallies[k])
  {
    assert (keys + [k])[..|keys|] == keys;
  }

  lemma AddToNew<K(!new)>(g: Groups<K>, k: K, r: Rec)
    requires Proper(g) && k !in g.tallies
    ensures SumOver(Add(g, k, r).keys, Add(g, k, r).tallies) == Plus(SumOver(g.keys, g.tallies), One(r))
  {
    var tallies := g.tallies[k := Plus(ZERO, One(r))];
    SumSnoc(g.keys, k, tallies);
    SumUnaffected(g.keys, g.tallies, tallies);
  }

  /** Conservation: however records are grouped, the groups add up to all of them. */
  lemma {:induction false} GroupsConserve<K(!new)>(rs: seq<Rec>, key: Rec -> K)
    ensures Proper(GroupAll(rs, key))
    ensures SumOver(GroupAll(rs, key).keys, GroupAll(rs, key).tallies) == Totals(rs)
  {
    if rs == [] {
    } else {
      GroupsConserve(rs[..|rs| - 1], key);
      var g, r := GroupAll(rs[..|rs| - 1], key), rs[|rs| - 1];
      AddProper(g, key(r), r);
      if key(r) in g.tallies { AddToOld(g, key(r), r); } else { AddToNew(g, key(r), r); }
    }
  }

  /** Each group is the sum of its own records. */
  lemma {:induction false} GroupIsItsRecords<K>(rs: seq<Rec>, key: Rec -> K, k: K)
    ensures Get(GroupAll(rs, key), k) == TotalsOf(rs, key, k)
    ensures k in GroupAll(rs, key).tallies <==> exists i :: 0 <= i < |rs| && key(rs[i]) == k
  {
    if rs == [] {
    } else {
      GroupIsItsRecords(rs[..|rs| - 1], key, k);
    }
  }

  /** The records `slice(-10000)` keeps. */
  function Kept(all: seq<Rec>): seq<Rec> {
    if |all| > MAX_RECORDS then all[|all| - MAX_RECORDS..] else all
  }

  function DayOf(r: Rec): int { r.time / DAY_MS }

  function ModelOf(r: Rec): string { r.model }

  predicate RecentAt(now: int, r: Rec) { now - r.time < DAY_MS }

  lemma {:induction false} RecentWithinModel(rs: seq<Rec>, now: int, model: string)
    ensures AtMost(RecentOf(rs, now, model), TotalsOf(rs, ModelOf, model))
  {
    if rs == [] {
    } else {
      RecentWithinModel(rs[..|rs| - 1], now, model);
    }
  }

  function After(rs: seq<Rec>, t: int): seq<Rec> {
    if rs == [] then []
    else
      var before := After(rs[..|rs| - 1], t);
      if rs[|rs| - 1].time > t then before + [rs[|rs| - 1]] else before
  }

  /** The 24-hour figure is the sum of the model's records made after the same time yesterday. */
  lemma {:induction false} RecentIsAfter(rs: seq<Rec>, now: int, model: string)
    ensures RecentOf(rs, now, model) == TotalsOf(After(rs, now - 86_400_000), ModelOf, model)
  {
    if rs == [] {
    } else {
      RecentIsAfter(rs[..|rs| - 1], now, model);
      var before := After(rs[..|rs| - 1], now - 86_400_000);
      assert (before + [rs[|rs| - 1]])[..|before|] == before;
    }
  }

  lemma {:induction false} TotalsCount(rs: seq<Rec>)
    ensures Totals(rs).requests == |rs|
  {
    if rs == [] {
    } else {
      TotalsCount(rs[..|rs| - 1]);
    }
  }

  datatype Summary = Summary(totals: Tally, models: Groups<string>, last24h: map<string, Tally>)

  class UsageTracker {
    var records: seq<Rec>
    var dailyAggregates: Groups<int>

    ghost var all: seq<Rec>  // every record ever made

    ghost predicate Valid()
      reads this
    {
      records == Kept(all) && dailyAggregates == GroupAll(all, DayOf)
    }

    constructor ()
      ensures Valid() && all == []
    {
      records, dailyAggregates, all := [], Groups([], map[]), [];
    }

    /** What is kept: the newest 10000 records, or all of them while there are fewer. */
    lemma NewestKept()
      requires Valid()
      ensures |records| == Min(|all|, 10_000) && records == all[|all| - |records|..]
    {
    }

    /** The new record comes last, and with more than 10000 the oldest one goes. */
    method RecordUse(model: string, tokensIn: nat, tokensOut: nat, now: int)
      requires Valid()
      modifies this
      ensures Valid() && all == old(all) + [Rec(model, tokensIn, tokensOut, now)]
      ensures records == (if |old(records)| < 10_000 then old(records) else old(records)[1..])
                         + [Rec(model, tokensIn, tokensOut, now)]
      ensures forall d :: Get(dailyAggregates, d) ==
                if d == now / 86_400_000 then Plus(Get(old(dailyAggregates), d), Tally(1, tokensIn, tokensOut))
                else Get(old(dailyAggregates), d)
    {
      var entry := Rec(model, tokensIn, tokensOut, now);
      records := records + [entry];
      if |records| > MAX_RECORDS { records := records[|records| - MAX_RECORDS..]; }
      dailyAggregates := Add(dailyAggregates, DayOf(entry), entry);
      ghost var before := all;
      all := all + [entry];
      assert all[..|all| - 1] == before;
    }

    /** The daily aggregates add up to every record ever made, whatever was truncated since. */
    lemma DailyConserves()
      requires Valid()
      ensures (forall d :: d in dailyAggregates.keys ==> d in dailyAggregates.tallies)
      ensures SumOver(dailyAggregates.keys, dailyAggregates.tallies) == Totals(all)
      ensures forall d :: Get(dailyAggregates, d) == TotalsOf(all, DayOf, d)
    {
      GroupsConserve(all, DayOf);
      forall d: int ensures Get(dailyAggregates, d) == TotalsOf(all, DayOf, d) {
        GroupIsItsRecords(all, DayOf, d);
      }
    }

    /**
     The summary covers exactly the last min(n, 10000) records: the totals are their sum, each model's tally the sum of
     its own, and each 24-hour tally the sum of its recent ones, which is at most the model's.
     */
    method GetSummary(now: int) returns (s: Summary)
      requires Valid()
      ensures s.totals == Totals(Kept(all)) && Proper(s.models) && s.totals == SumOver(s.models.keys, s.models.tallies)
      ensures s.totals.requests == Min(|all|, 10_000)
      ensures s.models == GroupAll(Kept(all), ModelOf)
      ensures s.last24h.Keys == s.models.tallies.Keys
      ensures forall m :: m in s.last24h ==>
                s.last24h[m] == RecentOf(Kept(all), now, m) && AtMost(s.last24h[m], s.models.tallies[m])
    {
      var byModel, last24h := AddUp(records, now);
      GroupsConserve(records, ModelOf);
      TotalsCount(records);
      var totals := SumModels(byModel);
      forall m | m in last24h ensures AtMost(last24h[m], byModel.tallies[m]) {
        GroupIsItsRecords(records, ModelOf, m);
        RecentWithinModel(records, now, m);
      }
      s := Summary(totals, byModel, last24h);
    }
  }

  /** The first loop of the summary: one pass over the records. */
  method AddUp(records: seq<Rec>, now: int) returns (byModel: Groups<string>, last24h: map<string, Tally>)
    ensures byModel == GroupAll(records, ModelOf)
    ensures last24h.Keys == byModel.tallies.Keys
    ensures forall m :: m in last24h ==> last24h[m] == RecentOf(records, now, m)
  {
    byModel, last24h := Groups([], map[]), map[];
    var i := 0;
    while i < |records|
      invariant 0 <= i <= |records|
      invariant byModel == GroupAll(records[..i], ModelOf)
      invariant last24h.Keys == byModel.tallies.Keys
      invariant forall m :: m in last24h ==> last24h[m] == RecentOf(records[..i], now, m)
      invariant forall m :: m !in last24h ==> RecentOf(records[..i], now, m) == ZERO
    {
      var r := records[i];
      assert records[..i + 1][..i] == records[..i] && records[..i + 1][i] == r;
      byModel := Add(byModel, r.model, r);
      var recent := if r.model in last24h then last24h[r.model] else ZERO;
      last24h := last24h[r.model := if RecentAt(now, r) then Plus(recent, One(r)) else recent];
      i := i + 1;
    }
    assert records[..i] == records;
  }

  /** The second loop of the summary: the totals are added up from the models. */
  method SumModels(g: Groups<string>) returns (t: Tally)
    requires Proper(g)
    ensures t == SumOver(g.keys, g.tallies)
  {
    t := ZERO;
    var i := 0;
    while i < |g.keys|
      invariant 0 <= i <= |g.keys|
      invariant t == SumOver(g.keys[..i], g.tallies)
    {
      assert g.keys[..i + 1][..i] == g.keys[..i];
      t := Plus(t, g.tallies[g.keys[i]]);
      i := i + 1;
    }
    assert g.keys[..i] == g.keys;
  }
}
