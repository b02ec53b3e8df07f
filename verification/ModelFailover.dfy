/**
 Choosing a model: cooldowns after repeated failures, the best model, and the order in which models are tried. Times
 are milliseconds.
 */
module Failover {
  import opened Common

  datatype Record = Record(
    successes: nat, failures: nat, latencies: seq<int>, lastSuccess: Option<int>, cooldownUntil: Option<int>)

  const NEW_RECORD := Record(0, 0, [], None, None)
  const COOLDOWN_MS := 30_000
  const RECENT_MS := 60_000
  const THRESHOLD := 3
  const MAX_LATENCIES := 20

  // ----- one model -----

  predicate Available(r: Record, now: int) { r.cooldownUntil.None? || r.cooldownUntil.value <= now }

  function Keep(latencies: seq<int>): seq<int> {
    if |latencies| > MAX_LATENCIES then latencies[|latencies| - MAX_LATENCIES..] else latencies
  }

  /** `recordSuccess` on the model's record. */
  function Succeed(r: Record, latency: int, now: int): Record {
    Record(r.successes + 1, r.failures, Keep(r.latencies + [latency]), Some(now), None)
  }

  /** Whether this failure puts the model into cooldown. */
  predicate Triggers(r: Record, now: int) {
    (r.lastSuccess.None? || r.lastSuccess.value < now - RECENT_MS) && (r.failures + 1) % THRESHOLD == 0
  }

  /** `recordFailure` on the model's record. */
  function Fail(r: Record, now: int): Record {
    r.(failures := r.failures + 1, cooldownUntil := if Triggers(r, now) then Some(now + COOLDOWN_MS) else r.cooldownUntil)
  }

  datatype Event = Success(now: int, latency: int) | Failure(now: int)

  function Apply(r: Record, e: Event): Record {
    match e
    case Success(now, latency) => Succeed(r, latency, now)
    case Failure(now) => Fail(r, now)
  }

  function Run(es: seq<Event>): Record {
    if es == [] then NEW_RECORD else Apply(Run(es[..|es| - 1]), es[|es| - 1])
  }

  lemma RunSnoc(es: seq<Event>, e: Event)
    ensures Run(es + [e]) == Apply(Run(es), e)
  {
    assert (es + [e])[..|es + [e]| - 1] == es;
  }

  predicate InTime(es: seq<Event>) { forall i, j :: 0 <= i < j < |es| ==> es[i].now <= es[j].now }

  function FailureCount(es: seq<Event>): nat {
    if es == [] then 0 else FailureCount(es[..|es| - 1]) + (if es[|es| - 1].Failure? then 1 else 0)
  }

  lemma {:induction false} FailuresCounted(es: seq<Event>)
    ensures Run(es).failures == FailureCount(es)
  {
    if es == [] {
    } else {
      FailuresCounted(es[..|es| - 1]);
    }
  }

  /** The recorded last success is the time of the latest one, and so no earlier than any. */
  lemma {:induction false} LastSuccessIsLatest(es: seq<Event>)
    requires InTime(es)
    ensures Run(es).lastSuccess.None? ==> forall i :: 0 <= i < |es| ==> es[i].Failure?
    ensures Run(es).lastSuccess.Some? ==>
              && (exists i :: 0 <= i < |es| && es[i].Success? && es[i].now == Run(es).lastSuccess.value)
              && forall i :: 0 <= i < |es| && es[i].Success? ==> es[i].now <= Run(es).lastSuccess.value
  {
    if es == [] {
    } else {
      var init, e := es[..|es| - 1], es[|es| - 1];
      LastSuccessIsLatest(init);
      assert forall i :: 0 <= i < |init| ==> es[i] == init[i];
      if e.Success? {
        assert es[|es| - 1].Success?;
      } else if Run(init).lastSuccess.Some? {
        var i :| 0 <= i < |init| && init[i].Success? && init[i].now == Run(init).lastSuccess.value;
        assert es[i].Success?;
      }
    }
  }

  /** Over all histories: while a cooldown is set, no success happened at or after 90 seconds before its end. */
  lemma {:induction false} CooldownMeansNoSuccess(es: seq<Event>)
    requires InTime(es)
    ensures Run(es).cooldownUntil.Some? ==>
              forall i :: 0 <= i < |es| && es[i].Success? ==> es[i].now < Run(es).cooldownUntil.value - 90_000
  {
    if es == [] {
    } else {
      var init, e := es[..|es| - 1], es[|es| - 1];
      CooldownMeansNoSuccess(init);
      LastSuccessIsLatest(init);
      assert forall i :: 0 <= i < |init| ==> es[i] == init[i];
    }
  }

  /** No success within the minute before event `i`. */
  predicate Unrescued(es: seq<Event>, i: nat)
    requires i < |es|
  {
    forall m :: 0 <= m < i && es[m].Success? ==> es[m].now < es[i].now - RECENT_MS
  }

  /** Event `i` puts the model into cooldown. */
  predicate Triggered(es: seq<Event>, i: nat)
    requires i < |es|
  {
    es[i].Failure? && Triggers(Run(es[..i]), es[i].now)
  }

  lemma {:induction false} CountAcross(es: seq<Event>, i: nat, j: nat)
    requires i < j <= |es| && es[i].Failure? && forall m :: i < m < j ==> es[m].Success?
    ensures FailureCount(es[..j]) == FailureCount(es[..i]) + 1
  {
    assert es[..j][..j - 1] == es[..j - 1];
    if j == i + 1 {
    } else {
      CountAcross(es, i, j - 1);
    }
  }

  lemma TriggeredIff(es: seq<Event>, i: nat)
    requires i < |es| && InTime(es) && es[i].Failure? && Unrescued(es, i)
    ensures Triggered(es, i) <==> (FailureCount(es[..i]) + 1) % THRESHOLD == 0
  {
    FailuresCounted(es[..i]);
    LastSuccessIsLatest(es[..i]);
    var r := Run(es[..i]);
    if r.lastSuccess.Some? {
      var m :| 0 <= m < i && es[..i][m].Success? && es[..i][m].now == r.lastSuccess.value;
      assert es[m].now < es[i].now - RECENT_MS;
    }
  }

  /** Event `i` triggered a cooldown, and only failures that did not came after it. */
  ghost predicate LastTrigger(es: seq<Event>, i: nat)
    requires i < |es|
  {
    Triggered(es, i) && forall m :: i < m < |es| ==> es[m].Failure? && !Triggered(es, m)
  }

  lemma TriggeredBefore(es: seq<Event>, e: Event, i: nat)
    requires i < |es|
    ensures Triggered(es + [e], i) <==> Triggered(es, i)
  {
    assert (es + [e])[..i] == es[..i];
  }

  lemma LastTriggerKept(es: seq<Event>, e: Event, i: nat)
    requires i < |es| && LastTrigger(es, i) && e.Failure? && !Triggers(Run(es), e.now)
    ensures LastTrigger(es + [e], i)
  {
    var all := es + [e];
    assert all[..|es|] == es;
    TriggeredBefore(es, e, i);
    forall m | i < m < |all| ensures all[m].Failure? && !Triggered(all, m) {
      if m < |es| { TriggeredBefore(es, e, m); }
    }
  }

  /** A cooldown that is set ends 30 seconds after the last failure that triggered one. */
  lemma {:induction false} CooldownFrom(es: seq<Event>) returns (i: nat)
    requires Run(es).cooldownUntil.Some?
    ensures i < |es| && LastTrigger(es, i) && Run(es).cooldownUntil.value == es[i].now + 30_000
  {
    var init, e := es[..|es| - 1], es[|es| - 1];
    assert es == init + [e];
    if Triggers(Run(init), e.now) {
      i := |es| - 1;
    } else {
      i := CooldownFrom(init);
      LastTriggerKept(init, e, i);
    }
  }

  /** And without one, every trigger was followed by a success. */
  lemma {:induction false} NoCooldown(es: seq<Event>, i: nat)
    requires Run(es).cooldownUntil.None? && i < |es| && Triggered(es, i)
    ensures exists m :: i < m < |es| && es[m].Success?
  {
    var init, e := es[..|es| - 1], es[|es| - 1];
    assert es == init + [e];
    if e.Success? {
      assert es[|es| - 1].Success?;
    } else {
      assert i < |init|;
      TriggeredBefore(init, e, i);
      NoCooldown(init, i);
      var m :| i < m < |init| && init[m].Success?;
      assert es[m].Success?;
    }
  }

  /** At `now` event `i` still keeps the model out: it triggered less than 30 seconds ago, and no success came since. */
  ghost predicate KeepsOut(es: seq<Event>, i: nat, now: int)
    requires i < |es|
  {
    Triggered(es, i) && now < es[i].now + 30_000 && forall m :: i < m < |es| ==> es[m].Failure?
  }

  /** Over all histories: a model is unavailable exactly in the 30 seconds after a trigger, until a success ends them. */
  lemma CoolingIff(es: seq<Event>, now: int)
    requires InTime(es)
    ensures !Available(Run(es), now) <==> exists i :: 0 <= i < |es| && KeepsOut(es, i, now)
  {
    if Run(es).cooldownUntil.Some? {
      var last := CooldownFrom(es);
      forall i | 0 <= i < |es| && KeepsOut(es, i, now) ensures now < es[last].now + 30_000 {
        assert i <= last;
      }
      assert now < es[last].now + 30_000 ==> KeepsOut(es, last, now);
    } else {
      forall i | 0 <= i < |es| ensures !KeepsOut(es, i, now) {
        if Triggered(es, i) { NoCooldown(es, i); }
      }
    }
  }

  function AllLatencies(es: seq<Event>): seq<int> {
    if es == [] then []
    else
      var before := AllLatencies(es[..|es| - 1]);
      if es[|es| - 1].Success? then before + [es[|es| - 1].latency] else before
  }

  /** The successes are counted, and the latencies are those of the last 20. */
  lemma {:induction false} LastLatencies(es: seq<Event>)
    ensures Run(es).successes == |AllLatencies(es)|
    ensures |Run(es).latencies| == Min(|AllLatencies(es)|, 20)
    ensures Run(es).latencies == AllLatencies(es)[|AllLatencies(es)| - |Run(es).latencies|..]
  {
    if es == [] {
    } else {
      LastLatencies(es[..|es| - 1]);
    }
  }

  function One(b: bool): nat { if b then 1 else 0 }

  /** Of any three successive failures, none with a success in the minute before it, exactly one triggers cooldown. */
  lemma OneInThreeTriggers(es: seq<Event>, i: nat, j: nat, k: nat)
    requires i < j < k < |es| && InTime(es)
    requires es[i].Failure? && es[j].Failure? && es[k].Failure?
    requires forall m :: i < m < k && m != j ==> es[m].Success?
    requires Unrescued(es, i) && Unrescued(es, j) && Unrescued(es, k)
    ensures One(Triggered(es, i)) + One(Triggered(es, j)) + One(Triggered(es, k)) == 1
  {
    var n := FailureCount(es[..i]);
    CountAcross(es, i, j);
    CountAcross(es, j, k);
    NthTriggers(es, i, n);
    NthTriggers(es, j, n + 1);
    NthTriggers(es, k, n + 2);
    OneOfThree(n, Triggered(es, i), Triggered(es, j), Triggered(es, k));
  }

  lemma NthTriggers(es: seq<Event>, i: nat, n: nat)
    requires i < |es| && InTime(es) && es[i].Failure? && Unrescued(es, i) && n == FailureCount(es[..i])
    ensures Triggered(es, i) <==> (n + 1) % 3 == 0
  {
    TriggeredIff(es, i);
  }

  lemma OneOfThree(n: nat, a: bool, b: bool, c: bool)
    requires (a <==> (n + 1) % 3 == 0) && (b <==> (n + 2) % 3 == 0) && (c <==> (n + 3) % 3 == 0)
    ensures One(a) + One(b) + One(c) == 1
  {
    var q, r := n / 3, n % 3;
    assert n == 3 * q + r && 0 <= r < 3;
    assert (n + 1) % 3 == (r + 1) % 3 && (n + 2) % 3 == (r + 2) % 3 && (n + 3) % 3 == r % 3;
  }

  // ----- the order of models -----

  function Of(models: map<string, Record>, id: string): Record { if id in models then models[id] else NEW_RECORD }

  /** The preferred model comes first if it is available: it is given, not empty and not cooling. */
  predicate Leads(models: map<string, Record>, preferred: string, now: int, id: string) {
    preferred != "" && id == preferred && Available(Of(models, preferred), now)
  }

  /** Leading, available, cooling. */
  function Group(models: map<string, Record>, preferred: string, now: int, id: string): nat {
    if Leads(models, preferred, now, id) then 0 else if Available(Of(models, id), now) then 1 else 2
  }

  function FirstIndex(chain: seq<string>, id: string): (i: nat)
    ensures i <= |chain|
    ensures i < |chain| ==> chain[i] == id
    ensures id in chain <==> i < |chain|
    ensures forall j :: 0 <= j < i ==> chain[j] != id
  {
    if chain == [] || chain[0] == id then 0 else 1 + FirstIndex(chain[1..], id)
  }

  predicate Before(chain: seq<string>, models: map<string, Record>, preferred: string, now: int, a: string, b: string) {
    var x, y := Group(models, preferred, now, a), Group(models, preferred, now, b);
    x < y || (x == y && FirstIndex(chain, a) < FirstIndex(chain, b))
  }

  /** Every model of the chain once, and the leading one; leading, then available, then cooling, each in chain order. */
  ghost predicate IsOrder(order: seq<string>, chain: seq<string>, models: map<string, Record>, preferred: string, now: int) {
    && (forall id :: id in order <==> id in chain || Leads(models, preferred, now, id))
    && forall i, j :: 0 <= i < j < |order| ==> Before(chain, models, preferred, now, order[i], order[j])
  }

  /** That description fixes the order. */
  lemma OrderUnique(
    a: seq<string>, b: seq<string>, chain: seq<string>, models: map<string, Record>, preferred: string, now: int)
    requires IsOrder(a, chain, models, preferred, now) && IsOrder(b, chain, models, preferred, now)
    ensures a == b
  {
    SameSorted(a, b, chain, models, preferred, now);
  }

  lemma {:induction false} SameSorted(
    a: seq<string>, b: seq<string>, chain: seq<string>, models: map<string, Record>, preferred: string, now: int)
    requires forall id :: id in a <==> id in b
    requires forall i, j :: 0 <= i < j < |a| ==> Before(chain, models, preferred, now, a[i], a[j])
    requires forall i, j :: 0 <= i < j < |b| ==> Before(chain, models, preferred, now, b[i], b[j])
    ensures a == b
  {
    if a == [] {
      assert forall i :: 0 <= i < |b| ==> b[i] in b;
    } else {
      assert a[0] in b;
      var m :| 0 <= m < |b| && b[m] == a[0];
      assert b[0] in a;
      var n :| 0 <= n < |a| && a[n] == b[0];
      assert a[0] == b[0];
      forall id ensures id in a[1..] <==> id in b[1..] {
        if id in a[1..] {
          var i :| 0 <= i < |a| - 1 && a[1..][i] == id;
          assert Before(chain, models, preferred, now, a[0], a[i + 1]);
          assert id in b;
        }
        if id in b[1..] {
          var i :| 0 <= i < |b| - 1 && b[1..][i] == id;
          assert Before(chain, models, preferred, now, b[0], b[i + 1]);
          assert id in a;
        }
      }
      SameSorted(a[1..], b[1..], chain, models, preferred, now);
    }
  }

  /** What `getBestModel` answers: the preferred model if usable, else the first available of the chain, else its first. */
  ghost predicate IsBest(
    best: Option<string>, chain: seq<string>, models: map<string, Record>, preferred: string, now: int)
  {
    if preferred != "" && preferred in models && Available(models[preferred], now) then best == Some(preferred)
    else
      match best
      case None => chain == []
      case Some(id) =>
        && id in chain
        && (Available(Of(models, id), now) ==>
              forall i :: 0 <= i < FirstIndex(chain, id) ==> !Available(Of(models, chain[i]), now))
        && (!Available(Of(models, id), now) ==>
              id == chain[0] && forall i :: 0 <= i < |chain| ==> !Available(Of(models, chain[i]), now))
  }

  function Head(order: seq<string>): Option<string> { if order == [] then None else Some(order[0]) }

  /**
   At one instant the head of the failover order is the best model if and only if the preferred model is known:
   an unknown one leads the order, but `getBestModel` passes it over.
   */
  lemma HeadIsBestIff(
    order: seq<string>, best: Option<string>, chain: seq<string>, models: map<string, Record>, preferred: string, now: int)
    requires forall id :: id in chain ==> id in models
    requires IsOrder(order, chain, models, preferred, now) && IsBest(best, chain, models, preferred, now)
    ensures Head(order) == best <==> (preferred == "" || preferred in models)
  {
    assert order != [] ==> order[0] in order;
    if Leads(models, preferred, now, preferred) {
      assert preferred in order;
      var m :| 0 <= m < |order| && order[m] == preferred;
      assert m > 0 ==> Before(chain, models, preferred, now, order[0], order[m]);
      assert order[0] == preferred;
    } else if chain == [] {
    } else {
      assert order[0] in order by { assert chain[0] in order; }
      var best', first := best.value, order[0];
      assert first in chain;
      assert best' in order;
      var m :| 0 <= m < |order| && order[m] == best';
      assert m > 0 ==> Before(chain, models, preferred, now, order[0], order[m]);
      assert chain[FirstIndex(chain, first)] == first;
    }
  }

  // ----- trying the models in turn -----

  /** The records after the first `k` models of the order failed, the i-th at time `at(i)`. */
  function AfterFailures(models: map<string, Record>, order: seq<string>, k: nat, at: nat -> int): map<string, Record>
    requires k <= |order|
  {
    if k == 0 then models
    else
      var m := AfterFailures(models, order, k - 1, at);
      m[order[k - 1] := Fail(Of(m, order[k - 1]), at(k - 1))]
  }

  predicate NoDuplicates(order: seq<string>) { forall i, j :: 0 <= i < j < |order| ==> order[i] != order[j] }

  lemma OrderHasNoDuplicates(
    order: seq<string>, chain: seq<string>, models: map<string, Record>, preferred: string, now: int)
    requires IsOrder(order, chain, models, preferred, now)
    ensures NoDuplicates(order)
  {
    forall i, j | 0 <= i < j < |order| ensures order[i] != order[j] {
      assert Before(chain, models, preferred, now, order[i], order[j]);
    }
  }

  /** Each of the first `k` models has one failure more, and no other record is touched. */
  lemma {:induction false} OneFailureEach(
    models: map<string, Record>, order: seq<string>, k: nat, at: nat -> int, id: string)
    requires k <= |order| && NoDuplicates(order)
    ensures var r, r' := Of(models, id), Of(AfterFailures(models, order, k, at), id);
            if id in order[..k]
            then r'.failures == r.failures + 1 && r'.successes == r.successes && r'.lastSuccess == r.lastSuccess
            else r' == r
  {
    if k == 0 {
    } else {
      OneFailureEach(models, order, k - 1, at, id);
      assert order[..k] == order[..k - 1] + [order[k - 1]];
    }
  }

  /** What became of trying the models of `order` in turn: the records went from `m0` to `m1`. */
  predicate Tried(
    r: Option<(int, string)>, attempts: seq<string>, order: seq<string>, m0: map<string, Record>, m1: map<string, Record>,
    fn: string -> Option<int>, at: nat -> int, latency: nat -> int)
  {
    match r
    case None =>
      attempts == order && (forall i :: 0 <= i < |order| ==> fn(order[i]).None?)
      && m1 == AfterFailures(m0, order, |order|, at)
    case Some((value, model)) =>
      0 < |attempts| <= |order| &&
      var k := |attempts| - 1;
      && attempts == order[..k + 1]
      && model == order[k] && fn(model) == Some(value)
      && (forall i :: 0 <= i < k ==> fn(order[i]).None?)
      && var m := AfterFailures(m0, order, k, at); m1 == m[model := Succeed(Of(m, model), latency(k), at(k))]
  }

  lemma OneMoreFailed(models: map<string, Record>, order: seq<string>, k: nat, at: nat -> int)
    requires k < |order|
    ensures var m := AfterFailures(models, order, k, at);
            AfterFailures(models, order, k + 1, at) == m[order[k] := Fail(Of(m, order[k]), at(k))]
  {
  }

  lemma TriedUpTo(
    order: seq<string>, k: nat, m0: map<string, Record>, m1: map<string, Record>, fn: string -> Option<int>,
    at: nat -> int, latency: nat -> int)
    requires k < |order| && fn(order[k]).Some? && forall i :: 0 <= i < k ==> fn(order[i]).None?
    requires var m := AfterFailures(m0, order, k, at);
             m1 == m[order[k] := Succeed(Of(m, order[k]), latency(k), at(k))]
    ensures Tried(Some((fn(order[k]).value, order[k])), order[..k + 1], order, m0, m1, fn, at, latency)
  {
  }

  // ----- records and events -----

  function EventsIn(events: map<string, seq<Event>>, id: string): seq<Event> { if id in events then events[id] else [] }

  /** Every record is that of its model's events; without events it is a new one. */
  ghost predicate AsRecorded(models: map<string, Record>, events: map<string, seq<Event>>) {
    forall id :: Of(models, id) == Run(EventsIn(events, id))
  }

  lemma CreateKeeps(models: map<string, Record>, events: map<string, seq<Event>>, id: string)
    requires AsRecorded(models, events)
    ensures AsRecorded(models[id := Of(models, id)], events)
  {
    var m := models[id := Of(models, id)];
    forall k ensures Of(m, k) == Run(EventsIn(events, k)) {
      assert Of(models, k) == Run(EventsIn(events, k));
    }
  }

  lemma RecordKeeps(models: map<string, Record>, events: map<string, seq<Event>>, id: string, e: Event)
    requires AsRecorded(models, events)
    ensures AsRecorded(models[id := Apply(Of(models, id), e)], events[id := EventsIn(events, id) + [e]])
  {
    RunSnoc(EventsIn(events, id), e);
    var m, es := models[id := Apply(Of(models, id), e)], events[id := EventsIn(events, id) + [e]];
    forall k ensures Of(m, k) == Run(EventsIn(es, k)) {
      assert Of(models, k) == Run(EventsIn(events, k));
    }
  }

  // ----- the object -----

  class ModelFailover {
    var models: map<string, Record>
    const chain: seq<string>

    ghost var events: map<string, seq<Event>>  // what was recorded of each model

    ghost function EventsOf(id: string): seq<Event>
      reads this
    {
      EventsIn(events, id)
    }

    /** Chain models have a record, and every record is that of its model's events. */
    ghost predicate Valid()
      reads this
    {
      (forall id :: id in chain ==> id in models) && AsRecorded(models, events)
    }

    /** So what is proved of all histories holds of the object, as long as its clock does not go back. */
    lemma Recorded(id: string)
      requires Valid()
      ensures Of(models, id).failures == FailureCount(EventsOf(id))
      ensures InTime(EventsOf(id)) && Of(models, id).cooldownUntil.Some? ==>
                forall i :: 0 <= i < |EventsOf(id)| && EventsOf(id)[i].Success? ==>
                  EventsOf(id)[i].now < Of(models, id).cooldownUntil.value - 90_000
      ensures forall now :: InTime(EventsOf(id)) ==>
                (!Available(Of(models, id), now) <==> exists i :: 0 <= i < |EventsOf(id)| && KeepsOut(EventsOf(id), i, now))
    {
      forall now | InTime(EventsOf(id))
        ensures !Available(Of(models, id), now) <==> exists i :: 0 <= i < |EventsOf(id)| && KeepsOut(EventsOf(id), i, now)
      {
        CoolingIff(EventsOf(id), now);
      }
      FailuresCounted(EventsOf(id));
      if InTime(EventsOf(id)) { CooldownMeansNoSuccess(EventsOf(id)); }
    }

    constructor (modelChain: seq<string>)
      ensures Valid() && chain == modelChain && events == map[]
      ensures models == map id | id in modelChain :: NEW_RECORD
    {
      chain := modelChain;
      models := map id | id in modelChain :: NEW_RECORD;
      events := map[];
    }

    method GetOrCreate(id: string) returns (r: Record)
      modifies this`models
      ensures models == old(models)[id := Of(old(models), id)] && r == models[id]
      ensures id in old(models) ==> models == old(models)
    {
      if id !in models { models := models[id := NEW_RECORD]; }
      r := models[id];
    }

    /** An empty `preferred` stands for none; `None` is the answer when the chain is empty. */
    method GetBestModel(preferred: string, now: int) returns (best: Option<string>)
      requires Valid()
      ensures IsBest(best, chain, models, preferred, now)
    {
      if preferred != "" && preferred in models && Available(models[preferred], now) {
        return Some(preferred);
      }
      var i := 0;
      while i < |chain|
        invariant 0 <= i <= |chain|
        invariant forall j :: 0 <= j < i ==> !Available(models[chain[j]], now)
      {
        if Available(models[chain[i]], now) { return Some(chain[i]); }
        i := i + 1;
      }
      best := if chain == [] then None else Some(chain[0]);
    }

    method RecordSuccess(id: string, latency: int, now: int)
      requires Valid()
      modifies this
      ensures Valid() && events == old(events)[id := old(EventsOf(id)) + [Event.Success(now, latency)]]
      ensures models == old(models)[id := Succeed(Of(old(models), id), latency, now)]
    {
      var r := GetOrCreate(id);
      models := models[id := Succeed(r, latency, now)];
      RecordKeeps(old(models), events, id, Event.Success(now, latency));
      events := events[id := EventsOf(id) + [Event.Success(now, latency)]];
    }

    method RecordFailure(id: string, now: int)
      requires Valid()
      modifies this
      ensures Valid() && events == old(events)[id := old(EventsOf(id)) + [Event.Failure(now)]]
      ensures models == old(models)[id := Fail(Of(old(models), id), now)]
    {
      var r := GetOrCreate(id);
      models := models[id := Fail(r, now)];
      RecordKeeps(old(models), events, id, Event.Failure(now));
      events := events[id := EventsOf(id) + [Event.Failure(now)]];
    }

    /** The order of trial; an unknown preferred model gets a record on the way. */
    method GetFailoverOrder(preferred: string, now: int) returns (order: seq<string>)
      requires Valid()
      modifies this
      ensures Valid() && IsOrder(order, chain, models, preferred, now)
      ensures models == if preferred == "" then old(models) else old(models)[preferred := Of(old(models), preferred)]
    {
      order := [];
      if preferred != "" {
        CreateKeeps(models, events, preferred);
        var r := GetOrCreate(preferred);
        if Available(r, now) { order := [preferred]; }
      }
      order := AddAvailable(order, preferred, now);
      order := AddRest(order, preferred, now);
    }

    /** The first loop: what is available, in chain order, behind the leading model. */
    method AddAvailable(lead: seq<string>, preferred: string, now: int) returns (order: seq<string>)
      requires forall id :: id in chain ==> id in models
      requires lead == [] || (lead == [preferred] && Leads(models, preferred, now, preferred))
      requires lead == [] ==> !Leads(models, preferred, now, preferred)
      modifies this`models
      ensures models == old(models) && Sorted(order, preferred, now)
      ensures forall id :: id in order <==> id in lead || (id in chain && Available(models[id], now))
    {
      order := lead;
      var i := 0;
      while i < |chain|
        invariant 0 <= i <= |chain| && models == old(models)
        invariant forall id :: id in order <==> id in lead || (id in chain[..i] && Available(models[id], now))
        invariant Sorted(order, preferred, now)
      {
        var id := chain[i];
        var r := GetOrCreate(id);
        if id !in order && Available(r, now) {
          SortedSnoc(order, id, preferred, now, i);
          order := order + [id];
        }
        assert chain[..i + 1] == chain[..i] + [id];
        i := i + 1;
      }
      assert chain[..i] == chain;
    }

    /** The second loop: the models still missing, in chain order. */
    method AddRest(first: seq<string>, preferred: string, now: int) returns (order: seq<string>)
      requires Sorted(first, preferred, now)
      requires forall id :: id in first <==>
                 Leads(models, preferred, now, id) || (id in chain && Available(Of(models, id), now))
      ensures IsOrder(order, chain, models, preferred, now)
    {
      order := first;
      var i := 0;
      while i < |chain|
        invariant 0 <= i <= |chain|
        invariant forall id :: id in order <==> id in first || id in chain[..i]
        invariant Sorted(order, preferred, now)
      {
        var id := chain[i];
        if id !in order {
          SortedSnoc(order, id, preferred, now, i);
          order := order + [id];
        }
        assert chain[..i + 1] == chain[..i] + [id];
        i := i + 1;
      }
      assert chain[..i] == chain;
    }

    /** The loop of `executeWithFailover`. */
    method TryInTurn(queue: seq<string>, fn: string -> Option<int>, at: nat -> int, latency: nat -> int)
      returns (r: Option<(int, string)>, attempts: seq<string>)
      requires Valid() && NoDuplicates(queue)
      modifies this
      ensures Valid() && Tried(r, attempts, queue, old(models), models, fn, at, latency)
    {
      var tried: set<string> := {};
      var i := 0;
      while i < |queue|
        invariant 0 <= i <= |queue| && Valid()
        invariant forall j :: i <= j < |queue| ==> queue[j] !in tried
        invariant forall j :: 0 <= j < i ==> fn(queue[j]).None?
        invariant models == AfterFailures(old(models), queue, i, at)
      {
        var id := queue[i];
        if id !in tried {
          tried := tried + {id};
          var result := fn(id);
          if result.Some? {
            RecordSuccess(id, latency(i), at(i));
            TriedUpTo(queue, i, old(models), models, fn, at, latency);
            return Some((result.value, id)), queue[..i + 1];
          }
          RecordFailure(id, at(i));
          OneMoreFailed(old(models), queue, i, at);
        }
        i := i + 1;
      }
      r, attempts := None, queue;
    }

    /**
     `executeWithFailover`: `fn` says how a model fares, `at(i)` and `latency(i)` when the i-th attempt ends and how long
     it took. `None` is the error that all models failed.
     */
    method ExecuteWithFailover(fn: string -> Option<int>, preferred: string, now: int, at: nat -> int, latency: nat -> int)
      returns (r: Option<(int, string)>, attempts: seq<string>, ghost order: seq<string>)
      requires Valid()
      modifies this
      ensures Valid() && NoDuplicates(order)
      ensures var known := if preferred == "" then old(models) else old(models)[preferred := Of(old(models), preferred)];
              IsOrder(order, chain, known, preferred, now) && Tried(r, attempts, order, known, models, fn, at, latency)
    {
      var queue := GetFailoverOrder(preferred, now);
      order := queue;
      OrderHasNoDuplicates(order, chain, models, preferred, now);
      r, attempts := TryInTurn(queue, fn, at, latency);
    }

    ghost predicate Sorted(order: seq<string>, preferred: string, now: int)
      reads this
    {
      forall i, j :: 0 <= i < j < |order| ==> Before(chain, models, preferred, now, order[i], order[j])
    }

    lemma SortedSnoc(order: seq<string>, id: string, preferred: string, now: int, i: nat)
      requires Sorted(order, preferred, now) && i < |chain| && chain[i] == id && id !in order
      requires forall a :: a in order ==> Before(chain, models, preferred, now, a, id)
      ensures Sorted(order + [id], preferred, now)
    {
    }
  }
}
