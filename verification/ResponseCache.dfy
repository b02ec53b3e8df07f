/**
 The response cache: a map that remembers insertion order, bounded by evicting its oldest key, with entries that
 expire when looked up too late. It refines a plain last-write map.
 */
module ResponseCaches {
  import opened Common

  datatype Entry = Entry(content: string, model: string, ts: int)

  /** An insertion-ordered map: overwriting keeps a key's place, deleting closes the gap. */
  datatype Cache = Cache(keys: seq<string>, entries: map<string, Entry>)

  datatype Event = Put(key: string, content: string, model: string, now: int) | Lookup(key: string, now: int)

  const MAX_SIZE := 500
  const TTL_MS := 300_000

  ghost predicate WellFormed(c: Cache) {
    && (forall i, j :: 0 <= i < j < |c.keys| ==> c.keys[i] != c.keys[j])
    && (forall k :: k in c.keys <==> k in c.entries)
  }

  function Without(keys: seq<string>, key: string): (r: seq<string>)
    ensures key !in r
    ensures forall k :: k != key ==> (k in r <==> k in keys)
    ensures |r| <= |keys|
  {
    if keys == [] then [] else (if keys[0] == key then [] else [keys[0]]) + Without(keys[1..], key)
  }

  function Delete(c: Cache, key: string): Cache { Cache(Without(c.keys, key), c.entries - {key}) }

  /** `get`: an entry older than five minutes is deleted and missed. */
  function Get(c: Cache, key: string, now: int): (Cache, Option<(string, string)>) {
    if key !in c.entries then (c, None)
    else if now - c.entries[key].ts > TTL_MS then (Delete(c, key), None)
    else (c, Some((c.entries[key].content, c.entries[key].model)))
  }

  /** Making room: the oldest key goes when the cache is full, unless it is the empty string. */
  function Evict(c: Cache): Cache {
    if |c.keys| >= MAX_SIZE && c.keys[0] != "" then Delete(c, c.keys[0]) else c
  }

  /** `set`: makes room first, also when it then only overwrites. */
  function Set(c: Cache, key: string, e: Entry): Cache {
    var r := Evict(c);
    Cache(if key in r.entries then r.keys else r.keys + [key], r.entries[key := e])
  }

  function Apply(c: Cache, e: Event): Cache {
    match e
    case Put(key, content, model, now) => Set(c, key, Entry(content, model, now))
    case Lookup(key, now) => Get(c, key, now).0
  }

  function RunFrom(c: Cache, es: seq<Event>): Cache
    decreases |es|
  {
    if es == [] then c else RunFrom(Apply(c, es[0]), es[1..])
  }

  function Run(es: seq<Event>): Cache { RunFrom(Cache([], map[]), es) }

  /** The reference: a map that forgets nothing and holds the last value written under each key. */
  function LastWrite(m: map<string, Entry>, es: seq<Event>): map<string, Entry>
    decreases |es|
  {
    if es == [] then m else LastWrite(Written(m, es[0]), es[1..])
  }

  function Written(m: map<string, Entry>, e: Event): map<string, Entry> {
    if e.Put? then m[e.key := Entry(e.content, e.model, e.now)] else m
  }

  // ----- deleting from the order -----

  lemma {:induction false} WithoutAbsent(keys: seq<string>, key: string)
    requires key !in keys
    ensures Without(keys, key) == keys
  {
    if keys == [] {
    } else {
      WithoutAbsent(keys[1..], key);
    }
  }

  /** In a duplicate-free order, deleting the key at `i` removes exactly that place. */
  lemma {:induction false} WithoutAt(keys: seq<string>, i: nat)
    requires i < |keys|
    requires forall a, b :: 0 <= a < b < |keys| ==> keys[a] != keys[b]
    ensures Without(keys, keys[i]) == keys[..i] + keys[i + 1..]
  {
    if i == 0 {
      WithoutAbsent(keys[1..], keys[0]);
    } else {
      WithoutAt(keys[1..], i - 1);
    }
  }

  lemma {:induction false} WithoutDistinct(keys: seq<string>, key: string)
    requires forall a, b :: 0 <= a < b < |keys| ==> keys[a] != keys[b]
    ensures forall a, b :: 0 <= a < b < |Without(keys, key)| ==> Without(keys, key)[a] != Without(keys, key)[b]
    ensures |Without(keys, key)| == |keys| - (if key in keys then 1 else 0)
  {
    if keys == [] {
    } else {
      WithoutDistinct(keys[1..], key);
      if keys[0] == key {
        WithoutAbsent(keys[1..], key);
      } else {
        assert keys[0] !in Without(keys[1..], key);
      }
    }
  }

  lemma DeleteWellFormed(c: Cache, key: string)
    requires WellFormed(c)
    ensures WellFormed(Delete(c, key))
    ensures key in c.entries ==> |Delete(c, key).keys| == |c.keys| - 1
    ensures key !in c.entries ==> Delete(c, key).keys == c.keys
  {
    WithoutDistinct(c.keys, key);
    if key !in c.keys {
      WithoutAbsent(c.keys, key);
    }
  }

  lemma EvictWellFormed(c: Cache)
    requires WellFormed(c)
    ensures WellFormed(Evict(c))
    ensures |c.keys| >= MAX_SIZE && c.keys[0] != "" ==> Evict(c).keys == c.keys[1..]
  {
    if |c.keys| >= MAX_SIZE {
      DeleteWellFormed(c, c.keys[0]);
      WithoutAt(c.keys, 0);
    }
  }

  lemma ApplyWellFormed(c: Cache, e: Event)
    requires WellFormed(c)
    ensures WellFormed(Apply(c, e))
  {
    EvictWellFormed(c);
    if e.Lookup? {
      DeleteWellFormed(c, e.key);
    }
  }

  /** What is left after making room: all keys, or all but the oldest. */
  function Room(keys: seq<string>): seq<string> {
    if |keys| >= 500 && keys[0] != "" then keys[1..] else keys
  }

  /**
   From `c` to `d`: a full cache first gives up its oldest key, unless that is empty. Then `key` keeps its place, or goes
   to the end if it has none, and no other entry that is left has changed.
   */
  ghost predicate Replaces(c: Cache, d: Cache, key: string) {
    var rest := Room(c.keys);
    && d.keys == (if key in rest then rest else rest + [key])
    && d.entries.Keys == (set k | k in rest) + {key}
    && forall k :: k in rest && k != key ==> k in c.entries && k in d.entries && d.entries[k] == c.entries[k]
  }

  lemma SetReplaces(c: Cache, key: string, e: Entry)
    requires WellFormed(c)
    ensures Replaces(c, Set(c, key, e), key)
  {
    EvictWellFormed(c);
    EvictMakesRoom(c);
    PutIn(c, Evict(c), key, e);
  }

  lemma EvictMakesRoom(c: Cache)
    requires WellFormed(c)
    ensures Evict(c).keys == Room(c.keys)
    ensures forall k :: k in Evict(c).entries ==> k in c.entries && Evict(c).entries[k] == c.entries[k]
  {
    EvictWellFormed(c);
  }

  lemma PutIn(c: Cache, r: Cache, key: string, e: Entry)
    requires WellFormed(r) && r.keys == Room(c.keys)
    requires forall k :: k in r.entries ==> k in c.entries && r.entries[k] == c.entries[k]
    ensures Replaces(c, Cache(if key in r.entries then r.keys else r.keys + [key], r.entries[key := e]), key)
  {
  }

  // ----- refinement -----

  ghost predicate Refines(c: Cache, m: map<string, Entry>) {
    forall k :: k in c.entries ==> k in m && m[k] == c.entries[k]
  }

  lemma {:induction false} RunRefines(c: Cache, m: map<string, Entry>, es: seq<Event>)
    requires WellFormed(c) && Refines(c, m)
    ensures WellFormed(RunFrom(c, es)) && Refines(RunFrom(c, es), LastWrite(m, es))
    decreases |es|
  {
    if es == [] {
    } else {
      ApplyWellFormed(c, es[0]);
      RunRefines(Apply(c, es[0]), Written(m, es[0]), es[1..]);
    }
  }

  /** After any history a hit is the last value set for that key and no older than five minutes. */
  lemma HitIsLastWrite(es: seq<Event>, key: string, now: int)
    requires Get(Run(es), key, now).1.Some?
    ensures var m := LastWrite(map[], es);
            && key in m && now - m[key].ts <= TTL_MS
            && Get(Run(es), key, now).1.value == (m[key].content, m[key].model)
  {
    RunRefines(Cache([], map[]), map[], es);
  }

  // ----- the bound -----

  /** A `set` keeps the bound except in one case: a full cache whose oldest key is the empty string gets a new key. */
  lemma SizeBoundIff(c: Cache, key: string, e: Entry)
    requires WellFormed(c) && |c.keys| <= MAX_SIZE
    ensures |Set(c, key, e).keys| <= MAX_SIZE <==> !(|c.keys| == MAX_SIZE && c.keys[0] == "" && key !in c.entries)
  {
    EvictWellFormed(c);
  }

  lemma StepBound(c: Cache, e: Event)
    requires WellFormed(c) && |c.keys| <= MAX_SIZE && "" !in c.keys && (e.Put? ==> e.key != "")
    ensures WellFormed(Apply(c, e)) && |Apply(c, e).keys| <= MAX_SIZE && "" !in Apply(c, e).keys
  {
    ApplyWellFormed(c, e);
    if e.Put? {
      EvictWellFormed(c);
      SizeBoundIff(c, e.key, Entry(e.content, e.model, e.now));
    } else {
      DeleteWellFormed(c, e.key);
    }
  }

  /** Over any history that never uses the empty key, the cache never holds more than 500 entries. */
  lemma {:induction false} SizeBound(c: Cache, es: seq<Event>)
    requires WellFormed(c) && |c.keys| <= MAX_SIZE && "" !in c.keys
    requires forall i :: 0 <= i < |es| && es[i].Put? ==> es[i].key != ""
    ensures |RunFrom(c, es).keys| <= MAX_SIZE
    decreases |es|
  {
    if es == [] {
    } else {
      StepBound(c, es[0]);
      SizeBound(Apply(c, es[0]), es[1..]);
    }
  }

  // ----- survival -----

  function Puts(es: seq<Event>): nat
    decreases |es|
  {
    if es == [] then 0 else (if es[0].Put? then 1 else 0) + Puts(es[1..])
  }

  /** No look-up of `key` comes too late for the value it then has; `ts` is that value's time stamp at the start. */
  predicate NeverLate(key: string, ts: int, es: seq<Event>)
    decreases |es|
  {
    es == [] ||
    if es[0].key != key then NeverLate(key, ts, es[1..])
    else if es[0].Put? then NeverLate(key, es[0].now, es[1..])
    else es[0].now - ts <= TTL_MS && NeverLate(key, ts, es[1..])
  }

  lemma PutKeepsPlace(c: Cache, i: nat, key: string, e: Entry) returns (j: nat)
    requires WellFormed(c) && i < |c.keys| && |c.keys| - i < MAX_SIZE
    ensures var d := Set(c, key, e);
            && j < |d.keys| && d.keys[j] == c.keys[i] && |d.keys| - j <= |c.keys| - i + 1
            && d.entries[c.keys[i]] == (if key == c.keys[i] then e else c.entries[c.keys[i]])
  {
    EvictWellFormed(c);
    j := if |c.keys| >= MAX_SIZE && c.keys[0] != "" then i - 1 else i;
    assert Evict(c).keys[j] == c.keys[i];
    assert c.keys[i] in Evict(c).entries;
  }

  /** Where element `i` is after element `x` was taken out. */
  lemma PlaceAfterRemoval(keys: seq<string>, x: nat, i: nat) returns (j: nat)
    requires x < |keys| && i < |keys| && i != x
    ensures var r := keys[..x] + keys[x + 1..];
            j < |r| && r[j] == keys[i] && |r| - j <= |keys| - i
  {
    j := if x < i then i - 1 else i;
  }

  lemma DeleteKeepsPlace(c: Cache, i: nat, key: string) returns (j: nat)
    requires WellFormed(c) && i < |c.keys| && key != c.keys[i] && key in c.entries
    ensures var d := Delete(c, key); j < |d.keys| && d.keys[j] == c.keys[i] && |d.keys| - j <= |c.keys| - i
  {
    var x :| 0 <= x < |c.keys| && c.keys[x] == key;
    WithoutAt(c.keys, x);
    j := PlaceAfterRemoval(c.keys, x, i);
  }

  /** Key `i` of `c` survives one step, with at most one more key behind it after a `set`. */
  lemma StepKeepsPlace(c: Cache, i: nat, e: Event) returns (j: nat)
    requires WellFormed(c) && i < |c.keys|
    requires e.Put? ==> |c.keys| - i < MAX_SIZE
    requires e.Lookup? && e.key == c.keys[i] ==> e.now - c.entries[e.key].ts <= TTL_MS
    ensures var d := Apply(c, e);
            && WellFormed(d) && j < |d.keys| && d.keys[j] == c.keys[i]
            && |d.keys| - j <= |c.keys| - i + (if e.Put? then 1 else 0)
            && d.entries[c.keys[i]].ts == (if e.Put? && e.key == c.keys[i] then e.now else c.entries[c.keys[i]].ts)
  {
    ApplyWellFormed(c, e);
    if e.Put? {
      j := PutKeepsPlace(c, i, e.key, Entry(e.content, e.model, e.now));
    } else if e.key in c.entries && e.now - c.entries[e.key].ts > TTL_MS {
      j := DeleteKeepsPlace(c, i, e.key);
    } else {
      j := i;
    }
  }

  /** A key with fewer than 500 - n keys from it to the end survives any history of at most n `set` calls. */
  lemma {:induction false} PlaceSurvives(c: Cache, i: nat, es: seq<Event>)
    requires WellFormed(c) && i < |c.keys|
    requires |c.keys| - i + Puts(es) <= MAX_SIZE
    requires NeverLate(c.keys[i], c.entries[c.keys[i]].ts, es)
    ensures c.keys[i] in RunFrom(c, es).entries
    decreases |es|
  {
    if es == [] {
    } else {
      var j := StepKeepsPlace(c, i, es[0]);
      PlaceSurvives(Apply(c, es[0]), j, es[1..]);
    }
  }

  lemma {:induction false} RunSplit(c: Cache, a: seq<Event>, b: seq<Event>)
    ensures RunFrom(c, a + b) == RunFrom(RunFrom(c, a), b)
    decreases |a|
  {
    if a == [] {
      assert a + b == b;
    } else {
      assert (a + b)[1..] == a[1..] + b;
      RunSplit(Apply(c, a[0]), a[1..], b);
    }
  }

  /** What `NewKeySurvives` starts from: the new key is the last one in the order. */
  lemma PutIsLast(c: Cache, key: string, content: string, model: string, ts: int)
    requires WellFormed(c) && key !in c.entries
    ensures var d := Apply(c, Put(key, content, model, ts));
            WellFormed(d) && d.keys != [] && d.keys[|d.keys| - 1] == key && d.entries[key].ts == ts
  {
    ApplyWellFormed(c, Put(key, content, model, ts));
    EvictWellFormed(c);
  }

  lemma RunThrough(before: seq<Event>, e: Event, after: seq<Event>)
    ensures Run(before + [e] + after) == RunFrom(Apply(Run(before), e), after)
  {
    var start := Cache([], map[]);
    RunSplit(start, before + [e], after);
    RunSplit(start, before, [e]);
    var c := RunFrom(start, before);
    assert RunFrom(c, [e]) == RunFrom(Apply(c, e), []);
  }

  lemma RunWellFormed(es: seq<Event>)
    ensures WellFormed(Run(es)) && Refines(Run(es), LastWrite(map[], es))
  {
    RunRefines(Cache([], map[]), map[], es);
  }

  lemma NewKeyStays(before: seq<Event>, key: string, content: string, model: string, ts: int, after: seq<Event>)
    requires key !in Run(before).entries && Puts(after) <= MAX_SIZE - 1 && NeverLate(key, ts, after)
    ensures key in Run(before + [Put(key, content, model, ts)] + after).entries
  {
    RunWellFormed(before);
    RunThrough(before, Put(key, content, model, ts), after);
    PutIsLast(Run(before), key, content, model, ts);
    var d := Apply(Run(before), Put(key, content, model, ts));
    PlaceSurvives(d, |d.keys| - 1, after);
  }

  /**
   An entry set under a new key is not evicted by the next 499 `set` calls, whatever expiries and overwrites are
   interleaved: unless it was itself looked up too late, a look-up in time then hits the last value written.
   */
  lemma NewKeySurvives(before: seq<Event>, key: string, content: string, model: string, ts: int, after: seq<Event>, now: int)
    requires key !in Run(before).entries
    requires Puts(after) <= MAX_SIZE - 1
    requires NeverLate(key, ts, after)
    ensures var es := before + [Put(key, content, model, ts)] + after;
            var m := LastWrite(map[], es);
            && key in m && key in Run(es).entries
            && (now - m[key].ts <= TTL_MS ==> Get(Run(es), key, now).1 == Some((m[key].content, m[key].model)))
  {
    NewKeyStays(before, key, content, model, ts, after);
    RunWellFormed(before + [Put(key, content, model, ts)] + after);
  }

  // ----- the empty key -----

  /** Keys that are all different; the first is the empty one. */
  function KeyOf(i: nat): string { seq(i, _ => 'k') }

  function Fill(n: nat): seq<Event> { seq(n, i requires i >= 0 => Put(KeyOf(i), "", "", 0)) }

  /** Led by the empty key the cache grows without bound: after `n` different keys it holds all of them, for any `n`. */
  lemma {:induction false} EmptyKeyUnbounded(n: nat)
    ensures |Run(Fill(n)).keys| == n && WellFormed(Run(Fill(n)))
    ensures forall i :: 0 <= i < n ==> Run(Fill(n)).keys[i] == KeyOf(i)
  {
    if n == 0 {
    } else {
      var put := Put(KeyOf(n - 1), "", "", 0);
      EmptyKeyUnbounded(n - 1);
      assert Fill(n) == Fill(n - 1) + [put] + [];
      RunThrough(Fill(n - 1), put, []);
      var c := Run(Fill(n - 1));
      ApplyWellFormed(c, put);
      forall i | 0 <= i < n - 1 ensures c.keys[i] != KeyOf(n - 1) {
        assert |KeyOf(i)| != |KeyOf(n - 1)|;
      }
      assert n > 1 ==> c.keys[0] == KeyOf(0) == "";
      assert Evict(c) == c;
    }
  }

  // ----- the object -----

  predicate KeysNamed(es: seq<Event>) { forall i :: 0 <= i < |es| && es[i].Put? ==> es[i].key != "" }

  lemma RunSnoc(es: seq<Event>, e: Event)
    ensures Run(es + [e]) == Apply(Run(es), e)
  {
    RunThrough(es, e, []);
    assert es + [e] + [] == es + [e];
  }

  class ResponseCache {
    var keys: seq<string>
    var cache: map<string, Entry>

    ghost var history: seq<Event>  // all calls so far

    ghost function View(): Cache
      reads this
    {
      Cache(keys, cache)
    }

    ghost predicate Valid()
      reads this
    {
      View() == Run(history)
    }

    constructor ()
      ensures Valid() && history == []
    {
      keys, cache, history := [], map[], [];
    }

    /** The bound holds of every object that was never given the empty key. */
    lemma Bounded()
      requires Valid() && KeysNamed(history)
      ensures |keys| <= MAX_SIZE
    {
      SizeBound(Cache([], map[]), history);
    }

    /** An entry written under a new key and never looked up too late is there for 499 more `set` calls. */
    lemma Survives(before: seq<Event>, key: string, content: string, model: string, ts: int, after: seq<Event>)
      requires Valid() && history == before + [Put(key, content, model, ts)] + after
      requires key !in Run(before).entries && Puts(after) <= MAX_SIZE - 1 && NeverLate(key, ts, after)
      ensures key in cache
    {
      NewKeySurvives(before, key, content, model, ts, after, ts);
    }

    /** Deleting closes the gap in the order. */
    method Remove(key: string)
      requires WellFormed(View())
      modifies this`keys, this`cache
      ensures View() == Delete(old(View()), key) && key !in cache
      ensures key in old(cache) ==>
                exists i :: 0 <= i < |old(keys)| && old(keys)[i] == key && keys == old(keys)[..i] + old(keys)[i + 1..]
    {
      if key in cache {
        assert key in keys;
        ghost var i :| 0 <= i < |keys| && keys[i] == key;
        WithoutAt(keys, i);
      }
      keys, cache := Without(keys, key), cache - {key};
    }

    /** A hit is the last value written under the key, at most five minutes old; a miss of a present entry expires it. */
    method Lookup(key: string, now: int) returns (r: Option<(string, string)>)
      requires Valid()
      modifies this
      ensures Valid() && history == old(history) + [Event.Lookup(key, now)]
      ensures (View(), r) == Get(old(View()), key, now)
      ensures r.Some? ==>
                var m := LastWrite(map[], old(history));
                key in m && now - m[key].ts <= TTL_MS && r.value == (m[key].content, m[key].model)
      ensures r.Some? <==> key in old(cache) && now - old(cache)[key].ts <= 300_000
      ensures r.Some? ==> View() == old(View())
      ensures r.None? ==> key !in cache && cache == old(cache) - {key}
    {
      RunSnoc(history, Event.Lookup(key, now));
      RunWellFormed(history);
      history := history + [Event.Lookup(key, now)];
      if key !in cache { return None; }
      if now - cache[key].ts > TTL_MS {
        Remove(key);
        return None;
      }
      r := Some((cache[key].content, cache[key].model));
    }

    /**
     A full cache first gives up its oldest key, also when the call then only overwrites; unless that key is empty. An
     overwritten key keeps its place, any other goes to the end, and no other entry changes.
     */
    method Store(key: string, content: string, model: string, now: int)
      requires Valid()
      modifies this
      ensures Valid() && history == old(history) + [Put(key, content, model, now)]
      ensures View() == Set(old(View()), key, Entry(content, model, now))
      ensures key in cache && cache[key] == Entry(content, model, now)
      ensures KeysNamed(history) ==> |keys| <= 500
      ensures Replaces(old(View()), View(), key)
    {
      RunSnoc(history, Put(key, content, model, now));
      RunWellFormed(history);
      history := history + [Put(key, content, model, now)];
      SetReplaces(View(), key, Entry(content, model, now));
      if |keys| >= MAX_SIZE {
        var first := keys[0];
        if first != "" { Remove(first); }
      }
      if key !in cache { keys := keys + [key]; }
      cache := cache[key := Entry(content, model, now)];
      if KeysNamed(history) { Bounded(); }
    }
  }
}
