/**
 The per-user flood limiter of the group guardian. What it stores is pruned and truncated all the time; the proofs
 compare it with the full history of the messages it let through. Times are milliseconds.
 */
module FloodGuard {
  const FLOOD_LIMIT := 5
  const FLOOD_WINDOW_MS := 10_000
  const KEEP := 10

  function Recent(ts: seq<int>, now: int): (r: seq<int>)
    ensures |r| <= |ts|
  {
    if ts == [] then []
    else (if now - ts[0] < FLOOD_WINDOW_MS then [ts[0]] else []) + Recent(ts[1..], now)
  }

  /** How many entries `slice(-10)` drops. */
  function Excess(ts: seq<int>): nat { if |ts| > KEEP then |ts| - KEEP else 0 }

  function CountBetween(ts: seq<int>, from: int, to: int): nat {
    if ts == [] then 0 else (if from <= ts[0] < to then 1 else 0) + CountBetween(ts[1..], from, to)
  }

  predicate Sorted(h: seq<int>) { forall i, j :: 0 <= i < j < |h| ==> h[i] <= h[j] }

  predicate Until(h: seq<int>, clock: int) { forall i :: 0 <= i < |h| ==> h[i] <= clock }

  /** Every message let through is a full window later than the fifth one before it. */
  predicate Spaced(h: seq<int>) {
    forall i, j :: 0 <= i && i + FLOOD_LIMIT <= j < |h| ==> h[j] >= h[i] + FLOOD_WINDOW_MS
  }

  predicate Ahead(a: seq<int>, b: seq<int>) { forall i, j :: 0 <= i < |a| && 0 <= j < |b| ==> a[i] <= b[j] }

  /**
   One user at time `clock`: `gone` was let through and is no longer stored, `stored` came after it. What is gone is
   out of the window, or is followed by at least ten messages that are stored.
   */
  predicate InOrder(gone: seq<int>, stored: seq<int>, clock: int) {
    && Sorted(gone) && Sorted(stored) && Until(gone, clock) && Until(stored, clock)
    && Ahead(gone, stored)
    && (|stored| >= KEEP || Until(gone, clock - FLOOD_WINDOW_MS))
  }

  // ----- filtering -----

  lemma {:induction false} RecentConcat(a: seq<int>, b: seq<int>, now: int)
    ensures Recent(a + b, now) == Recent(a, now) + Recent(b, now)
  {
    if a == [] {
      assert a + b == b;
    } else {
      assert (a + b)[1..] == a[1..] + b;
      RecentConcat(a[1..], b, now);
    }
  }

  lemma {:induction false} AllRecent(h: seq<int>, now: int)
    requires forall i :: 0 <= i < |h| ==> now - h[i] < FLOOD_WINDOW_MS
    ensures Recent(h, now) == h
  {
    if h == [] {
    } else {
      AllRecent(h[1..], now);
    }
  }

  lemma {:induction false} NoneRecent(h: seq<int>, now: int)
    requires Until(h, now - FLOOD_WINDOW_MS)
    ensures Recent(h, now) == []
  {
    if h == [] {
    } else {
      NoneRecent(h[1..], now);
    }
  }

  /** How many entries at the beginning of a list are out of the window. */
  function Stale(h: seq<int>, now: int): (k: nat)
    ensures k <= |h| && forall i :: 0 <= i < k ==> h[i] <= now - FLOOD_WINDOW_MS
    ensures k < |h| ==> now - h[k] < FLOOD_WINDOW_MS
  {
    if h == [] || now - h[0] < FLOOD_WINDOW_MS then 0 else 1 + Stale(h[1..], now)
  }

  lemma {:induction false} RecentFrom(h: seq<int>, now: int)
    requires Sorted(h)
    ensures Recent(h, now) == h[Stale(h, now)..]
  {
    if h == [] {
    } else if now - h[0] < FLOOD_WINDOW_MS {
      AllRecent(h, now);
    } else {
      RecentFrom(h[1..], now);
    }
  }

  /** The entries of a sorted list that are out of the window are its first ones. */
  lemma RecentIsTail(h: seq<int>, now: int) returns (k: nat)
    requires Sorted(h)
    ensures k <= |h| && Recent(h, now) == h[k..]
    ensures Until(h[..k], now - FLOOD_WINDOW_MS)
    ensures k < |h| ==> now - h[k] < FLOOD_WINDOW_MS
  {
    k := Stale(h, now);
    RecentFrom(h, now);
  }

  /** Pruning and truncation never change an answer: what is stored gives the verdict the full history gives. */
  lemma SameVerdict(gone: seq<int>, stored: seq<int>, clock: int, now: int)
    requires InOrder(gone, stored, clock) && clock <= now
    ensures |Recent(stored, now)| >= FLOOD_LIMIT <==> |Recent(gone + stored, now)| >= FLOOD_LIMIT
  {
    RecentConcat(gone, stored, now);
    if Until(gone, now - FLOOD_WINDOW_MS) {
      NoneRecent(gone, now);
    } else {
      assert |stored| >= KEEP;
      AllRecent(stored, now);
    }
  }

  /** Dropping the first `d` stored entries, when they are out of the window or ten others stay. */
  lemma Drop(gone: seq<int>, stored: seq<int>, clock: int, now: int, d: nat)
    requires InOrder(gone, stored, clock) && clock <= now && d <= |stored|
    requires |stored| - d >= KEEP || (Until(gone, now - FLOOD_WINDOW_MS) && Until(stored[..d], now - FLOOD_WINDOW_MS))
    ensures InOrder(gone + stored[..d], stored[d..], now)
    ensures (gone + stored[..d]) + stored[d..] == gone + stored
  {
    assert stored == stored[..d] + stored[d..];
    Move(gone, stored[..d], stored[d..], stored, clock, now);
  }

  /** The same for a stored list that comes in two pieces. */
  lemma Move(gone: seq<int>, a: seq<int>, b: seq<int>, stored: seq<int>, clock: int, now: int)
    requires InOrder(gone, stored, clock) && clock <= now && stored == a + b
    requires |b| >= KEEP || (Until(gone, now - FLOOD_WINDOW_MS) && Until(a, now - FLOOD_WINDOW_MS))
    ensures InOrder(gone + a, b, now)
    ensures (gone + a) + b == gone + stored
  {
    Pieces(a, b, clock);
    AheadOfPieces(gone, a, b);
    Joined(gone, a, now);
    JoinedAhead(gone, a, b);
    if Until(gone, now - FLOOD_WINDOW_MS) && Until(a, now - FLOOD_WINDOW_MS) {
      UntilJoined(gone, a, now - FLOOD_WINDOW_MS);
    }
  }

  lemma Pieces(a: seq<int>, b: seq<int>, clock: int)
    requires Sorted(a + b) && Until(a + b, clock)
    ensures Sorted(a) && Sorted(b) && Ahead(a, b) && Until(a, clock) && Until(b, clock)
  {
    var s := a + b;
    assert forall i :: 0 <= i < |a| ==> a[i] == s[i];
    assert forall i :: 0 <= i < |b| ==> b[i] == s[|a| + i];
  }

  lemma AheadOfPieces(g: seq<int>, a: seq<int>, b: seq<int>)
    requires Ahead(g, a + b)
    ensures Ahead(g, a) && Ahead(g, b)
  {
    var s := a + b;
    assert forall i :: 0 <= i < |a| ==> a[i] == s[i];
    assert forall i :: 0 <= i < |b| ==> b[i] == s[|a| + i];
  }

  lemma Joined(g: seq<int>, a: seq<int>, clock: int)
    requires Sorted(g) && Sorted(a) && Ahead(g, a) && Until(g, clock) && Until(a, clock)
    ensures Sorted(g + a) && Until(g + a, clock)
  {
  }

  lemma UntilJoined(g: seq<int>, a: seq<int>, clock: int)
    requires Until(g, clock) && Until(a, clock)
    ensures Until(g + a, clock)
  {
  }

  lemma JoinedAhead(g: seq<int>, a: seq<int>, b: seq<int>)
    requires Ahead(g, b) && Ahead(a, b)
    ensures Ahead(g + a, b)
  {
  }

  /** `isFlood` keeps a user in order. */
  lemma PruneInOrder(gone: seq<int>, stored: seq<int>, clock: int, now: int) returns (k: nat)
    requires InOrder(gone, stored, clock) && clock <= now
    ensures k <= |stored| && Recent(stored, now) == stored[k..] && InOrder(gone + stored[..k], stored[k..], now)
    ensures (gone + stored[..k]) + stored[k..] == gone + stored
  {
    k := RecentIsTail(stored, now);
    if !Until(gone, now - FLOOD_WINDOW_MS) {
      AllRecent(stored, now);
      assert stored[..0] == [];
      k := 0;
    }
    Drop(gone, stored, clock, now, k);
  }

  /** `trackMessage` keeps a user in order. */
  lemma TrackInOrder(gone: seq<int>, stored: seq<int>, clock: int, now: int)
    requires InOrder(gone, stored, clock) && clock <= now
    ensures var all := stored + [now];
            var d := Excess(all);
            InOrder(gone + all[..d], all[d..], now) && (gone + all[..d]) + all[d..] == (gone + stored) + [now]
  {
    var all := stored + [now];
    assert InOrder(gone, all, now);
    assert all[..0] == [];
    Drop(gone, all, now, now, Excess(all));
  }

  lemma HistoryInOrder(gone: seq<int>, stored: seq<int>, clock: int)
    requires InOrder(gone, stored, clock)
    ensures Sorted(gone + stored) && Until(gone + stored, clock)
  {
  }

  /** Letting a message through after a negative verdict keeps the spacing. */
  lemma PassKeepsSpacing(h: seq<int>, checked: int, now: int)
    requires Sorted(h) && Spaced(h) && Until(h, checked) && checked <= now
    requires |Recent(h, checked)| < FLOOD_LIMIT
    ensures Spaced(h + [now])
  {
    var k := RecentIsTail(h, checked);
    var g := h + [now];
    forall i, j | 0 <= i && i + FLOOD_LIMIT <= j < |g| ensures g[j] >= g[i] + FLOOD_WINDOW_MS {
      if j == |h| {
        assert h[..k][i] == g[i];
      }
    }
  }

  // ----- the sliding window -----

  lemma {:induction false} CountCapped(h: seq<int>, from: int, to: int, n: nat)
    requires Sorted(h) && (|h| > n ==> h[n] >= to)
    ensures CountBetween(h, from, to) <= n
  {
    if h == [] {
    } else {
      if n == 0 {
        assert forall i :: 0 <= i < |h| ==> h[0] <= h[i];
        CountCapped(h[1..], from, to, 0);
      } else {
        CountCapped(h[1..], from, to, n - 1);
      }
    }
  }

  /** How many entries lie in the half-open window of ten seconds from `from` on. */
  function InWindow(h: seq<int>, from: int): nat { CountBetween(h, from, from + 10_000) }

  /** In any half-open window of ten seconds, wherever it starts, at most five messages were let through. */
  lemma {:induction false} WindowBound(h: seq<int>, from: int)
    requires Sorted(h) && Spaced(h)
    ensures InWindow(h, from) <= 5
  {
    if h == [] {
    } else if h[0] >= from {
      CountCapped(h, from, from + FLOOD_WINDOW_MS, FLOOD_LIMIT);
    } else {
      WindowBound(h[1..], from);
    }
  }

  lemma {:induction false} RecentCounts(h: seq<int>, now: int)
    requires Until(h, now)
    ensures |Recent(h, now)| == CountBetween(h, now - FLOOD_WINDOW_MS + 1, now + 1)
  {
    if h == [] {
    } else {
      RecentCounts(h[1..], now);
    }
  }

  /** A verdict of "flood" means exactly five messages were let through in the ten seconds up to now. */
  lemma FloodMeansFive(h: seq<int>, now: int)
    requires Sorted(h) && Spaced(h) && Until(h, now)
    ensures |Recent(h, now)| >= 5 <==> CountBetween(h, now - 9_999, now + 1) == 5
  {
    RecentCounts(h, now);
    WindowBound(h, now - FLOOD_WINDOW_MS + 1);
  }

  // ----- the object -----

  function Of(m: map<int, seq<int>>, user: int): seq<int> { if user in m then m[user] else [] }

  lemma LaterInOrder(gone: seq<int>, stored: seq<int>, clock: int, now: int)
    requires InOrder(gone, stored, clock) && clock <= now
    ensures InOrder(gone, stored, now)
  {
  }

  /** What is stored, and what was let through but is no longer stored, for all users. */
  datatype Store = Store(gone: map<int, seq<int>>, stored: map<int, seq<int>>)

  /** The times of all messages of a user that were let through. */
  function HistoryOf(m: Store, user: int): seq<int> { Of(m.gone, user) + Of(m.stored, user) }

  ghost predicate AllInOrder(m: Store, clock: int) {
    forall u :: InOrder(Of(m.gone, u), Of(m.stored, u), clock)
  }

  ghost predicate AllSpaced(m: Store) { forall u :: Spaced(HistoryOf(m, u)) }

  /** Whatever ten seconds one looks at, no user got more than five messages through in them. */
  ghost predicate Bounded(m: Store) {
    forall u, from :: InWindow(HistoryOf(m, u), from) <= 5
  }

  lemma SpacedBounded(m: Store, clock: int)
    requires AllInOrder(m, clock) && AllSpaced(m)
    ensures Bounded(m)
  {
    forall u, from ensures InWindow(HistoryOf(m, u), from) <= 5 {
      assert InOrder(Of(m.gone, u), Of(m.stored, u), clock);
      HistoryInOrder(Of(m.gone, u), Of(m.stored, u), clock);
      WindowBound(HistoryOf(m, u), from);
    }
  }

  /** `m'` has the histories of `m`, with `more` at the end of one user's. */
  ghost predicate Extends(m: Store, m': Store, user: int, more: seq<int>) {
    forall u :: HistoryOf(m', u) == if u == user then HistoryOf(m, u) + more else HistoryOf(m, u)
  }

  function Put(m: Store, user: int, g: seq<int>, s: seq<int>): Store {
    Store(m.gone[user := g], m.stored[user := s])
  }

  /** Moving the clock on and changing one user's entries, in order, leaves all users in order. */
  lemma PutInOrder(m: Store, clock: int, now: int, user: int, g: seq<int>, s: seq<int>)
    requires AllInOrder(m, clock) && clock <= now && InOrder(g, s, now)
    ensures AllInOrder(Put(m, user, g, s), now)
  {
    var m' := Put(m, user, g, s);
    forall u ensures InOrder(Of(m'.gone, u), Of(m'.stored, u), now) {
      if u != user {
        LaterInOrder(Of(m.gone, u), Of(m.stored, u), clock, now);
      }
    }
  }

  lemma PutExtends(m: Store, user: int, g: seq<int>, s: seq<int>, more: seq<int>)
    requires g + s == HistoryOf(m, user) + more
    ensures Extends(m, Put(m, user, g, s), user, more)
  {
  }

  /** The check of one user at a later moment. */
  lemma CheckStep(m: Store, clock: int, now: int, user: int) returns (g: seq<int>)
    requires AllInOrder(m, clock) && clock <= now
    ensures AllInOrder(Put(m, user, g, Recent(Of(m.stored, user), now)), now)
    ensures Extends(m, Put(m, user, g, Recent(Of(m.stored, user), now)), user, [])
    ensures |Recent(Of(m.stored, user), now)| >= FLOOD_LIMIT <==> |Recent(HistoryOf(m, user), now)| >= FLOOD_LIMIT
  {
    var gone, stored := Of(m.gone, user), Of(m.stored, user);
    assert InOrder(gone, stored, clock);
    SameVerdict(gone, stored, clock, now);
    var k := PruneInOrder(gone, stored, clock, now);
    g := gone + stored[..k];
    PutInOrder(m, clock, now, user, g, stored[k..]);
    PutExtends(m, user, g, stored[k..], []);
  }

  /** The record of one message. */
  lemma TrackStep(m: Store, clock: int, now: int, user: int) returns (g: seq<int>)
    requires AllInOrder(m, clock) && clock <= now
    ensures var all := Of(m.stored, user) + [now];
            var m' := Put(m, user, g, all[Excess(all)..]);
            AllInOrder(m', now) && Extends(m, m', user, [now])
  {
    var all := Of(m.stored, user) + [now];
    var d := Excess(all);
    assert InOrder(Of(m.gone, user), Of(m.stored, user), clock);
    TrackInOrder(Of(m.gone, user), Of(m.stored, user), clock, now);
    g := Of(m.gone, user) + all[..d];
    PutInOrder(m, clock, now, user, g, all[d..]);
    PutExtends(m, user, g, all[d..], [now]);
  }

  lemma SameSpaced(m: Store, m': Store, user: int)
    requires AllSpaced(m) && Extends(m, m', user, [])
    ensures AllSpaced(m') && HistoryOf(m', user) == HistoryOf(m, user)
  {
  }

  /** A message that passed the check keeps the spacing of all users. */
  lemma PassStep(m: Store, m': Store, checked: int, recorded: int, user: int)
    requires AllInOrder(m, checked) && AllSpaced(m) && checked <= recorded
    requires |Recent(HistoryOf(m, user), checked)| < FLOOD_LIMIT
    requires Extends(m, m', user, [recorded])
    ensures AllSpaced(m')
  {
    assert InOrder(Of(m.gone, user), Of(m.stored, user), checked);
    HistoryInOrder(Of(m.gone, user), Of(m.stored, user), checked);
    PassKeepsSpacing(HistoryOf(m, user), checked, recorded);
    forall u ensures Spaced(HistoryOf(m', u)) {
      assert Spaced(HistoryOf(m, u));
    }
  }

  lemma RecentFirst(ts: seq<int>, i: nat, now: int, before: seq<int>)
    requires i < |ts|
    ensures before + Recent(ts[i..], now) ==
              (if now - ts[i] < FLOOD_WINDOW_MS then before + [ts[i]] else before) + Recent(ts[i + 1..], now)
  {
    assert ts[i..][1..] == ts[i + 1..];
  }

  /** The filtering loop of `isFlood`. */
  method Prune(ts: seq<int>, now: int) returns (recent: seq<int>)
    ensures recent == Recent(ts, now)
  {
    recent := [];
    var i := 0;
    while i < |ts|
      invariant 0 <= i <= |ts|
      invariant recent + Recent(ts[i..], now) == Recent(ts, now)
    {
      RecentFirst(ts, i, now, recent);
      if now - ts[i] < FLOOD_WINDOW_MS { recent := recent + [ts[i]]; }
      i := i + 1;
    }
  }

  class Guardian {
    var messageTimestamps: map<int, seq<int>>

    ghost var gone: map<int, seq<int>>  // what was let through and is no longer stored
    ghost var clock: int                // the latest reading of the clock

    ghost function View(): Store
      reads this
    {
      Store(gone, messageTimestamps)
    }

    /** What is stored represents a history. */
    ghost predicate Represents()
      reads this
    {
      AllInOrder(View(), clock)
    }

    /** And the history is one that the limiter let through. */
    ghost predicate Valid()
      reads this
    {
      Represents() && AllSpaced(View())
    }

    constructor (now: int)
      ensures Valid() && clock == now && forall u :: HistoryOf(View(), u) == []
    {
      messageTimestamps, gone, clock := map[], map[], now;
    }

    method IsFlood(user: int, now: int) returns (flood: bool)
      requires Valid() && now >= clock
      modifies this
      ensures Valid() && clock == now && Extends(old(View()), View(), user, [])
      ensures flood <==> |Recent(HistoryOf(old(View()), user), now)| >= 5
    {
      var recent := Prune(Of(messageTimestamps, user), now);
      ghost var g := CheckStep(View(), clock, now, user);
      messageTimestamps := messageTimestamps[user := recent];
      gone := gone[user := g];
      clock := now;
      SameSpaced(old(View()), View(), user);
      flood := |recent| >= FLOOD_LIMIT;
    }

    /** Records a message whatever the check said: by itself this keeps no bound. */
    method TrackMessage(user: int, now: int)
      requires Represents() && now >= clock
      modifies this
      ensures Represents() && clock == now && Extends(old(View()), View(), user, [now])
    {
      var ts := Of(messageTimestamps, user) + [now];
      ghost var g := TrackStep(View(), clock, now, user);
      messageTimestamps := messageTimestamps[user := ts[Excess(ts)..]];
      gone := gone[user := g];
      clock := now;
    }

    /**
     The end of the message filter: the flood check, then, at the same moment or later, the record. However often it ran
     and whoever sent, nobody ever got more than five messages through in any ten seconds.
     */
    method Filter(user: int, checked: int, recorded: int) returns (letThrough: bool)
      requires Valid() && clock <= checked <= recorded
      modifies this
      ensures Valid() && Bounded(View())
      ensures letThrough <==> |Recent(HistoryOf(old(View()), user), checked)| < 5
      ensures Extends(old(View()), View(), user, if letThrough then [recorded] else [])
    {
      var flood := IsFlood(user, checked);
      SameSpaced(old(View()), View(), user);
      SpacedBounded(View(), clock);
      if flood { return false; }
      ghost var m := View();
      TrackMessage(user, recorded);
      PassStep(m, View(), checked, recorded, user);
      SpacedBounded(View(), clock);
      letThrough := true;
      assert Extends(old(View()), View(), user, [recorded]) by {
        BothExtend(old(View()), m, View(), user, [recorded]);
      }
    }
  }

  lemma BothExtend(a: Store, b: Store, c: Store, user: int, more: seq<int>)
    requires Extends(a, b, user, []) && Extends(b, c, user, more)
    ensures Extends(a, c, user, more)
  {
    forall u ensures HistoryOf(c, u) == if u == user then HistoryOf(a, u) + more else HistoryOf(a, u) {
      assert HistoryOf(b, u) == HistoryOf(a, u);
    }
  }
}
