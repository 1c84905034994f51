/**
  The limiter of consecutive grants of rk_slice_policy.c.

  A UE's record counts, per direction, how many ticks in a row were granted up to the last grant. The
  results tell this counter by the granted ticks alone: first for any ticks at all, then for ticks that
  only grow, and then for those the scheduler passes, which start again at 0 after every turn of the
  frame clock.
 */
module SliceLimiter {
  import opened Basics
  import opened RntiTable
  import opened SlotClock

  const RUNTIME_MAX := 256

  datatype Direction = Dl | Ul

  datatype Counter = Counter(last: int, consecutive: nat)

  datatype Runtime = Runtime(dl: Counter, ul: Counter) {
    function Of(dir: Direction): Counter {
      match dir case Dl => dl case Ul => ul
    }
  }

  const INIT_RUNTIME := Runtime(Counter(-1, 0), Counter(-1, 0))

  datatype Grant = Grant(dir: Direction, tick: int)

  function Bump(c: Counter, now: int): Counter {
    Counter(now, if c.last == now - 1 then c.consecutive + 1 else 1)
  }

  function Note(r: Runtime, g: Grant): Runtime {
    match g.dir
    case Dl => r.(dl := Bump(r.dl, g.tick))
    case Ul => r.(ul := Bump(r.ul, g.tick))
  }

  predicate Throttles(c: Counter, now: int, max: int) {
    max > 0 && c.last == now - 1 && c.consecutive >= max
  }

  // ----- any ticks

  /** The ticks granted in one direction, in order. */
  ghost function Ticks(h: seq<Grant>, dir: Direction): seq<int> {
    if h == [] then []
    else
      var t := Ticks(h[..|h| - 1], dir);
      if h[|h| - 1].dir == dir then t + [h[|h| - 1].tick] else t
  }

  /** The last n grants were made at the n ticks before now, one at each. */
  ghost predicate Row(t: seq<int>, now: int, n: int)
    decreases |t|
  {
    n <= 0 || (t != [] && t[|t| - 1] == now - 1 && Row(t[..|t| - 1], now - 1, n - 1))
  }

  /** The same by places. */
  lemma {:induction false} RowMeans(t: seq<int>, now: int, n: nat)
    ensures Row(t, now, n) <==> n <= |t| && forall j :: |t| - n <= j < |t| ==> t[j] == now - |t| + j
    decreases n
  {
    if n > 0 && t != [] {
      var s := t[..|t| - 1];
      RowMeans(s, now - 1, n - 1);
      assert forall j :: 0 <= j < |s| ==> s[j] == t[j];
    }
  }

  lemma {:induction false} ShorterRow(t: seq<int>, now: int, n: int, m: int)
    requires Row(t, now, n) && m <= n
    ensures Row(t, now, m)
    decreases |t|
  {
    if m > 0 {
      ShorterRow(t[..|t| - 1], now - 1, n - 1, m - 1);
    }
  }

  /** The counter has the last tick and the length of the row that ends there. */
  ghost predicate Measures(c: Counter, t: seq<int>) {
    if t == [] then c == Counter(-1, 0)
    else
      && c.last == t[|t| - 1] && c.consecutive >= 1
      && Row(t, c.last + 1, c.consecutive) && !Row(t, c.last + 1, c.consecutive + 1)
  }

  lemma BumpMeasures(c: Counter, t: seq<int>, now: int)
    requires Measures(c, t)
    ensures Measures(Bump(c, now), t + [now])
  {
    assert (t + [now])[..|t|] == t;
  }

  lemma RowAppend(t: seq<int>, now: int, n: nat)
    ensures Row(t + [now], now + 1, n + 1) <==> Row(t, now, n)
  {
    assert (t + [now])[..|t|] == t;
  }

  lemma {:induction false} CounterMeasures(h: seq<Grant>, dir: Direction)
    ensures Measures(Fold(INIT_RUNTIME, Note, h).Of(dir), Ticks(h, dir))
    decreases h
  {
    if h != [] {
      var before, g := h[..|h| - 1], h[|h| - 1];
      CounterMeasures(before, dir);
      if g.dir == dir {
        BumpMeasures(Fold(INIT_RUNTIME, Note, before).Of(dir), Ticks(before, dir), g.tick);
      }
    }
  }

  /** The throttle fires exactly if the last `max` grants were made at the `max` ticks before now. */
  lemma ThrottleExact(c: Counter, t: seq<int>, now: int, max: int)
    requires Measures(c, t)
    ensures Throttles(c, now, max) <==> max > 0 && Row(t, now, max)
  {
    if max > 0 && t != [] && c.last == now - 1 {
      if c.consecutive >= max {
        ShorterRow(t, now, c.consecutive, max);
      } else if Row(t, now, max) {
        ShorterRow(t, now, max, c.consecutive + 1);
      }
    }
  }

  /** No grant was made at a tick where the throttle fired. */
  ghost predicate Honours(h: seq<Grant>, dir: Direction, max: int) {
    h != [] ==>
      var (before, g) := (h[..|h| - 1], h[|h| - 1]);
      && Honours(before, dir, max)
      && (g.dir == dir ==> !Throttles(Fold(INIT_RUNTIME, Note, before).Of(dir), g.tick, max))
  }

  /** A caller that honours the throttle never makes max + 1 grants at ticks that count up by one. */
  lemma {:induction false} NeverMoreThanMax(h: seq<Grant>, dir: Direction, max: nat, i: nat, now: int)
    requires max > 0 && Honours(h, dir, max) && i <= |Ticks(h, dir)|
    ensures !Row(Ticks(h, dir)[..i], now, max + 1)
    decreases h
  {
    if h != [] {
      var before, g := h[..|h| - 1], h[|h| - 1];
      var s, t := Ticks(before, dir), Ticks(h, dir);
      if i <= |s| {
        assert t[..i] == s[..i];
        NeverMoreThanMax(before, dir, max, i, now);
      } else {
        assert t[..i] == s + [g.tick];
        CounterMeasures(before, dir);
        ThrottleExact(Fold(INIT_RUNTIME, Note, before).Of(dir), s, g.tick, max);
        RowAppend(s, g.tick, max);
      }
    }
  }

  // ----- ticks that only grow

  ghost predicate Increasing(t: seq<int>) {
    && (forall i :: 0 <= i < |t| ==> t[i] >= 0)
    && (forall i, j :: 0 <= i < j < |t| ==> t[i] < t[j])
  }

  /** The n ticks up to and including `last` were all granted. */
  ghost predicate AllGranted(t: seq<int>, last: int, n: nat) {
    forall x :: last - n < x <= last ==> x in t
  }

  /** Where all of n neighbouring ticks were granted, and nothing after them, they are the last n grants. */
  lemma {:induction false} AllGrantedIsRow(t: seq<int>, now: int, n: nat)
    requires Increasing(t) && forall x <- t :: x < now
    ensures AllGranted(t, now - 1, n) <==> Row(t, now, n)
    decreases n
  {
    if n > 0 {
      if t == [] {
        assert now - 1 !in t;
      } else {
        var k := |t| - 1;
        var s := t[..k];
        assert t[k] in t && forall i :: 0 <= i < k ==> s[i] == t[i] < t[k];
        if t[k] == now - 1 {
          AllGrantedIsRow(s, now - 1, n - 1);
          assert t == s + [now - 1];
          RowAppend(s, now - 1, n - 1);
          assert AllGranted(t, now - 1, n) <==> AllGranted(s, now - 2, n - 1) by {
            assert forall x :: x < now - 1 ==> (x in t <==> x in s);
          }
        } else {
          assert now - 1 !in t;
        }
      }
    }
  }

  /** With growing ticks the throttle fires exactly if the last `max` ticks were all granted. */
  lemma ThrottleGrowing(c: Counter, t: seq<int>, now: int, max: int)
    requires Measures(c, t) && Increasing(t) && forall x <- t :: x < now
    ensures Throttles(c, now, max) <==> max > 0 && AllGranted(t, now - 1, max)
  {
    ThrottleExact(c, t, now, max);
    if max > 0 {
      AllGrantedIsRow(t, now, max);
    }
  }

  /** A skipped tick releases the UE, for ticks of any kind. */
  lemma SkippedTickReleases(c: Counter, t: seq<int>, now: int, max: int)
    requires Measures(c, t) && now - 1 !in t
    ensures !Throttles(c, now, max)
  {
    ThrottleExact(c, t, now, max);
  }

  /** The granted ticks up to `last`. */
  ghost function UpTo(t: seq<int>, last: int): (i: nat)
    requires Increasing(t)
    ensures i <= |t| && forall j :: 0 <= j < |t| ==> (t[j] <= last <==> j < i)
  {
    if t == [] then 0
    else if t[|t| - 1] <= last then |t|
    else UpTo(t[..|t| - 1], last)
  }

  /** Neighbouring ticks that were all granted are a row in the history. */
  lemma AllGrantedInHistory(t: seq<int>, last: int, n: nat)
    requires Increasing(t) && AllGranted(t, last, n)
    ensures Row(t[..UpTo(t, last)], last + 1, n)
  {
    var s := t[..UpTo(t, last)];
    assert forall x :: x <= last ==> (x in t <==> x in s);
    AllGrantedIsRow(s, last + 1, n);
  }

  /** So with growing ticks no max + 1 ticks in a row are granted. */
  lemma NeverMoreThanMaxGrowing(h: seq<Grant>, dir: Direction, max: nat, last: int)
    requires max > 0 && Increasing(Ticks(h, dir)) && Honours(h, dir, max)
    ensures !AllGranted(Ticks(h, dir), last, max + 1)
  {
    var t := Ticks(h, dir);
    NeverMoreThanMax(h, dir, max, UpTo(t, last), last + 1);
    if AllGranted(t, last, max + 1) {
      AllGrantedInHistory(t, last, max + 1);
    }
  }

  // ----- ticks of a clock that turns

  /** The ticks that a clock with p ticks per turn shows. */
  ghost function Shown(t: seq<int>, p: nat): (s: seq<int>)
    requires p > 0
    ensures |s| == |t| && forall i :: 0 <= i < |t| ==> s[i] == t[i] % p
  {
    seq(|t|, i requires 0 <= i < |t| => t[i] % p)
  }

  /** The history as the limiter sees it. */
  ghost function ShownGrants(h: seq<Grant>, p: nat): (s: seq<Grant>)
    requires p > 0
    ensures |s| == |h| && forall i :: 0 <= i < |h| ==> s[i] == Grant(h[i].dir, h[i].tick % p)
  {
    seq(|h|, i requires 0 <= i < |h| => Grant(h[i].dir, h[i].tick % p))
  }

  lemma {:induction false} TicksShown(h: seq<Grant>, dir: Direction, p: nat)
    requires p > 0
    ensures Ticks(ShownGrants(h, p), dir) == Shown(Ticks(h, dir), p)
    decreases h
  {
    if h != [] {
      TicksShown(h[..|h| - 1], dir, p);
      assert ShownGrants(h, p)[..|h| - 1] == ShownGrants(h[..|h| - 1], p);
    }
  }

  /** Distances within one turn. */
  ghost predicate Close(t: seq<int>, p: nat) {
    forall i :: 0 <= i < |t| - 1 ==> t[i + 1] - t[i] <= p
  }

  lemma NextShown(p: nat, u: int, v: int)
    requires p > 0 && 0 <= u < v
    ensures u % p == v % p - 1 <==> (v - u) % p == 1 % p && v % p != 0
  {
    var d := v - u;
    var q, r := u / p + d / p, u % p + d % p;
    assert v == q * p + r by {
      assert q * p == (u / p) * p + (d / p) * p;
    }
    if r < p {
      DivModUnique(v, p, q, r);
    } else {
      assert (q + 1) * p + (r - p) == v;
      DivModUnique(v, p, q + 1, r - p);
    }
  }

  lemma StepBack(p: nat, x: int)
    requires p > 0 && x % p >= 1
    ensures (x - 1) % p == x % p - 1
  {
    DivModUnique(x - 1, p, x / p, x % p - 1);
  }

  lemma NextWithinTurn(p: nat, u: int, v: int)
    requires p > 0 && 0 <= u < v <= u + p
    ensures u % p == v % p - 1 <==> u == v - 1 && v % p != 0
  {
    NextShown(p, u, v);
    if v - u == p {
      DivModUnique(v - u, p, 1, 0);
    } else {
      DivModUnique(v - u, p, 0, v - u);
    }
    if p > 1 {
      DivModUnique(1, p, 0, 1);
    }
  }

  ghost function ShownTick(x: int, p: nat): (s: nat)
    requires p > 0
    ensures s == x % p
  {
    x % p
  }

  /** One step from a grant to the next tick, on the clock. */
  lemma StepShown(p: nat, u: int, now: int)
    requires p > 0 && 0 <= u < now <= u + p
    ensures ShownTick(u, p) == ShownTick(now, p) - 1 <==> u == now - 1 && ShownTick(now, p) != 0
    ensures ShownTick(now, p) != 0 ==> ShownTick(now - 1, p) == ShownTick(now, p) - 1
  {
    NextWithinTurn(p, u, now);
    if now % p >= 1 {
      StepBack(p, now);
    }
  }

  /** A row of shown ticks is a row of ticks within one turn. */
  lemma {:induction false} ShownRow(t: seq<int>, p: nat, now: int, n: nat)
    requires p > 0 && Increasing(t) && Close(t, p) && (forall x <- t :: x < now)
    requires t != [] ==> now - t[|t| - 1] <= p
    ensures Row(Shown(t, p), ShownTick(now, p), n) <==> Row(t, now, n) && ShownTick(now, p) >= n
    decreases n
  {
    if n > 0 && t != [] {
      var k := |t| - 1;
      var s, u := t[..k], Shown(t, p);
      assert t[k] in t && u[..k] == Shown(s, p) && u[k] == ShownTick(t[k], p);
      StepShown(p, t[k], now);
      if t[k] == now - 1 && ShownTick(now, p) != 0 {
        assert forall x <- s :: x < t[k];
        assert s != [] ==> t[k] - t[k - 1] <= p;
        hide Increasing, Close;
        EarlierRow(t, p, k);
        ShownRow(s, p, now - 1, n - 1);
      }
    }
  }

  lemma EarlierRow(t: seq<int>, p: nat, k: nat)
    requires Increasing(t) && Close(t, p) && k <= |t|
    ensures Increasing(t[..k]) && Close(t[..k], p)
  {
  }

  /** With the ticks of a clock that turns, and no more than a turn between them: the throttle fires exactly
      if the last `max` ticks were all granted and none of them was before the turn. */
  lemma ThrottleShown(h: seq<Grant>, dir: Direction, p: nat, now: int, max: int)
    requires p > 0
    requires var t := Ticks(h, dir);
             Increasing(t) && Close(t, p) && (forall x <- t :: x < now) && (t != [] ==> now - t[|t| - 1] <= p)
    ensures Throttles(Fold(INIT_RUNTIME, Note, ShownGrants(h, p)).Of(dir), now % p, max)
            <==> max > 0 && AllGranted(Ticks(h, dir), now - 1, max) && now % p >= max
  {
    var t := Ticks(h, dir);
    CounterMeasures(ShownGrants(h, p), dir);
    TicksShown(h, dir, p);
    ThrottleExact(Fold(INIT_RUNTIME, Note, ShownGrants(h, p)).Of(dir), Shown(t, p), now % p, max);
    if max > 0 {
      ShownRow(t, p, now, max);
      AllGrantedIsRow(t, now, max);
    }
  }

  /** After a pause of more than a turn it can fire although the tick before was not granted. */
  lemma StaleThrottle(dir: Direction, p: nat)
    requires p > 1
    ensures var h := [Grant(dir, 0)];
            && Ticks(h, dir) == [0] && !AllGranted(Ticks(h, dir), p, 1)
            && Throttles(Fold(INIT_RUNTIME, Note, ShownGrants(h, p)).Of(dir), (p + 1) % p, 1)
  {
    var h := [Grant(dir, 0)];
    assert h[..0] == [] && Ticks([], dir) == [];
    DivModUnique(p + 1, p, 1, 1);
    CounterMeasures(ShownGrants(h, p), dir);
    TicksShown(h, dir, p);
    DivModUnique(0, p, 0, 0);
    assert Shown([0], p) == [0];
    assert p !in [0];
  }

  lemma {:induction false} RowIsShown(t: seq<int>, p: nat, now: int, n: nat)
    requires p > 0 && Row(t, now, n) && (now - 1) % p >= n - 1
    ensures Row(Shown(t, p), (now - 1) % p + 1, n)
    decreases n
  {
    if n > 0 {
      var k := |t| - 1;
      assert Shown(t, p)[..k] == Shown(t[..k], p);
      if n > 1 {
        StepBack(p, now - 1);
        RowIsShown(t[..k], p, now - 1, n - 1);
      }
    }
  }

  /** What a caller that honours the throttle can still do: max + 1 ticks in a row are granted only across
      a turn, where the last of them is one of the first `max` ticks of the turn. */
  lemma RowsCrossTurn(h: seq<Grant>, dir: Direction, p: nat, max: nat, last: int)
    requires p > 0 && max > 0 && Increasing(Ticks(h, dir)) && Honours(ShownGrants(h, p), dir, max)
    requires AllGranted(Ticks(h, dir), last, max + 1)
    ensures last % p < max
  {
    var t := Ticks(h, dir);
    var i := UpTo(t, last);
    AllGrantedInHistory(t, last, max + 1);
    TicksShown(h, dir, p);
    NeverMoreThanMax(ShownGrants(h, p), dir, max, i, last % p + 1);
    assert Shown(t, p)[..i] == Shown(t[..i], p);
    if last % p >= max {
      RowIsShown(t[..i], p, last + 1, max + 1);
    }
  }

  /** So it never grants more than 2 * max ticks in a row. */
  lemma NeverMoreThanTwiceMax(h: seq<Grant>, dir: Direction, p: nat, max: nat, last: int)
    requires 0 < max < p && Increasing(Ticks(h, dir)) && Honours(ShownGrants(h, p), dir, max)
    ensures !AllGranted(Ticks(h, dir), last, 2 * max + 1)
  {
    if AllGranted(Ticks(h, dir), last, 2 * max + 1) {
      var r := (last - max) % p;
      RowsCrossTurn(h, dir, p, max, last - max);
      var e := last - max + (max - r);
      DivModUnique(e, p, (last - max) / p, max);
      RowsCrossTurn(h, dir, p, max, e);
    }
  }

  ghost function RowGrants(dir: Direction, from: nat, n: nat): (h: seq<Grant>)
    ensures |h| == n && forall i :: 0 <= i < n ==> h[i] == Grant(dir, from + i)
  {
    seq(n, i => Grant(dir, from + i))
  }

  lemma {:induction false} RowTicks(dir: Direction, from: nat, n: nat)
    ensures var t := Ticks(RowGrants(dir, from, n), dir);
            |t| == n && forall i :: 0 <= i < n ==> t[i] == from + i
  {
    if n > 0 {
      RowTicks(dir, from, n - 1);
      assert RowGrants(dir, from, n)[..n - 1] == RowGrants(dir, from, n - 1);
    }
  }

  lemma RowAcrossTurnNext(dir: Direction, p: nat, max: nat, n: nat)
    requires 0 < max <= p && n < 2 * max
    ensures !Throttles(Fold(INIT_RUNTIME, Note, ShownGrants(RowGrants(dir, p - max, n), p)).Of(dir),
        (p - max + n) % p, max)
  {
    var h, now := RowGrants(dir, p - max, n), p - max + n;
    RowTicks(dir, p - max, n);
    var t := Ticks(h, dir);
    assert Increasing(t) && Close(t, p) && (forall x <- t :: p - max <= x < now) && (t != [] ==> now - t[|t| - 1] <= p);
    ThrottleShown(h, dir, p, now, max);
    if n < max {
      assert p - max - 1 !in t && now - 1 - max < p - max - 1 <= now - 1;
    } else {
      DivModUnique(now, p, 1, n - max);
    }
  }

  lemma {:induction false} RowAcrossTurnHonours(dir: Direction, p: nat, max: nat, n: nat)
    requires 0 < max <= p && n <= 2 * max
    ensures Honours(ShownGrants(RowGrants(dir, p - max, n), p), dir, max)
    decreases n
  {
    if n > 0 {
      var h, s := RowGrants(dir, p - max, n), RowGrants(dir, p - max, n - 1);
      assert h[..n - 1] == s && ShownGrants(h, p)[..n - 1] == ShownGrants(s, p);
      RowAcrossTurnHonours(dir, p, max, n - 1);
      RowAcrossTurnNext(dir, p, max, n - 1);
      hide Throttles, Fold;
    }
  }

  /** But it can grant that many: the last `max` ticks of a turn and the first `max` of the next. */
  lemma TwiceMaxIsReached(dir: Direction, p: nat, max: nat)
    requires 0 < max <= p
    ensures var h := RowGrants(dir, p - max, 2 * max);
            && Increasing(Ticks(h, dir)) && Honours(ShownGrants(h, p), dir, max)
            && AllGranted(Ticks(h, dir), p + max - 1, 2 * max)
  {
    RowAcrossTurnHonours(dir, p, max, 2 * max);
    RowTicks(dir, p - max, 2 * max);
    var t := Ticks(RowGrants(dir, p - max, 2 * max), dir);
    forall x | p - max - 1 < x <= p + max - 1
      ensures x in t
    {
      assert t[x - (p - max)] == x;
    }
  }

  // ----- the table of counters

  /** After any grants on a fresh table: the throttle of a UE that got a record fires exactly if its last
      `max` grants in this direction were made at the `max` ticks before now, whatever other UEs and the
      other direction did. With at most 256 UEs everyone gets a record. */
  lemma ThrottleAfterGrants(
      t: seq<Slot<Runtime>>, es: seq<(nat, Grant)>, rnti: nat, dir: Direction, now: int, max: int)
    requires Empty(t) && |t| == RUNTIME_MAX
    ensures ThrottledIn(Run(t, INIT_RUNTIME, Note, es), rnti, dir, now, max)
            <==> rnti in Tracked(es, RUNTIME_MAX) && max > 0 && Row(Ticks(History(es, rnti), dir), now, max)
  {
    RunLookup(t, INIT_RUNTIME, Note, es, rnti);
    CounterMeasures(History(es, rnti), dir);
    ThrottleExact(Fold(INIT_RUNTIME, Note, History(es, rnti)).Of(dir), Ticks(History(es, rnti), dir), now, max);
  }

  /** What a query of the table answers. */
  ghost predicate ThrottledIn(t: seq<Slot<Runtime>>, rnti: nat, dir: Direction, now: int, max: int) {
    Lookup(t, rnti).Some? && Throttles(Lookup(t, rnti).value.Of(dir), now, max)
  }

  /** The events as the limiter sees them. */
  ghost function ShownEvents(es: seq<(nat, Grant)>, p: nat): (s: seq<(nat, Grant)>)
    requires p > 0
    ensures |s| == |es| && forall i :: 0 <= i < |es| ==> s[i] == (es[i].0, Grant(es[i].1.dir, es[i].1.tick % p))
  {
    seq(|es|, i requires 0 <= i < |es| => (es[i].0, Grant(es[i].1.dir, es[i].1.tick % p)))
  }

  lemma {:induction false} HistoryShown(es: seq<(nat, Grant)>, rnti: nat, p: nat, cap: nat)
    requires p > 0
    ensures History(ShownEvents(es, p), rnti) == ShownGrants(History(es, rnti), p)
    ensures Tracked(ShownEvents(es, p), cap) == Tracked(es, cap)
    decreases es
  {
    if es != [] {
      HistoryShown(es[..|es| - 1], rnti, p, cap);
      assert ShownEvents(es, p)[..|es| - 1] == ShownEvents(es[..|es| - 1], p);
    }
  }

  /** The same for the ticks of a clock with p ticks per turn, told by the ticks that were granted. */
  lemma ThrottleAcrossTurns(
      t: seq<Slot<Runtime>>, es: seq<(nat, Grant)>, rnti: nat, dir: Direction, p: nat, now: int, max: int)
    requires Empty(t) && |t| == RUNTIME_MAX && p > 0
    requires var ticks := Ticks(History(es, rnti), dir);
             && Increasing(ticks) && Close(ticks, p) && (forall x <- ticks :: x < now)
             && (ticks != [] ==> now - ticks[|ticks| - 1] <= p)
    ensures ThrottledIn(Run(t, INIT_RUNTIME, Note, ShownEvents(es, p)), rnti, dir, now % p, max)
            <==> && rnti in Tracked(es, RUNTIME_MAX) && max > 0
                 && AllGranted(Ticks(History(es, rnti), dir), now - 1, max) && now % p >= max
  {
    RunLookup(t, INIT_RUNTIME, Note, ShownEvents(es, p), rnti);
    HistoryShown(es, rnti, p, RUNTIME_MAX);
    ThrottleShown(History(es, rnti), dir, p, now, max);
  }

  class SliceRuntime {
    const table: Table<Runtime>

    constructor ()
      ensures fresh(table) && fresh(table.slots) && table.slots.Length == RUNTIME_MAX && Empty(table.slots[..])
    {
      table := new Table<Runtime>(RUNTIME_MAX, INIT_RUNTIME);
    }

    /** rk_slice_runtime_{dl,ul}_should_throttle */
    method ShouldThrottle(rnti: nat, dir: Direction, now: int, max: int) returns (b: bool)
      ensures b == ThrottledIn(table.slots[..], rnti, dir, now, max)
    {
      if max <= 0 {
        return false;
      }
      var i := table.FindSlot(rnti);
      if i == table.slots.Length {
        return false;
      }
      var c := table.slots[i].value.Of(dir);
      if c.last == now - 1 && c.consecutive >= max {
        return true;
      }
      return false;
    }

    /** rk_slice_runtime_note_{dl,ul}_grant */
    method NoteGrant(rnti: nat, dir: Direction, now: int)
      modifies table.slots
      ensures table.slots[..] == Apply(old(table.slots[..]), INIT_RUNTIME, Note, rnti, Grant(dir, now))
    {
      ghost var before := table.slots[..];
      var i := table.FindOrCreate(rnti, INIT_RUNTIME);
      if i == table.slots.Length {
        return;
      }
      var r := table.slots[i].value;
      var c := r.Of(dir);
      var n := if c.last == now - 1 then c.consecutive + 1 else 1;
      var r' := match dir case Dl => r.(dl := Counter(now, n)) case Ul => r.(ul := Counter(now, n));
      AllocThenWrite(before, rnti, INIT_RUNTIME, r');
      table.slots[i] := Slot(table.slots[i].valid, table.slots[i].rnti, r');
    }
  }
}
