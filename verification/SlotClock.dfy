/**
  The uplink scheduling clock: (frame, slot) pairs that wrap after 1024 frames.

  Every function here is the C arithmetic on the wrapped pair. The lemmas relate it to a
  counter that never wraps: `Wrap` maps an unbounded tick to the pair that shows it.
  `n` is the number of slots in a frame.
 */
module SlotClock {
  import opened Basics

  const MAX_FRAME_NUMBER := 1024

  // fs_add_delta takes a uint32_t delta, so its sum is a uint32_t too.
  const UINT32_RANGE := 0x1_0000_0000

  /** Sum of two uint32_t values. */
  function Add32(x: nat, y: nat): int {
    if x + y < UINT32_RANGE then x + y else x + y - UINT32_RANGE
  }

  datatype Fsn = Fsn(f: nat, s: nat)

  predicate Valid(n: nat, a: Fsn) {
    a.f < MAX_FRAME_NUMBER && a.s < n
  }

  /** Position of a pair within one turn of the clock. */
  function Tick(n: nat, a: Fsn): nat {
    a.f * n + a.s
  }

  function Wrap(n: nat, t: int): Fsn
    requires n > 0
  {
    Fsn(t / n % MAX_FRAME_NUMBER, t % n)
  }

  /** fs_add_delta */
  function AddDelta(n: nat, delta: nat, a: Fsn): Fsn
    requires n > 0
  {
    var sum: nat := Add32(a.s, delta);
    Fsn((a.f + sum / n) % MAX_FRAME_NUMBER, sum % n)
  }

  /** fs_get_diff */
  function GetDiff(n: nat, a: Fsn, b: Fsn): int {
    var diff := Tick(n, a) - Tick(n, b);
    if diff < -512 * n then diff + 1024 * n
    else if diff > 512 * n then diff - 1024 * n
    else diff
  }

  /** fs_get_max */
  function GetMax(n: nat, a: Fsn, b: Fsn): Fsn {
    if GetDiff(n, a, b) <= 0 then b else a
  }

  // ----- division helpers

  lemma MulMono(x: int, y: int, n: nat)
    requires x <= y
    ensures x * n <= y * n
  {
  }

  lemma TickBound(n: nat, a: Fsn)
    requires Valid(n, a)
    ensures Tick(n, a) < 1024 * n
    ensures a.f < 512 <==> Tick(n, a) < 512 * n
  {
    MulMono(a.f, 1023, n);
    if a.f < 512 {
      MulMono(a.f, 511, n);
    } else {
      MulMono(512, a.f, n);
    }
  }

  lemma Regroup(k: int, f: int, n: int, s: int)
    ensures (1024 * k + f) * n + s == k * (1024 * n) + (f * n + s)
  {
  }

  /** A pair is the tick modulo one turn of the clock. */
  lemma TickOfWrap(n: nat, t: int)
    requires n > 0
    ensures Valid(n, Wrap(n, t))
    ensures Tick(n, Wrap(n, t)) == t % (1024 * n)
  {
    var q := t / n;
    var a := Fsn(q % 1024, t % n);
    assert q == 1024 * (q / 1024) + a.f;
    Regroup(q / 1024, a.f, n, a.s);
    TickBound(n, a);
    DivModUnique(t, 1024 * n, q / 1024, Tick(n, a));
  }

  lemma WrapOfTick(n: nat, a: Fsn)
    requires n > 0 && Valid(n, a)
    ensures Wrap(n, Tick(n, a)) == a
  {
    DivModUnique(Tick(n, a), n, a.f, a.s);
  }

  /** Two ticks show the same pair exactly when they lie whole turns apart. */
  lemma WrapEqual(n: nat, x: int, y: int)
    requires n > 0
    ensures Wrap(n, x) == Wrap(n, y) <==> (x - y) % (1024 * n) == 0
  {
    var p := 1024 * n;
    TickOfWrap(n, x);
    TickOfWrap(n, y);
    if Wrap(n, x) == Wrap(n, y) {
      assert x - y == (x / p - y / p) * p;
      DivModUnique(x - y, p, x / p - y / p, 0);
    }
    if (x - y) % p == 0 {
      var k := (x - y) / p;
      assert x == (y / p + k) * p + y % p;
      DivModUnique(x, p, y / p + k, y % p);
      WrapOfTick(n, Wrap(n, x));
      WrapOfTick(n, Wrap(n, y));
    }
  }

  // ----- main results

  lemma CarryDivMod(n: nat, t: int, e: nat)
    requires n > 0
    ensures (t - t % n + e) / n == t / n + e / n
    ensures (t - t % n + e) % n == e % n
  {
    assert t - t % n + e == (t / n + e / n) * n + e % n by {
      assert t - t % n == (t / n) * n && e - e % n == (e / n) * n;
      assert (t / n + e / n) * n == (t / n) * n + (e / n) * n;
    }
    DivModUnique(t - t % n + e, n, t / n + e / n, e % n);
  }

  lemma AddModFrame(q: int, k: nat)
    ensures (q % 1024 + k) % 1024 == (q + k) % 1024
  {
  }

  /** Carrying e slots past the start of the current frame. */
  lemma WrapCarry(n: nat, t: int, e: nat)
    requires n > 0
    ensures Fsn((t / n % 1024 + e / n) % 1024, e % n) == Wrap(n, t - t % n + e)
  {
    CarryDivMod(n, t, e);
    AddModFrame(t / n, e / n);
  }

  lemma AddDeltaShifts(n: nat, delta: nat, t: int)
    requires n > 0
    ensures AddDelta(n, delta, Wrap(n, t))
            == Wrap(n, if t % n + delta < UINT32_RANGE then t + delta else t + delta - UINT32_RANGE)
  {
    var e := Add32(t % n, delta);
    WrapCarry(n, t, e);
    assert t - t % n + e == if t % n + delta < UINT32_RANGE then t + delta else t + delta - UINT32_RANGE;
  }

  /** fs_add_delta advances the unbounded clock by delta, unless its uint32_t sum overflows and the
      clock's turn does not divide 2^32. */
  lemma AddDeltaRefines(n: nat, delta: nat, t: int)
    requires 0 < n < UINT32_RANGE && delta < UINT32_RANGE
    ensures AddDelta(n, delta, Wrap(n, t)) == Wrap(n, t + delta)
            <==> t % n + delta < UINT32_RANGE || UINT32_RANGE % (1024 * n) == 0
  {
    AddDeltaShifts(n, delta, t);
    if t % n + delta >= UINT32_RANGE {
      WrapEqual(n, t + delta, t + delta - UINT32_RANGE);
    }
  }

  /** Adding two deltas one after the other is adding their sum. */
  lemma AddDeltaComposes(n: nat, d: nat, e: nat, a: Fsn)
    requires n > 0 && Valid(n, a) && n + d + e < UINT32_RANGE
    ensures AddDelta(n, e, AddDelta(n, d, a)) == AddDelta(n, d + e, a)
  {
    var t := Tick(n, a);
    WrapOfTick(n, a);
    DivModUnique(t, n, a.f, a.s);
    AddDeltaShifts(n, d, t);
    AddDeltaShifts(n, e, t + d);
    AddDeltaShifts(n, d + e, t);
  }

  lemma DiffAntisymmetric(n: nat, a: Fsn, b: Fsn)
    requires n > 0 && Valid(n, a) && Valid(n, b)
    ensures GetDiff(n, a, b) == -GetDiff(n, b, a)
    ensures -512 * n <= GetDiff(n, a, b) <= 512 * n
  {
    TickBound(n, a);
    TickBound(n, b);
  }

  /** Raw distance of two pairs: the true distance, or one turn off. */
  lemma RawDistance(n: nat, u: int, v: int)
    requires n > 0 && -1024 * n < u - v < 1024 * n
    ensures var d := Tick(n, Wrap(n, u)) - Tick(n, Wrap(n, v));
            d == u - v || d == u - v + 1024 * n || d == u - v - 1024 * n
  {
    TickOfWrap(n, u);
    TickOfWrap(n, v);
    ModDistance(1024 * n, u, v);
  }

  lemma ModDistance(p: int, u: int, v: int)
    requires p > 0 && -p < u - v < p
    ensures var d := u % p - v % p; d == u - v || d == u - v + p || d == u - v - p
  {
    var k := u / p - v / p;
    assert u - v == k * p + (u % p - v % p) by {
      assert u == (u / p) * p + u % p && v == (v / p) * p + v % p;
      assert k * p == (u / p) * p - (v / p) * p;
    }
    MulBounds(k, p);
  }

  /** fs_get_diff is the true distance of any two times less than 512 frames apart. */
  lemma DiffOfWrap(n: nat, u: int, v: int)
    requires n > 0 && -512 * n < u - v < 512 * n
    ensures GetDiff(n, Wrap(n, u), Wrap(n, v)) == u - v
  {
    RawDistance(n, u, v);
    TickOfWrap(n, u);
    TickOfWrap(n, v);
  }

  /** Within one turn, the difference undoes the addition up to half a turn. At exactly half a turn
      it does so only for a start in the first half of the frame numbers. */
  lemma DiffUndoesAdd(n: nat, d: nat, a: Fsn)
    requires n > 0 && Valid(n, a) && d < 1024 * n && n + d < UINT32_RANGE
    ensures GetDiff(n, AddDelta(n, d, a), a) == d
            <==> d < 512 * n || (d == 512 * n && a.f < 512)
  {
    var t := Tick(n, a);
    WrapOfTick(n, a);
    DivModUnique(t, n, a.f, a.s);
    AddDeltaShifts(n, d, t);
    RawDistance(n, t + d, t);
    TickOfWrap(n, t + d);
    TickOfWrap(n, t);
    TickBound(n, a);
    if d == 512 * n {
      DivModUnique(t, 1024 * n, 0, t);
      DivModUnique(t + d, 1024 * n, if t < 512 * n then 0 else 1, if t < 512 * n then t + d else t + d - 1024 * n);
    }
  }

  /** fs_get_max is the later of any two times less than 512 frames apart. */
  lemma MaxOfWrap(n: nat, u: int, v: int)
    requires n > 0 && -512 * n < u - v < 512 * n
    ensures GetMax(n, Wrap(n, u), Wrap(n, v)) == Wrap(n, Max(u, v))
  {
    DiffOfWrap(n, u, v);
  }

  /** More than 512 and less than 1024 frames apart, fs_get_max is the earlier time. */
  lemma MaxBeyondHalfTurn(n: nat, u: int, v: int)
    requires n > 0 && u < v && 512 * n < v - u < 1024 * n
    ensures GetMax(n, Wrap(n, u), Wrap(n, v)) == GetMax(n, Wrap(n, v), Wrap(n, u)) == Wrap(n, u)
  {
    RawDistance(n, u, v);
    TickOfWrap(n, u);
    TickOfWrap(n, v);
  }

  /** At exactly 512 frames apart the first argument wins if its frame number is in the upper half. */
  lemma MaxAtHalfTurn(n: nat, u: int, v: int)
    requires n > 0 && (u - v == 512 * n || v - u == 512 * n)
    ensures GetMax(n, Wrap(n, u), Wrap(n, v)) == if Wrap(n, u).f >= 512 then Wrap(n, u) else Wrap(n, v)
  {
    RawDistance(n, u, v);
    TickOfWrap(n, u);
    TickOfWrap(n, v);
    TickBound(n, Wrap(n, u));
    TickBound(n, Wrap(n, v));
  }

  /** Within one turn fs_get_max is the later time exactly if the times are less than 512 frames apart, or
      512 frames apart with the frame number of the first argument in the half that makes it win or lose. */
  lemma MaxExactly(n: nat, u: int, v: int)
    requires n > 0 && -1024 * n < u - v < 1024 * n
    ensures GetMax(n, Wrap(n, u), Wrap(n, v)) == Wrap(n, Max(u, v))
            <==> || -512 * n < u - v < 512 * n
                 || (u - v == 512 * n && Wrap(n, u).f >= 512)
                 || (v - u == 512 * n && Wrap(n, u).f < 512)
  {
    WrapApart(n, u, v);
    if -512 * n < u - v < 512 * n {
      MaxOfWrap(n, u, v);
    } else if u - v == 512 * n || v - u == 512 * n {
      MaxAtHalfTurn(n, u, v);
    } else if u < v {
      MaxBeyondHalfTurn(n, u, v);
    } else {
      MaxBeyondHalfTurn(n, v, u);
    }
  }

  /** Different times within one turn look different. */
  lemma WrapApart(n: nat, u: int, v: int)
    requires n > 0 && -1024 * n < u - v < 1024 * n
    ensures Wrap(n, u) == Wrap(n, v) <==> u == v
  {
    WrapEqual(n, u, v);
    if 0 < u - v {
      DivModUnique(u - v, 1024 * n, 0, u - v);
    } else if u < v {
      DivModUnique(u - v, 1024 * n, -1, u - v + 1024 * n);
    }
  }
}
