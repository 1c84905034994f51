/**
  Time-domain allocations (TDAs) and the choice of one for an uplink slot.

  A symbol bitmap (uint16_t in the source) is the set of the symbols whose bit is set, so
  `a & b == a` reads `a <= b` and `a & b == 0` reads `a !! b`.
 */
module Tda {

  const SYMBOLS_PER_SLOT := 14

  type Symbols = set<nat>

  /** SL_to_bitmap: a run of len bits. */
  function SlToBitmap(start: nat, len: nat): (r: Symbols)
    ensures forall i :: i in r <==> start <= i < start + len
    decreases len
  {
    if len == 0 then {} else {start} + SlToBitmap(start + 1, len - 1)
  }

  datatype TdaInfo = TdaInfo(k2: int, startSymbol: nat, nrOfSymbols: nat) {
    function Mask(): Symbols {
      SlToBitmap(startSymbol, nrOfSymbols)
    }
  }

  /** The uplink symbols of a slot are its last ones. */
  function SlotMask(ulSymbols: nat): Symbols
    requires ulSymbols <= SYMBOLS_PER_SLOT
  {
    SlToBitmap(SYMBOLS_PER_SLOT - ulSymbols, ulSymbols)
  }

  /** A TDA serves distance k2 in a slot with the given uplink symbols. */
  predicate Suits(t: TdaInfo, k2: int, ulSymbols: nat)
    requires ulSymbols <= SYMBOLS_PER_SLOT
  {
    t.k2 == k2 && t.Mask() <= SlotMask(ulSymbols)
  }

  /** What the source relies on: ordered by k2, and for one k2 every mask contains the next ones. */
  ghost predicate WellOrdered(tdas: seq<TdaInfo>) {
    forall i, j :: 0 <= i < j < |tdas| ==>
      tdas[i].k2 <= tdas[j].k2 && (tdas[i].k2 == tdas[j].k2 ==> tdas[j].Mask() <= tdas[i].Mask())
  }

  /** Containment of bitmaps is containment of the symbol intervals. */
  lemma SuitsMeaning(t: TdaInfo, ulSymbols: nat)
    requires ulSymbols <= SYMBOLS_PER_SLOT && t.nrOfSymbols > 0
    ensures t.Mask() <= SlotMask(ulSymbols)
            <==> SYMBOLS_PER_SLOT - ulSymbols <= t.startSymbol && t.startSymbol + t.nrOfSymbols <= SYMBOLS_PER_SLOT
  {
    assert t.startSymbol in t.Mask();
    assert t.startSymbol + t.nrOfSymbols - 1 in t.Mask();
  }

  /** get_num_ul_tda: the TDAs that suit are exactly `count` consecutive ones from `first`. The
      source's assertion that all later TDAs of the same k2 fit is the `assert` in the second loop. */
  method GetNumUlTda(tdas: seq<TdaInfo>, k2: int, ulSymbols: nat) returns (first: nat, count: nat)
    requires WellOrdered(tdas) && ulSymbols <= SYMBOLS_PER_SLOT
    ensures first + count <= |tdas|
    ensures forall i :: 0 <= i < |tdas| ==> (Suits(tdas[i], k2, ulSymbols) <==> first <= i < first + count)
  {
    var ulBitmap := SlotMask(ulSymbols);
    var i := 0;
    var found := false;
    while i < |tdas| && !found
      invariant 0 <= i <= |tdas|
      invariant found ==> i < |tdas| && Suits(tdas[i], k2, ulSymbols)
      invariant forall j :: 0 <= j < i ==> !Suits(tdas[j], k2, ulSymbols)
      decreases |tdas| - i, !found
    {
      if tdas[i].k2 > k2 {
        break;
      }
      if tdas[i].k2 == k2 && tdas[i].Mask() <= ulBitmap {
        found := true;
      } else {
        i := i + 1;
      }
    }
    if !found {
      return 0, 0;
    }
    first := i;
    var end := first + 1;
    while end < |tdas| && tdas[end].k2 == k2
      invariant first < end <= |tdas|
      invariant forall j :: first <= j < end ==> Suits(tdas[j], k2, ulSymbols)
    {
      assert tdas[end].Mask() <= ulBitmap;
      end := end + 1;
    }
    count := end - first;
  }

  // ----- longest free run of resource blocks

  /** free[rb]: not blocked for uplink, and none of the wanted symbols is taken */
  function FreeMap(vrbMap: seq<Symbols>, blocked: seq<bool>, mask: Symbols, hi: nat): (free: seq<bool>)
    requires hi <= |vrbMap| && hi <= |blocked|
  {
    seq(hi, rb requires 0 <= rb < hi => !blocked[rb] && vrbMap[rb] !! mask)
  }

  /** Number of consecutive free blocks from s on. */
  ghost function RunFrom(free: seq<bool>, s: nat): (r: nat)
    decreases |free| - s
  {
    if s < |free| && free[s] then 1 + RunFrom(free, s + 1) else 0
  }

  ghost function Longest(free: seq<bool>, lo: nat): nat
    decreases |free| - lo
  {
    if lo >= |free| then 0
    else if RunFrom(free, lo) > Longest(free, lo + 1) then RunFrom(free, lo)
    else Longest(free, lo + 1)
  }

  /** (start, len) is the first longest free run at or after lo; the empty run is put at lo. */
  ghost predicate FirstLongest(free: seq<bool>, lo: nat, start: nat, len: nat) {
    && len == Longest(free, lo)
    && (len == 0 ==> start == lo)
    && (len > 0 ==> lo <= start && RunFrom(free, start) == len)
    && forall s: nat :: lo <= s < start ==> RunFrom(free, s) < len
  }

  /** A run measures exactly a maximal stretch of free blocks. */
  lemma {:induction false} RunFromIs(free: seq<bool>, s: nat, k: nat)
    requires s + k <= |free|
    requires forall i :: s <= i < s + k ==> free[i]
    requires s + k == |free| || !free[s + k]
    ensures RunFrom(free, s) == k
    decreases k
  {
    if k > 0 {
      RunFromIs(free, s + 1, k - 1);
    }
  }

  lemma {:induction false} RunFromAllFree(free: seq<bool>, s: nat, i: nat)
    requires s <= i < s + RunFrom(free, s)
    ensures i < |free| && free[i]
    decreases |free| - s
  {
    if s < i {
      RunFromAllFree(free, s + 1, i);
    }
  }

  lemma {:induction false} RunFromAtLeast(free: seq<bool>, s: nat, k: nat)
    requires s + k <= |free|
    requires forall i :: s <= i < s + k ==> free[i]
    ensures RunFrom(free, s) >= k
    decreases k
  {
    if k > 0 {
      RunFromAtLeast(free, s + 1, k - 1);
    }
  }

  /** Longest is the maximum of RunFrom, reached at w. */
  lemma {:induction false} LongestIsMax(free: seq<bool>, lo: nat, m: nat, w: nat)
    requires forall s: nat :: lo <= s < |free| ==> RunFrom(free, s) <= m
    requires m == 0 || (lo <= w < |free| && RunFrom(free, w) == m)
    ensures Longest(free, lo) == m
    decreases |free| - lo
  {
    if lo < |free| {
      if m == 0 || lo < w {
        LongestIsMax(free, lo + 1, m, w);
      } else {
        LongestAtMost(free, lo + 1, m);
      }
    }
  }

  lemma {:induction false} LongestAtMost(free: seq<bool>, lo: nat, m: nat)
    requires forall s: nat :: lo <= s < |free| ==> RunFrom(free, s) <= m
    ensures Longest(free, lo) <= m
    decreases |free| - lo
  {
    if lo < |free| {
      LongestAtMost(free, lo + 1, m);
    }
  }

  /** The same without RunFrom: the found blocks are free, and any other free stretch in the range is
      shorter, or as long and not earlier. */
  lemma FirstLongestMeans(free: seq<bool>, lo: nat, start: nat, len: nat, s: nat, k: nat)
    requires FirstLongest(free, lo, start, len) && lo <= |free|
    ensures start + len <= |free| && forall i :: start <= i < start + len ==> free[i]
    ensures lo <= s && s + k <= |free| && (forall i :: s <= i < s + k ==> free[i])
            ==> k <= len && (k == len > 0 ==> start <= s)
  {
    forall i | start <= i < start + len
      ensures i < |free| && free[i]
    {
      RunFromAllFree(free, start, i);
    }
    assert start + len <= |free| by {
      if len > 0 {
        RunFromAllFree(free, start, start + len - 1);
      }
    }
    if lo <= s && s + k <= |free| && k > 0 && (forall i :: s <= i < s + k ==> free[i]) {
      RunFromAtLeast(free, s, k);
      LongestAtLeast(free, lo, s);
    }
  }

  /** get_max_rb_range. As in the source, the in-value of rb_len is the end of the range. */
  method GetMaxRbRange(vrbMap: seq<Symbols>, blocked: seq<bool>, mask: Symbols, lo: nat, hi: nat)
    returns (rbStart: nat, rbLen: nat)
    requires lo <= hi <= |vrbMap| && hi <= |blocked|
    ensures FirstLongest(FreeMap(vrbMap, blocked, mask, hi), lo, rbStart, rbLen)
  {
    ghost var free := FreeMap(vrbMap, blocked, mask, hi);
    var bestStart, bestLen := lo, 0;
    var curStart, curLen := lo, 0;
    for rb := lo to hi
      invariant lo <= bestStart && lo <= curStart && curStart + curLen == rb
      invariant forall i :: curStart <= i < rb ==> free[i]
      invariant forall s: nat :: lo <= s < curStart ==> RunFrom(free, s) <= bestLen
      invariant forall s: nat :: lo <= s < bestStart ==> RunFrom(free, s) < bestLen
      invariant bestLen == 0 ==> bestStart == lo
      invariant bestLen > 0 ==> bestStart < curStart && RunFrom(free, bestStart) == bestLen
    {
      assert free[rb] == (!blocked[rb] && vrbMap[rb] !! mask);
      if !blocked[rb] && vrbMap[rb] !! mask {
        curLen := curLen + 1;
        continue;
      }
      forall s: nat | curStart <= s <= rb
        ensures RunFrom(free, s) == rb - s
      {
        RunFromIs(free, s, rb - s);
      }
      if curLen > bestLen {
        bestStart, bestLen := curStart, curLen;
      }
      curStart, curLen := rb + 1, 0;
    }
    forall s: nat | curStart <= s <= hi
      ensures RunFrom(free, s) == hi - s
    {
      RunFromIs(free, s, hi - s);
    }
    if curLen > bestLen {
      bestStart, bestLen := curStart, curLen;
    }
    rbStart, rbLen := bestStart, bestLen;
    LongestIsMax(free, lo, bestLen, bestStart);
  }

  // ----- best TDA for a slot

  ghost function Score(vrbMap: seq<Symbols>, blocked: seq<bool>, t: TdaInfo, lo: nat, hi: nat): nat
    requires hi <= |vrbMap| && hi <= |blocked|
  {
    t.nrOfSymbols * Longest(FreeMap(vrbMap, blocked, t.Mask(), hi), lo)
  }

  /** get_best_ul_tda: the first TDA with the highest score, and its first longest run. If every
      score is 0, the first TDA is returned and the range (lo, hi) comes back unchanged. */
  method GetBestUlTda(vrbMap: seq<Symbols>, blocked: seq<bool>, tdas: seq<TdaInfo>, lo: nat, hi: nat)
    returns (best: nat, rbStart: nat, rbLen: nat)
    requires 0 < |tdas| <= 16 && lo <= hi <= |vrbMap| && hi <= |blocked|
    ensures best < |tdas|
    ensures forall i :: 0 <= i < |tdas| ==>
      Score(vrbMap, blocked, tdas[i], lo, hi) <= Score(vrbMap, blocked, tdas[best], lo, hi)
    ensures forall i :: 0 <= i < best ==>
      Score(vrbMap, blocked, tdas[i], lo, hi) < Score(vrbMap, blocked, tdas[best], lo, hi)
    ensures if Score(vrbMap, blocked, tdas[best], lo, hi) == 0 then best == 0 && rbStart == lo && rbLen == hi
            else FirstLongest(FreeMap(vrbMap, blocked, tdas[best].Mask(), hi), lo, rbStart, rbLen)
  {
    best, rbStart, rbLen := 0, lo, hi;
    var score := 0;
    for i := 0 to |tdas|
      invariant best < |tdas|
      invariant score == 0 ==> best == 0 && rbStart == lo && rbLen == hi
      invariant score > 0 ==> best < i && score == Score(vrbMap, blocked, tdas[best], lo, hi)
                              && FirstLongest(FreeMap(vrbMap, blocked, tdas[best].Mask(), hi), lo, rbStart, rbLen)
      invariant forall j :: 0 <= j < i ==> Score(vrbMap, blocked, tdas[j], lo, hi) <= score
      invariant forall j :: 0 <= j < best ==> Score(vrbMap, blocked, tdas[j], lo, hi) < score
    {
      var start, len := GetMaxRbRange(vrbMap, blocked, tdas[i].Mask(), lo, hi);
      var s := tdas[i].nrOfSymbols * len;
      assert s == Score(vrbMap, blocked, tdas[i], lo, hi);
      if s > score {
        best, score, rbStart, rbLen := i, s, start, len;
      }
    }
  }

  /** Any free block under the mask of a TDA with symbols gives a positive score. */
  lemma ScorePositive(vrbMap: seq<Symbols>, blocked: seq<bool>, t: TdaInfo, lo: nat, hi: nat)
    requires lo <= hi <= |vrbMap| && hi <= |blocked|
    ensures Score(vrbMap, blocked, t, lo, hi) > 0
            <==> t.nrOfSymbols > 0 && exists rb: nat :: lo <= rb < hi && !blocked[rb] && vrbMap[rb] !! t.Mask()
  {
    var free := FreeMap(vrbMap, blocked, t.Mask(), hi);
    if rb: nat :| lo <= rb < hi && !blocked[rb] && vrbMap[rb] !! t.Mask() {
      assert RunFrom(free, rb) >= 1;
      LongestAtLeast(free, lo, rb);
    } else {
      LongestAtMost(free, lo, 0);
    }
  }

  lemma {:induction false} LongestAtLeast(free: seq<bool>, lo: nat, s: nat)
    requires lo <= s < |free|
    ensures Longest(free, lo) >= RunFrom(free, s)
    decreases |free| - lo
  {
    if lo < s {
      LongestAtLeast(free, lo + 1, s);
    }
  }

  /** The blocks s, ..., s + k - 1 may be used under the mask. */
  ghost predicate Usable(vrbMap: seq<Symbols>, blocked: seq<bool>, mask: Symbols, s: nat, k: nat)
    requires s + k <= |vrbMap| && s + k <= |blocked|
  {
    forall rb :: s <= rb < s + k ==> !blocked[rb] && vrbMap[rb] !! mask
  }

  lemma ScoreAtLeast(vrbMap: seq<Symbols>, blocked: seq<bool>, t: TdaInfo, lo: nat, hi: nat, s: nat, k: nat)
    requires hi <= |vrbMap| && hi <= |blocked| && lo <= s && s + k <= hi && Usable(vrbMap, blocked, t.Mask(), s, k)
    ensures t.nrOfSymbols * k <= Score(vrbMap, blocked, t, lo, hi)
  {
    var free := FreeMap(vrbMap, blocked, t.Mask(), hi);
    assert k <= Longest(free, lo) by {
      if k > 0 {
        assert forall rb :: s <= rb < s + k ==> free[rb];
        RunFromAtLeast(free, s, k);
        LongestAtLeast(free, lo, s);
      }
    }
    MulMonotone(t.nrOfSymbols, k, Longest(free, lo));
  }

  lemma MulMonotone(x: nat, y: nat, z: nat)
    requires y <= z
    ensures x * y <= x * z
  {
  }

  /** What the choice is for: no TDA has more symbols times usable neighbouring blocks than the one chosen has
      in the range returned. */
  lemma BestMeans(
      vrbMap: seq<Symbols>, blocked: seq<bool>, tdas: seq<TdaInfo>, lo: nat, hi: nat, best: nat, rbStart: nat,
      rbLen: nat, i: nat, s: nat, k: nat)
    requires lo <= hi <= |vrbMap| && hi <= |blocked| && best < |tdas| && i < |tdas|
    requires Score(vrbMap, blocked, tdas[i], lo, hi) <= Score(vrbMap, blocked, tdas[best], lo, hi)
    requires FirstLongest(FreeMap(vrbMap, blocked, tdas[best].Mask(), hi), lo, rbStart, rbLen)
    requires lo <= s && s + k <= hi && Usable(vrbMap, blocked, tdas[i].Mask(), s, k)
    ensures rbStart + rbLen <= hi && Usable(vrbMap, blocked, tdas[best].Mask(), rbStart, rbLen)
    ensures tdas[i].nrOfSymbols * k <= tdas[best].nrOfSymbols * rbLen
  {
    var free := FreeMap(vrbMap, blocked, tdas[best].Mask(), hi);
    FirstLongestMeans(free, lo, rbStart, rbLen, lo, 0);
    forall rb | rbStart <= rb < rbStart + rbLen
      ensures !blocked[rb] && vrbMap[rb] !! tdas[best].Mask()
    {
      assert free[rb];
    }
    ScoreAtLeast(vrbMap, blocked, tdas[i], lo, hi, s, k);
  }
}
