/**
  Searches for contiguous resource blocks in an allocation mask, and the marking of what was granted.

  mask[rb] holds the symbols of block rb that are taken. Blocks of a bandwidth part (BWP) are counted
  from its start; in the mask block r of the BWP is bwpStart + r.
 */
module RbAllocator {
  import opened Basics
  import opened Tda

  predicate Free(mask: seq<Symbols>, rb: int, sl: Symbols) {
    0 <= rb < |mask| && mask[rb] !! sl
  }

  ghost predicate AllFree(mask: seq<Symbols>, lo: int, hi: int, sl: Symbols) {
    forall rb :: lo <= rb < hi ==> Free(mask, rb, sl)
  }

  /** The mask after the symbols sl of the blocks lo, ..., hi - 1 were taken. */
  function Mark(mask: seq<Symbols>, lo: int, hi: int, sl: Symbols): (r: seq<Symbols>)
    ensures |r| == |mask|
    ensures forall i :: 0 <= i < |r| ==> r[i] == if lo <= i < hi then mask[i] + sl else mask[i]
  {
    seq(|mask|, i requires 0 <= i < |mask| => if lo <= i < hi then mask[i] + sl else mask[i])
  }

  lemma MarkTakes(mask: seq<Symbols>, lo: int, hi: int, sl: Symbols, rb: int)
    requires sl != {} && 0 <= rb < |mask|
    ensures Free(Mark(mask, lo, hi, sl), rb, sl) <==> Free(mask, rb, sl) && !(lo <= rb < hi)
  {
    var s :| s in sl;
    assert lo <= rb < hi ==> s in Mark(mask, lo, hi, sl)[rb];
  }

  // ----- first free run, as pf_ul looks for it

  /** The first r-or-later free block of the BWP, or its size. */
  ghost function FirstFree(mask: seq<Symbols>, base: nat, size: nat, sl: Symbols, r: nat): (f: nat)
    requires r <= size
    ensures r <= f <= size
    ensures forall rb :: base + r <= rb < base + f ==> !Free(mask, rb, sl)
    ensures f < size ==> Free(mask, base + f, sl)
    decreases size - r
  {
    if r < size && !Free(mask, base + r, sl) then FirstFree(mask, base, size, sl, r + 1) else r
  }

  /** How far a run of k blocks from start extends over free blocks, counting to max at most. */
  ghost function Extend(mask: seq<Symbols>, base: nat, size: nat, sl: Symbols, start: nat, k: nat, max: nat): (n: nat)
    ensures k <= n <= (if k < max then max else k)
    ensures AllFree(mask, base + start + k, base + start + n, sl)
    ensures n > k ==> start + n <= size
    ensures start + n < size && n < max ==> !Free(mask, base + start + n, sl)
    decreases max - k
  {
    if start + k < size && k < max && Free(mask, base + start + k, sl)
    then Extend(mask, base, size, sl, start, k + 1, max) else k
  }

  /** What pf_ul knows of a UE when it looks for blocks. */
  datatype UlRequest = UlRequest(bwpStart: nat, bwpSize: nat, minRb: nat, inactive: bool) {
    function MaxRb(): nat {
      if inactive then minRb else bwpSize
    }
  }

  ghost function UlStart(mask: seq<Symbols>, q: UlRequest, sl: Symbols): nat {
    FirstFree(mask, q.bwpStart, q.bwpSize, sl, 0)
  }

  /** available_rb starts at 1, whether or not the first block is free. */
  ghost function UlAvailable(mask: seq<Symbols>, q: UlRequest, sl: Symbols): nat {
    Extend(mask, q.bwpStart, q.bwpSize, sl, UlStart(mask, q, sl), 1, q.MaxRb())
  }

  ghost predicate UlFits(mask: seq<Symbols>, q: UlRequest, sl: Symbols) {
    UlStart(mask, q, sl) + q.minRb <= q.bwpSize && q.minRb <= UlAvailable(mask, q, sl)
  }

  /** With a minimum of at least one block, a request that fits was given free blocks of its BWP. */
  lemma UlFitsSound(mask: seq<Symbols>, q: UlRequest, sl: Symbols)
    requires q.minRb >= 1 && UlFits(mask, q, sl)
    ensures var (s, n) := (UlStart(mask, q, sl), UlAvailable(mask, q, sl));
            && q.minRb <= n && s + n <= q.bwpSize
            && AllFree(mask, q.bwpStart + s, q.bwpStart + s + n, sl)
  {
    assert Free(mask, q.bwpStart + UlStart(mask, q, sl), sl);
  }

  /** A free run of k blocks with no free block of the BWP before it. */
  ghost predicate FirstRunAt(mask: seq<Symbols>, q: UlRequest, sl: Symbols, lo: nat, k: nat) {
    && q.bwpStart <= lo && lo + k <= q.bwpStart + q.bwpSize
    && AllFree(mask, lo, lo + k, sl)
    && forall rb :: q.bwpStart <= rb < lo ==> !Free(mask, rb, sl)
  }

  /** A request fits exactly when the first maximal free run of the BWP holds the minimum; later runs
      are not looked at. */
  lemma UlFitsExactly(mask: seq<Symbols>, q: UlRequest, sl: Symbols)
    requires q.minRb >= 1
    ensures UlFits(mask, q, sl) <==> exists lo: nat :: FirstRunAt(mask, q, sl, lo, q.minRb)
  {
    var f := UlStart(mask, q, sl);
    var n := UlAvailable(mask, q, sl);
    if UlFits(mask, q, sl) {
      UlFitsSound(mask, q, sl);
      assert FirstRunAt(mask, q, sl, q.bwpStart + f, q.minRb);
    }
    if lo: nat :| FirstRunAt(mask, q, sl, lo, q.minRb) {
      assert Free(mask, lo, sl);
      assert f < q.bwpSize ==> Free(mask, q.bwpStart + f, sl);
      assert lo == q.bwpStart + f;
      assert n < q.minRb ==> Free(mask, q.bwpStart + f + n, sl);
    }
  }

  /** So a BWP with enough free blocks behind a short run is refused. */
  lemma LaterRunIgnored()
    ensures var mask: seq<Symbols> := [{}, {0}, {}, {}];
            var q := UlRequest(0, 4, 2, false);
            AllFree(mask, 2, 4, {0}) && !UlFits(mask, q, {0})
  {
    var mask: seq<Symbols> := [{}, {0}, {}, {}];
    assert Free(mask, 0, {0}) && !Free(mask, 1, {0});
  }

  lemma FirstFreeStep(mask: seq<Symbols>, base: nat, size: nat, sl: Symbols, r: nat)
    requires r <= size
    ensures FirstFree(mask, base, size, sl, r)
            == if r < size && !Free(mask, base + r, sl) then FirstFree(mask, base, size, sl, r + 1) else r
  {
  }

  lemma ExtendStep(mask: seq<Symbols>, base: nat, size: nat, sl: Symbols, start: nat, k: nat, max: nat)
    ensures Extend(mask, base, size, sl, start, k, max)
            == if start + k < size && k < max && Free(mask, base + start + k, sl)
               then Extend(mask, base, size, sl, start, k + 1, max) else k
  {
  }

  /** The first loop of the search. */
  method FindFree(mask: array<Symbols>, base: nat, size: nat, sl: Symbols) returns (rbStart: nat)
    requires base + size <= mask.Length
    ensures rbStart == FirstFree(mask[..], base, size, sl, 0)
  {
    hide FirstFree;
    rbStart := 0;
    FirstFreeStep(mask[..], base, size, sl, 0);
    while rbStart < size && !(mask[rbStart + base] !! sl)
      invariant rbStart <= size
      invariant FirstFree(mask[..], base, size, sl, 0) == FirstFree(mask[..], base, size, sl, rbStart)
    {
      FirstFreeStep(mask[..], base, size, sl, rbStart);
      rbStart := rbStart + 1;
    }
    FirstFreeStep(mask[..], base, size, sl, rbStart);
  }

  /** The second loop. */
  method ExtendRun(mask: array<Symbols>, base: nat, size: nat, sl: Symbols, start: nat, max: nat)
    returns (available: nat)
    requires base + size <= mask.Length
    ensures available == Extend(mask[..], base, size, sl, start, 1, max)
  {
    hide Extend;
    ghost var m := mask[..];
    available := 1;
    while start + available < size && mask[start + base + available] !! sl && available < max
      invariant available >= 1
      invariant Extend(m, base, size, sl, start, 1, max) == Extend(m, base, size, sl, start, available, max)
      decreases size - available
    {
      ExtendStep(m, base, size, sl, start, available, max);
      available := available + 1;
    }
    ExtendStep(m, base, size, sl, start, available, max);
  }

  method FindUlRun(mask: array<Symbols>, q: UlRequest, sl: Symbols) returns (rbStart: nat, available: nat)
    requires q.bwpStart + q.bwpSize <= mask.Length
    ensures rbStart == UlStart(mask[..], q, sl) && available == UlAvailable(mask[..], q, sl)
  {
    hide FirstFree, Extend;
    rbStart := FindFree(mask, q.bwpStart, q.bwpSize, sl);
    available := ExtendRun(mask, q.bwpStart, q.bwpSize, sl, rbStart, q.MaxRb());
  }

  // ----- retransmissions

  /** A retransmission that keeps its time allocation takes rbSize blocks from the first free one on. Only
      the end of the BWP is checked. */
  ghost predicate ReuseFits(mask: seq<Symbols>, base: nat, size: nat, rbSize: nat, sl: Symbols) {
    FirstFree(mask, base, size, sl, 0) + rbSize <= size
  }

  /** Where the check passes, the blocks taken are all free exactly if the check of a new grant would pass
      too, with these blocks as its minimum: it is the one left out here. */
  lemma ReuseTakesFreeBlocks(mask: seq<Symbols>, base: nat, size: nat, rbSize: nat, sl: Symbols)
    requires rbSize >= 1 && ReuseFits(mask, base, size, rbSize, sl)
    ensures var f := base + FirstFree(mask, base, size, sl, 0);
            AllFree(mask, f, f + rbSize, sl) <==> UlFits(mask, UlRequest(base, size, rbSize, false), sl)
  {
    var q := UlRequest(base, size, rbSize, false);
    if UlFits(mask, q, sl) {
      UlFitsSound(mask, q, sl);
    }
    var f, n := base + FirstFree(mask, base, size, sl, 0), UlAvailable(mask, q, sl);
    assert n < rbSize ==> !Free(mask, f + n, sl);
  }

  /** The check never refuses where the first free run is long enough. */
  lemma ReuseSucceeds(mask: seq<Symbols>, base: nat, size: nat, rbSize: nat, sl: Symbols, lo: nat)
    requires rbSize >= 1 && FirstRunAt(mask, UlRequest(base, size, rbSize, false), sl, lo, rbSize)
    ensures ReuseFits(mask, base, size, rbSize, sl) && base + FirstFree(mask, base, size, sl, 0) == lo
  {
    assert Free(mask, lo, sl);
    var f := FirstFree(mask, base, size, sl, 0);
    assert f < size ==> Free(mask, base + f, sl);
  }

  /** It can take a block that is not free. */
  lemma ReuseTakesUsedBlock()
    ensures var mask: seq<Symbols> := [{}, {0}];
            ReuseFits(mask, 0, 2, 2, {0}) && FirstFree(mask, 0, 2, {0}, 0) == 0 && !AllFree(mask, 0, 2, {0})
  {
    var mask: seq<Symbols> := [{}, {0}];
    assert Free(mask, 0, {0}) && !Free(mask, 1, {0});
  }

  /** allocate_ul_retransmission with the old time allocation: the start, if it passes the check. */
  method FindReuse(mask: array<Symbols>, base: nat, size: nat, rbSize: nat, sl: Symbols) returns (r: Option<nat>)
    requires base + size <= mask.Length
    ensures r == if ReuseFits(mask[..], base, size, rbSize, sl) then Some(FirstFree(mask[..], base, size, sl, 0))
        else None
  {
    var rbStart := FindFree(mask, base, size, sl);
    if rbStart + rbSize > size {
      return None;
    }
    r := Some(rbStart);
  }

  /** ... and with another one: the whole first free run, of which at most rbSize blocks are taken. */
  method FindRefit(mask: array<Symbols>, base: nat, size: nat, sl: Symbols) returns (rbStart: nat, rbSize: nat)
    requires base + size <= mask.Length
    ensures rbStart + rbSize <= size && AllFree(mask[..], base + rbStart, base + rbStart + rbSize, sl)
    ensures forall rb :: base <= rb < base + rbStart ==> !Free(mask[..], rb, sl)
    ensures rbStart < size ==> rbSize > 0
    ensures rbStart + rbSize < size ==> !Free(mask[..], base + rbStart + rbSize, sl)
  {
    rbStart := FindFree(mask, base, size, sl);
    rbSize := 0;
    while rbStart + rbSize < size && mask[rbStart + base + rbSize] !! sl
      invariant rbStart + rbSize <= size && (rbSize == 0 && rbStart < size ==> Free(mask[..], base + rbStart, sl))
      invariant AllFree(mask[..], base + rbStart, base + rbStart + rbSize, sl)
    {
      rbSize := rbSize + 1;
    }
  }

  // ----- size of a grant

  /** The contract of nr_find_nb_rb and of the power back-off: some value between lo and hi. */
  function Between(x: nat, lo: nat, hi: nat): (r: nat)
    requires lo <= hi
    ensures lo <= r <= hi && (lo <= x <= hi ==> r == x)
  {
    if x < lo then lo else if x > hi then hi else x
  }

  /** Slice floor, then slice cap; 0 switches either off. */
  function ClampToSlice(rb: nat, available: nat, floor: int, cap: int): nat {
    var target := if floor < available then floor else available;
    var raised := if floor > 0 && rb < floor && target > rb then target else rb;
    if cap > 0 && raised > cap then cap else raised
  }

  /** A grant stays within the run found and under the cap, and reaches the floor as far as the run
      allows unless the cap is below it. */
  lemma ClampBounds(rb: nat, available: nat, floor: int, cap: int)
    requires rb <= available
    ensures var r := ClampToSlice(rb, available, floor, cap);
            && r <= available
            && (cap > 0 ==> r <= cap)
            && (cap <= 0 || cap >= floor ==> r >= if floor < available then floor else available)
            && (rb > 0 ==> r > 0)
            && (r < rb ==> r == cap) && (r > rb ==> rb < floor && r <= floor)
  {
  }

  /** The same as a formula: the floor as far as the run allows, but no less than the size found; then the cap. */
  lemma ClampExactly(rb: nat, available: nat, floor: int, cap: int)
    ensures var raised := Max(rb, Min(floor, available));
            ClampToSlice(rb, available, floor, cap) == if cap > 0 then Min(raised, cap) else raised
  {
  }

  /** The minimum grant survives the clamp, for every size found, exactly when the cap is not below it. */
  lemma ClampKeepsMinimum(minRb: nat, floor: int, cap: int)
    ensures (forall rb: nat, available: nat :: minRb <= rb <= available ==>
        ClampToSlice(rb, available, floor, cap) >= minRb)
            <==> cap <= 0 || cap >= minRb
  {
    if 0 < cap < minRb {
      assert ClampToSlice(minRb, minRb, floor, cap) == cap;
    }
  }

  datatype Sizing = Sizing(powerRb: nat, demandRb: nat, floor: int, cap: int)

  /** Blocks the power back-off leaves, and the size granted from them. */
  function AvailableAfterPower(q: UlRequest, z: Sizing, available: nat): nat
    requires q.minRb <= available
  {
    Between(z.powerRb, q.minRb, available)
  }

  function UlSize(q: UlRequest, z: Sizing, available: nat): nat
    requires q.minRb <= available
  {
    var a := AvailableAfterPower(q, z, available);
    ClampToSlice(if q.inactive then q.minRb else Between(z.demandRb, q.minRb, a), a, z.floor, z.cap)
  }

  // ----- one new uplink grant

  /** rbStart counts from bwpStart; available is the run the size was chosen from. */
  datatype Grant = Grant(bwpStart: nat, rbStart: nat, rbSize: nat, available: nat) {
    function Lo(): nat {
      bwpStart + rbStart
    }

    function Hi(): nat {
      bwpStart + rbStart + rbSize
    }
  }

  ghost function UlGrant(mask: seq<Symbols>, q: UlRequest, z: Sizing, sl: Symbols): Option<Grant> {
    if UlFits(mask, q, sl) then
      var available := UlAvailable(mask, q, sl);
      Some(Grant(q.bwpStart, UlStart(mask, q, sl), UlSize(q, z, available), AvailableAfterPower(q, z, available)))
    else None
  }

  /** The marking loop runs over rb from bwpStart to rbSize and marks rb + rbStart. */
  function MarkGrant(mask: seq<Symbols>, g: Grant, sl: Symbols): seq<Symbols> {
    Mark(mask, g.bwpStart + g.rbStart, g.rbSize + g.rbStart, sl)
  }

  /** The size of a grant: power back-off leaves the blocks it says, between the minimum and the run found; an
      inactive UE takes the minimum, another what its demand needs of them; then the slice's floor and cap. */
  lemma UlGrantSize(mask: seq<Symbols>, q: UlRequest, z: Sizing, sl: Symbols)
    requires UlGrant(mask, q, z, sl).Some?
    ensures var g := UlGrant(mask, q, z, sl).value;
            var found := if q.inactive then q.minRb else Max(q.minRb, Min(z.demandRb, g.available));
            var raised := Max(found, Min(z.floor, g.available));
            && g.bwpStart == q.bwpStart && g.rbStart == FirstFree(mask, q.bwpStart, q.bwpSize, sl, 0)
            && g.available == Max(q.minRb, Min(z.powerRb, UlAvailable(mask, q, sl)))
            && g.rbSize == if z.cap > 0 then Min(raised, z.cap) else raised
  {
    var a := AvailableAfterPower(q, z, UlAvailable(mask, q, sl));
    ClampExactly(if q.inactive then q.minRb else Between(z.demandRb, q.minRb, a), a, z.floor, z.cap);
  }

  /** The run found for a UE: an inactive one looks no further than its minimum, others take the whole run. */
  lemma UlRunLength(mask: seq<Symbols>, q: UlRequest, sl: Symbols)
    requires q.minRb >= 1 && UlFits(mask, q, sl)
    ensures var (s, n) := (UlStart(mask, q, sl), UlAvailable(mask, q, sl));
            if q.inactive then n == q.minRb
            else s + n == q.bwpSize || !Free(mask, q.bwpStart + s + n, sl)
  {
    UlFitsSound(mask, q, sl);
  }

  /** Every grant lies on free blocks of the BWP and has the promised size. */
  lemma UlGrantSound(mask: seq<Symbols>, q: UlRequest, z: Sizing, sl: Symbols)
    requires q.minRb >= 1 && UlGrant(mask, q, z, sl).Some?
    ensures var g := UlGrant(mask, q, z, sl).value;
            && g.bwpStart == q.bwpStart && g.rbStart + g.rbSize <= q.bwpSize
            && 1 <= g.rbSize <= g.available && AllFree(mask, g.Lo(), g.Lo() + g.available, sl)
            && (z.cap > 0 ==> g.rbSize <= z.cap)
            && (z.cap <= 0 || z.cap >= z.floor ==> g.rbSize >= if z.floor < g.available then z.floor else g.available)
  {
    UlFitsSound(mask, q, sl);
    var a := AvailableAfterPower(q, z, UlAvailable(mask, q, sl));
    ClampBounds(if q.inactive then q.minRb else Between(z.demandRb, q.minRb, a), a, z.floor, z.cap);
  }

  /** The loop adds the symbols to the blocks of the grant, save its last bwpStart ones, and changes nothing
      else. */
  lemma MarkGrantExactly(mask: seq<Symbols>, g: Grant, sl: Symbols, rb: nat)
    requires rb < |mask|
    ensures |MarkGrant(mask, g, sl)| == |mask|
    ensures MarkGrant(mask, g, sl)[rb]
            == mask[rb] + if g.Lo() <= rb < g.Hi() - g.bwpStart then sl else {}
  {
  }

  /** The loop marks the whole grant exactly when the BWP starts at block 0. */
  lemma MarkGrantCovers(mask: seq<Symbols>, g: Grant, sl: Symbols)
    requires sl != {} && g.rbSize >= 1 && g.Hi() <= |mask| && AllFree(mask, g.Lo(), g.Hi(), sl)
    ensures (forall rb :: g.Lo() <= rb < g.Hi() ==> !Free(MarkGrant(mask, g, sl), rb, sl)) <==> g.bwpStart == 0
  {
    forall rb | g.Lo() <= rb < g.Hi()
      ensures Free(MarkGrant(mask, g, sl), rb, sl) <==> g.rbStart + g.rbSize <= rb
    {
      MarkTakes(mask, g.bwpStart + g.rbStart, g.rbSize + g.rbStart, sl, rb);
    }
    if g.bwpStart > 0 {
      assert Free(MarkGrant(mask, g, sl), g.Hi() - 1, sl);
    }
  }

  method GrantUl(mask: array<Symbols>, q: UlRequest, z: Sizing, sl: Symbols) returns (r: Option<Grant>)
    requires q.bwpStart + q.bwpSize <= mask.Length && q.minRb >= 1
    modifies mask
    ensures r == UlGrant(old(mask[..]), q, z, sl)
    ensures mask[..] == if r.Some? then MarkGrant(old(mask[..]), r.value, sl) else old(mask[..])
  {
    var rbStart, available := FindUlRun(mask, q, sl);
    if rbStart + q.minRb > q.bwpSize || available < q.minRb {
      return None;
    }
    UlFitsSound(mask[..], q, sl);
    var rbSize := UlSize(q, z, available);
    r := Some(Grant(q.bwpStart, rbStart, rbSize, AvailableAfterPower(q, z, available)));
    UlGrantSound(mask[..], q, z, sl);
    var rb := q.bwpStart;
    while rb < rbSize
      invariant q.bwpStart <= rb
      invariant rb <= rbSize || rb == q.bwpStart
      invariant mask[..] == Mark(old(mask[..]), q.bwpStart + rbStart, rb + rbStart, sl)
    {
      mask[rb + rbStart] := mask[rb + rbStart] + sl;
      rb := rb + 1;
    }
    assert mask[..] == MarkGrant(old(mask[..]), r.value, sl);
  }

  /** With a BWP that starts at block 1, two UEs can be granted the same block one after the other. */
  lemma GrantsOverlapOffZero()
    ensures var (mask: seq<Symbols>, sl: Symbols) := ([{}, {}, {}], {0});
            var (q, z, g) := (UlRequest(1, 2, 1, false), Sizing(1, 1, 0, 0), Grant(1, 0, 1, 1));
            UlGrant(mask, q, z, sl) == Some(g) && UlGrant(MarkGrant(mask, g, sl), q, z, sl) == Some(g)
  {
    var mask: seq<Symbols> := [{}, {}, {}];
    assert Free(mask, 1, {0});
    assert MarkGrant(mask, Grant(1, 0, 1, 1), {0}) == mask;
  }
}
