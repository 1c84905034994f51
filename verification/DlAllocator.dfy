/**
  The downlink searches over the allocation mask: first fit for a retransmission, and the scan for a
  new grant. Block numbers here are those of the mask; a BWP ends at rbStop, included.
 */
module DlAllocator {
  import opened Basics
  import opened Tda
  import opened RbAllocator
  import Policy = SlicePolicy
  import Limit = SliceLimiter

  ghost predicate Run(mask: seq<Symbols>, bwpStart: nat, bwpSize: nat, sl: Symbols, s: nat, size: nat) {
    bwpStart <= s && s + size <= bwpStart + bwpSize && AllFree(mask, s, s + size, sl)
  }

  /** The search of allocate_dl_retransmission for `size` blocks. It tries every start before rbStop,
      so it answers with the smallest one there is; a run on rbStop alone is not seen. */
  method FirstFit(mask: array<Symbols>, bwpStart: nat, bwpSize: nat, sl: Symbols, size: nat)
    returns (found: bool, rbStart: nat)
    requires bwpStart + bwpSize <= mask.Length && size >= 1
    ensures found <==> exists s: nat :: s + 1 < bwpStart + bwpSize && Run(mask[..], bwpStart, bwpSize, sl, s, size)
    ensures found ==> Run(mask[..], bwpStart, bwpSize, sl, rbStart, size)
    ensures found ==> forall s: nat :: Run(mask[..], bwpStart, bwpSize, sl, s, size) ==> rbStart <= s
  {
    rbStart := bwpStart;
    var rbStop := bwpStart + bwpSize - 1;
    var rbSize := 0;
    while rbSize < size
      invariant bwpStart <= rbStart
      invariant rbSize <= size && AllFree(mask[..], rbStart, rbStart + rbSize, sl)
      invariant rbSize > 0 ==> rbStart < rbStop && rbStart + rbSize <= rbStop + 1
      invariant 0 < rbSize < size ==> rbStart + rbSize > rbStop || !Free(mask[..], rbStart + rbSize, sl)
      invariant forall s: nat :: Run(mask[..], bwpStart, bwpSize, sl, s, size) ==> rbStart <= s
      decreases rbStop + 1 - rbStart - rbSize
    {
      SkipShortRun(mask[..], bwpStart, bwpSize, sl, size, rbStart, rbSize);
      rbStart := rbStart + rbSize;
      rbSize := 0;
      ghost var entry := rbStart;
      while rbStart < rbStop && !(mask[rbStart] !! sl)
        invariant entry <= rbStart
        invariant forall s: nat :: Run(mask[..], bwpStart, bwpSize, sl, s, size) ==> rbStart <= s
      {
        SkipTaken(mask[..], bwpStart, bwpSize, sl, size, rbStart);
        rbStart := rbStart + 1;
      }
      if rbStart >= rbStop {
        return false, rbStart;
      }
      while rbStart + rbSize <= rbStop && mask[rbStart + rbSize] !! sl && rbSize < size
        invariant rbSize <= size && rbStart + rbSize <= rbStop + 1
        invariant AllFree(mask[..], rbStart, rbStart + rbSize, sl)
        decreases size - rbSize
      {
        rbSize := rbSize + 1;
      }
      assert rbSize > 0;
    }
    found := true;
    assert rbStart + 1 < bwpStart + bwpSize && Run(mask[..], bwpStart, bwpSize, sl, rbStart, size);
  }

  lemma SkipTaken(mask: seq<Symbols>, bwpStart: nat, bwpSize: nat, sl: Symbols, size: nat, rbStart: nat)
    requires size >= 1 && !Free(mask, rbStart, sl)
    requires forall s: nat :: Run(mask, bwpStart, bwpSize, sl, s, size) ==> rbStart <= s
    ensures forall s: nat :: Run(mask, bwpStart, bwpSize, sl, s, size) ==> rbStart + 1 <= s
  {
  }

  /** A run that ended too early at a taken block or at the end rules out every start inside it. */
  lemma SkipShortRun(mask: seq<Symbols>, bwpStart: nat, bwpSize: nat, sl: Symbols, size: nat, rbStart: nat, rbSize: nat)
    requires rbSize < size
    requires rbSize > 0 ==> rbStart + rbSize >= bwpStart + bwpSize || !Free(mask, rbStart + rbSize, sl)
    requires forall s: nat :: Run(mask, bwpStart, bwpSize, sl, s, size) ==> rbStart <= s
    ensures forall s: nat :: Run(mask, bwpStart, bwpSize, sl, s, size) ==> rbStart + rbSize <= s
  {
    forall s: nat | Run(mask, bwpStart, bwpSize, sl, s, size)
      ensures rbStart + rbSize <= s
    {
      assert s <= rbStart + rbSize < s + size ==> Free(mask, rbStart + rbSize, sl);
    }
  }

  /** For two blocks or more the excluded last start loses nothing: the search succeeds iff the BWP has
      a free run of that size. For one block it fails exactly when only the last block is free. */
  lemma LastStartMatters(mask: seq<Symbols>, bwpStart: nat, bwpSize: nat, sl: Symbols, size: nat)
    requires size >= 1
    ensures ((exists s: nat :: Run(mask, bwpStart, bwpSize, sl, s, size))
             <==> (exists s: nat :: s + 1 < bwpStart + bwpSize && Run(mask, bwpStart, bwpSize, sl, s, size)))
            <==> !(size == 1 && bwpSize > 0 && Free(mask, bwpStart + bwpSize - 1, sl)
                   && forall rb :: bwpStart <= rb < bwpStart + bwpSize - 1 ==> !Free(mask, rb, sl))
  {
    var last := bwpStart + bwpSize - 1;
    if size == 1 {
      if bwpSize > 0 && Free(mask, last, sl) {
        assert Run(mask, bwpStart, bwpSize, sl, last, 1);
      }
      forall s: nat | Run(mask, bwpStart, bwpSize, sl, s, 1)
        ensures Free(mask, s, sl) && bwpStart <= s <= last
      {
      }
      if rb :| bwpStart <= rb < last && Free(mask, rb, sl) {
        assert Run(mask, bwpStart, bwpSize, sl, rb, 1);
      }
    }
  }

  /** The loop that marks a retransmission runs over rb from rbStart to rbSize. It marks the blocks
      found exactly when the run starts at block 0 of the mask. */
  lemma RetransmissionMarking(mask: seq<Symbols>, rbStart: nat, rbSize: nat, sl: Symbols)
    requires sl != {} && rbSize >= 1 && rbStart + rbSize <= |mask| && AllFree(mask, rbStart, rbStart + rbSize, sl)
    ensures (forall rb :: rbStart <= rb < rbStart + rbSize ==> !Free(Mark(mask, rbStart, rbSize, sl), rb, sl))
            <==> rbStart == 0
  {
    forall rb | rbStart <= rb < rbStart + rbSize
      ensures Free(Mark(mask, rbStart, rbSize, sl), rb, sl) <==> rbSize <= rb
    {
      MarkTakes(mask, rbStart, rbSize, sl, rb);
    }
    if rbStart > 0 {
      assert Free(Mark(mask, rbStart, rbSize, sl), rbStart + rbSize - 1, sl);
    }
  }

  // ----- scan for a new grant (pf_dl)

  /** Result of the scan, in blocks of the BWP. maxRbSize counts the first block whether it is free
      or not. */
  ghost predicate Scanned(mask: seq<Symbols>, bwpStart: nat, bwpSize: nat, sl: Symbols, rbStart: nat, maxRbSize: nat) {
    && rbStart <= (if bwpSize > 0 then bwpSize - 1 else 0) && maxRbSize >= 1
    && (forall rb :: bwpStart <= rb < bwpStart + rbStart ==> !Free(mask, rb, sl))
    && (rbStart + 1 < bwpSize ==> Free(mask, bwpStart + rbStart, sl))
    && AllFree(mask, bwpStart + rbStart + 1, bwpStart + rbStart + maxRbSize, sl)
    && (maxRbSize > 1 ==> rbStart + maxRbSize <= bwpSize)
    && (rbStart + maxRbSize < bwpSize ==> !Free(mask, bwpStart + rbStart + maxRbSize, sl))
  }

  method ScanDl(mask: array<Symbols>, bwpStart: nat, bwpSize: nat, sl: Symbols) returns (rbStart: nat, maxRbSize: nat)
    requires bwpStart + bwpSize <= mask.Length
    ensures Scanned(mask[..], bwpStart, bwpSize, sl, rbStart, maxRbSize)
  {
    rbStart := 0;
    var rbStop := bwpSize - 1;
    while rbStart < rbStop && !(mask[rbStart + bwpStart] !! sl)
      invariant rbStart == 0 || rbStart <= rbStop
      invariant forall rb :: bwpStart <= rb < bwpStart + rbStart ==> !Free(mask[..], rb, sl)
    {
      rbStart := rbStart + 1;
    }
    maxRbSize := 1;
    while rbStart + maxRbSize <= rbStop && mask[rbStart + maxRbSize + bwpStart] !! sl
      invariant maxRbSize >= 1
      invariant maxRbSize > 1 ==> rbStart + maxRbSize <= bwpSize
      invariant AllFree(mask[..], bwpStart + rbStart + 1, bwpStart + rbStart + maxRbSize, sl)
      decreases bwpSize - maxRbSize
    {
      maxRbSize := maxRbSize + 1;
    }
  }

  /** A scan that passes the minimum-size check is a free run of the BWP, for every mask, exactly when
      the minimum is two blocks or more. */
  lemma ScanFreeFromTwo(bwpStart: nat, bwpSize: nat, sl: Symbols, minRb: nat)
    requires bwpSize > 0 && sl != {}
    ensures (forall mask: seq<Symbols>, s: nat, n: nat ::
               Scanned(mask, bwpStart, bwpSize, sl, s, n) && n >= minRb ==>
                   Run(mask, bwpStart, bwpSize, sl, bwpStart + s, n))
            <==> minRb >= 2
  {
    if minRb < 2 {
      var full: seq<Symbols> := seq(bwpStart + bwpSize, _ => sl);
      assert forall rb :: !Free(full, rb, sl);
      assert Scanned(full, bwpStart, bwpSize, sl, bwpSize - 1, 1);
      assert !Free(full, bwpStart + (bwpSize - 1), sl);
    }
  }

  /** Size of a new grant: what the demand needs, between the minimum and the scan, then the slice limits. */
  function DlSize(demand: nat, minRb: nat, maxRb: nat, slice: int): nat
    requires minRb <= maxRb
  {
    ClampToSlice(Between(demand, minRb, maxRb), maxRb, Policy.Get(slice).dl.floor, Policy.Get(slice).dl.cap)
  }

  /** What the demand needs between the minimum and the scan, raised to the floor as far as the scan allows,
      lowered to the cap. */
  lemma DlSizeExactly(demand: nat, minRb: nat, maxRb: nat, slice: int)
    requires minRb <= maxRb
    ensures var l := Policy.Get(slice).dl;
            var raised := Max(Max(minRb, Min(demand, maxRb)), Min(l.floor, maxRb));
            DlSize(demand, minRb, maxRb, slice) == if l.cap > 0 then Min(raised, l.cap) else raised
  {
    ClampExactly(Between(demand, minRb, maxRb), maxRb, Policy.Get(slice).dl.floor, Policy.Get(slice).dl.cap);
  }

  /** With a minimum of two blocks or more every grant lies on free blocks of the BWP, reaches the floor
      of the slice as far as the run allows, and stays under its cap. */
  lemma DlGrantSound(
      mask: seq<Symbols>, bwpStart: nat, bwpSize: nat, sl: Symbols, s: nat, maxRb: nat, demand: nat, minRb: nat,
      slice: int)
    requires bwpSize > 0 && minRb >= 2 && minRb <= maxRb && Scanned(mask, bwpStart, bwpSize, sl, s, maxRb)
    ensures var (n, l) := (DlSize(demand, minRb, maxRb, slice), Policy.Get(slice).dl);
            && n >= 1 && Run(mask, bwpStart, bwpSize, sl, bwpStart + s, n)
            && (n >= l.floor || n == maxRb) && (l.cap > 0 ==> n <= l.cap)
  {
    var rb, l := Between(demand, minRb, maxRb), Policy.Get(slice).dl;
    Policy.PolicyLimits(slice, Limit.Dl);
    ClampBounds(rb, maxRb, l.floor, l.cap);
    assert AllFree(mask, bwpStart + s, bwpStart + s + maxRb, sl);
  }

  /** A new grant of pf_dl: scan, size, marking. The marking loop is that of the uplink. */
  method GrantDl(mask: array<Symbols>, bwpStart: nat, bwpSize: nat, sl: Symbols, demand: nat, minRb: nat, slice: int)
    returns (ok: bool, rbStart: nat, rbSize: nat)
    requires bwpStart + bwpSize <= mask.Length && bwpSize > 0
    modifies mask
    ensures !ok ==> mask[..] == old(mask[..])
    ensures ok ==> exists maxRb: nat ::
              && minRb <= maxRb && Scanned(old(mask[..]), bwpStart, bwpSize, sl, rbStart, maxRb)
              && rbSize == DlSize(demand, minRb, maxRb, slice)
              && mask[..] == MarkGrant(old(mask[..]), Grant(bwpStart, rbStart, rbSize, maxRb), sl)
  {
    var maxRb: nat;
    rbStart, maxRb := ScanDl(mask, bwpStart, bwpSize, sl);
    if maxRb < minRb {
      return false, rbStart, 0;
    }
    ClampBounds(Between(demand, minRb, maxRb), maxRb, Policy.Get(slice).dl.floor, Policy.Get(slice).dl.cap);
    rbSize := DlSize(demand, minRb, maxRb, slice);
    ok := true;
    assert rbStart + rbSize <= mask.Length;
    hide Scanned, DlSize, Run;
    var rb := bwpStart;
    while rb < rbSize
      invariant bwpStart <= rb && (rb <= rbSize || rb == bwpStart)
      invariant mask[..] == Mark(old(mask[..]), bwpStart + rbStart, rb + rbStart, sl)
    {
      mask[rb + rbStart] := mask[rb + rbStart] + sl;
      rb := rb + 1;
    }
  }
}
