/**
  pf_ul as it runs: HARQ control blocks, per-beam budgets and allocation masks are arrays that change
  in place. Every method is proved equal to its function in PfUl.
 */
module PfUlInPlace {
  import opened Basics
  import opened PfUlOrder
  import opened PfUl
  import opened Tda
  import H = UlHarq
  import Runs = UlHarqRuns
  import Rb = RbAllocator
  import Results = PfUlResults

  ghost function MasksOf(masks: seq<array<Symbols>>): (m: seq<seq<Symbols>>)
    reads masks
    ensures |m| == |masks|
  {
    seq(|masks|, b requires 0 <= b < |masks| reads masks => masks[b][..])
  }

  /** The marking loop of a retransmission. */
  method MarkBlocks(mask: array<Symbols>, lo: int, hi: int, symbols: Symbols)
    requires 0 <= lo && hi <= mask.Length
    modifies mask
    ensures mask[..] == Rb.Mark(old(mask[..]), lo, hi, symbols)
  {
    var rb := lo;
    while rb < hi
      invariant lo <= rb && (rb <= hi || rb == lo)
      invariant mask[..] == Rb.Mark(old(mask[..]), lo, rb, symbols)
    {
      mask[rb] := mask[rb] + symbols;
      rb := rb + 1;
    }
  }

  lemma {:induction false} GatherTurn(cell: Cell, ues: seq<Ue>, st0: State, i: nat)
    requires UesOk(cell, ues) && StateOk(cell, |ues|, st0) && i < |ues|
    ensures var g := Gather(cell, ues, st0, i);
            && UeOk(cell, ues[i]) && |g.st.ctrls| == |ues| && StateOk(cell, |ues|, g.st)
            && Gather(cell, ues, st0, i + 1) == Visit(cell, ues[i], i, g)
            && StateOk(cell, |ues|, Visit(cell, ues[i], i, g).st)
  {
    VisitOk(cell, ues, i, Gather(cell, ues, st0, i));
  }

  lemma {:induction false} CollectedReady(cell: Cell, ues: seq<Ue>, st0: State, g: Gathered, order: seq<Cand>)
    requires UesOk(cell, ues) && StateOk(cell, |ues|, st0) && st0.made == []
    requires g == Gather(cell, ues, st0, |ues|) && Ordering(g.cands, order)
    ensures StateOk(cell, |ues|, g.st) && Ready(g.st.ctrls, order) && Allocate(cell, ues, order, g.st, 0) == g.st
  {
    GatherCands(cell, ues, st0, |ues|);
    OrderReady(cell, ues, g, order);
  }

  lemma {:induction false} AllocateTurn(cell: Cell, ues: seq<Ue>, order: seq<Cand>, st: State, n: nat)
    requires UesOk(cell, ues) && StateOk(cell, |ues|, st) && Ready(st.ctrls, order) && n < |order|
    ensures var (s, c) := (Allocate(cell, ues, order, st, n), order[n]);
            && StateOk(cell, |ues|, s) && c.ue < |ues| && s.ctrls[c.ue].available != []
            && Allocate(cell, ues, order, st, n + 1) == Serve(cell, ues, c, s)
            && StateOk(cell, |ues|, Serve(cell, ues, c, s))
  {
    ServeOk(cell, ues, order[n], Allocate(cell, ues, order, st, n));
  }

  class Scheduler {
    const cell: Cell
    const ctrls: array<H.Ctrl>
    const remain: array<int>
    const budget: array<int>
    const masks: seq<array<Symbols>>
    var made: seq<Made>

    constructor (cell: Cell, ctrls: array<H.Ctrl>, budget: array<int>, masks: seq<array<Symbols>>)
      requires budget.Length == |masks| == cell.numBeams
      ensures this.cell == cell && this.ctrls == ctrls && this.budget == budget && this.masks == masks
      ensures fresh(remain) && remain[..] == seq(cell.numBeams, b => cell.maxUe) && made == []
    {
      this.cell := cell;
      this.ctrls := ctrls;
      this.remain := new int[cell.numBeams](_ => cell.maxUe);
      this.budget := budget;
      this.masks := masks;
      this.made := [];
    }

    ghost predicate Separate() {
      && remain != budget && remain.Length == budget.Length == |masks| == cell.numBeams
      && (forall a, b :: 0 <= a < b < |masks| ==> masks[a] != masks[b])
      && (forall b :: 0 <= b < |masks| ==> masks[b].Length == cell.blocks)
    }

    ghost function St(): (st: State)
      reads this, ctrls, remain, budget, masks
    {
      State(ctrls[..], remain[..], budget[..], MasksOf(masks), made)
    }

    method TotalRemaining() returns (total: int)
      ensures total == Sum(remain[..])
    {
      total := 0;
      for b := 0 to remain.Length
        invariant total == Sum(remain[..b])
      {
        assert remain[..b + 1][..b] == remain[..b];
        total := total + remain[b];
      }
      assert remain[..remain.Length] == remain[..];
    }

    /** post_process_ulsch, and one UE less for the beam. */
    method ChargeUe(i: nat, b: nat, sched: H.Pusch) returns (tx: H.Tx)
      requires i < ctrls.Length && b < remain.Length && H.Inv(cell.harq, ctrls[i]) && H.Legitimate(ctrls[i], sched)
      modifies ctrls, remain
      ensures H.Postable(cell.harq, old(ctrls[i]), sched)
      ensures ctrls[..] == old(ctrls[..])[i := H.Post(cell.harq, old(ctrls[i]), sched).0]
      ensures tx == H.Post(cell.harq, old(ctrls[i]), sched).1
      ensures remain[..] == old(remain[..])[b := old(remain[b]) - 1]
    {
      H.PostInv(cell.harq, ctrls[i], sched);
      hide H.Inv, H.Legitimate;
      var (c, t) := H.Post(cell.harq, ctrls[i], sched);
      ctrls[i] := c;
      remain[b] := remain[b] - 1;
      tx := t;
    }

    /** The masks after one of them changed. */
    twostate lemma OneMaskChanged(b: nat)
      requires Separate() && b < |masks| && forall a :: 0 <= a < |masks| && a != b ==> masks[a][..] == old(masks[a][..])
      ensures MasksOf(masks) == old(MasksOf(masks))[b := masks[b][..]]
    {
    }

    method RetransmitUe(u: Ue, i: nat)
      requires Separate() && UeOk(cell, u) && u.beam >= 0 && i < ctrls.Length && StateOk(cell, ctrls.Length, St())
      requires ctrls[i].retrans != []
      modifies this`made, ctrls, remain, masks[u.beam]
      ensures St() == Retransmit(cell, u, i, old(St()))
    {
      var b: nat := u.beam;
      Runs.RetransmissionLegitimate(cell.harq, ctrls[i], u.attempt);
      var g := H.RetransmissionGrant(ctrls[i], u.attempt);
      hide H.Inv, H.Post, H.Postable, H.RetransmissionGrant, H.Legitimate;
      if g.Some? {
        ghost var st := St();
        var tx := ChargeUe(i, b, g.value);
        MarkBlocks(masks[b], u.marking.lo, u.marking.hi, u.marking.symbols);
        OneMaskChanged(b);
        made := made + [Retransmission(i, b, tx)];
        assert st.masks[b] == old(masks[b][..]);
      }
    }

    /** One turn of the first loop. */
    method VisitUe(u: Ue, i: nat, cands: seq<Cand>) returns (r: seq<Cand>)
      requires Separate() && UeOk(cell, u) && i < ctrls.Length && StateOk(cell, ctrls.Length, St())
      modifies this`made, ctrls, remain, masks
      ensures Gathered(St(), r) == Visit(cell, u, i, Gathered(old(St()), cands))
    {
      r := cands;
      if u.ulFailure {
        return;
      }
      var total := TotalRemaining();
      if total == 0 || !u.dci || u.beam < 0 {
        return;
      }
      hide H.Inv, H.Post, H.Postable, H.RetransmissionGrant, H.Legitimate, Retransmit, Sum;
      if ctrls[i].retrans != [] {
        RetransmitUe(u, i);
        return;
      }
      var c := CandOf(cell, u, ctrls[i], i);
      if c.Some? {
        r := cands + [c.value];
      }
    }

    /** The search for a grant, up to the marking of its blocks. */
    method FindGrant(u: Ue, c: Cand) returns (g: Option<Rb.Grant>)
      requires Separate() && UeOk(cell, u) && StateOk(cell, ctrls.Length, St()) && u.posture.minRb >= 1
      modifies masks
      ensures g == GrantFor(cell, u, c, old(St()))
      ensures g.None? ==> St() == old(St())
      ensures var st := old(St());
              g.Some? ==> u.beam2 >= 0
                          && var mask := Rb.MarkGrant(st.masks[u.beam2], g.value, cell.symbols);
                             St() == st.(masks := st.masks[u.beam2 := mask])
    {
      if u.beam2 < 0 || remain[u.beam2] == 0 || budget[u.beam2] < u.posture.minRb || !u.dci2 || !u.cce {
        return None;
      }
      hide H.Inv, Rb.UlGrant, Rb.MarkGrant;
      var b: nat := u.beam2;
      ghost var st := St();
      assert st.masks[b] == masks[b][..];
      g := Rb.GrantUl(masks[b], Request(u, c), SizingOf(u), cell.symbols);
      OneMaskChanged(b);
      assert st.masks[b := st.masks[b]] == st.masks;
    }

    /** One turn of the second loop. */
    method ServeCand(ues: seq<Ue>, c: Cand)
      requires Separate() && UesOk(cell, ues) && c.ue < |ues| == ctrls.Length && StateOk(cell, ctrls.Length, St())
      requires ctrls[c.ue].available != [] && ues[c.ue].posture.minRb >= 1
      modifies this`made, ctrls, remain, budget, masks
      ensures St() == Serve(cell, ues, c, old(St()))
    {
      var u := ues[c.ue];
      ghost var st := St();
      assert UeOk(cell, u) && |st.ctrls| == |ues| && |st.masks| == cell.numBeams && H.Inv(cell.harq, st.ctrls[c.ue]);
      hide H.Inv, H.Post, H.Postable, Rb.MarkGrant, GrantFor, Granted, StateOk, UesOk, UeOk, NewPusch;
      var g := FindGrant(u, c);
      if g.Some? {
        ChargeNew(u, c.ue, g.value, st);
      }
    }

    /** The state changes of a new grant, its blocks being marked. */
    method ChargeNew(u: Ue, i: nat, g: Rb.Grant, ghost st: State)
      requires Separate() && 0 <= u.beam2 < cell.numBeams && i < ctrls.Length && |st.masks| == |masks|
      requires H.Inv(cell.harq, ctrls[i]) && ctrls[i].available != []
      requires St() == st.(masks := st.masks[u.beam2 := Rb.MarkGrant(st.masks[u.beam2], g, cell.symbols)])
      modifies this`made, ctrls, remain, budget
      ensures St() == Granted(cell, u, i, st, g)
    {
      hide H.Inv, H.Post, H.Postable, Rb.MarkGrant;
      var b: nat := u.beam2;
      var tx := ChargeUe(i, b, NewPusch(cell, u, g));
      budget[b] := budget[b] - g.rbSize;
      made := made + [NewData(i, b, tx, g)];
      assert MasksOf(masks) == old(MasksOf(masks));
    }

    /** The first loop. */
    method Collect(ues: seq<Ue>) returns (cands: seq<Cand>)
      requires Separate() && UesOk(cell, ues) && ctrls.Length == |ues| && StateOk(cell, |ues|, St())
      modifies this`made, ctrls, remain, masks
      ensures Gathered(St(), cands) == Gather(cell, ues, old(St()), |ues|)
    {
      hide StateOk, Visit, UeOk;
      ghost var st0 := St();
      cands := [];
      for i := 0 to |ues|
        invariant StateOk(cell, |ues|, St())
        invariant Gathered(St(), cands) == Gather(cell, ues, st0, i)
      {
        GatherTurn(cell, ues, st0, i);
        cands := VisitUe(ues[i], i, cands);
      }
    }

    /** The second loop. */
    method ServeAll(ues: seq<Ue>, order: seq<Cand>)
      requires Separate() && UesOk(cell, ues) && ctrls.Length == |ues| && StateOk(cell, |ues|, St())
      requires Ready(ctrls[..], order) && forall i :: 0 <= i < |ues| ==> ues[i].posture.minRb >= 1
      modifies this`made, ctrls, remain, budget, masks
      ensures St() == Allocate(cell, ues, order, old(St()), |order|)
    {
      hide StateOk, Serve, UesOk, Ready;
      ghost var st := St();
      for n := 0 to |order|
        invariant StateOk(cell, |ues|, St())
        invariant St() == Allocate(cell, ues, order, st, n)
      {
        AllocateTurn(cell, ues, order, st, n);
        ServeCand(ues, order[n]);
      }
    }

    /** pf_ul. The source's closing assertion is the assert. */
    method PfUl(ues: seq<Ue>) returns (sched: int, order: seq<Cand>)
      requires Separate() && UesOk(cell, ues) && ctrls.Length == |ues| && StateOk(cell, |ues|, St())
      requires St() == Initial(cell, ctrls[..], budget[..], MasksOf(masks))
      requires forall i :: 0 <= i < |ues| ==> ues[i].posture.minRb >= 1
      modifies this`made, ctrls, remain, budget, masks
      ensures Call(cell, ues, old(St()), order, St())
      ensures sched == |made|
    {
      ghost var st0 := St();
      assert st0.made == [] && st0 == Initial(cell, st0.ctrls, st0.budget, st0.masks);
      hide StateOk, UesOk, Ready, Initial, Gather, Allocate, Ordering;
      var cands := Collect(ues);
      order := Qsort(cands);
      CollectedReady(cell, ues, st0, Gathered(St(), cands), order);
      ServeAll(ues, order);
      Results.CountIsGrants(cell, ues, st0, order, St());
      hide Call;
      var total := TotalRemaining();
      sched := cell.numBeams * cell.maxUe - total;
      assert (sched == 0 && made == []) || (sched > 0 && made != []);
    }
  }
}
