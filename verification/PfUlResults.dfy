/**
  What holds of every call of pf_ul: the count it returns, the per-beam budgets, one grant per UE,
  the resource blocks of new grants, and the order.
 */
module PfUlResults {
  import opened Basics
  import opened PfUlOrder
  import opened PfUl
  import opened Tda
  import H = UlHarq
  import Runs = UlHarqRuns
  import Rb = RbAllocator
  import Policy = SlicePolicy
  import Limit = SliceLimiter

  // ----- one grant

  /** A new grant lies on free blocks and is marked; a retransmission marks some blocks. */
  ghost function BlocksTaken(cell: Cell, m: Made, before: seq<Symbols>, after: seq<Symbols>): bool {
    match m
    case Retransmission(_, _, _) => exists lo, hi, sl :: after == Rb.Mark(before, lo, hi, sl)
    case NewData(_, _, _, g) =>
      && g.rbSize >= 1 && g.Hi() <= cell.blocks && Rb.AllFree(before, g.Lo(), g.Hi(), cell.symbols)
      && after == Rb.MarkGrant(before, g, cell.symbols)
  }

  /** What one grant does to the state. */
  ghost predicate Charged(cell: Cell, st: State, st': State, m: Made) {
    && st'.made == st.made + [m] && m.beam < cell.numBeams
    && |st.remain| == |st.budget| == |st.masks| == cell.numBeams
    && st'.remain == st.remain[m.beam := st.remain[m.beam] - 1]
    && st'.budget == (if m.NewData? then st.budget[m.beam := st.budget[m.beam] - m.grant.rbSize] else st.budget)
    && |st'.masks| == cell.numBeams && st'.masks == st.masks[m.beam := st'.masks[m.beam]]
    && BlocksTaken(cell, m, st.masks[m.beam], st'.masks[m.beam])
    && (m.NewData? <==> m.tx.round == 0)
    && (if m.NewData? then st.remain[m.beam] != 0 else Sum(st.remain) != 0)
  }

  /** A new grant starts a block, a retransmission does not. */
  lemma {:induction false} PostRound(cfg: H.Config, c: H.Ctrl, sched: H.Pusch)
    requires H.Inv(cfg, c) && H.Legitimate(c, sched)
    ensures H.Postable(cfg, c, sched)
    ensures sched.pid < 0 <==> H.Post(cfg, c, sched).1.round == 0
  {
    H.PostInv(cfg, c, sched);
    var pid := if sched.pid < 0 then c.available[0] else sched.pid;
    H.InvKnown(cfg, c, pid);
    assert H.ProcOk(cfg, c, pid);
  }

  lemma {:induction false} VisitCharges(cell: Cell, ues: seq<Ue>, i: nat, g: Gathered)
    requires UesOk(cell, ues) && i < |ues| && StateOk(cell, |ues|, g.st)
    ensures UeOk(cell, ues[i]) && |g.st.ctrls| == |ues| && StateOk(cell, |g.st.ctrls|, g.st)
    ensures var (st, st') := (g.st, Visit(cell, ues[i], i, g).st);
            st' == st || (|st'.made| > 0 && Charged(cell, st, st', st'.made[|st'.made| - 1]))
  {
    hide H.Inv, H.RetransmissionGrant, H.Post, H.Postable, H.Legitimate;
    var (u, c) := (ues[i], g.st.ctrls[i]);
    if c.retrans != [] {
      Runs.RetransmissionLegitimate(cell.harq, c, u.attempt);
      var s := H.RetransmissionGrant(c, u.attempt);
      if s.Some? {
        RetransmissionPid(c, u.attempt, cell.harq);
        PostRound(cell.harq, c, s.value);
      }
    }
  }

  lemma {:induction false} RetransmissionPid(c: H.Ctrl, a: H.Attempt, cfg: H.Config)
    requires H.Inv(cfg, c) && c.retrans != [] && c.Has(c.retrans[0])
    ensures H.RetransmissionGrant(c, a).Some? ==> H.RetransmissionGrant(c, a).value.pid >= 0
  {
    Runs.RetransmissionLegitimate(cfg, c, a);
  }

  lemma {:induction false} ServeCharges(cell: Cell, ues: seq<Ue>, c: Cand, st: State)
    requires UesOk(cell, ues) && StateOk(cell, |ues|, st) && c.ue < |ues| && st.ctrls[c.ue].available != []
    requires ues[c.ue].posture.minRb >= 1
    ensures var st' := Serve(cell, ues, c, st);
            st' == st || (|st'.made| > 0 && Charged(cell, st, st', st'.made[|st'.made| - 1]))
  {
    hide H.Inv, H.Post, H.Postable, GrantFor, Rb.UlGrant;
    var u := ues[c.ue];
    var g := GrantFor(cell, u, c, st);
    if g.Some? {
      GrantMeans(cell, u, c, st);
      GrantAdmitted(cell, u, c, st);
      Rb.UlGrantSound(st.masks[u.beam2], Request(u, c), SizingOf(u), cell.symbols);
      PostRound(cell.harq, st.ctrls[c.ue], NewPusch(cell, u, g.value));
    }
  }

  lemma {:induction false} GrantAdmitted(cell: Cell, u: Ue, c: Cand, st: State)
    requires UeOk(cell, u) && StateOk(cell, |st.ctrls|, st) && GrantFor(cell, u, c, st).Some?
    ensures u.beam2 >= 0 && st.remain[u.beam2] != 0 && st.budget[u.beam2] >= u.posture.minRb
  {
  }

  // ----- counts and budgets

  /** Grants on a beam. */
  ghost function MadeOn(made: seq<Made>, b: nat): nat {
    if made == [] then 0 else MadeOn(made[..|made| - 1], b) + if made[|made| - 1].beam == b then 1 else 0
  }

  /** Blocks of new grants on a beam. */
  ghost function NewBlocks(made: seq<Made>, b: nat): nat {
    if made == [] then 0
    else
      var m := made[|made| - 1];
      NewBlocks(made[..|made| - 1], b) + if m.NewData? && m.beam == b then m.grant.rbSize else 0
  }

  /** The beam's UEs are charged for every grant, its blocks only for new grants. */
  ghost predicate BeamAccounted(cell: Cell, budget0: seq<int>, st: State, b: nat)
    requires b < |st.remain| && b < |st.budget| && b < |budget0|
  {
    st.remain[b] == cell.maxUe - MadeOn(st.made, b) && st.budget[b] == budget0[b] - NewBlocks(st.made, b)
  }

  ghost predicate Accounted(cell: Cell, budget0: seq<int>, st: State) {
    && |st.remain| == |st.budget| == |budget0| == |st.masks| == cell.numBeams
    && Sum(st.remain) + |st.made| == cell.numBeams * cell.maxUe
    && (forall b :: 0 <= b < cell.numBeams ==> BeamAccounted(cell, budget0, st, b))
    && (cell.numBeams == 1 ==> st.remain[0] >= 0)
    && forall k :: 0 <= k < |st.made| ==> (st.made[k].NewData? <==> st.made[k].tx.round == 0)
  }

  lemma {:induction false} ChargedBeam(cell: Cell, budget0: seq<int>, st: State, st': State, m: Made, b: nat)
    requires Charged(cell, st, st', m) && b < cell.numBeams == |budget0| && BeamAccounted(cell, budget0, st, b)
    ensures BeamAccounted(cell, budget0, st', b)
  {
    hide BlocksTaken, Sum;
    assert st'.made[..|st'.made| - 1] == st.made && st'.made[|st'.made| - 1] == m;
  }

  lemma {:induction false} ChargedAccounted(cell: Cell, budget0: seq<int>, st: State, st': State, m: Made)
    requires Charged(cell, st, st', m) && Accounted(cell, budget0, st)
    ensures Accounted(cell, budget0, st')
  {
    hide BlocksTaken;
    SumUpdate(st.remain, m.beam, st.remain[m.beam] - 1);
    if cell.numBeams == 1 {
      assert Sum(st.remain) == st.remain[0] by {
        assert st.remain[..0] == [];
      }
    }
    forall b | 0 <= b < cell.numBeams
      ensures BeamAccounted(cell, budget0, st', b)
    {
      ChargedBeam(cell, budget0, st, st', m, b);
    }
  }

  // ----- blocks of new grants

  ghost predicate NoneFree(mask: seq<Symbols>, lo: int, hi: int, sl: Symbols) {
    forall rb :: lo <= rb < hi ==> !Rb.Free(mask, rb, sl)
  }

  ghost predicate Less(mask0: seq<Symbols>, mask: seq<Symbols>, sl: Symbols) {
    forall rb :: Rb.Free(mask, rb, sl) ==> Rb.Free(mask0, rb, sl)
  }

  /** A new grant lay on blocks free before the call; they are taken now if its BWP starts at block 0. */
  ghost predicate Placed(cell: Cell, masks0: seq<seq<Symbols>>, st: State, m: Made) {
    m.NewData? ==>
      && m.beam < |masks0| && m.beam < |st.masks| && m.grant.rbSize >= 1 && m.grant.Hi() <= cell.blocks
      && Rb.AllFree(masks0[m.beam], m.grant.Lo(), m.grant.Hi(), cell.symbols)
      && (m.grant.bwpStart == 0 ==> NoneFree(st.masks[m.beam], m.grant.Lo(), m.grant.Hi(), cell.symbols))
  }

  ghost predicate Apart(m: Made, n: Made) {
    m.NewData? && n.NewData? && m.beam == n.beam && m.grant.bwpStart == 0 ==>
      m.grant.Hi() <= n.grant.Lo() || n.grant.Hi() <= m.grant.Lo()
  }

  ghost predicate GrantsOk(cell: Cell, masks0: seq<seq<Symbols>>, st: State) {
    && |masks0| == |st.masks| == cell.numBeams
    && (forall b :: 0 <= b < cell.numBeams ==> Less(masks0[b], st.masks[b], cell.symbols))
    && (forall k :: 0 <= k < |st.made| ==> Placed(cell, masks0, st, st.made[k]))
    && forall k, l :: 0 <= k < l < |st.made| ==> Apart(st.made[k], st.made[l])
  }

  lemma {:induction false} MarkLess(mask: seq<Symbols>, lo: int, hi: int, sl: Symbols, s: Symbols)
    ensures Less(mask, Rb.Mark(mask, lo, hi, s), sl)
  {
    forall rb | Rb.Free(Rb.Mark(mask, lo, hi, s), rb, sl)
      ensures Rb.Free(mask, rb, sl)
    {
      assert mask[rb] <= Rb.Mark(mask, lo, hi, s)[rb];
    }
  }

  lemma {:induction false} ChargedLess(cell: Cell, st: State, st': State, m: Made, b: nat)
    requires Charged(cell, st, st', m) && b < cell.numBeams
    ensures Less(st.masks[b], st'.masks[b], cell.symbols)
  {
    if b == m.beam {
      match m
      case Retransmission(_, _, _) =>
        var lo, hi, sl :| st'.masks[b] == Rb.Mark(st.masks[b], lo, hi, sl);
        MarkLess(st.masks[b], lo, hi, cell.symbols, sl);
      case NewData(_, _, _, g) =>
        MarkLess(st.masks[b], g.bwpStart + g.rbStart, g.rbSize + g.rbStart, cell.symbols, cell.symbols);
    }
  }

  lemma {:induction false} GrantTakes(cell: Cell, st: State, st': State, m: Made)
    requires Charged(cell, st, st', m) && m.NewData? && cell.symbols != {} && m.grant.bwpStart == 0
    requires |st.masks[m.beam]| == cell.blocks
    ensures NoneFree(st'.masks[m.beam], m.grant.Lo(), m.grant.Hi(), cell.symbols)
  {
    Rb.MarkGrantCovers(st.masks[m.beam], m.grant, cell.symbols);
  }

  lemma {:induction false} OldAndNewApart(
      cell: Cell, masks0: seq<seq<Symbols>>, st: State, st': State, m: Made, n: Made)
    requires Charged(cell, st, st', n) && Placed(cell, masks0, st, m)
    ensures Apart(m, n)
  {
    if m.NewData? && n.NewData? && m.beam == n.beam && m.grant.bwpStart == 0 {
      var rb := if m.grant.Lo() < n.grant.Lo() then n.grant.Lo() else m.grant.Lo();
      assert m.grant.Lo() <= rb < m.grant.Hi() ==> !Rb.Free(st.masks[m.beam], rb, cell.symbols);
      assert n.grant.Lo() <= rb < n.grant.Hi() ==> Rb.Free(st.masks[m.beam], rb, cell.symbols);
    }
  }

  lemma {:induction false} ChargedGrants(cell: Cell, masks0: seq<seq<Symbols>>, st: State, st': State, m: Made)
    requires Charged(cell, st, st', m) && GrantsOk(cell, masks0, st) && cell.symbols != {}
    requires |st.masks[m.beam]| == cell.blocks
    ensures GrantsOk(cell, masks0, st')
  {
    forall b | 0 <= b < cell.numBeams
      ensures Less(st.masks[b], st'.masks[b], cell.symbols) && Less(masks0[b], st'.masks[b], cell.symbols)
    {
      ChargedLess(cell, st, st', m, b);
    }
    if m.NewData? && m.grant.bwpStart == 0 {
      GrantTakes(cell, st, st', m);
    }
    forall k | 0 <= k < |st'.made|
      ensures Placed(cell, masks0, st', st'.made[k]) && (k < |st.made| ==> Apart(st'.made[k], m))
    {
      if k < |st.made| {
        assert Placed(cell, masks0, st, st.made[k]);
        OldAndNewApart(cell, masks0, st, st', st.made[k], m);
      }
    }
    assert forall k, l :: 0 <= k < l < |st.made| ==> Apart(st'.made[k], st'.made[l]);
  }

  // ----- the whole call

  ghost predicate CallInv(cell: Cell, st0: State, st: State) {
    && Accounted(cell, st0.budget, st)
    && (cell.symbols != {} ==> GrantsOk(cell, st0.masks, st))
  }

  lemma {:induction false} ChargedInv(cell: Cell, n: nat, st0: State, st: State, st': State)
    requires CallInv(cell, st0, st) && StateOk(cell, n, st)
    requires st' == st || (|st'.made| > 0 && Charged(cell, st, st', st'.made[|st'.made| - 1]))
    ensures CallInv(cell, st0, st')
  {
    if st' != st {
      var m := st'.made[|st'.made| - 1];
      ChargedAccounted(cell, st0.budget, st, st', m);
      if cell.symbols != {} {
        ChargedGrants(cell, st0.masks, st, st', m);
      }
    }
  }

  lemma {:induction false} SumConstant(n: nat, x: int)
    ensures Sum(seq(n, i => x)) == n * x
  {
    if n > 0 {
      assert seq(n, i => x)[..n - 1] == seq(n - 1, i => x);
      SumConstant(n - 1, x);
    }
  }

  lemma {:induction false} InitialInv(cell: Cell, n: nat, st0: State)
    requires StateOk(cell, n, st0) && st0 == Initial(cell, st0.ctrls, st0.budget, st0.masks)
    ensures CallInv(cell, st0, st0)
  {
    SumConstant(cell.numBeams, cell.maxUe);
    assert forall b :: 0 <= b < cell.numBeams ==> BeamAccounted(cell, st0.budget, st0, b);
  }

  lemma {:induction false} GatherInv(cell: Cell, ues: seq<Ue>, st0: State, n: nat)
    requires UesOk(cell, ues) && StateOk(cell, |ues|, st0) && n <= |ues|
    requires st0 == Initial(cell, st0.ctrls, st0.budget, st0.masks)
    ensures CallInv(cell, st0, Gather(cell, ues, st0, n).st)
  {
    hide StateOk, UesOk, Initial, CallInv, Visit;
    if n == 0 {
      InitialInv(cell, |ues|, st0);
    } else {
      GatherInv(cell, ues, st0, n - 1);
      var g := Gather(cell, ues, st0, n - 1);
      VisitCharges(cell, ues, n - 1, g);
      ChargedInv(cell, |ues|, st0, g.st, Visit(cell, ues[n - 1], n - 1, g).st);
    }
  }

  lemma {:induction false} AllocateInv(cell: Cell, ues: seq<Ue>, order: seq<Cand>, st0: State, st: State, n: nat)
    requires UesOk(cell, ues) && StateOk(cell, |ues|, st) && Ready(st.ctrls, order) && n <= |order|
    requires CallInv(cell, st0, st) && forall i :: 0 <= i < |ues| ==> ues[i].posture.minRb >= 1
    ensures CallInv(cell, st0, Allocate(cell, ues, order, st, n))
  {
    hide UesOk, CallInv, Serve;
    if n > 0 {
      AllocateInv(cell, ues, order, st0, st, n - 1);
      var s := Allocate(cell, ues, order, st, n - 1);
      ServeCharges(cell, ues, order[n - 1], s);
      ChargedInv(cell, |ues|, st0, s, Serve(cell, ues, order[n - 1], s));
    }
  }

  /** After every call the UL HARQ invariants hold for every UE, counts and budgets are accounted for,
      and the new grants lie where they may. */
  lemma {:induction false} CallKeeps(cell: Cell, ues: seq<Ue>, st0: State, order: seq<Cand>, st: State)
    requires Call(cell, ues, st0, order, st)
    ensures StateOk(cell, |ues|, st) && CallInv(cell, st0, st)
  {
    GatherInv(cell, ues, st0, |ues|);
    AllocateInv(cell, ues, order, st0, Gather(cell, ues, st0, |ues|).st, |order|);
  }

  /** The count pf_ul returns is the number of grants made, so its closing assertion holds. */
  lemma {:induction false} CountIsGrants(cell: Cell, ues: seq<Ue>, st0: State, order: seq<Cand>, st: State)
    requires Call(cell, ues, st0, order, st)
    ensures cell.numBeams * cell.maxUe - Sum(st.remain) == |st.made|
  {
    CallKeeps(cell, ues, st0, order, st);
  }

  /** New grants of a call on one beam are disjoint if their BWPs start at block 0; all of them lie on
      blocks of the BWP that were free before the call. */
  lemma {:induction false} NewGrantsDisjoint(
      cell: Cell, ues: seq<Ue>, st0: State, order: seq<Cand>, st: State, k: nat, l: nat)
    requires Call(cell, ues, st0, order, st) && cell.symbols != {}
    requires k < |st.made| && st.made[k].NewData?
    ensures st.made[k].beam < |st0.masks|
            && Rb.AllFree(st0.masks[st.made[k].beam], st.made[k].grant.Lo(), st.made[k].grant.Hi(), cell.symbols)
    ensures k < l < |st.made| && st.made[l].NewData? && st.made[k].beam == st.made[l].beam ==>
              st.made[k].grant.bwpStart == 0 ==>
              st.made[k].grant.Hi() <= st.made[l].grant.Lo() || st.made[l].grant.Hi() <= st.made[k].grant.Lo()
  {
    CallKeeps(cell, ues, st0, order, st);
    assert Placed(cell, st0.masks, st, st.made[k]);
    assert k < l < |st.made| ==> Apart(st.made[k], st.made[l]);
  }

  // ----- one grant per UE, in order

  /** What the second phase did after n candidates. */
  ghost predicate Served(order: seq<Cand>, from: nat, made: seq<Made>, n: nat) {
    && from <= |made| && n <= |order|
    && (forall k :: 0 <= k < from ==> made[k].Retransmission?)
    && (forall k :: from <= k < |made| ==> made[k].NewData? && exists a :: 0 <= a < n && order[a].ue == made[k].ue)
    && forall k, l, a, b :: from <= k < l < |made| && 0 <= a < |order| && 0 <= b < |order| ==>
         order[a].ue == made[k].ue && order[b].ue == made[l].ue ==> a < b
  }

  ghost predicate AllDifferent(order: seq<Cand>) {
    forall a, b :: 0 <= a < b < |order| ==> order[a].ue != order[b].ue
  }

  lemma {:induction false} ServedStep(order: seq<Cand>, from: nat, made: seq<Made>, made': seq<Made>, n: nat)
    requires 0 < n <= |order| && AllDifferent(order) && Served(order, from, made, n - 1)
    requires made' == made || (|made'| == |made| + 1 && made' == made + [made'[|made|]]
                               && made'[|made|].NewData? && made'[|made|].ue == order[n - 1].ue)
    ensures Served(order, from, made', n)
  {
    forall k | from <= k < |made'|
      ensures made'[k].NewData? && exists a :: 0 <= a < n && order[a].ue == made'[k].ue
    {
      if k < |made| {
        var a :| 0 <= a < n - 1 && order[a].ue == made[k].ue;
      } else {
        assert order[n - 1].ue == made'[k].ue;
      }
    }
    forall k, l, a, b | from <= k < l < |made'| && 0 <= a < |order| && 0 <= b < |order|
                        && order[a].ue == made'[k].ue && order[b].ue == made'[l].ue
      ensures a < b
    {
      if l == |made| {
        var c :| 0 <= c < n - 1 && order[c].ue == made[k].ue;
      }
    }
  }

  lemma {:induction false} ServedNone(order: seq<Cand>, made: seq<Made>)
    requires forall k :: 0 <= k < |made| ==> made[k].Retransmission?
    ensures Served(order, |made|, made, 0)
  {
  }

  lemma {:induction false} ServeAdds(cell: Cell, ues: seq<Ue>, c: Cand, st: State)
    requires UesOk(cell, ues) && StateOk(cell, |ues|, st) && c.ue < |ues| && st.ctrls[c.ue].available != []
    ensures var (made, made') := (st.made, Serve(cell, ues, c, st).made);
            made' == made || (|made'| == |made| + 1 && made' == made + [made'[|made|]]
                              && made'[|made|].NewData? && made'[|made|].ue == c.ue)
  {
    hide H.Inv, H.Post, H.Postable, GrantFor;
    var u := ues[c.ue];
    var g := GrantFor(cell, u, c, st);
    if g.Some? {
      GrantMeans(cell, u, c, st);
      H.PostInv(cell.harq, st.ctrls[c.ue], NewPusch(cell, u, g.value));
    }
  }

  lemma {:induction false} AllocateServed(cell: Cell, ues: seq<Ue>, order: seq<Cand>, st: State, n: nat)
    requires UesOk(cell, ues) && StateOk(cell, |ues|, st) && Ready(st.ctrls, order) && n <= |order|
    requires forall k :: 0 <= k < |st.made| ==> st.made[k].Retransmission?
    requires AllDifferent(order)
    ensures Served(order, |st.made|, Allocate(cell, ues, order, st, n).made, n)
  {
    hide UesOk, Serve, Served, AllDifferent;
    if n == 0 {
      ServedNone(order, st.made);
    } else {
      AllocateServed(cell, ues, order, st, n - 1);
      var s := Allocate(cell, ues, order, st, n - 1);
      ServeAdds(cell, ues, order[n - 1], s);
      ServedStep(order, |st.made|, s.made, Serve(cell, ues, order[n - 1], s).made, n);
    }
  }

  /** A call grants every UE at most once: a retransmission, or new data. */
  lemma {:induction false} OneGrantPerUe(
      cell: Cell, ues: seq<Ue>, st0: State, order: seq<Cand>, st: State, k: nat, l: nat)
    requires Call(cell, ues, st0, order, st) && k < l < |st.made|
    ensures st.made[k].ue != st.made[l].ue
    ensures st.made[l].Retransmission? ==> st.made[k].Retransmission?
  {
    CallServed(cell, ues, st0, order, st);
    var g := Gather(cell, ues, st0, |ues|);
    hide Gather, Allocate, Call, CandOf;
    var from := |g.st.made|;
    assert k < from ==> st.made[k] == g.st.made[k];
    assert l < from ==> st.made[l] == g.st.made[l];
    if l >= from {
      var b :| 0 <= b < |order| && order[b].ue == st.made[l].ue;
      assert order[b] in g.cands;
      if k >= from {
        var a :| 0 <= a < |order| && order[a].ue == st.made[k].ue;
        assert a < b;
      }
    }
  }

  lemma {:induction false} AllocatePrefix(cell: Cell, ues: seq<Ue>, order: seq<Cand>, st: State, n: nat)
    requires UesOk(cell, ues) && StateOk(cell, |ues|, st) && Ready(st.ctrls, order) && n <= |order|
    ensures var made := Allocate(cell, ues, order, st, n).made; |st.made| <= |made| && made[..|st.made|] == st.made
  {
    hide UesOk, Serve;
    if n > 0 {
      AllocatePrefix(cell, ues, order, st, n - 1);
      var s := Allocate(cell, ues, order, st, n - 1);
      ServeAdds(cell, ues, order[n - 1], s);
      assert s.made[..|st.made|] == Serve(cell, ues, order[n - 1], s).made[..|st.made|];
    }
  }

  /** How the grants of a call relate to the two phases. */
  lemma {:induction false} CallServed(cell: Cell, ues: seq<Ue>, st0: State, order: seq<Cand>, st: State)
    requires Call(cell, ues, st0, order, st)
    ensures var g := Gather(cell, ues, st0, |ues|);
            && CandsOk(cell, ues, g, |ues|) && (forall a :: 0 <= a < |order| ==> order[a] in g.cands)
            && AllDifferent(order) && Served(order, |g.st.made|, st.made, |order|)
            && st.made[..|g.st.made|] == g.st.made
  {
    var g := Gather(cell, ues, st0, |ues|);
    GatherCands(cell, ues, st0, |ues|);
    OrderReady(cell, ues, g, order);
    hide Gather, StateOk, CandsOk, UesOk, Served;
    assert AllDifferent(order);
    assert forall k :: 0 <= k < |g.st.made| ==> g.st.made[k].Retransmission? by {
      MadeRetransmissions(cell, ues, g);
    }
    AllocateServed(cell, ues, order, g.st, |order|);
    AllocatePrefix(cell, ues, order, g.st, |order|);
  }

  lemma {:induction false} MadeRetransmissions(cell: Cell, ues: seq<Ue>, g: Gathered)
    requires CandsOk(cell, ues, g, |ues|)
    ensures forall k :: 0 <= k < |g.st.made| ==> g.st.made[k].Retransmission?
  {
  }

  /** The new grants of a call are made in sorted order. */
  lemma {:induction false} GrantedInOrder(
      cell: Cell, ues: seq<Ue>, st0: State, order: seq<Cand>, st: State, k: nat, l: nat, a: nat, b: nat)
    requires Call(cell, ues, st0, order, st) && k < l < |st.made| && st.made[k].NewData? && st.made[l].NewData?
    requires a < |order| && b < |order| && order[a].ue == st.made[k].ue && order[b].ue == st.made[l].ue
    ensures a < b && Compare(order[a], order[b]) <= 0
  {
    CallServed(cell, ues, st0, order, st);
    hide Gather, Allocate, CandOf;
  }

  predicate PositiveUe(u: Ue) {
    u.rate > 0.0 && u.posture.mul > 0.0 && u.posture.burstMul > 0.0
  }

  /** Once a throttled UE with data was granted, only throttled UEs follow. */
  lemma {:induction false} ThrottledServedLast(
      cell: Cell, ues: seq<Ue>, st0: State, order: seq<Cand>, st: State, k: nat, l: nat, a: nat, b: nat)
    requires Call(cell, ues, st0, order, st) && k < l < |st.made| && st.made[k].NewData? && st.made[l].NewData?
    requires a < |order| && b < |order| && order[a].ue == st.made[k].ue && order[b].ue == st.made[l].ue
    requires forall i :: 0 <= i < |ues| ==> PositiveUe(ues[i])
    requires order[a].ue < |ues| && Throttled(cell, ues[order[a].ue]) && !order[a].inactive
    ensures order[b].ue < |ues| && Throttled(cell, ues[order[b].ue]) && !order[b].inactive
  {
    GrantedInOrder(cell, ues, st0, order, st, k, l, a, b);
    CallServed(cell, ues, st0, order, st);
    var g := Gather(cell, ues, st0, |ues|);
    var (f, h) := (CandFactors(cell, ues, g, order[a]), CandFactors(cell, ues, g, order[b]));
    hide Call, Gather, CandsOk, Served, Throttled, Coefficient, AllDifferent;
    CoefficientPositive(f);
    CoefficientPositive(h);
  }

  ghost function CandFactors(cell: Cell, ues: seq<Ue>, g: Gathered, c: Cand): (f: Factors)
    requires CandsOk(cell, ues, g, |ues|) && c in g.cands
    ensures c.ue < |ues| && f.throttled == Throttled(cell, ues[c.ue]) && c.coef == Coefficient(f)
    ensures PositiveUe(ues[c.ue]) ==> f.Positive()
  {
    hide Coefficient, Throttled;
    Policy.PolicyLimits(ues[c.ue].slice, Limit.Ul);
    FactorsOf(cell, ues[c.ue], Backlog(ues[c.ue], g.st.ctrls[c.ue]))
  }

  /** Throttling only moves a UE back: at its turn it is given exactly what it would get otherwise. */
  lemma {:induction false} ThrottlingOnlyReorders(cell: Cell, ues: seq<Ue>, c: Cand, st: State, x: real)
    requires UesOk(cell, ues) && StateOk(cell, |ues|, st) && c.ue < |ues| && st.ctrls[c.ue].available != []
    ensures Serve(cell, ues, c.(coef := x), st) == Serve(cell, ues, c, st)
  {
    hide H.Inv, H.Post, H.Postable, Rb.UlGrant;
    assert Request(ues[c.ue], c.(coef := x)) == Request(ues[c.ue], c);
  }
}
