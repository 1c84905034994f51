/**
  Why a UE gets a grant in a call of pf_ul, told from the state before the call: a retransmission goes
  to the head of its retransmission list, with the saved block; new data goes to a UE that has no
  retransmission pending, and data or a reason to be polled, on its first free process.
 */
module PfUlJustified {
  import opened Basics
  import opened PfUlOrder
  import opened PfUl
  import H = UlHarq
  import Runs = UlHarqRuns
  import Rb = RbAllocator
  import Results = PfUlResults
  import Policy = SlicePolicy

  /** May be given new data. */
  ghost predicate Eligible(u: Ue, c: H.Ctrl) {
    && !u.ulFailure && !u.interrupted && u.dci && u.beam >= 0
    && c.retrans == [] && c.available != [] && (Backlog(u, c) > 0 || u.doSched)
  }

  /** Transmission of the saved block of a process. */
  ghost predicate SameBlock(c: H.Ctrl, tx: H.Tx) {
    && c.retrans != [] && tx.pid == c.retrans[0] && c.Has(tx.pid)
    && tx == H.Tx(tx.pid, c.procs[tx.pid].ndi, c.procs[tx.pid].saved.tbSize, c.procs[tx.pid].round)
  }

  /** Transmission of a new block of the given size; the NDI is that of the process, which its last
      finish toggled (with HARQ disabled it is toggled now). */
  ghost predicate NewBlock(cfg: H.Config, c: H.Ctrl, tx: H.Tx, size: nat) {
    && c.available != [] && tx.pid == c.available[0] && c.Has(tx.pid)
    && tx.round == 0 && tx.tbSize == size && (tx.ndi == c.procs[tx.pid].ndi) == !cfg.disableHarq
  }

  ghost predicate Justified(cell: Cell, ues: seq<Ue>, ctrls: seq<H.Ctrl>, m: Made) {
    && m.ue < |ues| == |ctrls|
    && var (u, c) := (ues[m.ue], ctrls[m.ue]);
       match m
       case Retransmission(_, b, tx) => !u.ulFailure && u.dci && u.beam == b && SameBlock(c, tx)
       case NewData(_, b, tx, g) =>
         Eligible(u, c) && u.beam2 == b && u.dci2 && u.cce && NewBlock(cell.harq, c, tx, u.tbs(g.rbSize))
  }

  ghost predicate AllJustified(cell: Cell, ues: seq<Ue>, ctrls: seq<H.Ctrl>, made: seq<Made>) {
    forall k :: 0 <= k < |made| ==> Justified(cell, ues, ctrls, made[k])
  }

  lemma {:induction false} RetransmissionTx(cfg: H.Config, c: H.Ctrl, a: H.Attempt)
    requires H.Inv(cfg, c) && c.retrans != [] && c.Has(c.retrans[0]) && H.RetransmissionGrant(c, a).Some?
    ensures H.Postable(cfg, c, H.RetransmissionGrant(c, a).value)
    ensures SameBlock(c, H.Post(cfg, c, H.RetransmissionGrant(c, a).value).1)
  {
    Runs.RetransmissionLegitimate(cfg, c, a);
    H.PostInv(cfg, c, H.RetransmissionGrant(c, a).value);
    assert H.ProcOk(cfg, c, c.retrans[0]);
  }

  lemma {:induction false} NewTx(cfg: H.Config, c: H.Ctrl, sched: H.Pusch)
    requires H.Inv(cfg, c) && c.available != [] && sched.pid < 0
    ensures H.Postable(cfg, c, sched)
    ensures NewBlock(cfg, c, H.Post(cfg, c, sched).1, sched.tbSize)
  {
    H.PostInv(cfg, c, sched);
    H.InvKnown(cfg, c, c.available[0]);
    assert H.ProcOk(cfg, c, c.available[0]);
  }

  // ----- first loop

  /** After n UEs. */
  ghost predicate Gathering(cell: Cell, ues: seq<Ue>, ctrls: seq<H.Ctrl>, g: Gathered, n: nat) {
    && |g.st.ctrls| == |ctrls| == |ues| && n <= |ues|
    && AllJustified(cell, ues, ctrls, g.st.made)
    && (forall i :: n <= i < |ues| ==> g.st.ctrls[i] == ctrls[i])
    && forall k :: 0 <= k < |g.cands| ==>
         var i := g.cands[k].ue; i < n && g.st.ctrls[i] == ctrls[i] && Eligible(ues[i], ctrls[i])
  }

  lemma {:induction false} VisitJustified(cell: Cell, ues: seq<Ue>, ctrls: seq<H.Ctrl>, i: nat, g: Gathered)
    requires UesOk(cell, ues) && i < |ues| == |ctrls| && StateOk(cell, |ues|, g.st) && g.st.ctrls[i] == ctrls[i]
    requires AllJustified(cell, ues, ctrls, g.st.made)
    ensures AllJustified(cell, ues, ctrls, VisitNext(cell, ues, i, g).st.made)
  {
    var (u, c) := (ues[i], ctrls[i]);
    assert UeOk(cell, u) && H.Inv(cell.harq, c);
    if c.retrans != [] {
      Runs.RetransmissionLegitimate(cell.harq, c, u.attempt);
      if H.RetransmissionGrant(c, u.attempt).Some? {
        RetransmissionTx(cell.harq, c, u.attempt);
      }
    }
    hide H.Inv, H.Post, H.Postable, H.RetransmissionGrant, H.Legitimate, StateOk, UesOk, SameBlock, CandOf;
  }

  lemma {:induction false} VisitEligible(cell: Cell, ues: seq<Ue>, i: nat, g: Gathered)
    requires UesOk(cell, ues) && i < |ues| && StateOk(cell, |ues|, g.st)
    ensures |g.st.ctrls| == |ues|
    ensures var g' := VisitNext(cell, ues, i, g);
            g'.cands != g.cands ==>
              g'.st == g.st && |g'.cands| == |g.cands| + 1 && g'.cands[..|g.cands|] == g.cands
              && g'.cands[|g.cands|].ue == i && Eligible(ues[i], g.st.ctrls[i])
  {
    hide H.Inv, Retransmit, Coefficient, FactorsOf;
  }

  lemma {:induction false} VisitGathering(cell: Cell, ues: seq<Ue>, ctrls: seq<H.Ctrl>, i: nat, g: Gathered)
    requires UesOk(cell, ues) && i < |ues| && StateOk(cell, |ues|, g.st) && Gathering(cell, ues, ctrls, g, i)
    ensures Gathering(cell, ues, ctrls, VisitNext(cell, ues, i, g), i + 1)
  {
    VisitJustified(cell, ues, ctrls, i, g);
    VisitElsewhere(cell, ues, i, g);
    VisitEligible(cell, ues, i, g);
    hide Visit, StateOk, UesOk, AllJustified, Eligible, CandOf, VisitNext;
    var g' := VisitNext(cell, ues, i, g);
    assert g' == Visit(cell, ues[i], i, g);
    assert forall k :: 0 <= k < |g.cands| ==> g'.cands[..|g.cands|][k] == g'.cands[k] || g'.cands == g.cands;
  }

  lemma {:induction false} GatheringNone(cell: Cell, ues: seq<Ue>, st0: State)
    requires StateOk(cell, |ues|, st0) && st0.made == []
    ensures Gathering(cell, ues, st0.ctrls, Gathered(st0, []), 0)
  {
  }

  lemma {:induction false} GatherGathering(cell: Cell, ues: seq<Ue>, st0: State, n: nat)
    requires UesOk(cell, ues) && StateOk(cell, |ues|, st0) && n <= |ues| && st0.made == []
    ensures Gathering(cell, ues, st0.ctrls, Gather(cell, ues, st0, n), n)
  {
    hide UesOk, StateOk, Gathering;
    if n == 0 {
      GatheringNone(cell, ues, st0);
    } else {
      GatherGathering(cell, ues, st0, n - 1);
      VisitGathering(cell, ues, st0.ctrls, n - 1, Gather(cell, ues, st0, n - 1));
    }
  }

  // ----- second loop

  lemma {:induction false} ServeJustified(cell: Cell, ues: seq<Ue>, ctrls: seq<H.Ctrl>, c: Cand, st: State)
    requires UesOk(cell, ues) && StateOk(cell, |ues|, st) && c.ue < |ues| && st.ctrls[c.ue].available != []
    requires |ctrls| == |ues| && st.ctrls[c.ue] == ctrls[c.ue] && Eligible(ues[c.ue], ctrls[c.ue])
    requires AllJustified(cell, ues, ctrls, st.made)
    ensures AllJustified(cell, ues, ctrls, Serve(cell, ues, c, st).made)
  {
    hide H.Inv, H.Post, H.Postable, GrantFor, Eligible, NewBlock;
    var u := ues[c.ue];
    var g := GrantFor(cell, u, c, st);
    if g.Some? {
      GrantReason(cell, u, c, st);
      NewTx(cell.harq, st.ctrls[c.ue], NewPusch(cell, u, g.value));
    }
  }

  lemma {:induction false} GrantReason(cell: Cell, u: Ue, c: Cand, st: State)
    requires UeOk(cell, u) && StateOk(cell, |st.ctrls|, st) && GrantFor(cell, u, c, st).Some?
    ensures u.beam2 >= 0 && u.dci2 && u.cce
  {
  }

  lemma {:induction false} AllocateJustified(
      cell: Cell, ues: seq<Ue>, ctrls: seq<H.Ctrl>, order: seq<Cand>, st: State, n: nat)
    requires UesOk(cell, ues) && StateOk(cell, |ues|, st) && Ready(st.ctrls, order) && n <= |order|
    requires |ctrls| == |ues| && AllJustified(cell, ues, ctrls, st.made)
    requires forall k :: 0 <= k < |order| ==>
               order[k].ue < |ues| && st.ctrls[order[k].ue] == ctrls[order[k].ue]
                   && Eligible(ues[order[k].ue], ctrls[order[k].ue])
    ensures AllJustified(cell, ues, ctrls, Allocate(cell, ues, order, st, n).made)
  {
    hide UesOk, Serve, AllJustified, Eligible;
    if n > 0 {
      AllocateJustified(cell, ues, ctrls, order, st, n - 1);
      ServeJustified(cell, ues, ctrls, order[n - 1], Allocate(cell, ues, order, st, n - 1));
    }
  }

  /** Every grant of a call is justified by the state before it. */
  lemma {:induction false} GrantsJustified(cell: Cell, ues: seq<Ue>, st0: State, order: seq<Cand>, st: State)
    requires Call(cell, ues, st0, order, st)
    ensures forall k :: 0 <= k < |st.made| ==> Justified(cell, ues, st0.ctrls, st.made[k])
  {
    var g := Gather(cell, ues, st0, |ues|);
    GatherGathering(cell, ues, st0, |ues|);
    Results.CallServed(cell, ues, st0, order, st);
    hide Gather, StateOk, UesOk, Eligible, Justified, CandsOk, Results.Served, Allocate;
    AllocateJustified(cell, ues, st0.ctrls, order, g.st, |order|);
  }

  // ----- nobody is forgotten

  ghost predicate IsCandidate(g: Gathered, i: nat) {
    exists k :: 0 <= k < |g.cands| && g.cands[k].ue == i
  }

  ghost predicate IsRetransmitted(g: Gathered, i: nat) {
    exists k :: 0 <= k < |g.st.made| && g.st.made[k].ue == i
  }

  /** Has a retransmission pending whose resources were found. */
  ghost predicate CanRetransmit(u: Ue, c: H.Ctrl) {
    && !u.ulFailure && u.dci && u.beam >= 0 && c.retrans != [] && c.Has(c.retrans[0])
    && H.RetransmissionGrant(c, u.attempt).Some?
  }

  ghost predicate Considered(ues: seq<Ue>, ctrls: seq<H.Ctrl>, g: Gathered, i: nat)
    requires i < |ues| && i < |ctrls|
  {
    && (Eligible(ues[i], ctrls[i]) ==> IsCandidate(g, i))
    && (CanRetransmit(ues[i], ctrls[i]) ==> IsRetransmitted(g, i))
  }

  /** What was collected or granted stays. */
  lemma {:induction false} VisitKeeps(cell: Cell, ues: seq<Ue>, ctrls: seq<H.Ctrl>, i: nat, g: Gathered, x: nat)
    requires UesOk(cell, ues) && i < |ues| && StateOk(cell, |ues|, g.st) && x < |ues| == |ctrls|
    requires Considered(ues, ctrls, g, x)
    ensures Considered(ues, ctrls, VisitNext(cell, ues, i, g), x)
  {
    VisitElsewhere(cell, ues, i, g);
    hide Visit, StateOk, UesOk, CandOf, Eligible, CanRetransmit;
    var g' := VisitNext(cell, ues, i, g);
    if k :| 0 <= k < |g.cands| && g.cands[k].ue == x {
      assert g'.cands[k] == g.cands[k];
    }
    if k :| 0 <= k < |g.st.made| && g.st.made[k].ue == x {
      assert g'.st.made[..|g.st.made|] == g.st.made;
      assert g'.st.made[k] == g.st.made[k];
    }
  }

  lemma {:induction false} VisitConsiders(cell: Cell, ues: seq<Ue>, ctrls: seq<H.Ctrl>, i: nat, g: Gathered)
    requires UesOk(cell, ues) && i < |ues| == |ctrls| && StateOk(cell, |ues|, g.st) && Sum(g.st.remain) != 0
    requires |g.st.ctrls| == |ues| && g.st.ctrls[i] == ctrls[i]
    ensures Considered(ues, ctrls, VisitNext(cell, ues, i, g), i)
  {
    var (u, c, g') := (ues[i], g.st.ctrls[i], VisitNext(cell, ues, i, g));
    assert UeOk(cell, u) && H.Inv(cell.harq, c);
    if CanRetransmit(u, c) {
      Runs.RetransmissionLegitimate(cell.harq, c, u.attempt);
      H.PostInv(cell.harq, c, H.RetransmissionGrant(c, u.attempt).value);
      hide H.Inv, H.Post, H.Postable, H.RetransmissionGrant, H.Legitimate, StateOk, UesOk;
      assert g'.st.made[|g.st.made|].ue == i;
    } else if Eligible(u, c) {
      hide H.Inv, StateOk, UesOk, Coefficient, FactorsOf;
      assert g'.cands[|g.cands|].ue == i;
    }
  }

  lemma {:induction false} NoUesNoVisit(cell: Cell, ues: seq<Ue>, i: nat, g: Gathered)
    requires UesOk(cell, ues) && i < |ues| && StateOk(cell, |ues|, g.st) && Sum(g.st.remain) == 0
    ensures VisitNext(cell, ues, i, g) == g
  {
  }

  /** If the limits over all beams are not used up after the first loop, it left nobody out: every UE that
      may be given new data is a candidate, and every possible retransmission was granted. */
  lemma {:induction false} EveryoneConsidered(cell: Cell, ues: seq<Ue>, st0: State, n: nat, i: nat)
    requires UesOk(cell, ues) && StateOk(cell, |ues|, st0) && i < n <= |ues| && st0.made == []
    requires Sum(Gather(cell, ues, st0, n).st.remain) != 0
    ensures |st0.ctrls| == |ues| && Considered(ues, st0.ctrls, Gather(cell, ues, st0, n), i)
    decreases n
  {
    hide UesOk, StateOk, VisitNext, Considered;
    var g := Gather(cell, ues, st0, n - 1);
    NotVisitedYet(cell, ues, st0, n - 1);
    if Sum(g.st.remain) == 0 {
      NoUesNoVisit(cell, ues, n - 1, g);
    } else if i == n - 1 {
      VisitConsiders(cell, ues, st0.ctrls, i, g);
    } else {
      EveryoneConsidered(cell, ues, st0, n - 1, i);
      VisitKeeps(cell, ues, st0.ctrls, n - 1, g, i);
    }
  }

  lemma {:induction false} NotVisitedYet(cell: Cell, ues: seq<Ue>, st0: State, n: nat)
    requires UesOk(cell, ues) && StateOk(cell, |ues|, st0) && n < |ues| && st0.made == []
    ensures |st0.ctrls| == |ues| == |Gather(cell, ues, st0, n).st.ctrls|
    ensures Gather(cell, ues, st0, n).st.ctrls[n] == st0.ctrls[n]
  {
    GatherGathering(cell, ues, st0, n);
  }

  ghost predicate MadeNew(made: seq<Made>, i: nat) {
    exists k :: 0 <= k < |made| && made[k].NewData? && made[k].ue == i
  }

  /** One turn of the second loop makes a grant for its UE exactly if GrantFor finds one. */
  lemma {:induction false} ServeMakes(cell: Cell, ues: seq<Ue>, c: Cand, st: State, i: nat)
    requires UesOk(cell, ues) && StateOk(cell, |ues|, st) && c.ue < |ues| && st.ctrls[c.ue].available != []
    ensures MadeNew(Serve(cell, ues, c, st).made, i)
            <==> MadeNew(st.made, i) || (c.ue == i && GrantFor(cell, ues[c.ue], c, st).Some?)
  {
    Results.ServeAdds(cell, ues, c, st);
    hide H.Inv, H.Post, H.Postable, GrantFor, StateOk, UesOk;
    var (made, made') := (st.made, Serve(cell, ues, c, st).made);
    if GrantFor(cell, ues[c.ue], c, st).Some? {
      assert made'[|made|].NewData? && made'[|made|].ue == c.ue;
      if k :| 0 <= k < |made| && made[k].NewData? && made[k].ue == i {
        assert made'[k] == made[k];
      }
    }
  }

  lemma {:induction false} NoneNew(made: seq<Made>, i: nat)
    requires forall j :: 0 <= j < |made| ==> made[j].Retransmission?
    ensures !MadeNew(made, i)
  {
  }

  lemma {:induction false} NewAfterTurns(cell: Cell, ues: seq<Ue>, order: seq<Cand>, st: State, n: nat, k: nat)
    requires UesOk(cell, ues) && StateOk(cell, |ues|, st) && Ready(st.ctrls, order) && n <= |order| && k < |order|
    requires forall j :: 0 <= j < |st.made| ==> st.made[j].Retransmission?
    ensures order[k].ue < |ues| && StateOk(cell, |ues|, Allocate(cell, ues, order, st, k))
    ensures MadeNew(Allocate(cell, ues, order, st, n).made, order[k].ue)
            <==> k < n && GrantFor(cell, ues[order[k].ue], order[k], Allocate(cell, ues, order, st, k)).Some?
    decreases n
  {
    hide UesOk, Serve, GrantFor, MadeNew, H.Inv;
    if n == 0 {
      NoneNew(st.made, order[k].ue);
    } else {
      NewAfterTurns(cell, ues, order, st, n - 1, k);
      ServeMakes(cell, ues, order[n - 1], Allocate(cell, ues, order, st, n - 1), order[k].ue);
    }
  }

  /** A candidate is given new data exactly if at its turn there is a beam with UEs and blocks left, a beam
      for the DCI, a CCE, and a free run that holds its minimum. */
  lemma {:induction false} GrantedExactly(cell: Cell, ues: seq<Ue>, st0: State, order: seq<Cand>, st: State, k: nat)
    requires Call(cell, ues, st0, order, st) && k < |order|
    ensures order[k].ue < |ues|
    ensures var u := ues[order[k].ue];
            var q := Rb.UlRequest(u.bwpStart, u.bwpSize, u.posture.minRb, order[k].inactive);
            var s := Allocate(cell, ues, order, Gather(cell, ues, st0, |ues|).st, k);
            && u.beam2 < |s.remain| == |s.budget| == |s.masks|
            && (MadeNew(st.made, order[k].ue)
                <==> && 0 <= u.beam2 && s.remain[u.beam2] != 0 && s.budget[u.beam2] >= u.posture.minRb
                     && u.dci2 && u.cce && Rb.UlFits(s.masks[u.beam2], q, cell.symbols))
  {
    var g := Gather(cell, ues, st0, |ues|);
    GatherCands(cell, ues, st0, |ues|);
    Results.MadeRetransmissions(cell, ues, g);
    NewAfterTurns(cell, ues, order, g.st, |order|, k);
    hide Gather, Allocate, CandsOk, Ready, Rb.UlFits;
    assert UeOk(cell, ues[order[k].ue]);
  }

  // ----- in plain terms

  /** Every new grant went to a UE with more data reported than was scheduled before the call, or due to be
      polled; and to one that had no retransmission pending, a free process, and no failure or interruption. */
  lemma {:induction false} NewDataHasReason(cell: Cell, ues: seq<Ue>, st0: State, order: seq<Cand>, st: State, k: nat)
    requires Call(cell, ues, st0, order, st) && k < |st.made| && st.made[k].NewData?
    ensures var i := st.made[k].ue;
            && i < |ues| && i < |st0.ctrls|
            && (ues[i].doSched || ues[i].estimated > st0.ctrls[i].schedUlBytes)
            && st0.ctrls[i].retrans == [] && st0.ctrls[i].available != []
            && !ues[i].ulFailure && !ues[i].interrupted && ues[i].dci && ues[i].beam >= 0
            && ues[i].dci2 && ues[i].cce && ues[i].beam2 == st.made[k].beam
  {
    GrantsJustified(cell, ues, st0, order, st);
    assert Justified(cell, ues, st0.ctrls, st.made[k]);
    hide Call;
  }

  /** Every retransmission went to a UE without failure, for the head of its retransmission list, whose saved
      block it repeats. */
  lemma {:induction false} RetransmissionHasReason(
      cell: Cell, ues: seq<Ue>, st0: State, order: seq<Cand>, st: State, k: nat)
    requires Call(cell, ues, st0, order, st) && k < |st.made| && st.made[k].Retransmission?
    ensures var (i, tx) := (st.made[k].ue, st.made[k].tx);
            && i < |ues| && i < |st0.ctrls| && !ues[i].ulFailure && ues[i].dci && ues[i].beam == st.made[k].beam
            && st0.ctrls[i].retrans != [] && tx.pid == st0.ctrls[i].retrans[0] && st0.ctrls[i].Has(tx.pid)
            && tx.tbSize == st0.ctrls[i].procs[tx.pid].saved.tbSize && tx.ndi == st0.ctrls[i].procs[tx.pid].ndi
  {
    GrantsJustified(cell, ues, st0, order, st);
    assert Justified(cell, ues, st0.ctrls, st.made[k]);
    hide Call;
  }

  /** The converse for the first loop, while limits remain: every UE with a free process and more data reported
      than scheduled, or due to be polled, is a candidate unless something stands against it; and a pending
      retransmission whose attempt succeeds is granted. */
  lemma {:induction false} EveryoneWithReasonConsidered(cell: Cell, ues: seq<Ue>, st0: State, i: nat)
    requires UesOk(cell, ues) && StateOk(cell, |ues|, st0) && i < |ues| && st0.made == []
    requires Sum(Gather(cell, ues, st0, |ues|).st.remain) != 0
    requires !ues[i].ulFailure && ues[i].dci && ues[i].beam >= 0
    ensures |st0.ctrls| == |ues|
    ensures var (u, c, g) := (ues[i], st0.ctrls[i], Gather(cell, ues, st0, |ues|));
            if c.retrans == []
            then c.available != [] && !u.interrupted && (u.doSched || u.estimated > c.schedUlBytes) ==>
                   exists k :: 0 <= k < |g.cands| && g.cands[k].ue == i
            else c.Has(c.retrans[0])
                 && (u.attempt == H.Reuse(true, true, u.attempt.slot)
                     || u.attempt == H.Refit(true, c.procs[c.retrans[0]].saved.tbSize, true, u.attempt.slot) ==>
                       exists k :: 0 <= k < |g.st.made| && g.st.made[k].ue == i)
  {
    EveryoneConsidered(cell, ues, st0, |ues|, i);
    var c := st0.ctrls[i];
    hide Gather, UesOk;
    if c.retrans != [] {
      H.InvKnown(cell.harq, c, c.retrans[0]);
      H.RetransmissionExactly(c, ues[i].attempt);
    }
  }

  /** What a candidate is granted at its turn: from the first free block of its BWP, as many as power, demand
      and slice allow, by the settings of the UE. */
  lemma {:induction false} NewGrantExactly(cell: Cell, u: Ue, c: Cand, st: State)
    requires UeOk(cell, u) && StateOk(cell, |st.ctrls|, st) && GrantFor(cell, u, c, st).Some? && u.posture.minRb >= 1
    ensures 0 <= u.beam2 < |st.masks|
    ensures var (g, l, minRb) := (GrantFor(cell, u, c, st).value, Policy.Get(u.slice).ul, u.posture.minRb);
            var found := if c.inactive then minRb else Max(minRb, Min(u.demandRb, g.available));
            var raised := Max(found, Min(l.floor, g.available));
            && g.bwpStart == u.bwpStart && g.Hi() <= u.bwpStart + u.bwpSize && minRb <= g.available
            && Rb.AllFree(st.masks[u.beam2], g.Lo(), g.Lo() + g.available, cell.symbols)
            && (forall rb :: u.bwpStart <= rb < g.Lo() ==> !Rb.Free(st.masks[u.beam2], rb, cell.symbols))
            && g.available <= Max(minRb, u.powerRb) && (c.inactive ==> g.available == minRb)
            && g.rbSize == if l.cap > 0 then Min(raised, l.cap) else raised
  {
    GrantMeans(cell, u, c, st);
    hide H.Inv, GrantFor;
    var (mask, q, z) := (st.masks[u.beam2], Request(u, c), SizingOf(u));
    Rb.UlGrantSize(mask, q, z, cell.symbols);
    Rb.UlGrantSound(mask, q, z, cell.symbols);
    Rb.UlRunLength(mask, q, cell.symbols);
  }
}
