/**
  How many UEs a call of pf_ul may grant on a beam. The limit is a budget per beam, but while UEs are
  collected only the sum over all beams is looked at.
 */
module PfUlLimits {
  import opened Basics
  import opened PfUlOrder
  import opened PfUl
  import opened PfUlResults
  import opened Tda
  import H = UlHarq
  import Runs = UlHarqRuns
  import Rb = RbAllocator
  import Limit = SliceLimiter
  import Policy = SlicePolicy

  // ----- where the limit is kept

  lemma {:induction false} NothingWithoutUes(cell: Cell, ues: seq<Ue>, st0: State, n: nat)
    requires UesOk(cell, ues) && StateOk(cell, |ues|, st0) && n <= |ues| && Sum(st0.remain) == 0 && st0.made == []
    ensures Gather(cell, ues, st0, n) == Gathered(st0, [])
  {
    if n > 0 {
      NothingWithoutUes(cell, ues, st0, n - 1);
    }
  }

  lemma {:induction false} NoUesNoGrants(cell: Cell, ues: seq<Ue>, st0: State, order: seq<Cand>, st: State)
    requires Call(cell, ues, st0, order, st) && cell.maxUe == 0
    ensures st.made == []
  {
    hide Gather, StateOk, UesOk;
    SumConstant(cell.numBeams, 0);
    assert Initial(cell, st0.ctrls, st0.budget, st0.masks).remain == seq(cell.numBeams, i => 0);
    NothingWithoutUes(cell, ues, st0, |ues|);
    NoCandidates(order);
  }

  lemma {:induction false} NoCandidates(order: seq<Cand>)
    requires Ordering([], order)
    ensures order == []
  {
    assert |multiset(order)| == |order|;
  }

  /** Without HARQ, or with a single round, there are no retransmissions. */
  ghost predicate NoRetransmissions(cfg: H.Config) {
    cfg.disableHarq || cfg.roundMax < 2
  }

  lemma {:induction false} RetransmissionNeedsRounds(cfg: H.Config, c: H.Ctrl)
    requires H.Inv(cfg, c) && c.retrans != []
    ensures !NoRetransmissions(cfg)
  {
    H.InvKnown(cfg, c, c.retrans[0]);
    assert H.ProcOk(cfg, c, c.retrans[0]);
  }

  lemma {:induction false} VisitChargesNothing(cell: Cell, ues: seq<Ue>, i: nat, g: Gathered)
    requires UesOk(cell, ues) && i < |ues| && StateOk(cell, |ues|, g.st) && NoRetransmissions(cell.harq)
    ensures VisitNext(cell, ues, i, g).st == g.st
  {
    if g.st.ctrls[i].retrans != [] {
      RetransmissionNeedsRounds(cell.harq, g.st.ctrls[i]);
    }
  }

  lemma {:induction false} GatherChargesNothing(cell: Cell, ues: seq<Ue>, st0: State, n: nat)
    requires UesOk(cell, ues) && StateOk(cell, |ues|, st0) && n <= |ues| && NoRetransmissions(cell.harq)
    ensures Gather(cell, ues, st0, n).st == st0
  {
    hide UesOk, StateOk, NoRetransmissions, VisitNext;
    if n > 0 {
      GatherChargesNothing(cell, ues, st0, n - 1);
      VisitChargesNothing(cell, ues, n - 1, Gather(cell, ues, st0, n - 1));
    }
  }

  /** The second loop looks at each beam's own budget, so it never overdraws one. */
  ghost predicate NotOverdrawn(st: State) {
    forall b :: 0 <= b < |st.remain| ==> st.remain[b] >= 0
  }

  lemma {:induction false} ServeNotOverdrawn(cell: Cell, ues: seq<Ue>, c: Cand, st: State)
    requires UesOk(cell, ues) && StateOk(cell, |ues|, st) && c.ue < |ues| && st.ctrls[c.ue].available != []
    requires NotOverdrawn(st)
    ensures NotOverdrawn(Serve(cell, ues, c, st))
  {
    hide H.Inv, H.Post, H.Postable, GrantFor;
    if GrantFor(cell, ues[c.ue], c, st).Some? {
      GrantAdmitted(cell, ues[c.ue], c, st);
    }
  }

  lemma {:induction false} AllocateNotOverdrawn(cell: Cell, ues: seq<Ue>, order: seq<Cand>, st: State, n: nat)
    requires UesOk(cell, ues) && StateOk(cell, |ues|, st) && Ready(st.ctrls, order) && n <= |order|
    requires NotOverdrawn(st)
    ensures NotOverdrawn(Allocate(cell, ues, order, st, n))
  {
    hide UesOk, Serve, NotOverdrawn;
    if n > 0 {
      AllocateNotOverdrawn(cell, ues, order, st, n - 1);
      ServeNotOverdrawn(cell, ues, order[n - 1], Allocate(cell, ues, order, st, n - 1));
    }
  }

  lemma {:induction false} OnlyNewDataKeepsLimit(cell: Cell, ues: seq<Ue>, st0: State, order: seq<Cand>, st: State)
    requires Call(cell, ues, st0, order, st) && NoRetransmissions(cell.harq)
    ensures NotOverdrawn(st)
  {
    GatherChargesNothing(cell, ues, st0, |ues|);
    assert NotOverdrawn(st0);
    hide Gather, StateOk, UesOk, NotOverdrawn, NoRetransmissions;
    AllocateNotOverdrawn(cell, ues, order, st0, |order|);
  }

  /** One beam, no UEs at all, or no retransmissions. */
  predicate LimitIsSafe(cell: Cell) {
    cell.numBeams <= 1 || cell.maxUe == 0 || cell.harq.disableHarq || cell.harq.roundMax < 2
  }

  /** Then no call makes more grants on a beam than the limit allows. */
  lemma {:induction false} LimitHolds(cell: Cell, ues: seq<Ue>, st0: State, order: seq<Cand>, st: State, b: nat)
    requires Call(cell, ues, st0, order, st) && b < cell.numBeams && LimitIsSafe(cell)
    ensures MadeOn(st.made, b) <= cell.maxUe
  {
    if cell.maxUe == 0 {
      NoUesNoGrants(cell, ues, st0, order, st);
    } else {
      CallKeeps(cell, ues, st0, order, st);
      if NoRetransmissions(cell.harq) {
        OnlyNewDataKeepsLimit(cell, ues, st0, order, st);
      }
      hide Call, StateOk, GrantsOk;
      assert BeamAccounted(cell, st0.budget, st, b);
    }
  }

  // ----- where it is not

  /** A state that a UE reaches from a fresh one by some run. */
  ghost predicate Reached(cfg: H.Config, c: H.Ctrl) {
    exists n: nat, first: H.Ctrl, es: seq<Runs.Event> ::
      H.Fresh(first, n) && Runs.RunOk(cfg, Runs.Run(first, []))
      && c == Runs.RunAll(cfg, Runs.Run(first, []), es).c
  }

  /** A UE on beam 0 that can retransmit. */
  function RetransmittingUe(): Ue {
    Ue(false, true, 0, H.Reuse(true, true, 0), Marking(0, 0, {}), 0, false, false, 1.0, 0, Limit.Counter(-1, 0),
       Posture(1, 0, 1.0, 0, 1.0), false, -1, false, 0, 0, 0, 0, n => 0)
  }

  function RetransmittingCtrl(): H.Ctrl {
    H.Ctrl([], [], [0], [H.Proc(1, false, false, -1, H.Pusch(0, 1, 0))], 1, 0)
  }

  function Crowd(cell: Cell): (ues: seq<Ue>)
    ensures |ues| == cell.maxUe + 1
  {
    seq(cell.maxUe + 1, i => RetransmittingUe())
  }

  function CrowdState(cell: Cell): State {
    State(seq(cell.maxUe + 1, i => RetransmittingCtrl()), seq(cell.numBeams, b => cell.maxUe),
          seq(cell.numBeams, b => 0), seq(cell.numBeams, b => seq(cell.blocks, i => {})), [])
  }

  lemma {:induction false} RetransmittingInv(cfg: H.Config)
    requires cfg.roundMax >= 2 && !cfg.disableHarq
    ensures H.Inv(cfg, RetransmittingCtrl())
    ensures var (c, a) := (RetransmittingCtrl(), RetransmittingUe().attempt);
            H.RetransmissionGrant(c, a).Some? && H.Legitimate(c, H.RetransmissionGrant(c, a).value)
  {
    var c := RetransmittingCtrl();
    assert H.ProcOk(cfg, c, 0);
  }

  /** One new grant, and its PDU lost. */
  lemma {:induction false} RetransmittingReached(cfg: H.Config)
    requires cfg.roundMax >= 2 && !cfg.disableHarq
    ensures Reached(cfg, RetransmittingCtrl())
  {
    var first := H.Ctrl([0], [], [], [H.Proc(0, false, false, 0, H.Pusch(-1, 0, 0))], 0, 0);
    assert H.Fresh(first, 1);
    Runs.RunsAreOk(cfg, first, 1, []);
    var r := Runs.Run(first, []);
    var es := [Runs.NewGrant(1, 0), Runs.Pdu(0, None)];
    RunTwo(cfg, r, es[0], es[1]);
    assert Runs.RunAll(cfg, r, es).c == RetransmittingCtrl();
  }

  lemma {:induction false} RunTwo(cfg: H.Config, r: Runs.Run, d: Runs.Event, e: Runs.Event)
    requires Runs.RunOk(cfg, r)
    ensures Runs.RunOk(cfg, Runs.Step(cfg, r, d))
    ensures Runs.RunAll(cfg, r, [d, e]) == Runs.Step(cfg, Runs.Step(cfg, r, d), e)
  {
    Runs.StepRunOk(cfg, r, d);
    hide Runs.Step, Runs.RunOk;
    assert [d, e][1..] == [e] && [e][1..] == [];
    Runs.StepRunOk(cfg, Runs.Step(cfg, r, d), e);
    assert Runs.RunAll(cfg, Runs.Step(cfg, r, d), [e]) == Runs.Step(cfg, Runs.Step(cfg, r, d), e);
  }

  lemma {:induction false} CrowdOk(cell: Cell)
    requires cell.harq.roundMax >= 2 && !cell.harq.disableHarq && cell.numBeams >= 2
    ensures UesOk(cell, Crowd(cell)) && StateOk(cell, |Crowd(cell)|, CrowdState(cell))
    ensures var st0 := CrowdState(cell);
            st0 == Initial(cell, st0.ctrls, st0.budget, st0.masks) && CrowdServed(cell, Gathered(st0, []), 0)
  {
    RetransmittingInv(cell.harq);
    hide H.Inv;
  }

  ghost predicate CrowdServed(cell: Cell, g: Gathered, n: nat) {
    && g.cands == [] && |g.st.made| == n && MadeOn(g.st.made, 0) == n && |g.st.ctrls| == cell.maxUe + 1
    && (forall i :: n <= i <= cell.maxUe ==> g.st.ctrls[i] == RetransmittingCtrl())
  }

  /** Everyone in the crowd is given a retransmission. */
  lemma {:induction false} CrowdGathered(cell: Cell, n: nat)
    requires cell.harq.roundMax >= 2 && !cell.harq.disableHarq && cell.numBeams >= 2 && cell.maxUe >= 1
    requires n <= cell.maxUe + 1
    ensures UesOk(cell, Crowd(cell)) && StateOk(cell, |Crowd(cell)|, CrowdState(cell))
    ensures CrowdServed(cell, Gather(cell, Crowd(cell), CrowdState(cell), n), n)
    decreases n
  {
    hide StateOk, UesOk, CrowdServed, Visit, Crowd, CrowdState, Initial, CallInv;
    CrowdOk(cell);
    if n > 0 {
      var (ues, st0) := (Crowd(cell), CrowdState(cell));
      CrowdGathered(cell, n - 1);
      var g := Gather(cell, ues, st0, n - 1);
      GatherInv(cell, ues, st0, n - 1);
      CrowdStep(cell, g, n, st0);
    }
  }

  lemma {:induction false} CrowdStep(cell: Cell, g: Gathered, n: nat, st0: State)
    requires cell.harq.roundMax >= 2 && !cell.harq.disableHarq && cell.numBeams >= 2 && cell.maxUe >= 1
    requires 1 <= n <= cell.maxUe + 1
    requires UesOk(cell, Crowd(cell)) && StateOk(cell, cell.maxUe + 1, g.st)
    requires CrowdServed(cell, g, n - 1) && CallInv(cell, st0, g.st)
    ensures UeOk(cell, Crowd(cell)[n - 1]) && StateOk(cell, |g.st.ctrls|, g.st)
    ensures CrowdServed(cell, Visit(cell, Crowd(cell)[n - 1], n - 1, g), n)
  {
    LimitProduct(cell.numBeams, cell.maxUe);
    CrowdVisit(cell, n - 1, g);
    VisitElsewhere(cell, Crowd(cell), n - 1, g);
    hide StateOk, UesOk, Visit, GrantsOk;
    var (made, v) := (g.st.made, Visit(cell, Crowd(cell)[n - 1], n - 1, g));
    assert v.st.made[..|v.st.made| - 1] == made;
  }

  lemma {:induction false} LimitProduct(beams: nat, max: nat)
    requires beams >= 2
    ensures beams * max >= 2 * max
  {
  }

  lemma {:induction false} CrowdVisit(cell: Cell, i: nat, g: Gathered)
    requires i <= cell.maxUe && UesOk(cell, Crowd(cell)) && StateOk(cell, cell.maxUe + 1, g.st) && Sum(g.st.remain) != 0
    requires g.st.ctrls[i] == RetransmittingCtrl() && cell.harq.roundMax >= 2 && !cell.harq.disableHarq
    ensures UeOk(cell, RetransmittingUe()) && |g.st.ctrls| == cell.maxUe + 1 && StateOk(cell, |g.st.ctrls|, g.st)
    ensures var (made, v) := (g.st.made, Visit(cell, RetransmittingUe(), i, g));
            && v.cands == g.cands && |v.st.made| == |made| + 1 && v.st.made[..|made|] == made
                && v.st.made[|made|].beam == 0
  {
    assert UeOk(cell, Crowd(cell)[i]);
    RetransmittingInv(cell.harq);
  }

  /** With a cell whose limit is not safe, some call of UEs in reachable states makes more grants on beam 0
      than the limit allows: their retransmissions use up the budgets of the other beams. */
  lemma {:induction false} LimitFails(cell: Cell)
    requires !LimitIsSafe(cell)
    ensures exists ues, st0, order, st ::
              && Call(cell, ues, st0, order, st) && MadeOn(st.made, 0) > cell.maxUe
              && forall i :: 0 <= i < |st0.ctrls| ==> Reached(cell.harq, st0.ctrls[i])
  {
    CrowdCall(cell);
    RetransmittingReached(cell.harq);
    var (ues, st0) := (Crowd(cell), CrowdState(cell));
    hide Gather, StateOk, UesOk, Reached, Call;
    assert forall i :: 0 <= i < |st0.ctrls| ==> st0.ctrls[i] == RetransmittingCtrl();
    assert UesOk(cell, ues) && StateOk(cell, |ues|, st0);
    var st := Gather(cell, ues, st0, |ues|).st;
    assert Call(cell, ues, st0, [], st) && MadeOn(st.made, 0) > cell.maxUe;
  }

  lemma {:induction false} CrowdCall(cell: Cell)
    requires !LimitIsSafe(cell)
    ensures UesOk(cell, Crowd(cell)) && StateOk(cell, |Crowd(cell)|, CrowdState(cell))
    ensures var (ues, st0) := (Crowd(cell), CrowdState(cell));
            var st := Gather(cell, ues, st0, |ues|).st;
            Call(cell, ues, st0, [], st) && MadeOn(st.made, 0) > cell.maxUe
  {
    assert forall i :: 0 <= i < |Crowd(cell)| ==> Crowd(cell)[i].posture.minRb >= 1;
    hide Gather, StateOk, UesOk, Crowd, CrowdState, Initial, Call;
    CrowdGathered(cell, cell.maxUe + 1);
    CrowdOk(cell);
    CallWithoutCandidates(cell, Crowd(cell), CrowdState(cell));
  }

  lemma {:induction false} CallWithoutCandidates(cell: Cell, ues: seq<Ue>, st0: State)
    requires UesOk(cell, ues) && StateOk(cell, |ues|, st0) && forall i :: 0 <= i < |ues| ==> ues[i].posture.minRb >= 1
    requires st0 == Initial(cell, st0.ctrls, st0.budget, st0.masks) && Gather(cell, ues, st0, |ues|).cands == []
    ensures Call(cell, ues, st0, [], Gather(cell, ues, st0, |ues|).st)
  {
    hide Gather, StateOk, UesOk, Initial;
    assert Ready(Gather(cell, ues, st0, |ues|).st.ctrls, []);
  }

  ghost predicate KeepsLimit(cell: Cell, ues: seq<Ue>, st0: State, order: seq<Cand>, st: State) {
    Call(cell, ues, st0, order, st) ==> forall b: nat :: b < cell.numBeams ==> MadeOn(st.made, b) <= cell.maxUe
  }

  /** All calls of a cell keep the limit on all its beams exactly if it has one beam, a limit of 0, HARQ
      disabled, or a single HARQ round. */
  lemma {:induction false} LimitExactly(cell: Cell)
    ensures (forall ues, st0, order, st :: KeepsLimit(cell, ues, st0, order, st)) <==> LimitIsSafe(cell)
  {
    if LimitIsSafe(cell) {
      forall ues, st0, order, st
        ensures KeepsLimit(cell, ues, st0, order, st)
      {
        if Call(cell, ues, st0, order, st) {
          forall b: nat | b < cell.numBeams
            ensures MadeOn(st.made, b) <= cell.maxUe
          {
            LimitHolds(cell, ues, st0, order, st, b);
          }
        }
      }
    } else {
      LimitFails(cell);
      var ues, st0, order, st :| Call(cell, ues, st0, order, st) && MadeOn(st.made, 0) > cell.maxUe;
      assert !KeepsLimit(cell, ues, st0, order, st);
    }
  }

  // ----- the budget of blocks

  /** Before every new grant the beam's budget held the minimum of the UE. */
  ghost predicate Checked(ues: seq<Ue>, budget0: seq<int>, made: seq<Made>) {
    forall k :: 0 <= k < |made| && made[k].NewData? ==>
      && made[k].ue < |ues| && made[k].beam < |budget0|
      && NewBlocks(made[..k], made[k].beam) + ues[made[k].ue].posture.minRb <= budget0[made[k].beam]
  }

  lemma {:induction false} ServeChecked(cell: Cell, ues: seq<Ue>, c: Cand, st0: State, st: State)
    requires UesOk(cell, ues) && StateOk(cell, |ues|, st) && c.ue < |ues| && st.ctrls[c.ue].available != []
    requires Accounted(cell, st0.budget, st) && Checked(ues, st0.budget, st.made)
    ensures Checked(ues, st0.budget, Serve(cell, ues, c, st).made)
  {
    hide H.Inv, H.Post, H.Postable, GrantFor, NewBlocks;
    var (u, st') := (ues[c.ue], Serve(cell, ues, c, st));
    if GrantFor(cell, u, c, st).Some? {
      GrantAdmitted(cell, u, c, st);
      assert BeamAccounted(cell, st0.budget, st, u.beam2);
      assert st'.made[..|st.made|] == st.made;
      assert forall k :: 0 <= k < |st.made| ==> st'.made[..k] == st.made[..k] && st'.made[k] == st.made[k];
    }
  }

  lemma {:induction false} AllocateChecked(
      cell: Cell, ues: seq<Ue>, order: seq<Cand>, st0: State, st: State, n: nat)
    requires UesOk(cell, ues) && StateOk(cell, |ues|, st) && Ready(st.ctrls, order) && n <= |order|
    requires CallInv(cell, st0, st) && Checked(ues, st0.budget, st.made)
    requires forall i :: 0 <= i < |ues| ==> ues[i].posture.minRb >= 1
    ensures Checked(ues, st0.budget, Allocate(cell, ues, order, st, n).made)
  {
    hide UesOk, Serve, Checked, Accounted, GrantsOk;
    if n > 0 {
      AllocateChecked(cell, ues, order, st0, st, n - 1);
      AllocateInv(cell, ues, order, st0, st, n - 1);
      ServeChecked(cell, ues, order[n - 1], st0, Allocate(cell, ues, order, st, n - 1));
    }
  }

  lemma {:induction false} CallChecked(cell: Cell, ues: seq<Ue>, st0: State, order: seq<Cand>, st: State)
    requires Call(cell, ues, st0, order, st)
    ensures Checked(ues, st0.budget, st.made)
  {
    GatherInv(cell, ues, st0, |ues|);
    CallServed(cell, ues, st0, order, st);
    var g := Gather(cell, ues, st0, |ues|);
    assert Checked(ues, st0.budget, g.st.made) by {
      MadeRetransmissions(cell, ues, g);
    }
    hide Gather, Allocate, StateOk, UesOk, Ordering, Checked, CandsOk, Served, CallInv;
    AllocateChecked(cell, ues, order, st0, g.st, |order|);
  }

  /** k is the last new grant on its beam. */
  ghost predicate LastOn(made: seq<Made>, k: nat, b: nat) {
    && k < |made| && made[k].NewData? && made[k].beam == b
    && forall j :: k < j < |made| ==> !(made[j].NewData? && made[j].beam == b)
  }

  lemma {:induction false} NewBlocksToLast(made: seq<Made>, k: nat, b: nat)
    requires LastOn(made, k, b)
    ensures NewBlocks(made, b) == NewBlocks(made[..k], b) + made[k].grant.rbSize
    decreases |made|
  {
    var n := |made| - 1;
    if k < n {
      NewBlocksToLast(made[..n], k, b);
      assert made[..n][..k] == made[..k];
    }
  }

  /** New grants on a beam overdraw its blocks by no more than the last of them exceeds the minimum of its
      UE: all others lay within the budget, with that minimum to spare. */
  lemma {:induction false} BlocksWithinBudget(
      cell: Cell, ues: seq<Ue>, st0: State, order: seq<Cand>, st: State, k: nat, b: nat)
    requires Call(cell, ues, st0, order, st) && LastOn(st.made, k, b)
    ensures b < |st0.budget| && st.made[k].ue < |ues|
    ensures var minRb := ues[st.made[k].ue].posture.minRb;
            && NewBlocks(st.made[..k], b) + minRb <= st0.budget[b]
            && NewBlocks(st.made, b) <= st0.budget[b] + st.made[k].grant.rbSize - minRb
  {
    CallChecked(cell, ues, st0, order, st);
    NewBlocksToLast(st.made, k, b);
  }

  // ----- a lone throttled UE

  /** It was granted at the tick before, may be granted one tick in a row, and wants two blocks. */
  function LoneUe(): Ue {
    Ue(false, true, 0, H.Reuse(false, false, 0), Marking(0, 0, {}), 100, false, false, 1.0, 0, Limit.Counter(4, 1),
       Posture(1, 1, 1.0, 0, 1.0), true, 0, true, 0, 2, 2, 2, n => n)
  }

  function LoneCell(): Cell {
    Cell(H.Config(4, false), 1, 1, {0}, 0, 5, 2)
  }

  function LoneState(): State {
    State([H.Ctrl([0], [], [], [H.Proc(0, false, false, 0, H.Pusch(-1, 0, 0))], 0, 0)], [1], [1], [[{}, {}]], [])
  }

  lemma {:induction false} LoneOk()
    ensures UesOk(LoneCell(), [LoneUe()]) && StateOk(LoneCell(), 1, LoneState())
    ensures var st0 := LoneState(); st0 == Initial(LoneCell(), st0.ctrls, st0.budget, st0.masks)
    ensures Throttled(LoneCell(), LoneUe())
  {
    H.FreshInv(LoneCell().harq, LoneState().ctrls[0], 1);
    hide H.Inv;
    assert seq(1, b => 1) == [1];
  }

  /** All it needs is there: the search finds both blocks, and nothing else limits the size. */
  lemma {:induction false} LoneRun(c: Cand)
    requires c.ue == 0 && !c.inactive
    ensures UesOk(LoneCell(), [LoneUe()]) && StateOk(LoneCell(), 1, LoneState())
    ensures GrantFor(LoneCell(), LoneUe(), c, LoneState()) == Some(Rb.Grant(0, 0, 2, 2))
  {
    LoneOk();
    hide StateOk, UesOk;
    var (mask, q) := (LoneState().masks[0], Request(LoneUe(), c));
    assert Rb.Free(mask, 0, {0}) && Rb.Free(mask, 1, {0});
    assert Rb.UlStart(mask, q, {0}) == 0;
    assert Rb.UlAvailable(mask, q, {0}) == 2;
    Policy.GetRow(0);
    assert Policy.Get(0) == Policy.POLICIES[0];
  }

  /** What the lone UE's call collects. */
  lemma {:induction false} LoneGathered(c: Cand)
    requires c == Cand(0, 0.0, false)
    ensures UesOk(LoneCell(), [LoneUe()]) && StateOk(LoneCell(), 1, LoneState())
    ensures Gather(LoneCell(), [LoneUe()], LoneState(), 1) == Gathered(LoneState(), [c])
  {
    LoneOk();
    var (cell, ues, st0) := (LoneCell(), [LoneUe()], LoneState());
    assert Sum(st0.remain) == 1 by {
      assert [1][..0] == [];
    }
    assert CandOf(cell, ues[0], st0.ctrls[0], 0) == Some(c);
    assert Gather(cell, ues, st0, 0) == Gathered(st0, []);
    assert [] + [c] == [c];
  }

  /** A throttled UE is granted like any other where nobody else wants the blocks, and a single grant can
      take more blocks than the budget has. */
  lemma {:induction false} ThrottledIsGranted()
    ensures var (cell, ues, st0) := (LoneCell(), [LoneUe()], LoneState());
            && Throttled(cell, ues[0])
            && exists order, st :: Call(cell, ues, st0, order, st)
                 && |st.made| == 1 && st.made[0].NewData? && st.made[0].ue == 0
                 && NewBlocks(st.made, 0) > st0.budget[0]
  {
    var (cell, ues, st0) := (LoneCell(), [LoneUe()], LoneState());
    var c := Cand(0, 0.0, false);
    LoneOk();
    LoneGathered(c);
    LoneRun(c);
    hide StateOk, UesOk, Gather, GrantFor, Initial, Throttled, H.Inv, Rb.MarkGrant;
    assert Ordering([c], [c]) && Ready(st0.ctrls, [c]);
    assert Allocate(cell, ues, [c], st0, 0) == st0;
    var st := Allocate(cell, ues, [c], st0, 1);
    ServeAdds(cell, ues, c, st0);
    assert st == Serve(cell, ues, c, st0) == Granted(cell, ues[0], 0, st0, Rb.Grant(0, 0, 2, 2));
    assert st.made[..0] == [];
    assert Call(cell, ues, st0, [c], st);
  }
}
