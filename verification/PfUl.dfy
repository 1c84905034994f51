/**
  One call of pf_ul: retransmissions and the collection of UEs with new data in list order, sorting,
  then new grants in sorted order, against per-beam budgets of UEs and resource blocks.

  What happens outside (beam and CCE allocation, the resources of a retransmission, the timers, the
  transport block size tables) is part of the input, per UE.
 */
module PfUl {
  import opened Basics
  import opened PfUlOrder
  import opened Tda
  import H = UlHarq
  import Runs = UlHarqRuns
  import Rb = RbAllocator
  import Policy = SlicePolicy
  import Limit = SliceLimiter

  /** The settings of a UE after the posture getters. */
  datatype Posture = Posture(minRb: nat, maxGrants: int, mul: real, burstBytes: int, burstMul: real)

  /** Blocks lo, ..., hi - 1 and symbols that the retransmission's marking loop takes. */
  datatype Marking = Marking(lo: int, hi: int, symbols: Symbols)

  /** Beam indices are negative if no beam could be allocated. The first beam is that of the collection
      phase, the second that of the allocation phase; the dci flags say whether the DCI's beam was there. */
  datatype Ue = Ue(
    ulFailure: bool, dci: bool, beam: int, attempt: H.Attempt, marking: Marking,
    estimated: int, doSched: bool, interrupted: bool,
    rate: real, slice: int, counter: Limit.Counter, posture: Posture,
    dci2: bool, beam2: int, cce: bool,
    bwpStart: nat, bwpSize: nat, powerRb: nat, demandRb: nat, tbs: nat -> nat)

  datatype Cell = Cell(harq: H.Config, numBeams: nat, maxUe: nat, symbols: Symbols, slot: nat, tick: int, blocks: nat)

  datatype Made =
    | Retransmission(ue: nat, beam: nat, tx: H.Tx)
    | NewData(ue: nat, beam: nat, tx: H.Tx, grant: Rb.Grant)

  datatype State = State(
    ctrls: seq<H.Ctrl>, remain: seq<int>, budget: seq<int>, masks: seq<seq<Symbols>>, made: seq<Made>)

  ghost predicate UeOk(cell: Cell, u: Ue) {
    && u.beam < cell.numBeams && u.beam2 < cell.numBeams && u.bwpStart + u.bwpSize <= cell.blocks
    && 0 <= u.marking.lo && u.marking.hi <= cell.blocks
  }

  ghost predicate UesOk(cell: Cell, ues: seq<Ue>) {
    forall i :: 0 <= i < |ues| ==> UeOk(cell, ues[i])
  }

  /** UL HARQ invariants hold for all UEs, and the tables have an entry per beam. */
  ghost predicate StateOk(cell: Cell, n: nat, st: State) {
    && |st.ctrls| == n && |st.remain| == cell.numBeams && |st.budget| == cell.numBeams && |st.masks| == cell.numBeams
    && (forall i :: 0 <= i < n ==> H.Inv(cell.harq, st.ctrls[i]))
    && (forall b :: 0 <= b < cell.numBeams ==> |st.masks[b]| == cell.blocks)
  }

  // ----- a UE's coefficient

  function Backlog(u: Ue, c: H.Ctrl): nat {
    H.Floor0(u.estimated - c.schedUlBytes)
  }

  function MaxGrants(u: Ue): int {
    if u.posture.maxGrants > 0 then u.posture.maxGrants else Policy.Get(u.slice).ul.maxGrants
  }

  function Throttled(cell: Cell, u: Ue): bool {
    Limit.Throttles(u.counter, cell.tick, MaxGrants(u))
  }

  function FactorsOf(cell: Cell, u: Ue, backlog: nat): Factors {
    Factors(u.rate, Policy.Get(u.slice).ul.weight,
            if 0 < u.posture.burstBytes && 0 < backlog <= u.posture.burstBytes then u.posture.burstMul else 1.0,
            u.posture.mul, Throttled(cell, u))
  }

  /** A UE that wants data and may get it. */
  function CandOf(cell: Cell, u: Ue, c: H.Ctrl, i: nat): Option<Cand> {
    var b := Backlog(u, c);
    if c.available == [] || (b == 0 && !u.doSched) || u.interrupted then None
    else Some(Cand(i, Coefficient(FactorsOf(cell, u, b)), b == 0 && u.doSched))
  }

  /** Who may be given new data: UEs that have a free process and are not interrupted, with more data reported
      than is scheduled already, or due to be polled. Without data the grant is one for inactivity. */
  lemma {:induction false} CandMeans(cell: Cell, u: Ue, c: H.Ctrl, i: nat)
    ensures CandOf(cell, u, c, i).Some?
            <==> c.available != [] && !u.interrupted && (u.estimated > c.schedUlBytes || u.doSched)
    ensures CandOf(cell, u, c, i).Some? ==>
              var x := CandOf(cell, u, c, i).value;
              x.ue == i && x.inactive == (u.estimated <= c.schedUlBytes)
  {
  }

  /** Its coefficient: rate and slice weight, the burst factor if what is left to schedule is a small burst,
      and the UE's own factor. */
  lemma {:induction false} CandCoefficient(cell: Cell, u: Ue, c: H.Ctrl, i: nat)
    requires CandOf(cell, u, c, i).Some? && !Throttled(cell, u)
    ensures var left := u.estimated - c.schedUlBytes;
            CandOf(cell, u, c, i).value.coef
            == u.rate * Policy.Get(u.slice).ul.weight
               * (if u.posture.burstBytes > 0 && 0 < left <= u.posture.burstBytes then u.posture.burstMul else 1.0)
               * u.posture.mul
  {
  }

  /** A UE is throttled if it was granted at each of the last ticks, as many as its own limit says or, without
      one, that of its slice; a limit of 0 is none. */
  lemma {:induction false} ThrottledMeans(cell: Cell, u: Ue, t: seq<int>)
    requires Limit.Measures(u.counter, t)
    ensures u.posture.maxGrants > 0 ==> (Throttled(cell, u) <==> Limit.Row(t, cell.tick, u.posture.maxGrants))
    ensures var max := Policy.Get(u.slice).ul.maxGrants;
            u.posture.maxGrants <= 0 ==> (Throttled(cell, u) <==> max > 0 && Limit.Row(t, cell.tick, max))
  {
    Limit.ThrottleExact(u.counter, t, cell.tick, MaxGrants(u));
  }

  // ----- first phase

  function Sum(s: seq<int>): int {
    if s == [] then 0 else Sum(s[..|s| - 1]) + s[|s| - 1]
  }

  lemma {:induction false} SumUpdate(s: seq<int>, b: nat, x: int)
    requires b < |s|
    ensures Sum(s[b := x]) == Sum(s) - s[b] + x
  {
    if b < |s| - 1 {
      assert s[b := x][..|s| - 1] == s[..|s| - 1][b := x];
      SumUpdate(s[..|s| - 1], b, x);
    } else {
      assert s[b := x][..|s| - 1] == s[..|s| - 1];
    }
  }

  /** Post for UE i, one UE less for the beam. */
  ghost function Charge(
      cell: Cell, i: nat, b: nat, st: State, sched: H.Pusch, masks: seq<seq<Symbols>>, budget: seq<int>,
      m: Made): State
    requires i < |st.ctrls| && b < |st.remain| && H.Postable(cell.harq, st.ctrls[i], sched)
  {
    State(st.ctrls[i := H.Post(cell.harq, st.ctrls[i], sched).0], st.remain[b := st.remain[b] - 1], budget, masks,
        st.made + [m])
  }

  /** The retransmission of the head of the retransmission list. The budget of blocks is not charged. */
  ghost function Retransmit(cell: Cell, u: Ue, i: nat, st: State): State
    requires UeOk(cell, u) && u.beam >= 0 && i < |st.ctrls| && StateOk(cell, |st.ctrls|, st)
    requires st.ctrls[i].retrans != []
  {
    Runs.RetransmissionLegitimate(cell.harq, st.ctrls[i], u.attempt);
    var g := H.RetransmissionGrant(st.ctrls[i], u.attempt);
    if g.None? then st
    else
      H.PostInv(cell.harq, st.ctrls[i], g.value);
      Charge(cell, i, u.beam, st, g.value,
             st.masks[u.beam := Rb.Mark(st.masks[u.beam], u.marking.lo, u.marking.hi, u.marking.symbols)], st.budget,
             Retransmission(i, u.beam, H.Post(cell.harq, st.ctrls[i], g.value).1))
  }

  /** What a retransmission does to the cell: the beam has one UE less, its mask the symbols in the blocks of
      the retransmission, and its budget of blocks is as before. */
  lemma {:induction false} RetransmitExactly(cell: Cell, u: Ue, i: nat, st: State, rb: nat)
    requires UeOk(cell, u) && u.beam >= 0 && i < |st.ctrls| && StateOk(cell, |st.ctrls|, st)
    requires st.ctrls[i].retrans != [] && rb < cell.blocks
    ensures H.Inv(cell.harq, st.ctrls[i]) && st.ctrls[i].Has(st.ctrls[i].retrans[0])
    ensures var (b, st') := (u.beam, Retransmit(cell, u, i, st));
            if H.RetransmissionGrant(st.ctrls[i], u.attempt).None? then st' == st
            else && st'.budget == st.budget && st'.remain == st.remain[b := st.remain[b] - 1]
                 && |st'.masks| == cell.numBeams && |st'.masks[b]| == cell.blocks
                 && st'.masks == st.masks[b := st'.masks[b]]
                 && st'.masks[b][rb]
                    == st.masks[b][rb] + if u.marking.lo <= rb < u.marking.hi then u.marking.symbols else {}
  {
    H.InvKnown(cell.harq, st.ctrls[i], st.ctrls[i].retrans[0]);
    hide H.Inv, H.Post, H.Postable, H.RetransmissionGrant;
  }

  datatype Gathered = Gathered(st: State, cands: seq<Cand>)

  ghost function Visit(cell: Cell, u: Ue, i: nat, g: Gathered): Gathered
    requires UeOk(cell, u) && i < |g.st.ctrls| && StateOk(cell, |g.st.ctrls|, g.st)
  {
    if u.ulFailure || Sum(g.st.remain) == 0 || !u.dci || u.beam < 0 then g
    else if g.st.ctrls[i].retrans != [] then Gathered(Retransmit(cell, u, i, g.st), g.cands)
    else
      match CandOf(cell, u, g.st.ctrls[i], i)
      case None => g
      case Some(c) => Gathered(g.st, g.cands + [c])
  }

  ghost function VisitNext(cell: Cell, ues: seq<Ue>, i: nat, g: Gathered): (g': Gathered)
    requires UesOk(cell, ues) && i < |ues| && StateOk(cell, |ues|, g.st)
    ensures StateOk(cell, |ues|, g'.st)
  {
    VisitOk(cell, ues, i, g);
    Visit(cell, ues[i], i, g)
  }

  /** The first n UEs of the list. */
  ghost function Gather(cell: Cell, ues: seq<Ue>, st: State, n: nat): (g: Gathered)
    requires UesOk(cell, ues) && StateOk(cell, |ues|, st) && n <= |ues|
    ensures StateOk(cell, |ues|, g.st)
  {
    if n == 0 then Gathered(st, []) else VisitNext(cell, ues, n - 1, Gather(cell, ues, st, n - 1))
  }

  lemma {:induction false} ChargeOk(
      cell: Cell, i: nat, b: nat, st: State, sched: H.Pusch, masks: seq<seq<Symbols>>, budget: seq<int>, m: Made)
    requires i < |st.ctrls| && b < cell.numBeams && StateOk(cell, |st.ctrls|, st) && H.Legitimate(st.ctrls[i], sched)
    requires |masks| == cell.numBeams && (forall x :: 0 <= x < |masks| ==> |masks[x]| == cell.blocks)
        && |budget| == cell.numBeams
    ensures H.Postable(cell.harq, st.ctrls[i], sched)
    ensures StateOk(cell, |st.ctrls|, Charge(cell, i, b, st, sched, masks, budget, m))
  {
    H.PostInv(cell.harq, st.ctrls[i], sched);
    hide H.Inv, H.Post, H.Postable, H.Legitimate;
  }

  lemma {:induction false} VisitOk(cell: Cell, ues: seq<Ue>, i: nat, g: Gathered)
    requires UesOk(cell, ues) && i < |ues| && StateOk(cell, |ues|, g.st)
    ensures UeOk(cell, ues[i]) && |g.st.ctrls| == |ues| && StateOk(cell, |g.st.ctrls|, g.st)
    ensures StateOk(cell, |ues|, Visit(cell, ues[i], i, g).st)
  {
    var u := ues[i];
    hide H.Inv, H.Legitimate, H.RetransmissionGrant, Charge;
    var c := g.st.ctrls[i];
    if c.retrans != [] && u.beam >= 0 {
      Runs.RetransmissionLegitimate(cell.harq, c, u.attempt);
      var s := H.RetransmissionGrant(c, u.attempt);
      if s.Some? {
        H.PostInv(cell.harq, c, s.value);
        ChargeOk(cell, i, u.beam, g.st, s.value,
                 g.st.masks[u.beam := Rb.Mark(g.st.masks[u.beam], u.marking.lo, u.marking.hi, u.marking.symbols)],
                 g.st.budget,
                 Retransmission(i, u.beam, H.Post(cell.harq, c, s.value).1));
      }
    }
  }

  // ----- second phase

  function Request(u: Ue, c: Cand): Rb.UlRequest {
    Rb.UlRequest(u.bwpStart, u.bwpSize, u.posture.minRb, c.inactive)
  }

  function SizingOf(u: Ue): Rb.Sizing {
    Rb.Sizing(u.powerRb, u.demandRb, Policy.Get(u.slice).ul.floor, Policy.Get(u.slice).ul.cap)
  }

  /** There is a beam with UEs and blocks left, a beam for the DCI, and a CCE. */
  predicate Admitted(u: Ue, remain: seq<int>, budget: seq<int>)
    requires u.beam2 < |remain| == |budget|
  {
    && 0 <= u.beam2 && remain[u.beam2] != 0 && budget[u.beam2] >= u.posture.minRb && u.dci2 && u.cce
  }

  ghost function GrantFor(cell: Cell, u: Ue, c: Cand, st: State): Option<Rb.Grant>
    requires UeOk(cell, u) && StateOk(cell, |st.ctrls|, st)
  {
    if !Admitted(u, st.remain, st.budget) then None
    else Rb.UlGrant(st.masks[u.beam2], Request(u, c), SizingOf(u), cell.symbols)
  }

  function NewPusch(cell: Cell, u: Ue, g: Rb.Grant): H.Pusch {
    H.Pusch(-1, u.tbs(g.rbSize), cell.slot)
  }

  /** The state after a new grant. */
  ghost function Granted(cell: Cell, u: Ue, i: nat, st: State, g: Rb.Grant): State
    requires i < |st.ctrls| && 0 <= u.beam2 < |st.remain| == |st.budget| == |st.masks|
    requires H.Inv(cell.harq, st.ctrls[i]) && st.ctrls[i].available != []
  {
    H.PostInv(cell.harq, st.ctrls[i], NewPusch(cell, u, g));
    Charge(cell, i, u.beam2, st, NewPusch(cell, u, g),
           st.masks[u.beam2 := Rb.MarkGrant(st.masks[u.beam2], g, cell.symbols)],
           st.budget[u.beam2 := st.budget[u.beam2] - g.rbSize],
           NewData(i, u.beam2, H.Post(cell.harq, st.ctrls[i], NewPusch(cell, u, g)).1, g))
  }

  ghost function Serve(cell: Cell, ues: seq<Ue>, c: Cand, st: State): State
    requires UesOk(cell, ues) && StateOk(cell, |ues|, st) && c.ue < |ues| && st.ctrls[c.ue].available != []
  {
    var g := GrantFor(cell, ues[c.ue], c, st);
    if g.None? then st else Granted(cell, ues[c.ue], c.ue, st, g.value)
  }

  /** What a new grant does to the cell: the beam has one UE and the blocks of the grant less, and the blocks
      are marked; the process the UE uses keeps the slot and the block size of the grant. */
  lemma {:induction false} GrantChanges(cell: Cell, u: Ue, i: nat, st: State, g: Rb.Grant)
    requires i < |st.ctrls| && 0 <= u.beam2 < |st.remain| == |st.budget| == |st.masks|
    requires H.Inv(cell.harq, st.ctrls[i]) && st.ctrls[i].available != [] && !cell.harq.disableHarq
    ensures var (b, pid, st') := (u.beam2, st.ctrls[i].available[0], Granted(cell, u, i, st, g));
            && st'.remain == st.remain[b := st.remain[b] - 1]
            && st'.budget == st.budget[b := st.budget[b] - g.rbSize]
            && st'.masks == st.masks[b := Rb.MarkGrant(st.masks[b], g, cell.symbols)]
            && |st'.ctrls| == |st.ctrls| && st'.ctrls[i].Has(pid)
            && st'.ctrls[i].procs[pid].feedbackSlot == cell.slot
            && st'.ctrls[i].procs[pid].saved == H.Pusch(pid, u.tbs(g.rbSize), cell.slot)
  {
    H.PostNewExactly(cell.harq, st.ctrls[i], NewPusch(cell, u, g));
    hide H.Inv, H.Post, H.Postable;
  }

  /** Candidates are different UEs, and each has a free process. */
  ghost predicate Ready(ctrls: seq<H.Ctrl>, cands: seq<Cand>) {
    && (forall k :: 0 <= k < |cands| ==> cands[k].ue < |ctrls| && ctrls[cands[k].ue].available != [])
    && forall k, l :: 0 <= k < l < |cands| ==> cands[k].ue != cands[l].ue
  }

  lemma {:induction false} ServeOk(cell: Cell, ues: seq<Ue>, c: Cand, st: State)
    requires UesOk(cell, ues) && StateOk(cell, |ues|, st) && c.ue < |ues| && st.ctrls[c.ue].available != []
    ensures StateOk(cell, |ues|, Serve(cell, ues, c, st))
  {
    hide H.Inv, GrantFor, Charge;
    var (u, i) := (ues[c.ue], c.ue);
    var g := GrantFor(cell, u, c, st);
    if g.Some? {
      assert u.beam2 >= 0 by {
        GrantMeans(cell, u, c, st);
      }
      var m := Rb.MarkGrant(st.masks[u.beam2], g.value, cell.symbols);
      assert |m| == cell.blocks;
      H.PostInv(cell.harq, st.ctrls[i], NewPusch(cell, u, g.value));
      ChargeOk(cell, i, u.beam2, st, NewPusch(cell, u, g.value), st.masks[u.beam2 := m],
               st.budget[u.beam2 := st.budget[u.beam2] - g.value.rbSize],
               NewData(i, u.beam2, H.Post(cell.harq, st.ctrls[i], NewPusch(cell, u, g.value)).1, g.value));
    }
  }

  lemma {:induction false} GrantMeans(cell: Cell, u: Ue, c: Cand, st: State)
    requires UeOk(cell, u) && StateOk(cell, |st.ctrls|, st) && GrantFor(cell, u, c, st).Some?
    ensures u.beam2 >= 0 && Rb.UlGrant(st.masks[u.beam2], Request(u, c), SizingOf(u), cell.symbols)
                            == Some(GrantFor(cell, u, c, st).value)
  {
  }

  /** The first n candidates. */
  ghost function Allocate(cell: Cell, ues: seq<Ue>, order: seq<Cand>, st: State, n: nat): (r: State)
    requires UesOk(cell, ues) && StateOk(cell, |ues|, st) && Ready(st.ctrls, order) && n <= |order|
    ensures StateOk(cell, |ues|, r)
    ensures forall k :: n <= k < |order| ==> r.ctrls[order[k].ue] == st.ctrls[order[k].ue]
  {
    if n == 0 then st
    else
      var s := Allocate(cell, ues, order, st, n - 1);
      ServeOk(cell, ues, order[n - 1], s);
      ServeElsewhere(cell, ues, order[n - 1], s);
      Serve(cell, ues, order[n - 1], s)
  }

  /** Serving a UE changes no other UE. */
  lemma {:induction false} ServeElsewhere(cell: Cell, ues: seq<Ue>, c: Cand, st: State)
    requires UesOk(cell, ues) && StateOk(cell, |ues|, st) && c.ue < |ues| && st.ctrls[c.ue].available != []
    ensures |Serve(cell, ues, c, st).ctrls| == |st.ctrls|
    ensures forall i :: 0 <= i < |ues| && i != c.ue ==> Serve(cell, ues, c, st).ctrls[i] == st.ctrls[i]
  {
    hide GrantFor;
    if GrantFor(cell, ues[c.ue], c, st).Some? {
      H.PostInv(cell.harq, st.ctrls[c.ue], NewPusch(cell, ues[c.ue], GrantFor(cell, ues[c.ue], c, st).value));
    }
  }

  // ----- the collected candidates

  /** Candidates are UEs of the list so far, in order, that were not given a retransmission and whose HARQ
      processes are as they were looked at. */
  ghost predicate CandsOk(cell: Cell, ues: seq<Ue>, g: Gathered, n: nat) {
    && n <= |ues| && |g.st.ctrls| == |ues|
    && (forall k :: 0 <= k < |g.cands| ==>
          g.cands[k].ue < n && CandOf(cell, ues[g.cands[k].ue], g.st.ctrls[g.cands[k].ue], g.cands[k].ue)
              == Some(g.cands[k]))
    && (forall k, l :: 0 <= k < l < |g.cands| ==> g.cands[k].ue < g.cands[l].ue)
    && (forall k :: 0 <= k < |g.st.made| ==> g.st.made[k].Retransmission? && g.st.made[k].ue < n)
    && (forall k, l :: 0 <= k < |g.st.made| && 0 <= l < |g.cands| ==> g.st.made[k].ue != g.cands[l].ue)
    && (forall k, l :: 0 <= k < l < |g.st.made| ==> g.st.made[k].ue < g.st.made[l].ue)
  }

  /** A visit changes no other UE, and adds either a retransmission or a candidate. */
  lemma {:induction false} VisitElsewhere(cell: Cell, ues: seq<Ue>, i: nat, g: Gathered)
    requires UesOk(cell, ues) && i < |ues| && StateOk(cell, |ues|, g.st)
    ensures UeOk(cell, ues[i]) && |g.st.ctrls| == |ues| && StateOk(cell, |g.st.ctrls|, g.st)
    ensures var g' := Visit(cell, ues[i], i, g);
            && |g'.st.ctrls| == |ues| && (forall x :: 0 <= x < |ues| && x != i ==> g'.st.ctrls[x] == g.st.ctrls[x])
            && ((g'.cands == g.cands && |g'.st.made| == |g.st.made| + 1 && g'.st.made[..|g.st.made|] == g.st.made
                 && g'.st.made[|g.st.made|].Retransmission? && g'.st.made[|g.st.made|].ue == i)
                || (g'.st == g.st && g'.cands == g.cands)
                || (g'.st == g.st && CandOf(cell, ues[i], g.st.ctrls[i], i).Some?
                    && g'.cands == g.cands + [CandOf(cell, ues[i], g.st.ctrls[i], i).value]))
  {
    hide H.Inv, H.RetransmissionGrant, CandOf;
  }

  lemma {:induction false} GatherCands(cell: Cell, ues: seq<Ue>, st: State, n: nat)
    requires UesOk(cell, ues) && StateOk(cell, |ues|, st) && n <= |ues| && st.made == []
    ensures CandsOk(cell, ues, Gather(cell, ues, st, n), n)
  {
    hide Visit, CandOf, StateOk, UesOk, CandsOk;
    if n == 0 {
      CandsNone(cell, ues, st);
    } else {
      GatherCands(cell, ues, st, n - 1);
      CandsVisit(cell, ues, n - 1, Gather(cell, ues, st, n - 1));
    }
  }

  lemma {:induction false} CandsNone(cell: Cell, ues: seq<Ue>, st: State)
    requires StateOk(cell, |ues|, st) && st.made == []
    ensures CandsOk(cell, ues, Gathered(st, []), 0)
  {
  }

  lemma {:induction false} CandsVisit(cell: Cell, ues: seq<Ue>, i: nat, g: Gathered)
    requires UesOk(cell, ues) && StateOk(cell, |ues|, g.st) && i < |ues| && CandsOk(cell, ues, g, i)
    ensures CandsOk(cell, ues, VisitNext(cell, ues, i, g), i + 1)
  {
    VisitElsewhere(cell, ues, i, g);
    hide Visit, CandOf, StateOk, UesOk, CandsOk;
    var g' := Visit(cell, ues[i], i, g);
    if g'.st == g.st {
      CandsMore(cell, ues, g, g', i);
    } else {
      CandsGranted(cell, ues, g, g', i);
    }
  }

  lemma {:induction false} CandsGranted(cell: Cell, ues: seq<Ue>, g: Gathered, g': Gathered, i: nat)
    requires i < |ues| && CandsOk(cell, ues, g, i)
    requires |g'.st.ctrls| == |ues| && (forall x :: 0 <= x < |ues| && x != i ==> g'.st.ctrls[x] == g.st.ctrls[x])
    requires g'.cands == g.cands && |g'.st.made| == |g.st.made| + 1 && g'.st.made[..|g.st.made|] == g.st.made
    requires g'.st.made[|g.st.made|].Retransmission? && g'.st.made[|g.st.made|].ue == i
    ensures CandsOk(cell, ues, g', i + 1)
  {
    hide CandOf;
    forall k | 0 <= k < |g.st.made|
      ensures g'.st.made[k] == g.st.made[k]
    {
      assert g'.st.made[..|g.st.made|][k] == g.st.made[k];
    }
  }

  lemma {:induction false} CandsMore(cell: Cell, ues: seq<Ue>, g: Gathered, g': Gathered, i: nat)
    requires i < |ues| && CandsOk(cell, ues, g, i) && g'.st == g.st
    requires || g'.cands == g.cands
             || (CandOf(cell, ues[i], g.st.ctrls[i], i).Some?
                 && g'.cands == g.cands + [CandOf(cell, ues[i], g.st.ctrls[i], i).value])
    ensures CandsOk(cell, ues, g', i + 1)
  {
    assert CandOf(cell, ues[i], g.st.ctrls[i], i).Some? ==> CandOf(cell, ues[i], g.st.ctrls[i], i).value.ue == i;
    hide CandOf;
  }

  /** In any order the candidates can be served: they are different UEs with a free process each. */
  lemma {:induction false} OrderReady(cell: Cell, ues: seq<Ue>, g: Gathered, order: seq<Cand>)
    requires CandsOk(cell, ues, g, |ues|) && Ordering(g.cands, order)
    ensures Ready(g.st.ctrls, order)
    ensures forall k :: 0 <= k < |order| ==> order[k] in g.cands
  {
    assert Ready(g.st.ctrls, g.cands);
    forall k | 0 <= k < |order|
      ensures order[k] in g.cands && order[k].ue < |g.st.ctrls| && g.st.ctrls[order[k].ue].available != []
    {
      assert order[k] in multiset(order);
      assert order[k] in g.cands;
    }
    forall k, l | 0 <= k < l < |order|
      ensures order[k].ue != order[l].ue
    {
      if order[k].ue == order[l].ue {
        assert order[k] in g.cands && order[l] in g.cands;
        TwiceInOrder(order, k, l);
        OnceInCands(g.cands, order[k]);
      }
    }
  }

  lemma {:induction false} TwiceInOrder(s: seq<Cand>, k: nat, l: nat)
    requires k < l < |s| && s[k] == s[l]
    ensures multiset(s)[s[k]] >= 2
  {
    assert s == s[..l] + s[l..];
    assert s[k] in s[..l] && s[k] in s[l..];
    assert multiset(s)[s[k]] == multiset(s[..l])[s[k]] + multiset(s[l..])[s[k]];
  }

  lemma {:induction false} OnceInCands(s: seq<Cand>, c: Cand)
    requires forall k, l :: 0 <= k < l < |s| ==> s[k].ue < s[l].ue
    ensures multiset(s)[c] <= 1
  {
    if s != [] {
      var n := |s| - 1;
      OnceInCands(s[..n], c);
      assert s == s[..n] + [s[n]];
      if c == s[n] {
        assert c !in s[..n];
      }
    }
  }

  // ----- the call

  ghost function Initial(cell: Cell, ctrls: seq<H.Ctrl>, budget: seq<int>, masks: seq<seq<Symbols>>): State {
    State(ctrls, seq(cell.numBeams, b => cell.maxUe), budget, masks, [])
  }

  /** st is the state after a call in which qsort left the candidates in this order. */
  ghost predicate Call(cell: Cell, ues: seq<Ue>, st0: State, order: seq<Cand>, st: State) {
    && UesOk(cell, ues) && StateOk(cell, |ues|, st0) && st0 == Initial(cell, st0.ctrls, st0.budget, st0.masks)
    && (forall i :: 0 <= i < |ues| ==> ues[i].posture.minRb >= 1)
    && var g := Gather(cell, ues, st0, |ues|);
       && Ordering(g.cands, order) && Ready(g.st.ctrls, order)
       && st == Allocate(cell, ues, order, g.st, |order|)
  }
}
