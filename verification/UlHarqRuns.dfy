/**
  Whole runs of the uplink HARQ processes of a UE: any sequence of new grants, retransmission
  attempts and received or lost PDUs, from a fresh UE on.
 */
module UlHarqRuns {
  import opened Basics
  import opened UlHarq

  datatype Event =
    | NewGrant(tbSize: nat, slot: nat)
    | Retransmit(attempt: Attempt)
    | Pdu(id: int, sdu: Option<nat>)

  datatype Run = Run(c: Ctrl, log: seq<Tx>)

  /** pf_ul posts a new grant only if a process is free, and a retransmission only for the head of the
      retransmission list. */
  ghost function PostIn(cfg: Config, r: Run, sched: Pusch): Run
    requires Postable(cfg, r.c, sched)
  {
    var (d, tx) := Post(cfg, r.c, sched);
    Run(d, r.log + [tx])
  }

  ghost function Step(cfg: Config, r: Run, e: Event): Run
    requires Inv(cfg, r.c)
  {
    match e
    case NewGrant(tbSize, slot) =>
      if r.c.available == [] then r
      else
        PostInv(cfg, r.c, Pusch(-1, tbSize, slot));
        PostIn(cfg, r, Pusch(-1, tbSize, slot))
    case Retransmit(a) =>
      if r.c.retrans == [] then r
      else
        InvKnown(cfg, r.c, r.c.retrans[0]);
        var g := RetransmissionGrant(r.c, a);
        if g.None? then r
        else
          RetransmissionLegitimate(cfg, r.c, a);
          PostInv(cfg, r.c, g.value);
          PostIn(cfg, r, g.value)
    case Pdu(id, sdu) =>
      InvFeedbackKnown(cfg, r.c);
      Run(Receive(cfg, r.c, id, sdu), r.log)
  }

  /** The assertion of allocate_ul_retransmission: the saved grant names its own process. */
  lemma RetransmissionLegitimate(cfg: Config, c: Ctrl, a: Attempt)
    requires Inv(cfg, c) && c.retrans != []
    ensures c.Has(c.retrans[0]) && c.procs[c.retrans[0]].saved.pid == c.retrans[0]
    ensures RetransmissionGrant(c, a).Some? ==> Legitimate(c, RetransmissionGrant(c, a).value)
  {
    InvKnown(cfg, c, c.retrans[0]);
    assert ProcOk(cfg, c, c.retrans[0]);
  }

  lemma StepInv(cfg: Config, r: Run, e: Event)
    requires Inv(cfg, r.c)
    ensures Inv(cfg, Step(cfg, r, e).c)
  {
    match e
    case NewGrant(tbSize, slot) =>
      if r.c.available != [] {
        PostInv(cfg, r.c, Pusch(-1, tbSize, slot));
      }
    case Retransmit(a) =>
      if r.c.retrans != [] {
        RetransmissionLegitimate(cfg, r.c, a);
        if RetransmissionGrant(r.c, a).Some? {
          PostInv(cfg, r.c, RetransmissionGrant(r.c, a).value);
        }
      }
    case Pdu(id, sdu) =>
      match sdu
      case Some(len) =>
        var c1 := r.c.(schedUlBytes := Floor0(r.c.schedUlBytes - len));
        SameProcessesInv(cfg, r.c, c1);
        HandleInv(cfg, c1, id, false);
      case None =>
        HandleInv(cfg, r.c, id, true);
  }

  lemma SameProcessesInv(cfg: Config, c: Ctrl, d: Ctrl)
    requires Inv(cfg, c)
    requires d.available == c.available && d.feedback == c.feedback && d.retrans == c.retrans && d.procs == c.procs
    ensures Inv(cfg, d)
  {
    forall x
      ensures d.Count(x) == if d.Has(x) then 1 else 0
    {
      assert c.Count(x) == if c.Has(x) then 1 else 0;
    }
    forall x | d.Has(x)
      ensures ProcOk(cfg, d, x)
    {
      assert ProcOk(cfg, c, x);
    }
  }

  // ----- new data indicator, block size and number of transmissions

  /** The last transmission on a process. */
  ghost function Last(log: seq<Tx>, pid: int): Option<Tx> {
    if log == [] then None
    else if log[|log| - 1].pid == pid then Some(log[|log| - 1])
    else Last(log[..|log| - 1], pid)
  }

  /** tx is a legal successor of the last transmission on its process: a new block toggles the NDI, a
      retransmission repeats NDI and block size in the next round. */
  ghost predicate Follows(cfg: Config, last: Option<Tx>, tx: Tx) {
    && tx.round < cfg.roundMax
    && if tx.round == 0 then last.Some? ==> last.value.ndi != tx.ndi
       else last.Some? && last.value.ndi == tx.ndi && last.value.tbSize == tx.tbSize && last.value.round + 1 == tx.round
  }

  ghost predicate LogOk(cfg: Config, log: seq<Tx>) {
    log != [] ==>
      var n := |log| - 1;
      LogOk(cfg, log[..n]) && Follows(cfg, Last(log[..n], log[n].pid), log[n])
  }

  /** How the last transmission on a process relates to the process now. */
  ghost predicate InStep(cfg: Config, c: Ctrl, pid: int, last: Option<Tx>)
    requires c.Has(pid)
  {
    var p := c.procs[pid];
    match last
    case None => pid in c.available
    case Some(t) =>
      if pid in c.available then (t.ndi == p.ndi) == cfg.disableHarq
      else t.ndi == p.ndi && t.tbSize == p.saved.tbSize && t.round + (if pid in c.feedback then 0 else 1) == p.round
  }

  ghost predicate AllInStep(cfg: Config, r: Run) {
    forall pid :: r.c.Has(pid) ==> InStep(cfg, r.c, pid, Last(r.log, pid))
  }

  lemma OneProcessInStep(cfg: Config, c: Ctrl, d: Ctrl, pid: int, log: seq<Tx>, log': seq<Tx>)
    requires AllInStep(cfg, Run(c, log)) && |d.procs| == |c.procs| && c.Has(pid)
    requires forall x :: c.Has(x) && x != pid ==>
        SameLists(c, d, x) && d.procs[x] == c.procs[x] && Last(log', x) == Last(log, x)
    requires InStep(cfg, d, pid, Last(log', pid))
    ensures AllInStep(cfg, Run(d, log'))
  {
    forall x | d.Has(x)
      ensures InStep(cfg, d, x, Last(log', x))
    {
      if x != pid {
        assert InStep(cfg, c, x, Last(log, x)) && SameLists(c, d, x);
        assert (x in d.available <==> x in c.available) && (x in d.feedback <==> x in c.feedback);
      }
    }
  }

  lemma FailInStep(cfg: Config, c: Ctrl, c1: Ctrl, pid: int, log: seq<Tx>)
    requires Inv(cfg, c) && HeadTaken(c, c1, pid) && !cfg.disableHarq && AllInStep(cfg, Run(c, log))
    ensures AllInStep(cfg, Run(Fail(cfg, c1, pid), log)) && AllInStep(cfg, Run(Finish(c1, pid), log))
  {
    FailMoves(cfg, c, c1, pid);
    FinishMoves(cfg, c, c1, pid);
    InvKnown(cfg, c, pid);
    assert InStep(cfg, c, pid, Last(log, pid));
    OneProcessInStep(cfg, c, Fail(cfg, c1, pid), pid, log, log);
    OneProcessInStep(cfg, c, Finish(c1, pid), pid, log, log);
  }

  lemma {:induction false} HandleInStep(cfg: Config, c: Ctrl, id: int, crcFailed: bool, log: seq<Tx>)
    requires Inv(cfg, c) && AllInStep(cfg, Run(c, log))
    ensures FeedbackKnown(c) && AllInStep(cfg, Run(Handle(cfg, c, id, crcFailed), log))
    decreases |c.feedback|
  {
    InvFeedbackKnown(cfg, c);
    if !cfg.disableHarq && c.feedback != [] {
      var pid := c.feedback[0];
      if pid == id {
        var c1 := c.(feedback := c.feedback[1..],
                     procs := c.procs[pid := c.procs[pid].(waiting := false, feedbackSlot := -1)]);
        FailInStep(cfg, c, c1, pid, log);
      } else {
        var c1 := c.(feedback := c.feedback[1..], procs := c.procs[pid := c.procs[pid].(waiting := false)]);
        FailInStep(cfg, c, c1, pid, log);
        DropHeadInv(cfg, c);
        HandleInStep(cfg, DropHead(cfg, c), id, crcFailed, log);
      }
    }
  }

  /** A retransmission carries the saved block size; RetransmissionGrant sees to that. */
  ghost predicate SameBlock(c: Ctrl, sched: Pusch) {
    sched.pid >= 0 ==> c.Has(sched.pid) && sched.tbSize == c.procs[sched.pid].saved.tbSize
  }

  /** What is sent is a legal successor of the last transmission on that process. */
  lemma PostFollows(cfg: Config, r: Run, sched: Pusch)
    requires Inv(cfg, r.c) && Legitimate(r.c, sched) && AllInStep(cfg, r) && SameBlock(r.c, sched)
    ensures Postable(cfg, r.c, sched)
    ensures var tx := Post(cfg, r.c, sched).1; Follows(cfg, Last(r.log, tx.pid), tx)
  {
    TakeEffect(cfg, r.c, sched);
    TakeFrom(cfg, r.c, sched);
    var pid := Take(r.c, sched).0;
    assert ProcOk(cfg, r.c, pid) && InStep(cfg, r.c, pid, Last(r.log, pid));
    hide Take;
  }

  lemma LastOfAppend(log: seq<Tx>, tx: Tx, x: int)
    ensures Last(log + [tx], x) == if x == tx.pid then Some(tx) else Last(log, x)
  {
    assert (log + [tx])[..|log|] == log;
  }

  lemma PostInStep(cfg: Config, r: Run, sched: Pusch)
    requires Inv(cfg, r.c) && Legitimate(r.c, sched) && AllInStep(cfg, r) && SameBlock(r.c, sched)
    ensures Postable(cfg, r.c, sched) && AllInStep(cfg, PostIn(cfg, r, sched))
  {
    TakeEffect(cfg, r.c, sched);
    TakeFrom(cfg, r.c, sched);
    var (pid, c1) := Take(r.c, sched);
    hide Take, Last;
    var s := PostIn(cfg, r, sched);
    forall x | r.c.Has(x)
      ensures Last(s.log, x) == if x == pid then Some(s.log[|r.log|]) else Last(r.log, x)
      ensures x != pid ==> SameLists(r.c, s.c, x)
    {
      LastOfAppend(r.log, s.log[|r.log|], x);
      assert x != pid ==> SameLists(r.c, c1, x);
    }
    OneProcessInStep(cfg, r.c, s.c, pid, r.log, s.log);
  }

  lemma TakeFrom(cfg: Config, c: Ctrl, sched: Pusch)
    requires Inv(cfg, c) && Legitimate(c, sched)
    ensures Postable(cfg, c, sched)
    ensures var pid := Take(c, sched).0;
            if sched.pid < 0 then pid in c.available && c.procs[pid].round == 0
            else pid == sched.pid && pid !in c.available && pid !in c.feedback && c.procs[pid].round > 0
  {
    var pid := if sched.pid < 0 then c.available[0] else sched.pid;
    InvKnown(cfg, c, pid);
    assert ProcOk(cfg, c, pid);
  }

  /** Everything that holds along a run. */
  ghost predicate RunOk(cfg: Config, r: Run) {
    Inv(cfg, r.c) && AllInStep(cfg, r) && LogOk(cfg, r.log)
  }

  lemma PostRunOk(cfg: Config, r: Run, sched: Pusch)
    requires RunOk(cfg, r) && Legitimate(r.c, sched) && SameBlock(r.c, sched)
    ensures Postable(cfg, r.c, sched) && RunOk(cfg, PostIn(cfg, r, sched))
  {
    PostInv(cfg, r.c, sched);
    PostFollows(cfg, r, sched);
    PostInStep(cfg, r, sched);
    hide Post, Inv, AllInStep, Follows;
    var s := PostIn(cfg, r, sched);
    assert s.log[..|r.log|] == r.log;
  }

  lemma StepRunOk(cfg: Config, r: Run, e: Event)
    requires RunOk(cfg, r)
    ensures RunOk(cfg, Step(cfg, r, e))
  {
    hide Inv, AllInStep, LogOk, Handle, PostIn;
    StepInv(cfg, r, e);
    match e
    case NewGrant(tbSize, slot) =>
      if r.c.available != [] {
        PostRunOk(cfg, r, Pusch(-1, tbSize, slot));
      }
    case Retransmit(a) =>
      if r.c.retrans != [] {
        RetransmissionLegitimate(cfg, r.c, a);
        if RetransmissionGrant(r.c, a).Some? {
          PostRunOk(cfg, r, RetransmissionGrant(r.c, a).value);
        }
      }
    case Pdu(id, sdu) =>
      match sdu
      case Some(len) =>
        var c1 := r.c.(schedUlBytes := Floor0(r.c.schedUlBytes - len));
        SameProcessesInv(cfg, r.c, c1);
        SameProcessesInStep(cfg, r.c, c1, r.log);
        HandleInStep(cfg, c1, id, false, r.log);
      case None =>
        HandleInStep(cfg, r.c, id, true, r.log);
  }

  lemma SameProcessesInStep(cfg: Config, c: Ctrl, d: Ctrl, log: seq<Tx>)
    requires d.available == c.available && d.feedback == c.feedback && d.retrans == c.retrans && d.procs == c.procs
    requires AllInStep(cfg, Run(c, log))
    ensures AllInStep(cfg, Run(d, log))
  {
    forall x | d.Has(x)
      ensures InStep(cfg, d, x, Last(log, x))
    {
      assert InStep(cfg, c, x, Last(log, x));
    }
  }

  ghost function RunAll(cfg: Config, r: Run, es: seq<Event>): (s: Run)
    requires RunOk(cfg, r)
    ensures RunOk(cfg, s)
    decreases es
  {
    if es == [] then r
    else
      StepRunOk(cfg, r, es[0]);
      RunAll(cfg, Step(cfg, r, es[0]), es[1..])
  }

  /** From a fresh UE on, every run keeps the lists a partition of the processes with their flags and
      rounds right, keeps log and processes in step, and sends only legal successors. */
  lemma RunsAreOk(cfg: Config, c: Ctrl, n: nat, es: seq<Event>)
    requires Fresh(c, n) && cfg.roundMax > 0
    ensures RunOk(cfg, Run(c, [])) && RunOk(cfg, RunAll(cfg, Run(c, []), es))
  {
    FreshInv(cfg, c, n);
    forall pid | c.Has(pid)
      ensures InStep(cfg, c, pid, Last([], pid))
    {
      assert c.available[pid] == pid;
    }
  }

  // ----- what section 5.4.2.1 of 3GPP TS 38.321 asks of a transport block

  lemma {:induction false} LogOkAt(cfg: Config, log: seq<Tx>, j: nat)
    requires LogOk(cfg, log) && j < |log|
    ensures Follows(cfg, Last(log[..j], log[j].pid), log[j])
  {
    if j < |log| - 1 {
      LogOkAt(cfg, log[..|log| - 1], j);
      assert log[..|log| - 1][..j] == log[..j];
    }
  }

  /** The transmission on a process before place j, if it is at place i. */
  ghost predicate Previous(log: seq<Tx>, i: nat, j: nat) {
    && i < j < |log| && log[i].pid == log[j].pid
    && forall k :: i < k < j ==> log[k].pid != log[j].pid
  }

  lemma {:induction false} LastIs(log: seq<Tx>, pid: int, i: nat)
    requires i < |log| && log[i].pid == pid && forall k :: i < k < |log| ==> log[k].pid != pid
    ensures Last(log, pid) == Some(log[i])
  {
    if i < |log| - 1 {
      LastIs(log[..|log| - 1], pid, i);
    }
  }

  lemma {:induction false} LastNone(log: seq<Tx>, pid: int)
    requires forall k :: 0 <= k < |log| ==> log[k].pid != pid
    ensures Last(log, pid) == None
  {
    if log != [] {
      LastNone(log[..|log| - 1], pid);
    }
  }

  /** Two successive transmissions on a process: a new block toggles the NDI; otherwise NDI and block
      size are repeated in the next round. */
  lemma SuccessiveTransmissions(cfg: Config, log: seq<Tx>, i: nat, j: nat)
    requires LogOk(cfg, log) && Previous(log, i, j)
    ensures log[j].round < cfg.roundMax
    ensures if log[j].round == 0 then log[i].ndi != log[j].ndi
            else log[i].ndi == log[j].ndi && log[i].tbSize == log[j].tbSize && log[j].round == log[i].round + 1
  {
    LogOkAt(cfg, log, j);
    LastIs(log[..j], log[j].pid, i);
  }

  /** Transmissions on process pid from place i up to place j. */
  ghost function CountOn(log: seq<Tx>, pid: int, i: nat, j: nat): nat
    requires i <= j <= |log|
  {
    if i == j then 0 else CountOn(log, pid, i, j - 1) + if log[j - 1].pid == pid then 1 else 0
  }

  /** The block first sent at place i is still the current one on its process at place j. */
  ghost predicate SameBlockUntil(log: seq<Tx>, i: nat, j: nat) {
    && i < j <= |log| && log[i].round == 0
    && forall k :: i < k < j && log[k].pid == log[i].pid ==> log[k].round > 0
  }

  /** All transmissions of one block carry its NDI and size, and number exactly its last round plus one,
      so at most roundMax. */
  lemma {:induction false} BlockTransmissions(cfg: Config, log: seq<Tx>, i: nat, j: nat)
    requires LogOk(cfg, log) && SameBlockUntil(log, i, j)
    ensures forall k :: i <= k < j && log[k].pid == log[i].pid ==>
        log[k].ndi == log[i].ndi && log[k].tbSize == log[i].tbSize
    ensures 1 <= CountOn(log, log[i].pid, i, j) <= cfg.roundMax
    ensures Last(log[..j], log[i].pid).Some?
    ensures Last(log[..j], log[i].pid).value.round + 1 == CountOn(log, log[i].pid, i, j)
    ensures Last(log[..j], log[i].pid).value.ndi == log[i].ndi
    ensures Last(log[..j], log[i].pid).value.tbSize == log[i].tbSize
    decreases j
  {
    assert log[..j][..j - 1] == log[..j - 1];
    LogOkAt(cfg, log, j - 1);
    if j == i + 1 {
      assert CountOn(log, log[i].pid, i, i) == 0;
    } else {
      BlockTransmissions(cfg, log, i, j - 1);
    }
  }

  /** The next block on the process carries the other NDI than every transmission of this one. */
  lemma NextBlockToggles(cfg: Config, log: seq<Tx>, i: nat, j: nat)
    requires LogOk(cfg, log) && SameBlockUntil(log, i, j)
    requires j < |log| && log[j].pid == log[i].pid && log[j].round == 0
    ensures forall k :: i <= k < j && log[k].pid == log[i].pid ==> log[k].ndi != log[j].ndi
  {
    BlockTransmissions(cfg, log, i, j);
    LogOkAt(cfg, log, j);
  }

  /** Every process that was ever used has a first transmission of its current block. */
  lemma {:induction false} BlockStarts(cfg: Config, log: seq<Tx>, pid: int)
    requires LogOk(cfg, log) && Last(log, pid).Some?
    ensures exists i: nat :: i < |log| && log[i].pid == pid && SameBlockUntil(log, i, |log|)
    decreases |log|
  {
    var n := |log| - 1;
    if log[n].pid == pid && log[n].round == 0 {
      assert SameBlockUntil(log, n, |log|);
    } else {
      BlockStarts(cfg, log[..n], pid);
      var i: nat :| i < n && log[..n][i].pid == pid && SameBlockUntil(log[..n], i, n);
      assert forall k :: 0 <= k < n ==> log[..n][k] == log[k];
      assert SameBlockUntil(log, i, |log|);
    }
  }

  /** A transmission that fails when feedback arrives: its own was bad, or that of a later one came first. */
  ghost predicate Fails(c: Ctrl, id: int, crcFailed: bool, pid: int) {
    pid in c.feedback && if pid == id then crcFailed else pid in Lost(c, id)
  }

  /** Lost means queued before the reported process, or anywhere if that is not queued. */
  lemma LostMeans(c: Ctrl, id: int, a: nat)
    requires a < |c.feedback| && forall b :: 0 <= b <= a ==> c.feedback[b] != id
    ensures c.feedback[a] in Lost(c, id)
  {
    var k := IndexOf(c.feedback, id);
    assert k > a;
    assert c.feedback[..k][a] == c.feedback[a];
  }

  lemma FailedProc(cfg: Config, c: Ctrl, id: int, crcFailed: bool, pid: int)
    requires Inv(cfg, c) && !cfg.disableHarq && Fails(c, id, crcFailed, pid)
    ensures FeedbackKnown(c) && c.Has(pid)
    ensures var (d, p) := (Handle(cfg, c, id, crcFailed), c.procs[pid]);
            && Inv(cfg, d) && d.Has(pid) && !d.procs[pid].waiting
            && d.procs[pid].round == if p.round + 1 < cfg.roundMax then p.round + 1 else 0
  {
    InvKnown(cfg, c, pid);
    HandleExactly(cfg, c, id, crcFailed);
    HandleInv(cfg, c, id, crcFailed);
    assert ProcOk(cfg, c, pid);
    assert pid == id ==> id !in Lost(c, id);
  }

  /** A block is given up exactly when it fails for the last of its rounds: a process whose transmission fails
      goes to the retransmission list if its current block was sent fewer than roundMax times, and is given
      up if it was sent that often. */
  lemma GivenUpAfterAllRounds(cfg: Config, r: Run, id: int, crcFailed: bool, pid: int)
    requires RunOk(cfg, r) && !cfg.disableHarq && Fails(r.c, id, crcFailed, pid)
    ensures FeedbackKnown(r.c)
    ensures exists i: nat :: i < |r.log| && r.log[i].pid == pid && SameBlockUntil(r.log, i, |r.log|)
    ensures forall i: nat :: i < |r.log| && r.log[i].pid == pid && SameBlockUntil(r.log, i, |r.log|) ==>
              var (d, sent) := (Handle(cfg, r.c, id, crcFailed), CountOn(r.log, pid, i, |r.log|));
              && (pid in d.retrans <==> sent < cfg.roundMax)
              && (pid in d.available <==> sent == cfg.roundMax)
  {
    FailedProc(cfg, r.c, id, crcFailed, pid);
    var d := Handle(cfg, r.c, id, crcFailed);
    assert InStep(cfg, r.c, pid, Last(r.log, pid)) && ProcOk(cfg, d, pid) && ProcOk(cfg, r.c, pid);
    assert d.Count(pid) == 1 && r.c.Count(pid) == 1;
    BlockStarts(cfg, r.log, pid);
    forall i: nat | i < |r.log| && r.log[i].pid == pid && SameBlockUntil(r.log, i, |r.log|)
      ensures CountOn(r.log, pid, i, |r.log|) == r.c.procs[pid].round + 1
    {
      BlockTransmissions(cfg, r.log, i, |r.log|);
      assert r.log[..|r.log|] == r.log;
    }
    hide Handle, Lost, LogOk, SameBlockUntil, CountOn;
  }

  // ----- conservation of expected bytes

  ghost function Bytes(procs: seq<Proc>, s: seq<int>): nat
    requires Known(s, |procs|)
  {
    if s == [] then 0 else procs[s[0]].saved.tbSize + Bytes(procs, s[1..])
  }

  /** Transport block sizes of all processes that await feedback or retransmission. */
  ghost function BusyBytes(c: Ctrl): nat
    requires Known(c.feedback, |c.procs|) && Known(c.retrans, |c.procs|)
  {
    Bytes(c.procs, c.feedback) + Bytes(c.procs, c.retrans)
  }

  ghost predicate Conserved(c: Ctrl) {
    Known(c.feedback, |c.procs|) && Known(c.retrans, |c.procs|) && c.schedUlBytes == BusyBytes(c)
  }

  lemma InvListsKnown(cfg: Config, c: Ctrl)
    requires Inv(cfg, c)
    ensures Known(c.feedback, |c.procs|) && Known(c.retrans, |c.procs|)
  {
    InvFeedbackKnown(cfg, c);
    forall i | 0 <= i < |c.retrans|
      ensures c.Has(c.retrans[i])
    {
      InvKnown(cfg, c, c.retrans[i]);
    }
  }

  lemma {:induction false} BytesFrame(procs: seq<Proc>, procs': seq<Proc>, s: seq<int>)
    requires Known(s, |procs|) && |procs| == |procs'|
    requires forall i :: 0 <= i < |s| ==> procs'[s[i]].saved.tbSize == procs[s[i]].saved.tbSize
    ensures Bytes(procs', s) == Bytes(procs, s)
  {
    if s != [] {
      BytesFrame(procs, procs', s[1..]);
    }
  }

  lemma {:induction false} BytesAppend(procs: seq<Proc>, s: seq<int>, x: int)
    requires Known(s, |procs|) && 0 <= x < |procs|
    ensures Bytes(procs, s + [x]) == Bytes(procs, s) + procs[x].saved.tbSize
  {
    if s == [] {
      assert [x][1..] == [];
    } else {
      assert (s + [x])[1..] == s[1..] + [x];
      BytesAppend(procs, s[1..], x);
    }
  }

  lemma {:induction false} BytesRemove(procs: seq<Proc>, s: seq<int>, x: int)
    requires Known(s, |procs|) && x in s
    ensures Known(RemoveFirst(s, x), |procs|)
    ensures Bytes(procs, RemoveFirst(s, x)) == Bytes(procs, s) - procs[x].saved.tbSize
  {
    if s[0] != x {
      assert x in s[1..];
      BytesRemove(procs, s[1..], x);
      assert ([s[0]] + RemoveFirst(s[1..], x))[1..] == RemoveFirst(s[1..], x);
    }
  }

  /** After the head of the feedback list was taken off and failed, or finished. */
  lemma HeadBytes(cfg: Config, c: Ctrl, c1: Ctrl, pid: int)
    requires Known(c.feedback, |c.procs|) && Known(c.retrans, |c.procs|) && HeadTaken(c, c1, pid)
    requires c1.schedUlBytes == c.schedUlBytes
    ensures var (d, t) := (Fail(cfg, c1, pid), c.procs[pid].saved.tbSize);
            && Known(d.feedback, |d.procs|) && Known(d.retrans, |d.procs|)
            && (if Exhausted(cfg, c.procs[pid])
                then BusyBytes(d) == BusyBytes(c) - t && d.schedUlBytes == Floor0(c.schedUlBytes - t)
                else BusyBytes(d) == BusyBytes(c) && d.schedUlBytes == c.schedUlBytes)
    ensures var (d, t) := (Finish(c1, pid), c.procs[pid].saved.tbSize);
            && Known(d.feedback, |d.procs|) && Known(d.retrans, |d.procs|)
            && BusyBytes(d) == BusyBytes(c) - t && d.schedUlBytes == c.schedUlBytes
  {
    var d, e := Fail(cfg, c1, pid), Finish(c1, pid);
    BytesFrame(c.procs, d.procs, c.feedback[1..]);
    BytesFrame(c.procs, d.procs, c.retrans);
    BytesFrame(c.procs, e.procs, c.feedback[1..]);
    BytesFrame(c.procs, e.procs, c.retrans);
    BytesAppend(d.procs, c.retrans, pid);
  }

  /** Bytes a good feedback takes out of the busy ones. */
  ghost function Released(c: Ctrl, id: int, crcFailed: bool): nat
    requires FeedbackKnown(c)
  {
    if id in c.feedback && !crcFailed then c.procs[id].saved.tbSize else 0
  }

  lemma DropHeadBytes(cfg: Config, c: Ctrl, id: int, crcFailed: bool)
    requires FeedbackKnown(c) && Known(c.retrans, |c.procs|) && c.feedback != [] && c.feedback[0] != id
    ensures var (d, t) := (DropHead(cfg, c), c.procs[c.feedback[0]].saved.tbSize);
            && |d.feedback| < |c.feedback| && FeedbackKnown(d) && Known(d.retrans, |d.procs|)
            && Released(d, id, crcFailed) == Released(c, id, crcFailed)
            && ((BusyBytes(d) == BusyBytes(c) - t && d.schedUlBytes == Floor0(c.schedUlBytes - t))
                || (BusyBytes(d) == BusyBytes(c) && d.schedUlBytes == c.schedUlBytes))
  {
    var pid := c.feedback[0];
    assert c.feedback == [pid] + c.feedback[1..];
    var c1 := c.(feedback := c.feedback[1..], procs := c.procs[pid := c.procs[pid].(waiting := false)]);
    HeadBytes(cfg, c, c1, pid);
    hide BusyBytes;
  }

  lemma ReportHeadBytes(cfg: Config, c: Ctrl, crcFailed: bool)
    requires FeedbackKnown(c) && Known(c.retrans, |c.procs|) && c.feedback != []
    ensures var (d, t) := (ReportHead(cfg, c, crcFailed), c.procs[c.feedback[0]].saved.tbSize);
            && FeedbackKnown(d) && Known(d.retrans, |d.procs|)
            && if crcFailed
               then (BusyBytes(d) == BusyBytes(c) - t && d.schedUlBytes == Floor0(c.schedUlBytes - t))
                    || (BusyBytes(d) == BusyBytes(c) && d.schedUlBytes == c.schedUlBytes)
               else BusyBytes(d) == BusyBytes(c) - t && d.schedUlBytes == c.schedUlBytes
  {
    var pid := c.feedback[0];
    var c1 := c.(feedback := c.feedback[1..],
                 procs := c.procs[pid := c.procs[pid].(waiting := false, feedbackSlot := -1)]);
    HeadBytes(cfg, c, c1, pid);
    hide BusyBytes;
  }

  lemma {:induction false} HandleBytes(cfg: Config, c: Ctrl, id: int, crcFailed: bool, len: nat)
    requires !cfg.disableHarq && FeedbackKnown(c) && Known(c.retrans, |c.procs|)
    requires c.schedUlBytes == Floor0(BusyBytes(c) - len)
    ensures var d := Handle(cfg, c, id, crcFailed);
            && Known(d.feedback, |d.procs|) && Known(d.retrans, |d.procs|)
            && d.schedUlBytes == Floor0(BusyBytes(d) + Released(c, id, crcFailed) - len)
    decreases |c.feedback|
  {
    hide DropHead, ReportHead, BusyBytes;
    if c.feedback != [] {
      if c.feedback[0] == id {
        ReportHeadBytes(cfg, c, crcFailed);
      } else {
        DropHeadBytes(cfg, c, id, crcFailed);
        HandleBytes(cfg, DropHead(cfg, c), id, crcFailed, len);
      }
    }
  }

  /** The expected bytes after any PDU, in terms of the processes still busy then. */
  lemma ReceiveBytes(cfg: Config, c: Ctrl, id: nat, sdu: Option<nat>)
    requires Inv(cfg, c) && !cfg.disableHarq && Conserved(c)
    ensures var (d, t) := (Receive(cfg, c, id, sdu), Released(c, id, sdu.None?));
            && Known(d.feedback, |d.procs|) && Known(d.retrans, |d.procs|)
            && d.schedUlBytes == Floor0(BusyBytes(d) + t - if sdu.Some? then sdu.value else 0)
  {
    match sdu
    case None => HandleBytes(cfg, c, id, true, 0);
    case Some(len) =>
      var c1 := c.(schedUlBytes := Floor0(c.schedUlBytes - len));
      SameProcessesInv(cfg, c, c1);
      HandleBytes(cfg, c1, id, false, len);
  }

  /** A received SDU keeps expected and busy bytes equal exactly when it has the block size of a process
      that awaited feedback, or is longer and leaves nothing busy. */
  lemma SduConserves(cfg: Config, c: Ctrl, id: nat, len: nat)
    requires Inv(cfg, c) && !cfg.disableHarq && Conserved(c)
    ensures var (d, t) := (Receive(cfg, c, id, Some(len)), Released(c, id, false));
            && Known(d.feedback, |d.procs|) && Known(d.retrans, |d.procs|)
            && (Conserved(d) <==> len == t || (len > t && BusyBytes(d) == 0))
  {
    ReceiveBytes(cfg, c, id, Some(len));
  }

  lemma TakeBytes(cfg: Config, c: Ctrl, sched: Pusch)
    requires Inv(cfg, c) && Legitimate(c, sched)
    ensures Postable(cfg, c, sched)
    ensures var (pid, c1) := Take(c, sched);
            && Known(c.feedback, |c.procs|) && Known(c.retrans, |c.procs|)
            && Known(c1.feedback, |c1.procs|) && Known(c1.retrans, |c1.procs|) && c1.procs == c.procs && c.Has(pid)
            && pid !in c1.feedback && pid !in c1.retrans && c1.schedUlBytes == c.schedUlBytes
            && BusyBytes(c1) == BusyBytes(c) - if c.procs[pid].round == 0 then 0 else c.procs[pid].saved.tbSize
  {
    TakeEffect(cfg, c, sched);
    TakeFrom(cfg, c, sched);
    InvListsKnown(cfg, c);
    var (pid, c1) := Take(c, sched);
    assert multiset(c1.feedback)[pid] == 0 && multiset(c1.retrans)[pid] == 0;
    if sched.pid >= 0 {
      BytesRemove(c.procs, c.retrans, pid);
    }
  }

  /** A process joins the feedback list, perhaps with a new block size. */
  lemma JoinBytes(c1: Ctrl, d: Ctrl, pid: int)
    requires Known(c1.feedback, |c1.procs|) && Known(c1.retrans, |c1.procs|) && c1.Has(pid)
    requires pid !in c1.feedback && pid !in c1.retrans
    requires d.feedback == c1.feedback + [pid] && d.retrans == c1.retrans
    requires |d.procs| == |c1.procs| && forall x :: c1.Has(x) && x != pid ==> d.procs[x] == c1.procs[x]
    ensures Known(d.feedback, |d.procs|) && Known(d.retrans, |d.procs|)
    ensures BusyBytes(d) == BusyBytes(c1) + d.procs[pid].saved.tbSize
  {
    BytesFrame(c1.procs, d.procs, c1.feedback);
    BytesFrame(c1.procs, d.procs, c1.retrans);
    BytesAppend(d.procs, c1.feedback, pid);
  }

  lemma PostConserves(cfg: Config, r: Run, sched: Pusch)
    requires Inv(cfg, r.c) && Legitimate(r.c, sched) && !cfg.disableHarq && Conserved(r.c)
    ensures Postable(cfg, r.c, sched) && Conserved(PostIn(cfg, r, sched).c)
  {
    TakeBytes(cfg, r.c, sched);
    var (pid, c1) := Take(r.c, sched);
    hide Take, Inv, BusyBytes, Known;
    JoinBytes(c1, PostIn(cfg, r, sched).c, pid);
  }

  /** A PDU is expected if it is lost, or has the block size of a process that awaits feedback. */
  ghost predicate Expected(r: Run, e: Event) {
    e.Pdu? && e.id >= 0 && e.sdu.Some? ==>
      FeedbackKnown(r.c) && e.id in r.c.feedback && e.sdu.value == r.c.procs[e.id].saved.tbSize
  }

  ghost predicate AllExpected(cfg: Config, r: Run, es: seq<Event>)
    requires RunOk(cfg, r)
    decreases es
  {
    es != [] ==>
      Expected(r, es[0]) && (StepRunOk(cfg, r, es[0]); AllExpected(cfg, Step(cfg, r, es[0]), es[1..]))
  }

  lemma StepConserves(cfg: Config, r: Run, e: Event)
    requires RunOk(cfg, r) && !cfg.disableHarq && Conserved(r.c) && Expected(r, e)
    ensures Conserved(Step(cfg, r, e).c)
  {
    hide AllInStep, LogOk, Handle, PostIn, BusyBytes;
    match e
    case NewGrant(tbSize, slot) =>
      if r.c.available != [] {
        PostConserves(cfg, r, Pusch(-1, tbSize, slot));
      }
    case Retransmit(a) =>
      if r.c.retrans != [] {
        RetransmissionLegitimate(cfg, r.c, a);
        if RetransmissionGrant(r.c, a).Some? {
          PostConserves(cfg, r, RetransmissionGrant(r.c, a).value);
        }
      }
    case Pdu(id, sdu) =>
      if id >= 0 {
        ReceiveBytes(cfg, r.c, id, sdu);
      }
  }

  // ----- the clamps at 0

  /** Giving up a block takes no more than there is. */
  ghost predicate AbortFits(cfg: Config, c: Ctrl, pid: int)
    requires c.Has(pid)
  {
    Exhausted(cfg, c.procs[pid]) ==> c.procs[pid].saved.tbSize <= c.schedUlBytes
  }

  /** Every abort of handle_nr_ul_harq does so. */
  ghost predicate HandleFits(cfg: Config, c: Ctrl, id: int, crcFailed: bool)
    requires FeedbackKnown(c)
    decreases |c.feedback|
  {
    !cfg.disableHarq && c.feedback != [] ==>
      if c.feedback[0] == id then crcFailed ==> AbortFits(cfg, c, id)
      else AbortFits(cfg, c, c.feedback[0]) && HandleFits(cfg, DropHead(cfg, c), id, crcFailed)
  }

  /** None of the subtractions that a PDU leads to goes below 0. */
  ghost predicate PduFits(cfg: Config, c: Ctrl, id: int, sdu: Option<nat>)
    requires FeedbackKnown(c)
  {
    id >= 0 ==>
      match sdu
      case Some(len) => len <= c.schedUlBytes && HandleFits(cfg, c.(schedUlBytes := c.schedUlBytes - len), id, false)
      case None => HandleFits(cfg, c, id, true)
  }

  lemma {:induction false} BytesMember(procs: seq<Proc>, s: seq<int>, x: int)
    requires Known(s, |procs|) && x in s
    ensures procs[x].saved.tbSize <= Bytes(procs, s)
  {
    if x != s[0] {
      BytesMember(procs, s[1..], x);
    }
  }

  /** The head's block and the one to be released are both among the busy ones. */
  lemma HeadAndReleased(c: Ctrl, id: int, crcFailed: bool)
    requires FeedbackKnown(c) && Known(c.retrans, |c.procs|) && c.feedback != []
    ensures c.procs[c.feedback[0]].saved.tbSize
            + (if c.feedback[0] == id then 0 else Released(c, id, crcFailed)) <= BusyBytes(c)
  {
    if id in c.feedback && c.feedback[0] != id {
      BytesMember(c.procs, c.feedback[1..], id);
    }
  }

  lemma {:induction false} HandleNeverClamps(cfg: Config, c: Ctrl, id: int, crcFailed: bool, len: nat)
    requires !cfg.disableHarq && FeedbackKnown(c) && Known(c.retrans, |c.procs|)
    requires c.schedUlBytes == BusyBytes(c) - len && len <= Released(c, id, crcFailed)
    ensures HandleFits(cfg, c, id, crcFailed)
    decreases |c.feedback|
  {
    if c.feedback != [] {
      HeadAndReleased(c, id, crcFailed);
      if c.feedback[0] != id {
        var d := DropHead(cfg, c);
        DropHeadBytes(cfg, c, id, crcFailed);
        DropHeadFails(cfg, c);
        hide DropHead, BusyBytes, Released, Exhausted;
        HandleNeverClamps(cfg, d, id, crcFailed, len);
      } else {
        hide DropHead;
      }
    }
  }

  /** What the head's failure takes. */
  lemma DropHeadFails(cfg: Config, c: Ctrl)
    requires FeedbackKnown(c) && Known(c.retrans, |c.procs|) && c.feedback != []
    ensures var (d, pid) := (DropHead(cfg, c), c.feedback[0]);
            && FeedbackKnown(d) && Known(d.retrans, |d.procs|)
            && d.schedUlBytes == (if Exhausted(cfg, c.procs[pid])
                                  then Floor0(c.schedUlBytes - c.procs[pid].saved.tbSize) else c.schedUlBytes)
            && BusyBytes(d) == BusyBytes(c) - if Exhausted(cfg, c.procs[pid]) then c.procs[pid].saved.tbSize else 0
  {
    var pid := c.feedback[0];
    var c1 := c.(feedback := c.feedback[1..], procs := c.procs[pid := c.procs[pid].(waiting := false)]);
    HeadBytes(cfg, c, c1, pid);
    hide BusyBytes;
  }

  lemma PduNeverClamps(cfg: Config, r: Run, id: int, sdu: Option<nat>)
    requires Inv(cfg, r.c) && !cfg.disableHarq && Conserved(r.c) && Expected(r, Pdu(id, sdu))
    ensures FeedbackKnown(r.c) && PduFits(cfg, r.c, id, sdu)
  {
    InvListsKnown(cfg, r.c);
    if id >= 0 {
      match sdu
      case Some(len) =>
        BytesMember(r.c.procs, r.c.feedback, id);
        HandleNeverClamps(cfg, r.c.(schedUlBytes := r.c.schedUlBytes - len), id, false, len);
      case None =>
        HandleNeverClamps(cfg, r.c, id, true, 0);
    }
  }

  /** No PDU of a run leads to a clamp. */
  ghost predicate NeverClamps(cfg: Config, r: Run, es: seq<Event>)
    requires RunOk(cfg, r)
    decreases es
  {
    es != [] ==>
      && (es[0].Pdu? ==> FeedbackKnown(r.c) && PduFits(cfg, r.c, es[0].id, es[0].sdu))
      && (StepRunOk(cfg, r, es[0]); NeverClamps(cfg, Step(cfg, r, es[0]), es[1..]))
  }

  /** Over every run in which received SDUs are as expected, sched_ul_bytes is the sum of the block
      sizes of all busy processes, and the clamps at 0 never act. */
  lemma {:induction false} RunsConserve(cfg: Config, r: Run, es: seq<Event>)
    requires RunOk(cfg, r) && !cfg.disableHarq && Conserved(r.c) && AllExpected(cfg, r, es)
    ensures Conserved(RunAll(cfg, r, es).c) && NeverClamps(cfg, r, es)
    decreases es
  {
    if es != [] {
      StepConserves(cfg, r, es[0]);
      StepRunOk(cfg, r, es[0]);
      if es[0].Pdu? {
        PduNeverClamps(cfg, r, es[0].id, es[0].sdu);
      }
      hide Step, Conserved, PduFits, Inv, LogOk, AllInStep;
      RunsConserve(cfg, Step(cfg, r, es[0]), es[1..]);
    }
  }
}
