/**
  The uplink HARQ processes of one UE: three lists (available, awaiting feedback, awaiting
  retransmission), the state of every process, and the bytes expected from the UE.

  The source's lists (nr_list) are FIFO lists without duplicates; here they are sequences. `Ctrl` is
  the state as a value, with one function per operation of the source; class `UlHarqCtrl` updates
  it in place and is proved equal to those functions.
 */
module UlHarq {
  import opened Basics

  /** The saved grant: its HARQ process, its transport block size, the slot of the transmission. */
  datatype Pusch = Pusch(pid: int, tbSize: nat, slot: nat)

  datatype Proc = Proc(round: nat, ndi: bool, waiting: bool, feedbackSlot: int, saved: Pusch)

  datatype Config = Config(roundMax: nat, disableHarq: bool)

  datatype Ctrl = Ctrl(
    available: seq<int>,
    feedback: seq<int>,
    retrans: seq<int>,
    procs: seq<Proc>,
    schedUlBytes: int,
    errors: nat)
  {
    predicate Has(pid: int) {
      0 <= pid < |procs|
    }

    /** How often a process is on some list. */
    ghost function Count(pid: int): nat {
      multiset(available)[pid] + multiset(feedback)[pid] + multiset(retrans)[pid]
    }
  }

  /** What goes out on air (prepare_pusch_pdu, config_uldci). */
  datatype Tx = Tx(pid: int, ndi: bool, tbSize: nat, round: nat)

  // ----- the operations

  function RemoveFirst(s: seq<int>, x: int): (r: seq<int>)
    requires x in s
    ensures multiset(r) == multiset(s) - multiset{x}
  {
    assert s == [s[0]] + s[1..];
    if s[0] == x then s[1..] else [s[0]] + RemoveFirst(s[1..], x)
  }

  lemma RemoveHead(s: seq<int>)
    requires s != []
    ensures RemoveFirst(s, s[0]) == s[1..]
  {
  }

  /** finish_nr_ul_harq */
  function Finish(c: Ctrl, pid: int): Ctrl
    requires c.Has(pid)
  {
    var p := c.procs[pid];
    c.(procs := c.procs[pid := p.(ndi := !p.ndi, round := 0)], available := c.available + [pid])
  }

  function Floor0(x: int): nat {
    if x < 0 then 0 else x
  }

  /** abort_nr_ul_harq */
  function Abort(c: Ctrl, pid: int): Ctrl
    requires c.Has(pid)
  {
    Finish(c, pid).(errors := c.errors + 1, schedUlBytes := Floor0(c.schedUlBytes - c.procs[pid].saved.tbSize))
  }

  predicate Exhausted(cfg: Config, p: Proc) {
    p.round >= cfg.roundMax - 1
  }

  /** A transmission failed: next round, or give up. */
  function Fail(cfg: Config, c: Ctrl, pid: int): Ctrl
    requires c.Has(pid)
  {
    if Exhausted(cfg, c.procs[pid]) then Abort(c, pid)
    else c.(procs := c.procs[pid := c.procs[pid].(round := c.procs[pid].round + 1)], retrans := c.retrans + [pid])
  }

  /** The head of the feedback list gets no feedback any more. */
  function DropHead(cfg: Config, c: Ctrl): Ctrl
    requires c.feedback != [] && c.Has(c.feedback[0])
  {
    var pid := c.feedback[0];
    Fail(cfg, c.(feedback := c.feedback[1..], procs := c.procs[pid := c.procs[pid].(waiting := false)]), pid)
  }

  /** The head of the feedback list was reported. */
  function ReportHead(cfg: Config, c: Ctrl, crcFailed: bool): Ctrl
    requires c.feedback != [] && c.Has(c.feedback[0])
  {
    var pid := c.feedback[0];
    var c1 := c.(feedback := c.feedback[1..],
                 procs := c.procs[pid := c.procs[pid].(waiting := false, feedbackSlot := -1)]);
    if crcFailed then Fail(cfg, c1, pid) else Finish(c1, pid)
  }

  predicate Known(s: seq<int>, n: nat) {
    forall i :: 0 <= i < |s| ==> 0 <= s[i] < n
  }

  predicate FeedbackKnown(c: Ctrl) {
    Known(c.feedback, |c.procs|)
  }

  /** handle_nr_ul_harq */
  function Handle(cfg: Config, c: Ctrl, id: int, crcFailed: bool): Ctrl
    requires FeedbackKnown(c)
    decreases |c.feedback|
  {
    if cfg.disableHarq || c.feedback == [] then c
    else if c.feedback[0] == id then ReportHead(cfg, c, crcFailed)
    else Handle(cfg, DropHead(cfg, c), id, crcFailed)
  }

  /** The HARQ part of _nr_rx_sdu; no value for a lost PDU. */
  function Receive(cfg: Config, c: Ctrl, id: int, sdu: Option<nat>): Ctrl
    requires FeedbackKnown(c)
  {
    if id < 0 then c
    else
      match sdu
      case Some(len) => Handle(cfg, c.(schedUlBytes := Floor0(c.schedUlBytes - len)), id, false)
      case None => Handle(cfg, c, id, true)
  }

  /** post_process_ulsch may be called: there is a process to take, and it is on the list the source
      removes it from. */
  predicate Postable(cfg: Config, c: Ctrl, sched: Pusch) {
    if sched.pid < 0 then c.available != [] && c.Has(c.available[0])
    else c.Has(sched.pid) && sched.pid in (if c.procs[sched.pid].round == 0 then c.available else c.retrans)
  }

  function Take(c: Ctrl, sched: Pusch): (int, Ctrl)
    requires Postable(Config(0, false), c, sched)
  {
    if sched.pid < 0 then (c.available[0], c.(available := c.available[1..]))
    else if c.procs[sched.pid].round == 0 then (sched.pid, c.(available := RemoveFirst(c.available, sched.pid)))
    else (sched.pid, c.(retrans := RemoveFirst(c.retrans, sched.pid)))
  }

  /** The HARQ part of post_process_ulsch. */
  function Post(cfg: Config, c: Ctrl, sched: Pusch): (Ctrl, Tx)
    requires Postable(cfg, c, sched)
  {
    var (pid, c1) := Take(c, sched);
    var p := c1.procs[pid];
    var c2 := if cfg.disableHarq then Finish(c1, pid)
              else c1.(feedback := c1.feedback + [pid],
                       procs := c1.procs[pid := p.(feedbackSlot := sched.slot, waiting := true)]);
    var q := c2.procs[pid];
    var c3 := if q.round == 0
              then c2.(procs := c2.procs[pid := q.(saved := sched.(pid := pid))],
                       schedUlBytes := c2.schedUlBytes + sched.tbSize)
              else c2;
    (c3, Tx(pid, q.ndi, sched.tbSize, q.round))
  }

  /** What the search for a retransmission's resources brings: the old time allocation fits again or
      not, or another one gives some transport block size; and whether a CCE was free. */
  datatype Attempt =
    | Reuse(fits: bool, cce: bool, slot: nat)
    | Refit(success: bool, newTbs: nat, cce: bool, slot: nat)

  /** allocate_ul_retransmission for the head of the retransmission list: the grant to post, if any. */
  function RetransmissionGrant(c: Ctrl, a: Attempt): Option<Pusch>
    requires c.retrans != [] && c.Has(c.retrans[0])
  {
    var saved := c.procs[c.retrans[0]].saved;
    match a
    case Reuse(fits, cce, slot) => if fits && cce then Some(saved.(slot := slot)) else None
    case Refit(success, newTbs, cce, slot) =>
      if success && newTbs == saved.tbSize && cce then Some(saved.(slot := slot, tbSize := newTbs)) else None
  }

  // ----- invariant

  ghost predicate ProcOk(cfg: Config, c: Ctrl, pid: int)
    requires c.Has(pid)
  {
    var p := c.procs[pid];
    && p.waiting == (pid in c.feedback)
    && (pid in c.available ==> p.round == 0)
    && (pid in c.feedback ==> p.round < cfg.roundMax)
    && (pid in c.retrans ==> 0 < p.round < cfg.roundMax)
    && (pid !in c.available ==> p.saved.pid == pid)
  }

  ghost predicate Inv(cfg: Config, c: Ctrl) {
    && cfg.roundMax > 0
    && (forall pid :: c.Count(pid) == if c.Has(pid) then 1 else 0)
    && (forall pid :: c.Has(pid) ==> ProcOk(cfg, c, pid))
    && (cfg.disableHarq ==> c.feedback == [] && c.retrans == [])
  }

  lemma InvKnown(cfg: Config, c: Ctrl, pid: int)
    requires Inv(cfg, c)
    requires pid in c.available || pid in c.feedback || pid in c.retrans
    ensures c.Has(pid) && c.Count(pid) == 1
  {
  }

  lemma InvFeedbackKnown(cfg: Config, c: Ctrl)
    requires Inv(cfg, c)
    ensures FeedbackKnown(c)
  {
    forall i | 0 <= i < |c.feedback|
      ensures c.Has(c.feedback[i])
    {
      InvKnown(cfg, c, c.feedback[i]);
    }
  }

  ghost predicate Fresh(c: Ctrl, n: nat) {
    && c.available == seq(n, i => i) && c.feedback == [] && c.retrans == []
    && |c.procs| == n && (forall i :: 0 <= i < n ==> c.procs[i].round == 0 && !c.procs[i].waiting)
    && c.schedUlBytes == 0 && c.errors == 0
  }

  lemma {:induction false} RangeCount(n: nat, pid: int)
    ensures multiset(seq(n, i => i))[pid] == if 0 <= pid < n then 1 else 0
  {
    if n > 0 {
      RangeCount(n - 1, pid);
      assert seq(n, i => i) == seq(n - 1, i => i) + [n - 1];
    }
  }

  lemma FreshInv(cfg: Config, c: Ctrl, n: nat)
    requires Fresh(c, n) && cfg.roundMax > 0
    ensures Inv(cfg, c)
  {
    forall pid
      ensures c.Count(pid) == if c.Has(pid) then 1 else 0
    {
      RangeCount(n, pid);
    }
  }

  /** One process moves from the head of a list to the tail of another. */
  lemma HeadMoves(s: seq<int>, t: seq<int>, pid: int)
    requires s != [] && s[0] == pid
    ensures multiset(s[1..]) == multiset(s) - multiset{pid}
    ensures multiset(t + [pid]) == multiset(t) + multiset{pid}
  {
    assert s == [pid] + s[1..];
  }

  /** Both states list a process the same number of times in each list. */
  ghost predicate SameLists(c: Ctrl, d: Ctrl, x: int) {
    && multiset(d.available)[x] == multiset(c.available)[x]
    && multiset(d.feedback)[x] == multiset(c.feedback)[x]
    && multiset(d.retrans)[x] == multiset(c.retrans)[x]
  }

  /** A step that touches one process only keeps the invariant if that process ends up well. */
  lemma OneProcessInv(cfg: Config, c: Ctrl, d: Ctrl, pid: int)
    requires Inv(cfg, c) && c.Has(pid)
    requires |d.procs| == |c.procs| && forall x :: c.Has(x) && x != pid ==> d.procs[x] == c.procs[x]
    requires forall x :: x != pid ==> SameLists(c, d, x)
    requires d.Count(pid) == 1 && ProcOk(cfg, d, pid)
    requires cfg.disableHarq ==> d.feedback == [] && d.retrans == []
    ensures Inv(cfg, d)
  {
    forall x
      ensures d.Count(x) == if d.Has(x) then 1 else 0
    {
      assert c.Count(x) == if c.Has(x) then 1 else 0;
      assert x != pid ==> SameLists(c, d, x);
    }
    forall x | d.Has(x)
      ensures ProcOk(cfg, d, x)
    {
      if x != pid {
        assert ProcOk(cfg, c, x) && SameLists(c, d, x);
        assert (x in d.available <==> x in c.available) && (x in d.feedback <==> x in c.feedback)
               && (x in d.retrans <==> x in c.retrans);
      }
    }
  }

  /** c1 is c after the head of its feedback list was taken off. */
  ghost predicate HeadTaken(c: Ctrl, c1: Ctrl, pid: int) {
    && c.feedback != [] && c.feedback[0] == pid && c.Has(pid)
    && c1.available == c.available && c1.retrans == c.retrans && c1.feedback == c.feedback[1..]
    && |c1.procs| == |c.procs| && (forall x :: c.Has(x) && x != pid ==> c1.procs[x] == c.procs[x])
    && c1.procs[pid] == c.procs[pid].(waiting := false, feedbackSlot := c1.procs[pid].feedbackSlot)
  }

  /** d is c with pid moved from the feedback list to the available or to the retransmission list. */
  ghost predicate MovedTo(c: Ctrl, d: Ctrl, pid: int, toAvailable: bool) {
    && (forall x :: x != pid ==> SameLists(c, d, x))
    && (forall x :: c.Has(x) && x != pid ==> d.Has(x) && d.procs[x] == c.procs[x])
    && |d.procs| == |c.procs| && d.Count(pid) == 1 && pid !in d.feedback
    && (pid in d.available) == toAvailable && (pid in d.retrans) == !toAvailable
  }

  lemma FailMoves(cfg: Config, c: Ctrl, c1: Ctrl, pid: int)
    requires Inv(cfg, c) && HeadTaken(c, c1, pid)
    ensures MovedTo(c, Fail(cfg, c1, pid), pid, Exhausted(cfg, c.procs[pid]))
  {
    InvKnown(cfg, c, pid);
    HeadMoves(c.feedback, c.available, pid);
    HeadMoves(c.feedback, c.retrans, pid);
  }

  lemma FinishMoves(cfg: Config, c: Ctrl, c1: Ctrl, pid: int)
    requires Inv(cfg, c) && HeadTaken(c, c1, pid)
    ensures MovedTo(c, Finish(c1, pid), pid, true)
  {
    InvKnown(cfg, c, pid);
    HeadMoves(c.feedback, c.available, pid);
  }

  lemma FailInv(cfg: Config, c: Ctrl, c1: Ctrl, pid: int)
    requires Inv(cfg, c) && HeadTaken(c, c1, pid)
    ensures Inv(cfg, Fail(cfg, c1, pid)) && Inv(cfg, Finish(c1, pid))
  {
    assert ProcOk(cfg, c, pid);
    FailMoves(cfg, c, c1, pid);
    FinishMoves(cfg, c, c1, pid);
    OneProcessInv(cfg, c, Finish(c1, pid), pid);
    OneProcessInv(cfg, c, Fail(cfg, c1, pid), pid);
  }

  lemma DropHeadInv(cfg: Config, c: Ctrl)
    requires Inv(cfg, c) && c.feedback != []
    ensures c.Has(c.feedback[0]) && Inv(cfg, DropHead(cfg, c))
  {
    var pid := c.feedback[0];
    InvKnown(cfg, c, pid);
    FailInv(cfg, c, c.(feedback := c.feedback[1..], procs := c.procs[pid := c.procs[pid].(waiting := false)]), pid);
  }

  lemma ReportHeadInv(cfg: Config, c: Ctrl, crcFailed: bool)
    requires Inv(cfg, c) && c.feedback != []
    ensures c.Has(c.feedback[0]) && Inv(cfg, ReportHead(cfg, c, crcFailed))
  {
    var pid := c.feedback[0];
    InvKnown(cfg, c, pid);
    var c1 := c.(feedback := c.feedback[1..],
                 procs := c.procs[pid := c.procs[pid].(waiting := false, feedbackSlot := -1)]);
    FailInv(cfg, c, c1, pid);
  }

  lemma {:induction false} HandleInv(cfg: Config, c: Ctrl, id: int, crcFailed: bool)
    requires Inv(cfg, c)
    ensures FeedbackKnown(c) && Inv(cfg, Handle(cfg, c, id, crcFailed))
    decreases |c.feedback|
  {
    InvFeedbackKnown(cfg, c);
    if !cfg.disableHarq && c.feedback != [] {
      if c.feedback[0] == id {
        ReportHeadInv(cfg, c, crcFailed);
      } else {
        DropHeadInv(cfg, c);
        HandleInv(cfg, DropHead(cfg, c), id, crcFailed);
      }
    }
  }

  /** A grant that names no process, or the saved grant of a process awaiting retransmission. */
  ghost predicate Legitimate(c: Ctrl, sched: Pusch) {
    if sched.pid < 0 then c.available != [] else sched.pid in c.retrans
  }

  /** The process taken is on no list afterwards. */
  lemma TakeEffect(cfg: Config, c: Ctrl, sched: Pusch)
    requires Inv(cfg, c) && Legitimate(c, sched)
    ensures Postable(cfg, c, sched)
    ensures var (pid, c1) := Take(c, sched);
            && c1.Count(pid) == 0 && (forall x :: x != pid ==> SameLists(c, c1, x))
            && c1.procs == c.procs && c.Has(pid) && !c.procs[pid].waiting && c.procs[pid].round < cfg.roundMax
            && (c.procs[pid].round > 0 ==> c.procs[pid].saved.pid == pid)
            && (cfg.disableHarq ==> c.procs[pid].round == 0 && c1.feedback == [] && c1.retrans == [])
  {
    var pid := if sched.pid < 0 then c.available[0] else sched.pid;
    InvKnown(cfg, c, pid);
    assert ProcOk(cfg, c, pid);
    if sched.pid < 0 {
      HeadMoves(c.available, c.feedback, pid);
    }
  }

  /** The assertions of post_process_ulsch hold, and it keeps the invariant. */
  lemma PostInv(cfg: Config, c: Ctrl, sched: Pusch)
    requires Inv(cfg, c) && Legitimate(c, sched)
    ensures Postable(cfg, c, sched)
    ensures var (pid, c1) := Take(c, sched); !c1.procs[pid].waiting && Post(cfg, c, sched).1.round < cfg.roundMax
    ensures Inv(cfg, Post(cfg, c, sched).0)
  {
    TakeEffect(cfg, c, sched);
    hide Take;
    var (pid, c1) := Take(c, sched);
    var d := Post(cfg, c, sched).0;
    forall x | x != pid
      ensures SameLists(c, d, x)
    {
      assert SameLists(c, c1, x);
    }
    OneProcessInv(cfg, c, d, pid);
  }

  // ----- the exact effect of a feedback

  ghost function IndexOf(s: seq<int>, x: int): (k: nat)
    ensures k <= |s| && (k < |s| ==> s[k] == x) && x !in s[..k]
  {
    if s == [] || s[0] == x then 0
    else
      var k := 1 + IndexOf(s[1..], x);
      assert s[..k] == [s[0]] + s[1..][..k - 1];
      k
  }

  /** The processes of s, in order, that have (or have not) used up their rounds. */
  ghost function Select(cfg: Config, procs: seq<Proc>, s: seq<int>, exhausted: bool): seq<int>
    requires Known(s, |procs|)
  {
    if s == [] then []
    else (if Exhausted(cfg, procs[s[0]]) == exhausted then [s[0]] else []) + Select(cfg, procs, s[1..], exhausted)
  }

  lemma {:induction false} SelectFrame(cfg: Config, procs: seq<Proc>, procs': seq<Proc>, s: seq<int>, exhausted: bool)
    requires |procs| == |procs'| && Known(s, |procs|) && forall i :: 0 <= i < |s| ==> procs[s[i]] == procs'[s[i]]
    ensures Select(cfg, procs, s, exhausted) == Select(cfg, procs', s, exhausted)
  {
    if s != [] {
      SelectFrame(cfg, procs, procs', s[1..], exhausted);
    }
  }

  /** A process after its transmission failed. */
  function Failed(cfg: Config, p: Proc): Proc {
    if Exhausted(cfg, p) then p.(waiting := false, ndi := !p.ndi, round := 0)
    else p.(waiting := false, round := p.round + 1)
  }

  /** A process after its feedback arrived. */
  function Reported(cfg: Config, p: Proc, crcFailed: bool): Proc {
    var q := p.(waiting := false, feedbackSlot := -1);
    if crcFailed then Failed(cfg, q) else q.(ndi := !q.ndi, round := 0)
  }

  ghost predicate Distinct(s: seq<int>) {
    forall i, j :: 0 <= i < j < |s| ==> s[i] != s[j]
  }

  /** The processes queued before the reported one, or all of them if it is not queued. */
  ghost function Lost(c: Ctrl, id: int): seq<int> {
    c.feedback[..IndexOf(c.feedback, id)]
  }

  ghost predicate GivesUp(cfg: Config, c: Ctrl, id: int, crcFailed: bool)
    requires FeedbackKnown(c)
  {
    id in c.feedback && (!crcFailed || Exhausted(cfg, c.procs[id]))
  }

  /** The processes that a feedback moves to the available list (exhausted) or to the retransmission
      list: those lost, in order, then the reported one. */
  ghost function Moved(cfg: Config, c: Ctrl, id: int, crcFailed: bool, exhausted: bool): seq<int>
    requires FeedbackKnown(c)
  {
    Select(cfg, c.procs, Lost(c, id), exhausted)
    + if id in c.feedback && GivesUp(cfg, c, id, crcFailed) == exhausted then [id] else []
  }

  /** What handle_nr_ul_harq must do to the lists: the processes before the reported one failed, in
      order; the reported one is finished, retried or aborted; what comes after it stays. */
  ghost predicate ListsEffect(cfg: Config, c: Ctrl, d: Ctrl, id: int, crcFailed: bool)
    requires FeedbackKnown(c)
  {
    var k := IndexOf(c.feedback, id);
    && d.feedback == (if k < |c.feedback| then c.feedback[k + 1..] else [])
    && d.available == c.available + Moved(cfg, c, id, crcFailed, true)
    && d.retrans == c.retrans + Moved(cfg, c, id, crcFailed, false)
    && d.errors == c.errors + |Select(cfg, c.procs, Lost(c, id), true)|
                   + if GivesUp(cfg, c, id, crcFailed) && crcFailed then 1 else 0
  }

  /** ... and to process x. */
  ghost predicate ProcEffect(cfg: Config, c: Ctrl, d: Ctrl, id: int, crcFailed: bool, x: int)
    requires c.Has(x) && d.Has(x)
  {
    d.procs[x] == if x in Lost(c, id) then Failed(cfg, c.procs[x])
                  else if x == id && id in c.feedback then Reported(cfg, c.procs[x], crcFailed)
                  else c.procs[x]
  }

  lemma DropHeadEffect(cfg: Config, c: Ctrl, id: int)
    requires FeedbackKnown(c) && Distinct(c.feedback) && c.feedback != [] && c.feedback[0] != id
    ensures var (c1, pid) := (DropHead(cfg, c), c.feedback[0]);
            && c1.feedback == c.feedback[1..] && FeedbackKnown(c1) && Distinct(c1.feedback)
            && Lost(c, id) == [pid] + Lost(c1, id) && pid !in c1.feedback
            && IndexOf(c.feedback, id) == 1 + IndexOf(c1.feedback, id) && (id in c.feedback <==> id in c1.feedback)
            && |c1.procs| == |c.procs| && c1.procs == c.procs[pid := Failed(cfg, c.procs[pid])]
            && (if Exhausted(cfg, c.procs[pid])
                then c1.available == c.available + [pid] && c1.retrans == c.retrans && c1.errors == c.errors + 1
                else c1.available == c.available && c1.retrans == c.retrans + [pid] && c1.errors == c.errors)
  {
    var s := c.feedback;
    assert s == [s[0]] + s[1..];
    var k := IndexOf(s[1..], id);
    assert s[..k + 1] == [s[0]] + s[1..][..k];
  }

  /** The first lost process, if it goes where `exhausted` says. */
  ghost function First(cfg: Config, c: Ctrl, exhausted: bool): seq<int>
    requires FeedbackKnown(c) && c.feedback != []
  {
    if Exhausted(cfg, c.procs[c.feedback[0]]) == exhausted then [c.feedback[0]] else []
  }

  lemma SelectStep(cfg: Config, c: Ctrl, id: int, exhausted: bool)
    requires FeedbackKnown(c) && Distinct(c.feedback) && c.feedback != [] && c.feedback[0] != id
    ensures FeedbackKnown(DropHead(cfg, c))
    ensures Select(cfg, c.procs, Lost(c, id), exhausted)
            == First(cfg, c, exhausted) + Select(cfg, DropHead(cfg, c).procs, Lost(DropHead(cfg, c), id), exhausted)
  {
    DropHeadEffect(cfg, c, id);
    hide DropHead, IndexOf;
    var c1, rest := DropHead(cfg, c), Lost(DropHead(cfg, c), id);
    assert ([c.feedback[0]] + rest)[1..] == rest;
    SelectFrame(cfg, c1.procs, c.procs, rest, exhausted);
  }

  lemma Append3(a: seq<int>, h: seq<int>, s: seq<int>)
    ensures (a + h) + s == a + (h + s)
    ensures a + [] == a
  {
  }

  lemma MovedStep(cfg: Config, c: Ctrl, id: int, crcFailed: bool, exhausted: bool)
    requires FeedbackKnown(c) && Distinct(c.feedback) && c.feedback != [] && c.feedback[0] != id
    ensures FeedbackKnown(DropHead(cfg, c))
    ensures Moved(cfg, c, id, crcFailed, exhausted)
            == First(cfg, c, exhausted) + Moved(cfg, DropHead(cfg, c), id, crcFailed, exhausted)
  {
    DropHeadEffect(cfg, c, id);
    SelectStep(cfg, c, id, exhausted);
    hide DropHead, IndexOf, Select, Lost, First;
    var c1 := DropHead(cfg, c);
    Append3(First(cfg, c, exhausted), Select(cfg, c1.procs, Lost(c1, id), exhausted),
            if id in c.feedback && GivesUp(cfg, c, id, crcFailed) == exhausted then [id] else []);
  }

  /** The list that `exhausted` says. */
  function Destination(c: Ctrl, exhausted: bool): seq<int> {
    if exhausted then c.available else c.retrans
  }

  lemma {:induction false} HandleMoves(cfg: Config, c: Ctrl, id: int, crcFailed: bool, exhausted: bool)
    requires FeedbackKnown(c) && Distinct(c.feedback) && !cfg.disableHarq
    ensures Destination(Handle(cfg, c, id, crcFailed), exhausted)
            == Destination(c, exhausted) + Moved(cfg, c, id, crcFailed, exhausted)
    decreases |c.feedback|
  {
    if c.feedback != [] && c.feedback[0] != id {
      var c1 := DropHead(cfg, c);
      DropHeadEffect(cfg, c, id);
      MovedStep(cfg, c, id, crcFailed, exhausted);
      HandleMoves(cfg, c1, id, crcFailed, exhausted);
      hide DropHead, Moved;
      Append3(Destination(c, exhausted), First(cfg, c, exhausted), Moved(cfg, c1, id, crcFailed, exhausted));
    }
  }

  lemma {:induction false} HandleRest(cfg: Config, c: Ctrl, id: int, crcFailed: bool)
    requires FeedbackKnown(c) && Distinct(c.feedback) && !cfg.disableHarq
    ensures var d, k := Handle(cfg, c, id, crcFailed), IndexOf(c.feedback, id);
            && d.feedback == (if k < |c.feedback| then c.feedback[k + 1..] else [])
            && d.errors == c.errors + |Select(cfg, c.procs, Lost(c, id), true)|
                           + if GivesUp(cfg, c, id, crcFailed) && crcFailed then 1 else 0
    decreases |c.feedback|
  {
    if c.feedback != [] && c.feedback[0] != id {
      DropHeadEffect(cfg, c, id);
      SelectStep(cfg, c, id, true);
      HandleRest(cfg, DropHead(cfg, c), id, crcFailed);
      hide DropHead, Select, Lost;
    }
  }

  lemma HandleLists(cfg: Config, c: Ctrl, id: int, crcFailed: bool)
    requires FeedbackKnown(c) && Distinct(c.feedback) && !cfg.disableHarq
    ensures ListsEffect(cfg, c, Handle(cfg, c, id, crcFailed), id, crcFailed)
  {
    HandleMoves(cfg, c, id, crcFailed, true);
    HandleMoves(cfg, c, id, crcFailed, false);
    HandleRest(cfg, c, id, crcFailed);
    hide Handle, Moved, Select, Lost, GivesUp;
  }

  lemma {:induction false} HandleProcs(cfg: Config, c: Ctrl, id: int, crcFailed: bool, x: int)
    requires FeedbackKnown(c) && Distinct(c.feedback) && !cfg.disableHarq && c.Has(x)
    ensures |Handle(cfg, c, id, crcFailed).procs| == |c.procs|
    ensures ProcEffect(cfg, c, Handle(cfg, c, id, crcFailed), id, crcFailed, x)
    decreases |c.feedback|
  {
    if c.feedback != [] && c.feedback[0] != id {
      DropHeadEffect(cfg, c, id);
      hide DropHead;
      HandleProcs(cfg, DropHead(cfg, c), id, crcFailed, x);
    }
  }

  lemma CountDistinct(s: seq<int>)
    requires forall x :: multiset(s)[x] <= 1
    ensures Distinct(s)
  {
    forall i, j | 0 <= i < j < |s|
      ensures s[i] != s[j]
    {
      assert s == s[..j] + s[j..];
      assert multiset(s)[s[j]] == multiset(s[..j])[s[j]] + multiset(s[j..])[s[j]];
      assert s[i] in s[..j] && s[j] in s[j..];
    }
  }

  /** The exact effect of a feedback in every state a run can reach. */
  lemma HandleExactly(cfg: Config, c: Ctrl, id: int, crcFailed: bool)
    requires Inv(cfg, c) && !cfg.disableHarq
    ensures FeedbackKnown(c) && ListsEffect(cfg, c, Handle(cfg, c, id, crcFailed), id, crcFailed)
    ensures forall x :: c.Has(x) ==>
              var d := Handle(cfg, c, id, crcFailed); d.Has(x) && ProcEffect(cfg, c, d, id, crcFailed, x)
  {
    InvFeedbackKnown(cfg, c);
    forall x
      ensures multiset(c.feedback)[x] <= 1
    {
      assert c.Count(x) == if c.Has(x) then 1 else 0;
    }
    CountDistinct(c.feedback);
    HandleLists(cfg, c, id, crcFailed);
    forall x | c.Has(x)
      ensures Handle(cfg, c, id, crcFailed).Has(x)
      ensures ProcEffect(cfg, c, Handle(cfg, c, id, crcFailed), id, crcFailed, x)
    {
      HandleProcs(cfg, c, id, crcFailed, x);
    }
  }

  // ----- single steps in plain terms

  /** A failed block with rounds left is not given up: its process joins the end of the retransmission list
      for the next round, and nothing is counted as an error. In its last round it is given up: the process is
      available again with the other NDI, and its bytes are no longer expected. */
  ghost predicate FailedOnce(cfg: Config, c: Ctrl, d: Ctrl, pid: int)
    requires c.Has(pid) && d.Has(pid)
  {
    var (p, q) := (c.procs[pid], d.procs[pid]);
    && !q.waiting && q.saved == p.saved
    && if p.round + 1 < cfg.roundMax
       then d.retrans == c.retrans + [pid] && d.available == c.available && d.errors == c.errors
            && d.schedUlBytes == c.schedUlBytes && q.round == p.round + 1 && q.ndi == p.ndi
       else d.retrans == c.retrans && d.available == c.available + [pid] && d.errors == c.errors + 1
            && d.schedUlBytes == Max(0, c.schedUlBytes - p.saved.tbSize) && q.round == 0 && q.ndi == !p.ndi
  }

  /** A process that was decoded is available again with the other NDI. */
  ghost predicate DecodedOnce(c: Ctrl, d: Ctrl, pid: int)
    requires c.Has(pid) && d.Has(pid)
  {
    var (p, q) := (c.procs[pid], d.procs[pid]);
    && d.retrans == c.retrans && d.available == c.available + [pid] && d.errors == c.errors
    && d.schedUlBytes == c.schedUlBytes && q == p.(round := 0, ndi := !p.ndi, waiting := false, feedbackSlot := -1)
  }

  /** Feedback for the head of the feedback list. */
  lemma HandleHead(cfg: Config, c: Ctrl, id: int, crcFailed: bool)
    requires Inv(cfg, c) && !cfg.disableHarq && c.feedback != [] && c.feedback[0] == id
    ensures FeedbackKnown(c) && c.Has(id)
    ensures var d := Handle(cfg, c, id, crcFailed);
            && d.feedback == c.feedback[1..] && |d.procs| == |c.procs|
            && (forall x :: c.Has(x) && x != id ==> d.procs[x] == c.procs[x])
            && if crcFailed then FailedOnce(cfg, c, d, id) && d.procs[id].feedbackSlot == -1
               else DecodedOnce(c, d, id)
  {
    InvFeedbackKnown(cfg, c);
    hide Inv;
  }

  /** Feedback for a process behind the head: the head is lost first. */
  lemma HandleLost(cfg: Config, c: Ctrl, id: int, crcFailed: bool)
    requires Inv(cfg, c) && !cfg.disableHarq && c.feedback != [] && c.feedback[0] != id
    ensures FeedbackKnown(c) && c.Has(c.feedback[0])
    ensures exists d :: FeedbackKnown(d) && Handle(cfg, c, id, crcFailed) == Handle(cfg, d, id, crcFailed)
              && d.feedback == c.feedback[1..] && |d.procs| == |c.procs|
              && (forall x :: c.Has(x) && x != c.feedback[0] ==> d.procs[x] == c.procs[x])
              && FailedOnce(cfg, c, d, c.feedback[0])
  {
    InvFeedbackKnown(cfg, c);
    hide Inv;
    var d := DropHead(cfg, c);
    assert FailedOnce(cfg, c, d, c.feedback[0]);
    assert Handle(cfg, c, id, crcFailed) == Handle(cfg, d, id, crcFailed);
  }

  /** A PDU without HARQ process changes nothing here; a received one is a decoded block of its length, a lost
      one a failed block. */
  lemma ReceiveMeans(cfg: Config, c: Ctrl, id: int, sdu: Option<nat>)
    requires Inv(cfg, c)
    ensures FeedbackKnown(c)
    ensures Receive(cfg, c, id, sdu)
            == if id < 0 then c
               else if sdu.None? then Handle(cfg, c, id, true)
               else Handle(cfg, c.(schedUlBytes := Max(0, c.schedUlBytes - sdu.value)), id, false)
  {
    InvFeedbackKnown(cfg, c);
  }

  /** A new grant takes its process off the front of the available list. The process waits at the end of the
      feedback list for the slot of the grant, which is saved under it; its block is counted as expected. */
  lemma PostNewExactly(cfg: Config, c: Ctrl, sched: Pusch)
    requires Inv(cfg, c) && c.available != [] && sched.pid < 0 && !cfg.disableHarq
    ensures Postable(cfg, c, sched) && c.Has(c.available[0])
    ensures var (pid, d) := (c.available[0], Post(cfg, c, sched).0);
            var saved := Pusch(pid, sched.tbSize, sched.slot);
            && d.available == c.available[1..] && d.feedback == c.feedback + [pid] && d.retrans == c.retrans
            && d.schedUlBytes == c.schedUlBytes + sched.tbSize && d.errors == c.errors
            && d.procs == c.procs[pid := Proc(0, c.procs[pid].ndi, true, sched.slot, saved)]
            && Post(cfg, c, sched).1 == Tx(pid, c.procs[pid].ndi, sched.tbSize, 0)
  {
    var pid := c.available[0];
    InvKnown(cfg, c, pid);
    assert ProcOk(cfg, c, pid);
    hide Inv;
  }

  /** A retransmission takes its process out of the retransmission list. It waits likewise, and nothing is saved
      or counted again. */
  lemma PostAgainExactly(cfg: Config, c: Ctrl, sched: Pusch)
    requires Inv(cfg, c) && c.retrans != [] && sched.pid == c.retrans[0] && !cfg.disableHarq
    ensures Postable(cfg, c, sched) && c.Has(sched.pid)
    ensures var (pid, d) := (sched.pid, Post(cfg, c, sched).0);
            && d == Ctrl(c.available, c.feedback + [pid], c.retrans[1..], d.procs, c.schedUlBytes, c.errors)
            && d.procs == c.procs[pid := c.procs[pid].(waiting := true, feedbackSlot := sched.slot)]
            && Post(cfg, c, sched).1 == Tx(pid, c.procs[pid].ndi, sched.tbSize, c.procs[pid].round)
  {
    InvKnown(cfg, c, sched.pid);
    assert ProcOk(cfg, c, sched.pid);
    RemoveHead(c.retrans);
    hide Inv, RemoveFirst;
  }

  /** The head of the retransmission list is granted exactly if the resources of its attempt fit, give the
      size of the saved block, and a CCE is free; the grant is the saved one in the new slot. */
  lemma RetransmissionExactly(c: Ctrl, a: Attempt)
    requires c.retrans != [] && c.Has(c.retrans[0])
    ensures var (saved, g) := (c.procs[c.retrans[0]].saved, RetransmissionGrant(c, a));
            && (g.Some? <==> a == Reuse(true, true, a.slot) || a == Refit(true, saved.tbSize, true, a.slot))
            && (g.Some? ==> g.value == Pusch(saved.pid, saved.tbSize, a.slot))
  {
  }
}
