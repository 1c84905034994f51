/**
  The scheduling side of the downlink HARQ processes: which list a process is taken from, what becomes
  of it, and whether its transport block is built anew. The lists and records are those of UlHarq;
  the bytes expected from the UE have no counterpart and stay as they are.

  Feedback is handled elsewhere; the states it leaves are taken to keep the invariant.
 */
module DlHarq {
  import opened Basics
  import opened UlHarq

  /** A process gets a PUCCH occasion for its feedback, or it is finished at once. The saved grant is
      written with a new block only. */
  function Schedule(c: Ctrl, sched: Pusch, pucch: bool): (r: (int, Ctrl))
    requires Postable(Config(1, false), c, sched)
  {
    var (pid, c1) := Take(c, sched);
    var c2 := if !pucch then Finish(c1, pid)
              else c1.(feedback := c1.feedback + [pid],
                       procs := c1.procs[pid := c1.procs[pid].(feedbackSlot := sched.slot, waiting := true)]);
    (pid, if c2.procs[pid].round == 0
          then c2.(procs := c2.procs[pid := c2.procs[pid].(saved := sched.(pid := pid))])
          else c2)
  }

  /** A grant names a free process (pf_dl), a process awaiting retransmission, or none. */
  ghost predicate Schedulable(c: Ctrl, sched: Pusch) {
    if sched.pid < 0 then c.available != [] else sched.pid in c.available || sched.pid in c.retrans
  }

  /** The process taken is on no list afterwards, and no other moved. */
  lemma ScheduleTakes(cfg: Config, c: Ctrl, sched: Pusch)
    requires Inv(cfg, c) && !cfg.disableHarq && Schedulable(c, sched)
    ensures Postable(Config(1, false), c, sched)
    ensures var (pid, c1) := Take(c, sched);
            && c1.Count(pid) == 0 && (forall x :: x != pid ==> SameLists(c, c1, x))
            && c1.procs == c.procs && c.Has(pid) && !c.procs[pid].waiting && c.procs[pid].round < cfg.roundMax
            && (c.procs[pid].round > 0 ==> c.procs[pid].saved.pid == pid && sched.pid == pid && pid in c.retrans)
  {
    var pid := if sched.pid < 0 then c.available[0] else sched.pid;
    InvKnown(cfg, c, pid);
    assert ProcOk(cfg, c, pid);
    if sched.pid < 0 || sched.pid in c.retrans {
      TakeEffect(cfg, c, sched);
    } else {
      hide Inv;
      assert Take(c, sched) == (pid, c.(available := RemoveFirst(c.available, pid)));
    }
  }

  /** Scheduling keeps the lists a duplicate-free partition of the processes, whether or not there is
      feedback, and takes a process that is not waiting. */
  lemma ScheduleInv(cfg: Config, c: Ctrl, sched: Pusch, pucch: bool)
    requires Inv(cfg, c) && !cfg.disableHarq && Schedulable(c, sched)
    ensures Postable(Config(1, false), c, sched)
    ensures var (pid, d) := Schedule(c, sched, pucch); c.Has(pid) && !c.procs[pid].waiting && Inv(cfg, d)
  {
    ScheduleTakes(cfg, c, sched);
    hide Take;
    var (pid, c1) := Take(c, sched);
    var d := Schedule(c, sched, pucch).1;
    forall x | x != pid
      ensures SameLists(c, d, x)
    {
      assert SameLists(c, c1, x);
    }
    OneProcessInv(cfg, c, d, pid);
  }

  /** A grant takes its process off its list. With a PUCCH occasion the process waits at the end of the feedback
      list for that slot; without, it is available again with the other NDI. A block that starts is saved. */
  lemma ScheduleExactly(cfg: Config, c: Ctrl, sched: Pusch, pucch: bool)
    requires Inv(cfg, c) && !cfg.disableHarq && Schedulable(c, sched)
    ensures Postable(Config(1, false), c, sched)
    ensures var (pid, d) := Schedule(c, sched, pucch);
            && pid == (if sched.pid < 0 then c.available[0] else sched.pid) && c.Has(pid) && d.Has(pid)
            && d.schedUlBytes == c.schedUlBytes && d.errors == c.errors && |d.procs| == |c.procs|
            && (forall x :: c.Has(x) && x != pid ==> d.procs[x] == c.procs[x])
            && d.feedback == (if pucch then c.feedback + [pid] else c.feedback)
            && (pucch && sched.pid < 0 ==> d.available == c.available[1..] && d.retrans == c.retrans)
            && (!pucch && sched.pid < 0 ==> d.available == c.available[1..] + [pid] && d.retrans == c.retrans)
            && var (p, q) := (c.procs[pid], d.procs[pid]);
               && q.waiting == pucch && q.ndi == (p.ndi == pucch) && q.round == (if pucch then p.round else 0)
               && q.feedbackSlot == (if pucch then sched.slot else p.feedbackSlot)
               && q.saved == if q.round == 0 then sched.(pid := pid) else p.saved
  {
    ScheduleTakes(cfg, c, sched);
    hide Inv;
  }

  /** The transport block is built anew exactly if the process was in its first round or gets no feedback;
      otherwise the saved block is sent again under the same NDI, and the grant has its size, which is
      what nr_schedule_ue_spec asserts. */
  lemma RetransmissionBlock(cfg: Config, c: Ctrl, a: Attempt, pucch: bool)
    requires Inv(cfg, c) && !cfg.disableHarq && c.retrans != [] && c.Has(c.retrans[0])
    requires RetransmissionGrant(c, a).Some?
    ensures var g := RetransmissionGrant(c, a).value;
            && g.pid == c.retrans[0] && Postable(Config(1, false), c, g)
            && var (pid, d) := Schedule(c, g, pucch);
               && pid == g.pid && d.Has(pid)
               && (d.procs[pid].round == 0 <==> !pucch)
               && (d.procs[pid].ndi == c.procs[pid].ndi <==> pucch)
               && d.procs[pid].saved.tbSize == g.tbSize == c.procs[pid].saved.tbSize
  {
    assert ProcOk(cfg, c, c.retrans[0]);
    ScheduleTakes(cfg, c, RetransmissionGrant(c, a).value);
    hide Take;
  }

  /** A new grant saves itself under the process it got. */
  lemma NewBlock(cfg: Config, c: Ctrl, sched: Pusch, pucch: bool)
    requires Inv(cfg, c) && !cfg.disableHarq && c.available != [] && (sched.pid < 0 || sched.pid == c.available[0])
    ensures Postable(Config(1, false), c, sched)
    ensures var (pid, d) := Schedule(c, sched, pucch);
            pid == c.available[0] && d.Has(pid) && d.procs[pid].round == 0 && d.procs[pid].saved == sched.(pid := pid)
  {
    ScheduleTakes(cfg, c, sched);
    assert ProcOk(cfg, c, c.available[0]);
  }

  class DlHarqCtrl {
    var available: seq<int>
    var feedback: seq<int>
    var retrans: seq<int>
    const procs: array<Proc>

    constructor (n: nat, unused: Proc)
      requires unused.round == 0 && !unused.waiting
      ensures fresh(procs) && Fresh(State(), n)
    {
      available, feedback, retrans := seq(n, i => i), [], [];
      procs := new Proc[n](_ => unused);
    }

    function State(): Ctrl
      reads this, procs
    {
      Ctrl(available, feedback, retrans, procs[..], 0, 0)
    }

    /** finish_nr_dl_harq */
    method FinishDl(pid: int)
      requires State().Has(pid)
      modifies this`available, procs
      ensures State() == Finish(old(State()), pid)
    {
      procs[pid] := procs[pid].(ndi := !procs[pid].ndi);
      procs[pid] := procs[pid].(round := 0);
      available := available + [pid];
    }

    /** The process of a grant leaves its list. */
    method TakeDl(sched: Pusch) returns (pid: int)
      requires Postable(Config(1, false), State(), sched)
      modifies this`available, this`retrans
      ensures (pid, State()) == Take(old(State()), sched)
    {
      pid := sched.pid;
      if pid < 0 {
        assert available != [] && available[0] >= 0;
        pid := available[0];
        available := available[1..];
      } else if procs[pid].round == 0 {
        available := RemoveFirst(available, pid);
      } else {
        retrans := RemoveFirst(retrans, pid);
      }
    }

    /** The HARQ part of nr_schedule_ue_spec. The source's assertions that a process is free and not waiting,
        and that a retransmission has the size of its buffered block, are the asserts. */
    method ScheduleUe(ghost cfg: Config, sched: Pusch, pucch: bool) returns (pid: int)
      requires Inv(cfg, State()) && !cfg.disableHarq && Schedulable(State(), sched)
      requires sched.pid in retrans && State().Has(sched.pid) ==> sched.tbSize == procs[sched.pid].saved.tbSize
      modifies this, procs
      ensures Inv(cfg, State())
      ensures Postable(Config(1, false), old(State()), sched) && (pid, State()) == Schedule(old(State()), sched, pucch)
    {
      ScheduleInv(cfg, State(), sched, pucch);
      ScheduleTakes(cfg, State(), sched);
      hide Inv, Schedulable, Take;
      ghost var before := State();
      pid := TakeDl(sched);
      assert !procs[pid].waiting;
      if !pucch {
        FinishDl(pid);
      } else {
        feedback := feedback + [pid];
        procs[pid] := procs[pid].(feedbackSlot := sched.slot);
        procs[pid] := procs[pid].(waiting := true);
      }
      if procs[pid].round != 0 {
        assert procs[pid].saved.tbSize == sched.tbSize;
      } else {
        procs[pid] := procs[pid].(saved := sched.(pid := pid));
      }
      assert State().procs == Schedule(before, sched, pucch).1.procs;
      hide Schedule;
    }
  }
}
