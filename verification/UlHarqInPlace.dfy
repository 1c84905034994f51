/**
  The uplink HARQ operations as the source performs them: fields and process records updated in
  place. Each method is proved equal to its function in module UlHarq, so the results about runs there
  are results about these methods.
 */
module UlHarqInPlace {
  import opened Basics
  import opened UlHarq
  import Runs = UlHarqRuns

  class UlHarqCtrl {
    const cfg: Config
    const procs: array<Proc>
    var available: seq<int>
    var feedback: seq<int>
    var retrans: seq<int>
    var schedUlBytes: int
    var errors: nat

    ghost function State(): Ctrl
      reads this, procs
    {
      Ctrl(available, feedback, retrans, procs[..], schedUlBytes, errors)
    }

    constructor (cfg: Config, n: nat)
      ensures this.cfg == cfg && fresh(procs) && Fresh(State(), n)
    {
      this.cfg := cfg;
      procs := new Proc[n](_ => Proc(0, false, false, 0, Pusch(-1, 0, 0)));
      available := seq(n, i => i);
      feedback, retrans := [], [];
      schedUlBytes, errors := 0, 0;
    }

    method FinishUl(pid: int)
      requires 0 <= pid < procs.Length
      modifies this, procs
      ensures State() == Finish(old(State()), pid)
    {
      procs[pid] := procs[pid].(ndi := !procs[pid].ndi);
      procs[pid] := procs[pid].(round := 0);
      available := available + [pid];
    }

    method AbortUl(pid: int)
      requires 0 <= pid < procs.Length
      modifies this, procs
      ensures State() == Abort(old(State()), pid)
    {
      FinishUl(pid);
      errors := errors + 1;
      schedUlBytes := schedUlBytes - procs[pid].saved.tbSize;
      if schedUlBytes < 0 {
        schedUlBytes := 0;
      }
    }

    /** Next round for a failed transmission, or the end of it. */
    method FailUl(pid: int)
      requires 0 <= pid < procs.Length
      modifies this, procs
      ensures State() == Fail(cfg, old(State()), pid)
    {
      if procs[pid].round >= cfg.roundMax - 1 {
        AbortUl(pid);
      } else {
        procs[pid] := procs[pid].(round := procs[pid].round + 1);
        retrans := retrans + [pid];
      }
    }

    /** handle_nr_ul_harq */
    method HandleUl(id: int, crcFailed: bool)
      requires FeedbackKnown(State())
      modifies this, procs
      ensures State() == Handle(cfg, old(State()), id, crcFailed)
    {
      if cfg.disableHarq {
        return;
      }
      while feedback == [] || feedback[0] != id
        invariant FeedbackKnown(State())
        invariant Handle(cfg, State(), id, crcFailed) == Handle(cfg, old(State()), id, crcFailed)
        decreases |feedback|
      {
        if feedback == [] {
          return;
        }
        var pid := feedback[0];
        ghost var before := State();
        feedback := feedback[1..];
        procs[pid] := procs[pid].(waiting := false);
        assert State() == before.(feedback := before.feedback[1..],
                                  procs := before.procs[pid := before.procs[pid].(waiting := false)]);
        FailUl(pid);
        assert State() == DropHead(cfg, before);
      }
      var pid := feedback[0];
      ghost var before := State();
      feedback := feedback[1..];
      procs[pid] := procs[pid].(feedbackSlot := -1);
      procs[pid] := procs[pid].(waiting := false);
      assert State() == before.(feedback := before.feedback[1..],
                                procs := before.procs[pid := before.procs[pid].(waiting := false, feedbackSlot := -1)]);
      if !crcFailed {
        FinishUl(pid);
      } else {
        FailUl(pid);
      }
      assert State() == ReportHead(cfg, before, crcFailed);
    }

    /** The HARQ part of _nr_rx_sdu. */
    method ReceiveUl(id: int, sdu: Option<nat>)
      requires FeedbackKnown(State())
      modifies this, procs
      ensures State() == Receive(cfg, old(State()), id, sdu)
    {
      if id < 0 {
        return;
      }
      if sdu.Some? {
        schedUlBytes := schedUlBytes - sdu.value;
        if schedUlBytes < 0 {
          schedUlBytes := 0;
        }
      }
      HandleUl(id, sdu.None?);
    }

    /** The process a grant uses leaves the list it is on. */
    method TakeProcess(sched: Pusch) returns (pid: int)
      requires Postable(cfg, State(), sched)
      modifies this
      ensures (pid, State()) == Take(old(State()), sched)
    {
      pid := sched.pid;
      if pid < 0 {
        assert available != [] && available[0] >= 0;
        pid := available[0];
        available := available[1..];
      } else if procs[pid].round == 0 {
        available := RemoveFirst(available, pid);
      } else {
        retrans := RemoveFirst(retrans, pid);
      }
    }

    /** The HARQ part of post_process_ulsch. The source's assertions are the asserts, here and above: a
        process is free for a new grant, it is not waiting, and its round is within bounds. */
    method PostProcess(sched: Pusch) returns (tx: Tx)
      requires Inv(cfg, State()) && Legitimate(State(), sched)
      modifies this, procs
      ensures Inv(cfg, State())
      ensures Postable(cfg, old(State()), sched) && (State(), tx) == Post(cfg, old(State()), sched)
    {
      PostInv(cfg, State(), sched);
      TakeEffect(cfg, State(), sched);
      hide Take, Inv, Legitimate;
      ghost var before := State();
      var pid := TakeProcess(sched);
      assert !procs[pid].waiting;
      if cfg.disableHarq {
        FinishUl(pid);
      } else {
        feedback := feedback + [pid];
        procs[pid] := procs[pid].(feedbackSlot := sched.slot);
        procs[pid] := procs[pid].(waiting := true);
      }
      assert procs[pid].round < cfg.roundMax;
      if procs[pid].round == 0 {
        procs[pid] := procs[pid].(saved := sched.(pid := pid));
        schedUlBytes := schedUlBytes + sched.tbSize;
      }
      tx := Tx(pid, procs[pid].ndi, sched.tbSize, procs[pid].round);
      assert State().procs == Post(cfg, before, sched).0.procs;
    }

    /** allocate_ul_retransmission for the head of the retransmission list. The source's assertion that
        the saved grant names this process is the assert. */
    method AllocateRetransmission(a: Attempt) returns (tx: Option<Tx>)
      requires Inv(cfg, State()) && retrans != [] && State().Has(retrans[0])
      modifies this, procs
      ensures Inv(cfg, State())
      ensures var (c, g) := (old(State()), RetransmissionGrant(old(State()), a));
              if g.None? then tx.None? && State() == c
              else Postable(cfg, c, g.value) && tx.Some? && (State(), tx.value) == Post(cfg, c, g.value)
    {
      Runs.RetransmissionLegitimate(cfg, State(), a);
      var pid := retrans[0];
      var newSched := procs[pid].saved.(slot := a.slot);
      assert newSched.pid == pid;
      if a.Reuse? {
        if !a.fits {
          return None;
        }
      } else {
        if !a.success || a.newTbs != newSched.tbSize {
          return None;
        }
        newSched := newSched.(tbSize := a.newTbs);
      }
      if !a.cce {
        return None;
      }
      var t := PostProcess(newSched);
      tx := Some(t);
    }
  }
}
