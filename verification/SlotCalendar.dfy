/**
  What the uplink preprocessor does, told on ticks that never wrap.

  A `Calendar` says of every tick whether it is a downlink or uplink slot and whether some
  time-domain allocation takes a grant from one to the other. Nothing here knows of frames: module
  UlPreprocessor proves that the source's (frame, slot) loop computes exactly `Turns`.
 */
module SlotCalendar {
  import opened Basics

  datatype Calendar = Calendar(
    isDl: int -> bool,
    isUl: int -> bool,
    nextUl: int -> int,          // first uplink tick at or after a tick
    lastDl: int -> bool,         // last downlink slot of its period
    reach: (int, int) -> bool,   // some TDA takes a grant sent at one tick to another
    lead: nat,                   // processing time between grant and transmission
    horizon: int,                // no TDA reaches further
    span: nat)                   // every stretch of this length holds an uplink tick
  {
    ghost predicate Lawful() {
      && (forall t :: t <= nextUl(t) < t + span && isUl(nextUl(t)))
      && (forall t, x :: t <= x < nextUl(t) ==> !isUl(x))
      && (forall cur, u :: reach(cur, u) ==> u <= cur + horizon)
    }
  }

  /** One run of pf_ul: the uplink slot it schedules, and how many grants it made. */
  datatype Turn<T> = Turn(target: T, sched: nat)

  datatype Outcome = Outcome(next: int, turns: seq<Turn<int>>)

  /** Where the loop looks first. */
  ghost function Candidate(c: Calendar, cur: int, next: int): int {
    c.nextUl(Max(next, cur + c.lead))
  }

  /** After a turn with s grants the loop goes on, unless nothing was scheduled and later slots of the
      period can still reach what this one left. */
  ghost predicate GoesOn(c: Calendar, cur: int, s: nat) {
    s > 0 || c.lastDl(cur)
  }

  /** What one slot brings: the DCI budget, and the grants pf_ul makes in each of its runs (none past
      the end of the list). */
  datatype Input = Input(dci: int, grants: seq<nat>)

  function Head(grants: seq<nat>): nat {
    if grants == [] then 0 else grants[0]
  }

  function Tail(grants: seq<nat>): seq<nat> {
    if grants == [] then [] else grants[1..]
  }

  /** The preprocessor's loop. */
  ghost function Turns(c: Calendar, cur: int, next: int, x: Input): Outcome
    requires c.Lawful()
    decreases cur + c.horizon + 1 - next
  {
    if x.dci <= 0 then Outcome(next, [])
    else
      var u := Candidate(c, cur, next);
      var s := Head(x.grants);
      if !c.isDl(cur) || !c.reach(cur, u) then Outcome(u, [])
      else if !GoesOn(c, cur, s) then Outcome(u, [Turn(u, s)])
      else
        var rest := Turns(c, cur, u + 1, Input(x.dci - s, Tail(x.grants)));
        Outcome(rest.next, [Turn(u, s)] + rest.turns)
  }

  /** Consecutive slots, the first one at cur. */
  ghost function Run(c: Calendar, cur: int, next: int, xs: seq<Input>): Outcome
    requires c.Lawful()
    decreases xs
  {
    if xs == [] then Outcome(next, [])
    else
      var first := Turns(c, cur, next, xs[0]);
      var rest := Run(c, cur + 1, first.next, xs[1..]);
      Outcome(rest.next, first.turns + rest.turns)
  }

  // ----- safety over whole runs

  /** Turns made while the pointer went from lo to next: each target is at or after the one before,
      and after it if that one got grants. */
  ghost predicate NeverBack(turns: seq<Turn<int>>, lo: int, next: int) {
    if turns == [] then lo <= next
    else
      var t := turns[0];
      lo <= t.target && NeverBack(turns[1..], if t.sched > 0 then t.target + 1 else t.target, next)
  }

  lemma {:induction false} NeverBackConcat(a: seq<Turn<int>>, b: seq<Turn<int>>, lo: int, mid: int, next: int)
    requires NeverBack(a, lo, mid) && NeverBack(b, mid, next)
    ensures NeverBack(a + b, lo, next)
  {
    if a == [] {
      assert a + b == b;
      NeverBackFromLower(b, lo, mid, next);
    } else {
      assert (a + b)[1..] == a[1..] + b;
      NeverBackConcat(a[1..], b, if a[0].sched > 0 then a[0].target + 1 else a[0].target, mid, next);
    }
  }

  lemma {:induction false} NeverBackFromLower(b: seq<Turn<int>>, lo: int, mid: int, next: int)
    requires lo <= mid && NeverBack(b, mid, next)
    ensures NeverBack(b, lo, next)
  {
  }

  /** The chain spelled out for any two turns. */
  lemma {:induction false} NeverBackMeans(turns: seq<Turn<int>>, lo: int, next: int, i: nat, j: nat)
    requires NeverBack(turns, lo, next) && i <= j <= |turns|
    ensures i < |turns| ==> lo <= turns[i].target
    ensures lo <= next
    ensures i < j ==>
      var t := if j < |turns| then turns[j].target else next;
      turns[i].target <= t && (turns[i].sched > 0 ==> turns[i].target < t)
  {
    if turns != [] {
      var lo' := if turns[0].sched > 0 then turns[0].target + 1 else turns[0].target;
      NeverBackMeans(turns[1..], lo', next, if i == 0 then 0 else i - 1, if j == 0 then 0 else j - 1);
      if i == 0 < j {
        NeverBackMeans(turns[1..], lo', next, j - 1, j - 1);
      }
    }
  }

  lemma NeverBackCons(t: Turn<int>, rest: seq<Turn<int>>, lo: int, next: int)
    requires lo <= t.target && NeverBack(rest, t.target + 1, next)
    ensures NeverBack([t] + rest, lo, next)
  {
    NeverBackFromLower(rest, if t.sched > 0 then t.target + 1 else t.target, t.target + 1, next);
    assert ([t] + rest)[1..] == rest;
  }

  lemma NeverBackIdle(lo: int, u: int)
    requires lo <= u
    ensures NeverBack([], lo, u) && NeverBack([Turn(u, 0)], lo, u)
  {
  }

  lemma {:induction false} TurnsNeverBack(c: Calendar, cur: int, next: int, x: Input)
    requires c.Lawful()
    ensures var o := Turns(c, cur, next, x); NeverBack(o.turns, next, o.next)
    decreases cur + c.horizon + 1 - next
  {
    hide Head, Tail, NeverBack;
    NeverBackIdle(next, next);
    if x.dci > 0 {
      var u, s := Candidate(c, cur, next), Head(x.grants);
      NeverBackIdle(next, u);
      if c.isDl(cur) && c.reach(cur, u) && GoesOn(c, cur, s) {
        var rest := Turns(c, cur, u + 1, Input(x.dci - s, Tail(x.grants)));
        TurnsNeverBack(c, cur, u + 1, Input(x.dci - s, Tail(x.grants)));
        NeverBackCons(Turn(u, s), rest.turns, next, rest.next);
      }
    }
  }

  lemma {:induction false} RunNeverBackChain(c: Calendar, cur: int, next: int, xs: seq<Input>)
    requires c.Lawful()
    ensures var o := Run(c, cur, next, xs); NeverBack(o.turns, next, o.next)
    decreases xs
  {
    if xs != [] {
      var first := Turns(c, cur, next, xs[0]);
      var rest := Run(c, cur + 1, first.next, xs[1..]);
      TurnsNeverBack(c, cur, next, xs[0]);
      RunNeverBackChain(c, cur + 1, first.next, xs[1..]);
      NeverBackConcat(first.turns, rest.turns, next, first.next, rest.next);
    }
  }

  /** Over every run of consecutive slots the pointer never moves back, and a tick that got grants, or
      an earlier one, is never targeted again. */
  lemma RunNeverBack(c: Calendar, cur: int, next: int, xs: seq<Input>)
    requires c.Lawful()
    ensures var o := Run(c, cur, next, xs);
            && next <= o.next
            && (forall i :: 0 <= i < |o.turns| ==> next <= o.turns[i].target <= o.next)
            && (forall i :: 0 <= i < |o.turns| && o.turns[i].sched > 0 ==> o.turns[i].target < o.next)
            && (forall i, j :: 0 <= i < j < |o.turns| ==> o.turns[i].target <= o.turns[j].target)
            && (forall i, j :: 0 <= i < j < |o.turns| && o.turns[i].sched > 0 ==> o.turns[i].target < o.turns[j].target)
  {
    var o := Run(c, cur, next, xs);
    RunNeverBackChain(c, cur, next, xs);
    NeverBackMeans(o.turns, next, o.next, 0, 0);
    forall i: nat | i < |o.turns|
      ensures next <= o.turns[i].target <= o.next && (o.turns[i].sched > 0 ==> o.turns[i].target < o.next)
    {
      NeverBackMeans(o.turns, next, o.next, i, |o.turns|);
    }
    forall i: nat, j: nat | i < j < |o.turns|
      ensures o.turns[i].target <= o.turns[j].target
      ensures o.turns[i].sched > 0 ==> o.turns[i].target < o.turns[j].target
    {
      NeverBackMeans(o.turns, next, o.next, i, j);
    }
  }

  /** Every target is an uplink tick, at least the processing time ahead, that some TDA reaches. */
  lemma {:induction false} TurnsGoodTargets(c: Calendar, cur: int, next: int, x: Input)
    requires c.Lawful()
    ensures forall t <- Turns(c, cur, next, x).turns ::
              cur + c.lead <= t.target && c.isUl(t.target) && c.reach(cur, t.target)
    decreases cur + c.horizon + 1 - next
  {
    if x.dci > 0 {
      var u, s := Candidate(c, cur, next), Head(x.grants);
      if c.isDl(cur) && c.reach(cur, u) && GoesOn(c, cur, s) {
        TurnsGoodTargets(c, cur, u + 1, Input(x.dci - s, Tail(x.grants)));
      }
    }
  }

  ghost function TotalSched(turns: seq<Turn<int>>): nat {
    if turns == [] then 0 else turns[0].sched + TotalSched(turns[1..])
  }

  /** The targets from lo to hi are exactly the uplink ticks there, each once and in order. */
  ghost predicate SweepsAll(c: Calendar, turns: seq<Turn<int>>, lo: int, hi: int)
    requires c.Lawful()
  {
    if turns == [] then c.nextUl(lo) == hi
    else turns[0].target == c.nextUl(lo) && SweepsAll(c, turns[1..], turns[0].target + 1, hi)
  }

  /** In the last downlink slot of a period the loop leaves out no uplink tick: as long as DCIs
      remain, the targets are all uplink ticks from the first candidate up to the first that no TDA
      reaches. */
  lemma {:induction false} LastDlSweep(c: Calendar, cur: int, next: int, x: Input)
    requires c.Lawful() && c.lastDl(cur) && c.isDl(cur)
    requires TotalSched(Turns(c, cur, next, x).turns) < x.dci
    ensures var o := Turns(c, cur, next, x);
            !c.reach(cur, o.next) && SweepsAll(c, o.turns, Max(next, cur + c.lead), o.next)
    decreases cur + c.horizon + 1 - next
  {
    hide Head, Tail, SweepsAll, TotalSched;
    var u, s := Candidate(c, cur, next), Head(x.grants);
    if c.reach(cur, u) {
      var left := Input(x.dci - s, Tail(x.grants));
      var rest := Turns(c, cur, u + 1, left);
      assert u + 1 == Max(u + 1, cur + c.lead);
      SweepsCons(c, Turn(u, s), rest.turns, Max(next, cur + c.lead), rest.next);
      LastDlSweep(c, cur, u + 1, left);
    } else {
      SweepsNothing(c, Max(next, cur + c.lead));
    }
  }

  lemma SweepsCons(c: Calendar, t: Turn<int>, rest: seq<Turn<int>>, lo: int, hi: int)
    requires c.Lawful()
    ensures TotalSched([t] + rest) == t.sched + TotalSched(rest)
    ensures t.target == c.nextUl(lo) && SweepsAll(c, rest, t.target + 1, hi) ==> SweepsAll(c, [t] + rest, lo, hi)
  {
    assert ([t] + rest)[1..] == rest;
  }

  lemma SweepsNothing(c: Calendar, lo: int)
    requires c.Lawful()
    ensures SweepsAll(c, [], lo, c.nextUl(lo)) && TotalSched([]) == 0
  {
  }

  lemma {:induction false} SweepsAllMeans(c: Calendar, turns: seq<Turn<int>>, lo: int, hi: int, t: int)
    requires c.Lawful() && SweepsAll(c, turns, lo, hi)
    ensures lo <= t < hi && c.isUl(t) ==> exists x <- turns :: x.target == t
    ensures c.isUl(hi)
  {
    if turns != [] {
      SweepsAllMeans(c, turns[1..], turns[0].target + 1, hi, t);
      if t == turns[0].target {
        assert turns[0] in turns;
      }
    }
  }

  // ----- a call in plain terms

  /** u is the first uplink tick from lo on. */
  ghost predicate FirstUl(c: Calendar, lo: int, u: int) {
    lo <= u && c.isUl(u) && forall x :: lo <= x < u ==> !c.isUl(x)
  }

  /** Each target is the first uplink tick after the one before it, and the first one the first from lo on:
      no uplink tick is left out. Each turn has the next number of grants. */
  ghost predicate Sweeps(c: Calendar, turns: seq<Turn<int>>, lo: int, grants: seq<nat>) {
    turns != [] ==>
      && FirstUl(c, lo, turns[0].target) && turns[0].sched == (if grants == [] then 0 else grants[0])
      && Sweeps(c, turns[1..], turns[0].target + 1, Tail(grants))
  }

  /** The same for any turn. */
  lemma {:induction false} SweepsMeans(c: Calendar, turns: seq<Turn<int>>, lo: int, grants: seq<nat>, i: nat)
    requires Sweeps(c, turns, lo, grants) && i < |turns|
    ensures FirstUl(c, if i == 0 then lo else turns[i - 1].target + 1, turns[i].target)
    ensures turns[i].sched == if i < |grants| then grants[i] else 0
    decreases i
  {
    hide FirstUl;
    if i > 0 {
      SweepsMeans(c, turns[1..], turns[0].target + 1, Tail(grants), i - 1);
    }
  }

  lemma SweepsMore(c: Calendar, t: Turn<int>, rest: seq<Turn<int>>, lo: int, grants: seq<nat>)
    requires FirstUl(c, lo, t.target) && t.sched == (if grants == [] then 0 else grants[0])
    requires Sweeps(c, rest, t.target + 1, Tail(grants))
    ensures Sweeps(c, [t] + rest, lo, grants)
  {
    assert ([t] + rest)[1..] == rest;
    hide FirstUl, Tail;
  }

  /** The loop goes on after a turn. */
  ghost predicate Continues(c: Calendar, cur: int, next: int, x: Input) {
    var (u, s) := (Candidate(c, cur, next), Head(x.grants));
    x.dci > 0 && c.isDl(cur) && c.reach(cur, u) && (s > 0 || c.lastDl(cur))
  }

  /** The slot and the input that are left then. */
  function Left(x: Input): Input {
    Input(x.dci - Head(x.grants), Tail(x.grants))
  }

  /** What is left is reached in fewer turns. */
  lemma ContinuesCloser(c: Calendar, cur: int, next: int, x: Input)
    requires c.Lawful() && Continues(c, cur, next, x)
    ensures next <= Candidate(c, cur, next) <= cur + c.horizon
  {
  }

  lemma TurnsContinue(c: Calendar, cur: int, next: int, x: Input)
    requires c.Lawful() && Continues(c, cur, next, x)
    ensures var u := Candidate(c, cur, next);
            var rest := Turns(c, cur, u + 1, Left(x));
            FirstUl(c, Max(next, cur + c.lead), u) && Max(u + 1, cur + c.lead) == u + 1
            && Turns(c, cur, next, x) == Outcome(rest.next, [Turn(u, Head(x.grants))] + rest.turns)
  {
    TurnsCases(c, cur, next, x);
  }

  lemma TurnsEnd(c: Calendar, cur: int, next: int, x: Input)
    requires c.Lawful() && x.dci > 0 && !Continues(c, cur, next, x)
    ensures var o := Turns(c, cur, next, x);
            && FirstUl(c, Max(next, cur + c.lead), o.next)
            && ((o.turns == [] && (!c.isDl(cur) || !c.reach(cur, o.next)))
                || (o.turns == [Turn(o.next, 0)] && Head(x.grants) == 0 && !c.lastDl(cur)))
  {
    TurnsCases(c, cur, next, x);
  }

  lemma SweepStep(c: Calendar, cur: int, next: int, x: Input)
    requires c.Lawful()
    requires var u := Candidate(c, cur, next);
             Continues(c, cur, next, x) ==> Sweeps(c, Turns(c, cur, u + 1, Left(x)).turns, u + 1, Tail(x.grants))
    ensures Sweeps(c, Turns(c, cur, next, x).turns, Max(next, cur + c.lead), x.grants)
  {
    var u, lo := Candidate(c, cur, next), Max(next, cur + c.lead);
    SweepsNone(c, lo, x.grants);
    if Continues(c, cur, next, x) {
      TurnsContinue(c, cur, next, x);
      hide FirstUl, Sweeps, Candidate, Turns, Calendar.Lawful, Max, Continues;
      SweepsMore(c, Turn(u, Head(x.grants)), Turns(c, cur, u + 1, Left(x)).turns, lo, x.grants);
    } else if x.dci > 0 {
      TurnsEnd(c, cur, next, x);
      hide FirstUl, Sweeps, Candidate, Turns, Calendar.Lawful, Max, Continues;
      var o := Turns(c, cur, next, x);
      if o.turns != [] {
        SweepsNone(c, o.next + 1, Tail(x.grants));
        SweepsMore(c, Turn(o.next, 0), [], lo, x.grants);
      }
    }
  }

  lemma {:induction false} TurnsSweep(c: Calendar, cur: int, next: int, x: Input)
    requires c.Lawful()
    ensures Sweeps(c, Turns(c, cur, next, x).turns, Max(next, cur + c.lead), x.grants)
    decreases cur + c.horizon + 1 - next
  {
    hide Turns, Sweeps, Calendar.Lawful;
    if Continues(c, cur, next, x) {
      ContinuesCloser(c, cur, next, x);
      TurnsCases(c, cur, next, x);
      hide Candidate, Continues, Left;
      TurnsSweep(c, cur, Candidate(c, cur, next) + 1, Left(x));
    }
    hide *;
    SweepStep(c, cur, next, x);
  }

  lemma SweepsNone(c: Calendar, lo: int, grants: seq<nat>)
    ensures Sweeps(c, [], lo, grants)
  {
  }

  /** One pass of the loop. */
  lemma TurnsCases(c: Calendar, cur: int, next: int, x: Input)
    requires c.Lawful() && x.dci > 0
    ensures var (u, s) := (Candidate(c, cur, next), Head(x.grants));
            && FirstUl(c, Max(next, cur + c.lead), u) && Max(u + 1, cur + c.lead) == u + 1 && next <= u
            && (c.reach(cur, u) ==> u <= cur + c.horizon)
            && Turns(c, cur, next, x)
               == if !c.isDl(cur) || !c.reach(cur, u) then Outcome(u, [])
                  else if s == 0 && !c.lastDl(cur) then Outcome(u, [Turn(u, 0)])
                  else var rest := Turns(c, cur, u + 1, Input(x.dci - s, Tail(x.grants)));
                       Outcome(rest.next, [Turn(u, s)] + rest.turns)
  {
  }

  /** Only in the last downlink slot of a period does the loop go on after a turn without grants; otherwise
      it stops there and leaves the pointer at that slot, so that a later downlink slot can still serve it. */
  ghost predicate WaitsAtIdle(c: Calendar, cur: int, o: Outcome) {
    forall i :: 0 <= i < |o.turns| && o.turns[i].sched == 0 && !c.lastDl(cur) ==>
      i == |o.turns| - 1 && o.next == o.turns[i].target
  }

  lemma WaitsMore(c: Calendar, cur: int, t: Turn<int>, rest: Outcome)
    requires WaitsAtIdle(c, cur, rest) && (t.sched > 0 || c.lastDl(cur))
    ensures WaitsAtIdle(c, cur, Outcome(rest.next, [t] + rest.turns))
  {
    var turns := [t] + rest.turns;
    assert forall i :: 0 < i < |turns| ==> turns[i] == rest.turns[i - 1];
  }

  lemma {:induction false} TurnsWaitAtIdle(c: Calendar, cur: int, next: int, x: Input)
    requires c.Lawful()
    ensures WaitsAtIdle(c, cur, Turns(c, cur, next, x))
    decreases cur + c.horizon + 1 - next
  {
    if x.dci > 0 {
      var u, s := Candidate(c, cur, next), Head(x.grants);
      if c.isDl(cur) && c.reach(cur, u) && (s > 0 || c.lastDl(cur)) {
        var left := Input(x.dci - s, Tail(x.grants));
        TurnsWaitAtIdle(c, cur, u + 1, left);
        WaitsMore(c, cur, Turn(u, s), Turns(c, cur, u + 1, left));
      }
    }
  }

  /** Why the loop stopped where it did, in a downlink slot with DCIs: they are used up; or the last turn had
      no grants, and this is not the last downlink slot; or no TDA reaches the first uplink tick that is left. */
  ghost predicate StopsWell(c: Calendar, cur: int, lo: int, dci: int, o: Outcome) {
    var n := |o.turns|;
    || (n > 0 && TotalSched(o.turns) >= dci && o.next == o.turns[n - 1].target + 1)
    || (n > 0 && o.turns[n - 1].sched == 0 && !c.lastDl(cur) && o.next == o.turns[n - 1].target)
    || (TotalSched(o.turns) < dci && !c.reach(cur, o.next)
        && FirstUl(c, if n == 0 then lo else o.turns[n - 1].target + 1, o.next))
  }

  lemma StopsMore(c: Calendar, cur: int, lo: int, dci: int, t: Turn<int>, rest: Outcome)
    requires || StopsWell(c, cur, t.target + 1, dci - t.sched, rest)
             || (dci <= t.sched && rest == Outcome(t.target + 1, []))
    ensures StopsWell(c, cur, lo, dci, Outcome(rest.next, [t] + rest.turns))
  {
    var turns := [t] + rest.turns;
    assert turns[1..] == rest.turns;
    assert rest.turns != [] ==> turns[|turns| - 1] == rest.turns[|rest.turns| - 1];
    hide FirstUl;
  }

  lemma StopsAtOnce(c: Calendar, cur: int, lo: int, dci: int, o: Outcome)
    requires dci > 0
    requires || (o.turns == [] && !c.reach(cur, o.next) && FirstUl(c, lo, o.next))
             || (o.turns == [Turn(o.next, 0)] && !c.lastDl(cur))
    ensures StopsWell(c, cur, lo, dci, o)
  {
    hide FirstUl;
    assert TotalSched([]) == 0;
  }

  lemma StopStep(c: Calendar, cur: int, next: int, x: Input)
    requires c.Lawful() && x.dci > 0 && c.isDl(cur)
    requires var u := Candidate(c, cur, next);
             Continues(c, cur, next, x) && Left(x).dci > 0 ==>
               StopsWell(c, cur, u + 1, Left(x).dci, Turns(c, cur, u + 1, Left(x)))
    ensures StopsWell(c, cur, Max(next, cur + c.lead), x.dci, Turns(c, cur, next, x))
  {
    var u, lo := Candidate(c, cur, next), Max(next, cur + c.lead);
    if Continues(c, cur, next, x) {
      TurnsContinue(c, cur, next, x);
      if Left(x).dci <= 0 {
        TurnsElsewhere(c, cur, u + 1, Left(x));
      }
      assert Left(x).dci == x.dci - Head(x.grants);
      hide *;
      StopsMore(c, cur, lo, x.dci, Turn(u, Head(x.grants)), Turns(c, cur, u + 1, Left(x)));
    } else {
      TurnsEnd(c, cur, next, x);
      hide *;
      StopsAtOnce(c, cur, lo, x.dci, Turns(c, cur, next, x));
    }
  }

  lemma {:induction false} TurnsStopWell(c: Calendar, cur: int, next: int, x: Input)
    requires c.Lawful() && x.dci > 0 && c.isDl(cur)
    ensures StopsWell(c, cur, Max(next, cur + c.lead), x.dci, Turns(c, cur, next, x))
    decreases cur + c.horizon + 1 - next
  {
    hide Turns, StopsWell, Calendar.Lawful;
    if Continues(c, cur, next, x) && Left(x).dci > 0 {
      ContinuesCloser(c, cur, next, x);
      TurnsCases(c, cur, next, x);
      hide Candidate, Continues, Left;
      TurnsStopWell(c, cur, Candidate(c, cur, next) + 1, Left(x));
    }
    hide *;
    StopStep(c, cur, next, x);
  }

  /** Without DCIs nothing happens; outside downlink slots the pointer only moves to the next uplink tick. */
  lemma TurnsElsewhere(c: Calendar, cur: int, next: int, x: Input)
    requires c.Lawful() && (x.dci <= 0 || !c.isDl(cur))
    ensures var o := Turns(c, cur, next, x);
            o.turns == [] && if x.dci <= 0 then o.next == next else FirstUl(c, Max(next, cur + c.lead), o.next)
  {
  }

  /** A turn that can be made in a slot. */
  ghost predicate MadeIn(c: Calendar, slot: int, t: Turn<int>) {
    c.isDl(slot) && slot + c.lead <= t.target && c.reach(slot, t.target)
  }

  /** Every turn of a run is made in one of its slots, a downlink slot from which a TDA reaches the target. */
  lemma {:induction false} RunGoodTargets(c: Calendar, cur: int, next: int, xs: seq<Input>, t: Turn<int>)
    requires c.Lawful() && t in Run(c, cur, next, xs).turns
    ensures exists slot :: cur <= slot < cur + |xs| && MadeIn(c, slot, t)
    decreases xs
  {
    var first := Turns(c, cur, next, xs[0]);
    if t in first.turns {
      TurnsGoodTargets(c, cur, next, xs[0]);
      if !c.isDl(cur) {
        TurnsElsewhere(c, cur, next, xs[0]);
      }
      hide Turns, Run;
      assert MadeIn(c, cur, t);
    } else {
      RunGoodTargets(c, cur + 1, first.next, xs[1..], t);
    }
  }

  // ----- how far the pointer strays from the current slot

  /** With a clock that turns every 2 * half ticks: the pointer is close enough to the current slot to
      tell before from after. */
  ghost predicate InSight(c: Calendar, half: int, cur: int, next: int) {
    cur + c.lead - half < next && c.nextUl(next) < cur + half
  }

  /** One period more than any offset in use fits into half a turn. */
  ghost predicate Fits(c: Calendar, half: int) {
    Max(c.lead, c.horizon) + c.span < half
  }

  lemma InSightInitially(c: Calendar, half: int, cur: int, next: int)
    requires c.Lawful()
    requires cur + c.lead - half < next <= cur + half - c.span
    ensures InSight(c, half, cur, next)
  {
  }

  lemma CandidateInSight(c: Calendar, half: int, cur: int, next: int)
    requires c.Lawful() && Fits(c, half) && InSight(c, half, cur, next)
    ensures var u := Candidate(c, cur, next);
            c.nextUl(u) == u && cur + c.lead <= u < cur + half && InSight(c, half, cur, u)
  {
    var u := Candidate(c, cur, next);
    assert !(u < c.nextUl(u));
    assert next < cur + c.lead ==> c.nextUl(cur + c.lead) < cur + half;
  }

  lemma {:induction false} TurnsInSight(c: Calendar, half: int, cur: int, next: int, x: Input)
    requires c.Lawful() && Fits(c, half) && InSight(c, half, cur, next)
    ensures InSight(c, half, cur, Turns(c, cur, next, x).next)
    ensures x.dci > 0 ==> cur + c.lead <= Turns(c, cur, next, x).next
    decreases cur + c.horizon + 1 - next
  {
    if x.dci > 0 {
      var u, s := Candidate(c, cur, next), Head(x.grants);
      CandidateInSight(c, half, cur, next);
      if c.isDl(cur) && c.reach(cur, u) && GoesOn(c, cur, s) {
        assert c.nextUl(u + 1) < u + 1 + c.span;
        assert InSight(c, half, cur, u + 1);
        hide InSight, Fits;
        TurnsInSight(c, half, cur, u + 1, Input(x.dci - s, Tail(x.grants)));
      }
    }
  }

  /** The outcome, after some turns were already made. */
  ghost function Prepend(done: seq<Turn<int>>, o: Outcome): Outcome {
    Outcome(o.next, done + o.turns)
  }

  lemma TurnsDone(c: Calendar, cur: int, next: int, x: Input, done: seq<Turn<int>>)
    requires c.Lawful() && x.dci <= 0
    ensures Prepend(done, Turns(c, cur, next, x)) == Outcome(next, done)
  {
  }

  lemma RunDone(c: Calendar, cur: int, next: int, done: seq<Turn<int>>)
    requires c.Lawful()
    ensures Prepend(done, Run(c, cur, next, [])) == Outcome(next, done)
  {
  }

  lemma PrependNothing(o: Outcome)
    ensures Prepend([], o) == o
  {
    assert [] + o.turns == o.turns;
  }

  /** The body of the loop: what one pass adds, and that it leaves the pointer in sight. */
  lemma TurnsUnfold(c: Calendar, half: int, cur: int, next: int, x: Input, done: seq<Turn<int>>)
    requires c.Lawful() && Fits(c, half) && InSight(c, half, cur, next) && x.dci > 0
    ensures var u, s := Candidate(c, cur, next), Head(x.grants);
            var o := Prepend(done, Turns(c, cur, next, x));
            && InSight(c, half, cur, u) && next <= u
            && (c.reach(cur, u) ==> u <= cur + c.horizon && InSight(c, half, cur, u + 1))
            && (!c.isDl(cur) || !c.reach(cur, u) ==> o == Outcome(u, done))
            && (c.isDl(cur) && c.reach(cur, u) && !GoesOn(c, cur, s) ==> o == Outcome(u, done + [Turn(u, s)]))
            && (c.isDl(cur) && c.reach(cur, u) && GoesOn(c, cur, s) ==>
                  o == Prepend(done + [Turn(u, s)], Turns(c, cur, u + 1, Input(x.dci - s, Tail(x.grants)))))
  {
    CandidateInSight(c, half, cur, next);
    var u, s := Candidate(c, cur, next), Head(x.grants);
    assert c.nextUl(u + 1) < u + 1 + c.span;
    assert done + [] == done;
    assert forall rest: seq<Turn<int>> :: done + ([Turn(u, s)] + rest) == done + [Turn(u, s)] + rest;
  }

  /** For how many more slots the pointer stays in sight if it is left where it is. */
  function Patience(c: Calendar, half: int, cur: int, next: int): int {
    next - (cur + c.lead - half) - 1
  }

  /** No stretch of slots without DCIs is longer than the pointer stays in sight: `left` slots at first,
      and `full` once a slot with DCIs has caught up. */
  ghost predicate Patient(xs: seq<Input>, left: int, full: int) {
    xs != [] ==> if xs[0].dci > 0 then Patient(xs[1..], full, full) else left > 0 && Patient(xs[1..], left - 1, full)
  }

  /** If every slot has DCIs there is no such stretch. */
  lemma {:induction false} BusyIsPatient(xs: seq<Input>, left: int, full: int)
    requires forall i :: 0 <= i < |xs| ==> xs[i].dci > 0
    ensures Patient(xs, left, full)
  {
    if xs != [] {
      BusyIsPatient(xs[1..], full, full);
    }
  }

  lemma {:induction false} MorePatience(xs: seq<Input>, left: int, more: int, full: int)
    requires Patient(xs, left, full) && left <= more
    ensures Patient(xs, more, full)
  {
    if xs != [] && xs[0].dci <= 0 {
      MorePatience(xs[1..], left - 1, more - 1, full);
    }
  }

  /** The same one level up, for a run of slots. */
  lemma RunUnfold(c: Calendar, half: int, cur: int, next: int, xs: seq<Input>, done: seq<Turn<int>>)
    requires c.Lawful() && Fits(c, half) && InSight(c, half, cur, next) && xs != []
    requires Patient(xs, Patience(c, half, cur, next), half - 2)
    ensures var o := Turns(c, cur, next, xs[0]);
            && InSight(c, half, cur + 1, o.next)
            && Patient(xs[1..], Patience(c, half, cur + 1, o.next), half - 2)
            && Prepend(done, Run(c, cur, next, xs)) == Prepend(done + o.turns, Run(c, cur + 1, o.next, xs[1..]))
  {
    var o := Turns(c, cur, next, xs[0]);
    TurnsInSight(c, half, cur, next, xs[0]);
    var rest := Run(c, cur + 1, o.next, xs[1..]);
    assert xs[0].dci <= 0 ==> o == Outcome(next, []);
    hide Turns;
    assert done + (o.turns + rest.turns) == done + o.turns + rest.turns;
    if xs[0].dci > 0 {
      MorePatience(xs[1..], half - 2, Patience(c, half, cur + 1, o.next), half - 2);
    }
  }
}
