/**
  nr_ulsch_preprocessor: the loop over uplink slots, on the source's wrapped (frame, slot) clock.

  The class keeps the pointer ul_next. Its methods are proved against module SlotCalendar, whose
  ticks never wrap; what that module proves of whole runs therefore holds of this loop.
 */
module UlPreprocessor {
  import opened Basics
  import opened SlotClock
  import opened Tda
  import Cal = SlotCalendar

  /** Frame structure and cell configuration. Slot tables are indexed by the slot in a period. */
  datatype Config = Config(
    slotsFrame: nat,
    slotsPeriod: nat,
    numDlSlots: nat,
    isUl: seq<bool>,
    isDl: seq<bool>,
    ulSymbols: seq<nat>,
    koffset: nat,
    minRxTx: nat,
    tdas: seq<TdaInfo>)
  {
    predicate WellFormed() {
      && 0 < slotsPeriod <= slotsFrame
      && |isUl| == |isDl| == |ulSymbols| == slotsPeriod
      && forall i :: 0 <= i < slotsPeriod ==> ulSymbols[i] <= SYMBOLS_PER_SLOT
    }

    predicate UlSlot(slot: nat)
      requires WellFormed()
    {
      isUl[slot % slotsPeriod]
    }

    predicate DlSlot(slot: nat)
      requires WellFormed()
    {
      isDl[slot % slotsPeriod]
    }

    predicate LastDlSlot(slot: nat)
      requires WellFormed()
    {
      slot % slotsPeriod == numDlSlots - 1
    }

    function SymbolsIn(slot: nat): (r: nat)
      requires WellFormed()
      ensures r <= SYMBOLS_PER_SLOT
    {
      ulSymbols[slot % slotsPeriod]
    }

    function Lead(): nat {
      minRxTx + koffset
    }

    /** Some TDA takes a grant over k2 slots to the given slot. */
    ghost predicate HasTda(k2: int, slot: nat)
      requires WellFormed()
    {
      exists t <- tdas :: Suits(t, k2, SymbolsIn(slot))
    }

    /** At least one uplink slot per period, a positive processing time, ordered TDAs, and offsets far
        below the 512 frames that clock differences can express. */
    ghost predicate Usable() {
      && WellFormed()
      && (exists u: nat :: u < slotsPeriod && isUl[u])
      && |tdas| <= 16 && WellOrdered(tdas)
      && minRxTx > 0
      && Max(Lead(), koffset + MaxK2(tdas)) + slotsFrame < 512 * slotsFrame < 0x1000_0000
    }
  }

  ghost function MaxK2(tdas: seq<TdaInfo>): (m: int)
    ensures forall t <- tdas :: t.k2 <= m
  {
    if tdas == [] then 0 else Max(tdas[0].k2, MaxK2(tdas[1..]))
  }

  // ----- the calendar of a configuration

  lemma ModStep(a: int, n: nat)
    requires n > 0 && a % n != 0
    ensures (a - 1) % n == a % n - 1
  {
    DivModUnique(a - 1, n, a / n, a % n - 1);
  }

  lemma ModZero(u: nat, t: int, n: nat)
    requires u < n && (u - t) % n == 0
    ensures t % n == u
  {
    DivModUnique(t, n, -((u - t) / n), u);
  }

  ghost predicate UlTick(c: Config, t: int)
    requires c.WellFormed()
  {
    c.UlSlot(t % c.slotsFrame)
  }

  /** The first uplink tick at or after t, given that slot u of a frame is an uplink slot. */
  ghost function NextUl(c: Config, u: nat, t: int): (r: int)
    requires c.WellFormed() && u < c.slotsFrame && c.UlSlot(u)
    ensures t <= r <= t + (u - t) % c.slotsFrame
    ensures UlTick(c, r)
    ensures forall x :: t <= x < r ==> !UlTick(c, x)
    decreases (u - t) % c.slotsFrame
  {
    if UlTick(c, t) then t
    else
      assert (u - t) % c.slotsFrame != 0 by {
        if (u - t) % c.slotsFrame == 0 {
          ModZero(u, t, c.slotsFrame);
        }
      }
      assert (u - (t + 1)) % c.slotsFrame == (u - t) % c.slotsFrame - 1 by {
        ModStep(u - t, c.slotsFrame);
        assert u - t - 1 == u - (t + 1);
      }
      NextUl(c, u, t + 1)
  }

  ghost function AnUlSlot(c: Config): (u: nat)
    requires c.Usable()
    ensures u < c.slotsFrame && c.UlSlot(u)
  {
    var u: nat :| u < c.slotsPeriod && c.isUl[u];
    assert u % c.slotsPeriod == u;
    u
  }

  ghost function FirstUl(c: Config, t: int): (r: int)
    requires c.Usable()
    ensures t <= r < t + c.slotsFrame && UlTick(c, r)
    ensures forall x :: t <= x < r ==> !UlTick(c, x)
  {
    NextUl(c, AnUlSlot(c), t)
  }

  ghost predicate DlTick(c: Config, t: int)
    requires c.WellFormed()
  {
    c.DlSlot(t % c.slotsFrame)
  }

  ghost predicate LastDlTick(c: Config, t: int)
    requires c.WellFormed()
  {
    c.LastDlSlot(t % c.slotsFrame)
  }

  /** Some TDA takes a grant sent at cur to tick u. */
  ghost predicate Reach(c: Config, cur: int, u: int)
    requires c.WellFormed()
  {
    c.HasTda(u - cur - c.koffset, u % c.slotsFrame)
  }

  ghost function CalendarOf(c: Config): (k: Cal.Calendar)
    requires c.Usable()
    ensures forall t :: k.isDl(t) == DlTick(c, t)
    ensures forall t :: k.isUl(t) == UlTick(c, t)
    ensures forall t :: k.nextUl(t) == FirstUl(c, t)
    ensures forall t :: k.lastDl(t) == LastDlTick(c, t)
    ensures forall cur, u :: k.reach(cur, u) == Reach(c, cur, u)
    ensures k.lead == c.Lead() && k.horizon == c.koffset + MaxK2(c.tdas) && k.span == c.slotsFrame
  {
    Cal.Calendar(
      t => DlTick(c, t),
      t => UlTick(c, t),
      t => FirstUl(c, t),
      t => LastDlTick(c, t),
      (cur, u) => Reach(c, cur, u),
      c.Lead(),
      c.koffset + MaxK2(c.tdas),
      c.slotsFrame)
  }

  lemma ReachBounded(c: Config, cur: int, u: int)
    requires c.WellFormed() && Reach(c, cur, u)
    ensures u <= cur + c.koffset + MaxK2(c.tdas)
  {
  }

  /** Lawful for the functions a calendar is made of. */
  lemma LawfulFrom(c: Config, k: Cal.Calendar)
    requires c.Usable()
    requires forall t :: k.isUl(t) == UlTick(c, t)
    requires forall t :: k.nextUl(t) == FirstUl(c, t)
    requires forall cur, u :: k.reach(cur, u) == Reach(c, cur, u)
    requires k.horizon == c.koffset + MaxK2(c.tdas) && k.span == c.slotsFrame
    ensures k.Lawful()
  {
    forall cur, u | k.reach(cur, u)
      ensures u <= cur + k.horizon
    {
      ReachBounded(c, cur, u);
    }
  }

  lemma CalendarLawful(c: Config)
    requires c.Usable()
    ensures CalendarOf(c).Lawful()
    ensures Cal.Fits(CalendarOf(c), 512 * c.slotsFrame)
  {
    LawfulFrom(c, CalendarOf(c));
  }

  // ----- the calendar in plain terms

  /** A TDA for distance k2 whose symbols are uplink symbols of the slot, the last ones of its 14. */
  ghost predicate Fitting(t: TdaInfo, k2: int, ulSymbols: nat) {
    t.k2 == k2 && (t.nrOfSymbols > 0 ==> 14 - ulSymbols <= t.startSymbol && t.startSymbol + t.nrOfSymbols <= 14)
  }

  lemma SuitsIsFitting(t: TdaInfo, k2: int, ulSymbols: nat)
    requires ulSymbols <= SYMBOLS_PER_SLOT
    ensures Suits(t, k2, ulSymbols) <==> Fitting(t, k2, ulSymbols)
  {
    if t.nrOfSymbols > 0 {
      SuitsMeaning(t, ulSymbols);
    } else {
      assert t.Mask() == {};
    }
  }

  /** Downlink slots come first in a period. */
  ghost predicate DlFirst(c: Config)
    requires c.WellFormed()
  {
    c.numDlSlots <= c.slotsPeriod && forall j :: 0 <= j < c.slotsPeriod ==> c.isDl[j] == (j < c.numDlSlots)
  }

  /** A downlink slot with none behind it in its period. */
  ghost predicate LastOfPeriod(c: Config, i: nat)
    requires c.WellFormed() && i < c.slotsPeriod
  {
    c.isDl[i] && forall j :: i < j < c.slotsPeriod ==> !c.isDl[j]
  }

  lemma LastOfPeriodIs(c: Config, i: nat)
    requires c.WellFormed() && i < c.slotsPeriod && DlFirst(c)
    ensures LastOfPeriod(c, i) <==> i == c.numDlSlots - 1
  {
    assert i + 1 < c.slotsPeriod ==> c.isDl[i + 1] == (i + 1 < c.numDlSlots);
  }

  /** Place of a tick in its period. */
  function PlaceOf(c: Config, t: int): (i: nat)
    requires c.WellFormed()
    ensures i == t % c.slotsFrame % c.slotsPeriod && i < c.slotsPeriod
  {
    t % c.slotsFrame % c.slotsPeriod
  }

  /** What the calendar says of a tick, from the tables of a period: downlink, uplink, and the last of the
      downlink slots; and how far ahead a grant must be sent. */
  lemma CalendarSlots(c: Config, t: int)
    requires c.Usable()
    ensures var (k, i) := (CalendarOf(c), PlaceOf(c, t));
            && k.isDl(t) == c.isDl[i] && k.isUl(t) == c.isUl[i] && k.lead == c.minRxTx + c.koffset
            && (DlFirst(c) ==> k.lastDl(t) == LastOfPeriod(c, i))
  {
    if DlFirst(c) {
      LastOfPeriodIs(c, PlaceOf(c, t));
    }
    hide DlFirst, LastOfPeriod;
  }

  /** A slot is reached if a TDA takes the distance, less the cell's offset, and fits its symbols. */
  lemma CalendarReach(c: Config, cur: int, u: int)
    requires c.Usable()
    ensures CalendarOf(c).reach(cur, u)
            <==> exists t <- c.tdas :: Fitting(t, u - cur - c.koffset, c.ulSymbols[PlaceOf(c, u)])
  {
    var k2, ulSymbols := u - cur - c.koffset, c.SymbolsIn(u % c.slotsFrame);
    forall t <- c.tdas
      ensures Suits(t, k2, ulSymbols) <==> Fitting(t, k2, ulSymbols)
    {
      SuitsIsFitting(t, k2, ulSymbols);
    }
    hide Suits, Fitting;
  }

  // ----- the loop

  /** The slot pf_ul schedules, from the current slot and the k2 of its TDA. */
  function PfUlSlot(c: Config, current: Fsn, k2: int): Fsn
    requires c.WellFormed() && k2 + c.koffset >= 0
  {
    var k := current.s + k2 + c.koffset;
    Fsn((current.f + k / c.slotsFrame) % MAX_FRAME_NUMBER, k % c.slotsFrame)
  }

  /** pf_ul recomputes exactly the slot k2 was taken from. */
  lemma PfUlSlotIsTarget(c: Config, cur: int, u: int)
    requires c.WellFormed() && cur <= u
    ensures PfUlSlot(c, Wrap(c.slotsFrame, cur), u - cur - c.koffset) == Wrap(c.slotsFrame, u)
  {
    var n := c.slotsFrame;
    WrapCarry(n, cur, cur % n + (u - cur));
    assert cur - cur % n + (cur % n + (u - cur)) == u;
  }

  lemma StepByOne(c: Config, t: int)
    requires c.Usable()
    ensures AddDelta(c.slotsFrame, 1, Wrap(c.slotsFrame, t)) == Wrap(c.slotsFrame, t + 1)
  {
    AddDeltaShifts(c.slotsFrame, 1, t);
  }

  /** What the slot number of a wrapped tick says. */
  lemma WrapIsUl(c: Config, t: int)
    requires c.WellFormed()
    ensures var s := Wrap(c.slotsFrame, t).s;
            c.UlSlot(s) == UlTick(c, t) && c.DlSlot(s) == DlTick(c, t) && c.LastDlSlot(s) == LastDlTick(c, t)
  {
  }

  ghost function WrapTurns(n: nat, turns: seq<Cal.Turn<int>>): seq<Cal.Turn<Fsn>>
    requires n > 0
  {
    if turns == [] then [] else [Cal.Turn(Wrap(n, turns[0].target), turns[0].sched)] + WrapTurns(n, turns[1..])
  }

  lemma {:induction false} WrapTurnsConcat(n: nat, a: seq<Cal.Turn<int>>, b: seq<Cal.Turn<int>>)
    requires n > 0
    ensures WrapTurns(n, a + b) == WrapTurns(n, a) + WrapTurns(n, b)
  {
    if a == [] {
      assert a + b == b;
    } else {
      assert (a + b)[1..] == a[1..] + b;
      WrapTurnsConcat(n, a[1..], b);
    }
  }

  /** The radio resources get_best_ul_tda looks at. */
  datatype Resources = Resources(vrbMap: Fsn -> seq<Symbols>, blocked: seq<bool>, bw: nat) {
    ghost predicate Valid() {
      bw <= |blocked| && forall a :: bw <= |vrbMap(a)|
    }
  }

  lemma CandidateAhead(c: Config, cur: int, next: int)
    requires c.Usable() && Cal.InSight(CalendarOf(c), 512 * c.slotsFrame, cur, next)
    ensures cur + c.Lead() <= Cal.Candidate(CalendarOf(c), cur, next) < cur + 512 * c.slotsFrame
  {
    CalendarLawful(c);
    Cal.CandidateInSight(CalendarOf(c), 512 * c.slotsFrame, cur, next);
  }

  /** What the bound on the pointer is for: with a target more than half a turn of the clock ahead, the
      source's assertion that k2 is positive fails. */
  lemma TooFarAheadAborts(c: Config, cur: int, u: int)
    requires c.WellFormed() && cur + 512 * c.slotsFrame < u < cur + 1024 * c.slotsFrame
    ensures GetDiff(c.slotsFrame, Wrap(c.slotsFrame, u), Wrap(c.slotsFrame, cur)) - c.koffset < 0
  {
    RawDistance(c.slotsFrame, u, cur);
    TickOfWrap(c.slotsFrame, u);
    TickOfWrap(c.slotsFrame, cur);
  }

  class Preprocessor {
    const c: Config
    var ulNext: Fsn

    constructor (c: Config, ulNext: Fsn)
      ensures this.c == c && this.ulNext == ulNext
    {
      this.c := c;
      this.ulNext := ulNext;
    }

    /** The pointer shows tick `next`, close enough to the current tick. */
    ghost predicate At(cur: int, next: int)
      reads this
    {
      && c.Usable()
      && ulNext == Wrap(c.slotsFrame, next)
      && Cal.InSight(CalendarOf(c), 512 * c.slotsFrame, cur, next)
    }

    /** Go to the next uplink slot that still can be reached in time. */
    method AdvanceToUl(minNext: Fsn, ghost cur: int, ghost next: int)
      requires At(cur, next) && minNext == Wrap(c.slotsFrame, cur + c.Lead())
      modifies this
      ensures ulNext == Wrap(c.slotsFrame, Cal.Candidate(CalendarOf(c), cur, next))
    {
      hide Wrap, AddDelta, GetMax;
      var n := c.slotsFrame;
      ghost var t := Max(next, cur + c.Lead());
      ghost var u := FirstUl(c, t);
      assert -512 * n < next - (cur + c.Lead()) < 512 * n by {
        assert next <= FirstUl(c, next);
      }
      MaxOfWrap(n, next, cur + c.Lead());
      ulNext := GetMax(n, ulNext, minNext);
      WrapIsUl(c, t);
      while !c.UlSlot(ulNext.s)
        invariant c.UlSlot(ulNext.s) == UlTick(c, t)
        invariant t <= u && ulNext == Wrap(n, t)
        invariant forall x :: t <= x < u ==> !UlTick(c, x)
        decreases u - t
      {
        StepByOne(c, t);
        ulNext := AddDelta(n, 1, ulNext);
        t := t + 1;
        WrapIsUl(c, t);
      }
    }

    /** The choice of a TDA for the slot at ulNext; -1 if there is none. The assertions of the source
        on k2 and on the TDA index are the asserts here. */
    method ChooseTda(current: Fsn, r: Resources, ghost cur: int, ghost u: int) returns (tda: int)
      requires c.Usable() && r.Valid()
      requires ulNext == Wrap(c.slotsFrame, u) && current == Wrap(c.slotsFrame, cur)
      requires cur + c.Lead() <= u < cur + 512 * c.slotsFrame
      ensures tda == -1 <==> !Reach(c, cur, u)
      ensures tda != -1 ==> 0 <= tda < |c.tdas| && c.tdas[tda].k2 == u - cur - c.koffset
    {
      DiffOfWrap(c.slotsFrame, u, cur);
      var k2 := GetDiff(c.slotsFrame, ulNext, current) - c.koffset;
      assert k2 > 0;
      var first, count := GetNumUlTda(c.tdas, k2, c.SymbolsIn(ulNext.s));
      if count == 0 {
        return -1;
      }
      assert Suits(c.tdas[first], k2, c.SymbolsIn(ulNext.s));
      var best, rbStart, rbLen := GetBestUlTda(r.vrbMap(ulNext), r.blocked, c.tdas[first..first + count], 0, r.bw);
      tda := first + best;
      assert 0 <= tda < 16 && Suits(c.tdas[tda], k2, c.SymbolsIn(ulNext.s));
    }

    /** The body of the loop: at most one run of pf_ul, and whether the loop goes on. The assertion
        that pf_ul's slot is an uplink slot is the assert here. */
    method OneTurn(current: Fsn, minNext: Fsn, sched: nat, r: Resources, ghost cur: int, ghost next: int)
      returns (turn: seq<Cal.Turn<Fsn>>, goOn: bool)
      requires At(cur, next) && r.Valid()
      requires current == Wrap(c.slotsFrame, cur) && minNext == Wrap(c.slotsFrame, cur + c.Lead())
      modifies this
      ensures var u := Cal.Candidate(CalendarOf(c), cur, next);
              && turn == (if DlTick(c, cur) && Reach(c, cur, u) then [Cal.Turn(Wrap(c.slotsFrame, u), sched)] else [])
              && goOn == (turn != [] && (sched > 0 || LastDlTick(c, cur)))
              && ulNext == Wrap(c.slotsFrame, if goOn then u + 1 else u)
    {
      ghost var u := Cal.Candidate(CalendarOf(c), cur, next);
      CandidateAhead(c, cur, next);
      hide Wrap, AddDelta, PfUlSlot, CalendarOf, Cal.InSight, Cal.Fits, Cal.Calendar.Lawful, Cal.Candidate;
      hide Reach, UlTick, DlTick, LastDlTick, Config.UlSlot, Config.DlSlot, Config.LastDlSlot;
      AdvanceToUl(minNext, cur, next);
      WrapIsUl(c, cur);
      WrapIsUl(c, u);
      if !c.DlSlot(current.s) {
        return [], false;
      }
      var tda := ChooseTda(current, r, cur, u);
      if tda == -1 {
        return [], false;
      }
      var slot := PfUlSlot(c, current, c.tdas[tda].k2);
      PfUlSlotIsTarget(c, cur, u);
      assert slot == ulNext && c.UlSlot(slot.s);
      turn := [Cal.Turn(slot, sched)];
      if sched == 0 && !c.LastDlSlot(current.s) {
        return turn, false;
      }
      StepByOne(c, u);
      ulNext := AddDelta(c.slotsFrame, 1, ulNext);
      goOn := true;
    }

    /** One call. It makes exactly the turns, and leaves the pointer exactly where, the calendar says. */
    method Preprocess(current: Fsn, x: Cal.Input, r: Resources, ghost cur: int, ghost next: int)
      returns (turns: seq<Cal.Turn<Fsn>>)
      requires At(cur, next) && current == Wrap(c.slotsFrame, cur) && r.Valid()
      requires CalendarOf(c).Lawful()
      modifies this
      ensures var o := Cal.Turns(CalendarOf(c), cur, next, x);
              At(cur, o.next) && turns == WrapTurns(c.slotsFrame, o.turns)
    {
      hide Wrap, AddDelta, CalendarOf, Cal.InSight, Cal.Fits, Cal.Calendar.Lawful, Cal.Candidate, Cal.Turns;
      hide Cal.Prepend, Cal.Head, Cal.Tail, Cal.Patience, Reach;
      var n := c.slotsFrame;
      ghost var k := CalendarOf(c);
      CalendarLawful(c);
      var minNext := AddDelta(n, c.Lead(), current);
      AddDeltaShifts(n, c.Lead(), cur);
      turns := [];
      var left := x;
      ghost var done: seq<Cal.Turn<int>> := [];
      ghost var t := next;
      ghost var o := Cal.Turns(k, cur, next, x);
      Cal.PrependNothing(o);
      while left.dci > 0
        invariant At(cur, t)
        invariant turns == WrapTurns(n, done)
        invariant o == Cal.Prepend(done, Cal.Turns(k, cur, t, left))
        decreases cur + k.horizon + 1 - t
      {
        Cal.TurnsUnfold(k, 512 * n, cur, t, left, done);
        var turn, goOn := OneTurn(current, minNext, Cal.Head(left.grants), r, cur, t);
        ghost var u := Cal.Candidate(k, cur, t);
        ghost var step := if turn == [] then [] else [Cal.Turn(u, Cal.Head(left.grants))];
        WrapTurnsConcat(n, done, step);
        turns, done := turns + turn, done + step;
        if !goOn {
          return;
        }
        left := Cal.Input(left.dci - Cal.Head(left.grants), Cal.Tail(left.grants));
        t := u + 1;
      }
      Cal.TurnsDone(k, cur, t, left, done);
    }

    /** A whole run of consecutive slots, on a clock that wraps as often as it likes. Slots without DCIs leave
        the pointer behind; there must not be so many in a row that it falls out of sight. */
    method RunSlots(first: Fsn, xs: seq<Cal.Input>, rs: seq<Resources>, ghost cur: int, ghost next: int)
      returns (turns: seq<Cal.Turn<Fsn>>)
      requires At(cur, next) && first == Wrap(c.slotsFrame, cur)
      requires |rs| == |xs| && forall i :: 0 <= i < |rs| ==> rs[i].Valid()
      requires CalendarOf(c).Lawful()
      requires Cal.Patient(xs, Cal.Patience(CalendarOf(c), 512 * c.slotsFrame, cur, next), 512 * c.slotsFrame - 2)
      modifies this
      ensures var o := Cal.Run(CalendarOf(c), cur, next, xs);
              ulNext == Wrap(c.slotsFrame, o.next) && turns == WrapTurns(c.slotsFrame, o.turns)
    {
      hide Wrap, AddDelta, CalendarOf, Cal.InSight, Cal.Fits, Cal.Calendar.Lawful, Cal.Turns, Cal.Prepend;
      hide Cal.Run, Cal.Patient, Cal.Patience;
      ghost var k, n := CalendarOf(c), c.slotsFrame;
      CalendarLawful(c);
      var current := first;
      turns := [];
      ghost var done: seq<Cal.Turn<int>> := [];
      ghost var t := next;
      ghost var o := Cal.Run(k, cur, next, xs);
      Cal.PrependNothing(o);
      assert xs[0..] == xs;
      for i := 0 to |xs|
        invariant At(cur + i, t) && current == Wrap(n, cur + i)
        invariant Cal.Patient(xs[i..], Cal.Patience(k, 512 * n, cur + i, t), 512 * n - 2)
        invariant turns == WrapTurns(n, done)
        invariant o == Cal.Prepend(done, Cal.Run(k, cur + i, t, xs[i..]))
      {
        assert xs[i..][0] == xs[i] && xs[i..][1..] == xs[i + 1..];
        Cal.RunUnfold(k, 512 * n, cur + i, t, xs[i..], done);
        var more := Preprocess(current, xs[i], rs[i], cur + i, t);
        ghost var step := Cal.Turns(k, cur + i, t, xs[i]);
        WrapTurnsConcat(n, done, step.turns);
        turns, done, t := turns + more, done + step.turns, step.next;
        StepByOne(c, cur + i);
        current := AddDelta(c.slotsFrame, 1, current);
      }
      Cal.RunDone(k, cur + |xs|, t, done);
    }
  }
}
