/**
  The slice of a UE and the policy of a slice (rk_slice_policy.c).

  Associations are kept by RNTI with both slice ids as 16-bit numbers; a UE without one is in slice 0,
  and so is, as far as its policy goes, a UE in a slice that has no policy.
 */
module SlicePolicy {
  import opened Basics
  import opened RntiTable
  import opened SliceLimiter
  import RbAllocator

  const ASSOC_MAX := 256
  const ID_NONE := 0

  datatype Assoc = Assoc(dl: nat, ul: nat) {
    function Of(dir: Direction): nat {
      match dir case Dl => dl case Ul => ul
    }
  }

  /** An update by the controller, with the ids as it sent them. */
  datatype Update = Update(dl: int, ul: int) {
    function Of(dir: Direction): int {
      match dir case Dl => dl case Ul => ul
    }
  }

  const UNASSOCIATED := Assoc(ID_NONE, ID_NONE)

  function ToU16(x: int): (u: nat)
    ensures u < 65536 && (0 <= x < 65536 ==> u == x) && (x - u) % 65536 == 0
  {
    x % 65536
  }

  function Assign(a: Assoc, u: Update): Assoc {
    Assoc(ToU16(u.dl), ToU16(u.ul))
  }

  /** The slice of a UE in a table of associations. */
  ghost function IdIn(t: seq<Slot<Assoc>>, rnti: nat, dir: Direction): nat {
    if Lookup(t, rnti).Some? then Lookup(t, rnti).value.Of(dir) else ID_NONE
  }

  /** The last id sent for a UE. */
  ghost function LastId(es: seq<(nat, Update)>, rnti: nat, dir: Direction): Option<int> {
    if es == [] then None
    else if es[|es| - 1].0 == rnti then Some(es[|es| - 1].1.Of(dir))
    else LastId(es[..|es| - 1], rnti, dir)
  }

  lemma {:induction false} LastIdIsHistory(es: seq<(nat, Update)>, rnti: nat, dir: Direction)
    ensures var h := History(es, rnti);
            LastId(es, rnti, dir) == if h == [] then None else Some(h[|h| - 1].Of(dir))
  {
    if es != [] {
      LastIdIsHistory(es[..|es| - 1], rnti, dir);
    }
  }

  /** After any updates of at most 256 UEs a UE is in the slice last sent for it, in 16 bits, and in
      slice 0 if none was. */
  lemma IdAfterUpdates(t: seq<Slot<Assoc>>, es: seq<(nat, Update)>, all: set<nat>, rnti: nat, dir: Direction)
    requires Empty(t) && |t| == ASSOC_MAX
    requires |all| <= ASSOC_MAX && forall i :: 0 <= i < |es| ==> es[i].0 in all
    ensures IdIn(Run(t, UNASSOCIATED, Assign, es), rnti, dir)
            == match LastId(es, rnti, dir) case None => ID_NONE case Some(id) => ToU16(id)
  {
    RunLookup(t, UNASSOCIATED, Assign, es, rnti);
    AllTracked(es, ASSOC_MAX, all);
    LastIdIsHistory(es, rnti, dir);
    if LastId(es, rnti, dir).Some? {
      LastIdOccurs(es, rnti, dir);
    }
  }

  lemma {:induction false} LastIdOccurs(es: seq<(nat, Update)>, rnti: nat, dir: Direction)
    requires LastId(es, rnti, dir).Some?
    ensures exists i :: 0 <= i < |es| && es[i].0 == rnti
  {
    if es[|es| - 1].0 != rnti {
      LastIdOccurs(es[..|es| - 1], rnti, dir);
    }
  }

  // ----- policies

  datatype Limits = Limits(weight: real, cap: nat, floor: nat, maxGrants: nat)

  datatype Policy = Policy(id: nat, dl: Limits, ul: Limits) {
    function Of(dir: Direction): Limits {
      match dir case Dl => dl case Ul => ul
    }
  }

  const POLICIES: seq<Policy> := [
    Policy(0, Limits(1.0, 0, 0, 0), Limits(1.0, 0, 0, 0)),
    Policy(1, Limits(0.5, 6, 2, 1), Limits(0.5, 6, 2, 1)),
    Policy(2, Limits(1.0, 12, 4, 4), Limits(1.0, 12, 4, 4)),
    Policy(3, Limits(10.0, 50, 12, 0), Limits(4.0, 30, 12, 0)),
    Policy(4, Limits(6.0, 10, 4, 6), Limits(6.0, 10, 4, 6)),
    Policy(5, Limits(1.0, 12, 4, 2), Limits(10.0, 50, 12, 0)),
    Policy(6, Limits(1.2, 8, 2, 2), Limits(1.2, 8, 2, 2))
  ]

  /** rk_slice_policy_get */
  function Get(id: int): Policy {
    if id < 0 || id >= |POLICIES| then POLICIES[0]
    else if POLICIES[id].id != id then POLICIES[0]
    else POLICIES[id]
  }

  /** Both guards of the lookup agree: the row of a known slice carries its id. */
  lemma GetRow(id: int)
    ensures Get(id).id == if 0 <= id < |POLICIES| then id else 0
  {
    assert forall i :: 0 <= i < |POLICIES| ==> POLICIES[i].id == i;
  }

  /** What every slice promises: a positive weight and no cap below its floor. */
  lemma PolicyLimits(id: int, dir: Direction)
    ensures var l := Get(id).Of(dir); l.weight > 0.0 && (l.cap == 0 || l.cap >= l.floor)
  {
    assert forall i :: 0 <= i < |POLICIES| ==>
      POLICIES[i].dl.weight > 0.0 && (POLICIES[i].dl.cap == 0 || POLICIES[i].dl.cap >= POLICIES[i].dl.floor)
      && POLICIES[i].ul.weight > 0.0 && (POLICIES[i].ul.cap == 0 || POLICIES[i].ul.cap >= POLICIES[i].ul.floor);
  }

  /** Storing an id in 16 bits changes the policy exactly when an id outside them lands on a slice. */
  lemma TruncatedId(id: int)
    ensures Get(ToU16(id)) == Get(id) <==> 0 <= id < 65536 || !(1 <= ToU16(id) < |POLICIES|)
  {
    GetRow(id);
    GetRow(ToU16(id));
  }

  /** Every uplink grant under a slice policy reaches the slice's floor as far as the free run allows,
      and stays under its cap. */
  lemma GrantMeetsSlice(id: int, available: nat, rb: nat)
    requires rb <= available
    ensures var (l, r) := (Get(id).ul, RbAllocator.ClampToSlice(rb, available, Get(id).ul.floor, Get(id).ul.cap));
            && (r >= l.floor || r == available)
            && (l.cap > 0 ==> r <= l.cap) && r <= available
  {
    PolicyLimits(id, Ul);
    RbAllocator.ClampBounds(rb, available, Get(id).ul.floor, Get(id).ul.cap);
  }

  class SliceAssoc {
    const table: Table<Assoc>

    constructor ()
      ensures fresh(table) && fresh(table.slots) && table.slots.Length == ASSOC_MAX && Empty(table.slots[..])
    {
      table := new Table<Assoc>(ASSOC_MAX, UNASSOCIATED);
    }

    /** rk_slice_assoc_update_by_rnti */
    method UpdateByRnti(rnti: nat, dlId: int, ulId: int)
      modifies table.slots
      ensures table.slots[..] == Apply(old(table.slots[..]), UNASSOCIATED, Assign, rnti, Update(dlId, ulId))
    {
      ghost var before := table.slots[..];
      var i := table.FindOrCreate(rnti, UNASSOCIATED);
      if i == table.slots.Length {
        return;
      }
      var a := Assoc(ToU16(dlId), ToU16(ulId));
      AllocThenWrite(before, rnti, UNASSOCIATED, a);
      table.slots[i] := Slot(table.slots[i].valid, table.slots[i].rnti, a);
    }

    /** rk_slice_assoc_get_{dl,ul}_id */
    method GetId(rnti: nat, dir: Direction) returns (id: nat)
      ensures id == IdIn(table.slots[..], rnti, dir)
    {
      var i := table.FindSlot(rnti);
      if i == table.slots.Length {
        return ID_NONE;
      }
      id := table.slots[i].value.Of(dir);
    }
  }
}
