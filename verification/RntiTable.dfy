/**
  The fixed tables of per-UE records that the policy layer keeps: slice associations, grant counters,
  and the postures of both directions. A record is found by a linear search for its RNTI and created
  in the first free slot; records are never freed one by one.

  `Lookup` reads a table as a partial map. `Run` applies a list of events; what a table then holds is
  told without slots by `RunLookup`.
 */
module RntiTable {
  import opened Basics

  datatype Slot<V> = Slot(valid: bool, rnti: nat, value: V)

  ghost predicate Holds<V>(s: Slot<V>, rnti: nat) {
    s.valid && s.rnti == rnti
  }

  /** The slot of an RNTI, or the end of the table. */
  ghost function Find<V>(t: seq<Slot<V>>, rnti: nat): (i: nat)
    ensures i <= |t| && (i < |t| ==> Holds(t[i], rnti))
    ensures forall j :: 0 <= j < i ==> !Holds(t[j], rnti)
  {
    if t == [] || Holds(t[0], rnti) then 0 else 1 + Find(t[1..], rnti)
  }

  ghost function FindFree<V>(t: seq<Slot<V>>): (i: nat)
    ensures i <= |t| && (i < |t| ==> !t[i].valid)
    ensures forall j :: 0 <= j < i ==> t[j].valid
  {
    if t == [] || !t[0].valid then 0 else 1 + FindFree(t[1..])
  }

  /** Where a record for this RNTI goes, if anywhere. */
  ghost function Place<V>(t: seq<Slot<V>>, rnti: nat): (i: nat)
    ensures i <= |t|
  {
    if Find(t, rnti) < |t| then Find(t, rnti) else FindFree(t)
  }

  ghost function Lookup<V>(t: seq<Slot<V>>, rnti: nat): Option<V> {
    if Find(t, rnti) < |t| then Some(t[Find(t, rnti)].value) else None
  }

  /** The record of an RNTI, created with init if there is room. */
  ghost function Alloc<V>(t: seq<Slot<V>>, rnti: nat, init: V): seq<Slot<V>> {
    if Find(t, rnti) < |t| || FindFree(t) == |t| then t else t[FindFree(t) := Slot(true, rnti, init)]
  }

  ghost function Store<V>(t: seq<Slot<V>>, rnti: nat, v: V): seq<Slot<V>> {
    if Place(t, rnti) < |t| then t[Place(t, rnti) := Slot(true, rnti, v)] else t
  }

  /** Creating a record and then writing it is storing it; what was there before is the old record or init. */
  lemma AllocThenWrite<V>(t: seq<Slot<V>>, rnti: nat, init: V, v: V)
    requires Place(t, rnti) < |t|
    ensures var (a, i) := (Alloc(t, rnti, init), Place(t, rnti));
            && |a| == |t| && a[i := Slot(a[i].valid, a[i].rnti, v)] == Store(t, rnti, v)
            && a[i].value == (if Lookup(t, rnti).Some? then Lookup(t, rnti).value else init)
  {
  }

  ghost predicate Distinct<V>(t: seq<Slot<V>>) {
    forall i, j :: 0 <= i < j < |t| && t[i].valid && t[j].valid ==> t[i].rnti != t[j].rnti
  }

  ghost function Keys<V>(t: seq<Slot<V>>): set<nat> {
    set i | 0 <= i < |t| && t[i].valid :: t[i].rnti
  }

  ghost predicate Empty<V>(t: seq<Slot<V>>) {
    forall i :: 0 <= i < |t| ==> !t[i].valid
  }

  lemma FindIs<V>(t: seq<Slot<V>>, rnti: nat, i: nat)
    requires Distinct(t) && i < |t| && Holds(t[i], rnti)
    ensures Find(t, rnti) == i
  {
  }

  lemma FindInKeys<V>(t: seq<Slot<V>>, rnti: nat)
    ensures Find(t, rnti) < |t| <==> rnti in Keys(t)
  {
    if rnti in Keys(t) {
      var i :| 0 <= i < |t| && t[i].valid && t[i].rnti == rnti;
      assert Holds(t[i], rnti);
    }
  }

  lemma {:induction false} KeysCount<V>(t: seq<Slot<V>>)
    requires Distinct(t)
    ensures |Keys(t)| <= |t|
    ensures |Keys(t)| == |t| <==> forall i :: 0 <= i < |t| ==> t[i].valid
  {
    if t == [] {
      assert Keys(t) == {};
    } else {
      var n := |t| - 1;
      KeysCount(t[..n]);
      assert forall i :: 0 <= i < n ==> t[..n][i] == t[i];
      if t[n].valid {
        assert Keys(t) == Keys(t[..n]) + {t[n].rnti};
      } else {
        assert Keys(t) == Keys(t[..n]);
      }
    }
  }

  /** There is room for an RNTI exactly if it is known or the table is not full. */
  lemma PlaceExists<V>(t: seq<Slot<V>>, rnti: nat)
    requires Distinct(t)
    ensures Place(t, rnti) < |t| <==> rnti in Keys(t) || |Keys(t)| < |t|
  {
    FindInKeys(t, rnti);
    KeysCount(t);
  }

  lemma StoreKeys<V>(t: seq<Slot<V>>, rnti: nat, v: V)
    requires Distinct(t)
    ensures var u := Store(t, rnti, v);
            Distinct(u) && Keys(u) == if Place(t, rnti) < |t| then Keys(t) + {rnti} else Keys(t)
  {
    var u, p := Store(t, rnti, v), Place(t, rnti);
    if p < |t| {
      assert forall j :: 0 <= j < |t| && j != p ==> !Holds(t[j], rnti);
      forall x
        ensures x in Keys(u) <==> x in Keys(t) + {rnti}
      {
        if x in Keys(t) {
          var i :| 0 <= i < |t| && t[i].valid && t[i].rnti == x;
          assert u[i].valid && u[i].rnti == x;
        }
        if x == rnti {
          assert u[p].valid && u[p].rnti == x;
        }
        if x in Keys(u) {
          var i :| 0 <= i < |u| && u[i].valid && u[i].rnti == x;
          assert i != p ==> t[i].valid && t[i].rnti == x;
        }
      }
    }
  }

  lemma StoreFind<V>(t: seq<Slot<V>>, rnti: nat, v: V, r: nat)
    requires Distinct(t) && Distinct(Store(t, rnti, v))
    ensures Lookup(Store(t, rnti, v), r) == if r == rnti && Place(t, rnti) < |t| then Some(v) else Lookup(t, r)
  {
    var u, p := Store(t, rnti, v), Place(t, rnti);
    if p < |t| {
      if r == rnti {
        FindIs(u, r, p);
      } else if Find(t, r) < |t| {
        FindIs(u, r, Find(t, r));
      } else {
        assert forall j :: 0 <= j < |u| && Holds(u[j], r) ==> Holds(t[j], r);
      }
    }
  }

  /** A store changes one record and no other. It is lost exactly if the table is full and the RNTI new. */
  lemma StoreLookup<V>(t: seq<Slot<V>>, rnti: nat, v: V, r: nat)
    requires Distinct(t)
    ensures var (u, fits) := (Store(t, rnti, v), rnti in Keys(t) || |Keys(t)| < |t|);
            && Distinct(u) && |u| == |t|
            && Lookup(u, r) == (if r == rnti && fits then Some(v) else Lookup(t, r))
            && Keys(u) == (if fits then Keys(t) + {rnti} else Keys(t))
  {
    PlaceExists(t, rnti);
    StoreKeys(t, rnti, v);
    StoreFind(t, rnti, v, r);
  }

  // ----- a table over a list of events

  /** An event for an RNTI changes its record by f, starting from init. */
  ghost function Apply<V, E>(t: seq<Slot<V>>, init: V, f: (V, E) -> V, rnti: nat, e: E): seq<Slot<V>> {
    Store(t, rnti, f(if Lookup(t, rnti).Some? then Lookup(t, rnti).value else init, e))
  }

  ghost function Run<V, E>(t: seq<Slot<V>>, init: V, f: (V, E) -> V, es: seq<(nat, E)>): seq<Slot<V>> {
    if es == [] then t
    else Apply(Run(t, init, f, es[..|es| - 1]), init, f, es[|es| - 1].0, es[|es| - 1].1)
  }

  /** The events of one RNTI. */
  ghost function History<E>(es: seq<(nat, E)>, rnti: nat): seq<E> {
    if es == [] then []
    else
      var h := History(es[..|es| - 1], rnti);
      if es[|es| - 1].0 == rnti then h + [es[|es| - 1].1] else h
  }

  ghost function Fold<V, E>(init: V, f: (V, E) -> V, h: seq<E>): V {
    if h == [] then init else f(Fold(init, f, h[..|h| - 1]), h[|h| - 1])
  }

  /** The RNTIs that got a record: the first `cap` different ones. */
  ghost function Tracked<E>(es: seq<(nat, E)>, cap: nat): set<nat> {
    if es == [] then {}
    else
      var k := Tracked(es[..|es| - 1], cap);
      if |k| < cap then k + {es[|es| - 1].0} else k
  }

  /** What a table holds after any events: for every RNTI that got a record, its own events applied in
      order and nothing else; for the others nothing. */
  lemma {:induction false} RunLookup<V, E>(t: seq<Slot<V>>, init: V, f: (V, E) -> V, es: seq<(nat, E)>, rnti: nat)
    requires Empty(t)
    ensures var u := Run(t, init, f, es);
            && Distinct(u) && |u| == |t| && Keys(u) == Tracked(es, |t|)
            && Lookup(u, rnti) == if rnti in Tracked(es, |t|) then Some(Fold(init, f, History(es, rnti))) else None
    decreases es
  {
    if es == [] {
      assert Keys(t) == {};
    } else {
      var (before, last) := (es[..|es| - 1], es[|es| - 1]);
      RunLookup(t, init, f, before, rnti);
      RunLookup(t, init, f, before, last.0);
      var u := Run(t, init, f, before);
      FindInKeys(u, last.0);
      var v := f(if Lookup(u, last.0).Some? then Lookup(u, last.0).value else init, last.1);
      StoreLookup(u, last.0, v, rnti);
      if rnti == last.0 && rnti !in Tracked(before, |t|) {
        UntrackedHistory(before, rnti, |t|);
      }
    }
  }

  /** An RNTI without a record has no events yet, or the table is full. */
  lemma {:induction false} UntrackedHistory<E>(es: seq<(nat, E)>, rnti: nat, cap: nat)
    requires rnti !in Tracked(es, cap)
    ensures History(es, rnti) == [] || |Tracked(es, cap)| >= cap
  {
    if es != [] {
      UntrackedHistory(es[..|es| - 1], rnti, cap);
    }
  }

  /** With at most `cap` different RNTIs everyone with an event has a record. */
  lemma {:induction false} AllTracked<E>(es: seq<(nat, E)>, cap: nat, all: set<nat>)
    requires |all| <= cap && forall i :: 0 <= i < |es| ==> es[i].0 in all
    ensures Tracked(es, cap) <= all
    ensures forall i :: 0 <= i < |es| ==> es[i].0 in Tracked(es, cap)
  {
    if es != [] {
      var before := es[..|es| - 1];
      AllTracked(before, cap, all);
      var k := Tracked(before, cap);
      if |k| >= cap {
        SubsetFull(k, all);
      }
    }
  }

  lemma {:induction false} SubsetFull(k: set<nat>, all: set<nat>)
    requires k <= all && |k| >= |all|
    ensures k == all
  {
    assert all == k + (all - k);
    assert |all| == |k| + |all - k|;
  }

  // ----- the searches

  class Table<V> {
    const slots: array<Slot<V>>

    constructor (capacity: nat, unused: V)
      ensures fresh(slots) && slots.Length == capacity && Empty(slots[..])
    {
      slots := new Slot<V>[capacity](_ => Slot(false, 0, unused));
    }

    /** The first slot of an RNTI; the capacity if there is none. */
    method FindSlot(rnti: nat) returns (i: nat)
      ensures i == Find(slots[..], rnti)
    {
      i := 0;
      while i < slots.Length
        invariant i <= slots.Length
        invariant Find(slots[..], rnti) == i + Find(slots[i..], rnti)
      {
        if slots[i].valid && slots[i].rnti == rnti {
          return i;
        }
        i := i + 1;
      }
    }

    /** rk_find_slice_runtime, rk_find_slice_assoc, rk_ue_la_alloc: search, then create. */
    method FindOrCreate(rnti: nat, init: V) returns (i: nat)
      modifies slots
      ensures i == Place(old(slots[..]), rnti) && slots[..] == Alloc(old(slots[..]), rnti, init)
    {
      i := FindSlot(rnti);
      if i < slots.Length {
        return i;
      }
      i := 0;
      while i < slots.Length
        invariant i <= slots.Length
        invariant FindFree(slots[..]) == i + FindFree(slots[i..])
      {
        if !slots[i].valid {
          slots[i] := Slot(true, rnti, init);
          return i;
        }
        i := i + 1;
      }
    }

    /** rk_ue_dl_find_or_alloc: one pass that remembers the first free slot. */
    method FindOrCreateOnePass(rnti: nat, init: V) returns (i: nat)
      modifies slots
      ensures i == Place(old(slots[..]), rnti) && slots[..] == Alloc(old(slots[..]), rnti, init)
    {
      var free := slots.Length;
      i := 0;
      while i < slots.Length
        invariant i <= slots.Length
        invariant Find(slots[..], rnti) == i + Find(slots[i..], rnti)
        invariant if free == slots.Length then FindFree(slots[..]) == i + FindFree(slots[i..])
                  else free < i && free == FindFree(slots[..])
      {
        if slots[i].valid && slots[i].rnti == rnti {
          return i;
        }
        if !slots[i].valid && free == slots.Length {
          free := i;
        }
        i := i + 1;
      }
      i := free;
      if free < slots.Length {
        slots[free] := Slot(true, rnti, init);
      }
    }
  }
}
