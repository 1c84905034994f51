/**
  The UE postures kept by control_xapp.py: validation of a request, the registry that set and clear
  commands update, and the state file written after each of them.
 */
module PostureRegistry {
  import opened TextCodec

  /** A validated field: an integer, or a float as the text "%g" prints for it. */
  datatype Field = I(value: int) | F(text: string)

  /** A request or a registry entry: the fields that are not None. */
  type Entry = map<string, Field>

  const INT_FIELDS: seq<string> := [
    "ul_max_mcs", "min_grant_prb", "ulsch_max_frame_inactivity", "pusch_target_snrx10", "ul_maxcg_override",
    "ul_small_burst_bytes", "dl_max_mcs", "dl_min_grant_prb", "dl_maxcg_override", "dl_small_burst_bytes"]

  const FLOAT_FIELDS: seq<string> := ["ul_sched_mul", "ul_small_burst_mul", "dl_sched_mul", "dl_small_burst_mul"]

  const FIELDS: seq<string> := INT_FIELDS + FLOAT_FIELDS

  /** Printed form of a positive float: a short token without sign, and neither zero nor nan. */
  predicate PositiveFloatText(s: string) {
    0 < |s| <= 13 && Plain(s) && s[0] != '-' && s != "0" && s != "nan"
  }

  predicate InRange(key: string, lo: int, hi: int, e: Entry) {
    key in e ==> e[key].I? && lo <= e[key].value <= hi
  }

  predicate Positive(key: string, e: Entry) {
    key in e ==> e[key].I? && e[key].value > 0
  }

  predicate PositiveFloat(key: string, e: Entry) {
    key in e ==> e[key].F? && PositiveFloatText(e[key].text)
  }

  /** The checks of _build_ue_posture_entry. */
  predicate Validated(e: Entry) {
    && (forall k <- e.Keys :: k in FIELDS)
    && InRange("ul_max_mcs", 0, 28, e) && InRange("dl_max_mcs", 0, 28, e)
    && InRange("min_grant_prb", 1, 50, e) && InRange("dl_min_grant_prb", 1, 50, e)
    && InRange("ulsch_max_frame_inactivity", 0, 20, e) && InRange("pusch_target_snrx10", 0, 400, e)
    && PositiveFloat("ul_sched_mul", e) && PositiveFloat("ul_small_burst_mul", e)
    && PositiveFloat("dl_sched_mul", e) && PositiveFloat("dl_small_burst_mul", e)
    && Positive("ul_maxcg_override", e) && Positive("dl_maxcg_override", e)
    && Positive("ul_small_burst_bytes", e) && Positive("dl_small_burst_bytes", e)
  }

  /** The same field by field: the values a field may be set to. */
  predicate Allowed(key: string, f: Field) {
    match key
    case "ul_max_mcs" => f.I? && 0 <= f.value <= 28
    case "dl_max_mcs" => f.I? && 0 <= f.value <= 28
    case "min_grant_prb" => f.I? && 1 <= f.value <= 50
    case "dl_min_grant_prb" => f.I? && 1 <= f.value <= 50
    case "ulsch_max_frame_inactivity" => f.I? && 0 <= f.value <= 20
    case "pusch_target_snrx10" => f.I? && 0 <= f.value <= 400
    case "ul_maxcg_override" => f.I? && f.value >= 1
    case "dl_maxcg_override" => f.I? && f.value >= 1
    case "ul_small_burst_bytes" => f.I? && f.value >= 1
    case "dl_small_burst_bytes" => f.I? && f.value >= 1
    case "ul_sched_mul" => f.F? && PositiveFloatText(f.text)
    case "dl_sched_mul" => f.F? && PositiveFloatText(f.text)
    case "ul_small_burst_mul" => f.F? && PositiveFloatText(f.text)
    case "dl_small_burst_mul" => f.F? && PositiveFloatText(f.text)
    case _ => false
  }

  lemma FieldsListed(key: string)
    ensures key in FIELDS
            <==> key in {"ul_max_mcs", "dl_max_mcs", "min_grant_prb", "dl_min_grant_prb", "ulsch_max_frame_inactivity",
                         "pusch_target_snrx10", "ul_maxcg_override", "dl_maxcg_override", "ul_small_burst_bytes",
                         "dl_small_burst_bytes", "ul_sched_mul", "dl_sched_mul", "ul_small_burst_mul",
                         "dl_small_burst_mul"}
  {
  }

  lemma AllowedIsField(key: string, f: Field)
    ensures Allowed(key, f) ==> key in FIELDS
  {
    FieldsListed(key);
    hide FIELDS;
  }

  lemma ValidatedIsAllowed(e: Entry, key: string)
    requires Validated(e) && key in e
    ensures Allowed(key, e[key])
  {
    FieldsListed(key);
    hide FIELDS, PositiveFloatText;
  }

  lemma AllowedIsValidated(e: Entry)
    requires forall key <- e.Keys :: Allowed(key, e[key])
    ensures Validated(e)
  {
    forall key <- e.Keys
      ensures key in FIELDS
    {
      AllowedIsField(key, e[key]);
    }
    AllowedRanges(e);
    AllowedPositives(e);
    AllowedFloats(e);
    hide FIELDS, PositiveFloatText, Allowed, InRange, Positive, PositiveFloat;
  }

  lemma AllowedRanges(e: Entry)
    requires forall key <- e.Keys :: Allowed(key, e[key])
    ensures InRange("ul_max_mcs", 0, 28, e) && InRange("dl_max_mcs", 0, 28, e)
    ensures InRange("min_grant_prb", 1, 50, e) && InRange("dl_min_grant_prb", 1, 50, e)
    ensures InRange("ulsch_max_frame_inactivity", 0, 20, e) && InRange("pusch_target_snrx10", 0, 400, e)
  {
    hide PositiveFloatText;
  }

  lemma AllowedPositives(e: Entry)
    requires forall key <- e.Keys :: Allowed(key, e[key])
    ensures Positive("ul_maxcg_override", e) && Positive("dl_maxcg_override", e)
    ensures Positive("ul_small_burst_bytes", e) && Positive("dl_small_burst_bytes", e)
  {
    hide PositiveFloatText;
  }

  lemma AllowedFloats(e: Entry)
    requires forall key <- e.Keys :: Allowed(key, e[key])
    ensures PositiveFloat("ul_sched_mul", e) && PositiveFloat("ul_small_burst_mul", e)
    ensures PositiveFloat("dl_sched_mul", e) && PositiveFloat("dl_small_burst_mul", e)
  {
    hide PositiveFloatText;
  }

  /** A request is accepted exactly if each of its fields has an allowed value, and it has one. */
  lemma AcceptedMeans(c: Command)
    requires c.Set?
    ensures Accepted(c) <==> c.request != map[] && forall key <- c.request.Keys :: Allowed(key, c.request[key])
  {
    hide Validated, Allowed, FIELDS;
    if Validated(c.request) {
      forall key <- c.request.Keys
        ensures Allowed(key, c.request[key])
      {
        ValidatedIsAllowed(c.request, key);
      }
    }
    if forall key <- c.request.Keys :: Allowed(key, c.request[key]) {
      AllowedIsValidated(c.request);
    }
  }

  type Registry = map<int, Entry>

  datatype Command = Set(rnti: int, request: Entry) | Clear(rnti: int)

  predicate Accepted(c: Command) {
    c.Set? ==> Validated(c.request) && c.request != map[]
  }

  function EntryOf(r: Registry, rnti: int): Entry {
    if rnti in r then r[rnti] else map[]
  }

  /** do_set_ue_ul_la and do_clear_ue_ul_la on the registry; a refused command changes nothing. */
  function Perform(r: Registry, c: Command): Registry {
    if !Accepted(c) then r
    else
      match c
      case Set(rnti, request) => r[rnti := EntryOf(r, rnti) + request]
      case Clear(rnti) => r - {rnti}
  }

  // ----- the state file

  lemma EmptyOrNot(s: set<int>)
    ensures s == {} || exists x :: x in s
  {
    if forall x :: x !in s {
      assert s == {};
    }
  }

  lemma {:induction false} LeastExists(s: set<int>)
    requires s != {}
    ensures exists m :: m in s && forall x <- s :: m <= x
    decreases s
  {
    EmptyOrNot(s);
    var m :| m in s;
    var t := s - {m};
    if t == {} {
      assert s == {m};
    } else {
      LeastExists(t);
      var k :| k in t && forall x <- t :: k <= x;
      var least := if m <= k then m else k;
      assert forall x <- s :: x == m || x in t;
      assert least in s && forall x <- s :: least <= x;
    }
  }

  /** sorted(registry) */
  function Sorted(s: set<int>): (r: seq<int>)
    ensures forall i, j :: 0 <= i < j < |r| ==> r[i] < r[j]
    ensures forall x :: x in r <==> x in s
  {
    if s == {} then []
    else
      LeastExists(s);
      var m :| m in s && forall x <- s :: m <= x;
      [m] + Sorted(s - {m})
  }

  lemma {:induction false} SortedLength(s: set<int>)
    ensures |Sorted(s)| == |s|
    decreases s
  {
    var r := Sorted(s);
    SortedDistinct(r);
    assert s == set x | x in r;
  }

  lemma {:induction false} SortedDistinct(r: seq<int>)
    requires forall i, j :: 0 <= i < j < |r| ==> r[i] < r[j]
    ensures |set x | x in r| == |r|
  {
    if r != [] {
      var n := |r| - 1;
      SortedDistinct(r[..n]);
      assert r == r[..n] + [r[n]];
      assert (set x | x in r) == (set x | x in r[..n]) + {r[n]};
    }
  }

  function FormatField(f: Field): string {
    match f
    case I(v) => IntStr(v)
    case F(text) => text
  }

  /** The parts of a line after the RNTI, for the fields listed. */
  function FieldParts(fields: seq<string>, e: Entry): seq<string> {
    if fields == [] then []
    else (if fields[0] in e then [fields[0] + "=" + FormatField(e[fields[0]])] else []) + FieldParts(fields[1..], e)
  }

  function EntryLine(fields: seq<string>, rnti: int, e: Entry): string {
    Join(" ", ["rnti=" + IntStr(rnti)] + FieldParts(fields, e))
  }

  function EntryLines(fields: seq<string>, rntis: seq<int>, r: Registry): seq<string> {
    if rntis == [] then [] else [EntryLine(fields, rntis[0], EntryOf(r, rntis[0]))] + EntryLines(fields, rntis[1..], r)
  }

  /** What _write_ue_la_state_atomic leaves in the file. */
  function StateFile(r: Registry): string {
    Lines(EntryLines(FIELDS, Sorted(r.Keys), r))
  }

  lemma FieldPartsStep(fields: seq<string>, j: nat, e: Entry)
    requires j < |fields|
    ensures FieldParts(fields[j..], e)
            == (if fields[j] in e then [fields[j] + "=" + FormatField(e[fields[j]])] else [])
                + FieldParts(fields[j + 1..], e)
  {
    assert fields[j..][0] == fields[j] && fields[j..][1..] == fields[j + 1..];
  }

  lemma FieldPartsAppend(fields: seq<string>, j: nat, e: Entry, parts: seq<string>)
    requires j < |fields|
    ensures parts + FieldParts(fields[j..], e)
            == (if fields[j] in e then parts + [fields[j] + "=" + FormatField(e[fields[j]])] else parts)
                + FieldParts(fields[j + 1..], e)
  {
    FieldPartsStep(fields, j, e);
    hide FieldParts, FormatField;
  }

  method FormatLine(fields: seq<string>, rnti: int, entry: Entry) returns (line: string)
    ensures line == EntryLine(fields, rnti, entry)
  {
    var first := ["rnti=" + IntStr(rnti)];
    var parts: seq<string> := [];
    assert FieldParts([], entry) == [] && fields[0..] == fields;
    hide Join, FieldParts, FormatField;
    for j := 0 to |fields|
      invariant FieldParts(fields, entry) == parts + FieldParts(fields[j..], entry)
    {
      FieldPartsAppend(fields, j, entry, parts);
      if fields[j] in entry {
        parts := parts + [fields[j] + "=" + FormatField(entry[fields[j]])];
      }
    }
    assert fields[|fields|..] == [] && parts + [] == parts;
    line := Join(" ", first + parts);
  }

  method FormatLines(fields: seq<string>, items: seq<int>, r: Registry) returns (lines: seq<string>)
    ensures lines == EntryLines(fields, items, r)
  {
    lines := [];
    assert items[0..] == items && EntryLines(fields, [], r) == [];
    hide EntryLine, EntryLines;
    for i := 0 to |items|
      invariant EntryLines(fields, items, r) == lines + EntryLines(fields, items[i..], r)
    {
      var line := FormatLine(fields, items[i], EntryOf(r, items[i]));
      EntryLinesAppend(fields, items, i, r, lines);
      lines := lines + [line];
    }
    assert items[|items|..] == [] && lines + [] == lines;
  }

  lemma EntryLinesAppend(fields: seq<string>, items: seq<int>, i: nat, r: Registry, lines: seq<string>)
    requires i < |items|
    ensures lines + EntryLines(fields, items[i..], r)
            == lines + [EntryLine(fields, items[i], EntryOf(r, items[i]))] + EntryLines(fields, items[i + 1..], r)
  {
    hide EntryLine;
    assert items[i..][0] == items[i] && items[i..][1..] == items[i + 1..];
  }

  class Backend {
    var registry: Registry
    var file: string

    constructor ()
      ensures registry == map[] && file == ""
    {
      registry, file := map[], "";
    }

    method WriteState()
      modifies this`file
      ensures file == StateFile(registry)
    {
      var lines := FormatLines(FIELDS, Sorted(registry.Keys), registry);
      hide EntryLines;
      if lines != [] {
        JoinIsLines(lines);
        file := Join("\n", lines) + "\n";
      } else {
        file := "";
      }
    }

    /** do_set_ue_ul_la, once the RNTI is known. */
    method SetPosture(rnti: int, request: Entry) returns (ok: bool)
      modifies this
      ensures registry == Perform(old(registry), Set(rnti, request))
      ensures ok == Accepted(Set(rnti, request)) && (if ok then file == StateFile(registry) else file == old(file))
    {
      if !Validated(request) || request == map[] {
        return false;
      }
      var cur := EntryOf(registry, rnti);
      cur := cur + request;
      registry := registry[rnti := cur];
      WriteState();
      ok := true;
    }

    /** do_clear_ue_ul_la */
    method ClearPosture(rnti: int)
      modifies this
      ensures registry == Perform(old(registry), Clear(rnti)) && file == StateFile(registry)
    {
      registry := registry - {rnti};
      WriteState();
    }
  }

  // ----- what a history of commands leaves in the registry

  ghost function After(cs: seq<Command>): Registry {
    if cs == [] then map[] else Perform(After(cs[..|cs| - 1]), cs[|cs| - 1])
  }

  /** An accepted command that sets the field of the UE, or clears the UE's posture. */
  predicate Decides(c: Command, rnti: int, key: string) {
    Accepted(c) && c.rnti == rnti && (c.Set? ==> key in c.request)
  }

  /** Command i sets the field to f, and no later one decides it. */
  predicate LastSetAt(cs: seq<Command>, i: nat, rnti: int, key: string, f: Field) {
    && i < |cs| && Decides(cs[i], rnti, key) && cs[i].Set? && cs[i].request[key] == f
    && forall j :: i < j < |cs| ==> !Decides(cs[j], rnti, key)
  }

  /** f is the last validated value set for a field of a UE since its posture was last cleared. */
  ghost predicate LastSet(cs: seq<Command>, rnti: int, key: string, f: Field) {
    exists i: nat :: LastSetAt(cs, i, rnti, key, f)
  }

  lemma LastSetStep(cs: seq<Command>, rnti: int, key: string, f: Field)
    requires cs != []
    ensures var (before, c) := (cs[..|cs| - 1], cs[|cs| - 1]);
            LastSet(cs, rnti, key, f)
            <==> if Decides(c, rnti, key) then c.Set? && c.request[key] == f else LastSet(before, rnti, key, f)
  {
    hide Accepted;
    var before, n := cs[..|cs| - 1], |cs| - 1;
    assert forall i :: 0 <= i < n ==> before[i] == cs[i];
    if Decides(cs[n], rnti, key) {
      if cs[n].Set? && cs[n].request[key] == f {
        assert LastSetAt(cs, n, rnti, key, f);
      }
    } else {
      forall i: nat
        ensures LastSetAt(cs, i, rnti, key, f) <==> LastSetAt(before, i, rnti, key, f)
      {
      }
    }
  }

  /** After any commands an entry holds exactly the values last set. */
  lemma {:induction false} AfterIsLastSet(cs: seq<Command>, rnti: int, key: string, f: Field)
    ensures (key in EntryOf(After(cs), rnti) && EntryOf(After(cs), rnti)[key] == f) <==> LastSet(cs, rnti, key, f)
    decreases cs
  {
    if cs != [] {
      AfterIsLastSet(cs[..|cs| - 1], rnti, key, f);
      LastSetStep(cs, rnti, key, f);
      hide LastSet, Validated;
    }
  }

  lemma {:induction false} AfterValidated(cs: seq<Command>, rnti: int)
    ensures rnti in After(cs) ==> Validated(After(cs)[rnti])
    decreases cs
  {
    if cs != [] {
      AfterValidated(cs[..|cs| - 1], rnti);
      var c := cs[|cs| - 1];
      if rnti in After(cs) && Accepted(c) && c.rnti == rnti {
        MergeValidated(EntryOf(After(cs[..|cs| - 1]), rnti), c.request);
      }
      hide Validated;
    }
  }

  lemma MergeValidated(e: Entry, request: Entry)
    requires e == map[] || Validated(e)
    requires Validated(request)
    ensures Validated(e + request)
  {
    assert forall k <- (e + request).Keys :: k in e || k in request;
  }
}
