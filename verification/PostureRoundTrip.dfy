/**
  From a posture command to the scheduler's getters: what the backend validated and printed is what
  both readers answer.
 */
module PostureRoundTrip {
  import opened Basics
  import opened TextCodec
  import opened RntiTable
  import opened PostureRegistry
  import opened PostureParsers

  // ----- keys

  predicate KeyText(k: string) {
    '=' !in k && Plain(k)
  }

  lemma FirstIntFieldsAreKeys(i: nat)
    requires i < 3
    ensures KeyText(INT_FIELDS[i])
  {
  }

  lemma MiddleIntFieldsAreKeys(i: nat)
    requires 3 <= i < 5
    ensures KeyText(INT_FIELDS[i])
  {
  }

  lemma LaterIntFieldsAreKeys(i: nat)
    requires 5 <= i < |INT_FIELDS|
    ensures KeyText(INT_FIELDS[i])
  {
  }

  lemma FloatFieldsAreKeys(i: nat)
    requires i < |FLOAT_FIELDS|
    ensures KeyText(FLOAT_FIELDS[i])
  {
  }

  lemma FieldsAreKeys()
    ensures forall i :: 0 <= i < |FIELDS| ==> KeyText(FIELDS[i])
  {
    hide KeyText;
    forall i | 0 <= i < |FIELDS|
      ensures KeyText(FIELDS[i])
    {
      if i < 3 {
        FirstIntFieldsAreKeys(i);
      } else if i < 5 {
        MiddleIntFieldsAreKeys(i);
      } else if i < |INT_FIELDS| {
        LaterIntFieldsAreKeys(i);
      } else {
        FloatFieldsAreKeys(i - |INT_FIELDS|);
      }
    }
  }

  predicate Keyed(g: Grammar) {
    forall i :: 0 <= i < |g| ==> '=' !in g[i].0
  }

  lemma GrammarsKeyed()
    ensures Keyed(UL_GRAMMAR) && Keyed(DL_GRAMMAR)
  {
  }

  function KindOf(g: Grammar, key: string): Option<Kind> {
    if g == [] then None else if g[0].0 == key then Some(g[0].1) else KindOf(g[1..], key)
  }

  /** A printed key matches exactly itself, whatever the value after it. */
  lemma KeyMatches(k: string, v: string, k': string)
    requires '=' !in k && '=' !in k'
    ensures StartsWith(k + "=" + v, k' + "=") <==> k' == k
    ensures (k + "=" + v)[|k| + 1..] == v
  {
    var tok := k + "=" + v;
    assert tok[..|k| + 1] == k + "=";
    assert forall i :: 0 <= i < |k| ==> tok[i] == k[i] && tok[i] != '=';
    assert tok[|k|] == '=';
    if StartsWith(tok, k' + "=") {
      var p := tok[..|k'| + 1];
      assert p[|k'|] == '=' && p[..|k'|] == k';
      assert forall i :: 0 <= i < |k'| ==> tok[i] == p[i] && p[i] == k'[i];
      assert |k| <= |k'| && !(|k| < |k'|);
    }
  }

  lemma {:induction false} TokenParsed(g: Grammar, k: string, v: string, rec: Record)
    requires '=' !in k && Keyed(g)
    ensures ParseToken(g, k + "=" + v, rec)
            == if KindOf(g, k).Some? then rec[k := Convert(KindOf(g, k).value, v)] else rec
  {
    if g != [] {
      KeyMatches(k, v, g[0].0);
      if g[0].0 != k {
        TokenParsed(g[1..], k, v, rec);
      }
    }
  }

  // ----- one line

  /** What parsing the printed fields adds to a record, for one key. */
  lemma {:induction false} FieldsParsed(g: Grammar, fields: seq<string>, e: Entry, rec: Record, key: string)
    requires Keyed(g) && forall i :: 0 <= i < |fields| ==> '=' !in fields[i]
    ensures var r := ParseTokens(g, FieldParts(fields, e), rec);
            if key in fields && key in e && KindOf(g, key).Some?
            then key in r && r[key] == Convert(KindOf(g, key).value, FormatField(e[key]))
            else (key in r <==> key in rec) && (key in r ==> r[key] == rec[key])
  {
    if fields != [] {
      var k := fields[0];
      if k in e {
        var tok := k + "=" + FormatField(e[k]);
        TokenParsed(g, k, FormatField(e[k]), rec);
        assert ([tok] + FieldParts(fields[1..], e))[1..] == FieldParts(fields[1..], e);
        FieldsParsed(g, fields[1..], e, ParseToken(g, tok, rec), key);
      } else {
        assert [] + FieldParts(fields[1..], e) == FieldParts(fields[1..], e);
        FieldsParsed(g, fields[1..], e, rec, key);
      }
    }
  }

  lemma IntStrPlain(n: int)
    ensures IntStr(n) != "" && Plain(IntStr(n)) && '=' !in IntStr(n)
  {
    var m := if n < 0 then -n else n;
    assert forall i :: 0 <= i < |NatStr(m)| ==> IsDigit(NatStr(m)[i]);
  }

  ghost predicate PrintableField(f: Field) {
    f.F? ==> f.text != "" && Plain(f.text)
  }

  ghost predicate Printable(e: Entry) {
    forall k <- e.Keys :: PrintableField(e[k])
  }

  lemma Powers()
    ensures Pow10(10) == 10_000_000_000 && Pow10(13) == 10_000_000_000_000
  {
    assert Pow10(3) == 1000 && Pow10(6) == 1_000_000 && Pow10(9) == 1_000_000_000;
    assert Pow10(11) == 10 * Pow10(10) && Pow10(12) == 10 * Pow10(11);
  }

  lemma TenDigits(n: nat)
    requires n <= 0x7FFF_FFFF
    ensures |IntStr(n)| <= 10
  {
    Powers();
    NatStrLength(n, 10);
  }

  lemma FieldPlain(f: Field)
    requires PrintableField(f)
    ensures FormatField(f) != "" && Plain(FormatField(f))
  {
    if f.I? {
      IntStrPlain(f.value);
    }
  }

  /** Printed in at most 13 characters: floats always are, and integers below 10^13. */
  ghost predicate ShortField(f: Field) {
    match f case I(v) => 0 <= v < 10_000_000_000_000 case F(text) => |text| <= 13
  }

  ghost predicate Short(e: Entry) {
    forall k <- e.Keys :: ShortField(e[k])
  }

  lemma FieldShort(f: Field)
    requires ShortField(f)
    ensures |FormatField(f)| <= 13
  {
    if f.I? {
      Powers();
      NatStrLength(f.value, 13);
    }
  }

  ghost function TotalLen(parts: seq<string>): nat {
    if parts == [] then 0 else |parts[0]| + 1 + TotalLen(parts[1..])
  }

  lemma {:induction false} JoinLen(parts: seq<string>)
    ensures |Join(" ", parts)| <= TotalLen(parts)
  {
    if |parts| >= 2 {
      JoinLen(parts[1..]);
    }
  }

  /** Room for all fields from place i on. */
  ghost function Budget(fields: seq<string>, i: nat): nat
    requires i <= |fields|
    decreases |fields| - i
  {
    if i == |fields| then 0 else |fields[i]| + 15 + Budget(fields, i + 1)
  }

  lemma {:induction false} PartsOk(fields: seq<string>, i: nat, e: Entry)
    requires i <= |fields| && Printable(e) && forall j :: 0 <= j < |fields| ==> KeyText(fields[j])
    ensures AllTokens(FieldParts(fields[i..], e))
    decreases |fields| - i
  {
    if i < |fields| {
      FieldPartsStep(fields, i, e);
      PartsOk(fields, i + 1, e);
      if fields[i] in e {
        FieldPlain(e[fields[i]]);
        assert Plain(fields[i] + "=" + FormatField(e[fields[i]]));
      }
    }
  }

  lemma {:induction false} PartsShort(fields: seq<string>, i: nat, e: Entry)
    requires i <= |fields| && Short(e)
    ensures TotalLen(FieldParts(fields[i..], e)) <= Budget(fields, i)
    decreases |fields| - i
  {
    if i < |fields| {
      FieldPartsStep(fields, i, e);
      PartsShort(fields, i + 1, e);
      var rest := FieldParts(fields[i + 1..], e);
      if fields[i] in e {
        FieldShort(e[fields[i]]);
        var tok := fields[i] + "=" + FormatField(e[fields[i]]);
        assert ([tok] + rest)[1..] == rest;
      } else {
        assert [] + rest == rest;
      }
    }
  }

  lemma FieldsBudget()
    ensures Budget(FIELDS, 0) == 438
  {
    assert |FIELDS| == 14;
    assert Budget(FIELDS, 14) == 0;
    assert Budget(FIELDS, 12) == 12 + 18 + 30;
    assert Budget(FIELDS, 10) == Budget(FIELDS, 12) + 12 + 18 + 30;
    assert Budget(FIELDS, 8) == Budget(FIELDS, 10) + 17 + 20 + 30;
    assert Budget(FIELDS, 6) == Budget(FIELDS, 8) + 10 + 16 + 30;
    assert Budget(FIELDS, 4) == Budget(FIELDS, 6) + 17 + 20 + 30;
    assert Budget(FIELDS, 2) == Budget(FIELDS, 4) + 26 + 19 + 30;
    assert Budget(FIELDS, 0) == Budget(FIELDS, 2) + 10 + 13 + 30;
  }

  ghost predicate GoodRnti(rnti: int) {
    1 <= rnti <= 0xFFFF
  }

  ghost predicate IntRnti(rnti: int) {
    0 <= rnti <= 0x7FFF_FFFF
  }

  lemma FirstPart(rnti: int)
    requires IntRnti(rnti)
    ensures var s := "rnti=" + IntStr(rnti); 0 < |s| <= 15 && Plain(s)
  {
    IntStrPlain(rnti);
    TenDigits(rnti);
  }

  /** A printed line is made of tokens. */
  lemma LineTokens(rnti: int, e: Entry)
    requires IntRnti(rnti) && Printable(e)
    ensures AllTokens(["rnti=" + IntStr(rnti)] + FieldParts(FIELDS, e))
  {
    hide FIELDS, INT_FIELDS, FLOAT_FIELDS, KeyText, FieldParts, Plain;
    FieldsAreKeys();
    PartsOk(FIELDS, 0, e);
    assert FIELDS[0..] == FIELDS;
    FirstPart(rnti);
    hide IntStr;
  }

  /** With integers below 10^13 it fits the readers' buffer. */
  lemma LineFits(rnti: int, e: Entry)
    requires IntRnti(rnti) && Short(e)
    ensures |EntryLine(FIELDS, rnti, e)| < LINE_MAX
  {
    hide FIELDS, INT_FIELDS, FLOAT_FIELDS, FieldParts, Plain;
    PartsShort(FIELDS, 0, e);
    FieldsBudget();
    assert FIELDS[0..] == FIELDS;
    var rest := FieldParts(FIELDS, e);
    var first := "rnti=" + IntStr(rnti);
    FirstPart(rnti);
    assert ([first] + rest)[1..] == rest;
    JoinLen([first] + rest);
    hide Join, IntStr;
  }

  lemma {:induction false} JoinNoNewline(parts: seq<string>)
    requires AllTokens(parts)
    ensures '\n' !in Join(" ", parts)
  {
    if |parts| >= 1 {
      assert Plain(parts[0]);
    }
    if |parts| >= 2 {
      JoinNoNewline(parts[1..]);
    }
  }

  /** The record a reader makes of a printed line, key by key. */
  ghost predicate RecordOf(g: Grammar, rec: Record, e: Entry) {
    forall key <- FIELDS ::
      if key in e && KindOf(g, key).Some?
      then key in rec && rec[key] == Convert(KindOf(g, key).value, FormatField(e[key]))
      else key !in rec
  }

  lemma RecordParsed(g: Grammar, rnti: int, e: Entry)
    requires IntRnti(rnti) && Printable(e) && Keyed(g) && KindOf(g, "rnti").Some? && "rnti" !in FIELDS
    ensures var rec := ParseTokens(g, Tokens(EntryLine(FIELDS, rnti, e) + "\n"), map[]);
            && RecordOf(g, rec, e)
            && "rnti" in rec && rec["rnti"] == Convert(KindOf(g, "rnti").value, IntStr(rnti))
  {
    hide FIELDS, INT_FIELDS, FLOAT_FIELDS;
    LineTokens(rnti, e);
    FieldsAreKeys();
    var rest := FieldParts(FIELDS, e);
    var first := "rnti" + "=" + IntStr(rnti);
    assert first == "rnti=" + IntStr(rnti);
    TokensOfLine([first] + rest);
    assert ([first] + rest)[1..] == rest;
    TokenParsed(g, "rnti", IntStr(rnti), map[]);
    var start := ParseToken(g, first, map[]);
    FieldsParsed(g, FIELDS, e, start, "rnti");
    forall key <- FIELDS
      ensures var rec := ParseTokens(g, rest, start);
              if key in e && KindOf(g, key).Some?
              then key in rec && rec[key] == Convert(KindOf(g, key).value, FormatField(e[key]))
              else key !in rec
    {
      FieldsParsed(g, FIELDS, e, start, key);
    }
  }

  lemma RntiIsNoField()
    ensures "rnti" !in FIELDS
  {
    forall i | 0 <= i < |FIELDS|
      ensures FIELDS[i] != "rnti"
    {
      assert |FIELDS[i]| > 4;
    }
  }

  lemma NothingSkipped(rnti: int, e: Entry)
    ensures var line := EntryLine(FIELDS, rnti, e) + "\n";
            line[0] == 'r' && Skip(line, IsSpace) == line && Skip(line, IsBlank) == line
  {
    hide FieldParts, FIELDS, INT_FIELDS, FLOAT_FIELDS;
    var parts := ["rnti=" + IntStr(rnti)] + FieldParts(FIELDS, e);
    assert parts[0][0] == 'r';
    assert Join(" ", parts)[0] == 'r';
  }

  /** What the readers make of the RNTI of a printed line: uplink refuses what is no RNTI, downlink
      takes it modulo 2^16. So both recover it exactly if it lies in 1..65535, except that downlink
      also accepts 0. */
  lemma LineRead(rnti: int, e: Entry)
    requires IntRnti(rnti) && Printable(e)
    ensures var (ul, dl) := (UlLine(EntryLine(FIELDS, rnti, e) + "\n"), DlLine(EntryLine(FIELDS, rnti, e) + "\n"));
            && (ul.Some? <==> GoodRnti(rnti))
            && (ul.Some? ==> ul.value.0 == rnti && RecordOf(UL_GRAMMAR, ul.value.1, e))
            && dl.Some? && dl.value.0 == rnti % 0x1_0000 && RecordOf(DL_GRAMMAR, dl.value.1, e)
  {
    LineReadUl(rnti, e);
    LineReadDl(rnti, e);
    hide *;
  }

  lemma LineReadUl(rnti: int, e: Entry)
    requires IntRnti(rnti) && Printable(e)
    ensures var ul := UlLine(EntryLine(FIELDS, rnti, e) + "\n");
            (ul.Some? <==> GoodRnti(rnti)) && (ul.Some? ==> ul.value.0 == rnti && RecordOf(UL_GRAMMAR, ul.value.1, e))
  {
    assert KindOf(UL_GRAMMAR, "rnti") == Some(IntKey);
    hide FIELDS, INT_FIELDS, FLOAT_FIELDS, UL_GRAMMAR, DL_GRAMMAR, RecordOf, EntryLine, ParseTokens, Tokens;
    hide Skip, KindOf, IntStr, Atoi, IsSpace;
    RntiIsNoField();
    GrammarsKeyed();
    NothingSkipped(rnti, e);
    AtoiOfStr(rnti);
    RecordParsed(UL_GRAMMAR, rnti, e);
  }

  lemma LineReadDl(rnti: int, e: Entry)
    requires IntRnti(rnti) && Printable(e)
    ensures var dl := DlLine(EntryLine(FIELDS, rnti, e) + "\n");
            dl.Some? && dl.value.0 == rnti % 0x1_0000 && RecordOf(DL_GRAMMAR, dl.value.1, e)
  {
    assert KindOf(DL_GRAMMAR, "rnti") == Some(RntiKey);
    hide FIELDS, INT_FIELDS, FLOAT_FIELDS, UL_GRAMMAR, DL_GRAMMAR, RecordOf, EntryLine, ParseTokens, Tokens;
    hide Skip, KindOf, IntStr, StrtoulToU16, IsSpace;
    RntiIsNoField();
    GrammarsKeyed();
    NothingSkipped(rnti, e);
    StrtoulOfStr(rnti);
    RecordParsed(DL_GRAMMAR, rnti, e);
  }

  // ----- the whole file

  /** Every UE has an RNTI, and its line fits the readers' buffer. */
  ghost predicate FileFits(r: Registry) {
    forall rnti <- r.Keys :: GoodRnti(rnti) && |EntryLine(FIELDS, rnti, r[rnti])| < LINE_MAX
  }

  lemma ShortFileFits(r: Registry)
    requires forall rnti <- r.Keys :: GoodRnti(rnti) && Short(r[rnti])
    ensures FileFits(r)
  {
    hide FIELDS, EntryLine, Short;
    forall rnti <- r.Keys
      ensures |EntryLine(FIELDS, rnti, r[rnti])| < LINE_MAX
    {
      LineFits(rnti, r[rnti]);
    }
  }

  ghost predicate GoodRegistry(r: Registry) {
    FileFits(r) && forall rnti <- r.Keys :: Printable(r[rnti])
  }

  /** One event per UE, in the order of the RNTIs, each with the record of its entry. */
  ghost predicate EventsMatch(g: Grammar, es: seq<(nat, Record)>, rntis: seq<int>, r: Registry) {
    |es| == |rntis| && forall i :: 0 <= i < |es| ==> es[i].0 == rntis[i] && RecordOf(g, es[i].1, EntryOf(r, rntis[i]))
  }

  /** One printed line is read as its UE's record. */
  lemma LineEvent(reader: Reader, rnti: int, e: Entry)
    requires GoodRnti(rnti) && Printable(e)
    ensures var line := EntryLine(FIELDS, rnti, e);
            && '\n' !in line
            && var x := reader.Line(line + "\n");
               x.Some? && x.value.0 == rnti && RecordOf(reader.Keys(), x.value.1, e)
  {
    hide FIELDS, INT_FIELDS, FLOAT_FIELDS, UL_GRAMMAR, DL_GRAMMAR, RecordOf, UlLine, DlLine, FieldParts, Join;
    LineTokens(rnti, e);
    JoinNoNewline(["rnti=" + IntStr(rnti)] + FieldParts(FIELDS, e));
    LineRead(rnti, e);
  }

  lemma {:induction false} EventsOfFile(reader: Reader, rntis: seq<int>, r: Registry)
    requires GoodRegistry(r) && forall i :: 0 <= i < |rntis| ==> rntis[i] in r
    ensures FitLines(EntryLines(FIELDS, rntis, r))
    ensures EventsMatch(reader.Keys(), Events(reader, Ended(EntryLines(FIELDS, rntis, r))), rntis, r)
  {
    hide FIELDS, INT_FIELDS, FLOAT_FIELDS, UL_GRAMMAR, DL_GRAMMAR, RecordOf, UlLine, DlLine, EntryLine;
    hide Reader.Keys, Reader.Line;
    if rntis != [] {
      var lines := EntryLines(FIELDS, rntis, r);
      LineEvent(reader, rntis[0], r[rntis[0]]);
      EventsOfFile(reader, rntis[1..], r);
      assert Ended(lines)[1..] == Ended(EntryLines(FIELDS, rntis[1..], r));
    }
  }

  ghost predicate DistinctKeys<E>(es: seq<(nat, E)>) {
    forall i, j :: 0 <= i < j < |es| ==> es[i].0 != es[j].0
  }

  /** x has one of the first `cap` events. */
  ghost predicate Among<E>(es: seq<(nat, E)>, cap: nat, x: nat) {
    exists i :: 0 <= i < |es| && i < cap && es[i].0 == x
  }

  lemma AmongStep<E>(es: seq<(nat, E)>, cap: nat, x: nat)
    requires es != []
    ensures var n := |es| - 1; Among(es, cap, x) <==> Among(es[..n], cap, x) || (n < cap && es[n].0 == x)
  {
    var n := |es| - 1;
    if Among(es, cap, x) {
      var i :| 0 <= i < |es| && i < cap && es[i].0 == x;
      assert i < n ==> es[..n][i].0 == x;
    }
    if Among(es[..n], cap, x) {
      var i :| 0 <= i < n && i < cap && es[..n][i].0 == x;
      assert es[i].0 == x;
    }
  }

  lemma NewKey<E>(es: seq<(nat, E)>, cap: nat)
    requires DistinctKeys(es) && es != []
    ensures DistinctKeys(es[..|es| - 1]) && !Among(es[..|es| - 1], cap, es[|es| - 1].0)
  {
  }

  /** With one event per RNTI the first `cap` of them get a record. */
  lemma {:induction false} TrackedPrefix<E>(es: seq<(nat, E)>, cap: nat, x: nat)
    requires DistinctKeys(es)
    ensures x in Tracked(es, cap) <==> Among(es, cap, x)
    ensures |Tracked(es, cap)| == if |es| < cap then |es| else cap
    decreases |es|
  {
    if es != [] {
      var n := |es| - 1;
      NewKey(es, cap);
      AmongStep(es, cap, x);
      hide Among, DistinctKeys;
      TrackedPrefix(es[..n], cap, x);
      TrackedPrefix(es[..n], cap, es[n].0);
    }
  }

  lemma {:induction false} HistoryOf<E>(es: seq<(nat, E)>, i: nat)
    requires DistinctKeys(es) && i < |es|
    ensures History(es, es[i].0) == [es[i].1]
    decreases es
  {
    var n := |es| - 1;
    if i < n {
      HistoryOf(es[..n], i);
    } else {
      NoHistory(es[..n], es[n].0);
    }
  }

  lemma {:induction false} NoHistory<E>(es: seq<(nat, E)>, x: nat)
    requires forall i :: 0 <= i < |es| ==> es[i].0 != x
    ensures History(es, x) == []
  {
    if es != [] {
      NoHistory(es[..|es| - 1], x);
    }
  }

  /** A table of records after one event per RNTI. */
  lemma LookupDistinct(es: seq<(nat, Record)>, cap: nat, rnti: nat)
    requires DistinctKeys(es)
    ensures var e := Lookup(Run(Blank(cap), map[], Overwrite, es), rnti);
            && (e.Some? <==> exists i :: 0 <= i < |es| && i < cap && es[i].0 == rnti)
            && (e.Some? ==> exists i :: 0 <= i < |es| && es[i] == (rnti, e.value))
  {
    RunLookup(Blank(cap), map[], Overwrite, es, rnti);
    TrackedPrefix(es, cap, rnti);
    hide Run, Lookup, Tracked;
    if rnti in Tracked(es, cap) {
      var i :| 0 <= i < |es| && i < cap && es[i].0 == rnti;
      HistoryOf(es, i);
      assert Fold(map[], Overwrite, [es[i].1]) == es[i].1;
      assert es[i] == (rnti, es[i].1);
    }
  }

  /** A reload of the state file gives every UE among the first `capacity` RNTIs the record of its
      entry, and no other RNTI any record. */
  lemma TableOfStateFile(reader: Reader, r: Registry, rnti: nat)
    requires GoodRegistry(r)
    ensures var (e, s) := (Lookup(TableOf(reader, StateFile(r)), rnti), Sorted(r.Keys));
            && (e.Some? <==> exists i :: 0 <= i < |s| && i < reader.Capacity() && s[i] == rnti)
            && (e.Some? ==> rnti in r && RecordOf(reader.Keys(), e.value, r[rnti]))
  {
    hide FIELDS, INT_FIELDS, FLOAT_FIELDS, UL_GRAMMAR, DL_GRAMMAR, RecordOf, Events, EntryLines, Chunks;
    hide Reader.Keys, Run, Lookup, Blank;
    var s, cap := Sorted(r.Keys), reader.Capacity();
    EventsOfFile(reader, s, r);
    ChunksOfLines(EntryLines(FIELDS, s, r));
    var es := Events(reader, Chunks(StateFile(r)));
    assert EventsMatch(reader.Keys(), es, s, r);
    LookupDistinct(es, cap, rnti);
    var e := Lookup(TableOf(reader, StateFile(r)), rnti);
    if e.Some? {
      var i :| 0 <= i < |es| && es[i] == (rnti, e.value);
      assert es[i].0 == s[i] && RecordOf(reader.Keys(), es[i].1, EntryOf(r, s[i]));
    }
    forall i | 0 <= i < |s|
      ensures es[i].0 == s[i]
    {
    }
  }

  // ----- from commands to getters

  const UL_GETTERS: seq<string> := [
    "ul_max_mcs", "ulsch_max_frame_inactivity", "pusch_target_snrx10", "min_grant_prb", "ul_maxcg_override",
    "ul_small_burst_bytes"]

  const DL_GETTERS: seq<string> := ["dl_max_mcs", "dl_min_grant_prb", "dl_maxcg_override", "dl_small_burst_bytes"]

  /** The fields a reader has an integer getter for, and the least value each getter takes over. */
  function Getters(reader: Reader): seq<string> {
    match reader case UlReader => UL_GETTERS case DlReader => DL_GETTERS
  }

  function Least(reader: Reader, i: nat): nat {
    match reader case UlReader => (if i < 3 then 0 else 1) case DlReader => (if i < 2 then 0 else 1)
  }

  /** The getters for the largest MCS, inactivity, target SNR and the least downlink grant take 0 over; all
      others answer the default for it. */
  lemma LeastIs(reader: Reader, i: nat)
    requires i < |Getters(reader)|
    ensures Least(reader, i)
            == if Getters(reader)[i] in {"ul_max_mcs", "ulsch_max_frame_inactivity", "pusch_target_snrx10",
                                         "dl_max_mcs", "dl_min_grant_prb"} then 0 else 1
  {
  }

  lemma UlGetterKinds(i: nat)
    requires i < |UL_GETTERS|
    ensures KindOf(UL_GRAMMAR, UL_GETTERS[i]) == Some(IntKey) && UL_GETTERS[i] in INT_FIELDS
  {
  }

  lemma DlGetterKinds(i: nat)
    requires i < |DL_GETTERS|
    ensures KindOf(DL_GRAMMAR, DL_GETTERS[i]) == Some(IntKey) && DL_GETTERS[i] in INT_FIELDS
  {
  }

  lemma ValidatedPrintable(e: Entry)
    requires Validated(e)
    ensures Printable(e)
  {
    forall k <- e.Keys
      ensures PrintableField(e[k])
    {
      var i :| 0 <= i < |FIELDS| && FIELDS[i] == k;
      assert |FIELDS| == 14;
    }
  }

  /** The reader's table has room for the UE: its RNTI is among the first `capacity` ones in the file. */
  ghost predicate Kept(reader: Reader, r: Registry, rnti: int) {
    exists i :: 0 <= i < |Sorted(r.Keys)| && i < reader.Capacity() && Sorted(r.Keys)[i] == rnti
  }

  lemma FewUesKept(reader: Reader, r: Registry, rnti: int)
    requires rnti in r && |r.Keys| <= reader.Capacity()
    ensures Kept(reader, r, rnti)
  {
    SortedLength(r.Keys);
    assert rnti in Sorted(r.Keys);
  }

  /** What a getter makes of a value that was set: what atoi reads, if that is in the getter's range. */
  function Taken(x: int, least: int, def: int): int {
    if LongToInt(x) >= least then LongToInt(x) else def
  }

  /** From a registry to a getter. */
  lemma GetterOfRegistry(r: Registry, reader: Reader, rnti: nat, i: nat, def: int)
    requires GoodRegistry(r) && (forall x <- r.Keys :: Validated(r[x])) && i < |Getters(reader)|
    ensures var (key, e) := (Getters(reader)[i], EntryOf(r, rnti));
            && (key in e ==> e[key].I?)
            && GetFrom(Lookup(TableOf(reader, StateFile(r)), rnti), key, Least(reader, i), def)
               == if Kept(reader, r, rnti) && key in e then Taken(e[key].value, Least(reader, i), def) else def
  {
    TableOfStateFile(reader, r, rnti);
    var e := Lookup(TableOf(reader, StateFile(r)), rnti);
    if rnti in r {
      GetterKinds(reader, i, r[rnti]);
    }
    assert Least(reader, i) >= 0;
    hide FIELDS, INT_FIELDS, FLOAT_FIELDS, UL_GRAMMAR, DL_GRAMMAR, UL_GETTERS, DL_GETTERS, RecordOf, Lookup, TableOf;
    hide StateFile, Least, Validated, GetNum;
    if e.Some? {
      RecordedValue(reader, r[rnti], e.value, i);
    }
  }

  /** A validated entry holds an integer under every key that has a getter. */
  lemma GetterKinds(reader: Reader, i: nat, e: Entry)
    requires i < |Getters(reader)| && Validated(e)
    ensures Getters(reader)[i] in e ==> e[Getters(reader)[i]].I? && e[Getters(reader)[i]].value >= 0
  {
    match reader
    case UlReader =>
      UlGetterValues(i, e);
      hide Validated;
    case DlReader =>
      DlGetterValues(i, e);
      hide Validated;
  }

  lemma UlGetterValues(i: nat, e: Entry)
    requires i < |UL_GETTERS| && Validated(e)
    ensures UL_GETTERS[i] in e ==> e[UL_GETTERS[i]].I? && e[UL_GETTERS[i]].value >= 0
  {
  }

  lemma DlGetterValues(i: nat, e: Entry)
    requires i < |DL_GETTERS| && Validated(e)
    ensures DL_GETTERS[i] in e ==> e[DL_GETTERS[i]].I? && e[DL_GETTERS[i]].value >= 0
  {
  }

  /** The record has what atoi reads of the entry's integer, or the unset value. */
  ghost predicate Recorded(rec: Record, e: Entry, key: string) {
    if key in e then e[key].I? && GetNum(rec, key) == LongToInt(e[key].value)
    else GetNum(rec, key) == -1
  }

  /** What the record of a UE says for a getter's field. */
  lemma RecordedValue(reader: Reader, e: Entry, rec: Record, i: nat)
    requires Validated(e) && i < |Getters(reader)| && RecordOf(reader.Keys(), rec, e)
    ensures Recorded(rec, e, Getters(reader)[i])
  {
    var key := Getters(reader)[i];
    match reader {
      case UlReader => UlGetterKinds(i);
      case DlReader => DlGetterKinds(i);
    }
    assert key in FIELDS;
    GetterKinds(reader, i, e);
    if key in e {
      AtoiOfStr(e[key].value);
    }
    hide FIELDS, INT_FIELDS, FLOAT_FIELDS, UL_GRAMMAR, DL_GRAMMAR, UL_GETTERS, DL_GETTERS, Validated, Atoi, IntStr;
    hide LongToInt;
  }

  lemma AfterGood(cs: seq<Command>)
    requires FileFits(After(cs))
    ensures GoodRegistry(After(cs)) && forall x <- After(cs).Keys :: Validated(After(cs)[x])
  {
    hide Validated, FileFits, Printable;
    forall x <- After(cs).Keys
      ensures Validated(After(cs)[x]) && Printable(After(cs)[x])
    {
      AfterValidated(cs, x);
      ValidatedPrintable(After(cs)[x]);
    }
  }

  /** What a getter answers after some commands, for the reload of the file they leave. */
  ghost function Answer(cs: seq<Command>, reader: Reader, rnti: nat, i: nat, def: int): int
    requires i < |Getters(reader)|
  {
    GetFrom(Lookup(TableOf(reader, StateFile(After(cs))), rnti), Getters(reader)[i], Least(reader, i), def)
  }

  /** After any commands whose file fits the readers, every integer getter of either direction answers what
      atoi reads of the last validated value set for that UE and field, if that is in the getter's range.
      It answers the default otherwise, if there is no such value, or if the table has no room for the UE. */
  lemma GetterAfterCommands(cs: seq<Command>, reader: Reader, rnti: nat, i: nat, def: int)
    requires FileFits(After(cs)) && i < |Getters(reader)|
    ensures var v := Answer(cs, reader, rnti, i, def);
            && (forall x :: Kept(reader, After(cs), rnti) && LastSet(cs, rnti, Getters(reader)[i], I(x)) ==>
                  v == Taken(x, Least(reader, i), def))
            && ((forall x :: !(Kept(reader, After(cs), rnti) && LastSet(cs, rnti, Getters(reader)[i], I(x)))) ==>
                v == def)
  {
    var r, key := After(cs), Getters(reader)[i];
    AfterGood(cs);
    GetterOfRegistry(r, reader, rnti, i, def);
    hide *;
    forall x
      ensures LastSet(cs, rnti, key, I(x)) <==> key in EntryOf(r, rnti) && EntryOf(r, rnti)[key] == I(x)
    {
      AfterIsLastSet(cs, rnti, key, I(x));
    }
    assert key in EntryOf(r, rnti) ==> EntryOf(r, rnti)[key] == I(EntryOf(r, rnti)[key].value);
    assert Answer(cs, reader, rnti, i, def)
        == GetFrom(Lookup(TableOf(reader, StateFile(r)), rnti), key, Least(reader, i), def);
  }

  /** A value comes back exactly if it fits an int; otherwise only by chance, as the default. */
  lemma ValueReadBack(cs: seq<Command>, reader: Reader, rnti: nat, i: nat, def: int, x: int)
    requires FileFits(After(cs)) && i < |Getters(reader)|
    requires Kept(reader, After(cs), rnti) && LastSet(cs, rnti, Getters(reader)[i], I(x))
    ensures Answer(cs, reader, rnti, i, def) == x
            <==> x <= 0x7FFF_FFFF || (LongToInt(x) < Least(reader, i) && def == x)
  {
    GetterAfterCommands(cs, reader, rnti, i, def);
    LastSetInRange(cs, reader, rnti, i, x);
    hide LastSet, Kept, Answer, FileFits;
  }

  /** Validated values are within the getter's range. */
  lemma LastSetInRange(cs: seq<Command>, reader: Reader, rnti: nat, i: nat, x: int)
    requires i < |Getters(reader)| && LastSet(cs, rnti, Getters(reader)[i], I(x))
    ensures x >= Least(reader, i) && (reader == UlReader && i == 0 ==> x <= 28)
  {
    var j: nat :| LastSetAt(cs, j, rnti, Getters(reader)[i], I(x));
    assert Validated(cs[j].request);
    InGetterRange(reader, i, cs[j].request);
  }

  lemma InGetterRange(reader: Reader, i: nat, e: Entry)
    requires i < |Getters(reader)| && Validated(e) && Getters(reader)[i] in e
    ensures var f := e[Getters(reader)[i]];
            f.I? && f.value >= Least(reader, i) && (reader == UlReader && i == 0 ==> f.value <= 28)
  {
  }

  lemma UlMaxMcsClips(cs: seq<Command>, rnti: nat, def: int, maxMcsTable: nat)
    ensures 0 < |Getters(UlReader)|
    ensures GetUlMaxMcs(Lookup(TableOf(UlReader, StateFile(After(cs))), rnti), def, maxMcsTable)
            == Clamp(Answer(cs, UlReader, rnti, 0, def), 0, maxMcsTable)
  {
    hide TableOf, StateFile, Lookup, After;
  }

  lemma McsTaken(x: int, def: int, maxMcsTable: nat)
    requires 0 <= x <= 28
    ensures 0 < |Getters(UlReader)|
    ensures Clamp(Taken(x, Least(UlReader, 0), def), 0, maxMcsTable) == if x > maxMcsTable then maxMcsTable else x
  {
  }

  /** The uplink MCS getter clips the value set to the MCS table. */
  lemma UlMaxMcsAfterCommands(cs: seq<Command>, rnti: nat, def: int, maxMcsTable: nat)
    requires FileFits(After(cs)) && Kept(UlReader, After(cs), rnti)
    ensures 0 < |Getters(UlReader)|
    ensures var v := GetUlMaxMcs(Lookup(TableOf(UlReader, StateFile(After(cs))), rnti), def, maxMcsTable);
            && (forall x :: LastSet(cs, rnti, Getters(UlReader)[0], I(x)) ==>
                v == if x > maxMcsTable then maxMcsTable else x)
            && ((forall x :: !LastSet(cs, rnti, Getters(UlReader)[0], I(x))) ==> v == Clamp(def, 0, maxMcsTable))
  {
    UlMaxMcsClips(cs, rnti, def, maxMcsTable);
    hide *;
    GetterAfterCommands(cs, UlReader, rnti, 0, def);
    forall x | LastSet(cs, rnti, Getters(UlReader)[0], I(x))
      ensures Clamp(Taken(x, Least(UlReader, 0), def), 0, maxMcsTable) == if x > maxMcsTable then maxMcsTable else x
    {
      LastSetInRange(cs, UlReader, rnti, 0, x);
      assert x >= 0 by {
        LeastNat(UlReader, 0);
      }
      McsTaken(x, def, maxMcsTable);
    }
  }

  lemma LeastNat(reader: Reader, i: nat)
    ensures Least(reader, i) >= 0
  {
  }

  /** The file fits if every accepted command names an RNTI and integers below 10^13. */
  lemma {:induction false} ShortCommandsFit(cs: seq<Command>)
    requires forall i :: 0 <= i < |cs| && cs[i].Set? && Accepted(cs[i]) ==> GoodRnti(cs[i].rnti) && Short(cs[i].request)
    ensures forall x <- After(cs).Keys :: GoodRnti(x) && Short(After(cs)[x])
    ensures FileFits(After(cs))
    decreases cs
  {
    hide Validated, FIELDS, FileFits, ShortField;
    if cs != [] {
      var before, c := cs[..|cs| - 1], cs[|cs| - 1];
      ShortCommandsFit(before);
      if c.Set? && Accepted(c) {
        var e := EntryOf(After(before), c.rnti);
        assert forall k <- (e + c.request).Keys :: (e + c.request)[k] == if k in c.request then c.request[k] else e[k];
      }
    }
    ShortFileFits(After(cs));
  }

  // ----- integers that do not fit an int

  ghost predicate Bounded(rec: Record) {
    forall k <- rec.Keys :: rec[k].Num? ==> rec[k].v <= 0x7FFF_FFFF
  }

  lemma {:induction false} ParseTokenBounded(g: Grammar, tok: string, rec: Record)
    requires Bounded(rec)
    ensures Bounded(ParseToken(g, tok, rec))
  {
    if g != [] && !StartsWith(tok, g[0].0 + "=") {
      ParseTokenBounded(g[1..], tok, rec);
    }
  }

  lemma {:induction false} ParseTokensBounded(g: Grammar, toks: seq<string>, rec: Record)
    requires Bounded(rec)
    ensures Bounded(ParseTokens(g, toks, rec))
  {
    if toks != [] {
      ParseTokenBounded(g, toks[0], rec);
      ParseTokensBounded(g, toks[1..], ParseToken(g, toks[0], rec));
    }
  }

  lemma {:induction false} EventsBounded(reader: Reader, lines: seq<string>, i: nat)
    requires i < |Events(reader, lines)|
    ensures Bounded(Events(reader, lines)[i].1)
  {
    hide UL_GRAMMAR, DL_GRAMMAR, ParseTokens, Tokens;
    ParseTokensBounded(UL_GRAMMAR, Tokens(Skip(lines[0], IsSpace)), map[]);
    ParseTokensBounded(DL_GRAMMAR, Tokens(Skip(lines[0], IsBlank)), map[]);
    if reader.Line(lines[0]).None? {
      EventsBounded(reader, lines[1..], i);
    } else if i > 0 {
      EventsBounded(reader, lines[1..], i - 1);
    }
  }

  lemma {:induction false} HistoryBounded(es: seq<(nat, Record)>, rnti: nat)
    requires forall i :: 0 <= i < |es| ==> Bounded(es[i].1)
    ensures forall i :: 0 <= i < |History(es, rnti)| ==> Bounded(History(es, rnti)[i])
    decreases es
  {
    if es != [] {
      HistoryBounded(es[..|es| - 1], rnti);
    }
  }

  /** Whatever the file says, a getter never answers an integer above 2^31 - 1 that is not the default:
      a larger value, which the backend accepts for the unbounded fields, cannot be read back. */
  lemma LargeValueLost(reader: Reader, text: string, rnti: nat, key: string, least: nat, def: int)
    ensures var v := GetFrom(Lookup(TableOf(reader, text), rnti), key, least, def); v == def || v <= 0x7FFF_FFFF
  {
    var es := Events(reader, Chunks(text));
    forall i | 0 <= i < |es|
      ensures Bounded(es[i].1)
    {
      EventsBounded(reader, Chunks(text), i);
    }
    HistoryBounded(es, rnti);
    hide Events, Chunks;
    RunLookup(Blank(reader.Capacity()), map[], Overwrite, es, rnti);
    assert Fold(map[], Overwrite, History(es, rnti)) == map[] || Bounded(Fold(map[], Overwrite, History(es, rnti)));
  }

  /** One command: a limit of x grants in a row for one UE. */
  function SetMaxGrants(rnti: int, x: int): Command {
    Set(rnti, map["ul_maxcg_override" := I(x)])
  }

  lemma SetMaxGrantsAccepted(rnti: int, x: int)
    requires x > 0
    ensures Accepted(SetMaxGrants(rnti, x)) && Getters(UlReader)[4] == "ul_maxcg_override" && Least(UlReader, 4) == 1
  {
    assert INT_FIELDS[4] == "ul_maxcg_override";
    assert FIELDS[4] == "ul_maxcg_override";
  }

  /** Accepted values that do not fit an int are misread: the getter answers what is left of them in 32
      bits if that is positive, otherwise the default. */
  lemma LargeValueMisread(rnti: nat, x: nat, def: int)
    requires GoodRnti(rnti) && 0x7FFF_FFFF < x < 10_000_000_000_000
    ensures Accepted(SetMaxGrants(rnti, x)) && 4 < |Getters(UlReader)|
    ensures Answer([SetMaxGrants(rnti, x)], UlReader, rnti, 4, def) == Taken(x, 1, def)
    ensures Answer([SetMaxGrants(rnti, x)], UlReader, rnti, 4, def) == x ==> def == x
  {
    var c := SetMaxGrants(rnti, x);
    SetMaxGrantsAccepted(rnti, x);
    OneSet(c);
    hide Validated, Accepted, After, FIELDS;
    assert Short(c.request);
    assert FileFits(After([c])) by {
      ShortCommandsFit([c]);
    }
    FewUesKept(UlReader, After([c]), rnti);
    hide Getters, Least, Kept, FileFits, Taken, LastSet, Short;
    GetterAfterCommands([c], UlReader, rnti, 4, def);
    hide Answer;
    TakenSmall(x, def);
  }

  lemma TakenSmall(x: nat, def: int)
    requires x > 0x7FFF_FFFF
    ensures Taken(x, 1, def) == x ==> def == x
  {
  }

  /** The registry and the last value after a single set. */
  lemma OneSet(c: Command)
    requires c.Set? && Accepted(c)
    ensures After([c]) == map[c.rnti := c.request]
    ensures forall key <- c.request.Keys :: LastSet([c], c.rnti, key, c.request[key])
  {
    hide Validated;
    assert [c][..0] == [] && After([]) == map[];
    assert map[] + c.request == c.request;
    forall key <- c.request.Keys
      ensures LastSet([c], c.rnti, key, c.request[key])
    {
      assert LastSetAt([c], 0, c.rnti, key, c.request[key]);
    }
  }

  /** 2^31 is lost, and 2^32 + 5 comes back as 5. */
  lemma LargeValueExamples()
    ensures forall def :: Taken(0x8000_0000, 1, def) == def && Taken(0x1_0000_0005, 1, def) == 5
  {
  }
}
