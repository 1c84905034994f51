/**
  The two readers of the posture file in the gNB: rk_ue_la_policy.c (uplink) and rk_ue_dl_policy.c
  (downlink). Both read it line by line into a bounded table of records and answer getters from it.

  A record maps the fields that were on the line to their values; a field that was not has the
  source's unset value -1. Floats stay the text after the equals sign.
 */
module PostureParsers {
  import opened Basics
  import opened TextCodec
  import opened RntiTable

  datatype Kind = IntKey | FloatKey | RntiKey

  datatype Value = Num(v: int) | Text(s: string)

  type Record = map<string, Value>

  /** The keys a reader tests a token for, in order. */
  type Grammar = seq<(string, Kind)>

  const UL_GRAMMAR: Grammar := [
    ("rnti", IntKey), ("ul_max_mcs", IntKey), ("min_grant_prb", IntKey), ("ulsch_max_frame_inactivity", IntKey),
    ("pusch_target_snrx10", IntKey), ("ul_sched_mul", FloatKey), ("ul_maxcg_override", IntKey),
    ("ul_small_burst_bytes", IntKey), ("ul_small_burst_mul", FloatKey)]

  const DL_GRAMMAR: Grammar := [
    ("rnti", RntiKey), ("dl_max_mcs", IntKey), ("dl_min_grant_prb", IntKey), ("dl_sched_mul", FloatKey),
    ("dl_maxcg_override", IntKey), ("dl_small_burst_bytes", IntKey), ("dl_small_burst_mul", FloatKey)]

  const UL_CAPACITY := 256
  const DL_CAPACITY := 128

  function Convert(kind: Kind, text: string): (r: Value)
    ensures r.Num? ==> -0x8000_0000 <= r.v <= 0x7FFF_FFFF
  {
    match kind
    case IntKey => Num(Atoi(text))
    case RntiKey => Num(StrtoulToU16(text))
    case FloatKey => Text(text)
  }

  predicate StartsWith(s: string, p: string) {
    |p| <= |s| && s[..|p|] == p
  }

  function ParseToken(g: Grammar, tok: string, rec: Record): Record {
    if g == [] then rec
    else if StartsWith(tok, g[0].0 + "=") then rec[g[0].0 := Convert(g[0].1, tok[|g[0].0| + 1..])]
    else ParseToken(g[1..], tok, rec)
  }

  function ParseTokens(g: Grammar, toks: seq<string>, rec: Record): Record {
    if toks == [] then rec else ParseTokens(g, toks[1..], ParseToken(g, toks[0], rec))
  }

  function Skip(s: string, skipped: char -> bool): string {
    if s != [] && skipped(s[0]) then Skip(s[1..], skipped) else s
  }

  /** What one line of the file contributes. */
  function UlLine(line: string): Option<(nat, Record)> {
    var p := Skip(line, IsSpace);
    if p == [] || p[0] == '#' then None
    else
      var rec := ParseTokens(UL_GRAMMAR, Tokens(p), map[]);
      var rnti := GetNum(rec, "rnti");
      if rnti <= 0 || rnti > 0xFFFF then None else Some((rnti, rec))
  }

  predicate IsBlank(c: char) {
    c == ' ' || c == '\t'
  }

  function DlLine(line: string): Option<(nat, Record)> {
    var p := Skip(line, IsBlank);
    if p == [] || p[0] == '#' || p[0] == '\n' then None
    else
      var rec := ParseTokens(DL_GRAMMAR, Tokens(p), map[]);
      if "rnti" in rec && rec["rnti"].Num? && rec["rnti"].v >= 0 then Some((rec["rnti"].v, rec)) else None
  }

  datatype Reader = UlReader | DlReader {
    function Line(line: string): Option<(nat, Record)> {
      match this case UlReader => UlLine(line) case DlReader => DlLine(line)
    }

    function Capacity(): nat {
      match this case UlReader => UL_CAPACITY case DlReader => DL_CAPACITY
    }

    function Keys(): Grammar {
      match this case UlReader => UL_GRAMMAR case DlReader => DL_GRAMMAR
    }
  }

  function Events(reader: Reader, lines: seq<string>): seq<(nat, Record)> {
    if lines == [] then []
    else
      var rest := Events(reader, lines[1..]);
      match reader.Line(lines[0])
      case None => rest
      case Some(e) => [e] + rest
  }

  function Overwrite(previous: Record, rec: Record): Record {
    rec
  }

  function Blank(n: nat): (t: seq<Slot<Record>>)
    ensures |t| == n && Empty(t)
  {
    seq(n, _ => Slot(false, 0, map[]))
  }

  /** The table after a reload that read this text. */
  ghost function TableOf(reader: Reader, text: string): seq<Slot<Record>> {
    Run(Blank(reader.Capacity()), map[], Overwrite, Events(reader, Chunks(text)))
  }

  /** Lines that say nothing: empty ones, and comments, after blanks. */
  lemma NoRecord(comment: string)
    ensures UlLine("\n") == DlLine("\n") == None
    ensures UlLine("#" + comment) == DlLine("#" + comment) == None
    ensures UlLine(" \t#" + comment) == DlLine(" \t#" + comment) == None
  {
    var s := "#" + comment;
    assert s[0] == '#' && "\n"[1..] == [];
    assert Skip("\n", IsSpace) == [] && Skip("\n", IsBlank) == "\n";
    assert Skip(s, IsSpace) == s && Skip(s, IsBlank) == s;
    hide Skip;
    assert " \t#" + comment == [' '] + (['\t'] + s);
    SkipOne('\t', s, IsSpace);
    SkipOne('\t', s, IsBlank);
    SkipOne(' ', ['\t'] + s, IsSpace);
    SkipOne(' ', ['\t'] + s, IsBlank);
  }

  lemma SkipOne(c: char, s: string, skipped: char -> bool)
    requires skipped(c)
    ensures Skip([c] + s, skipped) == Skip(s, skipped)
  {
    assert ([c] + s)[1..] == s;
  }

  /** Of several lines for one RNTI the last one counts. */
  lemma LastLineCounts(reader: Reader, text: string, rnti: nat)
    ensures var h := History(Events(reader, Chunks(text)), rnti);
            Lookup(TableOf(reader, text), rnti).Some? ==>
              h != [] && Lookup(TableOf(reader, text), rnti) == Some(h[|h| - 1])
    ensures |TableOf(reader, text)| == match reader case UlReader => 256 case DlReader => 128
  {
    var es := Events(reader, Chunks(text));
    RunLookup(Blank(reader.Capacity()), map[], Overwrite, es, rnti);
    if History(es, rnti) == [] {
      NotTracked(es, rnti, reader.Capacity());
    }
  }

  lemma {:induction false} NotTracked(es: seq<(nat, Record)>, rnti: nat, cap: nat)
    requires History(es, rnti) == []
    ensures rnti !in Tracked(es, cap)
  {
    if es != [] {
      NotTracked(es[..|es| - 1], rnti, cap);
    }
  }

  // ----- getters

  function GetNum(rec: Record, key: string): int {
    if key in rec && rec[key].Num? then rec[key].v else -1
  }

  function FieldOf(e: Option<Record>, key: string): int {
    match e case None => -1 case Some(rec) => GetNum(rec, key)
  }

  /** Most getters: the record's value from `least` on, otherwise the default. */
  function GetFrom(e: Option<Record>, key: string, least: int, def: int): int {
    if FieldOf(e, key) >= least then FieldOf(e, key) else def
  }

  /** rk_ue_la_get_ul_max_mcs */
  function GetUlMaxMcs(e: Option<Record>, def: int, maxMcsTable: int): int {
    var v := GetFrom(e, "ul_max_mcs", 0, def);
    var w := if v > maxMcsTable then maxMcsTable else v;
    if w < 0 then 0 else w
  }

  // ----- the readers

  method ParseLineTokens(g: Grammar, p: string) returns (rec: Record)
    ensures rec == ParseTokens(g, Tokens(p), map[])
  {
    rec := map[];
    var rest := p;
    while rest != []
      invariant ParseTokens(g, Tokens(p), map[]) == ParseTokens(g, Tokens(rest), rec)
      decreases |rest|
    {
      if IsDelim(rest[0]) {
        rest := rest[1..];
      } else {
        var n := TokenLen(rest);
        assert Tokens(rest) == [rest[..n]] + Tokens(rest[n..]);
        rec := ParseToken(g, rest[..n], rec);
        rest := rest[n..];
      }
    }
  }

  lemma EventsStep(reader: Reader, rest: string, done: seq<(nat, Record)>)
    requires rest != []
    ensures var k := ChunkLen(rest, LINE_MAX);
            && k > 0
            && done + Events(reader, Chunks(rest))
               == (if reader.Line(rest[..k]).Some? then done + [reader.Line(rest[..k]).value] else done)
                  + Events(reader, Chunks(rest[k..]))
  {
    var k := ChunkLen(rest, LINE_MAX);
    hide Reader.Line, ChunkLen;
    assert Chunks(rest)[1..] == Chunks(rest[k..]);
    hide Chunks;
  }

  lemma EventsEnd(reader: Reader, done: seq<(nat, Record)>)
    ensures done + Events(reader, Chunks([])) == done
  {
  }

  class PolicyTable {
    const reader: Reader
    const table: Table<Record>

    constructor (reader: Reader)
      ensures this.reader == reader && fresh(table) && fresh(table.slots) && table.slots.Length == reader.Capacity()
    {
      this.reader := reader;
      table := new Table<Record>(reader.Capacity(), map[]);
    }

    method ClearAll()
      modifies table.slots
      ensures table.slots[..] == Blank(table.slots.Length)
    {
      for i := 0 to table.slots.Length
        invariant table.slots[..i] == Blank(i)
      {
        table.slots[i] := Slot(false, 0, map[]);
      }
    }

    /** The loop of rk_ue_la_reload_if_needed and rk_ue_dl_reload_if_needed over the lines of the file. */
    method Reload(text: string)
      requires table.slots.Length == reader.Capacity()
      modifies table.slots
      ensures table.slots[..] == TableOf(reader, text)
    {
      var n := table.slots.Length;
      ClearAll();
      hide Chunks, Events, ChunkLen;
      ghost var done: seq<(nat, Record)> := [];
      var rest := text;
      while rest != []
        invariant table.slots[..] == Run(Blank(n), map[], Overwrite, done)
        invariant Events(reader, Chunks(text)) == done + Events(reader, Chunks(rest))
        decreases |rest|
      {
        var k := ChunkLen(rest, LINE_MAX);
        var line := rest[..k];
        EventsStep(reader, rest, done);
        rest := rest[k..];
        var e := ReadLine(line);
        if e.Some? {
          StoreRecord(e.value.0, e.value.1);
          assert (done + [e.value])[..|done|] == done;
          done := done + [e.value];
        }
      }
      EventsEnd(reader, done);
    }

    method ReadLine(line: string) returns (e: Option<(nat, Record)>)
      ensures e == reader.Line(line)
    {
      match reader
      case UlReader =>
        var p := Skip(line, IsSpace);
        if p == [] || p[0] == '#' {
          return None;
        }
        var rec := ParseLineTokens(UL_GRAMMAR, p);
        var rnti := GetNum(rec, "rnti");
        if rnti <= 0 || rnti > 0xFFFF {
          return None;
        }
        e := Some((rnti, rec));
      case DlReader =>
        var p := Skip(line, IsBlank);
        if p == [] || p[0] == '#' || p[0] == '\n' {
          return None;
        }
        var rec := ParseLineTokens(DL_GRAMMAR, p);
        if !("rnti" in rec && rec["rnti"].Num? && rec["rnti"].v >= 0) {
          return None;
        }
        e := Some((rec["rnti"].v, rec));
    }

    method StoreRecord(rnti: nat, rec: Record)
      modifies table.slots
      ensures table.slots[..] == Apply(old(table.slots[..]), map[], Overwrite, rnti, rec)
    {
      ghost var before := table.slots[..];
      var i;
      match reader {
        case UlReader => i := table.FindOrCreate(rnti, map[]);
        case DlReader => i := table.FindOrCreateOnePass(rnti, map[]);
      }
      if i < table.slots.Length {
        AllocThenWrite(before, rnti, map[], rec);
        table.slots[i] := Slot(table.slots[i].valid, table.slots[i].rnti, rec);
      }
    }

    method Get(rnti: nat, key: string, least: nat, def: int) returns (v: int)
      ensures v == GetFrom(Lookup(table.slots[..], rnti), key, least, def)
    {
      var i := table.FindSlot(rnti);
      if i < table.slots.Length && GetNum(table.slots[i].value, key) >= least {
        return GetNum(table.slots[i].value, key);
      }
      v := def;
    }
  }
}
