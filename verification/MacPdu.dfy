/**
  MAC PDUs (section 6.1.2 of 3GPP TS 38.321): the downlink transport block builder, the sub-PDU header
  decoder, and the two walkers over a received uplink PDU.

  LCID values are those of table 6.2.1-2 of 3GPP TS 38.321 for the uplink; padding is 63 in both
  directions.
 */
module MacPdu {
  import opened Basics

  type byte = x: nat | x < 256

  const CCCH_64 := 0
  const SRB1 := 1
  const SRB2 := 2
  const DTCH := 4
  const CCCH_48_REDCAP := 35
  const CCCH_48 := 52
  const BITRATE_QUERY := 53
  const MULTI_PHR_4 := 54
  const CONFIGURED_GRANT_CONFIRMATION := 55
  const MULTI_PHR_1 := 56
  const SINGLE_PHR := 57
  const C_RNTI := 58
  const S_TRUNCATED_BSR := 59
  const L_TRUNCATED_BSR := 60
  const S_BSR := 61
  const L_BSR := 62
  const PADDING := 63

  predicate IsDtch(lcid: nat) {
    DTCH <= lcid <= DTCH + 28
  }

  /** LCIDs whose length is in the header. */
  predicate HasLength(lcid: nat) {
    lcid == SRB1 || lcid == SRB2 || IsDtch(lcid) || lcid == L_TRUNCATED_BSR || lcid == L_BSR
  }

  /** hdr and len in bytes. Where the decoder leaves the length alone, it is the caller's 0. */
  datatype Header = Header(lcid: nat, hdr: nat, len: nat)

  /** decode_ul_mac_sub_pdu_header on the first three bytes. */
  function Decode(b0: byte, b1: byte, b2: byte): (h: Header)
    ensures 1 <= h.hdr <= 3 && h.len <= 0xFFFF && h.lcid < 64
  {
    var lcid := b0 % 64;
    if lcid == CCCH_64 then Header(lcid, 1, 8)
    else if HasLength(lcid) then
      (if b0 / 64 % 2 == 1 then Header(lcid, 3, b1 * 256 + b2) else Header(lcid, 2, b1))
    else if lcid == CCCH_48_REDCAP || lcid == CCCH_48 then Header(lcid, 1, 6)
    else if lcid == SINGLE_PHR || lcid == C_RNTI then Header(lcid, 1, 2)
    else if lcid == S_TRUNCATED_BSR || lcid == S_BSR then Header(lcid, 1, 1)
    else Header(lcid, 1, 0)
  }

  // ----- walking a PDU

  /** at and len locate the payload; hdr is the header before it. */
  datatype Sub = Sub(lcid: nat, hdr: nat, at: nat, len: nat)

  datatype Stop = AtEnd | AtPadding | Invalid

  datatype Walked = Walked(subs: seq<Sub>, stop: Stop)

  /** Room behind the PDU for what the source peeks at past its end. */
  const SLACK := 16

  predicate InBuffer(b: seq<byte>, p: nat, end: nat) {
    p <= end && end + SLACK <= |b|
  }

  function HeaderAt(b: seq<byte>, p: nat): Header
    requires p + 3 <= |b|
  {
    Decode(b[p], b[p + 1], b[p + 2])
  }

  /** A sub-PDU of b[p..end]. */
  ghost predicate Inside(s: Sub, p: nat, end: nat) {
    1 <= s.hdr <= 3 && p + s.hdr <= s.at && s.at + s.len <= end
  }

  /** The sub-PDUs of b[p..end], up to padding or to a sub-PDU that does not fit. */
  ghost function Walk(b: seq<byte>, p: nat, end: nat): (w: Walked)
    requires InBuffer(b, p, end)
    ensures forall i :: 0 <= i < |w.subs| ==> Inside(w.subs[i], p, end) && w.subs[i].len <= 0xFFFF
    decreases end - p
  {
    if p == end then Walked([], AtEnd)
    else
      var h := HeaderAt(b, p);
      if h.hdr + h.len > end - p then Walked([], Invalid)
      else if h.lcid == PADDING then Walked([], AtPadding)
      else
        var rest := Walk(b, p + h.hdr + h.len, end);
        Walked([Sub(h.lcid, h.hdr, p + h.hdr, h.len)] + rest.subs, rest.stop)
  }

  /** They lie one behind the other, the first at p; the walk ends where the last of them does. */
  ghost predicate Adjacent(subs: seq<Sub>, p: nat) {
    subs != [] ==> subs[0].at == p + subs[0].hdr && Adjacent(subs[1..], subs[0].at + subs[0].len)
  }

  lemma {:induction false} WalkAdjacent(b: seq<byte>, p: nat, end: nat)
    requires InBuffer(b, p, end)
    ensures Adjacent(Walk(b, p, end).subs, p)
    decreases end - p
  {
    if p < end {
      var h := HeaderAt(b, p);
      if h.hdr + h.len <= end - p && h.lcid != PADDING {
        WalkAdjacent(b, p + h.hdr + h.len, end);
        assert Walk(b, p, end).subs[1..] == Walk(b, p + h.hdr + h.len, end).subs;
      }
    }
  }

  lemma {:induction false} AdjacentMeans(subs: seq<Sub>, p: nat, i: nat)
    requires Adjacent(subs, p) && i < |subs|
    ensures subs[i].at == subs[i].hdr + if i == 0 then p else subs[i - 1].at + subs[i - 1].len
    decreases i
  {
    if i > 0 {
      AdjacentMeans(subs[1..], subs[0].at + subs[0].len, i - 1);
    }
  }

  // ----- sub-headers as the standard has them

  /** Sizes of SDUs and control elements without a length field (table 6.2.1-2 and section 6.1.3 of
      3GPP TS 38.321). */
  function FixedSize(lcid: nat): Option<nat> {
    match lcid
    case 0 => Some(8)
    case 35 => Some(6)
    case 52 => Some(6)
    case 57 => Some(2)
    case 58 => Some(2)
    case 59 => Some(1)
    case 61 => Some(1)
    case 63 => Some(0)
    case _ => None
  }

  /** The sub-header for a payload: with F = 1 and 16 bits of length, F = 0 and 8 bits, or without length. */
  function SubHeader(lcid: nat, len: nat, long: bool): (h: seq<byte>)
    requires lcid < 64
  {
    if !HasLength(lcid) then [lcid]
    else if long then [64 + lcid, len / 256 % 256, len % 256]
    else [lcid, len % 256]
  }

  /** The decoder reads a sub-header back exactly if the payload has the size of its LCID, or fits the length
      field; for an LCID that it does not know, exactly if there is no payload. What follows the sub-header
      does not matter. */
  lemma DecodeSubHeader(lcid: nat, len: nat, long: bool, rest: seq<byte>)
    requires lcid < 64 && |rest| >= 2
    ensures var (h, b) := (SubHeader(lcid, len, long), SubHeader(lcid, len, long) + rest);
            Decode(b[0], b[1], b[2]) == Header(lcid, |h|, len)
            <==> if HasLength(lcid) then len < (if long then 65536 else 256)
                 else len == match FixedSize(lcid) case Some(n) => n case None => 0
  {
    assert len < 65536 ==> len / 256 % 256 * 256 + len % 256 == len;
  }

  function U16(hi: nat, lo: nat): nat {
    hi * 256 + lo
  }

  /** The first C-RNTI element of a list, as its value; 0 if there is none. */
  ghost function FirstCrnti(b: seq<byte>, p: nat, end: nat, subs: seq<Sub>): nat
    requires InBuffer(b, p, end) && forall i :: 0 <= i < |subs| ==> Inside(subs[i], p, end)
  {
    assert subs != [] ==> Inside(subs[0], p, end);
    if subs == [] then 0
    else if subs[0].lcid == C_RNTI then U16(b[subs[0].at], b[subs[0].at + 1])
    else FirstCrnti(b, p, end, subs[1..])
  }

  ghost function CrntiIn(b: seq<byte>, p: nat, end: nat): nat
    requires InBuffer(b, p, end)
  {
    FirstCrnti(b, p, end, Walk(b, p, end).subs)
  }

  lemma {:induction false} FirstCrntiFrame(b: seq<byte>, p: nat, q: nat, end: nat, subs: seq<Sub>)
    requires InBuffer(b, p, end) && p <= q && InBuffer(b, q, end)
    requires forall i :: 0 <= i < |subs| ==> Inside(subs[i], q, end)
    ensures (forall i :: 0 <= i < |subs| ==> Inside(subs[i], p, end))
            && FirstCrnti(b, p, end, subs) == FirstCrnti(b, q, end, subs)
  {
    forall i | 0 <= i < |subs|
      ensures Inside(subs[i], p, end)
    {
      assert Inside(subs[i], q, end);
    }
    if subs != [] {
      FirstCrntiFrame(b, p, q, end, subs[1..]);
    }
  }

  /** One sub-PDU of the lookahead. */
  lemma CrntiStep(b: seq<byte>, p: nat, end: nat)
    requires InBuffer(b, p, end) && p < end
    ensures var h := HeaderAt(b, p);
            CrntiIn(b, p, end)
            == if h.hdr + h.len > end - p || h.lcid == PADDING then 0
               else if h.lcid == C_RNTI then U16(b[p + 1], b[p + 2])
               else CrntiIn(b, p + h.hdr + h.len, end)
  {
    var h := HeaderAt(b, p);
    if h.hdr + h.len <= end - p && h.lcid != PADDING {
      var q := p + h.hdr + h.len;
      var w := Walk(b, p, end);
      assert w.subs[1..] == Walk(b, q, end).subs;
      if h.lcid != C_RNTI {
        FirstCrntiFrame(b, p, q, end, Walk(b, q, end).subs);
      }
    }
  }

  /** The lookahead's value is that of the first C-RNTI element of the walk, high byte first; 0 without one. */
  lemma {:induction false} CrntiMeans(b: seq<byte>, p: nat, end: nat, i: nat)
    requires InBuffer(b, p, end) && i <= |Walk(b, p, end).subs|
    requires forall j :: 0 <= j < i ==> Walk(b, p, end).subs[j].lcid != 58
    ensures i == |Walk(b, p, end).subs| ==> CrntiIn(b, p, end) == 0
    ensures i < |Walk(b, p, end).subs| && Walk(b, p, end).subs[i].lcid == 58 ==>
              var at := Walk(b, p, end).subs[i].at;
              at + 1 < |b| && CrntiIn(b, p, end) == (b[at] as nat) * 256 + b[at + 1]
  {
    var subs := Walk(b, p, end).subs;
    hide Walk, FirstCrnti;
    if i == |subs| {
      NoCrnti(b, p, end, subs);
    } else if subs[i].lcid == 58 {
      FirstCrntiAt(b, p, end, subs, i);
    }
  }

  lemma {:induction false} NoCrnti(b: seq<byte>, p: nat, end: nat, subs: seq<Sub>)
    requires InBuffer(b, p, end) && forall i :: 0 <= i < |subs| ==> Inside(subs[i], p, end) && subs[i].lcid != 58
    ensures FirstCrnti(b, p, end, subs) == 0
  {
    if subs != [] {
      NoCrnti(b, p, end, subs[1..]);
    }
  }

  lemma {:induction false} FirstCrntiAt(b: seq<byte>, p: nat, end: nat, subs: seq<Sub>, i: nat)
    requires InBuffer(b, p, end) && forall k :: 0 <= k < |subs| ==> Inside(subs[k], p, end)
    requires i < |subs| && subs[i].lcid == 58 && forall j :: 0 <= j < i ==> subs[j].lcid != 58
    ensures subs[i].at + 1 < |b|
    ensures FirstCrnti(b, p, end, subs) == (b[subs[i].at] as nat) * 256 + b[subs[i].at + 1]
    decreases i
  {
    assert Inside(subs[i], p, end);
    if i > 0 {
      FirstCrntiAt(b, p, end, subs[1..], i - 1);
    }
  }

  /** lcid_crnti_lookahead: the first C-RNTI before padding, the end or an invalid sub-PDU. */
  method CrntiLookahead(b: seq<byte>, start: nat, pduLen: nat) returns (crnti: nat)
    requires InBuffer(b, start, start + pduLen)
    ensures crnti == CrntiIn(b, start, start + pduLen)
  {
    var p, left := start, pduLen;
    while left > 0
      invariant p + left == start + pduLen && InBuffer(b, p, p + left)
      invariant CrntiIn(b, start, start + pduLen) == CrntiIn(b, p, p + left)
      decreases left
    {
      var h := HeaderAt(b, p);
      CrntiStep(b, p, p + left);
      if h.hdr + h.len > left {
        return 0;
      }
      if h.lcid == C_RNTI {
        return U16(b[p + 1], b[p + 2]);
      } else if h.lcid == PADDING {
        return 0;
      }
      p := p + h.hdr + h.len;
      left := left - (h.hdr + h.len);
    }
    crnti := 0;
  }

  // ----- buffer estimate of a received PDU

  /** The buffer size tables and the bearers that are configured and not suspended. */
  datatype Context = Context(shortTable: nat -> nat, longTable: nat -> nat, bearers: set<nat>, harqPid: int)

  const SHORT_BSR_TABLE_SIZE := 32
  const LONG_BSR_TABLE_SIZE := 256

  /** overestim_bsr_index, then the end of the table. */
  function BsrIndex(reported: nat, tableSize: nat): nat
    requires tableSize > 0
  {
    var i := if reported > 0 then reported + 1 else reported;
    if i < tableSize - 1 then i else tableSize - 1
  }

  /** The flags without the lowest n. */
  function Shifted(flags: byte, n: nat): nat {
    if n == 0 then flags else Shifted(flags, n - 1) / 2
  }

  function Flag(flags: byte, n: nat): bool
    requires n < 8
  {
    Shifted(flags, n) % 2 == 1
  }

  /** Number of logical channel groups below n that report. */
  ghost function Rank(flags: byte, n: nat): (r: nat)
    requires n <= 8
    ensures r <= n
  {
    if n == 0 then 0 else Rank(flags, n - 1) + if Flag(flags, n - 1) then 1 else 0
  }

  /** Sum over the reporting groups below n; a group's size follows those of the groups before it. */
  ghost function LongBsr(c: Context, b: seq<byte>, at: nat, n: nat): nat
    requires n <= 8 && at + 9 <= |b|
  {
    if n == 0 then 0
    else
      LongBsr(c, b, at, n - 1)
      + if Flag(b[at], n - 1) then c.longTable(BsrIndex(b[at + 1 + Rank(b[at], n - 1)], LONG_BSR_TABLE_SIZE)) else 0
  }

  // ----- buffer status reports in plain terms

  /** Sum of the table values of a stretch of buffer size fields. */
  ghost function TableSum(c: Context, sizes: seq<byte>): nat {
    if sizes == [] then 0
    else TableSum(c, sizes[..|sizes| - 1]) + c.longTable(BsrIndex(sizes[|sizes| - 1], LONG_BSR_TABLE_SIZE))
  }

  /** A long report has one buffer size field per group that is flagged, right behind the flags; the estimate is
      the sum of all of them and of no other byte. */
  lemma {:induction false} LongBsrSums(c: Context, b: seq<byte>, at: nat, n: nat)
    requires n <= 8 && at + 9 <= |b|
    ensures LongBsr(c, b, at, n) == TableSum(c, b[at + 1..at + 1 + Rank(b[at], n)])
  {
    if n > 0 {
      LongBsrSums(c, b, at, n - 1);
      var r := Rank(b[at], n - 1);
      if Flag(b[at], n - 1) {
        assert b[at + 1..at + 1 + r + 1] == b[at + 1..at + 1 + r] + [b[at + 1 + r]];
      }
    }
  }

  /** Set bits of a byte. */
  function BitCount(x: nat): nat {
    if x == 0 then 0 else x % 2 + BitCount(x / 2)
  }

  function Bit(on: bool): nat {
    if on then 1 else 0
  }

  /** Flag n is bit n of the flags. */
  lemma {:induction false} FlagsAreBits(flags: byte)
    ensures var f := (n: nat) requires n < 8 => Bit(Flag(flags, n));
            flags == f(0) + 2 * (f(1) + 2 * (f(2) + 2 * (f(3) + 2 * (f(4) + 2 * (f(5) + 2 * (f(6) + 2 * f(7)))))))
  {
    hide Flag;
    FlagStep(flags, 0);
    FlagStep(flags, 1);
    FlagStep(flags, 2);
    FlagStep(flags, 3);
    FlagStep(flags, 4);
    FlagStep(flags, 5);
    FlagStep(flags, 6);
    FlagStep(flags, 7);
    NothingBeyond(flags);
    hide Bit, Shifted;
  }

  lemma {:induction false} FlagStep(flags: byte, n: nat)
    requires n < 8
    ensures Shifted(flags, n) == 2 * Shifted(flags, n + 1) + Bit(Flag(flags, n))
    ensures Shifted(flags, 0) == flags
  {
  }

  lemma {:induction false} NothingBeyond(flags: byte)
    ensures Shifted(flags, 8) == 0
  {
    assert Shifted(flags, 1) < 128;
    assert Shifted(flags, 2) < 64;
    assert Shifted(flags, 3) < 32;
    assert Shifted(flags, 4) < 16;
    assert Shifted(flags, 5) < 8;
    assert Shifted(flags, 6) < 4;
    assert Shifted(flags, 7) < 2;
  }

  /** The number of groups that are flagged is the number of set bits. */
  lemma {:induction false} RankIsBitCount(flags: byte)
    ensures Rank(flags, 8) == BitCount(flags)
  {
    RankFrom(flags, 0);
    FlagStep(flags, 0);
  }

  lemma {:induction false} RankFrom(flags: byte, n: nat)
    requires n <= 8
    ensures Rank(flags, 8) == Rank(flags, n) + BitCount(Shifted(flags, n))
    decreases 8 - n
  {
    if n < 8 {
      FlagStep(flags, n);
      hide Flag, Shifted;
      RankFrom(flags, n + 1);
      HalfBits(Shifted(flags, n + 1), Bit(Flag(flags, n)));
    } else {
      NothingBeyond(flags);
    }
  }

  lemma {:induction false} HalfBits(x: nat, bit: nat)
    requires bit < 2
    ensures BitCount(2 * x + bit) == bit + BitCount(x)
  {
    assert (2 * x + bit) / 2 == x && (2 * x + bit) % 2 == bit;
  }

  /** A report of 0 is the first entry of its table; a positive one is overestimated by one entry, up to the
      last. The short report has its size in the low five bits. */
  lemma {:induction false} BsrIndexMeans(c: Context, reported: nat, tableSize: nat, group: nat, size: nat)
    requires tableSize > 1 && group < 8 && size < 32
    ensures BsrIndex(0, tableSize) == 0
    ensures reported > 0 ==> BsrIndex(reported, tableSize) == Min(reported + 1, tableSize - 1)
    ensures ShortBsr(c, group * 32 + size) == c.shortTable(if size == 0 then 0 else Min(size + 1, 31))
  {
  }

  /** estimate_ul_buffer_long_bsr */
  method EstimateLongBsr(c: Context, b: seq<byte>, at: nat) returns (size: nat)
    requires at + 9 <= |b|
    ensures size == LongBsr(c, b, at, 8)
  {
    size := 0;
    var m := 0;
    for n := 0 to 8
      invariant m == Rank(b[at], n) && size == LongBsr(c, b, at, n)
    {
      if !Flag(b[at], n) {
        continue;
      }
      size := size + c.longTable(BsrIndex(b[at + 1 + m], LONG_BSR_TABLE_SIZE));
      m := m + 1;
    }
  }

  function ShortBsr(c: Context, payload: byte): nat {
    c.shortTable(BsrIndex(payload % 32, SHORT_BSR_TABLE_SIZE))
  }

  predicate IsShortBsr(lcid: nat) {
    lcid == S_TRUNCATED_BSR || lcid == S_BSR
  }

  predicate IsLongBsr(lcid: nat) {
    lcid == L_TRUNCATED_BSR || lcid == L_BSR
  }

  predicate IsBsr(lcid: nat) {
    IsShortBsr(lcid) || IsLongBsr(lcid)
  }

  /** LCIDs nr_process_mac_pdu has a case for, padding aside. */
  predicate Handled(lcid: nat) {
    lcid <= SRB2 || IsDtch(lcid) || lcid == CCCH_48_REDCAP || (CCCH_48 <= lcid <= L_BSR)
  }

  /** Sub-PDUs at which nr_process_mac_pdu gives up: unknown LCID, an all-zero CCCH1, a power headroom
      without HARQ process. */
  predicate GivesUpAt(c: Context, b: seq<byte>, lcid: nat, first: nat, after: nat)
    requires first <= after <= |b|
  {
    || !Handled(lcid)
    || (lcid == CCCH_64 && forall i :: first <= i < after ==> b[i] == 0)
    || (lcid == SINGLE_PHR && c.harqPid < 0)
  }

  /** The sub-PDUs that are processed, in order. */
  ghost function Processed(c: Context, b: seq<byte>, p: nat, end: nat): (r: seq<Sub>)
    requires InBuffer(b, p, end)
    ensures forall i :: 0 <= i < |r| ==> Inside(r[i], p, end)
    decreases end - p
  {
    if p == end then []
    else
      var h := HeaderAt(b, p);
      if h.hdr + h.len > end - p || h.lcid == PADDING then []
      else if GivesUpAt(c, b, h.lcid, p, p + h.hdr + h.len) then []
      else [Sub(h.lcid, h.hdr, p + h.hdr, h.len)] + Processed(c, b, p + h.hdr + h.len, end)
  }

  /** The estimate a buffer status report sets. */
  ghost function BsrEstimate(c: Context, b: seq<byte>, s: Sub): nat
    requires s.at + 9 <= |b|
  {
    if IsShortBsr(s.lcid) then ShortBsr(c, b[s.at]) else LongBsr(c, b, s.at, 8)
  }

  function MinusFloor(x: nat, y: nat): nat {
    if x >= y then x - y else 0
  }

  /** Data bytes that count: those on configured bearers. */
  function DataBytes(c: Context, s: Sub): nat {
    if IsDtch(s.lcid) && s.lcid in c.bearers then s.len else 0
  }

  /** The estimate after the sub-PDUs, one by one. */
  ghost function Estimate(c: Context, b: seq<byte>, subs: seq<Sub>, est: nat): nat
    requires forall i :: 0 <= i < |subs| ==> subs[i].at + 9 <= |b|
  {
    if subs == [] then est
    else
      var s := subs[0];
      var est' := if IsBsr(s.lcid) then BsrEstimate(c, b, s) else MinusFloor(est, DataBytes(c, s));
      Estimate(c, b, subs[1..], est')
  }

  ghost function SumData(c: Context, subs: seq<Sub>): nat {
    if subs == [] then 0 else DataBytes(c, subs[0]) + SumData(c, subs[1..])
  }

  /** Place behind the last report, 0 if there is none. */
  ghost function AfterLastBsr(subs: seq<Sub>): (k: nat)
    ensures k <= |subs| && (k > 0 ==> IsBsr(subs[k - 1].lcid))
    ensures forall i :: k <= i < |subs| ==> !IsBsr(subs[i].lcid)
  {
    if subs == [] then 0
    else if IsBsr(subs[|subs| - 1].lcid) then |subs|
    else AfterLastBsr(subs[..|subs| - 1])
  }

  lemma {:induction false} EstimateWithoutBsr(c: Context, b: seq<byte>, subs: seq<Sub>, est: nat)
    requires forall i :: 0 <= i < |subs| ==> subs[i].at + 9 <= |b| && !IsBsr(subs[i].lcid)
    ensures Estimate(c, b, subs, est) == MinusFloor(est, SumData(c, subs))
  {
    if subs != [] {
      EstimateWithoutBsr(c, b, subs[1..], MinusFloor(est, DataBytes(c, subs[0])));
    }
  }

  lemma {:induction false} EstimateConcat(c: Context, b: seq<byte>, s: seq<Sub>, t: seq<Sub>, est: nat)
    requires forall i :: 0 <= i < |s| ==> s[i].at + 9 <= |b|
    requires forall i :: 0 <= i < |t| ==> t[i].at + 9 <= |b|
    ensures Estimate(c, b, s + t, est) == Estimate(c, b, t, Estimate(c, b, s, est))
  {
    if s == [] {
      assert s + t == t;
    } else {
      assert (s + t)[1..] == s[1..] + t;
      var x := s[0];
      EstimateConcat(c, b, s[1..], t, if IsBsr(x.lcid) then BsrEstimate(c, b, x) else MinusFloor(est, DataBytes(c, x)));
    }
  }

  lemma EstimateFromBsr(c: Context, b: seq<byte>, s: seq<Sub>, x: Sub, t: seq<Sub>, est: nat)
    requires forall i :: 0 <= i < |s| ==> s[i].at + 9 <= |b|
    requires forall i :: 0 <= i < |t| ==> t[i].at + 9 <= |b| && !IsBsr(t[i].lcid)
    requires x.at + 9 <= |b| && IsBsr(x.lcid)
    ensures Estimate(c, b, s + ([x] + t), est) == MinusFloor(BsrEstimate(c, b, x), SumData(c, t))
  {
    EstimateConcat(c, b, s, [x] + t, est);
    assert ([x] + t)[1..] == t;
    EstimateWithoutBsr(c, b, t, BsrEstimate(c, b, x));
    hide BsrEstimate, SumData, MinusFloor;
  }

  /** The estimate is the last report, or the old value if there was none, less the data bytes received
      after it, and not below 0. */
  lemma EstimateClosedForm(c: Context, b: seq<byte>, subs: seq<Sub>, est: nat)
    requires forall i :: 0 <= i < |subs| ==> subs[i].at + 9 <= |b|
    ensures var k := AfterLastBsr(subs);
            Estimate(c, b, subs, est)
            == MinusFloor(if k == 0 then est else BsrEstimate(c, b, subs[k - 1]), SumData(c, subs[k..]))
  {
    hide Estimate, BsrEstimate, SumData, MinusFloor, AfterLastBsr, IsBsr;
    var k := AfterLastBsr(subs);
    if k == 0 {
      assert subs[0..] == subs;
      EstimateWithoutBsr(c, b, subs, est);
    } else {
      assert subs == subs[..k - 1] + ([subs[k - 1]] + subs[k..]);
      EstimateFromBsr(c, b, subs[..k - 1], subs[k - 1], subs[k..], est);
    }
  }

  lemma ProcessedReadable(c: Context, b: seq<byte>, p: nat, end: nat)
    requires InBuffer(b, p, end)
    ensures forall i :: 0 <= i < |Processed(c, b, p, end)| ==> Processed(c, b, p, end)[i].at + 9 <= |b|
  {
    var r := Processed(c, b, p, end);
    forall i | 0 <= i < |r|
      ensures r[i].at + 9 <= |b|
    {
      assert Inside(r[i], p, end);
    }
  }

  ghost function EstimateOf(c: Context, b: seq<byte>, p: nat, end: nat, est: nat): nat
    requires InBuffer(b, p, end)
  {
    ProcessedReadable(c, b, p, end);
    Estimate(c, b, Processed(c, b, p, end), est)
  }

  lemma EstimateStep(c: Context, b: seq<byte>, p: nat, end: nat, est: nat)
    requires InBuffer(b, p, end) && p < end
    ensures var h := HeaderAt(b, p);
            EstimateOf(c, b, p, end, est)
            == if h.hdr + h.len > end - p || h.lcid == PADDING || GivesUpAt(c, b, h.lcid, p, p + h.hdr + h.len) then est
               else
                 var s := Sub(h.lcid, h.hdr, p + h.hdr, h.len);
                 var q := p + h.hdr + h.len;
                 var est' := if IsBsr(h.lcid) then BsrEstimate(c, b, s) else MinusFloor(est, DataBytes(c, s));
                 EstimateOf(c, b, q, end, est')
  {
    var h := HeaderAt(b, p);
    if h.hdr + h.len <= end - p && h.lcid != PADDING && !GivesUpAt(c, b, h.lcid, p, p + h.hdr + h.len) {
      ProcessedReadable(c, b, p, end);
      ProcessedReadable(c, b, p + h.hdr + h.len, end);
      assert Processed(c, b, p, end)[1..] == Processed(c, b, p + h.hdr + h.len, end);
    }
  }

  /** What one sub-PDU makes of the estimate, by its LCID: a report sets it, data on a configured bearer lowers
      it, and nothing else touches it. */
  lemma {:induction false} EstimateOne(c: Context, b: seq<byte>, s: Sub, est: nat)
    requires s.at + 9 <= |b|
    ensures Estimate(c, b, [s], est)
            == if s.lcid == 59 || s.lcid == 61
               then c.shortTable(if b[s.at] % 32 == 0 then 0 else Min(b[s.at] % 32 + 1, 31))
               else if s.lcid == 60 || s.lcid == 62
               then TableSum(c, b[s.at + 1..s.at + 1 + Rank(b[s.at], 8)])
               else if 4 <= s.lcid <= 32 && s.lcid in c.bearers then Max(0, est - s.len)
               else est
  {
    LongBsrSums(c, b, s.at, 8);
    assert [s][1..] == [];
  }

  /** LCIDs with a length field, and those nr_process_mac_pdu has a case for, as numbers. */
  lemma {:induction false} LcidTables(lcid: nat)
    ensures HasLength(lcid) <==> lcid in {1, 2, 60, 62} || 4 <= lcid <= 32
    ensures Handled(lcid) || lcid == 63 <==> lcid <= 2 || 4 <= lcid <= 32 || lcid == 35 || 52 <= lcid <= 63
  {
  }

  /** done is the first part of all, and the rest is left out because of the first of it. */
  ghost predicate CutAt(c: Context, b: seq<byte>, done: seq<Sub>, all: seq<Sub>) {
    && |done| <= |all| && done == all[..|done|]
    && (forall i :: 0 <= i < |done| ==> !Stops(c, b, done[i]))
    && (|done| < |all| ==> Stops(c, b, all[|done|]))
  }

  lemma {:induction false} CutMore(c: Context, b: seq<byte>, s: Sub, done: seq<Sub>, all: seq<Sub>)
    requires CutAt(c, b, done, all) && !Stops(c, b, s)
    ensures CutAt(c, b, [s] + done, [s] + all)
  {
    hide Stops;
  }

  /** The walk goes on behind its first sub-PDU, which is processed. */
  ghost predicate GoesOn(c: Context, b: seq<byte>, p: nat, end: nat)
    requires InBuffer(b, p, end)
  {
    p < end
    && var h := HeaderAt(b, p);
       h.hdr + h.len <= end - p && h.lcid != PADDING && !Stops(c, b, FirstSub(b, p))
  }

  ghost function FirstSub(b: seq<byte>, p: nat): Sub
    requires p + 3 <= |b|
  {
    Sub(HeaderAt(b, p).lcid, HeaderAt(b, p).hdr, p + HeaderAt(b, p).hdr, HeaderAt(b, p).len)
  }

  ghost function Behind(b: seq<byte>, p: nat): (q: nat)
    requires p + 3 <= |b|
    ensures q > p
  {
    p + HeaderAt(b, p).hdr + HeaderAt(b, p).len
  }

  lemma {:induction false} FirstGoesOn(c: Context, b: seq<byte>, p: nat, end: nat)
    requires InBuffer(b, p, end) && GoesOn(c, b, p, end)
    ensures var (s, q) := (FirstSub(b, p), Behind(b, p));
            && InBuffer(b, q, end)
            && Walk(b, p, end).subs == [s] + Walk(b, q, end).subs
            && Processed(c, b, p, end) == [s] + Processed(c, b, q, end)
            && ResultOf(c, b, p, end) == ResultOf(c, b, q, end) && !Stops(c, b, s)
  {
  }

  lemma {:induction false} FirstStops(c: Context, b: seq<byte>, p: nat, end: nat)
    requires InBuffer(b, p, end) && !GoesOn(c, b, p, end)
    ensures var all := Walk(b, p, end).subs;
            && Processed(c, b, p, end) == [] && (all != [] ==> Stops(c, b, all[0]))
            && ResultOf(c, b, p, end) == if all != [] && !Handled(all[0].lcid) then -1 else 0
  {
  }

  /** The sub-PDUs processed are the first of the walk, up to one at which processing stops; the answer is -1
      exactly if that has an LCID without a case. */
  lemma {:induction false} ProcessedIsPrefix(c: Context, b: seq<byte>, p: nat, end: nat)
    requires InBuffer(b, p, end)
    ensures var (done, all) := (Processed(c, b, p, end), Walk(b, p, end).subs);
            && CutAt(c, b, done, all) && |done| <= |all|
            && ResultOf(c, b, p, end) == if |done| < |all| && !Handled(all[|done|].lcid) then -1 else 0
    decreases end - p
  {
    hide Processed, Walk, ResultOf, Stops, HeaderAt, Handled;
    if GoesOn(c, b, p, end) {
      FirstGoesOn(c, b, p, end);
      hide GoesOn, FirstSub, Behind;
      var q := Behind(b, p);
      ProcessedIsPrefix(c, b, q, end);
      CutMore(c, b, FirstSub(b, p), Processed(c, b, q, end), Walk(b, q, end).subs);
      hide CutAt;
    } else {
      FirstStops(c, b, p, end);
      CutNow(c, b, Walk(b, p, end).subs);
      hide CutAt;
    }
  }

  lemma {:induction false} CutNow(c: Context, b: seq<byte>, all: seq<Sub>)
    requires all == [] || Stops(c, b, all[0])
    ensures CutAt(c, b, [], all)
  {
  }

  /** A sub-PDU at which processing stops: an LCID without a case, a CCCH message of zeros, or a power headroom
      report that no HARQ process brought. */
  ghost predicate Stops(c: Context, b: seq<byte>, s: Sub) {
    || !Handled(s.lcid)
    || (s.lcid == 0 && s.hdr <= s.at && s.at + s.len <= |b|
        && forall i :: s.at - s.hdr <= i < s.at + s.len ==> b[i] == 0)
    || (s.lcid == 57 && c.harqPid < 0)
  }

  /** nr_process_mac_pdu answers -1 for an LCID without a case, and 0 otherwise. */
  ghost function ResultOf(c: Context, b: seq<byte>, p: nat, end: nat): int
    requires InBuffer(b, p, end)
    decreases end - p
  {
    if p == end then 0
    else
      var h := HeaderAt(b, p);
      if h.hdr + h.len > end - p || h.lcid == PADDING then 0
      else if !Handled(h.lcid) then -1
      else if GivesUpAt(c, b, h.lcid, p, p + h.hdr + h.len) then 0
      else ResultOf(c, b, p + h.hdr + h.len, end)
  }

  /** The buffer estimate of nr_process_mac_pdu, and its answer. */
  method ProcessPdu(c: Context, b: seq<byte>, start: nat, pduLen: nat, est0: nat) returns (est: nat, result: int)
    requires InBuffer(b, start, start + pduLen)
    ensures est == EstimateOf(c, b, start, start + pduLen, est0)
    ensures result == ResultOf(c, b, start, start + pduLen)
  {
    hide Decode, LongBsr, ShortBsr;
    est := est0;
    var p, left := start, pduLen;
    while left > 0
      invariant p + left == start + pduLen && InBuffer(b, p, p + left)
      invariant EstimateOf(c, b, start, start + pduLen, est0) == EstimateOf(c, b, p, p + left, est)
      invariant ResultOf(c, b, start, start + pduLen) == ResultOf(c, b, p, p + left)
      decreases left
    {
      var h := HeaderAt(b, p);
      EstimateStep(c, b, p, p + left, est);
      if h.hdr + h.len > left {
        return est, 0;
      }
      var at := p + h.hdr;
      if h.lcid == PADDING {
        return est, 0;
      } else if !Handled(h.lcid) {
        return est, -1;
      } else if h.lcid == CCCH_64 {
        var i := p;
        while i < at + h.len && b[i] == 0
          invariant p <= i <= at + h.len && forall j :: p <= j < i ==> b[j] == 0
        {
          i := i + 1;
        }
        if i == at + h.len {
          return est, 0;
        }
      } else if IsDtch(h.lcid) {
        if h.lcid in c.bearers {
          if est >= h.len {
            est := est - h.len;
          } else {
            est := 0;
          }
        }
      } else if h.lcid == SINGLE_PHR {
        if c.harqPid < 0 {
          return est, 0;
        }
      } else if IsShortBsr(h.lcid) {
        est := ShortBsr(c, b[at]);
      } else if IsLongBsr(h.lcid) {
        est := EstimateLongBsr(c, b, at);
      }
      p := at + h.len;
      left := left - (h.hdr + h.len);
    }
    result := 0;
  }
}
