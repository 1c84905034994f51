/**
  The downlink transport block: MAC SDUs fetched from RLC are written behind the control elements, each
  under a long sub-header, and what is left is padded (section 6.1.2 of 3GPP TS 38.321).

  RLC is outside. It is a list of answers, in the order it is asked; an answer is never longer than
  what was asked for.
 */
module DlAssembly {
  import opened Basics
  import opened MacPdu

  const LONG_HEADER := 3

  datatype Sdu = Sdu(lcid: nat, payload: seq<byte>)

  datatype Lc = Lc(lcid: nat, bytesInBuffer: nat)

  /** R = 0, F = 1, LCID; then the length as 16 bits, high byte first. */
  function LongHeader(lcid: nat, len: nat): (h: seq<byte>)
    requires lcid < 64
    ensures |h| == LONG_HEADER
  {
    [64 + lcid, len % 65536 / 256, len % 256]
  }

  function Encode(s: Sdu): (e: seq<byte>)
    requires s.lcid < 64
    ensures |e| == LONG_HEADER + |s.payload|
  {
    LongHeader(s.lcid, |s.payload|) + s.payload
  }

  ghost predicate Encodable(ss: seq<Sdu>) {
    forall i :: 0 <= i < |ss| ==> ss[i].lcid < 64
  }

  ghost function EncodeAll(ss: seq<Sdu>): seq<byte>
    requires Encodable(ss)
  {
    if ss == [] then [] else Encode(ss[0]) + EncodeAll(ss[1..])
  }

  ghost function Zeros(n: nat): (z: seq<byte>)
    ensures |z| == n
  {
    seq(n, i => 0)
  }

  /** Room left over: a padding sub-header and zeros. */
  ghost function Pad(room: nat): (z: seq<byte>)
    ensures |z| == room
  {
    if room == 0 then [] else [PADDING] + Zeros(room - 1)
  }

  // ----- what is fetched

  function Reply(replies: seq<seq<byte>>, k: nat, ndata: nat): (r: seq<byte>)
    ensures |r| <= ndata
  {
    if k >= |replies| then []
    else if |replies[k]| <= ndata then replies[k]
    else replies[k][..ndata]
  }

  /** SDUs so far, bytes left, requests made. */
  datatype Filling = Filling(sdus: seq<Sdu>, room: nat, asked: nat)

  function Requested(c: Lc, room: nat): (n: nat)
    requires room > LONG_HEADER + 1
    ensures n <= room - LONG_HEADER && n <= c.bytesInBuffer
  {
    if c.bytesInBuffer < room - LONG_HEADER then c.bytesInBuffer else room - LONG_HEADER
  }

  ghost function FillFrom(c: Lc, replies: seq<seq<byte>>, f: Filling): Filling
    decreases f.room
  {
    if f.room <= LONG_HEADER + 1 then f
    else
      var d := Reply(replies, f.asked, Requested(c, f.room));
      if d == [] then f.(asked := f.asked + 1)
      else FillFrom(c, replies, Filling(f.sdus + [Sdu(c.lcid, d)], f.room - LONG_HEADER - |d|, f.asked + 1))
  }

  ghost function FillAll(lcs: seq<Lc>, replies: seq<seq<byte>>, f: Filling): Filling {
    if lcs == [] then f
    else FillAll(lcs[1..], replies, if lcs[0].bytesInBuffer == 0 then f else FillFrom(lcs[0], replies, f))
  }

  ghost predicate Lcids(lcs: seq<Lc>) {
    forall i :: 0 <= i < |lcs| ==> lcs[i].lcid < 64
  }

  lemma {:induction false} EncodeAllAppend(ss: seq<Sdu>, s: Sdu)
    requires Encodable(ss) && s.lcid < 64
    ensures Encodable(ss + [s]) && EncodeAll(ss + [s]) == EncodeAll(ss) + Encode(s)
  {
    if ss == [] {
      assert EncodeAll([s]) == Encode(s) + EncodeAll([s][1..]);
    } else {
      assert (ss + [s])[1..] == ss[1..] + [s];
      EncodeAllAppend(ss[1..], s);
    }
  }

  /** f comes from g by adding SDUs of the given channels within the room. */
  ghost predicate Extends(g: Filling, f: Filling, lcs: seq<Lc>) {
    && Encodable(g.sdus) && Encodable(f.sdus) && |g.sdus| <= |f.sdus|
    && g.sdus == f.sdus[..|g.sdus|] && |EncodeAll(f.sdus)| + f.room == |EncodeAll(g.sdus)| + g.room
    && forall i :: |g.sdus| <= i < |f.sdus| ==> f.sdus[i].payload != [] && FromSome(lcs, f.sdus[i])
  }

  ghost predicate FromSome(lcs: seq<Lc>, s: Sdu) {
    exists j :: 0 <= j < |lcs| && lcs[j].lcid == s.lcid && |s.payload| <= lcs[j].bytesInBuffer
  }

  lemma {:induction false} FillFromFits(c: Lc, replies: seq<seq<byte>>, f: Filling)
    requires c.lcid < 64 && Encodable(f.sdus)
    ensures Extends(f, FillFrom(c, replies, f), [c])
    decreases f.room
  {
    if f.room > LONG_HEADER + 1 {
      var d := Reply(replies, f.asked, Requested(c, f.room));
      if d != [] {
        var s := Sdu(c.lcid, d);
        EncodeAllAppend(f.sdus, s);
        assert FromSome([c], s) by {
          assert [c][0] == c;
        }
        FillFromFits(c, replies, Filling(f.sdus + [s], f.room - LONG_HEADER - |d|, f.asked + 1));
      }
    }
  }

  /** Everything fetched fits, nothing fetched is dropped or empty, and every SDU belongs to a channel
      that had data. */
  lemma {:induction false} FillAllFits(lcs: seq<Lc>, replies: seq<seq<byte>>, f: Filling)
    requires Lcids(lcs) && Encodable(f.sdus)
    ensures Extends(f, FillAll(lcs, replies, f), lcs)
    decreases |lcs|
  {
    if lcs != [] {
      var g := if lcs[0].bytesInBuffer == 0 then f else FillFrom(lcs[0], replies, f);
      if lcs[0].bytesInBuffer != 0 {
        FillFromFits(lcs[0], replies, f);
      }
      FillAllFits(lcs[1..], replies, g);
      hide EncodeAll;
      var h := FillAll(lcs, replies, f);
      forall i | |f.sdus| <= i < |h.sdus|
        ensures h.sdus[i].payload != [] && FromSome(lcs, h.sdus[i])
      {
        if i < |g.sdus| {
          assert h.sdus[i] == g.sdus[i] && FromSome([lcs[0]], g.sdus[i]);
        } else {
          var j :| 0 <= j < |lcs[1..]| && lcs[1..][j].lcid == h.sdus[i].lcid
                   && |h.sdus[i].payload| <= lcs[1..][j].bytesInBuffer;
          assert lcs[j + 1].lcid == h.sdus[i].lcid;
        }
      }
    }
  }

  /** A channel is left only when the block is as good as full or RLC had nothing more for it. */
  lemma {:induction false} ChannelDrained(c: Lc, replies: seq<seq<byte>>, f: Filling)
    ensures var g := FillFrom(c, replies, f);
            || g.room <= LONG_HEADER + 1
            || (g.asked > f.asked && Reply(replies, g.asked - 1, Requested(c, g.room)) == [])
    decreases f.room
  {
    if f.room > LONG_HEADER + 1 {
      var d := Reply(replies, f.asked, Requested(c, f.room));
      if d != [] {
        ChannelDrained(c, replies, Filling(f.sdus + [Sdu(c.lcid, d)], f.room - LONG_HEADER - |d|, f.asked + 1));
      }
    }
  }

  /** SDUs come in the order of the channels. */
  lemma {:induction false} ChannelOrder(
      lcs: seq<Lc>, replies: seq<seq<byte>>, f: Filling, i: nat, j: nat, a: nat, b: nat)
    requires Lcids(lcs) && Encodable(f.sdus) && forall x, y :: 0 <= x < y < |lcs| ==> lcs[x].lcid != lcs[y].lcid
    requires |f.sdus| <= i < j < |FillAll(lcs, replies, f).sdus| && a < |lcs| && b < |lcs|
    requires lcs[a].lcid == FillAll(lcs, replies, f).sdus[i].lcid
    requires lcs[b].lcid == FillAll(lcs, replies, f).sdus[j].lcid
    ensures a <= b
    decreases |lcs|
  {
    var g := if lcs[0].bytesInBuffer == 0 then f else FillFrom(lcs[0], replies, f);
    if lcs[0].bytesInBuffer != 0 {
      FillFromFits(lcs[0], replies, f);
    }
    FillAllFits(lcs[1..], replies, g);
    hide EncodeAll, FillFrom;
    var h := FillAll(lcs, replies, f);
    if i < |g.sdus| {
      assert h.sdus[i] == g.sdus[i] && FromSome([lcs[0]], g.sdus[i]);
    } else {
      assert FromSome(lcs[1..], h.sdus[i]) && FromSome(lcs[1..], h.sdus[j]);
      ChannelOrder(lcs[1..], replies, g, i, j, a - 1, b - 1);
    }
  }

  // ----- what is asked of RLC

  /** RLC is asked for what the channel has, or for what fits behind a long sub-header if that is less; and the
      answer is taken whole. */
  lemma {:induction false} RequestExactly(c: Lc, replies: seq<seq<byte>>, f: Filling)
    requires f.room > 4 && f.asked < |replies|
    requires 0 < |replies[f.asked]| <= Min(c.bytesInBuffer, f.room - 3)
    ensures FillFrom(c, replies, f)
            == FillFrom(c, replies, Filling(f.sdus + [Sdu(c.lcid, replies[f.asked])],
                                            f.room - 3 - |replies[f.asked]|, f.asked + 1))
  {
  }

  /** An empty answer, or none, ends the channel; so does a block with no more than four bytes left. */
  lemma {:induction false} ChannelEnds(c: Lc, replies: seq<seq<byte>>, f: Filling)
    ensures f.room <= 4 ==> FillFrom(c, replies, f) == f
    ensures f.room > 4 && (f.asked >= |replies| || replies[f.asked] == []) ==>
              FillFrom(c, replies, f) == f.(asked := f.asked + 1)
  {
  }

  /** A channel that has at least what fits, and gets it, fills the block with one SDU. */
  lemma {:induction false} FullAnswerFills(c: Lc, replies: seq<seq<byte>>, f: Filling)
    requires f.room > 4 && c.bytesInBuffer >= f.room - 3
    requires f.asked < |replies| && |replies[f.asked]| == f.room - 3
    ensures FillFrom(c, replies, f) == Filling(f.sdus + [Sdu(c.lcid, replies[f.asked])], 0, f.asked + 1)
  {
    RequestExactly(c, replies, f);
    ChannelEnds(c, replies, Filling(f.sdus + [Sdu(c.lcid, replies[f.asked])], 0, f.asked + 1));
  }

  /** A channel that has less is asked for all of it, and all of it is taken; then it is asked again. */
  lemma {:induction false} WholeBufferTaken(c: Lc, replies: seq<seq<byte>>, f: Filling)
    requires f.room > 4 && 0 < c.bytesInBuffer < f.room - 3
    requires f.asked < |replies| && |replies[f.asked]| == c.bytesInBuffer
    requires f.asked + 1 < |replies| ==> replies[f.asked + 1] == []
    ensures var (g, room) := (FillFrom(c, replies, f), f.room - 3 - c.bytesInBuffer);
            && g.sdus == f.sdus + [Sdu(c.lcid, replies[f.asked])] && g.room == room
            && g.asked == f.asked + if room > 4 then 2 else 1
  {
    RequestExactly(c, replies, f);
    ChannelEnds(c, replies,
                Filling(f.sdus + [Sdu(c.lcid, replies[f.asked])], f.room - 3 - c.bytesInBuffer, f.asked + 1));
  }

  lemma {:induction false} FillAllConcat(a: seq<Lc>, b: seq<Lc>, replies: seq<seq<byte>>, f: Filling)
    ensures FillAll(a + b, replies, f) == FillAll(b, replies, FillAll(a, replies, f))
    decreases |a|
  {
    if a == [] {
      assert a + b == b;
    } else {
      assert (a + b)[1..] == a[1..] + b;
      FillAllConcat(a[1..], b, replies, if a[0].bytesInBuffer == 0 then f else FillFrom(a[0], replies, f));
    }
  }

  /** Channels come in their order; one with data is served, one without is not asked at all. */
  lemma {:induction false} ChannelServed(before: seq<Lc>, c: Lc, rest: seq<Lc>, replies: seq<seq<byte>>, f: Filling)
    ensures var g := FillAll(before, replies, f);
            FillAll(before + [c] + rest, replies, f)
            == FillAll(rest, replies, if c.bytesInBuffer > 0 then FillFrom(c, replies, g) else g)
  {
    FillAllConcat(before + [c], rest, replies, f);
    FillAllConcat(before, [c], replies, f);
    assert [c][1..] == [];
  }

  lemma {:induction false} FullBlockStays(lcs: seq<Lc>, replies: seq<seq<byte>>, f: Filling)
    requires f.room <= 4
    ensures FillAll(lcs, replies, f) == f
    decreases |lcs|
  {
    if lcs != [] {
      FullBlockStays(lcs[1..], replies, f);
    }
  }

  /** For the whole block: wherever a channel is reached that has at least what fits, and RLC delivers that,
      the block ends full with that SDU, whatever channels follow. */
  lemma {:induction false} BackloggedChannelFills(
      before: seq<Lc>, c: Lc, rest: seq<Lc>, replies: seq<seq<byte>>, f: Filling)
    requires var g := FillAll(before, replies, f);
             g.room > 4 && c.bytesInBuffer >= g.room - 3 && g.asked < |replies| && |replies[g.asked]| == g.room - 3
    ensures var g := FillAll(before, replies, f);
            FillAll(before + [c] + rest, replies, f)
            == Filling(g.sdus + [Sdu(c.lcid, replies[g.asked])], 0, g.asked + 1)
  {
    var g := FillAll(before, replies, f);
    ChannelServed(before, c, rest, replies, f);
    FullAnswerFills(c, replies, g);
    FullBlockStays(rest, replies, FillFrom(c, replies, g));
  }

  ghost function WithData(lcs: seq<Lc>): nat {
    if lcs == [] then 0 else (if lcs[0].bytesInBuffer > 0 then 1 else 0) + WithData(lcs[1..])
  }

  lemma {:induction false} ChannelAsked(c: Lc, replies: seq<seq<byte>>, f: Filling)
    ensures var g := FillFrom(c, replies, f);
            && |g.sdus| >= |f.sdus| && g.room <= f.room
            && (g.room > 4 ==> g.asked - f.asked == |g.sdus| - |f.sdus| + 1)
    decreases f.room
  {
    if f.room > LONG_HEADER + 1 {
      var d := Reply(replies, f.asked, Requested(c, f.room));
      if d != [] {
        ChannelAsked(c, replies, Filling(f.sdus + [Sdu(c.lcid, d)], f.room - LONG_HEADER - |d|, f.asked + 1));
      }
    }
  }

  /** If the block is not as good as full at the end, RLC was asked once per SDU and once more, for an empty
      answer, per channel with data: no channel was left out. */
  lemma {:induction false} EveryChannelAsked(lcs: seq<Lc>, replies: seq<seq<byte>>, f: Filling)
    requires FillAll(lcs, replies, f).room > 4
    ensures var g := FillAll(lcs, replies, f);
            |g.sdus| >= |f.sdus| && g.asked - f.asked == |g.sdus| - |f.sdus| + WithData(lcs)
    decreases |lcs|
  {
    if lcs != [] {
      var g := if lcs[0].bytesInBuffer == 0 then f else FillFrom(lcs[0], replies, f);
      ChannelAsked(lcs[0], replies, f);
      if g.room <= 4 {
        FullBlockStays(lcs[1..], replies, g);
      }
      EveryChannelAsked(lcs[1..], replies, g);
    }
  }

  // ----- the block

  ghost function Fetched(haveData: bool, lcs: seq<Lc>, replies: seq<seq<byte>>, room: nat): Filling {
    if haveData then FillAll(lcs, replies, Filling([], room, 0)) else Filling([], room, 0)
  }

  /** The bytes of a filling. */
  ghost function Bytes(f: Filling): seq<byte>
    requires Encodable(f.sdus)
  {
    EncodeAll(f.sdus) + Pad(f.room)
  }

  ghost function PayloadBytes(ss: seq<Sdu>): nat {
    if ss == [] then 0 else PayloadBytes(ss[..|ss| - 1]) + |ss[|ss| - 1].payload|
  }

  /** A block starts empty, with the first answer of RLC: a single channel that has at least what fits, and gets
      it, makes one SDU of the whole block. */
  lemma {:induction false} OneChannelBlock(c: Lc, replies: seq<seq<byte>>, room: nat)
    requires room > 4 && c.bytesInBuffer >= room - 3 && replies != [] && |replies[0]| == room - 3
    ensures Fetched(true, [c], replies, room) == Filling([Sdu(c.lcid, replies[0])], 0, 1)
  {
    BackloggedChannelFills([], c, [], replies, Filling([], room, 0));
    assert [] + [c] + [] == [c];
    assert [] + [Sdu(c.lcid, replies[0])] == [Sdu(c.lcid, replies[0])];
  }

  /** Payloads are what an encoding has besides its headers. */
  lemma {:induction false} PayloadBytesAre(ss: seq<Sdu>)
    requires Encodable(ss)
    ensures PayloadBytes(ss) + 3 * |ss| == |EncodeAll(ss)|
  {
    if ss != [] {
      var k := |ss| - 1;
      PayloadBytesAre(ss[..k]);
      EncodeAllAppend(ss[..k], ss[k]);
      assert ss == ss[..k] + [ss[k]];
    }
  }

  /** What is left over is one padding sub-header and zeros; in phy-test a block without data that has more than
      three bytes of room has none left over. */
  lemma {:induction false} PaddingIsZeros(room: nat, i: nat, haveData: bool, test: bool)
    ensures i < room ==> Pad(room)[i] == if i == 0 then 63 else 0
    ensures forall lcs, replies :: Fetched(false, lcs, replies, room) == Filling([], room, 0)
    ensures IsTestBlock(haveData, test, room) <==> !haveData && test && room >= 4
  {
  }

  method WriteSdu(buf: array<byte>, at: nat, lcid: nat, data: seq<byte>)
    requires lcid < 64 && at + LONG_HEADER + |data| <= buf.Length
    modifies buf
    ensures buf[..] == old(buf[..at]) + Encode(Sdu(lcid, data)) + old(buf[at + LONG_HEADER + |data|..])
  {
    var h := LongHeader(lcid, |data|);
    forall i | 0 <= i < |data| {
      buf[at + LONG_HEADER + i] := data[i];
    }
    buf[at], buf[at + 1], buf[at + 2] := h[0], h[1], h[2];
  }

  method WritePadding(buf: array<byte>, at: nat)
    requires at <= buf.Length
    modifies buf
    ensures buf[..] == old(buf[..at]) + Pad(buf.Length - at)
  {
    if at < buf.Length {
      buf[at] := PADDING;
      forall i | at + 1 <= i < buf.Length {
        buf[i] := 0;
      }
    }
  }

  lemma OneMore(was: seq<byte>, now: seq<byte>, pre: seq<byte>, ss: seq<Sdu>, s: Sdu, at: nat)
    requires Encodable(ss) && s.lcid < 64 && at + |Encode(s)| <= |was| && was[..at] == pre + EncodeAll(ss)
    requires now == was[..at] + Encode(s) + was[at + |Encode(s)|..]
    ensures Encodable(ss + [s]) && now[..at + |Encode(s)|] == pre + EncodeAll(ss + [s])
    ensures PayloadBytes(ss + [s]) == PayloadBytes(ss) + |s.payload|
  {
    EncodeAllAppend(ss, s);
    assert (ss + [s])[..|ss|] == ss;
    hide EncodeAll, Encode;
    assert now[..at + |Encode(s)|] == was[..at] + Encode(s);
  }

  /** One logical channel; pre is what lies before the SDUs. */
  method WriteChannel(
      buf: array<byte>, at0: nat, c: Lc, replies: seq<seq<byte>>, asked0: nat, ghost pre: seq<byte>,
      ghost f0: Filling)
    returns (at: nat, asked: nat, bytes: nat, sdus: nat)
    requires c.lcid < 64 && Encodable(f0.sdus) && f0.asked == asked0
    requires at0 + f0.room == buf.Length && buf[..at0] == pre + EncodeAll(f0.sdus)
    modifies buf
    ensures var f := FillFrom(c, replies, f0);
            && Encodable(f.sdus) && at + f.room == buf.Length && asked == f.asked
            && buf[..at] == pre + EncodeAll(f.sdus)
            && sdus == |f.sdus| - |f0.sdus| && bytes == PayloadBytes(f.sdus) - PayloadBytes(f0.sdus)
  {
    hide EncodeAll, Encode, PayloadBytes, Reply, Requested;
    at, asked, bytes, sdus := at0, asked0, 0, 0;
    ghost var f := f0;
    while buf.Length - at > LONG_HEADER + 1
      invariant Encodable(f.sdus) && at + f.room == buf.Length && asked == f.asked
      invariant buf[..at] == pre + EncodeAll(f.sdus)
      invariant sdus == |f.sdus| - |f0.sdus| && bytes == PayloadBytes(f.sdus) - PayloadBytes(f0.sdus)
      invariant FillFrom(c, replies, f) == FillFrom(c, replies, f0)
      decreases buf.Length - at
    {
      var data := Reply(replies, asked, Requested(c, buf.Length - at));
      asked := asked + 1;
      if |data| == 0 {
        f := f.(asked := f.asked + 1);
        break;
      }
      ghost var was := buf[..];
      WriteSdu(buf, at, c.lcid, data);
      OneMore(was, buf[..], pre, f.sdus, Sdu(c.lcid, data), at);
      f := Filling(f.sdus + [Sdu(c.lcid, data)], f.room - LONG_HEADER - |data|, f.asked + 1);
      at := at + LONG_HEADER + |data|;
      bytes := bytes + |data|;
      sdus := sdus + 1;
    }
  }

  /** In phy-test a block without data is filled with noise, if it has room for a long sub-header. */
  predicate IsTestBlock(haveData: bool, test: bool, room: nat) {
    !haveData && test && room > LONG_HEADER
  }

  /** The transport block is buf, of TBS bytes; `written` bytes of control elements are in it. It is
      filled to the last byte. */
  method Assemble(
      buf: array<byte>, written: nat, haveData: bool, lcs: seq<Lc>, replies: seq<seq<byte>>, test: bool,
      noise: seq<byte>)
    returns (bytes: nat, sdus: nat)
    requires written < buf.Length && Lcids(lcs) && |noise| >= buf.Length
    modifies buf
    ensures var (f, room) := (Fetched(haveData, lcs, replies, buf.Length - written), buf.Length - written);
            if IsTestBlock(haveData, test, room)
            then buf[..] == old(buf[..written]) + Encode(Sdu(PADDING, noise[..room - LONG_HEADER]))
                 && sdus == 1 && bytes == 0
            else Encodable(f.sdus) && buf[..] == old(buf[..written]) + Bytes(f)
                 && sdus == |f.sdus| && bytes == PayloadBytes(f.sdus)
  {
    if IsTestBlock(haveData, test, buf.Length - written) {
      WriteSdu(buf, written, PADDING, noise[..buf.Length - written - LONG_HEADER]);
      return 0, 1;
    }
    bytes, sdus := AssembleData(buf, written, haveData, lcs, replies);
  }

  method AssembleData(buf: array<byte>, written: nat, haveData: bool, lcs: seq<Lc>, replies: seq<seq<byte>>)
    returns (bytes: nat, sdus: nat)
    requires written < buf.Length && Lcids(lcs)
    modifies buf
    ensures var f := Fetched(haveData, lcs, replies, buf.Length - written);
            Encodable(f.sdus) && buf[..] == old(buf[..written]) + Bytes(f)
            && sdus == |f.sdus| && bytes == PayloadBytes(f.sdus)
  {
    assert PayloadBytes([]) == 0;
    hide FillFrom, PayloadBytes;
    bytes, sdus := 0, 0;
    var at: nat, asked: nat := written, 0;
    ghost var f := Filling([], buf.Length - written, 0);
    if haveData {
      for i := 0 to |lcs|
        invariant Encodable(f.sdus) && at + f.room == buf.Length && asked == f.asked
        invariant buf[..at] == old(buf[..written]) + EncodeAll(f.sdus)
        invariant sdus == |f.sdus| && bytes == PayloadBytes(f.sdus)
        invariant FillAll(lcs[i..], replies, f) == Fetched(true, lcs, replies, buf.Length - written)
      {
        assert lcs[i..][1..] == lcs[i + 1..];
        if lcs[i].bytesInBuffer == 0 {
          continue;
        }
        var b: nat, n: nat;
        at, asked, b, n := WriteChannel(buf, at, lcs[i], replies, asked, old(buf[..written]), f);
        f := FillFrom(lcs[i], replies, f);
        bytes := bytes + b;
        sdus := sdus + n;
      }
    }
    WritePadding(buf, at);
  }

  // ----- reading it back

  /** The decoder reads a long header back exactly for LCIDs that carry a length, and lengths below 65536. */
  lemma DecodeLongHeader(lcid: nat, len: nat)
    requires lcid < 64
    ensures var h := LongHeader(lcid, len);
            && Decode(h[0], h[1], h[2]).lcid == lcid
            && (Decode(h[0], h[1], h[2]) == Header(lcid, LONG_HEADER, len) <==> HasLength(lcid) && len < 65536)
  {
    assert len % 65536 / 256 * 256 + len % 256 == len % 65536;
  }

  ghost predicate Readable(s: Sdu) {
    HasLength(s.lcid) && |s.payload| < 65536
  }

  /** Where the sub-PDUs of a block lie. */
  ghost function Placed(ss: seq<Sdu>, p: nat): (subs: seq<Sub>)
    ensures |subs| == |ss|
  {
    if ss == [] then []
    else [Sub(ss[0].lcid, LONG_HEADER, p + LONG_HEADER, |ss[0].payload|)]
         + Placed(ss[1..], p + LONG_HEADER + |ss[0].payload|)
  }

  ghost predicate Holds(b: seq<byte>, p: nat, bytes: seq<byte>) {
    p + |bytes| <= |b| && b[p..p + |bytes|] == bytes
  }

  lemma HoldsConcat(b: seq<byte>, p: nat, x: seq<byte>, y: seq<byte>)
    requires Holds(b, p, x + y)
    ensures Holds(b, p, x) && Holds(b, p + |x|, y)
  {
    assert b[p..p + |x|] == b[p..p + |x + y|][..|x|];
    assert b[p + |x|..p + |x| + |y|] == b[p..p + |x + y|][|x|..];
  }

  /** The first SDU of a block, at its place. */
  lemma FirstSdu(b: seq<byte>, p: nat, f: Filling)
    requires Encodable(f.sdus) && f.sdus != [] && Holds(b, p, Bytes(f))
    ensures var (s, rest) := (f.sdus[0], f.(sdus := f.sdus[1..]));
            && |Bytes(f)| == |Encode(s)| + |Bytes(rest)|
            && b[p..p + LONG_HEADER] == LongHeader(s.lcid, |s.payload|)
            && Holds(b, p + LONG_HEADER, s.payload) && Holds(b, p + |Encode(s)|, Bytes(rest))
  {
    var s, rest := f.sdus[0], f.(sdus := f.sdus[1..]);
    assert Bytes(f) == Encode(s) + Bytes(rest);
    HoldsConcat(b, p, Encode(s), Bytes(rest));
    HoldsConcat(b, p, LongHeader(s.lcid, |s.payload|), s.payload);
  }

  /** The walker's view of the first SDU of a block. */
  lemma SduHeader(b: seq<byte>, p: nat, f: Filling)
    requires Encodable(f.sdus) && f.sdus != [] && Holds(b, p, Bytes(f)) && p + 3 <= |b|
    ensures HeaderAt(b, p) == Header(f.sdus[0].lcid, LONG_HEADER, |f.sdus[0].payload|) <==> Readable(f.sdus[0])
    ensures HeaderAt(b, p).lcid == f.sdus[0].lcid && (Readable(f.sdus[0]) ==> f.sdus[0].lcid != PADDING)
  {
    var s := f.sdus[0];
    FirstSdu(b, p, f);
    DecodeLongHeader(s.lcid, |s.payload|);
    var l := LongHeader(s.lcid, |s.payload|);
    hide Holds, Bytes, EncodeAll, Encode, Decode, LongHeader;
    assert b[p] == b[p..p + LONG_HEADER][0] && b[p + 1] == b[p..p + LONG_HEADER][1]
        && b[p + 2] == b[p..p + LONG_HEADER][2];
    assert HeaderAt(b, p) == Decode(l[0], l[1], l[2]);
  }

  lemma WalkSdu(b: seq<byte>, p: nat, f: Filling)
    requires Encodable(f.sdus) && f.sdus != [] && Holds(b, p, Bytes(f)) && InBuffer(b, p, p + |Bytes(f)|)
    ensures var (s, q, end) := (f.sdus[0], p + |Encode(f.sdus[0])|, p + |Bytes(f)|);
            && InBuffer(b, q, end)
            && (Readable(s) ==>
                  && Walk(b, p, end).stop == Walk(b, q, end).stop
                  && Walk(b, p, end).subs == [Sub(s.lcid, LONG_HEADER, p + LONG_HEADER, |s.payload|)]
                      + Walk(b, q, end).subs)
            && (!Readable(s) ==>
                  || Walk(b, p, end).subs == []
                  || Walk(b, p, end).subs[0] != Sub(s.lcid, LONG_HEADER, p + LONG_HEADER, |s.payload|))
  {
    hide Bytes, Holds, Encode, HeaderAt, Readable;
    FirstSdu(b, p, f);
    SduHeader(b, p, f);
  }

  lemma WalkPadding(b: seq<byte>, p: nat, f: Filling)
    requires f.sdus == [] && Holds(b, p, Bytes(f)) && InBuffer(b, p, p + |Bytes(f)|)
    ensures Walk(b, p, p + |Bytes(f)|) == Walked([], if f.room > 0 then AtPadding else AtEnd)
  {
    if f.room > 0 {
      assert b[p] == b[p..p + |Bytes(f)|][0] == PADDING;
    }
  }

  /** Walking an assembled block finds the SDUs that were put in, in order, and then padding or the end:
      exactly when all of them have LCIDs with a length and fewer than 65536 bytes. */
  lemma {:induction false} WalkAssembled(b: seq<byte>, p: nat, f: Filling)
    requires Encodable(f.sdus) && Holds(b, p, Bytes(f)) && InBuffer(b, p, p + |Bytes(f)|)
    ensures Walk(b, p, p + |Bytes(f)|) == Walked(Placed(f.sdus, p), if f.room > 0 then AtPadding else AtEnd)
            <==> forall i :: 0 <= i < |f.sdus| ==> Readable(f.sdus[i])
    decreases |f.sdus|
  {
    hide Bytes, Holds, Encode, HeaderAt, Readable, Walk;
    if f.sdus == [] {
      WalkPadding(b, p, f);
    } else {
      var s, rest := f.sdus[0], f.(sdus := f.sdus[1..]);
      WalkSdu(b, p, f);
      FirstSdu(b, p, f);
      if Readable(s) {
        WalkAssembled(b, p + |Encode(s)|, rest);
        assert f.sdus == [s] + rest.sdus;
        var w, v := Walk(b, p, p + |Bytes(f)|), Walk(b, p + |Encode(s)|, p + |Bytes(f)|);
        assert w.subs[1..] == v.subs;
        assert Placed(f.sdus, p)[1..] == Placed(rest.sdus, p + |Encode(s)|);
      }
    }
  }

  /** The places hold the payloads. */
  lemma {:induction false} PlacedPayload(b: seq<byte>, p: nat, f: Filling, i: nat)
    requires Encodable(f.sdus) && Holds(b, p, Bytes(f)) && i < |f.sdus|
    ensures var u := Placed(f.sdus, p)[i];
            u.lcid == f.sdus[i].lcid && u.at + u.len <= |b| && b[u.at..u.at + u.len] == f.sdus[i].payload
    decreases i
  {
    FirstSdu(b, p, f);
    if i > 0 {
      PlacedPayload(b, p + |Encode(f.sdus[0])|, f.(sdus := f.sdus[1..]), i - 1);
    }
  }

  /** A block of noise reads as padding, whatever the noise is. */
  lemma WalkTestBlock(b: seq<byte>, p: nat, noise: seq<byte>)
    requires Holds(b, p, Encode(Sdu(PADDING, noise))) && InBuffer(b, p, p + LONG_HEADER + |noise|)
    ensures Walk(b, p, p + LONG_HEADER + |noise|) == Walked([], AtPadding)
  {
    HoldsConcat(b, p, LongHeader(PADDING, |noise|), noise);
    var l := LongHeader(PADDING, |noise|);
    assert b[p] == b[p..p + |l|][0] == l[0] == 64 + PADDING;
  }

  lemma RoundTrip(b: seq<byte>, p: nat, f: Filling)
    requires Encodable(f.sdus) && Holds(b, p, Bytes(f)) && InBuffer(b, p, p + |Bytes(f)|)
    requires forall i :: 0 <= i < |f.sdus| ==> Readable(f.sdus[i])
    ensures ReadBack(b, p, p + |Bytes(f)|, f)
  {
    WalkAssembled(b, p, f);
    forall i | 0 <= i < |f.sdus|
      ensures var u := Placed(f.sdus, p)[i];
              u.lcid == f.sdus[i].lcid && u.at + u.len <= |b| && b[u.at..u.at + u.len] == f.sdus[i].payload
    {
      PlacedPayload(b, p, f, i);
    }
    hide Bytes, Placed, Walk, Readable;
  }

  /** The walker finds the SDUs of f between p and end, then padding or the end. */
  ghost predicate ReadBack(b: seq<byte>, p: nat, end: nat, f: Filling)
    requires InBuffer(b, p, end)
  {
    var w := Walk(b, p, end);
    && |w.subs| == |f.sdus| && w.stop == (if f.room > 0 then AtPadding else AtEnd)
    && forall i :: 0 <= i < |w.subs| ==>
         && w.subs[i].lcid == f.sdus[i].lcid && w.subs[i].at + w.subs[i].len <= |b|
         && b[w.subs[i].at..w.subs[i].at + w.subs[i].len] == f.sdus[i].payload
  }

  /** From the channels to the walker and back: the block has exactly the promised number of bytes; for
      LCIDs with a length, walking it behind its control elements yields the LCIDs and payloads fetched,
      in order, exactly if no RLC answer has 65536 bytes or more. */
  lemma AssembledRoundTrip(b: seq<byte>, written: nat, haveData: bool, lcs: seq<Lc>, replies: seq<seq<byte>>, tbs: nat)
    requires written < tbs && Lcids(lcs) && InBuffer(b, written, tbs)
    requires var f := Fetched(haveData, lcs, replies, tbs - written); Encodable(f.sdus) && Holds(b, written, Bytes(f))
    requires forall i :: 0 <= i < |lcs| ==> HasLength(lcs[i].lcid)
    ensures var f := Fetched(haveData, lcs, replies, tbs - written);
            && |Bytes(f)| == tbs - written
            && (ReadBack(b, written, tbs, f) <==> forall i :: 0 <= i < |f.sdus| ==> |f.sdus[i].payload| < 65536)
  {
    FetchedFits(haveData, lcs, replies, tbs - written);
    hide *;
    RoundTripExactly(b, written, Fetched(haveData, lcs, replies, tbs - written));
  }

  lemma RoundTripExactly(b: seq<byte>, p: nat, f: Filling)
    requires Encodable(f.sdus) && Holds(b, p, Bytes(f)) && InBuffer(b, p, p + |Bytes(f)|)
    requires forall i :: 0 <= i < |f.sdus| ==> HasLength(f.sdus[i].lcid)
    ensures ReadBack(b, p, p + |Bytes(f)|, f) <==> forall i :: 0 <= i < |f.sdus| ==> |f.sdus[i].payload| < 65536
  {
    hide Bytes, Holds, ReadBack, HasLength;
    if forall i :: 0 <= i < |f.sdus| ==> |f.sdus[i].payload| < 65536 {
      RoundTrip(b, p, f);
    }
    if ReadBack(b, p, p + |Bytes(f)|, f) {
      ReadBackShort(b, p, p + |Bytes(f)|, f);
    }
  }

  /** What was fetched has the LCIDs of its channels and fills the room. */
  lemma FetchedFits(haveData: bool, lcs: seq<Lc>, replies: seq<seq<byte>>, room: nat)
    requires Lcids(lcs) && forall i :: 0 <= i < |lcs| ==> HasLength(lcs[i].lcid)
    ensures var f := Fetched(haveData, lcs, replies, room);
            Encodable(f.sdus) && |Bytes(f)| == room && forall i :: 0 <= i < |f.sdus| ==> HasLength(f.sdus[i].lcid)
  {
    var f := Fetched(haveData, lcs, replies, room);
    if haveData {
      FillAllFits(lcs, replies, Filling([], room, 0));
    }
    hide FillAll, HasLength;
    forall i | 0 <= i < |f.sdus|
      ensures HasLength(f.sdus[i].lcid)
    {
      assert FromSome(lcs, f.sdus[i]);
    }
  }

  /** The walker finds nothing longer than a 16-bit length says. */
  lemma ReadBackShort(b: seq<byte>, p: nat, end: nat, f: Filling)
    requires InBuffer(b, p, end) && ReadBack(b, p, end, f)
    ensures forall i :: 0 <= i < |f.sdus| ==> |f.sdus[i].payload| < 65536
  {
    hide Walk;
    forall i | 0 <= i < |f.sdus|
      ensures |f.sdus[i].payload| < 65536
    {
      var u := Walk(b, p, end).subs[i];
      assert |b[u.at..u.at + u.len]| == u.len;
    }
  }
}
