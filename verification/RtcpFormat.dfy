/** RTCP packets (section 6 of RFC 3550): the leaf decoders and the octets of each kind of packet. */
module RtcpFormat {
  import opened Basics
  import opened Bytes
  import opened SdesFormat

  const RTCPTYPE_SR: byte := 200
  const RTCPTYPE_RR: byte := 201
  const RTCPTYPE_SDES: byte := 202
  const RTCPTYPE_BYE: byte := 203
  const RTCPTYPE_APP: byte := 204

  datatype PacketType = SR | RR | SDES | BYE | APP | Unknown

  function TypeOfCode(code: byte): PacketType {
    match code
    case 200 => SR
    case 201 => RR
    case 202 => SDES
    case 203 => BYE
    case 204 => APP
    case _ => Unknown
  }

  /** One RTCP packet object: the class chosen by the parser and the octets it was given. */
  datatype Packet = Packet(t: PacketType, data: seq<byte>)

  datatype SenderInfo = SenderInfo(ntpmsw: u32, ntplsw: u32, rtptimestamp: u32, packetcount: u32, octetcount: u32)
  datatype ReportBlock = ReportBlock(ssrc: u32, fractionlost: byte, lost: int, exthighseq: u32, jitter: u32, lsr: u32,
      dlsr: u32)
  datatype Bye = Bye(ssrcs: seq<u32>, reason: seq<byte>)
  datatype App = App(subtype: nat, ssrc: u32, name: seq<byte>, data: seq<byte>)

  /** What the accessors of a packet of known format give. */
  datatype Contents =
    | SenderReport(ssrc: u32, info: SenderInfo, blocks: seq<ReportBlock>)
    | ReceiverReport(ssrc: u32, blocks: seq<ReportBlock>)
    | Descriptions(chunks: seq<Chunk>)
    | Goodbye(bye: Bye)
    | Application(app: App)
    | Unrecognised

  // ----- the constructors and accessors of the packet classes

  predicate KnownFormat(p: Packet)
    requires |p.data| >= 4
  {
    var d := p.data;
    match Unpadded(d)
    case None => p.t == Unknown
    case Some(len) =>
      match p.t
      case SR => len == 28 + 24 * CountField(d)
      case RR => len == 8 + 24 * CountField(d)
      case SDES => Known(d)
      case BYE =>
        var ssrclen := 4 + 4 * CountField(d);
        ssrclen <= len && (ssrclen < len ==> d[ssrclen] <= len - ssrclen - 1)
      case APP => len >= 12
      case Unknown => true
  }

  /** The 24-bit two's complement value of the low 24 bits of `x`. */
  function Wrap24(x: int): (r: int)
    ensures -0x80_0000 <= r < 0x80_0000 && (r - x) % 0x100_0000 == 0
    ensures -0x80_0000 <= x < 0x80_0000 ==> r == x
  {
    var m := x % 0x100_0000;
    if m >= 0x80_0000 then m - 0x100_0000 else m
  }

  function ReadInfo(d: seq<byte>, at: nat): SenderInfo
    requires at + 20 <= |d|
  {
    SenderInfo(GetU32(d, at), GetU32(d, at + 4), GetU32(d, at + 8), GetU32(d, at + 12), GetU32(d, at + 16))
  }

  /** A report block; the loss count is sign-extended from 24 bits. */
  function ReadBlock(d: seq<byte>, at: nat): ReportBlock
    requires at + 24 <= |d|
  {
    var high: int, mid: int := d[at + 5], d[at + 6];
    var count := high * 0x1_0000 + mid * 0x100 + d[at + 7];
    ReportBlock(GetU32(d, at), d[at + 4], if count >= 0x80_0000 then count - 0x100_0000 else count,
                GetU32(d, at + 8), GetU32(d, at + 12), GetU32(d, at + 16), GetU32(d, at + 20))
  }

  function ReadBlocks(d: seq<byte>, at: nat, n: nat): seq<ReportBlock>
    requires at + 24 * n <= |d|
    decreases n
  {
    if n == 0 then [] else [ReadBlock(d, at)] + ReadBlocks(d, at + 24, n - 1)
  }

  function ReadWords(d: seq<byte>, at: nat, n: nat): seq<u32>
    requires at + 4 * n <= |d|
    decreases n
  {
    if n == 0 then [] else [GetU32(d, at)] + ReadWords(d, at + 4, n - 1)
  }

  function Decode(p: Packet): Contents
    requires |p.data| >= 4 && KnownFormat(p)
  {
    var d, n := p.data, CountField(p.data);
    match p.t
    case SR => SenderReport(GetU32(d, 4), ReadInfo(d, 8), ReadBlocks(d, 28, n))
    case RR => ReceiverReport(GetU32(d, 4), ReadBlocks(d, 8, n))
    case SDES => Descriptions(Chunks(d))
    case BYE =>
      var at := 4 + 4 * n;
      Goodbye(Bye(ReadWords(d, 4, n), if at == Unpadded(d).value then [] else d[at + 1..at + 1 + d[at]]))
    case APP => Application(App(n, GetU32(d, 4), d[8..12], d[12..Unpadded(d).value]))
    case Unknown => Unrecognised
  }

  // ----- the octets that the builder writes

  /** RTCPCommonHeader: version 2, no padding, 5-bit count, type, 16-bit length in words minus one. */
  function Header(count: nat, code: byte, len: nat): (h: seq<byte>)
    requires count < 32
    ensures |h| == 4
  {
    [128 + count, code] + PutU16((len / 4 - 1) % 0x1_0000)
  }

  function Framed(count: nat, code: byte, body: seq<byte>): seq<byte>
    requires count < 32
  {
    Header(count, code, 4 + |body|) + body
  }

  function WriteInfo(i: SenderInfo): (w: seq<byte>)
    ensures |w| == 20
  {
    PutU32(i.ntpmsw) + (PutU32(i.ntplsw) + (PutU32(i.rtptimestamp) + (PutU32(i.packetcount) + PutU32(i.octetcount))))
  }

  /** The loss count as its three low octets. */
  function WriteLoss(fractionlost: byte, lost: int): (w: seq<byte>)
    ensures |w| == 4
  {
    var m := lost % 0x100_0000;
    [fractionlost, m / 0x1_0000, m / 0x100 % 0x100, m % 0x100]
  }

  /** Whole multiples of a divisor come out of a quotient and drop out of a remainder. */
  lemma DropOctet(k: nat, n: nat)
    ensures (k * 0x100 + n) / 0x100 == k + n / 0x100 && (k * 0x100 + n) % 0x100 == n % 0x100
  {}

  lemma DropTwoOctets(k: nat, n: nat)
    ensures (k * 0x1_0000 + n) / 0x1_0000 == k + n / 0x1_0000
  {}

  lemma LowOctets(q: nat, n: nat)
    requires n < 0x100_0000
    ensures (q * 0x100_0000 + n) / 0x1_0000 % 0x100 == n / 0x1_0000
    ensures (q * 0x100_0000 + n) / 0x100 % 0x100 == n / 0x100 % 0x100
    ensures (q * 0x100_0000 + n) % 0x100 == n % 0x100
  {
    var x := q * 0x100_0000 + n;
    DropTwoOctets(q * 0x100, n);
    DropOctet(q, n / 0x1_0000);
    assert x / 0x1_0000 == q * 0x100 + n / 0x1_0000;
    DropOctet(q * 0x1_0000, n);
    DropOctet(q * 0x100, n / 0x100);
    assert x / 0x100 == q * 0x100 * 0x100 + n / 0x100;
  }

  lemma ModOfMod(x: int)
    ensures var m := x % 0x1_0000_0000; m == (m / 0x100_0000) * 0x100_0000 + x % 0x100_0000
  {
    var m := x % 0x1_0000_0000;
    RestOf24(x, (x / 0x1_0000_0000) * 0x100 + m / 0x100_0000, m % 0x100_0000);
  }

  lemma RestOf24(x: int, q: int, r: int)
    requires x == q * 0x100_0000 + r && 0 <= r < 0x100_0000
    ensures x % 0x100_0000 == r
  {}

  /** The loss count written as the low octets of its 32-bit two's complement form. */
  lemma LossOctets(fractionlost: byte, lost: int)
    ensures var m := lost % 0x1_0000_0000;
            WriteLoss(fractionlost, lost) == [fractionlost, m / 0x1_0000 % 0x100, m / 0x100 % 0x100, m % 0x100]
  {
    var m, n := lost % 0x1_0000_0000, lost % 0x100_0000;
    ModOfMod(lost);
    LowOctets(m / 0x100_0000, n);
  }

  function WriteBlock(b: ReportBlock): (w: seq<byte>)
    ensures |w| == 24
  {
    PutU32(b.ssrc) + (WriteLoss(b.fractionlost, b.lost)
      + (PutU32(b.exthighseq) + (PutU32(b.jitter) + (PutU32(b.lsr) + PutU32(b.dlsr)))))
  }

  function WriteBlocks(bs: seq<ReportBlock>): (w: seq<byte>)
    ensures |w| == 24 * |bs|
  {
    if |bs| == 0 then [] else WriteBlock(bs[0]) + WriteBlocks(bs[1..])
  }

  function WriteWords(ws: seq<u32>): (w: seq<byte>)
    ensures |w| == 4 * |ws|
  {
    if |ws| == 0 then [] else PutU32(ws[0]) + WriteWords(ws[1..])
  }

  /** The reason for leaving (if any) with its length octet and zeros up to a 32-bit boundary. */
  function WriteReason(reason: seq<byte>): (w: seq<byte>)
    requires |reason| < 0x100
    ensures |w| == if reason == [] then 0 else RoundUp4(1 + |reason|)
  {
    if reason == [] then [] else [|reason|] + (reason + Zeros(RoundUp4(1 + |reason|) - 1 - |reason|))
  }

  predicate WritableBye(b: Bye) {
    |b.ssrcs| < 32 && |b.reason| < 0x100
  }

  function WriteBye(b: Bye): seq<byte>
    requires WritableBye(b)
  {
    Framed(|b.ssrcs|, RTCPTYPE_BYE, WriteWords(b.ssrcs) + WriteReason(b.reason))
  }

  /** The length is limited by what the 16-bit field holds. */
  predicate WritableApp(a: App) {
    a.subtype < 32 && |a.name| == 4 && |a.data| % 4 == 0 && |a.data| / 4 + 2 < 0x1_0000
  }

  function WriteApp(a: App): seq<byte>
    requires WritableApp(a)
  {
    Framed(a.subtype, RTCPTYPE_APP, PutU32(a.ssrc) + (a.name + a.data))
  }

  // ----- reading back what was written

  /** What a block says once its loss count has gone through 24 bits. */
  function OnWire(b: ReportBlock): ReportBlock {
    b.(lost := Wrap24(b.lost))
  }

  function AllOnWire(bs: seq<ReportBlock>): (r: seq<ReportBlock>)
    ensures |r| == |bs|
  {
    if |bs| == 0 then [] else [OnWire(bs[0])] + AllOnWire(bs[1..])
  }

  lemma ReadWrittenLoss(d: seq<byte>, at: nat, f: byte, lost: int)
    requires At(d, at, WriteLoss(f, lost))
    ensures d[at] == f
    ensures var high: int, mid: int := d[at + 1], d[at + 2];
            high * 0x1_0000 + mid * 0x100 + d[at + 3] == lost % 0x100_0000
  {
    assert d[at..at + 4] == WriteLoss(f, lost);
    assert d[at] == d[at..at + 4][0] && d[at + 1] == d[at..at + 4][1]
        && d[at + 2] == d[at..at + 4][2] && d[at + 3] == d[at..at + 4][3];
  }

  lemma ReadWrittenBlock(d: seq<byte>, at: nat, b: ReportBlock)
    requires At(d, at, WriteBlock(b))
    ensures at + 24 <= |d| && ReadBlock(d, at) == OnWire(b)
  {
    hide PutU32, GetU32, WriteLoss;
    var t4 := PutU32(b.lsr) + PutU32(b.dlsr);
    var t3 := PutU32(b.jitter) + t4;
    var t2 := PutU32(b.exthighseq) + t3;
    var t1 := WriteLoss(b.fractionlost, b.lost) + t2;
    AtSplit(d, at, PutU32(b.ssrc), t1);
    AtSplit(d, at + 4, WriteLoss(b.fractionlost, b.lost), t2);
    AtSplit(d, at + 8, PutU32(b.exthighseq), t3);
    AtSplit(d, at + 12, PutU32(b.jitter), t4);
    AtSplit(d, at + 16, PutU32(b.lsr), PutU32(b.dlsr));
    GetPutU32(d, at, b.ssrc);
    ReadWrittenLoss(d, at + 4, b.fractionlost, b.lost);
    GetPutU32(d, at + 8, b.exthighseq);
    GetPutU32(d, at + 12, b.jitter);
    GetPutU32(d, at + 16, b.lsr);
    GetPutU32(d, at + 20, b.dlsr);
  }

  lemma ReadWrittenInfo(d: seq<byte>, at: nat, i: SenderInfo)
    requires At(d, at, WriteInfo(i))
    ensures at + 20 <= |d| && ReadInfo(d, at) == i
  {
    hide PutU32, GetU32;
    var t3 := PutU32(i.packetcount) + PutU32(i.octetcount);
    var t2 := PutU32(i.rtptimestamp) + t3;
    var t1 := PutU32(i.ntplsw) + t2;
    AtSplit(d, at, PutU32(i.ntpmsw), t1);
    AtSplit(d, at + 4, PutU32(i.ntplsw), t2);
    AtSplit(d, at + 8, PutU32(i.rtptimestamp), t3);
    AtSplit(d, at + 12, PutU32(i.packetcount), PutU32(i.octetcount));
    GetPutU32(d, at, i.ntpmsw);
    GetPutU32(d, at + 4, i.ntplsw);
    GetPutU32(d, at + 8, i.rtptimestamp);
    GetPutU32(d, at + 12, i.packetcount);
    GetPutU32(d, at + 16, i.octetcount);
  }

  lemma {:induction false} ReadWrittenBlocks(d: seq<byte>, at: nat, bs: seq<ReportBlock>)
    requires At(d, at, WriteBlocks(bs))
    ensures at + 24 * |bs| <= |d| && ReadBlocks(d, at, |bs|) == AllOnWire(bs)
    decreases |bs|
  {
    hide WriteBlock, ReadBlock;
    if |bs| > 0 {
      AtSplit(d, at, WriteBlock(bs[0]), WriteBlocks(bs[1..]));
      ReadWrittenBlock(d, at, bs[0]);
      ReadWrittenBlocks(d, at + 24, bs[1..]);
    }
  }

  lemma {:induction false} ReadWrittenWords(d: seq<byte>, at: nat, ws: seq<u32>)
    requires At(d, at, WriteWords(ws))
    ensures at + 4 * |ws| <= |d| && ReadWords(d, at, |ws|) == ws
    decreases |ws|
  {
    hide PutU32, GetU32;
    if |ws| > 0 {
      AtSplit(d, at, PutU32(ws[0]), WriteWords(ws[1..]));
      GetPutU32(d, at, ws[0]);
      ReadWrittenWords(d, at + 4, ws[1..]);
      HeadTail(ws);
    }
  }

  /** The header fields of a written packet, and where its body is. */
  lemma ReadFramed(count: nat, code: byte, body: seq<byte>)
    requires count < 32
    ensures var d := Framed(count, code, body);
            && |d| == 4 + |body| && d[0] / 64 == 2 && d[1] == code
            && CountField(d) == count && Unpadded(d) == Some(|d|)
            && GetU16(d, 2) == (|d| / 4 - 1) % 0x1_0000 && At(d, 4, body)
  {
    var d := Framed(count, code, body);
    assert d[0] == 128 + count;
    assert d[2] == PutU16((|d| / 4 - 1) % 0x1_0000)[0] && d[3] == PutU16((|d| / 4 - 1) % 0x1_0000)[1];
    assert d[4..4 + |body|] == body;
  }

  lemma DecodeSR(ssrc: u32, info: SenderInfo, bs: seq<ReportBlock>)
    requires |bs| < 32
    ensures var p := Packet(SR, Framed(|bs|, RTCPTYPE_SR, (PutU32(ssrc) + WriteInfo(info)) + WriteBlocks(bs)));
            KnownFormat(p) && Decode(p) == SenderReport(ssrc, info, AllOnWire(bs))
  {
    hide Framed, GetU32, PutU32, CountField, Unpadded, At, WriteInfo, ReadInfo, WriteBlocks, ReadBlocks, Known, Chunks;
    var head := PutU32(ssrc) + WriteInfo(info);
    var d := Framed(|bs|, RTCPTYPE_SR, head + WriteBlocks(bs));
    ReadFramed(|bs|, RTCPTYPE_SR, head + WriteBlocks(bs));
    AtSplit(d, 4, head, WriteBlocks(bs));
    AtSplit(d, 4, PutU32(ssrc), WriteInfo(info));
    GetPutU32(d, 4, ssrc);
    ReadWrittenInfo(d, 8, info);
    ReadWrittenBlocks(d, 28, bs);
  }

  lemma DecodeRR(ssrc: u32, bs: seq<ReportBlock>)
    requires |bs| < 32
    ensures var p := Packet(RR, Framed(|bs|, RTCPTYPE_RR, PutU32(ssrc) + WriteBlocks(bs)));
            KnownFormat(p) && Decode(p) == ReceiverReport(ssrc, AllOnWire(bs))
  {
    hide Framed, GetU32, CountField, Unpadded, At, WriteBlocks, ReadBlocks, Known, Chunks;
    var d := Framed(|bs|, RTCPTYPE_RR, PutU32(ssrc) + WriteBlocks(bs));
    ReadFramed(|bs|, RTCPTYPE_RR, PutU32(ssrc) + WriteBlocks(bs));
    AtSplit(d, 4, PutU32(ssrc), WriteBlocks(bs));
    GetPutU32(d, 4, ssrc);
    ReadWrittenBlocks(d, 8, bs);
  }

  lemma DecodeSDES(cs: seq<Chunk>)
    requires |cs| < 32 && forall k :: 0 <= k < |cs| ==> WritableChunk(cs[k])
    ensures var p := Packet(SDES, Framed(|cs|, RTCPTYPE_SDES, WriteChunks(cs)));
            KnownFormat(p) && Decode(p) == Descriptions(cs)
  {
    hide Framed, CountField, Unpadded, At, WriteChunks, ScanChunks;
    var d := Framed(|cs|, RTCPTYPE_SDES, WriteChunks(cs));
    ReadFramed(|cs|, RTCPTYPE_SDES, WriteChunks(cs));
    ScanWrittenChunks(d, 4, |d|, cs);
  }

  lemma ReadWrittenReason(d: seq<byte>, at: nat, reason: seq<byte>)
    requires 0 < |reason| < 0x100 && At(d, at, WriteReason(reason))
    ensures at + 1 + |reason| <= |d| && d[at] == |reason| && d[at + 1..at + 1 + |reason|] == reason
  {
    var zeros := Zeros(RoundUp4(1 + |reason|) - 1 - |reason|);
    AtSplit(d, at, [|reason|], reason + zeros);
    AtSplit(d, at + 1, reason, zeros);
    assert d[at] == d[at..at + 1][0];
  }

  lemma DecodeBYE(b: Bye)
    requires WritableBye(b)
    ensures var p := Packet(BYE, WriteBye(b)); KnownFormat(p) && Decode(p) == Goodbye(b)
  {
    hide Framed, At, Header, CountField, Unpadded, WriteWords, ReadWords, Known, Chunks, WriteReason, RoundUp4;
    var d := WriteBye(b);
    ReadFramed(|b.ssrcs|, RTCPTYPE_BYE, WriteWords(b.ssrcs) + WriteReason(b.reason));
    AtSplit(d, 4, WriteWords(b.ssrcs), WriteReason(b.reason));
    ReadWrittenWords(d, 4, b.ssrcs);
    if b.reason != [] {
      ReadWrittenReason(d, 4 + 4 * |b.ssrcs|, b.reason);
    }
  }

  lemma DecodeAPP(a: App)
    requires WritableApp(a)
    ensures var p := Packet(APP, WriteApp(a)); KnownFormat(p) && Decode(p) == Application(a)
  {
    hide GetU32, PutU32, CountField, Unpadded, Known, Chunks;
    var d := WriteApp(a);
    ReadFramed(a.subtype, RTCPTYPE_APP, PutU32(a.ssrc) + (a.name + a.data));
    AtSplit(d, 4, PutU32(a.ssrc), a.name + a.data);
    AtSplit(d, 8, a.name, a.data);
    GetPutU32(d, 4, a.ssrc);
  }

  // ----- padding

  lemma {:induction false} WordsAlike(d: seq<byte>, e: seq<byte>, at: nat, n: nat)
    requires Alike(d, e, at, at + 4 * n)
    ensures ReadWords(d, at, n) == ReadWords(e, at, n)
    decreases n
  {
    hide GetU32;
    if n > 0 {
      AlikeSlices(d, e, at, at + 4 * n, at, at + 4);
      WordsAlike(d, e, at + 4, n - 1);
    }
  }

  lemma BlockAlike(d: seq<byte>, e: seq<byte>, at: nat)
    requires Alike(d, e, at, at + 24)
    ensures ReadBlock(d, at) == ReadBlock(e, at)
  {
    hide GetU32;
    var end := at + 24;
    AlikeSlices(d, e, at, end, at, at + 4);
    AlikeSlices(d, e, at, end, at + 8, at + 12);
    AlikeSlices(d, e, at, end, at + 12, at + 16);
    AlikeSlices(d, e, at, end, at + 16, at + 20);
    AlikeSlices(d, e, at, end, at + 20, at + 24);
  }

  lemma {:induction false} BlocksAlike(d: seq<byte>, e: seq<byte>, at: nat, n: nat)
    requires Alike(d, e, at, at + 24 * n)
    ensures ReadBlocks(d, at, n) == ReadBlocks(e, at, n)
    decreases n
  {
    hide ReadBlock;
    if n > 0 {
      BlockAlike(d, e, at);
      BlocksAlike(d, e, at + 24, n - 1);
    }
  }

  lemma InfoAlike(d: seq<byte>, e: seq<byte>, at: nat)
    requires Alike(d, e, at, at + 20)
    ensures ReadInfo(d, at) == ReadInfo(e, at)
  {
    hide GetU32;
    var end := at + 20;
    AlikeSlices(d, e, at, end, at, at + 4);
    AlikeSlices(d, e, at, end, at + 4, at + 8);
    AlikeSlices(d, e, at, end, at + 8, at + 12);
    AlikeSlices(d, e, at, end, at + 12, at + 16);
    AlikeSlices(d, e, at, end, at + 16, at + 20);
  }

  lemma PaddedFormat(t: PacketType, d: seq<byte>, pad: seq<byte>)
    requires |d| >= 4 && d[0] / 32 % 2 == 0 && PadFits(pad)
    ensures KnownFormat(Packet(t, Padded(d, pad))) <==> KnownFormat(Packet(t, d))
  {
    hide Padded, Unpadded, Known, CountField;
    PaddedFields(d, pad);
    PaddedChunks(d, pad);
  }

  lemma PaddedSR(d: seq<byte>, pad: seq<byte>)
    requires |d| >= 4 && d[0] / 32 % 2 == 0 && PadFits(pad)
    requires KnownFormat(Packet(SR, d)) && KnownFormat(Packet(SR, Padded(d, pad)))
    ensures Decode(Packet(SR, Padded(d, pad))) == Decode(Packet(SR, d))
  {
    hide Padded, Unpadded, CountField, GetU32, ReadBlocks, ReadInfo;
    PaddedFields(d, pad);
    var e, n := Padded(d, pad), CountField(d);
    AlikeSlices(e, d, 1, |d|, 4, 8);
    InfoAlike(e, d, 8);
    BlocksAlike(e, d, 28, n);
  }

  lemma PaddedRR(d: seq<byte>, pad: seq<byte>)
    requires |d| >= 4 && d[0] / 32 % 2 == 0 && PadFits(pad)
    requires KnownFormat(Packet(RR, d)) && KnownFormat(Packet(RR, Padded(d, pad)))
    ensures Decode(Packet(RR, Padded(d, pad))) == Decode(Packet(RR, d))
  {
    hide Padded, Unpadded, CountField, GetU32, ReadBlocks;
    PaddedFields(d, pad);
    var e, n := Padded(d, pad), CountField(d);
    AlikeSlices(e, d, 1, |d|, 4, 8);
    BlocksAlike(e, d, 8, n);
  }

  lemma ByeFits(d: seq<byte>)
    requires |d| >= 4 && d[0] / 32 % 2 == 0 && KnownFormat(Packet(BYE, d))
    ensures var at := 4 + 4 * CountField(d); at <= |d| && (at < |d| ==> at + 1 + d[at] <= |d|)
  {
    hide CountField;
  }

  lemma PaddedBYE(d: seq<byte>, pad: seq<byte>)
    requires |d| >= 4 && d[0] / 32 % 2 == 0 && PadFits(pad)
    requires KnownFormat(Packet(BYE, d)) && KnownFormat(Packet(BYE, Padded(d, pad)))
    ensures Decode(Packet(BYE, Padded(d, pad))) == Decode(Packet(BYE, d))
  {
    hide Padded, Unpadded, CountField, ReadWords, KnownFormat;
    PaddedFields(d, pad);
    var e, n := Padded(d, pad), CountField(d);
    ByeFits(d);
    WordsAlike(e, d, 4, n);
    var at := 4 + 4 * n;
    if at < |d| {
      assert e[at] == d[at];
      AlikeSlices(e, d, 1, |d|, at + 1, at + 1 + d[at]);
    }
  }

  lemma PaddedAPP(d: seq<byte>, pad: seq<byte>)
    requires |d| >= 4 && d[0] / 32 % 2 == 0 && PadFits(pad)
    requires KnownFormat(Packet(APP, d)) && KnownFormat(Packet(APP, Padded(d, pad)))
    ensures Decode(Packet(APP, Padded(d, pad))) == Decode(Packet(APP, d))
  {
    hide Padded, Unpadded, CountField, GetU32;
    PaddedFields(d, pad);
    var e := Padded(d, pad);
    AlikeSlices(e, d, 1, |d|, 4, 8);
    AlikeSlices(e, d, 1, |d|, 8, 12);
    AlikeSlices(e, d, 1, |d|, 12, |d|);
  }

  /** A packet of any kind is of known format with padding exactly when it is so without, and says the same. */
  lemma PaddedSays(t: PacketType, d: seq<byte>, pad: seq<byte>)
    requires |d| >= 4 && d[0] / 32 % 2 == 0 && PadFits(pad)
    ensures |Padded(d, pad)| >= 4 && (KnownFormat(Packet(t, Padded(d, pad))) <==> KnownFormat(Packet(t, d)))
    ensures KnownFormat(Packet(t, d)) ==> Decode(Packet(t, Padded(d, pad))) == Decode(Packet(t, d))
  {
    hide Padded, Unpadded, CountField, GetU32, ReadBlocks, ReadInfo, ReadWords, KnownFormat;
    PaddedFields(d, pad);
    PaddedFormat(t, d, pad);
    if KnownFormat(Packet(t, d)) {
      match t
      case SR => PaddedSR(d, pad);
      case RR => PaddedRR(d, pad);
      case BYE => PaddedBYE(d, pad);
      case APP => PaddedAPP(d, pad);
      case SDES => PaddedChunks(d, pad);
      case Unknown =>
    }
  }

  /** Padding that is not a multiple of four octets, or takes the whole packet, makes no known format. */
  lemma BadPadding(t: PacketType, d: seq<byte>)
    requires |d| >= 4 && d[0] / 32 % 2 == 1 && (d[|d| - 1] % 4 != 0 || d[|d| - 1] >= |d|)
    ensures KnownFormat(Packet(t, d)) <==> t == Unknown
  {}
}
