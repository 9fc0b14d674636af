/** What was added to a compound packet is what a parser reads back from it. */
module RoundTrip {
  import opened Basics
  import opened Bytes
  import opened SdesFormat
  import opened RtcpFormat
  import opened PacketLayout
  import opened CompoundPacket

  /** Everything a caller has handed to the builder. */
  datatype Content = Content(ssrc: u32, info: Option<SenderInfo>, blocks: seq<ReportBlock>, chunks: seq<Chunk>,
                             apps: seq<App>, byes: seq<Bye>)

  predicate Writable(c: Content) {
    && (forall k :: 0 <= k < |c.chunks| ==> WritableChunk(c.chunks[k]))
    && (forall k :: 0 <= k < |c.apps| ==> WritableApp(c.apps[k]))
    && (forall k :: 0 <= k < |c.byes| ==> WritableBye(c.byes[k]))
  }

  function BlockOctets(bs: seq<ReportBlock>): (r: seq<seq<byte>>)
    ensures |r| == |bs| && forall k :: 0 <= k < |r| ==> r[k] == WriteBlock(bs[k])
  {
    seq(|bs|, k requires 0 <= k < |bs| => WriteBlock(bs[k]))
  }

  function ChunkOctets(cs: seq<Chunk>): (r: seq<seq<byte>>)
    requires forall k :: 0 <= k < |cs| ==> WritableChunk(cs[k])
    ensures |r| == |cs| && forall k :: 0 <= k < |r| ==> r[k] == WriteChunk(cs[k])
  {
    seq(|cs|, k requires 0 <= k < |cs| => WriteChunk(cs[k]))
  }

  function AppOctets(apps: seq<App>): (r: seq<seq<byte>>)
    requires forall k :: 0 <= k < |apps| ==> WritableApp(apps[k])
    ensures |r| == |apps| && forall k :: 0 <= k < |r| ==> r[k] == WriteApp(apps[k])
  {
    seq(|apps|, k requires 0 <= k < |apps| => WriteApp(apps[k]))
  }

  function ByeOctets(byes: seq<Bye>): (r: seq<seq<byte>>)
    requires forall k :: 0 <= k < |byes| ==> WritableBye(byes[k])
    ensures |r| == |byes| && forall k :: 0 <= k < |r| ==> r[k] == WriteBye(byes[k])
  {
    seq(|byes|, k requires 0 <= k < |byes| => WriteBye(byes[k]))
  }

  /** The SSRC and, in a sender report, the sender information. */
  function Head(ssrc: u32, info: Option<SenderInfo>): (h: seq<byte>)
    ensures |h| == if info.Some? then 24 else 4
  {
    match info case None => PutU32(ssrc) case Some(i) => PutU32(ssrc) + WriteInfo(i)
  }

  /** The packets of the compound packet, in order. */
  function Wire(c: Content): (ps: seq<seq<byte>>)
    requires Writable(c)
  {
    ReportPackets(c.info.Some?, Head(c.ssrc, c.info), BlockOctets(c.blocks))
    + SdesPackets(ChunkOctets(c.chunks)) + AppOctets(c.apps) + ByeOctets(c.byes)
  }

  // ----- what the packets say, one by one

  function ReportContents(ssrc: u32, info: Option<SenderInfo>, blocks: seq<ReportBlock>): (r: seq<Contents>)
    decreases |blocks|
  {
    var here := AllOnWire(Group(blocks));
    var first := match info case None => ReceiverReport(ssrc, here) case Some(i) => SenderReport(ssrc, i, here);
    if |blocks| <= MAX_GROUP then [first] else [first] + ReportContents(ssrc, None, blocks[MAX_GROUP..])
  }

  function SdesContents(chunks: seq<Chunk>): seq<Contents>
    decreases |chunks|
  {
    if chunks == [] then []
    else if |chunks| <= MAX_GROUP then [Descriptions(chunks)]
    else [Descriptions(chunks[..MAX_GROUP])] + SdesContents(chunks[MAX_GROUP..])
  }

  function AppContents(apps: seq<App>): (r: seq<Contents>)
    ensures |r| == |apps| && forall k :: 0 <= k < |r| ==> r[k] == Application(apps[k])
  {
    seq(|apps|, k requires 0 <= k < |apps| => Application(apps[k]))
  }

  function ByeContents(byes: seq<Bye>): (r: seq<Contents>)
    ensures |r| == |byes| && forall k :: 0 <= k < |r| ==> r[k] == Goodbye(byes[k])
  {
    seq(|byes|, k requires 0 <= k < |byes| => Goodbye(byes[k]))
  }

  function Expected(c: Content): seq<Contents> {
    ReportContents(c.ssrc, c.info, c.blocks) + SdesContents(c.chunks) + AppContents(c.apps) + ByeContents(c.byes)
  }

  /** `ps` are packets of known format that say `cs`, in order. */
  predicate Says(ps: seq<seq<byte>>, cs: seq<Contents>) {
    && |ps| == |cs|
    && forall k :: 0 <= k < |ps| ==> SaysOne(ps[k], cs[k])
  }

  predicate SaysOne(p: seq<byte>, c: Contents) {
    |p| >= 4 && KnownFormat(PacketOf(p)) && Decode(PacketOf(p)) == c
  }

  lemma {:induction false} FlattenBlocks(bs: seq<ReportBlock>)
    ensures Flatten(BlockOctets(bs)) == WriteBlocks(bs)
  {
    hide WriteBlock;
    if |bs| > 0 {
      FlattenBlocks(bs[1..]);
      assert BlockOctets(bs)[1..] == BlockOctets(bs[1..]);
    }
  }

  lemma {:induction false} FlattenChunks(cs: seq<Chunk>)
    requires forall k :: 0 <= k < |cs| ==> WritableChunk(cs[k])
    ensures Flatten(ChunkOctets(cs)) == WriteChunks(cs)
  {
    hide WriteChunk, WritableChunk;
    if |cs| > 0 {
      FlattenChunks(cs[1..]);
      assert ChunkOctets(cs)[1..] == ChunkOctets(cs[1..]);
    }
  }

  /** One report packet. */
  lemma ReportPacketSays(ssrc: u32, info: Option<SenderInfo>, bs: seq<ReportBlock>)
    requires |bs| <= MAX_GROUP
    ensures SaysOne(ReportPacket(info.Some?, Head(ssrc, info), BlockOctets(bs)), ReportContents(ssrc, info, bs)[0])
  {
    hide Framed, KnownFormat, Decode, BlockOctets, WriteBlocks, WriteInfo, PutU32;
    FlattenBlocks(bs);
    match info {
      case None =>
        assert PutU32(ssrc)[..4] == PutU32(ssrc);
        DecodeRR(ssrc, bs);
        ReadFramed(|bs|, RTCPTYPE_RR, PutU32(ssrc) + WriteBlocks(bs));
      case Some(i) =>
        DecodeSR(ssrc, i, bs);
        ReadFramed(|bs|, RTCPTYPE_SR, PutU32(ssrc) + WriteInfo(i) + WriteBlocks(bs));
    }
  }

  /** Only the SSRC of the head is used once the sender information has been sent. */
  lemma {:induction false} HeadOfReceiverReports(head: seq<byte>, blocks: seq<seq<byte>>)
    requires |head| >= 4
    ensures ReportPackets(false, head, blocks) == ReportPackets(false, head[..4], blocks)
    decreases |blocks|
  {
    hide Framed;
    assert head[..4][..4] == head[..4];
    if |blocks| > MAX_GROUP {
      HeadOfReceiverReports(head, blocks[MAX_GROUP..]);
    }
  }

  lemma {:induction false} ReportsSay(ssrc: u32, info: Option<SenderInfo>, bs: seq<ReportBlock>)
    ensures Says(ReportPackets(info.Some?, Head(ssrc, info), BlockOctets(bs)), ReportContents(ssrc, info, bs))
    decreases |bs|
  {
    hide ReportPackets, ReportContents, ReportPacket, SaysOne, WriteInfo, PutU32, BlockOctets, AllOnWire, Group, Head;
    var here, rest := Group(bs), bs[|Group(bs)|..];
    GroupOctets(bs);
    ReportPacketSays(ssrc, info, here);
    FirstContents(ssrc, info, bs);
    FirstPacket(info.Some?, Head(ssrc, info), BlockOctets(bs));
    if |bs| > MAX_GROUP {
      ReportsSay(ssrc, None, rest);
      HeadOfReceiverReports(Head(ssrc, info), BlockOctets(rest));
      HeadPrefix(ssrc, info);
      SaysCons(ReportPacket(info.Some?, Head(ssrc, info), BlockOctets(here)), ReportContents(ssrc, info, here)[0],
               ReportPackets(false, Head(ssrc, None), BlockOctets(rest)), ReportContents(ssrc, None, rest));
    } else {
      SaysCons(ReportPacket(info.Some?, Head(ssrc, info), BlockOctets(here)), ReportContents(ssrc, info, here)[0],
               [], []);
    }
  }

  lemma GroupOctets(bs: seq<ReportBlock>)
    ensures |Group(bs)| == if |bs| <= MAX_GROUP then |bs| else MAX_GROUP
    ensures Group(BlockOctets(bs)) == BlockOctets(Group(bs))
    ensures BlockOctets(bs)[|Group(bs)|..] == BlockOctets(bs[|Group(bs)|..])
  {
    hide WriteBlock;
  }

  lemma FirstContents(ssrc: u32, info: Option<SenderInfo>, bs: seq<ReportBlock>)
    ensures |ReportContents(ssrc, info, Group(bs))| == 1
    ensures ReportContents(ssrc, info, bs) == [ReportContents(ssrc, info, Group(bs))[0]]
              + if |bs| <= MAX_GROUP then [] else ReportContents(ssrc, None, bs[|Group(bs)|..])
  {
    hide AllOnWire;
  }

  lemma FirstPacket(isSR: bool, head: seq<byte>, blocks: seq<seq<byte>>)
    requires |head| >= 4
    ensures ReportPackets(isSR, head, blocks) == [ReportPacket(isSR, head, Group(blocks))]
              + if |blocks| <= MAX_GROUP then [] else ReportPackets(false, head, blocks[|Group(blocks)|..])
  {
    hide ReportPacket;
  }

  lemma HeadPrefix(ssrc: u32, info: Option<SenderInfo>)
    ensures Head(ssrc, info)[..4] == Head(ssrc, None)
  {
    hide PutU32, WriteInfo;
  }

  lemma SaysCons(p: seq<byte>, c: Contents, ps: seq<seq<byte>>, cs: seq<Contents>)
    requires SaysOne(p, c) && Says(ps, cs)
    ensures Says([p] + ps, [c] + cs)
  {
    hide SaysOne;
  }

  lemma SdesPacketSays(cs: seq<Chunk>)
    requires |cs| <= MAX_GROUP && forall k :: 0 <= k < |cs| ==> WritableChunk(cs[k])
    ensures SaysOne(Framed(|cs|, RTCPTYPE_SDES, Flatten(ChunkOctets(cs))), Descriptions(cs))
  {
    hide Framed, KnownFormat, Decode, ChunkOctets, WriteChunks, WritableChunk;
    FlattenChunks(cs);
    DecodeSDES(cs);
    ReadFramed(|cs|, RTCPTYPE_SDES, WriteChunks(cs));
  }

  lemma {:induction false} SdesSays(cs: seq<Chunk>)
    requires forall k :: 0 <= k < |cs| ==> WritableChunk(cs[k])
    ensures Says(SdesPackets(ChunkOctets(cs)), SdesContents(cs))
    decreases |cs|
  {
    hide Framed, SaysOne, ChunkOctets, WritableChunk, Flatten;
    if cs != [] {
      var octets := ChunkOctets(cs);
      assert Group(octets) == ChunkOctets(Group(cs));
      SdesPacketSays(Group(cs));
      if |cs| > MAX_GROUP {
        assert octets[MAX_GROUP..] == ChunkOctets(cs[MAX_GROUP..]);
        SdesSays(cs[MAX_GROUP..]);
      }
    }
  }

  lemma AppsSay(apps: seq<App>)
    requires forall k :: 0 <= k < |apps| ==> WritableApp(apps[k])
    ensures Says(AppOctets(apps), AppContents(apps))
  {
    hide KnownFormat, Decode, Framed;
    forall k | 0 <= k < |apps|
      ensures SaysOne(AppOctets(apps)[k], Application(apps[k]))
    {
      DecodeAPP(apps[k]);
      ReadFramed(apps[k].subtype, RTCPTYPE_APP, PutU32(apps[k].ssrc) + (apps[k].name + apps[k].data));
    }
  }

  lemma ByesSay(byes: seq<Bye>)
    requires forall k :: 0 <= k < |byes| ==> WritableBye(byes[k])
    ensures Says(ByeOctets(byes), ByeContents(byes))
  {
    hide KnownFormat, Decode, Framed;
    forall k | 0 <= k < |byes|
      ensures SaysOne(ByeOctets(byes)[k], Goodbye(byes[k]))
    {
      DecodeBYE(byes[k]);
      ReadFramed(|byes[k].ssrcs|, RTCPTYPE_BYE, WriteWords(byes[k].ssrcs) + WriteReason(byes[k].reason));
    }
  }

  lemma SaysConcat(p1: seq<seq<byte>>, c1: seq<Contents>, p2: seq<seq<byte>>, c2: seq<Contents>)
    requires Says(p1, c1) && Says(p2, c2)
    ensures Says(p1 + p2, c1 + c2)
  {
    hide SaysOne;
  }

  /** Every packet that is written is of known format and says its part of the content. */
  lemma WireSays(c: Content)
    requires Writable(c)
    ensures Says(Wire(c), Expected(c))
  {
    hide SaysOne, Says, ReportPackets, SdesPackets, AppOctets, ByeOctets, WritableChunk, WritableApp, WritableBye;
    var r := ReportPackets(c.info.Some?, Head(c.ssrc, c.info), BlockOctets(c.blocks));
    var s, a, b := SdesPackets(ChunkOctets(c.chunks)), AppOctets(c.apps), ByeOctets(c.byes);
    var rc, sc := ReportContents(c.ssrc, c.info, c.blocks), SdesContents(c.chunks);
    var ac, bc := AppContents(c.apps), ByeContents(c.byes);
    ReportsSay(c.ssrc, c.info, c.blocks);
    SdesSays(c.chunks);
    AppsSay(c.apps);
    ByesSay(c.byes);
    SaysConcat(r, rc, s, sc);
    SaysConcat(r + s, rc + sc, a, ac);
    SaysConcat(r + s + a, rc + sc + ac, b, bc);
  }

  // ----- the packets are what the parser cuts the octets into

  /** A header as the builder writes it; its length field is the length modulo 2^16 words. */
  predicate Shaped(p: seq<byte>) {
    |p| >= 4 && |p| % 4 == 0 && p[0] / 64 == 2 && p[0] / 32 % 2 == 0 && GetU16(p, 2) == (|p| / 4 - 1) % 0x1_0000
  }

  predicate AllShaped(ps: seq<seq<byte>>) {
    forall k :: 0 <= k < |ps| ==> Shaped(ps[k])
  }

  predicate AllFit(ps: seq<seq<byte>>) {
    forall k :: 0 <= k < |ps| ==> |ps[k]| <= MAX_PACKET
  }

  lemma FramedIsShaped(count: nat, code: byte, body: seq<byte>)
    requires count < 32 && |body| % 4 == 0
    ensures Shaped(Framed(count, code, body)) && Framed(count, code, body)[1] == code
  {
    ReadFramed(count, code, body);
  }

  lemma {:induction false} ReportsShaped(isSR: bool, head: seq<byte>, blocks: seq<seq<byte>>)
    requires |head| >= 4 && (isSR ==> |head| == 24)
    requires forall k :: 0 <= k < |blocks| ==> |blocks[k]| == 24
    ensures AllShaped(ReportPackets(isSR, head, blocks))
    ensures ReportPackets(isSR, head, blocks)[0][1] == if isSR then RTCPTYPE_SR else RTCPTYPE_RR
    decreases |blocks|
  {
    hide Framed, Shaped;
    FlattenUniform(Group(blocks), 24);
    FramedIsShaped(|Group(blocks)|, if isSR then RTCPTYPE_SR else RTCPTYPE_RR,
                   (if isSR then head else head[..4]) + Flatten(Group(blocks)));
    if |blocks| > MAX_GROUP {
      ReportsShaped(false, head, blocks[MAX_GROUP..]);
    }
  }

  lemma {:induction false} FlattenMultiple4(xs: seq<seq<byte>>)
    requires forall k :: 0 <= k < |xs| ==> |xs[k]| % 4 == 0
    ensures |Flatten(xs)| % 4 == 0
  {
    if |xs| > 0 {
      FlattenMultiple4(xs[1..]);
    }
  }

  lemma {:induction false} SdesShaped(chunks: seq<seq<byte>>)
    requires forall k :: 0 <= k < |chunks| ==> |chunks[k]| % 4 == 0
    ensures AllShaped(SdesPackets(chunks))
    decreases |chunks|
  {
    hide Framed, Shaped;
    if chunks != [] {
      FlattenMultiple4(Group(chunks));
      FramedIsShaped(|Group(chunks)|, RTCPTYPE_SDES, Flatten(Group(chunks)));
      if |chunks| > MAX_GROUP {
        SdesShaped(chunks[MAX_GROUP..]);
      }
    }
  }

  lemma AppsShaped(apps: seq<App>)
    requires forall k :: 0 <= k < |apps| ==> WritableApp(apps[k])
    ensures AllShaped(AppOctets(apps))
  {
    hide Framed, Shaped;
    forall k | 0 <= k < |apps|
      ensures Shaped(AppOctets(apps)[k])
    {
      FramedIsShaped(apps[k].subtype, RTCPTYPE_APP, PutU32(apps[k].ssrc) + (apps[k].name + apps[k].data));
    }
  }

  lemma ByesShaped(byes: seq<Bye>)
    requires forall k :: 0 <= k < |byes| ==> WritableBye(byes[k])
    ensures AllShaped(ByeOctets(byes))
  {
    hide Framed, Shaped;
    forall k | 0 <= k < |byes|
      ensures Shaped(ByeOctets(byes)[k])
    {
      FramedIsShaped(|byes[k].ssrcs|, RTCPTYPE_BYE, WriteWords(byes[k].ssrcs) + WriteReason(byes[k].reason));
    }
  }

  lemma ChunksMultiple4(cs: seq<Chunk>)
    requires forall k :: 0 <= k < |cs| ==> WritableChunk(cs[k])
    ensures forall k :: 0 <= k < |cs| ==> |ChunkOctets(cs)[k]| % 4 == 0
  {
    hide PutU32;
  }

  lemma WireShaped(c: Content)
    requires Writable(c)
    ensures AllShaped(Wire(c)) && Wire(c) != []
    ensures Wire(c)[0][1] == if c.info.Some? then RTCPTYPE_SR else RTCPTYPE_RR
  {
    hide Shaped, Framed, ReportPackets, SdesPackets, WritableChunk, WritableApp, WritableBye, Head;
    ReportsShaped(c.info.Some?, Head(c.ssrc, c.info), BlockOctets(c.blocks));
    ChunksMultiple4(c.chunks);
    SdesShaped(ChunkOctets(c.chunks));
    AppsShaped(c.apps);
    ByesShaped(c.byes);
  }

  // ----- only groups of chunks can be too long

  function ItemsSize(items: seq<Item>): nat {
    if |items| == 0 then 0 else 2 + |items[0].value| + ItemsSize(items[1..])
  }

  /** The SSRC, the items, and at least one zero octet up to a word. */
  function ChunkSize(c: Chunk): nat {
    4 + RoundUp4(ItemsSize(c.items) + 1)
  }

  function ChunksSize(cs: seq<Chunk>): nat {
    if |cs| == 0 then 0 else ChunkSize(cs[0]) + ChunksSize(cs[1..])
  }

  /** Each 31 chunks, as they were added, fit the length field of one packet. */
  predicate ChunksFit(cs: seq<Chunk>)
    decreases |cs|
  {
    cs == [] || (4 + ChunksSize(Group(cs)) <= MAX_PACKET && (|cs| > MAX_GROUP ==> ChunksFit(cs[MAX_GROUP..])))
  }

  lemma {:induction false} WriteItemsSize(items: seq<Item>)
    requires forall k :: 0 <= k < |items| ==> WritableItem(items[k])
    ensures |WriteItems(items)| == ItemsSize(items)
  {
    if |items| > 0 {
      WriteItemsSize(items[1..]);
    }
  }

  lemma {:induction false} ChunkOctetsSize(cs: seq<Chunk>)
    requires forall k :: 0 <= k < |cs| ==> WritableChunk(cs[k])
    ensures |Flatten(ChunkOctets(cs))| == ChunksSize(cs)
  {
    hide WriteChunkRaw, RoundUp4;
    if |cs| > 0 {
      WriteItemsSize(cs[0].items);
      ChunkOctetsSize(cs[1..]);
      assert ChunkOctets(cs)[1..] == ChunkOctets(cs[1..]);
    }
  }

  lemma AllFitConcat(a: seq<seq<byte>>, b: seq<seq<byte>>)
    ensures AllFit(a + b) <==> AllFit(a) && AllFit(b)
  {
    assert forall k :: 0 <= k < |b| ==> (a + b)[|a| + k] == b[k];
    assert forall k :: 0 <= k < |a| ==> (a + b)[k] == a[k];
  }

  lemma {:induction false} SdesFits(cs: seq<Chunk>)
    requires forall k :: 0 <= k < |cs| ==> WritableChunk(cs[k])
    ensures AllFit(SdesPackets(ChunkOctets(cs))) <==> ChunksFit(cs)
    decreases |cs|
  {
    hide Framed, WritableChunk, AllFit;
    var octets := ChunkOctets(cs);
    if cs == [] {
      NoneFit();
    } else {
      assert Group(octets) == ChunkOctets(Group(cs));
      ChunkOctetsSize(Group(cs));
      var first := Framed(|Group(octets)|, RTCPTYPE_SDES, Flatten(Group(octets)));
      FramedSize(|Group(octets)|, RTCPTYPE_SDES, Flatten(Group(octets)));
      OneFits(first);
      if |cs| > MAX_GROUP {
        SdesFits(cs[MAX_GROUP..]);
        assert octets[MAX_GROUP..] == ChunkOctets(cs[MAX_GROUP..]);
        AllFitConcat([first], SdesPackets(octets[MAX_GROUP..]));
      }
    }
  }

  lemma NoneFit()
    ensures AllFit([])
  {}

  lemma OneFits(p: seq<byte>)
    ensures AllFit([p]) <==> |p| <= MAX_PACKET
  {
    assert [p][0] == p;
  }

  lemma {:induction false} ReportsFit(isSR: bool, head: seq<byte>, blocks: seq<seq<byte>>)
    requires |head| >= 4 && (isSR ==> |head| == 24)
    requires forall k :: 0 <= k < |blocks| ==> |blocks[k]| == 24
    ensures AllFit(ReportPackets(isSR, head, blocks))
    decreases |blocks|
  {
    hide Framed;
    FlattenUniform(Group(blocks), 24);
    FramedSize(|Group(blocks)|, if isSR then RTCPTYPE_SR else RTCPTYPE_RR,
               (if isSR then head else head[..4]) + Flatten(Group(blocks)));
    if |blocks| > MAX_GROUP {
      ReportsFit(false, head, blocks[MAX_GROUP..]);
    }
  }

  lemma AppsFit(apps: seq<App>)
    requires forall k :: 0 <= k < |apps| ==> WritableApp(apps[k])
    ensures AllFit(AppOctets(apps))
  {
    hide Header;
  }

  lemma {:induction false} WordsSize(ssrcs: seq<u32>)
    ensures |WriteWords(ssrcs)| == 4 * |ssrcs|
  {
    if |ssrcs| > 0 {
      WordsSize(ssrcs[1..]);
    }
  }

  lemma ByesFit(byes: seq<Bye>)
    requires forall k :: 0 <= k < |byes| ==> WritableBye(byes[k])
    ensures AllFit(ByeOctets(byes))
  {
    hide Header, WriteReason;
    forall k | 0 <= k < |byes|
      ensures |ByeOctets(byes)[k]| <= MAX_PACKET
    {
      WordsSize(byes[k].ssrcs);
    }
  }

  /** Every packet fits its length field if and only if each 31 chunks do. */
  lemma FitsIffChunksFit(c: Content)
    requires Writable(c)
    ensures AllFit(Wire(c)) <==> ChunksFit(c.chunks)
  {
    hide AllFit, ReportPackets, SdesPackets, WritableChunk, WritableApp, WritableBye, Head, ChunksFit;
    var r := ReportPackets(c.info.Some?, Head(c.ssrc, c.info), BlockOctets(c.blocks));
    var s, a, b := SdesPackets(ChunkOctets(c.chunks)), AppOctets(c.apps), ByeOctets(c.byes);
    ReportsFit(c.info.Some?, Head(c.ssrc, c.info), BlockOctets(c.blocks));
    SdesFits(c.chunks);
    AppsFit(c.apps);
    ByesFit(c.byes);
    AllFitConcat(r, s);
    AllFitConcat(r + s, a);
    AllFitConcat(r + s + a, b);
  }

  /** The octets parse into exactly these packets if and only if each 31 chunks fit a packet's length field. */
  lemma ParsesIffFits(c: Content)
    requires Writable(c)
    ensures forall k :: 0 <= k < |Wire(c)| ==> |Wire(c)[k]| >= 4
    ensures ParseFrom(Flatten(Wire(c)), true) == Parsed(PacketsOf(Wire(c))) <==> ChunksFit(c.chunks)
  {
    hide Wire, ParseFrom, Writable, Flatten, ChunksFit;
    var ps := Wire(c);
    FitsIffChunksFit(c);
    WireShaped(c);
    assert forall k :: 0 <= k < |ps| ==> Shaped(ps[k]) && |ps[k]| >= 4;
    if AllFit(ps) {
      forall k | 0 <= k < |ps|
        ensures FrameOk(ps[k], k == 0, k == |ps| - 1)
      {
        assert Shaped(ps[k]);
      }
      SplitIsParsed(Flatten(ps), true, ps);
    }
    if ParseFrom(Flatten(ps), true) == Parsed(PacketsOf(ps)) {
      var cut := ParsedIsSplit(Flatten(ps), true);
      forall k | 0 <= k < |ps|
        ensures |ps[k]| <= MAX_PACKET
      {
        assert PacketsOf(cut)[k] == PacketsOf(ps)[k];
      }
    }
  }

  // ----- putting the pieces together again

  /** The lists a receiver collects. */
  datatype Parts = Parts(blocks: seq<ReportBlock>, chunks: seq<Chunk>, apps: seq<App>, byes: seq<Bye>) {
    function Then(other: Parts): Parts {
      Parts(blocks + other.blocks, chunks + other.chunks, apps + other.apps, byes + other.byes)
    }
  }

  function PartsOfOne(c: Contents): Parts {
    match c
    case SenderReport(_, _, bs) => Parts(bs, [], [], [])
    case ReceiverReport(_, bs) => Parts(bs, [], [], [])
    case Descriptions(cs) => Parts([], cs, [], [])
    case Application(a) => Parts([], [], [a], [])
    case Goodbye(b) => Parts([], [], [], [b])
    case Unrecognised => Parts([], [], [], [])
  }

  function Collect(cs: seq<Contents>): Parts {
    if |cs| == 0 then Parts([], [], [], []) else PartsOfOne(cs[0]).Then(Collect(cs[1..]))
  }

  /** What a receiver learns from a compound packet: the sender from the first packet, the rest from all. */
  function Reassemble(cs: seq<Contents>): Option<Content> {
    if |cs| == 0 then None
    else
      var all := Collect(cs);
      match cs[0]
      case SenderReport(ssrc, i, _) => Some(Content(ssrc, Some(i), all.blocks, all.chunks, all.apps, all.byes))
      case ReceiverReport(ssrc, _) => Some(Content(ssrc, None, all.blocks, all.chunks, all.apps, all.byes))
      case _ => None
  }

  lemma {:induction false} CollectConcat(a: seq<Contents>, b: seq<Contents>)
    ensures Collect(a + b) == Collect(a).Then(Collect(b))
  {
    if |a| == 0 {
      assert a + b == b;
    } else {
      assert (a + b)[1..] == a[1..] + b;
      CollectConcat(a[1..], b);
      var x, y, z := PartsOfOne(a[0]), Collect(a[1..]), Collect(b);
      Assoc(x.blocks, y.blocks, z.blocks);
      Assoc(x.chunks, y.chunks, z.chunks);
      Assoc(x.apps, y.apps, z.apps);
      Assoc(x.byes, y.byes, z.byes);
    }
  }

  lemma {:induction false} AllOnWireSplit(bs: seq<ReportBlock>, k: nat)
    requires k <= |bs|
    ensures AllOnWire(bs) == AllOnWire(bs[..k]) + AllOnWire(bs[k..])
  {
    if k > 0 {
      AllOnWireSplit(bs[1..], k - 1);
      assert bs[..k][1..] == bs[1..][..k - 1] && bs[1..][k - 1..] == bs[k..];
    } else {
      assert bs[..0] == [] && bs[0..] == bs;
    }
  }

  lemma {:induction false} CollectReports(ssrc: u32, info: Option<SenderInfo>, bs: seq<ReportBlock>)
    ensures Collect(ReportContents(ssrc, info, bs)) == Parts(AllOnWire(bs), [], [], [])
    decreases |bs|
  {
    hide AllOnWire;
    if |bs| > MAX_GROUP {
      CollectReports(ssrc, None, bs[MAX_GROUP..]);
      AllOnWireSplit(bs, MAX_GROUP);
    }
  }

  lemma {:induction false} CollectSdes(cs: seq<Chunk>)
    ensures Collect(SdesContents(cs)) == Parts([], cs, [], [])
    decreases |cs|
  {
    if |cs| > MAX_GROUP {
      CollectSdes(cs[MAX_GROUP..]);
      assert cs == cs[..MAX_GROUP] + cs[MAX_GROUP..];
    }
  }

  lemma {:induction false} CollectApps(apps: seq<App>)
    ensures Collect(AppContents(apps)) == Parts([], [], apps, [])
  {
    if |apps| > 0 {
      CollectApps(apps[1..]);
      assert AppContents(apps)[1..] == AppContents(apps[1..]);
    }
  }

  lemma {:induction false} CollectByes(byes: seq<Bye>)
    ensures Collect(ByeContents(byes)) == Parts([], [], [], byes)
  {
    if |byes| > 0 {
      CollectByes(byes[1..]);
      assert ByeContents(byes)[1..] == ByeContents(byes[1..]);
    }
  }

  /** Nothing is lost, repeated or reordered by the grouping; losses come back modulo 24 bits. */
  lemma ReassembleExpected(c: Content)
    ensures Reassemble(Expected(c)) == Some(c.(blocks := AllOnWire(c.blocks)))
  {
    hide ReportContents, SdesContents, AppContents, ByeContents, Collect, AllOnWire;
    var r, s := ReportContents(c.ssrc, c.info, c.blocks), SdesContents(c.chunks);
    var a, b := AppContents(c.apps), ByeContents(c.byes);
    CollectConcat(r + s + a, b);
    CollectConcat(r + s, a);
    CollectConcat(r, s);
    CollectReports(c.ssrc, c.info, c.blocks);
    CollectSdes(c.chunks);
    CollectApps(c.apps);
    CollectByes(c.byes);
    FirstReport(c.ssrc, c.info, c.blocks);
    var all := Collect(Expected(c));
    assert all.blocks == AllOnWire(c.blocks) && all.chunks == c.chunks && all.apps == c.apps && all.byes == c.byes;
    assert Expected(c)[0] == r[0];
  }

  lemma FirstReport(ssrc: u32, info: Option<SenderInfo>, bs: seq<ReportBlock>)
    ensures ReportContents(ssrc, info, bs) != []
    ensures match ReportContents(ssrc, info, bs)[0]
            case SenderReport(s, i, _) => s == ssrc && info == Some(i)
            case ReceiverReport(s, _) => s == ssrc && info == None
            case _ => false
  {}

  /** No packet reports on more than 31 sources. */
  predicate GroupsOfAtMost31(cs: seq<Contents>) {
    forall k :: 0 <= k < |cs| ==> |PartsOfOne(cs[k]).blocks| <= MAX_GROUP && |PartsOfOne(cs[k]).chunks| <= MAX_GROUP
  }

  lemma {:induction false} ReportGroups(ssrc: u32, info: Option<SenderInfo>, bs: seq<ReportBlock>)
    ensures GroupsOfAtMost31(ReportContents(ssrc, info, bs))
    decreases |bs|
  {
    hide AllOnWire;
    if |bs| > MAX_GROUP {
      ReportGroups(ssrc, None, bs[MAX_GROUP..]);
    }
  }

  lemma {:induction false} SdesGroups(cs: seq<Chunk>)
    ensures GroupsOfAtMost31(SdesContents(cs))
    decreases |cs|
  {
    if |cs| > MAX_GROUP {
      SdesGroups(cs[MAX_GROUP..]);
    }
  }

  lemma ExpectedGroups(c: Content)
    ensures GroupsOfAtMost31(Expected(c))
  {
    hide ReportContents, SdesContents;
    ReportGroups(c.ssrc, c.info, c.blocks);
    SdesGroups(c.chunks);
  }

  lemma SaysAt(ps: seq<seq<byte>>, cs: seq<Contents>)
    requires Says(ps, cs)
    ensures |ps| == |cs| && forall k :: 0 <= k < |ps| ==> SaysOne(ps[k], cs[k])
  {
    hide SaysOne;
  }

  function DecodeAll(ps: seq<Packet>): (cs: seq<Contents>)
    requires forall k :: 0 <= k < |ps| ==> |ps[k].data| >= 4 && KnownFormat(ps[k])
    ensures |cs| == |ps| && forall k :: 0 <= k < |cs| ==> cs[k] == Decode(ps[k])
  {
    seq(|ps|, k requires 0 <= k < |ps| => Decode(ps[k]))
  }

  /** Build, then parse: whenever each 31 chunks fit a packet, a receiver gets the whole content back. */
  lemma BuildParseRoundTrip(c: Content)
    requires Writable(c) && ChunksFit(c.chunks)
    ensures var r := ParseFrom(Flatten(Wire(c)), true);
            && r.Parsed?
            && (forall k :: 0 <= k < |r.packets| ==> |r.packets[k].data| >= 4 && KnownFormat(r.packets[k]))
            && GroupsOfAtMost31(DecodeAll(r.packets))
            && Reassemble(DecodeAll(r.packets)) == Some(c.(blocks := AllOnWire(c.blocks)))
  {
    hide ParseFrom, KnownFormat, Decode, Reassemble, Wire, Writable, Flatten, Says, GroupsOfAtMost31, ReportContents,
         SdesContents;
    ParsesIffFits(c);
    WireSays(c);
    SaysAt(Wire(c), Expected(c));
    var ps := PacketsOf(Wire(c));
    assert DecodeAll(ps) == Expected(c);
    ReassembleExpected(c);
    ExpectedGroups(c);
  }

  lemma {:induction false} PartFits(ps: seq<seq<byte>>, k: nat)
    requires k < |ps|
    ensures |ps[k]| <= |Flatten(ps)|
  {
    if k > 0 {
      PartFits(ps[1..], k - 1);
    }
  }

  /** A compound packet of at most 2^18 octets always comes back whole. */
  lemma SmallPacketsFit(c: Content)
    requires Writable(c) && |Flatten(Wire(c))| <= MAX_PACKET
    ensures ChunksFit(c.chunks)
  {
    hide Wire, ChunksFit;
    FitsIffChunksFit(c);
    forall k | 0 <= k < |Wire(c)|
      ensures |Wire(c)[k]| <= MAX_PACKET
    {
      PartFits(Wire(c), k);
    }
  }

  /** Exactly the losses that fit 24 bits come back unchanged. */
  lemma {:induction false} LossesUnchanged(bs: seq<ReportBlock>)
    ensures AllOnWire(bs) == bs <==> forall k :: 0 <= k < |bs| ==> -0x80_0000 <= bs[k].lost < 0x80_0000
  {
    if |bs| > 0 {
      LossesUnchanged(bs[1..]);
      assert bs == [bs[0]] + bs[1..];
      assert AllOnWire(bs)[0] == OnWire(bs[0]) && AllOnWire(bs)[1..] == AllOnWire(bs[1..]);
    }
  }
}
