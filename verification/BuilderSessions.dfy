/** Whole sessions: calls on a builder, the buffer it writes, and what a parser makes of that buffer. */
module BuilderSessions {
  import opened Basics
  import opened Bytes
  import opened SdesFormat
  import opened SdesPacket
  import opened RtcpFormat
  import opened CompoundPacket
  import opened PacketLayout
  import opened RoundTrip
  import opened PacketWriter
  import opened CompoundPacketBuilder

  datatype Call =
    | SenderReport(ssrc: u32, info: SenderInfo)
    | ReceiverReport(ssrc: u32)
    | Block(block: ReportBlock)
    | Source(ssrc: u32)
    | NormalItem(itemtype: ItemType, itemdata: seq<byte>)
    | PrivateItem(prefix: seq<byte>, value: seq<byte>)
    | Goodbye(ssrcs: seq<u32>, reason: seq<byte>)
    | Application(subtype: byte, ssrc: u32, name: seq<byte>, appdata: seq<byte>)

  /** Lengths are octets and names four octets in the calls. */
  predicate Callable(c: Call) {
    match c
    case NormalItem(_, itemdata) => |itemdata| < 0x100
    case PrivateItem(prefix, value) => |prefix| < 0x100 && |value| < 0x100
    case Goodbye(ssrcs, reason) => |ssrcs| < 0x100 && |reason| < 0x100
    case Application(_, _, name, _) => |name| == 4
    case _ => true
  }

  predicate Starts(c: Call) {
    c.SenderReport? || c.ReceiverReport?
  }

  /** What a call adds when it succeeds. */
  function Added(c: Content, call: Call): Content
    requires Callable(call)
  {
    match call
    case SenderReport(ssrc, info) => c.(ssrc := ssrc, info := Some(info))
    case ReceiverReport(ssrc) => c.(ssrc := ssrc, info := None)
    case Block(block) => c.(blocks := c.blocks + [block])
    case Source(ssrc) => c.(chunks := c.chunks + [Chunk(ssrc, [])])
    case NormalItem(itemtype, itemdata) =>
      if IdOf(itemtype).None? then c
      else c.(chunks := RTCPCompoundPacketBuilder.WithItem(c.chunks, Item(IdOf(itemtype).value, itemdata)))
    case PrivateItem(prefix, value) =>
      c.(chunks := RTCPCompoundPacketBuilder.WithItem(c.chunks, PrivItem(prefix, value)))
    case Goodbye(ssrcs, reason) => c.(byes := c.byes + [Bye(ssrcs, reason)])
    case Application(subtype, ssrc, name, appdata) => c.(apps := c.apps + [App(subtype, ssrc, name, appdata)])
  }

  /** All that the successful calls add. */
  function AllAdded(calls: seq<Call>, statuses: seq<Status>): Content
    requires |calls| == |statuses| && forall i :: 0 <= i < |calls| ==> Callable(calls[i])
    decreases |calls|
  {
    if |calls| == 0 then NOTHING
    else
      var n := |calls| - 1;
      var c := AllAdded(calls[..n], statuses[..n]);
      if statuses[n] == OK then Added(c, calls[n]) else c
  }

  /** Some report was started. */
  predicate Started(calls: seq<Call>, statuses: seq<Status>)
    requires |calls| == |statuses|
  {
    exists i :: 0 <= i < |calls| && Starts(calls[i]) && statuses[i] == OK
  }

  /** Any one call adds what it says, or nothing. */
  method Perform(b: RTCPCompoundPacketBuilder, call: Call) returns (status: Status)
    requires b.Valid() && b.arebuilding && Callable(call)
    modifies b
    ensures b.Valid() && b.arebuilding && b.maximumpacketsize == old(b.maximumpacketsize)
    ensures b.content == if status == OK then Added(old(b.content), call) else old(b.content)
    ensures b.headerlength != 0 <==> old(b.headerlength) != 0 || (Starts(call) && status == OK)
  {
    hide RTCPCompoundPacketBuilder.ReportValid, RTCPCompoundPacketBuilder.SdesValid,
         RTCPCompoundPacketBuilder.OthersValid, RTCPCompoundPacketBuilder.Bounded, RTCPCompoundPacketBuilder.Used,
         RTCPCompoundPacketBuilder.WithItem, RTCPCompoundPacketBuilder.OtherSize, PrivItem, PrivParts, WriteBye;
    match call
    case SenderReport(ssrc, info) => status := b.StartSenderReport(ssrc, info);
    case ReceiverReport(ssrc) => status := b.StartReceiverReport(ssrc);
    case Block(block) => status := b.AddReportBlock(block);
    case Source(ssrc) => status := b.AddSDESSource(ssrc);
    case NormalItem(itemtype, itemdata) => status := b.AddSDESNormalItem(itemtype, itemdata);
    case PrivateItem(prefix, value) => status := b.AddSDESPrivateItem(prefix, value);
    case Goodbye(ssrcs, reason) => status := b.AddBYEPacket(ssrcs, reason);
    case Application(subtype, ssrc, name, appdata) => status := b.AddAPPPacket(subtype, ssrc, name, appdata);
  }

  lemma AddedSnoc(calls: seq<Call>, statuses: seq<Status>, i: nat, status: Status)
    requires |statuses| == i < |calls| && forall k :: 0 <= k < |calls| ==> Callable(calls[k])
    ensures var c := AllAdded(calls[..i], statuses);
            AllAdded(calls[..i + 1], statuses + [status]) == if status == OK then Added(c, calls[i]) else c
    ensures Started(calls[..i + 1], statuses + [status]) <==>
              Started(calls[..i], statuses) || (Starts(calls[i]) && status == OK)
  {
    hide Added, Starts, Callable;
    var longer, all := calls[..i + 1], statuses + [status];
    assert longer[..i] == calls[..i] && all[..i] == statuses;
    if Started(calls[..i], statuses) {
      var k :| 0 <= k < i && Starts(calls[..i][k]) && statuses[k] == OK;
      assert Starts(longer[k]) && all[k] == OK;
    }
    if Starts(calls[i]) && status == OK {
      assert Starts(longer[i]) && all[i] == OK;
    }
  }

  method PerformAll(b: RTCPCompoundPacketBuilder, calls: seq<Call>) returns (statuses: seq<Status>)
    requires b.Valid() && b.arebuilding && b.content == NOTHING && b.headerlength == 0
    requires forall i :: 0 <= i < |calls| ==> Callable(calls[i])
    modifies b
    ensures |statuses| == |calls|
    ensures b.Valid() && b.arebuilding && b.maximumpacketsize == old(b.maximumpacketsize)
    ensures b.content == AllAdded(calls, statuses) && (b.headerlength != 0 <==> Started(calls, statuses))
  {
    hide RTCPCompoundPacketBuilder.Valid, AllAdded, Added, Started, Starts, Callable;
    statuses := [];
    NothingAdded();
    for i := 0 to |calls|
      invariant |statuses| == i && b.Valid() && b.arebuilding && b.maximumpacketsize == old(b.maximumpacketsize)
      invariant b.content == AllAdded(calls[..i], statuses) && (b.headerlength != 0 <==> Started(calls[..i], statuses))
    {
      var status := Perform(b, calls[i]);
      AddedSnoc(calls, statuses, i, status);
      statuses := statuses + [status];
    }
    assert calls[..|calls|] == calls;
  }

  lemma NothingAdded()
    ensures AllAdded([], []) == NOTHING && !Started([], [])
  {}

  /** A parsed packet list from which the whole content comes back. */
  ghost predicate GivesBack(packets: seq<Packet>, c: Content) {
    && (forall k :: 0 <= k < |packets| ==> |packets[k].data| >= 4 && KnownFormat(packets[k]))
    && GroupsOfAtMost31(DecodeAll(packets))
    && Reassemble(DecodeAll(packets)) == Some(c.(blocks := AllOnWire(c.blocks)))
  }

  /** Build, then parse, on the objects: for any calls and any maximum up to 2^18 less 40 octets, the buffer is parsed
      without error into the builder's own packets, all of known format, which give back exactly what the successful
      calls added. */
  method BuildAndParse(maxpacketsize: nat, calls: seq<Call>)
    returns (statuses: seq<Status>, status: Status, built: RTCPCompoundPacketBuilder, received: RTCPCompoundPacket?)
    requires maxpacketsize <= MAX_PACKET - 40 && forall i :: 0 <= i < |calls| ==> Callable(calls[i])
    ensures maxpacketsize < RTP_MINPACKETSIZE ==> status == MAXPACKETSIZETOOSMALL && received == null
    ensures maxpacketsize >= RTP_MINPACKETSIZE ==>
              && |statuses| == |calls| && status == (if Started(calls, statuses) then OK else NOREPORTPRESENT)
              && (status == OK <==> received != null)
    ensures received != null ==>
              && |statuses| == |calls|
              && !received.error && built.compoundpacket != null && received.compoundpacket == built.compoundpacket
              && received.rtcppacklist == built.rtcppacklist
              && GivesBack(received.rtcppacklist, AllAdded(calls, statuses))
  {
    hide AllAdded, Started, Callable, GivesBack, RTCPCompoundPacketBuilder.Used;
    built := new RTCPCompoundPacketBuilder();
    status := built.InitBuild(maxpacketsize);
    statuses, received := [], null;
    if status == OK {
      statuses := PerformAll(built, calls);
      status, received := Finish(built);
    }
  }

  method Finish(built: RTCPCompoundPacketBuilder) returns (status: Status, received: RTCPCompoundPacket?)
    requires built.Valid() && built.arebuilding && built.maximumpacketsize <= MAX_PACKET - 40
    modifies built
    ensures status == if old(built.headerlength) == 0 then NOREPORTPRESENT else OK
    ensures status == OK <==> received != null
    ensures received != null ==>
              && !received.error && built.compoundpacket != null && received.compoundpacket == built.compoundpacket
              && received.rtcppacklist == built.rtcppacklist
              && GivesBack(received.rtcppacklist, old(built.content))
  {
    hide ParseFrom, Flatten, Wire, Writable, MadeFrom, ChunksFit, KnownFormat, DecodeAll, Reassemble, GroupsOfAtMost31,
         RTCPCompoundPacketBuilder.ReportValid, RTCPCompoundPacketBuilder.SdesValid,
         RTCPCompoundPacketBuilder.OthersValid, RTCPCompoundPacketBuilder.Bounded, RTCPCompoundPacketBuilder.Used;
    ghost var c := built.content;
    built.SdesWritable();
    status := built.EndBuild();
    received := null;
    if status == OK {
      SentIsReceived(c, built.rtcppacklist);
      BuildParseRoundTrip(c);
      received := new RTCPCompoundPacket(built.compoundpacket);
    }
  }

  // ----- room for report blocks

  /** How many more blocks are accepted before one is refused, with `n` there and `other` octets of other parts. */
  function RoomFor(isSR: bool, other: nat, n: nat, max: nat): nat
    decreases if max > 24 * n then max - 24 * n else 0
  {
    if other + ReportNeededWithExtraBlock(isSR, n) > max then 0 else 1 + RoomFor(isSR, other, n + 1, max)
  }

  /** The room is what the builder's own test leaves: exactly that many of the blocks offered get in. */
  method AddBlocks(b: RTCPCompoundPacketBuilder, blocks: seq<ReportBlock>) returns (added: nat, full: bool)
    requires b.Valid() && b.arebuilding && b.headerlength != 0
    modifies b
    ensures b.Valid() && b.arebuilding && added <= |blocks|
    ensures b.content == old(b.content).(blocks := old(b.content).blocks + blocks[..added])
    ensures var room := RoomFor(old(b.isSR), old(b.OtherSize()), old(|b.reportblocks|), old(b.maximumpacketsize));
            added == (if |blocks| <= room then |blocks| else room) && (full <==> room < |blocks|)
  {
    hide RTCPCompoundPacketBuilder.ReportValid, RTCPCompoundPacketBuilder.SdesValid,
         RTCPCompoundPacketBuilder.OthersValid, RTCPCompoundPacketBuilder.Bounded, RTCPCompoundPacketBuilder.Used,
         RTCPCompoundPacketBuilder.OtherSize, Groups, ReportNeeded, ReportNeededWithExtraBlock;
    ghost var isSR, other, n, max := b.isSR, b.OtherSize(), |b.reportblocks|, b.maximumpacketsize;
    added, full := 0, false;
    while !full && added < |blocks|
      invariant b.Valid() && b.arebuilding && b.headerlength != 0 && added <= |blocks|
      invariant b.content == old(b.content).(blocks := old(b.content).blocks + blocks[..added])
      invariant b.isSR == isSR && b.OtherSize() == other && |b.reportblocks| == n + added && b.maximumpacketsize == max
      invariant RoomFor(isSR, other, n, max) == added + if full then 0 else RoomFor(isSR, other, n + added, max)
      invariant full ==> added < |blocks|
      decreases !full, |blocks| - added
    {
      ReportPrediction(b.isSR, b.headerlength, |b.reportblocks|);
      var status := b.AddReportBlock(blocks[added]);
      if status == OK {
        Assoc(old(b.content).blocks, blocks[..added], [blocks[added]]);
        assert blocks[..added + 1] == blocks[..added] + [blocks[added]];
        added := added + 1;
      } else {
        full := true;
      }
    }
  }
}
