/** The compound packet builder. */
module CompoundPacketBuilder {
  import opened Basics
  import opened Bytes
  import opened SdesFormat
  import opened SdesPacket
  import opened RtcpFormat
  import opened PacketLayout
  import opened CompoundPacket
  import opened RoundTrip
  import opened PacketWriter

  const RTP_MINPACKETSIZE := 600

  datatype Status =
    | OK | NOTBUILDING | ALREADYBUILDING | ALREADYBUILT | MAXPACKETSIZETOOSMALL | ALREADYGOTREPORT | NOTENOUGHBYTESLEFT
    | REPORTNOTSTARTED | NOCURRENTSOURCE | INVALIDITEMTYPE | TOTALITEMLENGTHTOOBIG | TOOMANYSSRCS | ILLEGALSUBTYPE
    | ILLEGALAPPDATALENGTH | APPDATALENTOOBIG | NOREPORTPRESENT

  const NOTHING := Content(0, None, [], [], [], [])

  const SIZE_RANGE := 0x1_0000_0000_0000_0000

  /** size_t subtraction. */
  function SizeMinus(a: nat, b: nat): nat {
    (a - b) % SIZE_RANGE
  }

  /** What is too large already leaves nearly everything. */
  lemma SizeLeft(max: nat, used: nat)
    requires max < SIZE_RANGE
    ensures used <= max ==> SizeMinus(max, used) == max - used
    ensures max < used < max + SIZE_RANGE ==> SizeMinus(max, used) == max - used + SIZE_RANGE
  {}

  /** The octet that stands for an item type that can be added. */
  function IdOf(t: ItemType): (id: Option<byte>)
    ensures id.Some? ==> TypeOfId(id.value) == t
  {
    match t
    case CNAME => Some(1)
    case NAME => Some(2)
    case EMAIL => Some(3)
    case PHONE => Some(4)
    case LOC => Some(5)
    case TOOL => Some(6)
    case NOTE => Some(7)
    case _ => None
  }

  /** An item with a prefix and a value. */
  function PrivItem(prefix: seq<byte>, value: seq<byte>): Item
    requires |prefix| < 0x100
  {
    Item(SDES_ID_PRIVATE, [|prefix|] + prefix + value)
  }

  /** The source holds the octets of the chunk. */
  ghost predicate Matches(s: SdesSource, c: Chunk) {
    s.Consistent() && s.ssrc == c.ssrc && WritableChunk(c) && Flatten(s.items) == WriteItems(c.items)
  }

  lemma {:induction false} WriteItemsSnoc(items: seq<Item>, i: Item)
    requires WritableItem(i) && forall k :: 0 <= k < |items| ==> WritableItem(items[k])
    ensures WriteItems(items + [i]) == WriteItems(items) + WriteItem(i)
  {
    hide WriteItem, WritableItem;
    if |items| == 0 {
      assert items + [i] == [i];
      assert WriteItems([]) == [];
    } else {
      WriteItemsSnoc(items[1..], i);
      assert (items + [i])[0] == items[0] && (items + [i])[1..] == items[1..] + [i];
      Assoc(WriteItem(items[0]), WriteItems(items[1..]), WriteItem(i));
    }
  }

  lemma NewMatches(ssrc: u32)
    ensures Matches(SdesSource(ssrc, [], 0), Chunk(ssrc, []))
  {}

  lemma MatchesWithItem(s: SdesSource, c: Chunk, i: Item)
    requires Matches(s, c) && WritableItem(i)
    ensures Matches(s.AddItem(WriteItem(i)), c.(items := c.items + [i]))
  {
    hide WriteItem, WriteItems, Flatten;
    WriteItemsSnoc(c.items, i);
    FlattenSnoc(s.items, WriteItem(i));
  }

  /** The octets of a list of sources are those of the chunks they hold. */
  lemma MatchedOctets(sources: seq<SdesSource>, chunks: seq<Chunk>)
    requires |sources| == |chunks| && forall k :: 0 <= k < |sources| ==> Matches(sources[k], chunks[k])
    ensures forall k :: 0 <= k < |chunks| ==> WritableChunk(chunks[k])
    ensures SourceOctets(sources) == ChunkOctets(chunks)
  {
    hide Flatten, WriteItems, WriteChunkRaw, WritableItem;
  }

  class RTCPCompoundPacketBuilder {
    var maximumpacketsize: nat
    var arebuilding: bool
    var compoundpacket: array?<byte>
    var rtcppacklist: seq<Packet>
    // report
    var isSR: bool
    var headerlength: nat
    var headerdata: seq<byte>
    var reportblocks: seq<seq<byte>>
    // sdes; its current source is the last one
    var sdessources: seq<SdesSource>
    var byepackets: seq<seq<byte>>
    var byesize: nat
    var apppackets: seq<seq<byte>>
    var appsize: nat
    /** Everything added so far. */
    ghost var content: Content
    /** The first source was added with fewer than 12 octets left. */
    ghost var overfull: bool

    ghost predicate ReportValid()
      reads this
    {
      && isSR == content.info.Some?
      && (headerlength != 0 ==> headerdata == Head(content.ssrc, content.info) && headerlength == |headerdata|)
      && (headerlength == 0 ==> !isSR && reportblocks == [])
      && reportblocks == BlockOctets(content.blocks)
    }

    ghost predicate SdesValid()
      reads this
    {
      && |sdessources| == |content.chunks|
      && forall k :: 0 <= k < |sdessources| ==> Matches(sdessources[k], content.chunks[k])
    }

    ghost predicate OthersValid()
      reads this
    {
      && (forall k :: 0 <= k < |content.apps| ==> WritableApp(content.apps[k]))
      && (forall k :: 0 <= k < |content.byes| ==> WritableBye(content.byes[k]))
      && apppackets == AppOctets(content.apps) && appsize == |Flatten(apppackets)|
      && byepackets == ByeOctets(content.byes) && byesize == |Flatten(byepackets)|
    }

    ghost predicate Valid()
      reads this
    {
      && ReportValid() && SdesValid() && OthersValid()
      && (arebuilding ==> compoundpacket == null && maximumpacketsize >= RTP_MINPACKETSIZE)
      && (compoundpacket == null ==> rtcppacklist == [])
      && (!arebuilding ==> content == NOTHING && headerlength == 0)
      && (arebuilding ==> Bounded())
    }

    /** Once over the maximum, a report is accepted as well, but nothing more. */
    ghost predicate Bounded()
      reads this
    {
      maximumpacketsize < SIZE_RANGE
      && Used() <= maximumpacketsize + (if !overfull then 0 else if headerlength == 0 then 12 else 40)
    }

    function ReportSize(): nat
      reads this
    {
      ReportNeeded(isSR, headerlength, |reportblocks|)
    }

    /** The size of everything but the report. */
    function OtherSize(): nat
      reads this
    {
      byesize + appsize + SdesNeeded(sdessources)
    }

    /** The octets that EndBuild will write. */
    function Used(): nat
      reads this
    {
      OtherSize() + ReportSize()
    }

    constructor ()
      ensures Valid() && !arebuilding && compoundpacket == null
      ensures headerlength == 0 && content == NOTHING
    {
      maximumpacketsize, arebuilding, compoundpacket, rtcppacklist := 0, false, null, [];
      isSR, headerlength, headerdata, reportblocks := false, 0, [], [];
      sdessources, byepackets, byesize, apppackets, appsize := [], [], 0, [], 0;
      content, overfull := NOTHING, false;
    }

    method InitBuild(maxpacketsize: nat) returns (status: Status)
      requires Valid() && maxpacketsize < SIZE_RANGE
      modifies this
      ensures Valid() && content == old(content)
      ensures status == if old(arebuilding) then ALREADYBUILDING
                        else if old(compoundpacket) != null then ALREADYBUILT
                        else if maxpacketsize < RTP_MINPACKETSIZE then MAXPACKETSIZETOOSMALL else OK
      ensures status == OK ==> arebuilding && maximumpacketsize == maxpacketsize && headerlength == 0 && !overfull
      ensures status != OK ==> unchanged(this)
    {
      if arebuilding {
        return ALREADYBUILDING;
      }
      if compoundpacket != null {
        return ALREADYBUILT;
      }
      if maxpacketsize < RTP_MINPACKETSIZE {
        return MAXPACKETSIZETOOSMALL;
      }
      maximumpacketsize := maxpacketsize;
      byesize := 0;
      appsize := 0;
      arebuilding, overfull := true, false;
      status := OK;
    }

    method StartSenderReport(senderssrc: u32, info: SenderInfo) returns (status: Status)
      requires Valid()
      modifies this
      ensures Valid() && maximumpacketsize == old(maximumpacketsize)
      ensures status == if !old(arebuilding) then NOTBUILDING
                        else if old(headerlength) != 0 then ALREADYGOTREPORT
                        else if SizeMinus(maximumpacketsize, old(Used())) < 28 then NOTENOUGHBYTESLEFT else OK
      ensures status == OK ==>
                && content == old(content).(ssrc := senderssrc, info := Some(info)) && headerlength == 24
                && arebuilding && Used() == old(Used()) + 28 && overfull == old(overfull)
      ensures status != OK ==> unchanged(this)
    {
      hide SdesNeeded, SumNeeded, Groups, Matches, WritableApp, WritableBye, AppOctets, ByeOctets, Flatten, PutU32,
           WriteInfo, SizeMinus;
      if !arebuilding {
        return NOTBUILDING;
      }
      if headerlength != 0 {
        return ALREADYGOTREPORT;
      }
      var sizeleft := SizeMinus(maximumpacketsize, byesize + appsize + SdesNeeded(sdessources));
      if 28 > sizeleft {
        return NOTENOUGHBYTESLEFT;
      }
      SizeLeft(maximumpacketsize, Used());
      headerlength := 24;
      isSR := true;
      headerdata := PutU32(senderssrc) + WriteInfo(info);
      content := content.(ssrc := senderssrc, info := Some(info));
      status := OK;
    }

    method StartReceiverReport(senderssrc: u32) returns (status: Status)
      requires Valid()
      modifies this
      ensures Valid() && maximumpacketsize == old(maximumpacketsize)
      ensures status == if !old(arebuilding) then NOTBUILDING
                        else if old(headerlength) != 0 then ALREADYGOTREPORT
                        else if SizeMinus(maximumpacketsize, old(Used())) < 8 then NOTENOUGHBYTESLEFT else OK
      ensures status == OK ==>
                && content == old(content).(ssrc := senderssrc, info := None) && headerlength == 4
                && arebuilding && Used() == old(Used()) + 8 && overfull == old(overfull)
      ensures status != OK ==> unchanged(this)
    {
      hide SdesNeeded, SumNeeded, Groups, Matches, WritableApp, WritableBye, AppOctets, ByeOctets, Flatten, PutU32,
           WriteInfo, SizeMinus;
      if !arebuilding {
        return NOTBUILDING;
      }
      if headerlength != 0 {
        return ALREADYGOTREPORT;
      }
      var sizeleft := SizeMinus(maximumpacketsize, byesize + appsize + SdesNeeded(sdessources));
      if 8 > sizeleft {
        return NOTENOUGHBYTESLEFT;
      }
      SizeLeft(maximumpacketsize, Used());
      headerlength := 4;
      isSR := false;
      headerdata := PutU32(senderssrc);
      content := content.(ssrc := senderssrc, info := None);
      status := OK;
    }

    method AddReportBlock(b: ReportBlock) returns (status: Status)
      requires Valid()
      modifies this
      ensures Valid() && maximumpacketsize == old(maximumpacketsize)
      ensures status == if !old(arebuilding) then NOTBUILDING
                        else if old(headerlength) == 0 then REPORTNOTSTARTED
                        else if old(OtherSize()
                                    + ReportNeeded(isSR, headerlength, |reportblocks| + 1)) > maximumpacketsize
                             then NOTENOUGHBYTESLEFT else OK
      ensures status == OK ==>
                && content == old(content).(blocks := old(content).blocks + [b]) && headerlength == old(headerlength)
                && arebuilding && Used() <= maximumpacketsize && overfull == old(overfull)
      ensures status == OK ==>
                isSR == old(isSR) && OtherSize() == old(OtherSize()) && |reportblocks| == old(|reportblocks|) + 1
      ensures status != OK ==> unchanged(this)
    {
      hide SdesNeeded, Groups, Matches, WritableApp, WritableBye, AppOctets, ByeOctets, Flatten, PutU32;
      if !arebuilding {
        return NOTBUILDING;
      }
      if headerlength == 0 {
        return REPORTNOTSTARTED;
      }
      var totalothersize := byesize + appsize + SdesNeeded(sdessources);
      ReportPrediction(isSR, headerlength, |reportblocks|);
      if totalothersize + ReportNeededWithExtraBlock(isSR, |reportblocks|) > maximumpacketsize {
        return NOTENOUGHBYTESLEFT;
      }
      var packlost := b.lost % 0x1_0000_0000;
      LossOctets(b.fractionlost, b.lost);
      var buf := PutU32(b.ssrc)
        + ([b.fractionlost, packlost / 0x1_0000 % 0x100, packlost / 0x100 % 0x100, packlost % 0x100]
        + (PutU32(b.exthighseq) + (PutU32(b.jitter) + (PutU32(b.lsr) + PutU32(b.dlsr)))));
      assert BlockOctets(content.blocks + [b]) == BlockOctets(content.blocks) + [buf];
      reportblocks := reportblocks + [buf];
      content := content.(blocks := content.blocks + [b]);
      status := OK;
    }

    /** The first source is accepted as if it took no room. */
    method AddSDESSource(ssrc: u32) returns (status: Status)
      requires Valid()
      modifies this
      ensures Valid() && maximumpacketsize == old(maximumpacketsize)
      ensures status == if !old(arebuilding) then NOTBUILDING
                        else if old(Used() - SdesNeeded(sdessources)
                            + SdesNeededWithExtraSource(sdessources)) > maximumpacketsize
                             then NOTENOUGHBYTESLEFT else OK
      ensures status == OK ==>
                && content == old(content).(chunks := old(content).chunks + [Chunk(ssrc, [])])
                && arebuilding && headerlength == old(headerlength)
                && (Used() <= maximumpacketsize <==>
                   (old(content).chunks == [] ==> old(Used()) + 12 <= maximumpacketsize))
                && overfull == (old(overfull) || (old(content).chunks == [] && old(Used()) + 12 > maximumpacketsize))
      ensures status != OK ==> unchanged(this)
    {
      hide SdesNeeded, SdesNeededWithExtraSource, ReportNeeded, RTCPCompoundPacketBuilder.ReportValid,
           RTCPCompoundPacketBuilder.SdesValid, RTCPCompoundPacketBuilder.OthersValid, Matches;
      if !arebuilding {
        return NOTBUILDING;
      }
      var totalotherbytes := byesize + appsize + ReportSize();
      if totalotherbytes + SdesNeededWithExtraSource(sdessources) > maximumpacketsize {
        return NOTENOUGHBYTESLEFT;
      }
      SourcePrediction(sdessources, ssrc);
      SameNumber();
      PushSource(ssrc, overfull || (sdessources == [] && Used() + 12 > maximumpacketsize));
      status := OK;
    }

    lemma SameNumber()
      requires SdesValid()
      ensures content.chunks == [] <==> sdessources == []
    {}

    method PushSource(ssrc: u32, ghost over: bool)
      requires ReportValid() && SdesValid() && OthersValid()
      modifies this`sdessources, this`content, this`overfull
      ensures ReportValid() && SdesValid() && OthersValid() && overfull == over
      ensures sdessources == old(sdessources) + [SdesSource(ssrc, [], 0)]
      ensures content == old(content).(chunks := old(content).chunks + [Chunk(ssrc, [])])
    {
      hide Matches, WritableApp, WritableBye, BlockOctets, AppOctets, ByeOctets, Flatten, PutU32;
      NewMatches(ssrc);
      sdessources, overfull := sdessources + [SdesSource(ssrc, [], 0)], over;
      content := content.(chunks := content.chunks + [Chunk(ssrc, [])]);
    }

    method AddSDESNormalItem(t: ItemType, itemdata: seq<byte>) returns (status: Status)
      requires Valid() && |itemdata| < 0x100
      modifies this
      ensures Valid() && maximumpacketsize == old(maximumpacketsize)
      ensures status == if !old(arebuilding) then NOTBUILDING
                        else if old(sdessources) == [] then NOCURRENTSOURCE
                        else if t == NoItem || t == PRIV || t == ItemType.Unknown then INVALIDITEMTYPE
                        else if old(Used() - SdesNeeded(sdessources)
                            + SdesNeededWithExtraItem(sdessources, |itemdata|)) > maximumpacketsize
                             then NOTENOUGHBYTESLEFT else OK
      ensures status == OK ==>
                && IdOf(t).Some?
                && content == old(content).(chunks := WithItem(old(content).chunks, Item(IdOf(t).value, itemdata)))
                && arebuilding && headerlength == old(headerlength) && Used() <= maximumpacketsize
                && overfull == old(overfull)
      ensures status != OK ==> unchanged(this)
    {
      if !arebuilding {
        return NOTBUILDING;
      }
      if sdessources == [] {
        return NOCURRENTSOURCE;
      }
      var itemid: byte;
      match t {
        case CNAME => itemid := 1;
        case NAME => itemid := 2;
        case EMAIL => itemid := 3;
        case PHONE => itemid := 4;
        case LOC => itemid := 5;
        case TOOL => itemid := 6;
        case NOTE => itemid := 7;
        case _ => return INVALIDITEMTYPE;
      }
      assert IdOf(t) == Some(itemid);
      status := AddItem(Item(itemid, itemdata));
    }

    method AddSDESPrivateItem(prefix: seq<byte>, value: seq<byte>) returns (status: Status)
      requires Valid() && |prefix| < 0x100 && |value| < 0x100
      modifies this
      ensures Valid() && maximumpacketsize == old(maximumpacketsize)
      ensures status == if !old(arebuilding) then NOTBUILDING
                        else if old(sdessources) == [] then NOCURRENTSOURCE
                        else if |prefix| + 1 + |value| > 255 then TOTALITEMLENGTHTOOBIG
                        else if old(Used() - SdesNeeded(sdessources)
                            + SdesNeededWithExtraItem(sdessources, |prefix| + 1 + |value|))
                                > maximumpacketsize
                             then NOTENOUGHBYTESLEFT else OK
      ensures status == OK ==>
                && content == old(content).(chunks := WithItem(old(content).chunks, PrivItem(prefix, value)))
                && PrivParts(PrivItem(prefix, value)) == Some((prefix, value))
                && arebuilding && headerlength == old(headerlength) && Used() <= maximumpacketsize
                && overfull == old(overfull)
      ensures status != OK ==> unchanged(this)
    {
      if !arebuilding {
        return NOTBUILDING;
      }
      if sdessources == [] {
        return NOCURRENTSOURCE;
      }
      if |prefix| + 1 + |value| > 255 {
        return TOTALITEMLENGTHTOOBIG;
      }
      PrivRoundTrip(prefix, value);
      status := AddItem(PrivItem(prefix, value));
    }

    method AddBYEPacket(ssrcs: seq<u32>, reason: seq<byte>) returns (status: Status)
      requires Valid() && |ssrcs| < 0x100 && |reason| < 0x100
      modifies this
      ensures Valid() && maximumpacketsize == old(maximumpacketsize)
      ensures status == if !old(arebuilding) then NOTBUILDING
                        else if |ssrcs| > 31 then TOOMANYSSRCS
                        else if old(Used()) + |WriteBye(Bye(ssrcs, reason))| > maximumpacketsize
                             then NOTENOUGHBYTESLEFT else OK
      ensures status == OK ==>
                && content == old(content).(byes := old(content).byes + [Bye(ssrcs, reason)])
                && arebuilding && headerlength == old(headerlength) && Used() <= maximumpacketsize
                && overfull == old(overfull)
      ensures status != OK ==> unchanged(this)
    {
      hide RoundUp4, ReportNeeded, SdesNeeded, Groups, SumNeeded, WriteBye, ReportValid, SdesValid, OthersValid;
      if !arebuilding {
        status := NOTBUILDING;
      } else if |ssrcs| > 31 {
        status := TOOMANYSSRCS;
      } else {
        var buf := FrameBYE(ssrcs, reason);
        if appsize + byesize + SdesNeeded(sdessources) + ReportSize() + |buf| > maximumpacketsize {
          status := NOTENOUGHBYTESLEFT;
        } else {
          PushBYE(Bye(ssrcs, reason), buf);
          status := OK;
        }
      }
    }

    method PushBYE(ghost bye: Bye, buf: seq<byte>)
      requires Valid() && arebuilding && WritableBye(bye) && buf == WriteBye(bye) && Used() + |buf| <= maximumpacketsize
      modifies this`byepackets, this`byesize, this`content
      ensures Valid() && content == old(content).(byes := old(content).byes + [bye]) && Used() == old(Used()) + |buf|
    {
      hide ReportNeeded, SdesNeeded, WritableBye, WriteBye, Matches, WritableApp, BlockOctets, AppOctets, Flatten;
      assert ByeOctets(content.byes + [bye]) == ByeOctets(content.byes) + [buf];
      FlattenSnoc(byepackets, buf);
      byepackets := byepackets + [buf];
      byesize := byesize + |buf|;
      content := content.(byes := content.byes + [bye]);
    }

    /** The octets of a BYE packet: header, sources, and the reason with its length and zero padding. */
    static method FrameBYE(ssrcs: seq<u32>, reason: seq<byte>) returns (buf: seq<byte>)
      requires |ssrcs| <= 31 && |reason| < 0x100
      ensures buf == WriteBye(Bye(ssrcs, reason))
    {
      var packsize, zerobytes := 4 + 4 * |ssrcs|, 0;
      if |reason| > 0 {
        packsize := packsize + 1 + |reason|;
        var r := packsize % 4;
        if r != 0 {
          zerobytes := 4 - r;
          packsize := packsize + zerobytes;
        }
      }
      ReasonPadding(ssrcs, reason, zerobytes);
      hide RoundUp4, WriteWords, WriteReason, Header;
      buf := WriteWords(ssrcs);
      if |reason| != 0 {
        buf := buf + ([|reason|] + (reason + Zeros(zerobytes)));
      } else {
        assert buf == WriteWords(ssrcs) + [];
      }
      buf := Header(|ssrcs|, RTCPTYPE_BYE, packsize) + buf;
    }

    static lemma ReasonPadding(ssrcs: seq<u32>, reason: seq<byte>, zerobytes: nat)
      requires |reason| < 0x100
      requires zerobytes == if reason == [] || (5 + 4 * |ssrcs| + |reason|) % 4 == 0 then 0
                            else 4 - (5 + 4 * |ssrcs| + |reason|) % 4
      ensures WriteReason(reason) == if reason == [] then [] else [|reason|] + (reason + Zeros(zerobytes))
    {
      assert reason != [] ==> RoundUp4(1 + |reason|) - 1 - |reason| == zerobytes;
    }

    method AddAPPPacket(subtype: byte, ssrc: u32, name: seq<byte>, appdata: seq<byte>) returns (status: Status)
      requires Valid() && |name| == 4
      modifies this
      ensures Valid() && maximumpacketsize == old(maximumpacketsize)
      ensures status == if !old(arebuilding) then NOTBUILDING
                        else if subtype > 31 then ILLEGALSUBTYPE
                        else if |appdata| % 4 != 0 then ILLEGALAPPDATALENGTH
                        else if |appdata| / 4 + 2 > 65535 then APPDATALENTOOBIG
                        else if old(Used()) + 12 + |appdata| > maximumpacketsize then NOTENOUGHBYTESLEFT else OK
      ensures status == OK ==>
                && content == old(content).(apps := old(content).apps + [App(subtype, ssrc, name, appdata)])
                && arebuilding && headerlength == old(headerlength) && Used() <= maximumpacketsize
                && overfull == old(overfull)
      ensures status != OK ==> unchanged(this)
    {
      hide ReportNeeded, SdesNeeded, Groups, SumNeeded, WriteApp, ReportValid, SdesValid, OthersValid, PutU32;
      if !arebuilding {
        status := NOTBUILDING;
      } else if subtype > 31 {
        status := ILLEGALSUBTYPE;
      } else if |appdata| % 4 != 0 {
        status := ILLEGALAPPDATALENGTH;
      } else if |appdata| / 4 + 2 > 65535 {
        status := APPDATALENTOOBIG;
      } else if appsize + byesize + SdesNeeded(sdessources) + ReportSize() + 12 + |appdata| > maximumpacketsize {
        status := NOTENOUGHBYTESLEFT;
      } else {
        ghost var app := App(subtype, ssrc, name, appdata);
        AppFraming(app);
        PushAPP(app, [128 + subtype, RTCPTYPE_APP] + PutU16(|appdata| / 4 + 2) + (PutU32(ssrc) + (name + appdata)));
        status := OK;
      }
    }

    method PushAPP(ghost app: App, buf: seq<byte>)
      requires Valid() && arebuilding && WritableApp(app) && buf == WriteApp(app) && Used() + |buf| <= maximumpacketsize
      modifies this`apppackets, this`appsize, this`content
      ensures Valid() && content == old(content).(apps := old(content).apps + [app]) && Used() == old(Used()) + |buf|
    {
      hide ReportNeeded, SdesNeeded, WritableBye, WriteApp, Matches, WritableApp, BlockOctets, ByeOctets, Flatten;
      assert AppOctets(content.apps + [app]) == AppOctets(content.apps) + [buf];
      FlattenSnoc(apppackets, buf);
      apppackets := apppackets + [buf];
      appsize := appsize + |buf|;
      content := content.(apps := content.apps + [app]);
    }

    static lemma AppFraming(a: App)
      requires WritableApp(a)
      ensures WriteApp(a) == [128 + a.subtype, RTCPTYPE_APP] + PutU16(|a.data| / 4 + 2)
                + (PutU32(a.ssrc) + (a.name + a.data))
      ensures |WriteApp(a)| == 12 + |a.data|
    {
      hide PutU32;
      assert (12 + |a.data|) / 4 - 1 == |a.data| / 4 + 2;
    }

    /** Common part of AddSDESNormalItem and AddSDESPrivateItem: the item goes to the current source. */
    method AddItem(item: Item) returns (status: Status)
      requires Valid() && arebuilding && sdessources != [] && WritableItem(item)
      modifies this
      ensures Valid() && maximumpacketsize == old(maximumpacketsize)
      ensures status == if old(Used() - SdesNeeded(sdessources)
                + SdesNeededWithExtraItem(sdessources, |item.value|)) > maximumpacketsize
                        then NOTENOUGHBYTESLEFT else OK
      ensures status == OK ==>
                && content == old(content).(chunks := WithItem(old(content).chunks, item))
                && arebuilding && headerlength == old(headerlength) && Used() <= maximumpacketsize
                && overfull == old(overfull)
      ensures status != OK ==> unchanged(this)
    {
      hide Groups, SumNeeded, SdesNeeded, SdesNeededWithExtraItem, Matches, Flatten, WritableApp, WritableBye,
           AppOctets, ByeOctets, BlockOctets, PutU32, ReportNeeded;
      var totalotherbytes := byesize + appsize + ReportSize();
      if SdesNeededWithExtraItem(sdessources, |item.value|) + totalotherbytes > maximumpacketsize {
        return NOTENOUGHBYTESLEFT;
      }
      var buf := [item.id, |item.value|] + item.value;
      var last := |sdessources| - 1;
      ItemPrediction(sdessources, buf);
      MatchesWithItem(sdessources[last], content.chunks[last], item);
      sdessources := sdessources[last := sdessources[last].AddItem(buf)];
      content := content.(chunks := WithItem(content.chunks, item));
      status := OK;
    }

    static function WithItem(chunks: seq<Chunk>, item: Item): seq<Chunk> {
      if chunks == [] then [] else
        var last := |chunks| - 1;
        chunks[last := chunks[last].(items := chunks[last].items + [item])]
    }

    /** The octets that `content` stands for once a report has been started. */
    ghost function Packets(): seq<seq<byte>>
      requires Valid()
      reads this
    {
      SdesWritable();
      Wire(content)
    }

    lemma SdesWritable()
      requires Valid()
      ensures Writable(content)
    {
      hide WritableApp, WritableBye;
    }

    /** The size accounting is exact. */
    lemma UsedIsWireSize()
      requires Valid() && headerlength != 0
      ensures Used() == |Flatten(Packets())|
      ensures Packets() == ReportPackets(isSR, headerdata, reportblocks) + SdesPackets(SourceOctets(sdessources))
                + apppackets + byepackets
    {
      hide Flatten, Groups, SumNeeded, WriteInfo, PutU32, ReportPackets, SdesPackets, WritableApp, WritableBye,
           WritableChunk, SdesNeeded, ReportNeeded;
      var r, s := ReportPackets(isSR, headerdata, reportblocks), SdesPackets(SourceOctets(sdessources));
      MatchedOctets(sdessources, content.chunks);
      ReportPacketsSize(isSR, headerdata, reportblocks);
      SdesSize(sdessources);
      PartSizes(r, s, apppackets, byepackets);
    }

    /** Writes the compound packet out and keeps the packet objects for its parts. */
    method EndBuild() returns (status: Status)
      requires Valid()
      modifies this
      ensures status == if !old(arebuilding) then NOTBUILDING
                        else if old(headerlength) == 0 then NOREPORTPRESENT else OK
      ensures status != OK ==> unchanged(this)
      ensures status == OK ==>
                && Valid() && !arebuilding && compoundpacket != null && fresh(compoundpacket)
                && maximumpacketsize == old(maximumpacketsize)
                && compoundpacket.Length == old(Used()) <= maximumpacketsize + (if old(overfull) then 40 else 0)
                && compoundpacket[..] == Flatten(old(Packets()))
                && MadeFrom(rtcppacklist, old(Packets()))
    {
      hide Flatten, MadeFrom, ReportPackets, SdesPackets, SourceOctets, Wire, SdesNeeded, ReportNeeded, Matches,
           WritableApp, WritableBye, BlockOctets, AppOctets, ByeOctets, Head;
      if !arebuilding {
        status := NOTBUILDING;
      } else if headerlength == 0 {
        status := NOREPORTPRESENT;
      } else {
        var len := appsize + byesize + ReportSize() + SdesNeeded(sdessources);
        UsedIsWireSize();
        OtherPackets();
        var buf := new byte[len];
        var packets := WriteCompound(buf, isSR, headerdata, reportblocks, sdessources, apppackets, byepackets);
        rtcppacklist := packets;
        compoundpacket := buf;
        arebuilding := false;
        ClearBuildBuffers();
        EmptyIsValid();
        status := OK;
      }
    }

    lemma EmptyIsValid()
      ensures Flatten([]) == [] && BlockOctets([]) == [] && AppOctets([]) == [] && ByeOctets([]) == []
    {}

    /** APP and BYE packets carry their own types. */
    lemma OtherPackets()
      requires Valid()
      ensures forall k :: 0 <= k < |apppackets| ==> |apppackets[k]| >= 4 && TypeOfCode(apppackets[k][1]) == APP
      ensures forall k :: 0 <= k < |byepackets| ==> |byepackets[k]| >= 4 && TypeOfCode(byepackets[k][1]) == BYE
    {
      hide ReportValid, SdesValid, Flatten, Framed, WriteWords, WriteReason, PutU32;
      forall k | 0 <= k < |apppackets|
        ensures |apppackets[k]| >= 4 && apppackets[k][1] == RTCPTYPE_APP
      {
        var a := content.apps[k];
        ReadFramed(a.subtype, RTCPTYPE_APP, PutU32(a.ssrc) + (a.name + a.data));
      }
      forall k | 0 <= k < |byepackets|
        ensures |byepackets[k]| >= 4 && byepackets[k][1] == RTCPTYPE_BYE
      {
        var b := content.byes[k];
        ReadFramed(|b.ssrcs|, RTCPTYPE_BYE, WriteWords(b.ssrcs) + WriteReason(b.reason));
      }
    }

    method ClearBuildBuffers()
      modifies this`isSR, this`headerlength, this`reportblocks, this`sdessources, this`byepackets, this`byesize
      modifies this`apppackets, this`appsize, this`content, this`overfull
      ensures isSR == false && headerlength == 0 && reportblocks == [] && sdessources == []
      ensures byepackets == [] && byesize == 0 && apppackets == [] && appsize == 0 && content == NOTHING && !overfull
    {
      isSR, headerlength, reportblocks := false, 0, [];
      sdessources := [];
      byepackets, apppackets := [], [];
      byesize, appsize := 0, 0;
      content, overfull := NOTHING, false;
    }
  }

  /** The parser's list of packets for the buffer from EndBuild is the builder's own list, exactly when each 31 chunks
      fit the length field of a packet; they do in any compound packet of at most 2^18 octets. */
  lemma SentIsReceived(c: Content, built: seq<Packet>)
    requires Writable(c) && MadeFrom(built, Wire(c))
    ensures ParseFrom(Flatten(Wire(c)), true) == Parsed(built) <==> ChunksFit(c.chunks)
    ensures |Flatten(Wire(c))| <= MAX_PACKET ==> ChunksFit(c.chunks)
  {
    hide ParseFrom, Flatten, Wire, Writable, ChunksFit;
    ParsesIffFits(c);
    assert built == PacketsOf(Wire(c));
    if |Flatten(Wire(c))| <= MAX_PACKET {
      SmallPacketsFit(c);
    }
  }
}
