/** What a compound RTCP packet means for each source, told from its contents. */
module CompoundEffects {
  import opened Basics
  import opened Bytes
  import opened SourceState
  import opened SourceTable
  import opened SourceRuns
  import opened SourceReports
  import SdesFormat
  import RtcpFormat

  // ----- What the contents say about a source -----

  /** The packet is a report by this source, or has a chunk about it. */
  predicate Hears(c: RtcpFormat.Contents, ssrc: u32) {
    match c
    case SenderReport(reporter, _, _) => reporter == ssrc
    case ReceiverReport(reporter, _) => reporter == ssrc
    case Descriptions(chunks) => exists j :: 0 <= j < |chunks| && chunks[j].ssrc == ssrc
    case _ => false
  }

  predicate Heard(cs: seq<RtcpFormat.Contents>, ssrc: u32) {
    exists k :: 0 <= k < |cs| && Hears(cs[k], ssrc)
  }

  predicate Leaves(c: RtcpFormat.Contents, ssrc: u32) {
    c.Goodbye? && ssrc in c.bye.ssrcs
  }

  /** The reason in the last BYE of this source, if it says BYE at all. */
  function LastBye(cs: seq<RtcpFormat.Contents>, ssrc: u32): (r: Option<seq<byte>>)
    ensures r.Some? <==> exists k :: 0 <= k < |cs| && Leaves(cs[k], ssrc)
    decreases |cs|
  {
    if |cs| == 0 then None
    else if Leaves(cs[|cs| - 1], ssrc) then Some(cs[|cs| - 1].bye.reason)
    else LastBye(cs[..|cs| - 1], ssrc)
  }

  /** The numbers that section 12.2 of RFC 3550 gives to the items. */
  function WireNumber(kind: ItemId): byte {
    match kind
    case CNAME => 1
    case NAME => 2
    case EMAIL => 3
    case PHONE => 4
    case LOC => 5
    case TOOL => 6
    case NOTE => 7
  }

  /** The texts of the items of one kind, in order. */
  function ItemTexts(items: seq<SdesFormat.Item>, kind: ItemId): seq<seq<byte>>
    decreases |items|
  {
    if |items| == 0 then []
    else (if items[0].id == WireNumber(kind) then [items[0].value] else []) + ItemTexts(items[1..], kind)
  }

  /** The same from all the chunks about a source. */
  function ChunkTexts(chunks: seq<SdesFormat.Chunk>, ssrc: u32, kind: ItemId): seq<seq<byte>>
    decreases |chunks|
  {
    if |chunks| == 0 then []
    else
      (if chunks[0].ssrc == ssrc then ItemTexts(chunks[0].items, kind) else []) + ChunkTexts(chunks[1..], ssrc, kind)
  }

  function Texts(cs: seq<RtcpFormat.Contents>, ssrc: u32, kind: ItemId): seq<seq<byte>>
    decreases |cs|
  {
    if |cs| == 0 then []
    else (if cs[0].Descriptions? then ChunkTexts(cs[0].chunks, ssrc, kind) else []) + Texts(cs[1..], ssrc, kind)
  }

  // ----- What becomes of its entry -----

  /** The first text that is not empty. */
  function FirstText(ts: seq<seq<byte>>): seq<byte>
    decreases |ts|
  {
    if |ts| == 0 then [] else if ts[0] != [] then ts[0] else FirstText(ts[1..])
  }

  /** CNAME, name, e-mail and tool keep the first text; phone, location and note take the last. */
  function TextKept(kind: ItemId, text: seq<byte>, texts: seq<seq<byte>>): seq<byte> {
    if kind == PHONE || kind == LOC || kind == NOTE then ([text] + texts)[|texts|] else FirstText([text] + texts)
  }

  /** The text kept of one kind. A first CNAME validates, and a note leaves its time. */
  predicate Described(e: Source, x: Source, kind: ItemId, texts: seq<seq<byte>>, time: RTPTime) {
    && x.Item(kind) == TextKept(kind, e.Item(kind), texts)
    && (kind == CNAME ==> (x.validated <==> e.validated || (e.Item(CNAME) == [] && texts != [])))
    && (kind == NOTE ==> x.lastnotetime == if texts != [] then time else e.lastnotetime)
  }

  /** Nothing changes but what RTCP packets say. */
  predicate SameOtherwise(e: Source, x: Source) {
    && x.ssrc == e.ssrc && x.probationtype == e.probationtype && x.ownssrc == e.ownssrc && x.iscsrc == e.iscsrc
    && x.issender == e.issender && x.stats == e.stats && x.lastrtptime == e.lastrtptime && x.packetlist == e.packetlist
    && x.isrtpaddrset == e.isrtpaddrset && x.rtpaddr == e.rtpaddr && x.processedinrtcp == e.processedinrtcp
  }

  /** The sender's address is bound, what is heard leaves its time, and a BYE marks any source but our own. */
  predicate Marked(e: Source, x: Source, isown: bool, heard: bool, bye: Option<seq<byte>>, time: RTPTime,
          sender: Option<Address>) {
    && SameOtherwise(e, x) && x.isrtcpaddrset && x.rtcpaddr == sender
    && x.lastmsgtime == (if heard || (bye.Some? && !isown) then time else e.lastmsgtime)
    && (if bye.Some? && !isown then x.receivedbye && !x.IsActive() && x.byetime == time && x.byereason == bye.value
        else x.receivedbye == e.receivedbye && x.byetime == e.byetime && x.byereason == e.byereason)
  }

  /** The entry of a source, or the one it gets. */
  function Base(e: Option<Source>, ssrc: u32, probationtype: ProbationType): Source {
    match e case Some(s) => s case None => NewSource(ssrc, probationtype)
  }

  /** Nothing is said about a source, or its sender does not fit its addresses. */
  predicate Unmoved(e: Option<Source>, heard: bool, bye: Option<seq<byte>>, sender: Option<Address>) {
    (!heard && bye.None?) || (e.Some? && !Fits(e.value, sender, false))
  }

  /** The entry `x` of a source that had the entry `e`, after these contents. */
  ghost predicate Became(e: Option<Source>, x: Option<Source>, cs: seq<RtcpFormat.Contents>, ssrc: u32,
          probationtype: ProbationType, isown: bool, time: RTPTime, sender: Option<Address>) {
    if Unmoved(e, Heard(cs, ssrc), LastBye(cs, ssrc), sender) then x == e
    else
      && x.Some?
      && Marked(Base(e, ssrc, probationtype), x.value, isown, Heard(cs, ssrc), LastBye(cs, ssrc), time, sender)
      && forall kind: ItemId ::
           Described(Base(e, ssrc, probationtype), x.value, kind, Texts(cs, ssrc, kind), time)
  }

  // ----- The same from the events -----

  predicate HeardIn(es: seq<Event>, ssrc: u32) {
    exists i :: 0 <= i < |es| && es[i].Rtcp? && es[i].ssrc == ssrc && !es[i].change.Bye?
  }

  function ByeIn(e: Event, ssrc: u32): Option<seq<byte>> {
    if e.Rtcp? && e.ssrc == ssrc && e.change.Bye? then Some(e.change.reason) else None
  }

  function TextIn(e: Event, ssrc: u32, kind: ItemId): seq<seq<byte>> {
    if e.Rtcp? && e.ssrc == ssrc && e.change.Item? && e.change.id == kind then [e.change.data] else []
  }

  function LastByeIn(es: seq<Event>, ssrc: u32): Option<seq<byte>>
    decreases |es|
  {
    if |es| == 0 then None else Later(LastByeIn(es[..|es| - 1], ssrc), ByeIn(es[|es| - 1], ssrc))
  }

  function TextsIn(es: seq<Event>, ssrc: u32, kind: ItemId): seq<seq<byte>>
    decreases |es|
  {
    if |es| == 0 then [] else TextsIn(es[..|es| - 1], ssrc, kind) + TextIn(es[|es| - 1], ssrc, kind)
  }

  function Later<T>(a: Option<T>, b: Option<T>): Option<T> {
    if b.Some? then b else a
  }

  /** The events say this about a source, as far as items of one kind go. */
  predicate Say(es: seq<Event>, ssrc: u32, kind: ItemId, heard: bool, bye: Option<seq<byte>>, texts: seq<seq<byte>>) {
    HeardIn(es, ssrc) == heard && LastByeIn(es, ssrc) == bye && TextsIn(es, ssrc, kind) == texts
  }

  lemma SayNothing(ssrc: u32, kind: ItemId)
    ensures Say([], ssrc, kind, false, None, [])
  {}

  lemma SayBoth(a: seq<Event>, b: seq<Event>, ssrc: u32, kind: ItemId)
    ensures Say(a + b, ssrc, kind, HeardIn(a, ssrc) || HeardIn(b, ssrc), Later(LastByeIn(a, ssrc), LastByeIn(b, ssrc)),
                TextsIn(a, ssrc, kind) + TextsIn(b, ssrc, kind))
  {
    hide HeardIn, LastByeIn, TextsIn;
    HeardBoth(a, b, ssrc);
    ByeBoth(a, b, ssrc);
    TextsBoth(a, b, ssrc, kind);
  }

  lemma {:induction false} ByeBoth(a: seq<Event>, b: seq<Event>, ssrc: u32)
    ensures LastByeIn(a + b, ssrc) == Later(LastByeIn(a, ssrc), LastByeIn(b, ssrc))
    decreases |b|
  {
    hide ByeIn;
    if |b| == 0 {
      assert a + b == a;
    } else {
      ByeBoth(a, b[..|b| - 1], ssrc);
      assert (a + b)[..|a + b| - 1] == a + b[..|b| - 1];
    }
  }

  lemma {:induction false} TextsBoth(a: seq<Event>, b: seq<Event>, ssrc: u32, kind: ItemId)
    ensures TextsIn(a + b, ssrc, kind) == TextsIn(a, ssrc, kind) + TextsIn(b, ssrc, kind)
    decreases |b|
  {
    hide TextIn;
    if |b| == 0 {
      assert a + b == a;
    } else {
      TextsBoth(a, b[..|b| - 1], ssrc, kind);
      assert (a + b)[..|a + b| - 1] == a + b[..|b| - 1];
    }
  }

  lemma HeardBoth(a: seq<Event>, b: seq<Event>, ssrc: u32)
    ensures HeardIn(a + b, ssrc) <==> HeardIn(a, ssrc) || HeardIn(b, ssrc)
  {
    if HeardIn(a, ssrc) {
      var i :| 0 <= i < |a| && a[i].Rtcp? && a[i].ssrc == ssrc && !a[i].change.Bye?;
      assert (a + b)[i] == a[i];
    }
    if HeardIn(b, ssrc) {
      var i :| 0 <= i < |b| && b[i].Rtcp? && b[i].ssrc == ssrc && !b[i].change.Bye?;
      assert (a + b)[|a| + i] == b[i];
    }
  }

  lemma SayOne(e: Event, ssrc: u32, kind: ItemId)
    requires e.Rtcp?
    ensures Say([e], ssrc, kind, e.ssrc == ssrc && !e.change.Bye?, ByeIn(e, ssrc), TextIn(e, ssrc, kind))
  {
    assert [e][..0] == [];
    assert [e][0] == e;
  }

  // ----- What the operations that a packet leads to say -----

  lemma ItemSays(u: u32, i: SdesFormat.Item, time: RTPTime, sender: Option<Address>, ssrc: u32, kind: ItemId)
    requires !ItemStops(i)
    ensures Say(ItemOutcome(u, i, time, sender).events, ssrc, kind, u == ssrc, None,
                if u == ssrc && i.id == WireNumber(kind) then [i.value] else [])
    ensures ItemOutcome(u, i, time, sender).ok
  {
    hide Say;
    SayOne(ItemOutcome(u, i, time, sender).events[0], ssrc, kind);
  }

  lemma {:induction false} ItemsSay(u: u32, items: seq<SdesFormat.Item>, time: RTPTime, sender: Option<Address>,
          ssrc: u32, kind: ItemId)
    requires forall i :: 0 <= i < |items| ==> !ItemStops(items[i])
    ensures Say(ItemsOutcome(u, items, time, sender).events, ssrc, kind, u == ssrc && |items| > 0, None,
                if u == ssrc then ItemTexts(items, kind) else [])
    decreases |items|
  {
    hide ItemOutcome, WireNumber, ItemStops;
    if |items| == 0 {
      SayNothing(ssrc, kind);
    } else {
      ItemSays(u, items[0], time, sender, ssrc, kind);
      ItemsSay(u, items[1..], time, sender, ssrc, kind);
      SayBoth(ItemOutcome(u, items[0], time, sender).events, ItemsOutcome(u, items[1..], time, sender).events, ssrc,
              kind);
    }
  }

  lemma ChunkSays(c: SdesFormat.Chunk, time: RTPTime, sender: Option<Address>, ssrc: u32, kind: ItemId)
    requires !ChunkStops(c)
    ensures Say(ChunkOutcome(c, time, sender).events, ssrc, kind, c.ssrc == ssrc, None,
                if c.ssrc == ssrc then ItemTexts(c.items, kind) else [])
    ensures ChunkOutcome(c, time, sender).ok
  {
    hide ItemStops, ItemsOutcome, Say;
    ItemsStop(c.ssrc, c.items, time, sender);
    if |c.items| == 0 {
      SayOne(Rtcp(c.ssrc, Touch, time, sender), ssrc, kind);
    } else {
      ItemsSay(c.ssrc, c.items, time, sender, ssrc, kind);
    }
  }

  lemma {:induction false} ChunksSay(chunks: seq<SdesFormat.Chunk>, time: RTPTime, sender: Option<Address>, ssrc: u32,
          kind: ItemId)
    requires forall j :: 0 <= j < |chunks| ==> !ChunkStops(chunks[j])
    ensures Say(ChunksOutcome(chunks, time, sender).events, ssrc, kind,
                exists j :: 0 <= j < |chunks| && chunks[j].ssrc == ssrc, None, ChunkTexts(chunks, ssrc, kind))
    decreases |chunks|
  {
    hide ChunkOutcome, ItemTexts, ChunkStops;
    if |chunks| == 0 {
      SayNothing(ssrc, kind);
    } else {
      ChunkSays(chunks[0], time, sender, ssrc, kind);
      ChunksSay(chunks[1..], time, sender, ssrc, kind);
      SayBoth(ChunkOutcome(chunks[0], time, sender).events, ChunksOutcome(chunks[1..], time, sender).events, ssrc,
              kind);
      SomeChunk(chunks, ssrc);
    }
  }

  lemma SomeChunk(chunks: seq<SdesFormat.Chunk>, ssrc: u32)
    requires |chunks| > 0
    ensures (exists j :: 0 <= j < |chunks| && chunks[j].ssrc == ssrc)
       <==> chunks[0].ssrc == ssrc || exists j :: 0 <= j < |chunks[1..]| && chunks[1..][j].ssrc == ssrc
  {
    if j :| 0 <= j < |chunks[1..]| && chunks[1..][j].ssrc == ssrc {
      assert chunks[j + 1].ssrc == ssrc;
    }
    if j :| 0 < j < |chunks| && chunks[j].ssrc == ssrc {
      assert chunks[1..][j - 1].ssrc == ssrc;
    }
  }

  lemma {:induction false} ByesSay(ssrcs: seq<u32>, reason: seq<byte>, time: RTPTime, sender: Option<Address>,
          ssrc: u32, kind: ItemId)
    ensures Say(ByesOutcome(ssrcs, reason, time, sender).events, ssrc, kind, false,
                if ssrc in ssrcs then Some(reason) else None, [])
    decreases |ssrcs|
  {
    if |ssrcs| == 0 {
      SayNothing(ssrc, kind);
    } else {
      var e := Rtcp(ssrcs[0], Bye(reason), time, sender);
      SayOne(e, ssrc, kind);
      ByesSay(ssrcs[1..], reason, time, sender, ssrc, kind);
      SayBoth([e], ByesOutcome(ssrcs[1..], reason, time, sender).events, ssrc, kind);
      assert ssrcs == [ssrcs[0]] + ssrcs[1..];
    }
  }

  lemma {:induction false} BlocksSay(u: u32, blocks: seq<RtcpFormat.ReportBlock>, own: Option<u32>, time: RTPTime,
          sender: Option<Address>, ssrc: u32, kind: ItemId)
    ensures Say(BlocksOutcome(u, blocks, own, time, sender).events, ssrc, kind, u == ssrc && AboutUs(blocks, own), None,
                [])
    decreases |blocks|
  {
    if |blocks| == 0 {
      SayNothing(ssrc, kind);
    } else {
      hide AboutUs;
      BlocksSay(u, blocks[1..], own, time, sender, ssrc, kind);
      FirstOrRest(blocks, own);
      if own == Some(blocks[0].ssrc) {
        SayOne(Rtcp(u, Touch, time, sender), ssrc, kind);
        SayBoth([Rtcp(u, Touch, time, sender)], BlocksOutcome(u, blocks[1..], own, time, sender).events, ssrc, kind);
      }
    }
  }

  lemma FirstOrRest(blocks: seq<RtcpFormat.ReportBlock>, own: Option<u32>)
    requires |blocks| > 0
    ensures AboutUs(blocks, own) <==> own == Some(blocks[0].ssrc) || AboutUs(blocks[1..], own)
  {
    if AboutUs(blocks[1..], own) {
      var i :| 0 <= i < |blocks[1..]| && own == Some(blocks[1..][i].ssrc);
      assert own == Some(blocks[i + 1].ssrc);
    }
    if i :| 0 < i < |blocks| && own == Some(blocks[i].ssrc) {
      assert own == Some(blocks[1..][i - 1].ssrc);
    }
  }

  lemma ReportsSay(u: u32, blocks: seq<RtcpFormat.ReportBlock>, own: Option<u32>, time: RTPTime,
          sender: Option<Address>, ssrc: u32, kind: ItemId)
    ensures Say(ReportsOutcome(u, blocks, own, time, sender).events, ssrc, kind, u == ssrc, None, [])
  {
    hide AboutUs, Say;
    BlocksSay(u, blocks, own, time, sender, ssrc, kind);
    SayOne(Rtcp(u, Touch, time, sender), ssrc, kind);
  }

  lemma PacketSays(c: RtcpFormat.Contents, own: Option<u32>, time: RTPTime, sender: Option<Address>, ssrc: u32,
          kind: ItemId)
    requires !PacketStops(c)
    ensures Say(PacketOutcome(c, own, time, sender).events, ssrc, kind, Hears(c, ssrc), LastBye([c], ssrc),
                if c.Descriptions? then ChunkTexts(c.chunks, ssrc, kind) else [])
    ensures PacketOutcome(c, own, time, sender).ok
  {
    hide ChunksOutcome, ByesOutcome, ReportsOutcome, ChunkStops, Say;
    OneBye(c, ssrc);
    match c {
      case SenderReport(u, _, blocks) =>
        ReportsOnlyRtcp(u, blocks, own, time, sender);
        ReportsSay(u, blocks, own, time, sender, ssrc, kind);
        SenderSays(u, blocks, own, time, sender, ssrc, kind);
      case ReceiverReport(u, blocks) =>
        ReportsOnlyRtcp(u, blocks, own, time, sender);
        ReportsSay(u, blocks, own, time, sender, ssrc, kind);
      case Descriptions(chunks) =>
        ChunksStop(chunks, time, sender);
        ChunksSay(chunks, time, sender, ssrc, kind);
      case Goodbye(bye) =>
        ByesOnlyRtcp(bye.ssrcs, bye.reason, time, sender);
        ByesSay(bye.ssrcs, bye.reason, time, sender, ssrc, kind);
      case Application(_) => SayNothing(ssrc, kind);
      case Unrecognised => SayNothing(ssrc, kind);
    }
  }

  lemma OneBye(c: RtcpFormat.Contents, ssrc: u32)
    ensures LastBye([c], ssrc) == if Leaves(c, ssrc) then Some(c.bye.reason) else None
  {
    assert [c][0] == c;
  }

  lemma SenderSays(u: u32, blocks: seq<RtcpFormat.ReportBlock>, own: Option<u32>, time: RTPTime,
          sender: Option<Address>, ssrc: u32, kind: ItemId)
    requires Say(ReportsOutcome(u, blocks, own, time, sender).events, ssrc, kind, u == ssrc, None, [])
    ensures Say(Told(u, Touch, time, sender).Then(ReportsOutcome(u, blocks, own, time, sender)).events, ssrc, kind,
                u == ssrc, None, [])
  {
    hide ReportsOutcome;
    var e := Rtcp(u, Touch, time, sender);
    SayOne(e, ssrc, kind);
    SayBoth([e], ReportsOutcome(u, blocks, own, time, sender).events, ssrc, kind);
  }

  lemma {:induction false} LaterByes(cs: seq<RtcpFormat.Contents>, ssrc: u32)
    requires |cs| > 0
    ensures LastBye(cs, ssrc) == Later(LastBye([cs[0]], ssrc), LastBye(cs[1..], ssrc))
    decreases |cs|
  {
    OneBye(cs[0], ssrc);
    if |cs| > 1 {
      var init := cs[..|cs| - 1];
      LaterByes(init, ssrc);
      assert cs[1..][..|cs[1..]| - 1] == init[1..];
      assert cs[1..][|cs[1..]| - 1] == cs[|cs| - 1];
    } else {
      assert cs == [cs[0]];
    }
  }

  lemma HeardFirst(cs: seq<RtcpFormat.Contents>, ssrc: u32)
    requires |cs| > 0
    ensures Heard(cs, ssrc) <==> Hears(cs[0], ssrc) || Heard(cs[1..], ssrc)
  {
    hide Hears;
    if Heard(cs[1..], ssrc) {
      var k :| 0 <= k < |cs[1..]| && Hears(cs[1..][k], ssrc);
      assert Hears(cs[k + 1], ssrc);
    }
    if k :| 0 < k < |cs| && Hears(cs[k], ssrc) {
      assert Hears(cs[1..][k - 1], ssrc);
    }
  }

  /** A compound packet in which nothing stops leads to operations that say what its contents say. */
  lemma {:induction false} CompoundSays(cs: seq<RtcpFormat.Contents>, own: Option<u32>, time: RTPTime,
          sender: Option<Address>, ssrc: u32, kind: ItemId)
    requires forall k :: 0 <= k < |cs| ==> !PacketStops(cs[k])
    ensures Say(CompoundOutcome(cs, own, time, sender).events, ssrc, kind, Heard(cs, ssrc), LastBye(cs, ssrc),
                Texts(cs, ssrc, kind))
    decreases |cs|
  {
    hide PacketOutcome, PacketStops, Hears, LastBye, ChunkTexts;
    if |cs| == 0 {
      SayNothing(ssrc, kind);
      NoBye(ssrc);
    } else {
      PacketSays(cs[0], own, time, sender, ssrc, kind);
      CompoundSays(cs[1..], own, time, sender, ssrc, kind);
      SayBoth(PacketOutcome(cs[0], own, time, sender).events, CompoundOutcome(cs[1..], own, time, sender).events, ssrc,
              kind);
      LaterByes(cs, ssrc);
      HeardFirst(cs, ssrc);
    }
  }

  lemma NoBye(ssrc: u32)
    ensures LastBye([], ssrc) == None
  {}

  // ----- What the operations make of an entry -----

  lemma FirstTextSnoc(ts: seq<seq<byte>>, t: seq<byte>)
    ensures FirstText(ts + [t]) == if FirstText(ts) != [] then FirstText(ts) else t
    decreases |ts|
  {
    if |ts| > 0 {
      FirstTextSnoc(ts[1..], t);
      assert (ts + [t])[1..] == ts[1..] + [t];
    } else {
      assert ts + [t] == [t];
      assert FirstText([t][1..]) == [];
    }
  }

  lemma FirstTextHead(t: seq<byte>, ts: seq<seq<byte>>)
    ensures t != [] ==> FirstText([t] + ts) == t
    ensures t == [] && ts == [] ==> FirstText([t] + ts) == []
  {
    assert ([t] + ts)[1..] == ts;
  }

  /** An operation on an entry whose sender fits. */
  function Taken(x: Source, c: Change, isown: bool, time: RTPTime): Source {
    if c.Bye? && isown then x else Changed(x, c, time)
  }

  lemma TakenIs(x: Source, c: Change, isown: bool, time: RTPTime)
    ensures Taken(x, c, isown, time) == if c.Bye? && isown then x else Changed(x, c, time)
  {}

  lemma MarkedNext(e: Source, x: Source, isown: bool, heard: bool, bye: Option<seq<byte>>, c: Change, time: RTPTime,
          sender: Option<Address>)
    requires Marked(e, x, isown, heard, bye, time, sender)
    ensures Marked(e, Taken(x, c, isown, time), isown, heard || !c.Bye?,
                   Later(bye, if c.Bye? then Some(c.reason) else None), time, sender)
  {
    hide Takes;
  }

  lemma KeptNext(kind: ItemId, text: seq<byte>, texts: seq<seq<byte>>, data: seq<byte>)
    ensures var kept := TextKept(kind, text, texts);
            TextKept(kind, text, texts + [data]) == if Once(kind) && kept != [] then kept else data
  {
    hide FirstText;
    FirstTextSnoc([text] + texts, data);
    assert [text] + texts + [data] == [text] + (texts + [data]);
  }

  lemma KeptFirst(text: seq<byte>, texts: seq<seq<byte>>)
    ensures text != [] ==> TextKept(CNAME, text, texts) == text
    ensures text == [] && texts == [] ==> TextKept(CNAME, text, texts) == []
  {
    FirstTextHead(text, texts);
  }

  lemma DescribedNext(e: Source, x: Source, kind: ItemId, texts: seq<seq<byte>>, c: Change, isown: bool, time: RTPTime)
    requires Described(e, x, kind, texts, time)
    ensures Described(e, Taken(x, c, isown, time), kind,
                      texts + (if c.Item? && c.id == kind then [c.data] else []), time)
  {
    hide TextKept, Takes, WithItem, Taken, WithBye, Source.Item;
    TakenIs(x, c, isown, time);
    if c.Item? {
      ItemSettles(x, c.id, c.data, time, kind);
      ItemStamps(x, c.id, c.data, time);
      if c.id == kind {
        KeptNext(kind, e.Item(kind), texts, c.data);
        KeptFirst(e.Item(CNAME), texts);
      } else {
        assert texts + [] == texts;
      }
    } else {
      SameItems(x, c, isown, time);
      SameItem(x, Taken(x, c, isown, time), kind);
      assert texts + [] == texts;
    }
  }

  lemma ItemStamps(x: Source, id: ItemId, data: seq<byte>, time: RTPTime)
    ensures WithItem(x, id, data, time).0.lastnotetime == if id == NOTE then time else x.lastnotetime
  {
    hide Takes;
  }

  lemma SameItem(x: Source, y: Source, kind: ItemId)
    requires x.items == y.items
    ensures x.Item(kind) == y.Item(kind)
  {}

  lemma SameItems(x: Source, c: Change, isown: bool, time: RTPTime)
    requires !c.Item?
    ensures var y := Taken(x, c, isown, time);
            y.items == x.items && y.validated == x.validated && y.lastnotetime == x.lastnotetime
  {
    hide Taken, Changed;
    TakenIs(x, c, isown, time);
    ChangedItems(x, c, time);
  }

  lemma ChangedItems(x: Source, c: Change, time: RTPTime)
    requires !c.Item?
    ensures var y := Changed(x, c, time);
            y.items == x.items && y.validated == x.validated && y.lastnotetime == x.lastnotetime
  {
    hide WithItem, WithBye;
    if c.Bye? {
      ByeItems(x, c.reason, time);
    }
  }

  lemma ByeItems(x: Source, reason: seq<byte>, time: RTPTime)
    ensures var y := WithBye(x, reason, time);
            y.items == x.items && y.validated == x.validated && y.lastnotetime == x.lastnotetime
  {}

  // ----- What they make of the table -----

  /** What one operation makes of the entry of its source. */
  function OneTold(e: Option<Source>, ssrc: u32, probationtype: ProbationType, c: Change, isown: bool, time: RTPTime,
          sender: Option<Address>): Option<Source> {
    match Checked(Base(e, ssrc, probationtype), sender, false)
    case None => e
    case Some(x) => Some(Taken(x, c, isown, time))
  }

  lemma EntryReplaced(es: seq<Source>, k: nat, x: Source, ssrc: u32)
    requires k < |es| && x.ssrc == es[k].ssrc && Find(es, x.ssrc) == k
    ensures EntryOf(es[k := x], ssrc) == if ssrc == x.ssrc then Some(x) else EntryOf(es, ssrc)
  {
    FindUpdated(es, k, x, ssrc);
  }

  lemma ObtainedEntries(t: Table, u: u32, ssrc: u32)
    ensures EntryOf(Obtained(t, u).entries, ssrc)
         == if ssrc == u then Some(Base(EntryOf(t.entries, u), u, t.probationtype)) else EntryOf(t.entries, ssrc)
    ensures Find(Obtained(t, u).entries, u) == Find(t.entries, u) < |Obtained(t, u).entries|
    ensures Obtained(t, u).entries[Find(t.entries, u)] == Base(EntryOf(t.entries, u), u, t.probationtype)
  {
    if !Has(t.entries, u) {
      FindAppended(t.entries, NewSource(u, t.probationtype), ssrc);
      FindAppended(t.entries, NewSource(u, t.probationtype), u);
    }
  }

  lemma CheckedSsrc(e: Source, sender: Option<Address>)
    ensures Checked(e, sender, false).Some? ==> Checked(e, sender, false).value.ssrc == e.ssrc
  {}

  lemma TakenSsrc(x: Source, c: Change, isown: bool, time: RTPTime)
    ensures Taken(x, c, isown, time).ssrc == x.ssrc
  {
    hide WithItem, Source.Item, Takes;
    if c.Item? {
      ItemSsrc(x, c.id, c.data, time);
    }
  }

  lemma ItemSsrc(x: Source, id: ItemId, data: seq<byte>, time: RTPTime)
    ensures WithItem(x, id, data, time).0.ssrc == x.ssrc
  {
    hide Takes, Source.Item;
  }

  lemma RtcpBySource(t: Table, u: u32, c: Change, time: RTPTime, sender: Option<Address>, ssrc: u32)
    ensures var after := WithRtcp(t, u, c, time, sender);
            && after.probationtype == t.probationtype
            && EntryOf(after.entries, ssrc)
               == if ssrc != u then EntryOf(t.entries, ssrc)
                  else OneTold(EntryOf(t.entries, u), u, t.probationtype, c, t.own == Some(u), time, sender)
  {
    hide Checked, Find, EntryOf, Obtained, Replaced, Changed, Base, Taken;
    var o, k := Obtained(t, u), Find(t.entries, u);
    ObtainedEntries(t, u, ssrc);
    ObtainedSame(t, u);
    CheckedSsrc(o.entries[k], sender);
    if Checked(o.entries[k], sender, false).Some? {
      var x := Checked(o.entries[k], sender, false).value;
      TakenSsrc(x, c, t.own == Some(u), time);
      TakenIs(x, c, t.own == Some(u), time);
      ReplacedFrame(o, k, Taken(x, c, t.own == Some(u), time));
      EntryReplaced(o.entries, k, Taken(x, c, t.own == Some(u), time), ssrc);
    }
  }

  lemma ObtainedSame(t: Table, u: u32)
    ensures Obtained(t, u).probationtype == t.probationtype
    ensures Obtained(t, u).entries[Find(t.entries, u)].ssrc == u
  {
    if Has(t.entries, u) {
      assert t.entries[Find(t.entries, u)].ssrc == u;
    }
  }

  /** The entry `x` of a source that had the entry `e`, after these events. */
  ghost predicate BecameBy(e: Option<Source>, x: Option<Source>, es: seq<Event>, ssrc: u32,
          probationtype: ProbationType, isown: bool, time: RTPTime, sender: Option<Address>) {
    if Unmoved(e, HeardIn(es, ssrc), LastByeIn(es, ssrc), sender) then x == e
    else
      && x.Some?
      && Marked(Base(e, ssrc, probationtype), x.value, isown, HeardIn(es, ssrc), LastByeIn(es, ssrc), time, sender)
      && forall kind: ItemId ::
           Described(Base(e, ssrc, probationtype), x.value, kind, TextsIn(es, ssrc, kind), time)
  }

  /** Binding the address, and nothing said yet. */
  lemma BoundOnly(e: Source, isown: bool, time: RTPTime, sender: Option<Address>, kind: ItemId)
    requires Checked(e, sender, false).Some?
    ensures var x := Checked(e, sender, false).value;
            Marked(e, x, isown, false, None, time, sender) && Described(e, x, kind, [], time)
  {
    FirstTextHead(e.Item(kind), []);
    assert [e.Item(kind)] + [] == [e.Item(kind)];
  }

  lemma AlreadyBound(e: Source, x: Source, isown: bool, heard: bool, bye: Option<seq<byte>>, time: RTPTime,
          sender: Option<Address>)
    requires Marked(e, x, isown, heard, bye, time, sender)
    ensures Checked(x, sender, false) == Some(x)
  {}

  lemma {:induction false} NoTexts(es: seq<Event>, ssrc: u32, kind: ItemId)
    requires !HeardIn(es, ssrc)
    ensures TextsIn(es, ssrc, kind) == []
    decreases |es|
  {
    if |es| > 0 {
      assert !(es[|es| - 1].Rtcp? && es[|es| - 1].ssrc == ssrc && !es[|es| - 1].change.Bye?);
      var init := es[..|es| - 1];
      assert forall i :: 0 <= i < |init| ==> init[i] == es[i];
      NoTexts(init, ssrc, kind);
    }
  }

  lemma SayNext(es: seq<Event>, ssrc: u32, kind: ItemId)
    requires |es| > 0 && es[|es| - 1].Rtcp?
    ensures var init, e := es[..|es| - 1], es[|es| - 1];
            && (HeardIn(es, ssrc) <==> HeardIn(init, ssrc) || (e.ssrc == ssrc && !e.change.Bye?))
            && LastByeIn(es, ssrc) == Later(LastByeIn(init, ssrc), ByeIn(e, ssrc))
            && TextsIn(es, ssrc, kind) == TextsIn(init, ssrc, kind) + TextIn(e, ssrc, kind)
  {
    hide LastByeIn, TextsIn, HeardIn;
    var init, e := es[..|es| - 1], es[|es| - 1];
    assert es == init + [e];
    SayBoth(init, [e], ssrc, kind);
    SayOne(e, ssrc, kind);
  }

  /** Told to an entry that its sender fits, or that is new: the first time. */
  lemma FirstTold(e: Option<Source>, ssrc: u32, probationtype: ProbationType, c: Change, isown: bool, time: RTPTime,
          sender: Option<Address>, kind: ItemId)
    requires e.Some? ==> Bound(e.value) && Fits(e.value, sender, false)
    ensures var x := OneTold(e, ssrc, probationtype, c, isown, time, sender);
            && x.Some?
            && Marked(Base(e, ssrc, probationtype), x.value, isown, !c.Bye?, if c.Bye? then Some(c.reason) else None,
                      time, sender)
            && Described(Base(e, ssrc, probationtype), x.value, kind,
                         if c.Item? && c.id == kind then [c.data] else [], time)
  {
    hide Checked, Fits, Bound, Marked, Described, Taken;
    var b := Base(e, ssrc, probationtype);
    FreshFits(ssrc, probationtype, sender);
    if e.Some? {
      CheckedBinds(b, sender, false);
    }
    BoundOnly(b, isown, time, sender, kind);
    var y := Checked(b, sender, false).value;
    MarkedNext(b, y, isown, false, None, c, time, sender);
    DescribedNext(b, y, kind, [], c, isown, time);
    assert [] + (if c.Item? && c.id == kind then [c.data] else []) == if c.Item? && c.id == kind then [c.data] else [];
  }

  lemma FreshFits(ssrc: u32, probationtype: ProbationType, sender: Option<Address>)
    ensures Checked(NewSource(ssrc, probationtype), sender, false).Some?
  {}

  /** The next operation. */
  lemma BecomesNext(e: Option<Source>, x: Option<Source>, es: seq<Event>, ssrc: u32, probationtype: ProbationType,
          isown: bool, time: RTPTime, sender: Option<Address>)
    requires |es| > 0 && es[|es| - 1].Rtcp? && es[|es| - 1].time == time && es[|es| - 1].sender == sender
    requires e.Some? ==> Bound(e.value)
    requires BecameBy(e, x, es[..|es| - 1], ssrc, probationtype, isown, time, sender)
    ensures var c, named := es[|es| - 1].change, es[|es| - 1].ssrc == ssrc;
            BecameBy(e, if named then OneTold(x, ssrc, probationtype, c, isown, time, sender) else x, es, ssrc,
                     probationtype, isown, time, sender)
  {
    hide HeardIn, LastByeIn, TextsIn, Fits, Bound, Marked, Described, OneTold;
    var init, c := es[..|es| - 1], es[|es| - 1].change;
    forall kind: ItemId
      ensures TextsIn(es, ssrc, kind) == TextsIn(init, ssrc, kind) + TextIn(es[|es| - 1], ssrc, kind)
    {
      SayNext(es, ssrc, kind);
    }
    SayNext(es, ssrc, CNAME);
    if es[|es| - 1].ssrc != ssrc {
      forall kind: ItemId
        ensures TextsIn(es, ssrc, kind) == TextsIn(init, ssrc, kind)
      {}
    } else if e.Some? && !Fits(e.value, sender, false) {
      Refused(e.value, ssrc, probationtype, c, isown, time, sender);
    } else if Unmoved(e, HeardIn(init, ssrc), LastByeIn(init, ssrc), sender) {
      FirstTold(e, ssrc, probationtype, c, isown, time, sender, CNAME);
      var y := OneTold(e, ssrc, probationtype, c, isown, time, sender).value;
      forall kind: ItemId
        ensures Described(Base(e, ssrc, probationtype), y, kind, TextsIn(es, ssrc, kind), time)
      {
        NoTexts(init, ssrc, kind);
        FirstTold(e, ssrc, probationtype, c, isown, time, sender, kind);
        assert TextsIn(es, ssrc, kind) == if c.Item? && c.id == kind then [c.data] else [];
      }
    } else {
      var b := Base(e, ssrc, probationtype);
      ToldAgain(b, x.value, ssrc, probationtype, isown, HeardIn(init, ssrc), LastByeIn(init, ssrc), c, time, sender);
      forall kind: ItemId
        ensures Described(b, OneTold(x, ssrc, probationtype, c, isown, time, sender).value, kind,
                          TextsIn(es, ssrc, kind), time)
      {
        DescribedNext(b, x.value, kind, TextsIn(init, ssrc, kind), c, isown, time);
      }
    }
  }

  lemma Refused(e: Source, ssrc: u32, probationtype: ProbationType, c: Change, isown: bool, time: RTPTime,
          sender: Option<Address>)
    requires Bound(e) && !Fits(e, sender, false)
    ensures OneTold(Some(e), ssrc, probationtype, c, isown, time, sender) == Some(e)
  {
    CheckedBinds(e, sender, false);
  }

  lemma ToldAgain(b: Source, x: Source, ssrc: u32, probationtype: ProbationType, isown: bool, heard: bool,
          bye: Option<seq<byte>>, c: Change, time: RTPTime, sender: Option<Address>)
    requires Marked(b, x, isown, heard, bye, time, sender)
    ensures OneTold(Some(x), ssrc, probationtype, c, isown, time, sender) == Some(Taken(x, c, isown, time))
    ensures Marked(b, Taken(x, c, isown, time), isown, heard || !c.Bye?,
                   Later(bye, if c.Bye? then Some(c.reason) else None), time, sender)
  {
    hide Marked, Checked, Taken;
    AlreadyBound(b, x, isown, heard, bye, time, sender);
    MarkedNext(b, x, isown, heard, bye, c, time, sender);
  }

  lemma {:induction false} RunBecomes(t: Table, es: seq<Event>, ssrc: u32, time: RTPTime, sender: Option<Address>)
    requires Inv(t) && OnlyRtcp(es, time, sender)
    ensures var u := Run(t, es);
            && u.own == t.own && u.probationtype == t.probationtype
            && BecameBy(EntryOf(t.entries, ssrc), EntryOf(u.entries, ssrc), es, ssrc, t.probationtype,
                        t.own == Some(ssrc), time, sender)
    decreases |es|
  {
    hide Inv, WithRtcp, EntryOf, BecameBy, OneTold;
    if |es| == 0 {
      NothingBecame(EntryOf(t.entries, ssrc), ssrc, t.probationtype, t.own == Some(ssrc), time, sender);
    } else {
      var n := |es| - 1;
      var u, e := Run(t, es[..n]), es[n];
      RunBecomes(t, es[..n], ssrc, time, sender);
      RtcpRunKeeps(t, es[..n], time, sender);
      OwnSame(u, e.ssrc, e.change, time, sender);
      RtcpBySource(u, e.ssrc, e.change, time, sender, ssrc);
      EntryIsBound(t, ssrc);
      BecomesNext(EntryOf(t.entries, ssrc), EntryOf(u.entries, ssrc), es, ssrc, t.probationtype, t.own == Some(ssrc),
                  time, sender);
    }
  }

  lemma NothingBecame(e: Option<Source>, ssrc: u32, probationtype: ProbationType, isown: bool, time: RTPTime,
          sender: Option<Address>)
    ensures BecameBy(e, e, [], ssrc, probationtype, isown, time, sender)
  {}

  lemma OwnSame(t: Table, u: u32, c: Change, time: RTPTime, sender: Option<Address>)
    requires Inv(t)
    ensures WithRtcp(t, u, c, time, sender).own == t.own
  {
    RtcpKeeps(t, u, c, time, sender);
  }

  lemma EntryIsBound(t: Table, ssrc: u32)
    requires Inv(t)
    ensures EntryOf(t.entries, ssrc).Some? ==> Bound(EntryOf(t.entries, ssrc).value)
  {
    var k := Find(t.entries, ssrc);
    if k < |t.entries| {
      assert EntryOk(t.entries[k], t.own);
    }
  }

  /** A compound packet in which nothing stops: what it makes of each source is what its contents say of it. */
  lemma WholeBecomes(t: Table, cs: seq<RtcpFormat.Contents>, time: RTPTime, sender: Option<Address>, ssrc: u32)
    requires Inv(t) && forall k :: 0 <= k < |cs| ==> !PacketStops(cs[k])
    ensures var u := Run(t, CompoundOutcome(cs, t.own, time, sender).events);
            Became(EntryOf(t.entries, ssrc), EntryOf(u.entries, ssrc), cs, ssrc, t.probationtype, t.own == Some(ssrc),
                   time, sender)
  {
    hide Inv, Run, CompoundOutcome, EntryOf, Heard, HeardIn, LastBye, LastByeIn, Texts, TextsIn, Marked, Described,
         PacketStops, Unmoved, Base;
    var es := CompoundOutcome(cs, t.own, time, sender).events;
    CompoundOnlyRtcp(cs, t.own, time, sender);
    RunBecomes(t, es, ssrc, time, sender);
    forall kind: ItemId
      ensures TextsIn(es, ssrc, kind) == Texts(cs, ssrc, kind)
    {
      CompoundSays(cs, t.own, time, sender, ssrc, kind);
    }
    CompoundSays(cs, t.own, time, sender, ssrc, CNAME);
  }

  // ----- Up to where processing stops -----

  /** The items before the first that is neither private nor of one of the seven kinds. */
  function ItemsUntil(items: seq<SdesFormat.Item>): seq<SdesFormat.Item>
    decreases |items|
  {
    if |items| == 0 || !(1 <= items[0].id <= 8) then [] else [items[0]] + ItemsUntil(items[1..])
  }

  predicate AllKnown(items: seq<SdesFormat.Item>) {
    forall i :: 0 <= i < |items| ==> 1 <= items[i].id <= 8
  }

  /** The chunks up to such an item; the chunk it is in says nothing when it is the first there. */
  function ChunksUntil(chunks: seq<SdesFormat.Chunk>): seq<SdesFormat.Chunk>
    decreases |chunks|
  {
    if |chunks| == 0 then []
    else
      var c := chunks[0];
      if AllKnown(c.items) then [c] + ChunksUntil(chunks[1..])
      else if ItemsUntil(c.items) == [] then []
      else [c.(items := ItemsUntil(c.items))]
  }

  predicate KnownChunks(chunks: seq<SdesFormat.Chunk>) {
    forall j :: 0 <= j < |chunks| ==> AllKnown(chunks[j].items)
  }

  /** The contents up to there. */
  function Until(cs: seq<RtcpFormat.Contents>): seq<RtcpFormat.Contents>
    decreases |cs|
  {
    if |cs| == 0 then []
    else if cs[0].Descriptions? && !KnownChunks(cs[0].chunks) then [RtcpFormat.Descriptions(ChunksUntil(cs[0].chunks))]
    else [cs[0]] + Until(cs[1..])
  }

  lemma KnownItem(i: SdesFormat.Item)
    ensures ItemStops(i) <==> !(1 <= i.id <= 8)
  {}

  lemma KnownChunk(c: SdesFormat.Chunk)
    ensures ChunkStops(c) <==> !AllKnown(c.items)
  {
    hide ItemStops;
    forall i | 0 <= i < |c.items|
      ensures ItemStops(c.items[i]) <==> !(1 <= c.items[i].id <= 8)
    {
      KnownItem(c.items[i]);
    }
  }

  lemma KnownPacket(c: RtcpFormat.Contents)
    ensures PacketStops(c) <==> c.Descriptions? && !KnownChunks(c.chunks)
  {
    hide ChunkStops, AllKnown;
    if c.Descriptions? {
      forall j | 0 <= j < |c.chunks|
        ensures ChunkStops(c.chunks[j]) <==> !AllKnown(c.chunks[j].items)
      {
        KnownChunk(c.chunks[j]);
      }
    }
  }

  lemma {:induction false} ItemsStopThere(u: u32, items: seq<SdesFormat.Item>, time: RTPTime, sender: Option<Address>)
    ensures AllKnown(ItemsUntil(items)) && (AllKnown(items) ==> ItemsUntil(items) == items)
    ensures ItemsOutcome(u, items, time, sender).events == ItemsOutcome(u, ItemsUntil(items), time, sender).events
    ensures ItemsOutcome(u, items, time, sender).ok <==> AllKnown(items)
    decreases |items|
  {
    hide ItemOutcome;
    if |items| > 0 {
      KnownItem(items[0]);
      OneItem(u, items[0], time, sender);
      if 1 <= items[0].id <= 8 {
        ItemsStopThere(u, items[1..], time, sender);
        var us := ItemsUntil(items);
        assert us[1..] == ItemsUntil(items[1..]);
        assert forall i :: 0 < i < |items| ==> items[i] == items[1..][i - 1];
      }
    }
  }

  lemma OneItem(u: u32, i: SdesFormat.Item, time: RTPTime, sender: Option<Address>)
    ensures ItemOutcome(u, i, time, sender).ok <==> 1 <= i.id <= 8
    ensures !(1 <= i.id <= 8) ==> ItemOutcome(u, i, time, sender).events == []
  {}

  lemma ChunkStopsThere(c: SdesFormat.Chunk, time: RTPTime, sender: Option<Address>)
    ensures ChunkOutcome(c, time, sender).ok <==> AllKnown(c.items)
    ensures !AllKnown(c.items) ==>
              var us := ItemsUntil(c.items);
              && AllKnown(us)
              && ChunkOutcome(c, time, sender).events
                 == if us == [] then [] else ChunkOutcome(c.(items := us), time, sender).events
  {
    hide ItemOutcome, AllKnown, ItemsUntil;
    ItemsStopThere(c.ssrc, c.items, time, sender);
  }

  lemma OneChunk(c: SdesFormat.Chunk, time: RTPTime, sender: Option<Address>)
    ensures ChunksOutcome([c], time, sender).events == ChunkOutcome(c, time, sender).events
  {
    hide ChunkOutcome;
    assert [c][1..] == [];
    var o := ChunkOutcome(c, time, sender);
    assert o.events + [] == o.events;
  }

  lemma {:induction false} ChunksStopThere(chunks: seq<SdesFormat.Chunk>, time: RTPTime, sender: Option<Address>)
    ensures KnownChunks(ChunksUntil(chunks)) && (KnownChunks(chunks) ==> ChunksUntil(chunks) == chunks)
    ensures ChunksOutcome(chunks, time, sender).events == ChunksOutcome(ChunksUntil(chunks), time, sender).events
    ensures ChunksOutcome(chunks, time, sender).ok <==> KnownChunks(chunks)
    decreases |chunks|
  {
    hide ChunkOutcome, AllKnown, ItemsUntil;
    if |chunks| > 0 {
      var c := chunks[0];
      ChunkStopsThere(c, time, sender);
      if AllKnown(c.items) {
        ChunksStopThere(chunks[1..], time, sender);
        assert ChunksUntil(chunks)[1..] == ChunksUntil(chunks[1..]);
        assert forall j :: 0 < j < |chunks| ==> chunks[j] == chunks[1..][j - 1];
      } else if ItemsUntil(c.items) != [] {
        OneChunk(c.(items := ItemsUntil(c.items)), time, sender);
      }
    }
  }

  lemma OnePacket(c: RtcpFormat.Contents, own: Option<u32>, time: RTPTime, sender: Option<Address>)
    ensures CompoundOutcome([c], own, time, sender) == PacketOutcome(c, own, time, sender)
  {
    hide PacketOutcome;
    assert [c][1..] == [];
    var o := PacketOutcome(c, own, time, sender);
    assert o.events + [] == o.events;
  }

  lemma StoppedPacket(c: RtcpFormat.Contents, own: Option<u32>, time: RTPTime, sender: Option<Address>)
    requires c.Descriptions? && !KnownChunks(c.chunks)
    ensures !PacketOutcome(c, own, time, sender).ok && KnownChunks(ChunksUntil(c.chunks))
    ensures CompoundOutcome([RtcpFormat.Descriptions(ChunksUntil(c.chunks))], own, time, sender).events
         == PacketOutcome(c, own, time, sender).events
  {
    hide ChunksOutcome, ChunksUntil, KnownChunks;
    ChunksStopThere(c.chunks, time, sender);
    OnePacket(RtcpFormat.Descriptions(ChunksUntil(c.chunks)), own, time, sender);
  }

  lemma GoingPacket(c: RtcpFormat.Contents, own: Option<u32>, time: RTPTime, sender: Option<Address>)
    requires !PacketStops(c)
    ensures PacketOutcome(c, own, time, sender).ok
  {
    hide PacketStops, PacketOutcome, Say;
    PacketSays(c, own, time, sender, 0, CNAME);
  }

  /** What is processed is the contents up to where it stops, in which nothing stops. */
  lemma {:induction false} CompoundStopsThere(cs: seq<RtcpFormat.Contents>, own: Option<u32>, time: RTPTime,
          sender: Option<Address>)
    ensures forall k :: 0 <= k < |Until(cs)| ==> !PacketStops(Until(cs)[k])
    ensures CompoundOutcome(cs, own, time, sender).events == CompoundOutcome(Until(cs), own, time, sender).events
    ensures CompoundOutcome(cs, own, time, sender).ok <==> Until(cs) == cs
    decreases |cs|
  {
    hide PacketOutcome, PacketStops, KnownChunks, ChunksUntil;
    if |cs| > 0 {
      var c := cs[0];
      KnownPacket(c);
      if PacketStops(c) {
        StoppedPacket(c, own, time, sender);
        KnownPacket(RtcpFormat.Descriptions(ChunksUntil(c.chunks)));
      } else {
        GoingPacket(c, own, time, sender);
        CompoundStopsThere(cs[1..], own, time, sender);
        var us := Until(cs);
        assert us[1..] == Until(cs[1..]);
        assert forall k :: 0 < k < |us| ==> us[k] == us[1..][k - 1];
        if Until(cs[1..]) == cs[1..] {
          assert us == cs;
        } else {
          assert us[1..] != cs[1..];
        }
      }
    }
  }

  /** What any compound packet makes of each source is what its contents, up to where processing stops, say of it; and
      the active count follows the entries. */
  ghost predicate TableBecame(t: Table, u: Table, cs: seq<RtcpFormat.Contents>, time: RTPTime,
          sender: Option<Address>) {
    && u.activecount - t.activecount == CountActive(u.entries) - CountActive(t.entries)
    && forall ssrc: u32 ::
         Became(EntryOf(t.entries, ssrc), EntryOf(u.entries, ssrc), Until(cs), ssrc, t.probationtype,
                t.own == Some(ssrc), time, sender)
  }

  lemma CompoundBecomes(t: Table, cs: seq<RtcpFormat.Contents>, time: RTPTime, sender: Option<Address>)
    requires Inv(t)
    ensures TableBecame(t, Run(t, CompoundOutcome(cs, t.own, time, sender).events), cs, time, sender)
    ensures CompoundOutcome(cs, t.own, time, sender).ok <==> Until(cs) == cs
  {
    hide Inv, Run, CompoundOutcome, EntryOf, Became, PacketStops, Until, CountActive;
    CompoundStopsThere(cs, t.own, time, sender);
    CompoundKeeps(t, cs, time, sender);
    var u := Run(t, CompoundOutcome(cs, t.own, time, sender).events);
    forall ssrc: u32
      ensures Became(EntryOf(t.entries, ssrc), EntryOf(u.entries, ssrc), Until(cs), ssrc, t.probationtype,
                     t.own == Some(ssrc), time, sender)
    {
      WholeBecomes(t, Until(cs), time, sender, ssrc);
    }
  }
}
