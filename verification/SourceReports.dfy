/** What a compound RTCP packet does to the table of sources. */
module SourceReports {
  import opened Basics
  import opened Bytes
  import opened SourceState
  import opened SourceTable
  import opened SourceRuns
  import SdesFormat
  import RtcpFormat

  /** The items that the table keeps, by their number on the wire. */
  function KindOf(id: byte): Option<ItemId> {
    match id
    case 1 => Some(CNAME)
    case 2 => Some(NAME)
    case 3 => Some(EMAIL)
    case 4 => Some(PHONE)
    case 5 => Some(LOC)
    case 6 => Some(TOOL)
    case 7 => Some(NOTE)
    case _ => None
  }

  /** The operations that a packet leads to, and whether processing goes on after them. */
  datatype Outcome = Outcome(events: seq<Event>, ok: bool) {
    function Then(next: Outcome): Outcome {
      if ok then Outcome(events + next.events, next.ok) else this
    }
  }

  const NOTHING_DONE := Outcome([], true)

  function Told(ssrc: u32, c: Change, time: RTPTime, sender: Option<Address>): Outcome {
    Outcome([Rtcp(ssrc, c, time, sender)], true)
  }

  /** A private item only says that the source is there; an item of unknown number stops the whole compound packet. */
  function ItemOutcome(ssrc: u32, i: SdesFormat.Item, time: RTPTime, sender: Option<Address>): Outcome {
    if i.id == SdesFormat.SDES_ID_PRIVATE then Told(ssrc, Touch, time, sender)
    else
      match KindOf(i.id)
      case None => Outcome([], false)
      case Some(kind) => Told(ssrc, Item(kind, i.value), time, sender)
  }

  function ItemsOutcome(ssrc: u32, items: seq<SdesFormat.Item>, time: RTPTime, sender: Option<Address>): Outcome
    decreases |items|
  {
    if |items| == 0 then NOTHING_DONE
    else ItemOutcome(ssrc, items[0], time, sender).Then(ItemsOutcome(ssrc, items[1..], time, sender))
  }

  function ChunkOutcome(c: SdesFormat.Chunk, time: RTPTime, sender: Option<Address>): Outcome {
    if |c.items| == 0 then Told(c.ssrc, Touch, time, sender) else ItemsOutcome(c.ssrc, c.items, time, sender)
  }

  function ChunksOutcome(cs: seq<SdesFormat.Chunk>, time: RTPTime, sender: Option<Address>): Outcome
    decreases |cs|
  {
    if |cs| == 0 then NOTHING_DONE else ChunkOutcome(cs[0], time, sender).Then(ChunksOutcome(cs[1..], time, sender))
  }

  function ByesOutcome(ssrcs: seq<u32>, reason: seq<byte>, time: RTPTime, sender: Option<Address>): Outcome
    decreases |ssrcs|
  {
    if |ssrcs| == 0 then NOTHING_DONE
    else Told(ssrcs[0], Bye(reason), time, sender).Then(ByesOutcome(ssrcs[1..], reason, time, sender))
  }

  /** The report blocks about us. */
  function BlocksOutcome(ssrc: u32, blocks: seq<RtcpFormat.ReportBlock>, own: Option<u32>, time: RTPTime,
          sender: Option<Address>): Outcome
    decreases |blocks|
  {
    if |blocks| == 0 then NOTHING_DONE
    else
      var rest := BlocksOutcome(ssrc, blocks[1..], own, time, sender);
      if own == Some(blocks[0].ssrc) then Told(ssrc, Touch, time, sender).Then(rest) else rest
  }

  predicate AboutUs(blocks: seq<RtcpFormat.ReportBlock>, own: Option<u32>) {
    exists i :: 0 <= i < |blocks| && own == Some(blocks[i].ssrc)
  }

  function ReportsOutcome(ssrc: u32, blocks: seq<RtcpFormat.ReportBlock>, own: Option<u32>, time: RTPTime,
          sender: Option<Address>): Outcome {
    if AboutUs(blocks, own) then BlocksOutcome(ssrc, blocks, own, time, sender) else Told(ssrc, Touch, time, sender)
  }

  function PacketOutcome(c: RtcpFormat.Contents, own: Option<u32>, time: RTPTime, sender: Option<Address>): Outcome {
    match c
    case SenderReport(ssrc, _, blocks) =>
      Told(ssrc, Touch, time, sender).Then(ReportsOutcome(ssrc, blocks, own, time, sender))
    case ReceiverReport(ssrc, blocks) => ReportsOutcome(ssrc, blocks, own, time, sender)
    case Descriptions(chunks) => ChunksOutcome(chunks, time, sender)
    case Goodbye(bye) => ByesOutcome(bye.ssrcs, bye.reason, time, sender)
    case Application(_) => NOTHING_DONE
    case Unrecognised => NOTHING_DONE
  }

  function CompoundOutcome(cs: seq<RtcpFormat.Contents>, own: Option<u32>, time: RTPTime,
          sender: Option<Address>): Outcome
    decreases |cs|
  {
    if |cs| == 0 then NOTHING_DONE
    else PacketOutcome(cs[0], own, time, sender).Then(CompoundOutcome(cs[1..], own, time, sender))
  }

  // ----- What it keeps -----

  predicate OnlyRtcp(es: seq<Event>, time: RTPTime, sender: Option<Address>) {
    forall i :: 0 <= i < |es| ==> es[i].Rtcp? && es[i].time == time && es[i].sender == sender
  }

  lemma {:induction false} ItemsOnlyRtcp(ssrc: u32, items: seq<SdesFormat.Item>, time: RTPTime, sender: Option<Address>)
    ensures OnlyRtcp(ItemsOutcome(ssrc, items, time, sender).events, time, sender)
    decreases |items|
  {
    if |items| > 0 {
      ItemsOnlyRtcp(ssrc, items[1..], time, sender);
    }
  }

  lemma {:induction false} ChunksOnlyRtcp(cs: seq<SdesFormat.Chunk>, time: RTPTime, sender: Option<Address>)
    ensures OnlyRtcp(ChunksOutcome(cs, time, sender).events, time, sender)
    decreases |cs|
  {
    if |cs| > 0 {
      ItemsOnlyRtcp(cs[0].ssrc, cs[0].items, time, sender);
      ChunksOnlyRtcp(cs[1..], time, sender);
    }
  }

  lemma {:induction false} ByesOnlyRtcp(ssrcs: seq<u32>, reason: seq<byte>, time: RTPTime, sender: Option<Address>)
    ensures OnlyRtcp(ByesOutcome(ssrcs, reason, time, sender).events, time, sender)
    ensures ByesOutcome(ssrcs, reason, time, sender).ok
    decreases |ssrcs|
  {
    if |ssrcs| > 0 {
      ByesOnlyRtcp(ssrcs[1..], reason, time, sender);
    }
  }

  lemma {:induction false} BlocksOnlyRtcp(ssrc: u32, blocks: seq<RtcpFormat.ReportBlock>, own: Option<u32>,
          time: RTPTime, sender: Option<Address>)
    ensures OnlyRtcp(BlocksOutcome(ssrc, blocks, own, time, sender).events, time, sender)
    ensures BlocksOutcome(ssrc, blocks, own, time, sender).ok
    decreases |blocks|
  {
    if |blocks| > 0 {
      BlocksOnlyRtcp(ssrc, blocks[1..], own, time, sender);
    }
  }

  lemma ReportsOnlyRtcp(ssrc: u32, blocks: seq<RtcpFormat.ReportBlock>, own: Option<u32>, time: RTPTime,
          sender: Option<Address>)
    ensures OnlyRtcp(ReportsOutcome(ssrc, blocks, own, time, sender).events, time, sender)
    ensures ReportsOutcome(ssrc, blocks, own, time, sender).ok
  {
    BlocksOnlyRtcp(ssrc, blocks, own, time, sender);
  }

  lemma {:induction false} CompoundOnlyRtcp(cs: seq<RtcpFormat.Contents>, own: Option<u32>, time: RTPTime,
          sender: Option<Address>)
    ensures OnlyRtcp(CompoundOutcome(cs, own, time, sender).events, time, sender)
    decreases |cs|
  {
    hide ChunksOutcome, ByesOutcome, ReportsOutcome;
    if |cs| > 0 {
      match cs[0] {
        case SenderReport(ssrc, _, blocks) => ReportsOnlyRtcp(ssrc, blocks, own, time, sender);
        case ReceiverReport(ssrc, blocks) => ReportsOnlyRtcp(ssrc, blocks, own, time, sender);
        case Descriptions(chunks) => ChunksOnlyRtcp(chunks, time, sender);
        case Goodbye(bye) => ByesOnlyRtcp(bye.ssrcs, bye.reason, time, sender);
        case Application(_) =>
        case Unrecognised =>
      }
      CompoundOnlyRtcp(cs[1..], own, time, sender);
    }
  }

  lemma {:induction false} RtcpRunKeeps(t: Table, es: seq<Event>, time: RTPTime, sender: Option<Address>)
    requires Inv(t) && OnlyRtcp(es, time, sender)
    ensures Inv(Run(t, es)) && Run(t, es).own == t.own && Drift(Run(t, es)) == Drift(t)
    decreases |es|
  {
    hide Inv, WithRtcp, Drift;
    if |es| > 0 {
      var n := |es| - 1;
      var u, e := Run(t, es[..n]), es[n];
      RtcpRunKeeps(t, es[..n], time, sender);
      RtcpKeeps(u, e.ssrc, e.change, e.time, e.sender);
    }
  }

  /** No compound RTCP packet, whatever is in it and wherever it stops, puts the counts out, or touches our own entry's
      standing. */
  lemma CompoundKeeps(t: Table, cs: seq<RtcpFormat.Contents>, time: RTPTime, sender: Option<Address>)
    requires Inv(t)
    ensures var u := Run(t, CompoundOutcome(cs, t.own, time, sender).events);
            Inv(u) && u.own == t.own && Drift(u) == Drift(t)
  {
    hide Inv, CompoundOutcome, Drift, Run;
    CompoundOnlyRtcp(cs, t.own, time, sender);
    RtcpRunKeeps(t, CompoundOutcome(cs, t.own, time, sender).events, time, sender);
  }

  // ----- Where it stops -----

  predicate ItemStops(i: SdesFormat.Item) {
    i.id != SdesFormat.SDES_ID_PRIVATE && KindOf(i.id).None?
  }

  predicate ChunkStops(c: SdesFormat.Chunk) {
    exists i :: 0 <= i < |c.items| && ItemStops(c.items[i])
  }

  predicate PacketStops(c: RtcpFormat.Contents) {
    c.Descriptions? && exists k :: 0 <= k < |c.chunks| && ChunkStops(c.chunks[k])
  }

  lemma {:induction false} ItemsStop(ssrc: u32, items: seq<SdesFormat.Item>, time: RTPTime, sender: Option<Address>)
    ensures ItemsOutcome(ssrc, items, time, sender).ok <==> forall i :: 0 <= i < |items| ==> !ItemStops(items[i])
    decreases |items|
  {
    if |items| > 0 {
      ItemsStop(ssrc, items[1..], time, sender);
      assert forall i :: 0 < i < |items| ==> items[i] == items[1..][i - 1];
    }
  }

  lemma {:induction false} ChunksStop(cs: seq<SdesFormat.Chunk>, time: RTPTime, sender: Option<Address>)
    ensures ChunksOutcome(cs, time, sender).ok <==> forall k :: 0 <= k < |cs| ==> !ChunkStops(cs[k])
    decreases |cs|
  {
    if |cs| > 0 {
      ItemsStop(cs[0].ssrc, cs[0].items, time, sender);
      ChunksStop(cs[1..], time, sender);
      assert forall k :: 0 < k < |cs| ==> cs[k] == cs[1..][k - 1];
    }
  }

  /** A compound packet is processed to its end exactly when no description in it has an item that is neither private
      nor of one of the seven kinds. */
  lemma {:induction false} CompoundStops(cs: seq<RtcpFormat.Contents>, own: Option<u32>, time: RTPTime,
          sender: Option<Address>)
    ensures CompoundOutcome(cs, own, time, sender).ok <==> forall k :: 0 <= k < |cs| ==> !PacketStops(cs[k])
    decreases |cs|
  {
    hide ChunksOutcome, ByesOutcome, ReportsOutcome, ChunkStops;
    if |cs| > 0 {
      match cs[0] {
        case SenderReport(ssrc, _, blocks) => ReportsOnlyRtcp(ssrc, blocks, own, time, sender);
        case ReceiverReport(ssrc, blocks) => ReportsOnlyRtcp(ssrc, blocks, own, time, sender);
        case Descriptions(chunks) => ChunksStop(chunks, time, sender);
        case Goodbye(bye) => ByesOnlyRtcp(bye.ssrcs, bye.reason, time, sender);
        case Application(_) =>
        case Unrecognised =>
      }
      CompoundStops(cs[1..], own, time, sender);
      assert forall k :: 0 < k < |cs| ==> cs[k] == cs[1..][k - 1];
    }
  }

  // ----- Taking it step by step -----

  lemma {:induction false} RunConcat(t: Table, a: seq<Event>, b: seq<Event>)
    ensures Run(t, a + b) == Run(Run(t, a), b)
    decreases |b|
  {
    if |b| == 0 {
      assert a + b == a;
    } else {
      var n := |b| - 1;
      RunConcat(t, a, b[..n]);
      assert (a + b)[..|a + b| - 1] == a + b[..n];
    }
  }

  lemma RunOne(t: Table, e: Event)
    ensures Run(t, [e]) == Step(t, e)
  {
    assert [e][..0] == [];
    assert Run(t, []) == t;
  }

  /** `whole` is what is done so far followed by `rest`, or stopped there. */
  predicate Remaining(whole: Outcome, done: seq<Event>, ok: bool, rest: Outcome) {
    whole == if ok then Outcome(done + rest.events, rest.ok) else Outcome(done, false)
  }

  lemma TakeNext(whole: Outcome, done: seq<Event>, next: Outcome, rest: Outcome)
    requires Remaining(whole, done, true, next.Then(rest))
    ensures Remaining(whole, done + next.events, next.ok, rest)
  {
    assert done + (next.events + rest.events) == done + next.events + rest.events;
  }

  lemma Finished(whole: Outcome, done: seq<Event>, ok: bool, rest: Outcome)
    requires Remaining(whole, done, ok, rest) && (ok ==> rest == NOTHING_DONE)
    ensures whole == Outcome(done, ok)
  {
    assert done + [] == done;
  }
}
