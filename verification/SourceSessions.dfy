/** Whole sessions of calls on the source table object. */
module SourceSessions {
  import opened Basics
  import opened Bytes
  import opened SourceStats
  import opened SourceState
  import opened SourceTable
  import opened SourceRuns
  import opened SourceReports
  import opened Sources
  import RtcpFormat

  datatype Operation =
    | Packet(packet: RTPPacket, time: RTPTime, sender: Option<Address>)
    | Compound(contents: seq<RtcpFormat.Contents>, time: RTPTime, sender: Option<Address>)
    | CreateOwnSSRC(ssrc: u32)
    | DeleteOwnSSRC
    | SentPacket(time: RTPTime)
    | NextPacket(k: nat)
    | Timeout(curtime: RTPTime, delay: RTPTime)
    | SenderTimeout(curtime: RTPTime, delay: RTPTime)
    | BYETimeout(curtime: RTPTime, delay: RTPTime)
    | NoteTimeout(curtime: RTPTime, delay: RTPTime)
    | MultipleTimeouts(curtime: RTPTime, quiet: RTPTime, bye: RTPTime, general: RTPTime, note: RTPTime)

  /** The 16-bit number of a packet that has come in. */
  predicate Sendable(op: Operation) {
    op.Packet? ==> op.packet.seqnr < CYCLE
  }

  /** What a call means for the table; a compound packet may mean many events. */
  function EventsOf(op: Operation, own: Option<u32>): seq<Event> {
    match op
    case Packet(packet, time, sender) => [Rtp(packet, time, sender)]
    case Compound(contents, time, sender) => CompoundOutcome(contents, own, time, sender).events
    case CreateOwnSSRC(ssrc) => [CreateOwn(ssrc)]
    case DeleteOwnSSRC => [DeleteOwn]
    case SentPacket(time) => [Sent(time)]
    case NextPacket(k) => [GetPacket(k)]
    case Timeout(curtime, delay) => [Timeouts(GeneralPass(Minus(curtime, delay)))]
    case SenderTimeout(curtime, delay) => [Timeouts(SenderPass(Minus(curtime, delay)))]
    case BYETimeout(curtime, delay) => [Timeouts(ByePass(Minus(curtime, delay)))]
    case NoteTimeout(curtime, delay) => [Timeouts(NotePass(Minus(curtime, delay)))]
    case MultipleTimeouts(curtime, quiet, bye, general, note) =>
      [Timeouts(AllPasses(Minus(curtime, quiet), Minus(curtime, bye), Minus(curtime, general), Minus(curtime, note)))]
  }

  function AllEvents(t: Table, ops: seq<Operation>): seq<Event>
    decreases |ops|
  {
    if |ops| == 0 then []
    else
      var es := EventsOf(ops[0], t.own);
      es + AllEvents(Run(t, es), ops[1..])
  }

  /** Any one call on the object is what the events say on the value. */
  method Perform(table: RTPSources, op: Operation)
    requires table.Valid() && Sendable(op)
    modifies table, table.sourcelist
    ensures table.Valid() && table.State() == Run(old(table.State()), EventsOf(op, old(table.State()).own))
    ensures forall j :: 0 <= j < |table.sourcelist| ==>
              table.sourcelist[j] in old(table.sourcelist) || fresh(table.sourcelist[j])
  {
    hide WithRtp, WithOwn, WithoutOwn, WithSent, WithExtraction, WithPass, Run, CompoundOutcome, Minus,
         RTPSources.Valid, RTPSources.State, RTPSources.Own;
    table.OwnOfState();
    if !op.Compound? {
      RunOne(table.State(), EventsOf(op, table.Own())[0]);
    }
    match op
    case Packet(packet, time, sender) =>
      var _ := table.ProcessRTPPacket(packet, time, sender);
    case Compound(contents, time, sender) =>
      var _ := table.ProcessRTCPCompoundPacket(contents, time, sender);
    case CreateOwnSSRC(ssrc) =>
      var _ := table.CreateOwnSSRC(ssrc);
    case DeleteOwnSSRC =>
      var _ := table.DeleteOwnSSRC();
    case SentPacket(time) =>
      table.SentRTPPacket(time);
    case NextPacket(k) =>
      var _ := table.GetNextPacket(k);
    case _ =>
      PerformTimeout(table, op);
  }

  method PerformTimeout(table: RTPSources, op: Operation)
    requires table.Valid()
    requires op.Timeout? || op.SenderTimeout? || op.BYETimeout? || op.NoteTimeout? || op.MultipleTimeouts?
    modifies table, table.sourcelist
    ensures var e := EventsOf(op, old(table.State()).own)[0];
            e.Timeouts? && table.State() == WithPass(old(table.State()), e.pass)
    ensures table.Valid()
    ensures forall j :: 0 <= j < |table.sourcelist| ==> table.sourcelist[j] in old(table.sourcelist)
  {
    hide Infos, WithPass, Minus, EntryOk, Has, Distinct, CountSenders, CountActive;
    match op
    case Timeout(curtime, delay) =>
      table.Timeout(curtime, delay);
    case SenderTimeout(curtime, delay) =>
      table.SenderTimeout(curtime, delay);
    case BYETimeout(curtime, delay) =>
      table.BYETimeout(curtime, delay);
    case NoteTimeout(curtime, delay) =>
      table.NoteTimeout(curtime, delay);
    case MultipleTimeouts(curtime, quiet, bye, general, note) =>
      table.MultipleTimeouts(curtime, quiet, bye, general, note);
  }

  method PerformAll(table: RTPSources, ops: seq<Operation>)
    requires table.Valid() && forall i :: 0 <= i < |ops| ==> Sendable(ops[i])
    modifies table, table.sourcelist
    ensures table.Valid() && table.State() == Run(old(table.State()), AllEvents(old(table.State()), ops))
    ensures forall j :: 0 <= j < |table.sourcelist| ==>
              table.sourcelist[j] in old(table.sourcelist) || fresh(table.sourcelist[j])
    decreases |ops|
  {
    hide RTPSources.Valid, RTPSources.State, EventsOf, Run, Sendable;
    ghost var t := table.State();
    if |ops| == 0 {
      BeginRun(t);
    } else {
      ghost var es := EventsOf(ops[0], t.own);
      Perform(table, ops[0]);
      RunConcat(t, es, AllEvents(table.State(), ops[1..]));
      PerformAll(table, ops[1..]);
    }
  }

  /** After any calls on a new table its total and sender counts are those of its entries, and the active count lacks
      exactly the contributing sources uncounted since the last timeout pass. */
  method Session(probationtype: ProbationType, ops: seq<Operation>) returns (table: RTPSources)
    requires forall i :: 0 <= i < |ops| ==> Sendable(ops[i])
    ensures table.Valid() && fresh(table) && table.totalcount == |table.sourcelist|
    ensures var t := EmptyTable(probationtype);
            var es, entries := AllEvents(t, ops), Infos(table.sourcelist);
            && table.sendercount == CountSenders(entries)
            && table.activecount + SlipsSincePass(t, es) == CountActive(entries)
  {
    hide AllEvents, Run, Infos, SlipsSincePass, Sendable, CountSenders, CountActive;
    table := new RTPSources(probationtype);
    PerformAll(table, ops);
    CountsOverRuns(probationtype, AllEvents(EmptyTable(probationtype), ops));
  }
}
