/** Who times out, in microseconds and source by source. */
module SourceTimeouts {
  import opened Basics
  import opened Bytes
  import opened SourceStats
  import opened SourceState
  import opened SourceTable
  import opened SourceRuns

  /** The timeouts that a call asks for. */
  datatype Delays = Delays(sender: Option<RTPTime>, bye: Option<RTPTime>, general: Option<RTPTime>,
      note: Option<RTPTime>)

  /** More than the delay has gone by since `last`. A delay longer than the clock has run wraps round, to 2^32 seconds
      less. */
  predicate Overdue(last: RTPTime, now: RTPTime, delay: Option<RTPTime>) {
    && delay.Some?
    && if delay.value.Micros() <= now.Micros() then last.Micros() + delay.value.Micros() < now.Micros()
       else last.Micros() + delay.value.Micros() < now.Micros() + WORD * MILLION
  }

  predicate NormalDelay(delay: Option<RTPTime>) {
    delay.Some? ==> delay.value.Normal()
  }

  predicate NormalTimes(e: Source) {
    e.lastmsgtime.Normal() && e.lastrtptime.Normal() && e.lastnotetime.Normal() && e.byetime.Normal()
  }

  /** All times in question have less than a million microseconds. */
  ghost predicate AllNormal(es: seq<Source>, now: RTPTime, d: Delays) {
    && now.Normal() && NormalDelay(d.sender) && NormalDelay(d.bye) && NormalDelay(d.general) && NormalDelay(d.note)
    && Clocked(es)
  }

  ghost predicate Clocked(es: seq<Source>) {
    forall i :: 0 <= i < |es| ==> NormalTimes(es[i])
  }

  /** A source goes when its BYE or what was last heard of it is overdue. */
  predicate Goes(e: Source, now: RTPTime, d: Delays) {
    (e.receivedbye && Overdue(e.byetime, now, d.bye)) || Overdue(e.lastmsgtime, now, d.general)
  }

  function Unflagged(e: Source, quiet: bool): Source {
    e.(issender := e.issender && !quiet)
  }

  function Unnoted(e: Source, stale: bool): Source {
    e.(items := if e.Item(NOTE) != [] && stale then e.items[NOTE := []] else e.items)
  }

  /** One that stays is a sender still if its last RTP packet is not overdue, and has its note still if that is not. */
  function Staying(e: Source, now: RTPTime, d: Delays): Source {
    Unflagged(Unnoted(e, Overdue(e.lastnotetime, now, d.note)), Overdue(e.lastrtptime, now, d.sender))
  }

  /** Just the sources that go are gone, our own never among them, and the others are as they stay. */
  ghost predicate TimedOutIn(before: seq<Source>, after: seq<Source>, own: Option<u32>, now: RTPTime, d: Delays) {
    forall ssrc: u32 ::
      EntryOf(after, ssrc) == match EntryOf(before, ssrc)
                              case None => None
                              case Some(e) => if own != Some(ssrc) && Goes(e, now, d) then None
                                              else Some(Staying(e, now, d))
  }

  // ----- The passes do that -----

  /** A pass with the check times of these delays. */
  predicate Asks(p: Pass, now: RTPTime, d: Delays) {
    match p
    case SenderPass(check) =>
      d == Delays(d.sender, None, None, None) && d.sender.Some? && check == Minus(now, d.sender.value)
    case ByePass(check) => d == Delays(None, d.bye, None, None) && d.bye.Some? && check == Minus(now, d.bye.value)
    case GeneralPass(check) =>
      d == Delays(None, None, d.general, None) && d.general.Some? && check == Minus(now, d.general.value)
    case NotePass(check) => d == Delays(None, None, None, d.note) && d.note.Some? && check == Minus(now, d.note.value)
    case AllPasses(sender, bye, general, note) =>
      && d.sender.Some? && d.bye.Some? && d.general.Some? && d.note.Some?
      && sender == Minus(now, d.sender.value) && bye == Minus(now, d.bye.value)
      && general == Minus(now, d.general.value) && note == Minus(now, d.note.value)
  }

  lemma LeftSsrc(p: Pass, e: Source, isown: bool)
    ensures Left(p, e, isown).Some? ==> Left(p, e, isown).value.ssrc == e.ssrc
  {}

  lemma LastOfDistinct(es: seq<Source>, ssrc: u32)
    requires Distinct(es) && |es| > 0
    ensures Distinct(es[..|es| - 1])
    ensures EntryOf(es, ssrc)
         == if es[|es| - 1].ssrc == ssrc then Some(es[|es| - 1]) else EntryOf(es[..|es| - 1], ssrc)
    ensures EntryOf(es[..|es| - 1], es[|es| - 1].ssrc).None?
  {
    var init, e := es[..|es| - 1], es[|es| - 1];
    assert es == init + [e];
    EntryAppended(init, e, ssrc);
    var k := Find(init, e.ssrc);
    assert k == |init|;
  }

  /** A pass looks at each entry by itself. */
  lemma {:induction false} SweptBySource(p: Pass, es: seq<Source>, own: Option<u32>, ssrc: u32)
    requires Distinct(es)
    ensures EntryOf(Swept(p, es, own), ssrc) == match EntryOf(es, ssrc)
                                                case None => None
                                                case Some(e) => Left(p, e, own == Some(ssrc))
    decreases |es|
  {
    hide Left, EntryOf, Distinct;
    if |es| == 0 {
      NoEntry(ssrc);
    } else {
      var init, e := es[..|es| - 1], es[|es| - 1];
      LastOfDistinct(es, ssrc);
      SweptBySource(p, init, own, ssrc);
      LeftSsrc(p, e, own == Some(e.ssrc));
      if Left(p, e, own == Some(e.ssrc)).Some? {
        EntryAppended(Swept(p, init, own), Left(p, e, own == Some(e.ssrc)).value, ssrc);
      }
    }
  }

  lemma NoEntry(ssrc: u32)
    ensures EntryOf([], ssrc) == None
  {}

  lemma OverdueIsBefore(last: RTPTime, now: RTPTime, delay: RTPTime)
    requires last.Normal() && now.Normal() && delay.Normal()
    ensures Before(last, Minus(now, delay)) <==> Overdue(last, now, Some(delay))
  {
    hide Before, Minus;
    OlderThan(last, now, delay);
  }

  lemma SenderParts(e: Source, check: RTPTime)
    ensures SenderCleared(e, check) == Unflagged(e, Before(e.lastrtptime, check)) && Unflagged(e, false) == e
  {
    hide Before;
  }

  lemma NoteParts(e: Source, check: RTPTime)
    ensures NoteCleared(e, check) == Unnoted(e, Before(e.lastnotetime, check)) && Unnoted(e, false) == e
    ensures NoteCleared(e, check).lastrtptime == e.lastrtptime
  {
    hide Before;
  }

  /** What is asked of an entry in the seconds and microseconds of the check times. */
  lemma ChecksAsked(e: Source, p: Pass, now: RTPTime, d: Delays)
    requires Asks(p, now, d) && AllNormal([e], now, d)
    ensures d.sender.Some? ==>
              Overdue(e.lastrtptime, now, d.sender) == Before(e.lastrtptime, Minus(now, d.sender.value))
    ensures d.bye.Some? ==> Overdue(e.byetime, now, d.bye) == Before(e.byetime, Minus(now, d.bye.value))
    ensures d.general.Some? ==>
              Overdue(e.lastmsgtime, now, d.general) == Before(e.lastmsgtime, Minus(now, d.general.value))
    ensures d.note.Some? ==> Overdue(e.lastnotetime, now, d.note) == Before(e.lastnotetime, Minus(now, d.note.value))
  {
    hide Before, Minus, RTPTime.Normal, Overdue, Asks;
    assert NormalTimes([e][0]);
    if d.sender.Some? {
      OverdueIsBefore(e.lastrtptime, now, d.sender.value);
    }
    if d.bye.Some? {
      OverdueIsBefore(e.byetime, now, d.bye.value);
    }
    if d.general.Some? {
      OverdueIsBefore(e.lastmsgtime, now, d.general.value);
    }
    if d.note.Some? {
      OverdueIsBefore(e.lastnotetime, now, d.note.value);
    }
  }

  lemma NotOverdue(last: RTPTime, now: RTPTime)
    ensures !Overdue(last, now, None)
  {}

  lemma EntryLeft(e: Source, isown: bool, p: Pass, now: RTPTime, d: Delays)
    requires Asks(p, now, d) && AllNormal([e], now, d)
    ensures Left(p, e, isown) == if !isown && Goes(e, now, d) then None else Some(Staying(e, now, d))
  {
    hide Before, Minus, Overdue, Unflagged, Unnoted, SenderCleared, NoteCleared, AllNormal;
    ChecksAsked(e, p, now, d);
    NotOverdue(e.lastrtptime, now);
    NotOverdue(e.byetime, now);
    NotOverdue(e.lastmsgtime, now);
    NotOverdue(e.lastnotetime, now);
    var sendercheck, notecheck := if p.AllPasses? then p.sender else p.check, if p.AllPasses? then p.note else p.check;
    NoteParts(e, notecheck);
    SenderParts(e, sendercheck);
    SenderParts(Unnoted(e, Before(e.lastnotetime, notecheck)), sendercheck);
  }

  /** Every pass, on every table: who goes and who stays. */
  lemma PassTimesOut(t: Table, p: Pass, now: RTPTime, d: Delays)
    requires Distinct(t.entries) && Asks(p, now, d) && AllNormal(t.entries, now, d)
    ensures TimedOutIn(t.entries, WithPass(t, p).entries, t.own, now, d)
  {
    hide Left, Goes, Staying, Asks, NormalTimes, EntryOf, Swept;
    forall ssrc: u32
      ensures EntryOf(WithPass(t, p).entries, ssrc)
           == match EntryOf(t.entries, ssrc)
              case None => None
              case Some(e) => if t.own != Some(ssrc) && Goes(e, now, d) then None else Some(Staying(e, now, d))
    {
      SweptBySource(p, t.entries, t.own, ssrc);
      if EntryOf(t.entries, ssrc).Some? {
        EntryLeft(EntryOf(t.entries, ssrc).value, t.own == Some(ssrc), p, now, d);
      }
    }
  }

  lemma TimedOutByPass(t: Table, p: Pass, now: RTPTime, d: Delays)
    requires Distinct(t.entries) && Asks(p, now, d)
    ensures AllNormal(t.entries, now, d) ==> TimedOutIn(t.entries, WithPass(t, p).entries, t.own, now, d)
  {
    hide Distinct, Asks, AllNormal, TimedOutIn, WithPass;
    if AllNormal(t.entries, now, d) {
      PassTimesOut(t, p, now, d);
    }
  }

  lemma NotesTimedOut(t: Table, now: RTPTime, delay: RTPTime)
    requires Distinct(t.entries)
    ensures var d := Delays(None, None, None, Some(delay));
            AllNormal(t.entries, now, d) ==>
              TimedOutIn(t.entries, WithPass(t, NotePass(Minus(now, delay))).entries, t.own, now, d)
  {
    hide Distinct, AllNormal, TimedOutIn, WithPass, Minus;
    TimedOutByPass(t, NotePass(Minus(now, delay)), now, Delays(None, None, None, Some(delay)));
  }

  lemma AllTimedOut(t: Table, now: RTPTime, sender: RTPTime, bye: RTPTime, general: RTPTime, note: RTPTime)
    requires Distinct(t.entries)
    ensures var d := Delays(Some(sender), Some(bye), Some(general), Some(note));
            var p := AllPasses(Minus(now, sender), Minus(now, bye), Minus(now, general), Minus(now, note));
            AllNormal(t.entries, now, d) ==> TimedOutIn(t.entries, WithPass(t, p).entries, t.own, now, d)
  {
    hide Distinct, AllNormal, TimedOutIn, WithPass, Minus;
    TimedOutByPass(t, AllPasses(Minus(now, sender), Minus(now, bye), Minus(now, general), Minus(now, note)), now,
                   Delays(Some(sender), Some(bye), Some(general), Some(note)));
  }

  // ----- Times stay normal -----

  predicate NormalEvent(e: Event) {
    e.Rtp? || e.Rtcp? || e.Sent? ==> e.time.Normal()
  }

  lemma ReplacedClocked(es: seq<Source>, k: nat, x: Source)
    requires Clocked(es) && k < |es| && NormalTimes(x)
    ensures Clocked(es[k := x])
  {}

  lemma ObtainedClocked(t: Table, ssrc: u32)
    requires Clocked(t.entries)
    ensures Clocked(Obtained(t, ssrc).entries)
  {
    hide Find;
  }

  lemma CheckedTimes(e: Source, sender: Option<Address>, isrtp: bool)
    ensures Checked(e, sender, isrtp).Some? ==>
              var x := Checked(e, sender, isrtp).value;
              && x.lastmsgtime == e.lastmsgtime && x.lastrtptime == e.lastrtptime
              && x.lastnotetime == e.lastnotetime && x.byetime == e.byetime
  {}

  lemma ChangedTimes(e: Source, c: Change, time: RTPTime)
    requires NormalTimes(e) && time.Normal()
    ensures NormalTimes(Changed(e, c, time))
  {
    hide RTPTime.Normal, Takes, Source.Item;
  }

  lemma PacketTimes(e: Source, p: RTPPacket, time: RTPTime)
    requires NormalTimes(e) && time.Normal()
    ensures NormalTimes(WithPacket(e, p, time).0)
  {
    hide NormalTimes, Arrival, Queued, Stored, Passes, Evicted, Judged;
    JudgedTimes(e, Arrival(e, p), time);
    QueueTimes(Judged(e, Arrival(e, p), time), WithPacket(e, p, time).0.packetlist);
  }

  lemma JudgedTimes(e: Source, r: Reception, time: RTPTime)
    requires NormalTimes(e) && time.Normal()
    ensures NormalTimes(Judged(e, r, time))
  {
    hide RTPTime.Normal, Passes;
  }

  lemma QueueTimes(e: Source, q: seq<RTPPacket>)
    ensures NormalTimes(e.(packetlist := q)) == NormalTimes(e) && e.(packetlist := e.packetlist) == e
  {
    hide RTPTime.Normal;
  }

  lemma RtcpClocked(t: Table, ssrc: u32, c: Change, time: RTPTime, sender: Option<Address>)
    requires Clocked(t.entries) && time.Normal()
    ensures Clocked(WithRtcp(t, ssrc, c, time, sender).entries)
  {
    hide RTPTime.Normal, Checked, Find, Obtained, Replaced, Changed, Clocked;
    var o, k := Obtained(t, ssrc), Find(t.entries, ssrc);
    ObtainedClocked(t, ssrc);
    CheckedTimes(o.entries[k], sender, false);
    if Checked(o.entries[k], sender, false).Some? {
      var y := Checked(o.entries[k], sender, false).value;
      ClockedAt(o.entries, k);
      ChangedTimes(y, c, time);
      var x := if c.Bye? && t.own == Some(ssrc) then y else Changed(y, c, time);
      ReplacedFrame(o, k, x);
      ReplacedClocked(o.entries, k, x);
    }
  }

  lemma ClockedAt(es: seq<Source>, k: nat)
    requires Clocked(es) && k < |es|
    ensures NormalTimes(es[k])
  {}

  lemma CsrcTimes(e: Source)
    ensures NormalTimes(AsCsrc(e)) == NormalTimes(e)
  {
    hide RTPTime.Normal;
  }

  lemma CsrcClocked(t: Table, csrc: u32, sender: Option<Address>)
    requires Clocked(t.entries)
    ensures Clocked(WithCsrc(t, csrc, sender).entries)
  {
    hide RTPTime.Normal, Checked, Find, Obtained, Replaced, AsCsrc, Clocked;
    var o, k := Obtained(t, csrc), Find(t.entries, csrc);
    ObtainedClocked(t, csrc);
    ClockedAt(o.entries, k);
    CsrcTimes(o.entries[k]);
    ReplacedFrame(o, k, AsCsrc(o.entries[k]));
    ReplacedClocked(o.entries, k, AsCsrc(o.entries[k]));
    if Has(t.entries, csrc) {
      CheckedTimes(t.entries[k], sender, true);
      if Checked(t.entries[k], sender, true).Some? {
        var y := Checked(t.entries[k], sender, true).value;
        ClockedAt(t.entries, k);
        CsrcTimes(y);
        ReplacedClocked(t.entries, k, AsCsrc(y));
      }
    }
  }

  lemma {:induction false} CsrcsClocked(t: Table, csrcs: seq<u32>, sender: Option<Address>)
    requires Clocked(t.entries)
    ensures Clocked(WithCsrcs(t, csrcs, sender).entries)
    decreases |csrcs|
  {
    hide Clocked, WithCsrc;
    if |csrcs| > 0 {
      var n := |csrcs| - 1;
      CsrcsClocked(t, csrcs[..n], sender);
      CsrcClocked(WithCsrcs(t, csrcs[..n], sender), csrcs[n], sender);
    }
  }

  lemma RtpClocked(t: Table, p: RTPPacket, time: RTPTime, sender: Option<Address>)
    requires Clocked(t.entries) && time.Normal()
    ensures Clocked(WithRtp(t, p, time, sender).0.entries)
  {
    hide RTPTime.Normal, Checked, Find, Obtained, Replaced, WithPacket, Clocked, Contributing, WithCsrcs;
    var o, k := Obtained(t, p.ssrc), Find(t.entries, p.ssrc);
    ObtainedClocked(t, p.ssrc);
    CheckedTimes(o.entries[k], sender, true);
    if Checked(o.entries[k], sender, true).Some? {
      var y := Checked(o.entries[k], sender, true).value;
      ClockedAt(o.entries, k);
      PacketTimes(y, p, time);
      ReplacedFrame(o, k, WithPacket(y, p, time).0);
      ReplacedClocked(o.entries, k, WithPacket(y, p, time).0);
      var u := Received(t, p, time, sender).value.0;
      CsrcsClocked(u, Contributing(u, p), sender);
    }
  }

  lemma LeftTimes(p: Pass, e: Source, isown: bool)
    ensures Left(p, e, isown).Some? ==> NormalTimes(Left(p, e, isown).value) == NormalTimes(e)
  {
    hide RTPTime.Normal, Before, ByeOver, TimedOut, Source.Item;
  }

  lemma {:induction false} SweptClocked(p: Pass, es: seq<Source>, own: Option<u32>)
    requires Clocked(es)
    ensures Clocked(Swept(p, es, own))
    decreases |es|
  {
    hide Left, NormalTimes;
    if |es| > 0 {
      SweptClocked(p, es[..|es| - 1], own);
      LeftTimes(p, es[|es| - 1], own == Some(es[|es| - 1].ssrc));
    }
  }

  lemma OthersClocked(t: Table, e: Event)
    requires Clocked(t.entries) && NormalEvent(e) && (e.CreateOwn? || e.DeleteOwn? || e.Sent? || e.GetPacket?)
    ensures Clocked(Step(t, e).entries)
  {
    hide RTPTime.Normal, Find, Without;
    match e
    case CreateOwn(ssrc) => OwnTimes(ssrc, t.probationtype);
    case DeleteOwn =>
      if t.own.Some? && Has(t.entries, t.own.value) {
        WithoutClocked(t.entries, Find(t.entries, t.own.value));
      }
    case Sent(_) =>
    case GetPacket(k) =>
  }

  lemma OwnTimes(ssrc: u32, probationtype: ProbationType)
    ensures NormalTimes(OwnSource(ssrc, probationtype))
  {}

  lemma WithoutClocked(es: seq<Source>, k: nat)
    requires Clocked(es) && k < |es|
    ensures Clocked(Without(es, k))
  {}

  /** Over every run whose events have normal times, so have the entries. */
  lemma {:induction false} RunStaysClocked(probationtype: ProbationType, es: seq<Event>)
    requires forall i :: 0 <= i < |es| ==> NormalEvent(es[i])
    ensures Clocked(Run(EmptyTable(probationtype), es).entries)
    decreases |es|
  {
    hide Clocked, WithRtp, WithRtcp, WithOwn, WithoutOwn, WithSent, WithExtraction, Swept;
    if |es| == 0 {
      NoneClocked(probationtype);
    } else {
      var n := |es| - 1;
      var u := Run(EmptyTable(probationtype), es[..n]);
      RunStaysClocked(probationtype, es[..n]);
      match es[n]
      case Rtp(packet, time, sender) => RtpClocked(u, packet, time, sender);
      case Rtcp(ssrc, change, time, sender) => RtcpClocked(u, ssrc, change, time, sender);
      case Timeouts(pass) => SweptClocked(pass, u.entries, u.own);
      case _ => OthersClocked(u, es[n]);
    }
  }

  lemma NoneClocked(probationtype: ProbationType)
    ensures Clocked(EmptyTable(probationtype).entries)
  {}
}
