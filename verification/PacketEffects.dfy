/** What an RTP packet, and what we do ourselves, means for each source. */
module PacketEffects {
  import opened Basics
  import opened Bytes
  import opened SourceStats
  import opened SourceState
  import opened SourceTable
  import opened SourceRuns
  import opened CompoundEffects

  /** The packet counts: packets of its source have counted before, or it is not on probation, or it completes three in
      a row. */
  predicate Counts(e: Source, sn: u16) {
    e.stats.sentdata || e.validated || e.probationtype == NoProbation
    || (e.stats.probation == 1 && sn == Next16(e.stats.prevseqnr))
  }

  /** An entry before and after a packet of its own, but for the mark of a contributing source. Only a packet that
      counts validates, makes a sender of a source that is not ours, and leaves the time of an RTP packet there; others
      are kept, if at all, while the policy is to store them. */
  predicate Took(e: Source, x: Source, p: RTPPacket, time: RTPTime, sender: Option<Address>, stored: bool) {
    var sn := p.seqnr % CYCLE;
    var counts := Counts(e, sn);
    var r := Receive(e.stats, sn, !e.validated && e.probationtype != NoProbation);
    && x.ssrc == e.ssrc && x.probationtype == e.probationtype && x.ownssrc == e.ownssrc && x.items == e.items
    && x.receivedbye == e.receivedbye && x.byetime == e.byetime && x.byereason == e.byereason
    && x.lastnotetime == e.lastnotetime && x.processedinrtcp == e.processedinrtcp
    && x.isrtcpaddrset == e.isrtcpaddrset && x.rtcpaddr == e.rtcpaddr && x.isrtpaddrset && x.rtpaddr == sender
    && x.stats == r.stats && x.lastmsgtime == time
    && x.lastrtptime == (if counts && !e.ownssrc then time else e.lastrtptime)
    && (x.validated <==> e.validated || counts) && (x.issender <==> e.issender || (counts && !e.ownssrc))
    && (if counts || e.probationtype == ProbationStore
        then HasNumber(x.packetlist, r.seqnr) && (stored ==> p.(seqnr := r.seqnr) in x.packetlist)
        else !stored && x.packetlist == e.packetlist)
  }

  /** A contributing source before and after: one that is new is validated, as is one that the sender fits; its address
      is known once it was there before. */
  predicate Vouched(e: Option<Source>, x: Option<Source>, ssrc: u32, times: nat, probationtype: ProbationType,
          sender: Option<Address>) {
    if times == 0 || (e.Some? && !Fits(e.value, sender, true)) then x == e
    else
      var b := Base(e, ssrc, probationtype);
      var known := if e.Some? || times > 1 then b.(isrtpaddrset := true, rtpaddr := sender) else b;
      x == Some(known.(validated := true, iscsrc := true))
  }

  /** How often a source is named. */
  function Times(csrcs: seq<u32>, ssrc: u32): nat
    decreases |csrcs|
  {
    if |csrcs| == 0 then 0 else Times(csrcs[..|csrcs| - 1], ssrc) + (if csrcs[|csrcs| - 1] == ssrc then 1 else 0)
  }

  /** The contributing sources of a packet matter once its own source is validated. */
  function NamedBy(p: RTPPacket, x: Source): seq<u32> {
    if x.validated then p.csrcs else []
  }

  /** The table before and after a packet, source by source. */
  ghost predicate TableTook(t: Table, u: Table, p: RTPPacket, time: RTPTime, sender: Option<Address>, stored: bool) {
    var e := EntryOf(t.entries, p.ssrc);
    if e.Some? && !Fits(e.value, sender, true) then u == t && !stored
    else
      var b, x := Base(e, p.ssrc, t.probationtype), EntryOf(u.entries, p.ssrc);
      && x.Some? && Took(b, x.value, p, time, sender, stored)
      && (x.value.iscsrc <==> b.iscsrc || p.ssrc in NamedBy(p, x.value))
      && forall ssrc: u32 :: ssrc != p.ssrc ==>
           Vouched(EntryOf(t.entries, ssrc), EntryOf(u.entries, ssrc), ssrc, Times(NamedBy(p, x.value), ssrc),
                   t.probationtype, sender)
  }

  // ----- The packet at its own source -----

  lemma CountsIsAccept(e: Source, p: RTPPacket)
    ensures Arrival(e, p).accept <==> Counts(e, p.seqnr % CYCLE)
    ensures Arrival(e, p).onprobation <==> !Arrival(e, p).accept
  {}

  lemma JudgedTakes(e: Source, r: Reception, time: RTPTime)
    ensures var x := Judged(e, r, time);
            && x.ssrc == e.ssrc && x.probationtype == e.probationtype && x.ownssrc == e.ownssrc && x.items == e.items
            && x.receivedbye == e.receivedbye && x.byetime == e.byetime && x.byereason == e.byereason
            && x.lastnotetime == e.lastnotetime && x.processedinrtcp == e.processedinrtcp
            && x.isrtcpaddrset == e.isrtcpaddrset && x.rtcpaddr == e.rtcpaddr && x.iscsrc == e.iscsrc
            && x.isrtpaddrset == e.isrtpaddrset && x.rtpaddr == e.rtpaddr && x.packetlist == e.packetlist
            && x.stats == r.stats && x.lastmsgtime == time
            && x.lastrtptime == (if r.accept && !e.ownssrc then time else e.lastrtptime)
            && x.validated == (e.validated || r.accept)
            && x.issender == (e.issender || (Passes(e, r) && (e.validated || r.accept) && !e.ownssrc))
  {
    hide Passes;
  }

  predicate SameButQueue(e: Source, x: Source) {
    && x.ssrc == e.ssrc && x.probationtype == e.probationtype && x.ownssrc == e.ownssrc && x.items == e.items
    && x.receivedbye == e.receivedbye && x.byetime == e.byetime && x.byereason == e.byereason
    && x.lastnotetime == e.lastnotetime && x.processedinrtcp == e.processedinrtcp && x.iscsrc == e.iscsrc
    && x.isrtcpaddrset == e.isrtcpaddrset && x.rtcpaddr == e.rtcpaddr && x.isrtpaddrset == e.isrtpaddrset
    && x.rtpaddr == e.rtpaddr && x.stats == e.stats && x.lastmsgtime == e.lastmsgtime
    && x.lastrtptime == e.lastrtptime && x.validated == e.validated && x.issender == e.issender
  }

  lemma QueueApart(e: Source, q: seq<RTPPacket>)
    ensures SameButQueue(e, e.(packetlist := q)) && SameButQueue(e, e)
  {}

  /** The queue apart, a packet leaves what the statistics and the policy make of the entry. */
  lemma PacketLeaves(e: Source, p: RTPPacket, time: RTPTime)
    ensures var (x, stored) := WithPacket(e, p, time);
            var r := Arrival(e, p);
            && SameButQueue(Judged(e, r, time), x)
            && (!Passes(e, r) ==> !stored && x.packetlist == Judged(e, r, time).packetlist)
  {
    hide Queued, Stored, Arrival, Judged, Passes, SameButQueue;
    QueueApart(Judged(e, Arrival(e, p), time), WithPacket(e, p, time).0.packetlist);
  }

  lemma PacketTakes(e: Source, p: RTPPacket, time: RTPTime, sender: Option<Address>)
    requires QueueOk(e) && e.isrtpaddrset && e.rtpaddr == sender
    ensures var (x, stored) := WithPacket(e, p, time);
            Took(e, x, p, time, sender, stored) && x.iscsrc == e.iscsrc
  {
    hide QueueOk, Receive, WithPacket, Counts, Evicted, HasNumber, Judged;
    var r := Arrival(e, p);
    CountsIsAccept(e, p);
    JudgedTakes(e, r, time);
    PacketLeaves(e, p, time);
    PacketKeepsQueue(e, p, time);
    ValidatedIsAccepted(e, p);
    var (x, stored) := WithPacket(e, p, time);
    if stored {
      InQueue(x.packetlist, p.(seqnr := r.seqnr));
    }
  }

  lemma ValidatedIsAccepted(e: Source, p: RTPPacket)
    ensures e.validated ==> Arrival(e, p).accept
  {}

  lemma InQueue(q: seq<RTPPacket>, p: RTPPacket)
    requires p in q
    ensures HasNumber(q, p.seqnr)
  {
    var i :| 0 <= i < |q| && q[i] == p;
    assert q[i].seqnr == p.seqnr;
  }

  lemma CheckedRtp(e: Source, sender: Option<Address>)
    ensures Checked(e, sender, true).Some? ==>
              var y := Checked(e, sender, true).value;
              && y == e.(isrtpaddrset := true, rtpaddr := sender)
              && y.isrtpaddrset && y.rtpaddr == sender && Checked(y, sender, true) == Some(y)
  {}

  lemma TookUnbound(e: Source, x: Source, p: RTPPacket, time: RTPTime, sender: Option<Address>, stored: bool)
    requires Took(e.(isrtpaddrset := true, rtpaddr := sender), x, p, time, sender, stored)
    ensures Took(e, x, p, time, sender, stored)
  {
    hide Receive, HasNumber;
  }

  /** An entry whose sender fits takes the packet. */
  lemma BoundTakes(b: Source, own: Option<u32>, p: RTPPacket, time: RTPTime, sender: Option<Address>)
    requires EntryOk(b, own) && Checked(b, sender, true).Some?
    ensures var (x, stored) := WithPacket(Checked(b, sender, true).value, p, time);
            Took(b, x, p, time, sender, stored) && x.iscsrc == b.iscsrc && x.ssrc == b.ssrc
  {
    hide Checked, WithPacket, Took, QueueOk, EntryOk;
    var y := Checked(b, sender, true).value;
    CheckedRtp(b, sender);
    CheckedKeeps(b, own, sender, true);
    OkQueue(y, own);
    PacketTakes(y, p, time, sender);
    var (x, stored) := WithPacket(y, p, time);
    TookUnbound(b, x, p, time, sender, stored);
    TookSsrc(b, x, p, time, sender, stored);
  }

  /** The packet's own entry, and no other, is the one it took. */
  lemma ReceivedBySource(t: Table, p: RTPPacket, time: RTPTime, sender: Option<Address>, ssrc: u32)
    requires Inv(t)
    ensures var e := EntryOf(t.entries, p.ssrc);
            match Received(t, p, time, sender)
            case None => e.Some? && !Fits(e.value, sender, true)
            case Some((u, stored)) =>
              && (e.None? || Fits(e.value, sender, true)) && u.probationtype == t.probationtype
              && EntryOf(u.entries, p.ssrc).Some?
              && Took(Base(e, p.ssrc, t.probationtype), EntryOf(u.entries, p.ssrc).value, p, time, sender, stored)
              && EntryOf(u.entries, p.ssrc).value.iscsrc == Base(e, p.ssrc, t.probationtype).iscsrc
              && (ssrc != p.ssrc ==> EntryOf(u.entries, ssrc) == EntryOf(t.entries, ssrc))
  {
    hide Inv, Checked, Find, EntryOf, Obtained, Replaced, Base, WithPacket, Took, Fits, EntryOk;
    var o, k := Obtained(t, p.ssrc), Find(t.entries, p.ssrc);
    ObtainedEntries(t, p.ssrc, ssrc);
    ObtainedEntries(t, p.ssrc, p.ssrc);
    ObtainedSame(t, p.ssrc);
    EntryInOrder(t, p.ssrc);
    var b := o.entries[k];
    BaseChecked(t, p.ssrc, sender);
    if Checked(b, sender, true).Some? {
      var y := Checked(b, sender, true).value;
      var x := WithPacket(y, p, time).0;
      BoundTakes(b, t.own, p, time, sender);
      ReplacedFrame(o, k, x);
      EntryReplaced(o.entries, k, x, ssrc);
      EntryReplaced(o.entries, k, x, p.ssrc);
    }
  }

  lemma OkQueue(e: Source, own: Option<u32>)
    requires EntryOk(e, own)
    ensures QueueOk(e)
  {}

  /** What stands for the entry of a source is in good order. */
  lemma EntryInOrder(t: Table, ssrc: u32)
    requires Inv(t)
    ensures EntryOk(Obtained(t, ssrc).entries[Find(t.entries, ssrc)], t.own)
  {
    hide CountSenders, CountActive, Find, EntryOk;
    ObtainedKeeps(t, ssrc);
  }

  lemma BaseChecked(t: Table, ssrc: u32, sender: Option<Address>)
    requires Inv(t)
    ensures var e := EntryOf(t.entries, ssrc);
            Checked(Obtained(t, ssrc).entries[Find(t.entries, ssrc)], sender, true).Some? <==>
              (e.None? || Fits(e.value, sender, true))
  {
    hide Inv, Fits, Bound;
    EntryIsBound(t, ssrc);
    if EntryOf(t.entries, ssrc).Some? {
      CheckedBinds(EntryOf(t.entries, ssrc).value, sender, true);
    }
  }

  // ----- The contributing sources -----

  /** What one mention makes of an entry. */
  function VouchedOnce(e: Option<Source>, ssrc: u32, probationtype: ProbationType, sender: Option<Address>)
    : Option<Source>
  {
    match e
    case None => Some(AsCsrc(NewSource(ssrc, probationtype)))
    case Some(s) =>
      match Checked(s, sender, true)
      case None => e
      case Some(y) => Some(AsCsrc(y))
  }

  lemma CsrcBySource(t: Table, c: u32, sender: Option<Address>, ssrc: u32)
    ensures var u := WithCsrc(t, c, sender);
            && u.probationtype == t.probationtype
            && EntryOf(u.entries, ssrc)
               == if ssrc != c then EntryOf(t.entries, ssrc)
                  else VouchedOnce(EntryOf(t.entries, c), c, t.probationtype, sender)
  {
    hide Checked, Find, Replaced;
    var o, k := Obtained(t, c), Find(t.entries, c);
    ObtainedEntries(t, c, ssrc);
    ObtainedSame(t, c);
    if Has(t.entries, c) {
      if Checked(t.entries[k], sender, true).Some? {
        CheckedSame(t.entries[k], sender);
        EntryReplaced(t.entries, k, AsCsrc(Checked(t.entries[k], sender, true).value), ssrc);
      }
    } else {
      ReplacedFrame(o, k, AsCsrc(o.entries[k]));
      EntryReplaced(o.entries, k, AsCsrc(o.entries[k]), ssrc);
    }
  }

  lemma VouchedNext(e: Option<Source>, x: Option<Source>, ssrc: u32, times: nat, probationtype: ProbationType,
          sender: Option<Address>)
    requires e.Some? ==> Bound(e.value)
    requires Vouched(e, x, ssrc, times, probationtype, sender)
    ensures Vouched(e, VouchedOnce(x, ssrc, probationtype, sender), ssrc, times + 1, probationtype, sender)
  {
    hide Fits, Bound, Checked;
    if e.Some? {
      CheckedBinds(e.value, sender, true);
      CheckedRtp(e.value, sender);
      if Checked(e.value, sender, true).Some? {
        BoundAgain(e.value, sender);
      }
    } else {
      NewBinds(ssrc, probationtype, sender);
    }
  }

  lemma BoundAgain(s: Source, sender: Option<Address>)
    requires Checked(s, sender, true).Some?
    ensures var y := AsCsrc(s.(isrtpaddrset := true, rtpaddr := sender));
            Checked(y, sender, true) == Some(y) && AsCsrc(y) == y
  {}

  lemma NewBinds(ssrc: u32, probationtype: ProbationType, sender: Option<Address>)
    ensures var n := AsCsrc(NewSource(ssrc, probationtype));
            var y := n.(isrtpaddrset := true, rtpaddr := sender);
            && Checked(n, sender, true) == Some(y) && AsCsrc(y) == y && Checked(y, sender, true) == Some(y)
  {}

  lemma {:induction false} CsrcsBySource(t: Table, csrcs: seq<u32>, sender: Option<Address>, ssrc: u32)
    requires Inv(t)
    ensures WithCsrcs(t, csrcs, sender).probationtype == t.probationtype
    ensures Vouched(EntryOf(t.entries, ssrc), EntryOf(WithCsrcs(t, csrcs, sender).entries, ssrc), ssrc,
                    Times(csrcs, ssrc), t.probationtype, sender)
    decreases |csrcs|
  {
    hide Inv, WithCsrc, EntryOf, Bound, Fits, VouchedOnce, Vouched;
    if |csrcs| == 0 {
      NotVouched(EntryOf(t.entries, ssrc), ssrc, t.probationtype, sender);
    } else {
      var n := |csrcs| - 1;
      var u := WithCsrcs(t, csrcs[..n], sender);
      CsrcsBySource(t, csrcs[..n], sender, ssrc);
      CsrcBySource(u, csrcs[n], sender, ssrc);
      if csrcs[n] == ssrc {
        EntryIsBound(t, ssrc);
        VouchedNext(EntryOf(t.entries, ssrc), EntryOf(u.entries, ssrc), ssrc, Times(csrcs[..n], ssrc), t.probationtype,
                    sender);
      }
    }
  }

  lemma NotVouched(e: Option<Source>, ssrc: u32, probationtype: ProbationType, sender: Option<Address>)
    ensures Vouched(e, e, ssrc, 0, probationtype, sender)
  {}

  lemma {:induction false} TimesIn(csrcs: seq<u32>, ssrc: u32)
    ensures Times(csrcs, ssrc) > 0 <==> ssrc in csrcs
    decreases |csrcs|
  {
    if |csrcs| > 0 {
      TimesIn(csrcs[..|csrcs| - 1], ssrc);
      assert csrcs == csrcs[..|csrcs| - 1] + [csrcs[|csrcs| - 1]];
    }
  }

  /** The packet's own entry is vouched for as well, when it names itself. */
  lemma VouchedItself(b: Source, y: Source, x: Option<Source>, p: RTPPacket, time: RTPTime, sender: Option<Address>,
          stored: bool, times: nat, probationtype: ProbationType)
    requires Took(b, y, p, time, sender, stored) && Bound(y) && (times > 0 ==> y.validated)
    requires Vouched(Some(y), x, y.ssrc, times, probationtype, sender)
    ensures x.Some? && Took(b, x.value, p, time, sender, stored) && x.value.validated == y.validated
    ensures x.value.iscsrc == (y.iscsrc || times > 0)
  {
    hide Receive, HasNumber, Counts;
    assert Fits(y, sender, true);
  }

  /** Every packet, whoever sends it: what it makes of its own source and of the contributing ones. */
  lemma PacketBecomes(t: Table, p: RTPPacket, time: RTPTime, sender: Option<Address>)
    requires Inv(t)
    ensures var (u, stored) := WithRtp(t, p, time, sender); TableTook(t, u, p, time, sender, stored)
  {
    hide Inv, Received, EntryOf, Fits, Took, Vouched, WithCsrcs, Bound, Contributing, Base;
    var e := EntryOf(t.entries, p.ssrc);
    ReceivedBySource(t, p, time, sender, p.ssrc);
    if Received(t, p, time, sender).Some? {
      var (mid, stored) := Received(t, p, time, sender).value;
      ReceivedKeeps(t, p, time, sender);
      var y := EntryOf(mid.entries, p.ssrc).value;
      ContributingIs(mid, p);
      var csrcs := Contributing(mid, p);
      EntryIsBound(mid, p.ssrc);
      CsrcsBySource(mid, csrcs, sender, p.ssrc);
      TimesIn(csrcs, p.ssrc);
      var u := WithCsrcs(mid, csrcs, sender);
      TookSsrc(Base(e, p.ssrc, t.probationtype), y, p, time, sender, stored);
      BaseSsrc(e, t.entries, p.ssrc, t.probationtype);
      VouchedItself(Base(e, p.ssrc, t.probationtype), y, EntryOf(u.entries, p.ssrc), p, time, sender, stored,
                    Times(csrcs, p.ssrc), t.probationtype);
      forall ssrc: u32 | ssrc != p.ssrc
        ensures Vouched(EntryOf(t.entries, ssrc), EntryOf(u.entries, ssrc), ssrc, Times(csrcs, ssrc), t.probationtype,
                        sender)
      {
        ReceivedBySource(t, p, time, sender, ssrc);
        CsrcsBySource(mid, csrcs, sender, ssrc);
      }
    }
  }

  lemma TookSsrc(b: Source, y: Source, p: RTPPacket, time: RTPTime, sender: Option<Address>, stored: bool)
    requires Took(b, y, p, time, sender, stored)
    ensures y.ssrc == b.ssrc
  {
    hide Receive, HasNumber, Counts;
  }

  lemma BaseSsrc(e: Option<Source>, es: seq<Source>, ssrc: u32, probationtype: ProbationType)
    requires e == EntryOf(es, ssrc)
    ensures Base(e, ssrc, probationtype).ssrc == ssrc
  {}

  lemma ContributingIs(u: Table, p: RTPPacket)
    requires EntryOf(u.entries, p.ssrc).Some?
    ensures Contributing(u, p) == NamedBy(p, EntryOf(u.entries, p.ssrc).value)
  {}

  // ----- Our own source -----

  /** A packet of ours makes our own entry a sender, from then on. */
  ghost predicate TableSent(t: Table, u: Table, now: RTPTime) {
    forall ssrc: u32 ::
      EntryOf(u.entries, ssrc) == match EntryOf(t.entries, ssrc)
                                  case None => None
                                  case Some(e) =>
                                    if t.own != Some(ssrc) then Some(e)
                                    else Some(e.(issender := true, lastrtptime := now, lastmsgtime := now))
  }

  /** Our own entry is there, validated and without an address, if it was not and the SSRC was free. */
  ghost predicate TableWithOwn(t: Table, u: Table, own: u32) {
    if t.own.Some? || EntryOf(t.entries, own).Some? then u == t
    else
      && u.own == Some(own)
      && forall ssrc: u32 ::
           EntryOf(u.entries, ssrc)
             == if ssrc != own then EntryOf(t.entries, ssrc)
                else Some(NewSource(own, t.probationtype).(ownssrc := true, validated := true, isrtpaddrset := true,
                                                           isrtcpaddrset := true))
  }

  /** Our own entry, and no other, is gone. */
  ghost predicate TableWithoutOwn(t: Table, u: Table) {
    && u.own == None
    && forall ssrc: u32 :: EntryOf(u.entries, ssrc) == if t.own == Some(ssrc) then None else EntryOf(t.entries, ssrc)
  }

  lemma SentBecomes(t: Table, now: RTPTime)
    requires Inv(t)
    ensures TableSent(t, WithSent(t, now), now)
  {
    hide EntryOk, CountSenders, CountActive, Find, Distinct;
    if t.own.Some? {
      var k := Find(t.entries, t.own.value);
      var x := t.entries[k].(issender := true, lastrtptime := now, lastmsgtime := now);
      ReplacedFrame(t, k, x);
      forall ssrc: u32
        ensures EntryOf(WithSent(t, now).entries, ssrc)
             == if t.own == Some(ssrc) then Some(x) else EntryOf(t.entries, ssrc)
      {
        EntryReplaced(t.entries, k, x, ssrc);
      }
    }
  }

  lemma OwnBecomes(t: Table, own: u32)
    ensures TableWithOwn(t, WithOwn(t, own), own)
  {
    hide Find;
    if t.own.None? && EntryOf(t.entries, own).None? {
      forall ssrc: u32
        ensures EntryOf(WithOwn(t, own).entries, ssrc)
             == if ssrc == own then Some(OwnSource(own, t.probationtype)) else EntryOf(t.entries, ssrc)
      {
        EntryAppended(t.entries, OwnSource(own, t.probationtype), ssrc);
      }
    }
  }

  lemma EntryWithout(es: seq<Source>, k: nat, ssrc: u32)
    requires k < |es| && Distinct(es)
    ensures EntryOf(Without(es, k), ssrc) == if es[k].ssrc == ssrc then None else EntryOf(es, ssrc)
  {
    hide Find;
    var rest := Without(es, k);
    var i, j := Find(es, ssrc), Find(rest, ssrc);
    if i < |es| && i != k {
      assert rest[if i < k then i else i - 1].ssrc == ssrc;
    }
    if j < |rest| {
      assert rest[j] == es[if j < k then j else j + 1];
    }
  }

  lemma WithoutOwnBecomes(t: Table)
    requires Inv(t)
    ensures TableWithoutOwn(t, WithoutOwn(t))
  {
    hide EntryOk, CountSenders, CountActive, Find, Distinct, EntryOf;
    if t.own.Some? {
      var k := Find(t.entries, t.own.value);
      forall ssrc: u32
        ensures EntryOf(WithoutOwn(t).entries, ssrc)
             == if t.own == Some(ssrc) then None else EntryOf(t.entries, ssrc)
      {
        EntryWithout(t.entries, k, ssrc);
      }
    }
  }
}
