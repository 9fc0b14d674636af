/** The entry of the source table as the object whose methods update it. */
module InternalSourceData {
  import opened Basics
  import opened Bytes
  import opened SourceStats
  import opened SourceState

  class RTPInternalSourceData {
    const ssrc: u32
    const probationtype: ProbationType
    var ownssrc: bool
    var iscsrc: bool
    var validated: bool
    var receivedbye: bool
    var issender: bool

    /** The statistics object is a member of the entry; its fields change one by one. */
    var stats: Stats
    var lastmsgtime: RTPTime
    var lastrtptime: RTPTime
    var lastnotetime: RTPTime

    var packetlist: seq<RTPPacket>
    var isrtpaddrset: bool
    var rtpaddr: Option<Address>
    var isrtcpaddrset: bool
    var rtcpaddr: Option<Address>
    var byetime: RTPTime
    var byereason: seq<byte>
    var items: map<ItemId, seq<byte>>
    /** Has had its report block in the packet being built. */
    var processedinrtcp: bool

    /** The entry as a value. */
    ghost function Info(): Source
      reads this
    {
      Source(ssrc, probationtype, ownssrc, iscsrc, validated, receivedbye, issender, stats,
             lastmsgtime, lastrtptime, lastnotetime, packetlist, isrtpaddrset, rtpaddr, isrtcpaddrset, rtcpaddr,
             byetime, byereason, items, processedinrtcp)
    }

    constructor (s: u32, probtype: ProbationType)
      ensures Info() == NewSource(s, probtype) && ssrc == s
    {
      ssrc, probationtype := s, probtype;
      ownssrc, iscsrc, validated, receivedbye, issender := false, false, false, false, false;
      stats := NO_STATS;
      lastmsgtime, lastrtptime, lastnotetime := ZERO_TIME, ZERO_TIME, ZERO_TIME;
      packetlist := [];
      isrtpaddrset, rtpaddr, isrtcpaddrset, rtcpaddr := false, None, false, None;
      byetime, byereason, items, processedinrtcp := ZERO_TIME, [], map[], false;
    }

    predicate IsActive()
      reads this
    {
      validated && !receivedbye
    }

    function Item(id: ItemId): seq<byte>
      reads this
    {
      if id in items then items[id] else []
    }

    /** The first packet that counts. */
    method AcceptPacket(sn: u16) returns (seqnr: u32)
      requires !stats.sentdata
      modifies this`stats
      ensures stats == Accepted(old(stats), sn).stats && seqnr == Accepted(old(stats), sn).seqnr
    {
      stats := stats.(sentdata := true);
      stats := stats.(packetsreceived := Add32(stats.packetsreceived, 1));
      stats := stats.(numnewpackets := Add32(stats.numnewpackets, 1));
      if sn == 0 {
        stats := stats.(baseseqnr := 0xFFFF);
        stats := stats.(numcycles := CYCLE);
      } else {
        stats := stats.(baseseqnr := sn - 1);
      }
      stats := stats.(exthighseqnr := Add32(stats.baseseqnr, 1));
      stats := stats.(savedextseqnr := stats.baseseqnr);
      seqnr := stats.exthighseqnr;
    }

    /** A packet before the first that counts, with probation. */
    method ProbePacket(sn: u16) returns (seqnr: u32, accept: bool, onprobation: bool)
      requires !stats.sentdata
      modifies this`stats
      ensures Reception(stats, seqnr, accept, onprobation) == OnProbation(old(stats), sn)
    {
      accept, onprobation, seqnr := false, false, sn;
      if stats.probation != 0 {
        var pseq := Next16(stats.prevseqnr);
        if pseq == sn {
          stats := stats.(prevseqnr := sn);
          stats := stats.(probation := stats.probation - 1);
          if stats.probation == 0 {
            accept := true;
          } else {
            onprobation := true;
          }
        } else {
          stats := stats.(probation := RTP_PROBATIONCOUNT);
          stats := stats.(prevseqnr := sn);
          onprobation := true;
        }
      } else {
        stats := stats.(probation := RTP_PROBATIONCOUNT);
        stats := stats.(prevseqnr := sn);
        onprobation := true;
      }
      if accept {
        seqnr := AcceptPacket(sn);
      }
    }

    /** A packet after the first that counts. */
    method ContinuePacket(sn: u16) returns (extseqnr: u32)
      requires stats.sentdata
      modifies this`stats
      ensures stats == Continued(old(stats), sn).stats && extseqnr == Continued(old(stats), sn).seqnr
    {
      stats := stats.(packetsreceived := Add32(stats.packetsreceived, 1));
      stats := stats.(numnewpackets := Add32(stats.numnewpackets, 1));
      var maxseq16: u16 := stats.exthighseqnr % CYCLE;
      if sn >= maxseq16 {
        extseqnr := Add32(stats.numcycles, sn);
        stats := stats.(exthighseqnr := extseqnr);
      } else {
        var dif1: u16 := (sn - maxseq16) % CYCLE;
        var dif2: u16 := (maxseq16 - sn) % CYCLE;
        if dif1 < dif2 {
          stats := stats.(numcycles := Add32(stats.numcycles, CYCLE));
          extseqnr := Add32(stats.numcycles, sn);
          stats := stats.(exthighseqnr := extseqnr);
        } else {
          extseqnr := Add32(stats.numcycles, sn);
        }
      }
    }

    /** RTPSourceStats::ProcessPacket, but for jitter; `seqnr` is the number written into the packet. */
    method ProcessPacket(sn: u16, receivetime: RTPTime, ownpacket: bool, applyprobation: bool)
      returns (seqnr: u32, accept: bool, onprobation: bool)
      modifies this`stats, this`lastmsgtime, this`lastrtptime
      ensures Reception(stats, seqnr, accept, onprobation) == Receive(old(stats), sn, applyprobation)
      ensures lastmsgtime == receivetime
      ensures lastrtptime == if accept && !ownpacket then receivetime else old(lastrtptime)
    {
      hide Accepted, OnProbation, Continued;
      AcceptedAccepts(stats, sn);
      accept, onprobation := true, false;
      if !stats.sentdata {
        if applyprobation {
          seqnr, accept, onprobation := ProbePacket(sn);
        } else {
          seqnr := AcceptPacket(sn);
        }
      } else {
        seqnr := ContinuePacket(sn);
      }
      lastmsgtime := receivetime;
      if accept && !ownpacket {
        lastrtptime := receivetime;
      }
    }

    method ProcessRTPPacket(rtppack: RTPPacket, receivetime: RTPTime) returns (stored: bool)
      requires rtppack.seqnr < CYCLE && QueueOk(Info())
      modifies this
      ensures (Info(), stored) == WithPacket(old(Info()), rtppack, receivetime)
    {
      hide Receive, QueueOk, Queued, Stored, Judged, Passes;
      stored := false;
      JudgedKeepsQueue(Info(), Arrival(Info(), rtppack), receivetime);
      var seqnr, go := Judge(rtppack.seqnr, receivetime);
      if go {
        stored := Enqueue(rtppack.(seqnr := seqnr));
      }
    }

    /** The statistics and the probation policy; `go` when the packet may enter the queue. */
    method Judge(sn: u16, receivetime: RTPTime) returns (seqnr: u32, go: bool)
      modifies this`stats, this`lastmsgtime, this`lastrtptime, this`validated, this`issender
      ensures var r := Receive(old(stats), sn, Applies(old(Info())));
              && Info() == Judged(old(Info()), r, receivetime)
              && seqnr == r.seqnr && go == Passes(old(Info()), r)
    {
      hide Receive;
      var applyprobation := if validated then false else probationtype != NoProbation;
      var accept, onprobation;
      seqnr, accept, onprobation := ProcessPacket(sn, receivetime, ownssrc, applyprobation);
      go := Settle(accept, onprobation);
    }

    /** The probation policy by type. */
    method Settle(accept: bool, onprobation: bool) returns (go: bool)
      modifies this`validated, this`issender
      ensures go == (accept || (probationtype == ProbationStore && onprobation))
      ensures validated == (old(validated) || accept)
      ensures issender == (old(issender) || (go && validated && !ownssrc))
    {
      go := true;
      match probationtype {
        case ProbationStore =>
          if !(onprobation || accept) {
            go := false;
          } else if accept {
            validated := true;
          }
        case _ =>
          if !accept {
            go := false;
          } else {
            validated := true;
          }
      }
      if go && validated && !ownssrc {
        issender := true;
      }
    }

    /** Puts the packet in its place in the queue, from the back, unless its number is there already. */
    method Enqueue(rtppack: RTPPacket) returns (stored: bool)
      requires StrictlyIncreasing(packetlist)
      modifies this`packetlist
      ensures packetlist == Queued(old(packetlist), validated, rtppack)
      ensures stored == Stored(old(packetlist), validated, rtppack)
    {
      if packetlist == [] {
        stored := true;
        packetlist := [rtppack];
      } else {
        if !validated && |packetlist| == MAXPROBATIONPACKETS {
          packetlist := packetlist[1..];
        }
        assert packetlist == old(packetlist)[|Evicted(old(packetlist), validated)|..];
        stored := Insert(rtppack);
      }
    }

    method Insert(rtppack: RTPPacket) returns (stored: bool)
      requires StrictlyIncreasing(packetlist) && packetlist != []
      modifies this`packetlist
      ensures packetlist == Inserted(old(packetlist), rtppack)
      ensures stored == !HasNumber(old(packetlist), rtppack.seqnr)
    {
      hide HasNumber, Inserted;
      var q := packetlist;
      var newseqnr := rtppack.seqnr;
      var it := |q| - 1;
      var done := false;
      stored := false;
      while !done
        invariant 0 <= it < |q| && (!done ==> packetlist == q && !stored)
        invariant forall i :: it < i < |q| ==> q[i].seqnr > newseqnr
        invariant done ==> packetlist == Inserted(q, rtppack) && stored == !HasNumber(q, newseqnr)
        decreases !done, it
      {
        var seqnr := q[it].seqnr;
        if seqnr > newseqnr {
          if it != 0 {
            it := it - 1;
          } else {
            InsertedFirst(q, rtppack);
            stored := true;
            done := true;
            packetlist := [rtppack] + q;
          }
        } else if seqnr < newseqnr {
          InsertedAfter(q, it, rtppack);
          packetlist := q[..it + 1] + [rtppack] + q[it + 1..];
          done := true;
          stored := true;
        } else {
          InsertedNowhere(q, it, rtppack);
          done := true;
        }
      }
    }

    method ProcessSDESItem(sdesid: ItemId, data: seq<byte>, receivetime: RTPTime) returns (cnamecollis: bool)
      modifies this`items, this`validated, this`lastmsgtime, this`lastnotetime
      ensures (Info(), cnamecollis) == WithItem(old(Info()), sdesid, data, receivetime)
    {
      hide Takes;
      cnamecollis := StoreItem(sdesid, data);
      lastmsgtime := receivetime;
      if sdesid == NOTE {
        lastnotetime := receivetime;
      }
    }

    /** A CNAME, name, e-mail address or tool is only set once; a second CNAME may be found to collide. */
    method StoreItem(sdesid: ItemId, data: seq<byte>) returns (cnamecollis: bool)
      modifies this`items, this`validated
      ensures items == if Takes(old(Info()), sdesid) then old(items)[sdesid := data] else old(items)
      ensures validated == (old(validated) || (sdesid == CNAME && Takes(old(Info()), sdesid)))
      ensures cnamecollis == (sdesid == CNAME && !Takes(old(Info()), sdesid) && old(Item(CNAME)) != data)
    {
      cnamecollis := false;
      match sdesid {
        case CNAME =>
          if |Item(CNAME)| == 0 {
            items := items[CNAME := data];
            validated := true;
          } else {
            cnamecollis := Item(CNAME) != data;
          }
        case NAME => SetOnce(NAME, data);
        case EMAIL => SetOnce(EMAIL, data);
        case TOOL => SetOnce(TOOL, data);
        case PHONE => items := items[PHONE := data];
        case LOC => items := items[LOC := data];
        case NOTE => items := items[NOTE := data];
      }
    }

    method SetOnce(id: ItemId, data: seq<byte>)
      modifies this`items
      ensures items == if |old(Item(id))| == 0 then old(items)[id := data] else old(items)
    {
      if |Item(id)| == 0 {
        items := items[id := data];
      }
    }

    method ProcessBYEPacket(reason: seq<byte>, receivetime: RTPTime)
      modifies this`byetime, this`byereason, this`receivedbye, this`lastmsgtime
      ensures Info() == WithBye(old(Info()), reason, receivetime)
    {
      byetime := receivetime;
      byereason := reason;
      receivedbye := true;
      lastmsgtime := receivetime;
    }

    /** Also what sender information and report blocks do here. */
    method UpdateMessageTime(receivetime: RTPTime)
      modifies this
      ensures Info() == old(Info()).(lastmsgtime := receivetime)
    {
      lastmsgtime := receivetime;
    }

    method SetRTPDataAddress(a: Option<Address>)
      modifies this
      ensures Info() == WithRtpAddress(old(Info()), a)
    {
      rtpaddr := a;
      isrtpaddrset := true;
    }

    method SetRTCPDataAddress(a: Option<Address>)
      modifies this
      ensures Info() == WithRtcpAddress(old(Info()), a)
    {
      rtcpaddr := a;
      isrtcpaddrset := true;
    }

    method ClearSenderFlag()
      modifies this
      ensures Info() == old(Info()).(issender := false)
    {
      issender := false;
    }

    method SentRTPPacket(now: RTPTime)
      modifies this
      ensures Info() == if old(ownssrc) then old(Info()).(issender := true, lastrtptime := now, lastmsgtime := now)
                        else old(Info())
    {
      if ownssrc {
        issender := true;
        lastrtptime := now;
        lastmsgtime := now;
      }
    }

    method SetOwnSSRC()
      modifies this
      ensures Info() == old(Info()).(ownssrc := true, validated := true)
    {
      ownssrc := true;
      validated := true;
    }

    method SetCSRC()
      modifies this
      ensures Info() == old(Info()).(validated := true, iscsrc := true)
    {
      validated := true;
      iscsrc := true;
    }

    method ClearNote()
      modifies this
      ensures Info() == old(Info()).(items := old(items)[NOTE := []])
    {
      items := items[NOTE := []];
    }

    /** The packet with the lowest number, once the source is validated. */
    method GetNextPacket() returns (p: Option<RTPPacket>)
      modifies this
      ensures (Info(), p) == Extracted(old(Info()))
    {
      if !validated || packetlist == [] {
        p := None;
      } else {
        p := Some(packetlist[0]);
        packetlist := packetlist[1..];
      }
    }

    method SetProcessedInRTCP(v: bool)
      modifies this
      ensures Info() == old(Info()).(processedinrtcp := v)
    {
      processedinrtcp := v;
    }

    method StartNewInterval()
      modifies this
      ensures Info() == old(Info()).(stats := NewInterval(old(stats)))
    {
      stats := stats.(numnewpackets := 0);
      stats := stats.(savedextseqnr := stats.exthighseqnr);
    }
  }

  lemma AcceptedAccepts(s: Stats, sn: u16)
    ensures Accepted(s, sn).accept && !Accepted(s, sn).onprobation && Continued(s, sn).accept
    ensures !Continued(s, sn).onprobation
  {}

  lemma JudgedKeepsQueue(s: Source, r: Reception, receivetime: RTPTime)
    requires QueueOk(s)
    ensures var t := Judged(s, r, receivetime); StrictlyIncreasing(t.packetlist) && t.packetlist == s.packetlist
  {}

  /** The search passes over the packets with higher numbers. */
  lemma {:induction false} InsertedBelow(q: seq<RTPPacket>, k: nat, p: RTPPacket)
    requires k <= |q| && forall i :: k <= i < |q| ==> q[i].seqnr > p.seqnr
    ensures Inserted(q, p) == Inserted(q[..k], p) + q[k..]
    decreases |q|
  {
    if k == |q| {
      assert q[..k] == q && q[k..] == [];
    } else {
      var n := |q| - 1;
      InsertedBelow(q[..n], k, p);
      assert q[..n][..k] == q[..k] && q[..n][k..] + [q[n]] == q[k..];
    }
  }

  lemma InsertedFirst(q: seq<RTPPacket>, p: RTPPacket)
    requires forall i :: 0 <= i < |q| ==> q[i].seqnr > p.seqnr
    ensures Inserted(q, p) == [p] + q && !HasNumber(q, p.seqnr)
  {
    InsertedBelow(q, 0, p);
  }

  lemma InsertedAfter(q: seq<RTPPacket>, k: nat, p: RTPPacket)
    requires k < |q| && StrictlyIncreasing(q) && q[k].seqnr < p.seqnr
    requires forall i :: k < i < |q| ==> q[i].seqnr > p.seqnr
    ensures Inserted(q, p) == q[..k + 1] + [p] + q[k + 1..] && !HasNumber(q, p.seqnr)
  {
    InsertedBelow(q, k + 1, p);
  }

  lemma InsertedNowhere(q: seq<RTPPacket>, k: nat, p: RTPPacket)
    requires k < |q| && q[k].seqnr == p.seqnr && forall i :: k < i < |q| ==> q[i].seqnr > p.seqnr
    ensures Inserted(q, p) == q && HasNumber(q, p.seqnr)
  {
    InsertedBelow(q, k + 1, p);
  }
}
