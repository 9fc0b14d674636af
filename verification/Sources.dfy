/** The source table as the object that the session drives. */
module Sources {
  import opened Basics
  import opened Bytes
  import opened SourceStats
  import opened SourceState
  import opened SourceTable
  import opened SourceRuns
  import opened SourceReports
  import opened SourceTimeouts
  import opened CompoundEffects
  import opened PacketEffects
  import opened InternalSourceData
  import SdesFormat
  import RtcpFormat

  const OK := 0
  const ERR_RTP_SOURCES_ALREADYHAVEOWNSSRC := -1
  const ERR_RTP_SOURCES_SSRCEXISTS := -2
  const ERR_RTP_SOURCES_DONTHAVEOWNSSRC := -3

  ghost function Infos(list: seq<RTPInternalSourceData>): (es: seq<Source>)
    reads list
    ensures |es| == |list| && forall i :: 0 <= i < |list| ==> es[i] == list[i].Info()
  {
    if |list| == 0 then [] else Infos(list[..|list| - 1]) + [list[|list| - 1].Info()]
  }

  lemma InfosSnoc(list: seq<RTPInternalSourceData>, x: RTPInternalSourceData)
    ensures Infos(list + [x]) == Infos(list) + [x.Info()]
  {
    assert (list + [x])[..|list|] == list;
  }

  lemma InfosWithout(list: seq<RTPInternalSourceData>, k: nat)
    requires k < |list|
    ensures Infos(Without(list, k)) == Without(Infos(list), k)
  {
    hide RTPInternalSourceData.Info, Infos, Without;
    var rest, es := Without(list, k), Infos(list);
    var a, b := Infos(rest), Without(es, k);
    WithoutPlaces(list, k);
    WithoutPlaces(es, k);
    assert |a| == |b|;
  }

  lemma WithoutPlaces<T>(s: seq<T>, k: nat)
    requires k < |s|
    ensures |Without(s, k)| == |s| - 1
    ensures forall i :: 0 <= i < |s| - 1 ==> Without(s, k)[i] == s[if i < k then i else i + 1]
  {}

  ghost predicate Apart(list: seq<RTPInternalSourceData>) {
    forall i, j :: 0 <= i < j < |list| ==> list[i].ssrc != list[j].ssrc
  }

  lemma ApartSnoc(list: seq<RTPInternalSourceData>, x: RTPInternalSourceData)
    requires Apart(list) && forall j :: 0 <= j < |list| ==> list[j].ssrc != x.ssrc
    ensures Apart(list + [x])
  {}

  /** Only one entry has changed since the table read `before`. */
  lemma OneChanged(list: seq<RTPInternalSourceData>, k: nat, before: seq<Source>)
    requires k < |list| == |before|
    requires forall i :: 0 <= i < |list| && i != k ==> list[i].Info() == before[i]
    ensures Infos(list) == before[k := list[k].Info()]
  {
    hide RTPInternalSourceData.Info, Infos;
  }

  class RTPSources {
    var sourcelist: seq<RTPInternalSourceData>
    var sendercount: int
    var totalcount: int
    var activecount: int
    var probationtype: ProbationType
    var owndata: RTPInternalSourceData?

    ghost function Own(): Option<u32>
      reads this`owndata
    {
      if owndata == null then None else Some(owndata.ssrc)
    }

    /** The table as a value. */
    ghost function State(): Table
      reads this, sourcelist
    {
      Table(Infos(sourcelist), totalcount, sendercount, activecount, Own(), probationtype)
    }

    ghost predicate Linked()
      reads this`sourcelist, this`owndata
    {
      Apart(sourcelist) && (owndata != null ==> owndata in sourcelist)
    }

    ghost predicate Valid()
      reads this, sourcelist
    {
      Linked() && Inv(State())
    }

    constructor (probtype: ProbationType)
      ensures State() == EmptyTable(probtype)
      ensures Valid()
    {
      sourcelist, owndata, probationtype := [], null, probtype;
      totalcount, sendercount, activecount := 0, 0, 0;
    }

    /** The entry for `ssrc`, new or known; `k` is its place. */
    method ObtainSourceDataInstance(ssrc: u32) returns (srcdat: RTPInternalSourceData, created: bool, ghost k: nat)
      requires Valid()
      modifies this`sourcelist, this`totalcount
      ensures State() == Obtained(old(State()), ssrc) && Linked()
      ensures k == Find(old(State()).entries, ssrc) < |sourcelist| && sourcelist[k] == srcdat
      ensures created == !Has(old(State()).entries, ssrc) && srcdat.ssrc == ssrc
      ensures if created then fresh(srcdat) && sourcelist == old(sourcelist) + [srcdat]
              else sourcelist == old(sourcelist)
    {
      hide Inv, RTPInternalSourceData.Info, Infos, Find, NewSource, Apart;
      ghost var before := Infos(sourcelist);
      var i := GotoElement(ssrc);
      k := i;
      if i == |sourcelist| {
        srcdat := new RTPInternalSourceData(ssrc, probationtype);
        InfosSnoc(sourcelist, srcdat);
        ApartSnoc(sourcelist, srcdat);
        sourcelist := sourcelist + [srcdat];
        created := true;
        totalcount := totalcount + 1;
      } else {
        srcdat := sourcelist[i];
        created := false;
      }
    }

    /** The place of an entry, or the end. */
    method GotoElement(ssrc: u32) returns (i: nat)
      ensures i == Find(Infos(sourcelist), ssrc) && i <= |sourcelist|
      ensures (i < |sourcelist| ==> sourcelist[i].ssrc == ssrc)
      ensures forall j :: 0 <= j < i ==> sourcelist[j].ssrc != ssrc
    {
      i := 0;
      while i < |sourcelist| && sourcelist[i].ssrc != ssrc
        invariant i <= |sourcelist| && forall j :: 0 <= j < i ==> sourcelist[j].ssrc != ssrc
      {
        i := i + 1;
      }
      ghost var es := Infos(sourcelist);
      assert i < |es| ==> es[i].ssrc == ssrc;
      assert forall j :: 0 <= j < i ==> es[j].ssrc != ssrc;
    }

    /** True when the packet must be ignored; otherwise the sender's address is known afterwards. */
    method CheckCollision(srcdat: RTPInternalSourceData, senderaddress: Option<Address>, isrtp: bool)
            returns (collision: bool)
      modifies srcdat
      ensures Checked(old(srcdat.Info()), senderaddress, isrtp)
           == if collision then None else Some(srcdat.Info())
      ensures collision ==> srcdat.Info() == old(srcdat.Info())
    {
      var isset, addr, otherisset, otheraddr;
      if isrtp {
        isset, addr, otherisset, otheraddr :=
            srcdat.isrtpaddrset, srcdat.rtpaddr, srcdat.isrtcpaddrset, srcdat.rtcpaddr;
      } else {
        isset, addr, otherisset, otheraddr :=
            srcdat.isrtcpaddrset, srcdat.rtcpaddr, srcdat.isrtpaddrset, srcdat.rtpaddr;
      }
      collision := false;
      if !isset {
        if otherisset {
          if otheraddr.None? {
            collision := senderaddress.Some?;
          } else {
            collision := !SameHost(otheraddr.value, senderaddress);
          }
        }
        if !collision {
          if isrtp {
            srcdat.SetRTPDataAddress(senderaddress);
          } else {
            srcdat.SetRTCPDataAddress(senderaddress);
          }
        }
      } else if addr.None? {
        collision := senderaddress.Some?;
      } else {
        collision := !SameAddress(addr.value, senderaddress);
      }
    }

    /** The entry a packet is for, with its address bound, or nothing when the address collides. */
    method AdmittedSource(ssrc: u32, senderaddress: Option<Address>, isrtp: bool)
      returns (srcdat: RTPInternalSourceData?, created: bool, ghost k: nat)
      requires Valid()
      modifies this`sourcelist, this`totalcount, sourcelist
      ensures k == Find(old(State()).entries, ssrc) && Linked()
      ensures var o := Obtained(old(State()), ssrc);
              var c := Checked(o.entries[k], senderaddress, isrtp);
              if srcdat == null then c.None? && State() == old(State()) && sourcelist == old(sourcelist)
              else && c.Some? && k < |sourcelist| && sourcelist[k] == srcdat && srcdat.Info() == c.value
                   && State() == o.(entries := o.entries[k := c.value])
      ensures srcdat != null ==> srcdat.ssrc == ssrc
      ensures srcdat != null ==>
                if created then fresh(srcdat) && sourcelist == old(sourcelist) + [srcdat]
                else sourcelist == old(sourcelist)
    {
      hide Inv, Checked, Obtained, Find, RTPInternalSourceData.Info, Infos;
      var src;
      src, created, k := ObtainSourceDataInstance(ssrc);
      NewIsChecked(ssrc, probationtype, senderaddress, isrtp);
      ObtainedEntry(old(State()), ssrc);
      ghost var before := Infos(sourcelist);
      var collision := false;
      if created {
        if isrtp {
          src.SetRTPDataAddress(senderaddress);
        } else {
          src.SetRTCPDataAddress(senderaddress);
        }
      } else {
        collision := CheckCollision(src, senderaddress, isrtp);
      }
      assert forall i :: 0 <= i < |sourcelist| && i != k ==> sourcelist[i] != src;
      OneChanged(sourcelist, k, before);
      srcdat := if collision then null else src;
    }

    // ----- Packets -----

    method ProcessRTPPacket(rtppack: RTPPacket, receivetime: RTPTime, senderaddress: Option<Address>)
            returns (stored: bool)
      requires Valid() && rtppack.seqnr < CYCLE
      modifies this, sourcelist
      ensures (State(), stored) == WithRtp(old(State()), rtppack, receivetime, senderaddress)
      ensures TableTook(old(State()), State(), rtppack, receivetime, senderaddress, stored)
      ensures Valid()
      ensures forall j :: 0 <= j < |sourcelist| ==> sourcelist[j] in old(sourcelist) || fresh(sourcelist[j])
    {
      hide Received, Contributing, WithCsrcs, RTPSources.Valid, RTPSources.State, TableTook;
      TookByPacket(rtppack, receivetime, senderaddress);
      var csrcs;
      stored, csrcs := ReceivePacket(rtppack, receivetime, senderaddress);
      ProcessCSRCs(csrcs, senderaddress);
    }

    lemma TookByPacket(rtppack: RTPPacket, receivetime: RTPTime, senderaddress: Option<Address>)
      requires Valid()
      ensures var (u, stored) := WithRtp(State(), rtppack, receivetime, senderaddress);
              TableTook(State(), u, rtppack, receivetime, senderaddress, stored)
    {
      hide Inv, Infos, WithRtp, TableTook, RTPSources.Linked;
      PacketEffects.PacketBecomes(State(), rtppack, receivetime, senderaddress);
    }

    /** The packet at its source, and the contributing sources that it then vouches for. */
    method ReceivePacket(rtppack: RTPPacket, receivetime: RTPTime, senderaddress: Option<Address>)
            returns (stored: bool, csrcs: seq<u32>)
      requires Valid() && rtppack.seqnr < CYCLE
      modifies this, sourcelist
      ensures match Received(old(State()), rtppack, receivetime, senderaddress)
              case None => State() == old(State()) && !stored && WithCsrcs(State(), csrcs, senderaddress) == State()
              case Some((u, s)) => State() == u && stored == s && csrcs == Contributing(u, rtppack)
      ensures Valid()
      ensures forall j :: 0 <= j < |sourcelist| ==> sourcelist[j] in old(sourcelist) || fresh(sourcelist[j])
    {
      hide Inv, Checked, Obtained, Find, RTPInternalSourceData.Info, Infos, WithPacket, Replaced, WithCsrcs, Drift,
           Received, Contributing;
      stored, csrcs := false, [];
      ghost var before := State();
      var srcdat, created, k := AdmittedSource(rtppack.ssrc, senderaddress, true);
      ReceivedAt(before, rtppack, receivetime, senderaddress);
      NoCsrcs(before, senderaddress);
      if srcdat != null {
        AdmittedOk(before, rtppack.ssrc, senderaddress, true);
        stored := ReceiveAt(srcdat, k, rtppack, receivetime);
        ReceivedKeeps(before, rtppack, receivetime, senderaddress);
        Reflags(srcdat);
        ContributingAt(State(), k, rtppack);
        if srcdat.validated {
          csrcs := rtppack.csrcs;
        }
      }
    }

    /** The packet at its own source, with the counts following. */
    method ReceiveAt(srcdat: RTPInternalSourceData, ghost k: nat, rtppack: RTPPacket, receivetime: RTPTime)
            returns (stored: bool)
      requires Linked() && k < |sourcelist| && sourcelist[k] == srcdat
      requires QueueOk(srcdat.Info()) && rtppack.seqnr < CYCLE
      modifies this`sendercount, this`activecount, srcdat
      ensures var (x, s) := WithPacket(old(srcdat.Info()), rtppack, receivetime);
              State() == Replaced(old(State()), k, x) && stored == s && srcdat.Info() == x
    {
      hide RTPInternalSourceData.Info, Infos, WithPacket, QueueOk, Apart;
      ghost var e, es := srcdat.Info(), Infos(sourcelist);
      PacketGrows(e, rtppack, receivetime);
      OthersDiffer(sourcelist, k);
      Reflags(srcdat);
      var prevsender, prevactive := srcdat.issender, srcdat.IsActive();
      stored := srcdat.ProcessRTPPacket(rtppack, receivetime);
      Reflags(srcdat);
      OneChanged(sourcelist, k, es);
      if !prevsender && srcdat.issender {
        sendercount := sendercount + 1;
      }
      if !prevactive && srcdat.IsActive() {
        activecount := activecount + 1;
      }
    }

    /** The loop over the contributing sources. */
    method ProcessCSRCs(csrcs: seq<u32>, senderaddress: Option<Address>)
      requires Valid()
      modifies this, sourcelist
      ensures State() == WithCsrcs(old(State()), csrcs, senderaddress)
      ensures Valid()
      ensures forall j :: 0 <= j < |sourcelist| ==> sourcelist[j] in old(sourcelist) || fresh(sourcelist[j])
    {
      hide Inv, Infos, RTPInternalSourceData.Info, Drift, WithCsrc, Uncounted;
      ghost var before := State();
      for i := 0 to |csrcs|
        invariant forall j :: 0 <= j < |sourcelist| ==> sourcelist[j] in old(sourcelist) || fresh(sourcelist[j])
        invariant Valid() && State() == WithCsrcs(before, csrcs[..i], senderaddress)
      {
        CsrcKeeps(State(), csrcs[i], senderaddress);
        ProcessCSRC(csrcs[i], senderaddress);
        CsrcsSnoc(before, csrcs, i, senderaddress);
      }
      assert csrcs[..|csrcs|] == csrcs;
    }

    method ProcessCSRC(csrc: u32, senderaddress: Option<Address>)
      requires Valid()
      modifies this, sourcelist
      ensures State() == WithCsrc(old(State()), csrc, senderaddress)
      ensures Valid()
      ensures forall j :: 0 <= j < |sourcelist| ==> sourcelist[j] in old(sourcelist) || fresh(sourcelist[j])
    {
      hide Inv, Checked, Find, RTPInternalSourceData.Info, Infos, Drift, Uncounted, Replaced;
      CsrcKeeps(State(), csrc, senderaddress);
      ghost var before := State();
      var csrcdat, createdcsrc, k := ObtainSourceDataInstance(csrc);
      ObtainedEntry(before, csrc);
      if createdcsrc {
        NewCsrc(csrcdat, k);
      } else {
        KnownCsrc(csrcdat, senderaddress, k);
      }
      assert State() == WithCsrc(before, csrc, senderaddress);
    }

    method NewCsrc(csrcdat: RTPInternalSourceData, ghost k: nat)
      requires Linked() && k < |sourcelist| && sourcelist[k] == csrcdat && !csrcdat.Info().IsActive()
      requires !csrcdat.Info().receivedbye
      modifies this`activecount, csrcdat
      ensures State() == Replaced(old(State()), k, AsCsrc(old(csrcdat.Info())))
    {
      hide RTPInternalSourceData.Info, Infos;
      ghost var es := Infos(sourcelist);
      Reflags(csrcdat);
      csrcdat.SetCSRC();
      Reflags(csrcdat);
      OneChanged(sourcelist, k, es);
      if csrcdat.IsActive() {
        activecount := activecount + 1;
      }
    }

    method KnownCsrc(csrcdat: RTPInternalSourceData, senderaddress: Option<Address>, ghost k: nat)
      requires Linked() && k < |sourcelist| && sourcelist[k] == csrcdat
      modifies csrcdat
      ensures var c := Checked(old(csrcdat.Info()), senderaddress, true);
              State() == if c.None? then old(State())
                         else old(State()).(entries := old(State()).entries[k := AsCsrc(c.value)])
    {
      hide RTPInternalSourceData.Info, Infos, Checked;
      ghost var es := Infos(sourcelist);
      var collision := CheckCollision(csrcdat, senderaddress, true);
      if !collision {
        csrcdat.SetCSRC();
      }
      OneChanged(sourcelist, k, es);
    }

    /** UpdateReceiveTime; sender information and report blocks come to the same here. */
    method UpdateReceiveTime(ssrc: u32, receivetime: RTPTime, senderaddress: Option<Address>)
      requires Valid()
      modifies this, sourcelist
      ensures State() == WithRtcp(old(State()), ssrc, Touch, receivetime, senderaddress)
      ensures Valid()
      ensures forall j :: 0 <= j < |sourcelist| ==> sourcelist[j] in old(sourcelist) || fresh(sourcelist[j])
    {
      hide Inv, Checked, Obtained, Find, RTPInternalSourceData.Info, Infos, Drift;
      RtcpKeeps(State(), ssrc, Touch, receivetime, senderaddress);
      RtcpAt(State(), ssrc, Touch, receivetime, senderaddress);
      var srcdat, created, k := AdmittedSource(ssrc, senderaddress, false);
      if srcdat != null {
        ghost var es := Infos(sourcelist);
        srcdat.UpdateMessageTime(receivetime);
        OneChanged(sourcelist, k, es);
      }
    }

    method ProcessSDESNormalItem(ssrc: u32, sdesid: ItemId, itemdata: seq<byte>, receivetime: RTPTime,
            senderaddress: Option<Address>)
      requires Valid()
      modifies this, sourcelist
      ensures State() == WithRtcp(old(State()), ssrc, Item(sdesid, itemdata), receivetime, senderaddress)
      ensures Valid()
      ensures forall j :: 0 <= j < |sourcelist| ==> sourcelist[j] in old(sourcelist) || fresh(sourcelist[j])
    {
      hide Inv, Checked, Obtained, Find, RTPInternalSourceData.Info, Infos, Drift, WithItem, Replaced;
      ghost var c := Item(sdesid, itemdata);
      RtcpKeeps(State(), ssrc, c, receivetime, senderaddress);
      RtcpAt(State(), ssrc, c, receivetime, senderaddress);
      var srcdat, created, k := AdmittedSource(ssrc, senderaddress, false);
      if srcdat != null {
        ItemAt(srcdat, k, sdesid, itemdata, receivetime);
      }
    }

    method ItemAt(srcdat: RTPInternalSourceData, ghost k: nat, sdesid: ItemId, itemdata: seq<byte>,
            receivetime: RTPTime)
      requires Linked() && k < |sourcelist| && sourcelist[k] == srcdat
      modifies this`activecount, srcdat
      ensures State() == Replaced(old(State()), k, WithItem(old(srcdat.Info()), sdesid, itemdata, receivetime).0)
    {
      hide RTPInternalSourceData.Info, Infos, Takes;
      ghost var es := Infos(sourcelist);
      Reflags(srcdat);
      var prevactive := srcdat.IsActive();
      var cnamecollis := srcdat.ProcessSDESItem(sdesid, itemdata, receivetime);
      Reflags(srcdat);
      OneChanged(sourcelist, k, es);
      if !prevactive && srcdat.IsActive() {
        activecount := activecount + 1;
      }
    }

    /** A BYE for our own source is ignored. */
    method ProcessBYE(ssrc: u32, reason: seq<byte>, receivetime: RTPTime, senderaddress: Option<Address>)
      requires Valid()
      modifies this, sourcelist
      ensures State() == WithRtcp(old(State()), ssrc, Bye(reason), receivetime, senderaddress)
      ensures Valid()
      ensures forall j :: 0 <= j < |sourcelist| ==> sourcelist[j] in old(sourcelist) || fresh(sourcelist[j])
    {
      hide Inv, Checked, Obtained, Find, RTPInternalSourceData.Info, Infos, Drift, WithBye, Replaced;
      ghost var c := Bye(reason);
      RtcpKeeps(State(), ssrc, c, receivetime, senderaddress);
      RtcpAt(State(), ssrc, c, receivetime, senderaddress);
      ghost var before := State();
      var srcdat, created, k := AdmittedSource(ssrc, senderaddress, false);
      if srcdat != null {
        OwnByIdentity(sourcelist, k, owndata);
        if srcdat != owndata {
          ByeAt(srcdat, k, reason, receivetime);
        } else {
          ReplacedSelf(State(), k);
        }
      }
    }

    method ByeAt(srcdat: RTPInternalSourceData, ghost k: nat, reason: seq<byte>, receivetime: RTPTime)
      requires Linked() && k < |sourcelist| && sourcelist[k] == srcdat
      modifies this`activecount, srcdat
      ensures State() == Replaced(old(State()), k, WithBye(old(srcdat.Info()), reason, receivetime))
    {
      hide RTPInternalSourceData.Info, Infos;
      ghost var es := Infos(sourcelist);
      Reflags(srcdat);
      var prevactive := srcdat.IsActive();
      srcdat.ProcessBYEPacket(reason, receivetime);
      Reflags(srcdat);
      OneChanged(sourcelist, k, es);
      if prevactive && !srcdat.IsActive() {
        activecount := activecount - 1;
      }
    }

    // ----- Compound packets -----

    /** The table has come from `before` by the events of the outcome. */
    ghost predicate Follows(before: Table, o: Outcome)
      reads this, sourcelist
    {
      Valid() && State() == Run(before, o.events) && Own() == before.own
    }

    lemma OwnOfState()
      ensures State().own == Own()
    {}

    /** Processes the packets of a compound packet, as their accessors read them, until one stops it. */
    method ProcessRTCPCompoundPacket(contents: seq<RtcpFormat.Contents>, receivetime: RTPTime,
            senderaddress: Option<Address>)
      returns (ok: bool)
      requires Valid()
      modifies this, sourcelist
      ensures var o := CompoundOutcome(contents, old(Own()), receivetime, senderaddress);
              Follows(old(State()), o) && ok == o.ok
      ensures TableBecame(old(State()), State(), contents, receivetime, senderaddress)
      ensures ok == (Until(contents) == contents)
      ensures forall j :: 0 <= j < |sourcelist| ==> sourcelist[j] in old(sourcelist) || fresh(sourcelist[j])
    {
      hide Inv, Infos, Run, CompoundOutcome, TableBecame, Until, RTPSources.Linked;
      CompoundBecomes(State(), contents, receivetime, senderaddress);
      OwnOfState();
      var own := if owndata == null then None else Some(owndata.ssrc);
      ok := ProcessPackets(contents, own, receivetime, senderaddress);
    }

    /** The loop over the packets. */
    method ProcessPackets(contents: seq<RtcpFormat.Contents>, own: Option<u32>, receivetime: RTPTime,
            senderaddress: Option<Address>) returns (ok: bool)
      requires Valid()
      modifies this, sourcelist
      ensures var o := CompoundOutcome(contents, own, receivetime, senderaddress);
              Follows(old(State()), o) && ok == o.ok
      ensures forall j :: 0 <= j < |sourcelist| ==> sourcelist[j] in old(sourcelist) || fresh(sourcelist[j])
    {
      hide RTPSources.Valid, RTPSources.State, RTPSources.Own, Run, Remaining, PacketOutcome, Outcome.Then;
      ghost var before, whole, done: seq<Event> :=
          State(), CompoundOutcome(contents, own, receivetime, senderaddress), [];
      ok := true;
      var i := 0;
      BeginRun(before);
      OwnOfState();
      assert contents[0..] == contents;
      Beginning(whole);
      while ok && i < |contents|
        invariant Follows(before, Outcome(done, true)) && i <= |contents|
        invariant Remaining(whole, done, ok, CompoundOutcome(contents[i..], own, receivetime, senderaddress))
        invariant forall j :: 0 <= j < |sourcelist| ==> sourcelist[j] in old(sourcelist) || fresh(sourcelist[j])
        decreases ok, |contents| - i
      {
        ghost var next := PacketOutcome(contents[i], own, receivetime, senderaddress);
        assert contents[i..][0] == contents[i] && contents[i..][1..] == contents[i + 1..];
        OwnOfState();
        ok := ProcessPacket(contents[i], own, receivetime, senderaddress);
        TakeNext(whole, done, next, CompoundOutcome(contents[i + 1..], own, receivetime, senderaddress));
        RunConcat(before, done, next.events);
        done := done + next.events;
        i := i + 1;
      }
      Finished(whole, done, ok, CompoundOutcome(contents[i..], own, receivetime, senderaddress));
    }

    /** The loop over the chunks of a source description. */
    method ProcessChunks(chunks: seq<SdesFormat.Chunk>, receivetime: RTPTime, senderaddress: Option<Address>)
            returns (ok: bool)
      requires Valid()
      modifies this, sourcelist
      ensures var o := ChunksOutcome(chunks, receivetime, senderaddress); Follows(old(State()), o) && ok == o.ok
      ensures forall j :: 0 <= j < |sourcelist| ==> sourcelist[j] in old(sourcelist) || fresh(sourcelist[j])
    {
      hide RTPSources.Valid, RTPSources.State, RTPSources.Own, Run, Remaining, ChunkOutcome, Outcome.Then;
      ghost var before, whole, done: seq<Event> := State(), ChunksOutcome(chunks, receivetime, senderaddress), [];
      ok := true;
      var i := 0;
      BeginRun(before);
      OwnOfState();
      assert chunks[0..] == chunks;
      Beginning(whole);
      while ok && i < |chunks|
        invariant Follows(before, Outcome(done, true)) && i <= |chunks|
        invariant Remaining(whole, done, ok, ChunksOutcome(chunks[i..], receivetime, senderaddress))
        invariant forall j :: 0 <= j < |sourcelist| ==> sourcelist[j] in old(sourcelist) || fresh(sourcelist[j])
        decreases ok, |chunks| - i
      {
        ghost var next := ChunkOutcome(chunks[i], receivetime, senderaddress);
        assert chunks[i..][0] == chunks[i] && chunks[i..][1..] == chunks[i + 1..];
        OwnOfState();
        ok := ProcessChunk(chunks[i], receivetime, senderaddress);
        TakeNext(whole, done, next, ChunksOutcome(chunks[i + 1..], receivetime, senderaddress));
        RunConcat(before, done, next.events);
        done := done + next.events;
        i := i + 1;
      }
      Finished(whole, done, ok, ChunksOutcome(chunks[i..], receivetime, senderaddress));
    }

    /** The loop over the items of a chunk. */
    method ProcessItems(ssrc: u32, items: seq<SdesFormat.Item>, receivetime: RTPTime,
            senderaddress: Option<Address>) returns (ok: bool)
      requires Valid()
      modifies this, sourcelist
      ensures var o := ItemsOutcome(ssrc, items, receivetime, senderaddress); Follows(old(State()), o) && ok == o.ok
      ensures forall j :: 0 <= j < |sourcelist| ==> sourcelist[j] in old(sourcelist) || fresh(sourcelist[j])
    {
      hide RTPSources.Valid, RTPSources.State, RTPSources.Own, Run, Remaining, ItemOutcome, Outcome.Then;
      ghost var before, whole, done: seq<Event> := State(), ItemsOutcome(ssrc, items, receivetime, senderaddress), [];
      ok := true;
      var i := 0;
      BeginRun(before);
      OwnOfState();
      assert items[0..] == items;
      Beginning(whole);
      while ok && i < |items|
        invariant Follows(before, Outcome(done, true)) && i <= |items|
        invariant Remaining(whole, done, ok, ItemsOutcome(ssrc, items[i..], receivetime, senderaddress))
        invariant forall j :: 0 <= j < |sourcelist| ==> sourcelist[j] in old(sourcelist) || fresh(sourcelist[j])
        decreases ok, |items| - i
      {
        ghost var next := ItemOutcome(ssrc, items[i], receivetime, senderaddress);
        assert items[i..][0] == items[i] && items[i..][1..] == items[i + 1..];
        OwnOfState();
        ok := ProcessItem(ssrc, items[i], receivetime, senderaddress);
        TakeNext(whole, done, next, ItemsOutcome(ssrc, items[i + 1..], receivetime, senderaddress));
        RunConcat(before, done, next.events);
        done := done + next.events;
        i := i + 1;
      }
      Finished(whole, done, ok, ItemsOutcome(ssrc, items[i..], receivetime, senderaddress));
    }

    method ProcessPacket(c: RtcpFormat.Contents, own: Option<u32>, receivetime: RTPTime, senderaddress: Option<Address>)
      returns (ok: bool)
      requires Valid()
      modifies this, sourcelist
      ensures var o := PacketOutcome(c, own, receivetime, senderaddress); Follows(old(State()), o) && ok == o.ok
      ensures own == old(Own()) ==> TableBecame(old(State()), State(), [c], receivetime, senderaddress)
      ensures forall j :: 0 <= j < |sourcelist| ==> sourcelist[j] in old(sourcelist) || fresh(sourcelist[j])
    {
      hide RTPSources.Valid, RTPSources.State, RTPSources.Own, Run, ReportsOutcome, ChunksOutcome, ByesOutcome,
           TableBecame;
      PacketBecomes(c, receivetime, senderaddress);
      ghost var before := State();
      BeginRun(before);
      OwnOfState();
      match c {
        case SenderReport(ssrc, _, blocks) =>
          ok := ProcessTouch(ssrc, receivetime, senderaddress);
          OwnOfState();
          ghost var first, next := Told(ssrc, Touch, receivetime, senderaddress),
              ReportsOutcome(ssrc, blocks, own, receivetime, senderaddress);
          ok := ProcessReports(ssrc, blocks, own, receivetime, senderaddress);
          RunConcat(before, first.events, next.events);
        case ReceiverReport(ssrc, blocks) =>
          ok := ProcessReports(ssrc, blocks, own, receivetime, senderaddress);
        case Descriptions(chunks) =>
          ok := ProcessChunks(chunks, receivetime, senderaddress);
        case Goodbye(bye) =>
          ok := ProcessByes(bye.ssrcs, bye.reason, receivetime, senderaddress);
        case _ =>
          ok := true;
      }
    }

    lemma PacketBecomes(c: RtcpFormat.Contents, receivetime: RTPTime, senderaddress: Option<Address>)
      requires Valid()
      ensures var o := PacketOutcome(c, Own(), receivetime, senderaddress);
              TableBecame(State(), Run(State(), o.events), [c], receivetime, senderaddress)
    {
      hide Inv, Infos, Run, CompoundOutcome, PacketOutcome, TableBecame, RTPSources.Linked;
      CompoundBecomes(State(), [c], receivetime, senderaddress);
      OnePacket(c, Own(), receivetime, senderaddress);
    }

    /** The report blocks about us, or the bare fact that the sender is there. */
    method ProcessReports(ssrc: u32, blocks: seq<RtcpFormat.ReportBlock>, own: Option<u32>, receivetime: RTPTime,
            senderaddress: Option<Address>)
      returns (ok: bool)
      requires Valid()
      modifies this, sourcelist
      ensures var o := ReportsOutcome(ssrc, blocks, own, receivetime, senderaddress);
              Follows(old(State()), o) && ok == o.ok
      ensures forall j :: 0 <= j < |sourcelist| ==> sourcelist[j] in old(sourcelist) || fresh(sourcelist[j])
    {
      hide RTPSources.Valid, RTPSources.State, RTPSources.Own, Run, BlocksOutcome, Outcome.Then, Remaining, Told;
      ghost var before, whole, done: seq<Event> :=
          State(), BlocksOutcome(ssrc, blocks, own, receivetime, senderaddress), [];
      BeginRun(before);
      OwnOfState();
      assert blocks[0..] == blocks;
      Beginning(whole);
      var gotinfo := false;
      for i := 0 to |blocks|
        invariant Follows(before, Outcome(done, true))
        invariant gotinfo == AboutUs(blocks[..i], own) && (!gotinfo ==> done == [])
        invariant Remaining(whole, done, true, BlocksOutcome(ssrc, blocks[i..], own, receivetime, senderaddress))
        invariant forall j :: 0 <= j < |sourcelist| ==> sourcelist[j] in old(sourcelist) || fresh(sourcelist[j])
      {
        ghost var rest := BlocksOutcome(ssrc, blocks[i + 1..], own, receivetime, senderaddress);
        BlocksStep(ssrc, blocks, i, own, receivetime, senderaddress);
        if own == Some(blocks[i].ssrc) {
          gotinfo := true;
          ghost var next := Told(ssrc, Touch, receivetime, senderaddress);
          OwnOfState();
          var _ := ProcessTouch(ssrc, receivetime, senderaddress);
          ToldIsOk(ssrc, Touch, receivetime, senderaddress);
          TakeNext(whole, done, next, rest);
          RunConcat(before, done, next.events);
          done := done + next.events;
        }
      }
      assert blocks[..|blocks|] == blocks;
      NoBlocks(ssrc, blocks[|blocks|..], own, receivetime, senderaddress);
      Finished(whole, done, true, BlocksOutcome(ssrc, blocks[|blocks|..], own, receivetime, senderaddress));
      ok := true;
      if !gotinfo {
        ToldIsOk(ssrc, Touch, receivetime, senderaddress);
        ok := ProcessTouch(ssrc, receivetime, senderaddress);
      }
    }

    /** The loop over the sources that say goodbye. */
    method ProcessByes(ssrcs: seq<u32>, reason: seq<byte>, receivetime: RTPTime,
            senderaddress: Option<Address>) returns (ok: bool)
      requires Valid()
      modifies this, sourcelist
      ensures var o := ByesOutcome(ssrcs, reason, receivetime, senderaddress); Follows(old(State()), o) && ok == o.ok
      ensures forall j :: 0 <= j < |sourcelist| ==> sourcelist[j] in old(sourcelist) || fresh(sourcelist[j])
    {
      hide RTPSources.Valid, RTPSources.State, RTPSources.Own, Run, Remaining, Told, Outcome.Then;
      ghost var before, whole, done: seq<Event> := State(), ByesOutcome(ssrcs, reason, receivetime, senderaddress), [];
      ok := true;
      var i := 0;
      BeginRun(before);
      OwnOfState();
      assert ssrcs[0..] == ssrcs;
      Beginning(whole);
      while ok && i < |ssrcs|
        invariant Follows(before, Outcome(done, true)) && i <= |ssrcs|
        invariant Remaining(whole, done, ok, ByesOutcome(ssrcs[i..], reason, receivetime, senderaddress))
        invariant forall j :: 0 <= j < |sourcelist| ==> sourcelist[j] in old(sourcelist) || fresh(sourcelist[j])
        decreases ok, |ssrcs| - i
      {
        ghost var next := Told(ssrcs[i], Bye(reason), receivetime, senderaddress);
        assert ssrcs[i..][0] == ssrcs[i] && ssrcs[i..][1..] == ssrcs[i + 1..];
        OwnOfState();
        ok := ProcessGoodbye(ssrcs[i], reason, receivetime, senderaddress);
        TakeNext(whole, done, next, ByesOutcome(ssrcs[i + 1..], reason, receivetime, senderaddress));
        RunConcat(before, done, next.events);
        done := done + next.events;
        i := i + 1;
      }
      Finished(whole, done, ok, ByesOutcome(ssrcs[i..], reason, receivetime, senderaddress));
    }

    method ProcessGoodbye(ssrc: u32, reason: seq<byte>, receivetime: RTPTime, senderaddress: Option<Address>)
            returns (ok: bool)
      requires Valid()
      modifies this, sourcelist
      ensures var o := Told(ssrc, Bye(reason), receivetime, senderaddress); Follows(old(State()), o) && ok == o.ok
      ensures forall j :: 0 <= j < |sourcelist| ==> sourcelist[j] in old(sourcelist) || fresh(sourcelist[j])
    {
      hide Inv, WithRtcp, Run;
      RunOne(State(), Rtcp(ssrc, Bye(reason), receivetime, senderaddress));
      OwnSame(State(), ssrc, Bye(reason), receivetime, senderaddress);
      ProcessBYE(ssrc, reason, receivetime, senderaddress);
      ok := true;
    }

    method ProcessChunk(c: SdesFormat.Chunk, receivetime: RTPTime, senderaddress: Option<Address>) returns (ok: bool)
      requires Valid()
      modifies this, sourcelist
      ensures var o := ChunkOutcome(c, receivetime, senderaddress); Follows(old(State()), o) && ok == o.ok
      ensures forall j :: 0 <= j < |sourcelist| ==> sourcelist[j] in old(sourcelist) || fresh(sourcelist[j])
    {
      hide RTPSources.Valid, RTPSources.State, ItemsOutcome, Run, Step;
      if c.items == [] {
        ok := ProcessTouch(c.ssrc, receivetime, senderaddress);
      } else {
        ok := ProcessItems(c.ssrc, c.items, receivetime, senderaddress);
      }
    }

    method ProcessTouch(ssrc: u32, receivetime: RTPTime, senderaddress: Option<Address>) returns (ok: bool)
      requires Valid()
      modifies this, sourcelist
      ensures ok && Follows(old(State()), Told(ssrc, Touch, receivetime, senderaddress))
      ensures forall j :: 0 <= j < |sourcelist| ==> sourcelist[j] in old(sourcelist) || fresh(sourcelist[j])
    {
      hide Inv, WithRtcp, Run;
      RunOne(State(), Rtcp(ssrc, Touch, receivetime, senderaddress));
      OwnSame(State(), ssrc, Touch, receivetime, senderaddress);
      UpdateReceiveTime(ssrc, receivetime, senderaddress);
      ok := true;
    }

    method ProcessItem(ssrc: u32, i: SdesFormat.Item, receivetime: RTPTime, senderaddress: Option<Address>)
            returns (ok: bool)
      requires Valid()
      modifies this, sourcelist
      ensures var o := ItemOutcome(ssrc, i, receivetime, senderaddress); Follows(old(State()), o) && ok == o.ok
      ensures forall j :: 0 <= j < |sourcelist| ==> sourcelist[j] in old(sourcelist) || fresh(sourcelist[j])
    {
      hide Inv, WithRtcp, Run;
      BeginRun(State());
      if i.id == SdesFormat.SDES_ID_PRIVATE {
        ok := ProcessTouch(ssrc, receivetime, senderaddress);
      } else {
        match KindOf(i.id) {
          case None =>
            ok := false;
          case Some(kind) =>
            RunOne(State(), Rtcp(ssrc, Item(kind, i.value), receivetime, senderaddress));
            OwnSame(State(), ssrc, Item(kind, i.value), receivetime, senderaddress);
            ProcessSDESNormalItem(ssrc, kind, i.value, receivetime, senderaddress);
            ok := true;
        }
      }
    }

    // ----- Our own source -----

    method CreateOwnSSRC(ssrc: u32) returns (status: int)
      requires Valid()
      modifies this, sourcelist
      ensures State() == WithOwn(old(State()), ssrc)
      ensures TableWithOwn(old(State()), State(), ssrc)
      ensures Valid()
      ensures status == if old(State()).own.Some? then ERR_RTP_SOURCES_ALREADYHAVEOWNSSRC
                        else if Has(old(State()).entries, ssrc) then ERR_RTP_SOURCES_SSRCEXISTS else OK
      ensures forall j :: 0 <= j < |sourcelist| ==> sourcelist[j] in old(sourcelist) || fresh(sourcelist[j])
    {
      hide Inv, Find, RTPInternalSourceData.Info, Infos, Drift, OwnSource, TableWithOwn;
      OwnKeeps(State(), ssrc);
      OwnBecomes(State(), ssrc);
      var i := GotoElement(ssrc);
      if owndata != null {
        status := ERR_RTP_SOURCES_ALREADYHAVEOWNSSRC;
      } else if i < |sourcelist| {
        status := ERR_RTP_SOURCES_SSRCEXISTS;
      } else {
        AddOwn(ssrc);
        status := OK;
      }
    }

    method AddOwn(ssrc: u32)
      requires Valid() && owndata == null && !Has(State().entries, ssrc)
      modifies this
      ensures State() == WithOwn(old(State()), ssrc) && Linked()
      ensures forall j :: 0 <= j < |sourcelist| ==> sourcelist[j] in old(sourcelist) || fresh(sourcelist[j])
    {
      hide Inv, Find, RTPInternalSourceData.Info, Infos, Has, NewSource, WithOwn, Obtained;
      ghost var before := State();
      OwnAdded(before, ssrc);
      var src, created;
      ghost var k;
      src, created, k := ObtainSourceDataInstance(ssrc);
      ghost var es := Infos(sourcelist);
      BindOwn(src);
      OneChanged(sourcelist, k, es);
      assert Infos(sourcelist) == before.entries + [src.Info()];
      activecount := activecount + 1;
      owndata := src;
    }

    method BindOwn(srcdat: RTPInternalSourceData)
      modifies srcdat
      ensures var own := old(srcdat.Info()).(ownssrc := true, validated := true);
              srcdat.Info() == WithRtcpAddress(WithRtpAddress(own, None), None)
    {
      hide RTPInternalSourceData.Info;
      srcdat.SetOwnSSRC();
      srcdat.SetRTPDataAddress(None);
      srcdat.SetRTCPDataAddress(None);
    }

    method DeleteOwnSSRC() returns (status: int)
      requires Valid()
      modifies this
      ensures State() == WithoutOwn(old(State()))
      ensures TableWithoutOwn(old(State()), State())
      ensures Valid()
      ensures status == if old(State()).own.None? then ERR_RTP_SOURCES_DONTHAVEOWNSSRC else OK
      ensures forall j :: 0 <= j < |sourcelist| ==> sourcelist[j] in old(sourcelist)
    {
      hide Inv, WithoutOwn, RTPInternalSourceData.Info, Infos, Drift, TableWithoutOwn;
      WithoutOwnKeeps(State());
      WithoutOwnBecomes(State());
      if owndata == null {
        NoOwn(State());
        status := ERR_RTP_SOURCES_DONTHAVEOWNSSRC;
      } else {
        DropOwn();
        status := OK;
      }
    }

    method DropOwn()
      requires Linked() && owndata != null
      modifies this
      ensures State() == WithoutOwn(old(State())) && Linked()
      ensures forall j :: 0 <= j < |sourcelist| ==> sourcelist[j] in old(sourcelist)
    {
      hide Find, RTPInternalSourceData.Info, Infos, Apart;
      var i := GotoElement(owndata.ssrc);
      Reflags(owndata);
      PlaceOfOwn(sourcelist, i, owndata);
      InfosWithout(sourcelist, i);
      ApartWithout(sourcelist, i);
      sourcelist := Without(sourcelist, i);
      totalcount := totalcount - 1;
      if owndata.issender {
        sendercount := sendercount - 1;
      }
      if owndata.IsActive() {
        activecount := activecount - 1;
      }
      owndata := null;
    }

    method SentRTPPacket(now: RTPTime)
      requires Valid()
      modifies this, sourcelist
      ensures State() == WithSent(old(State()), now)
      ensures TableSent(old(State()), State(), now)
      ensures Valid()
      ensures sourcelist == old(sourcelist)
    {
      hide Find, RTPInternalSourceData.Info, Infos, Drift, CountActive, CountSenders, Bound, QueueOk, TableSent;
      SentKeeps(State(), now);
      SentBecomes(State(), now);
      if owndata != null {
        ghost var k := Find(Infos(sourcelist), owndata.ssrc);
        ghost var es := Infos(sourcelist);
        OwnByIdentity(sourcelist, k, owndata);
        Reflags(owndata);
        assert EntryOk(es[k], State().own);
        var prevsender := owndata.issender;
        owndata.SentRTPPacket(now);
        Reflags(owndata);
        OneChanged(sourcelist, k, es);
        if !prevsender && owndata.issender {
          sendercount := sendercount + 1;
        }
      }
    }

    /** The next packet of the entry at `k`, where the table's cursor would stand. */
    method GetNextPacket(k: nat) returns (p: Option<RTPPacket>)
      requires Valid()
      modifies sourcelist
      ensures State() == WithExtraction(old(State()), k)
      ensures Valid()
      ensures p == if k < |sourcelist| then Extracted(old(State()).entries[k]).1 else None
    {
      hide Find, RTPInternalSourceData.Info, Infos, Drift, CountActive, CountSenders, EntryOk, Extracted;
      ExtractionKeeps(State(), k);
      p := None;
      if k < |sourcelist| {
        ghost var es := Infos(sourcelist);
        p := sourcelist[k].GetNextPacket();
        OneChanged(sourcelist, k, es);
      }
    }

    // ----- Timeouts -----

    /** What the passes need: everything but the counts. */
    ghost predicate Sound()
      reads this, sourcelist
    {
      && Linked() && Distinct(State().entries)
      && (forall i :: 0 <= i < |sourcelist| ==> EntryOk(State().entries[i], Own()))
      && (Own().Some? ==> Has(State().entries, Own().value))
    }

    /** A pass with `n` of the entries `was` handled and `i` of them left, before which they read `before`. */
    ghost predicate Halfway(p: Pass, was: seq<RTPInternalSourceData>, before: seq<Source>, i: nat, n: nat)
      reads this`sourcelist, this`owndata, sourcelist, was
    {
      && Linked() && i <= |sourcelist| && n <= |was| == |before| && sourcelist[i..] == was[n..]
      && Infos(sourcelist[..i]) == Swept(p, before[..n], Own())
      && (forall j :: n <= j < |was| ==> was[j].Info() == before[j])
      && (forall j :: 0 <= j < |sourcelist| ==> sourcelist[j] in was)
    }

    /** The counts taken afresh on the way. */
    ghost predicate Counted(i: nat, newtotalcount: int, newsendercount: int, newactivecount: int)
      requires i <= |sourcelist|
      reads this`sourcelist, sourcelist
    {
      var es := Infos(sourcelist[..i]);
      newtotalcount == i && newsendercount == CountSenders(es) && newactivecount == CountActive(es)
    }

    /** The same with the entry in hand perhaps changed already. */
    ghost predicate InHand(p: Pass, was: seq<RTPInternalSourceData>, before: seq<Source>, i: nat, n: nat)
      reads this`sourcelist, this`owndata, sourcelist, was
    {
      && Linked() && i < |sourcelist| && n < |was| == |before| && sourcelist[i..] == was[n..]
      && Infos(sourcelist[..i]) == Swept(p, before[..n], Own())
      && (forall j :: n < j < |was| ==> was[j].Info() == before[j])
      && (forall j :: 0 <= j < |sourcelist| ==> sourcelist[j] in was)
    }

    lemma TakeInHand(p: Pass, was: seq<RTPInternalSourceData>, before: seq<Source>, i: nat, n: nat)
      requires Halfway(p, was, before, i, n) && i < |sourcelist|
      ensures n < |was| == |before| && InHand(p, was, before, i, n) && was[n] == sourcelist[i]
      ensures sourcelist[i].Info() == before[n]
      ensures sourcelist[i] == owndata <==> Own() == Some(before[n].ssrc)
    {
      hide RTPInternalSourceData.Info, Infos, Swept;
      assert sourcelist[i..][0] == was[n..][0];
      OwnByIdentity(sourcelist, i, owndata);
      Reflags(sourcelist[i]);
    }

    /** The entry in hand stays, as the pass leaves it. */
    lemma KeepInHand(p: Pass, was: seq<RTPInternalSourceData>, before: seq<Source>, i: nat, n: nat, total: int,
            senders: int, active: int)
      requires InHand(p, was, before, i, n) && Counted(i, total, senders, active)
      requires Left(p, before[n], Own() == Some(before[n].ssrc)) == Some(sourcelist[i].Info())
      ensures Halfway(p, was, before, i + 1, n + 1)
      ensures Counted(i + 1, total + 1, senders + (if sourcelist[i].issender then 1 else 0),
                      active + (if sourcelist[i].IsActive() then 1 else 0))
    {
      hide RTPInternalSourceData.Info, Infos, Swept, Left, CountSenders, CountActive, RTPInternalSourceData.IsActive;
      KeptEntry(sourcelist, i, p, before, n, Own());
      assert sourcelist[i + 1..] == sourcelist[i..][1..];
      assert was[n + 1..] == was[n..][1..];
    }

    /** The entry in hand stays and is counted. */
    method CountInHand(ghost p: Pass, ghost was: seq<RTPInternalSourceData>, ghost before: seq<Source>, i: nat,
            ghost n: nat, total: int, senders: int, active: int)
      returns (newtotal: int, newsenders: int, newactive: int)
      requires InHand(p, was, before, i, n) && Counted(i, total, senders, active)
      requires Left(p, before[n], Own() == Some(before[n].ssrc)) == Some(sourcelist[i].Info())
      ensures Halfway(p, was, before, i + 1, n + 1) && Counted(i + 1, newtotal, newsenders, newactive)
    {
      hide RTPInternalSourceData.Info, Infos, Swept, Left, CountSenders, CountActive, RTPInternalSourceData.IsActive,
           RTPSources.Counted, RTPSources.Halfway, RTPSources.Linked;
      KeepInHand(p, was, before, i, n, total, senders, active);
      var srcdat := sourcelist[i];
      newtotal, newsenders, newactive := total + 1, senders, active;
      if srcdat.issender {
        newsenders := newsenders + 1;
      }
      if srcdat.IsActive() {
        newactive := newactive + 1;
      }
    }

    /** The entry in hand goes, and the counts with it. */
    method DropInHand(ghost p: Pass, ghost was: seq<RTPInternalSourceData>, ghost before: seq<Source>, i: nat,
            ghost n: nat,
                      ghost total: int, ghost senders: int, ghost active: int)
      requires InHand(p, was, before, i, n) && Counted(i, total, senders, active) && sourcelist[i] != owndata
      requires Left(p, before[n], Own() == Some(before[n].ssrc)).None?
      modifies this`sourcelist, this`totalcount, this`sendercount, this`activecount
      ensures Halfway(p, was, before, i, n + 1) && Counted(i, total, senders, active)
      ensures |sourcelist| == |old(sourcelist)| - 1
    {
      hide RTPInternalSourceData.Info, Infos, Swept, Left, CountSenders, CountActive, RTPInternalSourceData.IsActive;
      Gone(p, before, n, Own());
      ghost var list := sourcelist;
      RemoveAt(i);
      assert sourcelist[i..] == list[i..][1..];
      assert was[n + 1..] == was[n..][1..];
      assert sourcelist[..i] == list[..i];
    }

    /** Leaves out the sources not heard from for `timeoutdelay`. */
    method Timeout(curtime: RTPTime, timeoutdelay: RTPTime)
      requires Sound()
      modifies this
      ensures State() == WithPass(old(State()), GeneralPass(Minus(curtime, timeoutdelay)))
      ensures Valid()
      ensures var es, d := old(State()).entries, Delays(None, None, Some(timeoutdelay), None);
              AllNormal(es, curtime, d) ==> TimedOutIn(es, State().entries, Own(), curtime, d)
      ensures forall j :: 0 <= j < |sourcelist| ==> sourcelist[j] in old(sourcelist)
    {
      hide RTPInternalSourceData.Info, Infos, Inv, EntryOk, CountSenders, CountActive, Swept, Minus, Before, Find,
           WithPass, RTPSources.Halfway, RTPSources.InHand, RTPSources.Counted,
           AllNormal, TimedOutIn, Distinct, Has, RTPSources.Linked, RTPSources.Own;
      var newtotalcount, newsendercount, newactivecount := 0, 0, 0;
      var checktime := Minus(curtime, timeoutdelay);
      ghost var p, t, was := GeneralPass(checktime), State(), sourcelist;
      PassKeeps(t, p);
      StartPass(p);
      var i := 0;
      ghost var n := 0;
      while i < |sourcelist|
        invariant i <= |sourcelist| && Halfway(p, was, t.entries, i, n)
        invariant Counted(i, newtotalcount, newsendercount, newactivecount)
        invariant Own() == t.own && probationtype == t.probationtype
        decreases |sourcelist| - i
      {
        var srcdat := sourcelist[i];
        TakeInHand(p, was, t.entries, i, n);
        Reflags(srcdat);
        var lastmsgtime := srcdat.lastmsgtime;
        if srcdat != owndata && Before(lastmsgtime, checktime) {
          DropInHand(p, was, t.entries, i, n, newtotalcount, newsendercount, newactivecount);
        } else {
          newtotalcount, newsendercount, newactivecount :=
            CountInHand(p, was, t.entries, i, n, newtotalcount, newsendercount, newactivecount);
          i := i + 1;
        }
        n := n + 1;
      }
      TakeCounts(p, t, was, i, n, newtotalcount, newsendercount, newactivecount);
      TimedOutByPass(t, p, curtime, Delays(None, None, Some(timeoutdelay), None));
    }

    /** Takes the sender flag away when it has timed out. */
    method ClearSenderInHand(check: RTPTime, ghost p: Pass, ghost was: seq<RTPInternalSourceData>,
            ghost before: seq<Source>,
                             i: nat, ghost n: nat, ghost total: int, ghost senders: int, ghost active: int)
      requires i < |sourcelist| && InHand(p, was, before, i, n) && Counted(i, total, senders, active) && Apart(was)
      modifies this`sendercount, sourcelist[i]
      ensures InHand(p, was, before, i, n) && Counted(i, total, senders, active)
      ensures sourcelist[i].Info() == SenderCleared(old(sourcelist[i].Info()), check)
    {
      hide RTPInternalSourceData.Info, Infos, Swept, CountSenders, CountActive, Before, SenderCleared;
      var srcdat := sourcelist[i];
      SenderSame(srcdat.Info(), check);
      Reflags(srcdat);
      if srcdat.issender {
        var lastrtppacktime := srcdat.lastrtptime;
        if Before(lastrtppacktime, check) {
          srcdat.ClearSenderFlag();
          sendercount := sendercount - 1;
        }
      }
    }

    /** Drops the note when it has timed out. */
    method ClearNoteInHand(check: RTPTime, ghost p: Pass, ghost was: seq<RTPInternalSourceData>,
            ghost before: seq<Source>,
                           i: nat, ghost n: nat, ghost total: int, ghost senders: int, ghost active: int)
      requires i < |sourcelist| && InHand(p, was, before, i, n) && Counted(i, total, senders, active) && Apart(was)
      modifies sourcelist[i]
      ensures InHand(p, was, before, i, n) && Counted(i, total, senders, active)
      ensures sourcelist[i].Info() == NoteCleared(old(sourcelist[i].Info()), check)
    {
      hide RTPInternalSourceData.Info, Infos, Swept, CountSenders, CountActive, Before, NoteCleared,
           RTPInternalSourceData.Item, Source.Item;
      var srcdat := sourcelist[i];
      NoteSame(srcdat.Info(), check);
      Reflags(srcdat);
      if |srcdat.Item(NOTE)| != 0 {
        var notetime := srcdat.lastnotetime;
        if Before(notetime, check) {
          srcdat.ClearNote();
        }
      }
    }

    /** Leaves out the sources whose BYE is `timeoutdelay` old. */
    method BYETimeout(curtime: RTPTime, timeoutdelay: RTPTime)
      requires Sound()
      modifies this
      ensures State() == WithPass(old(State()), ByePass(Minus(curtime, timeoutdelay)))
      ensures Valid()
      ensures var es, d := old(State()).entries, Delays(None, Some(timeoutdelay), None, None);
              AllNormal(es, curtime, d) ==> TimedOutIn(es, State().entries, Own(), curtime, d)
      ensures forall j :: 0 <= j < |sourcelist| ==> sourcelist[j] in old(sourcelist)
    {
      hide RTPInternalSourceData.Info, Infos, Inv, EntryOk, CountSenders, CountActive, Swept, Minus, Before, Find,
           WithPass, RTPSources.Halfway, RTPSources.InHand, RTPSources.Counted,
           AllNormal, TimedOutIn, Distinct, Has, RTPSources.Linked, RTPSources.Own;
      var newtotalcount, newsendercount, newactivecount := 0, 0, 0;
      var checktime := Minus(curtime, timeoutdelay);
      ghost var p, t, was := ByePass(checktime), State(), sourcelist;
      PassKeeps(t, p);
      StartPass(p);
      var i := 0;
      ghost var n := 0;
      while i < |sourcelist|
        invariant i <= |sourcelist| && Halfway(p, was, t.entries, i, n)
        invariant Counted(i, newtotalcount, newsendercount, newactivecount)
        invariant Own() == t.own && probationtype == t.probationtype
        decreases |sourcelist| - i
      {
        var srcdat := sourcelist[i];
        TakeInHand(p, was, t.entries, i, n);
        Reflags(srcdat);
        if srcdat.receivedbye && srcdat != owndata && Before(srcdat.byetime, checktime) {
          DropInHand(p, was, t.entries, i, n, newtotalcount, newsendercount, newactivecount);
        } else {
          newtotalcount, newsendercount, newactivecount :=
            CountInHand(p, was, t.entries, i, n, newtotalcount, newsendercount, newactivecount);
          i := i + 1;
        }
        n := n + 1;
      }
      TakeCounts(p, t, was, i, n, newtotalcount, newsendercount, newactivecount);
      TimedOutByPass(t, p, curtime, Delays(None, Some(timeoutdelay), None, None));
    }

    /** One entry in the sender pass. */
    method SweepSender(check: RTPTime, ghost was: seq<RTPInternalSourceData>, ghost before: seq<Source>, i: nat,
            ghost n: nat, total: int, senders: int, active: int)
      returns (newtotal: int, newsenders: int, newactive: int)
      requires Apart(was) && i < |sourcelist| && Halfway(SenderPass(check), was, before, i, n)
      requires Counted(i, total, senders, active)
      modifies this`sendercount, sourcelist[i]
      ensures Halfway(SenderPass(check), was, before, i + 1, n + 1) && Counted(i + 1, newtotal, newsenders, newactive)
    {
      hide RTPInternalSourceData.Info, Infos, CountSenders, CountActive, Swept, Before, RTPSources.Halfway,
           RTPSources.InHand, RTPSources.Counted, Apart, Left, SenderCleared;
      ghost var p := SenderPass(check);
      TakeInHand(p, was, before, i, n);
      ClearSenderInHand(check, p, was, before, i, n, total, senders, active);
      LeftBySender(before[n], check, Own() == Some(before[n].ssrc));
      newtotal, newsenders, newactive := CountInHand(p, was, before, i, n, total, senders, active);
    }

    /** Takes the sender flag from those that have sent nothing for `timeoutdelay`. */
    method SenderTimeout(curtime: RTPTime, timeoutdelay: RTPTime)
      requires Sound()
      modifies this, sourcelist
      ensures State() == WithPass(old(State()), SenderPass(Minus(curtime, timeoutdelay)))
      ensures Valid()
      ensures var es, d := old(State()).entries, Delays(Some(timeoutdelay), None, None, None);
              AllNormal(es, curtime, d) ==> TimedOutIn(es, State().entries, Own(), curtime, d)
      ensures forall j :: 0 <= j < |sourcelist| ==> sourcelist[j] in old(sourcelist)
    {
      hide RTPInternalSourceData.Info, Infos, Inv, EntryOk, CountSenders, CountActive, Swept, Minus, Before, Find,
           WithPass, RTPSources.Halfway, RTPSources.InHand, RTPSources.Counted,
           AllNormal, TimedOutIn, Apart, Distinct, Has, Left, SenderCleared, NoteCleared, RTPSources.Linked,
           RTPSources.Own;
      var newtotalcount, newsendercount, newactivecount := 0, 0, 0;
      var checktime := Minus(curtime, timeoutdelay);
      ghost var p, t, was := SenderPass(checktime), State(), sourcelist;
      PassKeeps(t, p);
      StartPass(p);
      var i := 0;
      ghost var n := 0;
      while i < |sourcelist|
        invariant i <= |sourcelist| && Halfway(p, was, t.entries, i, n)
        invariant Counted(i, newtotalcount, newsendercount, newactivecount)
        invariant Own() == t.own && probationtype == t.probationtype
        decreases |sourcelist| - i
      {
        TakeInHand(p, was, t.entries, i, n);
        newtotalcount, newsendercount, newactivecount :=
          SweepSender(checktime, was, t.entries, i, n, newtotalcount, newsendercount, newactivecount);
        i := i + 1;
        n := n + 1;
      }
      TakeCounts(p, t, was, i, n, newtotalcount, newsendercount, newactivecount);
      TimedOutByPass(t, p, curtime, Delays(Some(timeoutdelay), None, None, None));
    }

    /** One entry in the note pass. */
    method SweepNote(check: RTPTime, ghost was: seq<RTPInternalSourceData>, ghost before: seq<Source>, i: nat,
            ghost n: nat, total: int, senders: int, active: int)
      returns (newtotal: int, newsenders: int, newactive: int)
      requires Apart(was) && i < |sourcelist| && Halfway(NotePass(check), was, before, i, n)
      requires Counted(i, total, senders, active)
      modifies sourcelist[i]
      ensures Halfway(NotePass(check), was, before, i + 1, n + 1) && Counted(i + 1, newtotal, newsenders, newactive)
    {
      hide RTPInternalSourceData.Info, Infos, CountSenders, CountActive, Swept, Before, RTPSources.Halfway,
           RTPSources.InHand, RTPSources.Counted, Apart, Left, NoteCleared;
      ghost var p := NotePass(check);
      TakeInHand(p, was, before, i, n);
      ClearNoteInHand(check, p, was, before, i, n, total, senders, active);
      LeftByNote(before[n], check, Own() == Some(before[n].ssrc));
      newtotal, newsenders, newactive := CountInHand(p, was, before, i, n, total, senders, active);
    }

    /** Drops the notes that are `timeoutdelay` old. */
    method NoteTimeout(curtime: RTPTime, timeoutdelay: RTPTime)
      requires Sound()
      modifies this, sourcelist
      ensures State() == WithPass(old(State()), NotePass(Minus(curtime, timeoutdelay)))
      ensures Valid()
      ensures var es, d := old(State()).entries, Delays(None, None, None, Some(timeoutdelay));
              AllNormal(es, curtime, d) ==> TimedOutIn(es, State().entries, Own(), curtime, d)
      ensures forall j :: 0 <= j < |sourcelist| ==> sourcelist[j] in old(sourcelist)
    {
      hide RTPInternalSourceData.Info, Infos, Inv, EntryOk, CountSenders, CountActive, Swept, Minus, Before, Find,
           WithPass, RTPSources.Halfway, RTPSources.InHand, RTPSources.Counted,
           AllNormal, TimedOutIn, Apart, Distinct, Has, Left, SenderCleared, NoteCleared, RTPSources.Linked,
           RTPSources.Own, Asks;
      var newtotalcount, newsendercount, newactivecount := 0, 0, 0;
      var checktime := Minus(curtime, timeoutdelay);
      ghost var p, t, was := NotePass(checktime), State(), sourcelist;
      PassKeeps(t, p);
      StartPass(p);
      var i := 0;
      ghost var n := 0;
      while i < |sourcelist|
        invariant i <= |sourcelist| && Halfway(p, was, t.entries, i, n)
        invariant Counted(i, newtotalcount, newsendercount, newactivecount)
        invariant Own() == t.own && probationtype == t.probationtype
        decreases |sourcelist| - i
      {
        TakeInHand(p, was, t.entries, i, n);
        newtotalcount, newsendercount, newactivecount :=
          SweepNote(checktime, was, t.entries, i, n, newtotalcount, newsendercount, newactivecount);
        i := i + 1;
        n := n + 1;
      }
      TakeCounts(p, t, was, i, n, newtotalcount, newsendercount, newactivecount);
      NotesTimedOut(t, curtime, timeoutdelay);
    }

    /** One entry in the pass with all four check times. */
    method SweepEntry(ghost was: seq<RTPInternalSourceData>, ghost before: seq<Source>, i: nat, ghost n: nat,
                      ghost total: int, ghost senders: int, ghost active: int,
                      sendercheck: RTPTime, byecheck: RTPTime, generalcheck: RTPTime,
                          notecheck: RTPTime) returns (deleted: bool)
      requires Apart(was) && i < |sourcelist| && n < |was| == |before|
      requires InHand(AllPasses(sendercheck, byecheck, generalcheck, notecheck), was, before, i, n)
      requires Counted(i, total, senders, active)
      requires sourcelist[i].Info() == before[n] && (sourcelist[i] == owndata <==> Own() == Some(before[n].ssrc))
      modifies this`sourcelist, this`totalcount, this`sendercount, this`activecount, sourcelist[i]
      ensures var p := AllPasses(sendercheck, byecheck, generalcheck, notecheck);
              if deleted
              then && Halfway(p, was, before, i, n + 1) && Counted(i, total, senders, active)
                   && |sourcelist| == |old(sourcelist)| - 1
              else && InHand(p, was, before, i, n) && Counted(i, total, senders, active)
                   && sourcelist == old(sourcelist)
                   && Left(p, before[n], Own() == Some(before[n].ssrc)) == Some(sourcelist[i].Info())
    {
      hide RTPInternalSourceData.Info, Infos, CountSenders, CountActive, Swept, Before, RTPSources.Halfway,
           RTPSources.InHand,
           RTPSources.Counted, Apart, NoteCleared, SenderCleared, RTPInternalSourceData.Item, Source.Item;
      ghost var e, p := before[n], AllPasses(sendercheck, byecheck, generalcheck, notecheck);
      var srcdat := sourcelist[i];
      NoteSame(e, notecheck);
      ClearNoteInHand(notecheck, p, was, before, i, n, total, senders, active);
      Reflags(srcdat);
      deleted := false;
      if srcdat.receivedbye {
        var byetime := srcdat.byetime;
        if srcdat != owndata && Before(byetime, byecheck) {
          deleted := true;
        }
      }
      if !deleted {
        var lastmsgtime := srcdat.lastmsgtime;
        if srcdat != owndata && Before(lastmsgtime, generalcheck) {
          deleted := true;
        }
      }
      if deleted {
        DropInHand(p, was, before, i, n, total, senders, active);
      } else {
        ClearSenderInHand(sendercheck, p, was, before, i, n, total, senders, active);
      }
    }

    /** All four in one pass. */
    method MultipleTimeouts(curtime: RTPTime, sendertimeout: RTPTime, byetimeout: RTPTime, generaltimeout: RTPTime,
            notetimeout: RTPTime)
      requires Sound()
      modifies this, sourcelist
      ensures State() == WithPass(old(State()), AllPasses(Minus(curtime, sendertimeout), Minus(curtime, byetimeout),
                                                          Minus(curtime, generaltimeout), Minus(curtime, notetimeout)))
      ensures Valid()
      ensures var es := old(State()).entries;
              var d := Delays(Some(sendertimeout), Some(byetimeout), Some(generaltimeout), Some(notetimeout));
              AllNormal(es, curtime, d) ==> TimedOutIn(es, State().entries, Own(), curtime, d)
      ensures forall j :: 0 <= j < |sourcelist| ==> sourcelist[j] in old(sourcelist)
    {
      hide RTPInternalSourceData.Info, Infos, Inv, EntryOk, CountSenders, CountActive, Swept, Minus, Before, Find,
           WithPass, RTPSources.Halfway, RTPSources.InHand, RTPSources.Counted,
           AllNormal, TimedOutIn, Distinct, Has, RTPSources.Linked, RTPSources.Own;
      var newtotalcount, newsendercount, newactivecount := 0, 0, 0;
      var senderchecktime := Minus(curtime, sendertimeout);
      var byechecktime := Minus(curtime, byetimeout);
      var generaltchecktime := Minus(curtime, generaltimeout);
      var notechecktime := Minus(curtime, notetimeout);
      ghost var p, t, was := AllPasses(senderchecktime, byechecktime, generaltchecktime, notechecktime), State(),
          sourcelist;
      PassKeeps(t, p);
      StartPass(p);
      var i := 0;
      ghost var n := 0;
      while i < |sourcelist|
        invariant i <= |sourcelist| && Halfway(p, was, t.entries, i, n)
        invariant Counted(i, newtotalcount, newsendercount, newactivecount)
        invariant Own() == t.own && probationtype == t.probationtype
        decreases |sourcelist| - i
      {
        var srcdat := sourcelist[i];
        TakeInHand(p, was, t.entries, i, n);
        var deleted := SweepEntry(was, t.entries, i, n, newtotalcount, newsendercount, newactivecount,
                                  senderchecktime, byechecktime, generaltchecktime, notechecktime);
        if !deleted {
          newtotalcount, newsendercount, newactivecount :=
            CountInHand(p, was, t.entries, i, n, newtotalcount, newsendercount, newactivecount);
          i := i + 1;
        }
        n := n + 1;
      }
      TakeCounts(p, t, was, i, n, newtotalcount, newsendercount, newactivecount);
      AllTimedOut(t, curtime, sendertimeout, byetimeout, generaltimeout, notetimeout);
    }

    lemma StartPass(p: Pass)
      requires Linked()
      ensures Halfway(p, sourcelist, State().entries, 0, 0) && Counted(0, 0, 0, 0) && Apart(sourcelist)
    {
      hide RTPInternalSourceData.Info;
      NothingSwept(p, Own(), State().entries);
      assert sourcelist[..0] == [];
    }

    lemma EndPass(p: Pass, was: seq<RTPInternalSourceData>, before: seq<Source>, i: nat, n: nat, total: int,
            senders: int, active: int)
      requires i == |sourcelist| && Halfway(p, was, before, i, n) && Counted(i, total, senders, active)
      ensures Linked() && State().entries == Swept(p, before, Own())
      ensures forall j :: 0 <= j < |sourcelist| ==> sourcelist[j] in was
      ensures total == |State().entries| && senders == CountSenders(State().entries)
      ensures active == CountActive(State().entries)
    {
      hide RTPInternalSourceData.Info, Infos, Swept, CountSenders, CountActive;
      assert sourcelist[..i] == sourcelist;
      assert |sourcelist[i..]| == 0;
      assert n == |was|;
      assert before[..n] == before;
    }

    /** At the end of a pass the counts are those taken on the way. */
    method TakeCounts(ghost p: Pass, ghost t: Table, ghost was: seq<RTPInternalSourceData>, i: nat, ghost n: nat,
            newtotalcount: int, newsendercount: int, newactivecount: int)
      requires i == |sourcelist| && Halfway(p, was, t.entries, i, n)
      requires Counted(i, newtotalcount, newsendercount, newactivecount)
      requires Own() == t.own && probationtype == t.probationtype && Inv(WithPass(t, p))
      modifies this`totalcount, this`sendercount, this`activecount
      ensures State() == WithPass(t, p) && Valid()
      ensures forall j :: 0 <= j < |sourcelist| ==> sourcelist[j] in was
    {
      hide RTPInternalSourceData.Info, Infos, Inv, CountSenders, CountActive, Swept, RTPSources.Halfway,
           RTPSources.Counted;
      EndPass(p, was, t.entries, i, n, newtotalcount, newsendercount, newactivecount);
      totalcount := newtotalcount;
      sendercount := newsendercount;
      activecount := newactivecount;
    }

    /** An entry goes, and the counts with it. */
    method RemoveAt(i: nat)
      requires i < |sourcelist| && Linked() && sourcelist[i] != owndata
      modifies this`sourcelist, this`totalcount, this`sendercount, this`activecount
      ensures sourcelist == Without(old(sourcelist), i) && Linked()
      ensures forall j :: 0 <= j < |sourcelist| ==> sourcelist[j] in old(sourcelist)
    {
      var srcdat := sourcelist[i];
      totalcount := totalcount - 1;
      if srcdat.issender {
        sendercount := sendercount - 1;
      }
      if srcdat.IsActive() {
        activecount := activecount - 1;
      }
      sourcelist := Without(sourcelist, i);
      if owndata != null {
        ghost var k :| 0 <= k < |old(sourcelist)| && old(sourcelist)[k] == owndata;
        assert sourcelist[if k < i then k else k - 1] == owndata;
      }
    }
  }

  lemma SenderSame(e: Source, check: RTPTime)
    ensures SenderCleared(e, check) == if e.issender && Before(e.lastrtptime, check) then e.(issender := false) else e
  {}

  lemma NoteSame(e: Source, check: RTPTime)
    ensures NoteCleared(e, check)
         == if |e.Item(NOTE)| != 0 && Before(e.lastnotetime, check) then e.(items := e.items[NOTE := []]) else e
  {}

  lemma LeftBySender(e: Source, check: RTPTime, own: bool)
    ensures Left(SenderPass(check), e, own) == Some(SenderCleared(e, check))
  {}

  lemma LeftByNote(e: Source, check: RTPTime, own: bool)
    ensures Left(NotePass(check), e, own) == Some(NoteCleared(e, check))
  {}

  lemma NothingSwept(p: Pass, own: Option<u32>, before: seq<Source>)
    ensures Swept(p, before[..0], own) == [] && CountSenders([]) == 0 && CountActive([]) == 0 && Infos([]) == []
  {}

  lemma Gone(p: Pass, before: seq<Source>, n: nat, own: Option<u32>)
    requires n < |before| && Left(p, before[n], own == Some(before[n].ssrc)).None?
    ensures Swept(p, before[..n + 1], own) == Swept(p, before[..n], own)
  {
    SweptSnoc(p, before[..n], before[n], own);
    assert before[..n] + [before[n]] == before[..n + 1];
  }

  lemma KeptEntry(list: seq<RTPInternalSourceData>, i: nat, p: Pass, before: seq<Source>, n: nat, own: Option<u32>)
    requires i < |list| && n < |before| && Infos(list[..i]) == Swept(p, before[..n], own)
    requires Left(p, before[n], own == Some(before[n].ssrc)) == Some(list[i].Info())
    ensures Infos(list[..i + 1]) == Swept(p, before[..n + 1], own)
    ensures CountSenders(Infos(list[..i + 1])) == CountSenders(Infos(list[..i])) + (if list[i].issender then 1 else 0)
    ensures CountActive(Infos(list[..i + 1])) == CountActive(Infos(list[..i])) + (if list[i].IsActive() then 1 else 0)
  {
    hide RTPInternalSourceData.Info, Infos, Swept, Left, CountSenders, CountActive;
    SweptSnoc(p, before[..n], before[n], own);
    assert before[..n] + [before[n]] == before[..n + 1];
    InfosSnoc(list[..i], list[i]);
    assert list[..i] + [list[i]] == list[..i + 1];
    CountSnoc(Infos(list[..i]), list[i].Info());
    Reflags(list[i]);
  }

  lemma ToldIsOk(ssrc: u32, c: Change, time: RTPTime, sender: Option<Address>)
    ensures Told(ssrc, c, time, sender).ok
  {}

  lemma NoBlocks(ssrc: u32, blocks: seq<RtcpFormat.ReportBlock>, own: Option<u32>, time: RTPTime,
          sender: Option<Address>)
    requires |blocks| == 0
    ensures BlocksOutcome(ssrc, blocks, own, time, sender) == NOTHING_DONE
  {}

  lemma BlocksStep(ssrc: u32, blocks: seq<RtcpFormat.ReportBlock>, i: nat, own: Option<u32>, time: RTPTime,
          sender: Option<Address>)
    requires i < |blocks|
    ensures var rest := BlocksOutcome(ssrc, blocks[i + 1..], own, time, sender);
            BlocksOutcome(ssrc, blocks[i..], own, time, sender)
              == if own == Some(blocks[i].ssrc) then Told(ssrc, Touch, time, sender).Then(rest) else rest
    ensures AboutUs(blocks[..i + 1], own) <==> AboutUs(blocks[..i], own) || own == Some(blocks[i].ssrc)
  {
    assert blocks[i..][0] == blocks[i] && blocks[i..][1..] == blocks[i + 1..];
    if AboutUs(blocks[..i], own) {
      var k :| 0 <= k < i && own == Some(blocks[..i][k].ssrc);
      assert blocks[..i + 1][k] == blocks[..i][k];
    }
    if own == Some(blocks[i].ssrc) {
      assert blocks[..i + 1][i] == blocks[i];
    }
    if AboutUs(blocks[..i + 1], own) {
      var k :| 0 <= k < i + 1 && own == Some(blocks[..i + 1][k].ssrc);
      assert k < i ==> blocks[..i][k] == blocks[..i + 1][k];
    }
  }

  lemma BeginRun(t: Table)
    ensures Run(t, []) == t
  {}

  lemma Beginning(whole: Outcome)
    ensures Remaining(whole, [], true, whole)
  {
    assert [] + whole.events == whole.events;
  }

  /** Entries are one object each: the object of our own entry is the one with its SSRC. */
  lemma OwnByIdentity(list: seq<RTPInternalSourceData>, k: nat, own: RTPInternalSourceData?)
    requires Apart(list) && k < |list| && (own != null ==> own in list)
    ensures list[k] == own <==> own != null && own.ssrc == list[k].ssrc
  {}

  lemma PlaceOfOwn(list: seq<RTPInternalSourceData>, i: nat, own: RTPInternalSourceData)
    requires Apart(list) && own in list && i == Find(Infos(list), own.ssrc)
    ensures i < |list| && list[i] == own
  {
    hide Infos, Find;
    var k :| 0 <= k < |list| && list[k] == own;
    assert Infos(list)[k].ssrc == own.ssrc;
    assert i < |list| ==> Infos(list)[i].ssrc == own.ssrc;
  }

  lemma ApartWithout(list: seq<RTPInternalSourceData>, k: nat)
    requires Apart(list) && k < |list|
    ensures Apart(Without(list, k))
  {}

  lemma OthersDiffer(list: seq<RTPInternalSourceData>, k: nat)
    requires Apart(list) && k < |list|
    ensures forall i :: 0 <= i < |list| && i != k ==> list[i] != list[k]
  {}

  lemma NoOwn(t: Table)
    requires t.own.None?
    ensures WithoutOwn(t) == t
  {}

  lemma OwnAdded(t: Table, ssrc: u32)
    requires t.own.None? && !Has(t.entries, ssrc)
    ensures var e := NewSource(ssrc, t.probationtype);
            var o := Obtained(t, ssrc);
            && Find(t.entries, ssrc) == |t.entries|
            && o == t.(entries := t.entries + [e], totalcount := t.totalcount + 1)
            && WithOwn(t, ssrc) == o.(entries := t.entries
               + [WithRtcpAddress(WithRtpAddress(e.(ownssrc := true, validated := true), None), None)],
                                      activecount := t.activecount + 1, own := Some(ssrc))
  {}

  lemma ReplacedSelf(t: Table, k: nat)
    requires k < |t.entries|
    ensures Replaced(t, k, t.entries[k]) == t
  {}

  lemma RtcpAt(t: Table, ssrc: u32, c: Change, receivetime: RTPTime, sender: Option<Address>)
    ensures var o, k := Obtained(t, ssrc), Find(t.entries, ssrc);
            match Checked(o.entries[k], sender, false)
            case None => WithRtcp(t, ssrc, c, receivetime, sender) == t
            case Some(e) =>
              WithRtcp(t, ssrc, c, receivetime, sender)
                == Replaced(o.(entries := o.entries[k := e]), k,
                            if c.Bye? && t.own == Some(ssrc) then e else Changed(e, c, receivetime))
  {
    hide Checked, Find, Changed, Obtained;
    var o, k := Obtained(t, ssrc), Find(t.entries, ssrc);
    if Checked(o.entries[k], sender, false).Some? {
      CheckedFlags(o.entries[k], sender, false);
      var e := Checked(o.entries[k], sender, false).value;
      var x := if c.Bye? && t.own == Some(ssrc) then e else Changed(e, c, receivetime);
      assert o.entries[k := e][k := x] == o.entries[k := x];
    }
  }

  lemma CsrcsSnoc(t: Table, csrcs: seq<u32>, i: nat, sender: Option<Address>)
    requires i < |csrcs|
    ensures WithCsrcs(t, csrcs[..i + 1], sender) == WithCsrc(WithCsrcs(t, csrcs[..i], sender), csrcs[i], sender)
  {
    assert csrcs[..i + 1][..i] == csrcs[..i];
  }

  lemma ContributingAt(u: Table, k: nat, p: RTPPacket)
    requires Inv(u) && k < |u.entries| && u.entries[k].ssrc == p.ssrc
    ensures Contributing(u, p) == if u.entries[k].validated then p.csrcs else []
  {
    FindAt(u.entries, k);
  }

  lemma NoCsrcs(t: Table, sender: Option<Address>)
    ensures WithCsrcs(t, [], sender) == t
  {}

  lemma ReceivedAt(t: Table, p: RTPPacket, receivetime: RTPTime, sender: Option<Address>)
    ensures var o, k := Obtained(t, p.ssrc), Find(t.entries, p.ssrc);
            match Checked(o.entries[k], sender, true)
            case None => Received(t, p, receivetime, sender).None?
            case Some(e) =>
              && Received(t, p, receivetime, sender)
                 == Some((Replaced(o.(entries := o.entries[k := e]), k, WithPacket(e, p, receivetime).0),
                                                             WithPacket(e, p, receivetime).1))
  {
    hide Checked, Find, WithPacket, Obtained;
    var o, k := Obtained(t, p.ssrc), Find(t.entries, p.ssrc);
    if Checked(o.entries[k], sender, true).Some? {
      CheckedFlags(o.entries[k], sender, true);
      var e := Checked(o.entries[k], sender, true).value;
      assert o.entries[k := e][k := WithPacket(e, p, receivetime).0] == o.entries[k := WithPacket(e, p, receivetime).0];
    }
  }

  lemma NewIsChecked(ssrc: u32, probationtype: ProbationType, sender: Option<Address>, isrtp: bool)
    ensures var e := NewSource(ssrc, probationtype);
            Checked(e, sender, isrtp) == Some(if isrtp then WithRtpAddress(e, sender) else WithRtcpAddress(e, sender))
  {}

  /** An admitted entry is in good order. */
  lemma AdmittedOk(t: Table, ssrc: u32, sender: Option<Address>, isrtp: bool)
    requires Inv(t)
    ensures var o, k := Obtained(t, ssrc), Find(t.entries, ssrc);
            Checked(o.entries[k], sender, isrtp).Some? ==> QueueOk(Checked(o.entries[k], sender, isrtp).value)
  {
    hide Checked, Find, QueueOk, Bound;
    ObtainedKeeps(t, ssrc);
    var o, k := Obtained(t, ssrc), Find(t.entries, ssrc);
    if Checked(o.entries[k], sender, isrtp).Some? {
      CheckedKeeps(o.entries[k], t.own, sender, isrtp);
    }
  }

  lemma Reflags(s: RTPInternalSourceData)
    ensures s.issender == s.Info().issender && s.IsActive() == s.Info().IsActive() && s.validated == s.Info().validated
    ensures s.lastmsgtime == s.Info().lastmsgtime && s.lastrtptime == s.Info().lastrtptime
    ensures s.lastnotetime == s.Info().lastnotetime
    ensures s.byetime == s.Info().byetime && s.Item(NOTE) == s.Info().Item(NOTE) && s.items == s.Info().items
    ensures s.ssrc == s.Info().ssrc && s.ownssrc == s.Info().ownssrc && s.receivedbye == s.Info().receivedbye
  {}

  lemma ObtainedEntry(t: Table, ssrc: u32)
    ensures var o, k := Obtained(t, ssrc), Find(t.entries, ssrc);
            && (Has(t.entries, ssrc) ==> o == t)
            && (!Has(t.entries, ssrc) ==> o.entries[k] == NewSource(ssrc, t.probationtype))
            && o.own == t.own && o.probationtype == t.probationtype
  {}
}
