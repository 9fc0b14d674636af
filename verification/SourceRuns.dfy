/** What every operation of the source table keeps, and what holds over whole runs. */
module SourceRuns {
  import opened Basics
  import opened Bytes
  import opened SourceStats
  import opened SourceState
  import opened SourceTable

  // ----- Positions and counts -----

  lemma {:induction false} FindAt(es: seq<Source>, k: nat)
    requires Distinct(es) && k < |es|
    ensures Find(es, es[k].ssrc) == k
  {
    var f := Find(es, es[k].ssrc);
    assert es[f].ssrc == es[k].ssrc by {
      assert f <= k;
    }
  }

  lemma {:induction false} CountUpdate(es: seq<Source>, k: nat, x: Source)
    requires k < |es|
    ensures CountSenders(es[k := x]) == CountSenders(es) - (if es[k].issender then 1 else 0)
              + (if x.issender then 1 else 0)
    ensures CountActive(es[k := x]) == CountActive(es) - (if es[k].IsActive() then 1 else 0)
              + (if x.IsActive() then 1 else 0)
    decreases |es|
  {
    var n := |es| - 1;
    if k < n {
      CountUpdate(es[..n], k, x);
      assert es[k := x][..n] == es[..n][k := x];
    } else {
      assert es[k := x][..n] == es[..n];
    }
  }

  lemma CountSnoc(es: seq<Source>, x: Source)
    ensures CountSenders(es + [x]) == CountSenders(es) + (if x.issender then 1 else 0)
    ensures CountActive(es + [x]) == CountActive(es) + (if x.IsActive() then 1 else 0)
  {
    assert (es + [x])[..|es|] == es;
  }

  lemma {:induction false} CountWithout(es: seq<Source>, k: nat)
    requires k < |es|
    ensures CountSenders(Without(es, k)) == CountSenders(es) - (if es[k].issender then 1 else 0)
    ensures CountActive(Without(es, k)) == CountActive(es) - (if es[k].IsActive() then 1 else 0)
    decreases |es|
  {
    var n := |es| - 1;
    WithoutLast(es, k);
    if k < n {
      hide Without, Source.IsActive;
      CountWithout(es[..n], k);
      CountSnoc(Without(es[..n], k), es[n]);
    }
  }

  lemma WithoutLast(es: seq<Source>, k: nat)
    requires k < |es|
    ensures var n := |es| - 1;
            Without(es, k) == if k < n then Without(es[..n], k) + [es[n]] else es[..n]
  {}

  // ----- Single changes -----

  /** `x` can stand for `e`: the same source, in good order. */
  ghost predicate Succeeds(x: Source, e: Source, own: Option<u32>) {
    x.ssrc == e.ssrc && EntryOk(x, own)
  }

  lemma ReplacedKeeps(t: Table, k: nat, x: Source)
    requires Inv(t) && k < |t.entries| && Succeeds(x, t.entries[k], t.own)
    requires t.entries[k].issender ==> x.issender
    ensures Inv(Replaced(t, k, x)) && Drift(Replaced(t, k, x)) == Drift(t)
  {
    hide EntryOk, CountSenders, CountActive;
    CountUpdate(t.entries, k, x);
    HasAfterUpdate(t, k, x);
  }

  lemma HasAfterUpdate(t: Table, k: nat, x: Source)
    requires Inv(t) && k < |t.entries| && x.ssrc == t.entries[k].ssrc
    ensures t.own.Some? ==> Has(t.entries[k := x], t.own.value)
    ensures Distinct(t.entries[k := x])
  {
    if t.own.Some? {
      var i := Find(t.entries, t.own.value);
      assert t.entries[k := x][i].ssrc == t.own.value;
    }
  }

  lemma HasAfterAppend(es: seq<Source>, x: Source, ssrc: u32)
    ensures Has(es, ssrc) ==> Has(es + [x], ssrc)
    ensures x.ssrc == ssrc ==> Has(es + [x], ssrc)
  {
    var i := Find(es, ssrc);
    if i < |es| {
      assert (es + [x])[i].ssrc == ssrc;
    }
    if x.ssrc == ssrc {
      assert (es + [x])[|es|].ssrc == ssrc;
    }
  }

  lemma AppendedDistinct(es: seq<Source>, x: Source)
    requires Distinct(es) && !Has(es, x.ssrc)
    ensures Distinct(es + [x])
  {}

  lemma ObtainedKeeps(t: Table, ssrc: u32)
    requires Inv(t)
    ensures Inv(Obtained(t, ssrc)) && Drift(Obtained(t, ssrc)) == Drift(t)
    ensures Obtained(t, ssrc).own == t.own && Obtained(t, ssrc).entries[Find(t.entries, ssrc)].ssrc == ssrc
    ensures t.entries <= Obtained(t, ssrc).entries
  {
    hide CountSenders, CountActive, Find;
    if !Has(t.entries, ssrc) {
      var x := NewSource(ssrc, t.probationtype);
      AppendedDistinct(t.entries, x);
      CountSnoc(t.entries, x);
      if t.own.Some? {
        HasAfterAppend(t.entries, x, t.own.value);
      }
    }
  }

  lemma CheckedFlags(e: Source, sender: Option<Address>, isrtp: bool)
    requires Checked(e, sender, isrtp).Some?
    ensures var x := Checked(e, sender, isrtp).value;
            && x.issender == e.issender && x.validated == e.validated && x.receivedbye == e.receivedbye
            && x.ssrc == e.ssrc && x.packetlist == e.packetlist && x.ownssrc == e.ownssrc
  {}

  /** An admitted entry is in good order, and differs only in its addresses. */
  lemma CheckedKeeps(e: Source, own: Option<u32>, sender: Option<Address>, isrtp: bool)
    requires EntryOk(e, own) && Checked(e, sender, isrtp).Some?
    ensures Succeeds(Checked(e, sender, isrtp).value, e, own)
    ensures var x := Checked(e, sender, isrtp).value;
            x.issender == e.issender && x.validated == e.validated && x.receivedbye == e.receivedbye
  {
    CheckedBinds(e, sender, isrtp);
  }

  lemma PacketKeeps(e: Source, own: Option<u32>, p: RTPPacket, receivetime: RTPTime)
    requires EntryOk(e, own)
    ensures var x := WithPacket(e, p, receivetime).0;
            && Succeeds(x, e, own) && (e.issender ==> x.issender) && (e.IsActive() ==> x.IsActive())
            && KeepsAddresses(e, x)
  {
    hide QueueOk, Bound, KeepsAddresses, Arrival, Queued, Stored, Passes, Evicted, HasNumber, Judged;
    PacketKeepsQueue(e, p, receivetime);
    var j := Judged(e, Arrival(e, p), receivetime);
    JudgedGrows(e, Arrival(e, p), receivetime);
    BoundSame(e, j);
    BoundSame(e, WithPacket(e, p, receivetime).0);
  }

  lemma PacketGrows(e: Source, p: RTPPacket, receivetime: RTPTime)
    ensures var x := WithPacket(e, p, receivetime).0;
            x.ssrc == e.ssrc && (e.issender ==> x.issender) && (e.IsActive() ==> x.IsActive())
  {
    hide Arrival, Queued, Stored, Passes, Judged;
    JudgedGrows(e, Arrival(e, p), receivetime);
  }

  lemma JudgedGrows(e: Source, r: Reception, receivetime: RTPTime)
    ensures var x := Judged(e, r, receivetime);
            && x.ssrc == e.ssrc && (e.issender ==> x.issender) && (e.validated ==> x.validated)
            && x.receivedbye == e.receivedbye
            && x.isrtpaddrset == e.isrtpaddrset && x.rtpaddr == e.rtpaddr && x.isrtcpaddrset == e.isrtcpaddrset
            && x.rtcpaddr == e.rtcpaddr
            && x.ownssrc == e.ownssrc
  {}

  /** The same queue and addresses, and nothing of validation lost. */
  lemma StillOk(e: Source, x: Source, own: Option<u32>)
    requires EntryOk(e, own) && x.ssrc == e.ssrc && x.ownssrc == e.ownssrc && x.packetlist == e.packetlist
    requires x.isrtpaddrset == e.isrtpaddrset && x.rtpaddr == e.rtpaddr && x.isrtcpaddrset == e.isrtcpaddrset
    requires x.rtcpaddr == e.rtcpaddr
    requires (e.validated ==> x.validated) && (x.receivedbye ==> e.receivedbye || !e.ownssrc)
    ensures Succeeds(x, e, own) && KeepsAddresses(e, x)
  {
    hide StrictlyIncreasing;
  }

  lemma ChangeKeeps(e: Source, own: Option<u32>, c: Change, receivetime: RTPTime)
    requires EntryOk(e, own) && (c.Bye? ==> own != Some(e.ssrc))
    ensures var x := Changed(e, c, receivetime);
            && Succeeds(x, e, own) && x.issender == e.issender && KeepsAddresses(e, x)
  {
    hide Changed, EntryOk, Succeeds, KeepsAddresses;
    ChangedSame(e, c, receivetime);
    OwnFlag(e, own);
    StillOk(e, Changed(e, c, receivetime), own);
  }

  lemma OwnFlag(e: Source, own: Option<u32>)
    requires EntryOk(e, own)
    ensures e.ownssrc <==> own == Some(e.ssrc)
  {}

  /** What a change leaves alone. */
  predicate SameBinding(e: Source, x: Source) {
    && x.ssrc == e.ssrc && x.ownssrc == e.ownssrc && x.packetlist == e.packetlist && x.issender == e.issender
    && x.isrtpaddrset == e.isrtpaddrset && x.rtpaddr == e.rtpaddr && x.isrtcpaddrset == e.isrtcpaddrset
    && x.rtcpaddr == e.rtcpaddr && (e.validated ==> x.validated)
  }

  lemma ItemSame(e: Source, id: ItemId, data: seq<byte>, receivetime: RTPTime)
    ensures var x := WithItem(e, id, data, receivetime).0; SameBinding(e, x) && x.receivedbye == e.receivedbye
  {
    hide Takes, Source.Item;
  }

  lemma ByeSame(e: Source, reason: seq<byte>, receivetime: RTPTime)
    ensures SameBinding(e, WithBye(e, reason, receivetime))
  {}

  lemma TouchSame(e: Source, receivetime: RTPTime)
    ensures var x := e.(lastmsgtime := receivetime); SameBinding(e, x) && x.receivedbye == e.receivedbye
  {}

  lemma ChangedSame(e: Source, c: Change, receivetime: RTPTime)
    ensures var x := Changed(e, c, receivetime);
            SameBinding(e, x) && (x.receivedbye ==> e.receivedbye || c.Bye?)
  {
    hide WithItem, WithBye, SameBinding;
    match c
    case Touch => TouchSame(e, receivetime);
    case Item(id, data) => ItemSame(e, id, data, receivetime);
    case Bye(reason) => ByeSame(e, reason, receivetime);
  }

  // ----- The operations keep the invariant -----

  /** An RTCP item leaves the counts as exact as they were. */
  lemma RtcpKeeps(t: Table, ssrc: u32, c: Change, receivetime: RTPTime, sender: Option<Address>)
    requires Inv(t)
    ensures var u := WithRtcp(t, ssrc, c, receivetime, sender); Inv(u) && u.own == t.own && Drift(u) == Drift(t)
  {
    hide EntryOk, Changed, Checked, Find, CountActive, CountSenders, Distinct, Bound, QueueOk, Obtained, Replaced;
    var u, k := Obtained(t, ssrc), Find(t.entries, ssrc);
    ObtainedKeeps(t, ssrc);
    var e := u.entries[k];
    if Checked(e, sender, false).Some? {
      CheckedKeeps(e, t.own, sender, false);
      var a := Checked(e, sender, false).value;
      var x := if c.Bye? && t.own == Some(ssrc) then a else Changed(a, c, receivetime);
      if !(c.Bye? && t.own == Some(ssrc)) {
        ChangeKeeps(a, t.own, c, receivetime);
      }
      ReplacedKeeps(u, k, x);
      ReplacedFrame(u, k, x);
    }
  }

  lemma ReplacedFrame(t: Table, k: nat, x: Source)
    requires k < |t.entries|
    ensures var u := Replaced(t, k, x);
            u.own == t.own && u.probationtype == t.probationtype && u.entries == t.entries[k := x]
  {}

  lemma ReceivedKeeps(t: Table, p: RTPPacket, receivetime: RTPTime, sender: Option<Address>)
    requires Inv(t) && Received(t, p, receivetime, sender).Some?
    ensures var u := Received(t, p, receivetime, sender).value.0; Inv(u) && u.own == t.own && Drift(u) == Drift(t)
  {
    hide EntryOk, WithPacket, Checked, Find, CountActive, CountSenders, Distinct, Bound, QueueOk, Obtained, Replaced;
    var u, k := Obtained(t, p.ssrc), Find(t.entries, p.ssrc);
    ObtainedKeeps(t, p.ssrc);
    CheckedKeeps(u.entries[k], t.own, sender, true);
    var a := Checked(u.entries[k], sender, true).value;
    PacketKeeps(a, t.own, p, receivetime);
    ReplacedKeeps(u, k, WithPacket(a, p, receivetime).0);
    ReplacedFrame(u, k, WithPacket(a, p, receivetime).0);
  }

  /** The case that is not counted: the packet's sender passes the check against an entry that is there, not validated,
      and not marked by a BYE. */
  predicate Uncounted(t: Table, csrc: u32, sender: Option<Address>) {
    var k := Find(t.entries, csrc);
    k < |t.entries| && !t.entries[k].validated && !t.entries[k].receivedbye && Checked(t.entries[k], sender, true).Some?
  }

  lemma CsrcKeeps(t: Table, csrc: u32, sender: Option<Address>)
    requires Inv(t)
    ensures var u := WithCsrc(t, csrc, sender);
            && Inv(u) && u.own == t.own
            && Drift(u) == Drift(t) + (if Uncounted(t, csrc, sender) then 1 else 0)
  {
    hide EntryOk, Checked, Find, CountActive, CountSenders, Distinct, Bound, QueueOk;
    var u, k := Obtained(t, csrc), Find(t.entries, csrc);
    ObtainedKeeps(t, csrc);
    if Has(t.entries, csrc) {
      var e := t.entries[k];
      if Checked(e, sender, true).Some? {
        CheckedKeeps(e, t.own, sender, true);
        var x := AsCsrc(Checked(e, sender, true).value);
        CsrcSucceeds(Checked(e, sender, true).value, t.own);
        ReplacedKeeps(t, k, x);
        CountUpdate(t.entries, k, x);
      }
    } else {
      CsrcSucceeds(u.entries[k], t.own);
      ReplacedKeeps(u, k, AsCsrc(u.entries[k]));
    }
  }

  lemma CsrcSucceeds(e: Source, own: Option<u32>)
    requires EntryOk(e, own)
    ensures Succeeds(AsCsrc(e), e, own)
  {
    hide StrictlyIncreasing;
  }

  /** How many of the contributing sources are not counted. */
  function Slips(t: Table, csrcs: seq<u32>, sender: Option<Address>): nat
    decreases |csrcs|
  {
    if |csrcs| == 0 then 0
    else
      var n := |csrcs| - 1;
      Slips(t, csrcs[..n], sender) + (if Uncounted(WithCsrcs(t, csrcs[..n], sender), csrcs[n], sender) then 1 else 0)
  }

  lemma {:induction false} CsrcsKeep(t: Table, csrcs: seq<u32>, sender: Option<Address>)
    requires Inv(t)
    ensures var u := WithCsrcs(t, csrcs, sender);
            Inv(u) && u.own == t.own && Drift(u) == Drift(t) + Slips(t, csrcs, sender)
    decreases |csrcs|
  {
    hide Inv, Drift, WithCsrc, Uncounted;
    if |csrcs| > 0 {
      var n := |csrcs| - 1;
      CsrcsKeep(t, csrcs[..n], sender);
      CsrcKeeps(WithCsrcs(t, csrcs[..n], sender), csrcs[n], sender);
    }
  }

  /** The uncounted contributing sources of one RTP packet. */
  function PacketSlips(t: Table, p: RTPPacket, receivetime: RTPTime, sender: Option<Address>): nat {
    match Received(t, p, receivetime, sender)
    case None => 0
    case Some((u, _)) => Slips(u, Contributing(u, p), sender)
  }

  lemma RtpKeeps(t: Table, p: RTPPacket, receivetime: RTPTime, sender: Option<Address>)
    requires Inv(t)
    ensures var u := WithRtp(t, p, receivetime, sender).0;
            Inv(u) && u.own == t.own && Drift(u) == Drift(t) + PacketSlips(t, p, receivetime, sender)
  {
    hide Inv, Drift, Received, Contributing, Slips, WithCsrcs;
    if Received(t, p, receivetime, sender).Some? {
      var u := Received(t, p, receivetime, sender).value.0;
      ReceivedKeeps(t, p, receivetime, sender);
      CsrcsKeep(u, Contributing(u, p), sender);
    }
  }

  lemma OwnKeeps(t: Table, ssrc: u32)
    requires Inv(t)
    ensures Inv(WithOwn(t, ssrc)) && Drift(WithOwn(t, ssrc)) == Drift(t)
    ensures t.own.Some? ==> WithOwn(t, ssrc).own == t.own
  {
    hide CountActive, CountSenders, Find;
    if t.own.None? && !Has(t.entries, ssrc) {
      var x := OwnSource(ssrc, t.probationtype);
      AppendedDistinct(t.entries, x);
      CountSnoc(t.entries, x);
      HasAfterAppend(t.entries, x, ssrc);
    }
  }

  lemma WithoutOwnKeeps(t: Table)
    requires Inv(t)
    ensures Inv(WithoutOwn(t)) && Drift(WithoutOwn(t)) == Drift(t) && WithoutOwn(t).own.None?
  {
    hide CountActive, CountSenders, Find, Bound, QueueOk;
    if t.own.Some? {
      var k := Find(t.entries, t.own.value);
      CountWithout(t.entries, k);
      var es := Without(t.entries, k);
      forall i | 0 <= i < |es|
        ensures EntryOk(es[i], None)
      {
        assert es[i] == t.entries[if i < k then i else i + 1];
      }
    }
  }

  lemma SentKeeps(t: Table, now: RTPTime)
    requires Inv(t)
    ensures Inv(WithSent(t, now)) && WithSent(t, now).own == t.own && Drift(WithSent(t, now)) == Drift(t)
  {
    hide CountActive, CountSenders, Find, Bound, StrictlyIncreasing, Distinct, Replaced;
    if t.own.Some? {
      var k := Find(t.entries, t.own.value);
      var x := t.entries[k].(issender := true, lastrtptime := now, lastmsgtime := now);
      BoundSame(t.entries[k], x);
      ReplacedKeeps(t, k, x);
      ReplacedFrame(t, k, x);
    }
  }

  lemma BoundSame(s: Source, t: Source)
    requires s.isrtpaddrset == t.isrtpaddrset && s.rtpaddr == t.rtpaddr && s.isrtcpaddrset == t.isrtcpaddrset
    requires s.rtcpaddr == t.rtcpaddr
    ensures Bound(s) == Bound(t) && KeepsAddresses(s, t)
  {}

  lemma ExtractionKeeps(t: Table, k: nat)
    requires Inv(t)
    ensures Inv(WithExtraction(t, k)) && WithExtraction(t, k).own == t.own && Drift(WithExtraction(t, k)) == Drift(t)
  {
    hide CountActive, CountSenders, Find, Bound, Distinct;
    if k < |t.entries| {
      var e, x := t.entries[k], Extracted(t.entries[k]).0;
      BoundSame(e, x);
      ReplacedKeeps(t, k, x);
    }
  }

  // ----- The passes -----

  lemma LeftKeeps(p: Pass, e: Source, own: Option<u32>)
    requires EntryOk(e, own) && Left(p, e, own == Some(e.ssrc)).Some?
    ensures var x := Left(p, e, own == Some(e.ssrc)).value; Succeeds(x, e, own) && KeepsAddresses(e, x)
  {
    hide StrictlyIncreasing, Bound, QueueOk, OwnState, KeepsAddresses, EntryOk, Succeeds, Before, SenderCleared,
         NoteCleared;
    match p {
      case SenderPass(check) => SenderClearedOk(e, check, own);
      case ByePass(_) => StillOk(e, e, own);
      case GeneralPass(_) => StillOk(e, e, own);
      case NotePass(check) => NoteClearedOk(e, check, own);
      case AllPasses(sender, _, _, note) => BothClearedOk(e, sender, note, own);
    }
  }

  lemma SenderClearedOk(e: Source, check: RTPTime, own: Option<u32>)
    requires EntryOk(e, own)
    ensures Succeeds(SenderCleared(e, check), e, own) && KeepsAddresses(e, SenderCleared(e, check))
  {
    hide Bound, QueueOk, OwnState, KeepsAddresses, EntryOk, Succeeds, Before;
    StillOk(e, SenderCleared(e, check), own);
  }

  lemma NoteClearedOk(e: Source, check: RTPTime, own: Option<u32>)
    requires EntryOk(e, own)
    ensures Succeeds(NoteCleared(e, check), e, own) && KeepsAddresses(e, NoteCleared(e, check))
  {
    hide Bound, QueueOk, OwnState, KeepsAddresses, EntryOk, Succeeds, Before, Source.Item;
    StillOk(e, NoteCleared(e, check), own);
  }

  lemma BothClearedOk(e: Source, sender: RTPTime, note: RTPTime, own: Option<u32>)
    requires EntryOk(e, own)
    ensures var x := SenderCleared(NoteCleared(e, note), sender); Succeeds(x, e, own) && KeepsAddresses(e, x)
  {
    hide EntryOk, SenderCleared, NoteCleared;
    NoteClearedOk(e, note, own);
    SenderClearedOk(NoteCleared(e, note), sender, own);
  }

  /** Every entry left comes from one that was there, in the same order. */
  lemma {:induction false} SweptFrom(p: Pass, es: seq<Source>, own: Option<u32>)
    requires Distinct(es) && forall i :: 0 <= i < |es| ==> EntryOk(es[i], own)
    ensures var rs := Swept(p, es, own);
            && Distinct(rs)
            && (forall r :: r in rs ==>
                  && EntryOk(r, own)
                  && exists i :: 0 <= i < |es| && es[i].ssrc == r.ssrc && KeepsAddresses(es[i], r))
    decreases |es|
  {
    hide EntryOk, KeepsAddresses, Left;
    if |es| > 0 {
      var n := |es| - 1;
      SweptFrom(p, es[..n], own);
      var rest := Swept(p, es[..n], own);
      forall r | r in rest
        ensures exists i :: 0 <= i < n && es[i].ssrc == r.ssrc && KeepsAddresses(es[i], r)
      {
        var i :| 0 <= i < n && es[..n][i].ssrc == r.ssrc && KeepsAddresses(es[..n][i], r);
        assert es[i].ssrc == r.ssrc;
      }
      if Left(p, es[n], own == Some(es[n].ssrc)).Some? {
        LeftKeeps(p, es[n], own);
        assert es[n].ssrc == Left(p, es[n], own == Some(es[n].ssrc)).value.ssrc;
      }
    }
  }

  lemma OwnStays(p: Pass, e: Source)
    ensures Left(p, e, true).Some?
  {}

  /** Our own entry is never timed out. */
  lemma {:induction false} OwnIsLeft(p: Pass, es: seq<Source>, ssrc: u32)
    requires Has(es, ssrc) && Distinct(es) && forall i :: 0 <= i < |es| ==> EntryOk(es[i], Some(ssrc))
    ensures Has(Swept(p, es, Some(ssrc)), ssrc)
    decreases |es|
  {
    hide EntryOk, Left, KeepsAddresses;
    var n := |es| - 1;
    var rest := Swept(p, es[..n], Some(ssrc));
    if es[n].ssrc == ssrc {
      OwnStays(p, es[n]);
      LeftKeeps(p, es[n], Some(ssrc));
      HasAfterAppend(rest, Left(p, es[n], true).value, ssrc);
    } else {
      assert es[..n][Find(es, ssrc)].ssrc == ssrc;
      OwnIsLeft(p, es[..n], ssrc);
      match Left(p, es[n], Some(ssrc) == Some(es[n].ssrc))
      case None =>
      case Some(x) => HasAfterAppend(rest, x, ssrc);
    }
  }

  /** A pass makes all three counts exact, whatever they were. */
  lemma PassKeeps(t: Table, p: Pass)
    requires Distinct(t.entries) && (forall i :: 0 <= i < |t.entries| ==> EntryOk(t.entries[i], t.own))
    requires t.own.Some? ==> Has(t.entries, t.own.value)
    ensures Inv(WithPass(t, p)) && WithPass(t, p).own == t.own && Drift(WithPass(t, p)) == 0
  {
    hide EntryOk, CountActive, CountSenders, Find, KeepsAddresses, Swept;
    SweptFrom(p, t.entries, t.own);
    if t.own.Some? {
      OwnIsLeft(p, t.entries, t.own.value);
    }
  }

  lemma {:induction false} SweptSnoc(p: Pass, es: seq<Source>, e: Source, own: Option<u32>)
    ensures var left := Left(p, e, own == Some(e.ssrc));
            Swept(p, es + [e], own) == if left.None? then Swept(p, es, own) else Swept(p, es, own) + [left.value]
  {
    assert (es + [e])[..|es|] == es;
  }

  /** One pass with all four check times does what the four passes do one after the other. */
  lemma {:induction false} PassesCompose(t: Table, sender: RTPTime, bye: RTPTime, general: RTPTime, note: RTPTime)
    ensures WithPass(t, AllPasses(sender, bye, general, note))
         == WithPass(WithPass(WithPass(WithPass(t, SenderPass(sender)), ByePass(bye)), GeneralPass(general)),
             NotePass(note))
  {
    SweepsCompose(t.entries, t.own, sender, bye, general, note);
  }

  lemma {:induction false} SweepsCompose(es: seq<Source>, own: Option<u32>, sender: RTPTime, bye: RTPTime,
          general: RTPTime, note: RTPTime)
    ensures Swept(AllPasses(sender, bye, general, note), es, own)
         == Swept(NotePass(note), Swept(GeneralPass(general), Swept(ByePass(bye), Swept(SenderPass(sender), es, own),
                                                                    own), own), own)
    decreases |es|
  {
    hide Left;
    if |es| > 0 {
      var n := |es| - 1;
      SweepsCompose(es[..n], own, sender, bye, general, note);
      LastThroughAll(es[..n], es[n], own, sender, bye, general, note);
      assert es == es[..n] + [es[n]];
    }
  }

  lemma LastThroughAll(es: seq<Source>, e: Source, own: Option<u32>, sender: RTPTime, bye: RTPTime, general: RTPTime,
          note: RTPTime)
    ensures var r1 := Swept(SenderPass(sender), es, own);
            var r2 := Swept(ByePass(bye), r1, own);
            var r3 := Swept(GeneralPass(general), r2, own);
            var s1 := Swept(SenderPass(sender), es + [e], own);
            var s2 := Swept(ByePass(bye), s1, own);
            var s3 := Swept(GeneralPass(general), s2, own);
            && (Swept(AllPasses(sender, bye, general, note), es, own) == Swept(NotePass(note), r3, own) ==>
                  Swept(AllPasses(sender, bye, general, note), es + [e], own) == Swept(NotePass(note), s3, own))
  {
    hide SenderCleared, NoteCleared, ByeOver, TimedOut, Swept;
    var isown, x := own == Some(e.ssrc), SenderCleared(e, sender);
    var r1 := Swept(SenderPass(sender), es, own);
    var r2 := Swept(ByePass(bye), r1, own);
    var r3 := Swept(GeneralPass(general), r2, own);
    ClearingCommutes(e, isown, sender, bye, general, note);
    SweptSnoc(SenderPass(sender), es, e, own);
    SweptSnoc(AllPasses(sender, bye, general, note), es, e, own);
    SweptSnoc(ByePass(bye), r1, x, own);
    SweptSnoc(GeneralPass(general), r2, x, own);
    SweptSnoc(NotePass(note), r3, x, own);
  }

  /** Clearing the sender flag does not matter to the other passes. */
  lemma ClearingCommutes(e: Source, isown: bool, sender: RTPTime, bye: RTPTime, general: RTPTime, note: RTPTime)
    ensures var x := SenderCleared(e, sender);
            && x.ssrc == e.ssrc && ByeOver(x, isown, bye) == ByeOver(e, isown, bye)
            && TimedOut(x, isown, general) == TimedOut(e, isown, general)
            && NoteCleared(x, note) == SenderCleared(NoteCleared(e, note), sender)
  {
    hide Before;
    NoteOfCleared(e, sender);
  }

  lemma NoteOfCleared(e: Source, sender: RTPTime)
    ensures var x := SenderCleared(e, sender);
            x.Item(NOTE) == e.Item(NOTE) && x.items == e.items && x.lastnotetime == e.lastnotetime
  {}

  // ----- Runs -----

  /** What an event adds to the drift. */
  function EventSlips(t: Table, e: Event): nat {
    match e
    case Rtp(packet, time, sender) => PacketSlips(t, packet, time, sender)
    case _ => 0
  }

  lemma StepKeeps(t: Table, e: Event)
    requires Inv(t)
    ensures Inv(Step(t, e))
    ensures Drift(Step(t, e)) == if e.Timeouts? then 0 else Drift(t) + EventSlips(t, e)
    ensures e != DeleteOwn && t.own.Some? ==> Step(t, e).own == t.own
  {
    hide Inv, Drift, WithRtp, WithRtcp, WithOwn, WithoutOwn, WithSent, WithExtraction, WithPass, PacketSlips;
    match e
    case Rtp(packet, time, sender) => RtpKeeps(t, packet, time, sender);
    case Rtcp(ssrc, change, time, sender) => RtcpKeeps(t, ssrc, change, time, sender);
    case CreateOwn(ssrc) => OwnKeeps(t, ssrc);
    case DeleteOwn => WithoutOwnKeeps(t);
    case Sent(time) => SentKeeps(t, time);
    case GetPacket(k) => ExtractionKeeps(t, k);
    case Timeouts(pass) => InvForPass(t); PassKeeps(t, pass);
  }

  lemma InvForPass(t: Table)
    requires Inv(t)
    ensures Distinct(t.entries) && (forall i :: 0 <= i < |t.entries| ==> EntryOk(t.entries[i], t.own))
    ensures t.own.Some? ==> Has(t.entries, t.own.value)
  {}

  /** The contributing sources gone uncounted since the last pass. */
  function SlipsSincePass(t: Table, es: seq<Event>): nat
    decreases |es|
  {
    if |es| == 0 then 0
    else
      var n := |es| - 1;
      if es[n].Timeouts? then 0 else SlipsSincePass(t, es[..n]) + EventSlips(Run(t, es[..n]), es[n])
  }

  /** On every run of the table: total and sender counts are exact, the active count lacks exactly the contributing
      sources uncounted since the last pass, entries keep their queues and bindings, and our own entry, once there,
      stays until it is deleted, validated and free of BYE. */
  lemma {:induction false} CountsOverRuns(probationtype: ProbationType, es: seq<Event>)
    ensures var t := Run(EmptyTable(probationtype), es);
            && Inv(t)
            && t.activecount + SlipsSincePass(EmptyTable(probationtype), es) == CountActive(t.entries)
    decreases |es|
  {
    hide Inv, Step, EventSlips, Find;
    if |es| == 0 {
      EmptyOk(probationtype);
    } else {
      var n := |es| - 1;
      CountsOverRuns(probationtype, es[..n]);
      StepKeeps(Run(EmptyTable(probationtype), es[..n]), es[n]);
    }
  }

  lemma EmptyOk(probationtype: ProbationType)
    ensures Inv(EmptyTable(probationtype))
  {}

  // ----- Which contributing sources go uncounted -----

  /** One source that only its RTCP traffic has made known. */
  function Heard(from: Address, time: RTPTime): Table {
    Table([NewSource(7, NoProbation).(isrtcpaddrset := true, rtcpaddr := Some(from), lastmsgtime := time)], 1, 0, 0,
        None, NoProbation)
  }

  lemma AfterTouch(from: Address, time: RTPTime)
    ensures Step(EmptyTable(NoProbation), Rtcp(7, Touch, time, Some(from))) == Heard(from, time)
  {}

  lemma AfterPacket(from: Address, time: RTPTime)
    ensures var p := RTPPacket(1, [7], 5, 0, []);
            var r := Received(Heard(from, time), p, time, Some(from));
            && r.Some? && r.value.0.activecount == 1 && Contributing(r.value.0, p) == [7]
            && Uncounted(r.value.0, 7, Some(from))
  {
    var p := RTPPacket(1, [7], 5, 0, []);
    var t := Heard(from, time);
    assert Find(t.entries, 1) == 1;
    var u := Received(t, p, time, Some(from)).value.0;
    assert u.entries[1].validated && Find(u.entries, 1) == 1 && Find(u.entries, 7) == 0;
  }

  /** The shortest run that does it: something from a source that does not validate it, and a packet that names it. */
  lemma ActiveCountFallsBehind(from: Address, time: RTPTime)
    ensures var es := [Rtcp(7, Touch, time, Some(from)), Rtp(RTPPacket(1, [7], 5, 0, []), time, Some(from))];
            var t := Run(EmptyTable(NoProbation), es);
            CountActive(t.entries) == t.activecount + 1
  {
    hide WithRtcp, WithRtp, Received, Contributing, Uncounted, Inv, WithCsrc;
    var e0, e1 := Rtcp(7, Touch, time, Some(from)), Rtp(RTPPacket(1, [7], 5, 0, []), time, Some(from));
    var t0 := EmptyTable(NoProbation);
    AfterTouch(from, time);
    AfterPacket(from, time);
    assert [e0, e1][..1] == [e0] && [e0][..0] == [] && [7][..0] == [];
    assert Run(t0, [e0]) == Heard(from, time);
    EmptyOk(NoProbation);
    StepKeeps(t0, e0);
    StepKeeps(Heard(from, time), e1);
    assert WithCsrcs(Received(Heard(from, time), e1.packet, time, Some(from)).value.0, [], Some(from))
        == Received(Heard(from, time), e1.packet, time, Some(from)).value.0;
  }

  lemma FindUpdated(es: seq<Source>, k: nat, x: Source, ssrc: u32)
    requires k < |es| && x.ssrc == es[k].ssrc
    ensures Find(es[k := x], ssrc) == Find(es, ssrc)
  {
    var i, j := Find(es, ssrc), Find(es[k := x], ssrc);
    if i < |es| {
      assert es[k := x][i].ssrc == ssrc;
    }
    if j < |es| {
      assert es[j].ssrc == ssrc;
    }
  }

  lemma FindAppended(es: seq<Source>, x: Source, ssrc: u32)
    ensures Find(es + [x], ssrc) == if Has(es, ssrc) then Find(es, ssrc) else if x.ssrc == ssrc then |es| else |es| + 1
  {
    var i, j := Find(es, ssrc), Find(es + [x], ssrc);
    if i < |es| {
      assert (es + [x])[i].ssrc == ssrc;
    } else if x.ssrc == ssrc {
      assert (es + [x])[|es|].ssrc == ssrc;
    }
    if j < |es| {
      assert (es + [x])[j] == es[j];
    }
  }

  lemma EntryAppended(es: seq<Source>, x: Source, ssrc: u32)
    ensures EntryOf(es + [x], ssrc)
         == if EntryOf(es, ssrc).Some? then EntryOf(es, ssrc) else if x.ssrc == ssrc then Some(x) else None
  {
    FindAppended(es, x, ssrc);
  }

  /** A contributing source concerns no other entry, and is settled itself: it will not go uncounted again. */
  lemma CsrcSettles(t: Table, csrc: u32, other: u32, sender: Option<Address>)
    ensures Uncounted(WithCsrc(t, csrc, sender), other, sender) <==> other != csrc && Uncounted(t, other, sender)
  {
    hide Checked, Find;
    var k := Find(t.entries, csrc);
    if Has(t.entries, csrc) {
      CheckedSame(t.entries[k], sender);
      if Checked(t.entries[k], sender, true).Some? {
        FindUpdated(t.entries, k, AsCsrc(Checked(t.entries[k], sender, true).value), other);
      }
    } else {
      var x := NewSource(csrc, t.probationtype);
      FindAppended(t.entries, x, other);
      assert (t.entries + [x])[k := AsCsrc(x)] == t.entries + [AsCsrc(x)];
      FindAppended(t.entries, AsCsrc(x), other);
    }
  }

  lemma CheckedSame(s: Source, sender: Option<Address>)
    ensures Checked(s, sender, true).Some? ==> Checked(s, sender, true).value.ssrc == s.ssrc
  {}

  lemma {:induction false} UncountedLater(t: Table, csrcs: seq<u32>, other: u32, sender: Option<Address>)
    ensures Uncounted(WithCsrcs(t, csrcs, sender), other, sender) <==> other !in csrcs && Uncounted(t, other, sender)
    decreases |csrcs|
  {
    hide Uncounted, WithCsrc;
    if |csrcs| > 0 {
      var n := |csrcs| - 1;
      UncountedLater(t, csrcs[..n], other, sender);
      CsrcSettles(WithCsrcs(t, csrcs[..n], sender), csrcs[n], other, sender);
      assert csrcs == csrcs[..n] + [csrcs[n]];
    }
  }

  /** The drift of one packet is the number of its contributing sources, repetitions apart, that are uncounted before
      any of them is looked at. */
  lemma {:induction false} SlipsAreUncounted(t: Table, csrcs: seq<u32>, sender: Option<Address>)
    ensures Slips(t, csrcs, sender) == |set c | c in csrcs && Uncounted(t, c, sender)|
    decreases |csrcs|
  {
    hide Uncounted, WithCsrcs;
    if |csrcs| > 0 {
      var n := |csrcs| - 1;
      SlipsAreUncounted(t, csrcs[..n], sender);
      UncountedLater(t, csrcs[..n], csrcs[n], sender);
      assert csrcs == csrcs[..n] + [csrcs[n]];
      var before := set c | c in csrcs[..n] && Uncounted(t, c, sender);
      var after := set c | c in csrcs && Uncounted(t, c, sender);
      if csrcs[n] !in csrcs[..n] && Uncounted(t, csrcs[n], sender) {
        assert after == before + {csrcs[n]} && csrcs[n] !in before;
      } else {
        assert after == before;
      }
    } else {
      assert (set c | c in csrcs && Uncounted(t, c, sender)) == {};
    }
  }

  // ----- Addresses -----

  /** Entries are only added, and each that was there is the same, or its sender fits it and its addresses are kept. */
  ghost predicate Guarded(t: Table, u: Table, sender: Option<Address>, isrtp: bool) {
    && |t.entries| <= |u.entries|
    && forall i :: 0 <= i < |t.entries| ==>
         && u.entries[i].ssrc == t.entries[i].ssrc
         && (u.entries[i] == t.entries[i]
            || (Fits(t.entries[i], sender, isrtp) && KeepsAddresses(t.entries[i], u.entries[i])))
  }

  lemma GuardedThen(t: Table, u: Table, v: Table, sender: Option<Address>, isrtp: bool)
    requires Guarded(t, u, sender, isrtp) && Guarded(u, v, sender, isrtp)
    ensures Guarded(t, v, sender, isrtp)
  {
    hide Fits;
  }

  lemma ChangeIsGuarded(t: Table, ssrc: u32, u: Table, x: Source, sender: Option<Address>, isrtp: bool)
    requires Inv(t)
    requires var o, k := Obtained(t, ssrc), Find(t.entries, ssrc);
             && Checked(o.entries[k], sender, isrtp).Some?
             && KeepsAddresses(Checked(o.entries[k], sender, isrtp).value, x)
             && x.ssrc == ssrc && u.entries == o.entries[k := x]
    ensures Guarded(t, u, sender, isrtp)
  {
    hide Checked, Fits, CountActive, CountSenders, Find, QueueOk;
    ObtainedKeeps(t, ssrc);
    var o, k := Obtained(t, ssrc), Find(t.entries, ssrc);
    CheckedBinds(o.entries[k], sender, isrtp);
  }

  lemma RtcpIsGuarded(t: Table, ssrc: u32, c: Change, receivetime: RTPTime, sender: Option<Address>)
    requires Inv(t)
    ensures Guarded(t, WithRtcp(t, ssrc, c, receivetime, sender), sender, false)
  {
    hide EntryOk, Changed, Checked, Find, CountActive, CountSenders, Distinct, Bound, QueueOk, Obtained, Replaced, Fits;
    var u, k := Obtained(t, ssrc), Find(t.entries, ssrc);
    ObtainedKeeps(t, ssrc);
    var e := u.entries[k];
    if Checked(e, sender, false).Some? {
      CheckedKeeps(e, t.own, sender, false);
      var a := Checked(e, sender, false).value;
      var x := if c.Bye? && t.own == Some(ssrc) then a else Changed(a, c, receivetime);
      if !(c.Bye? && t.own == Some(ssrc)) {
        ChangeKeeps(a, t.own, c, receivetime);
      }
      ReplacedFrame(u, k, x);
      ChangeIsGuarded(t, ssrc, WithRtcp(t, ssrc, c, receivetime, sender), x, sender, false);
    }
  }

  lemma CsrcIsGuarded(t: Table, csrc: u32, sender: Option<Address>)
    requires Inv(t)
    ensures Guarded(t, WithCsrc(t, csrc, sender), sender, true)
  {
    hide EntryOk, Checked, Find, CountActive, CountSenders, Distinct, QueueOk, Fits, Replaced;
    var u, k := Obtained(t, csrc), Find(t.entries, csrc);
    ObtainedKeeps(t, csrc);
    if Has(t.entries, csrc) {
      var e := t.entries[k];
      if Checked(e, sender, true).Some? {
        var a := Checked(e, sender, true).value;
        CheckedKeeps(e, t.own, sender, true);
        BoundSame(a, AsCsrc(a));
        ChangeIsGuarded(t, csrc, WithCsrc(t, csrc, sender), AsCsrc(a), sender, true);
      }
    } else {
      ReplacedFrame(u, k, AsCsrc(u.entries[k]));
    }
  }

  lemma {:induction false} CsrcsAreGuarded(t: Table, csrcs: seq<u32>, sender: Option<Address>)
    requires Inv(t)
    ensures Guarded(t, WithCsrcs(t, csrcs, sender), sender, true)
    decreases |csrcs|
  {
    hide Inv, WithCsrc, Guarded;
    if |csrcs| > 0 {
      var n := |csrcs| - 1;
      var u := WithCsrcs(t, csrcs[..n], sender);
      CsrcsAreGuarded(t, csrcs[..n], sender);
      CsrcsKeep(t, csrcs[..n], sender);
      CsrcIsGuarded(u, csrcs[n], sender);
      GuardedThen(t, u, WithCsrcs(t, csrcs, sender), sender, true);
    } else {
      GuardedSelf(t, sender, true);
    }
  }

  lemma GuardedSelf(t: Table, sender: Option<Address>, isrtp: bool)
    ensures Guarded(t, t, sender, isrtp)
  {}

  lemma RtpIsGuarded(t: Table, p: RTPPacket, receivetime: RTPTime, sender: Option<Address>)
    requires Inv(t)
    ensures Guarded(t, WithRtp(t, p, receivetime, sender).0, sender, true)
  {
    hide EntryOk, WithPacket, Checked, Find, CountActive, CountSenders, Distinct, Bound, QueueOk, Obtained, Replaced,
         Fits, Guarded, WithCsrcs, Contributing, KeepsAddresses;
    GuardedSelf(t, sender, true);
    if Received(t, p, receivetime, sender).Some? {
      var o, k := Obtained(t, p.ssrc), Find(t.entries, p.ssrc);
      ObtainedKeeps(t, p.ssrc);
      CheckedKeeps(o.entries[k], t.own, sender, true);
      var a := Checked(o.entries[k], sender, true).value;
      PacketKeeps(a, t.own, p, receivetime);
      ReplacedFrame(o, k, WithPacket(a, p, receivetime).0);
      var u := Received(t, p, receivetime, sender).value.0;
      ChangeIsGuarded(t, p.ssrc, u, WithPacket(a, p, receivetime).0, sender, true);
      ReceivedKeeps(t, p, receivetime, sender);
      CsrcsAreGuarded(u, Contributing(u, p), sender);
      GuardedThen(t, u, WithRtp(t, p, receivetime, sender).0, sender, true);
    }
  }

  /** A packet changes an entry only if its sender passes the check there. */
  lemma PacketsAreGuarded(t: Table, e: Event)
    requires Inv(t) && (e.Rtp? || e.Rtcp?)
    ensures Guarded(t, Step(t, e), e.sender, e.Rtp?)
  {
    hide Inv, Guarded, WithRtp, WithRtcp;
    match e
    case Rtp(packet, time, sender) => RtpIsGuarded(t, packet, time, sender);
    case Rtcp(ssrc, change, time, sender) => RtcpIsGuarded(t, ssrc, change, time, sender);
  }

  /** An entry before and after a step: the addresses that were set are still the same. */
  ghost predicate AddressesStay(t: Table, u: Table) {
    forall i, j :: 0 <= i < |t.entries| && 0 <= j < |u.entries| && t.entries[i].ssrc == u.entries[j].ssrc ==>
      KeepsAddresses(t.entries[i], u.entries[j])
  }

  lemma GuardedStays(t: Table, u: Table, sender: Option<Address>, isrtp: bool)
    requires Inv(t) && Inv(u) && Guarded(t, u, sender, isrtp)
    ensures AddressesStay(t, u)
  {
    hide Fits, KeepsAddresses, EntryOk, CountSenders, Find;
    forall i, j | 0 <= i < |t.entries| && 0 <= j < |u.entries| && t.entries[i].ssrc == u.entries[j].ssrc
      ensures KeepsAddresses(t.entries[i], u.entries[j])
    {
      assert u.entries[i].ssrc == u.entries[j].ssrc;
      assert i == j;
      KeepsSelf(t.entries[i]);
    }
  }

  lemma KeepsSelf(e: Source)
    ensures KeepsAddresses(e, e)
  {}

  lemma PassStays(t: Table, p: Pass)
    requires Inv(t)
    ensures AddressesStay(t, WithPass(t, p))
  {
    hide KeepsAddresses, EntryOk, CountSenders, CountActive, Find, Swept;
    SweptFrom(p, t.entries, t.own);
    var u := WithPass(t, p);
    forall i, j | 0 <= i < |t.entries| && 0 <= j < |u.entries| && t.entries[i].ssrc == u.entries[j].ssrc
      ensures KeepsAddresses(t.entries[i], u.entries[j])
    {
      var r := u.entries[j];
      assert r in u.entries;
      var k :| 0 <= k < |t.entries| && t.entries[k].ssrc == r.ssrc && KeepsAddresses(t.entries[k], r);
      assert k == i;
    }
  }

  lemma OthersStay(t: Table, e: Event)
    requires Inv(t) && (e.CreateOwn? || e.DeleteOwn? || e.Sent? || e.GetPacket?)
    ensures AddressesStay(t, Step(t, e))
  {
    hide EntryOk, CountSenders, CountActive, Find;
    match e
    case CreateOwn(ssrc) => CreatingStays(t, ssrc);
    case DeleteOwn => DeletingStays(t);
    case Sent(_) =>
    case GetPacket(_) =>
  }

  lemma CreatingStays(t: Table, ssrc: u32)
    requires Distinct(t.entries)
    ensures AddressesStay(t, WithOwn(t, ssrc))
  {
    hide Find;
    var u := WithOwn(t, ssrc);
    forall i, j | 0 <= i < |t.entries| && 0 <= j < |u.entries| && t.entries[i].ssrc == u.entries[j].ssrc
      ensures KeepsAddresses(t.entries[i], u.entries[j])
    {
      assert j < |t.entries| ==> i == j;
    }
  }

  lemma DeletingStays(t: Table)
    requires Distinct(t.entries)
    ensures AddressesStay(t, WithoutOwn(t))
  {
    hide Find;
    var u := WithoutOwn(t);
    forall i, j | 0 <= i < |t.entries| && 0 <= j < |u.entries| && t.entries[i].ssrc == u.entries[j].ssrc
      ensures KeepsAddresses(t.entries[i], u.entries[j])
    {
      if u != t {
        var k := Find(t.entries, t.own.value);
        assert u.entries[j] == t.entries[if j < k then j else j + 1];
      }
    }
  }

  lemma StepStays(t: Table, e: Event)
    requires Inv(t)
    ensures AddressesStay(t, Step(t, e))
  {
    hide Inv, AddressesStay, Guarded, WithRtp, WithRtcp, WithOwn, WithoutOwn, WithSent, WithExtraction, WithPass;
    StepKeeps(t, e);
    if e.Timeouts? {
      PassStays(t, e.pass);
    } else if e.Rtp? || e.Rtcp? {
      PacketsAreGuarded(t, e);
      GuardedStays(t, Step(t, e), e.sender, e.Rtp?);
    } else {
      OthersStay(t, e);
    }
  }

  /** As long as a source is in the table, an address once set stays the same, over any run. */
  lemma {:induction false} AddressesStayOverRuns(t: Table, es: seq<Event>, ssrc: u32)
    requires Inv(t) && forall n :: 0 <= n <= |es| ==> Has(Run(t, es[..n]).entries, ssrc)
    ensures Inv(Run(t, es)) && Has(t.entries, ssrc) && Has(Run(t, es).entries, ssrc)
    ensures KeepsAddresses(t.entries[Find(t.entries, ssrc)], Run(t, es).entries[Find(Run(t, es).entries, ssrc)])
    decreases |es|
  {
    hide Inv, Step, KeepsAddresses, Find;
    assert es[..|es|] == es;
    if |es| == 0 {
      KeepsSelf(t.entries[Find(t.entries, ssrc)]);
    } else {
      var n := |es| - 1;
      forall k | 0 <= k <= n
        ensures Has(Run(t, es[..n][..k]).entries, ssrc)
      {
        assert es[..n][..k] == es[..k];
      }
      AddressesStayOverRuns(t, es[..n], ssrc);
      var u := Run(t, es[..n]);
      StepKeeps(u, es[n]);
      StepStays(u, es[n]);
      KeepsThen(t.entries[Find(t.entries, ssrc)], u.entries[Find(u.entries, ssrc)],
                Run(t, es).entries[Find(Run(t, es).entries, ssrc)]);
    }
  }

  lemma KeepsThen(a: Source, b: Source, c: Source)
    requires KeepsAddresses(a, b) && KeepsAddresses(b, c)
    ensures KeepsAddresses(a, c)
  {}
}
