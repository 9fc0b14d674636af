/** One entry of the source table as a value, and what each event makes of it. */
module SourceState {
  import opened Basics
  import opened Bytes
  import opened SourceStats

  const MAXPROBATIONPACKETS := 32
  /** RTPTime: seconds and microseconds, 32 bits each. */
  datatype RTPTime = RTPTime(sec: u32, microsec: u32) {
    predicate Normal() {
      microsec < MILLION
    }

    function Micros(): int {
      sec * MILLION + microsec
    }
  }

  const ZERO_TIME := RTPTime(0, 0)

  /** operator-=, with its 32-bit seconds. */
  function Minus(a: RTPTime, b: RTPTime): RTPTime {
    var sec := Sub32(a.sec, b.sec);
    if b.microsec > a.microsec
    then RTPTime(Sub32(sec, 1), Sub32(Add32(a.microsec, MILLION), b.microsec))
    else RTPTime(sec, a.microsec - b.microsec)
  }

  /** operator<; operator> has its arguments the other way round. */
  predicate Before(a: RTPTime, b: RTPTime) {
    a.sec < b.sec || (a.sec == b.sec && a.microsec < b.microsec)
  }

  lemma BeforeIsOrder(a: RTPTime, b: RTPTime)
    requires a.Normal() && b.Normal()
    ensures Before(a, b) <==> a.Micros() < b.Micros()
  {}

  lemma MinusWraps(a: RTPTime, b: RTPTime)
    requires a.Normal() && b.Normal()
    ensures Minus(a, b).Normal()
    ensures Minus(a, b).Micros() == a.Micros() - b.Micros() + if a.Micros() < b.Micros() then WORD * MILLION else 0
  {
    if b.microsec > a.microsec {
      assert Sub32(Add32(a.microsec, MILLION), b.microsec) == a.microsec + MILLION - b.microsec;
      assert Sub32(Sub32(a.sec, b.sec), 1) == a.sec - b.sec - 1 + if a.sec < b.sec + 1 then WORD else 0;
    } else {
      assert Sub32(a.sec, b.sec) == a.sec - b.sec + if a.sec < b.sec then WORD else 0;
    }
  }

  /** Something is older than `delay` at `now`, as the passes ask it. A delay longer than the clock has run does not
      spare anything: the subtraction wraps round. */
  lemma OlderThan(last: RTPTime, now: RTPTime, delay: RTPTime)
    requires last.Normal() && now.Normal() && delay.Normal()
    ensures Before(last, Minus(now, delay))
       <==> last.Micros() + delay.Micros() < now.Micros() + if now.Micros() < delay.Micros() then WORD * MILLION else 0
  {
    hide Minus, Before;
    MinusWraps(now, delay);
    BeforeIsOrder(last, Minus(now, delay));
  }

  datatype Address = Address(ip: u32, port: u16)

  predicate SameAddress(a: Address, b: Option<Address>) {
    b == Some(a)
  }

  predicate SameHost(a: Address, b: Option<Address>) {
    b.Some? && b.value.ip == a.ip
  }

  /** An RTP packet; `seqnr` is the 16-bit field on arrival and the extended number once it has been processed. */
  datatype RTPPacket = RTPPacket(ssrc: u32, csrcs: seq<u32>, seqnr: u32, timestamp: u32, payload: seq<byte>)

  datatype ProbationType = NoProbation | ProbationDiscard | ProbationStore

  datatype ItemId = CNAME | NAME | EMAIL | PHONE | LOC | TOOL | NOTE

  datatype Source = Source(
    ssrc: u32, probationtype: ProbationType, ownssrc: bool, iscsrc: bool, validated: bool, receivedbye: bool,
    issender: bool, stats: Stats, lastmsgtime: RTPTime, lastrtptime: RTPTime, lastnotetime: RTPTime,
    packetlist: seq<RTPPacket>, isrtpaddrset: bool, rtpaddr: Option<Address>, isrtcpaddrset: bool,
    rtcpaddr: Option<Address>, byetime: RTPTime, byereason: seq<byte>, items: map<ItemId, seq<byte>>,
    processedinrtcp: bool) {
    predicate IsActive() {
      validated && !receivedbye
    }

    function Item(id: ItemId): seq<byte> {
      if id in items then items[id] else []
    }
  }

  function NewSource(ssrc: u32, probationtype: ProbationType): Source {
    Source(ssrc, probationtype, false, false, false, false, false, NO_STATS, ZERO_TIME, ZERO_TIME, ZERO_TIME,
           [], false, None, false, None, ZERO_TIME, [], map[], false)
  }

  // ----- The packet queue -----

  ghost predicate StrictlyIncreasing(q: seq<RTPPacket>) {
    forall i, j :: 0 <= i < j < |q| ==> q[i].seqnr < q[j].seqnr
  }

  predicate HasNumber(q: seq<RTPPacket>, n: u32) {
    exists i :: 0 <= i < |q| && q[i].seqnr == n
  }

  /** The search for a place, from the back; a packet whose number is there already is dropped. */
  function Inserted(q: seq<RTPPacket>, p: RTPPacket): seq<RTPPacket>
    decreases |q|
  {
    if |q| == 0 then [p]
    else
      var last := q[|q| - 1];
      if last.seqnr > p.seqnr then Inserted(q[..|q| - 1], p) + [last]
      else if last.seqnr < p.seqnr then q + [p]
      else q
  }

  lemma HasNumberSnoc(q: seq<RTPPacket>, n: u32)
    requires |q| > 0
    ensures HasNumber(q, n) <==> HasNumber(q[..|q| - 1], n) || q[|q| - 1].seqnr == n
  {
    if HasNumber(q[..|q| - 1], n) {
      var i :| 0 <= i < |q| - 1 && q[..|q| - 1][i].seqnr == n;
      assert q[i].seqnr == n;
    }
    if HasNumber(q, n) {
      var i :| 0 <= i < |q| && q[i].seqnr == n;
      assert i < |q| - 1 ==> q[..|q| - 1][i].seqnr == n;
    }
  }

  /** A new number adds the packet, a known one changes nothing. */
  lemma {:induction false} InsertedContents(q: seq<RTPPacket>, p: RTPPacket)
    requires StrictlyIncreasing(q)
    ensures HasNumber(q, p.seqnr) ==> Inserted(q, p) == q
    ensures !HasNumber(q, p.seqnr) ==>
              multiset(Inserted(q, p)) == multiset(q) + multiset{p} && |Inserted(q, p)| == |q| + 1
    decreases |q|
  {
    if |q| > 0 {
      var init, last := q[..|q| - 1], q[|q| - 1];
      assert q == init + [last];
      HasNumberSnoc(q, p.seqnr);
      if last.seqnr > p.seqnr {
        InsertedContents(init, p);
      } else if HasNumber(init, p.seqnr) {
        assert last.seqnr == p.seqnr;
      }
    }
  }

  lemma {:induction false} InsertedIsSorted(q: seq<RTPPacket>, p: RTPPacket)
    requires StrictlyIncreasing(q)
    ensures StrictlyIncreasing(Inserted(q, p))
    ensures forall x :: x in Inserted(q, p) ==> x == p || x in q
    decreases |q|
  {
    if |q| > 0 && q[|q| - 1].seqnr > p.seqnr {
      var init, last := q[..|q| - 1], q[|q| - 1];
      InsertedIsSorted(init, p);
      var placed := Inserted(init, p);
      assert forall i :: 0 <= i < |placed| ==> placed[i] in placed;
      assert forall x :: x in init ==> x in q && x.seqnr < last.seqnr;
    }
  }

  /** What the cap on unvalidated sources throws out before the search: the packet with the lowest number. */
  function Evicted(q: seq<RTPPacket>, validated: bool): seq<RTPPacket> {
    if !validated && |q| == MAXPROBATIONPACKETS then q[..1] else []
  }

  function Queued(q: seq<RTPPacket>, validated: bool, p: RTPPacket): seq<RTPPacket> {
    Inserted(q[|Evicted(q, validated)|..], p)
  }

  function Stored(q: seq<RTPPacket>, validated: bool, p: RTPPacket): bool {
    !HasNumber(q[|Evicted(q, validated)|..], p.seqnr)
  }

  ghost predicate QueueOk(s: Source) {
    StrictlyIncreasing(s.packetlist) && (!s.validated ==> |s.packetlist| <= MAXPROBATIONPACKETS)
  }

  // ----- The events -----

  function Applies(s: Source): bool {
    !s.validated && s.probationtype != NoProbation
  }

  /** The packet passes the probation policy: it is accepted, or kept while on probation. */
  function Passes(s: Source, r: Reception): bool {
    r.accept || (s.probationtype == ProbationStore && r.onprobation)
  }

  /** The entry after the statistics and the policy have seen a packet, before the queue has. */
  function Judged(s: Source, r: Reception, receivetime: RTPTime): Source {
    s.(stats := r.stats, lastmsgtime := receivetime,
       lastrtptime := if r.accept && !s.ownssrc then receivetime else s.lastrtptime,
       validated := s.validated || r.accept,
       issender := s.issender || (Passes(s, r) && (s.validated || r.accept) && !s.ownssrc))
  }

  function Arrival(s: Source, p: RTPPacket): Reception {
    Receive(s.stats, p.seqnr % CYCLE, Applies(s))
  }

  /** ProcessRTPPacket: the new entry, and whether the packet went into the queue. */
  function WithPacket(s: Source, p: RTPPacket, receivetime: RTPTime): (Source, bool) {
    var r := Arrival(s, p);
    var t := Judged(s, r, receivetime);
    var q := p.(seqnr := r.seqnr);
    if Passes(s, r)
    then (t.(packetlist := Queued(t.packetlist, t.validated, q)), Stored(t.packetlist, t.validated, q))
    else (t, false)
  }

  /** Items that the first one received settles. */
  predicate Once(id: ItemId) {
    id == CNAME || id == NAME || id == EMAIL || id == TOOL
  }

  predicate Takes(s: Source, id: ItemId) {
    !Once(id) || |s.Item(id)| == 0
  }

  /** ProcessSDESItem: the new entry, and whether the CNAME clashes with the one already known. */
  function WithItem(s: Source, id: ItemId, data: seq<byte>, receivetime: RTPTime): (Source, bool) {
    (s.(lastmsgtime := receivetime,
        items := if Takes(s, id) then s.items[id := data] else s.items,
        validated := s.validated || (id == CNAME && Takes(s, id)),
        lastnotetime := if id == NOTE then receivetime else s.lastnotetime),
     id == CNAME && !Takes(s, id) && s.Item(CNAME) != data)
  }

  function WithBye(s: Source, reason: seq<byte>, receivetime: RTPTime): Source {
    s.(byetime := receivetime, byereason := reason, receivedbye := true, lastmsgtime := receivetime)
  }

  function WithRtpAddress(s: Source, a: Option<Address>): Source {
    s.(isrtpaddrset := true, rtpaddr := a)
  }

  function WithRtcpAddress(s: Source, a: Option<Address>): Source {
    s.(isrtcpaddrset := true, rtcpaddr := a)
  }

  /** CheckCollision: None on a collision, otherwise the entry with the address stored. */
  function Checked(s: Source, sender: Option<Address>, isrtp: bool): Option<Source> {
    var isset, addr := if isrtp then s.isrtpaddrset else s.isrtcpaddrset, if isrtp then s.rtpaddr else s.rtcpaddr;
    var otherisset := if isrtp then s.isrtcpaddrset else s.isrtpaddrset;
    var otheraddr := if isrtp then s.rtcpaddr else s.rtpaddr;
    var stored := if isrtp then WithRtpAddress(s, sender) else WithRtcpAddress(s, sender);
    if isset then
      if addr.None? then (if sender.Some? then None else Some(s))
      else if !SameAddress(addr.value, sender) then None else Some(s)
    else if otherisset then
      if otheraddr.None? then (if sender.Some? then None else Some(stored))
      else if !SameHost(otheraddr.value, sender) then None else Some(stored)
    else Some(stored)
  }

  // ----- What they keep -----

  /** Both addresses, once set, are null or of one host. */
  predicate Bound(s: Source) {
    s.isrtpaddrset && s.isrtcpaddrset ==>
      || (s.rtpaddr.None? && s.rtcpaddr.None?)
      || (s.rtpaddr.Some? && s.rtcpaddr.Some? && s.rtpaddr.value.ip == s.rtcpaddr.value.ip)
  }

  /** No address that was set has changed. */
  predicate KeepsAddresses(s: Source, t: Source) {
    && (s.isrtpaddrset ==> t.isrtpaddrset && t.rtpaddr == s.rtpaddr)
    && (s.isrtcpaddrset ==> t.isrtcpaddrset && t.rtcpaddr == s.rtcpaddr)
  }

  /** The sender fits both addresses: equal to the one for this kind of packet, else of the other one's host. */
  predicate Fits(s: Source, sender: Option<Address>, isrtp: bool) {
    && (isrtp && s.isrtpaddrset ==> sender == s.rtpaddr)
    && (!isrtp && s.isrtcpaddrset ==> sender == s.rtcpaddr)
    && Bound(if isrtp then WithRtpAddress(s, sender) else WithRtcpAddress(s, sender))
  }

  /** The check passes exactly the senders that fit, binds the address, and keeps bound entries bound. */
  lemma CheckedBinds(s: Source, sender: Option<Address>, isrtp: bool)
    requires Bound(s)
    ensures Checked(s, sender, isrtp).Some? <==> Fits(s, sender, isrtp)
    ensures Checked(s, sender, isrtp).Some? ==>
              var t := Checked(s, sender, isrtp).value;
              && Bound(t) && KeepsAddresses(s, t)
              && (if isrtp then t.isrtpaddrset && t.rtpaddr == sender else t.isrtcpaddrset && t.rtcpaddr == sender)
  {}

  /** A packet keeps the queue strictly increasing and capped; it is stored exactly when it entered; and what was in the
      queue, with it if stored, is in the queue now or thrown out. */
  lemma PacketKeepsQueue(s: Source, p: RTPPacket, receivetime: RTPTime)
    requires QueueOk(s)
    ensures var (t, stored) := WithPacket(s, p, receivetime);
            var q := p.(seqnr := Arrival(s, p).seqnr);
            var out := if Passes(s, Arrival(s, p)) then Evicted(s.packetlist, t.validated) else [];
            && QueueOk(t) && (s.validated ==> t.validated)
            && multiset(s.packetlist) + (if stored then multiset{q} else multiset{}) == multiset(t.packetlist)
               + multiset(out)
            && (stored ==> q in t.packetlist)
            && (!stored && Passes(s, Arrival(s, p)) ==> HasNumber(t.packetlist, q.seqnr))
            && (out != [] ==> !t.validated && forall x :: x in t.packetlist && x != q ==> out[0].seqnr < x.seqnr)
  {
    hide Arrival, Queued, Stored, StrictlyIncreasing, HasNumber, Evicted;
    var r := Arrival(s, p);
    if Passes(s, r) {
      QueuedKeeps(s.packetlist, Judged(s, r, receivetime).validated, p.(seqnr := r.seqnr));
    }
  }

  lemma QueuedKeeps(q: seq<RTPPacket>, validated: bool, p: RTPPacket)
    requires StrictlyIncreasing(q)
    ensures var q' := Queued(q, validated, p);
            var stored, out := Stored(q, validated, p), Evicted(q, validated);
            && StrictlyIncreasing(q') && (!validated && |q| <= MAXPROBATIONPACKETS ==> |q'| <= MAXPROBATIONPACKETS)
            && multiset(q) + (if stored then multiset{p} else multiset{}) == multiset(q') + multiset(out)
            && (stored ==> p in q') && (!stored ==> HasNumber(q', p.seqnr))
            && (out != [] ==> !validated && forall x :: x in q' && x != p ==> out[0].seqnr < x.seqnr)
  {
    hide HasNumber, StrictlyIncreasing, Inserted;
    var out := Evicted(q, validated);
    var rest := q[|out|..];
    assert q == out + rest;
    LaterIsSorted(q, |out|);
    InsertedIsSorted(rest, p);
    InsertedContents(rest, p);
    if !HasNumber(rest, p.seqnr) {
      assert p in multiset(Inserted(rest, p));
    }
  }

  lemma LaterIsSorted(q: seq<RTPPacket>, n: nat)
    requires StrictlyIncreasing(q) && n <= |q|
    ensures StrictlyIncreasing(q[n..])
    ensures forall x, y :: x in q[..n] && y in q[n..] ==> x.seqnr < y.seqnr
  {}

  /** Extraction gives the packet with the lowest number of a validated entry. */
  function Extracted(s: Source): (Source, Option<RTPPacket>) {
    if !s.validated || |s.packetlist| == 0 then (s, None)
    else (s.(packetlist := s.packetlist[1..]), Some(s.packetlist[0]))
  }

  /** One event at a source, as far as its queue goes. */
  datatype QueueEvent = Arrive(packet: RTPPacket, time: RTPTime) | Extract | Validate

  /** The queue with a record of what has been stored, extracted and thrown out. */
  datatype QueueRun = QueueRun(source: Source, stored: seq<RTPPacket>, extracted: seq<RTPPacket>,
      evicted: seq<RTPPacket>)

  function QueueStep(r: QueueRun, e: QueueEvent): QueueRun {
    match e
    case Arrive(p, time) =>
      var a := Arrival(r.source, p);
      var (t, stored) := WithPacket(r.source, p, time);
      QueueRun(t, if stored then r.stored + [p.(seqnr := a.seqnr)] else r.stored, r.extracted,
               if Passes(r.source, a) then r.evicted + Evicted(r.source.packetlist, t.validated) else r.evicted)
    case Extract =>
      var (t, p) := Extracted(r.source);
      r.(source := t, extracted := if p.Some? then r.extracted + [p.value] else r.extracted)
    case Validate => r.(source := r.source.(validated := true))
  }

  function QueueRuns(s: Source, es: seq<QueueEvent>): QueueRun
    decreases |es|
  {
    if |es| == 0 then QueueRun(s, s.packetlist, [], []) else QueueStep(QueueRuns(s, es[..|es| - 1]), es[|es| - 1])
  }

  /** Over every run, each packet stored is exactly one of queued, extracted and thrown out; the queue stays sorted and
      capped; and an extraction takes the minimum. */
  lemma {:induction false} QueueConserves(s: Source, es: seq<QueueEvent>)
    requires QueueOk(s)
    ensures var r := QueueRuns(s, es);
            && QueueOk(r.source)
            && multiset(r.stored) == multiset(r.source.packetlist) + multiset(r.extracted) + multiset(r.evicted)
            && (r.source.validated && r.source.packetlist != [] ==>
                  && Extracted(r.source).1.Some?
                  && forall x :: x in r.source.packetlist ==> Extracted(r.source).1.value.seqnr <= x.seqnr)
            && (s.validated ==> r.source.validated)
    decreases |es|
  {
    if |es| > 0 {
      QueueConserves(s, es[..|es| - 1]);
      QueueStepConserves(QueueRuns(s, es[..|es| - 1]), es[|es| - 1]);
    }
  }

  lemma Balanced<T>(stored: multiset<T>, entered: multiset<T>, q: multiset<T>, q': multiset<T>,
                    extracted: multiset<T>, evicted: multiset<T>, out: multiset<T>)
    requires stored == q + extracted + evicted && q + entered == q' + out
    ensures stored + entered == q' + extracted + (evicted + out)
  {
    forall x
      ensures (stored + entered)[x] == (q' + extracted + (evicted + out))[x]
    {
      assert (q + entered)[x] == (q' + out)[x];
    }
  }

  lemma QueueStepConserves(r: QueueRun, e: QueueEvent)
    requires QueueOk(r.source)
    requires multiset(r.stored) == multiset(r.source.packetlist) + multiset(r.extracted) + multiset(r.evicted)
    ensures var r' := QueueStep(r, e);
            && QueueOk(r'.source) && (r.source.validated ==> r'.source.validated)
            && multiset(r'.stored) == multiset(r'.source.packetlist) + multiset(r'.extracted) + multiset(r'.evicted)
  {
    hide WithPacket, Arrival, Passes, Evicted, HasNumber, StrictlyIncreasing;
    match e
    case Arrive(p, time) =>
      PacketKeepsQueue(r.source, p, time);
      var a, t := Arrival(r.source, p), WithPacket(r.source, p, time);
      var out: seq<RTPPacket> := if Passes(r.source, a) then Evicted(r.source.packetlist, t.0.validated) else [];
      assert QueueStep(r, e).evicted == r.evicted + out;
      var entered: seq<RTPPacket> := if t.1 then [p.(seqnr := a.seqnr)] else [];
      assert QueueStep(r, e).stored == r.stored + entered;
      Balanced(multiset(r.stored), multiset(entered), multiset(r.source.packetlist), multiset(t.0.packetlist),
               multiset(r.extracted), multiset(r.evicted), multiset(out));
    case Extract =>
      if r.source.validated && |r.source.packetlist| > 0 {
        LaterIsSorted(r.source.packetlist, 1);
        assert r.source.packetlist == [r.source.packetlist[0]] + r.source.packetlist[1..];
      }
    case Validate =>
  }

  /** The packet, when it comes under probation and no CNAME, CSRC or own entry has validated the source, is what
      validates it: the source is validated exactly from the first packet that completes three in a row on. */
  lemma {:induction false} ValidatedByThreeInRow(s: Source, ps: seq<RTPPacket>, times: seq<RTPTime>, sns: seq<u16>)
    requires |times| == |ps| && s.stats == NO_STATS && !s.validated && s.probationtype != NoProbation
    requires |sns| == |ps| && forall i :: 0 <= i < |ps| ==> sns[i] == ps[i].seqnr % CYCLE
    ensures var t := AfterPackets(s, ps, times);
            && t.probationtype == s.probationtype && (t.validated <==> t.stats.sentdata)
            && (t.validated <==> HasThreeInRow(sns))
            && (!t.validated ==> t.stats == Probed(sns))
    decreases |ps|
  {
    hide WithPacket, Probed, HasThreeInRow, ThirdInRow;
    if |ps| == 0 {
      assert sns == [];
      NothingProbed(sns);
    } else {
      var n := |ps| - 1;
      ValidatedByThreeInRow(s, ps[..n], times[..n], sns[..n]);
      ValidatedNext(AfterPackets(s, ps[..n], times[..n]), ps[n], times[n], sns);
    }
  }

  lemma ValidatedNext(u: Source, p: RTPPacket, time: RTPTime, sns: seq<u16>)
    requires |sns| > 0 && sns[|sns| - 1] == p.seqnr % CYCLE && u.probationtype != NoProbation
    requires u.validated == u.stats.sentdata == HasThreeInRow(sns[..|sns| - 1])
    requires !u.validated ==> u.stats == Probed(sns[..|sns| - 1])
    ensures var t := WithPacket(u, p, time).0;
            && t.probationtype == u.probationtype && t.validated == t.stats.sentdata == HasThreeInRow(sns)
            && (!t.validated ==> t.stats == Probed(sns))
  {
    hide HasThreeInRow, ThirdInRow, Receive, WithPacket;
    ThreeInRowStays(sns);
    PacketFields(u, p, time);
    if u.validated {
      SentStays(u.stats, p.seqnr % CYCLE, Applies(u));
    } else {
      AcceptedFromThirdInRow(sns);
      ProbationCounts(sns);
    }
  }

  lemma PacketFields(s: Source, p: RTPPacket, time: RTPTime)
    ensures var r, t := Arrival(s, p), WithPacket(s, p, time).0;
            t.probationtype == s.probationtype && t.validated == (s.validated || r.accept) && t.stats == r.stats
  {
    hide Arrival, Passes, Queued, Stored, Judged;
    JudgedFields(s, Arrival(s, p), time);
  }

  lemma JudgedFields(s: Source, r: Reception, time: RTPTime)
    ensures var t := Judged(s, r, time);
            t.probationtype == s.probationtype && t.validated == (s.validated || r.accept) && t.stats == r.stats
  {}

  lemma NothingProbed(sns: seq<u16>)
    requires |sns| == 0
    ensures Probed(sns) == NO_STATS && !HasThreeInRow(sns)
  {}

  lemma SentStays(s: Stats, sn: u16, applyprobation: bool)
    requires s.sentdata
    ensures Receive(s, sn, applyprobation).stats.sentdata && Receive(s, sn, applyprobation).accept
  {}

  /** A source after packets received at these times. */
  function AfterPackets(s: Source, ps: seq<RTPPacket>, times: seq<RTPTime>): Source
    requires |times| == |ps|
    decreases |ps|
  {
    var n := |ps| - 1;
    if |ps| == 0 then s else WithPacket(AfterPackets(s, ps[..n], times[..n]), ps[n], times[n]).0
  }

  // ----- Description items -----

  /** An item, its text, and when it came. */
  type Given = (ItemId, seq<byte>, RTPTime)

  /** Items one after the other. */
  function AfterItems(s: Source, es: seq<Given>): Source
    decreases |es|
  {
    if |es| == 0 then s
    else
      var e := es[|es| - 1];
      WithItem(AfterItems(s, es[..|es| - 1]), e.0, e.1, e.2).0
  }

  predicate FirstGiven(es: seq<Given>, id: ItemId, k: nat) {
    k < |es| && es[k].0 == id && |es[k].1| != 0 && forall j :: 0 <= j < k && es[j].0 == id ==> |es[j].1| == 0
  }

  predicate LastGiven(es: seq<Given>, id: ItemId, k: nat) {
    k < |es| && es[k].0 == id && forall j :: k < j < |es| ==> es[j].0 != id
  }

  /** Over any run of items, CNAME, name, e-mail and tool keep the first text given, and the others have the last. */
  lemma {:induction false} ItemsOverRuns(s: Source, es: seq<Given>, id: ItemId, k: nat)
    requires |s.Item(id)| == 0
    ensures Once(id) && FirstGiven(es, id, k) ==> AfterItems(s, es).Item(id) == es[k].1
    ensures Once(id) && (forall j :: 0 <= j < |es| && es[j].0 == id ==> |es[j].1| == 0) ==>
              |AfterItems(s, es).Item(id)| == 0
    ensures !Once(id) && LastGiven(es, id, k) ==> AfterItems(s, es).Item(id) == es[k].1
    decreases |es|
  {
    hide WithItem, Takes;
    if |es| > 0 {
      var init, e := es[..|es| - 1], es[|es| - 1];
      assert forall j :: 0 <= j < |init| ==> init[j] == es[j];
      ItemsOverRuns(s, init, id, k);
      ItemSettles(AfterItems(s, init), e.0, e.1, e.2, id);
    }
  }

  /** One item: whose text changes, when the source is validated, and when the CNAME collides. */
  lemma ItemSettles(s: Source, id: ItemId, data: seq<byte>, time: RTPTime, other: ItemId)
    ensures var (t, collision) := WithItem(s, id, data, time);
            && t.Item(other) == (if other == id && (!Once(id) || |s.Item(id)| == 0) then data else s.Item(other))
            && (t.validated <==> s.validated || (id == CNAME && |s.Item(CNAME)| == 0))
            && (collision <==> id == CNAME && |s.Item(CNAME)| != 0 && data != s.Item(CNAME))
  {}
}
