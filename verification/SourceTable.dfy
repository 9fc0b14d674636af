/** The table of sources as a value: entries in insertion order, the three counts, and our own entry. */
module SourceTable {
  import opened Basics
  import opened Bytes
  import opened SourceState

  datatype Table = Table(entries: seq<Source>, totalcount: int, sendercount: int, activecount: int,
                         own: Option<u32>, probationtype: ProbationType)

  function EmptyTable(probationtype: ProbationType): Table {
    Table([], 0, 0, 0, None, probationtype)
  }

  /** The position of an entry, or the end. */
  function Find(es: seq<Source>, ssrc: u32): (k: nat)
    ensures k <= |es| && (k < |es| ==> es[k].ssrc == ssrc)
    ensures forall i :: 0 <= i < k ==> es[i].ssrc != ssrc
    decreases |es|
  {
    if |es| == 0 then 0 else if es[0].ssrc == ssrc then 0 else Find(es[1..], ssrc) + 1
  }

  predicate Has(es: seq<Source>, ssrc: u32) {
    Find(es, ssrc) < |es|
  }

  /** The entry of a source. */
  function EntryOf(es: seq<Source>, ssrc: u32): (e: Option<Source>)
    ensures e.Some? ==> e.value in es && e.value.ssrc == ssrc
    ensures e.None? ==> forall i :: 0 <= i < |es| ==> es[i].ssrc != ssrc
  {
    var k := Find(es, ssrc);
    if k < |es| then Some(es[k]) else None
  }

  function CountSenders(es: seq<Source>): nat
    decreases |es|
  {
    if |es| == 0 then 0 else CountSenders(es[..|es| - 1]) + (if es[|es| - 1].issender then 1 else 0)
  }

  function CountActive(es: seq<Source>): nat
    decreases |es|
  {
    if |es| == 0 then 0 else CountActive(es[..|es| - 1]) + (if es[|es| - 1].IsActive() then 1 else 0)
  }

  /** How far the active count has fallen behind the number of active entries. */
  function Drift(t: Table): int {
    CountActive(t.entries) - t.activecount
  }

  // ----- The operations -----

  /** The table with an entry for `ssrc`, which is at Find(t.entries, ssrc). */
  function Obtained(t: Table, ssrc: u32): (t': Table)
    ensures Find(t.entries, ssrc) < |t'.entries|
  {
    if Has(t.entries, ssrc) then t
    else t.(entries := t.entries + [NewSource(ssrc, t.probationtype)], totalcount := t.totalcount + 1)
  }

  /** A changed entry, with the counts following the sender flag and the activity. */
  function Replaced(t: Table, k: nat, x: Source): Table
    requires k < |t.entries|
  {
    var e := t.entries[k];
    t.(entries := t.entries[k := x],
       sendercount := t.sendercount + (if !e.issender && x.issender then 1 else 0),
       activecount := t.activecount
           + (if !e.IsActive() && x.IsActive() then 1 else if e.IsActive() && !x.IsActive() then -1 else 0))
  }

  /** What an RTCP packet tells about a source. Sender information and report blocks leave a time and nothing else. */
  datatype Change = Touch | Item(id: ItemId, data: seq<byte>) | Bye(reason: seq<byte>)

  function Changed(s: Source, c: Change, receivetime: RTPTime): Source {
    match c
    case Touch => s.(lastmsgtime := receivetime)
    case Item(id, data) => WithItem(s, id, data, receivetime).0
    case Bye(reason) => WithBye(s, reason, receivetime)
  }

  function WithRtcp(t: Table, ssrc: u32, c: Change, receivetime: RTPTime, sender: Option<Address>): Table {
    var u, k := Obtained(t, ssrc), Find(t.entries, ssrc);
    match Checked(u.entries[k], sender, false)
    case None => t
    case Some(e) => Replaced(u, k, if c.Bye? && t.own == Some(ssrc) then e else Changed(e, c, receivetime))
  }

  function AsCsrc(s: Source): Source {
    s.(validated := true, iscsrc := true)
  }

  /** One contributing source. An entry that was there already is validated without being counted. */
  function WithCsrc(t: Table, csrc: u32, sender: Option<Address>): Table {
    var u, k := Obtained(t, csrc), Find(t.entries, csrc);
    if Has(t.entries, csrc) then
      match Checked(t.entries[k], sender, true)
      case None => t
      case Some(e) => t.(entries := t.entries[k := AsCsrc(e)])
    else
      Replaced(u, k, AsCsrc(u.entries[k]))
  }

  function WithCsrcs(t: Table, csrcs: seq<u32>, sender: Option<Address>): Table
    decreases |csrcs|
  {
    if |csrcs| == 0 then t else WithCsrc(WithCsrcs(t, csrcs[..|csrcs| - 1], sender), csrcs[|csrcs| - 1], sender)
  }

  /** The table once the packet's own source has it, before the contributing sources; None on a collision. */
  function Received(t: Table, p: RTPPacket, receivetime: RTPTime, sender: Option<Address>): Option<(Table, bool)> {
    var u, k := Obtained(t, p.ssrc), Find(t.entries, p.ssrc);
    match Checked(u.entries[k], sender, true)
    case None => None
    case Some(e) =>
      var (x, stored) := WithPacket(e, p, receivetime);
      Some((Replaced(u, k, x), stored))
  }

  /** The contributing sources are looked at when the packet's own source is validated. */
  function Contributing(t: Table, p: RTPPacket): seq<u32> {
    var k := Find(t.entries, p.ssrc);
    if k < |t.entries| && t.entries[k].validated then p.csrcs else []
  }

  /** ProcessRTPPacket: the new table, and whether the packet went into a queue. */
  function WithRtp(t: Table, p: RTPPacket, receivetime: RTPTime, sender: Option<Address>): (Table, bool) {
    match Received(t, p, receivetime, sender)
    case None => (t, false)
    case Some((u, stored)) => (WithCsrcs(u, Contributing(u, p), sender), stored)
  }

  function OwnSource(ssrc: u32, probationtype: ProbationType): Source {
    WithRtcpAddress(WithRtpAddress(NewSource(ssrc, probationtype).(ownssrc := true, validated := true), None), None)
  }

  function WithOwn(t: Table, ssrc: u32): Table {
    if t.own.Some? || Has(t.entries, ssrc) then t
    else t.(entries := t.entries + [OwnSource(ssrc, t.probationtype)], totalcount := t.totalcount + 1,
            activecount := t.activecount + 1, own := Some(ssrc))
  }

  function WithoutOwn(t: Table): Table {
    if t.own.None? || !Has(t.entries, t.own.value) then t
    else
      var k := Find(t.entries, t.own.value);
      var e := t.entries[k];
      t.(entries := Without(t.entries, k), totalcount := t.totalcount - 1,
         sendercount := if e.issender then t.sendercount - 1 else t.sendercount,
         activecount := if e.IsActive() then t.activecount - 1 else t.activecount, own := None)
  }

  function WithSent(t: Table, now: RTPTime): Table {
    if t.own.None? || !Has(t.entries, t.own.value) then t
    else
      var k := Find(t.entries, t.own.value);
      Replaced(t, k, t.entries[k].(issender := true, lastrtptime := now, lastmsgtime := now))
  }

  function WithExtraction(t: Table, k: nat): Table {
    if k < |t.entries| then t.(entries := t.entries[k := Extracted(t.entries[k]).0]) else t
  }

  // ----- The timeout passes -----

  /** A pass over the table with its check times: what is older than them has timed out. */
  datatype Pass =
    | SenderPass(check: RTPTime)
    | ByePass(check: RTPTime)
    | GeneralPass(check: RTPTime)
    | NotePass(check: RTPTime)
    | AllPasses(sender: RTPTime, bye: RTPTime, general: RTPTime, note: RTPTime)

  function SenderCleared(e: Source, check: RTPTime): Source {
    e.(issender := e.issender && !Before(e.lastrtptime, check))
  }

  function NoteCleared(e: Source, check: RTPTime): Source {
    e.(items := if |e.Item(NOTE)| != 0 && Before(e.lastnotetime, check) then e.items[NOTE := []] else e.items)
  }

  predicate ByeOver(e: Source, isown: bool, check: RTPTime) {
    e.receivedbye && !isown && Before(e.byetime, check)
  }

  predicate TimedOut(e: Source, isown: bool, check: RTPTime) {
    !isown && Before(e.lastmsgtime, check)
  }

  /** What a pass leaves of an entry. */
  function Left(p: Pass, e: Source, isown: bool): Option<Source> {
    match p
    case SenderPass(check) => Some(SenderCleared(e, check))
    case ByePass(check) => if ByeOver(e, isown, check) then None else Some(e)
    case GeneralPass(check) => if TimedOut(e, isown, check) then None else Some(e)
    case NotePass(check) => Some(NoteCleared(e, check))
    case AllPasses(sender, bye, general, note) =>
      if ByeOver(e, isown, bye) || TimedOut(e, isown, general) then None
      else Some(SenderCleared(NoteCleared(e, note), sender))
  }

  function Swept(p: Pass, es: seq<Source>, own: Option<u32>): seq<Source>
    decreases |es|
  {
    if |es| == 0 then []
    else
      var e := es[|es| - 1];
      var rest := Swept(p, es[..|es| - 1], own);
      match Left(p, e, own == Some(e.ssrc))
      case None => rest
      case Some(x) => rest + [x]
  }

  /** The counts are taken afresh. */
  function WithPass(t: Table, p: Pass): Table {
    var es := Swept(p, t.entries, t.own);
    t.(entries := es, totalcount := |es|, sendercount := CountSenders(es), activecount := CountActive(es))
  }

  // ----- Runs -----

  datatype Event =
    | Rtp(packet: RTPPacket, time: RTPTime, sender: Option<Address>)
    | Rtcp(ssrc: u32, change: Change, time: RTPTime, sender: Option<Address>)
    | CreateOwn(ssrc: u32)
    | DeleteOwn
    | Sent(time: RTPTime)
    | GetPacket(k: nat)
    | Timeouts(pass: Pass)

  function Step(t: Table, e: Event): Table {
    match e
    case Rtp(packet, time, sender) => WithRtp(t, packet, time, sender).0
    case Rtcp(ssrc, change, time, sender) => WithRtcp(t, ssrc, change, time, sender)
    case CreateOwn(ssrc) => WithOwn(t, ssrc)
    case DeleteOwn => WithoutOwn(t)
    case Sent(time) => WithSent(t, time)
    case GetPacket(k) => WithExtraction(t, k)
    case Timeouts(pass) => WithPass(t, pass)
  }

  function Run(t: Table, es: seq<Event>): Table
    decreases |es|
  {
    if |es| == 0 then t else Step(Run(t, es[..|es| - 1]), es[|es| - 1])
  }

  // ----- What always holds -----

  ghost predicate Distinct(es: seq<Source>) {
    forall i, j :: 0 <= i < j < |es| ==> es[i].ssrc != es[j].ssrc
  }

  /** Our own entry is validated, has no BYE, and is bound to no address. */
  predicate OwnState(e: Source) {
    e.validated && !e.receivedbye && e.isrtpaddrset && e.rtpaddr.None? && e.isrtcpaddrset && e.rtcpaddr.None?
  }

  ghost predicate EntryOk(e: Source, own: Option<u32>) {
    Bound(e) && QueueOk(e) && (e.ownssrc <==> own == Some(e.ssrc)) && (e.ownssrc ==> OwnState(e))
  }

  ghost predicate Inv(t: Table) {
    && Distinct(t.entries)
    && t.totalcount == |t.entries| && t.sendercount == CountSenders(t.entries)
    && (forall i :: 0 <= i < |t.entries| ==> EntryOk(t.entries[i], t.own))
    && (t.own.Some? ==> Has(t.entries, t.own.value))
  }
}
