/** Which sources get a report block in the packet being built, and what it says about losses. */
module ReportBlocks {
  import opened Basics
  import opened Bytes
  import opened SourceStats
  import opened LossRuns
  import opened SourceState
  import opened InternalSourceData
  import opened Sources

  /** Whether this is the first packet, and when the previous one was built. */
  datatype Since = Since(firstpacket: bool, prevbuildtime: RTPTime)

  /** Reports go to other sources that are not just contributing ones and have sent data, after the first packet only if
      they have since the previous one. */
  predicate Eligible(e: Source, c: Since) {
    !e.ownssrc && !e.iscsrc && e.stats.sentdata && (c.firstpacket || Before(c.prevbuildtime, e.lastrtptime))
  }

  /** In microseconds. */
  lemma EligibleIsRecent(e: Source, c: Since)
    requires e.lastrtptime.Normal() && c.prevbuildtime.Normal()
    ensures Eligible(e, c)
       <==> !e.ownssrc && !e.iscsrc && e.stats.sentdata
            && (c.firstpacket || e.lastrtptime.Micros() > c.prevbuildtime.Micros())
  {
    hide Before;
    BeforeIsOrder(c.prevbuildtime, e.lastrtptime);
  }

  predicate Due(e: Source, c: Since) {
    Eligible(e, c) && !e.processedinrtcp
  }

  /** The loss part of a block: the fraction, the cumulative number as a signed word, and the highest number. */
  datatype LossBlock = LossBlock(ssrc: u32, fractionlost: Option<int>, packetslost: int, exthighseqnr: u32)

  function Signed32(x: u32): int {
    if x < 0x8000_0000 then x else x - WORD
  }

  function BlockOf(e: Source): LossBlock {
    LossBlock(e.ssrc, FractionLost(e.stats),
              Signed32(Sub32(Sub32(e.stats.exthighseqnr, e.stats.baseseqnr), e.stats.packetsreceived)),
              e.stats.exthighseqnr)
  }

  lemma Cumulative(high: u32, base: u32, received: u32, lost: int)
    requires lost == high - base - received
    ensures var n := Signed32(Sub32(Sub32(high, base), received));
            -0x8000_0000 <= n < 0x8000_0000 && (n - lost) % WORD == 0
  {}

  lemma OnlyOneInRange(n: int, lost: int)
    requires -0x8000_0000 <= n < 0x8000_0000 && (n - lost) % WORD == 0
    ensures n == lost <==> -0x8000_0000 <= lost < 0x8000_0000
  {}

  /** The block of a source after any run of packets and reports whose numbers and packets stay below 2^32. The
      cumulative number is what is missing between the first number and the highest, less the packets that are there
      twice or belong before the first, if and only if that fits a signed word, and differs by a multiple of 2^32
      otherwise. The fraction is that of the numbers since the last report. */
  lemma BlockOfRun(e: Source, es: seq<StatsEvent>)
    requires e.stats == StatsRun(es)
    requires GivenNumbers(es) != [] && MaxOf(GivenNumbers(es)) < WORD && |GivenNumbers(es)| < WORD
    ensures var g, b := GivenNumbers(es), BlockOf(e);
            var lost := |Missing(g)| - Surplus(g);
            && b.ssrc == e.ssrc && b.exthighseqnr == MaxOf(g)
            && lost == MaxOf(g) - g[0] + 1 - |g|
            && (b.packetslost == lost <==> -0x8000_0000 <= lost < 0x8000_0000) && (b.packetslost - lost) % WORD == 0
    ensures var g := GivenNumbers(es);
            var expected, recent := MaxOf(g) - Start(g, Reported(es)), |g| - Reported(es);
            && (BlockOf(e).fractionlost.None? <==> recent == 0)
            && (0 < recent <= expected ==> BlockOf(e).fractionlost == Some(256 * (expected - recent) / expected))
            && (recent > expected ==> BlockOf(e).fractionlost == Some(0))
  {
    hide StatsRun, MaxOf, GivenNumbers, FractionLost, Signed32, Sub32, Missing, Surplus, Tracks, Start;
    var g, m, s := GivenNumbers(es), Reported(es), e.stats;
    StatisticsOfRun(es);
    TrackedHighest(s, MaxOf(g));
    ExpectedLessReceived(g);
    var lost := MaxOf(g) - g[0] + 1 - |g|;
    Cumulative(s.exthighseqnr, s.baseseqnr, s.packetsreceived, lost);
    OnlyOneInRange(Signed32(Sub32(Sub32(s.exthighseqnr, s.baseseqnr), s.packetsreceived)), lost);
    FractionOfRun(es);
  }

  lemma TrackedHighest(s: Stats, high: nat)
    requires Tracks(s, high) && high < WORD
    ensures s.exthighseqnr == high
  {}

  /** An entry that has had its block. */
  function Covered(e: Source): Source {
    e.(stats := NewInterval(e.stats), processedinrtcp := true)
  }

  /** Where the sources due are, in table order. */
  function DueAt(es: seq<Source>, c: Since): (ds: seq<nat>)
    ensures forall k :: 0 <= k < |ds| ==> ds[k] < |es| && Due(es[ds[k]], c)
    decreases |es|
  {
    if |es| == 0 then []
    else
      var n := |es| - 1;
      if Due(es[n], c) then DueAt(es[..n], c) + [n] else DueAt(es[..n], c)
  }

  lemma {:induction false} DueAtIsAll(es: seq<Source>, c: Since)
    ensures forall i :: 0 <= i < |es| && Due(es[i], c) ==> i in DueAt(es, c)
    ensures forall j, k :: 0 <= j < k < |DueAt(es, c)| ==> DueAt(es, c)[j] < DueAt(es, c)[k]
    decreases |es|
  {
    if |es| > 0 {
      var n := |es| - 1;
      DueAtIsAll(es[..n], c);
      assert forall i :: 0 <= i < n ==> es[..n][i] == es[i];
    }
  }

  lemma {:induction false} DueAtPrefix(es: seq<Source>, n: nat, c: Since)
    requires n <= |es|
    ensures DueAt(es[..n], c) <= DueAt(es, c)
    ensures forall k :: |DueAt(es[..n], c)| <= k < |DueAt(es, c)| ==> DueAt(es, c)[k] >= n
    decreases |es|
  {
    if n == |es| {
      assert es[..n] == es;
    } else {
      DueAtPrefix(es[..|es| - 1], n, c);
      assert es[..|es| - 1][..n] == es[..n];
    }
  }

  /** After the first `n` places due have their blocks, those due are the others, in the same order: one fill after the
      other reaches each source once. */
  lemma {:induction false} DueAfter(es: seq<Source>, now: seq<Source>, c: Since, n: nat)
    requires n <= |DueAt(es, c)| && CoveredAt(es, now, DueAt(es, c)[..n])
    ensures DueAt(now, c) == DueAt(es, c)[n..]
    decreases |es|
  {
    hide Due, Covered, CoveredAt, DueAt;
    if |es| == 0 {
      NoneDue(es, now, c, n);
    } else {
      var m := |es| - 1;
      var before := DueAt(es[..m], c);
      DueBefore(es[..m], c, m);
      CoveredOnce(es[m], c);
      SameLength(es, now, DueAt(es, c)[..n]);
      LastDue(es, c);
      LastDue(now, c);
      if n <= |before| {
        assert DueAt(es, c)[..n] == before[..n] + [];
        CoveredEarlier(es, now, before[..n], []);
        DueAfter(es[..m], now[..m], c, n);
      } else {
        assert DueAt(es, c)[..n] == before + [m] && before[..|before|] == before;
        CoveredEarlier(es, now, before, [m]);
        DueAfter(es[..m], now[..m], c, |before|);
      }
    }
  }

  lemma NoneDue(es: seq<Source>, now: seq<Source>, c: Since, n: nat)
    requires |es| == 0 && n <= |DueAt(es, c)| && CoveredAt(es, now, DueAt(es, c)[..n])
    ensures DueAt(now, c) == DueAt(es, c)[n..]
  {}

  lemma SameLength(es: seq<Source>, now: seq<Source>, places: seq<nat>)
    requires CoveredAt(es, now, places)
    ensures |es| == |now|
  {}

  lemma LastDue(es: seq<Source>, c: Since)
    requires |es| > 0
    ensures var m := |es| - 1;
            DueAt(es, c) == if Due(es[m], c) then DueAt(es[..m], c) + [m] else DueAt(es[..m], c)
  {}

  /** The last source, and the ones before it. */
  lemma CoveredEarlier(es: seq<Source>, now: seq<Source>, places: seq<nat>, last: seq<nat>)
    requires |es| > 0 && CoveredAt(es, now, places + last) && (|es| - 1) !in places
    requires last == [] || last == [|es| - 1]
    ensures CoveredAt(es[..|es| - 1], now[..|es| - 1], places)
    ensures now[|es| - 1] == if last == [] then es[|es| - 1] else Covered(es[|es| - 1])
  {
    hide Covered;
  }

  lemma CoveredOnce(e: Source, c: Since)
    ensures !Due(Covered(e), c)
  {
    hide Before;
  }

  function Min(a: int, b: int): int {
    if a <= b then a else b
  }

  /** How many blocks a fill adds: all that are due, as far as they fit and are asked for, but one at least is tried. */
  function AddedCount(es: seq<Source>, c: Since, room: nat, maxcount: int): nat {
    Min(|DueAt(es, c)|, Min(room, Max(1, maxcount)))
  }

  /** The sources at the given places covered, and no other changed. */
  ghost predicate CoveredAt(before: seq<Source>, after: seq<Source>, places: seq<nat>) {
    && |before| == |after|
    && forall i :: 0 <= i < |before| ==> after[i] == if i in places then Covered(before[i]) else before[i]
  }

  /** The eligible sources that had their block already, before some place. */
  function CountSkipped(es: seq<Source>, c: Since): nat
    decreases |es|
  {
    if |es| == 0 then 0
    else
      var n := |es| - 1;
      CountSkipped(es[..n], c) + (if Eligible(es[n], c) && es[n].processedinrtcp then 1 else 0)
  }

  /** Where a fill that has added `n` blocks stops: at the source that did not fit, past the last one asked for, or at
      the end. */
  function StopAt(es: seq<Source>, c: Since, n: nat, full: bool, maxcount: int): (k: nat)
    requires n <= |DueAt(es, c)| && (full ==> n < |DueAt(es, c)|)
    ensures k <= |es|
  {
    if full then DueAt(es, c)[n] else if n > 0 && n == Max(1, maxcount) then DueAt(es, c)[n - 1] + 1 else |es|
  }

  /** One fill. `room` is how many more blocks the compound packet takes before it refuses one. */
  method FillInReportBlocks(sources: seq<RTPInternalSourceData>, c: Since, room: nat, maxcount: int)
    returns (blocks: seq<LossBlock>, full: bool, skipped: nat, atendoflist: bool)
    requires sources != [] && Apart(sources)
    modifies sources
    ensures var es := old(Infos(sources));
            var ds, n := DueAt(es, c), AddedCount(es, c, room, maxcount);
            && |blocks| == n && (forall k :: 0 <= k < n ==> blocks[k] == BlockOf(es[ds[k]]))
            && CoveredAt(es, Infos(sources), ds[..n]) && DueAt(Infos(sources), c) == ds[n..]
            && (full <==> n == room && n < |ds| && n < Max(1, maxcount))
            && (atendoflist <==> n == |ds|)
            && skipped == CountSkipped(es[..StopAt(es, c, n, full, maxcount)], c)
  {
    hide RTPInternalSourceData.Info, Infos, Due, BlockOf, Covered, FractionLost, DueAt, CountSkipped;
    ghost var es := Infos(sources);
    var i;
    blocks, full, skipped, i := Fill(sources, c, room, maxcount);
    Stopped(es, c, i, |blocks|, full, room, maxcount);
    DueAfter(es, Infos(sources), c, |blocks|);
    atendoflist := SearchDue(sources, c, i, es);
  }

  /** The loop over the sources; `i` is where it stops. */
  method Fill(sources: seq<RTPInternalSourceData>, c: Since, room: nat, maxcount: int)
    returns (blocks: seq<LossBlock>, full: bool, skipped: nat, i: nat)
    requires Apart(sources)
    modifies sources
    ensures i <= |sources|
    ensures var es := old(Infos(sources));
            var ds := DueAt(es[..i], c);
            && |blocks| == |ds| && (forall k :: 0 <= k < |ds| ==> blocks[k] == BlockOf(es[ds[k]]))
            && CoveredAt(es, Infos(sources), ds) && skipped == CountSkipped(es[..i], c)
            && Stops(es, c, i, |ds|, full, room, maxcount)
  {
    hide RTPInternalSourceData.Info, Infos, Eligible, Due, BlockOf, Covered, FractionLost, DueAt, CountSkipped, SoFar;
    ghost var es := Infos(sources);
    blocks, full, skipped, i := [], false, 0, 0;
    SoFarNothing(es, c, room);
    var done := false;
    while !done && i < |sources|
      invariant i <= |sources| && SoFar(es, Infos(sources), blocks, skipped, i, c, room)
      invariant !done ==> !full && |blocks| < Max(1, maxcount)
      invariant done ==> Stops(es, c, i, |blocks|, full, room, maxcount)
      decreases !done, |sources| - i
    {
      var srcdat := sources[i];
      ghost var now := Infos(sources);
      InHand(es, now, blocks, skipped, i, c, room);
      var eligible := IsEligible(srcdat, c);
      if eligible && !srcdat.processedinrtcp && |blocks| == room {
        full, done := true, true;
      } else {
        if eligible && !srcdat.processedinrtcp {
          SoFarCover(es, now, blocks, skipped, i, c, room);
          var block := Cover(srcdat);
          OneChanged(sources, i, now);
          blocks := blocks + [block];
          done := |blocks| >= maxcount;
        } else {
          SoFarPass(es, now, blocks, skipped, i, c, room);
          if eligible {
            skipped := skipped + 1;
          }
        }
        i := i + 1;
      }
    }
    SoFarSays(es, Infos(sources), blocks, skipped, i, c, room);
  }

  /** The loop before source `i`: the due sources up to there have their blocks. */
  ghost predicate SoFar(es: seq<Source>, now: seq<Source>, blocks: seq<LossBlock>, skipped: nat, i: nat, c: Since,
          room: nat) {
    && i <= |es| && |blocks| == |DueAt(es[..i], c)| <= room
    && (forall k :: 0 <= k < |blocks| ==> blocks[k] == BlockOf(es[DueAt(es[..i], c)[k]]))
    && CoveredAt(es, now, DueAt(es[..i], c)) && skipped == CountSkipped(es[..i], c)
  }

  lemma SoFarNothing(es: seq<Source>, c: Since, room: nat)
    ensures SoFar(es, es, [], 0, 0, c, room)
  {}

  lemma SoFarSays(es: seq<Source>, now: seq<Source>, blocks: seq<LossBlock>, skipped: nat, i: nat, c: Since, room: nat)
    requires SoFar(es, now, blocks, skipped, i, c, room)
    ensures |blocks| == |DueAt(es[..i], c)| <= room
    ensures forall k :: 0 <= k < |blocks| ==> blocks[k] == BlockOf(es[DueAt(es[..i], c)[k]])
    ensures CoveredAt(es, now, DueAt(es[..i], c)) && skipped == CountSkipped(es[..i], c)
  {}

  lemma InHand(es: seq<Source>, now: seq<Source>, blocks: seq<LossBlock>, skipped: nat, i: nat, c: Since, room: nat)
    requires i < |es| && SoFar(es, now, blocks, skipped, i, c, room)
    ensures |now| == |es| && now[i] == es[i] && |blocks| == |DueAt(es[..i], c)| <= room
  {
    hide Due, DueAt, Covered, BlockOf;
    DueBefore(es[..i], c, i);
  }

  lemma SoFarPass(es: seq<Source>, now: seq<Source>, blocks: seq<LossBlock>, skipped: nat, i: nat, c: Since, room: nat)
    requires i < |es| && SoFar(es, now, blocks, skipped, i, c, room) && !Due(es[i], c)
    ensures var passed := if Eligible(es[i], c) && es[i].processedinrtcp then skipped + 1 else skipped;
            SoFar(es, now, blocks, passed, i + 1, c, room)
  {
    hide Eligible, DueAt, Covered, BlockOf, CountSkipped;
    DueNext(es, i, c);
  }

  lemma SoFarCover(es: seq<Source>, now: seq<Source>, blocks: seq<LossBlock>, skipped: nat, i: nat, c: Since, room: nat)
    requires i < |es| && SoFar(es, now, blocks, skipped, i, c, room) && Due(es[i], c) && |blocks| < room
    requires |now| == |es|
    ensures SoFar(es, now[i := Covered(es[i])], blocks + [BlockOf(es[i])], skipped, i + 1, c, room)
    ensures |DueAt(es[..i + 1], c)| == |blocks| + 1
  {
    hide Eligible, DueAt, Covered, BlockOf, CountSkipped;
    DueNext(es, i, c);
  }

  /** How the loop can stop. */
  ghost predicate Stops(es: seq<Source>, c: Since, i: nat, n: nat, full: bool, room: nat, maxcount: int)
    requires i <= |es|
  {
    && n == |DueAt(es[..i], c)| <= room && n <= Max(1, maxcount)
    && (full ==> i < |es| && Due(es[i], c) && n == room && n < Max(1, maxcount))
    && (!full ==> if n < Max(1, maxcount) then i == |es| else i > 0 && Due(es[i - 1], c))
  }

  method IsEligible(srcdat: RTPInternalSourceData, c: Since) returns (eligible: bool)
    ensures eligible == Eligible(srcdat.Info(), c) && srcdat.processedinrtcp == srcdat.Info().processedinrtcp
    ensures (eligible && !srcdat.processedinrtcp) == Due(srcdat.Info(), c)
  {
    eligible := false;
    if !srcdat.ownssrc {
      if !srcdat.iscsrc {
        if srcdat.stats.sentdata {
          if c.firstpacket {
            eligible := true;
          } else {
            var lastrtptime := srcdat.lastrtptime;
            eligible := Before(c.prevbuildtime, lastrtptime);
          }
        }
      }
    }
  }

  /** The block of a source, which starts a new interval there. */
  method Cover(srcdat: RTPInternalSourceData) returns (block: LossBlock)
    modifies srcdat
    ensures block == BlockOf(old(srcdat.Info())) && srcdat.Info() == Covered(old(srcdat.Info()))
  {
    hide FractionLost;
    var stats := srcdat.stats;
    var expected := Sub32(stats.exthighseqnr, stats.baseseqnr);
    var diff := Sub32(expected, stats.packetsreceived);
    block := LossBlock(srcdat.ssrc, FractionLost(stats), Signed32(diff), stats.exthighseqnr);
    srcdat.StartNewInterval();
    srcdat.SetProcessedInRTCP(true);
  }

  /** Whether nothing is left that is due, from `i` on. */
  method SearchDue(sources: seq<RTPInternalSourceData>, c: Since, i: nat, ghost es: seq<Source>) returns (atend: bool)
    requires i <= |sources| == |es| && forall j :: i <= j < |es| ==> sources[j].Info() == es[j]
    ensures atend <==> |DueAt(es, c)| == |DueAt(es[..i], c)|
  {
    hide RTPInternalSourceData.Info, Eligible, DueAt;
    var k := i;
    atend := k == |sources|;
    var shouldprocess := false;
    assert es[..|es|] == es;
    while !atend && !shouldprocess
      invariant i <= k <= |sources| && DueAt(es[..k], c) == DueAt(es[..i], c)
      invariant atend <==> k == |sources|
      invariant shouldprocess ==> k < |es| && Due(es[k], c)
      decreases !shouldprocess, |sources| - k
    {
      DueNext(es, k, c);
      var eligible := IsEligible(sources[k], c);
      shouldprocess := eligible && !sources[k].processedinrtcp;
      if !shouldprocess {
        k := k + 1;
        atend := k == |sources|;
      }
    }
    if shouldprocess {
      DueNext(es, k, c);
      DueAtPrefix(es, k + 1, c);
    }
  }

  lemma DueNext(es: seq<Source>, i: nat, c: Since)
    requires i < |es|
    ensures DueAt(es[..i + 1], c) == if Due(es[i], c) then DueAt(es[..i], c) + [i] else DueAt(es[..i], c)
    ensures CountSkipped(es[..i + 1], c) == CountSkipped(es[..i], c)
              + (if Eligible(es[i], c) && es[i].processedinrtcp then 1 else 0)
  {
    assert es[..i + 1][..i] == es[..i];
  }

  lemma DueBefore(es: seq<Source>, c: Since, i: nat)
    requires |es| <= i
    ensures i !in DueAt(es, c)
  {}

  lemma Stopped(es: seq<Source>, c: Since, i: nat, n: nat, full: bool, room: nat, maxcount: int)
    requires i <= |es| && Stops(es, c, i, n, full, room, maxcount)
    ensures n == AddedCount(es, c, room, maxcount) <= |DueAt(es, c)| && DueAt(es[..i], c) == DueAt(es, c)[..n]
    ensures full <==> n == room && n < |DueAt(es, c)| && n < Max(1, maxcount)
    ensures i == StopAt(es, c, n, full, maxcount)
    ensures forall j :: i <= j < |es| ==> j !in DueAt(es, c)[..n]
  {
    hide Due, DueAt;
    DueAtPrefix(es, i, c);
    DueBefore(es[..i], c, i);
    assert es[..|es|] == es;
    if full {
      DueNext(es, i, c);
      DueAtPrefix(es, i + 1, c);
    }
    if i > 0 {
      DueNext(es, i - 1, c);
    }
  }
}
