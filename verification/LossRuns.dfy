/** What the statistics of a source hold after any run of packets and reports, told from the packets alone. */
module LossRuns {
  import opened Basics
  import opened Bytes
  import opened SourceStats

  /** The 16-bit numbers of the packets of a run. */
  function Arrived(es: seq<StatsEvent>): seq<u16>
    decreases |es|
  {
    if |es| == 0 then []
    else
      var n := |es| - 1;
      match es[n]
      case Packet(sn, _) => Arrived(es[..n]) + [sn]
      case IntervalEnd => Arrived(es[..n])
  }

  function MaxOf(ns: seq<nat>): (m: nat)
    ensures forall i :: 0 <= i < |ns| ==> ns[i] <= m
    ensures |ns| > 0 ==> m in ns
    decreases |ns|
  {
    if |ns| == 0 then 0 else Max(MaxOf(ns[..|ns| - 1]), ns[|ns| - 1])
  }

  /** The numbers given in turn to the packets that count, without the 32-bit wrap. The first is one that is not on
      probation or completes three in a row; every packet after it counts, and is numbered from the highest so far. */
  function GivenNumbers(es: seq<StatsEvent>): seq<nat>
    decreases |es|
  {
    if |es| == 0 then []
    else
      var g := GivenNumbers(es[..|es| - 1]);
      match es[|es| - 1]
      case IntervalEnd => g
      case Packet(sn, applyprobation) =>
        if g != [] then g + [Extend(MaxOf(g), sn)]
        else if !applyprobation || ThirdInRow(Arrived(es), |Arrived(es)| - 1) then [if sn == 0 then CYCLE else sn]
        else []
  }

  /** How many of them the last report covered. */
  function Reported(es: seq<StatsEvent>): (m: nat)
    ensures m <= |GivenNumbers(es)|
    decreases |es|
  {
    if |es| == 0 then 0 else if es[|es| - 1].IntervalEnd? then |GivenNumbers(es)| else Reported(es[..|es| - 1])
  }

  /** The number before the first packet that the next report covers. */
  function Start(g: seq<nat>, m: nat): int
    requires 0 < |g| && m <= |g|
  {
    if m == 0 then g[0] - 1 else MaxOf(g[..m])
  }

  /** The statistics are those of a run that gave the numbers `g`, `m` of them before the last report. */
  predicate Reflects(s: Stats, g: seq<nat>, m: nat)
    requires m <= |g|
  {
    if g == [] then !s.sentdata && s.packetsreceived == 0 && s.numnewpackets == 0
    else
      && Tracks(s, MaxOf(g)) && s.baseseqnr + 1 == g[0] && s.packetsreceived == |g|
      && s.numnewpackets == |g| - m && s.savedextseqnr == Start(g, m)
  }

  // ----- Before the first packet that counts -----

  /** Up to there the run is one of probation. */
  lemma {:induction false} NoneCounted(es: seq<StatsEvent>)
    requires GivenNumbers(es) == []
    ensures StatsRun(es) == Probed(Arrived(es)) && !HasThreeInRow(Arrived(es))
    ensures !StatsRun(es).sentdata && StatsRun(es).numcycles == 0
    ensures StatsRun(es).packetsreceived == 0 && StatsRun(es).numnewpackets == 0
    decreases |es|
  {
    hide HasThreeInRow, ThirdInRow;
    if |es| == 0 {
      NoThree([]);
    } else {
      var init, e := es[..|es| - 1], es[|es| - 1];
      NoneCounted(init);
      match e
      case IntervalEnd =>
        NothingYet(init);
      case Packet(sn, _) =>
        var sns := Arrived(es);
        assert sns[..|sns| - 1] == Arrived(init);
        ThreeInRowStays(sns);
        ProbationCounts(sns);
        NotCounted(StatsRun(init), sn);
    }
  }

  lemma NoThree(sns: seq<u16>)
    requires |sns| < 3
    ensures !HasThreeInRow(sns)
  {}

  lemma NotCounted(s: Stats, sn: u16)
    requires !s.sentdata
    ensures var t := Receive(s, sn, true).stats;
            || t.sentdata
            || (t.numcycles == s.numcycles && t.packetsreceived == s.packetsreceived
                && t.numnewpackets == s.numnewpackets)
  {}

  lemma NothingYet(es: seq<StatsEvent>)
    requires GivenNumbers(es) == [] && !StatsRun(es).sentdata && StatsRun(es).numnewpackets == 0
    ensures NewInterval(StatsRun(es)) == StatsRun(es)
  {
    RunTracks(es);
    NoneSaved(es);
  }

  lemma {:induction false} NoneSaved(es: seq<StatsEvent>)
    requires !StatsRun(es).sentdata
    ensures StatsRun(es).savedextseqnr == 0
    decreases |es|
  {
    if |es| > 0 {
      RunTracks(es[..|es| - 1]);
      NoneSaved(es[..|es| - 1]);
    }
  }

  // ----- From there on -----

  lemma FirstCounts(s: Stats, sn: u16, applyprobation: bool)
    requires !s.sentdata && s.numcycles == 0 && s.packetsreceived == 0 && s.numnewpackets == 0
    requires Receive(s, sn, applyprobation).accept
    ensures Reflects(Receive(s, sn, applyprobation).stats, [if sn == 0 then CYCLE else sn], 0)
  {
    var n: nat := if sn == 0 then CYCLE else sn;
    assert MaxOf([n]) == n;
  }

  lemma MaxSnoc(g: seq<nat>, n: nat)
    ensures MaxOf(g + [n]) == Max(MaxOf(g), n)
  {
    assert (g + [n])[..|g|] == g;
  }

  lemma CountsOne(s: Stats, sn: u16, applyprobation: bool)
    requires s.sentdata && s.packetsreceived < WORD - 1 && s.numnewpackets < WORD - 1
    ensures var t := Receive(s, sn, applyprobation).stats;
            && t.sentdata && t.packetsreceived == s.packetsreceived + 1 && t.numnewpackets == s.numnewpackets + 1
            && t.baseseqnr == s.baseseqnr && t.savedextseqnr == s.savedextseqnr
  {}

  lemma NextCounts(s: Stats, g: seq<nat>, m: nat, sn: u16, applyprobation: bool)
    requires 0 < |g| < WORD - 1 && m <= |g| && Reflects(s, g, m)
    ensures Reflects(Receive(s, sn, applyprobation).stats, g + [Extend(MaxOf(g), sn)], m)
  {
    hide Tracks, Extend, Receive;
    var n := Extend(MaxOf(g), sn);
    ReceiveExtends(s, MaxOf(g), sn, applyprobation);
    TrackedIsSent(s, MaxOf(g));
    CountsOne(s, sn, applyprobation);
    MaxSnoc(g, n);
    assert (g + [n])[..m] == g[..m];
  }

  lemma TrackedIsSent(s: Stats, high: nat)
    requires Tracks(s, high)
    ensures s.sentdata
  {}

  lemma ReportCounts(s: Stats, g: seq<nat>, m: nat)
    requires 0 < |g| && m <= |g| && Reflects(s, g, m) && MaxOf(g) < WORD
    ensures Reflects(NewInterval(s), g, |g|)
  {
    assert g[..|g|] == g;
  }

  /** Over every run whose numbers and packets stay below 2^32: the first number, the highest, how many packets have
      come, how many since the last report, and the highest number then. */
  lemma {:induction false} StatisticsOfRun(es: seq<StatsEvent>)
    requires MaxOf(GivenNumbers(es)) < WORD && |GivenNumbers(es)| < WORD
    ensures Reflects(StatsRun(es), GivenNumbers(es), Reported(es))
    decreases |es|
  {
    hide Receive, Extend, ThirdInRow, HasThreeInRow, Reflects, NewInterval;
    if GivenNumbers(es) == [] {
      NoneCounted(es);
      NothingReflected(StatsRun(es));
    } else {
      var init, e := es[..|es| - 1], es[|es| - 1];
      var g := GivenNumbers(init);
      GivenGrows(es);
      StatisticsOfRun(init);
      match e
      case IntervalEnd => ReportCounts(StatsRun(init), g, Reported(init));
      case Packet(sn, applyprobation) =>
        if g != [] {
          NextCounts(StatsRun(init), g, Reported(init), sn, applyprobation);
        } else {
          NoneCounted(init);
          FirstAccepted(es);
          FirstCounts(StatsRun(init), sn, applyprobation);
        }
    }
  }

  lemma NothingReflected(s: Stats)
    requires !s.sentdata && s.packetsreceived == 0 && s.numnewpackets == 0
    ensures Reflects(s, [], 0)
  {}

  lemma GivenGrows(es: seq<StatsEvent>)
    requires |es| > 0
    ensures MaxOf(GivenNumbers(es[..|es| - 1])) <= MaxOf(GivenNumbers(es))
    ensures |GivenNumbers(es[..|es| - 1])| <= |GivenNumbers(es)|
    ensures GivenNumbers(es[..|es| - 1]) == [] ==> Reported(es[..|es| - 1]) == 0
  {
    hide ThirdInRow, Extend;
    var g := GivenNumbers(es[..|es| - 1]);
    if g != [] && es[|es| - 1].Packet? {
      MaxSnoc(g, Extend(MaxOf(g), es[|es| - 1].sn));
    }
  }

  /** The first packet that counts is accepted. */
  lemma FirstAccepted(es: seq<StatsEvent>)
    requires |es| > 0 && GivenNumbers(es[..|es| - 1]) == [] && GivenNumbers(es) != []
    ensures es[|es| - 1].Packet? && var e := es[|es| - 1];
            Receive(StatsRun(es[..|es| - 1]), e.sn, e.applyprobation).accept
  {
    hide ThirdInRow, HasThreeInRow, Receive;
    var init, e := es[..|es| - 1], es[|es| - 1];
    NoneCounted(init);
    if e.applyprobation {
      var sns := Arrived(es);
      assert sns[..|sns| - 1] == Arrived(init) && sns[|sns| - 1] == e.sn;
      ThreeInRowStays(sns);
      AcceptedFromThirdInRow(sns);
    } else {
      AcceptedAtOnce(StatsRun(init), e.sn);
    }
  }

  /** The highest number of a run, of any length, is the highest of those given. */
  lemma {:induction false} HighestIsGiven(es: seq<StatsEvent>)
    ensures Highest(es) == MaxOf(GivenNumbers(es)) && (StatsRun(es).sentdata <==> GivenNumbers(es) != [])
    decreases |es|
  {
    hide Extend, ThirdInRow, HasThreeInRow, Receive;
    if GivenNumbers(es) == [] {
      NoneCounted(es);
      RunTracks(es);
    } else {
      var init, e := es[..|es| - 1], es[|es| - 1];
      var g := GivenNumbers(init);
      HighestIsGiven(init);
      if e.Packet? {
        if g != [] {
          MaxSnoc(g, Extend(MaxOf(g), e.sn));
          StaysSent(StatsRun(init), e.sn, e.applyprobation);
        } else {
          NoneCounted(init);
          FirstAccepted(es);
          FirstCounts(StatsRun(init), e.sn, e.applyprobation);
          MaxSnoc([], GivenNumbers(es)[0]);
          FirstIsSmall(Receive(StatsRun(init), e.sn, e.applyprobation).stats, GivenNumbers(es)[0]);
        }
      } else {
        StillSent(StatsRun(init));
      }
    }
  }

  lemma StaysSent(s: Stats, sn: u16, applyprobation: bool)
    requires s.sentdata
    ensures Receive(s, sn, applyprobation).stats.sentdata
  {}

  lemma StillSent(s: Stats)
    ensures NewInterval(s).sentdata == s.sentdata
  {}

  lemma FirstIsSmall(s: Stats, n: nat)
    requires Reflects(s, [n], 0) && n <= CYCLE
    ensures s.exthighseqnr == n && s.sentdata
  {
    MaxSnoc([], n);
    assert [] + [n] == [n];
  }

  lemma AcceptedAtOnce(s: Stats, sn: u16)
    ensures Receive(s, sn, false).accept
  {}

  // ----- What is lost -----

  /** The numbers from the first to the highest that no packet has, and those that some packet has. */
  function Missing(g: seq<nat>): set<nat>
    requires |g| > 0
  {
    set n: nat | g[0] <= n <= MaxOf(g) && n !in g
  }

  function Present(g: seq<nat>): set<nat>
    requires |g| > 0
  {
    set n: nat | g[0] <= n <= MaxOf(g) && n in g
  }

  /** The packets that repeat a number, or belong before the first. */
  function Surplus(g: seq<nat>): int
    requires |g| > 0
  {
    |g| - |Present(g)|
  }

  /** The numbers from `a` up to `b`. */
  function UpTo(a: nat, b: nat): (ns: set<nat>)
    requires a <= b
    ensures |ns| == b - a && forall n :: n in ns <==> a <= n < b
    decreases b - a
  {
    if a == b then {} else UpTo(a, b - 1) + {b - 1}
  }

  /** What is expected less what has come is what is missing less what is there twice, or too early. */
  lemma ExpectedLessReceived(g: seq<nat>)
    requires |g| > 0
    ensures MaxOf(g) - g[0] + 1 - |g| == |Missing(g)| - Surplus(g)
  {
    hide MaxOf;
    assert UpTo(g[0], MaxOf(g) + 1) == Missing(g) + Present(g) && Missing(g) !! Present(g);
  }

  /** The fraction in a report, from the numbers expected since the last one and the packets that have come since. */
  lemma FractionOfRun(es: seq<StatsEvent>)
    requires GivenNumbers(es) != [] && MaxOf(GivenNumbers(es)) < WORD && |GivenNumbers(es)| < WORD
    ensures var g, f := GivenNumbers(es), FractionLost(StatsRun(es));
            var expected, recent := MaxOf(g) - Start(g, Reported(es)), |g| - Reported(es);
            && (f.None? <==> recent == 0) && (recent > expected ==> f == Some(0))
            && (0 < recent <= expected ==> f == Some(256 * (expected - recent) / expected))
  {
    hide MaxOf, GivenNumbers, StatsRun, FractionLost;
    var g, m := GivenNumbers(es), Reported(es);
    StatisticsOfRun(es);
    if m == |g| {
      assert g[..m] == g;
    }
    StartIsLower(g, m);
    FractionIs(StatsRun(es), MaxOf(g) - Start(g, m), |g| - m);
  }

  lemma StartIsLower(g: seq<nat>, m: nat)
    requires 0 < |g| && m <= |g|
    ensures Start(g, m) <= MaxOf(g)
  {
    if m > 0 {
      var k :| 0 <= k < m && g[..m][k] == MaxOf(g[..m]);
      assert g[k] <= MaxOf(g);
    }
  }

  lemma FractionIs(s: Stats, expected: nat, recent: nat)
    requires s.numnewpackets == recent && Sub32(s.exthighseqnr, s.savedextseqnr) == expected
    requires recent == 0 ==> expected == 0
    ensures FractionLost(s).None? <==> recent == 0
    ensures recent > expected ==> FractionLost(s) == Some(0)
    ensures 0 < recent <= expected ==> FractionLost(s) == Some(256 * (expected - recent) / expected)
  {
    if 0 < recent <= expected {
      FloorOfQuotient(expected - recent, expected);
    }
  }
}
