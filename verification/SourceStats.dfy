/** What is kept about the RTP packets of one source: probation, extended sequence numbers and losses. */
module SourceStats {
  import opened Basics
  import opened Bytes

  const RTP_PROBATIONCOUNT := 2
  const CYCLE := 0x1_0000
  const WORD := 0x1_0000_0000

  datatype Stats = Stats(sentdata: bool, packetsreceived: u32, numcycles: u32, baseseqnr: u32, exthighseqnr: u32,
                         numnewpackets: u32, savedextseqnr: u32, prevseqnr: u16, probation: nat)

  const NO_STATS := Stats(false, 0, 0, 0, 0, 0, 0, 0, 0)

  /** What a packet does: the new statistics, the number written into it, and the two flags. */
  datatype Reception = Reception(stats: Stats, seqnr: u32, accept: bool, onprobation: bool)

  function Add32(a: u32, b: u32): u32 {
    (a + b) % WORD
  }

  function Sub32(a: u32, b: u32): u32 {
    (a - b) % WORD
  }

  function Next16(sn: u16): u16 {
    (sn + 1) % CYCLE
  }

  /** The first packet that counts. */
  function Accepted(s: Stats, sn: u16): Reception {
    var base: u32 := if sn == 0 then 0xFFFF else sn - 1;
    Reception(s.(sentdata := true, packetsreceived := Add32(s.packetsreceived, 1),
                numnewpackets := Add32(s.numnewpackets, 1),
                 numcycles := if sn == 0 then CYCLE else s.numcycles,
                 baseseqnr := base, exthighseqnr := base + 1, savedextseqnr := base),
              base + 1, true, false)
  }

  /** A packet before the first that counts. */
  function OnProbation(s: Stats, sn: u16): Reception {
    if s.probation != 0 && Next16(s.prevseqnr) == sn then
      var t := s.(prevseqnr := sn, probation := s.probation - 1);
      if t.probation == 0 then Accepted(t, sn) else Reception(t, sn, false, true)
    else
      Reception(s.(prevseqnr := sn, probation := RTP_PROBATIONCOUNT), sn, false, true)
  }

  /** A packet after the first that counts. */
  function Continued(s: Stats, sn: u16): Reception {
    var t := s.(packetsreceived := Add32(s.packetsreceived, 1), numnewpackets := Add32(s.numnewpackets, 1));
    var maxseq16 := s.exthighseqnr % CYCLE;
    if sn >= maxseq16 then
      var ext := Add32(s.numcycles, sn);
      Reception(t.(exthighseqnr := ext), ext, true, false)
    else if (sn - maxseq16) % CYCLE < (maxseq16 - sn) % CYCLE then
      var cycles := Add32(s.numcycles, CYCLE);
      var ext := Add32(cycles, sn);
      Reception(t.(numcycles := cycles, exthighseqnr := ext), ext, true, false)
    else
      Reception(t, Add32(s.numcycles, sn), true, false)
  }

  function Receive(s: Stats, sn: u16, applyprobation: bool): Reception {
    if s.sentdata then Continued(s, sn)
    else if applyprobation then OnProbation(s, sn)
    else Accepted(s, sn)
  }

  function NewInterval(s: Stats): Stats {
    s.(numnewpackets := 0, savedextseqnr := s.exthighseqnr)
  }

  // ----- Extended sequence numbers -----

  function Max(a: int, b: int): int {
    if a >= b then a else b
  }

  /** The number given to `sn` when the highest so far is `high`, without the 32-bit wrap. */
  function Extend(high: nat, sn: u16): nat {
    var n := high / CYCLE * CYCLE + sn;
    if high % CYCLE - sn > CYCLE / 2 then n + CYCLE else n
  }

  /** The statistics are those of the unbounded highest number `high`. */
  predicate Tracks(s: Stats, high: nat) {
    s.sentdata && s.exthighseqnr == high % WORD && s.numcycles == high / CYCLE * CYCLE % WORD
  }

  lemma FirstTracks(s: Stats, sn: u16)
    requires !s.sentdata && s.numcycles == 0
    ensures var r := Accepted(s, sn);
            Tracks(r.stats, r.seqnr) && r.seqnr % CYCLE == sn && 0 < r.seqnr <= CYCLE
  {}

  lemma {:induction false} Rest16(high: nat)
    ensures high % WORD % CYCLE == high % CYCLE
    ensures (high / CYCLE * CYCLE + CYCLE) % WORD == (high / CYCLE * CYCLE % WORD + CYCLE) % WORD
  {
    var q := high / WORD;
    assert high == q * WORD + high % WORD;
    assert high == q * CYCLE * CYCLE + high % WORD;
  }

  /** The highest number only grows, bounds every number given, and each number has the 16 bits of its packet. */
  lemma ReceiveExtends(s: Stats, high: nat, sn: u16, applyprobation: bool)
    requires Tracks(s, high)
    ensures var r := Receive(s, sn, applyprobation);
            var ext := Extend(high, sn);
            && r.accept && !r.onprobation
            && r.seqnr == ext % WORD && ext % CYCLE == sn
            && Tracks(r.stats, Max(high, ext))
  {
    var cycle, m := high / CYCLE, high % CYCLE;
    var ext := Extend(high, sn);
    Rest16(high);
    HalfCycle(m, sn);
    if m - sn > CYCLE / 2 {
      WrapAdd((cycle + 1) * CYCLE, sn);
      NumberIn(cycle + 1, sn);
      assert ext / CYCLE == cycle + 1 && ext > high;
    } else {
      WrapAdd(cycle * CYCLE, sn);
      NumberIn(cycle, sn);
      assert ext / CYCLE == cycle && (ext >= high <==> sn >= m);
    }
  }

  /** The comparison of the two 16-bit differences asks whether the number is more than half a cycle behind. */
  lemma HalfCycle(m: u16, sn: u16)
    ensures sn < m ==> ((sn - m) % CYCLE < (m - sn) % CYCLE <==> m - sn > CYCLE / 2)
  {}

  lemma NumberIn(cycle: nat, sn: u16)
    ensures (cycle * CYCLE + sn) % CYCLE == sn && (cycle * CYCLE + sn) / CYCLE == cycle
  {}

  lemma WrapAdd(c: nat, sn: u16)
    ensures (c % WORD + sn) % WORD == (c + sn) % WORD
  {}

  /** Packet index `t` against the highest index `m` so far: ahead by less than half a cycle into the next cycle, or
      anywhere ahead in the same one, or behind in the same one by at most half. */
  predicate InWindow(m: nat, t: nat) {
    (t / CYCLE == m / CYCLE && t + CYCLE / 2 >= m) || (t / CYCLE == m / CYCLE + 1 && t < m + CYCLE / 2)
  }

  /** Extended numbers follow the true packet indexes at a constant distance exactly within that window. */
  lemma ExtendIsExact(m: nat, t: nat, cycles: int)
    requires m + cycles * CYCLE >= 0
    ensures Extend(m + cycles * CYCLE, t % CYCLE) == t + cycles * CYCLE <==> InWindow(m, t)
  {
    var high := m + cycles * CYCLE;
    assert m == m / CYCLE * CYCLE + m % CYCLE;
    assert t == t / CYCLE * CYCLE + t % CYCLE;
    assert high / CYCLE == m / CYCLE + cycles && high % CYCLE == m % CYCLE;
  }

  /** The numbers given, without the wrap, to the packets with indexes `ts` after one that got `high`. */
  function Numbers(high: nat, ts: seq<nat>): (ns: seq<nat>)
    ensures |ns| == |ts|
    decreases |ts|
  {
    if |ts| == 0 then []
    else var n := Extend(high, ts[0] % CYCLE); [n] + Numbers(Max(high, n), ts[1..])
  }

  /** The same from the statistics themselves. */
  function Assigned(s: Stats, ts: seq<nat>): (ns: seq<u32>)
    ensures |ns| == |ts|
    decreases |ts|
  {
    if |ts| == 0 then []
    else var r := Receive(s, ts[0] % CYCLE, false); [r.seqnr] + Assigned(r.stats, ts[1..])
  }

  lemma {:induction false} AssignedAreNumbers(s: Stats, high: nat, ts: seq<nat>)
    requires Tracks(s, high)
    ensures forall i :: 0 <= i < |ts| ==> Assigned(s, ts)[i] == Numbers(high, ts)[i] % WORD
    decreases |ts|
  {
    if |ts| > 0 {
      ReceiveExtends(s, high, ts[0] % CYCLE, false);
      AssignedAreNumbers(Receive(s, ts[0] % CYCLE, false).stats, Max(high, Extend(high, ts[0] % CYCLE)), ts[1..]);
    }
  }

  /** Every packet is in the window of the highest index before it. */
  predicate WellOrdered(m: nat, ts: seq<nat>)
    decreases |ts|
  {
    |ts| == 0 || (InWindow(m, ts[0]) && WellOrdered(Max(m, ts[0]), ts[1..]))
  }

  lemma {:induction false} NumbersFollow(m: nat, cycles: int, ts: seq<nat>)
    requires m + cycles * CYCLE >= 0
    ensures WellOrdered(m, ts) <==> forall i :: 0 <= i < |ts| ==>
              Numbers(m + cycles * CYCLE, ts)[i] == ts[i] + cycles * CYCLE
    decreases |ts|
  {
    hide Extend, InWindow;
    if |ts| > 0 {
      var high, n := m + cycles * CYCLE, Extend(m + cycles * CYCLE, ts[0] % CYCLE);
      var ns := Numbers(high, ts);
      ExtendIsExact(m, ts[0], cycles);
      assert ns[0] == n;
      if InWindow(m, ts[0]) {
        NumbersFollow(Max(m, ts[0]), cycles, ts[1..]);
        assert Max(high, n) == Max(m, ts[0]) + cycles * CYCLE;
        assert ns[1..] == Numbers(Max(high, n), ts[1..]);
        FollowSplit(ns, ts, cycles * CYCLE);
      }
    }
  }

  lemma FollowSplit(ns: seq<nat>, ts: seq<nat>, shift: int)
    requires |ns| == |ts| > 0 && ns[0] == ts[0] + shift
    ensures (forall i :: 0 <= i < |ts| ==> ns[i] == ts[i] + shift)
       <==> (forall i :: 0 <= i < |ts[1..]| ==> ns[1..][i] == ts[1..][i] + shift)
  {
    if forall i :: 0 <= i < |ts[1..]| ==> ns[1..][i] == ts[1..][i] + shift {
      forall i | 0 < i < |ts|
        ensures ns[i] == ts[i] + shift
      {
        assert ns[i] == ns[1..][i - 1] && ts[i] == ts[1..][i - 1];
      }
    }
  }

  lemma CyclesBetween(n: nat, t: nat) returns (cycles: int)
    requires n % CYCLE == t % CYCLE
    ensures n == t + cycles * CYCLE && (n - t) % CYCLE == 0
  {
    cycles := n / CYCLE - t / CYCLE;
  }

  /** Reconstruction over a whole run: the packet indexes `ts` after the first accepted one, `t0`, are recovered up to a
      constant (and the 32-bit wrap) when each keeps to the window, and without the wrap only then. */
  lemma Reconstruction(s: Stats, t0: nat, ts: seq<nat>)
    requires !s.sentdata && s.numcycles == 0
    ensures var r := Accepted(s, t0 % CYCLE);
            var shift := r.seqnr - t0;
            && shift % CYCLE == 0
            && (WellOrdered(t0, ts) ==> forall i :: 0 <= i < |ts| ==>
               Assigned(r.stats, ts)[i] == (ts[i] + shift) % WORD)
            && (WellOrdered(t0, ts) <==> forall i :: 0 <= i < |ts| ==> Numbers(r.seqnr, ts)[i] == ts[i] + shift)
  {
    hide Accepted, Tracks, WellOrdered, Numbers, Assigned;
    var r := Accepted(s, t0 % CYCLE);
    FirstTracks(s, t0 % CYCLE);
    var cycles := CyclesBetween(r.seqnr, t0);
    NumbersFollow(t0, cycles, ts);
    AssignedAreNumbers(r.stats, r.seqnr, ts);
  }

  /** A late packet from before a wrap is outside the window: it passes for a new one, 65536 ahead of its place. */
  lemma LatePacketFromBeforeWrap(m: nat, t: nat, cycles: int)
    requires m + cycles * CYCLE >= 0 && t < m && t / CYCLE + 1 == m / CYCLE && m < t + CYCLE / 2
    ensures !InWindow(m, t)
    ensures Extend(m + cycles * CYCLE, t % CYCLE) == t + cycles * CYCLE + CYCLE > m + cycles * CYCLE
  {
    var high := m + cycles * CYCLE;
    assert m == m / CYCLE * CYCLE + m % CYCLE;
    assert t == t / CYCLE * CYCLE + t % CYCLE;
    assert high / CYCLE == m / CYCLE + cycles && high % CYCLE == m % CYCLE;
  }

  // ----- Probation -----

  /** The statistics after packets that all come under probation. */
  function Probed(seqs: seq<u16>): Stats
    decreases |seqs|
  {
    if |seqs| == 0 then NO_STATS else Receive(Probed(seqs[..|seqs| - 1]), seqs[|seqs| - 1], true).stats
  }

  /** Packet `k` completes three with consecutive numbers. */
  predicate ThirdInRow(seqs: seq<u16>, k: nat) {
    2 <= k < |seqs| && seqs[k - 1] == Next16(seqs[k - 2]) && seqs[k] == Next16(seqs[k - 1])
  }

  ghost predicate HasThreeInRow(seqs: seq<u16>) {
    exists k: nat :: ThirdInRow(seqs, k)
  }

  lemma ThreeInRowStays(seqs: seq<u16>)
    requires |seqs| > 0
    ensures HasThreeInRow(seqs) <==> HasThreeInRow(seqs[..|seqs| - 1]) || ThirdInRow(seqs, |seqs| - 1)
  {
    var init := seqs[..|seqs| - 1];
    if k: nat :| ThirdInRow(init, k) {
      assert ThirdInRow(seqs, k);
    }
    if k: nat :| ThirdInRow(seqs, k) && k < |seqs| - 1 {
      assert ThirdInRow(init, k);
    }
  }

  lemma {:induction false} ProbationCounts(seqs: seq<u16>)
    ensures var s := Probed(seqs);
            && (s.sentdata <==> HasThreeInRow(seqs))
            && (!s.sentdata ==> s.probation == (if seqs == [] then 0
                                                else if |seqs| >= 2 && seqs[|seqs| - 1]
                                                    == Next16(seqs[|seqs| - 2]) then 1 else 2))
            && (!s.sentdata && seqs != [] ==> s.prevseqnr == seqs[|seqs| - 1])
    decreases |seqs|
  {
    if |seqs| > 0 {
      var init := seqs[..|seqs| - 1];
      ProbationCounts(init);
      ThreeInRowStays(seqs);
    }
  }

  /** Under probation the packets accepted are exactly those from the first that completes three in a row on. */
  lemma AcceptedFromThirdInRow(seqs: seq<u16>)
    requires |seqs| > 0
    ensures var r := Receive(Probed(seqs[..|seqs| - 1]), seqs[|seqs| - 1], true);
            r.accept == !r.onprobation == HasThreeInRow(seqs)
  {
    var init := seqs[..|seqs| - 1];
    ProbationCounts(init);
    ThreeInRowStays(seqs);
  }

  // ----- Loss over an interval -----

  datatype StatsEvent = Packet(sn: u16, applyprobation: bool) | IntervalEnd

  function StatsStep(s: Stats, e: StatsEvent): Stats {
    match e
    case Packet(sn, applyprobation) => Receive(s, sn, applyprobation).stats
    case IntervalEnd => NewInterval(s)
  }

  function StatsRun(es: seq<StatsEvent>): Stats
    decreases |es|
  {
    if |es| == 0 then NO_STATS else StatsStep(StatsRun(es[..|es| - 1]), es[|es| - 1])
  }

  /** The highest number given in a run, without the wrap. */
  function Highest(es: seq<StatsEvent>): nat
    decreases |es|
  {
    if |es| == 0 then 0
    else
      var s, high := StatsRun(es[..|es| - 1]), Highest(es[..|es| - 1]);
      match es[|es| - 1]
      case Packet(sn, applyprobation) =>
        if s.sentdata then Max(high, Extend(high, sn)) else Receive(s, sn, applyprobation).stats.exthighseqnr
      case IntervalEnd => high
  }

  lemma {:induction false} RunTracks(es: seq<StatsEvent>)
    ensures var s := StatsRun(es);
            && (s.sentdata ==> Tracks(s, Highest(es)))
            && (!s.sentdata ==> s.numcycles == 0 && s.exthighseqnr == 0 && Highest(es) == 0)
    decreases |es|
  {
    if |es| > 0 {
      var init := es[..|es| - 1];
      RunTracks(init);
      if es[|es| - 1].Packet? {
        var s, e := StatsRun(init), es[|es| - 1];
        if s.sentdata {
          ReceiveExtends(s, Highest(init), e.sn, e.applyprobation);
        } else {
          FirstTracks(s.(prevseqnr := e.sn, probation := 0), e.sn);
          FirstTracks(s, e.sn);
        }
      }
    }
  }

  /** In every run that stays below 2^32, the next accepted packet gets a number with its own 16 bits that the highest
      number bounds, and the highest number does not fall. */
  lemma HighestBoundsAll(es: seq<StatsEvent>, sn: u16, applyprobation: bool)
    requires Highest(es + [Packet(sn, applyprobation)]) < WORD
    ensures var s, r := StatsRun(es), Receive(StatsRun(es), sn, applyprobation);
            && r.stats.exthighseqnr >= s.exthighseqnr
            && (r.accept ==> r.seqnr <= r.stats.exthighseqnr && r.seqnr % CYCLE == sn)
            && (s.sentdata ==> r.accept && !r.onprobation)
  {
    hide StatsRun, Receive, Extend, Tracks;
    var es' := es + [Packet(sn, applyprobation)];
    assert es'[..|es'| - 1] == es;
    RunTracks(es);
    if StatsRun(es).sentdata {
      BoundsNext(StatsRun(es), Highest(es), sn, applyprobation);
    } else {
      BoundsFirst(StatsRun(es), sn, applyprobation);
    }
  }

  lemma BoundsNext(s: Stats, high: nat, sn: u16, applyprobation: bool)
    requires Tracks(s, high) && Max(high, Extend(high, sn)) < WORD
    ensures var r := Receive(s, sn, applyprobation);
            && r.accept && !r.onprobation && r.stats.exthighseqnr >= s.exthighseqnr
            && r.seqnr <= r.stats.exthighseqnr && r.seqnr % CYCLE == sn
  {
    hide Receive, Extend;
    ReceiveExtends(s, high, sn, applyprobation);
  }

  lemma BoundsFirst(s: Stats, sn: u16, applyprobation: bool)
    requires !s.sentdata && s.exthighseqnr == 0
    ensures var r := Receive(s, sn, applyprobation);
            && (r.accept ==> r.seqnr <= r.stats.exthighseqnr && r.seqnr % CYCLE == sn)
  {}

  /** The 8-bit fraction of a report block; None where the code divides zero by zero. */
  function FractionLost(s: Stats): Option<int> {
    var expected := Sub32(s.exthighseqnr, s.savedextseqnr);
    if expected < s.numnewpackets then Some(0)
    else if expected == 0 then None
    else
      var lost := (expected - s.numnewpackets) as real;
      var frac := lost / (expected as real);
      Some((frac * 256.0).Floor)
  }

  /** The packets that have come since the last interval began. */
  function SinceInterval(es: seq<StatsEvent>): nat {
    if |es| == 0 || es[|es| - 1].IntervalEnd? then 0 else SinceInterval(es[..|es| - 1]) + 1
  }

  /** As long as the 32-bit counter of the interval has not wrapped round. */
  lemma {:induction false} NoneNewMeansNoneHigher(es: seq<StatsEvent>)
    requires SinceInterval(es) < WORD
    ensures var s := StatsRun(es);
            s.numnewpackets <= SinceInterval(es) && (s.numnewpackets == 0 ==> s.savedextseqnr == s.exthighseqnr)
    decreases |es|
  {
    if |es| > 0 && es[|es| - 1].Packet? {
      hide Receive, Add32, NewInterval;
      NoneNewMeansNoneHigher(es[..|es| - 1]);
      NewCounted(StatsRun(es[..|es| - 1]), es[|es| - 1].sn, es[|es| - 1].applyprobation);
    }
  }

  /** A packet that counts is counted; one that does not changes neither the counter nor the numbers. */
  lemma NewCounted(s: Stats, sn: u16, applyprobation: bool)
    requires s.numnewpackets < WORD - 1
    ensures var r := Receive(s, sn, applyprobation);
            && (r.accept ==> r.stats.numnewpackets == s.numnewpackets + 1)
            && (!r.accept ==> && r.stats.numnewpackets == s.numnewpackets && r.stats.savedextseqnr == s.savedextseqnr
                              && r.stats.exthighseqnr == s.exthighseqnr)
  {}

  lemma ByteQuotient(lost: nat, expected: nat)
    requires lost < expected
    ensures 0 <= 256 * lost / expected <= 255
  {
    Quotient(256 * lost, expected);
  }

  lemma {:induction false} RealProduct(a: nat, b: nat)
    ensures (a as real) * (b as real) == (a * b) as real
  {
    if a > 0 {
      RealProduct(a - 1, b);
      assert a * b == (a - 1) * b + b;
      assert (a as real) * (b as real) == ((a - 1) as real) * (b as real) + b as real;
    }
  }

  lemma Quotient(a: nat, b: nat)
    requires b > 0
    ensures var q := a / b; q >= 0 && q * b <= a < (q + 1) * b
  {
    var q, r := a / b, a % b;
    assert a == q * b + r && 0 <= r < b;
    if q < 0 {
      NotNegative(q, b, r);
    }
    assert (q + 1) * b == q * b + b;
  }

  lemma NotNegative(q: int, b: nat, r: int)
    requires q < 0 && b > 0 && r < b
    ensures q * b + r < 0
  {
    assert q * b + b <= 0;
  }

  lemma FloorOfQuotient(a: nat, b: nat)
    requires b > 0
    ensures ((a as real) / (b as real) * 256.0).Floor == 256 * a / b
  {
    var n: nat := 256 * a;
    Quotient(n, b);
    RealProduct(n / b, b);
    RealProduct(n / b + 1, b);
    var x, y := (a as real) / (b as real) * 256.0, b as real;
    QuotientTimes(a as real, y, x);
    AtLeast((n / b) as real, x, y, n as real);
    Below((n / b + 1) as real, x, y, n as real);
  }

  lemma QuotientTimes(a: real, y: real, x: real)
    requires y > 0.0 && x == a / y * 256.0
    ensures x * y == 256.0 * a
  {
    var t := a / y;
    assert t * y == a;
    assert x * y == 256.0 * (t * y);
  }

  lemma SignOfProduct(d: real, y: real)
    requires y > 0.0
    ensures (d > 0.0 ==> d * y > 0.0) && (d >= 0.0 ==> d * y >= 0.0)
  {}

  lemma AtLeast(q: real, x: real, y: real, z: real)
    requires y > 0.0 && x * y == z && q * y <= z
    ensures q <= x
  {
    SignOfProduct(q - x, y);
    assert (q - x) * y == q * y - x * y;
  }

  lemma Below(q: real, x: real, y: real, z: real)
    requires y > 0.0 && x * y == z && z < q * y
    ensures x < q
  {
    SignOfProduct(x - q, y);
    assert (x - q) * y == x * y - q * y;
  }

  /** In every run with fewer than 2^32 packets in its last interval, the fraction is defined exactly when the interval
      has a packet, and then it fits a byte: 256ths of the expected packets that are missing, rounded down, or 0 when
      duplicates hide them. */
  lemma FractionFitsByte(es: seq<StatsEvent>)
    requires SinceInterval(es) < WORD
    ensures var s := StatsRun(es);
            var expected := Sub32(s.exthighseqnr, s.savedextseqnr);
            && (FractionLost(s).None? <==> s.numnewpackets == 0)
            && (s.numnewpackets > 0 ==> 0 <= FractionLost(s).value <= 255)
            && (0 < s.numnewpackets <= expected ==>
               FractionLost(s).value == 256 * (expected - s.numnewpackets) / expected)
            && (s.numnewpackets > expected ==> FractionLost(s).value == 0)
  {
    hide StatsRun;
    NoneNewMeansNoneHigher(es);
    var s := StatsRun(es);
    var expected := Sub32(s.exthighseqnr, s.savedextseqnr);
    if 0 < s.numnewpackets <= expected {
      FloorOfQuotient(expected - s.numnewpackets, expected);
      ByteQuotient(expected - s.numnewpackets, expected);
    }
  }
}
