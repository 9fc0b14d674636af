/** The RTCP timer: when a compound packet may be sent. Times are whole microseconds. */
module RtcpScheduler {
  import opened Basics
  import opened RtcpFormat

  datatype Params = Params(bandwidth: real, senderfraction: real, mininterval: nat, usehalfatstartup: bool,
      immediatebye: bool)

  /** What the setters let through. */
  predicate Settable(p: Params) {
    p.bandwidth >= 0.0 && 0.0 <= p.senderfraction <= 1.0
  }

  /** What the scheduler looks up at the time of a call: the members and senders of the source table, and whether we
      send. */
  datatype Session = Session(members: int, senders: int, aresender: bool)

  datatype Timer = Timer(headeroverhead: nat, avgrtcppacksize: nat, hassentrtcp: bool, firstcall: bool,
                         nextrtcptime: nat, prevrtcptime: nat, pmembers: int,
                         byescheduled: bool, byemembers: nat, avgbyepacketsize: nat, sendbyenow: bool)

  /** Not more than the senders' fraction of the members are senders. */
  predicate SendersFew(p: Params, x: Session) {
    x.senders as real / (if x.members == 0 then 1 else x.members) as real <= p.senderfraction
  }

  /** The receivers' share of the bandwidth, by which a BYE is timed, is not zero. */
  predicate ByeDivides(p: Params) {
    Settable(p) && p.bandwidth != 0.0 && p.senderfraction != 1.0
  }

  /** The share of the bandwidth by which the interval is computed is not zero. */
  predicate Divides(p: Params, x: Session, sender: bool) {
    && Settable(p) && p.bandwidth != 0.0
    && (SendersFew(p, x) ==> if sender then p.senderfraction != 0.0 else p.senderfraction != 1.0)
  }

  function NewTimer(headeroverhead: nat): Timer {
    Timer(headeroverhead, 1000, false, true, 0, 0, 0, false, 0, 0, false)
  }

  predicate Random(r: real) {
    0.0 <= r < 1.0
  }

  /** The conversion from a number of seconds: whole seconds first, then the microseconds of the rest. */
  function FromReal(t: real): (us: int)
    requires t >= 0.0
    ensures us >= 0
  {
    var sec := t.Floor;
    sec * MILLION + ((t - sec as real) * 1000000.0).Floor
  }

  function GetDouble(us: int): real {
    us as real / 1000000.0
  }

  /** In one step: the microseconds rounded down. */
  lemma FromRealRounds(t: real)
    requires t >= 0.0
    ensures FromReal(t) == (t * 1000000.0).Floor
  {
    var sec := t.Floor;
    var rest := ((t - sec as real) * 1000000.0).Floor;
    assert (sec * MILLION) as real == sec as real * 1000000.0;
  }

  function MinimumInterval(p: Params, half: bool): real {
    var tmin := GetDouble(p.mininterval);
    if half then tmin / 2.0 else tmin
  }

  function Halves(p: Params, s: Timer): bool {
    !s.hassentrtcp && p.usehalfatstartup
  }

  function MaxReal(a: real, b: real): real {
    if a > b then a else b
  }

  /** The senders' and the receivers' shares of the bandwidth. */
  function SenderBandwidth(p: Params): (bw: real)
    requires Settable(p) && p.bandwidth != 0.0 && p.senderfraction != 0.0
    ensures bw > 0.0
  {
    ProductPositive(p.senderfraction, p.bandwidth);
    p.senderfraction * p.bandwidth
  }

  function ReceiverBandwidth(p: Params): (bw: real)
    requires ByeDivides(p)
    ensures bw > 0.0
  {
    ProductPositive(1.0 - p.senderfraction, p.bandwidth);
    (1.0 - p.senderfraction) * p.bandwidth
  }

  lemma ProductPositive(a: real, b: real)
    requires a > 0.0 && b > 0.0
    ensures a * b > 0.0
  {}

  /** The time for `n` packets of one size. */
  function Times(n: int, size: nat, bw: real): real
    requires bw > 0.0
  {
    n as real * (size as real / bw)
  }

  /** The part of the bandwidth that falls to us: the senders' share, the receivers' share, or all of it. */
  function Share(p: Params, s: Timer, x: Session, sender: bool): real
    requires Divides(p, x, sender)
  {
    var numtotal := if x.members == 0 then 1 else x.members;
    if SendersFew(p, x) then
      if sender then Times(x.senders, s.avgrtcppacksize, SenderBandwidth(p))
      else Times(numtotal - x.senders, s.avgrtcppacksize, ReceiverBandwidth(p))
    else Times(numtotal, s.avgrtcppacksize, p.bandwidth)
  }

  function DeterministicInterval(p: Params, s: Timer, x: Session, sender: bool): (us: int)
    requires Divides(p, x, sender)
    ensures us >= 0
  {
    FromReal(MaxReal(MinimumInterval(p, Halves(p, s)), Share(p, s, x, sender)))
  }

  /** An interval times a factor between 0.5 and 1.5, with the compensation of section 6.3.1 of RFC 3550. */
  function Randomised(td: real, random: real): (us: int)
    requires td >= 0.0 && Random(random)
    ensures us >= 0
  {
    FromReal(td * (random + 0.5) / 1.21828)
  }

  function TransmissionInterval(p: Params, s: Timer, x: Session, random: real): (us: int)
    requires Divides(p, x, x.aresender) && Random(random)
    ensures us >= 0
  {
    Randomised(GetDouble(DeterministicInterval(p, s, x, x.aresender)), random)
  }

  /** No division, or none by zero, in the interval before a BYE. */
  predicate ByeTimes(p: Params, s: Timer) {
    s.byescheduled && !s.sendbyenow ==> ByeDivides(p)
  }

  function ByeShare(p: Params, s: Timer): real
    requires ByeDivides(p)
  {
    Times(s.byemembers, s.avgbyepacketsize, ReceiverBandwidth(p))
  }

  function ByeInterval(p: Params, s: Timer, random: real): (us: int)
    requires ByeTimes(p, s) && Random(random)
    ensures us >= 0
  {
    if !s.byescheduled || s.sendbyenow then 0
    else Randomised(MaxReal(MinimumInterval(p, p.usehalfatstartup), ByeShare(p, s)), random)
  }

  // ----- The operations -----

  /** The next time, from a second reading of the clock. */
  function WithNext(p: Params, s: Timer, x: Session, now: nat, random: real): Timer
    requires Divides(p, x, x.aresender) && Random(random)
  {
    s.(nextrtcptime := now + TransmissionInterval(p, s, x, random))
  }

  function Started(p: Params, s: Timer, x: Session, now: nat, later: nat, random: real): Timer
    requires Divides(p, x, x.aresender) && Random(random)
  {
    WithNext(p, s.(firstcall := false, prevrtcptime := now, pmembers := x.members), x, later, random)
  }

  /** Timer reconsideration: the time to check against when the timer has expired. */
  function CheckTime(p: Params, s: Timer, x: Session, random: real): int
    requires (if s.byescheduled then ByeTimes(p, s) else Divides(p, x, x.aresender)) && Random(random)
  {
    s.prevrtcptime + if s.byescheduled then ByeInterval(p, s, random) else TransmissionInterval(p, s, x, random)
  }

  /** IsTime does not divide by zero: on the first call, or when the timer has expired, by what it computes then. */
  predicate IsTimeDivides(p: Params, s: Timer, x: Session, now: nat, random: real)
    requires Random(random)
  {
    if s.firstcall then Divides(p, x, x.aresender)
    else if now < s.nextrtcptime then true
    else if !s.byescheduled then Divides(p, x, x.aresender)
    else ByeTimes(p, s) && (CheckTime(p, s, x, random) <= now ==> Divides(p, x, x.aresender))
  }

  /** IsTime, with two readings of the clock and two random numbers. */
  function WithIsTime(p: Params, s: Timer, x: Session, now: nat, later: nat, random: real, random': real): (Timer, bool)
    requires Random(random) && Random(random') && IsTimeDivides(p, s, x, now, random)
  {
    if s.firstcall then (Started(p, s, x, now, later, random), false)
    else if now < s.nextrtcptime then (s, false)
    else
      var checktime := CheckTime(p, s, x, random);
      if checktime <= now
      then (WithNext(p, s.(byescheduled := false, prevrtcptime := now, pmembers := x.members), x, later, random'), true)
      else (s.(nextrtcptime := checktime, pmembers := x.members), false)
  }

  /** A fraction of a time. */
  function Part(f: real, t: real): (part: real)
    requires f >= 0.0 && t >= 0.0
    ensures part >= 0.0
  {
    f * t
  }

  function Shrunk(members: int, pmembers: int, us: int): int
    requires members >= 0 && pmembers > 0 && us >= 0
  {
    FromReal(Part(members as real / pmembers as real, GetDouble(us)))
  }

  function Gap(a: int, b: int): (g: int)
    ensures g >= 0
  {
    if a > b then a - b else 0
  }

  /** PerformReverseReconsideration, which is only called when the number of members has fallen. */
  function Reconsidered(s: Timer, members: nat, now: nat): Timer
    requires members < s.pmembers
  {
    if s.firstcall then s
    else
      ShrunkShorter(members, s.pmembers, Gap(now, s.prevrtcptime));
      s.(nextrtcptime := now + Shrunk(members, s.pmembers, Gap(s.nextrtcptime, now)),
         prevrtcptime := now - Shrunk(members, s.pmembers, Gap(now, s.prevrtcptime)),
         pmembers := members)
  }

  function WithMemberDecrease(s: Timer, members: nat, now: nat): Timer {
    if members < s.pmembers then Reconsidered(s, members, now) else s
  }

  /** A new average: a sixteenth of the packet and fifteen of the old one, rounded down. */
  predicate Weighs(average: nat, packsize: nat, before: nat) {
    16 * average <= packsize + 15 * before < 16 * average + 16
  }

  predicate HoldsBye(packets: seq<Packet>) {
    exists k :: 0 <= k < |packets| && packets[k].t == BYE
  }

  function Averaged(packsize: nat, average: nat): nat {
    (packsize + 15 * average) / 16
  }

  function WithIncoming(s: Timer, packetlength: nat, isbye: bool): Timer {
    if !isbye then s.(avgrtcppacksize := Averaged(s.headeroverhead + packetlength, s.avgrtcppacksize))
    else if s.byescheduled
    then s.(avgbyepacketsize := Averaged(s.headeroverhead + packetlength, s.avgbyepacketsize),
            byemembers := s.byemembers + 1)
    else s
  }

  function WithOutgoing(s: Timer, packetlength: nat, isbye: bool): Timer {
    var t := if isbye then s else s.(avgrtcppacksize := Averaged(s.headeroverhead + packetlength, s.avgrtcppacksize));
    t.(hassentrtcp := true)
  }

  /** A BYE is scheduled; its time is still to be set. */
  function ByeStarted(p: Params, s: Timer, packetsize: nat, members: int, now: nat): Timer {
    s.(firstcall := false, pmembers := if s.firstcall then members else s.pmembers,
       byescheduled := true, avgbyepacketsize := packetsize + s.headeroverhead, byemembers := 1,
       sendbyenow := p.immediatebye && members < 50, prevrtcptime := now)
  }

  function WithBye(p: Params, s: Timer, packetsize: nat, members: int, now: nat, random: real): Timer
    requires (s.byescheduled || (p.immediatebye && members < 50) || ByeDivides(p)) && Random(random)
  {
    if s.byescheduled then s
    else
      var t := ByeStarted(p, s, packetsize, members, now);
      t.(nextrtcptime := now + ByeInterval(p, t, random))
  }

  // ----- Bounds -----

  /** No randomised interval is shorter: half the minimum interval, or a quarter before the first packet when so
      configured, by 1.21828. */
  function LeastInterval(p: Params, half: bool): nat {
    var tmin := if half then p.mininterval / 2 else p.mininterval;
    LeastIsPositive(tmin);
    (tmin as real * 0.5 / 1.21828).Floor
  }

  lemma LeastIsPositive(tmin: nat)
    ensures (tmin as real * 0.5 / 1.21828).Floor >= 0
  {}

  lemma Scaled(a: real, b: real, c: real)
    requires a <= b && c >= 0.0
    ensures a * c <= b * c
  {}

  lemma FloorGrows(a: real, b: real)
    requires a <= b
    ensures a.Floor <= b.Floor
  {}

  lemma RandomisedAtLeast(us: int, random: real, tmin: nat)
    requires Random(random) && us >= tmin
    ensures Randomised(GetDouble(us), random) >= (tmin as real * 0.5 / 1.21828).Floor
  {
    var td := GetDouble(us);
    FromRealRounds(td * (random + 0.5) / 1.21828);
    Scaled(0.5, random + 0.5, td);
    FloorGrows(tmin as real * 0.5 / 1.21828, td * (random + 0.5) / 1.21828 * 1000000.0);
  }

  lemma MinimumInMicros(p: Params, half: bool, td: real)
    requires td >= MinimumInterval(p, half)
    ensures FromReal(td) >= if half then p.mininterval / 2 else p.mininterval
  {
    FromRealRounds(td);
    FloorGrows(MinimumInterval(p, half) * 1000000.0, td * 1000000.0);
  }

  lemma IntervalAtLeast(p: Params, s: Timer, x: Session, random: real)
    requires Divides(p, x, x.aresender) && Random(random)
    ensures TransmissionInterval(p, s, x, random) >= LeastInterval(p, Halves(p, s))
  {
    hide Share, Randomised, FromReal, MinimumInterval;
    var half := Halves(p, s);
    MinimumInMicros(p, half, MaxReal(MinimumInterval(p, half), Share(p, s, x, x.aresender)));
    RandomisedAtLeast(DeterministicInterval(p, s, x, x.aresender), random,
                      if half then p.mininterval / 2 else p.mininterval);
  }

  /** A BYE that is not to go at once waits as long. */
  lemma ByeIntervalAtLeast(p: Params, s: Timer, random: real)
    requires ByeDivides(p) && Random(random) && s.byescheduled && !s.sendbyenow
    ensures ByeInterval(p, s, random) >= LeastInterval(p, p.usehalfatstartup)
  {
    hide ByeShare, Randomised;
    var half := p.usehalfatstartup;
    ByeAtLeast(p, half, MaxReal(MinimumInterval(p, half), ByeShare(p, s)), random);
  }

  lemma ByeAtLeast(p: Params, half: bool, td: real, random: real)
    requires Random(random) && td >= MinimumInterval(p, half)
    ensures Randomised(td, random) >= LeastInterval(p, half)
  {
    var tmin := if half then p.mininterval / 2 else p.mininterval;
    FromRealRounds(td * (random + 0.5) / 1.21828);
    Scaled(0.5, random + 0.5, td);
    assert tmin as real <= td * 1000000.0;
    FloorGrows(tmin as real * 0.5 / 1.21828, td * (random + 0.5) / 1.21828 * 1000000.0);
  }

  /** The bound in seconds, but for the rounding to microseconds. */
  lemma LeastIntervalIsHalf(p: Params, half: bool)
    ensures LeastInterval(p, half) as real > MinimumInterval(p, half) * 1000000.0 * 0.5 / 1.21828 - 2.0
  {
    var tmin := if half then p.mininterval / 2 else p.mininterval;
    assert tmin as real > MinimumInterval(p, half) * 1000000.0 - 1.0;
  }

  lemma RatioBelowOne(a: real, b: real)
    requires 0.0 <= a <= b && b > 0.0
    ensures 0.0 <= a / b <= 1.0
  {
    Compared(a / b, 1.0, b);
    Compared(0.0, a / b, b);
  }

  lemma Compared(x: real, y: real, b: real)
    requires b > 0.0 && x * b <= y * b
    ensures x <= y
  {
    if x > y {
      ProductPositive(x - y, b);
    }
  }

  lemma PartOf(f: real, t: real)
    requires 0.0 <= f <= 1.0 && t >= 0.0
    ensures 0.0 <= f * t <= t
  {
    Scaled(f, 1.0, t);
    Scaled(0.0, f, t);
  }

  lemma PartIsShorter(f: real, t: real)
    requires 0.0 <= f <= 1.0 && t >= 0.0
    ensures 0 <= FromReal(Part(f, t)) <= (t * 1000000.0).Floor
  {
    PartOf(f, t);
    MicrosGrow(f * t, t);
  }

  lemma MicrosGrow(a: real, b: real)
    requires 0.0 <= a <= b
    ensures 0 <= FromReal(a) <= (b * 1000000.0).Floor
  {
    FromRealRounds(a);
    FloorGrows(a * 1000000.0, b * 1000000.0);
  }

  lemma WholeMicros(us: nat)
    ensures (GetDouble(us) * 1000000.0).Floor == us
  {
    assert GetDouble(us) * 1000000.0 == us as real;
  }

  /** Scaling a stretch of time down by a falling number of members never lengthens it. */
  lemma ShrunkShorter(members: nat, pmembers: int, us: nat)
    requires members < pmembers
    ensures 0 <= Shrunk(members, pmembers, us) <= us
  {
    hide FromReal, Part, GetDouble;
    WholeMicros(us);
    RatioBelowOne(members as real, pmembers as real);
    PartIsShorter(members as real / pmembers as real, GetDouble(us));
  }

  /** Reverse reconsideration does not move the previous time back, nor past the present, and puts the next time between
      the present and where it was, or at the present. */
  lemma ReconsideredKeeps(s: Timer, members: nat, now: nat)
    requires members < s.pmembers && s.prevrtcptime <= now
    ensures var t := Reconsidered(s, members, now);
            && s.prevrtcptime <= t.prevrtcptime <= now
            && (!s.firstcall ==> now <= t.nextrtcptime <= (if now > s.nextrtcptime then now else s.nextrtcptime))
  {
    hide Shrunk;
    ShrunkShorter(members, s.pmembers, Gap(s.nextrtcptime, now));
    ShrunkShorter(members, s.pmembers, Gap(now, s.prevrtcptime));
  }

  /** A scheduled BYE that is not to go at once goes no earlier than the least interval after the previous time. */
  lemma ByeBacksOff(p: Params, s: Timer, x: Session, now: nat, later: nat, random: real, random': real)
    requires Random(random) && Random(random') && IsTimeDivides(p, s, x, now, random)
    requires s.byescheduled && !s.sendbyenow
    ensures WithIsTime(p, s, x, now, later, random, random').1 ==>
              now >= s.prevrtcptime + LeastInterval(p, p.usehalfatstartup)
  {
    hide ByeInterval;
    if !s.firstcall && now >= s.nextrtcptime {
      ByeIntervalAtLeast(p, s, random);
    }
  }

  // ----- The interval as a number -----

  /** `us` is `t` rounded down. */
  predicate RoundsDown(us: int, t: real) {
    us as real <= t < us as real + 1.0
  }

  /** The least time, in microseconds, before it is drawn at random. */
  function LeastMicros(p: Params, half: bool): real {
    if half then p.mininterval as real / 2.0 else p.mininterval as real
  }

  function FractionOf(f: real, bw: real): real {
    f * bw
  }

  /** A time and a random factor from 0.5 up to 1.5, by 1.21828. */
  function Scattered(t: real, random: real): real {
    t * (random + 0.5) / 1.21828
  }

  /** `t` seconds is what `n` packets of this size take of a part of the bandwidth. */
  predicate Takes(t: real, n: int, size: nat, bw: real) {
    t * bw == n as real * size as real
  }

  /** `t` seconds is the time for the packets of those who share the bandwidth with us: senders have the senders'
      fraction and the others the rest, as long as the senders are no larger a part of the members. */
  predicate SharedTime(p: Params, size: nat, x: Session, t: real) {
    var members := if x.members == 0 then 1 else x.members;
    if x.senders as real / members as real > p.senderfraction then Takes(t, members, size, p.bandwidth)
    else if x.aresender then Takes(t, x.senders, size, FractionOf(p.senderfraction, p.bandwidth))
    else Takes(t, members - x.senders, size, FractionOf(1.0 - p.senderfraction, p.bandwidth))
  }

  /** `td` is the interval asked for: the larger of the minimum, halved before the first packet when so configured, and
      the time `share` that the bandwidth asks for, rounded down. */
  predicate AskedFor(p: Params, s: Timer, x: Session, share: real, td: int) {
    && SharedTime(p, s.avgrtcppacksize, x, share)
    && RoundsDown(td, MaxReal(LeastMicros(p, !s.hassentrtcp && p.usehalfatstartup), share * 1000000.0))
  }

  /** `us` is the interval drawn: the one asked for, scattered and rounded down again. */
  ghost predicate Drawn(p: Params, s: Timer, x: Session, random: real, us: int) {
    exists share: real, td: int :: AskedFor(p, s, x, share, td) && RoundsDown(us, Scattered(td as real, random))
  }

  /** The same before a BYE, when the members that say BYE have the receivers' part of the bandwidth. */
  predicate AskedForBye(p: Params, s: Timer, share: real, td: real) {
    && Takes(share, s.byemembers, s.avgbyepacketsize, FractionOf(1.0 - p.senderfraction, p.bandwidth))
    && td == MaxReal(LeastMicros(p, p.usehalfatstartup), share * 1000000.0)
  }

  /** No time when it goes at once; otherwise rounded only once. */
  ghost predicate DrawnForBye(p: Params, s: Timer, random: real, us: int) {
    if s.sendbyenow then us == 0
    else exists share: real, td: real :: AskedForBye(p, s, share, td) && RoundsDown(us, Scattered(td, random))
  }

  lemma Associates(a: real, b: real, c: real)
    ensures (a * b) * c == a * (b * c)
  {}

  lemma QuotientTimes(a: real, b: real)
    requires b > 0.0
    ensures (a / b) * b == a
  {}

  lemma FractionPositive(f: real, bw: real)
    requires f > 0.0 && bw > 0.0
    ensures FractionOf(f, bw) > 0.0
  {
    ProductPositive(f, bw);
  }

  lemma BandwidthParts(p: Params)
    requires Settable(p) && p.bandwidth != 0.0
    ensures p.senderfraction != 0.0 ==> SenderBandwidth(p) == FractionOf(p.senderfraction, p.bandwidth)
    ensures p.senderfraction != 1.0 ==> ReceiverBandwidth(p) == FractionOf(1.0 - p.senderfraction, p.bandwidth)
  {}

  lemma TimesTakes(n: int, size: nat, bw: real)
    requires bw > 0.0
    ensures Takes(Times(n, size, bw), n, size, bw)
  {
    QuotientTimes(size as real, bw);
    Associates(n as real, size as real / bw, bw);
  }

  lemma TakesOnce(t: real, u: real, n: int, size: nat, bw: real)
    requires bw > 0.0 && Takes(t, n, size, bw) && Takes(u, n, size, bw)
    ensures t == u
  {
    Compared(t, u, bw);
    Compared(u, t, bw);
  }

  lemma RoundsDownOnce(us: int, vs: int, t: real)
    requires RoundsDown(us, t) && RoundsDown(vs, t)
    ensures us == vs
  {}

  lemma FloorRounds(us: int, t: real)
    requires us == t.Floor
    ensures RoundsDown(us, t)
  {}

  /** A factor of a million goes through. */
  lemma MicrosOfProduct(td: real, d: real, y: real)
    requires td * 1000000.0 == d
    ensures td * y / 1.21828 * 1000000.0 == d * y / 1.21828
  {
    var z := td * y;
    Associates(1000000.0, td, y);
    assert d * y == 1000000.0 * z;
    assert z / 1.21828 * 1000000.0 == 1000000.0 * z / 1.21828;
  }

  lemma ScatteredMicros(td: real, d: real, random: real, t: real)
    requires td * 1000000.0 == d && t == td * (random + 0.5) / 1.21828
    ensures t * 1000000.0 == Scattered(d, random)
  {
    MicrosOfProduct(td, d, random + 0.5);
  }

  lemma RandomisedRounds(td: real, d: real, random: real)
    requires td >= 0.0 && td * 1000000.0 == d && Random(random)
    ensures RoundsDown(Randomised(td, random), Scattered(d, random))
  {
    hide FromReal;
    Scaled(0.0, random + 0.5, td);
    FromRealRounds(td * (random + 0.5) / 1.21828);
    ScatteredMicros(td, d, random, td * (random + 0.5) / 1.21828);
    FloorRounds(Randomised(td, random), Scattered(d, random));
  }

  lemma ShareIsShared(p: Params, s: Timer, x: Session)
    requires Divides(p, x, x.aresender)
    ensures SharedTime(p, s.avgrtcppacksize, x, Share(p, s, x, x.aresender))
  {
    hide Times, Takes, FractionOf, SenderBandwidth, ReceiverBandwidth;
    BandwidthParts(p);
    var members := if x.members == 0 then 1 else x.members;
    if !SendersFew(p, x) {
      TimesTakes(members, s.avgrtcppacksize, p.bandwidth);
    } else if x.aresender {
      TimesTakes(x.senders, s.avgrtcppacksize, SenderBandwidth(p));
    } else {
      TimesTakes(members - x.senders, s.avgrtcppacksize, ReceiverBandwidth(p));
    }
  }

  lemma SharedOnce(p: Params, size: nat, x: Session, t: real, u: real)
    requires Divides(p, x, x.aresender) && SharedTime(p, size, x, t) && SharedTime(p, size, x, u)
    ensures t == u
  {
    hide Takes, FractionOf;
    var members := if x.members == 0 then 1 else x.members;
    if !SendersFew(p, x) {
      TakesOnce(t, u, members, size, p.bandwidth);
    } else if x.aresender {
      FractionPositive(p.senderfraction, p.bandwidth);
      TakesOnce(t, u, x.senders, size, FractionOf(p.senderfraction, p.bandwidth));
    } else {
      FractionPositive(1.0 - p.senderfraction, p.bandwidth);
      TakesOnce(t, u, members - x.senders, size, FractionOf(1.0 - p.senderfraction, p.bandwidth));
    }
  }

  /** Seconds against microseconds in the larger of two times. */
  lemma LargerInMicros(p: Params, half: bool, share: real)
    ensures MaxReal(MinimumInterval(p, half), share) >= 0.0
    ensures MaxReal(MinimumInterval(p, half), share) * 1000000.0 == MaxReal(LeastMicros(p, half), share * 1000000.0)
  {}

  lemma DeterministicRounds(p: Params, s: Timer, x: Session)
    requires Divides(p, x, x.aresender)
    ensures RoundsDown(DeterministicInterval(p, s, x, x.aresender),
                       MaxReal(LeastMicros(p, !s.hassentrtcp && p.usehalfatstartup),
                               Share(p, s, x, x.aresender) * 1000000.0))
  {
    hide FromReal, Share, MaxReal, MinimumInterval, LeastMicros;
    var half, share := Halves(p, s), Share(p, s, x, x.aresender);
    LargerInMicros(p, half, share);
    FromRealRounds(MaxReal(MinimumInterval(p, half), share));
    FloorRounds(DeterministicInterval(p, s, x, x.aresender), MaxReal(LeastMicros(p, half), share * 1000000.0));
  }

  lemma AskedOnce(p: Params, s: Timer, x: Session, share: real, td: int)
    requires Divides(p, x, x.aresender)
    ensures AskedFor(p, s, x, share, td)
       <==> share == Share(p, s, x, x.aresender) && td == DeterministicInterval(p, s, x, x.aresender)
  {
    hide Share, SharedTime, MaxReal, LeastMicros, DeterministicInterval, RoundsDown, Divides;
    var share', td' := Share(p, s, x, x.aresender), DeterministicInterval(p, s, x, x.aresender);
    ShareIsShared(p, s, x);
    DeterministicRounds(p, s, x);
    if AskedFor(p, s, x, share, td) {
      SharedOnce(p, s.avgrtcppacksize, x, share, share');
      RoundsDownOnce(td, td', MaxReal(LeastMicros(p, !s.hassentrtcp && p.usehalfatstartup), share * 1000000.0));
    }
  }

  /** The interval computed is the one drawn, and no other is. */
  lemma IntervalIsDrawn(p: Params, s: Timer, x: Session, random: real, us: int)
    requires Divides(p, x, x.aresender) && Random(random)
    ensures Drawn(p, s, x, random, us) <==> us == TransmissionInterval(p, s, x, random)
  {
    hide Share, AskedFor, Scattered, Randomised, DeterministicInterval, RoundsDown, Divides;
    var share, td := Share(p, s, x, x.aresender), DeterministicInterval(p, s, x, x.aresender);
    AskedOnce(p, s, x, share, td);
    RandomisedRounds(GetDouble(td), td as real, random);
    if Drawn(p, s, x, random, us) {
      var share', td' :| AskedFor(p, s, x, share', td') && RoundsDown(us, Scattered(td' as real, random));
      AskedOnce(p, s, x, share', td');
      RoundsDownOnce(us, TransmissionInterval(p, s, x, random), Scattered(td as real, random));
    }
  }

  lemma AskedForByeOnce(p: Params, s: Timer, share: real, td: real)
    requires ByeDivides(p)
    ensures AskedForBye(p, s, share, td)
       <==> share == ByeShare(p, s) && td == MaxReal(LeastMicros(p, p.usehalfatstartup), share * 1000000.0)
  {
    hide Takes, FractionOf, Times, MaxReal, SenderBandwidth, ReceiverBandwidth;
    BandwidthParts(p);
    TimesTakes(s.byemembers, s.avgbyepacketsize, ReceiverBandwidth(p));
    if AskedForBye(p, s, share, td) {
      TakesOnce(share, ByeShare(p, s), s.byemembers, s.avgbyepacketsize, ReceiverBandwidth(p));
    }
  }

  lemma ByeIntervalIsDrawn(p: Params, s: Timer, random: real, us: int)
    requires ByeTimes(p, s) && Random(random) && s.byescheduled
    ensures DrawnForBye(p, s, random, us) <==> us == ByeInterval(p, s, random)
  {
    hide AskedForBye, ByeShare, Scattered, MaxReal, LeastMicros, MinimumInterval, Randomised, RoundsDown;
    if !s.sendbyenow {
      var half, share := p.usehalfatstartup, ByeShare(p, s);
      var td := MaxReal(LeastMicros(p, half), share * 1000000.0);
      AskedForByeOnce(p, s, share, td);
      LargerInMicros(p, half, share);
      RandomisedRounds(MaxReal(MinimumInterval(p, half), share), td, random);
      if DrawnForBye(p, s, random, us) {
        var share', td' :| AskedForBye(p, s, share', td') && RoundsDown(us, Scattered(td', random));
        AskedForByeOnce(p, s, share', td');
        RoundsDownOnce(us, ByeInterval(p, s, random), Scattered(td, random));
      }
    }
  }

  /** What reconsideration draws when the timer has expired. */
  ghost predicate DrawnNow(p: Params, s: Timer, x: Session, random: real, us: int) {
    if s.byescheduled then DrawnForBye(p, s, random, us) else Drawn(p, s, x, random, us)
  }

  /** A packet is allowed exactly when the timer has expired and the interval drawn has gone by since the previous time;
      otherwise an expired timer is put off to that time. */
  lemma IsTimeAnswers(p: Params, s: Timer, x: Session, now: nat, later: nat, random: real, random': real, us: int)
    requires Random(random) && Random(random') && IsTimeDivides(p, s, x, now, random)
    requires !s.firstcall && now >= s.nextrtcptime && DrawnNow(p, s, x, random, us)
    ensures var (t, yes) := WithIsTime(p, s, x, now, later, random, random');
            && (yes <==> now - s.prevrtcptime >= us)
            && (yes ==> && t == s.(byescheduled := false, prevrtcptime := now, pmembers := x.members,
                                   nextrtcptime := t.nextrtcptime)
                        && Drawn(p, t, x, random', t.nextrtcptime - later))
            && (!yes ==> t == s.(nextrtcptime := s.prevrtcptime + us, pmembers := x.members) && now < t.nextrtcptime)
  {
    hide TransmissionInterval, ByeInterval, Drawn, DrawnForBye, Divides;
    if s.byescheduled {
      ByeIntervalIsDrawn(p, s, random, us);
    } else {
      IntervalIsDrawn(p, s, x, random, us);
    }
    if now - s.prevrtcptime >= us {
      var t := s.(byescheduled := false, prevrtcptime := now, pmembers := x.members);
      var next := TransmissionInterval(p, t, x, random');
      IntervalIsDrawn(p, t, x, random', next);
      DrawnAlike(p, t, t.(nextrtcptime := later + next), x, random', next);
    }
  }

  lemma DrawnAlike(p: Params, s: Timer, t: Timer, x: Session, random: real, us: int)
    requires s.avgrtcppacksize == t.avgrtcppacksize && s.hassentrtcp == t.hassentrtcp && Drawn(p, s, x, random, us)
    ensures Drawn(p, t, x, random, us)
  {
    hide Scattered, RoundsDown, SharedTime;
    var share, td :| AskedFor(p, s, x, share, td) && RoundsDown(us, Scattered(td as real, random));
    assert AskedFor(p, t, x, share, td);
  }

  /** The first call draws an interval from the present and refuses. */
  lemma FirstCallDraws(p: Params, s: Timer, x: Session, now: nat, later: nat, random: real)
    requires Random(random) && Divides(p, x, x.aresender)
    ensures var t := Started(p, s, x, now, later, random);
            && t == s.(firstcall := false, prevrtcptime := now, pmembers := x.members, nextrtcptime := t.nextrtcptime)
            && Drawn(p, t, x, random, t.nextrtcptime - later)
  {
    hide TransmissionInterval, Drawn, Divides;
    var t := s.(firstcall := false, prevrtcptime := now, pmembers := x.members);
    var next := TransmissionInterval(p, t, x, random);
    IntervalIsDrawn(p, t, x, random, next);
    DrawnAlike(p, t, t.(nextrtcptime := later + next), x, random, next);
  }

  /** A time in the proportion of the members to the previous ones. */
  function Proportion(members: nat, pmembers: int, us: nat): real
    requires pmembers > 0
  {
    members as real * us as real / pmembers as real
  }

  /** Nothing before the first call; then both times are scaled. */
  predicate Scales(s: Timer, t: Timer, members: nat, now: nat)
    requires members < s.pmembers
  {
    if s.firstcall then t == s
    else
      && t == s.(nextrtcptime := t.nextrtcptime, prevrtcptime := t.prevrtcptime, pmembers := members)
      && RoundsDown(t.nextrtcptime - now, Proportion(members, s.pmembers, Gap(s.nextrtcptime, now)))
      && RoundsDown(now - t.prevrtcptime, Proportion(members, s.pmembers, Gap(now, s.prevrtcptime)))
  }

  /** Reverse reconsideration scales the time still to wait, and the time since the previous one, by the fall in
      members. */
  lemma ReconsideredScales(s: Timer, members: nat, now: nat)
    requires members < s.pmembers
    ensures Scales(s, Reconsidered(s, members, now), members, now)
  {
    hide Shrunk, RoundsDown, Proportion;
    if !s.firstcall {
      ShrunkShorter(members, s.pmembers, Gap(s.nextrtcptime, now));
      ShrunkShorter(members, s.pmembers, Gap(now, s.prevrtcptime));
      ShrunkRounds(members, s.pmembers, Gap(s.nextrtcptime, now));
      ShrunkRounds(members, s.pmembers, Gap(now, s.prevrtcptime));
    }
  }

  lemma ShrunkRounds(members: nat, pmembers: int, us: nat)
    requires members < pmembers
    ensures RoundsDown(Shrunk(members, pmembers, us), Proportion(members, pmembers, us))
  {
    hide GetDouble, FromReal, RoundsDown, Part, Proportion;
    DoubleMicros(us);
    var t := Part(Ratio(members, pmembers), GetDouble(us));
    RatioPart(members, pmembers, us);
    FromRealRounds(t);
    FloorRounds(FromReal(t), Proportion(members, pmembers, us));
  }

  function Ratio(members: nat, pmembers: int): (f: real)
    requires members < pmembers
    ensures f >= 0.0
  {
    RatioBelowOne(members as real, pmembers as real);
    members as real / pmembers as real
  }

  lemma RatioPart(members: nat, pmembers: int, us: nat)
    requires members < pmembers
    ensures GetDouble(us) >= 0.0
    ensures Part(Ratio(members, pmembers), GetDouble(us)) * 1000000.0 == Proportion(members, pmembers, us)
  {
    hide GetDouble, Part;
    DoubleMicros(us);
    MicrosOfPart(Ratio(members, pmembers), GetDouble(us), us as real);
    PartialMicros(members as real, pmembers as real, us as real);
  }

  lemma DoubleMicros(us: nat)
    ensures GetDouble(us) >= 0.0 && GetDouble(us) * 1000000.0 == us as real
  {}

  lemma MicrosOfPart(f: real, t: real, u: real)
    requires t * 1000000.0 == u && f >= 0.0 && t >= 0.0
    ensures Part(f, t) * 1000000.0 == f * u
  {
    Associates(f, t, 1000000.0);
  }

  lemma PartialMicros(a: real, b: real, c: real)
    requires b > 0.0
    ensures a / b * c == a * c / b
  {
    QuotientTimes(a, b);
    Associates(a / b, b, c);
    Associates(a / b, c, b);
    QuotientTimes(a * c, b);
    Compared(a / b * c, a * c / b, b);
    Compared(a * c / b, a / b * c, b);
  }

  // ----- Runs without a BYE -----

  datatype Event =
    | IsTime(x: Session, now: nat, later: nat, random: real, random': real)
    | Delay(x: Session, now: nat, later: nat, random: real)
    | MemberDecrease(members: nat, now: nat)
    | Incoming(packetlength: nat, isbye: bool)
    | Outgoing(packetlength: nat, isbye: bool)

  /** A time at which a packet was allowed, and whether the minimum interval was halved then. */
  datatype Send = Send(at: nat, half: bool)

  datatype Course = Course(timer: Timer, clock: nat, sends: seq<Send>)

  /** The clock does not go back, random numbers are in range, and nothing is divided by zero. */
  predicate Fair(p: Params, c: Course, e: Event) {
    match e
    case IsTime(x, now, later, random, random') =>
      c.clock <= now <= later && Random(random) && Random(random') && IsTimeDivides(p, c.timer, x, now, random)
    case Delay(x, now, later, random) =>
      c.clock <= now <= later && Random(random) && (c.timer.firstcall ==> Divides(p, x, x.aresender))
    case MemberDecrease(_, now) => c.clock <= now
    case _ => true
  }

  function WithDelay(p: Params, s: Timer, x: Session, now: nat, later: nat, random: real): Timer
    requires (s.firstcall ==> Divides(p, x, x.aresender)) && Random(random)
  {
    if s.firstcall then Started(p, s, x, now, later, random) else s
  }

  function Step(p: Params, c: Course, e: Event): Course
    requires Fair(p, c, e)
  {
    match e
    case IsTime(x, now, later, random, random') =>
      var (t, yes) := WithIsTime(p, c.timer, x, now, later, random, random');
      Course(t, later, if yes then c.sends + [Send(now, Halves(p, c.timer))] else c.sends)
    case Delay(x, now, later, random) => c.(timer := WithDelay(p, c.timer, x, now, later, random), clock := later)
    case MemberDecrease(members, now) => c.(timer := WithMemberDecrease(c.timer, members, now), clock := now)
    case Incoming(length, isbye) => c.(timer := WithIncoming(c.timer, length, isbye))
    case Outgoing(length, isbye) => c.(timer := WithOutgoing(c.timer, length, isbye))
  }

  /** Each packet after the first comes at least the least interval after the one before. */
  predicate Spaced(p: Params, sends: seq<Send>) {
    forall i :: 0 < i < |sends| ==> sends[i].at >= sends[i - 1].at + LeastInterval(p, sends[i].half)
  }

  predicate Inv(p: Params, c: Course) {
    && !c.timer.byescheduled && c.timer.prevrtcptime <= c.clock && Spaced(p, c.sends)
    && (c.sends != [] ==> !c.timer.firstcall && c.sends[|c.sends| - 1].at <= c.timer.prevrtcptime)
  }

  lemma StepKeeps(p: Params, c: Course, e: Event)
    requires Inv(p, c) && Fair(p, c, e)
    ensures Inv(p, Step(p, c, e))
  {
    hide TransmissionInterval, Shrunk, LeastInterval, Averaged;
    match e
    case IsTime(x, now, later, random, random') =>
      if !c.timer.firstcall && now >= c.timer.nextrtcptime {
        IntervalAtLeast(p, c.timer, x, random);
      }
    case MemberDecrease(members, now) =>
      if members < c.timer.pmembers {
        ReconsideredKeeps(c.timer, members, now);
      }
    case _ =>
  }

  predicate FairRun(p: Params, c: Course, es: seq<Event>)
    requires Inv(p, c)
    decreases |es|
  {
    |es| == 0 || (Fair(p, c, es[0]) && (StepKeeps(p, c, es[0]); FairRun(p, Step(p, c, es[0]), es[1..])))
  }

  function Run(p: Params, c: Course, es: seq<Event>): Course
    requires Inv(p, c) && FairRun(p, c, es)
    decreases |es|
  {
    if |es| == 0 then c else StepKeeps(p, c, es[0]); Run(p, Step(p, c, es[0]), es[1..])
  }

  lemma {:induction false} RunKeeps(p: Params, c: Course, es: seq<Event>)
    requires Inv(p, c) && FairRun(p, c, es)
    ensures Inv(p, Run(p, c, es))
    decreases |es|
  {
    if |es| > 0 {
      StepKeeps(p, c, es[0]);
      RunKeeps(p, Step(p, c, es[0]), es[1..]);
    }
  }

  /** Over every run from a new timer, whatever the members, the packets and the reconsiderations in between, two
      packets allowed one after the other are at least the least interval apart. */
  lemma PacketsAreSpaced(p: Params, headeroverhead: nat, start: nat, es: seq<Event>)
    requires FairRun(p, Course(NewTimer(headeroverhead), start, []), es)
    ensures Spaced(p, Run(p, Course(NewTimer(headeroverhead), start, []), es).sends)
  {
    RunKeeps(p, Course(NewTimer(headeroverhead), start, []), es);
  }

  // ----- Being answered in time -----

  /** No interval drawn for this session is longer than `bound`: one and a half times the one asked for, by 1.21828. */
  ghost predicate AtMost(p: Params, s: Timer, x: Session, bound: nat) {
    forall share: real, td: int :: AskedFor(p, s, x, share, td) ==> td as real * 1.5 / 1.21828 < bound as real + 1.0
  }

  lemma ScatteredAtMost(td: real, random: real)
    requires td >= 0.0 && Random(random)
    ensures Scattered(td, random) <= td * 1.5 / 1.21828
  {
    Scaled(random + 0.5, 1.5, td);
  }

  lemma IntervalAtMost(p: Params, s: Timer, x: Session, random: real, bound: nat)
    requires Divides(p, x, x.aresender) && Random(random) && AtMost(p, s, x, bound)
    ensures TransmissionInterval(p, s, x, random) <= bound
  {
    hide Scattered, Randomised, DeterministicInterval, AskedFor, Share, Divides;
    var share, td := Share(p, s, x, x.aresender), DeterministicInterval(p, s, x, x.aresender);
    AskedOnce(p, s, x, share, td);
    RandomisedRounds(GetDouble(td), td as real, random);
    ScatteredAtMost(td as real, random);
  }

  /** As long as a timer keeps to its session's bound. */
  ghost predicate KeepsTo(p: Params, c: Course, e: Event, bound: nat) {
    (e.IsTime? || e.Delay?) ==> AtMost(p, c.timer, e.x, bound)
  }

  ghost predicate KeepsToRun(p: Params, c: Course, es: seq<Event>, bound: nat)
    requires Inv(p, c) && FairRun(p, c, es)
    decreases |es|
  {
    |es| == 0
    || (KeepsTo(p, c, es[0], bound) && (StepKeeps(p, c, es[0]); KeepsToRun(p, Step(p, c, es[0]), es[1..], bound)))
  }

  /** The clock when the timer was last set going: at the first call, when a packet was allowed, or when the members
      fell. */
  function SetGoing(p: Params, c: Course, e: Event, since: nat): nat
    requires Fair(p, c, e)
  {
    match e
    case IsTime(x, now, later, random, random') =>
      if c.timer.firstcall || WithIsTime(p, c.timer, x, now, later, random, random').1 then later else since
    case Delay(_, _, later, _) => if c.timer.firstcall then later else since
    case MemberDecrease(members, now) => if members < c.timer.pmembers && !c.timer.firstcall then now else since
    case _ => since
  }

  function SetGoingRun(p: Params, c: Course, es: seq<Event>, since: nat): nat
    requires Inv(p, c) && FairRun(p, c, es)
    decreases |es|
  {
    if |es| == 0 then since
    else StepKeeps(p, c, es[0]); SetGoingRun(p, Step(p, c, es[0]), es[1..], SetGoing(p, c, es[0], since))
  }

  /** Since it was set going at `since`, the timer has not been put off by more than the bound. */
  predicate Prompt(c: Course, since: nat, bound: nat) {
    since <= c.clock
    && (c.timer.firstcall || (c.timer.prevrtcptime <= since && c.timer.nextrtcptime <= since + bound))
  }

  lemma CallIsPrompt(p: Params, c: Course, e: Event, since: nat, bound: nat)
    requires Inv(p, c) && Fair(p, c, e) && KeepsTo(p, c, e, bound) && Prompt(c, since, bound) && e.IsTime?
    ensures var (t, yes) := WithIsTime(p, c.timer, e.x, e.now, e.later, e.random, e.random');
            && Prompt(Step(p, c, e), SetGoing(p, c, e, since), bound)
            && (!c.timer.firstcall && e.now >= since + bound ==> yes)
            && (!yes && !c.timer.firstcall && e.now >= c.timer.nextrtcptime ==>
                  e.now < t.nextrtcptime <= since + bound)
  {
    hide TransmissionInterval, AskedFor, Divides, AtMost, Spaced;
    var s, x := c.timer, e.x;
    if s.firstcall {
      var u := s.(firstcall := false, prevrtcptime := e.now, pmembers := x.members);
      AtMostAlike(p, s, u, x, bound);
      IntervalAtMost(p, u, x, e.random, bound);
    } else if e.now >= s.nextrtcptime {
      IntervalAtMost(p, s, x, e.random, bound);
      var u := s.(byescheduled := false, prevrtcptime := e.now, pmembers := x.members);
      AtMostAlike(p, s, u, x, bound);
      IntervalAtMost(p, u, x, e.random', bound);
    }
  }

  lemma AtMostAlike(p: Params, s: Timer, t: Timer, x: Session, bound: nat)
    requires s.avgrtcppacksize == t.avgrtcppacksize && s.hassentrtcp == t.hassentrtcp && AtMost(p, s, x, bound)
    ensures AtMost(p, t, x, bound)
  {
    hide RoundsDown, SharedTime;
    forall share: real, td: int | AskedFor(p, t, x, share, td)
      ensures AskedFor(p, s, x, share, td)
    {}
  }

  lemma StaysPrompt(p: Params, c: Course, e: Event, since: nat, bound: nat)
    requires Inv(p, c) && Fair(p, c, e) && KeepsTo(p, c, e, bound) && Prompt(c, since, bound)
    ensures Prompt(Step(p, c, e), SetGoing(p, c, e, since), bound)
  {
    hide TransmissionInterval, AskedFor, Divides, AtMost, Spaced, WithIsTime, Shrunk, Averaged;
    match e
    case IsTime(_, _, _, _, _) => CallIsPrompt(p, c, e, since, bound);
    case Delay(x, now, later, random) =>
      if c.timer.firstcall {
        var u := c.timer.(firstcall := false, prevrtcptime := now, pmembers := x.members);
        AtMostAlike(p, c.timer, u, x, bound);
        IntervalAtMost(p, u, x, random, bound);
      }
    case MemberDecrease(members, now) =>
      if members < c.timer.pmembers {
        ReconsideredKeeps(c.timer, members, now);
      }
    case _ =>
  }

  lemma {:induction false} RunStaysPrompt(p: Params, c: Course, es: seq<Event>, since: nat, bound: nat)
    requires Inv(p, c) && FairRun(p, c, es) && KeepsToRun(p, c, es, bound) && Prompt(c, since, bound)
    ensures Prompt(Run(p, c, es), SetGoingRun(p, c, es, since), bound)
    decreases |es|
  {
    hide Inv, Prompt, Fair, KeepsTo;
    if |es| > 0 {
      StepKeeps(p, c, es[0]);
      StaysPrompt(p, c, es[0], since, bound);
      RunStaysPrompt(p, Step(p, c, es[0]), es[1..], SetGoing(p, c, es[0], since), bound);
    }
  }

  /** Over every run from a new timer, with intervals that keep to a bound: once the timer is going, every call that
      comes the bound or more after it was last set going is answered yes, and a refusal of an expired timer puts it
      off, but never past that bound. */
  lemma AnsweredInTime(p: Params, headeroverhead: nat, start: nat, es: seq<Event>, e: Event, bound: nat)
    requires var c := Course(NewTimer(headeroverhead), start, []);
             && FairRun(p, c, es) && KeepsToRun(p, c, es, bound)
             && e.IsTime? && !Run(p, c, es).timer.firstcall
             && Fair(p, Run(p, c, es), e) && KeepsTo(p, Run(p, c, es), e, bound)
    ensures var c := Course(NewTimer(headeroverhead), start, []);
            var before, since := Run(p, c, es), SetGoingRun(p, c, es, start);
            var after := Step(p, before, e);
            && (e.now >= since + bound ==> after.sends == before.sends + [Send(e.now, Halves(p, before.timer))])
            && (after.sends == before.sends && e.now >= before.timer.nextrtcptime ==>
                  e.now < after.timer.nextrtcptime <= since + bound)
  {
    hide Inv, Prompt, KeepsTo, WithIsTime;
    var c := Course(NewTimer(headeroverhead), start, []);
    StartsPrompt(p, headeroverhead, start, bound);
    RunKeeps(p, c, es);
    RunStaysPrompt(p, c, es, start, bound);
    CallIsPrompt(p, Run(p, c, es), e, SetGoingRun(p, c, es, start), bound);
  }

  lemma StartsPrompt(p: Params, headeroverhead: nat, start: nat, bound: nat)
    ensures Inv(p, Course(NewTimer(headeroverhead), start, []))
    ensures Prompt(Course(NewTimer(headeroverhead), start, []), start, bound)
  {}

  /** A scheduled BYE is allowed at the latest one and a half times the interval asked for, by 1.21828, after it was
      scheduled. */
  lemma ByeInTime(p: Params, s: Timer, x: Session, now: nat, later: nat, random: real, random': real, share: real,
          td: real)
    requires Random(random) && Random(random') && IsTimeDivides(p, s, x, now, random)
    requires s.byescheduled && !s.firstcall && now >= s.nextrtcptime && AskedForBye(p, s, share, td)
    requires s.sendbyenow || (now - s.prevrtcptime) as real >= td * 1.5 / 1.21828
    requires now >= s.prevrtcptime
    ensures WithIsTime(p, s, x, now, later, random, random').1
  {
    hide Scattered, Randomised, AskedForBye, ByeShare, MinimumInterval, LeastMicros, Divides, TransmissionInterval,
         Drawn, MaxReal;
    if !s.sendbyenow {
      AskedForByeOnce(p, s, share, td);
      LargerInMicros(p, p.usehalfatstartup, share);
      RandomisedRounds(MaxReal(MinimumInterval(p, p.usehalfatstartup), share), td, random);
      ScatteredAtMost(td, random);
    }
  }

  // ----- The scheduler -----

  class RTCPScheduler {
    var schedparams: Params
    var headeroverhead: nat
    var avgrtcppacksize: nat
    var hassentrtcp: bool
    var firstcall: bool
    var nextrtcptime: nat
    var prevrtcptime: nat
    var pmembers: int
    var byescheduled: bool
    var byemembers: nat
    var avgbyepacketsize: nat
    var sendbyenow: bool

    ghost function State(): Timer
      reads this
    {
      Timer(headeroverhead, avgrtcppacksize, hassentrtcp, firstcall, nextrtcptime, prevrtcptime, pmembers,
            byescheduled, byemembers, avgbyepacketsize, sendbyenow)
    }

    constructor (params: Params, overhead: nat)
      ensures State() == NewTimer(overhead) && schedparams == params
    {
      schedparams, headeroverhead, avgrtcppacksize := params, overhead, 1000;
      hassentrtcp, firstcall, byescheduled, sendbyenow := false, true, false, false;
      nextrtcptime, prevrtcptime, pmembers, byemembers, avgbyepacketsize := 0, 0, 0, 0, 0;
    }

    method CalculateDeterministicInterval(x: Session, sender: bool) returns (us: nat)
      requires Divides(schedparams, x, sender)
      ensures us == DeterministicInterval(schedparams, State(), x, sender)
    {
      hide FromReal, Times, SenderBandwidth, ReceiverBandwidth;
      var numtotal := x.members;
      if numtotal == 0 {
        numtotal := numtotal + 1;
      }
      var sfraction := x.senders as real / numtotal as real;
      var bw, n;
      if sfraction <= schedparams.senderfraction {
        if sender {
          bw := SenderBandwidth(schedparams);
          n := x.senders;
        } else {
          bw := ReceiverBandwidth(schedparams);
          n := numtotal - x.senders;
        }
      } else {
        bw := schedparams.bandwidth;
        n := numtotal;
      }
      var tmin := GetDouble(schedparams.mininterval);
      if !hassentrtcp && schedparams.usehalfatstartup {
        tmin := tmin / 2.0;
      }
      var ntimesc := Times(n, avgrtcppacksize, bw);
      var td := if tmin > ntimesc then tmin else ntimesc;
      us := FromReal(td);
    }

    method CalculateTransmissionInterval(x: Session, random: real) returns (us: nat)
      requires Divides(schedparams, x, x.aresender) && Random(random)
      ensures us == TransmissionInterval(schedparams, State(), x, random)
    {
      hide DeterministicInterval, Randomised;
      var det := CalculateDeterministicInterval(x, x.aresender);
      var td := GetDouble(det);
      us := Randomised(td, random);
    }

    method CalculateBYETransmissionInterval(random: real) returns (us: nat)
      requires ByeTimes(schedparams, State()) && Random(random)
      ensures us == ByeInterval(schedparams, State(), random)
    {
      hide Randomised, Times, SenderBandwidth, ReceiverBandwidth;
      if !byescheduled || sendbyenow {
        us := 0;
      } else {
        var tmin := GetDouble(schedparams.mininterval);
        if schedparams.usehalfatstartup {
          tmin := tmin / 2.0;
        }
        var ntimesc := Times(byemembers, avgbyepacketsize, ReceiverBandwidth(schedparams));
        var td := if tmin > ntimesc then tmin else ntimesc;
        us := Randomised(td, random);
      }
    }

    method CalculateNextRTCPTime(x: Session, now: nat, random: real)
      requires Divides(schedparams, x, x.aresender) && Random(random)
      modifies this`nextrtcptime
      ensures State() == WithNext(schedparams, old(State()), x, now, random)
    {
      hide TransmissionInterval;
      var us := CalculateTransmissionInterval(x, random);
      nextrtcptime := now + us;
    }

    method FirstCall(x: Session, now: nat, later: nat, random: real)
      requires Divides(schedparams, x, x.aresender) && Random(random)
      modifies this`firstcall, this`prevrtcptime, this`pmembers, this`nextrtcptime
      ensures State() == Started(schedparams, old(State()), x, now, later, random)
    {
      hide WithNext;
      firstcall := false;
      prevrtcptime := now;
      pmembers := x.members;
      CalculateNextRTCPTime(x, later, random);
    }

    method IsTime(x: Session, now: nat, later: nat, random: real, random': real) returns (yes: bool)
      requires Random(random) && Random(random') && IsTimeDivides(schedparams, State(), x, now, random)
      modifies this
      ensures (State(), yes) == WithIsTime(old(schedparams), old(State()), x, now, later, random, random')
      ensures schedparams == old(schedparams)
      ensures old(firstcall) || now < old(nextrtcptime) ==> !yes
      ensures var p, s := schedparams, old(State());
              !s.firstcall && now >= s.nextrtcptime ==>
                forall us: int :: DrawnNow(p, s, x, random, us) ==>
                  && (yes <==> now - s.prevrtcptime >= us)
                  && (!yes ==> prevrtcptime == s.prevrtcptime && now < nextrtcptime == s.prevrtcptime + us)
      ensures yes ==> prevrtcptime == now && !byescheduled
      ensures yes ==> Drawn(schedparams, State(), x, random', nextrtcptime - later)
    {
      hide WithNext, Started, TransmissionInterval, ByeInterval, DrawnNow, Drawn;
      IsTimeSays(schedparams, State(), x, now, later, random, random');
      if firstcall {
        FirstCall(x, now, later, random);
        yes := false;
      } else if now < nextrtcptime {
        yes := false;
      } else {
        var checktime;
        if !byescheduled {
          checktime := CalculateTransmissionInterval(x, random);
        } else {
          checktime := CalculateBYETransmissionInterval(random);
        }
        checktime := checktime + prevrtcptime;
        if checktime <= now {
          byescheduled := false;
          prevrtcptime := now;
          pmembers := x.members;
          CalculateNextRTCPTime(x, later, random');
          yes := true;
        } else {
          nextrtcptime := checktime;
          pmembers := x.members;
          yes := false;
        }
      }
    }

    /** The time to wait from the last reading of the clock; after it the timer has expired. */
    method GetTransmissionDelay(x: Session, now: nat, later: nat, last: nat, random: real) returns (delay: nat)
      requires (firstcall ==> Divides(schedparams, x, x.aresender)) && Random(random)
      modifies this
      ensures State() == WithDelay(old(schedparams), old(State()), x, now, later, random)
      ensures schedparams == old(schedparams)
      ensures last + delay >= nextrtcptime && (delay > 0 ==> last + delay == nextrtcptime)
      ensures if old(firstcall)
              then !firstcall && prevrtcptime == now && Drawn(schedparams, State(), x, random, nextrtcptime - later)
              else State() == old(State())
    {
      hide Started, Drawn;
      if firstcall {
        FirstCallDraws(schedparams, State(), x, now, later, random);
        FirstCall(x, now, later, random);
      }
      delay := if last > nextrtcptime then 0 else nextrtcptime - last;
    }

    method ActiveMemberDecrease(members: nat, now: nat)
      modifies this
      ensures State() == WithMemberDecrease(old(State()), members, now) && schedparams == old(schedparams)
      ensures members >= old(pmembers) ==> State() == old(State())
      ensures members < old(pmembers) ==> Scales(old(State()), State(), members, now)
    {
      hide Reconsidered, Scales;
      if members < pmembers {
        PerformReverseReconsideration(members, now);
      }
    }

    method PerformReverseReconsideration(members: nat, now: nat)
      requires members < pmembers
      modifies this`nextrtcptime, this`prevrtcptime, this`pmembers
      ensures State() == Reconsidered(old(State()), members, now)
      ensures Scales(old(State()), State(), members, now)
    {
      hide Shrunk, Scales;
      ReconsideredScales(State(), members, now);
      if !firstcall {
        var tnMinTc := if nextrtcptime > now then nextrtcptime - now else 0;
        var tcMinTp := if now > prevrtcptime then now - prevrtcptime else 0;
        ShrunkShorter(members, pmembers, tnMinTc);
        ShrunkShorter(members, pmembers, tcMinTp);
        var diff1 := Shrunk(members, pmembers, tnMinTc);
        var diff2 := Shrunk(members, pmembers, tcMinTp);
        nextrtcptime := now;
        prevrtcptime := now;
        nextrtcptime := nextrtcptime + diff1;
        prevrtcptime := prevrtcptime - diff2;
        pmembers := members;
      }
    }

    /** The scan for a BYE among the packets of a compound packet. */
    static method FindsBye(packets: seq<Packet>) returns (isbye: bool)
      ensures isbye == HoldsBye(packets)
    {
      isbye := false;
      var i := 0;
      while !isbye && i < |packets|
        invariant i <= |packets| && (isbye ==> HoldsBye(packets))
        invariant !isbye ==> forall k :: 0 <= k < i ==> packets[k].t != BYE
      {
        if packets[i].t == BYE {
          isbye := true;
        }
        i := i + 1;
      }
    }

    method AnalyseIncoming(packets: seq<Packet>, packetlength: nat)
      modifies this
      ensures State() == WithIncoming(old(State()), packetlength, HoldsBye(packets)) && schedparams == old(schedparams)
      ensures var s, t := old(State()), State();
              if !HoldsBye(packets) then
                && Weighs(t.avgrtcppacksize, headeroverhead + packetlength, s.avgrtcppacksize)
                && t == s.(avgrtcppacksize := t.avgrtcppacksize)
              else if s.byescheduled then
                && Weighs(t.avgbyepacketsize, headeroverhead + packetlength, s.avgbyepacketsize)
                && t == s.(avgbyepacketsize := t.avgbyepacketsize, byemembers := s.byemembers + 1)
              else t == s
    {
      var isbye := FindsBye(packets);
      var packsize := headeroverhead + packetlength;
      if !isbye {
        avgrtcppacksize := Averaged(packsize, avgrtcppacksize);
      } else if byescheduled {
        avgbyepacketsize := Averaged(packsize, avgbyepacketsize);
        byemembers := byemembers + 1;
      }
    }

    method AnalyseOutgoing(packets: seq<Packet>, packetlength: nat)
      modifies this
      ensures State() == WithOutgoing(old(State()), packetlength, HoldsBye(packets)) && schedparams == old(schedparams)
      ensures var s, t := old(State()), State();
              && t == s.(avgrtcppacksize := t.avgrtcppacksize, hassentrtcp := true)
              && if HoldsBye(packets) then t.avgrtcppacksize == s.avgrtcppacksize
                 else Weighs(t.avgrtcppacksize, headeroverhead + packetlength, s.avgrtcppacksize)
    {
      var isbye := FindsBye(packets);
      if !isbye {
        avgrtcppacksize := Averaged(headeroverhead + packetlength, avgrtcppacksize);
      }
      hassentrtcp := true;
    }

    method ScheduleBYEPacket(packetsize: nat, members: int, now: nat, random: real)
      requires Random(random)
      requires byescheduled || (schedparams.immediatebye && members < 50) || ByeDivides(schedparams)
      modifies this`firstcall, this`pmembers, this`byescheduled, this`avgbyepacketsize, this`byemembers, this`sendbyenow
      modifies this`prevrtcptime, this`nextrtcptime
      ensures State() == WithBye(schedparams, old(State()), packetsize, members, now, random)
      ensures !old(byescheduled) ==>
                && byescheduled && prevrtcptime == now && byemembers == 1
                && avgbyepacketsize == packetsize + headeroverhead
                && sendbyenow == (schedparams.immediatebye && members < 50)
                && DrawnForBye(schedparams, State(), random, nextrtcptime - now)
    {
      hide ByeInterval, ByeDivides, ByeStarted, DrawnForBye;
      if !byescheduled {
        StartBye(packetsize, members, now);
        ByeFields(schedparams, old(State()), packetsize, members, now);
        var us := CalculateBYETransmissionInterval(random);
        ByeIntervalIsDrawn(schedparams, State(), random, us);
        ghost var before := State();
        nextrtcptime := prevrtcptime + us;
        ByeDrawnAlike(schedparams, before, State(), random, us);
      }
    }

    method StartBye(packetsize: nat, members: int, now: nat)
      modifies this`firstcall, this`pmembers, this`byescheduled, this`avgbyepacketsize, this`byemembers, this`sendbyenow
      modifies this`prevrtcptime
      ensures State() == ByeStarted(schedparams, old(State()), packetsize, members, now)
    {
      if firstcall {
        firstcall := false;
        pmembers := members;
      }
      byescheduled := true;
      avgbyepacketsize := packetsize + headeroverhead;
      byemembers := 1;
      sendbyenow := schedparams.immediatebye && members < 50;
      prevrtcptime := now;
    }
  }

  lemma IsTimeSays(p: Params, s: Timer, x: Session, now: nat, later: nat, random: real, random': real)
    requires Random(random) && Random(random') && IsTimeDivides(p, s, x, now, random)
    ensures var (t, yes) := WithIsTime(p, s, x, now, later, random, random');
            && (s.firstcall || now < s.nextrtcptime ==> !yes)
            && (!s.firstcall && now >= s.nextrtcptime ==>
                  forall us: int :: DrawnNow(p, s, x, random, us) ==>
                    && (yes <==> now - s.prevrtcptime >= us)
                    && (!yes ==> t.prevrtcptime == s.prevrtcptime && now < t.nextrtcptime == s.prevrtcptime + us))
            && (yes ==> t.prevrtcptime == now && !t.byescheduled && Drawn(p, t, x, random', t.nextrtcptime - later))
  {
    hide WithIsTime, DrawnNow, Drawn;
    if s.firstcall || now < s.nextrtcptime {
      RefusedBefore(p, s, x, now, later, random, random');
    } else {
      var drawn := SomeDrawn(p, s, x, now, random);
      IsTimeAnswers(p, s, x, now, later, random, random', drawn);
      forall us: int | DrawnNow(p, s, x, random, us)
        ensures us == drawn
      {
        OneDrawn(p, s, x, now, random, us, drawn);
      }
    }
  }

  lemma RefusedBefore(p: Params, s: Timer, x: Session, now: nat, later: nat, random: real, random': real)
    requires Random(random) && Random(random') && IsTimeDivides(p, s, x, now, random)
    requires s.firstcall || now < s.nextrtcptime
    ensures !WithIsTime(p, s, x, now, later, random, random').1
  {}

  /** When the timer has expired, one interval is drawn. */
  lemma SomeDrawn(p: Params, s: Timer, x: Session, now: nat, random: real) returns (us: int)
    requires Random(random) && IsTimeDivides(p, s, x, now, random) && !s.firstcall && now >= s.nextrtcptime
    ensures DrawnNow(p, s, x, random, us)
  {
    hide TransmissionInterval, ByeInterval, Drawn, DrawnForBye;
    if s.byescheduled {
      us := ByeInterval(p, s, random);
      ByeIntervalIsDrawn(p, s, random, us);
    } else {
      us := TransmissionInterval(p, s, x, random);
      IntervalIsDrawn(p, s, x, random, us);
    }
  }

  lemma OneDrawn(p: Params, s: Timer, x: Session, now: nat, random: real, us: int, vs: int)
    requires Random(random) && IsTimeDivides(p, s, x, now, random) && !s.firstcall && now >= s.nextrtcptime
    requires DrawnNow(p, s, x, random, us) && DrawnNow(p, s, x, random, vs)
    ensures us == vs
  {
    hide TransmissionInterval, ByeInterval, Drawn, DrawnForBye;
    if s.byescheduled {
      ByeIntervalIsDrawn(p, s, random, us);
      ByeIntervalIsDrawn(p, s, random, vs);
    } else {
      IntervalIsDrawn(p, s, x, random, us);
      IntervalIsDrawn(p, s, x, random, vs);
    }
  }

  lemma ByeDrawnAlike(p: Params, s: Timer, t: Timer, random: real, us: int)
    requires s.sendbyenow == t.sendbyenow && s.byemembers == t.byemembers && s.avgbyepacketsize == t.avgbyepacketsize
    requires DrawnForBye(p, s, random, us)
    ensures DrawnForBye(p, t, random, us)
  {
    hide Scattered, RoundsDown;
    if !s.sendbyenow {
      var share, td :| AskedForBye(p, s, share, td) && RoundsDown(us, Scattered(td, random));
      assert AskedForBye(p, t, share, td);
    }
  }

  lemma ByeFields(p: Params, s: Timer, packetsize: nat, members: int, now: nat)
    ensures var t := ByeStarted(p, s, packetsize, members, now);
            && t.byescheduled && t.sendbyenow == (p.immediatebye && members < 50) && t.prevrtcptime == now
            && t.byemembers == 1 && t.avgbyepacketsize == packetsize + s.headeroverhead
  {}
}
