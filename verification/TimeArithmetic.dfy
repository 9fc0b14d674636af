/** Seconds and microseconds, as the delay queue computes with them. */
module TimeArithmetic {
  import opened Basics

  const INT_MAX := 0x7FFF_FFFF

  /** A time or an interval; seconds and microseconds are C longs. */
  datatype Timeval = Timeval(secs: int, usecs: int) {
    predicate Normal() {
      secs >= 0 && 0 <= usecs < MILLION
    }

    /** What the constructor of an EventTime can hold: its seconds are unsigned. */
    predicate Event() {
      Normal() && secs < 0x1_0000_0000
    }

    function Micros(): int {
      secs * MILLION + usecs
    }
  }

  function FromMicros(micros: nat): (t: Timeval)
    ensures t.Normal() && t.Micros() == micros
  {
    Timeval(micros / MILLION, micros % MILLION)
  }

  const DELAY_ZERO := Timeval(0, 0)
  const ETERNITY := Timeval(INT_MAX, MILLION - 1)

  /** The cast from long to int. */
  function ToInt(x: int): int {
    (x + 0x8000_0000) % 0x1_0000_0000 - 0x8000_0000
  }

  /** operator>= */
  predicate AtLeast(a: Timeval, b: Timeval) {
    a.secs > b.secs || (a.secs == b.secs && a.usecs >= b.usecs)
  }

  /** operator+= */
  function Plus(a: Timeval, b: Timeval): Timeval {
    var usecs := a.usecs + b.usecs;
    if usecs >= MILLION then Timeval(a.secs + b.secs + 1, usecs - MILLION) else Timeval(a.secs + b.secs, usecs)
  }

  /** operator-= and operator-, which give zero when the seconds come out negative as an int. */
  function Minus(a: Timeval, b: Timeval): Timeval {
    var secs, usecs := a.secs - b.secs, a.usecs - b.usecs;
    var r := if ToInt(usecs) < 0 then Timeval(secs - 1, usecs + MILLION) else Timeval(secs, usecs);
    if ToInt(r.secs) < 0 then DELAY_ZERO else r
  }

  lemma AtLeastIsOrder(a: Timeval, b: Timeval)
    requires a.Normal() && b.Normal()
    ensures AtLeast(a, b) <==> a.Micros() >= b.Micros()
  {}

  lemma PlusAdds(a: Timeval, b: Timeval)
    requires a.Normal() && b.Normal()
    ensures Plus(a, b).Normal() && Plus(a, b).Micros() == a.Micros() + b.Micros()
  {}

  /** Subtraction of something not larger: exact up to INT_MAX seconds, beyond that exact or zero. */
  lemma MinusSubtracts(a: Timeval, b: Timeval)
    requires a.Normal() && b.Normal() && a.Micros() >= b.Micros()
    ensures var r := Minus(a, b);
            && r.Normal() && (r.Micros() == a.Micros() - b.Micros() || r == DELAY_ZERO)
            && (a.Micros() - b.Micros() <= ETERNITY.Micros() ==> r.Micros() == a.Micros() - b.Micros())
  {
    var secs, usecs := a.secs - b.secs, a.usecs - b.usecs;
    var r := if usecs < 0 then Timeval(secs - 1, usecs + MILLION) else Timeval(secs, usecs);
    assert ToInt(usecs) == usecs;
    assert r.Micros() == a.Micros() - b.Micros();
    if r.Micros() <= ETERNITY.Micros() {
      assert r.secs <= INT_MAX;
    }
  }

  /** A clock step that subtraction does not measure: back, or forward by more than INT_MAX seconds. */
  predicate Jumps(last: int, now: int) {
    now < last || now - last > ETERNITY.Micros()
  }

  /** The time between two clock readings as synchronize sees it. */
  function Spent(last: int, now: int): nat {
    if Jumps(last, now) then 0 else now - last
  }

  lemma BackIsJump(last: int, now: int)
    requires now < last
    ensures Jumps(last, now) && Spent(last, now) == 0
  {}

  /** Between two event times, subtraction is exact, or gives zero from 2^31 seconds on. */
  lemma ElapsedIsSpent(now: Timeval, last: Timeval)
    requires now.Event() && last.Event() && now.Micros() >= last.Micros()
    ensures Minus(now, last).Normal()
    ensures Minus(now, last).Micros() == Spent(last.Micros(), now.Micros()) <= ETERNITY.Micros()
  {
    MinusSubtracts(now, last);
    if now.Micros() - last.Micros() > ETERNITY.Micros() {
      var secs, usecs := now.secs - last.secs, now.usecs - last.usecs;
      var r := if usecs < 0 then Timeval(secs - 1, usecs + MILLION) else Timeval(secs, usecs);
      assert ToInt(usecs) == usecs;
      assert r.Micros() == now.Micros() - last.Micros();
      assert INT_MAX < r.secs < 0x1_0000_0000;
    }
  }
}
