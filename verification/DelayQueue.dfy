/** The delta-encoded list of timers and the plain queue of deadlines that it stands for. */
module DelayList {
  import opened TimeArithmetic

  /** The sum of the first `k` deltas. */
  function Prefix(ds: seq<nat>, k: nat): nat
    requires k <= |ds|
  {
    if k == 0 then 0 else Prefix(ds, k - 1) + ds[k - 1]
  }

  function Total(ds: seq<nat>): nat {
    Prefix(ds, |ds|)
  }

  /** When each timer is due; the last delta belongs to the sentinel. */
  function Deadlines(last: int, ds: seq<nat>): (r: seq<int>)
    requires |ds| > 0
    ensures |r| == |ds| - 1 && forall k :: 0 <= k < |r| ==> r[k] == last + Prefix(ds, k + 1)
  {
    seq(|ds| - 1, k requires 0 <= k < |ds| - 1 => last + Prefix(ds, k + 1))
  }

  lemma PrefixStep(ds: seq<nat>, k: nat)
    requires k < |ds|
    ensures Prefix(ds, 0) == 0 && Prefix(ds, k + 1) == Prefix(ds, k) + ds[k]
  {}

  lemma {:induction false} PrefixMonotone(ds: seq<nat>, i: nat, j: nat)
    requires i <= j <= |ds|
    ensures Prefix(ds, i) <= Prefix(ds, j)
    decreases j
  {
    if i < j {
      PrefixMonotone(ds, i, j - 1);
    }
  }

  // ----- a new delta `d` in front of position `i`

  function Inserted(ds: seq<nat>, i: nat, d: nat): (r: seq<nat>)
    requires i < |ds| && d <= ds[i]
    ensures |r| == |ds| + 1
  {
    ds[..i] + [d, ds[i] - d] + ds[i + 1..]
  }

  lemma {:induction false} PrefixInserted(ds: seq<nat>, i: nat, d: nat, k: nat)
    requires i < |ds| && d <= ds[i] && k <= |ds| + 1
    ensures Prefix(Inserted(ds, i, d), k) ==
              if k <= i then Prefix(ds, k) else if k == i + 1 then Prefix(ds, i) + d else Prefix(ds, k - 1)
  {
    var ds' := Inserted(ds, i, d);
    if k > 0 {
      PrefixInserted(ds, i, d, k - 1);
    }
  }

  // ----- the delta at position `k` given to its successor

  function Removed(ds: seq<nat>, k: nat): (r: seq<nat>)
    requires k + 1 < |ds|
    ensures |r| == |ds| - 1
  {
    ds[..k] + [ds[k] + ds[k + 1]] + ds[k + 2..]
  }

  lemma {:induction false} PrefixRemoved(ds: seq<nat>, k: nat, j: nat)
    requires k + 1 < |ds| && j < |ds|
    ensures Prefix(Removed(ds, k), j) == if j <= k then Prefix(ds, j) else Prefix(ds, j + 1)
  {
    if j > 0 {
      PrefixRemoved(ds, k, j - 1);
    }
  }

  // ----- `t` taken off the front, up to within position `i`

  function Advanced(ds: seq<nat>, i: nat, rest: nat): (r: seq<nat>)
    requires i < |ds| && rest <= ds[i]
    ensures |r| == |ds|
    ensures forall k :: 0 <= k < |ds| ==> r[k] == if k < i then 0 else if k == i then ds[i] - rest else ds[k]
  {
    seq(|ds|, k requires 0 <= k < |ds| => if k < i then 0 else if k == i then ds[i] - rest else ds[k])
  }

  lemma {:induction false} PrefixAdvanced(ds: seq<nat>, i: nat, rest: nat, k: nat)
    requires i < |ds| && rest <= ds[i] && k <= |ds|
    ensures var t := Prefix(ds, i) + rest;
            Prefix(Advanced(ds, i, rest), k) == if Prefix(ds, k) >= t then Prefix(ds, k) - t else 0
  {
    if k > 0 {
      PrefixAdvanced(ds, i, rest, k - 1);
      if k <= i {
        PrefixMonotone(ds, k, i);
      } else if k > i + 1 {
        PrefixMonotone(ds, i + 1, k - 1);
      }
    }
  }

  // ----- the effect on deadlines

  /** Deadlines after a clock reading: the overdue move up to now; if the clock jumped, all keep their distance. */
  function Synced(deadlines: seq<int>, last: int, now: int): (r: seq<int>)
    ensures |r| == |deadlines|
    ensures forall k :: 0 <= k < |r| ==>
              r[k] == if Jumps(last, now) then deadlines[k] - last + now
                      else if deadlines[k] > now then deadlines[k] else now
  {
    seq(|deadlines|, k requires 0 <= k < |deadlines| =>
      if Jumps(last, now) then deadlines[k] - last + now else if deadlines[k] > now then deadlines[k] else now)
  }

  lemma DeadlinesAdvanced(ds: seq<nat>, i: nat, rest: nat, last: int, now: int)
    requires i < |ds| && rest <= ds[i] && !Jumps(last, now) && now == last + Prefix(ds, i) + rest
    ensures Deadlines(now, Advanced(ds, i, rest)) == Synced(Deadlines(last, ds), last, now)
  {
    hide Advanced, Prefix;
    var a, b := Deadlines(now, Advanced(ds, i, rest)), Synced(Deadlines(last, ds), last, now);
    forall k | 0 <= k < |a|
      ensures a[k] == b[k]
    {
      PrefixAdvanced(ds, i, rest, k + 1);
    }
  }

  lemma SyncedNow(last: int, ds: seq<nat>)
    requires |ds| > 0
    ensures Synced(Deadlines(last, ds), last, last) == Deadlines(last, ds)
  {}

  lemma DeadlinesShifted(ds: seq<nat>, last: int, now: int)
    requires |ds| > 0 && Jumps(last, now)
    ensures Deadlines(now, ds) == Synced(Deadlines(last, ds), last, now)
  {}

  lemma AdvancedByNothing(ds: seq<nat>, i: nat)
    requires i < |ds| && Prefix(ds, i) == 0
    ensures Advanced(ds, i, 0) == ds
  {
    forall k | 0 <= k < i
      ensures ds[k] == 0
    {
      PrefixStep(ds, k);
      PrefixMonotone(ds, k + 1, i);
    }
  }

  /** What the loop of synchronize does, when it stops at position `i`, to the deadlines and to the sum. */
  lemma SpentAdvances(ds: seq<nat>, i: nat, rest: nat, last: int, now: int)
    requires i < |ds| && rest <= ds[i] && now >= last && Prefix(ds, i) + rest == Spent(last, now)
    ensures var r := Advanced(ds, i, rest);
            Deadlines(now, r) == Synced(Deadlines(last, ds), last, now) && Total(r) == Total(ds) - Spent(last, now)
  {
    hide Advanced, Prefix, Synced, Deadlines, Total;
    TotalAdvanced(ds, i, rest);
    if Jumps(last, now) {
      AdvancedByNothing(ds, i);
      DeadlinesShifted(ds, last, now);
    } else {
      DeadlinesAdvanced(ds, i, rest, last, now);
    }
  }

  lemma DeadlinesInserted(last: int, ds: seq<nat>, i: nat, d: nat)
    requires i < |ds| && d <= ds[i]
    ensures var D := Deadlines(last, ds);
            Deadlines(last, Inserted(ds, i, d)) == D[..i] + [last + Prefix(ds, i) + d] + D[i..]
  {
    hide Inserted, Prefix, Deadlines;
    var D := Deadlines(last, ds);
    var a, b := Deadlines(last, Inserted(ds, i, d)), D[..i] + [last + Prefix(ds, i) + d] + D[i..];
    forall k | 0 <= k < |a|
      ensures a[k] == b[k]
    {
      PrefixInserted(ds, i, d, k + 1);
      assert b[k] == if k < i then D[k] else if k == i then last + Prefix(ds, i) + d else D[k - 1];
    }
  }

  lemma DeadlinesRemoved(last: int, ds: seq<nat>, k: nat)
    requires k + 1 < |ds|
    ensures var D := Deadlines(last, ds);
            Deadlines(last, Removed(ds, k)) == D[..k] + D[k + 1..]
  {
    hide Removed, Prefix, Deadlines;
    var D := Deadlines(last, ds);
    var a, b := Deadlines(last, Removed(ds, k)), D[..k] + D[k + 1..];
    forall j | 0 <= j < |a|
      ensures a[j] == b[j]
    {
      PrefixRemoved(ds, k, j + 1);
    }
  }

  lemma TotalInserted(ds: seq<nat>, i: nat, d: nat)
    requires i < |ds| && d <= ds[i]
    ensures Total(Inserted(ds, i, d)) == Total(ds)
  {
    PrefixInserted(ds, i, d, |ds| + 1);
  }

  lemma TotalRemoved(ds: seq<nat>, k: nat)
    requires k + 1 < |ds|
    ensures Total(Removed(ds, k)) == Total(ds)
  {
    PrefixRemoved(ds, k, |ds| - 1);
  }

  lemma TotalAdvanced(ds: seq<nat>, i: nat, rest: nat)
    requires i < |ds| && rest <= ds[i]
    ensures Total(Advanced(ds, i, rest)) == Total(ds) - (Prefix(ds, i) + rest)
  {
    PrefixAdvanced(ds, i, rest, |ds|);
    PrefixMonotone(ds, i + 1, |ds|);
  }

  lemma ElementBelowTotal(ds: seq<nat>, i: nat)
    requires i < |ds|
    ensures Prefix(ds, i) + ds[i] <= Total(ds)
  {
    PrefixMonotone(ds, i + 1, |ds|);
  }

  /** A deadline inserted strictly inside a gap keeps the list sorted, after its equals, and is within the total. */
  lemma PlaceOfDeadline(last: int, ds: seq<nat>, i: nat, d: nat)
    requires i < |ds| && d < ds[i]
    ensures var D := Deadlines(last, ds);
            && (forall k :: 0 <= k < i ==> D[k] <= last + Prefix(ds, i) + d)
            && (forall k :: i <= k < |D| ==> last + Prefix(ds, i) + d < D[k])
    ensures Prefix(ds, i) + d < Total(ds)
  {
    hide Prefix;
    var D := Deadlines(last, ds);
    PrefixStep(ds, i);
    forall k | 0 <= k < |D|
      ensures if k < i then D[k] <= last + Prefix(ds, i) + d else last + Prefix(ds, i) + d < D[k]
    {
      if k < i {
        PrefixMonotone(ds, k + 1, i);
      } else {
        PrefixMonotone(ds, i + 1, k + 1);
      }
    }
    PrefixMonotone(ds, i + 1, |ds|);
  }

  /** Deadlines never decrease along the list. */
  lemma DeadlinesSorted(last: int, ds: seq<nat>)
    requires |ds| > 0
    ensures forall j, k :: 0 <= j <= k < |ds| - 1 ==> last <= Deadlines(last, ds)[j] <= Deadlines(last, ds)[k]
  {
    forall j, k | 0 <= j <= k < |ds| - 1
      ensures last <= Deadlines(last, ds)[j] <= Deadlines(last, ds)[k]
    {
      PrefixMonotone(ds, j + 1, k + 1);
    }
  }

  /** The position behind every deadline that is not later. */
  function Place(D: seq<int>, d: int): (p: nat)
    ensures p <= |D| && (forall k :: 0 <= k < p ==> D[k] <= d) && (p < |D| ==> D[p] > d)
  {
    if D == [] || D[0] > d then 0 else 1 + Place(D[1..], d)
  }

  lemma PlaceIsOnlyPlace(D: seq<int>, d: int, p: nat)
    requires p <= |D| && (forall k :: 0 <= k < p ==> D[k] <= d) && (p < |D| ==> D[p] > d)
    ensures Place(D, d) == p
  {
    hide Place;
  }

  // ----- the loop of synchronize on the circular list, for any two readings of the clock

  predicate AllNormal(ts: seq<Timeval>) {
    forall k :: 0 <= k < |ts| ==> ts[k].Normal()
  }

  /** Deltas in microseconds. */
  function Lengths(ts: seq<Timeval>): (r: seq<nat>)
    requires AllNormal(ts)
    ensures |r| == |ts|
  {
    seq(|ts|, k requires 0 <= k < |ts| => ts[k].Micros())
  }

  /** The deltas and what is left of the elapsed time after `n` rounds, round n at position n modulo the length. */
  function Rounds(ts: seq<Timeval>, t: Timeval, n: nat): (r: (seq<Timeval>, Timeval))
    requires |ts| > 0
    ensures |r.0| == |ts|
  {
    if n == 0 then (ts, t)
    else
      var (d, left) := Rounds(ts, t, n - 1);
      (d[(n - 1) % |ts| := DELAY_ZERO], Minus(left, d[(n - 1) % |ts|]))
  }

  /** The loop is left before round `n`. */
  predicate Leaves(ts: seq<Timeval>, t: Timeval, n: nat)
    requires |ts| > 0
  {
    var (d, left) := Rounds(ts, t, n);
    !AtLeast(left, d[n % |ts|])
  }

  /** The loop of synchronize stops if and only if the elapsed time, as it is measured, is below the sum. */
  lemma SynchronizeStops(ts: seq<Timeval>, last: Timeval, now: Timeval)
    requires |ts| > 0 && AllNormal(ts) && last.Event() && now.Event() && AtLeast(now, last)
    ensures (exists n: nat :: Leaves(ts, Minus(now, last), n)) <==>
              Spent(last.Micros(), now.Micros()) < Total(Lengths(ts))
  {
    hide Minus, AtLeast, Total, Lengths, Leaves, Spent;
    AtLeastIsOrder(now, last);
    ElapsedIsSpent(now, last);
    var t := Minus(now, last);
    if t.Micros() < Total(Lengths(ts)) {
      var n := LeavesBelowTotal(ts, t);
    } else {
      forall n: nat
        ensures !Leaves(ts, t, n)
      {
        NeverLeaves(ts, t, n);
      }
    }
  }

  lemma LeavesBelowTotal(ts: seq<Timeval>, t: Timeval) returns (n: nat)
    requires |ts| > 0 && AllNormal(ts) && t.Normal() && t.Micros() <= ETERNITY.Micros()
    requires t.Micros() < Total(Lengths(ts))
    ensures Leaves(ts, t, n)
  {
    hide Minus, AtLeast, Rounds, Prefix, Lengths;
    n := StopsBeforeTotal(Lengths(ts), t.Micros(), |ts|);
    PrefixStep(Lengths(ts), n);
    LengthAt(ts, n);
    FirstRounds(ts, t, n);
    var (d, left) := Rounds(ts, t, n);
    AtLeastIsOrder(left, d[n]);
  }

  lemma {:induction false} StopsBeforeTotal(ds: seq<nat>, t: nat, n: nat) returns (i: nat)
    requires n <= |ds| && t < Prefix(ds, n)
    ensures i < n && Prefix(ds, i) <= t < Prefix(ds, i + 1)
  {
    if t >= Prefix(ds, n - 1) {
      i := n - 1;
    } else {
      i := StopsBeforeTotal(ds, t, n - 1);
    }
  }

  lemma RoundStep(ts: seq<Timeval>, t: Timeval, n: nat)
    requires n < |ts|
    ensures var (d, left) := Rounds(ts, t, n);
            Rounds(ts, t, n + 1) == (d[n := DELAY_ZERO], Minus(left, d[n]))
  {
    assert n % |ts| == n;
  }

  /** Before the sentinel is passed the rounds spend delta after delta. */
  lemma {:induction false} FirstRounds(ts: seq<Timeval>, t: Timeval, n: nat)
    requires n < |ts| && AllNormal(ts) && t.Normal() && Prefix(Lengths(ts), n) <= t.Micros() <= ETERNITY.Micros()
    ensures var (d, left) := Rounds(ts, t, n);
            && (forall k :: n <= k < |ts| ==> d[k] == ts[k])
            && left.Normal() && left.Micros() == t.Micros() - Prefix(Lengths(ts), n)
  {
    if n == 0 {
      PrefixStep(Lengths(ts), 0);
    } else {
      hide Minus, Prefix, Timeval.Micros, Timeval.Normal, Lengths, Rounds;
      PrefixStep(Lengths(ts), n - 1);
      LengthAt(ts, n - 1);
      FirstRounds(ts, t, n - 1);
      RoundStep(ts, t, n - 1);
      MinusSubtracts(Rounds(ts, t, n - 1).1, ts[n - 1]);
    }
  }

  lemma LengthAt(ts: seq<Timeval>, k: nat)
    requires AllNormal(ts) && k < |ts|
    ensures Lengths(ts)[k] == ts[k].Micros() && ts[k].Normal()
  {}

  /** With the whole sum or more to spend, the loop goes on after every round. */
  lemma {:induction false} NeverLeaves(ts: seq<Timeval>, t: Timeval, n: nat)
    requires |ts| > 0 && AllNormal(ts) && t.Normal() && Total(Lengths(ts)) <= t.Micros() <= ETERNITY.Micros()
    ensures !Leaves(ts, t, n)
    ensures var (d, left) := Rounds(ts, t, n);
            && AllNormal(d) && left.Normal() && left.Micros() <= ETERNITY.Micros()
            && left.Micros() - Total(Lengths(d)) == t.Micros() - Total(Lengths(ts))
  {
    hide Minus, AtLeast, Total;
    if n > 0 {
      NeverLeaves(ts, t, n - 1);
      var (d, left) := Rounds(ts, t, n - 1);
      var at := (n - 1) % |ts|;
      ElementBelowTotal(Lengths(d), at);
      MinusSubtracts(left, d[at]);
      ZeroedTotal(Lengths(d), at);
      assert Lengths(d[at := DELAY_ZERO]) == Lengths(d)[at := 0];
    }
    var (d, left) := Rounds(ts, t, n);
    ElementBelowTotal(Lengths(d), n % |ts|);
    AtLeastIsOrder(left, d[n % |ts|]);
  }

  lemma {:induction false} ZeroedPrefix(ds: seq<nat>, at: nat, k: nat)
    requires at < |ds| && k <= |ds|
    ensures Prefix(ds[at := 0], k) == Prefix(ds, k) - if at < k then ds[at] else 0
  {
    if k > 0 {
      ZeroedPrefix(ds, at, k - 1);
    }
  }

  lemma ZeroedTotal(ds: seq<nat>, at: nat)
    requires at < |ds|
    ensures Total(ds[at := 0]) == Total(ds) - ds[at]
  {
    ZeroedPrefix(ds, at, |ds|);
  }
}

module DelayQueue {
  import opened Basics
  import opened TimeArithmetic
  import opened DelayList

  class DelayQueueEntry {
    var fNext: DelayQueueEntry?
    var fPrev: DelayQueueEntry?
    var fDeltaTimeRemaining: Timeval
    const fToken: nat

    constructor (delay: Timeval, token: nat)
      ensures fDeltaTimeRemaining == delay && fToken == token && fNext == this && fPrev == this
    {
      fDeltaTimeRemaining := delay;
      fToken := token;
      fNext, fPrev := this, this;
    }
  }

  predicate AllDistinct<T(==)>(s: seq<T>) {
    forall i, j :: 0 <= i < j < |s| ==> s[i] != s[j]
  }

  lemma DistinctWith<T>(s: seq<T>, i: nat, x: T)
    requires AllDistinct(s) && x !in s && i <= |s|
    ensures var r := s[..i] + [x] + s[i..];
            && AllDistinct(r) && |r| == |s| + 1
            && forall k :: 0 <= k < |r| ==> r[k] == if k < i then s[k] else if k == i then x else s[k - 1]
  {}

  lemma DistinctWithout<T>(s: seq<T>, i: nat)
    requires AllDistinct(s) && i < |s|
    ensures var r := s[..i] + s[i + 1..];
            && AllDistinct(r) && |r| == |s| - 1 && s[i] !in r
            && forall k :: 0 <= k < |r| ==> r[k] == if k < i then s[k] else s[k + 1]
  {}

  lemma DistinctFrom<T>(s: seq<T>, i: nat)
    requires AllDistinct(s) && i < |s|
    ensures forall k :: 0 <= k < |s| && k != i ==> s[k] != s[i]
  {}

  class DelayQueue {
    /** The list entry that the queue object itself is. */
    const sentinel: DelayQueueEntry
    var fLastSyncTime: Timeval
    /** The circular list from head() round to the sentinel, and its deltas in microseconds. */
    ghost var ring: seq<DelayQueueEntry>
    ghost var deltas: seq<nat>

    ghost predicate Linked()
      reads this`ring, ring`fNext, ring`fPrev
    {
      && |ring| > 0 && ring[|ring| - 1] == sentinel && AllDistinct(ring)
      && sentinel.fNext == ring[0]
      && ring[0].fPrev == sentinel
      && (forall i {:trigger ring[i].fNext} :: 0 <= i < |ring| - 1 ==> ring[i].fNext == ring[i + 1])
      && (forall i {:trigger ring[i].fPrev} :: 0 < i < |ring| ==> ring[i].fPrev == ring[i - 1])
    }

    ghost predicate Timed()
      reads this, ring`fDeltaTimeRemaining
    {
      && |deltas| == |ring| > 0
      && (forall i :: 0 <= i < |ring| ==>
         ring[i].fDeltaTimeRemaining.Normal() && ring[i].fDeltaTimeRemaining.Micros() == deltas[i])
      && deltas[|ring| - 1] > 0
      && Total(deltas) <= ETERNITY.Micros()
      && fLastSyncTime.Event()
    }

    ghost predicate Valid()
      reads this, ring
    {
      Linked() && Timed()
    }

    ghost function Last(): int
      reads this
    {
      fLastSyncTime.Micros()
    }

    /** The plain queue: when each entry is due, in list order. */
    ghost function Due(): seq<int>
      requires |deltas| > 0
      reads this
    {
      Deadlines(Last(), deltas)
    }

    /** The loop of synchronize stops for this clock reading (SynchronizeStops). */
    ghost predicate ClockOk(now: Timeval)
      reads this
    {
      now.Event() && Spent(Last(), now.Micros()) < Total(deltas)
    }

    constructor (now: Timeval)
      requires now.Event()
      ensures Valid() && fLastSyncTime == now && ring == [sentinel] && fresh(sentinel)
      ensures deltas == [ETERNITY.Micros()]
    {
      var s := new DelayQueueEntry(ETERNITY, 0);
      sentinel := s;
      fLastSyncTime := now;
      ring := [s];
      deltas := [ETERNITY.Micros()];
      new;
      assert Prefix(deltas, 1) == Prefix(deltas, 0) + deltas[0];
    }

    method Synchronize(timeNow: Timeval)
      requires Valid() && ClockOk(timeNow)
      modifies this`fLastSyncTime, this`deltas, ring`fDeltaTimeRemaining
      ensures Valid() && fLastSyncTime == timeNow
      ensures Due() == Synced(old(Due()), old(Last()), timeNow.Micros())
      ensures Total(deltas) == old(Total(deltas)) - Spent(old(Last()), timeNow.Micros())
    {
      hide Prefix, Minus, AtLeast, Advanced, Deadlines, Synced, Total, Linked, Spent, Jumps;
      AtLeastIsOrder(timeNow, fLastSyncTime);
      if !AtLeast(timeNow, fLastSyncTime) {
        BackIsJump(Last(), timeNow.Micros());
        DeadlinesShifted(deltas, Last(), timeNow.Micros());
        fLastSyncTime := timeNow;
      } else {
        ElapsedIsSpent(timeNow, fLastSyncTime);
        var timeSinceLastSync := Minus(timeNow, fLastSyncTime);
        ghost var rest, i := SpendTime(timeSinceLastSync);
        SpentAdvances(deltas, i, rest, Last(), timeNow.Micros());
        fLastSyncTime := timeNow;
        deltas := Advanced(deltas, i, rest);
      }
    }

    /** The loop of synchronize: `i` is the position at which it stops. */
    method SpendTime(elapsed: Timeval) returns (ghost rest: nat, ghost i: nat)
      requires Valid() && elapsed.Normal() && elapsed.Micros() < Total(deltas)
      modifies ring`fDeltaTimeRemaining
      ensures Linked() && i < |ring| && rest < deltas[i] && Prefix(deltas, i) + rest == elapsed.Micros()
      ensures forall k :: 0 <= k < |ring| ==>
                && ring[k].fDeltaTimeRemaining.Normal()
                && ring[k].fDeltaTimeRemaining.Micros() == Advanced(deltas, i, rest)[k]
    {
      hide Minus, AtLeast, Advanced, Prefix;
      var timeSinceLastSync := elapsed;
      var curEntry := sentinel.fNext;
      i, rest := 0, elapsed.Micros();
      PrefixStep(deltas, 0);
      AtLeastIsOrder(timeSinceLastSync, curEntry.fDeltaTimeRemaining);
      while AtLeast(timeSinceLastSync, curEntry.fDeltaTimeRemaining)
        invariant i < |ring| && curEntry == ring[i] && Linked()
        invariant timeSinceLastSync.Normal()
        invariant timeSinceLastSync.Micros() == rest == elapsed.Micros() - Prefix(deltas, i)
        invariant AtLeast(timeSinceLastSync, curEntry.fDeltaTimeRemaining) <==> rest >= deltas[i]
        invariant forall k :: 0 <= k < |ring| ==>
                    && ring[k].fDeltaTimeRemaining.Normal()
                    && ring[k].fDeltaTimeRemaining.Micros() == if k < i then 0 else deltas[k]
        decreases |ring| - i
      {
        PrefixStep(deltas, i);
        ElementBelowTotal(deltas, i);
        MinusSubtracts(timeSinceLastSync, curEntry.fDeltaTimeRemaining);
        timeSinceLastSync := Minus(timeSinceLastSync, curEntry.fDeltaTimeRemaining);
        curEntry.fDeltaTimeRemaining := DELAY_ZERO;
        curEntry := curEntry.fNext;
        rest := rest - deltas[i];
        i := i + 1;
        AtLeastIsOrder(timeSinceLastSync, curEntry.fDeltaTimeRemaining);
      }
      ElementBelowTotal(deltas, i);
      MinusSubtracts(curEntry.fDeltaTimeRemaining, timeSinceLastSync);
      curEntry.fDeltaTimeRemaining := Minus(curEntry.fDeltaTimeRemaining, timeSinceLastSync);
    }

    /** The loop of addEntry. Passing the sentinel, it goes round again. */
    method FindPlace(newEntry: DelayQueueEntry) returns (cur: DelayQueueEntry, ghost i: nat)
      requires Valid() && newEntry !in ring && newEntry.fDeltaTimeRemaining.Normal()
      modifies newEntry`fDeltaTimeRemaining
      ensures i < |ring| && cur == ring[i] && newEntry.fDeltaTimeRemaining.Normal()
      ensures newEntry.fDeltaTimeRemaining.Micros() < deltas[i]
      ensures old(newEntry.fDeltaTimeRemaining).Micros() < Total(deltas) ==>
                Prefix(deltas, i) + newEntry.fDeltaTimeRemaining.Micros() == old(newEntry.fDeltaTimeRemaining).Micros()
    {
      hide Minus, AtLeast, Prefix;
      ghost var delay := newEntry.fDeltaTimeRemaining.Micros();
      ghost var wrapped := false;
      cur := sentinel.fNext;
      i := 0;
      PrefixStep(deltas, 0);
      AtLeastIsOrder(newEntry.fDeltaTimeRemaining, cur.fDeltaTimeRemaining);
      while AtLeast(newEntry.fDeltaTimeRemaining, cur.fDeltaTimeRemaining)
        invariant i < |ring| && cur == ring[i] && newEntry.fDeltaTimeRemaining.Normal()
        invariant AtLeast(newEntry.fDeltaTimeRemaining, cur.fDeltaTimeRemaining) <==>
                    newEntry.fDeltaTimeRemaining.Micros() >= deltas[i]
        invariant if wrapped then delay >= Total(deltas)
                  else delay < Total(deltas) ==> Prefix(deltas, i) + newEntry.fDeltaTimeRemaining.Micros() == delay
        invariant newEntry.fDeltaTimeRemaining.Micros() <= delay
        decreases newEntry.fDeltaTimeRemaining.Micros(), |ring| - i
      {
        PrefixStep(deltas, i);
        ElementBelowTotal(deltas, i);
        MinusSubtracts(newEntry.fDeltaTimeRemaining, cur.fDeltaTimeRemaining);
        newEntry.fDeltaTimeRemaining := Minus(newEntry.fDeltaTimeRemaining, cur.fDeltaTimeRemaining);
        cur := cur.fNext;
        if i == |ring| - 1 {
          wrapped, i := true, 0;
        } else {
          i := i + 1;
        }
        AtLeastIsOrder(newEntry.fDeltaTimeRemaining, cur.fDeltaTimeRemaining);
      }
    }

    lemma Distinct()
      requires Linked()
      ensures forall i, j :: 0 <= i < j < |ring| ==> ring[i] != ring[j]
    {}

    /** Links `newEntry` in front of `cur`, which gives up the time that `newEntry` waits. */
    method LinkBefore(newEntry: DelayQueueEntry, cur: DelayQueueEntry, ghost i: nat)
      requires Valid() && newEntry !in ring && i < |ring| && cur == ring[i]
      requires newEntry.fDeltaTimeRemaining.Normal() && newEntry.fDeltaTimeRemaining.Micros() < deltas[i]
      modifies this`ring, this`deltas, ring, newEntry
      ensures Valid()
      ensures ring == old(ring)[..i] + [newEntry] + old(ring)[i..]
      ensures deltas == Inserted(old(deltas), i, old(newEntry.fDeltaTimeRemaining.Micros()))
    {
      hide Minus, Prefix, Total, Timeval.Event, Linked;
      Distinct();
      ghost var d := newEntry.fDeltaTimeRemaining.Micros();
      ElementBelowTotal(deltas, i);
      MinusSubtracts(cur.fDeltaTimeRemaining, newEntry.fDeltaTimeRemaining);
      cur.fDeltaTimeRemaining := Minus(cur.fDeltaTimeRemaining, newEntry.fDeltaTimeRemaining);
      TotalInserted(deltas, i, d);
      LinkNodes(newEntry, cur, i);
      deltas := Inserted(deltas, i, d);
    }

    method LinkNodes(newEntry: DelayQueueEntry, cur: DelayQueueEntry, ghost i: nat)
      requires Linked() && newEntry !in ring && i < |ring| && cur == ring[i]
      modifies this`ring, ring`fNext, ring`fPrev, newEntry`fNext, newEntry`fPrev
      ensures Linked() && ring == old(ring)[..i] + [newEntry] + old(ring)[i..]
    {
      hide AllDistinct;
      ghost var was, before := ring, if i > 0 then i - 1 else |ring| - 1;
      DistinctFrom(was, i);
      DistinctFrom(was, before);
      DistinctWith(was, i, newEntry);
      newEntry.fNext := cur;
      newEntry.fPrev := cur.fPrev;
      newEntry.fPrev.fNext := newEntry;
      cur.fPrev := newEntry;
      ring := ring[..i] + [newEntry] + ring[i..];
      LinksWith(was, i, newEntry, ring);
    }

    /** Links around one new entry are those of the list with it. */
    lemma LinksWith(was: seq<DelayQueueEntry>, i: nat, x: DelayQueueEntry, r: seq<DelayQueueEntry>)
      requires i < |was| && r == was[..i] + [x] + was[i..] && x.fNext == was[i] && was[i].fPrev == x
      requires forall k {:trigger was[k].fNext} :: 0 <= k < |was| - 1 ==>
                 was[k].fNext == if k == i - 1 then x else was[k + 1]
      requires forall k {:trigger was[k].fPrev} :: 0 < k < |was| ==> was[k].fPrev == if k == i then x else was[k - 1]
      requires i > 0 ==> x.fPrev == was[i - 1]
      ensures forall k {:trigger r[k].fNext} :: 0 <= k < |r| - 1 ==> r[k].fNext == r[k + 1]
      ensures forall k {:trigger r[k].fPrev} :: 0 < k < |r| ==> r[k].fPrev == r[k - 1]
    {}

    /** The new entry is due after its delay exactly when the delay is below what the sentinel has left in total. */
    method AddEntry(newEntry: DelayQueueEntry, timeNow: Timeval) returns (ghost p: nat)
      requires Valid() && ClockOk(timeNow) && newEntry !in ring && newEntry.fDeltaTimeRemaining.Normal()
      modifies this`fLastSyncTime, this`ring, this`deltas, ring, newEntry
      ensures Valid() && fLastSyncTime == timeNow && p < |old(ring)| == |Due()|
      ensures ring == With(old(ring), p, newEntry)
      ensures Total(deltas) == old(Total(deltas)) - Spent(old(Last()), timeNow.Micros())
      ensures var others := Synced(old(Due()), old(Last()), timeNow.Micros());
              && Due() == With(others, p, Due()[p])
              && (old(newEntry.fDeltaTimeRemaining.Micros()) < Total(deltas) ==>
                    p == Place(others, timeNow.Micros() + old(newEntry.fDeltaTimeRemaining.Micros())))
      ensures timeNow.Micros() <= Due()[p] < timeNow.Micros() + Total(deltas)
      ensures (Due()[p] == timeNow.Micros() + old(newEntry.fDeltaTimeRemaining.Micros()))
              <==> (old(newEntry.fDeltaTimeRemaining.Micros()) < Total(deltas))
    {
      hide Deadlines, Prefix, Synced, Total, Place;
      Synchronize(timeNow);
      ghost var ds := deltas;
      var cur;
      cur, p := FindPlace(newEntry);
      ghost var d := newEntry.fDeltaTimeRemaining.Micros();
      LinkBefore(newEntry, cur, p);
      DeadlinesInserted(Last(), ds, p, d);
      TotalInserted(ds, p, d);
      PlaceOfDeadline(Last(), ds, p, d);
      PlaceIsOnlyPlace(Deadlines(Last(), ds), Last() + Prefix(ds, p) + d, p);
    }

    /** Taking an entry out gives its delta to its successor, so no other entry moves. */
    method RemoveEntry(entry: DelayQueueEntry?) returns (ghost k: nat)
      requires Valid()
      requires entry == null || (entry.fNext == null && entry !in ring) || (entry in ring && entry != sentinel)
      modifies this`ring, this`deltas, ring, if entry == null then {} else {entry}
      ensures Valid() && Total(deltas) == old(Total(deltas))
      ensures entry !in ring && (entry != null ==> entry.fNext == null)
      ensures if entry in old(ring)
              then && k < |old(ring)| - 1 && old(ring)[k] == entry
                   && ring == Without(old(ring), k) && Due() == Without(old(Due()), k)
              else ring == old(ring) && deltas == old(deltas)
    {
      hide Prefix, Total, Deadlines, Timed;
      LinkedHasNext();
      k := 0;
      if entry != null && entry.fNext != null {
        k := PositionOf(entry);
        RemoveAt(entry, k);
      }
    }

    lemma LinkedHasNext()
      requires Linked()
      ensures forall e :: e in ring ==> e.fNext != null
    {
      forall i | 0 <= i < |ring|
        ensures ring[i].fNext != null
      {}
    }

    ghost method PositionOf(entry: DelayQueueEntry) returns (k: nat)
      requires Linked() && entry in ring && entry != sentinel
      ensures k < |ring| - 1 && ring[k] == entry
    {
      k :| 0 <= k < |ring| && ring[k] == entry;
    }

    method RemoveAt(entry: DelayQueueEntry, ghost k: nat)
      requires Valid() && k < |ring| - 1 && ring[k] == entry
      modifies this`ring, this`deltas, ring
      ensures Valid() && Total(deltas) == old(Total(deltas))
      ensures entry.fNext == null && entry !in ring
      ensures ring == old(ring)[..k] + old(ring)[k + 1..] && Due() == old(Due())[..k] + old(Due())[k + 1..]
    {
      hide Prefix, Total, Plus, Deadlines;
      DeadlinesRemoved(Last(), deltas, k);
      TotalRemoved(deltas, k);
      PlusAdds(entry.fNext.fDeltaTimeRemaining, entry.fDeltaTimeRemaining);
      entry.fNext.fDeltaTimeRemaining := Plus(entry.fNext.fDeltaTimeRemaining, entry.fDeltaTimeRemaining);
      UnlinkNodes(entry, k);
      deltas := Removed(deltas, k);
    }

    method UnlinkNodes(entry: DelayQueueEntry, ghost k: nat)
      requires Linked() && k < |ring| - 1 && ring[k] == entry
      modifies this`ring, ring`fNext, ring`fPrev
      ensures Linked() && ring == old(ring)[..k] + old(ring)[k + 1..]
      ensures entry.fNext == null && entry !in ring
    {
      hide AllDistinct;
      ghost var was, before := ring, if k > 0 then k - 1 else |ring| - 1;
      DistinctFrom(was, k + 1);
      DistinctFrom(was, before);
      DistinctWithout(was, k);
      entry.fPrev.fNext := entry.fNext;
      entry.fNext.fPrev := entry.fPrev;
      entry.fNext := null;
      entry.fPrev := null;
      ring := ring[..k] + ring[k + 1..];
      LinksWithout(was, k, ring);
    }

    /** Links past one entry are those of the list without it. */
    lemma LinksWithout(was: seq<DelayQueueEntry>, i: nat, r: seq<DelayQueueEntry>)
      requires i < |was| - 1 && r == was[..i] + was[i + 1..]
      requires forall k {:trigger was[k].fNext} :: 0 <= k < |was| - 1 && k != i ==>
                 was[k].fNext == if k == i - 1 then was[i + 1] else was[k + 1]
      requires forall k {:trigger was[k].fPrev} :: 0 < k < |was| && k != i && (k == i + 1 ==> i > 0) ==>
                 was[k].fPrev == if k == i + 1 then was[i - 1] else was[k - 1]
      ensures forall k {:trigger r[k].fNext} :: 0 <= k < |r| - 1 ==> r[k].fNext == r[k + 1]
      ensures forall k {:trigger r[k].fPrev} :: 0 < k < |r| ==> r[k].fPrev == r[k - 1]
    {}

    /** An entry that is not linked is only added. */
    method UpdateEntry(entry: DelayQueueEntry?, newDelay: Timeval, timeNow: Timeval)
            returns (ghost k: nat, ghost p: nat)
      requires Valid() && ClockOk(timeNow) && newDelay.Normal()
      requires entry == null || (entry.fNext == null && entry !in ring) || (entry in ring && entry != sentinel)
      modifies this`fLastSyncTime, this`ring, this`deltas, ring, if entry == null then {} else {entry}
      ensures Valid()
      ensures entry == null ==> ring == old(ring) && deltas == old(deltas) && fLastSyncTime == old(fLastSyncTime)
      ensures entry in old(ring) ==> k < |old(ring)| - 1 && old(ring)[k] == entry
      ensures entry != null ==>
                var others: seq<DelayQueueEntry> := if entry in old(ring) then Without(old(ring), k) else old(ring);
                var before := if entry in old(ring) then Without(old(Due()), k) else old(Due());
                var D := Synced(before, old(Last()), timeNow.Micros());
                var due := timeNow.Micros() + newDelay.Micros();
                && fLastSyncTime == timeNow
                && Total(deltas) == old(Total(deltas)) - Spent(old(Last()), timeNow.Micros())
                && p < |others| && ring == With<DelayQueueEntry>(others, p, entry)
                && (newDelay.Micros() < Total(deltas) ==> p == Place(D, due) && Due() == With(D, p, due))
    {
      hide Deadlines, Prefix, Total, Linked, Timed, Synced, Place, Spent;
      k, p := 0, 0;
      if entry != null {
        k := RemoveEntry(entry);
        entry.fDeltaTimeRemaining := newDelay;
        p := AddEntry(entry, timeNow);
      }
    }

    /** findEntryByToken, over the list from head() to the sentinel. */
    method FindEntryByToken(tokenToFind: nat) returns (cur: DelayQueueEntry?, ghost k: nat)
      requires Valid()
      ensures k < |ring| && (forall j :: 0 <= j < k ==> ring[j].fToken != tokenToFind)
      ensures if k == |ring| - 1 then cur == null else cur == ring[k] != sentinel && cur.fToken == tokenToFind
    {
      cur := sentinel.fNext;
      k := 0;
      while cur != sentinel && cur.fToken != tokenToFind
        invariant 0 <= k < |ring| && cur == ring[k]
        invariant forall j :: 0 <= j < k ==> ring[j].fToken != tokenToFind
        decreases |ring| - k
      {
        cur := cur.fNext;
        k := k + 1;
      }
      if cur == sentinel {
        cur := null;
      }
    }

    lemma HeadIsDue()
      requires Valid()
      ensures (sentinel.fNext.fDeltaTimeRemaining == DELAY_ZERO) == (deltas[0] == 0)
      ensures deltas[0] == 0 <==> Due() != [] && Due()[0] <= Last()
      ensures |Due()| == |ring| - 1
    {
      PrefixStep(deltas, 0);
    }

    /** The clock reading that timeToNextAlarm and handleAlarm go by: none is taken when an entry is due already. */
    ghost function Reading(timeNow: Timeval): int
      requires |deltas| > 0
      reads this
    {
      if deltas[0] == 0 then Last() else timeNow.Micros()
    }

    method SynchronizeUnlessDue(timeNow: Timeval)
      requires Valid() && (deltas[0] == 0 || ClockOk(timeNow))
      modifies this`fLastSyncTime, this`deltas, ring`fDeltaTimeRemaining
      ensures Valid() && Last() == old(Reading(timeNow))
      ensures Due() == Synced(old(Due()), old(Last()), Last())
      ensures Total(deltas) == old(Total(deltas)) - Spent(old(Last()), Last())
    {
      hide Prefix, Deadlines, Synced, Total;
      HeadIsDue();
      SyncedNow(Last(), deltas);
      if sentinel.fNext.fDeltaTimeRemaining != DELAY_ZERO {
        Synchronize(timeNow);
      }
    }

    method TimeToNextAlarm(timeNow: Timeval) returns (t: Timeval)
      requires Valid() && (deltas[0] == 0 || ClockOk(timeNow))
      modifies this`fLastSyncTime, this`deltas, ring`fDeltaTimeRemaining
      ensures Valid() && Last() == old(Reading(timeNow))
      ensures t.Normal() && t.Micros() == deltas[0] && (ring != [sentinel] ==> Due()[0] == Last() + t.Micros())
      ensures Due() == Synced(old(Due()), old(Last()), Last())
      ensures Total(deltas) == old(Total(deltas)) - Spent(old(Last()), Last())
    {
      hide Synced, Total, Spent;
      SynchronizeUnlessDue(timeNow);
      PrefixStep(deltas, 0);
      t := sentinel.fNext.fDeltaTimeRemaining;
    }

    /** Takes the first entry off the list if it is due; the caller then runs its handler. */
    method HandleAlarm(timeNow: Timeval) returns (due: DelayQueueEntry?)
      requires Valid() && (deltas[0] == 0 || ClockOk(timeNow))
      modifies this`fLastSyncTime, this`ring, this`deltas, ring
      ensures Valid() && due != sentinel && Last() == old(Reading(timeNow))
      ensures Total(deltas) == old(Total(deltas)) - Spent(old(Last()), Last())
      ensures var D := Synced(old(Due()), old(Last()), Last());
              && (due == null <==> D == [] || D[0] > Last())
              && (due == null ==> ring == old(ring) && Due() == D)
              && (due != null ==> due == old(ring)[0] && ring == old(ring)[1..] && Due() == D[1..])
    {
      hide Prefix, Deadlines, Synced, Total, Spent;
      SynchronizeUnlessDue(timeNow);
      HeadIsDue();
      due := null;
      if sentinel.fNext.fDeltaTimeRemaining == DELAY_ZERO {
        due := sentinel.fNext;
        RemoveAt(due, 0);
      }
    }
  }
}
