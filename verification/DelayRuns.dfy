/** Whole runs of the delay queue, on values. */
module DelayRuns {
  import opened Basics
  import opened TimeArithmetic
  import opened DelayList

  /** A scheduled task: its token, the time it was promised for, and how many were put in the queue before it. */
  datatype Timer = Timer(token: nat, due: int, stamp: nat)
  datatype Firing = Firing(timer: Timer, at: int)

  /** The queue as its operations leave it: last synchronization, deadlines, and the deadline of the sentinel (`end`);
      who waits in it, the last token given, how many were put in, the last clock reading, and what has fired. */
  datatype State = State(last: int, deadlines: seq<int>, end: int,
                         timers: seq<Timer>, tokenCounter: nat, stamps: nat, clock: int, log: seq<Firing>)

  datatype Event =
    | Schedule(delay: nat, now: int)
    | Unschedule(token: nat)
    | Update(token: nat, delay: nat, now: int)
    | Alarm(now: int)
    | Look(now: int)

  predicate HeadDue(s: State) {
    s.deadlines != [] && s.deadlines[0] <= s.last
  }

  function Sync(s: State, now: int): State {
    s.(last := now, clock := now, deadlines := Synced(s.deadlines, s.last, now),
       end := if Jumps(s.last, now) then s.end - s.last + now else s.end)
  }

  /** timeToNextAlarm and handleAlarm do not use the clock when a timer is due already. */
  function SyncUnlessDue(s: State, now: int): State {
    if HeadDue(s) then s.(clock := now) else Sync(s, now)
  }

  /** The position of the first timer with a token; |ts| if there is none. */
  function Find(ts: seq<Timer>, token: nat): (k: nat)
    ensures k <= |ts| && (forall j :: 0 <= j < k ==> ts[j].token != token) && (k < |ts| ==> ts[k].token == token)
  {
    if ts == [] || ts[0].token == token then 0 else 1 + Find(ts[1..], token)
  }

  function Dropped(s: State, k: nat): State {
    if k < |s.deadlines| && k < |s.timers|
    then s.(deadlines := Without(s.deadlines, k), timers := Without(s.timers, k)) else s
  }

  /** A timer put in its place, with its due time as its deadline. */
  function Placed(t: State, p: nat, x: Timer): State
    requires p <= |t.timers| == |t.deadlines|
  {
    t.(deadlines := With(t.deadlines, p, x.due), timers := With(t.timers, p, x), stamps := t.stamps + 1)
  }

  /** A timer due `delay` after the present, put behind all that are not later. */
  function Enter(t: State, token: nat, delay: nat): State {
    if |t.timers| != |t.deadlines| then t
    else Placed(t, Place(t.deadlines, t.last + delay), Timer(token, t.last + delay, t.stamps))
  }

  function Fire(t: State): State {
    if HeadDue(t) && t.timers != []
    then t.(deadlines := t.deadlines[1..], timers := t.timers[1..], log := t.log + [Firing(t.timers[0], t.clock)])
    else t
  }

  /** One operation. */
  function Step(s: State, e: Event): State {
    match e
    case Schedule(delay, now) => Enter(Sync(s, now).(tokenCounter := s.tokenCounter + 1), s.tokenCounter + 1, delay)
    case Unschedule(token) => Dropped(s, Find(s.timers, token))
    case Update(token, delay, now) =>
      var k := Find(s.timers, token);
      if k == |s.timers| then s else Enter(Sync(Dropped(s, k), now), token, delay)
    case Alarm(now) => Fire(SyncUnlessDue(s, now))
    case Look(now) => SyncUnlessDue(s, now)
  }

  // ----- what the queue does as told

  /** A clock reading in microseconds. */
  predicate Reading(now: int) {
    0 <= now < 0x1_0000_0000 * MILLION
  }

  /** synchronize ends. */
  predicate ClockOk(s: State, now: int) {
    Reading(now) && Spent(s.last, now) < s.end - s.last
  }

  /** The sentinel's deadline is the present plus what is left of the sum. */
  lemma SyncEnd(s: State, now: int)
    ensures Sync(s, now).end == now + (s.end - s.last) - Spent(s.last, now)
  {}

  /** Clock readings for which the loop of synchronize ends, and delays that do not reach round the sentinel. */
  predicate Served(s: State, e: Event) {
    match e
    case Schedule(delay, now) => ClockOk(s, now) && now + delay < Sync(s, now).end
    case Unschedule(_) => true
    case Update(token, delay, now) =>
      Reading(now) && (Find(s.timers, token) == |s.timers| || (ClockOk(s, now) && now + delay < Sync(s, now).end))
    case Alarm(now) => Reading(now) && (HeadDue(s) || ClockOk(s, now))
    case Look(now) => Reading(now) && (HeadDue(s) || ClockOk(s, now))
  }

  predicate NoJump(s: State, now: int) {
    s.clock <= now && !Jumps(s.last, now)
  }

  /** The clock does not go back, nor forward by 68 years at once. */
  predicate Monotone(s: State, e: Event) {
    match e
    case Unschedule(_) => true
    case Schedule(_, now) => NoJump(s, now)
    case Update(_, _, now) => NoJump(s, now)
    case Alarm(now) => s.clock <= now && (HeadDue(s) || NoJump(s, now))
    case Look(now) => s.clock <= now && (HeadDue(s) || NoJump(s, now))
  }

  function Run(s: State, es: seq<Event>): State
    decreases |es|
  {
    if |es| == 0 then s else Run(Step(s, es[0]), es[1..])
  }

  predicate ServedRun(s: State, es: seq<Event>)
    decreases |es|
  {
    |es| == 0 || (Served(s, es[0]) && ServedRun(Step(s, es[0]), es[1..]))
  }

  predicate MonotoneRun(s: State, es: seq<Event>)
    decreases |es|
  {
    |es| == 0 || (Monotone(s, es[0]) && MonotoneRun(Step(s, es[0]), es[1..]))
  }

  /** The queue with a task scheduled at position `p`: its deadline is the promised time exactly when that is before the
      sentinel's, and otherwise earlier. */
  predicate Scheduled(s: State, t: State, delay: nat, now: int, p: nat) {
    var D, end := Synced(s.deadlines, s.last, now), Sync(s, now).end;
    && p <= |D| == |s.timers| == |t.deadlines| - 1
    && t == State(now, With(D, p, t.deadlines[p]), end,
                  With(s.timers, p, Timer(s.tokenCounter + 1, now + delay, s.stamps)),
                  s.tokenCounter + 1, s.stamps + 1, now, s.log)
    && now <= t.deadlines[p] < end && (t.deadlines[p] == now + delay <==> now + delay < end)
    && (now + delay < end ==> t == Step(s, Schedule(delay, now)))
  }

  lemma UpdateOfNone(s: State, token: nat, delay: nat, now: int)
    requires Find(s.timers, token) == |s.timers|
    ensures Step(s, Update(token, delay, now)) == s
  {}

  /** updateEntry leaves the task that was at position `k` at position `p`. */
  lemma EntryIsUpdated(s: State, token: nat, delay: nat, now: int, k: nat, p: nat)
    requires |s.timers| == |s.deadlines| && k == Find(s.timers, token) < |s.timers|
    requires p == Place(Synced(Without(s.deadlines, k), s.last, now), now + delay)
    ensures p <= |s.timers| - 1
    ensures Step(s, Update(token, delay, now)) ==
            s.(last := now, deadlines := With(Synced(Without(s.deadlines, k), s.last, now), p, now + delay),
            end := now + (s.end - s.last) - Spent(s.last, now),
            timers := With(Without(s.timers, k), p, Timer(token, now + delay, s.stamps)),
            stamps := s.stamps + 1, clock := now)
  {
    hide Place, Synced, Spent, Find;
    SyncEnd(Dropped(s, k), now);
  }

  /** What addEntry leaves, with the task noted down, is that. */
  lemma EntryIsScheduled(s: State, delay: nat, now: int, p: nat, due: int, total: int)
    requires |s.timers| == |s.deadlines| && p <= |s.deadlines| && total == s.end - s.last - Spent(s.last, now)
    requires delay < total ==> p == Place(Synced(s.deadlines, s.last, now), now + delay)
    requires now <= due < now + total && (due == now + delay <==> delay < total)
    ensures Scheduled(s, State(now, With(Synced(s.deadlines, s.last, now), p, due), now + total,
                               With(s.timers, p, Timer(s.tokenCounter + 1, now + delay, s.stamps)),
                               s.tokenCounter + 1, s.stamps + 1, now, s.log), delay, now, p)
  {
    hide Place, Synced, Spent;
    SyncEnd(s, now);
  }

  /** The first position is the only one in front of which there is none with the token. */
  lemma FindIsFirst(ts: seq<Timer>, token: nat, k: nat)
    requires k <= |ts| && (forall j :: 0 <= j < k ==> ts[j].token != token) && (k < |ts| ==> ts[k].token == token)
    ensures Find(ts, token) == k
  {
    hide Find;
  }

  // ----- due order

  /** Earlier due, or due at the same time and put in the queue before. */
  predicate Before(a: Timer, b: Timer) {
    a.due < b.due || (a.due == b.due && a.stamp < b.stamp)
  }

  predicate Sorted(ts: seq<Timer>) {
    forall i, j :: 0 <= i < j < |ts| ==> Before(ts[i], ts[j])
  }

  /** All that has fired, and then all that waits, is in due order. */
  predicate Ordered(s: State) {
    && Sorted(s.timers)
    && (forall i, j :: 0 <= i < j < |s.log| ==> Before(s.log[i].timer, s.log[j].timer))
    && (forall i, j :: 0 <= i < |s.log| && 0 <= j < |s.timers| ==> Before(s.log[i].timer, s.timers[j]))
  }

  predicate OnTime(s: State) {
    && |s.timers| == |s.deadlines| && s.last <= s.clock
    && (forall k :: 0 <= k < |s.timers| ==>
          && s.timers[k].stamp < s.stamps
          && s.deadlines[k] == if s.timers[k].due > s.last then s.timers[k].due else s.last)
    && (forall i :: 0 <= i < |s.log| ==>
          s.log[i].timer.due <= s.log[i].at <= s.clock && s.log[i].timer.stamp < s.stamps)
  }

  /** A token names at most one waiting task. */
  predicate Tokens(s: State) {
    && (forall k :: 0 <= k < |s.timers| ==> s.timers[k].token <= s.tokenCounter)
    && (forall i, j :: 0 <= i < j < |s.timers| ==> s.timers[i].token != s.timers[j].token)
  }

  predicate Inv(s: State) {
    OnTime(s) && Ordered(s) && Tokens(s)
  }

  lemma SyncKeeps(s: State, now: int)
    requires Inv(s) && NoJump(s, now)
    ensures Inv(Sync(s, now)) && Sync(s, now).end == s.end
  {}

  lemma SortedWith(ts: seq<Timer>, p: nat, x: Timer)
    requires Sorted(ts) && p <= |ts|
    requires (forall k :: 0 <= k < p ==> Before(ts[k], x)) && (p < |ts| ==> Before(x, ts[p]))
    ensures Sorted(With(ts, p, x))
  {
    forall k | p <= k < |ts|
      ensures Before(x, ts[k])
    {
      assert k > p ==> Before(ts[p], ts[k]);
    }
  }

  lemma PlacedOnTime(t: State, p: nat, x: Timer)
    requires OnTime(t) && p <= |t.timers| && x.due >= t.last && x.stamp == t.stamps
    ensures OnTime(Placed(t, p, x))
  {
    var u := Placed(t, p, x);
    forall k | 0 <= k < |u.timers|
      ensures u.timers[k].stamp < u.stamps
      ensures u.deadlines[k] == if u.timers[k].due > u.last then u.timers[k].due else u.last
    {
      var j := if k <= p then k else k - 1;
      if k != p {
        assert u.timers[k] == t.timers[j] && u.deadlines[k] == t.deadlines[j];
      }
    }
  }

  lemma PlacedOrdered(t: State, p: nat, x: Timer)
    requires Ordered(t) && p <= |t.timers| == |t.deadlines|
    requires (forall k :: 0 <= k < p ==> Before(t.timers[k], x)) && (p < |t.timers| ==> Before(x, t.timers[p]))
    requires forall i :: 0 <= i < |t.log| ==> Before(t.log[i].timer, x)
    ensures Ordered(Placed(t, p, x))
  {
    SortedWith(t.timers, p, x);
    hide Before, Sorted;
  }

  lemma PlacedTokens(t: State, p: nat, x: Timer)
    requires Tokens(t) && p <= |t.timers| == |t.deadlines| && x.token <= t.tokenCounter
    requires forall k :: 0 <= k < |t.timers| ==> t.timers[k].token != x.token
    ensures Tokens(Placed(t, p, x))
  {}

  lemma PlaceIsRight(t: State, x: Timer)
    requires OnTime(t) && t.last == t.clock <= x.due && x.stamp == t.stamps
    ensures var p := Place(t.deadlines, x.due);
            && p <= |t.timers| == |t.deadlines|
            && (forall k :: 0 <= k < p ==> Before(t.timers[k], x)) && (p < |t.timers| ==> Before(x, t.timers[p]))
            && (forall i :: 0 <= i < |t.log| ==> Before(t.log[i].timer, x))
  {
    hide Place;
  }

  lemma EnterKeeps(t: State, token: nat, delay: nat)
    requires Inv(t) && t.last == t.clock && token <= t.tokenCounter
    requires forall k :: 0 <= k < |t.timers| ==> t.timers[k].token != token
    ensures Inv(Enter(t, token, delay))
  {
    hide Place, Placed, OnTime, Ordered, Before, Tokens;
    var x := Timer(token, t.last + delay, t.stamps);
    PlaceIsRight(t, x);
    var p := Place(t.deadlines, x.due);
    PlacedOnTime(t, p, x);
    PlacedOrdered(t, p, x);
    PlacedTokens(t, p, x);
  }

  lemma ScheduleKeeps(s: State, delay: nat, now: int)
    requires Inv(s) && NoJump(s, now)
    ensures Inv(Step(s, Schedule(delay, now)))
  {
    hide Enter;
    SyncKeeps(s, now);
    EnterKeeps(Sync(s, now).(tokenCounter := s.tokenCounter + 1), s.tokenCounter + 1, delay);
  }

  /** A task scheduled as the code does it leaves all on time if and only if it is due before the sentinel. */
  lemma ScheduledKeepsIff(s: State, t: State, delay: nat, now: int, p: nat)
    requires Inv(s) && NoJump(s, now) && Scheduled(s, t, delay, now, p)
    ensures Inv(t) <==> now + delay < s.end
  {
    hide Step, Ordered, Tokens;
    SyncKeeps(s, now);
    if now + delay < s.end {
      ScheduleKeeps(s, delay, now);
    }
  }

  lemma DroppedKeeps(s: State, k: nat)
    requires Inv(s)
    ensures Inv(Dropped(s, k))
    ensures k < |s.timers| ==> forall j :: 0 <= j < |s.timers| - 1 ==>
              Dropped(s, k).timers[j].token != s.timers[k].token
  {
    if k < |s.timers| {
      WithoutAt(s.timers, k);
      WithoutAt(s.deadlines, k);
      hide Without, Before;
    }
  }

  lemma WithoutAt<T>(s: seq<T>, k: nat)
    requires k < |s|
    ensures |Without(s, k)| == |s| - 1
    ensures forall j :: 0 <= j < |s| - 1 ==> Without(s, k)[j] == s[if j < k then j else j + 1]
  {}

  lemma UpdateKeeps(s: State, token: nat, delay: nat, now: int)
    requires Inv(s) && NoJump(s, now)
    ensures Inv(Step(s, Update(token, delay, now)))
  {
    hide Enter, Inv, Find;
    var k := Find(s.timers, token);
    if k < |s.timers| {
      DroppedKeeps(s, k);
      SyncKeeps(Dropped(s, k), now);
      TokenKnown(s, k);
      EnterKeeps(Sync(Dropped(s, k), now), token, delay);
    }
  }

  lemma TokenKnown(s: State, k: nat)
    requires Inv(s) && k < |s.timers|
    ensures s.timers[k].token <= s.tokenCounter && |s.timers| == |s.deadlines|
  {}

  lemma LookKeeps(s: State, now: int)
    requires Inv(s) && Monotone(s, Look(now))
    ensures Inv(SyncUnlessDue(s, now)) && SyncUnlessDue(s, now).clock == now
  {
    if !HeadDue(s) {
      SyncKeeps(s, now);
    }
  }

  lemma FireKeeps(t: State)
    requires Inv(t)
    ensures Inv(Fire(t))
  {
    assert forall j :: 0 < j < |t.timers| ==> Before(t.timers[0], t.timers[j]);
  }

  lemma StepKeeps(s: State, e: Event)
    requires Inv(s) && Monotone(s, e)
    ensures Inv(Step(s, e))
  {
    hide Inv, Enter, Find, Sync, SyncUnlessDue, Fire, Dropped;
    match e
    case Schedule(delay, now) => ScheduleKeeps(s, delay, now);
    case Unschedule(token) => DroppedKeeps(s, Find(s.timers, token));
    case Update(token, delay, now) => UpdateKeeps(s, token, delay, now);
    case Alarm(now) => LookKeeps(s, now); FireKeeps(SyncUnlessDue(s, now));
    case Look(now) => LookKeeps(s, now);
  }

  /** In every run no task runs early, and tasks run in the order of their due times, ties in the order of entering. */
  lemma {:induction false} RunsInDueOrder(s: State, es: seq<Event>)
    requires Inv(s) && MonotoneRun(s, es)
    ensures Inv(Run(s, es))
    decreases |es|
  {
    if |es| > 0 {
      StepKeeps(s, es[0]);
      RunsInDueOrder(Step(s, es[0]), es[1..]);
    }
  }

  /** A task for too long, alone in a new queue, runs early: by the last reading before the sentinel's deadline. */
  lemma TooLongIsEarly(t: State, delay: nat, p: nat)
    requires Scheduled(State(0, [], ETERNITY.Micros(), [], 0, 0, 0, []), t, delay, 0, p) && delay >= ETERNITY.Micros()
    ensures var now := ETERNITY.Micros() - 1;
            && now < delay && Served(t, Alarm(now)) && t.log == []
            && Step(t, Alarm(now)).log == [Firing(Timer(1, delay, 0), now)]
  {}

  /** All readings and all promised times are before the deadline of the sentinel. */
  predicate BeforeEnd(e: Event, end: int) {
    match e
    case Unschedule(_) => true
    case Schedule(delay, now) => Reading(now) && now + delay < end
    case Update(_, delay, now) => Reading(now) && now + delay < end
    case Alarm(now) => Reading(now) && now < end
    case Look(now) => Reading(now) && now < end
  }

  /** The end never moves under such a clock, so what it serves is known beforehand. */
  lemma {:induction false} ServedBeforeEnd(s: State, es: seq<Event>)
    requires Inv(s) && MonotoneRun(s, es) && forall i :: 0 <= i < |es| ==> BeforeEnd(es[i], s.end)
    ensures ServedRun(s, es) && Run(s, es).end == s.end
    decreases |es|
  {
    if |es| > 0 {
      StepServed(s, es[0]);
      StepKeeps(s, es[0]);
      hide Inv, Step, Served, Monotone, BeforeEnd;
      ServedBeforeEnd(Step(s, es[0]), es[1..]);
    }
  }

  lemma StepServed(s: State, e: Event)
    requires Inv(s) && Monotone(s, e) && BeforeEnd(e, s.end)
    ensures Served(s, e) && Step(s, e).end == s.end
  {
    hide Place, Find, Synced;
  }

  /** An alarm runs a task if and only if one is due, and then it is the first in due order. */
  lemma AlarmFiresIffDue(s: State, now: int)
    requires Inv(s) && Monotone(s, Alarm(now))
    ensures var t := Step(s, Alarm(now));
            if exists k :: 0 <= k < |s.timers| && s.timers[k].due <= now
            then t.log == s.log + [Firing(s.timers[0], now)] && t.timers == s.timers[1..]
            else t.log == s.log && t.timers == s.timers
  {
    if k :| 0 <= k < |s.timers| && s.timers[k].due <= now {
      assert k > 0 ==> Before(s.timers[0], s.timers[k]);
    }
  }
}
