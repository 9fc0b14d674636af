/** The delayed tasks of a task scheduler: the heap queue follows the runs on values. */
module DelayedTasks {
  import opened Basics
  import opened TimeArithmetic
  import opened DelayList
  import Q = DelayQueue
  import R = DelayRuns

  /** Entries of the queue, the sentinel last, and the tasks they stand for. */
  ghost predicate Named(ring: seq<Q.DelayQueueEntry>, timers: seq<R.Timer>) {
    |timers| == |ring| - 1 && forall k :: 0 <= k < |timers| ==> ring[k].fToken == timers[k].token
  }

  lemma NamedWith(ring: seq<Q.DelayQueueEntry>, timers: seq<R.Timer>, p: nat, entry: Q.DelayQueueEntry, x: R.Timer)
    requires Named(ring, timers) && p < |ring| && entry.fToken == x.token
    ensures Named(With(ring, p, entry), With(timers, p, x))
    ensures forall k :: 0 <= k < |With(ring, p, entry)| ==>
              With(ring, p, entry)[k] == entry || With(ring, p, entry)[k] in ring
  {}

  lemma NamedWithout(ring: seq<Q.DelayQueueEntry>, timers: seq<R.Timer>, k: nat)
    requires Named(ring, timers) && k < |timers|
    ensures Named(Without(ring, k), Without(timers, k))
    ensures forall j :: 0 <= j < |Without(ring, k)| ==> Without(ring, k)[j] in ring
  {}

  lemma NamedMoved(ring: seq<Q.DelayQueueEntry>, timers: seq<R.Timer>, k: nat, p: nat, x: R.Timer)
    requires Named(ring, timers) && k < |timers| && p < |timers| && x.token == ring[k].fToken
    ensures p <= |Without(ring, k)| && p <= |Without(timers, k)|
    ensures Named(With(Without(ring, k), p, ring[k]), With(Without(timers, k), p, x))
    ensures var r := With(Without(ring, k), p, ring[k]);
            forall j :: 0 <= j < |r| ==> r[j] in ring
  {
    NamedWithout(ring, timers, k);
    NamedWith(Without(ring, k), Without(timers, k), p, ring[k], x);
  }

  class DelayedTasks {
    const fDelayQueue: Q.DelayQueue
    var tokenCounter: nat
    /** The task of each entry of the queue, in list order, with the time it was promised for. */
    ghost var timers: seq<R.Timer>
    ghost var stamps: nat
    ghost var clock: int
    ghost var log: seq<R.Firing>

    ghost predicate Valid()
      reads this, fDelayQueue, fDelayQueue.ring
    {
      fDelayQueue.Valid() && Named(fDelayQueue.ring, timers)
    }

    ghost function State(): R.State
      requires |fDelayQueue.deltas| > 0
      reads this, fDelayQueue
    {
      R.State(fDelayQueue.Last(), fDelayQueue.Due(), fDelayQueue.Last() + Total(fDelayQueue.deltas),
              timers, tokenCounter, stamps, clock, log)
    }

    constructor (now: Timeval)
      requires now.Event()
      ensures Valid() && fresh(fDelayQueue) && forall k :: 0 <= k < |fDelayQueue.ring| ==> fresh(fDelayQueue.ring[k])
      ensures State() == R.State(now.Micros(), [], now.Micros() + ETERNITY.Micros(), [], 0, 0, now.Micros(), [])
      ensures R.Inv(State())
    {
      fDelayQueue := new Q.DelayQueue(now);
      tokenCounter, timers, stamps, clock, log := 0, [], 0, now.Micros(), [];
      new;
      PrefixStep(fDelayQueue.deltas, 0);
    }

    lemma Matches()
      requires Valid()
      ensures |fDelayQueue.Due()| == |timers| == |fDelayQueue.ring| - 1 && |fDelayQueue.deltas| > 0
      ensures fDelayQueue.deltas[0] == 0 <==> R.HeadDue(State())
      ensures Synced(fDelayQueue.Due(), fDelayQueue.Last(), fDelayQueue.Last()) == fDelayQueue.Due()
      ensures Spent(fDelayQueue.Last(), fDelayQueue.Last()) == 0
    {
      fDelayQueue.HeadIsDue();
      SyncedNow(fDelayQueue.Last(), fDelayQueue.deltas);
    }

    /** Keeps its promise, whatever waits already, if and only if the due time is before the sentinel's. */
    method ScheduleDelayedTask(microseconds: int, timeNow: Timeval) returns (token: nat, ghost p: nat)
      requires Valid() && fDelayQueue.ClockOk(timeNow)
      modifies this, fDelayQueue, fDelayQueue.ring
      ensures Valid() && token == tokenCounter
      ensures forall k :: 0 <= k < |fDelayQueue.ring| ==>
                fDelayQueue.ring[k] in old(fDelayQueue.ring) || fresh(fDelayQueue.ring[k])
      ensures R.Scheduled(old(State()), State(), if microseconds < 0 then 0 else microseconds, timeNow.Micros(), p)
    {
      hide Total, Place, Synced, Deadlines, Spent, FromMicros, R.Scheduled, Named, With, Q.DelayQueue.Linked,
           Q.DelayQueue.Timed;
      Matches();
      var delay := if microseconds < 0 then 0 else microseconds;
      var alarmHandler := new Q.DelayQueueEntry(FromMicros(delay), tokenCounter + 1);
      p := fDelayQueue.AddEntry(alarmHandler, timeNow);
      token := alarmHandler.fToken;
      R.EntryIsScheduled(old(State()), delay, timeNow.Micros(), p, fDelayQueue.Due()[p], Total(fDelayQueue.deltas));
      ghost var x := R.Timer(token, timeNow.Micros() + delay, stamps);
      NamedWith(old(fDelayQueue.ring), timers, p, alarmHandler, x);
      timers, tokenCounter, stamps, clock := With(timers, p, x), token, stamps + 1, timeNow.Micros();
    }

    method UnscheduleDelayedTask(token: nat)
      requires Valid()
      modifies this, fDelayQueue, fDelayQueue.ring
      ensures Valid() && State() == R.Step(old(State()), R.Unschedule(token))
      ensures forall k :: 0 <= k < |fDelayQueue.ring| ==> fDelayQueue.ring[k] in old(fDelayQueue.ring)
    {
      hide Total, Deadlines, R.Find, Without, Q.DelayQueue.Linked, Q.DelayQueue.Timed;
      Matches();
      fDelayQueue.Distinct();
      var entry, first := fDelayQueue.FindEntryByToken(token);
      R.FindIsFirst(timers, token, first);
      ghost var k := fDelayQueue.RemoveEntry(entry);
      if entry != null {
        NamedWithout(old(fDelayQueue.ring), timers, k);
        timers := Without(timers, k);
      }
    }

    /** updateEntry, by token. */
    method UpdateEntry(token: nat, newDelay: Timeval, timeNow: Timeval)
      requires Valid() && newDelay.Normal() && R.Served(State(), R.Update(token, newDelay.Micros(), timeNow.Micros()))
      requires timeNow.Event()
      modifies this, fDelayQueue, fDelayQueue.ring
      ensures Valid() && State() == R.Step(old(State()), R.Update(token, newDelay.Micros(), timeNow.Micros()))
      ensures forall k :: 0 <= k < |fDelayQueue.ring| ==> fDelayQueue.ring[k] in old(fDelayQueue.ring)
    {
      hide Q.DelayQueue.Linked, Q.DelayQueue.Timed, R.Find, R.Step;
      Matches();
      var entry, k := fDelayQueue.FindEntryByToken(token);
      R.FindIsFirst(timers, token, k);
      if entry == null {
        R.UpdateOfNone(State(), token, newDelay.Micros(), timeNow.Micros());
      } else {
        UpdateAt(entry, k, newDelay, timeNow);
      }
    }

    method UpdateAt(entry: Q.DelayQueueEntry, ghost k: nat, newDelay: Timeval, timeNow: Timeval)
      requires Valid() && timeNow.Event() && newDelay.Normal() && k < |timers| && entry == fDelayQueue.ring[k]
      requires k == R.Find(timers, entry.fToken) && entry != fDelayQueue.sentinel
      requires R.Served(State(), R.Update(entry.fToken, newDelay.Micros(), timeNow.Micros()))
      modifies this, fDelayQueue, fDelayQueue.ring
      ensures Valid() && State() == R.Step(old(State()), R.Update(entry.fToken, newDelay.Micros(), timeNow.Micros()))
      ensures forall k :: 0 <= k < |fDelayQueue.ring| ==> fDelayQueue.ring[k] in old(fDelayQueue.ring)
    {
      hide Total, Deadlines, Synced, Place, Spent, R.Find, Without, With, Q.DelayQueue.Linked, Q.DelayQueue.Timed,
           R.Step, Named;
      Matches();
      fDelayQueue.Distinct();
      R.SyncEnd(State(), timeNow.Micros());
      assert entry in fDelayQueue.ring;
      ghost var j, p := fDelayQueue.UpdateEntry(entry, newDelay, timeNow);
      ghost var x := R.Timer(entry.fToken, timeNow.Micros() + newDelay.Micros(), stamps);
      R.EntryIsUpdated(old(State()), entry.fToken, newDelay.Micros(), timeNow.Micros(), k, p);
      NamedMoved(old(fDelayQueue.ring), timers, k, p, x);
      timers, stamps, clock := With(Without(timers, k), p, x), stamps + 1, timeNow.Micros();
    }

    method TimeToNextAlarm(timeNow: Timeval) returns (t: Timeval)
      requires Valid() && timeNow.Event() && R.Served(State(), R.Look(timeNow.Micros()))
      modifies this`clock, fDelayQueue, fDelayQueue.ring
      ensures Valid() && fDelayQueue.ring == old(fDelayQueue.ring)
      ensures State() == R.Step(old(State()), R.Look(timeNow.Micros()))
      ensures t.Normal() && (timers != [] ==> State().deadlines[0] == State().last + t.Micros())
    {
      hide Total, Deadlines, Synced, Spent, Q.DelayQueue.Linked, Q.DelayQueue.Timed;
      Matches();
      R.SyncEnd(State(), timeNow.Micros());
      t := fDelayQueue.TimeToNextAlarm(timeNow);
      clock := timeNow.Micros();
      Matches();
    }

    /** Runs at most one task, the first that is due; its token is given back. */
    method HandleAlarm(timeNow: Timeval) returns (token: Option<nat>)
      requires Valid() && timeNow.Event() && R.Served(State(), R.Alarm(timeNow.Micros()))
      modifies this, fDelayQueue, fDelayQueue.ring
      ensures Valid() && State() == R.Step(old(State()), R.Alarm(timeNow.Micros()))
      ensures forall k :: 0 <= k < |fDelayQueue.ring| ==> fDelayQueue.ring[k] in old(fDelayQueue.ring)
      ensures if token.None? then log == old(log) else log != [] && log[|log| - 1].timer.token == token.value
    {
      hide Total, Deadlines, Synced, Spent, Q.DelayQueue.Linked, Q.DelayQueue.Timed;
      Matches();
      R.SyncEnd(State(), timeNow.Micros());
      var toRemove := fDelayQueue.HandleAlarm(timeNow);
      clock := timeNow.Micros();
      token := None;
      if toRemove != null {
        token := Some(toRemove.fToken);
        log := log + [R.Firing(timers[0], clock)];
        timers := timers[1..];
      }
    }

    /** Any one operation on the heap queue is the step on values. */
    method Perform(e: R.Event)
      requires Valid() && R.Served(State(), e)
      modifies this, fDelayQueue, fDelayQueue.ring
      ensures Valid() && State() == R.Step(old(State()), e)
      ensures forall k :: 0 <= k < |fDelayQueue.ring| ==>
                fDelayQueue.ring[k] in old(fDelayQueue.ring) || fresh(fDelayQueue.ring[k])
    {
      hide Total, Deadlines, R.Step, Named, Spent, Q.DelayQueue.Linked, Q.DelayQueue.Timed;
      match e
      case Schedule(delay, now) =>
        var _, _ := ScheduleDelayedTask(delay, FromMicros(now));
      case Unschedule(token) =>
        UnscheduleDelayedTask(token);
      case Update(token, delay, now) =>
        UpdateEntry(token, FromMicros(delay), FromMicros(now));
      case Alarm(now) =>
        var _ := HandleAlarm(FromMicros(now));
      case Look(now) =>
        var _ := TimeToNextAlarm(FromMicros(now));
    }

    /** Any sequence of operations leaves the heap queue as the run on values says, so everything fires in due order. */
    method PerformAll(es: seq<R.Event>)
      requires Valid() && R.ServedRun(State(), es)
      modifies this, fDelayQueue, fDelayQueue.ring
      ensures Valid() && State() == R.Run(old(State()), es)
      ensures R.Inv(old(State())) && R.MonotoneRun(old(State()), es) ==> R.Inv(State())
      ensures forall k :: 0 <= k < |fDelayQueue.ring| ==>
                fDelayQueue.ring[k] in old(fDelayQueue.ring) || fresh(fDelayQueue.ring[k])
      decreases |es|
    {
      hide Total, Deadlines, R.Step, R.Served, R.Inv, R.Monotone, Named, Q.DelayQueue.Linked, Q.DelayQueue.Timed;
      if R.Inv(State()) && R.MonotoneRun(State(), es) {
        R.RunsInDueOrder(State(), es);
      }
      if |es| > 0 {
        Perform(es[0]);
        PerformAll(es[1..]);
      }
    }
  }

  /** A task for 2^31 seconds less a microsecond or longer, on a new queue, runs before its time. */
  method LongDelayFiresEarly(delay: nat) returns (token: Option<nat>, now: nat)
    requires delay >= ETERNITY.Micros()
    ensures token == Some(1) && now < delay
  {
    hide R.Step, R.Scheduled, R.Inv;
    var tasks := new DelayedTasks(DELAY_ZERO);
    now := ETERNITY.Micros() - 1;
    var scheduled;
    ghost var p;
    scheduled, p := tasks.ScheduleDelayedTask(delay, DELAY_ZERO);
    R.TooLongIsEarly(tasks.State(), delay, p);
    token := tasks.HandleAlarm(FromMicros(now));
  }
}
