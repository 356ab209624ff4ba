/** The scheduler object: its methods are the locked regions of the loop, and each is proved to be a
    step of the transition system in EventLoopProtocol. */
module EventLoops {
  import opened LoopEvents
  import opened EventPriorityQueues
  import opened EventLoopProtocol

  const SEC_TO_NANOSEC: Uint64 := 1_000_000_000

  /** What AddTimerEvent returns for an interval it refuses: -1 as an unsigned 64-bit number. */
  const REFUSED: Uint64 := UINT64_RANGE - 1

  /** The nanosecond interval of a timer; the product is not checked for overflow. */
  function IntervalNanos(seconds: Uint64): Uint64 {
    Wrap64(seconds * SEC_TO_NANOSEC)
  }

  function TimerEvent(now: Uint64, seconds: Uint64, repeat: bool, job: nat): LoopEvent {
    CreateLoopEvent(now, job).(
      isRepeat := repeat,
      interval := IntervalNanos(seconds),
      targetTime := Wrap64(now + IntervalNanos(seconds)))
  }

  /** In every run an accepted timer's first dispatch comes after the requested number of seconds exactly
      if the product fits in 64 bits: the wrap-around guard catches the sum, not the product. */
  lemma TimerWaitsIff(r: Run, a: nat, j: nat, now: Uint64, seconds: Uint64, repeat: bool, job: nat)
    requires ValidRun(r) && DistinctHandles(r) && a < j < |r.steps|
    requires r.steps[a] == Accept(TimerEvent(now, seconds, repeat, job)) && now + IntervalNanos(seconds) < UINT64_RANGE
    requires Dispatches(r.steps[j], now) && forall k | a < k < j :: !Dispatches(r.steps[k], now)
    ensures now + seconds * SEC_TO_NANOSEC <= r.steps[j].now <==> seconds * SEC_TO_NANOSEC < UINT64_RANGE
  {
    FirstDispatch(r, a, j);
    var product := seconds * SEC_TO_NANOSEC;
    assert product >= 0;
    if product < UINT64_RANGE {
      assert Wrap64(product) == product;
    }
    assert Wrap64(now + IntervalNanos(seconds)) == now + IntervalNanos(seconds);
  }

  class EventLoop {
    const queue: EventPriorityQueue
    var needQuit: bool
    var isRunning: bool
    var nextWakeupTime: Uint64
    // The loop thread's own copy of the event it runs, which the "current" slot points at.
    var current: LoopEvent
    var hasCurrent: bool
    // Set between the re-insertion of a repeating event and the end of the iteration.
    var settling: bool

    ghost predicate Valid()
      reads this, queue
    {
      queue.Valid() && !(hasCurrent && settling)
    }

    ghost function View(): Loop
      reads this, queue
    {
      Loop(queue.Contents(), if hasCurrent then Running(current) else if settling then Settling else Idle)
    }

    constructor ()
      ensures Valid() && fresh(queue) && View() == Initial && !needQuit && !isRunning
    {
      queue := new EventPriorityQueue();
      needQuit, isRunning, nextWakeupTime := false, false, 0;
      current, hasCurrent, settling := CreateLoopEvent(0, 0), false, false;
    }

    method AddEvent(now: Uint64, job: nat) returns (handle: Uint64)
      requires Valid()
      modifies queue
      ensures Valid()
      ensures needQuit ==> handle == 0 && View() == old(View())
      ensures !needQuit ==> handle == now && Next(old(View()), Accept(CreateLoopEvent(now, job)), View())
      ensures !needQuit ==> View() == old(View()).(pending := old(View()).pending + multiset{LoopEvent(
                seqNo := now, isRepeat := false, interval := 0, enqueueTime := now, targetTime := now, job := job)})
    {
      if needQuit {
        return 0;
      }
      queue.Push(CreateLoopEvent(now, job));
      return now;
    }

    method AddTimerEvent(now: Uint64, seconds: Uint64, repeat: bool, job: nat) returns (handle: Uint64)
      requires Valid()
      modifies queue
      ensures Valid()
      ensures needQuit ==> handle == 0 && View() == old(View())
      ensures var nanos := (seconds * 1_000_000_000) % UINT64_RANGE;
              && (!needQuit && now + nanos >= UINT64_RANGE ==> handle == UINT64_RANGE - 1 && View() == old(View()))
              && (!needQuit && now + nanos < UINT64_RANGE ==>
                    && handle == now && Next(old(View()), Accept(TimerEvent(now, seconds, repeat, job)), View())
                    && View() == old(View()).(pending := old(View()).pending + multiset{LoopEvent(
                         seqNo := now, isRepeat := repeat, interval := nanos, enqueueTime := now,
                         targetTime := now + nanos, job := job)}))
    {
      if needQuit {
        return 0;
      }
      var intervalNanos := IntervalNanos(seconds);
      if Wrap64(now + intervalNanos) < now {
        return REFUSED;
      }
      queue.Push(TimerEvent(now, seconds, repeat, job));
      return now;
    }

    /** Cancels by handle. A running event cannot be stopped, but it will not be re-inserted; the
        result says whether a queued event was deleted. Without a running event of that handle, one queued
        event of it goes if there is any. */
    method RemoveEvent(seqNo: Uint64) returns (removed: bool)
      requires Valid()
      modifies this`current, queue
      ensures Valid()
      ensures Next(old(View()), Cancel(seqNo), View())
      ensures removed <==> |View().pending| < |old(View()).pending|
      ensures if IsRunning(old(View()), seqNo) then
                View() == old(View()).(phase := Running(old(current).(seqNo := 0)))
              else
                && View().phase == old(View()).phase
                && (removed <==> exists e | e in old(View()).pending :: e.seqNo == seqNo)
                && (removed ==> exists e | e in old(View()).pending ::
                      e.seqNo == seqNo && View().pending == old(View()).pending - multiset{e})
    {
      if hasCurrent && current.seqNo == seqNo {
        current := current.(seqNo := 0);
        return false;
      }
      removed := queue.Remove(seqNo);
    }

    /** Takes the earliest event that is due, or reports how long it is until the earliest one. */
    method FetchNextEvent(now: Uint64) returns (fetched: bool, left: Uint64)
      requires Valid() && View().phase.Idle?
      modifies this`current, this`hasCurrent, this`nextWakeupTime, queue
      ensures Valid()
      ensures fetched ==> Next(old(View()), Dispatch(now, current), View())
      ensures !fetched ==> View() == old(View())
      ensures !fetched && !needQuit ==> Next(old(View()), Wait(now), View())
      ensures needQuit ==> !fetched
      ensures !fetched && !needQuit && View().pending != multiset{} ==>
                && nextWakeupTime == now + left
                && exists e | e in View().pending :: IsLeast(e, View().pending) && e.targetTime == now + left
    {
      left := 0;
      if needQuit {
        return false, left;
      }
      var empty := queue.Empty();
      if empty {
        return false, left;
      }
      var event := queue.Top();
      if event.targetTime > now {
        left := event.targetTime - now;
        nextWakeupTime := event.targetTime;
        return false, left;
      }
      queue.Pop();
      current, hasCurrent := event, true;
      return true, left;
    }

    method ReInsertPeriodicEvent(now: Uint64)
      requires Valid() && View().phase.Running? && current.isRepeat && current.interval > 0
      modifies this`hasCurrent, this`settling, this`current, queue
      ensures Valid()
      ensures Next(old(View()), Requeue(now), View())
      ensures var e := old(current);
              View() == Loop(old(View()).pending + (if e.seqNo == 0 then multiset{} else multiset{e.(
                enqueueTime := now, targetTime := (now + e.interval) % UINT64_RANGE)}), Settling)
    {
      hasCurrent, settling := false, true;
      if current.seqNo == 0 {
        return;
      }
      current := current.(enqueueTime := now, targetTime := Wrap64(now + current.interval));
      queue.Push(current);
    }

    /** The last locked region of an iteration: the slot is cleared. */
    method SettleEvent()
      requires Valid() && (settling || (hasCurrent && (!current.isRepeat || current.interval == 0)))
      modifies this`hasCurrent, this`settling
      ensures Valid()
      ensures Next(old(View()), Settle, View())
      ensures View() == old(View()).(phase := Idle)
    {
      hasCurrent, settling := false, false;
    }

    /** One iteration of the processing loop, with nobody else at the queue meanwhile: a due event is
        run and, if it repeats, queued again for its interval after `after`. */
    method ProcessOne(now: Uint64, after: Uint64) returns (fetched: bool, left: Uint64)
      requires Valid() && View().phase.Idle?
      modifies this, queue
      ensures Valid() && View().phase.Idle?
      ensures !fetched ==> View() == old(View())
      ensures fetched ==> exists e | e in old(View().pending) ::
                && IsLeast(e, old(View().pending)) && e.targetTime <= now
                && View().pending == old(View().pending) - multiset{e} +
                     (if e.isRepeat && e.interval > 0 && e.seqNo != 0 then multiset{Requeued(e, after)} else multiset{})
    {
      fetched, left := FetchNextEvent(now);
      if fetched {
        if current.isRepeat && current.interval > 0 {
          ReInsertPeriodicEvent(after);
        }
        SettleEvent();
      }
    }

    /** The loop runs from now on if it can be woken up; what is queued stays. */
    method StartLoop(notifierReady: bool)
      requires Valid()
      modifies this`isRunning
      ensures Valid() && View() == old(View())
      ensures isRunning <==> old(isRunning) || notifierReady
    {
      if isRunning || !notifierReady {
        return;
      }
      isRunning := true;
    }

    /** Refuses further events and, if the loop was running, drops everything queued; an event that is
        being run is not affected. */
    method StopLoop()
      requires Valid()
      modifies this`needQuit, this`isRunning, queue
      ensures Valid() && needQuit && !isRunning
      ensures if old(isRunning) then Next(old(View()), Clear, View()) else View() == old(View())
      ensures old(isRunning) ==> View() == old(View()).(pending := multiset{})
    {
      needQuit := true;
      if !isRunning {
        return;
      }
      var empty := queue.Empty();
      while !empty
        modifies queue
        invariant queue.Valid()
        invariant empty <==> queue.Contents() == multiset{}
        decreases |queue.Contents()|
      {
        queue.Pop();
        empty := queue.Empty();
      }
      isRunning := false;
    }
  }
}
