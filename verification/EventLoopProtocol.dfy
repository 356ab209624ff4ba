/** The scheduler as a transition system: one step per region that holds the queue lock, in any
    interleaving of the loop thread with the threads that add, cancel and stop. */
module EventLoopProtocol {
  import opened Collections
  import opened LoopEvents

  /** Where the loop thread is between its locked regions. While an event runs the "current" slot
      points at the loop's own copy of it; a cancelled running event has its handle set to zero. */
  datatype Phase = Idle | Running(event: LoopEvent) | Settling

  datatype Loop = Loop(pending: multiset<LoopEvent>, phase: Phase)

  const Initial: Loop := Loop(multiset{}, Idle)

  datatype Step =
    | Accept(event: LoopEvent)
    | Cancel(seqNo: Uint64)
    | Dispatch(now: Uint64, event: LoopEvent)
    | Wait(now: Uint64)
    | Requeue(now: Uint64)
    | Settle
    | Clear

  function Requeued(e: LoopEvent, now: Uint64): LoopEvent {
    e.(enqueueTime := now, targetTime := Wrap64(now + e.interval))
  }

  ghost predicate IsLeast(e: LoopEvent, pending: multiset<LoopEvent>) {
    e in pending && forall x | x in pending :: e.targetTime <= x.targetTime
  }

  ghost predicate IsRunning(s: Loop, seqNo: Uint64) {
    s.phase.Running? && s.phase.event.seqNo == seqNo
  }

  ghost predicate CancelNext(s: Loop, seqNo: Uint64, s': Loop) {
    if IsRunning(s, seqNo) then
      s' == s.(phase := Running(s.phase.event.(seqNo := 0)))
    else if exists e | e in s.pending :: e.seqNo == seqNo then
      exists e | e in s.pending :: e.seqNo == seqNo && s' == s.(pending := s.pending - multiset{e})
    else
      s' == s
  }

  ghost predicate Next(s: Loop, step: Step, s': Loop) {
    match step
    case Accept(e) => s' == s.(pending := s.pending + multiset{e})
    case Cancel(seqNo) => CancelNext(s, seqNo, s')
    case Dispatch(now, e) =>
      && s.phase.Idle?
      && IsLeast(e, s.pending) && e.targetTime <= now
      && s' == Loop(s.pending - multiset{e}, Running(e))
    case Wait(now) =>
      && s.phase.Idle?
      && (forall e | e in s.pending :: now < e.targetTime)
      && s' == s
    case Requeue(now) =>
      && s.phase.Running? && s.phase.event.Recurs()
      && s' == Loop(if s.phase.event.seqNo == 0 then s.pending
                    else s.pending + multiset{Requeued(s.phase.event, now)},
                    Settling)
    case Settle =>
      && (s.phase.Settling? || (s.phase.Running? && !s.phase.event.Recurs()))
      && s' == s.(phase := Idle)
    case Clear => s' == s.(pending := multiset{})
  }

  /** A finite run: `states[i]` is the state before `steps[i]`. */
  datatype Run = Run(steps: seq<Step>, states: seq<Loop>)

  /** A piece of a run, from an arbitrary state. */
  ghost predicate Fragment(r: Run) {
    && |r.states| == |r.steps| + 1
    && forall i | 0 <= i < |r.steps| :: StepAt(r, i)
  }

  ghost predicate ValidRun(r: Run) {
    Fragment(r) && r.states[0] == Initial
  }

  ghost predicate StepAt(r: Run, i: nat)
    requires i < |r.steps| && |r.states| == |r.steps| + 1
  {
    Next(r.states[i], r.steps[i], r.states[i + 1])
  }

  ghost predicate Accepts(step: Step, seqNo: Uint64) {
    step.Accept? && step.event.seqNo == seqNo
  }

  ghost predicate Dispatches(step: Step, seqNo: Uint64) {
    step.Dispatch? && step.event.seqNo == seqNo
  }

  /** Handles are clock samples taken outside the lock; the scheduler relies on them being distinct
      and non-zero. */
  ghost predicate DistinctHandles(r: Run) {
    && (forall i | 0 <= i < |r.steps| && r.steps[i].Accept? :: r.steps[i].event.seqNo != 0)
    && (forall i, j | 0 <= i < j < |r.steps| && r.steps[i].Accept? && r.steps[j].Accept? ::
          r.steps[i].event.seqNo != r.steps[j].event.seqNo)
  }

  // ---------- Handles held by a state ----------

  ghost predicate IsPart(part: multiset<LoopEvent>, m: multiset<LoopEvent>, seqNo: Uint64) {
    forall e: LoopEvent :: part[e] == if e.seqNo == seqNo then m[e] else 0
  }

  lemma {:induction false} PartExists(m: multiset<LoopEvent>, seqNo: Uint64) returns (part: multiset<LoopEvent>)
    ensures IsPart(part, m, seqNo)
    decreases |m|
  {
    if m == multiset{} {
      part := multiset{};
    } else {
      var e :| e in m;
      part := PartExists(m - multiset{e}, seqNo);
      if e.seqNo == seqNo {
        part := part + multiset{e};
      }
    }
  }

  lemma PartExistsQuantified(m: multiset<LoopEvent>, seqNo: Uint64)
    ensures exists part :: IsPart(part, m, seqNo)
  {
    var part := PartExists(m, seqNo);
  }

  /** The queued events that carry a handle. */
  ghost function Part(m: multiset<LoopEvent>, seqNo: Uint64): (part: multiset<LoopEvent>)
    ensures IsPart(part, m, seqNo)
  {
    PartExistsQuantified(m, seqNo);
    var part :| IsPart(part, m, seqNo);
    part
  }

  ghost function Count(m: multiset<LoopEvent>, seqNo: Uint64): nat {
    |Part(m, seqNo)|
  }

  lemma CountAdd(m: multiset<LoopEvent>, e: LoopEvent, seqNo: Uint64)
    ensures Count(m + multiset{e}, seqNo) == Count(m, seqNo) + Unit(e.seqNo == seqNo)
  {
    if e.seqNo == seqNo {
      assert Part(m + multiset{e}, seqNo) == Part(m, seqNo) + multiset{e};
    } else {
      assert Part(m + multiset{e}, seqNo) == Part(m, seqNo);
    }
  }

  lemma CountRemove(m: multiset<LoopEvent>, e: LoopEvent, seqNo: Uint64)
    requires e in m
    ensures Count(m, seqNo) == Count(m - multiset{e}, seqNo) + Unit(e.seqNo == seqNo)
  {
    assert m == (m - multiset{e}) + multiset{e};
    CountAdd(m - multiset{e}, e, seqNo);
  }

  lemma CountPositive(m: multiset<LoopEvent>, seqNo: Uint64)
    ensures Count(m, seqNo) > 0 <==> exists e | e in m :: e.seqNo == seqNo
  {
    var part := Part(m, seqNo);
    if |part| > 0 {
      var e :| e in part;
      assert e in m;
    }
    forall e | e in m && e.seqNo == seqNo ensures |part| > 0 {
      assert e in part;
    }
  }

  /** How often a handle is queued or running; a handle that is not live cannot be dispatched. */
  ghost function Live(s: Loop, seqNo: Uint64): nat {
    Count(s.pending, seqNo) + Unit(IsRunning(s, seqNo))
  }

  // ---------- Conservation ----------

  /** How many occurrences of a handle a step accepts. */
  ghost function Gained(step: Step, seqNo: Uint64): nat {
    Unit(Accepts(step, seqNo))
  }

  /** How many occurrences of a handle a step retires: an effective cancellation takes one, the end of
      a run that is not re-inserted takes the one that ran, a stop takes all that are queued. */
  ghost function Lost(s: Loop, step: Step, seqNo: Uint64): nat {
    match step
    case Cancel(n) => Unit(n == seqNo && Live(s, seqNo) > 0)
    case Settle => Unit(IsRunning(s, seqNo))
    case Clear => Count(s.pending, seqNo)
    case _ => 0
  }

  ghost function Accepted(r: Run, k: nat, seqNo: Uint64): nat
    requires ValidRun(r) && k <= |r.steps|
  {
    if k == 0 then 0 else Accepted(r, k - 1, seqNo) + Gained(r.steps[k - 1], seqNo)
  }

  ghost function Retired(r: Run, k: nat, seqNo: Uint64): nat
    requires ValidRun(r) && k <= |r.steps|
  {
    if k == 0 then 0 else Retired(r, k - 1, seqNo) + Lost(r.states[k - 1], r.steps[k - 1], seqNo)
  }

  lemma CancelTakesOne(s: Loop, n: Uint64, s': Loop, seqNo: Uint64)
    requires seqNo != 0 && CancelNext(s, n, s')
    ensures Live(s, seqNo) == Live(s', seqNo) + Unit(n == seqNo && Live(s, seqNo) > 0)
  {
    CountPositive(s.pending, seqNo);
    if !IsRunning(s, n) && exists e | e in s.pending :: e.seqNo == n {
      var e :| e in s.pending && e.seqNo == n && s' == s.(pending := s.pending - multiset{e});
      CountRemove(s.pending, e, seqNo);
    }
  }

  lemma RequeueConserves(s: Loop, now: Uint64, s': Loop, seqNo: Uint64)
    requires seqNo != 0 && Next(s, Requeue(now), s')
    ensures Live(s, seqNo) == Live(s', seqNo)
  {
    if s.phase.event.seqNo != 0 {
      CountAdd(s.pending, Requeued(s.phase.event, now), seqNo);
    }
  }

  lemma DispatchConserves(s: Loop, now: Uint64, e: LoopEvent, s': Loop, seqNo: Uint64)
    requires Next(s, Dispatch(now, e), s')
    ensures Live(s, seqNo) == Live(s', seqNo)
  {
    CountRemove(s.pending, e, seqNo);
  }

  lemma StepConserves(s: Loop, step: Step, s': Loop, seqNo: Uint64)
    requires seqNo != 0 && Next(s, step, s')
    ensures Gained(step, seqNo) + Live(s, seqNo) == Live(s', seqNo) + Lost(s, step, seqNo)
  {
    match step
    case Accept(e) => CountAdd(s.pending, e, seqNo);
    case Cancel(n) => CancelTakesOne(s, n, s', seqNo);
    case Dispatch(now, e) => DispatchConserves(s, now, e, s', seqNo);
    case Requeue(now) => RequeueConserves(s, now, s', seqNo);
    case Wait(_) =>
    case Settle =>
    case Clear =>
  }

  lemma StepAtConserves(r: Run, k: nat, seqNo: Uint64)
    requires ValidRun(r) && k < |r.steps| && seqNo != 0
    ensures Gained(r.steps[k], seqNo) + Live(r.states[k], seqNo) ==
            Live(r.states[k + 1], seqNo) + Lost(r.states[k], r.steps[k], seqNo)
  {
    assert StepAt(r, k);
    StepConserves(r.states[k], r.steps[k], r.states[k + 1], seqNo);
  }

  /** In every run and for every handle: accepted = still live + completed, cancelled or cleared by a
      stop. */
  lemma {:induction false} Conservation(r: Run, k: nat, seqNo: Uint64)
    requires ValidRun(r) && k <= |r.steps| && seqNo != 0
    ensures Accepted(r, k, seqNo) == Live(r.states[k], seqNo) + Retired(r, k, seqNo)
  {
    if k > 0 {
      Conservation(r, k - 1, seqNo);
      StepAtConserves(r, k - 1, seqNo);
    }
  }

  lemma {:induction false} AcceptedMeansAccept(r: Run, k: nat, seqNo: Uint64)
    requires ValidRun(r) && k <= |r.steps|
    ensures Accepted(r, k, seqNo) > 0 <==> exists i | 0 <= i < k :: Accepts(r.steps[i], seqNo)
  {
    if k > 0 {
      AcceptedMeansAccept(r, k - 1, seqNo);
    }
  }

  lemma {:induction false} AcceptedOnce(r: Run, k: nat, seqNo: Uint64)
    requires ValidRun(r) && DistinctHandles(r) && k <= |r.steps|
    ensures Accepted(r, k, seqNo) <= 1
  {
    if k > 0 {
      AcceptedOnce(r, k - 1, seqNo);
      AcceptedMeansAccept(r, k - 1, seqNo);
    }
  }

  lemma {:induction false} RetiredGrows(r: Run, i: nat, k: nat, seqNo: Uint64)
    requires ValidRun(r) && i <= k <= |r.steps|
    ensures Retired(r, i, seqNo) <= Retired(r, k, seqNo)
    decreases k
  {
    if i < k {
      RetiredGrows(r, i, k - 1, seqNo);
    }
  }

  /** Once a handle has completed, been cancelled or been cleared, it is gone for the rest of the run. */
  lemma RetiredForGood(r: Run, i: nat, k: nat, seqNo: Uint64)
    requires ValidRun(r) && DistinctHandles(r) && i <= k <= |r.steps| && seqNo != 0
    requires Retired(r, i, seqNo) > 0
    ensures Live(r.states[k], seqNo) == 0
    ensures k < |r.steps| ==> !Dispatches(r.steps[k], seqNo)
  {
    RetiredGrows(r, i, k, seqNo);
    AcceptedOnce(r, k, seqNo);
    Conservation(r, k, seqNo);
    CountPositive(r.states[k].pending, seqNo);
    assert k < |r.steps| ==> StepAt(r, k);
  }

  // ---------- Cancellation ----------

  ghost predicate NeverAccepts(r: Run, seqNo: Uint64) {
    forall i | 0 <= i < |r.steps| :: !Accepts(r.steps[i], seqNo)
  }

  ghost predicate NeverDispatches(r: Run, seqNo: Uint64) {
    forall i | 0 <= i < |r.steps| :: !Dispatches(r.steps[i], seqNo)
  }

  lemma DeadStep(r: Run, k: nat, seqNo: Uint64)
    requires Fragment(r) && k < |r.steps| && seqNo != 0 && !Accepts(r.steps[k], seqNo) && Live(r.states[k], seqNo) == 0
    ensures Live(r.states[k + 1], seqNo) == 0 && !Dispatches(r.steps[k], seqNo)
  {
    assert StepAt(r, k);
    StepConserves(r.states[k], r.steps[k], r.states[k + 1], seqNo);
    CountPositive(r.states[k].pending, seqNo);
  }

  /** A handle that is not live stays so, and is not dispatched, until it is accepted again. */
  lemma {:induction false} DeadStays(r: Run, k: nat, seqNo: Uint64)
    requires Fragment(r) && NeverAccepts(r, seqNo) && seqNo != 0 && Live(r.states[0], seqNo) == 0 && k <= |r.steps|
    ensures Live(r.states[k], seqNo) == 0 && forall i | 0 <= i < k :: !Dispatches(r.steps[i], seqNo)
  {
    if k > 0 {
      DeadStays(r, k - 1, seqNo);
      DeadStep(r, k - 1, seqNo);
    }
  }

  lemma Prepend(s: Loop, step: Step, tail: Run) returns (r: Run)
    requires Fragment(tail) && Next(s, step, tail.states[0])
    ensures r == Run([step] + tail.steps, [s] + tail.states) && Fragment(r)
  {
    r := Run([step] + tail.steps, [s] + tail.states);
    forall i | 0 <= i < |r.steps| ensures StepAt(r, i) {
      if i > 0 {
        assert StepAt(tail, i - 1);
      }
    }
  }

  lemma {:induction false} LeastExists(m: multiset<LoopEvent>) returns (e: LoopEvent)
    requires m != multiset{}
    ensures IsLeast(e, m)
    decreases |m|
  {
    e :| e in m;
    var rest := m - multiset{e};
    assert forall x | x in m :: x == e || x in rest;
    if rest != multiset{} {
      var least := LeastExists(rest);
      assert least in m;
      e := if least.targetTime < e.targetTime then least else e;
    }
  }

  /** How far the loop thread is from being idle. */
  function Rank(phase: Phase): nat {
    match phase
    case Idle => 0
    case Settling => 1
    case Running(e) => if !e.Recurs() then 2 else if e.seqNo == 0 then 3 else 4
  }

  /** The loop thread can always come closer to being idle while the queue stays as it is: a running
      event that would be put back is cancelled first. */
  lemma TowardsIdle(s: Loop) returns (step: Step, s': Loop)
    requires !s.phase.Idle?
    ensures Next(s, step, s') && !step.Accept? && s'.pending == s.pending && Rank(s'.phase) < Rank(s.phase)
  {
    if s.phase.Settling? || !s.phase.event.Recurs() {
      step, s' := Settle, s.(phase := Idle);
    } else if s.phase.event.seqNo == 0 {
      step, s' := Requeue(UINT64_RANGE - 1), Loop(s.pending, Settling);
    } else {
      step, s' := Cancel(s.phase.event.seqNo), s.(phase := Running(s.phase.event.(seqNo := 0)));
    }
  }

  /** An idle loop with events queued can dispatch one of them, however late. */
  lemma DispatchLeast(s: Loop) returns (e: LoopEvent, s': Loop)
    requires s.phase.Idle? && s.pending != multiset{}
    ensures Next(s, Dispatch(UINT64_RANGE - 1, e), s') && e in s.pending && s'.pending == s.pending - multiset{e}
  {
    e := LeastExists(s.pending);
    s' := Loop(s.pending - multiset{e}, Running(e));
  }

  /** A queued handle can always still be dispatched, without anything being accepted. */
  lemma {:induction false} CanStillDispatch(s: Loop, seqNo: Uint64) returns (r: Run)
    requires Count(s.pending, seqNo) > 0
    ensures Fragment(r) && r.states[0] == s && NeverAccepts(r, seqNo) && !NeverDispatches(r, seqNo)
    decreases |s.pending|, Rank(s.phase), 0
  {
    CountPositive(s.pending, seqNo);
    if s.phase.Idle? {
      var e, s' := DispatchLeast(s);
      if e.seqNo == seqNo {
        r := Prepend(s, Dispatch(UINT64_RANGE - 1, e), Run([], [s']));
        assert Dispatches(r.steps[0], seqNo);
      } else {
        CountRemove(s.pending, e, seqNo);
        r := ExtendDispatching(s, Dispatch(UINT64_RANGE - 1, e), s', seqNo);
      }
    } else {
      var step, s' := TowardsIdle(s);
      r := ExtendDispatching(s, step, s', seqNo);
    }
  }

  lemma {:induction false} ExtendDispatching(s: Loop, step: Step, s': Loop, seqNo: Uint64) returns (r: Run)
    requires Next(s, step, s') && !step.Accept? && Count(s'.pending, seqNo) > 0
    ensures Fragment(r) && r.states[0] == s && NeverAccepts(r, seqNo) && !NeverDispatches(r, seqNo)
    decreases |s'.pending|, Rank(s'.phase), 1
  {
    var tail := CanStillDispatch(s', seqNo);
    r := Prepend(s, step, tail);
    var i :| 0 <= i < |tail.steps| && Dispatches(tail.steps[i], seqNo);
    assert r.steps[i + 1] == tail.steps[i];
  }

  lemma CancelledNotRunning(s: Loop, seqNo: Uint64, s': Loop)
    requires seqNo != 0 && CancelNext(s, seqNo, s')
    ensures !IsRunning(s', seqNo)
  {
  }

  /** With or without distinct handles, a cancellation is final exactly if the handle was live at most
      once: then, and only then, nothing that can happen before the handle is accepted again dispatches it. */
  lemma CancelIsFinalIff(s: Loop, seqNo: Uint64, s': Loop)
    requires seqNo != 0 && CancelNext(s, seqNo, s')
    ensures Live(s, seqNo) <= 1 <==>
            forall r: Run | Fragment(r) && r.states[0] == s' && NeverAccepts(r, seqNo) :: NeverDispatches(r, seqNo)
  {
    CancelTakesOne(s, seqNo, s', seqNo);
    if Live(s, seqNo) <= 1 {
      forall r: Run | Fragment(r) && r.states[0] == s' && NeverAccepts(r, seqNo) ensures NeverDispatches(r, seqNo) {
        DeadStays(r, |r.steps|, seqNo);
      }
    } else {
      CancelledNotRunning(s, seqNo, s');
      var r := CanStillDispatch(s', seqNo);
    }
  }

  lemma CancelledIsRetired(r: Run, i: nat, seqNo: Uint64)
    requires ValidRun(r) && i < |r.steps| && seqNo != 0
    requires r.steps[i] == Cancel(seqNo) && Accepted(r, i, seqNo) == 1
    ensures Retired(r, i + 1, seqNo) > 0
  {
    Conservation(r, i, seqNo);
    assert Gained(r.steps[i], seqNo) == 0;
    assert Lost(r.states[i], r.steps[i], seqNo) == Unit(Live(r.states[i], seqNo) > 0);
  }

  /** Cancellation safety over all interleavings: once RemoveEvent(seqNo) has held the lock, no later
      fetch dispatches that handle, whether it was pending, running, or about to be re-inserted. */
  lemma CancellationSafety(r: Run, a: nat, i: nat, j: nat, seqNo: Uint64)
    requires ValidRun(r) && DistinctHandles(r)
    requires a < i < j < |r.steps| && Accepts(r.steps[a], seqNo) && r.steps[i] == Cancel(seqNo)
    ensures !Dispatches(r.steps[j], seqNo)
  {
    AcceptedMeansAccept(r, i, seqNo);
    AcceptedOnce(r, i, seqNo);
    CancelledIsRetired(r, i, seqNo);
    RetiredForGood(r, i + 1, j, seqNo);
  }

  /** The hypothesis on handles is needed: with a clock that returns the same sample twice, a
      cancelled handle is dispatched all the same. */
  lemma DuplicateHandleSurvivesCancel(a: LoopEvent, b: LoopEvent) returns (r: Run)
    requires a.seqNo == b.seqNo != 0 && a.job != b.job
    ensures ValidRun(r) && !DistinctHandles(r)
    ensures |r.steps| == 4 && r.steps[2] == Cancel(a.seqNo) && Dispatches(r.steps[3], a.seqNo)
  {
    var s1 := Loop(multiset{a}, Idle);
    var s2 := Loop(multiset{a, b}, Idle);
    var s3 := Loop(multiset{b}, Idle);
    var s4 := Loop(multiset{}, Running(b));
    CancelFirst(a, b);
    DispatchOnly(b, b.targetTime);
    var r0 := Prepend(s3, Dispatch(b.targetTime, b), Run([], [s4]));
    var r1 := Prepend(s2, Cancel(a.seqNo), r0);
    var r2 := Prepend(s1, Accept(b), r1);
    r := Prepend(Initial, Accept(a), r2);
    assert r.steps[0].event.seqNo == r.steps[1].event.seqNo;
  }

  lemma CancelFirst(a: LoopEvent, b: LoopEvent)
    requires a.seqNo == b.seqNo
    ensures Next(Loop(multiset{a, b}, Idle), Cancel(a.seqNo), Loop(multiset{b}, Idle))
  {
    assert a in multiset{a, b} && multiset{a, b} - multiset{a} == multiset{b};
  }

  // ---------- One-shot events ----------

  ghost predicate SameKind(a: LoopEvent, b: LoopEvent) {
    a.seqNo == b.seqNo && a.isRepeat == b.isRepeat && a.interval == b.interval && a.job == b.job
  }

  ghost predicate Originates(r: Run, k: nat, e: LoopEvent)
    requires k <= |r.steps|
  {
    exists i | 0 <= i < k :: r.steps[i].Accept? && SameKind(r.steps[i].event, e)
  }

  ghost predicate AllOriginate(r: Run, k: nat)
    requires k <= |r.steps| < |r.states|
  {
    && (forall e | e in r.states[k].pending :: Originates(r, k, e))
    && (r.states[k].phase.Running? && r.states[k].phase.event.seqNo != 0 ==>
          Originates(r, k, r.states[k].phase.event))
  }

  lemma OriginatesLater(r: Run, k: nat, e: LoopEvent)
    requires k < |r.steps| && Originates(r, k, e)
    ensures Originates(r, k + 1, e)
    ensures forall now :: Originates(r, k + 1, Requeued(e, now))
  {
    var i :| 0 <= i < k && r.steps[i].Accept? && SameKind(r.steps[i].event, e);
    assert forall now :: SameKind(r.steps[i].event, Requeued(e, now));
  }

  /** Every live event is an accepted one, up to its two time fields. */
  lemma {:induction false} LiveOriginates(r: Run, k: nat)
    requires ValidRun(r) && k <= |r.steps|
    ensures AllOriginate(r, k)
  {
    if k > 0 {
      LiveOriginates(r, k - 1);
      OriginatesStep(r, k - 1);
    }
  }

  lemma OriginatesStep(r: Run, k: nat)
    requires ValidRun(r) && k < |r.steps| && AllOriginate(r, k)
    ensures AllOriginate(r, k + 1)
  {
    var s' := r.states[k + 1];
    forall e | e in s'.pending ensures Originates(r, k + 1, e) {
      PendingOriginates(r, k, e);
    }
    RunningOriginates(r, k);
  }

  /** What is queued after a step was queued before, or is accepted or put back by it. */
  lemma PendingSource(s: Loop, step: Step, s': Loop, e: LoopEvent)
    requires Next(s, step, s') && e in s'.pending && e !in s.pending
    ensures step == Accept(e) ||
            (step.Requeue? && s.phase.Running? && s.phase.event.seqNo != 0 && e == Requeued(s.phase.event, step.now))
  {
  }

  lemma PendingOriginates(r: Run, k: nat, e: LoopEvent)
    requires ValidRun(r) && k < |r.steps| && AllOriginate(r, k) && e in r.states[k + 1].pending
    ensures Originates(r, k + 1, e)
  {
    if e in r.states[k].pending {
      OriginatesLater(r, k, e);
    } else {
      assert StepAt(r, k);
      PendingSource(r.states[k], r.steps[k], r.states[k + 1], e);
      if r.steps[k].Requeue? {
        OriginatesLater(r, k, r.states[k].phase.event);
      } else {
        assert SameKind(r.steps[k].event, e);
      }
    }
  }

  /** What runs under a handle after a step ran before, or is dispatched by it. */
  lemma RunningSource(s: Loop, step: Step, s': Loop)
    requires Next(s, step, s') && s'.phase.Running? && s'.phase.event.seqNo != 0
    ensures s'.phase == s.phase || (step.Dispatch? && step.event == s'.phase.event && s'.phase.event in s.pending)
  {
  }

  lemma RunningOriginates(r: Run, k: nat)
    requires ValidRun(r) && k < |r.steps| && AllOriginate(r, k)
    ensures var phase := r.states[k + 1].phase;
            phase.Running? && phase.event.seqNo != 0 ==> Originates(r, k + 1, phase.event)
  {
    var phase := r.states[k + 1].phase;
    if phase.Running? && phase.event.seqNo != 0 {
      assert StepAt(r, k);
      RunningSource(r.states[k], r.steps[k], r.states[k + 1]);
      OriginatesLater(r, k, phase.event);
    }
  }

  lemma DispatchedNonZero(r: Run, i: nat)
    requires ValidRun(r) && DistinctHandles(r) && i < |r.steps| && r.steps[i].Dispatch?
    ensures r.steps[i].event.seqNo != 0
  {
    LiveOriginates(r, i);
    assert StepAt(r, i);
  }

  /** A running one-shot event keeps running until it is cancelled or ends, and is retired then. */
  lemma OneShotStep(r: Run, k: nat)
    requires ValidRun(r) && k < |r.steps| && r.states[k].phase.Running?
    requires var e := r.states[k].phase.event; !e.Recurs() && e.seqNo != 0
    ensures var e := r.states[k].phase.event;
            r.states[k + 1].phase == Running(e) || Retired(r, k + 1, e.seqNo) > 0
  {
    assert StepAt(r, k);
    var e := r.states[k].phase.event;
    assert IsRunning(r.states[k], e.seqNo) && Live(r.states[k], e.seqNo) > 0;
  }

  /** From the dispatch of a one-shot event on, it is either still running or retired. */
  lemma {:induction false} OneShotRunsOut(r: Run, i: nat, k: nat)
    requires ValidRun(r) && DistinctHandles(r) && i < k <= |r.steps|
    requires r.steps[i].Dispatch? && !r.steps[i].event.Recurs()
    ensures var e := r.steps[i].event;
            r.states[k].phase == Running(e) || Retired(r, k, e.seqNo) > 0
    decreases k
  {
    if i + 1 < k {
      OneShotRunsOut(r, i, k - 1);
      if r.states[k - 1].phase == Running(r.steps[i].event) {
        DispatchedNonZero(r, i);
        OneShotStep(r, k - 1);
      } else {
        RetiredGrows(r, k - 1, k, r.steps[i].event.seqNo);
      }
    } else {
      assert StepAt(r, i);
    }
  }

  /** An event that does not repeat, or has no interval, is dispatched at most once in any run. */
  lemma OneShotAtMostOnce(r: Run, a: nat, i: nat, j: nat)
    requires ValidRun(r) && DistinctHandles(r) && a < |r.steps| && i < j < |r.steps|
    requires r.steps[a].Accept? && (!r.steps[a].event.isRepeat || r.steps[a].event.interval == 0)
    requires Dispatches(r.steps[i], r.steps[a].event.seqNo)
    ensures !Dispatches(r.steps[j], r.steps[a].event.seqNo)
  {
    var seqNo := r.steps[a].event.seqNo;
    LiveOriginates(r, i);
    assert StepAt(r, i) && StepAt(r, j);
    var b :| 0 <= b < i && r.steps[b].Accept? && SameKind(r.steps[b].event, r.steps[i].event);
    assert b == a by {
      assert r.steps[b].event.seqNo == r.steps[a].event.seqNo;
    }
    OneShotRunsOut(r, i, j);
    if Dispatches(r.steps[j], seqNo) {
      RetiredForGood(r, j, j, seqNo);
    }
  }

  // ---------- Repeating events ----------

  /** Step m puts the running event e back into the queue, for its interval later. */
  ghost predicate GoesBack(r: Run, m: nat, e: LoopEvent)
    requires m < |r.steps| && |r.states| == |r.steps| + 1
  {
    && r.steps[m].Requeue? && r.states[m].phase == Running(e)
    && var now := r.steps[m].now;
       r.states[m + 1].pending ==
         r.states[m].pending + multiset{e.(enqueueTime := now, targetTime := (now + e.interval) % UINT64_RANGE)}
  }

  lemma RepeatStep(r: Run, k: nat, e: LoopEvent)
    requires ValidRun(r) && k < |r.steps| && r.states[k].phase == Running(e)
    requires e.isRepeat && e.interval > 0 && e.seqNo != 0 && r.steps[k] != Cancel(e.seqNo)
    ensures !r.steps[k].Settle? && (r.states[k + 1].phase == Running(e) || GoesBack(r, k, e))
  {
    assert StepAt(r, k);
  }

  /** A repeating event that is dispatched and not cancelled while it runs goes back into the queue before
      anything else can follow: until then it is still running, and the iteration cannot end. */
  lemma {:induction false} RepeatGoesBack(r: Run, i: nat, k: nat)
    requires ValidRun(r) && i < k <= |r.steps| && r.steps[i].Dispatch?
    requires var e := r.steps[i].event; e.isRepeat && e.interval > 0 && e.seqNo != 0
    requires forall m | i < m < k :: r.steps[m] != Cancel(r.steps[i].event.seqNo)
    ensures var e := r.steps[i].event;
            r.states[k].phase == Running(e) || exists m | i < m < k :: GoesBack(r, m, e)
    ensures k < |r.steps| && r.states[k].phase == Running(r.steps[i].event) ==> !r.steps[k].Settle?
    decreases k
  {
    var e := r.steps[i].event;
    if i + 1 < k {
      RepeatGoesBack(r, i, k - 1);
      if r.states[k - 1].phase == Running(e) {
        RepeatStep(r, k - 1, e);
      }
    } else {
      assert StepAt(r, i);
    }
    assert k < |r.steps| ==> StepAt(r, k);
  }

  // ---------- Order and timing ----------

  ghost predicate Adds(step: Step) {
    step.Accept? || step.Requeue?
  }

  lemma StepShrinks(r: Run, k: nat)
    requires ValidRun(r) && k < |r.steps| && !Adds(r.steps[k])
    ensures r.states[k + 1].pending <= r.states[k].pending
  {
    assert StepAt(r, k);
  }

  lemma {:induction false} PendingShrinks(r: Run, i: nat, k: nat)
    requires ValidRun(r) && i <= k <= |r.steps|
    requires forall m | i <= m < k :: !Adds(r.steps[m])
    ensures r.states[k].pending <= r.states[i].pending
    decreases k
  {
    if i < k {
      PendingShrinks(r, i, k - 1);
      StepShrinks(r, k - 1);
    }
  }

  /** Dispatches come out in target order as long as nothing new is queued in between, and none is
      dispatched before its target time. */
  lemma DispatchesInTargetOrder(r: Run, i: nat, j: nat)
    requires ValidRun(r) && i < j < |r.steps|
    requires r.steps[i].Dispatch? && r.steps[j].Dispatch?
    requires forall m | i <= m < j :: !Adds(r.steps[m])
    ensures r.steps[i].event.targetTime <= r.steps[j].event.targetTime
    ensures r.steps[i].event.targetTime <= r.steps[i].now && r.steps[j].event.targetTime <= r.steps[j].now
  {
    PendingShrinks(r, i, j);
    assert StepAt(r, i) && StepAt(r, j);
    assert r.steps[j].event in r.states[i].pending;
  }

  ghost predicate LoopClock(step: Step) {
    step.Dispatch? || step.Wait? || step.Requeue?
  }

  /** The loop thread samples a steady clock, so its samples never go back. */
  ghost predicate SteadyClock(r: Run) {
    forall i, j | 0 <= i < j < |r.steps| && LoopClock(r.steps[i]) && LoopClock(r.steps[j]) ::
      r.steps[i].now <= r.steps[j].now
  }

  /** Step m puts a running event of this handle back into the queue. */
  ghost predicate PutsBack(r: Run, m: nat, seqNo: Uint64)
    requires m < |r.steps| < |r.states|
  {
    r.steps[m].Requeue? && IsRunning(r.states[m], seqNo)
  }

  /** When the event that step m puts back is due, before the sum is cut to 64 bits. */
  ghost function DueTime(r: Run, m: nat): int
    requires m < |r.steps| < |r.states| && r.steps[m].Requeue? && r.states[m].phase.Running?
  {
    r.steps[m].now + r.states[m].phase.event.interval
  }

  /** Whatever puts the handle back between steps i and k computes a time that fits in 64 bits. */
  ghost predicate FitsBetween(r: Run, i: nat, k: nat, seqNo: Uint64)
    requires k <= |r.steps| < |r.states|
  {
    forall m | i < m < k && PutsBack(r, m, seqNo) :: DueTime(r, m) < UINT64_RANGE
  }

  ghost predicate NotBefore(s: Loop, seqNo: Uint64, interval: Uint64, earliest: int) {
    && (forall e | e in s.pending && e.seqNo == seqNo :: e.interval == interval && earliest <= e.targetTime)
    && (IsRunning(s, seqNo) ==> s.phase.event.interval == interval)
  }

  lemma OnlyCopyDispatched(r: Run, i: nat)
    requires ValidRun(r) && DistinctHandles(r) && i < |r.steps| && r.steps[i].Dispatch?
    ensures forall e | e in r.states[i + 1].pending :: e.seqNo != r.steps[i].event.seqNo
  {
    var e := r.steps[i].event;
    DispatchedNonZero(r, i);
    assert StepAt(r, i);
    Conservation(r, i, e.seqNo);
    AcceptedOnce(r, i, e.seqNo);
    CountRemove(r.states[i].pending, e, e.seqNo);
    CountPositive(r.states[i + 1].pending, e.seqNo);
  }

  /** Any step but an accept of the same handle keeps the bound, given that a re-insertion happens no
      earlier than the dispatch and its sum fits. */
  lemma NotBeforeStep(s: Loop, step: Step, s': Loop, seqNo: Uint64, interval: Uint64, since: int)
    requires Next(s, step, s') && seqNo != 0
    requires NotBefore(s, seqNo, interval, since + interval)
    requires !Accepts(step, seqNo) && !Dispatches(step, seqNo)
    requires step.Requeue? && IsRunning(s, seqNo) ==> since <= step.now && step.now + interval < UINT64_RANGE
    ensures NotBefore(s', seqNo, interval, since + interval)
  {
    forall e | e in s'.pending && e.seqNo == seqNo ensures e.interval == interval && since + interval <= e.targetTime {
      if e !in s.pending {
        PendingSource(s, step, s', e);
        RequeueKeepsIntervalIff(s.phase.event, step.now);
      }
    }
    if IsRunning(s', seqNo) {
      RunningSource(s, step, s');
    }
  }

  /** After a dispatch of a handle at time t, whatever is queued under it is due no earlier than
      t plus its interval. */
  lemma {:induction false} RequeuedNotBefore(r: Run, i: nat, k: nat)
    requires ValidRun(r) && DistinctHandles(r) && SteadyClock(r)
    requires i < k <= |r.steps| && r.steps[i].Dispatch? && FitsBetween(r, i, k, r.steps[i].event.seqNo)
    requires forall m | i < m < k :: !Dispatches(r.steps[m], r.steps[i].event.seqNo)
    ensures var e := r.steps[i].event;
            NotBefore(r.states[k], e.seqNo, e.interval, r.steps[i].now + e.interval)
    decreases k
  {
    var d := r.steps[i];
    if k == i + 1 {
      OnlyCopyDispatched(r, i);
      assert StepAt(r, i);
    } else {
      RequeuedNotBefore(r, i, k - 1);
      DispatchedNonZero(r, i);
      NotAcceptedAgain(r, i, k - 1);
      ClockFacts(r, i, k - 1);
      assert PutsBack(r, k - 1, d.event.seqNo) ==> DueTime(r, k - 1) < UINT64_RANGE;
      assert StepAt(r, k - 1);
      NotBeforeStep(r.states[k - 1], r.steps[k - 1], r.states[k], d.event.seqNo, d.event.interval, d.now);
    }
  }

  lemma ClockFacts(r: Run, i: nat, k: nat)
    requires ValidRun(r) && SteadyClock(r) && i < k < |r.steps| && r.steps[i].Dispatch?
    ensures r.steps[k].Requeue? ==> r.steps[i].now <= r.steps[k].now
  {
    assert LoopClock(r.steps[i]);
  }

  lemma NotAcceptedAgain(r: Run, i: nat, k: nat)
    requires ValidRun(r) && DistinctHandles(r) && i < k < |r.steps| && r.steps[i].Dispatch?
    ensures !Accepts(r.steps[k], r.steps[i].event.seqNo)
  {
    LiveOriginates(r, i);
    assert StepAt(r, i);
    var a :| 0 <= a < i && r.steps[a].Accept? && SameKind(r.steps[a].event, r.steps[i].event);
  }

  /** Successive dispatches of a repeating timer are at least its interval apart, unless the sum that put
      it back between them did not fit. */
  lemma TimerSpacing(r: Run, i: nat, j: nat)
    requires ValidRun(r) && DistinctHandles(r) && SteadyClock(r)
    requires i < j < |r.steps| && r.steps[i].Dispatch? && FitsBetween(r, i, j, r.steps[i].event.seqNo)
    requires Dispatches(r.steps[j], r.steps[i].event.seqNo)
    requires forall m | i < m < j :: !Dispatches(r.steps[m], r.steps[i].event.seqNo)
    ensures r.steps[i].now + r.steps[i].event.interval <= r.steps[j].now
  {
    RequeuedNotBefore(r, i, j);
    assert StepAt(r, j);
  }

  /** Exactly when the re-insertion arithmetic keeps the interval: when the sum fits in 64 bits. */
  lemma RequeueKeepsIntervalIff(e: LoopEvent, now: Uint64)
    ensures now + e.interval <= Requeued(e, now).targetTime <==> now + e.interval < UINT64_RANGE
    ensures now + e.interval >= UINT64_RANGE ==> Requeued(e, now).targetTime < now
  {
    if now + e.interval >= UINT64_RANGE {
      assert (now + e.interval) % UINT64_RANGE == now + e.interval - UINT64_RANGE;
    }
  }

  // ---------- The exact condition on the next dispatch ----------

  /** The handle is not running, and nothing but this event is queued under it. */
  ghost predicate OnlyCopy(s: Loop, e: LoopEvent) {
    !IsRunning(s, e.seqNo) && forall x | x in s.pending && x.seqNo == e.seqNo :: x == e
  }

  lemma OnlyCopyStep(s: Loop, step: Step, s': Loop, e: LoopEvent)
    requires Next(s, step, s') && OnlyCopy(s, e) && e.seqNo != 0
    requires !Accepts(step, e.seqNo) && !Dispatches(step, e.seqNo)
    ensures OnlyCopy(s', e)
  {
    forall x | x in s'.pending && x.seqNo == e.seqNo ensures x == e {
      if x !in s.pending {
        PendingSource(s, step, s', x);
      }
    }
    if IsRunning(s', e.seqNo) {
      RunningSource(s, step, s');
    }
  }

  lemma {:induction false} OnlyCopyKept(r: Run, i: nat, k: nat, e: LoopEvent)
    requires ValidRun(r) && i <= k <= |r.steps| && OnlyCopy(r.states[i], e) && e.seqNo != 0
    requires forall m | i <= m < k :: !Accepts(r.steps[m], e.seqNo) && !Dispatches(r.steps[m], e.seqNo)
    ensures OnlyCopy(r.states[k], e)
    decreases k
  {
    if i < k {
      OnlyCopyKept(r, i, k - 1, e);
      assert StepAt(r, k - 1);
      OnlyCopyStep(r.states[k - 1], r.steps[k - 1], r.states[k], e);
    }
  }

  /** Until its handle is accepted or dispatched again, a lone event is what is dispatched under it. */
  lemma NextDispatchIs(r: Run, i: nat, j: nat, e: LoopEvent)
    requires ValidRun(r) && i <= j < |r.steps| && OnlyCopy(r.states[i], e) && e.seqNo != 0
    requires Dispatches(r.steps[j], e.seqNo)
    requires forall m | i <= m < j :: !Accepts(r.steps[m], e.seqNo) && !Dispatches(r.steps[m], e.seqNo)
    ensures r.steps[j].event == e && e.targetTime <= r.steps[j].now
  {
    OnlyCopyKept(r, i, j, e);
    assert StepAt(r, j);
  }

  lemma AtMostOneLive(r: Run, k: nat, seqNo: Uint64)
    requires ValidRun(r) && DistinctHandles(r) && k <= |r.steps| && seqNo != 0
    ensures Live(r.states[k], seqNo) <= 1
    ensures k < |r.steps| && Accepts(r.steps[k], seqNo) ==> Live(r.states[k], seqNo) == 0
  {
    Conservation(r, k, seqNo);
    AcceptedOnce(r, k, seqNo);
    if k < |r.steps| {
      AcceptedOnce(r, k + 1, seqNo);
    }
  }

  lemma PutBackIsOnlyCopy(r: Run, m: nat, seqNo: Uint64)
    requires ValidRun(r) && DistinctHandles(r) && m < |r.steps| && seqNo != 0 && PutsBack(r, m, seqNo)
    ensures OnlyCopy(r.states[m + 1], Requeued(r.states[m].phase.event, r.steps[m].now))
  {
    AtMostOneLive(r, m, seqNo);
    CountPositive(r.states[m].pending, seqNo);
    assert StepAt(r, m);
  }

  lemma AcceptedIsOnlyCopy(r: Run, a: nat)
    requires ValidRun(r) && DistinctHandles(r) && a < |r.steps| && r.steps[a].Accept?
    ensures OnlyCopy(r.states[a + 1], r.steps[a].event)
  {
    var e := r.steps[a].event;
    AtMostOneLive(r, a, e.seqNo);
    CountPositive(r.states[a].pending, e.seqNo);
    assert StepAt(r, a);
  }

  lemma {:induction false} LiveWasAccepted(r: Run, m: nat, seqNo: Uint64) returns (a: nat)
    requires ValidRun(r) && m < |r.steps| && seqNo != 0 && IsRunning(r.states[m], seqNo)
    ensures a < m && Accepts(r.steps[a], seqNo)
  {
    LiveOriginates(r, m);
    var e := r.states[m].phase.event;
    a :| 0 <= a < m && r.steps[a].Accept? && SameKind(r.steps[a].event, e);
  }

  /** In every run, after step m has put a repeating event back, its next dispatch keeps the interval
      exactly if the sum fits in 64 bits. */
  lemma IntervalKeptIff(r: Run, m: nat, j: nat, seqNo: Uint64)
    requires ValidRun(r) && DistinctHandles(r) && seqNo != 0
    requires m < j < |r.steps| && PutsBack(r, m, seqNo) && Dispatches(r.steps[j], seqNo)
    requires forall k | m < k < j :: !Dispatches(r.steps[k], seqNo)
    ensures DueTime(r, m) <= r.steps[j].now <==> DueTime(r, m) < UINT64_RANGE
  {
    var a := LiveWasAccepted(r, m, seqNo);
    PutBackIsOnlyCopy(r, m, seqNo);
    NextDispatchIs(r, m + 1, j, Requeued(r.states[m].phase.event, r.steps[m].now));
  }

  /** The first dispatch of an accepted event is of that event as it was accepted, and not early. */
  lemma FirstDispatch(r: Run, a: nat, j: nat)
    requires ValidRun(r) && DistinctHandles(r) && a < j < |r.steps| && r.steps[a].Accept?
    requires Dispatches(r.steps[j], r.steps[a].event.seqNo)
    requires forall k | a < k < j :: !Dispatches(r.steps[k], r.steps[a].event.seqNo)
    ensures r.steps[j].event == r.steps[a].event && r.steps[a].event.targetTime <= r.steps[j].now
  {
    AcceptedIsOnlyCopy(r, a);
    NextDispatchIs(r, a + 1, j, r.steps[a].event);
  }

  /** Past that limit the timer fires again at once: for every repeating event and clock reading whose
      sum overflows there is a run that dispatches it twice at the same instant. */
  lemma OverflowDispatchesAtOnce(e: LoopEvent, now: Uint64) returns (r: Run)
    requires e.Recurs() && e.seqNo != 0 && e.targetTime <= now
    requires now + e.interval >= UINT64_RANGE
    ensures ValidRun(r) && DistinctHandles(r) && SteadyClock(r)
    ensures |r.steps| == 5 && Dispatches(r.steps[1], e.seqNo) && Dispatches(r.steps[4], e.seqNo)
    ensures r.steps[4].now < r.steps[1].now + e.interval
  {
    RequeueKeepsIntervalIff(e, now);
    var q := Requeued(e, now);
    var s1, s2, s3 := Loop(multiset{e}, Idle), Loop(multiset{}, Running(e)), Loop(multiset{q}, Settling);
    var s4, s5 := Loop(multiset{q}, Idle), Loop(multiset{}, Running(q));
    DispatchOnly(e, now);
    DispatchOnly(q, now);
    RequeueOnly(e, now);
    r := Run([Accept(e), Dispatch(now, e), Requeue(now), Settle, Dispatch(now, q)], [Initial, s1, s2, s3, s4, s5]);
    assert StepAt(r, 0) by {
      assert multiset{} + multiset{e} == multiset{e};
    }
    assert StepAt(r, 1) && StepAt(r, 2) && StepAt(r, 3) && StepAt(r, 4);
    assert forall i | 0 < i < 5 :: !r.steps[i].Accept?;
  }

  lemma DispatchOnly(e: LoopEvent, now: Uint64)
    requires e.targetTime <= now
    ensures Next(Loop(multiset{e}, Idle), Dispatch(now, e), Loop(multiset{}, Running(e)))
  {
    assert multiset{e} - multiset{e} == multiset{};
  }

  lemma RequeueOnly(e: LoopEvent, now: Uint64)
    requires e.Recurs() && e.seqNo != 0
    ensures Next(Loop(multiset{}, Running(e)), Requeue(now), Loop(multiset{Requeued(e, now)}, Settling))
  {
    assert multiset{} + multiset{Requeued(e, now)} == multiset{Requeued(e, now)};
  }
}
