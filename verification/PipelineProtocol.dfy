/** Delivery of one event along a pipeline, as a transition system over every interleaving of the
    threads that run plug-ins, their work loops and whoever continues a pended event. */
module PipelineProtocol {

  /** Who may move the event next. `Transit` is a call of OnContinue that has not yet delivered;
      `caller` names the plug-in call that made it, if any, which waits for it to return. */
  datatype Token =
    | Transit(caller: int)
    | Queued(plugin: nat)
    | Held(id: nat)
    | Pended(plugin: nat)

  const NOBODY: int := -1

  /** How far a call of OnEventProxy has got: in the plug-in's OnEvent, or at one of the three reads
      of the guard that follows it. */
  datatype ProxyPhase = Working | CheckFinish | CheckPending | CheckSize

  datatype Call = Call(plugin: nat, sizeAtEntry: nat, phase: ProxyPhase)

  /** The event, the calls that are still on some stack, and where the event is. Positions in the
      pipeline stand for plug-ins. */
  datatype Delivery = Delivery(
    processors: seq<nat>,
    hasFinish: bool,
    hasPending: bool,
    recycled: nat,
    holders: multiset<Token>,
    calls: map<nat, Call>,
    entered: nat,
    visited: seq<nat>,
    skipped: seq<nat>)

  /** Pipeline.ProcessEvent: the processors are assigned and OnContinue is called. */
  function Initial(n: nat): Delivery {
    Delivery(seq(n, i requires 0 <= i < n => i), false, false, 0, multiset{Transit(NOBODY)}, map[], 0, [], [])
  }

  datatype Step =
    // one iteration of OnContinue
    | Recycle(caller: int)
    | SkipDead(caller: int)
    | SkipUninterested(caller: int)
    | Enqueue(caller: int)
    | EnterInline(caller: int)
    // a work loop picks the event up
    | EnterQueued(plugin: nat)
    // what OnEvent may do with an event it holds
    | Pend(id: nat)
    | Finish(id: nat)
    | SelfContinue(id: nat)
    // OnEvent returns, then the guard of OnEventProxy
    | EndWork(id: nat)
    | ReadFinish(id: nat)
    | ReadPending(id: nat)
    | ReadSize(id: nat)
    // what may happen to a pended event later
    | PendedContinue(plugin: nat)
    | PendedFinish(plugin: nat)
    | PendedRedeliver(plugin: nat)
    | PendedResetContinue(plugin: nat)

  function Move(h: multiset<Token>, from: Token, to: Token): multiset<Token> {
    h - multiset{from} + multiset{to}
  }

  function FinishEvent(s: Delivery, t: Token): Delivery {
    s.(hasFinish := true, recycled := s.recycled + 1, holders := s.holders - multiset{t})
  }

  function Popped(s: Delivery): Delivery
    requires s.processors != []
  {
    s.(processors := s.processors[1..])
  }

  /** OnEventProxy on entry: it notes the number of processors left and clears the pending flag. */
  function Entered(s: Delivery, from: Token, plugin: nat): Delivery {
    s.(hasPending := false,
       holders := Move(s.holders, from, Held(s.entered)),
       calls := s.calls[s.entered := Call(plugin, |s.processors|, Working)],
       entered := s.entered + 1)
  }

  ghost predicate ContinueNext(s: Delivery, step: Step, s': Delivery)
    requires step.Recycle? || step.SkipDead? || step.SkipUninterested? || step.Enqueue? || step.EnterInline?
  {
    var t := Transit(step.caller);
    && t in s.holders
    && if step.Recycle? then
         !s.hasFinish && s.processors == [] && s' == FinishEvent(s, t)
       else
         && s.processors != []
         && var p, q := s.processors[0], Popped(s);
            match step
            case SkipDead(_) => s' == q.(skipped := q.skipped + [p])
            case SkipUninterested(_) =>
              s' == q.(skipped := q.skipped + [p],
                       holders := if !s.hasFinish && !s.hasPending then q.holders else q.holders - multiset{t})
            case Enqueue(_) =>
              s' == q.(visited := q.visited + [p], holders := Move(q.holders, t, Queued(p)))
            case EnterInline(_) => s' == Entered(q.(visited := q.visited + [p]), t, p)
  }

  ghost predicate HeldNext(s: Delivery, step: Step, s': Delivery)
    requires step.Pend? || step.Finish? || step.SelfContinue?
  {
    && step.id in s.calls && s.calls[step.id].phase.Working? && Held(step.id) in s.holders
    && match step
       case Pend(id) =>
         s' == s.(hasPending := true, holders := Move(s.holders, Held(id), Pended(s.calls[id].plugin)))
       case Finish(id) => s' == FinishEvent(s, Held(id))
       case SelfContinue(id) => s' == s.(holders := Move(s.holders, Held(id), Transit(id)))
  }

  /** The guard of OnEventProxy, one read at a time. A call that gets through all three advances the
      event; if it still held the event it hands it over, otherwise there are now two advances. */
  ghost predicate GuardNext(s: Delivery, step: Step, s': Delivery)
    requires step.EndWork? || step.ReadFinish? || step.ReadPending? || step.ReadSize?
  {
    && step.id in s.calls
    && var id, c := step.id, s.calls[step.id];
       var returned := s.(calls := s.calls - {id}, holders := s.holders - multiset{Held(id)});
       match step
       case EndWork(_) =>
         && c.phase.Working? && Transit(id) !in s.holders
         && s' == s.(calls := s.calls[id := c.(phase := CheckFinish)])
       case ReadFinish(_) =>
         && c.phase.CheckFinish?
         && s' == if s.hasFinish then returned else s.(calls := s.calls[id := c.(phase := CheckPending)])
       case ReadPending(_) =>
         && c.phase.CheckPending?
         && s' == if s.hasPending then returned else s.(calls := s.calls[id := c.(phase := CheckSize)])
       case ReadSize(_) =>
         && c.phase.CheckSize?
         && s' == if c.sizeAtEntry == |s.processors|
                  then returned.(holders := returned.holders + multiset{Transit(NOBODY)})
                  else returned
  }

  ghost predicate PendedNext(s: Delivery, step: Step, s': Delivery)
    requires step.PendedContinue? || step.PendedFinish? || step.PendedRedeliver? || step.PendedResetContinue?
  {
    var t := Pended(step.plugin);
    && t in s.holders
    && match step
       case PendedContinue(_) => s' == s.(holders := Move(s.holders, t, Transit(NOBODY)))
       case PendedFinish(_) => s' == FinishEvent(s, t)
       case PendedRedeliver(p) =>
         // the delayed call runs on the plug-in's own work loop, after its earlier call returned
         NoCallOf(s, p) && s' == Entered(s, t, p)
       case PendedResetContinue(_) =>
         s' == s.(hasPending := false, holders := Move(s.holders, t, Transit(NOBODY)))
  }

  ghost predicate NoCallOf(s: Delivery, plugin: nat) {
    forall id | id in s.calls :: s.calls[id].plugin != plugin
  }

  ghost predicate Next(s: Delivery, step: Step, s': Delivery) {
    match step
    case Recycle(_) => ContinueNext(s, step, s')
    case SkipDead(_) => ContinueNext(s, step, s')
    case SkipUninterested(_) => ContinueNext(s, step, s')
    case Enqueue(_) => ContinueNext(s, step, s')
    case EnterInline(_) => ContinueNext(s, step, s')
    case EnterQueued(p) => Queued(p) in s.holders && s' == Entered(s, Queued(p), p)
    case Pend(_) => HeldNext(s, step, s')
    case Finish(_) => HeldNext(s, step, s')
    case SelfContinue(_) => HeldNext(s, step, s')
    case EndWork(_) => GuardNext(s, step, s')
    case ReadFinish(_) => GuardNext(s, step, s')
    case ReadPending(_) => GuardNext(s, step, s')
    case ReadSize(_) => GuardNext(s, step, s')
    case _ => PendedNext(s, step, s')
  }

  // ---------- Invariant ----------

  ghost predicate IsHeld(s: Delivery, id: nat) {
    s.holders == multiset{Held(id)}
  }

  /** A call that no longer holds the event cannot get through the guard: the event has been popped
      since it entered, or it still waits inside its own OnContinue, or a flag it has yet to read is set. */
  ghost predicate Harmless(s: Delivery, id: nat)
    requires id in s.calls
  {
    var c := s.calls[id];
    || c.sizeAtEntry > |s.processors|
    || (c.phase.Working? && s.holders == multiset{Transit(id)})
    || (s.hasPending && !c.phase.CheckSize?)
    || (s.hasFinish && (c.phase.Working? || c.phase.CheckFinish?))
  }

  ghost predicate CallsOk(s: Delivery) {
    forall id | id in s.calls ::
      && id < s.entered
      && s.calls[id].sizeAtEntry >= |s.processors|
      && if IsHeld(s, id) then s.calls[id].sizeAtEntry == |s.processors| && !s.hasPending
         else Harmless(s, id)
  }

  /** Apart from the holder itself, only a call of the plug-in that pended the event can have entered
      at the present size. */
  ghost predicate Latest(s: Delivery, t: Token, id: nat)
    requires id in s.calls
  {
    s.calls[id].sizeAtEntry > |s.processors| ||
    match t
    case Held(h) => id == h
    case Pended(p) => s.calls[id].plugin == p
    case Queued(_) => false
    case Transit(_) => true
  }

  ghost predicate HoldersOk(s: Delivery) {
    && |s.holders| <= 1
    && (s.hasFinish ==> s.holders == multiset{})
    && forall t | t in s.holders ::
         && (t.Held? ==> t.id in s.calls)
         && (t.Transit? && t.caller != NOBODY ==>
               t.caller >= 0 && t.caller in s.calls && s.calls[t.caller].phase.Working?)
         && forall id | id in s.calls :: Latest(s, t, id)
  }

  ghost predicate Inv(s: Delivery) {
    && HoldersOk(s) && CallsOk(s)
    && s.recycled == if s.hasFinish then 1 else 0
  }

  lemma SoleHolder(h: multiset<Token>, t: Token)
    requires |h| <= 1 && t in h
    ensures h == multiset{t} && h - multiset{t} == multiset{}
  {
    var rest := h - multiset{t};
    assert h == rest + multiset{t};
    assert |rest| == 0;
  }

  lemma RecycleKeepsInv(s: Delivery, step: Step, s': Delivery)
    requires Inv(s) && step.Recycle? && ContinueNext(s, step, s')
    ensures Inv(s')
  {
    SoleHolder(s.holders, Transit(step.caller));
    assert s'.holders == multiset{} && s'.calls == s.calls;
  }

  lemma SkipKeepsInv(s: Delivery, step: Step, s': Delivery)
    requires Inv(s) && (step.SkipDead? || step.SkipUninterested?) && ContinueNext(s, step, s')
    ensures Inv(s')
  {
    SoleHolder(s.holders, Transit(step.caller));
    assert s'.calls == s.calls && |s'.processors| == |s.processors| - 1;
  }

  lemma EnqueueKeepsInv(s: Delivery, step: Step, s': Delivery)
    requires Inv(s) && step.Enqueue? && ContinueNext(s, step, s')
    ensures Inv(s')
  {
    SoleHolder(s.holders, Transit(step.caller));
    assert s'.holders == multiset{Queued(s.processors[0])};
    assert s'.calls == s.calls && |s'.processors| == |s.processors| - 1;
  }

  lemma EnterInlineKeepsInv(s: Delivery, step: Step, s': Delivery)
    requires Inv(s) && step.EnterInline? && ContinueNext(s, step, s')
    ensures Inv(s')
  {
    SoleHolder(s.holders, Transit(step.caller));
    assert s'.holders == multiset{Held(s.entered)};
  }

  lemma EnterQueuedKeepsInv(s: Delivery, plugin: nat)
    requires Inv(s) && Queued(plugin) in s.holders
    ensures Inv(Entered(s, Queued(plugin), plugin))
  {
    SoleHolder(s.holders, Queued(plugin));
    assert Entered(s, Queued(plugin), plugin).holders == multiset{Held(s.entered)};
  }

  lemma PendKeepsInv(s: Delivery, id: nat, s': Delivery)
    requires Inv(s) && HeldNext(s, Pend(id), s')
    ensures Inv(s')
  {
    SoleHolder(s.holders, Held(id));
    assert s'.holders == multiset{Pended(s.calls[id].plugin)} && s'.calls == s.calls;
    assert HoldersOk(s');
  }

  lemma FinishKeepsInv(s: Delivery, id: nat, s': Delivery)
    requires Inv(s) && HeldNext(s, Finish(id), s')
    ensures Inv(s')
  {
    SoleHolder(s.holders, Held(id));
    assert s'.holders == multiset{} && s'.calls == s.calls;
  }

  lemma SelfContinueKeepsInv(s: Delivery, id: nat, s': Delivery)
    requires Inv(s) && HeldNext(s, SelfContinue(id), s')
    ensures Inv(s')
  {
    SoleHolder(s.holders, Held(id));
    assert s'.holders == multiset{Transit(id)} && s'.calls == s.calls;
  }

  /** A call that does not hold the event and is past its OnEvent may return. */
  lemma ReturnKeepsInv(s: Delivery, id: nat)
    requires Inv(s) && id in s.calls && Held(id) !in s.holders && !s.calls[id].phase.Working?
    ensures Inv(s.(calls := s.calls - {id}))
  {
    var s' := s.(calls := s.calls - {id});
    assert forall i | i in s'.calls :: i in s.calls && s'.calls[i] == s.calls[i];
    assert HoldersOk(s');
  }

  lemma PhaseKeepsInv(s: Delivery, id: nat, phase: ProxyPhase)
    requires Inv(s) && id in s.calls && Transit(id) !in s.holders
    requires match phase
             case Working => false
             case CheckFinish => s.calls[id].phase.Working?
             case CheckPending => s.calls[id].phase.CheckFinish? && !s.hasFinish
             case CheckSize => s.calls[id].phase.CheckPending? && !s.hasPending
    ensures Inv(s.(calls := s.calls[id := s.calls[id].(phase := phase)]))
  {
    var s' := s.(calls := s.calls[id := s.calls[id].(phase := phase)]);
    assert IsHeld(s, id) || Harmless(s, id);
    forall i | i in s'.calls && i != id ensures !IsHeld(s', i) ==> Harmless(s', i) {
      assert s'.calls[i] == s.calls[i];
      assert Harmless(s, i) ==> Harmless(s', i);
    }
    assert CallsOk(s');
    forall t | t in s'.holders ensures forall i | i in s'.calls :: Latest(s', t, i) {
      assert forall i | i in s'.calls :: Latest(s, t, i);
    }
    assert HoldersOk(s');
  }

  lemma ReadSizeKeepsInv(s: Delivery, id: nat, s': Delivery)
    requires Inv(s) && GuardNext(s, ReadSize(id), s')
    ensures Inv(s')
    ensures |s'.holders| == |s.holders|
  {
    if Held(id) in s.holders {
      SoleHolder(s.holders, Held(id));
      assert s'.holders == multiset{Transit(NOBODY)};
      assert forall i | i in s'.calls :: i in s.calls && s'.calls[i] == s.calls[i];
      assert forall i | i in s'.calls :: s'.calls[i].sizeAtEntry > |s'.processors|;
    } else {
      assert s.holders - multiset{Held(id)} == s.holders;
      assert Harmless(s, id);
      ReturnKeepsInv(s, id);
    }
  }

  lemma GuardKeepsInv(s: Delivery, step: Step, s': Delivery)
    requires Inv(s) && (step.EndWork? || step.ReadFinish? || step.ReadPending? || step.ReadSize?)
    requires GuardNext(s, step, s')
    ensures Inv(s')
  {
    var id := step.id;
    match step
    case EndWork(_) => PhaseKeepsInv(s, id, CheckFinish);
    case ReadFinish(_) =>
      if s.hasFinish { StoppedKeepsInv(s, id); } else { PhaseKeepsInv(s, id, CheckPending); }
    case ReadPending(_) =>
      if s.hasPending { StoppedKeepsInv(s, id); } else { PhaseKeepsInv(s, id, CheckSize); }
    case ReadSize(_) => ReadSizeKeepsInv(s, id, s');
  }

  lemma HolderSeesNoFlag(s: Delivery, id: nat)
    requires Inv(s) && id in s.calls
    ensures Held(id) in s.holders ==> !s.hasFinish && !s.hasPending
  {
    if Held(id) in s.holders {
      SoleHolder(s.holders, Held(id));
      assert IsHeld(s, id);
    }
  }

  /** A call that finds a flag set does not hold the event, and returns. */
  lemma StoppedKeepsInv(s: Delivery, id: nat)
    requires Inv(s) && id in s.calls && !s.calls[id].phase.Working? && (s.hasFinish || s.hasPending)
    ensures Inv(s.(calls := s.calls - {id}, holders := s.holders - multiset{Held(id)}))
  {
    HolderSeesNoFlag(s, id);
    assert s.holders - multiset{Held(id)} == s.holders;
    ReturnKeepsInv(s, id);
  }

  lemma RedeliverKeepsInv(s: Delivery, plugin: nat)
    requires Inv(s) && Pended(plugin) in s.holders && NoCallOf(s, plugin)
    ensures Inv(Entered(s, Pended(plugin), plugin))
  {
    SoleHolder(s.holders, Pended(plugin));
    assert Entered(s, Pended(plugin), plugin).holders == multiset{Held(s.entered)};
    assert forall id | id in s.calls :: s.calls[id].sizeAtEntry > |s.processors|;
  }

  lemma PendedContinueKeepsInv(s: Delivery, plugin: nat, s': Delivery)
    requires Inv(s) && PendedNext(s, PendedContinue(plugin), s')
    ensures Inv(s')
  {
    SoleHolder(s.holders, Pended(plugin));
    assert s'.holders == multiset{Transit(NOBODY)};
    assert s'.calls == s.calls;
  }

  lemma PendedFinishKeepsInv(s: Delivery, plugin: nat, s': Delivery)
    requires Inv(s) && PendedNext(s, PendedFinish(plugin), s')
    ensures Inv(s')
  {
    SoleHolder(s.holders, Pended(plugin));
    assert s'.calls == s.calls;
  }

  /** No call that is still on a stack entered at the present size. */
  ghost predicate Quiet(s: Delivery) {
    forall id | id in s.calls :: s.calls[id].sizeAtEntry > |s.processors|
  }

  /** Once the plug-in that pended the event has returned, nobody is left who entered at this size. */
  lemma QuietOnceReturned(s: Delivery, plugin: nat)
    requires Inv(s) && Pended(plugin) in s.holders && NoCallOf(s, plugin)
    ensures Quiet(s)
  {
  }

  lemma PendedResetKeepsInv(s: Delivery, plugin: nat, s': Delivery)
    requires Inv(s) && PendedNext(s, PendedResetContinue(plugin), s') && NoCallOf(s, plugin)
    ensures Inv(s')
  {
    QuietOnceReturned(s, plugin);
    SoleHolder(s.holders, Pended(plugin));
    assert s'.holders == multiset{Transit(NOBODY)};
    assert s'.calls == s.calls;
  }

  /** Whoever clears the pending flag before continuing must wait until the plug-in that pended the event
      has returned. */
  ghost predicate Disciplined(s: Delivery, step: Step) {
    step.PendedResetContinue? ==> NoCallOf(s, step.plugin)
  }

  lemma StepKeepsInv(s: Delivery, step: Step, s': Delivery)
    requires Inv(s) && Next(s, step, s') && Disciplined(s, step)
    ensures Inv(s')
  {
    match step
    case Recycle(_) => RecycleKeepsInv(s, step, s');
    case SkipDead(_) => SkipKeepsInv(s, step, s');
    case SkipUninterested(_) => SkipKeepsInv(s, step, s');
    case Enqueue(_) => EnqueueKeepsInv(s, step, s');
    case EnterInline(_) => EnterInlineKeepsInv(s, step, s');
    case EnterQueued(p) => EnterQueuedKeepsInv(s, p);
    case Pend(id) => PendKeepsInv(s, id, s');
    case Finish(id) => FinishKeepsInv(s, id, s');
    case SelfContinue(id) => SelfContinueKeepsInv(s, id, s');
    case EndWork(_) => GuardKeepsInv(s, step, s');
    case ReadFinish(_) => GuardKeepsInv(s, step, s');
    case ReadPending(_) => GuardKeepsInv(s, step, s');
    case ReadSize(_) => GuardKeepsInv(s, step, s');
    case PendedContinue(p) => PendedContinueKeepsInv(s, p, s');
    case PendedFinish(p) => PendedFinishKeepsInv(s, p, s');
    case PendedRedeliver(p) => RedeliverKeepsInv(s, p);
    case PendedResetContinue(p) => PendedResetKeepsInv(s, p, s');
  }

  // ---------- Runs ----------

  /** A run fragment from an arbitrary state: `states[i]` is the state before `steps[i]`. */
  datatype Run = Run(steps: seq<Step>, states: seq<Delivery>)

  ghost predicate StepAt(r: Run, i: nat)
    requires i < |r.steps| && |r.states| == |r.steps| + 1
  {
    Next(r.states[i], r.steps[i], r.states[i + 1]) && Disciplined(r.states[i], r.steps[i])
  }

  ghost predicate Fragment(r: Run) {
    && |r.states| == |r.steps| + 1
    && forall i | 0 <= i < |r.steps| :: StepAt(r, i)
  }

  /** A whole delivery along a pipeline of n plug-ins. */
  ghost predicate ValidRun(r: Run, n: nat) {
    Fragment(r) && r.states[0] == Initial(n)
  }

  lemma StepAtKeepsInv(r: Run, k: nat)
    requires Fragment(r) && k < |r.steps| && Inv(r.states[k])
    ensures Inv(r.states[k + 1])
  {
    assert StepAt(r, k);
    StepKeepsInv(r.states[k], r.steps[k], r.states[k + 1]);
  }

  lemma {:induction false} FragmentKeepsInv(r: Run, k: nat)
    requires Fragment(r) && Inv(r.states[0]) && k <= |r.steps|
    ensures Inv(r.states[k])
  {
    if k > 0 {
      FragmentKeepsInv(r, k - 1);
      StepAtKeepsInv(r, k - 1);
    }
  }

  lemma InitialInv(n: nat)
    ensures Inv(Initial(n)) && Ordered(Initial(n), n)
  {
  }

  /** The event is never held by two parties at the same time, it is recycled at most once and exactly
      when it is finished, a finished event is held by nobody, and no call of OnContinue finds a
      finished event, so the empty list is never popped. */
  lemma SingleHolder(r: Run, n: nat, k: nat)
    requires ValidRun(r, n) && k <= |r.steps|
    ensures var s := r.states[k];
            && |s.holders| <= 1
            && s.recycled <= 1 && (s.recycled == 1 <==> s.hasFinish)
            && (s.hasFinish ==> s.holders == multiset{})
            && (forall t | t in s.holders && t.Transit? :: !s.hasFinish)
  {
    InitialInv(n);
    FragmentKeepsInv(r, k);
  }

  // ---------- Order of visits ----------

  ghost predicate Increasing(q: seq<nat>, below: nat) {
    && (forall i | 0 <= i < |q| :: q[i] < below)
    && (forall i, j | 0 <= i < j < |q| :: q[i] < q[j])
  }

  /** The processors left are the tail of the pipeline; those before it were visited in order or
      skipped, and none both. */
  ghost predicate Ordered(s: Delivery, n: nat) {
    && |s.processors| <= n
    && var k := n - |s.processors|;
       && (forall i | 0 <= i < |s.processors| :: s.processors[i] == k + i)
       && Increasing(s.visited, k) && Increasing(s.skipped, k)
       && (forall p | 0 <= p < k :: p in s.visited <==> p !in s.skipped)
  }

  ghost predicate Pops(step: Step) {
    step.SkipDead? || step.SkipUninterested? || step.Enqueue? || step.EnterInline?
  }

  /** What a step does to the three lists of positions. */
  ghost predicate ListsNext(s: Delivery, step: Step, s': Delivery) {
    if Pops(step) then
      && s.processors != [] && s'.processors == s.processors[1..]
      && var p := s.processors[0];
         if step.SkipDead? || step.SkipUninterested? then
           s'.skipped == s.skipped + [p] && s'.visited == s.visited
         else
           s'.visited == s.visited + [p] && s'.skipped == s.skipped
    else
      s'.processors == s.processors && s'.visited == s.visited && s'.skipped == s.skipped
  }

  lemma ListsAt(r: Run, k: nat)
    requires Fragment(r) && k < |r.steps|
    ensures ListsNext(r.states[k], r.steps[k], r.states[k + 1])
  {
    assert StepAt(r, k);
  }

  lemma IncreasingAppend(q: seq<nat>, k: nat)
    requires Increasing(q, k)
    ensures Increasing(q + [k], k + 1) && Increasing(q, k + 1)
  {
  }

  lemma PopKeepsOrder(s: Delivery, step: Step, s': Delivery, n: nat)
    requires Ordered(s, n) && Pops(step) && ListsNext(s, step, s')
    ensures Ordered(s', n)
  {
    var p := s.processors[0];
    assert p == n - |s.processors|;
    IncreasingAppend(s.visited, p);
    IncreasingAppend(s.skipped, p);
    assert p !in s.visited && p !in s.skipped;
  }

  lemma {:induction false} OrderKept(r: Run, n: nat, k: nat)
    requires ValidRun(r, n) && k <= |r.steps|
    ensures Ordered(r.states[k], n)
  {
    if k == 0 {
      InitialInv(n);
    } else {
      OrderKept(r, n, k - 1);
      ListsAt(r, k - 1);
      if Pops(r.steps[k - 1]) {
        PopKeepsOrder(r.states[k - 1], r.steps[k - 1], r.states[k], n);
      }
    }
  }

  lemma {:induction false} CountVisits(r: Run, n: nat, k: nat)
    requires ValidRun(r, n) && k <= |r.steps|
    ensures |r.states[k].visited| + |r.states[k].skipped| + |r.states[k].processors| == n
  {
    if k > 0 {
      CountVisits(r, n, k - 1);
      ListsAt(r, k - 1);
    }
  }

  /** In every run the plug-ins are visited in pipeline order, each at most once; every plug-in passed
      over was found dead or not interested; when the list has run out, every plug-in is accounted for. */
  lemma VisitsInOrder(r: Run, n: nat, k: nat)
    requires ValidRun(r, n) && k <= |r.steps|
    ensures var s := r.states[k];
            && Increasing(s.visited, n) && Increasing(s.skipped, n)
            && |s.visited| + |s.skipped| + |s.processors| == n
            && (s.processors == [] ==> forall p | 0 <= p < n :: p in s.visited <==> p !in s.skipped)
  {
    OrderKept(r, n, k);
    CountVisits(r, n, k);
  }

  lemma FinishedStays(r: Run, k: nat)
    requires Fragment(r) && k < |r.steps| && Inv(r.states[k]) && r.states[k].hasFinish
    ensures r.states[k + 1].hasFinish && !Pops(r.steps[k])
  {
    assert StepAt(r, k);
  }

  /** Finishing is final: nothing is visited, popped or recycled afterwards. */
  lemma {:induction false} FinishIsFinal(r: Run, n: nat, i: nat, k: nat)
    requires ValidRun(r, n) && i <= k <= |r.steps| && r.states[i].hasFinish
    ensures r.states[k].hasFinish && r.states[k].recycled == 1
    ensures r.states[k].visited == r.states[i].visited && r.states[k].processors == r.states[i].processors
    decreases k
  {
    SingleHolder(r, n, k);
    if i < k {
      FinishIsFinal(r, n, i, k - 1);
      InitialInv(n);
      FragmentKeepsInv(r, k - 1);
      FinishedStays(r, k - 1);
      ListsAt(r, k - 1);
    }
  }

  // ---------- Lost events ----------

  /** Nobody will ever move the event again, and it is not finished. */
  ghost predicate Lost(s: Delivery) {
    s.holders == multiset{} && !s.hasFinish
  }

  /** Step i passes over a plug-in that is not interested while the flag of an earlier one is set. */
  ghost predicate LosesAt(r: Run, i: nat)
    requires i < |r.steps| < |r.states|
  {
    r.steps[i].SkipUninterested? && r.states[i].hasPending
  }

  /** A lost event stays lost: every call that is left has been overtaken and cannot pass its guard. */
  lemma LostStays(s: Delivery, step: Step, s': Delivery)
    requires Lost(s) && Quiet(s) && Next(s, step, s')
    ensures Lost(s') && Quiet(s') && !step.SkipUninterested?
  {
    assert step.EndWork? || step.ReadFinish? || step.ReadPending? || step.ReadSize?;
    assert s.holders - multiset{Held(step.id)} == multiset{};
    assert s'.processors == s.processors;
    assert forall i | i in s'.calls :: i in s.calls && s'.calls[i].sizeAtEntry == s.calls[i].sizeAtEntry;
  }

  lemma SkipLosesIff(s: Delivery, step: Step, s': Delivery)
    requires Inv(s) && step.SkipUninterested? && ContinueNext(s, step, s')
    ensures Lost(s') <==> s.hasPending
    ensures Quiet(s')
  {
    SoleHolder(s.holders, Transit(step.caller));
  }

  lemma GuardKeepsHeld(s: Delivery, step: Step, s': Delivery)
    requires Inv(s) && !Lost(s) && (step.EndWork? || step.ReadFinish? || step.ReadPending? || step.ReadSize?)
    requires GuardNext(s, step, s')
    ensures !Lost(s')
  {
    if Held(step.id) in s.holders {
      SoleHolder(s.holders, Held(step.id));
      assert IsHeld(s, step.id);
    } else {
      assert s.holders - multiset{Held(step.id)} == s.holders;
      assert Harmless(s, step.id);
    }
  }

  lemma MoveKeepsHeld(s: Delivery, step: Step, s': Delivery)
    requires Inv(s) && Next(s, step, s') && !step.SkipUninterested?
    requires !step.EndWork? && !step.ReadFinish? && !step.ReadPending? && !step.ReadSize?
    ensures !Lost(s')
  {
    var t :| t in s.holders;
    SoleHolder(s.holders, t);
  }

  lemma LostStep(s: Delivery, step: Step, s': Delivery)
    requires Inv(s) && !Lost(s) && Next(s, step, s')
    ensures Lost(s') <==> step.SkipUninterested? && s.hasPending
    ensures Lost(s') ==> Quiet(s')
  {
    if step.SkipUninterested? {
      SkipLosesIff(s, step, s');
    } else if step.EndWork? || step.ReadFinish? || step.ReadPending? || step.ReadSize? {
      GuardKeepsHeld(s, step, s');
    } else {
      MoveKeepsHeld(s, step, s');
    }
  }

  lemma LostAt(r: Run, k: nat)
    requires Fragment(r) && k < |r.steps| && Inv(r.states[k]) && (Lost(r.states[k]) ==> Quiet(r.states[k]))
    ensures Lost(r.states[k + 1]) <==> Lost(r.states[k]) || LosesAt(r, k)
    ensures Lost(r.states[k + 1]) ==> Quiet(r.states[k + 1])
  {
    assert StepAt(r, k);
    if Lost(r.states[k]) {
      LostStays(r.states[k], r.steps[k], r.states[k + 1]);
    } else {
      LostStep(r.states[k], r.steps[k], r.states[k + 1]);
    }
  }

  lemma {:induction false} LostAndQuiet(r: Run, n: nat, k: nat)
    requires ValidRun(r, n) && k <= |r.steps|
    ensures Lost(r.states[k]) <==> exists i | 0 <= i < k :: LosesAt(r, i)
    ensures Lost(r.states[k]) ==> Quiet(r.states[k])
  {
    if k > 0 {
      LostAndQuiet(r, n, k - 1);
      InitialInv(n);
      FragmentKeepsInv(r, k - 1);
      LostAt(r, k - 1);
    }
  }

  /** In every run the event is lost exactly if at some earlier step it was passed over a plug-in that was
      not interested while its pending flag was set. */
  lemma LostIff(r: Run, n: nat, k: nat)
    requires ValidRun(r, n) && k <= |r.steps|
    ensures Lost(r.states[k]) <==> exists i | 0 <= i < k :: LosesAt(r, i)
  {
    LostAndQuiet(r, n, k);
  }

  /** Whoever is about to continue the event finds its flag cleared. */
  ghost predicate FreshTransit(s: Delivery) {
    forall t | t in s.holders && t.Transit? :: !s.hasPending
  }

  lemma FreshGuard(s: Delivery, step: Step, s': Delivery)
    requires Inv(s) && FreshTransit(s)
    requires step.EndWork? || step.ReadFinish? || step.ReadPending? || step.ReadSize?
    requires GuardNext(s, step, s')
    ensures FreshTransit(s')
  {
    if Held(step.id) in s.holders {
      SoleHolder(s.holders, Held(step.id));
      assert IsHeld(s, step.id);
    } else {
      assert s.holders - multiset{Held(step.id)} == s.holders;
      assert Harmless(s, step.id);
    }
  }

  lemma FreshMove(s: Delivery, step: Step, s': Delivery)
    requires Inv(s) && FreshTransit(s) && Next(s, step, s') && !step.PendedContinue?
    requires !step.EndWork? && !step.ReadFinish? && !step.ReadPending? && !step.ReadSize?
    ensures FreshTransit(s')
  {
    var t :| t in s.holders;
    SoleHolder(s.holders, t);
  }

  lemma FreshStep(r: Run, k: nat)
    requires Fragment(r) && k < |r.steps| && Inv(r.states[k])
    requires FreshTransit(r.states[k]) && !r.steps[k].PendedContinue?
    ensures FreshTransit(r.states[k + 1]) && !LosesAt(r, k)
  {
    assert StepAt(r, k);
    var step := r.steps[k];
    if step.EndWork? || step.ReadFinish? || step.ReadPending? || step.ReadSize? {
      FreshGuard(r.states[k], step, r.states[k + 1]);
    } else {
      FreshMove(r.states[k], step, r.states[k + 1]);
    }
  }

  lemma {:induction false} AlwaysFresh(r: Run, n: nat, k: nat)
    requires ValidRun(r, n) && k <= |r.steps|
    requires forall i | 0 <= i < |r.steps| :: !r.steps[i].PendedContinue?
    ensures FreshTransit(r.states[k]) && forall i | 0 <= i < k :: !LosesAt(r, i)
  {
    if k > 0 {
      AlwaysFresh(r, n, k - 1);
      InitialInv(n);
      FragmentKeepsInv(r, k - 1);
      FreshStep(r, k - 1);
    }
  }

  /** If every pended event is continued with its flag cleared, no event is ever lost: it is held by
      someone until it is finished. */
  lemma NeverLost(r: Run, n: nat, k: nat)
    requires ValidRun(r, n) && k <= |r.steps|
    requires forall i | 0 <= i < |r.steps| :: !r.steps[i].PendedContinue?
    ensures !Lost(r.states[k])
  {
    AlwaysFresh(r, n, k);
    LostIff(r, n, k);
  }

  // ---------- Clearing the pending flag too early ----------

  function AfterReset(s: Delivery, plugin: nat): Delivery {
    s.(hasPending := false, holders := Move(s.holders, Pended(plugin), Transit(NOBODY)))
  }

  function AtPhase(s: Delivery, id: nat, phase: ProxyPhase): Delivery
    requires id in s.calls
  {
    s.(calls := s.calls[id := s.calls[id].(phase := phase)])
  }

  /** A call that entered at the present size and still has its guard ahead of it can walk through the
      guard once the flag has been cleared, so that the event is advanced twice. */
  lemma GuardLetsThrough(s: Delivery, id: nat) returns (r: Run)
    requires id in s.calls && s.calls[id].sizeAtEntry == |s.processors|
    requires !s.hasFinish && !s.hasPending && s.holders == multiset{Transit(NOBODY)}
    ensures Fragment(r) && r.states[0] == s
    ensures |r.states[|r.steps|].holders| == 2
    decreases match s.calls[id].phase case Working => 3 case CheckFinish => 2 case CheckPending => 1 case CheckSize => 0
  {
    var step, s';
    match s.calls[id].phase {
      case Working => step, s' := EndWork(id), AtPhase(s, id, CheckFinish);
      case CheckFinish => step, s' := ReadFinish(id), AtPhase(s, id, CheckPending);
      case CheckPending => step, s' := ReadPending(id), AtPhase(s, id, CheckSize);
      case CheckSize =>
        assert s.holders - multiset{Held(id)} == s.holders;
        step, s' := ReadSize(id), s.(calls := s.calls - {id}, holders := s.holders + multiset{Transit(NOBODY)});
    }
    assert Next(s, step, s');
    if s.calls[id].phase.CheckSize? {
      r := Run([step], [s, s']);
      assert StepAt(r, 0);
    } else {
      var tail := GuardLetsThrough(s', id);
      r := Prepend(s, step, tail);
    }
  }

  lemma Prepend(s: Delivery, step: Step, tail: Run) returns (r: Run)
    requires Fragment(tail) && Next(s, step, tail.states[0]) && Disciplined(s, step)
    ensures r == Run([step] + tail.steps, [s] + tail.states)
    ensures Fragment(r)
  {
    r := Run([step] + tail.steps, [s] + tail.states);
    forall i | 0 <= i < |r.steps| ensures StepAt(r, i) {
      if i > 0 {
        assert StepAt(tail, i - 1);
      }
    }
  }

  // ---------- Where calls and pended events stand ----------

  /** A call entered with exactly the plug-ins after its own left, and so many are left while its plug-in
      is waiting to be entered or has pended the event. */
  ghost predicate Placed(s: Delivery, n: nat) {
    && (forall id | id in s.calls :: s.calls[id].sizeAtEntry + s.calls[id].plugin + 1 == n)
    && (forall t | t in s.holders && (t.Pended? || t.Queued?) :: |s.processors| + t.plugin + 1 == n)
  }

  lemma ContinueKeepsPlaced(s: Delivery, step: Step, s': Delivery, n: nat)
    requires Inv(s) && Ordered(s, n) && Placed(s, n)
    requires step.Recycle? || step.SkipDead? || step.SkipUninterested? || step.Enqueue? || step.EnterInline?
    requires ContinueNext(s, step, s')
    ensures Placed(s', n)
  {
    SoleHolder(s.holders, Transit(step.caller));
    assert s.processors != [] ==> s.processors[0] == n - |s.processors|;
  }

  lemma HeldKeepsPlaced(s: Delivery, step: Step, s': Delivery, n: nat)
    requires Inv(s) && Placed(s, n) && (step.Pend? || step.Finish? || step.SelfContinue?) && HeldNext(s, step, s')
    ensures Placed(s', n)
  {
    SoleHolder(s.holders, Held(step.id));
    assert IsHeld(s, step.id);
  }

  lemma GuardKeepsPlaced(s: Delivery, step: Step, s': Delivery, n: nat)
    requires Placed(s, n) && (step.EndWork? || step.ReadFinish? || step.ReadPending? || step.ReadSize?)
    requires GuardNext(s, step, s')
    ensures Placed(s', n)
  {
    assert s'.processors == s.processors;
    assert forall t | t in s'.holders && !t.Transit? :: t in s.holders;
    assert forall i | i in s'.calls :: i in s.calls && s'.calls[i].plugin == s.calls[i].plugin
                                       && s'.calls[i].sizeAtEntry == s.calls[i].sizeAtEntry;
  }

  lemma EnterKeepsPlaced(s: Delivery, from: Token, n: nat)
    requires Inv(s) && Placed(s, n) && from in s.holders && (from.Queued? || from.Pended?)
    ensures Placed(Entered(s, from, from.plugin), n)
  {
    SoleHolder(s.holders, from);
  }

  lemma PendedKeepsPlaced(s: Delivery, step: Step, s': Delivery, n: nat)
    requires Inv(s) && Placed(s, n)
    requires step.PendedContinue? || step.PendedFinish? || step.PendedRedeliver? || step.PendedResetContinue?
    requires PendedNext(s, step, s')
    ensures Placed(s', n)
  {
    SoleHolder(s.holders, Pended(step.plugin));
    if step.PendedRedeliver? {
      EnterKeepsPlaced(s, Pended(step.plugin), n);
    }
  }

  lemma StepKeepsPlaced(s: Delivery, step: Step, s': Delivery, n: nat)
    requires Inv(s) && Ordered(s, n) && Placed(s, n) && Next(s, step, s')
    ensures Placed(s', n)
  {
    if step.Recycle? || step.SkipDead? || step.SkipUninterested? || step.Enqueue? || step.EnterInline? {
      ContinueKeepsPlaced(s, step, s', n);
    } else if step.EnterQueued? {
      EnterKeepsPlaced(s, Queued(step.plugin), n);
    } else if step.Pend? || step.Finish? || step.SelfContinue? {
      HeldKeepsPlaced(s, step, s', n);
    } else if step.EndWork? || step.ReadFinish? || step.ReadPending? || step.ReadSize? {
      GuardKeepsPlaced(s, step, s', n);
    } else {
      PendedKeepsPlaced(s, step, s', n);
    }
  }

  lemma StepAtKeepsPlaced(r: Run, n: nat, k: nat)
    requires Fragment(r) && k < |r.steps| && Inv(r.states[k]) && Ordered(r.states[k], n) && Placed(r.states[k], n)
    ensures Placed(r.states[k + 1], n)
  {
    assert StepAt(r, k);
    StepKeepsPlaced(r.states[k], r.steps[k], r.states[k + 1], n);
  }

  lemma RunKeepsOrder(r: Run, n: nat, k: nat)
    requires ValidRun(r, n) && k <= |r.steps|
    ensures Inv(r.states[k]) && Ordered(r.states[k], n)
  {
    InitialInv(n);
    FragmentKeepsInv(r, k);
    OrderKept(r, n, k);
  }

  lemma {:induction false} RunKeepsPlaced(r: Run, n: nat, k: nat)
    requires ValidRun(r, n) && k <= |r.steps|
    ensures Inv(r.states[k]) && Placed(r.states[k], n)
  {
    RunKeepsOrder(r, n, k);
    if k > 0 {
      RunKeepsPlaced(r, n, k - 1);
      RunKeepsOrder(r, n, k - 1);
      StepAtKeepsPlaced(r, n, k - 1);
    }
  }

  lemma ResetStaysSingle(s: Delivery, plugin: nat, r: Run)
    requires Inv(s) && Pended(plugin) in s.holders && NoCallOf(s, plugin)
    requires Fragment(r) && r.states[0] == AfterReset(s, plugin)
    ensures |r.states[|r.steps|].holders| <= 1
  {
    PendedResetKeepsInv(s, plugin, AfterReset(s, plugin));
    FragmentKeepsInv(r, |r.steps|);
  }

  lemma ResetDoubles(s: Delivery, plugin: nat, n: nat) returns (r: Run)
    requires Inv(s) && Placed(s, n) && Pended(plugin) in s.holders && !NoCallOf(s, plugin)
    ensures Fragment(r) && r.states[0] == AfterReset(s, plugin) && |r.states[|r.steps|].holders| == 2
  {
    SoleHolder(s.holders, Pended(plugin));
    assert AfterReset(s, plugin).holders == multiset{Transit(NOBODY)};
    var id :| id in s.calls && s.calls[id].plugin == plugin;
    r := GuardLetsThrough(AfterReset(s, plugin), id);
  }

  /** At any point of any run, clearing the flag of a pended event and continuing it keeps the event in
      one pair of hands, whatever happens next, exactly if the plug-in that pended it has returned. */
  lemma ResetSafeIff(r: Run, n: nat, k: nat, plugin: nat)
    requires ValidRun(r, n) && k <= |r.steps| && Pended(plugin) in r.states[k].holders
    ensures NoCallOf(r.states[k], plugin) <==>
            forall c: Run | Fragment(c) && c.states[0] == AfterReset(r.states[k], plugin) ::
              |c.states[|c.steps|].holders| <= 1
  {
    var s := r.states[k];
    RunKeepsPlaced(r, n, k);
    if NoCallOf(s, plugin) {
      forall c: Run | Fragment(c) && c.states[0] == AfterReset(s, plugin) ensures |c.states[|c.steps|].holders| <= 1 {
        ResetStaysSingle(s, plugin, c);
      }
    } else {
      var c := ResetDoubles(s, plugin, n);
    }
  }

  /** Both cases occur: in every pipeline that is not empty the first plug-in can pend the event and still
      be running, so that clearing the flag at once leads to two holders. */
  lemma ResetRaces(n: nat) returns (r: Run, c: Run)
    requires n > 0
    ensures ValidRun(r, n) && r.steps == [EnterInline(NOBODY), Pend(0)]
    ensures r.states[2].holders == multiset{Pended(0)} && |r.states[2].processors| == n - 1
    ensures r.states[2].hasPending && !r.states[2].hasFinish
    ensures !NoCallOf(r.states[2], 0)
    ensures Fragment(c) && c.states[0] == AfterReset(r.states[2], 0) && |c.states[|c.steps|].holders| == 2
  {
    var s0 := Initial(n);
    var s1 := Entered(Popped(s0).(visited := [0]), Transit(NOBODY), 0);
    assert s1.holders == multiset{Held(0)};
    var s2 := s1.(hasPending := true, holders := Move(s1.holders, Held(0), Pended(0)));
    r := Run([EnterInline(NOBODY), Pend(0)], [s0, s1, s2]);
    assert Popped(s0).visited + [0] == [0];
    assert StepAt(r, 0) && StepAt(r, 1);
    assert s2.calls[0].plugin == 0;
    RunKeepsPlaced(r, n, 2);
    c := ResetDoubles(s2, 0, n);
  }

  lemma Append(r: Run, step: Step, s': Delivery) returns (r': Run)
    requires Fragment(r) && Next(r.states[|r.steps|], step, s') && Disciplined(r.states[|r.steps|], step)
    ensures r' == Run(r.steps + [step], r.states + [s']) && Fragment(r')
  {
    r' := Run(r.steps + [step], r.states + [s']);
    forall i | 0 <= i < |r'.steps| ensures StepAt(r', i) {
      if i < |r.steps| {
        assert StepAt(r, i);
      }
    }
  }

  /** And events do get lost: the first plug-in pends, the event is continued with the flag still set, and
      the second plug-in is not interested. */
  lemma EventGetsLost(n: nat) returns (r: Run)
    requires n > 1
    ensures ValidRun(r, n)
    ensures r.steps == [EnterInline(NOBODY), Pend(0), PendedContinue(0), SkipUninterested(NOBODY)]
    ensures Lost(r.states[4])
  {
    var p, c := ResetRaces(n);
    var s := p.states[2];
    var s3 := s.(holders := Move(s.holders, Pended(0), Transit(NOBODY)));
    assert s3.holders == multiset{Transit(NOBODY)};
    var q := Append(p, PendedContinue(0), s3);
    var t := Popped(s3);
    var s4 := t.(skipped := t.skipped + [s3.processors[0]], holders := t.holders - multiset{Transit(NOBODY)});
    r := Append(q, SkipUninterested(NOBODY), s4);
  }
}
