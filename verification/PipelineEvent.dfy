/** The pipeline event object: OnContinue and OnEventProxy call each other, and the guard of
    OnEventProxy keeps the recursion from advancing twice. The recursion is proved equal to a single
    walk along the list of processors. */
module PipelineEvents {
  import opened Collections

  /** What a plug-in's OnEvent does with the event, as far as delivery is concerned. */
  datatype Behaviour = ReturnOnly | FinishIt | PendIt | ContinueIt | PendThenContinue

  /** A plug-in as the event sees it at its turn; `alive` is the outcome of locking the weak pointer. */
  datatype Plugin = Plugin(
    name: string,
    alive: bool,
    interested: bool,
    canProcessMore: bool,
    hasWorkLoop: bool,
    behaviour: Behaviour)

  datatype End = Done | Queued | Pended | Stalled

  /** The outcome of a call: whom it visited, what is left, how it ended and the pending flag. */
  datatype Walk = Walk(visited: seq<Plugin>, remaining: seq<Plugin>, end: End, pending: bool)
  {
    function Visiting(p: Plugin): Walk {
      this.(visited := [p] + visited)
    }
  }

  /** One pass over the list, without recursion into plug-ins and without any guard. */
  function WalkFrom(procs: seq<Plugin>, pending: bool): Walk
    decreases |procs|, 0
  {
    if procs == [] then Walk([], [], Done, pending)
    else
      var p, rest := procs[0], procs[1..];
      if !p.alive then WalkFrom(rest, pending)
      else if !p.interested then
        if pending then Walk([], rest, Stalled, true) else WalkFrom(rest, false)
      else if p.hasWorkLoop then Walk([p], rest, Queued, pending)
      else WalkInto(p, rest)
  }

  /** The pass from a plug-in that has the event now. */
  function WalkInto(p: Plugin, rest: seq<Plugin>): Walk
    decreases |rest|, 1
  {
    match p.behaviour
    case ReturnOnly => WalkFrom(rest, false).Visiting(p)
    case ContinueIt => WalkFrom(rest, false).Visiting(p)
    case PendThenContinue => WalkFrom(rest, true).Visiting(p)
    case FinishIt => Walk([p], rest, Done, false)
    case PendIt => Walk([p], rest, Pended, true)
  }

  /** A walk that does not end the event has popped somebody. */
  lemma {:induction false} WalkProgress(procs: seq<Plugin>, pending: bool)
    ensures var w := WalkFrom(procs, pending);
            w.end.Done? || |w.remaining| < |procs|
    decreases |procs|
  {
    if procs != [] {
      WalkProgress(procs[1..], pending);
      WalkProgress(procs[1..], false);
      WalkProgress(procs[1..], true);
    }
  }

  /** The state of an event. */
  datatype Event = Event(
    processors: seq<Plugin>,
    hasFinish: bool,
    hasPending: bool,
    recycled: nat,
    handedOver: seq<Plugin>,
    visited: seq<Plugin>)

  class PipelineEvent {
    var processors: seq<Plugin>
    var hasFinish: bool
    var hasPending: bool
    var startDeliver: bool
    // whether the event has a producer, and the calls made to it and to work loops
    const hasHandler: bool
    var recycled: nat
    var paused: seq<Plugin>
    var handedOver: seq<Plugin>
    ghost var visited: seq<Plugin>

    constructor (hasHandler: bool)
      ensures this.hasHandler == hasHandler
      ensures processors == [] && !hasFinish && !hasPending && !startDeliver
      ensures recycled == 0 && paused == [] && handedOver == [] && visited == []
    {
      this.hasHandler := hasHandler;
      processors, hasFinish, hasPending, startDeliver := [], false, false, false;
      recycled, paused, handedOver, visited := 0, [], [], [];
    }

    ghost function View(): Event
      reads this
    {
      Event(processors, hasFinish, hasPending, recycled, handedOver, visited)
    }

    method OnFinish()
      requires !hasFinish
      modifies this
      ensures hasFinish && recycled == old(recycled) + (if hasHandler then 1 else 0)
      ensures processors == old(processors) && hasPending == old(hasPending)
      ensures handedOver == old(handedOver) && visited == old(visited)
    {
      if hasHandler {
        recycled := recycled + 1;
      }
      hasFinish := true;
    }

    /** Passes the event on along its processors. */
    method OnContinue()
      requires !hasFinish
      modifies this
      ensures After(old(View()), WalkFrom(old(processors), old(hasPending)), View(), hasHandler)
      ensures Delivered(old(View()), old(processors), old(hasPending), View(), hasHandler)
      decreases |processors|, 0
    {
      if !hasFinish && processors == [] {
        OnFinish();
        WalkDelivers(old(View()), old(processors), old(hasPending), View(), hasHandler);
        return;
      }
      startDeliver := true;
      var p := processors[0];
      processors := processors[1..];
      assert [p] + processors == old(processors);
      if p.alive {
        Offer(p);
      } else {
        OnContinue();
      }
      WalkDelivers(old(View()), old(processors), old(hasPending), View(), hasHandler);
    }

    /** Offers the event to a live plug-in that has just been taken off the list. */
    method Offer(p: Plugin)
      requires !hasFinish && p.alive
      modifies this
      ensures After(old(View()), WalkFrom([p] + old(processors), old(hasPending)), View(), hasHandler)
      decreases |processors|, 3
    {
      assert ([p] + processors)[1..] == processors;
      if !p.canProcessMore && hasHandler {
        paused := paused + [p];
      }
      if !p.interested {
        if !hasFinish && !hasPending {
          OnContinue();
        }
        return;
      }
      if p.hasWorkLoop {
        handedOver := handedOver + [p];
        visited := visited + [p];
      } else {
        OnEventProxy(p);
      }
    }

    method OnEventProxy(p: Plugin)
      requires !hasFinish
      modifies this
      ensures After(old(View()), WalkInto(p, old(processors)), View(), hasHandler)
      ensures p.behaviour.FinishIt? || p.behaviour.PendIt? ==>
                && processors == old(processors) && visited == old(visited) + [p] && handedOver == old(handedOver)
                && hasFinish == p.behaviour.FinishIt? && hasPending == p.behaviour.PendIt?
                && recycled == old(recycled) + Unit(p.behaviour.FinishIt? && hasHandler)
      ensures !p.behaviour.FinishIt? && !p.behaviour.PendIt? ==>
                Delivered(old(View()).(visited := old(visited) + [p]), old(processors), p.behaviour.PendThenContinue?,
                          View(), hasHandler)
      decreases |processors|, 2
    {
      WalkProgress(processors, p.behaviour.PendThenContinue?);
      var processorSize := |processors|;
      hasPending := false;
      visited := visited + [p];
      OnEvent(p.behaviour);
      if !hasFinish && !hasPending && processorSize == |processors| {
        OnContinue();
      }
      ProxyOutcome(old(View()), p, View(), hasHandler);
    }

    /** What a plug-in does with an event that it has just been given. */
    method OnEvent(b: Behaviour)
      requires !hasFinish && !hasPending
      modifies this
      ensures b.ReturnOnly? ==> View() == old(View())
      ensures b.PendIt? ==> View() == old(View()).(hasPending := true)
      ensures b.FinishIt? ==> View() == old(View()).(hasFinish := true, recycled := old(recycled) + Unit(hasHandler))
      ensures b.ContinueIt? || b.PendThenContinue? ==>
                After(old(View()), WalkFrom(old(processors), b.PendThenContinue?), View(), hasHandler)
      decreases |processors|, 1
    {
      match b {
        case ReturnOnly =>
        case FinishIt => OnFinish();
        case PendIt => hasPending := true;
        case ContinueIt => OnContinue();
        case PendThenContinue =>
          hasPending := true;
          OnContinue();
      }
    }

    method ProcessEvent(pipeline: seq<Plugin>)
      requires !hasFinish
      modifies this
      ensures After(old(View()), WalkFrom(pipeline, old(hasPending)), View(), hasHandler)
      ensures Delivered(old(View()), pipeline, old(hasPending), View(), hasHandler)
    {
      processors := pipeline;
      OnContinue();
      WalkDelivers(old(View()), pipeline, old(hasPending), View(), hasHandler);
    }

    /** Starts a repacked event at the plug-in that repacks it: everything before its first live
        occurrence is dropped, or everything if there is none. */
    method FillPipelineInfo(sequence: seq<Plugin>, caller: string, deliverFromCurrent: bool)
      modifies this`processors
      ensures !deliverFromCurrent ==> processors == sequence
      ensures deliverFromCurrent ==>
                && |processors| <= |sequence|
                && var k := |sequence| - |processors|;
                   && processors == sequence[k..]
                   && (forall i | 0 <= i < k :: !(sequence[i].alive && sequence[i].name == caller))
                   && (processors != [] ==> processors[0].alive && processors[0].name == caller)
    {
      var k := 0;
      if deliverFromCurrent {
        while k < |sequence| && !(sequence[k].alive && sequence[k].name == caller)
          invariant k <= |sequence|
          invariant forall i | 0 <= i < k :: !(sequence[i].alive && sequence[i].name == caller)
        {
          k := k + 1;
        }
      }
      processors := sequence[k..];
    }
  }

  // ---------- What a walk does ----------

  function Eligible(procs: seq<Plugin>): seq<Plugin> {
    if procs == [] then []
    else (if procs[0].alive && procs[0].interested then [procs[0]] else []) + Eligible(procs[1..])
  }

  predicate VisitsEligible(w: Walk, procs: seq<Plugin>) {
    && |w.remaining| <= |procs|
    && var k := |procs| - |w.remaining|;
       w.remaining == procs[k..] && w.visited == Eligible(procs[..k])
  }

  lemma ConsumeOne(w: Walk, procs: seq<Plugin>)
    requires procs != [] && VisitsEligible(w, procs[1..])
    ensures VisitsEligible(if procs[0].alive && procs[0].interested then w.Visiting(procs[0]) else w, procs)
  {
    var k := |procs[1..]| - |w.remaining|;
    assert procs[k + 1..] == procs[1..][k..];
    assert procs[..k + 1][1..] == procs[1..][..k];
    assert Eligible(procs[..k + 1]) ==
           (if procs[0].alive && procs[0].interested then [procs[0]] else []) + Eligible(procs[1..][..k]);
  }

  lemma StopsHere(procs: seq<Plugin>, end: End, pending: bool)
    ensures VisitsEligible(Walk([], procs, end, pending), procs)
  {
    assert procs[0..] == procs && Eligible(procs[..0]) == [];
  }

  /** A walk consumes a prefix of the list and visits exactly the live, interested plug-ins of that
      prefix, in order. */
  lemma {:induction false} WalkVisitsEligible(procs: seq<Plugin>, pending: bool)
    ensures VisitsEligible(WalkFrom(procs, pending), procs)
    decreases |procs|
  {
    if procs == [] {
      StopsHere(procs, Done, pending);
    } else {
      var p, rest := procs[0], procs[1..];
      var w := WalkFrom(procs, pending);
      var inner: Walk;
      if !p.alive || (!p.interested && !pending) {
        WalkVisitsEligible(rest, pending);
        inner := WalkFrom(rest, pending);
      } else if !p.interested || p.hasWorkLoop || p.behaviour.FinishIt? || p.behaviour.PendIt? {
        StopsHere(rest, w.end, w.pending);
        inner := Walk([], rest, w.end, w.pending);
      } else {
        WalkVisitsEligible(rest, p.behaviour.PendThenContinue?);
        inner := WalkFrom(rest, p.behaviour.PendThenContinue?);
      }
      ConsumeOne(inner, procs);
    }
  }

  // ---------- Where a walk ends ----------

  /** The pending flag when the k-th plug-in of the list is reached: that of the last eligible one before
      it, which is set only by pending and continuing, or the one at the start. */
  function FlagBefore(procs: seq<Plugin>, pending: bool, k: nat): bool
    requires k <= |procs|
  {
    var seen := Eligible(procs[..k]);
    if seen == [] then pending else seen[|seen| - 1].behaviour.PendThenContinue?
  }

  /** Whether the event goes no further than the k-th plug-in: it is live and either takes the event into a
      work loop, pends it or finishes it, or is not interested while the pending flag is set. */
  predicate Stops(procs: seq<Plugin>, pending: bool, k: nat)
    requires k < |procs|
  {
    && procs[k].alive
    && if procs[k].interested then procs[k].hasWorkLoop || procs[k].behaviour.PendIt? || procs[k].behaviour.FinishIt?
       else FlagBefore(procs, pending, k)
  }

  /** The first c plug-ins are passed: none before the last of them stops the event, and unless the last
      does, there are no others. */
  ghost predicate GetsTo(procs: seq<Plugin>, pending: bool, c: nat)
    requires c <= |procs|
  {
    && (forall k | 0 <= k < c - 1 :: !Stops(procs, pending, k))
    && (c == |procs| || (c > 0 && Stops(procs, pending, c - 1)))
  }

  /** What has become of the event after the first c plug-ins. */
  function Ends(procs: seq<Plugin>, pending: bool, c: nat): End
    requires c <= |procs|
  {
    if c == 0 || !Stops(procs, pending, c - 1) then Done
    else if !procs[c - 1].interested then Stalled
    else if procs[c - 1].hasWorkLoop then Queued
    else if procs[c - 1].behaviour.PendIt? then Pended
    else Done
  }

  /** The pending flag then: an inline plug-in that stopped the event has set or cleared it. */
  function FlagLeft(procs: seq<Plugin>, pending: bool, c: nat): bool
    requires c <= |procs|
  {
    if c > 0 && procs[c - 1].alive && procs[c - 1].interested && !procs[c - 1].hasWorkLoop then
      procs[c - 1].behaviour.PendIt? || procs[c - 1].behaviour.PendThenContinue?
    else if c > 0 && procs[c - 1].alive && procs[c - 1].interested then FlagBefore(procs, pending, c - 1)
    else FlagBefore(procs, pending, c)
  }

  /** A walk ends where the list says it must. */
  ghost predicate IsDelivery(w: Walk, procs: seq<Plugin>, pending: bool) {
    && VisitsEligible(w, procs)
    && var c := |procs| - |w.remaining|;
       GetsTo(procs, pending, c) && w.end == Ends(procs, pending, c) && w.pending == FlagLeft(procs, pending, c)
  }

  /** The flag as the first plug-in leaves it. */
  function FlagAfterFirst(procs: seq<Plugin>, pending: bool): bool
    requires procs != []
  {
    if procs[0].alive && procs[0].interested then procs[0].behaviour.PendThenContinue? else pending
  }

  lemma FlagBeforeTail(procs: seq<Plugin>, pending: bool, k: nat)
    requires procs != [] && k <= |procs[1..]|
    ensures FlagBefore(procs, pending, k + 1) == FlagBefore(procs[1..], FlagAfterFirst(procs, pending), k)
  {
    assert procs[..k + 1][1..] == procs[1..][..k] && procs[..k + 1][0] == procs[0];
  }

  lemma StopsTail(procs: seq<Plugin>, pending: bool, k: nat)
    requires procs != [] && k < |procs[1..]|
    ensures Stops(procs, pending, k + 1) == Stops(procs[1..], FlagAfterFirst(procs, pending), k)
  {
    FlagBeforeTail(procs, pending, k);
  }

  /** If the first plug-in does not stop the event, it fares as in the rest of the list. */
  lemma PastFirst(procs: seq<Plugin>, pending: bool, c: nat)
    requires procs != [] && c <= |procs[1..]| && !Stops(procs, pending, 0)
    requires GetsTo(procs[1..], FlagAfterFirst(procs, pending), c)
    ensures GetsTo(procs, pending, c + 1)
    ensures Ends(procs, pending, c + 1) == Ends(procs[1..], FlagAfterFirst(procs, pending), c)
    ensures FlagLeft(procs, pending, c + 1) == FlagLeft(procs[1..], FlagAfterFirst(procs, pending), c)
  {
    var flag := FlagAfterFirst(procs, pending);
    forall k | 0 <= k < c ensures !Stops(procs, pending, k) {
      if k > 0 {
        StopsTail(procs, pending, k - 1);
      }
    }
    FlagBeforeTail(procs, pending, c);
    if c > 0 {
      StopsTail(procs, pending, c - 1);
      FlagBeforeTail(procs, pending, c - 1);
    }
  }

  lemma StopsAtFirst(procs: seq<Plugin>, pending: bool)
    requires procs != [] && Stops(procs, pending, 0)
    ensures IsDelivery(WalkFrom(procs, pending), procs, pending)
  {
    var p, rest := procs[0], procs[1..];
    WalkVisitsEligible(procs, pending);
    assert procs[..0] == [] && procs[..1] == [p] && [p][1..] == [];
    assert WalkFrom(procs, pending).remaining == rest;
  }

  lemma WalkTail(procs: seq<Plugin>, pending: bool)
    requires procs != [] && !Stops(procs, pending, 0)
    ensures var w, v := WalkFrom(procs, pending), WalkFrom(procs[1..], FlagAfterFirst(procs, pending));
            w.remaining == v.remaining && w.end == v.end && w.pending == v.pending
  {
    assert procs[..0] == [];
  }

  /** Every walk ends at the first plug-in that stops the event, in the way that plug-in says. */
  lemma {:induction false} WalkIsDelivery(procs: seq<Plugin>, pending: bool)
    ensures IsDelivery(WalkFrom(procs, pending), procs, pending)
    decreases |procs|
  {
    WalkVisitsEligible(procs, pending);
    if procs == [] {
      assert procs[..0] == [];
    } else if Stops(procs, pending, 0) {
      StopsAtFirst(procs, pending);
    } else {
      var flag := FlagAfterFirst(procs, pending);
      WalkIsDelivery(procs[1..], flag);
      WalkTail(procs, pending);
      PastFirst(procs, pending, |procs[1..]| - |WalkFrom(procs[1..], flag).remaining|);
    }
  }

  /** How a walk ends, by the last plug-in it visits: queued exactly if that one has a work loop, pended
      exactly if it runs inline and pends, done exactly if it runs inline and finishes the event or the list
      ran out; a pended event has its flag set and a finished one has not. */
  predicate EndFits(w: Walk) {
    if w.visited == [] then
      !w.end.Queued? && !w.end.Pended? && (w.end.Done? ==> w.remaining == []) && (w.end.Stalled? ==> w.pending)
    else
      var p := w.visited[|w.visited| - 1];
      && (w.end.Queued? <==> p.hasWorkLoop)
      && (w.end.Pended? <==> !p.hasWorkLoop && p.behaviour.PendIt?)
      && (w.end.Done? <==> !p.hasWorkLoop && (p.behaviour.FinishIt? || (!p.behaviour.PendIt? && !w.end.Stalled?)))
      && (w.end.Done? && !p.behaviour.FinishIt? ==> w.remaining == [])
      && (w.end.Pended? || w.end.Stalled? ==> w.pending)
      && (w.end.Done? && p.behaviour.FinishIt? ==> !w.pending)
  }

  lemma VisitingFits(w: Walk, p: Plugin)
    requires EndFits(w) && !p.hasWorkLoop && !p.behaviour.FinishIt? && !p.behaviour.PendIt?
    ensures EndFits(w.Visiting(p))
  {
    if w.visited != [] {
      assert w.Visiting(p).visited[|w.visited|] == w.visited[|w.visited| - 1];
    }
  }

  lemma {:induction false} WalkEndFits(procs: seq<Plugin>, pending: bool)
    ensures EndFits(WalkFrom(procs, pending))
    decreases |procs|
  {
    if procs != [] {
      var p, rest := procs[0], procs[1..];
      if !p.alive || (!p.interested && !pending) {
        WalkEndFits(rest, pending);
      } else if p.interested && !p.hasWorkLoop && !p.behaviour.FinishIt? && !p.behaviour.PendIt? {
        WalkEndFits(rest, p.behaviour.PendThenContinue?);
        VisitingFits(WalkFrom(rest, p.behaviour.PendThenContinue?), p);
      }
    }
  }

  /** What continuing an event along a list of plug-ins with the given pending flag does to it: the event
      goes past the plug-ins in order up to the first that stops it, visiting the eligible ones, and is then
      with that plug-in, with nobody, or finished. */
  ghost predicate Delivered(e: Event, procs: seq<Plugin>, pending: bool, e': Event, hasHandler: bool) {
    && |e'.processors| <= |procs|
    && var c := |procs| - |e'.processors|;
       && e'.processors == procs[c..] && e'.visited == e.visited + Eligible(procs[..c])
       && GetsTo(procs, pending, c)
       && (Ends(procs, pending, c).Queued? ==> c > 0 && e'.handedOver == e.handedOver + [procs[c - 1]])
       && (!Ends(procs, pending, c).Queued? ==> e'.handedOver == e.handedOver)
       && e'.hasFinish == Ends(procs, pending, c).Done?
       && e'.recycled == e.recycled + (if e'.hasFinish && hasHandler then 1 else 0)
       && e'.hasPending == FlagLeft(procs, pending, c)
  }

  /** The state a walk describes. */
  ghost predicate After(e: Event, w: Walk, e': Event, hasHandler: bool) {
    && e'.processors == w.remaining
    && e'.hasPending == w.pending
    && e'.visited == e.visited + w.visited
    && e'.hasFinish == w.end.Done?
    && e'.recycled == e.recycled + (if w.end.Done? && hasHandler then 1 else 0)
    && (w.end.Queued? ==> w.visited != [] && e'.handedOver == e.handedOver + [w.visited[|w.visited| - 1]])
    && (!w.end.Queued? ==> e'.handedOver == e.handedOver)
  }

  lemma WalkDelivers(e: Event, procs: seq<Plugin>, pending: bool, e': Event, hasHandler: bool)
    requires After(e, WalkFrom(procs, pending), e', hasHandler)
    ensures Delivered(e, procs, pending, e', hasHandler)
  {
    WalkIsDelivery(procs, pending);
    WalkQueuedLast(procs, pending);
  }

  lemma VisitingAfter(e: Event, p: Plugin, w: Walk, e': Event, hasHandler: bool)
    requires After(e.(visited := e.visited + [p], hasPending := false), w, e', hasHandler)
    ensures After(e, w.Visiting(p), e', hasHandler) && After(e.(visited := e.visited + [p]), w, e', hasHandler)
  {
    Assoc(e.visited, [p], w.visited);
    if w.end.Queued? {
      assert ([p] + w.visited)[|w.visited|] == w.visited[|w.visited| - 1];
    }
  }

  /** What OnEventProxy amounts to, from what the plug-in did and whether the event was then passed on. */
  lemma ProxyOutcome(e: Event, p: Plugin, e': Event, hasHandler: bool)
    requires var given := e.(visited := e.visited + [p], hasPending := false);
             if p.behaviour.FinishIt? then e' == given.(hasFinish := true, recycled := e.recycled + Unit(hasHandler))
             else if p.behaviour.PendIt? then e' == given.(hasPending := true)
             else After(given, WalkFrom(e.processors, p.behaviour.PendThenContinue?), e', hasHandler)
    requires !e.hasFinish
    ensures After(e, WalkInto(p, e.processors), e', hasHandler)
    ensures !p.behaviour.FinishIt? && !p.behaviour.PendIt? ==>
              Delivered(e.(visited := e.visited + [p]), e.processors, p.behaviour.PendThenContinue?, e', hasHandler)
  {
    if !p.behaviour.FinishIt? && !p.behaviour.PendIt? {
      VisitingAfter(e, p, WalkFrom(e.processors, p.behaviour.PendThenContinue?), e', hasHandler);
      WalkDelivers(e.(visited := e.visited + [p]), e.processors, p.behaviour.PendThenContinue?, e', hasHandler);
    }
  }

  lemma WalkQueuedLast(procs: seq<Plugin>, pending: bool)
    ensures var w := WalkFrom(procs, pending);
            w.end.Queued? ==>
              && w.visited != [] && |w.remaining| < |procs|
              && w.visited[|w.visited| - 1] == procs[|procs| - |w.remaining| - 1]
  {
    WalkIsDelivery(procs, pending);
    var c := |procs| - |WalkFrom(procs, pending).remaining|;
    if WalkFrom(procs, pending).end.Queued? {
      EligibleLast(procs[..c]);
    }
  }

  lemma {:induction false} EligibleLast(procs: seq<Plugin>)
    requires procs != [] && procs[|procs| - 1].alive && procs[|procs| - 1].interested
    ensures var e := Eligible(procs); e != [] && e[|e| - 1] == procs[|procs| - 1]
  {
    if |procs| > 1 {
      EligibleLast(procs[1..]);
    }
  }

  predicate PassesOn(p: Plugin) {
    p.alive && p.interested ==> !p.hasWorkLoop && (p.behaviour.ReturnOnly? || p.behaviour.ContinueIt?)
  }

  /** If nobody pends, finishes or queues the event, one call delivers it to every live, interested
      plug-in and finishes it. */
  lemma {:induction false} WalkCompletes(procs: seq<Plugin>)
    requires forall p | p in procs :: PassesOn(p)
    ensures WalkFrom(procs, false) == Walk(Eligible(procs), [], Done, false)
  {
    if procs != [] {
      assert PassesOn(procs[0]);
      WalkCompletes(procs[1..]);
    }
  }

  function SkipDead(procs: seq<Plugin>): seq<Plugin> {
    if procs == [] || procs[0].alive then procs else SkipDead(procs[1..])
  }

  /** Continuing an event whose pending flag is still set strands it before the next visit exactly
      when the next live plug-in exists and is not interested. */
  lemma {:induction false} PendedContinueStrandsIff(procs: seq<Plugin>)
    ensures var w := WalkFrom(procs, true);
            w.visited == [] && w.end.Stalled? <==>
            SkipDead(procs) != [] && !SkipDead(procs)[0].interested
  {
    if procs != [] && !procs[0].alive {
      PendedContinueStrandsIff(procs[1..]);
    }
  }

  /** With the flag cleared first, the next plug-in that is live and interested is reached, or the
      event is finished. */
  lemma {:induction false} ResetContinueReaches(procs: seq<Plugin>)
    ensures var w := WalkFrom(procs, false);
            if Eligible(procs) == [] then w == Walk([], [], Done, false)
            else w.visited != [] && w.visited[0] == Eligible(procs)[0]
  {
    if procs != [] {
      ResetContinueReaches(procs[1..]);
    }
  }
}
