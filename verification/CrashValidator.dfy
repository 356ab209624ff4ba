/** The crash validator joins process exits with the crash reports of the same process: an exit is
    registered and, after a delay, matched against whatever reports arrived for its pid. */
module CrashValidators {
  import opened Collections

  const MAX_CRASH_EVENT_SIZE: nat := 100
  const CRASH_DUMP_LOCAL_REPORT: int := 206
  const MIN_APP_UID: int := 20000

  /** Milliseconds since the epoch, non-negative, so that the difference of two never overflows. */
  type Time = t: int | 0 <= t < 0x8000_0000_0000_0000

  datatype Kind = ProcessExit | CppCrash | CppCrashException

  datatype SysEvent = SysEvent(
    kind: Kind,
    pid: int,
    uid: int,
    time: Time,
    crashSignal: bool,      // an exit by one of the crash signals
    kernelSnapshot: bool,   // REASON is CppCrashKernelSnapshot
    errorCode: int)

  datatype Verdict =
    | CrashMatched(event: SysEvent)
    | ExceptionMatched(event: SysEvent)
    | Dismatch(event: SysEvent)

  type Events = map<int, SysEvent>

  datatype Maps = Maps(exits: Events, crashes: Events, exceptions: Events)

  const EmptyMaps: Maps := Maps(map[], map[], map[])

  // ---------- Specification of the two operations ----------

  predicate Full(m: Events) {
    |m| > MAX_CRASH_EVENT_SIZE
  }

  /** A report replaces the stored one only if it happened strictly earlier. */
  function KeepEarliest(m: Events, e: SysEvent): Events {
    if Full(m) || (e.pid in m && m[e.pid].time <= e.time) then m else m[e.pid := e]
  }

  function Added(s: Maps, e: SysEvent): Maps {
    match e.kind
    case ProcessExit => if Full(s.exits) || e.pid in s.exits then s else s.(exits := s.exits[e.pid := e])
    case CppCrash => s.(crashes := KeepEarliest(s.crashes, e))
    case CppCrashException => s.(exceptions := KeepEarliest(s.exceptions, e))
  }

  function Removed(s: Maps, pid: int): Maps {
    var exits := s.exits - {pid};
    if exits == map[] then EmptyMaps else Maps(exits, s.crashes - {pid}, s.exceptions - {pid})
  }

  function VerdictFor(s: Maps, pid: int): Verdict
    requires pid in s.exits
  {
    if pid in s.crashes && s.crashes[pid].kernelSnapshot then CrashMatched(s.crashes[pid])
    else if pid in s.exceptions then ExceptionMatched(s.exceptions[pid])
    else if pid in s.crashes then CrashMatched(s.crashes[pid])
    else Dismatch(s.exits[pid])
  }

  predicate Validated(e: SysEvent) {
    && (e.kind.ProcessExit? ==> e.crashSignal)
    && !(e.kind.CppCrashException? && e.errorCode == CRASH_DUMP_LOCAL_REPORT)
    && e.uid >= MIN_APP_UID
  }

  // ---------- The plug-in ----------

  class CrashValidator {
    var processExitEvents: Events
    var cppCrashEvents: Events
    var cppCrashExceptionEvents: Events
    // reports written and timers armed, in order
    var reports: seq<Verdict>
    var timers: seq<int>

    ghost function View(): Maps
      reads this
    {
      Maps(processExitEvents, cppCrashEvents, cppCrashExceptionEvents)
    }

    constructor ()
      ensures View() == EmptyMaps && reports == [] && timers == []
    {
      processExitEvents, cppCrashEvents, cppCrashExceptionEvents := map[], map[], map[];
      reports, timers := [], [];
    }

    method AddEventToMap(e: SysEvent)
      modifies this`processExitEvents, this`cppCrashEvents, this`cppCrashExceptionEvents
      ensures View() == Added(old(View()), e)
    {
      if e.kind.ProcessExit? {
        if |processExitEvents| > MAX_CRASH_EVENT_SIZE {
          return;
        }
        if e.pid !in processExitEvents {
          processExitEvents := processExitEvents[e.pid := e];
        }
      } else if e.kind.CppCrash? {
        if |cppCrashEvents| > MAX_CRASH_EVENT_SIZE {
          return;
        }
        if e.pid !in cppCrashEvents || cppCrashEvents[e.pid].time - e.time > 0 {
          cppCrashEvents := cppCrashEvents[e.pid := e];
        }
      } else {
        if |cppCrashExceptionEvents| > MAX_CRASH_EVENT_SIZE {
          return;
        }
        if e.pid !in cppCrashExceptionEvents || cppCrashExceptionEvents[e.pid].time - e.time > 0 {
          cppCrashExceptionEvents := cppCrashExceptionEvents[e.pid := e];
        }
      }
    }

    method RemoveMatchEvent(pid: int)
      modifies this`processExitEvents, this`cppCrashEvents, this`cppCrashExceptionEvents
      ensures View() == Removed(old(View()), pid)
    {
      cppCrashEvents := cppCrashEvents - {pid};
      cppCrashExceptionEvents := cppCrashExceptionEvents - {pid};
      processExitEvents := processExitEvents - {pid};
      if |processExitEvents| == 0 {
        cppCrashEvents := map[];
        cppCrashExceptionEvents := map[];
      }
    }

    method MatchKernelSnapshotEvent(pid: int) returns (matched: bool)
      requires pid in processExitEvents
      modifies this`processExitEvents, this`cppCrashEvents, this`cppCrashExceptionEvents, this`reports
      ensures matched <==> pid in old(cppCrashEvents) && old(cppCrashEvents)[pid].kernelSnapshot
      ensures matched ==> View() == Removed(old(View()), pid)
      ensures matched ==> reports == old(reports) + [CrashMatched(old(cppCrashEvents)[pid])]
      ensures !matched ==> View() == old(View()) && reports == old(reports)
    {
      if pid !in cppCrashEvents || !cppCrashEvents[pid].kernelSnapshot {
        return false;
      }
      reports := reports + [CrashMatched(cppCrashEvents[pid])];
      RemoveMatchEvent(pid);
      return true;
    }

    /** The delayed match: at most one report, and only for an exit that is registered. */
    method MatchEvent(pid: int) returns (matched: bool)
      modifies this`processExitEvents, this`cppCrashEvents, this`cppCrashExceptionEvents, this`reports
      ensures matched <==> pid in old(processExitEvents)
      ensures matched ==> View() == Removed(old(View()), pid)
      ensures matched ==> reports == old(reports) + [VerdictFor(old(View()), pid)]
      ensures !matched ==> View() == old(View()) && reports == old(reports)
    {
      if |processExitEvents| == 0 || pid !in processExitEvents {
        return false;
      }
      var snapshot := MatchKernelSnapshotEvent(pid);
      if snapshot {
        return true;
      }
      if pid in cppCrashExceptionEvents {
        reports := reports + [ExceptionMatched(cppCrashExceptionEvents[pid])];
      } else if pid in cppCrashEvents {
        reports := reports + [CrashMatched(cppCrashEvents[pid])];
      } else {
        reports := reports + [Dismatch(processExitEvents[pid])];
      }
      RemoveMatchEvent(pid);
      return true;
    }

    method OnEvent(e: SysEvent)
      modifies this`processExitEvents, this`cppCrashEvents, this`cppCrashExceptionEvents, this`timers
      ensures var ignored := || (e.kind.ProcessExit? && !e.crashSignal)
                             || (e.kind.CppCrashException? && e.errorCode == CRASH_DUMP_LOCAL_REPORT)
                             || e.uid < MIN_APP_UID;
              && (ignored <==> !Validated(e))
              && View() == (if ignored then old(View()) else Added(old(View()), e))
              && timers == old(timers) + (if !ignored && e.kind.ProcessExit? then [e.pid] else [])
    {
      if e.kind.ProcessExit? && !e.crashSignal {
        return;
      }
      if e.kind.CppCrashException? && e.errorCode == CRASH_DUMP_LOCAL_REPORT {
        return;
      }
      if e.uid < MIN_APP_UID {
        return;
      }
      AddEventToMap(e);
      if e.kind.ProcessExit? {
        timers := timers + [e.pid];
      }
    }
  }

  // ---------- Runs ----------

  /** The steps of concurrent runs: storing an event, arming the timer of an exit after the map lock was
      released, and the timer firing. */
  datatype Step = Store(event: SysEvent) | Arm(pid: int) | Fire(pid: int)

  /** The maps, the exits whose timer is yet to be armed, the timers, and the verdicts in order. */
  datatype State = State(
    maps: Maps,
    arming: multiset<int>,
    timers: multiset<int>,
    verdicts: seq<(int, Verdict)>)

  const Initial: State := State(EmptyMaps, multiset{}, multiset{}, [])

  predicate Enabled(s: State, step: Step) {
    match step
    case Store(e) => Validated(e)
    case Arm(pid) => pid in s.arming
    case Fire(pid) => pid in s.timers
  }

  function Apply(s: State, step: Step): State {
    match step
    case Store(e) =>
      var s' := s.(maps := Added(s.maps, e));
      if e.kind.ProcessExit? then s'.(arming := s.arming + multiset{e.pid}) else s'
    case Arm(pid) => s.(arming := s.arming - multiset{pid}, timers := s.timers + multiset{pid})
    case Fire(pid) =>
      var t := s.(timers := s.timers - multiset{pid});
      if pid !in s.maps.exits then t
      else t.(maps := Removed(s.maps, pid), verdicts := s.verdicts + [(pid, VerdictFor(s.maps, pid))])
  }

  /** A finite run: `states[i]` is the state before `steps[i]`. */
  datatype Run = Run(steps: seq<Step>, states: seq<State>)

  ghost predicate StepAt(r: Run, i: nat)
    requires i < |r.steps| && |r.states| == |r.steps| + 1
  {
    Enabled(r.states[i], r.steps[i]) && r.states[i + 1] == Apply(r.states[i], r.steps[i])
  }

  ghost predicate ValidRun(r: Run) {
    && |r.states| == |r.steps| + 1
    && r.states[0] == Initial
    && forall i | 0 <= i < |r.steps| :: StepAt(r, i)
  }

  // ---------- Accounting ----------

  function VerdictsOn(verdicts: seq<(int, Verdict)>, pid: int): nat {
    if verdicts == [] then 0
    else VerdictsOn(verdicts[..|verdicts| - 1], pid) + Unit(verdicts[|verdicts| - 1].0 == pid)
  }

  lemma VerdictAdded(verdicts: seq<(int, Verdict)>, v: (int, Verdict), pid: int)
    ensures VerdictsOn(verdicts + [v], pid) == VerdictsOn(verdicts, pid) + Unit(v.0 == pid)
  {
    assert (verdicts + [v])[..|verdicts|] == verdicts;
  }

  /** In state s the step registers an exit of the pid. */
  ghost predicate Admits(s: State, step: Step, pid: int) {
    && step.Store? && step.event.kind.ProcessExit? && step.event.pid == pid
    && pid !in s.maps.exits && |s.maps.exits| <= MAX_CRASH_EVENT_SIZE
  }

  /** How many of the first k steps register an exit of the pid. */
  ghost function Admitted(r: Run, k: nat, pid: int): nat
    requires k <= |r.steps| < |r.states|
  {
    if k == 0 then 0 else Admitted(r, k - 1, pid) + Unit(Admits(r.states[k - 1], r.steps[k - 1], pid))
  }

  ghost function Registered(s: State, pid: int): nat {
    Unit(pid in s.maps.exits)
  }

  lemma StepAccounts(s: State, step: Step, pid: int)
    ensures var s' := Apply(s, step);
            VerdictsOn(s'.verdicts, pid) + Registered(s', pid) ==
            VerdictsOn(s.verdicts, pid) + Registered(s, pid) + Unit(Admits(s, step, pid))
  {
    if step.Fire? && step.pid in s.maps.exits {
      VerdictAdded(s.verdicts, (step.pid, VerdictFor(s.maps, step.pid)), pid);
      assert Removed(s.maps, step.pid).exits == s.maps.exits - {step.pid};
    }
  }

  lemma {:induction false} RunAccounts(r: Run, k: nat, pid: int)
    requires ValidRun(r) && k <= |r.steps|
    ensures VerdictsOn(r.states[k].verdicts, pid) + Registered(r.states[k], pid) == Admitted(r, k, pid)
  {
    if k > 0 {
      RunAccounts(r, k - 1, pid);
      assert StepAt(r, k - 1);
      StepAccounts(r.states[k - 1], r.steps[k - 1], pid);
    }
  }

  ghost predicate Timed(s: State) {
    forall pid | pid in s.maps.exits :: pid in s.timers || pid in s.arming
  }

  ghost predicate Bounded(s: State) {
    && |s.maps.exits| <= MAX_CRASH_EVENT_SIZE + 1
    && |s.maps.crashes| <= MAX_CRASH_EVENT_SIZE + 1
    && |s.maps.exceptions| <= MAX_CRASH_EVENT_SIZE + 1
  }

  lemma GrowsByOne(m: Events, pid: int, e: SysEvent)
    ensures |m[pid := e]| <= |m| + 1
  {
    assert m[pid := e].Keys == m.Keys + {pid};
  }

  lemma ShrinksBy(m: Events, pid: int)
    ensures |m - {pid}| <= |m|
  {
    assert (m - {pid}).Keys <= m.Keys;
    SubsetSize((m - {pid}).Keys, m.Keys);
  }

  lemma StoreKeepsBounds(s: State, e: SysEvent)
    requires Bounded(s)
    ensures Bounded(Apply(s, Store(e)))
  {
    match e.kind
    case ProcessExit => GrowsByOne(s.maps.exits, e.pid, e);
    case CppCrash => GrowsByOne(s.maps.crashes, e.pid, e);
    case CppCrashException => GrowsByOne(s.maps.exceptions, e.pid, e);
  }

  lemma FireKeepsBounds(s: State, pid: int)
    requires Bounded(s)
    ensures Bounded(Apply(s, Fire(pid)))
  {
    ShrinksBy(s.maps.exits, pid);
    ShrinksBy(s.maps.crashes, pid);
    ShrinksBy(s.maps.exceptions, pid);
  }

  lemma StepKeepsBounds(s: State, step: Step)
    requires Bounded(s)
    ensures Bounded(Apply(s, step))
  {
    match step
    case Store(e) => StoreKeepsBounds(s, e);
    case Fire(pid) => FireKeepsBounds(s, pid);
    case Arm(_) =>
  }

  lemma StepKeepsTimed(s: State, step: Step)
    requires Timed(s) && Enabled(s, step)
    ensures Timed(Apply(s, step))
  {
    var s' := Apply(s, step);
    forall pid | pid in s'.maps.exits ensures pid in s'.timers || pid in s'.arming {
      assert pid in s.maps.exits || (step.Store? && step.event.pid == pid && step.event.kind.ProcessExit?);
    }
  }

  lemma StepAtKeepsInv(r: Run, k: nat)
    requires ValidRun(r) && k < |r.steps| && Timed(r.states[k]) && Bounded(r.states[k])
    ensures Timed(r.states[k + 1]) && Bounded(r.states[k + 1])
  {
    assert StepAt(r, k);
    StepKeepsBounds(r.states[k], r.steps[k]);
    StepKeepsTimed(r.states[k], r.steps[k]);
  }

  lemma {:induction false} RunKeepsInv(r: Run, k: nat)
    requires ValidRun(r) && k <= |r.steps|
    ensures Timed(r.states[k]) && Bounded(r.states[k])
  {
    if k > 0 {
      RunKeepsInv(r, k - 1);
      StepAtKeepsInv(r, k - 1);
    }
  }

  /** In every run and for every pid: the verdicts on it plus the exit still registered equal the exits
      registered by the steps so far, and a registered exit always has a timer armed or about to be armed.
      Hence once all timers have fired every registered exit has had exactly one verdict. */
  lemma VerdictAccounting(r: Run, k: nat, pid: int)
    requires ValidRun(r) && k <= |r.steps|
    ensures var s := r.states[k];
            && VerdictsOn(s.verdicts, pid) + Registered(s, pid) == Admitted(r, k, pid)
            && (pid in s.maps.exits ==> pid in s.timers || pid in s.arming)
            && (pid !in s.timers && pid !in s.arming ==> VerdictsOn(s.verdicts, pid) == Admitted(r, k, pid))
  {
    RunKeepsInv(r, k);
    RunAccounts(r, k, pid);
  }

  /** In every run no map grows beyond its bound. */
  lemma MapsBounded(r: Run, k: nat)
    requires ValidRun(r) && k <= |r.steps|
    ensures Bounded(r.states[k])
  {
    RunKeepsInv(r, k);
  }

  // ---------- Which reports are stored, and when an exit is unmatched ----------

  function Table(m: Maps, kind: Kind): Events {
    match kind
    case ProcessExit => m.exits
    case CppCrash => m.crashes
    case CppCrashException => m.exceptions
  }

  /** In state s the step takes a report of this kind for the pid into a table that is not full. */
  ghost predicate TakesIn(s: State, step: Step, kind: Kind, pid: int) {
    && step.Store? && step.event.kind == kind && step.event.pid == pid
    && |Table(s.maps, kind)| <= MAX_CRASH_EVENT_SIZE
  }

  /** In state s the step judges the exit of the pid, or the last exit that is registered. */
  ghost predicate Drops(s: State, step: Step, pid: int) {
    step.Fire? && step.pid in s.maps.exits && (step.pid == pid || s.maps.exits - {step.pid} == map[])
  }

  ghost predicate TakesInAt(r: Run, i: nat, kind: Kind, pid: int)
    requires i < |r.steps| < |r.states|
  {
    TakesIn(r.states[i], r.steps[i], kind, pid)
  }

  ghost predicate DropsAt(r: Run, j: nat, pid: int)
    requires j < |r.steps| < |r.states|
  {
    Drops(r.states[j], r.steps[j], pid)
  }

  ghost predicate UndroppedSince(r: Run, i: nat, k: nat, pid: int)
    requires k <= |r.steps| < |r.states|
  {
    forall j | i < j < k :: !DropsAt(r, j, pid)
  }

  /** Step i took in a report of this kind for the pid, and nothing up to step k has dropped it. */
  ghost predicate Pending(r: Run, i: nat, k: nat, kind: Kind, pid: int)
    requires k <= |r.steps| < |r.states|
  {
    i < k && TakesInAt(r, i, kind, pid) && UndroppedSince(r, i, k, pid)
  }

  ghost predicate HasReport(r: Run, k: nat, kind: Kind, pid: int)
    requires k <= |r.steps| < |r.states|
  {
    exists i: nat :: Pending(r, i, k, kind, pid)
  }

  lemma PendingStep(r: Run, i: nat, k: nat, kind: Kind, pid: int)
    requires k < |r.steps| < |r.states|
    ensures i < k ==> (Pending(r, i, k + 1, kind, pid) <==> Pending(r, i, k, kind, pid) && !DropsAt(r, k, pid))
    ensures i == k ==> (Pending(r, i, k + 1, kind, pid) <==> TakesInAt(r, k, kind, pid))
  {
    if i < k && Pending(r, i, k + 1, kind, pid) {
      assert !DropsAt(r, k, pid);
    }
  }

  lemma HasReportStep(r: Run, k: nat, kind: Kind, pid: int)
    requires k < |r.steps| < |r.states|
    ensures HasReport(r, k + 1, kind, pid) <==>
            TakesInAt(r, k, kind, pid) || (HasReport(r, k, kind, pid) && !DropsAt(r, k, pid))
  {
    PendingStep(r, k, k, kind, pid);
    if HasReport(r, k, kind, pid) {
      var i: nat :| Pending(r, i, k, kind, pid);
      PendingStep(r, i, k, kind, pid);
    }
    if HasReport(r, k + 1, kind, pid) {
      var i: nat :| Pending(r, i, k + 1, kind, pid);
      PendingStep(r, i, k, kind, pid);
    }
  }

  lemma AddedTable(m: Maps, e: SysEvent, kind: Kind, pid: int)
    requires !kind.ProcessExit?
    ensures pid in Table(Added(m, e), kind) <==>
            (e.kind == kind && e.pid == pid && !Full(Table(m, kind))) || pid in Table(m, kind)
  {
  }

  lemma RemovedTable(m: Maps, pid: int, kind: Kind, q: int)
    requires !kind.ProcessExit? && pid in m.exits
    ensures q in Table(Removed(m, pid), kind) <==>
            q in Table(m, kind) && pid != q && m.exits - {pid} != map[]
  {
  }

  lemma TableStep(s: State, step: Step, kind: Kind, pid: int)
    requires !kind.ProcessExit?
    ensures pid in Table(Apply(s, step).maps, kind) <==>
            TakesIn(s, step, kind, pid) || (pid in Table(s.maps, kind) && !Drops(s, step, pid))
  {
    match step
    case Store(e) =>
      AddedTable(s.maps, e, kind, pid);
      assert Apply(s, step).maps == Added(s.maps, e);
    case Fire(q) =>
      if q in s.maps.exits {
        RemovedTable(s.maps, q, kind, pid);
      }
    case Arm(_) =>
  }

  lemma TableStepAt(r: Run, k: nat, kind: Kind, pid: int)
    requires ValidRun(r) && k < |r.steps| && !kind.ProcessExit?
    ensures pid in Table(r.states[k + 1].maps, kind) <==>
            TakesInAt(r, k, kind, pid) || (pid in Table(r.states[k].maps, kind) && !DropsAt(r, k, pid))
  {
    assert StepAt(r, k);
    TableStep(r.states[k], r.steps[k], kind, pid);
  }

  lemma {:induction false} TableHoldsReports(r: Run, k: nat, kind: Kind, pid: int)
    requires ValidRun(r) && k <= |r.steps| && !kind.ProcessExit?
    ensures pid in Table(r.states[k].maps, kind) <==> HasReport(r, k, kind, pid)
  {
    if k > 0 {
      TableHoldsReports(r, k - 1, kind, pid);
      TableStepAt(r, k - 1, kind, pid);
      HasReportStep(r, k - 1, kind, pid);
    }
  }

  /** The stored report is the i-th step's, and of all that are pending the earliest, the first among
      equally early ones. */
  ghost predicate IsEarliest(r: Run, i: nat, k: nat, kind: Kind, pid: int, stored: SysEvent)
    requires k <= |r.steps| < |r.states|
  {
    && Pending(r, i, k, kind, pid) && r.steps[i].event == stored
    && forall j: nat | Pending(r, j, k, kind, pid) ::
         stored.time <= r.steps[j].event.time && (j < i ==> stored.time < r.steps[j].event.time)
  }

  ghost predicate HoldsEarliest(r: Run, k: nat, kind: Kind, pid: int)
    requires k <= |r.steps| < |r.states| && !kind.ProcessExit?
  {
    var table := Table(r.states[k].maps, kind);
    pid in table ==> exists i: nat :: IsEarliest(r, i, k, kind, pid, table[pid])
  }

  /** What the table holds after a step for a pid it holds. */
  lemma StoredStep(s: State, step: Step, kind: Kind, pid: int)
    requires !kind.ProcessExit? && pid in Table(Apply(s, step).maps, kind)
    ensures var old', new' := Table(s.maps, kind), Table(Apply(s, step).maps, kind);
            if TakesIn(s, step, kind, pid) && (pid in old' ==> step.event.time < old'[pid].time)
            then new'[pid] == step.event
            else pid in old' && new'[pid] == old'[pid]
  {
    match step
    case Store(e) =>
      assert Apply(s, step).maps == Added(s.maps, e);
      AddedStored(s.maps, e, kind, pid);
    case Fire(q) =>
      if q in s.maps.exits {
        RemovedTable(s.maps, q, kind, pid);
        assert Removed(s.maps, q) == Maps(s.maps.exits - {q}, s.maps.crashes - {q}, s.maps.exceptions - {q});
      }
    case Arm(_) =>
  }

  lemma AddedStored(m: Maps, e: SysEvent, kind: Kind, pid: int)
    requires !kind.ProcessExit? && pid in Table(Added(m, e), kind)
    ensures var old', new' := Table(m, kind), Table(Added(m, e), kind);
            if e.kind == kind && e.pid == pid && !Full(old') && (pid in old' ==> e.time < old'[pid].time)
            then new'[pid] == e
            else pid in old' && new'[pid] == old'[pid]
  {
  }

  lemma StoreDropsNothing(r: Run, k: nat, kind: Kind, pid: int)
    requires k < |r.steps| < |r.states| && TakesInAt(r, k, kind, pid)
    ensures !DropsAt(r, k, pid)
  {
  }

  /** A report that is taken in first, or is earlier than the one stored, is the earliest. */
  lemma NewIsEarliest(r: Run, k: nat, kind: Kind, pid: int)
    requires ValidRun(r) && k < |r.steps| && !kind.ProcessExit?
    requires TakesInAt(r, k, kind, pid) && HoldsEarliest(r, k, kind, pid)
    requires var table := Table(r.states[k].maps, kind); pid in table ==> r.steps[k].event.time < table[pid].time
    ensures IsEarliest(r, k, k + 1, kind, pid, r.steps[k].event)
  {
    PendingStep(r, k, k, kind, pid);
    TableHoldsReports(r, k, kind, pid);
    forall j: nat | Pending(r, j, k + 1, kind, pid) && j < k
      ensures r.steps[k].event.time < r.steps[j].event.time
    {
      PendingStep(r, j, k, kind, pid);
      assert HasReport(r, k, kind, pid);
    }
  }

  /** Otherwise the stored one remains the earliest. */
  lemma OldStaysEarliest(r: Run, i: nat, k: nat, kind: Kind, pid: int, stored: SysEvent)
    requires ValidRun(r) && k < |r.steps| && IsEarliest(r, i, k, kind, pid, stored) && !DropsAt(r, k, pid)
    requires TakesInAt(r, k, kind, pid) ==> stored.time <= r.steps[k].event.time
    ensures IsEarliest(r, i, k + 1, kind, pid, stored)
  {
    PendingStep(r, i, k, kind, pid);
    forall j: nat | Pending(r, j, k + 1, kind, pid)
      ensures stored.time <= r.steps[j].event.time && (j < i ==> stored.time < r.steps[j].event.time)
    {
      PendingStep(r, j, k, kind, pid);
    }
  }

  lemma EarliestStep(r: Run, k: nat, kind: Kind, pid: int)
    requires ValidRun(r) && k < |r.steps| && !kind.ProcessExit? && HoldsEarliest(r, k, kind, pid)
    ensures HoldsEarliest(r, k + 1, kind, pid)
  {
    var before, after := Table(r.states[k].maps, kind), Table(r.states[k + 1].maps, kind);
    if pid in after {
      assert StepAt(r, k);
      StoredStep(r.states[k], r.steps[k], kind, pid);
      TableStepAt(r, k, kind, pid);
      if TakesInAt(r, k, kind, pid) && (pid in before ==> r.steps[k].event.time < before[pid].time) {
        NewIsEarliest(r, k, kind, pid);
      } else {
        var i: nat :| IsEarliest(r, i, k, kind, pid, before[pid]);
        if TakesInAt(r, k, kind, pid) {
          StoreDropsNothing(r, k, kind, pid);
        }
        OldStaysEarliest(r, i, k, kind, pid, before[pid]);
      }
    }
  }

  /** In every run each stored report is the first earliest of all reports of its pid that were taken in
      and not dropped since. */
  lemma {:induction false} StoredIsEarliest(r: Run, k: nat, kind: Kind, pid: int)
    requires ValidRun(r) && k <= |r.steps| && !kind.ProcessExit?
    ensures HoldsEarliest(r, k, kind, pid)
  {
    if k > 0 {
      StoredIsEarliest(r, k - 1, kind, pid);
      EarliestStep(r, k - 1, kind, pid);
    }
  }

  /** In every run a registered exit would be judged unmatched exactly if every report of its pid so far
      was refused because its table was full, or was dropped since by a judgement of this pid or of the
      last registered exit. */
  lemma DismatchIff(r: Run, k: nat, pid: int)
    requires ValidRun(r) && k <= |r.steps| && pid in r.states[k].maps.exits
    ensures VerdictFor(r.states[k].maps, pid).Dismatch? <==>
            !HasReport(r, k, CppCrash, pid) && !HasReport(r, k, CppCrashException, pid)
  {
    TableHoldsReports(r, k, CppCrash, pid);
    TableHoldsReports(r, k, CppCrashException, pid);
  }

  // ---------- The verdict on an exit ----------

  /** Step i took in the first earliest of the reports of this kind that are pending for the pid. */
  ghost predicate FirstPending(r: Run, i: nat, k: nat, kind: Kind, pid: int)
    requires k <= |r.steps| < |r.states|
  {
    Pending(r, i, k, kind, pid) && IsEarliest(r, i, k, kind, pid, r.steps[i].event)
  }

  lemma FirstPendingUnique(r: Run, i: nat, j: nat, k: nat, kind: Kind, pid: int)
    requires k <= |r.steps| < |r.states| && FirstPending(r, i, k, kind, pid) && FirstPending(r, j, k, kind, pid)
    ensures i == j
  {
  }

  /** A table holds a report of a pid exactly if one is pending, and then the first earliest. */
  lemma TableHoldsFirst(r: Run, k: nat, kind: Kind, pid: int)
    requires ValidRun(r) && k <= |r.steps| && !kind.ProcessExit?
    ensures var table := Table(r.states[k].maps, kind);
            && (pid in table <==> HasReport(r, k, kind, pid))
            && (pid in table <==> exists i: nat :: FirstPending(r, i, k, kind, pid))
            && forall i: nat | FirstPending(r, i, k, kind, pid) :: pid in table && table[pid] == r.steps[i].event
  {
    var table := Table(r.states[k].maps, kind);
    TableHoldsReports(r, k, kind, pid);
    StoredIsEarliest(r, k, kind, pid);
    if pid in table {
      var j: nat :| IsEarliest(r, j, k, kind, pid, table[pid]);
      assert FirstPending(r, j, k, kind, pid);
      forall i: nat | FirstPending(r, i, k, kind, pid) ensures table[pid] == r.steps[i].event {
        FirstPendingUnique(r, i, j, k, kind, pid);
      }
    } else {
      forall i: nat ensures !FirstPending(r, i, k, kind, pid) {
      }
    }
  }

  /** The first earliest pending crash of the pid is a kernel snapshot. */
  ghost predicate SnapshotPending(r: Run, k: nat, pid: int)
    requires k <= |r.steps| < |r.states|
  {
    exists i: nat :: FirstPending(r, i, k, CppCrash, pid) && r.steps[i].event.kernelSnapshot
  }

  /** Step i registered the exit of the pid, and it has not been judged up to step k. */
  ghost predicate ExitPending(r: Run, i: nat, k: nat, pid: int)
    requires k <= |r.steps| < |r.states|
  {
    i < k && Admits(r.states[i], r.steps[i], pid) && forall j | i < j < k :: r.steps[j] != Fire(pid)
  }

  lemma ExitStep(s: State, step: Step, pid: int)
    requires pid in Apply(s, step).maps.exits
    ensures if Admits(s, step, pid) then Apply(s, step).maps.exits[pid] == step.event
            else pid in s.maps.exits && Apply(s, step).maps.exits[pid] == s.maps.exits[pid] && step != Fire(pid)
  {
  }

  /** A registered exit is the event that an unjudged step registered. */
  lemma {:induction false} RegisteredIsPending(r: Run, k: nat, pid: int) returns (i: nat)
    requires ValidRun(r) && k <= |r.steps| && pid in r.states[k].maps.exits
    ensures ExitPending(r, i, k, pid) && r.steps[i].event == r.states[k].maps.exits[pid]
  {
    assert k > 0;
    assert StepAt(r, k - 1);
    ExitStep(r.states[k - 1], r.steps[k - 1], pid);
    if Admits(r.states[k - 1], r.steps[k - 1], pid) {
      i := k - 1;
    } else {
      i := RegisteredIsPending(r, k - 1, pid);
    }
  }

  /** The verdict on an exit in terms of what the steps took in. An exception that is pending decides,
      unless the first earliest pending crash is a kernel snapshot; else a pending crash decides; else the
      exit is unmatched. The event reported is the first earliest of its kind, or the exit itself. */
  ghost predicate RightVerdict(r: Run, k: nat, pid: int, v: Verdict)
    requires k <= |r.steps| < |r.states|
  {
    && (v.ExceptionMatched? <==> HasReport(r, k, CppCrashException, pid) && !SnapshotPending(r, k, pid))
    && (v.CrashMatched? <==>
          HasReport(r, k, CppCrash, pid) && (SnapshotPending(r, k, pid) || !HasReport(r, k, CppCrashException, pid)))
    && (v.ExceptionMatched? ==>
          exists i: nat :: FirstPending(r, i, k, CppCrashException, pid) && r.steps[i].event == v.event)
    && (v.CrashMatched? ==> exists i: nat :: FirstPending(r, i, k, CppCrash, pid) && r.steps[i].event == v.event)
    && (v.Dismatch? ==> exists i: nat :: ExitPending(r, i, k, pid) && r.steps[i].event == v.event)
  }

  lemma VerdictRight(r: Run, k: nat, pid: int)
    requires ValidRun(r) && k <= |r.steps| && pid in r.states[k].maps.exits
    ensures RightVerdict(r, k, pid, VerdictFor(r.states[k].maps, pid))
  {
    TableHoldsFirst(r, k, CppCrash, pid);
    TableHoldsFirst(r, k, CppCrashException, pid);
    var i := RegisteredIsPending(r, k, pid);
  }

  /** In every run the step that judges an exit adds the right verdict on it, and only that. */
  lemma JudgedRight(r: Run, k: nat)
    requires ValidRun(r) && k < |r.steps| && r.steps[k].Fire? && r.steps[k].pid in r.states[k].maps.exits
    ensures var before, after := r.states[k].verdicts, r.states[k + 1].verdicts;
            && |after| == |before| + 1 && after[..|before|] == before && after[|before|].0 == r.steps[k].pid
            && RightVerdict(r, k, r.steps[k].pid, after[|before|].1)
  {
    assert StepAt(r, k);
    VerdictRight(r, k, r.steps[k].pid);
  }

  function Armed(s: State, exit: SysEvent): State {
    Apply(Apply(s, Store(exit)), Arm(exit.pid))
  }

  /** With empty maps, an exit is stored and its timer armed. */
  lemma ExitArmed(s: State, exit: SysEvent)
    requires Validated(exit) && exit.kind.ProcessExit? && s.maps == EmptyMaps
    ensures Enabled(Apply(s, Store(exit)), Arm(exit.pid))
    ensures Armed(s, exit).maps == EmptyMaps.(exits := map[exit.pid := exit])
    ensures exit.pid in Armed(s, exit).timers && Armed(s, exit).verdicts == s.verdicts
  {
    assert Apply(s, Store(exit)).maps == EmptyMaps.(exits := map[exit.pid := exit]);
  }

  /** The only registered exit has no report: its timer declares it unmatched and empties the maps. */
  lemma LonelyExitFires(s: State, exit: SysEvent)
    requires s.maps.exits == map[exit.pid := exit]
    requires exit.pid !in s.maps.crashes && exit.pid !in s.maps.exceptions
    ensures var t := Apply(s, Fire(exit.pid));
            t.maps == EmptyMaps && t.verdicts == s.verdicts + [(exit.pid, Dismatch(exit))]
  {
    assert s.maps.exits - {exit.pid} == map[];
  }

  /** Emptying the table with the last registered exit also drops the reports that wait for an exit of
      their own: from any state with empty maps, a crash stored while another process is registered is
      gone once that process's timer has fired. */
  lemma EarlyReportDropped(s: State, crash: SysEvent, other: SysEvent)
    requires Validated(crash) && Validated(other) && s.maps == EmptyMaps
    requires crash.kind.CppCrash? && other.kind.ProcessExit? && crash.pid != other.pid
    ensures var s1 := Apply(Armed(s, other), Store(crash));
            var s2 := Apply(s1, Fire(other.pid));
            && crash.pid in s1.maps.crashes && Enabled(s1, Fire(other.pid))
            && s2.maps == EmptyMaps && s2.verdicts == s.verdicts + [(other.pid, Dismatch(other))]
  {
    ExitArmed(s, other);
    var s0 := Armed(s, other);
    var s1 := Apply(s0, Store(crash));
    assert s1.maps == s0.maps.(crashes := map[crash.pid := crash]) && s1.verdicts == s0.verdicts;
    LonelyExitFires(s1, other);
  }

  /** An exit that finds the maps empty is declared unmatched. */
  lemma LateExitUnmatched(s: State, exit: SysEvent)
    requires Validated(exit) && exit.kind.ProcessExit? && s.maps == EmptyMaps
    ensures Enabled(Armed(s, exit), Fire(exit.pid))
    ensures Apply(Armed(s, exit), Fire(exit.pid)).verdicts == s.verdicts + [(exit.pid, Dismatch(exit))]
  {
    ExitArmed(s, exit);
    LonelyExitFires(Armed(s, exit), exit);
  }

  lemma Extend(r: Run, step: Step) returns (r': Run)
    requires ValidRun(r) && Enabled(r.states[|r.steps|], step)
    ensures ValidRun(r') && r'.steps == r.steps + [step]
    ensures r'.states == r.states + [Apply(r.states[|r.steps|], step)]
  {
    r' := Run(r.steps + [step], r.states + [Apply(r.states[|r.steps|], step)]);
    forall i | 0 <= i < |r'.steps| ensures StepAt(r', i) {
      if i < |r.steps| {
        assert StepAt(r, i);
      }
    }
  }

  lemma ExtendByTwo(r: Run, first: Step, second: Step) returns (r': Run)
    requires ValidRun(r) && Enabled(r.states[|r.steps|], first) && Enabled(Apply(r.states[|r.steps|], first), second)
    ensures ValidRun(r') && r'.steps == r.steps + [first, second]
    ensures r'.states[|r'.steps|] == Apply(Apply(r.states[|r.steps|], first), second)
  {
    var r1 := Extend(r, first);
    r' := Extend(r1, second);
  }

  lemma ExtendByExit(r: Run, exit: SysEvent) returns (r': Run)
    requires ValidRun(r) && r.states[|r.steps|].maps == EmptyMaps && Validated(exit) && exit.kind.ProcessExit?
    ensures ValidRun(r') && r'.steps == r.steps + [Store(exit), Arm(exit.pid)]
    ensures r'.states[|r'.steps|] == Armed(r.states[|r.steps|], exit)
  {
    ExitArmed(r.states[|r.steps|], exit);
    r' := ExtendByTwo(r, Store(exit), Arm(exit.pid));
  }

  lemma ExtendByUnmatched(r: Run, exit: SysEvent) returns (r': Run)
    requires ValidRun(r) && r.states[|r.steps|].maps == EmptyMaps && Validated(exit) && exit.kind.ProcessExit?
    ensures ValidRun(r') && r'.steps == r.steps + [Store(exit), Arm(exit.pid), Fire(exit.pid)]
    ensures r'.states[|r'.steps|].verdicts == r.states[|r.steps|].verdicts + [(exit.pid, Dismatch(exit))]
  {
    LateExitUnmatched(r.states[|r.steps|], exit);
    var r1 := ExtendByExit(r, exit);
    r' := Extend(r1, Fire(exit.pid));
  }

  lemma ExtendByDropped(r: Run, other: SysEvent, crash: SysEvent) returns (r': Run)
    requires ValidRun(r) && r.states[|r.steps|].maps == EmptyMaps && Validated(crash) && Validated(other)
    requires crash.kind.CppCrash? && other.kind.ProcessExit? && crash.pid != other.pid
    ensures ValidRun(r') && r'.steps == r.steps + [Store(other), Arm(other.pid), Store(crash), Fire(other.pid)]
    ensures r'.states[|r'.steps|].maps == EmptyMaps
    ensures r'.states[|r'.steps|].verdicts == r.states[|r.steps|].verdicts + [(other.pid, Dismatch(other))]
  {
    EarlyReportDropped(r.states[|r.steps|], crash, other);
    var r1 := ExtendByExit(r, other);
    r' := ExtendByTwo(r1, Store(crash), Fire(other.pid));
  }

  /** So a process whose crash was reported before its exit can still end up unmatched: a run in which the
      crash is taken in, another process is judged, and then the exit arrives and is judged. */
  lemma EarlyCrashUnmatched(other: SysEvent, crash: SysEvent, exit: SysEvent) returns (r: Run)
    requires Validated(other) && Validated(crash) && Validated(exit)
    requires other.kind.ProcessExit? && crash.kind.CppCrash? && exit.kind.ProcessExit?
    requires crash.pid == exit.pid != other.pid
    ensures ValidRun(r)
    ensures r.steps == [Store(other), Arm(other.pid), Store(crash), Fire(other.pid),
                        Store(exit), Arm(exit.pid), Fire(exit.pid)]
    ensures r.states[7].verdicts == [(other.pid, Dismatch(other)), (exit.pid, Dismatch(exit))]
  {
    var r4 := ExtendByDropped(Run([], [Initial]), other, crash);
    r := ExtendByUnmatched(r4, exit);
  }
}
