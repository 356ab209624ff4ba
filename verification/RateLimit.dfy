/** Rate limiting of logged events: a minimum interval per event name and pid, and a bounded number of
    distinct pids per event name and uid in each window. */
module RateLimit {
  import opened Collections
  import opened StringSearch
  import opened TextOrder

  const MAX_DISTINCT_PID_PER_UID: nat := 5
  const MIN_APP_UID: int := 10000
  const DEFAULT_APP_WRITER_INTERVAL: int := 1

  /** A window: when it was opened and the pids seen in it. */
  type Windows = map<string, (int, set<int>)>
  type Stamps = map<string, int>

  function UidTag(name: string, uid: int): string {
    name + "-uid" + IntText(uid)
  }

  function TimeTag(name: string, pid: int): string {
    name + IntText(pid)
  }

  datatype Event = Event(name: string, uid: int, writerPid: int, paramPid: int, interval: int)
  {
    predicate FromApp() {
      uid >= MIN_APP_UID
    }

    /** System writers without an interval are not limited. */
    predicate Exempt() {
      interval <= 0 && !FromApp()
    }

    function EffectiveInterval(): int {
      if interval > 0 then interval else DEFAULT_APP_WRITER_INTERVAL
    }

    /** Apps are limited by their own pid, system writers by the process they report on. */
    function KeyPid(): int {
      if FromApp() || paramPid == 0 then writerPid else paramPid
    }
  }

  // ---------- Specification ----------

  function LiveWindows(windows: Windows, now: int, interval: int): Windows {
    map tag | tag in windows && now - windows[tag].0 < interval :: windows[tag]
  }

  function NextWindows(windows: Windows, tag: string, pid: int, now: int, interval: int): Windows {
    var live := LiveWindows(windows, now, interval);
    if tag in live then live[tag := (live[tag].0, live[tag].1 + {pid})] else live[tag := (now, {pid})]
  }

  /** Cleaning drops old stamps of every tag that contains the event's name. */
  function LiveStamps(stamps: Stamps, name: string, now: int, interval: int): Stamps {
    map tag | tag in stamps && !(Find(tag, name) != NPOS && now - stamps[tag] >= interval) :: stamps[tag]
  }

  predicate IntervalOk(stamps: Stamps, name: string, tag: string, now: int, interval: int) {
    var live := LiveStamps(stamps, name, now, interval);
    tag !in live || now - live[tag] >= interval
  }

  function NextStamps(stamps: Stamps, name: string, tag: string, now: int, interval: int): Stamps {
    var live := LiveStamps(stamps, name, now, interval);
    if IntervalOk(stamps, name, tag, now, interval) then live[tag := now] else live
  }

  // ---------- The logger ----------

  class EventLogger {
    var uidPidCount: Windows
    var eventTagTime: Stamps

    constructor ()
      ensures uidPidCount == map[] && eventTagTime == map[]
    {
      uidPidCount, eventTagTime := map[], map[];
    }

    method CheckDistinctPidLimit(name: string, pid: int, uid: int, interval: int, now: int) returns (ok: bool)
      modifies this`uidPidCount
      ensures uidPidCount == NextWindows(old(uidPidCount), UidTag(name, uid), pid, now, interval)
      ensures ok <==> |uidPidCount[UidTag(name, uid)].1| <= MAX_DISTINCT_PID_PER_UID
    {
      var uidTag := UidTag(name, uid);
      var windows := uidPidCount;
      var todo := windows.Keys;
      while todo != {}
        invariant todo <= windows.Keys <= uidPidCount.Keys
        invariant forall t | t in windows :: windows[t] == uidPidCount[t]
        invariant forall t | t in uidPidCount && t !in todo :: t in windows <==> now - uidPidCount[t].0 < interval
        decreases |todo|
      {
        var tag :| tag in todo;
        todo := todo - {tag};
        if now - windows[tag].0 >= interval {
          windows := windows - {tag};
        }
      }
      assert windows == LiveWindows(uidPidCount, now, interval);
      if uidTag in windows {
        uidPidCount := windows[uidTag := (windows[uidTag].0, windows[uidTag].1 + {pid})];
        ok := |uidPidCount[uidTag].1| <= MAX_DISTINCT_PID_PER_UID;
      } else {
        uidPidCount := windows[uidTag := (now, {pid})];
        ok := true;
      }
    }

    method CheckEventInterval(name: string, pid: int, interval: int, now: int) returns (ok: bool)
      modifies this`eventTagTime
      ensures ok <==> IntervalOk(old(eventTagTime), name, TimeTag(name, pid), now, interval)
      ensures eventTagTime == NextStamps(old(eventTagTime), name, TimeTag(name, pid), now, interval)
    {
      var stamps := eventTagTime;
      var todo := stamps.Keys;
      while todo != {}
        invariant todo <= stamps.Keys <= eventTagTime.Keys
        invariant forall t | t in stamps :: stamps[t] == eventTagTime[t]
        invariant forall t | t in eventTagTime && t !in todo ::
                    t in stamps <==> !(Find(t, name) != NPOS && now - eventTagTime[t] >= interval)
        decreases |todo|
      {
        var tag :| tag in todo;
        todo := todo - {tag};
        if Find(tag, name) != NPOS && now - stamps[tag] >= interval {
          stamps := stamps - {tag};
        }
      }
      assert stamps == LiveStamps(eventTagTime, name, now, interval);
      var tagTimeName := TimeTag(name, pid);
      if tagTimeName in stamps && now - stamps[tagTimeName] < interval {
        eventTagTime := stamps;
        return false;
      }
      eventTagTime := stamps[tagTimeName := now];
      return true;
    }

    /** The clock is read once by each check. */
    method JudgmentRateLimiting(e: Event, now1: int, now2: int) returns (ok: bool)
      modifies this
      ensures State(uidPidCount, eventTagTime) ==
              Apply(State(old(uidPidCount), old(eventTagTime)), Request(e, now1, now2))
      ensures ok <==> Accepts(State(old(uidPidCount), old(eventTagTime)), Request(e, now1, now2))
    {
      if e.interval <= 0 && e.uid < MIN_APP_UID {
        return true;
      }
      var interval := e.EffectiveInterval();
      var pid := e.KeyPid();
      ok := CheckDistinctPidLimit(e.name, pid, e.uid, interval, now1);
      if ok {
        ok := CheckEventInterval(e.name, pid, interval, now2);
      }
    }
  }

  // ---------- Runs ----------

  datatype State = State(windows: Windows, stamps: Stamps)

  datatype Request = Request(event: Event, now1: int, now2: int)

  function TagOf(r: Request): string {
    TimeTag(r.event.name, r.event.KeyPid())
  }

  function RequestWindows(s: State, r: Request): Windows {
    NextWindows(s.windows, UidTag(r.event.name, r.event.uid), r.event.KeyPid(), r.now1, r.event.EffectiveInterval())
  }

  predicate PidsOk(s: State, r: Request) {
    |RequestWindows(s, r)[UidTag(r.event.name, r.event.uid)].1| <= MAX_DISTINCT_PID_PER_UID
  }

  predicate StampOk(s: State, r: Request) {
    IntervalOk(s.stamps, r.event.name, TagOf(r), r.now2, r.event.EffectiveInterval())
  }

  predicate Accepts(s: State, r: Request) {
    r.event.Exempt() || (PidsOk(s, r) && StampOk(s, r))
  }

  function Apply(s: State, r: Request): State {
    if r.event.Exempt() then s
    else if !PidsOk(s, r) then s.(windows := RequestWindows(s, r))
    else State(RequestWindows(s, r),
               NextStamps(s.stamps, r.event.name, TagOf(r), r.now2, r.event.EffectiveInterval()))
  }

  const Initial: State := State(map[], map[])

  function StateAt(rs: seq<Request>, k: nat): State
    requires k <= |rs|
  {
    if k == 0 then Initial else Apply(StateAt(rs, k - 1), rs[k - 1])
  }

  ghost predicate Accepted(rs: seq<Request>, k: nat)
    requires k < |rs|
  {
    !rs[k].event.Exempt() && Accepts(StateAt(rs, k), rs[k])
  }

  /** The clock never goes back, within a request and from one to the next. */
  ghost predicate Clocked(rs: seq<Request>) {
    && (forall i | 0 <= i < |rs| :: rs[i].now1 <= rs[i].now2)
    && (forall i, j | 0 <= i < j < |rs| :: rs[i].now2 <= rs[j].now1)
  }

  ghost predicate IntervalsAtLeast(rs: seq<Request>, least: int) {
    forall i | 0 <= i < |rs| && !rs[i].event.Exempt() :: rs[i].event.EffectiveInterval() >= least
  }

  /** Since a stamp was set at `since`, it is still there or newer, or `least` has passed by `clock`. */
  ghost predicate Remembered(stamps: Stamps, tag: string, since: int, least: int, clock: int) {
    (tag in stamps && stamps[tag] >= since) || clock >= since + least
  }

  lemma RememberStep(s: State, r: Request, tag: string, since: int, least: int, clock: int)
    requires Remembered(s.stamps, tag, since, least, clock) && clock <= r.now2 && since <= r.now2
    requires !r.event.Exempt() ==> r.event.EffectiveInterval() >= least
    ensures Remembered(Apply(s, r).stamps, tag, since, least, r.now2)
  {
  }

  lemma AcceptedSetsStamp(s: State, r: Request)
    requires !r.event.Exempt() && Accepts(s, r)
    ensures TagOf(r) in Apply(s, r).stamps && Apply(s, r).stamps[TagOf(r)] == r.now2
  {
  }

  /** The state before request k still remembers request i, up to the clock of the request before k. */
  ghost predicate RemembersAt(rs: seq<Request>, i: nat, k: nat, least: int)
    requires i < k <= |rs|
  {
    Remembered(StateAt(rs, k).stamps, TagOf(rs[i]), rs[i].now2, least, rs[k - 1].now2)
  }

  lemma RemembersFirst(rs: seq<Request>, i: nat, least: int)
    requires i < |rs| && Accepted(rs, i)
    ensures RemembersAt(rs, i, i + 1, least)
  {
    AcceptedSetsStamp(StateAt(rs, i), rs[i]);
  }

  lemma RemembersTurn(rs: seq<Request>, i: nat, k: nat, least: int)
    requires i < k < |rs| && Clocked(rs) && IntervalsAtLeast(rs, least) && RemembersAt(rs, i, k, least)
    ensures RemembersAt(rs, i, k + 1, least)
  {
    assert rs[k - 1].now2 <= rs[k].now1 <= rs[k].now2;
    assert i < k - 1 ==> rs[i].now2 <= rs[k - 1].now1 <= rs[k - 1].now2;
    RememberStep(StateAt(rs, k), rs[k], TagOf(rs[i]), rs[i].now2, least, rs[k - 1].now2);
  }

  lemma {:induction false} RememberedAt(rs: seq<Request>, i: nat, k: nat, least: int)
    requires i < k <= |rs| && Clocked(rs) && IntervalsAtLeast(rs, least) && RemembersAt(rs, i, i + 1, least)
    ensures RemembersAt(rs, i, k, least)
    decreases k
  {
    if i + 1 < k {
      RememberedAt(rs, i, k - 1, least);
      RemembersTurn(rs, i, k - 1, least);
    }
  }

  /** Two accepted events of the same name and pid are at least as far apart as the smallest interval in
      use; with one common interval, at least that interval. */
  lemma AcceptedApart(rs: seq<Request>, i: nat, j: nat, least: int)
    requires i < j < |rs| && Clocked(rs) && IntervalsAtLeast(rs, least)
    requires Accepted(rs, i) && Accepted(rs, j)
    requires rs[i].event.name == rs[j].event.name && rs[i].event.KeyPid() == rs[j].event.KeyPid()
    ensures rs[j].now2 - rs[i].now2 >= least
  {
    RemembersFirst(rs, i, least);
    RememberedAt(rs, i, j, least);
    assert rs[j - 1].now2 <= rs[j].now1 <= rs[j].now2;
    StampApart(StateAt(rs, j), rs[j], rs[i].now2, least, rs[j - 1].now2);
  }

  lemma StampApart(s: State, r: Request, since: int, least: int, clock: int)
    requires StampOk(s, r) && r.event.EffectiveInterval() >= least && clock <= r.now2
    requires Remembered(s.stamps, TagOf(r), since, least, clock)
    ensures r.now2 - since >= least
  {
  }

  // ---------- Who is limited, and by what ----------

  /** The interval that limits an event of the given kind, or none: apps cannot opt out. */
  ghost predicate LimitedBy(e: Event, interval: int) {
    if e.interval > 0 then interval == e.interval else e.uid >= MIN_APP_UID && interval == 1
  }

  /** The process an event counts for: an app's own, whatever its parameters say; for system writers the
      process they report on, or their own if they name none. */
  ghost predicate CountsFor(e: Event, pid: int) {
    pid == if e.uid < MIN_APP_UID && e.paramPid != 0 then e.paramPid else e.writerPid
  }

  lemma LimitsAre(e: Event)
    ensures e.Exempt() <==> forall i: int :: !LimitedBy(e, i)
    ensures !e.Exempt() ==> LimitedBy(e, e.EffectiveInterval())
    ensures CountsFor(e, e.KeyPid())
  {
    assert !e.Exempt() ==> LimitedBy(e, e.EffectiveInterval());
  }

  /** What an app writes into its parameters has no influence on the limits. */
  lemma AppParametersIgnored(s: State, r: Request, paramPid: int)
    requires r.event.uid >= MIN_APP_UID
    ensures var q := r.(event := r.event.(paramPid := paramPid));
            (Accepts(s, q) <==> Accepts(s, r)) && Apply(s, q) == Apply(s, r)
  {
    var q := r.(event := r.event.(paramPid := paramPid));
    assert q.event.KeyPid() == r.event.KeyPid() && q.event.Exempt() == r.event.Exempt();
    assert q.event.EffectiveInterval() == r.event.EffectiveInterval() && TagOf(q) == TagOf(r);
    assert RequestWindows(s, q) == RequestWindows(s, r);
  }

  /** A request that counts for a pid under an interval: its window goes on exactly if that interval has
      not passed since the window was opened, else a new one is opened; windows of other names or uids go
      exactly if the interval has passed for them. */
  lemma WindowAfter(s: State, r: Request, tag: string, interval: int, pid: int)
    requires LimitedBy(r.event, interval) && CountsFor(r.event, pid)
    ensures var own := r.event.name + "-uid" + IntText(r.event.uid);
            && own in Apply(s, r).windows
            && (|Apply(s, r).windows[own].1| > 5 ==> !Accepts(s, r) && Apply(s, r).stamps == s.stamps)
            && (|Apply(s, r).windows[own].1| <= 5 <==> PidsOk(s, r))
    ensures var own := r.event.name + "-uid" + IntText(r.event.uid);
            var windows, windows' := s.windows, Apply(s, r).windows;
            var open := tag in windows && r.now1 - windows[tag].0 < interval;
            && (tag != own ==> (tag in windows' <==> open) && (open ==> windows'[tag] == windows[tag]))
            && (tag == own ==> tag in windows' && windows'[tag] == if open then (windows[tag].0, windows[tag].1 + {pid})
                                                                  else (r.now1, {pid}))
  {
    LimitsAre(r.event);
  }

  /** A limited request that passes the pid check is accepted exactly if its interval has passed since the
      stamp under its name and pid, if there is one; it then sets that stamp. A stamp under any other tag
      goes exactly if the request's name occurs in that tag and the interval has passed. */
  lemma StampAfter(s: State, r: Request, tag: string, interval: int, pid: int)
    requires LimitedBy(r.event, interval) && CountsFor(r.event, pid) && PidsOk(s, r)
    ensures TagOf(r) == r.event.name + IntText(pid)
    ensures var own := r.event.name + IntText(pid);
            var stamps, stamps' := s.stamps, Apply(s, r).stamps;
            && (Accepts(s, r) <==> own !in stamps || r.now2 - stamps[own] >= interval)
            && own in stamps' && stamps'[own] == (if Accepts(s, r) then r.now2 else stamps[own])
            && (tag != own ==>
                  && (tag in stamps' <==>
                        tag in stamps && (Find(tag, r.event.name) == NPOS || r.now2 - stamps[tag] < interval))
                  && (tag in stamps' ==> stamps'[tag] == stamps[tag]))
  {
    LimitsAre(r.event);
    NameOccurs(r.event.name, pid);
  }

  // ---------- Mixed intervals ----------

  ghost predicate ReachesIntervalCheck(rs: seq<Request>, k: nat)
    requires k < |rs|
  {
    !rs[k].event.Exempt() && PidsOk(StateAt(rs, k), rs[k])
  }

  /** Request m cleans away a stamp of the tag set at `since`, by its own interval and if its name occurs
      in the tag. */
  ghost predicate Cleans(rs: seq<Request>, m: nat, tag: string, since: int)
    requires m < |rs|
  {
    && ReachesIntervalCheck(rs, m)
    && Find(tag, rs[m].event.name) != NPOS && rs[m].now2 - since >= rs[m].event.EffectiveInterval()
  }

  ghost predicate Cleaned(rs: seq<Request>, i: nat, k: nat)
    requires i < k <= |rs|
  {
    exists m | i < m < k :: Cleans(rs, m, TagOf(rs[i]), rs[i].now2)
  }

  ghost predicate LeavesTag(rs: seq<Request>, m: nat, tag: string)
    requires m < |rs|
  {
    Accepted(rs, m) ==> TagOf(rs[m]) != tag
  }

  /** Between request i, which was accepted, and k no other of its tag was. */
  ghost predicate LastAccepted(rs: seq<Request>, i: nat, k: nat)
    requires i < k <= |rs|
  {
    Accepted(rs, i) && forall m | i < m < k :: LeavesTag(rs, m, TagOf(rs[i]))
  }

  lemma StampStep(rs: seq<Request>, m: nat, tag: string)
    requires m < |rs| && LeavesTag(rs, m, tag)
    ensures var before, after := StateAt(rs, m).stamps, StateAt(rs, m + 1).stamps;
            && (tag in after <==> tag in before && !Cleans(rs, m, tag, before[tag]))
            && (tag in after ==> after[tag] == before[tag])
  {
  }

  lemma CleanedStep(rs: seq<Request>, i: nat, k: nat)
    requires i < k < |rs|
    ensures Cleaned(rs, i, k + 1) <==> Cleaned(rs, i, k) || Cleans(rs, k, TagOf(rs[i]), rs[i].now2)
  {
    if Cleaned(rs, i, k) {
      var m :| i < m < k && Cleans(rs, m, TagOf(rs[i]), rs[i].now2);
    }
  }

  /** Until its tag is accepted again, an accepted event's stamp is there exactly if nobody cleaned it. */
  ghost predicate StampKept(rs: seq<Request>, i: nat, k: nat)
    requires i < k <= |rs|
  {
    var stamps, tag := StateAt(rs, k).stamps, TagOf(rs[i]);
    if Cleaned(rs, i, k) then tag !in stamps else tag in stamps && stamps[tag] == rs[i].now2
  }

  lemma StampSet(rs: seq<Request>, i: nat)
    requires i < |rs| && Accepted(rs, i)
    ensures StampKept(rs, i, i + 1)
  {
    assert !Cleaned(rs, i, i + 1);
  }

  lemma StampKeptTurn(rs: seq<Request>, i: nat, k: nat)
    requires i < k < |rs| && StampKept(rs, i, k) && LeavesTag(rs, k, TagOf(rs[i]))
    ensures StampKept(rs, i, k + 1)
  {
    StampStep(rs, k, TagOf(rs[i]));
    CleanedStep(rs, i, k);
  }

  lemma {:induction false} StampsKept(rs: seq<Request>, i: nat, k: nat)
    requires i < k <= |rs| && StampKept(rs, i, i + 1)
    requires forall m | i < m < k :: LeavesTag(rs, m, TagOf(rs[i]))
    ensures StampKept(rs, i, k)
    decreases k
  {
    if i + 1 < k {
      StampsKept(rs, i, k - 1);
      StampKeptTurn(rs, i, k - 1);
    }
  }

  /** An event that gets as far as the interval check is accepted exactly if its own interval has passed
      since the last accepted one of its tag, or somebody cleaned that one's stamp in between. */
  lemma AcceptedIff(rs: seq<Request>, i: nat, j: nat)
    requires i < j < |rs| && LastAccepted(rs, i, j) && TagOf(rs[j]) == TagOf(rs[i]) && ReachesIntervalCheck(rs, j)
    ensures Accepted(rs, j) <==> rs[j].now2 - rs[i].now2 >= rs[j].event.EffectiveInterval() || Cleaned(rs, i, j)
  {
    StampSet(rs, i);
    StampsKept(rs, i, j);
  }

  lemma NameOccurs(name: string, pid: int)
    ensures Find(TimeTag(name, pid), name) != NPOS
  {
    assert OccursAt(TimeTag(name, pid), name, 0);
  }

  function Interleaved(name: string, uid: int, p: int, q: int, interval: int): seq<Request> {
    var long := Event(name, uid, p, 0, interval);
    [Request(long, 0, 0), Request(Event(name, uid, q, 0, 1), 1, 1), Request(long, 2, 2)]
  }

  lemma InterleavedStates(name: string, uid: int, p: int, q: int, interval: int)
    requires uid >= MIN_APP_UID && interval > 2
    ensures var rs := Interleaved(name, uid, p, q, interval);
            Accepted(rs, 0) && ReachesIntervalCheck(rs, 1) && ReachesIntervalCheck(rs, 2)
  {
    var rs := Interleaved(name, uid, p, q, interval);
    var tag := UidTag(name, uid);
    FirstWindow(Initial, rs[0]);
    assert StateAt(rs, 1) == Apply(Initial, rs[0]);
    FirstWindow(StateAt(rs, 1), rs[1]);
    assert StateAt(rs, 2) == Apply(StateAt(rs, 1), rs[1]);
    assert RequestWindows(StateAt(rs, 2), rs[2])[tag].1 == {q} + {p};
  }

  lemma InterleavedCleans(name: string, uid: int, p: int, q: int, interval: int)
    requires TimeTag(name, p) != TimeTag(name, q) && uid >= MIN_APP_UID
    requires var rs := Interleaved(name, uid, p, q, interval); Accepted(rs, 0) && ReachesIntervalCheck(rs, 1)
    ensures var rs := Interleaved(name, uid, p, q, interval); LastAccepted(rs, 0, 2) && Cleaned(rs, 0, 2)
  {
    var rs := Interleaved(name, uid, p, q, interval);
    NameOccurs(name, p);
    assert TagOf(rs[0]) == TimeTag(name, p) && TagOf(rs[1]) == TimeTag(name, q);
    assert Cleans(rs, 1, TagOf(rs[0]), 0);
    assert LeavesTag(rs, 1, TagOf(rs[0]));
  }

  /** A request for which all windows are out of date opens a new one and passes the pid check. */
  lemma FirstWindow(s: State, r: Request)
    requires !r.event.Exempt() && LiveWindows(s.windows, r.now1, r.event.EffectiveInterval()) == map[]
    ensures var tag := UidTag(r.event.name, r.event.uid);
            PidsOk(s, r) && Apply(s, r).windows == map[tag := (r.now1, {r.event.KeyPid()})]
  {
  }

  /** So an event with a long interval is accepted again too early if another process reports an event of
      the same name with a short interval in between. */
  lemma ShortIntervalLetsThrough(name: string, uid: int, p: int, q: int, interval: int) returns (rs: seq<Request>)
    requires uid >= MIN_APP_UID && interval > 2 && TimeTag(name, p) != TimeTag(name, q)
    ensures |rs| == 3 && Clocked(rs) && Accepted(rs, 0) && Accepted(rs, 2) && TagOf(rs[0]) == TagOf(rs[2])
    ensures rs[2].event.interval == rs[0].event.interval == interval && rs[2].now2 - rs[0].now2 < interval
  {
    rs := Interleaved(name, uid, p, q, interval);
    InterleavedStates(name, uid, p, q, interval);
    InterleavedCleans(name, uid, p, q, interval);
    AcceptedIff(rs, 0, 2);
  }

  // ---------- Distinct pids per window ----------

  /** The pids accepted under a tag since its present window was opened. */
  ghost function WindowPids(rs: seq<Request>, k: nat, tag: string): set<int>
    requires k <= |rs|
  {
    if k == 0 then {}
    else
      var s, r := StateAt(rs, k - 1), rs[k - 1];
      var kept := if tag in s.windows && tag in StateAt(rs, k).windows
                     && s.windows[tag].0 == StateAt(rs, k).windows[tag].0
                  then WindowPids(rs, k - 1, tag) else {};
      if Accepted(rs, k - 1) && UidTag(r.event.name, r.event.uid) == tag then kept + {r.event.KeyPid()} else kept
  }

  ghost predicate WindowOk(rs: seq<Request>, k: nat, tag: string)
    requires k <= |rs|
  {
    var s, pids := StateAt(rs, k), WindowPids(rs, k, tag);
    |pids| <= MAX_DISTINCT_PID_PER_UID && (if tag in s.windows then pids <= s.windows[tag].1 else pids == {})
  }

  /** A window that is still open has lost no pid, and a request that passes the pid check has its own
      pid in a window of at most the allowed size. */
  lemma WindowStep(s: State, r: Request, tag: string)
    ensures var s' := Apply(s, r);
            tag in s.windows && tag in s'.windows && s.windows[tag].0 == s'.windows[tag].0 ==>
              s.windows[tag].1 <= s'.windows[tag].1
    ensures var own := UidTag(r.event.name, r.event.uid);
            !r.event.Exempt() && Accepts(s, r) ==>
              && own in Apply(s, r).windows
              && r.event.KeyPid() in Apply(s, r).windows[own].1
              && |Apply(s, r).windows[own].1| <= MAX_DISTINCT_PID_PER_UID
  {
  }

  lemma {:induction false} WindowBound(rs: seq<Request>, k: nat, tag: string)
    requires k <= |rs|
    ensures WindowOk(rs, k, tag)
  {
    if k > 0 {
      WindowBound(rs, k - 1, tag);
      WindowStep(StateAt(rs, k - 1), rs[k - 1], tag);
      var s', pids := StateAt(rs, k), WindowPids(rs, k, tag);
      if tag in s'.windows && |s'.windows[tag].1| <= MAX_DISTINCT_PID_PER_UID {
        assert pids <= s'.windows[tag].1;
        SubsetSize(pids, s'.windows[tag].1);
      }
    }
  }

  /** In every run, whatever the clock does, each window of an event name and uid accepts events of at
      most five distinct pids, all of which it has on record. */
  lemma AtMostFivePids(rs: seq<Request>, k: nat, name: string, uid: int)
    requires k <= |rs|
    ensures |WindowPids(rs, k, UidTag(name, uid))| <= MAX_DISTINCT_PID_PER_UID
  {
    WindowBound(rs, k, UidTag(name, uid));
  }

  /** A window is replaced only when it has been open for the interval of the event that replaces it. */
  lemma WindowsApart(s: State, r: Request, tag: string)
    requires tag in s.windows && tag in Apply(s, r).windows && Apply(s, r).windows[tag].0 != s.windows[tag].0
    ensures Apply(s, r).windows[tag].0 - s.windows[tag].0 >= r.event.EffectiveInterval()
  {
  }
}
