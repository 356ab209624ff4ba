/** Selection of the database record nearest to a trigger. */
module NearestRecords {
  import opened Wrappers
  import opened LoopEvents

  const UINT64_MAX: Uint64 := UINT64_RANGE - 1

  datatype Record = Record(
    domain: string,
    stringId: string,
    happenTime: Uint64,
    packageName: string,
    processName: string,
    paramPid: int,
    ownPid: int,
    tid: int)
  {
    function Package(): string {
      if packageName == "" then processName else packageName
    }

    function Pid(): int {
      if paramPid != 0 then paramPid else ownPid
    }
  }

  datatype WatchParams = WatchParams(pid: int, tid: int, timestamp: Uint64, packageName: string, stringId: string)

  predicate Matches(p: WatchParams, samePackage: bool, r: Record) {
    samePackage ==>
      && (p.stringId == "RENDER_JS_FREEZE" || p.packageName == r.Package())
      && p.pid == r.Pid()
      && !(p.tid > 0 && r.tid > 0 && p.tid != r.tid)
  }

  /** The variables of the selection loop; an interval of UINT64_MAX means none found yet. */
  datatype Scan = Scan(front: Uint64, rear: Uint64, best: Option<nat>)

  const StartScan: Scan := Scan(UINT64_MAX, UINT64_MAX, None)

  /** One pass of the loop over the record at index i; the subtractions are unsigned. */
  function ScanStep(s: Scan, p: WatchParams, samePackage: bool, r: Record, i: nat): Scan {
    var ts := p.timestamp;
    if !Matches(p, samePackage, r) then s
    else if r.happenTime < ts && ts - r.happenTime < s.front then s.(front := ts - r.happenTime, best := Some(i))
    else if s.front == UINT64_MAX then
      if Wrap64(r.happenTime - ts) >= s.rear then s
      else s.(rear := Wrap64(r.happenTime - ts), best := Some(i))
    else s
  }

  function ScanAll(p: WatchParams, samePackage: bool, rs: seq<Record>): (s: Scan)
    ensures s.best.Some? ==> s.best.value < |rs|
  {
    if rs == [] then StartScan
    else ScanStep(ScanAll(p, samePackage, rs[..|rs| - 1]), p, samePackage, rs[|rs| - 1], |rs| - 1)
  }

  method GetResultWatchPoint(p: WatchParams, samePackage: bool, rs: seq<Record>) returns (best: Option<nat>)
    ensures best == ScanAll(p, samePackage, rs).best
    ensures best.Some? ==> best.value < |rs| && Candidate(p, samePackage, rs[best.value])
    ensures AllMeasurable(p, rs) ==> IsNearest(p, samePackage, rs, best)
  {
    var frontInterval: Uint64, rearInterval: Uint64 := UINT64_MAX, UINT64_MAX;
    best := None;
    var i := 0;
    while i < |rs|
      invariant i <= |rs|
      invariant Scan(frontInterval, rearInterval, best) == ScanAll(p, samePackage, rs[..i])
    {
      assert rs[..i + 1][..i] == rs[..i];
      var r, timestamp := rs[i], p.timestamp;
      i := i + 1;
      if !Matches(p, samePackage, r) {
        continue;
      }
      if r.happenTime < timestamp && timestamp - r.happenTime < frontInterval {
        frontInterval := timestamp - r.happenTime;
      } else if frontInterval == UINT64_MAX {
        if Wrap64(r.happenTime - timestamp) >= rearInterval {
          continue;
        }
        rearInterval := Wrap64(r.happenTime - timestamp);
      } else {
        continue;
      }
      best := Some(i - 1);
    }
    assert rs[..i] == rs;
    ScanFindsCandidate(p, samePackage, rs);
    if AllMeasurable(p, rs) {
      ScanFindsNearest(p, samePackage, rs);
    }
  }

  // ---------- What the loop is for ----------

  /** The records a rule is about: any, or with the same-package option those of the trigger's process (by
      the pid parameter, or the record's own pid if that is zero), of its package (by the package name, or
      the process name if that is empty; a render freeze does not ask for it), and not of another thread. */
  ghost predicate Candidate(p: WatchParams, samePackage: bool, r: Record) {
    || !samePackage
    || (&& (r.paramPid == p.pid != 0 || (r.paramPid == 0 && r.ownPid == p.pid))
        && (|| p.stringId == "RENDER_JS_FREEZE"
            || (r.packageName == p.packageName && r.packageName != "")
            || (r.packageName == "" && r.processName == p.packageName))
        && (p.tid > 0 && r.tid > 0 ==> r.tid == p.tid))
  }

  lemma MatchesIff(p: WatchParams, samePackage: bool, r: Record)
    ensures Matches(p, samePackage, r) <==> Candidate(p, samePackage, r)
  {
  }

  lemma {:induction false} ScanFindsCandidate(p: WatchParams, samePackage: bool, rs: seq<Record>)
    ensures var best := ScanAll(p, samePackage, rs).best;
            best.Some? ==> best.value < |rs| && Candidate(p, samePackage, rs[best.value])
  {
    if rs != [] {
      ScanFindsCandidate(p, samePackage, rs[..|rs| - 1]);
      MatchesIff(p, samePackage, rs[|rs| - 1]);
    }
  }

  /** The distance of the record does not collide with the value that stands for none. */
  predicate Measurable(p: WatchParams, r: Record) {
    p.timestamp - r.happenTime < UINT64_MAX && r.happenTime - p.timestamp < UINT64_MAX
  }

  ghost predicate AllMeasurable(p: WatchParams, rs: seq<Record>) {
    forall r | r in rs :: Measurable(p, r)
  }

  ghost predicate IsFront(p: WatchParams, samePackage: bool, r: Record) {
    Candidate(p, samePackage, r) && r.happenTime < p.timestamp
  }

  ghost predicate IsRear(p: WatchParams, samePackage: bool, r: Record) {
    Candidate(p, samePackage, r) && r.happenTime >= p.timestamp
  }

  /** The first of the latest matching records before the trigger. */
  ghost predicate IsFirstLatestFront(p: WatchParams, samePackage: bool, rs: seq<Record>, k: nat) {
    && k < |rs| && IsFront(p, samePackage, rs[k])
    && forall j | 0 <= j < |rs| && IsFront(p, samePackage, rs[j]) ::
         rs[j].happenTime <= rs[k].happenTime && (j < k ==> rs[j].happenTime < rs[k].happenTime)
  }

  /** The first of the earliest matching records at or after the trigger. */
  ghost predicate IsFirstEarliestRear(p: WatchParams, samePackage: bool, rs: seq<Record>, k: nat) {
    && k < |rs| && IsRear(p, samePackage, rs[k])
    && forall j | 0 <= j < |rs| && IsRear(p, samePackage, rs[j]) ::
         rs[k].happenTime <= rs[j].happenTime && (j < k ==> rs[k].happenTime < rs[j].happenTime)
  }

  ghost predicate HasFront(p: WatchParams, samePackage: bool, rs: seq<Record>) {
    exists j | 0 <= j < |rs| :: IsFront(p, samePackage, rs[j])
  }

  ghost predicate HasRear(p: WatchParams, samePackage: bool, rs: seq<Record>) {
    exists j | 0 <= j < |rs| :: IsRear(p, samePackage, rs[j])
  }

  ghost predicate IsNearest(p: WatchParams, samePackage: bool, rs: seq<Record>, best: Option<nat>) {
    if HasFront(p, samePackage, rs) then best.Some? && IsFirstLatestFront(p, samePackage, rs, best.value)
    else if HasRear(p, samePackage, rs) then best.Some? && IsFirstEarliestRear(p, samePackage, rs, best.value)
    else best.None?
  }

  /** The loop variables after a prefix, in terms of the records of that prefix. */
  ghost predicate ScanOk(p: WatchParams, samePackage: bool, rs: seq<Record>, s: Scan) {
    && IsNearest(p, samePackage, rs, s.best)
    && (HasFront(p, samePackage, rs) <==> s.front != UINT64_MAX)
    && (s.front != UINT64_MAX ==> s.front == p.timestamp - rs[s.best.value].happenTime)
    && (s.front == UINT64_MAX ==>
          if HasRear(p, samePackage, rs) then s.rear == rs[s.best.value].happenTime - p.timestamp
          else s.rear == UINT64_MAX)
  }

  lemma RearDistance(ht: Uint64, ts: Uint64)
    requires ts <= ht
    ensures Wrap64(ht - ts) == ht - ts
  {
  }

  lemma ScanStepOk(p: WatchParams, samePackage: bool, rs: seq<Record>, s: Scan, r: Record)
    requires Measurable(p, r) && ScanOk(p, samePackage, rs, s)
    ensures ScanOk(p, samePackage, rs + [r], ScanStep(s, p, samePackage, r, |rs|))
  {
    MatchesIff(p, samePackage, r);
    var rs' := rs + [r];
    assert forall j | 0 <= j < |rs| :: rs'[j] == rs[j];
    assert rs'[|rs|] == r;
    if HasFront(p, samePackage, rs) {
      assert HasFront(p, samePackage, rs');
    }
    if HasRear(p, samePackage, rs) {
      assert HasRear(p, samePackage, rs');
    }
    if IsRear(p, samePackage, r) {
      RearDistance(r.happenTime, p.timestamp);
      assert HasRear(p, samePackage, rs');
    } else if IsFront(p, samePackage, r) {
      assert HasFront(p, samePackage, rs');
    }
  }

  /** The loop finds the nearest candidate whenever no distance collides with the sentinel. */
  lemma {:induction false} ScanFindsNearest(p: WatchParams, samePackage: bool, rs: seq<Record>)
    requires AllMeasurable(p, rs)
    ensures ScanOk(p, samePackage, rs, ScanAll(p, samePackage, rs))
  {
    if rs != [] {
      var before, r := rs[..|rs| - 1], rs[|rs| - 1];
      ScanFindsNearest(p, samePackage, before);
      ScanStepOk(p, samePackage, before, ScanAll(p, samePackage, before), r);
      assert before + [r] == rs;
    }
  }

  ghost predicate SelectsNearest(p: WatchParams, samePackage: bool, rs: seq<Record>) {
    IsNearest(p, samePackage, rs, ScanAll(p, samePackage, rs).best)
  }

  /** A record of the trigger's own process. */
  function At(p: WatchParams, time: Uint64): Record {
    Record("", "", time, p.packageName, p.packageName, p.pid, p.pid, p.tid)
  }

  /** The sentinel collides with a real distance at the two ends of the range, and nowhere else: the
      loop selects the nearest record for every record sequence exactly when the trigger's time is
      neither zero nor the largest 64-bit number. */
  lemma NearestIff(p: WatchParams, samePackage: bool)
    ensures 0 < p.timestamp < UINT64_MAX <==>
            forall rs: seq<Record> :: SelectsNearest(p, samePackage, rs)
  {
    if 0 < p.timestamp < UINT64_MAX {
      forall rs: seq<Record> ensures SelectsNearest(p, samePackage, rs) {
        ScanFindsNearest(p, samePackage, rs);
      }
    } else if p.timestamp == 0 {
      FarthestMissed(p, samePackage);
    } else {
      EarliestMistaken(p, samePackage);
    }
  }

  lemma FarthestMissed(p: WatchParams, samePackage: bool)
    requires p.timestamp == 0
    ensures !SelectsNearest(p, samePackage, [At(p, UINT64_MAX)])
  {
    var rs := [At(p, UINT64_MAX)];
    assert rs[..0] == [] && IsRear(p, samePackage, rs[0]);
    RearDistance(UINT64_MAX, 0);
    assert ScanAll(p, samePackage, rs) == StartScan;
    assert HasRear(p, samePackage, rs) && !HasFront(p, samePackage, rs);
  }

  lemma EarliestMistaken(p: WatchParams, samePackage: bool)
    requires p.timestamp == UINT64_MAX
    ensures !SelectsNearest(p, samePackage, [At(p, 0), At(p, UINT64_MAX)])
  {
    var rs := [At(p, 0), At(p, UINT64_MAX)];
    MatchesIff(p, samePackage, rs[0]);
    MatchesIff(p, samePackage, rs[1]);
    assert rs[..1] == [At(p, 0)] && rs[..1][..0] == [];
    assert ScanAll(p, samePackage, rs[..1]) == Scan(UINT64_MAX, 1, Some(0));
    assert IsFront(p, samePackage, rs[0]);
  }
}
