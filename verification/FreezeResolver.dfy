/** Freeze rules, the resolution of a trigger against them, and the judgement by counting. */
module FreezeResolvers {
  import opened Wrappers
  import opened LoopEvents
  import opened NearestRecords

  const MILLISECOND: int := 1000

  const UI_BLOCK_6S: string := "UI_BLOCK_6S"
  const UI_BLOCK_RECOVERED: string := "UI_BLOCK_RECOVERED"

  datatype WatchPoint = WatchPoint(
    domain: string, stringId: string, timestamp: Uint64, pid: int, tid: int, packageName: string, processName: string)

  /** A rule linked to a trigger; `window` is in seconds, negative to look back. */
  datatype FreezeResult = FreezeResult(
    window: int, delay: int, domain: string, stringId: string, samePackage: bool, action: string)

  // ---------- Rules ----------

  function RuleKey(result: FreezeResult): string {
    result.domain + result.stringId
  }

  predicate Complete(result: FreezeResult) {
    result.domain != "" && result.stringId != ""
  }

  /** The links of one list that are read: those before the first with a missing attribute. */
  function CompleteLinks(links: seq<FreezeResult>): (r: seq<FreezeResult>)
    ensures |r| <= |links| && r == links[..|r|]
    ensures forall l | l in r :: l.domain != "" && l.stringId != ""
    ensures |r| < |links| ==> links[|r|].domain == "" || links[|r|].stringId == ""
  {
    if links == [] || !Complete(links[0]) then [] else [links[0]] + CompleteLinks(links[1..])
  }

  function UsableLinks(lists: seq<seq<FreezeResult>>): seq<FreezeResult> {
    if lists == [] then [] else UsableLinks(lists[..|lists| - 1]) + CompleteLinks(lists[|lists| - 1])
  }

  function Linked(links: seq<FreezeResult>): map<string, FreezeResult> {
    if links == [] then map[]
    else
      var before, last := Linked(links[..|links| - 1]), links[|links| - 1];
      if RuleKey(last) in before then before else before[RuleKey(last) := last]
  }

  ghost predicate IsFirstWithKey(result: FreezeResult, links: seq<FreezeResult>, key: string) {
    exists i | 0 <= i < |links| ::
      && links[i] == result && result.domain + result.stringId == key
      && forall j | 0 <= j < i :: links[j].domain + links[j].stringId != key
  }

  lemma FirstStaysFirst(result: FreezeResult, links: seq<FreezeResult>, last: FreezeResult, key: string)
    ensures IsFirstWithKey(result, links, key) ==> IsFirstWithKey(result, links + [last], key)
  {
    var all := links + [last];
    if IsFirstWithKey(result, links, key) {
      var i :| 0 <= i < |links| && links[i] == result && result.domain + result.stringId == key
               && forall j | 0 <= j < i :: links[j].domain + links[j].stringId != key;
      assert all[i] == result && forall j | 0 <= j < i :: all[j] == links[j];
    }
  }

  /** The keys are those of the links, and the first link under a key wins. */
  lemma {:induction false} FirstLinkWins(links: seq<FreezeResult>, key: string)
    ensures key in Linked(links) <==> exists i | 0 <= i < |links| :: links[i].domain + links[i].stringId == key
    ensures key in Linked(links) ==> IsFirstWithKey(Linked(links)[key], links, key)
  {
    if links != [] {
      var before, last := links[..|links| - 1], links[|links| - 1];
      FirstLinkWins(before, key);
      assert links == before + [last] && forall i | 0 <= i < |before| :: links[i] == before[i];
      if key in Linked(before) {
        FirstStaysFirst(Linked(before)[key], before, last, key);
      } else if RuleKey(last) == key {
        assert links[|before|] == last;
        assert IsFirstWithKey(last, links, key);
      }
    }
  }

  /** The rules linked to one trigger, keyed by domain and name. */
  class FreezeRule {
    var results: map<string, FreezeResult>

    constructor ()
      ensures results == map[]
    {
      results := map[];
    }

    method AddResult(result: FreezeResult)
      modifies this
      ensures RuleKey(result) in old(results) ==> results == old(results)
      ensures RuleKey(result) !in old(results) ==> results == old(results)[RuleKey(result) := result]
    {
      if RuleKey(result) in results {
        return;
      }
      results := results[RuleKey(result) := result];
    }

    /** ParseTagLinks: a link with a missing attribute ends the list. */
    method AddLinks(links: seq<FreezeResult>, ghost read: seq<FreezeResult>)
      requires results == Linked(read)
      modifies this
      ensures results == Linked(read + CompleteLinks(links))
    {
      ghost var got := read;
      for i := 0 to |links|
        invariant results == Linked(got)
        invariant got + CompleteLinks(links[i..]) == read + CompleteLinks(links)
      {
        if links[i].domain == "" || links[i].stringId == "" {
          assert got + [] == got;
          return;
        }
        AddResult(links[i]);
        assert (got + [links[i]])[..|got|] == got;
        NextLink(got, links, i);
        got := got + [links[i]];
      }
      assert got + CompleteLinks([]) == got;
    }
  }

  lemma NextLink(got: seq<FreezeResult>, links: seq<FreezeResult>, i: nat)
    requires i < |links| && Complete(links[i])
    ensures got + [links[i]] + CompleteLinks(links[i + 1..]) == got + CompleteLinks(links[i..])
  {
    assert links[i..][1..] == links[i + 1..];
    assert CompleteLinks(links[i..]) == [links[i]] + CompleteLinks(links[i + 1..]);
  }

  /** The rules of all triggers, keyed like the rules of one. */
  type Cluster = map<string, map<string, FreezeResult>>

  class FreezeRuleCluster {
    var rules: Cluster

    constructor ()
      ensures rules == map[]
    {
      rules := map[];
    }

    /** ParseTagRule: the first rule of a trigger wins, with the first link under each key. */
    method AddRule(domain: string, stringId: string, lists: seq<seq<FreezeResult>>)
      modifies this
      ensures domain == "" || stringId == "" || domain + stringId in old(rules) ==> rules == old(rules)
      ensures domain != "" && stringId != "" && domain + stringId !in old(rules) ==>
                rules == old(rules)[domain + stringId := Linked(UsableLinks(lists))]
      ensures domain != "" && stringId != "" && domain + stringId !in old(rules) ==>
                RulesFor(rules, domain, stringId) == Linked(UsableLinks(lists))
    {
      if domain == "" || stringId == "" {
        return;
      }
      var rule := new FreezeRule();
      for i := 0 to |lists|
        invariant fresh(rule) && rule.results == Linked(UsableLinks(lists[..i])) && rules == old(rules)
      {
        assert lists[..i + 1][..i] == lists[..i];
        rule.AddLinks(lists[i], UsableLinks(lists[..i]));
      }
      assert lists[..|lists|] == lists;
      if domain + stringId in rules {
        return;
      }
      rules := rules[domain + stringId := rule.results];
    }
  }

  ghost predicate SortedByWindow(list: seq<FreezeResult>) {
    forall i, j | 0 <= i < j < |list| :: list[i].window <= list[j].window
  }

  /** `list` holds the value of every key exactly once: `keys` names the key of each position. */
  ghost predicate Enumerates(keys: seq<string>, list: seq<FreezeResult>, rules: map<string, FreezeResult>,
                             todo: set<string>)
  {
    && |keys| == |list|
    && (forall i | 0 <= i < |keys| :: keys[i] in rules && list[i] == rules[keys[i]])
    && (forall k | k in keys :: k !in todo)
    && (forall i, j | 0 <= i < j < |keys| :: keys[i] != keys[j])
    && (forall k | k in rules :: k in todo || k in keys)
  }

  method InsertByWindow(list: seq<FreezeResult>, result: FreezeResult) returns (k: nat)
    requires SortedByWindow(list)
    ensures k <= |list| && SortedByWindow(Insert(list, k, result))
  {
    k := |list|;
    while k > 0 && result.window < list[k - 1].window
      invariant 0 <= k <= |list|
      invariant forall j | k <= j < |list| :: result.window < list[j].window
    {
      k := k - 1;
    }
    InsertSorts(list, k, result);
  }

  lemma InsertSorts(list: seq<FreezeResult>, k: nat, result: FreezeResult)
    requires SortedByWindow(list) && k <= |list| && (k > 0 ==> list[k - 1].window <= result.window)
    requires forall j | k <= j < |list| :: result.window < list[j].window
    ensures SortedByWindow(Insert(list, k, result))
  {
    assert forall j | 0 <= j < k :: list[j].window <= result.window;
  }

  function Insert<T>(s: seq<T>, k: nat, x: T): seq<T>
    requires k <= |s|
  {
    s[..k] + [x] + s[k..]
  }

  lemma InsertMembers(keys: seq<string>, k: nat, key: string)
    requires k <= |keys|
    ensures forall q :: q in Insert(keys, k, key) <==> q in keys || q == key
  {
    assert keys == keys[..k] + keys[k..];
  }

  lemma InsertDistinct(keys: seq<string>, k: nat, key: string)
    requires k <= |keys| && key !in keys
    requires forall i, j | 0 <= i < j < |keys| :: keys[i] != keys[j]
    ensures var t := Insert(keys, k, key); forall i, j | 0 <= i < j < |t| :: t[i] != t[j]
  {
  }

  lemma InsertValues(keys: seq<string>, list: seq<FreezeResult>, rules: map<string, FreezeResult>, k: nat, key: string)
    requires |keys| == |list| && k <= |list| && key in rules
    requires forall i | 0 <= i < |keys| :: keys[i] in rules && list[i] == rules[keys[i]]
    ensures var ks, l := Insert(keys, k, key), Insert(list, k, rules[key]);
            |ks| == |l| && forall i | 0 <= i < |ks| :: ks[i] in rules && l[i] == rules[ks[i]]
  {
  }

  lemma InsertEnumerates(keys: seq<string>, list: seq<FreezeResult>, rules: map<string, FreezeResult>,
                         todo: set<string>, key: string, k: nat)
    requires Enumerates(keys, list, rules, todo) && key in todo && key in rules && k <= |list|
    ensures Enumerates(Insert(keys, k, key), Insert(list, k, rules[key]), rules, todo - {key})
  {
    InsertMembers(keys, k, key);
    InsertDistinct(keys, k, key);
    InsertValues(keys, list, rules, k, key);
    var t := Insert(keys, k, key);
    assert forall i | 0 <= i < |t| :: t[i] in t;
  }

  function RulesFor(cluster: Cluster, domain: string, stringId: string): map<string, FreezeResult> {
    if domain + stringId in cluster then cluster[domain + stringId] else map[]
  }

  /** GetResult: the rules linked to a trigger in order of their windows, each exactly once. */
  method GetResult(cluster: Cluster, domain: string, stringId: string)
    returns (found: bool, list: seq<FreezeResult>, ghost keys: seq<string>)
    ensures SortedByWindow(list) && Enumerates(keys, list, RulesFor(cluster, domain, stringId), {})
    ensures found <==> RulesFor(cluster, domain, stringId) != map[]
  {
    list, keys := [], [];
    if domain + stringId !in cluster {
      found := false;
      return;
    }
    var rules := cluster[domain + stringId];
    var todo := rules.Keys;
    while todo != {}
      invariant todo <= rules.Keys
      invariant SortedByWindow(list) && Enumerates(keys, list, rules, todo)
      decreases |todo|
    {
      var key :| key in todo;
      var k := InsertByWindow(list, rules[key]);
      InsertEnumerates(keys, list, rules, todo, key, k);
      list, keys := Insert(list, k, rules[key]), Insert(keys, k, key);
      todo := todo - {key};
    }
    found := |list| > 0;
    EnumeratesEmptyIff(keys, list, rules);
  }

  lemma EnumeratesEmptyIff(keys: seq<string>, list: seq<FreezeResult>, rules: map<string, FreezeResult>)
    requires Enumerates(keys, list, rules, {})
    ensures list == [] <==> rules == map[]
  {
    assert |keys| > 0 ==> keys[0] in rules;
    if rules != map[] {
      var q :| q in rules;
      assert q in keys && |keys| > 0;
    }
  }

  // ---------- Resolution ----------

  function QueryParams(wp: WatchPoint): WatchParams {
    var packageName := if wp.packageName == "" then wp.processName else wp.packageName;
    WatchParams(wp.pid, wp.tid, wp.timestamp, packageName, wp.stringId)
  }

  /** The queried period; the arithmetic is unsigned, so a look-back past the epoch wraps around. */
  function Period(wp: WatchPoint, rule: FreezeResult): (Uint64, Uint64) {
    var interval := Wrap64((if rule.window < 0 then -rule.window else rule.window) * MILLISECOND);
    var delay := Wrap64((if rule.delay < 0 then 0 else rule.delay) * MILLISECOND);
    var start := if rule.window > 0 then wp.timestamp else Wrap64(wp.timestamp - interval);
    var end := if rule.window > 0 then Wrap64(wp.timestamp + interval) else wp.timestamp;
    (start, Wrap64(end + delay))
  }

  /** The event store: every record with its time, and whether it answers queries. */
  datatype Store = Store(records: seq<Record>, works: bool)

  function Query(records: seq<Record>, rule: FreezeResult, start: Uint64, end: Uint64): seq<Record> {
    if records == [] then []
    else
      var r := records[|records| - 1];
      Query(records[..|records| - 1], rule, start, end)
        + (if r.domain == rule.domain && r.stringId == rule.stringId && start <= r.happenTime <= end then [r] else [])
  }

  /** The watch point of a selected record. */
  function PointOf(rule: FreezeResult, r: Record): WatchPoint {
    WatchPoint(rule.domain, rule.stringId, r.happenTime, r.Pid(), r.tid, r.Package(), r.processName)
  }

  function Selected(store: Store, wp: WatchPoint, rule: FreezeResult): Option<WatchPoint> {
    var (start, end) := Period(wp, rule);
    if start > end || !store.works then None
    else
      var rs := Query(store.records, rule, start, end);
      var best := ScanAll(QueryParams(wp), rule.samePackage, rs).best;
      if best.None? || rule.domain == "" then None
      else
        var r := rs[best.value];
        Some(PointOf(rule, r))
  }

  /** What a rule contributes: the trigger itself for an empty window, otherwise the selected record. */
  function RuleMatch(store: Store, wp: WatchPoint, rule: FreezeResult): Option<WatchPoint> {
    if rule.window == 0 then Some(wp) else Selected(store, wp, rule)
  }

  predicate Matched(store: Store, wp: WatchPoint, rule: FreezeResult) {
    RuleMatch(store, wp, rule).Some?
  }

  function AllMatches(store: Store, wp: WatchPoint, rules: seq<FreezeResult>): seq<WatchPoint> {
    if rules == [] then []
    else
      var m := RuleMatch(store, wp, rules[|rules| - 1]);
      AllMatches(store, wp, rules[..|rules| - 1]) + (if m.Some? then [m.value] else [])
  }

  method ResolveEvent(store: Store, wp: WatchPoint, rules: seq<FreezeResult>) returns (list: seq<WatchPoint>)
    ensures list == AllMatches(store, wp, rules)
  {
    list := [];
    for i := 0 to |rules|
      invariant list == AllMatches(store, wp, rules[..i])
    {
      assert rules[..i + 1][..i] == rules[..i];
      var rule := rules[i];
      if rule.window == 0 {
        list := list + [wp];
      } else {
        var (start, end) := Period(wp, rule);
        if start <= end && store.works {
          var rs := Query(store.records, rule, start, end);
          var best := GetResultWatchPoint(QueryParams(wp), rule.samePackage, rs);
          if best.Some? && rule.domain != "" {
            var r := rs[best.value];
            list := list + [PointOf(rule, r)];
          }
        }
      }
    }
    assert rules[..|rules|] == rules;
  }

  // ---------- Which records a rule matches ----------

  /** The length of a rule's window and of its delay, in milliseconds. */
  function WindowMillis(rule: FreezeResult): int {
    if rule.window < 0 then -1000 * rule.window else 1000 * rule.window
  }

  function DelayMillis(rule: FreezeResult): int {
    if rule.delay <= 0 then 0 else 1000 * rule.delay
  }

  /** A negative window looks back from the trigger, a positive one ahead; the delay extends the end. */
  ghost predicate InWindow(wp: WatchPoint, rule: FreezeResult, time: int) {
    if rule.window < 0 then wp.timestamp - WindowMillis(rule) <= time <= wp.timestamp + DelayMillis(rule)
    else wp.timestamp <= time <= wp.timestamp + WindowMillis(rule) + DelayMillis(rule)
  }

  /** Neither end of the window leaves the 64-bit range. */
  ghost predicate WindowFits(wp: WatchPoint, rule: FreezeResult) {
    && (rule.window < 0 ==> WindowMillis(rule) <= wp.timestamp)
    && wp.timestamp + (if rule.window > 0 then WindowMillis(rule) else 0) + DelayMillis(rule) < UINT64_RANGE
  }

  /** The unsigned arithmetic of a window that fits. */
  lemma PeriodIs(wp: WatchPoint, rule: FreezeResult)
    requires rule.window != 0 && WindowFits(wp, rule)
    ensures var (start, end) := Period(wp, rule);
            && start == wp.timestamp - (if rule.window < 0 then WindowMillis(rule) else 0)
            && end == wp.timestamp + (if rule.window > 0 then WindowMillis(rule) else 0) + DelayMillis(rule)
  {
    FitsWrap(WindowMillis(rule));
    FitsWrap(DelayMillis(rule));
    if rule.window > 0 {
      FitsWrap(wp.timestamp + WindowMillis(rule));
      FitsWrap(wp.timestamp + WindowMillis(rule) + DelayMillis(rule));
    } else {
      FitsWrap(wp.timestamp - WindowMillis(rule));
      FitsWrap(wp.timestamp + DelayMillis(rule));
    }
  }

  ghost predicate IsWindow(wp: WatchPoint, rule: FreezeResult, start: Uint64, end: Uint64) {
    forall t: Uint64 :: start <= t <= end <==> InWindow(wp, rule, t)
  }

  lemma PeriodIsWindow(wp: WatchPoint, rule: FreezeResult)
    requires rule.window != 0 && WindowFits(wp, rule)
    ensures var (start, end) := Period(wp, rule); start <= end && IsWindow(wp, rule, start, end)
  {
    PeriodIs(wp, rule);
  }

  lemma FitsWrap(n: int)
    ensures 0 <= n < UINT64_RANGE ==> Wrap64(n) == n
  {
  }

  /** What the trigger asks of a record. */
  ghost function Asked(wp: WatchPoint): WatchParams {
    WatchParams(pid := wp.pid, tid := wp.tid, timestamp := wp.timestamp,
                packageName := if wp.packageName != "" then wp.packageName else wp.processName,
                stringId := wp.stringId)
  }

  /** The records of the store that a rule with a window is about. */
  ghost predicate Relevant(wp: WatchPoint, rule: FreezeResult, r: Record) {
    && r.domain == rule.domain && r.stringId == rule.stringId && InWindow(wp, rule, r.happenTime)
    && Candidate(Asked(wp), rule.samePackage, r)
  }

  /** The first of the latest relevant records before the trigger, or if there is none the first of the
      earliest relevant ones from the trigger on. */
  ghost predicate IsNearestRelevant(wp: WatchPoint, rule: FreezeResult, records: seq<Record>, k: nat) {
    && k < |records| && Relevant(wp, rule, records[k])
    && forall j | 0 <= j < |records| && Relevant(wp, rule, records[j]) :: Nearer(wp, records, k, j)
  }

  /** Record k is preferred to record j. */
  ghost predicate Nearer(wp: WatchPoint, records: seq<Record>, k: nat, j: nat)
    requires k < |records| && j < |records|
  {
    var t, u := records[k].happenTime, records[j].happenTime;
    if t < wp.timestamp then u >= wp.timestamp || u < t || (u == t && k <= j)
    else t < u || (t == u && k <= j)
  }

  ghost predicate Asks(rule: FreezeResult, start: Uint64, end: Uint64, r: Record) {
    r.domain == rule.domain && r.stringId == rule.stringId && start <= r.happenTime <= end
  }

  /** The query gives the records it asks for in the order of the store; `at` says where each one was. */
  ghost predicate IsQuery(records: seq<Record>, rule: FreezeResult, start: Uint64, end: Uint64, rs: seq<Record>,
                          at: seq<nat>)
  {
    && |at| == |rs|
    && (forall i | 0 <= i < |at| :: at[i] < |records| && rs[i] == records[at[i]] && Asks(rule, start, end, rs[i]))
    && (forall i, j | 0 <= i < j < |at| :: at[i] < at[j])
    && (forall k: nat | k < |records| && Asks(rule, start, end, records[k]) :: k in at)
  }

  lemma {:induction false} QueryAt(records: seq<Record>, rule: FreezeResult, start: Uint64, end: Uint64)
    returns (at: seq<nat>)
    ensures IsQuery(records, rule, start, end, Query(records, rule, start, end), at)
  {
    at := [];
    if records != [] {
      var before, last := records[..|records| - 1], records[|records| - 1];
      at := QueryAt(before, rule, start, end);
      QueryExtended(before, last, rule, start, end, Query(before, rule, start, end), at);
      assert records == before + [last];
      if Asks(rule, start, end, last) {
        at := at + [|before|];
      }
    }
  }

  /** One more record in the store is one more in the query, if it is asked for. */
  lemma QueryExtended(before: seq<Record>, last: Record, rule: FreezeResult, start: Uint64, end: Uint64,
                      rs: seq<Record>, at: seq<nat>)
    requires IsQuery(before, rule, start, end, rs, at)
    ensures if Asks(rule, start, end, last)
            then IsQuery(before + [last], rule, start, end, rs + [last], at + [|before|])
            else IsQuery(before + [last], rule, start, end, rs, at)
  {
    var records := before + [last];
    forall k: nat | k < |records| && Asks(rule, start, end, records[k]) ensures k in at || k == |before| {
      assert k < |before| ==> records[k] == before[k];
    }
    assert forall k | k in at + [|before|] :: k in at || k == |before|;
    assert |before| in at + [|before|] && forall k | k in at :: k in at + [|before|];
  }

  /** Inside a window that fits, no distance from the trigger is as large as the sentinel. */
  lemma WindowMeasurable(wp: WatchPoint, rule: FreezeResult, r: Record)
    requires rule.window != 0 && WindowFits(wp, rule) && InWindow(wp, rule, r.happenTime)
    ensures Measurable(Asked(wp), r)
  {
    assert UINT64_MAX % 1000 == 615;
  }

  lemma NoneRelevant(wp: WatchPoint, rule: FreezeResult, records: seq<Record>, rs: seq<Record>, at: seq<nat>,
                     start: Uint64, end: Uint64)
    requires IsQuery(records, rule, start, end, rs, at)
    requires IsWindow(wp, rule, start, end)
    ensures (exists i | 0 <= i < |rs| :: Candidate(Asked(wp), rule.samePackage, rs[i])) <==>
            exists k | 0 <= k < |records| :: Relevant(wp, rule, records[k])
  {
    if i :| 0 <= i < |rs| && Candidate(Asked(wp), rule.samePackage, rs[i]) {
      assert Relevant(wp, rule, records[at[i]]);
    }
    if k :| 0 <= k < |records| && Relevant(wp, rule, records[k]) {
      assert k in at;
      var i :| 0 <= i < |at| && at[i] == k;
      assert rs[i] == records[k];
    }
  }

  /** The nearest of the records queried is the nearest relevant one of the store. */
  lemma NearestOfQuery(wp: WatchPoint, rule: FreezeResult, records: seq<Record>, rs: seq<Record>, at: seq<nat>,
                       start: Uint64, end: Uint64, b: nat)
    requires IsQuery(records, rule, start, end, rs, at)
    requires IsWindow(wp, rule, start, end)
    requires IsNearest(Asked(wp), rule.samePackage, rs, Some(b))
    ensures b < |rs| && rs[b] == records[at[b]] && IsNearestRelevant(wp, rule, records, at[b])
  {
    var k := at[b];
    assert Relevant(wp, rule, records[k]);
    forall j | 0 <= j < |records| && Relevant(wp, rule, records[j])
      ensures Nearer(wp, records, k, j)
    {
      assert j in at;
      var i :| 0 <= i < |at| && at[i] == j;
      assert rs[i] == records[j] && Candidate(Asked(wp), rule.samePackage, rs[i]);
    }
  }

  /** What a rule with a window contributes, if the store answers, the rule names a domain and the window
      fits: nothing exactly if no record is relevant, else the point of the nearest relevant record. */
  lemma RuleMatchIs(store: Store, wp: WatchPoint, rule: FreezeResult)
    requires rule.window != 0 && rule.domain != "" && store.works && WindowFits(wp, rule)
    ensures Matched(store, wp, rule) <==> exists k | 0 <= k < |store.records| :: Relevant(wp, rule, store.records[k])
    ensures Matched(store, wp, rule) ==>
              exists k: nat :: && IsNearestRelevant(wp, rule, store.records, k)
                               && RuleMatch(store, wp, rule) == Some(PointFor(rule, store.records[k]))
  {
    var (start, end) := Period(wp, rule);
    PeriodIsWindow(wp, rule);
    BestInWindow(store.records, wp, rule, start, end);
    SelectedIs(store, wp, rule, start, end);
  }

  /** Without a window the trigger stands for itself; a rule with a window contributes nothing if the store
      does not answer or the rule names no domain. */
  lemma RuleMatchOtherwise(store: Store, wp: WatchPoint, rule: FreezeResult)
    requires rule.window == 0 || !store.works || rule.domain == ""
    ensures RuleMatch(store, wp, rule) == if rule.window == 0 then Some(wp) else None
  {
  }

  lemma SelectedIs(store: Store, wp: WatchPoint, rule: FreezeResult, start: Uint64, end: Uint64)
    requires rule.domain != "" && store.works && Period(wp, rule) == (start, end) && start <= end
    ensures var rs := Query(store.records, rule, start, end);
            var best := ScanAll(Asked(wp), rule.samePackage, rs).best;
            Selected(store, wp, rule) == if best.Some? then Some(PointFor(rule, rs[best.value])) else None
  {
    assert QueryParams(wp) == Asked(wp);
    var rs := Query(store.records, rule, start, end);
    var best := ScanAll(Asked(wp), rule.samePackage, rs).best;
    if best.Some? {
      PointForIs(rule, rs[best.value]);
    }
  }

  lemma BestInWindow(records: seq<Record>, wp: WatchPoint, rule: FreezeResult, start: Uint64, end: Uint64)
    requires rule.window != 0 && WindowFits(wp, rule) && IsWindow(wp, rule, start, end)
    ensures var rs := Query(records, rule, start, end);
            var best := ScanAll(Asked(wp), rule.samePackage, rs).best;
            && (best.Some? <==> exists k | 0 <= k < |records| :: Relevant(wp, rule, records[k]))
            && (best.Some? ==> exists k: nat :: IsNearestRelevant(wp, rule, records, k) && records[k] == rs[best.value])
  {
    var rs := Query(records, rule, start, end);
    var at := QueryAt(records, rule, start, end);
    QueryMeasurable(wp, rule, records, rs, at, start, end);
    ScanFindsNearest(Asked(wp), rule.samePackage, rs);
    NoneRelevant(wp, rule, records, rs, at, start, end);
    var best := ScanAll(Asked(wp), rule.samePackage, rs).best;
    SomeCandidate(Asked(wp), rule.samePackage, rs, best);
    if best.Some? {
      NearestOfQuery(wp, rule, records, rs, at, start, end, best.value);
    }
  }

  lemma QueryMeasurable(wp: WatchPoint, rule: FreezeResult, records: seq<Record>, rs: seq<Record>, at: seq<nat>,
                        start: Uint64, end: Uint64)
    requires rule.window != 0 && WindowFits(wp, rule) && IsWindow(wp, rule, start, end)
    requires IsQuery(records, rule, start, end, rs, at)
    ensures AllMeasurable(Asked(wp), rs)
  {
    forall r | r in rs ensures Measurable(Asked(wp), r) {
      var i :| 0 <= i < |rs| && rs[i] == r;
      assert Asks(rule, start, end, rs[i]);
      WindowMeasurable(wp, rule, r);
    }
  }

  lemma SomeCandidate(p: WatchParams, samePackage: bool, rs: seq<Record>, best: Option<nat>)
    requires IsNearest(p, samePackage, rs, best)
    ensures best.Some? <==> exists i | 0 <= i < |rs| :: Candidate(p, samePackage, rs[i])
  {
    if i :| 0 <= i < |rs| && Candidate(p, samePackage, rs[i]) {
      assert IsFront(p, samePackage, rs[i]) || IsRear(p, samePackage, rs[i]);
    }
  }

  /** The watch point of a record: its time, process, thread and names under the rule's domain and name. */
  ghost function PointFor(rule: FreezeResult, r: Record): WatchPoint {
    WatchPoint(domain := rule.domain, stringId := rule.stringId, timestamp := r.happenTime,
               pid := if r.paramPid == 0 then r.ownPid else r.paramPid, tid := r.tid,
               packageName := if r.packageName != "" then r.packageName else r.processName,
               processName := r.processName)
  }

  lemma PointForIs(rule: FreezeResult, r: Record)
    ensures PointOf(rule, r) == PointFor(rule, r)
  {
  }

  // ---------- Judgement ----------

  /** JudgmentResult; `reportsAppFreeze` says whether the trigger is one of the reported app freezes. */
  predicate JudgmentResult(wp: WatchPoint, list: seq<WatchPoint>, rules: seq<FreezeResult>, reportsAppFreeze: bool) {
    if wp.domain == "ACE" && wp.stringId == UI_BLOCK_6S then
      && |list| != |rules|
      && |list| + 1 == |rules|
      && forall w | w in list :: w.stringId != UI_BLOCK_RECOVERED
    else if exists r | r in rules :: r.action == "or" then
      |list| >= 2
    else
      || (wp.stringId == "SERVICE_WARNING" && |list| + 1 == |rules|)
      || (reportsAppFreeze && |list| + 1 == |rules|)
      || ((wp.stringId == "THREAD_BLOCK_3S" || wp.stringId == "LIFECYCLE_HALF_TIMEOUT") && |list| + 1 == |rules|)
      || |list| == |rules|
      || (wp.stringId == "APP_INPUT_BLOCK" && |list| + 1 >= |rules|)
  }

  /** The verdict on a trigger with these rules. */
  ghost predicate Reported(store: Store, wp: WatchPoint, rules: seq<FreezeResult>, reportsAppFreeze: bool) {
    JudgmentResult(wp, AllMatches(store, wp, rules), rules, reportsAppFreeze)
  }

  ghost function Unmatched(store: Store, wp: WatchPoint, rules: seq<FreezeResult>): nat {
    if rules == [] then 0
    else
      Unmatched(store, wp, rules[..|rules| - 1]) + (if Matched(store, wp, rules[|rules| - 1]) then 0 else 1)
  }

  /** At most one entry per rule: the list is as long as there are matched rules. */
  lemma {:induction false} ListCountsMatches(store: Store, wp: WatchPoint, rules: seq<FreezeResult>)
    ensures |AllMatches(store, wp, rules)| + Unmatched(store, wp, rules) == |rules|
  {
    if rules != [] {
      ListCountsMatches(store, wp, rules[..|rules| - 1]);
    }
  }

  lemma {:induction false} NoneUnmatched(store: Store, wp: WatchPoint, rules: seq<FreezeResult>)
    ensures Unmatched(store, wp, rules) == 0 <==> forall i | 0 <= i < |rules| :: Matched(store, wp, rules[i])
  {
    if rules != [] {
      var before := rules[..|rules| - 1];
      NoneUnmatched(store, wp, before);
      assert forall i | 0 <= i < |before| :: before[i] == rules[i];
      if forall i | 0 <= i < |rules| :: Matched(store, wp, rules[i]) {
        assert forall i | 0 <= i < |before| :: Matched(store, wp, before[i]);
      }
    }
  }

  lemma {:induction false} OneUnmatched(store: Store, wp: WatchPoint, rules: seq<FreezeResult>, r: nat)
    requires r < |rules| && !Matched(store, wp, rules[r])
    ensures Unmatched(store, wp, rules) == 1 <==>
            forall i | 0 <= i < |rules| && i != r :: Matched(store, wp, rules[i])
  {
    var n := |rules| - 1;
    var before := rules[..n];
    assert forall i | 0 <= i < |before| :: before[i] == rules[i];
    if r == n {
      NoneUnmatched(store, wp, before);
      assert (forall i | 0 <= i < |before| :: Matched(store, wp, before[i])) <==>
             (forall i | 0 <= i < |rules| && i != r :: Matched(store, wp, rules[i]));
    } else {
      OneUnmatched(store, wp, before, r);
      NoneUnmatched(store, wp, before);
      assert !Matched(store, wp, before[r]);
      if forall i | 0 <= i < |rules| && i != r :: Matched(store, wp, rules[i]) {
        assert Matched(store, wp, rules[n]);
        assert forall i | 0 <= i < |before| && i != r :: Matched(store, wp, before[i]);
      }
    }
  }

  ghost predicate MentionsRecovery(list: seq<WatchPoint>) {
    exists w | w in list :: w.stringId == UI_BLOCK_RECOVERED
  }

  /** A recovery rule with a window that matched. */
  predicate Recovered(store: Store, wp: WatchPoint, rule: FreezeResult) {
    rule.stringId == UI_BLOCK_RECOVERED && rule.window != 0 && Matched(store, wp, rule)
  }

  ghost predicate AnyRecovered(store: Store, wp: WatchPoint, rules: seq<FreezeResult>) {
    exists i | 0 <= i < |rules| :: Recovered(store, wp, rules[i])
  }

  lemma MentionsAppend(a: seq<WatchPoint>, b: seq<WatchPoint>)
    ensures MentionsRecovery(a + b) <==> MentionsRecovery(a) || MentionsRecovery(b)
  {
    assert forall w :: w in a + b <==> w in a || w in b;
  }

  lemma AnyRecoveredAppend(store: Store, wp: WatchPoint, rules: seq<FreezeResult>, last: FreezeResult)
    ensures AnyRecovered(store, wp, rules + [last]) <==> AnyRecovered(store, wp, rules) || Recovered(store, wp, last)
  {
    var all := rules + [last];
    assert all[|rules|] == last;
    assert forall i | 0 <= i < |rules| :: all[i] == rules[i];
    if AnyRecovered(store, wp, rules) {
      var i :| 0 <= i < |rules| && Recovered(store, wp, rules[i]);
      assert Recovered(store, wp, all[i]);
    }
  }

  lemma OneRuleMentions(store: Store, wp: WatchPoint, rule: FreezeResult)
    requires wp.stringId == UI_BLOCK_6S
    ensures var m := RuleMatch(store, wp, rule);
            MentionsRecovery(if m.Some? then [m.value] else []) <==> Recovered(store, wp, rule)
  {
    var m := RuleMatch(store, wp, rule);
    if m.Some? {
      assert m.value in [m.value];
    }
  }

  /** The list mentions a recovery exactly when a recovery rule with a window matched. */
  lemma {:induction false} RecoveryInList(store: Store, wp: WatchPoint, rules: seq<FreezeResult>)
    requires wp.stringId == UI_BLOCK_6S
    ensures MentionsRecovery(AllMatches(store, wp, rules)) <==> AnyRecovered(store, wp, rules)
  {
    if rules != [] {
      var before, last := rules[..|rules| - 1], rules[|rules| - 1];
      RecoveryInList(store, wp, before);
      var m := RuleMatch(store, wp, last);
      MentionsAppend(AllMatches(store, wp, before), if m.Some? then [m.value] else []);
      OneRuleMentions(store, wp, last);
      AnyRecoveredAppend(store, wp, before, last);
      assert rules == before + [last];
    }
  }

  /** UI freeze judgement: with exactly one linked recovery rule, of non-zero window, the freeze is
      reported exactly when every other linked rule matched and the recovery did not. */
  lemma UiFreezeReportedIff(store: Store, wp: WatchPoint, rules: seq<FreezeResult>, r: nat, reportsAppFreeze: bool)
    requires wp.domain == "ACE" && wp.stringId == UI_BLOCK_6S && OneRecoveryAt(rules, r) && rules[r].window != 0
    ensures Reported(store, wp, rules, reportsAppFreeze) <==> OnlyMissing(store, wp, rules, r)
  {
    ListCountsMatches(store, wp, rules);
    RecoveryInList(store, wp, rules);
    if !Matched(store, wp, rules[r]) {
      OneUnmatched(store, wp, rules, r);
    }
  }

  /** Exactly one of the listed rules is about the recovery. */
  ghost predicate OneRecoveryAt(rules: seq<FreezeResult>, r: nat) {
    && r < |rules| && rules[r].stringId == UI_BLOCK_RECOVERED
    && forall i | 0 <= i < |rules| && rules[i].stringId == UI_BLOCK_RECOVERED :: i == r
  }

  /** What the judgement is meant to say: everything linked happened except the recovery. */
  ghost predicate OnlyMissing(store: Store, wp: WatchPoint, rules: seq<FreezeResult>, r: nat)
    requires r < |rules|
  {
    !Matched(store, wp, rules[r]) && forall i | 0 <= i < |rules| && i != r :: Matched(store, wp, rules[i])
  }

  /** Whatever the window of the recovery rule, the judgement says what it is meant to say exactly if
      that window is not empty or the number of unmatched rules is not one. */
  lemma UiFreezeRightIff(store: Store, wp: WatchPoint, rules: seq<FreezeResult>, r: nat, reportsAppFreeze: bool)
    requires wp.domain == "ACE" && wp.stringId == UI_BLOCK_6S && OneRecoveryAt(rules, r)
    ensures (Reported(store, wp, rules, reportsAppFreeze) <==> OnlyMissing(store, wp, rules, r))
            <==> (rules[r].window != 0 || Unmatched(store, wp, rules) != 1)
  {
    if rules[r].window != 0 {
      UiFreezeReportedIff(store, wp, rules, r, reportsAppFreeze);
    } else {
      ListCountsMatches(store, wp, rules);
      RecoveryInList(store, wp, rules);
      assert Matched(store, wp, rules[r]);
    }
  }

  /** Exactly one linked rule is about the recovery, under the given key. */
  ghost predicate OneRecovery(rules: map<string, FreezeResult>, recovery: string) {
    && recovery in rules && rules[recovery].stringId == UI_BLOCK_RECOVERED
    && forall k | k in rules && rules[k].stringId == UI_BLOCK_RECOVERED :: k == recovery
  }

  ghost predicate OnlyRecoveryMissing(store: Store, wp: WatchPoint, rules: map<string, FreezeResult>, recovery: string)
    requires recovery in rules
  {
    && !Matched(store, wp, rules[recovery])
    && forall k | k in rules && k != recovery :: Matched(store, wp, rules[k])
  }

  ghost function UnmatchedKeys(store: Store, wp: WatchPoint, rules: map<string, FreezeResult>): set<string> {
    set k | k in rules && !Matched(store, wp, rules[k])
  }

  ghost function UnmatchedAmong(store: Store, wp: WatchPoint, keys: seq<string>, rules: map<string, FreezeResult>)
    : set<string>
  {
    set k | k in keys && k in rules && !Matched(store, wp, rules[k])
  }

  lemma {:induction false} CountAmong(store: Store, wp: WatchPoint, keys: seq<string>, list: seq<FreezeResult>,
                                      rules: map<string, FreezeResult>)
    requires |keys| == |list|
    requires forall i | 0 <= i < |keys| :: keys[i] in rules && list[i] == rules[keys[i]]
    requires forall i, j | 0 <= i < j < |keys| :: keys[i] != keys[j]
    ensures Unmatched(store, wp, list) == |UnmatchedAmong(store, wp, keys, rules)|
  {
    if list != [] {
      var before, last := keys[..|keys| - 1], keys[|keys| - 1];
      CountAmong(store, wp, before, list[..|list| - 1], rules);
      assert keys == before + [last] && last !in before;
      OneMoreAmong(store, wp, before, last, rules);
    }
  }

  lemma OneMoreAmong(store: Store, wp: WatchPoint, keys: seq<string>, last: string, rules: map<string, FreezeResult>)
    requires last !in keys && last in rules
    ensures |UnmatchedAmong(store, wp, keys + [last], rules)| ==
            |UnmatchedAmong(store, wp, keys, rules)| + (if Matched(store, wp, rules[last]) then 0 else 1)
  {
    var part, all := UnmatchedAmong(store, wp, keys, rules), UnmatchedAmong(store, wp, keys + [last], rules);
    assert all == if Matched(store, wp, rules[last]) then part else part + {last};
  }

  /** The number of unmatched rules does not depend on the order of the list. */
  lemma UnmatchedByKey(store: Store, wp: WatchPoint, keys: seq<string>, list: seq<FreezeResult>,
                       rules: map<string, FreezeResult>)
    requires Enumerates(keys, list, rules, {})
    ensures Unmatched(store, wp, list) == |UnmatchedKeys(store, wp, rules)|
  {
    CountAmong(store, wp, keys, list, rules);
    assert UnmatchedAmong(store, wp, keys, rules) == UnmatchedKeys(store, wp, rules);
  }

  lemma MissingByKey(store: Store, wp: WatchPoint, keys: seq<string>, list: seq<FreezeResult>,
                     rules: map<string, FreezeResult>, recovery: string, r: nat)
    requires Enumerates(keys, list, rules, {}) && r < |keys| && keys[r] == recovery
    ensures OnlyMissing(store, wp, list, r) <==> OnlyRecoveryMissing(store, wp, rules, recovery)
  {
    assert list[r] == rules[recovery];
    if OnlyRecoveryMissing(store, wp, rules, recovery) {
      forall i | 0 <= i < |list| && i != r ensures Matched(store, wp, list[i]) {
        assert keys[i] != recovery;
      }
    } else if OnlyMissing(store, wp, list, r) {
      forall k | k in rules && k != recovery ensures Matched(store, wp, rules[k]) {
        assert k in keys;
        var i :| 0 <= i < |keys| && keys[i] == k;
        assert Matched(store, wp, list[i]);
      }
    }
  }

  /** The same for the keyed rules, in whatever order they are listed. */
  lemma UiFreezeByKey(store: Store, wp: WatchPoint, keys: seq<string>, list: seq<FreezeResult>,
                      rules: map<string, FreezeResult>, recovery: string, reportsAppFreeze: bool)
    requires wp.domain == "ACE" && wp.stringId == UI_BLOCK_6S
    requires Enumerates(keys, list, rules, {}) && OneRecovery(rules, recovery)
    ensures (Reported(store, wp, list, reportsAppFreeze) <==>
             OnlyRecoveryMissing(store, wp, rules, recovery))
            <==> (rules[recovery].window != 0 || |UnmatchedKeys(store, wp, rules)| != 1)
  {
    assert recovery in keys;
    var r :| 0 <= r < |keys| && keys[r] == recovery;
    forall i | 0 <= i < |list| && list[i].stringId == UI_BLOCK_RECOVERED ensures i == r {
      assert keys[i] == recovery;
    }
    UiFreezeRightIff(store, wp, list, r, reportsAppFreeze);
    MissingByKey(store, wp, keys, list, rules, recovery, r);
    UnmatchedByKey(store, wp, keys, list, rules);
  }

  // ---------- The verdict on every trigger ----------

  /** A recovery rule with a window has matched. */
  ghost predicate RecoverySeen(store: Store, wp: WatchPoint, rules: map<string, FreezeResult>) {
    exists k | k in rules ::
      rules[k].stringId == UI_BLOCK_RECOVERED && rules[k].window != 0 && Matched(store, wp, rules[k])
  }

  /** Triggers that are reported when all linked rules matched or all but one. */
  ghost predicate ToleratesOne(wp: WatchPoint, reportsAppFreeze: bool) {
    reportsAppFreeze ||
    wp.stringId in {"SERVICE_WARNING", "THREAD_BLOCK_3S", "LIFECYCLE_HALF_TIMEOUT", "APP_INPUT_BLOCK"}
  }

  /** Which triggers are reported, by the number of linked rules that did not match. */
  ghost predicate ShouldReport(store: Store, wp: WatchPoint, rules: map<string, FreezeResult>, reportsAppFreeze: bool) {
    var missing := |UnmatchedKeys(store, wp, rules)|;
    if wp.domain == "ACE" && wp.stringId == UI_BLOCK_6S then
      missing == 1 && !RecoverySeen(store, wp, rules)
    else if exists k | k in rules :: rules[k].action == "or" then
      |rules| - missing >= 2
    else
      missing == 0 || (missing == 1 && ToleratesOne(wp, reportsAppFreeze))
  }

  lemma {:induction false} DistinctKeys(keys: seq<string>)
    requires forall i, j | 0 <= i < j < |keys| :: keys[i] != keys[j]
    ensures |KeySet(keys)| == |keys|
  {
    if keys != [] {
      var before, last := keys[..|keys| - 1], keys[|keys| - 1];
      DistinctKeys(before);
      assert KeySet(keys) == KeySet(before) + {last};
    }
  }

  function KeySet(keys: seq<string>): set<string> {
    set k | k in keys
  }

  lemma EnumeratesSize(keys: seq<string>, list: seq<FreezeResult>, rules: map<string, FreezeResult>)
    requires Enumerates(keys, list, rules, {})
    ensures |list| == |rules|
  {
    DistinctKeys(keys);
    assert KeySet(keys) == rules.Keys;
  }

  lemma ListedByKey(keys: seq<string>, list: seq<FreezeResult>, rules: map<string, FreezeResult>, k: string)
    returns (i: nat)
    requires Enumerates(keys, list, rules, {}) && k in rules
    ensures i < |list| && list[i] == rules[k]
  {
    assert k in keys;
    i :| 0 <= i < |keys| && keys[i] == k;
  }

  lemma RecoveryByKey(store: Store, wp: WatchPoint, keys: seq<string>, list: seq<FreezeResult>,
                      rules: map<string, FreezeResult>)
    requires Enumerates(keys, list, rules, {})
    ensures AnyRecovered(store, wp, list) <==> RecoverySeen(store, wp, rules)
  {
    if k :| k in rules && Recovered(store, wp, rules[k]) {
      var i := ListedByKey(keys, list, rules, k);
      assert Recovered(store, wp, list[i]);
    }
    if i :| 0 <= i < |list| && Recovered(store, wp, list[i]) {
      assert keys[i] in rules && list[i] == rules[keys[i]];
    }
  }

  lemma OrByKey(keys: seq<string>, list: seq<FreezeResult>, rules: map<string, FreezeResult>)
    requires Enumerates(keys, list, rules, {})
    ensures (exists r | r in list :: r.action == "or") <==> exists k | k in rules :: rules[k].action == "or"
  {
    if k :| k in rules && rules[k].action == "or" {
      var i := ListedByKey(keys, list, rules, k);
      assert list[i] in list;
    }
    if r :| r in list && r.action == "or" {
      var i :| 0 <= i < |list| && list[i] == r;
      assert keys[i] in rules && rules[keys[i]].action == "or";
    }
  }

  /** The judgement by list sizes is the judgement by what the linked rules matched. */
  lemma JudgedByKey(store: Store, wp: WatchPoint, keys: seq<string>, list: seq<FreezeResult>,
                    rules: map<string, FreezeResult>, reportsAppFreeze: bool)
    requires Enumerates(keys, list, rules, {}) && rules != map[]
    ensures Reported(store, wp, list, reportsAppFreeze) <==> ShouldReport(store, wp, rules, reportsAppFreeze)
  {
    ListCountsMatches(store, wp, list);
    UnmatchedByKey(store, wp, keys, list, rules);
    EnumeratesSize(keys, list, rules);
    OrByKey(keys, list, rules);
    if wp.stringId == UI_BLOCK_6S {
      RecoveryInList(store, wp, list);
      RecoveryByKey(store, wp, keys, list, rules);
    }
  }

  /** A trigger from lookup to verdict: 0 when a freeze is reported, -1 otherwise. For the UI block with
      one recovery rule, 0 means that everything linked happened except the recovery, exactly if the
      recovery rule has a window or the number of unmatched rules is not one. */
  method ProcessEvent(cluster: FreezeRuleCluster, store: Store, wp: WatchPoint, reportsAppFreeze: bool,
                      ghost recovery: string)
    returns (status: int)
    ensures status == 0 || status == -1
    ensures var rules := RulesFor(cluster.rules, wp.domain, wp.stringId);
            status == 0 <==> rules != map[] && ShouldReport(store, wp, rules, reportsAppFreeze)
    ensures var rules := RulesFor(cluster.rules, wp.domain, wp.stringId);
            wp.domain == "ACE" && wp.stringId == UI_BLOCK_6S && OneRecovery(rules, recovery) ==>
              ((status == 0 <==> OnlyRecoveryMissing(store, wp, rules, recovery)) <==>
               (rules[recovery].window != 0 || |UnmatchedKeys(store, wp, rules)| != 1))
  {
    var found, result, keys := GetResult(cluster.rules, wp.domain, wp.stringId);
    if !found {
      return -1;
    }
    var list := ResolveEvent(store, wp, result);
    ghost var rules := RulesFor(cluster.rules, wp.domain, wp.stringId);
    JudgedByKey(store, wp, keys, result, rules, reportsAppFreeze);
    if wp.domain == "ACE" && wp.stringId == UI_BLOCK_6S && OneRecovery(rules, recovery) {
      UiFreezeByKey(store, wp, keys, result, rules, recovery, reportsAppFreeze);
    }
    if !JudgmentResult(wp, list, result, reportsAppFreeze) {
      return -1;
    }
    return 0;
  }

  /** A recovery rule with an empty window always counts as matched, and under the trigger's own name, so
      the freeze is then reported when one of the other rules failed to match: an instance of the above. */
  lemma EmptyWindowRecoveryMisjudged(store: Store, wp: WatchPoint, rules: seq<FreezeResult>, r: nat, o: nat,
                                     reportsAppFreeze: bool)
    requires wp.domain == "ACE" && wp.stringId == UI_BLOCK_6S && OneRecoveryAt(rules, r) && rules[r].window == 0
    requires o < |rules| && OnlyMissing(store, wp, rules, o)
    ensures Reported(store, wp, rules, reportsAppFreeze) && !OnlyMissing(store, wp, rules, r)
  {
    OneUnmatched(store, wp, rules, o);
    UiFreezeRightIff(store, wp, rules, r, reportsAppFreeze);
    assert Matched(store, wp, rules[r]);
  }

  /** An input of that kind: the three-second block that should accompany the trigger is missing. */
  lemma MisjudgedInput(reportsAppFreeze: bool) returns (store: Store, wp: WatchPoint, rules: seq<FreezeResult>)
    ensures wp.domain == "ACE" && wp.stringId == UI_BLOCK_6S && OneRecoveryAt(rules, 0) && |rules| == 2
    ensures Reported(store, wp, rules, reportsAppFreeze) && !OnlyMissing(store, wp, rules, 0)
  {
    store := Store([], true);
    wp := WatchPoint("ACE", UI_BLOCK_6S, 10_000, 1, 1, "app", "app");
    rules := [FreezeResult(0, 0, "ACE", UI_BLOCK_RECOVERED, true, "and"),
              FreezeResult(-8, 0, "ACE", "UI_BLOCK_3S", true, "and")];
    assert Query(store.records, rules[1], 2_000, 10_000) == [];
    assert !Matched(store, wp, rules[1]);
    EmptyWindowRecoveryMisjudged(store, wp, rules, 0, 1, reportsAppFreeze);
  }
}
