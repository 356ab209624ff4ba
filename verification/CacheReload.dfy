/** Reloads of the definitions against concurrent lookups. A lookup holds the cache lock from its first
    look at the cache to its last write; a reload changes the privacy settings and the definitions
    without that lock and takes it only to clear the cache. */
module CacheReload {
  import opened Wrappers
  import opened Definitions
  import opened DefinitionCaches

  /** An answer together with the versions of the definitions and of the privacy settings that it was
      computed from; the settings are consulted once for the event and once for each of its parameters. */
  datatype Entry = Entry(answer: Option<BaseInfo>, defs: nat, allow: nat, params: map<string, nat>)

  /** The lookup that holds the cache lock, and what it has read so far. */
  datatype Lookup =
    | Missed
    | Parsed(defs: nat)
    | Filtered(defs: nat, allow: nat, params: map<string, nat>)

  datatype Reload = Loading | Clearing

  /** `sources` and `settings` list all versions so far, the last being current; the floors are the
      versions that were current when the cache was last cleared by a reload. */
  datatype State = State(
    sources: seq<Source>,
    settings: seq<Privacy>,
    cache: map<(string, string), Entry>,
    cap: nat,
    lookup: Option<((string, string), Lookup)>,
    reloads: map<nat, Reload>,
    floorDefs: nat,
    floorPrivacy: nat)

  function Initial(p: Privacy): State {
    State([NoSource], [p], map[], 0, None, map[], 0, 0)
  }

  datatype Step =
    | UpdatePrivacy(id: nat, privacy: Privacy)
    | LoadDefs(id: nat, source: Option<Source>)
    | ClearCache(id: nat)
    | Hit(key: (string, string), entry: Entry)
    | Miss(key: (string, string))
    | ParseFails(key: (string, string), entry: Entry)
    | ParseWorks(key: (string, string))
    | Filter(key: (string, string))
    | ReadParam(key: (string, string), param: string)
    | Answer(key: (string, string), entry: Entry)

  predicate Answers(step: Step) {
    step.Hit? || step.ParseFails? || step.Answer?
  }

  /** The definition of an event, if its domain parses and names it. */
  function DefinitionOf(lib: Library, src: Source, key: (string, string)): Option<string> {
    match ParseDomain(lib, src, key.0)
    case None => None
    case Some(events) => if key.1 != "" && key.1 in events then Some(events[key.1]) else None
  }

  /** The parameters for which the settings are consulted: those of an event that is admitted itself. */
  function ParamsRead(lib: Library, src: Source, p: Privacy, key: (string, string)): set<string> {
    match DefinitionOf(lib, src, key)
    case None => {}
    case Some(def) => if lib.allowed(p, key.0, lib.baseOf(def)) then lib.paramsOf(def) else {}
  }

  /** The answer when the settings may differ from one consultation to the next. */
  function MixedAnswer(lib: Library, src: Source, p: Privacy, ps: map<string, Privacy>, key: (string, string))
    : Option<BaseInfo>
  {
    match DefinitionOf(lib, src, key)
    case None => None
    case Some(def) =>
      if lib.allowed(p, key.0, lib.baseOf(def))
      then Some(lib.baseOf(def).(
                  disallowParams := set x | x in lib.paramsOf(def) && x in ps && !lib.permits(ps[x], def, x)))
      else None
  }

  /** With the same settings throughout, it is the answer of a fresh parse. */
  lemma UniformIsFresh(lib: Library, src: Source, p: Privacy, ps: map<string, Privacy>, key: (string, string))
    requires ps.Keys == ParamsRead(lib, src, p, key) && forall x | x in ps :: ps[x] == p
    ensures MixedAnswer(lib, src, p, ps, key) == FreshAnswer(lib, src, p, key.0, key.1)
  {
    var def := DefinitionOf(lib, src, key);
    if def.Some? && lib.allowed(p, key.0, lib.baseOf(def.value)) {
      assert (set x | x in lib.paramsOf(def.value) && x in ps && !lib.permits(ps[x], def.value, x))
             == lib.Disallowed(p, def.value);
    }
  }

  function SettingsOf(s: State, params: map<string, nat>): map<string, Privacy> {
    map x | x in params && params[x] < |s.settings| :: s.settings[params[x]]
  }

  function Computed(lib: Library, s: State, key: (string, string), defs: nat, allow: nat, params: map<string, nat>)
    : Option<BaseInfo>
    requires defs < |s.sources| && allow < |s.settings|
  {
    MixedAnswer(lib, s.sources[defs], s.settings[allow], SettingsOf(s, params), key)
  }

  ghost predicate Sound(s: State) {
    && s.sources != [] && s.settings != []
    && (s.lookup.Some? ==>
          match s.lookup.value.1
          case Missed => true
          case Parsed(d) => d < |s.sources|
          case Filtered(d, a, _) => d < |s.sources| && a < |s.settings|)
  }

  ghost predicate Next(lib: Library, s: State, step: Step, s': State)
    requires Sound(s)
  {
    match step
    case UpdatePrivacy(id, p) =>
      && id !in s.reloads
      && s' == s.(settings := s.settings + [p], reloads := s.reloads[id := Loading])
    case LoadDefs(id, source) =>
      && id in s.reloads && s.reloads[id].Loading?
      && s' == s.(sources := s.sources + (if source.Some? then [source.value] else []),
                  reloads := s.reloads[id := Clearing])
    case ClearCache(id) =>
      && id in s.reloads && s.reloads[id].Clearing? && s.lookup.None?
      && s' == s.(cache := map[], reloads := s.reloads - {id},
                  floorDefs := |s.sources| - 1, floorPrivacy := |s.settings| - 1)
    case Hit(key, entry) =>
      s.lookup.None? && key in s.cache && entry == s.cache[key] && s' == s
    case Miss(key) =>
      s.lookup.None? && key !in s.cache && s' == s.(lookup := Some((key, Missed)))
    case ParseFails(key, entry) =>
      var d := |s.sources| - 1;
      && s.lookup == Some((key, Missed))
      && ParseDomain(lib, s.sources[d], key.0).None?
      && entry == Entry(None, d, |s.settings| - 1, map[])
      && s' == s.(lookup := None)
    case ParseWorks(key) =>
      var d := |s.sources| - 1;
      && s.lookup == Some((key, Missed))
      && ParseDomain(lib, s.sources[d], key.0).Some?
      && s' == s.(lookup := Some((key, Parsed(d))))
    case Filter(key) =>
      && s.lookup.Some? && s.lookup.value.0 == key && s.lookup.value.1.Parsed?
      && s' == s.(lookup := Some((key, Filtered(s.lookup.value.1.defs, |s.settings| - 1, map[]))))
    case ReadParam(key, x) =>
      && s.lookup.Some? && s.lookup.value.0 == key && s.lookup.value.1.Filtered?
      && var q := s.lookup.value.1;
         && x in ParamsRead(lib, s.sources[q.defs], s.settings[q.allow], key) && x !in q.params
         && s' == s.(lookup := Some((key, q.(params := q.params[x := |s.settings| - 1]))))
    case Answer(key, entry) =>
      && s.lookup.Some? && s.lookup.value.0 == key && s.lookup.value.1.Filtered?
      && var q := s.lookup.value.1;
         && q.params.Keys == ParamsRead(lib, s.sources[q.defs], s.settings[q.allow], key)
         && entry == Entry(Computed(lib, s, key, q.defs, q.allow, q.params), q.defs, q.allow, q.params)
         && s' == if s.cap + 1 >= SYS_EVENT_DEF_MAP_MAX_SIZE
                  then s.(lookup := None, cache := map[], cap := 0)
                  else s.(lookup := None, cache := s.cache[key := entry], cap := s.cap + 1)
  }

  /** All the versions are known and none is older than the floor. */
  ghost predicate NoOlder(params: map<string, nat>, floor: nat, s: State) {
    forall x | x in params :: floor <= params[x] < |s.settings|
  }

  /** The entry was computed from versions no older than the floors. */
  ghost predicate Current(lib: Library, s: State, key: (string, string), e: Entry) {
    && s.floorDefs <= e.defs < |s.sources|
    && s.floorPrivacy <= e.allow < |s.settings| && NoOlder(e.params, s.floorPrivacy, s)
    && e.params.Keys == ParamsRead(lib, s.sources[e.defs], s.settings[e.allow], key)
    && e.answer == Computed(lib, s, key, e.defs, e.allow, e.params)
  }

  ghost predicate LookupCurrent(s: State) {
    s.lookup.Some? ==>
      match s.lookup.value.1
      case Missed => s.lookup.value.0 !in s.cache
      case Parsed(d) => s.floorDefs <= d < |s.sources| && s.lookup.value.0 !in s.cache
      case Filtered(d, a, params) =>
        && s.floorDefs <= d < |s.sources| && s.floorPrivacy <= a < |s.settings| && s.lookup.value.0 !in s.cache
        && NoOlder(params, s.floorPrivacy, s)
  }

  ghost predicate Inv(lib: Library, s: State) {
    && Sound(s)
    && s.floorDefs < |s.sources| && s.floorPrivacy < |s.settings|
    && CacheCurrent(lib, s)
    && LookupCurrent(s)
    && |s.cache| <= s.cap < SYS_EVENT_DEF_MAP_MAX_SIZE
    && (s.reloads == map[] ==> s.floorDefs == |s.sources| - 1 && s.floorPrivacy == |s.settings| - 1)
  }

  /** Adding versions does not disturb what older versions computed. */
  lemma CurrentKept(lib: Library, s: State, s': State, key: (string, string), e: Entry)
    requires Current(lib, s, key, e)
    requires s.sources <= s'.sources && s.settings <= s'.settings
    requires s'.floorDefs == s.floorDefs && s'.floorPrivacy == s.floorPrivacy
    ensures Current(lib, s', key, e)
  {
    assert s'.sources[e.defs] == s.sources[e.defs];
    assert s'.settings[e.allow] == s.settings[e.allow];
    assert SettingsOf(s', e.params) == SettingsOf(s, e.params);
  }

  lemma ReloadKeepsInv(lib: Library, s: State, step: Step, s': State)
    requires Inv(lib, s) && Next(lib, s, step, s') && (step.UpdatePrivacy? || step.LoadDefs?)
    ensures Inv(lib, s')
  {
    assert step.id in s'.reloads;
    assert s.sources <= s'.sources && s.settings <= s'.settings;
    forall key | key in s'.cache ensures Current(lib, s', key, s'.cache[key]) {
      CurrentKept(lib, s, s', key, s.cache[key]);
    }
  }

  lemma FailureIsCurrent(lib: Library, s: State, step: Step, s': State)
    requires Sound(s) && s.floorDefs < |s.sources| && s.floorPrivacy < |s.settings|
    requires step.ParseFails? && Next(lib, s, step, s')
    ensures Current(lib, s, step.key, step.entry)
  {
  }

  lemma ComputedIsCurrent(lib: Library, s: State, step: Step, s': State)
    requires Sound(s) && s.floorPrivacy < |s.settings| && LookupCurrent(s)
    requires step.Answer? && Next(lib, s, step, s')
    ensures Current(lib, s, step.key, step.entry)
  {
  }

  lemma AnswerIsCurrent(lib: Library, s: State, step: Step, s': State)
    requires Inv(lib, s) && Next(lib, s, step, s') && Answers(step)
    ensures Current(lib, s, step.key, step.entry)
  {
    if step.ParseFails? {
      FailureIsCurrent(lib, s, step, s');
    } else if step.Answer? {
      ComputedIsCurrent(lib, s, step, s');
    }
  }

  ghost predicate CacheCurrent(lib: Library, s: State) {
    forall key | key in s.cache :: Current(lib, s, key, s.cache[key])
  }

  lemma InsertKeepsCurrent(lib: Library, s: State, s': State, key: (string, string), e: Entry)
    requires CacheCurrent(lib, s) && Current(lib, s, key, e)
    requires s'.sources == s.sources && s'.settings == s.settings
    requires s'.floorDefs == s.floorDefs && s'.floorPrivacy == s.floorPrivacy
    requires s'.cache == s.cache || s'.cache == s.cache[key := e] || s'.cache == map[]
    ensures CacheCurrent(lib, s')
  {
    forall k | k in s'.cache ensures Current(lib, s', k, s'.cache[k]) {
      CurrentKept(lib, s, s', k, s'.cache[k]);
    }
  }

  lemma AnswerKeepsInv(lib: Library, s: State, step: Step, s': State)
    requires Inv(lib, s) && Next(lib, s, step, s') && Answers(step)
    ensures Inv(lib, s')
  {
    AnswerIsCurrent(lib, s, step, s');
    InsertKeepsCurrent(lib, s, s', step.key, step.entry);
  }

  lemma ReadKeepsInv(lib: Library, s: State, step: Step, s': State)
    requires Inv(lib, s) && Next(lib, s, step, s')
    requires step.Miss? || step.ParseWorks? || step.Filter? || step.ReadParam?
    ensures Inv(lib, s')
  {
    forall k | k in s'.cache ensures Current(lib, s', k, s'.cache[k]) {
      CurrentKept(lib, s, s', k, s'.cache[k]);
    }
  }

  lemma StepKeepsInv(lib: Library, s: State, step: Step, s': State)
    requires Inv(lib, s) && Next(lib, s, step, s')
    ensures Inv(lib, s')
  {
    if step.UpdatePrivacy? || step.LoadDefs? {
      ReloadKeepsInv(lib, s, step, s');
    } else if Answers(step) {
      AnswerKeepsInv(lib, s, step, s');
    } else if !step.ClearCache? {
      ReadKeepsInv(lib, s, step, s');
    }
  }

  // ---------- Runs ----------

  datatype Run = Run(steps: seq<Step>, states: seq<State>)

  ghost predicate StepAt(lib: Library, r: Run, i: nat)
    requires i < |r.steps| && |r.states| == |r.steps| + 1
  {
    Sound(r.states[i]) && Next(lib, r.states[i], r.steps[i], r.states[i + 1])
  }

  /** A piece of a run, from an arbitrary state. */
  ghost predicate Fragment(lib: Library, r: Run) {
    && |r.states| == |r.steps| + 1
    && forall i | 0 <= i < |r.steps| :: StepAt(lib, r, i)
  }

  ghost predicate ValidRun(lib: Library, r: Run) {
    Fragment(lib, r) && exists p :: r.states[0] == Initial(p)
  }

  lemma StepAtKeepsInv(lib: Library, r: Run, k: nat)
    requires ValidRun(lib, r) && k < |r.steps| && Inv(lib, r.states[k])
    ensures Inv(lib, r.states[k + 1])
  {
    assert StepAt(lib, r, k);
    StepKeepsInv(lib, r.states[k], r.steps[k], r.states[k + 1]);
  }

  lemma {:induction false} RunKeepsInv(lib: Library, r: Run, k: nat)
    requires ValidRun(lib, r) && k <= |r.steps|
    ensures Inv(lib, r.states[k])
  {
    if k > 0 {
      RunKeepsInv(lib, r, k - 1);
      StepAtKeepsInv(lib, r, k - 1);
    }
  }

  /** Under every interleaving the entries never outnumber the counter, which stays below the limit
      between steps. */
  lemma CacheBound(lib: Library, r: Run, k: nat)
    requires ValidRun(lib, r) && k <= |r.steps|
    ensures |r.states[k].cache| <= r.states[k].cap < SYS_EVENT_DEF_MAP_MAX_SIZE
  {
    RunKeepsInv(lib, r, k);
  }

  ghost predicate NewerThan(r: Run, i: nat, k: nat)
    requires i < |r.states| && k < |r.states|
  {
    && r.states[i].sources <= r.states[k].sources && r.states[i].settings <= r.states[k].settings
    && r.states[i].floorDefs <= r.states[k].floorDefs && r.states[i].floorPrivacy <= r.states[k].floorPrivacy
  }

  lemma StepIsNewer(lib: Library, r: Run, k: nat)
    requires ValidRun(lib, r) && k < |r.steps|
    ensures NewerThan(r, k, k + 1)
  {
    RunKeepsInv(lib, r, k);
    assert StepAt(lib, r, k);
  }

  lemma {:induction false} RunIsNewer(lib: Library, r: Run, i: nat, k: nat)
    requires ValidRun(lib, r) && i <= k <= |r.steps|
    ensures NewerThan(r, i, k)
    decreases k
  {
    if i < k {
      RunIsNewer(lib, r, i, k - 1);
      StepIsNewer(lib, r, k - 1);
    }
  }

  lemma AnsweredCurrent(lib: Library, r: Run, k: nat)
    requires ValidRun(lib, r) && k < |r.steps| && Answers(r.steps[k])
    ensures Current(lib, r.states[k], r.steps[k].key, r.steps[k].entry)
    ensures r.states[k].reloads == map[] ==>
              && r.states[k].floorDefs == |r.states[k].sources| - 1
              && r.states[k].floorPrivacy == |r.states[k].settings| - 1
  {
    RunKeepsInv(lib, r, k);
    assert StepAt(lib, r, k);
    AnswerIsCurrent(lib, r.states[k], r.steps[k], r.states[k + 1]);
  }

  lemma LoadedVersion(lib: Library, r: Run, l: nat, k: nat)
    requires ValidRun(lib, r) && l < k <= |r.steps|
    requires r.steps[l].LoadDefs? && r.steps[l].source.Some?
    ensures var v := |r.states[l].sources|;
            v < |r.states[k].sources| && r.states[k].sources[v] == r.steps[l].source.value
  {
    assert StepAt(lib, r, l);
    RunIsNewer(lib, r, l + 1, k);
  }

  lemma SettingVersion(lib: Library, r: Run, u: nat, k: nat)
    requires ValidRun(lib, r) && u < k <= |r.steps| && r.steps[u].UpdatePrivacy?
    ensures var v := |r.states[u].settings|;
            v < |r.states[k].settings| && r.states[k].settings[v] == r.steps[u].privacy
  {
    assert StepAt(lib, r, u);
    RunIsNewer(lib, r, u + 1, k);
  }

  lemma FloorAfterClear(lib: Library, r: Run, c: nat, k: nat)
    requires ValidRun(lib, r) && c < k <= |r.steps| && r.steps[c].ClearCache?
    ensures r.states[k].floorDefs >= |r.states[c].sources| - 1
    ensures r.states[k].floorPrivacy >= |r.states[c].settings| - 1
  {
    assert StepAt(lib, r, c);
    RunIsNewer(lib, r, c + 1, k);
  }

  /** Reload safety: a reload whose load succeeded changes the settings at step u, the definitions at
      step l and clears the cache at step c; every lookup answered after that, in whatever interleaving,
      is answered from those definitions and settings or from newer ones, never from older ones. */
  lemma ReloadSafety(lib: Library, r: Run, id: nat, u: nat, l: nat, c: nat, k: nat)
    requires ValidRun(lib, r) && u < l < c < k < |r.steps|
    requires r.steps[u].UpdatePrivacy? && r.steps[u].id == id
    requires r.steps[l].LoadDefs? && r.steps[l].id == id && r.steps[l].source.Some?
    requires r.steps[c] == ClearCache(id)
    requires Answers(r.steps[k])
    ensures var s, e := r.states[k], r.steps[k].entry;
            var v, w := |r.states[l].sources|, |r.states[u].settings|;
            && v <= e.defs < |s.sources| && w <= e.allow < |s.settings| && NoOlder(e.params, w, s)
            && e.answer == Computed(lib, s, r.steps[k].key, e.defs, e.allow, e.params)
            && s.sources[v] == r.steps[l].source.value && s.settings[w] == r.steps[u].privacy
  {
    LoadedVersion(lib, r, l, c);
    LoadedVersion(lib, r, l, k);
    SettingVersion(lib, r, u, c);
    SettingVersion(lib, r, u, k);
    FloorAfterClear(lib, r, c, k);
    AnsweredCurrent(lib, r, k);
  }

  function Last<T>(s: seq<T>): T
    requires s != []
  {
    s[|s| - 1]
  }

  /** Transparency: a lookup answered while no reload is under way gives what a fresh parse of the
      current definitions under the current settings gives, even if it came from the cache. */
  lemma QuietAnswersAreFresh(lib: Library, r: Run, k: nat)
    requires ValidRun(lib, r) && k < |r.steps|
    requires Answers(r.steps[k]) && r.states[k].reloads == map[]
    ensures var s, key := r.states[k], r.steps[k].key;
            && s.sources != [] && s.settings != []
            && r.steps[k].entry.answer ==
               FreshAnswer(lib, Last(s.sources), Last(s.settings), key.0, key.1)
  {
    AnsweredCurrent(lib, r, k);
    LatestIsFresh(lib, r.states[k], r.steps[k].key, r.steps[k].entry);
  }

  /** An answer computed from the latest versions only is that of a fresh parse. */
  lemma LatestIsFresh(lib: Library, s: State, key: (string, string), e: Entry)
    requires Current(lib, s, key, e) && s.floorDefs == |s.sources| - 1 && s.floorPrivacy == |s.settings| - 1
    ensures e.answer == FreshAnswer(lib, Last(s.sources), Last(s.settings), key.0, key.1)
  {
    UniformIsFresh(lib, Last(s.sources), Last(s.settings), SettingsOf(s, e.params), key);
  }

  // ---------- A reload that nothing interferes with ----------

  ghost predicate AddsDefs(step: Step) {
    step.LoadDefs? && step.source.Some?
  }

  lemma {:induction false} SourcesKept(lib: Library, r: Run, i: nat, k: nat)
    requires ValidRun(lib, r) && i <= k <= |r.steps| && forall m | i <= m < k :: !AddsDefs(r.steps[m])
    ensures r.states[k].sources == r.states[i].sources
    decreases k
  {
    if i < k {
      SourcesKept(lib, r, i, k - 1);
      assert StepAt(lib, r, k - 1);
      assert !AddsDefs(r.steps[k - 1]);
    }
  }

  lemma {:induction false} SettingsKept(lib: Library, r: Run, i: nat, k: nat)
    requires ValidRun(lib, r) && i <= k <= |r.steps| && forall m | i <= m < k :: !r.steps[m].UpdatePrivacy?
    ensures r.states[k].settings == r.states[i].settings
    decreases k
  {
    if i < k {
      SettingsKept(lib, r, i, k - 1);
      assert StepAt(lib, r, k - 1);
      assert !r.steps[k - 1].UpdatePrivacy?;
    }
  }

  /** If no other update comes in between, every lookup after a successful reload is answered from exactly
      its definitions and its settings, as a fresh parse would answer it. */
  lemma ReloadTakesEffect(lib: Library, r: Run, id: nat, u: nat, l: nat, c: nat, k: nat)
    requires ValidRun(lib, r) && u < l < c < k < |r.steps|
    requires r.steps[u].UpdatePrivacy? && r.steps[u].id == id
    requires r.steps[l].LoadDefs? && r.steps[l].id == id && r.steps[l].source.Some?
    requires r.steps[c] == ClearCache(id)
    requires forall m | u < m < k :: !r.steps[m].UpdatePrivacy?
    requires forall m | l < m < k :: !AddsDefs(r.steps[m])
    requires Answers(r.steps[k])
    ensures var e, key := r.steps[k].entry, r.steps[k].key;
            && e.defs == |r.states[l].sources| && e.allow == |r.states[u].settings|
            && (forall x | x in e.params :: e.params[x] == |r.states[u].settings|)
            && e.answer == FreshAnswer(lib, r.steps[l].source.value, r.steps[u].privacy, key.0, key.1)
  {
    ReloadSafety(lib, r, id, u, l, c, k);
    assert StepAt(lib, r, l) && StepAt(lib, r, u);
    SourcesKept(lib, r, l + 1, k);
    SettingsKept(lib, r, u + 1, k);
    AnsweredCurrent(lib, r, k);
    var s, e := r.states[k], r.steps[k].entry;
    UniformIsFresh(lib, s.sources[e.defs], s.settings[e.allow], SettingsOf(s, e.params), r.steps[k].key);
  }

  // ---------- The parser's methods as steps ----------

  /** The steps' cache has an entry with the same answer for every pair in the parser's nested maps. */
  ghost predicate Represents(flat: map<(string, string), Entry>, cache: Cache) {
    forall d, n :: GetEventInCache(cache, d, n) == if (d, n) in flat then Some(flat[(d, n)].answer) else None
  }

  lemma AddRepresents(flat: map<(string, string), Entry>, cache: Cache, key: (string, string), e: Entry)
    requires Represents(flat, cache)
    ensures Represents(flat[key := e], AddToCache(cache, key.0, key.1, e.answer))
  {
    var cache' := AddToCache(cache, key.0, key.1, e.answer);
    forall d, n
      ensures GetEventInCache(cache', d, n) ==
              if (d, n) in flat[key := e] then Some(flat[key := e][(d, n)].answer) else None
    {
      assert GetEventInCache(cache', d, n) == if (d, n) == key then Some(e.answer) else GetEventInCache(cache, d, n);
    }
  }

  /** Between lookups the state is that of a parser with these definitions, settings, cache and counter. */
  ghost predicate Matches(s: State, src: Source, p: Privacy, cache: Cache, cap: nat) {
    && s.sources != [] && Last(s.sources) == src && s.settings != [] && Last(s.settings) == p
    && s.lookup.None? && Represents(s.cache, cache) && s.cap == cap
  }

  lemma Prepend(lib: Library, s: State, step: Step, tail: Run) returns (r: Run)
    requires Fragment(lib, tail) && Sound(s) && Next(lib, s, step, tail.states[0])
    ensures r == Run([step] + tail.steps, [s] + tail.states) && Fragment(lib, r)
  {
    r := Run([step] + tail.steps, [s] + tail.states);
    forall i | 0 <= i < |r.steps| ensures StepAt(lib, r, i) {
      if i > 0 {
        assert StepAt(lib, tail, i - 1);
      }
    }
  }

  function Answered(s: State, key: (string, string), e: Entry): State {
    if s.cap + 1 >= SYS_EVENT_DEF_MAP_MAX_SIZE then s.(lookup := None, cache := map[], cap := 0)
    else s.(lookup := None, cache := s.cache[key := e], cap := s.cap + 1)
  }

  /** The run ends with an answer for the key. */
  ghost predicate EndsWith(r: Run, key: (string, string), answer: Option<BaseInfo>) {
    && r.steps != []
    && var last := r.steps[|r.steps| - 1];
       Answers(last) && last.key == key && last.entry.answer == answer
  }

  /** The rest of a lookup that has admitted its event from the latest versions, undisturbed. */
  ghost predicate AtLatest(lib: Library, s: State, key: (string, string), params: map<string, nat>) {
    && s.sources != [] && s.settings != []
    && s.lookup == Some((key, Filtered(|s.sources| - 1, |s.settings| - 1, params)))
    && params.Keys <= ParamsRead(lib, Last(s.sources), Last(s.settings), key)
    && forall x | x in params :: params[x] == |s.settings| - 1
  }

  lemma FinishLookup(lib: Library, s: State, key: (string, string), params: map<string, nat>) returns (e: Entry, r: Run)
    requires AtLatest(lib, s, key, params)
    requires params.Keys == ParamsRead(lib, Last(s.sources), Last(s.settings), key)
    ensures e.answer == FreshAnswer(lib, Last(s.sources), Last(s.settings), key.0, key.1)
    ensures r == Run([Answer(key, e)], [s, Answered(s, key, e)]) && Fragment(lib, r)
  {
    var d, a := |s.sources| - 1, |s.settings| - 1;
    e := Entry(Computed(lib, s, key, d, a, params), d, a, params);
    UniformIsFresh(lib, Last(s.sources), Last(s.settings), SettingsOf(s, params), key);
    r := Run([Answer(key, e)], [s, Answered(s, key, e)]);
    assert StepAt(lib, r, 0);
  }

  lemma ReadOne(lib: Library, s: State, key: (string, string), params: map<string, nat>, x: string) returns (s': State)
    requires AtLatest(lib, s, key, params) && x !in params
    requires x in ParamsRead(lib, Last(s.sources), Last(s.settings), key)
    ensures s' == s.(lookup := s'.lookup) && AtLatest(lib, s', key, params[x := |s.settings| - 1])
    ensures Sound(s) && Next(lib, s, ReadParam(key, x), s')
  {
    s' := s.(lookup := Some((key, Filtered(|s.sources| - 1, |s.settings| - 1, params[x := |s.settings| - 1]))));
  }

  lemma {:induction false} ReadRest(lib: Library, s: State, key: (string, string), params: map<string, nat>,
                                    rest: set<string>)
    returns (e: Entry, r: Run)
    requires AtLatest(lib, s, key, params)
    requires rest == ParamsRead(lib, Last(s.sources), Last(s.settings), key) - params.Keys
    ensures e.answer == FreshAnswer(lib, Last(s.sources), Last(s.settings), key.0, key.1)
    ensures Fragment(lib, r) && r.states[0] == s && r.states[|r.steps|] == Answered(s, key, e)
    ensures EndsWith(r, key, e.answer)
    decreases rest
  {
    if rest == {} {
      NothingLeft(ParamsRead(lib, Last(s.sources), Last(s.settings), key), params.Keys);
      e, r := FinishLookup(lib, s, key, params);
    } else {
      var x :| x in rest;
      var s' := ReadOne(lib, s, key, params, x);
      var tail;
      e, tail := ReadRest(lib, s', key, params[x := |s.settings| - 1], rest - {x});
      r := Prepend(lib, s, ReadParam(key, x), tail);
    }
  }

  lemma NothingLeft(all: set<string>, done: set<string>)
    requires done <= all && all - done == {}
    ensures done == all
  {
    forall x | x in all ensures x in done {
      assert x !in all - done;
    }
  }

  /** The part of a lookup after a miss on a domain that parses. */
  lemma ParseAndAnswer(lib: Library, s: State, key: (string, string)) returns (e: Entry, r: Run)
    requires s.sources != [] && s.settings != [] && s.lookup == Some((key, Missed))
    requires ParseDomain(lib, Last(s.sources), key.0).Some?
    ensures e.answer == FreshAnswer(lib, Last(s.sources), Last(s.settings), key.0, key.1)
    ensures Fragment(lib, r) && r.states[0] == s && r.states[|r.steps|] == Answered(s, key, e)
    ensures EndsWith(r, key, e.answer)
  {
    var d, a := |s.sources| - 1, |s.settings| - 1;
    var s1 := s.(lookup := Some((key, Parsed(d))));
    var s2 := s.(lookup := Some((key, Filtered(d, a, map[]))));
    var r2, r1;
    e, r2 := ReadRest(lib, s2, key, map[], ParamsRead(lib, Last(s.sources), Last(s.settings), key));
    r1 := Prepend(lib, s1, Filter(key), r2);
    r := Prepend(lib, s, ParseWorks(key), r1);
  }

  lemma FailedLookupIsRun(lib: Library, s: State, key: (string, string)) returns (r: Run)
    requires s.sources != [] && s.settings != [] && s.lookup.None? && key !in s.cache
    requires ParseDomain(lib, Last(s.sources), key.0).None?
    ensures Fragment(lib, r) && r.states[0] == s && r.states[|r.steps|] == s && EndsWith(r, key, None)
  {
    var s1 := s.(lookup := Some((key, Missed)));
    var step := ParseFails(key, Entry(None, |s.sources| - 1, |s.settings| - 1, map[]));
    var r1 := Prepend(lib, s1, step, Run([], [s]));
    r := Prepend(lib, s, Miss(key), r1);
  }

  /** A lookup of the parser that nothing interferes with is a piece of a run of these steps: it starts and
      ends in a state of the parser, with the answer the parser gives. */
  lemma LookupIsRun(lib: Library, s: State, src: Source, p: Privacy, cache: Cache, cap: nat, key: (string, string),
                    answer: Option<BaseInfo>, cache': Cache, cap': nat) returns (r: Run)
    requires Matches(s, src, p, cache, cap) && Transparent(lib, src, p, cache)
    requires answer == FreshAnswer(lib, src, p, key.0, key.1)
    requires LookedUp(lib, src, key.0, key.1, cache, cap, answer, cache', cap')
    ensures Fragment(lib, r) && r.states[0] == s && Matches(r.states[|r.steps|], src, p, cache', cap')
    ensures EndsWith(r, key, answer)
  {
    assert GetEventInCache(cache, key.0, key.1).Some? <==> (key.0, key.1) in s.cache;
    assert (key.0, key.1) == key;
    if key in s.cache {
      r := Prepend(lib, s, Hit(key, s.cache[key]), Run([], [s]));
    } else if ParseDomain(lib, src, key.0).None? {
      r := FailedLookupIsRun(lib, s, key);
    } else {
      var s1 := s.(lookup := Some((key, Missed)));
      var e, r1 := ParseAndAnswer(lib, s1, key);
      r := Prepend(lib, s, Miss(key), r1);
      AddRepresents(s.cache, cache, key, e);
    }
  }

  /** A configuration update that nothing interferes with is the three steps of a reload. */
  lemma ReloadIsRun(lib: Library, s: State, id: nat, src: Source, p: Privacy, cache: Cache, cap: nat,
                    loaded: Option<Source>, p': Privacy) returns (r: Run)
    requires Matches(s, src, p, cache, cap) && id !in s.reloads
    ensures Fragment(lib, r) && r.states[0] == s
    ensures r.steps == [UpdatePrivacy(id, p'), LoadDefs(id, loaded), ClearCache(id)]
    ensures Matches(r.states[3], if loaded.Some? then loaded.value else src, p', map[], cap)
    ensures r.states[3].reloads == s.reloads
  {
    var s1 := s.(settings := s.settings + [p'], reloads := s.reloads[id := Loading]);
    var s2 := s1.(sources := s.sources + (if loaded.Some? then [loaded.value] else []),
                  reloads := s1.reloads[id := Clearing]);
    var s3 := s2.(cache := map[], reloads := s2.reloads - {id},
                  floorDefs := |s2.sources| - 1, floorPrivacy := |s2.settings| - 1);
    assert s2.reloads - {id} == s.reloads;
    var r2 := Prepend(lib, s2, ClearCache(id), Run([], [s3]));
    var r1 := Prepend(lib, s1, LoadDefs(id, loaded), r2);
    r := Prepend(lib, s, UpdatePrivacy(id, p'), r1);
  }
}
