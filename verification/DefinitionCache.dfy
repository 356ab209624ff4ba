/** The lazy cache of event definitions: a definition file is indexed by domain when it is loaded, a
    domain is parsed when one of its events is first asked for, and single answers, including negative
    ones, are kept until the cache is full or the definitions are reloaded. */
module Definitions {
  import opened Wrappers

  type Privacy = nat

  /** The part of an event's definition that consumers ask for. */
  datatype BaseInfo = BaseInfo(eventType: nat, level: nat, privacy: nat, disallowParams: set<string>)

  /** One domain of a definition file: where its text lies and the events it defines. */
  datatype Located = Located(start: int, limit: int, events: map<string, string>)

  /** The parts outside the model: the JSON reader, over a whole file and over the text of one domain,
      the interpretation of an event's definition, its parameters and the privacy settings. */
  datatype Library = Library(
    readAll: string -> Option<map<string, Located>>,
    readSlice: string -> Option<map<string, string>>,
    baseOf: string -> BaseInfo,
    allowed: (Privacy, string, BaseInfo) -> bool,
    paramsOf: string -> set<string>,
    permits: (Privacy, string, string) -> bool)
  {
    /** The parameters of an event that the privacy settings do not permit. */
    function Disallowed(p: Privacy, definition: string): set<string> {
      set x | x in paramsOf(definition) && !permits(p, definition, x)
    }

    /** The reader's contract: the recorded slice of a domain parses to what the whole file says. */
    ghost predicate Faithful(content: string) {
      readAll(content).Some? ==>
        forall d | d in readAll(content).value ::
          var loc := readAll(content).value[d];
          0 <= loc.start <= loc.limit <= |content| && readSlice(content[loc.start..loc.limit]) == Some(loc.events)
    }
  }

  /** What the domain parser remembers: offsets per domain, and the text at the path it loaded. */
  datatype Source = Source(locations: map<string, (int, nat)>, content: Option<string>)

  const NoSource: Source := Source(map[], None)

  /** ParseDomainJsonFromFile: the domain must be indexed, the file readable and long enough, and the
      slice must parse. */
  function ParseDomain(lib: Library, src: Source, domain: string): Option<map<string, string>> {
    if domain !in src.locations || src.content.None? then None
    else
      var (start, length) := src.locations[domain];
      if start < 0 || start + length > |src.content.value| then None
      else lib.readSlice(src.content.value[start..start + length])
  }

  /** ParseEventNameConfig: the named events of a domain that the privacy settings admit. */
  function EventNames(lib: Library, p: Privacy, domain: string, events: map<string, string>): map<string, BaseInfo> {
    map n | n in events && n != "" && lib.allowed(p, domain, lib.baseOf(events[n])) ::
      lib.baseOf(events[n]).(disallowParams := lib.Disallowed(p, events[n]))
  }

  /** What parsing the domain afresh answers. */
  function FreshAnswer(lib: Library, src: Source, p: Privacy, domain: string, name: string): Option<BaseInfo> {
    match ParseDomain(lib, src, domain)
    case None => None
    case Some(events) =>
      var names := EventNames(lib, p, domain, events);
      if name in names then Some(names[name]) else None
  }

  /** What the definition file itself says, without index, slices or cache. */
  function FileAnswer(lib: Library, content: string, p: Privacy, domain: string, name: string)
    : Option<BaseInfo>
  {
    match lib.readAll(content)
    case None => None
    case Some(all) =>
      if domain !in all || name == "" || name !in all[domain].events then None
      else
        var definition := all[domain].events[name];
        if lib.allowed(p, domain, lib.baseOf(definition))
        then Some(lib.baseOf(definition).(disallowParams := lib.Disallowed(p, definition)))
        else None
  }

  function IndexOf(all: map<string, Located>): map<string, (int, nat)> {
    map d | d in all && all[d].start <= all[d].limit :: (all[d].start, all[d].limit - all[d].start)
  }

  ghost predicate LoadedFrom(lib: Library, src: Source, content: string) {
    && lib.readAll(content).Some?
    && src == Source(IndexOf(lib.readAll(content).value), Some(content))
  }

  /** With a reader that keeps its contract, index and slices lose nothing. */
  lemma FreshIsFile(lib: Library, src: Source, content: string, p: Privacy, domain: string, name: string)
    requires LoadedFrom(lib, src, content) && lib.Faithful(content)
    ensures FreshAnswer(lib, src, p, domain, name) == FileAnswer(lib, content, p, domain, name)
  {
    var all := lib.readAll(content).value;
    if domain in all {
      var loc := all[domain];
      assert ParseDomain(lib, src, domain) == Some(loc.events);
    }
  }

  class DomainJsonParser {
    var source: Source

    constructor ()
      ensures source == NoSource
    {
      source := NoSource;
    }

    /** Indexes a definition file by domain. A file that cannot be opened or parsed leaves the old index
        in place. */
    method CacheDomainJsonLocation(lib: Library, file: Option<string>) returns (ok: bool)
      modifies this
      ensures ok <==> file.Some? && lib.readAll(file.value).Some?
      ensures !ok ==> source == old(source)
      ensures ok ==> LoadedFrom(lib, source, file.value)
    {
      if file.None? || lib.readAll(file.value).None? {
        return false;
      }
      var all := lib.readAll(file.value).value;
      var locations: map<string, (int, nat)> := map[];
      var todo := all.Keys;
      while todo != {}
        invariant todo <= all.Keys
        invariant forall d :: d in locations <==> d in all && d !in todo && all[d].start <= all[d].limit
        invariant forall d | d in locations :: locations[d] == (all[d].start, all[d].limit - all[d].start)
        decreases |todo|
      {
        var key :| key in todo;
        todo := todo - {key};
        var length := all[key].limit - all[key].start;
        if length >= 0 {
          locations := locations[key := (all[key].start, length)];
        }
      }
      assert locations == IndexOf(all);
      source := Source(locations, file);
      return true;
    }
  }
}

module DefinitionCaches {
  import opened Wrappers
  import opened Definitions

  const SYS_EVENT_DEF_MAP_MAX_SIZE: nat := 3000

  type Names = map<string, Option<BaseInfo>>
  type Cache = map<string, Names>

  function GetEventInCache(cache: Cache, domain: string, name: string): Option<Option<BaseInfo>> {
    if domain in cache && name in cache[domain] then Some(cache[domain][name]) else None
  }

  function AddToCache(cache: Cache, domain: string, name: string, answer: Option<BaseInfo>): Cache {
    cache[domain := (if domain in cache then cache[domain] else map[])[name := answer]]
  }

  /** The (domain, name) pairs the cache has an entry for. */
  ghost function Pairs(cache: Cache): set<(string, string)> {
    set d, n | d in cache && n in cache[d] :: (d, n)
  }

  lemma AddOnePair(cache: Cache, domain: string, name: string, answer: Option<BaseInfo>)
    requires GetEventInCache(cache, domain, name).None?
    ensures |Pairs(AddToCache(cache, domain, name, answer))| == |Pairs(cache)| + 1
  {
    var cache' := AddToCache(cache, domain, name, answer);
    forall d, n ensures (d, n) in Pairs(cache') <==> (d, n) in Pairs(cache) || (d, n) == (domain, name) {
      assert (d, n) in Pairs(cache') <==> d in cache' && n in cache'[d];
      assert (d, n) in Pairs(cache) <==> d in cache && n in cache[d];
    }
    assert forall q :: q in Pairs(cache') <==> (q.0, q.1) in Pairs(cache');
    assert Pairs(cache') == Pairs(cache) + {(domain, name)};
  }

  /** Every entry is what a fresh parse would answer. */
  ghost predicate Transparent(lib: Library, src: Source, p: Privacy, cache: Cache) {
    forall d, n | d in cache && n in cache[d] ::
      ParseDomain(lib, src, d).Some? && cache[d][n] == FreshAnswer(lib, src, p, d, n)
  }

  /** What a lookup does to the cache: nothing if the pair is cached or the domain does not parse, else
      the answer is added, or everything is flushed when the counter reaches its limit. */
  ghost predicate LookedUp(lib: Library, src: Source, domain: string, name: string, cache: Cache, cap: nat,
                           answer: Option<BaseInfo>, cache': Cache, cap': nat)
  {
    if GetEventInCache(cache, domain, name).Some? || ParseDomain(lib, src, domain).None? then
      cache' == cache && cap' == cap
    else if cap + 1 < SYS_EVENT_DEF_MAP_MAX_SIZE then
      cache' == AddToCache(cache, domain, name, answer) && cap' == cap + 1
    else
      cache' == map[] && cap' == 0
  }

  class EventJsonParser {
    const lib: Library
    const domainParser: DomainJsonParser
    var cache: Cache
    var cap: nat

    /** The reload clears the map but not the counter, so the counter bounds the entries from above. */
    ghost predicate Valid()
      reads this
    {
      |Pairs(cache)| <= cap < SYS_EVENT_DEF_MAP_MAX_SIZE
    }

    constructor (lib: Library)
      ensures Valid() && this.lib == lib && fresh(domainParser) && cache == map[]
      ensures domainParser.source == NoSource
    {
      this.lib := lib;
      domainParser := new DomainJsonParser();
      cache, cap := map[], 0;
      new;
      assert Pairs(cache) == {};
    }

    /** A lookup answers what a fresh parse of the domain would, keeps the cache transparent, and stays
        within the bound across the capacity flush. */
    method GetDefinedBaseInfoByDomainName(domain: string, name: string, p: Privacy) returns (answer: Option<BaseInfo>)
      requires Valid() && Transparent(lib, domainParser.source, p, cache)
      modifies this`cache, this`cap
      ensures Valid() && Transparent(lib, domainParser.source, p, cache)
      ensures answer == FreshAnswer(lib, domainParser.source, p, domain, name)
      ensures LookedUp(lib, domainParser.source, domain, name, old(cache), old(cap), answer, cache, cap)
    {
      var hit := GetEventInCache(cache, domain, name);
      if hit.Some? {
        return hit.value;
      }
      var domainJson := ParseDomain(lib, domainParser.source, domain);
      if domainJson.None? {
        return None;
      }
      answer := None;
      var allEvents := EventNames(lib, p, domain, domainJson.value);
      if name in allEvents {
        answer := Some(allEvents[name]);
      }
      AddOnePair(cache, domain, name, answer);
      if domain in cache {
        cache := cache[domain := cache[domain][name := answer]];
      } else {
        cache := cache[domain := map[name := answer]];
      }
      assert cache == AddToCache(old(cache), domain, name, answer);
      cap := cap + 1;
      if cap >= SYS_EVENT_DEF_MAP_MAX_SIZE {
        cache, cap := map[], 0;
        assert Pairs(cache) == {};
      }
    }

    /** Reload with nobody else active: afterwards the cache is transparent for the new privacy settings
        and whatever definitions are now loaded. */
    method ReadDefFile(file: Option<string>, p: Privacy)
      requires Valid()
      modifies this`cache, domainParser
      ensures Valid() && cache == map[] && Transparent(lib, domainParser.source, p, cache)
      ensures if file.Some? && lib.readAll(file.value).Some? then LoadedFrom(lib, domainParser.source, file.value)
              else domainParser.source == old(domainParser.source)
    {
      var ok := domainParser.CacheDomainJsonLocation(lib, file);
      cache := map[];
      assert Pairs(cache) == {};
    }
  }
}
