/** The caching shell of SchaleDBClient: fetchData reads through the main
    cache before going to the network, and getLocalizationData adds a
    second, two-hour cache in front of fetchData. The network is the
    parameter `fetch`, which maps a URL to the parsed JSON body, or to
    None when the request fails, the status is not ok or the body is not
    JSON. */
module Client {
  import opened Wrappers
  import opened TtlCache

  /** A parsed JSON value; numbers are kept as integers. */
  datatype Json =
    | JNull
    | JBool(b: bool)
    | JNumber(n: int)
    | JString(s: string)
    | JArray(elements: seq<Json>)
    | JObject(members: map<string, Json>)

  /** JavaScript truthiness of a parsed JSON value. */
  predicate Truthy(v: Json) {
    match v
    case JNull => false
    case JBool(b) => b
    case JNumber(n) => n != 0
    case JString(s) => s != ""
    case _ => true
  }

  /** Truthiness of what Cache.get returns: null is falsy. */
  predicate TruthyHit(c: Option<Json>) {
    c.Some? && Truthy(c.value)
  }

  /** The error fetchData throws: "Failed to fetch <endpoint>: ...". */
  datatype FetchError = FetchError(endpoint: string)

  const DefaultBaseUrl: string := "https://schaledb.com/data"
  /** cacheTimeout of the default configuration: five minutes in milliseconds. */
  const DefaultCacheTimeout: real := 300000.0
  const LocalizationTtlMinutes: real := 120.0

  function Url(baseUrl: string, endpoint: string): string {
    baseUrl + "/" + endpoint
  }

  function LocalizationKey(language: string): string {
    "localization_" + language
  }

  function LocalizationEndpoint(language: string): string {
    language + "/localization.json"
  }

  /** The outcome of one fetchData call and the main cache's entries after it. */
  datatype FetchStep = FetchStep(result: Result<Json, FetchError>, entries: map<string, Entry<Json>>)

  /** fetchData(endpoint) at time now: a truthy fresh cached value is
      returned as is; otherwise the URL is fetched, a failure becomes a
      FetchError, and a success is stored under the endpoint and returned. */
  function FetchSpec(entries: map<string, Entry<Json>>, ttl: real, baseUrl: string, endpoint: string,
                     now: int, fetch: string -> Option<Json>): FetchStep
  {
    var cached := Lookup(entries, ttl, endpoint, now);
    var kept := AfterGet(entries, ttl, endpoint, now);
    if TruthyHit(cached) then FetchStep(Ok(cached.value), kept)
    else
      match fetch(Url(baseUrl, endpoint))
      case None => FetchStep(Err(FetchError(endpoint)), kept)
      case Some(data) => FetchStep(Ok(data), kept[endpoint := Entry(data, now)])
  }

  /** The outcome of one getLocalizationData call and both caches after it. */
  datatype LocalizationStep = LocalizationStep(
    result: Result<Json, FetchError>,
    localizationEntries: map<string, Entry<Json>>,
    entries: map<string, Entry<Json>>)

  /** getLocalizationData(language) at time now: a truthy fresh value in the
      localization cache is returned; otherwise the language's
      localization.json goes through fetchData, whose failure propagates
      and whose result is stored in the localization cache. */
  function LocalizationSpec(localizationEntries: map<string, Entry<Json>>, localizationTtl: real,
                            entries: map<string, Entry<Json>>, ttl: real, baseUrl: string,
                            language: string, now: int, fetch: string -> Option<Json>): LocalizationStep
  {
    var key := LocalizationKey(language);
    var cached := Lookup(localizationEntries, localizationTtl, key, now);
    var kept := AfterGet(localizationEntries, localizationTtl, key, now);
    if TruthyHit(cached) then LocalizationStep(Ok(cached.value), kept, entries)
    else
      var step := FetchSpec(entries, ttl, baseUrl, LocalizationEndpoint(language), now, fetch);
      match step.result
      case Err(e) => LocalizationStep(Err(e), kept, step.entries)
      case Ok(data) => LocalizationStep(Ok(data), kept[key := Entry(data, now)], step.entries)
  }

  class SchaleDBClient {
    const baseUrl: string
    const cache: Cache<Json>
    const localizationCache: Cache<Json>

    predicate Valid()
      reads this
    {
      cache != localizationCache
    }

    /** new SchaleDBClient(config): the main cache lives cacheTimeout
        milliseconds (the source passes cacheTimeout / 60000 minutes), the
        localization cache two hours. */
    constructor (baseUrl: string, cacheTimeout: real)
      ensures Valid()
      ensures this.baseUrl == baseUrl
      ensures cache.ttl == cacheTimeout && cache.entries == map[]
      ensures localizationCache.ttl == 7200000.0 && localizationCache.entries == map[]
      ensures fresh(cache) && fresh(localizationCache)
    {
      this.baseUrl := baseUrl;
      cache := new Cache(cacheTimeout / (60.0 * 1000.0));
      localizationCache := new Cache(LocalizationTtlMinutes);
    }

    /** new SchaleDBClient() with the default configuration. */
    constructor Default()
      ensures Valid()
      ensures baseUrl == DefaultBaseUrl
      ensures cache.ttl == DefaultCacheTimeout && cache.entries == map[]
      ensures localizationCache.ttl == 7200000.0 && localizationCache.entries == map[]
      ensures fresh(cache) && fresh(localizationCache)
    {
      baseUrl := DefaultBaseUrl;
      cache := new Cache(DefaultCacheTimeout / (60.0 * 1000.0));
      localizationCache := new Cache(LocalizationTtlMinutes);
    }

    method FetchData(endpoint: string, now: int, fetch: string -> Option<Json>) returns (r: Result<Json, FetchError>)
      requires Valid()
      modifies cache
      ensures r == FetchSpec(old(cache.entries), cache.ttl, baseUrl, endpoint, now, fetch).result
      ensures cache.entries == FetchSpec(old(cache.entries), cache.ttl, baseUrl, endpoint, now, fetch).entries
    {
      var cached := cache.Get(endpoint, now);
      if cached.Some? && Truthy(cached.value) {
        return Ok(cached.value);
      }
      var response := fetch(Url(baseUrl, endpoint));
      if response.None? {
        return Err(FetchError(endpoint));
      }
      cache.Set(endpoint, response.value, now);
      return Ok(response.value);
    }

    method GetLocalizationData(language: string, now: int, fetch: string -> Option<Json>) returns (r: Result<Json, FetchError>)
      requires Valid()
      modifies cache, localizationCache
      ensures var step := LocalizationSpec(old(localizationCache.entries), localizationCache.ttl,
                                           old(cache.entries), cache.ttl, baseUrl, language, now, fetch);
              r == step.result && localizationCache.entries == step.localizationEntries && cache.entries == step.entries
    {
      var key := LocalizationKey(language);
      var cached := localizationCache.Get(key, now);
      if cached.Some? && Truthy(cached.value) {
        return Ok(cached.value);
      }
      r := FetchData(LocalizationEndpoint(language), now, fetch);
      if r.Ok? {
        localizationCache.Set(key, r.value, now);
      }
    }
  }

  // ---------------------------------------------------------------------
  // Properties of the cache-aside protocol
  // ---------------------------------------------------------------------

  /** A truthy fresh cached value is answered without the network: the
      outcome is the same whatever `fetch` would have returned. */
  lemma {:induction false} FetchHitSkipsNetwork(entries: map<string, Entry<Json>>, ttl: real, baseUrl: string,
                                                endpoint: string, now: int, f: string -> Option<Json>, g: string -> Option<Json>)
    requires TruthyHit(Lookup(entries, ttl, endpoint, now))
    ensures FetchSpec(entries, ttl, baseUrl, endpoint, now, f) == FetchSpec(entries, ttl, baseUrl, endpoint, now, g)
    ensures FetchSpec(entries, ttl, baseUrl, endpoint, now, f).result == Ok(entries[endpoint].data)
    ensures FetchSpec(entries, ttl, baseUrl, endpoint, now, f).entries == entries
  {
  }

  /** Cache-aside round trip: data fetched at t0 that is truthy is served
      from the cache, without the network, by any call up to ttl
      milliseconds later. */
  lemma FetchThenHit(entries: map<string, Entry<Json>>, ttl: real, baseUrl: string, endpoint: string,
                     t0: int, t1: int, f: string -> Option<Json>, g: string -> Option<Json>, data: Json)
    requires !TruthyHit(Lookup(entries, ttl, endpoint, t0))
    requires f(Url(baseUrl, endpoint)) == Some(data) && Truthy(data)
    requires (t1 - t0) as real <= ttl
    ensures FetchSpec(entries, ttl, baseUrl, endpoint, t0, f).result == Ok(data)
    ensures var s := FetchSpec(entries, ttl, baseUrl, endpoint, t0, f).entries;
            FetchSpec(s, ttl, baseUrl, endpoint, t1, g) == FetchStep(Ok(data), s)
  {
    var s := FetchSpec(entries, ttl, baseUrl, endpoint, t0, f).entries;
    SetThenLookup(AfterGet(entries, ttl, endpoint, t0), ttl, endpoint, data, t0, t1);
    assert Lookup(s, ttl, endpoint, t1) == Some(data);
  }

  /** A falsy body (null, false, 0, "") is stored but never served: the
      next call goes to the network again. */
  lemma FalsyBodyRefetched(entries: map<string, Entry<Json>>, ttl: real, baseUrl: string, endpoint: string,
                           t0: int, t1: int, f: string -> Option<Json>, g: string -> Option<Json>, data: Json)
    requires !TruthyHit(Lookup(entries, ttl, endpoint, t0))
    requires f(Url(baseUrl, endpoint)) == Some(data) && !Truthy(data)
    ensures var s := FetchSpec(entries, ttl, baseUrl, endpoint, t0, f).entries;
            FetchSpec(s, ttl, baseUrl, endpoint, t1, g).result
            == (match g(Url(baseUrl, endpoint)) case None => Err(FetchError(endpoint)) case Some(d) => Ok(d))
  {
    var s := FetchSpec(entries, ttl, baseUrl, endpoint, t0, f).entries;
    SetThenLookup(AfterGet(entries, ttl, endpoint, t0), ttl, endpoint, data, t0, t1);
    assert !TruthyHit(Lookup(s, ttl, endpoint, t1));
  }

  /** A failed request reports the endpoint and stores nothing: the only
      change to the cache is the eviction the lookup performed. */
  lemma FetchFailureStoresNothing(entries: map<string, Entry<Json>>, ttl: real, baseUrl: string, endpoint: string,
                                  now: int, f: string -> Option<Json>)
    requires !TruthyHit(Lookup(entries, ttl, endpoint, now))
    requires f(Url(baseUrl, endpoint)) == None
    ensures FetchSpec(entries, ttl, baseUrl, endpoint, now, f).result == Err(FetchError(endpoint))
    ensures FetchSpec(entries, ttl, baseUrl, endpoint, now, f).entries == AfterGet(entries, ttl, endpoint, now)
    ensures Lookup(FetchSpec(entries, ttl, baseUrl, endpoint, now, f).entries, ttl, endpoint, now)
         == Lookup(entries, ttl, endpoint, now)
  {
  }

  /** fetchData for one endpoint never changes what is cached for another. */
  lemma FetchOtherEndpoint(entries: map<string, Entry<Json>>, ttl: real, baseUrl: string, endpoint: string,
                           now: int, f: string -> Option<Json>, other: string)
    requires other != endpoint
    ensures var s := FetchSpec(entries, ttl, baseUrl, endpoint, now, f).entries;
            (other in s <==> other in entries) && (other in s ==> s[other] == entries[other])
  {
  }

  /** Each language has its own localization key and its own endpoint. */
  lemma {:induction false} LocalizationNamesInjective(l1: string, l2: string)
    ensures LocalizationKey(l1) == LocalizationKey(l2) <==> l1 == l2
    ensures LocalizationEndpoint(l1) == LocalizationEndpoint(l2) <==> l1 == l2
  {
    if LocalizationKey(l1) == LocalizationKey(l2) {
      assert l1 == LocalizationKey(l1)[13..];
      assert l2 == LocalizationKey(l2)[13..];
    }
    if LocalizationEndpoint(l1) == LocalizationEndpoint(l2) {
      assert |l1| == |l2|;
      assert l1 == LocalizationEndpoint(l1)[..|l1|];
      assert l2 == LocalizationEndpoint(l2)[..|l2|];
    }
  }

  /** Localization data loaded at t0 is served from the localization cache,
      with neither cache consulted further and the network untouched, by
      every call for the same language within its time-to-live. */
  lemma LocalizationThenHit(localizationEntries: map<string, Entry<Json>>, localizationTtl: real,
                            entries: map<string, Entry<Json>>, ttl: real, baseUrl: string, language: string,
                            t0: int, t1: int, f: string -> Option<Json>, g: string -> Option<Json>, data: Json)
    requires LocalizationSpec(localizationEntries, localizationTtl, entries, ttl, baseUrl, language, t0, f).result == Ok(data)
    requires !TruthyHit(Lookup(localizationEntries, localizationTtl, LocalizationKey(language), t0))
    requires Truthy(data) && (t1 - t0) as real <= localizationTtl
    ensures var s := LocalizationSpec(localizationEntries, localizationTtl, entries, ttl, baseUrl, language, t0, f);
            LocalizationSpec(s.localizationEntries, localizationTtl, s.entries, ttl, baseUrl, language, t1, g)
            == LocalizationStep(Ok(data), s.localizationEntries, s.entries)
  {
    var key := LocalizationKey(language);
    var kept := AfterGet(localizationEntries, localizationTtl, key, t0);
    SetThenLookup(kept, localizationTtl, key, data, t0, t1);
  }

  /** A failed load propagates fetchData's error and adds nothing to the
      localization cache. */
  lemma LocalizationFailure(localizationEntries: map<string, Entry<Json>>, localizationTtl: real,
                            entries: map<string, Entry<Json>>, ttl: real, baseUrl: string, language: string,
                            now: int, f: string -> Option<Json>)
    requires !TruthyHit(Lookup(localizationEntries, localizationTtl, LocalizationKey(language), now))
    requires !TruthyHit(Lookup(entries, ttl, LocalizationEndpoint(language), now))
    requires f(Url(baseUrl, LocalizationEndpoint(language))) == None
    ensures var s := LocalizationSpec(localizationEntries, localizationTtl, entries, ttl, baseUrl, language, now, f);
            s.result == Err(FetchError(LocalizationEndpoint(language)))
            && s.localizationEntries == AfterGet(localizationEntries, localizationTtl, LocalizationKey(language), now)
  {
  }
}
