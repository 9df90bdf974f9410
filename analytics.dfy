/**
 * The caching rules of the analytics service in
 * examples/python/performance-example.py: the age tiers, the cache read and
 * write policy of get_metric, the cache key, the whitelisted SQL filter
 * clause and the assembly of a batch of results.
 *
 * Redis is a map from key to entry; the database result, the clock, the
 * ISO-8601 text of an instant and the MD5 digest of the filters are inputs.
 */
module Analytics {
  import opened Wrappers

  /** TTL of a cached hot result: 5 minutes. Warm results keep twice as long. */
  const CACHE_TTL_SECONDS: nat := 300
  /** Data younger than this many hours is hot. */
  const HOT_DATA_HOURS: nat := 24
  const HOT_AGE_SECONDS: int := HOT_DATA_HOURS * 60 * 60
  /** Data younger than 7 days (and not hot) is warm. */
  const WARM_AGE_SECONDS: int := 7 * 24 * 60 * 60

  datatype CacheStrategy = Hot | Warm | Cold

  /** How hot a tier is: Cold < Warm < Hot. */
  function Heat(s: CacheStrategy): nat
  {
    match s
    case Hot => 2
    case Warm => 1
    case Cold => 0
  }

  /** _get_cache_strategy: the tier of data starting at `startDate`, judged at time `now`. */
  function GetCacheStrategy(startDate: int, now: int): (s: CacheStrategy)
    ensures s == Hot <==> now - startDate < HOT_AGE_SECONDS
    ensures s == Warm <==> HOT_AGE_SECONDS <= now - startDate < WARM_AGE_SECONDS
    ensures s == Cold <==> WARM_AGE_SECONDS <= now - startDate
  {
    var age := now - startDate;
    if age < HOT_AGE_SECONDS then Hot
    else if age < WARM_AGE_SECONDS then Warm
    else Cold
  }

  /** Older data never lands in a hotter tier. */
  lemma StrategyMonotone(older: int, newer: int, now: int)
    requires older <= newer
    ensures Heat(GetCacheStrategy(older, now)) <= Heat(GetCacheStrategy(newer, now))
  {
  }

  /** Only hot and warm data is looked up in the cache. */
  predicate ReadsCache(s: CacheStrategy)
  {
    s == Hot || s == Warm
  }

  /** The TTL a freshly queried result is cached with; cold results are not cached. */
  function WriteTtl(s: CacheStrategy): (ttl: Option<nat>)
    ensures ttl.Some? <==> ReadsCache(s)
    ensures s == Hot ==> ttl == Some(300)
    ensures s == Warm ==> ttl == Some(600)
  {
    match s
    case Hot => Some(CACHE_TTL_SECONDS)
    case Warm => Some(CACHE_TTL_SECONDS * 2)
    case Cold => None
  }

  // ---------------------------------------------------------------------------
  // Queries, results and the cache store
  // ---------------------------------------------------------------------------

  /** One aggregated row of a materialized view. */
  datatype Row = Row(period: string, totalValue: real, count: int, avgValue: real)

  /** A result handed to the caller: the rows and whether they came from the cache. */
  datatype MetricResult = MetricResult(data: seq<Row>, cached: bool)

  /** What Redis holds under a key: the rows, when they were stored and the TTL they were stored with. */
  datatype CacheEntry = CacheEntry(data: seq<Row>, storedAt: int, ttl: nat)

  /** Redis drops an entry `ttl` seconds after SETEX wrote it. */
  predicate Live(e: CacheEntry, now: int)
  {
    now < e.storedAt + e.ttl
  }

  /** An instant: seconds since the epoch and its ISO-8601 text (the conversion is not modelled). */
  datatype Instant = Instant(epochSeconds: int, iso: string)

  /** A filter dict, as its (field, value) items in insertion order. */
  type Filters = seq<(string, string)>

  datatype MetricQuery = MetricQuery(
    metricType: string,
    startDate: Instant,
    endDate: Instant,
    granularity: string,
    filters: Option<Filters>)

  /** Python's truth value of an optional dict: present and non-empty. */
  predicate HasFilters(filters: Option<Filters>)
  {
    filters.Some? && filters.value != []
  }

  // ---------------------------------------------------------------------------
  // The cache key
  // ---------------------------------------------------------------------------

  /** A lower-case hexadecimal MD5 digest: 32 characters from 0-9 and a-f. */
  predicate IsMd5Hex(s: string)
  {
    |s| == 32 && forall i :: 0 <= i < |s| ==> s[i] in "0123456789abcdef"
  }

  /**
   * The filter part of the key: empty without filters, otherwise the first
   * 8 characters of `filterDigest`, the hex MD5 of the filters' sorted JSON.
   */
  function FilterHash(filters: Option<Filters>, filterDigest: string): (h: string)
    ensures !HasFilters(filters) ==> h == ""
    ensures HasFilters(filters) ==> |h| == (if |filterDigest| < 8 then |filterDigest| else 8) && h == filterDigest[..|h|]
  {
    if HasFilters(filters) then
      if |filterDigest| < 8 then filterDigest else filterDigest[..8]
    else ""
  }

  /** _build_cache_key: metric:{type}:{start}:{end}:{granularity}:{filter hash}. */
  function BuildCacheKey(q: MetricQuery, filterDigest: string): (key: string)
    ensures |key| >= 11 && key[..7] == "metric:"
    ensures key[|key| - |FilterHash(q.filters, filterDigest)|..] == FilterHash(q.filters, filterDigest)
  {
    "metric:" + q.metricType + ":" + q.startDate.iso + ":" + q.endDate.iso + ":"
      + q.granularity + ":" + FilterHash(q.filters, filterDigest)
  }

  /**
   * However many filters a query has, they add at most 8 characters to its
   * key, and exactly 8 with an MD5 digest.
   */
  lemma CacheKeyLength(q: MetricQuery, filterDigest: string)
    ensures var fixedPart := 11 + |q.metricType| + |q.startDate.iso| + |q.endDate.iso| + |q.granularity|;
      && fixedPart <= |BuildCacheKey(q, filterDigest)| <= fixedPart + 8
      && (HasFilters(q.filters) && IsMd5Hex(filterDigest) ==> |BuildCacheKey(q, filterDigest)| == fixedPart + 8)
      && (!HasFilters(q.filters) ==> |BuildCacheKey(q, filterDigest)| == fixedPart)
  {
  }

  /** A query with filters never shares its cache key with the same query without them. */
  lemma FilteredKeyDiffers(q: MetricQuery, filterDigest: string, otherDigest: string)
    requires HasFilters(q.filters) && IsMd5Hex(filterDigest)
    ensures BuildCacheKey(q, filterDigest) != BuildCacheKey(q.(filters := None), otherDigest)
  {
    var withFilters := BuildCacheKey(q, filterDigest);
    var without := BuildCacheKey(q.(filters := None), otherDigest);
    assert without[|without| - 1] == ':';
    assert withFilters[|withFilters| - 1] == filterDigest[7];
    assert filterDigest[7] in "0123456789abcdef";
  }

  // ---------------------------------------------------------------------------
  // The SQL filter clause
  // ---------------------------------------------------------------------------

  /** The only filter fields that may reach the SQL text. */
  const ALLOWED_FILTER_FIELDS: set<string> := {"user_id", "tenant_id", "event_type"}

  /**
   * The parameterised condition for one whitelisted field: the field name
   * appears as the column and as the bind parameter, never a filter value.
   */
  function ClauseFor(field: string): (c: string)
    ensures |c| == 8 + 2 * |field|
    ensures c[..4] == "AND " && c[4..4 + |field|] == field
    ensures c[|c| - |field| - 4..] == " = :" + field
  {
    "AND " + field + " = :" + field
  }

  /** Distinct fields give distinct conditions. */
  lemma ClauseForInjective(f: string, g: string)
    requires f != g
    ensures ClauseFor(f) != ClauseFor(g)
  {
    if |f| == |g| {
      assert ClauseFor(f)[4..4 + |f|] == f;
      assert ClauseFor(g)[4..4 + |g|] == g;
    }
  }

  /** The conditions for the whitelisted fields among `filters`, in input order. */
  function WhitelistedClauses(filters: Filters): (clauses: seq<string>)
    ensures |clauses| <= |filters|
  {
    if filters == [] then []
    else
      var field := filters[|filters| - 1].0;
      WhitelistedClauses(filters[..|filters| - 1])
        + if field in ALLOWED_FILTER_FIELDS then [ClauseFor(field)] else []
  }

  /** Python's " ".join(parts). */
  function JoinWithSpaces(parts: seq<string>): (s: string)
    ensures parts == [] ==> s == ""
    ensures |parts| == 1 ==> s == parts[0]
  {
    if parts == [] then ""
    else if |parts| == 1 then parts[0]
    else parts[0] + " " + JoinWithSpaces(parts[1..])
  }

  /** What _build_filter_clause returns. */
  function FilterClause(filters: Option<Filters>): (c: string)
    ensures !HasFilters(filters) ==> c == ""
    ensures HasFilters(filters) && |WhitelistedClauses(filters.value)| == 1 ==>
      c == WhitelistedClauses(filters.value)[0]
  {
    if HasFilters(filters) then JoinWithSpaces(WhitelistedClauses(filters.value)) else ""
  }

  /** _build_filter_clause: one condition per whitelisted field, space-separated. */
  method BuildFilterClause(filters: Option<Filters>) returns (clause: string)
    ensures clause == FilterClause(filters)
  {
    if filters.None? || filters.value == [] {
      return "";
    }
    var items := filters.value;
    var clauses: seq<string> := [];
    for i := 0 to |items|
      invariant clauses == WhitelistedClauses(items[..i])
    {
      assert items[..i + 1][..i] == items[..i];
      var field := items[i].0;
      if field in ALLOWED_FILTER_FIELDS {
        clauses := clauses + [ClauseFor(field)];
      }
    }
    assert items[..|items|] == items;
    clause := JoinWithSpaces(clauses);
  }

  /** Filtering works item by item: the conditions of a concatenation are concatenated, in order. */
  lemma {:induction false} WhitelistedClausesAppend(front: Filters, back: Filters)
    ensures WhitelistedClauses(front + back) == WhitelistedClauses(front) + WhitelistedClauses(back)
    decreases |back|
  {
    if back != [] {
      var init := back[..|back| - 1];
      assert (front + back)[..|front + back| - 1] == front + init;
      assert (front + back)[|front + back| - 1] == back[|back| - 1];
      WhitelistedClausesAppend(front, init);
    } else {
      assert front + back == front;
    }
  }

  /** A condition appears exactly when some whitelisted field of the filters asks for it. */
  lemma {:induction false} WhitelistedClausesExact(filters: Filters)
    ensures forall c :: c in WhitelistedClauses(filters) <==>
      exists i :: 0 <= i < |filters| && filters[i].0 in ALLOWED_FILTER_FIELDS && c == ClauseFor(filters[i].0)
  {
    if filters != [] {
      var init := filters[..|filters| - 1];
      WhitelistedClausesExact(init);
      forall c ensures c in WhitelistedClauses(filters) <==>
        exists i :: 0 <= i < |filters| && filters[i].0 in ALLOWED_FILTER_FIELDS && c == ClauseFor(filters[i].0)
      {
        if c in WhitelistedClauses(init) {
          var i :| 0 <= i < |init| && init[i].0 in ALLOWED_FILTER_FIELDS && c == ClauseFor(init[i].0);
          assert filters[i] == init[i];
        }
        if exists i :: 0 <= i < |filters| && filters[i].0 in ALLOWED_FILTER_FIELDS && c == ClauseFor(filters[i].0) {
          var i :| 0 <= i < |filters| && filters[i].0 in ALLOWED_FILTER_FIELDS && c == ClauseFor(filters[i].0);
          if i < |init| {
            assert init[i] == filters[i];
          }
        }
      }
    }
  }

  /** Filter values never reach the SQL text: the clause depends on the fields alone. */
  lemma {:induction false} FilterClauseIgnoresValues(a: Filters, b: Filters)
    requires |a| == |b| && forall i :: 0 <= i < |a| ==> a[i].0 == b[i].0
    ensures WhitelistedClauses(a) == WhitelistedClauses(b)
  {
    if a != [] {
      FilterClauseIgnoresValues(a[..|a| - 1], b[..|b| - 1]);
    }
  }

  /** Filters without any whitelisted field add no condition at all. */
  lemma {:induction false} NoWhitelistedFieldNoClause(filters: Filters)
    requires forall i :: 0 <= i < |filters| ==> filters[i].0 !in ALLOWED_FILTER_FIELDS
    ensures WhitelistedClauses(filters) == []
    ensures FilterClause(Some(filters)) == ""
  {
    if filters != [] {
      NoWhitelistedFieldNoClause(filters[..|filters| - 1]);
    }
  }

  // ---------------------------------------------------------------------------
  // get_metric: the cache read and write policy
  // ---------------------------------------------------------------------------

  /**
   * A read at `now` finds a list only while the entry is live, and the list
   * counts only when it is non-empty (Python's truth test on the list).
   */
  predicate CacheHit(cache: map<string, CacheEntry>, key: string, now: int)
  {
    key in cache && Live(cache[key], now) && cache[key].data != []
  }

  /** A result with the cache left behind it. */
  datatype Served = Served(result: MetricResult, cache: map<string, CacheEntry>)

  /** get_metric on the cache `cache`, with `rows` what the database returns for the query. */
  function MetricOutcome(cache: map<string, CacheEntry>, q: MetricQuery, now: int, filterDigest: string,
                         rows: seq<Row>): (o: Served)
    ensures o.result.cached ==> o.cache == cache
    ensures !o.result.cached ==> o.result.data == rows
    ensures o.result.cached <==>
      ReadsCache(GetCacheStrategy(q.startDate.epochSeconds, now)) && CacheHit(cache, BuildCacheKey(q, filterDigest), now)
  {
    var strategy := GetCacheStrategy(q.startDate.epochSeconds, now);
    var key := BuildCacheKey(q, filterDigest);
    if ReadsCache(strategy) && CacheHit(cache, key, now) then
      Served(MetricResult(cache[key].data, true), cache)
    else
      var ttl := WriteTtl(strategy);
      Served(MetricResult(rows, false),
             if ttl.Some? then cache[key := CacheEntry(rows, now, ttl.value)] else cache)
  }

  /** Cold data is always queried, and neither read from nor written to the cache. */
  lemma ColdBypassesCache(cache: map<string, CacheEntry>, q: MetricQuery, now: int, filterDigest: string,
                          rows: seq<Row>)
    requires GetCacheStrategy(q.startDate.epochSeconds, now) == Cold
    ensures MetricOutcome(cache, q, now, filterDigest, rows) == Served(MetricResult(rows, false), cache)
  {
  }

  /**
   * For hot and warm data: a live, non-empty cached list is served as is and
   * leaves the cache alone; otherwise the query result is served and cached
   * under the key from `now`, for 300 seconds when hot and 600 when warm.
   */
  lemma WarmOrHotUsesCache(cache: map<string, CacheEntry>, q: MetricQuery, now: int, filterDigest: string,
                           rows: seq<Row>)
    requires ReadsCache(GetCacheStrategy(q.startDate.epochSeconds, now))
    ensures var key := BuildCacheKey(q, filterDigest);
      var o := MetricOutcome(cache, q, now, filterDigest, rows);
      && (o.result.cached <==> CacheHit(cache, key, now))
      && (CacheHit(cache, key, now) ==> o == Served(MetricResult(cache[key].data, true), cache))
      && (!CacheHit(cache, key, now) ==>
            && o.result == MetricResult(rows, false)
            && o.cache == cache[key := CacheEntry(rows, now, if GetCacheStrategy(q.startDate.epochSeconds, now) == Hot
                                                       then 300 else 600)])
  {
  }

  /**
   * Asking again, while the data is still hot or warm, serves from the cache
   * the non-empty rows the first call served exactly while the entry they
   * sit in is live: after a miss, for the TTL the first call wrote.
   */
  lemma RepeatedQueryHits(cache: map<string, CacheEntry>, q: MetricQuery, now: int, later: int,
                          filterDigest: string, rows: seq<Row>, laterRows: seq<Row>)
    requires ReadsCache(GetCacheStrategy(q.startDate.epochSeconds, now))
    requires ReadsCache(GetCacheStrategy(q.startDate.epochSeconds, later))
    requires MetricOutcome(cache, q, now, filterDigest, rows).result.data != []
    ensures var first := MetricOutcome(cache, q, now, filterDigest, rows);
      var key := BuildCacheKey(q, filterDigest);
      var second := MetricOutcome(first.cache, q, later, filterDigest, laterRows);
      && key in first.cache
      && (second.result.cached <==> Live(first.cache[key], later))
      && (second.result.cached ==> second.result == MetricResult(first.result.data, true))
      && (!first.result.cached ==>
            (second.result.cached <==>
               later < now + WriteTtl(GetCacheStrategy(q.startDate.epochSeconds, now)).value))
  {
  }

  /** The analytics service's view of Redis. */
  class AnalyticsService {
    var cache: map<string, CacheEntry>

    constructor (store: map<string, CacheEntry>)
      ensures cache == store
    {
      cache := store;
    }

    /**
     * get_metric. `now` is the clock, `filterDigest` the hex MD5 of the
     * query's filters and `rows` what the materialized view returns.
     */
    method GetMetric(q: MetricQuery, now: int, filterDigest: string, rows: seq<Row>) returns (r: MetricResult)
      modifies this
      ensures Served(r, cache) == MetricOutcome(old(cache), q, now, filterDigest, rows)
    {
      var strategy := GetCacheStrategy(q.startDate.epochSeconds, now);
      var key := BuildCacheKey(q, filterDigest);
      if strategy == Hot || strategy == Warm {
        if key in cache && now < cache[key].storedAt + cache[key].ttl && cache[key].data != [] {
          return MetricResult(cache[key].data, true);
        }
      }
      var data := rows;
      if strategy == Hot {
        cache := cache[key := CacheEntry(data, now, CACHE_TTL_SECONDS)];
      } else if strategy == Warm {
        cache := cache[key := CacheEntry(data, now, CACHE_TTL_SECONDS * 2)];
      }
      return MetricResult(data, false);
    }
  }

  // ---------------------------------------------------------------------------
  // batch_get_metrics
  // ---------------------------------------------------------------------------

  /** What one query of a batch ended with: its result, or the exception it raised. */
  datatype Attempt = Completed(result: MetricResult) | Raised(error: string)

  /** The stand-in for a failed query: no rows, not cached. */
  const EMPTY_RESULT := MetricResult([], false)

  /**
   * batch_get_metrics, given what each query of the batch ended with:
   * results in input order, a failed query replaced by the empty result.
   */
  method BatchGetMetrics(attempts: seq<Attempt>) returns (results: seq<MetricResult>)
    ensures |results| == |attempts|
    ensures forall i :: 0 <= i < |attempts| ==>
      results[i] == if attempts[i].Raised? then EMPTY_RESULT else attempts[i].result
  {
    results := [];
    for i := 0 to |attempts|
      invariant |results| == i
      invariant forall j :: 0 <= j < i ==>
        results[j] == if attempts[j].Raised? then EMPTY_RESULT else attempts[j].result
    {
      if attempts[i].Raised? {
        results := results + [EMPTY_RESULT];
      } else {
        results := results + [attempts[i].result];
      }
    }
  }
}
