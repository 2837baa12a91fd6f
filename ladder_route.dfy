/**
  The `/ladder` request handler: validate the two rating parameters, answer
  from the result cache when the window is a canonical bucket holding an
  entry, otherwise fetch the candidates, dedup them, respond, and store the
  ladder for eligible windows.
 */
module LadderRoute {
  import opened Wrappers
  import opened Decimal
  import opened CachePolicy
  import opened Problems
  import opened DedupWindow

  /** The result cache, keyed by `CacheKey`. */
  type Cache = map<string, seq<Problem>>

  /** What the problem store delivers for the route's query, taken as an input. */
  datatype FetchResult = FetchFailed | Fetched(problems: seq<Problem>)

  /** The response sent back; client errors carry HTTP status 400. */
  datatype Response =
    | Success(data: seq<Problem>)
    | ClientError(message: string)
    | ServerError(message: string)

  /** The handler's interactions with its collaborators, in the order they happen. */
  datatype Effect =
    | CacheGet(key: string)
    | Query(startRating: string, endRating: string, limit: nat)
    | Send(response: Response)
    | CacheSet(key: string, value: seq<Problem>)

  /** Everything one request does: its interactions and the cache it leaves behind. */
  datatype Outcome = Outcome(trace: seq<Effect>, cache: Cache)

  const MissingMessage := "Missing startRating or endRating"
  const InvalidMessage := "Invalid startRating or endRating"
  const FetchFailedMessage := "Internal Server Error"

  /** A query parameter that is absent, or empty and therefore falsy. */
  predicate IsMissing(param: Option<string>) {
    param.None? || param.value == ""
  }

  predicate Fetches(trace: seq<Effect>) {
    exists k :: 0 <= k < |trace| && trace[k].Query?
  }

  predicate TouchesCache(trace: seq<Effect>) {
    exists k :: 0 <= k < |trace| && (trace[k].CacheGet? || trace[k].CacheSet?)
  }

  /** The trace holds exactly one response. */
  predicate RespondsOnce(trace: seq<Effect>) {
    exists k :: 0 <= k < |trace| && trace[k].Send? && forall j :: 0 <= j < |trace| && trace[j].Send? ==> j == k
  }

  /** Where each kind of effect sits in the handler's fixed order. */
  function Stage(effect: Effect): nat {
    match effect
    case CacheGet(_) => 0
    case Query(_, _, _) => 1
    case Send(_) => 2
    case CacheSet(_, _) => 3
  }

  /** Every effect of the trace belongs to a later stage than the ones before it. */
  predicate InStageOrder(trace: seq<Effect>) {
    forall i, j :: 0 <= i < j < |trace| ==> Stage(trace[i]) < Stage(trace[j])
  }

  /**
    A trace in stage order reads the cache, queries the store and writes the
    cache at most once each, and writes the cache only after every cache read
    and every response.
   */
  lemma StageOrderEffectsOnce(t: seq<Effect>)
    requires InStageOrder(t)
    ensures forall i, j :: 0 <= i < j < |t| ==> !(t[i].CacheGet? && t[j].CacheGet?)
    ensures forall i, j :: 0 <= i < j < |t| ==> !(t[i].Query? && t[j].Query?)
    ensures forall i, j :: 0 <= i < j < |t| ==> !(t[i].CacheSet? && t[j].CacheSet?)
    ensures forall i, j :: 0 <= i < |t| && 0 <= j < |t| && t[i].CacheSet? && (t[j].CacheGet? || t[j].Send?) ==> j < i
  {
  }

  /** A trace whose only response is at position `k`. */
  lemma RespondsAt(trace: seq<Effect>, k: nat)
    requires k < |trace| && trace[k].Send?
    requires forall j :: 0 <= j < |trace| && j != k ==> !trace[j].Send?
    ensures RespondsOnce(trace)
  {
  }

  /** The request as a whole, from the cache before it to the outcome. */
  function Serve(cache: Cache, startRating: Option<string>, endRating: Option<string>, fetch: FetchResult): Outcome {
    if IsMissing(startRating) || IsMissing(endRating) then
      Outcome([Send(ClientError(MissingMessage))], cache)
    else
      var s, e := startRating.value, endRating.value;
      if Parse(s).None? || Parse(e).None? then
        Outcome([Send(ClientError(InvalidMessage))], cache)
      else
        var useCache, key := IsEligibleForCache(s, e), CacheKey(s, e);
        var lookup := if useCache then [CacheGet(key)] else [];
        if useCache && key in cache then
          Outcome(lookup + [Send(Success(cache[key]))], cache)
        else
          var query := lookup + [Query(s, e, FetchLadderLimit)];
          match fetch
          case FetchFailed =>
            Outcome(query + [Send(ServerError(FetchFailedMessage))], cache)
          case Fetched(problems) =>
            var finalRes := Ladder(problems);
            if useCache then
              Outcome(query + [Send(Success(problems)), CacheSet(key, finalRes)], cache[key := finalRes])
            else
              Outcome(query + [Send(Success(problems))], cache)
  }

  /** Every path of the handler sends exactly one response. */
  lemma ServeRespondsOnce(cache: Cache, startRating: Option<string>, endRating: Option<string>, fetch: FetchResult)
    ensures RespondsOnce(Serve(cache, startRating, endRating, fetch).trace)
  {
    var trace := Serve(cache, startRating, endRating, fetch).trace;
    if IsMissing(startRating) || IsMissing(endRating) || Parse(startRating.value).None? || Parse(endRating.value).None? {
      RespondsAt(trace, 0);
    } else {
      var s, e := startRating.value, endRating.value;
      var lookup := if IsEligibleForCache(s, e) then 1 else 0;
      if IsEligibleForCache(s, e) && CacheKey(s, e) in cache {
        RespondsAt(trace, lookup);
      } else {
        RespondsAt(trace, lookup + 1);
      }
    }
  }

  /**
    The route's handler over an explicit cache: `cache.get` and `cache.set`
    become a lookup in and an update of the map it threads through.
   */
  method GetLadder(cache: Cache, startRating: Option<string>, endRating: Option<string>, fetch: FetchResult)
    returns (trace: seq<Effect>, cache': Cache)
    ensures Outcome(trace, cache') == Serve(cache, startRating, endRating, fetch)
  {
    trace, cache' := [], cache;
    if IsMissing(startRating) || IsMissing(endRating) {
      trace := trace + [Send(ClientError(MissingMessage))];
      return;
    }
    var s, e := startRating.value, endRating.value;
    if Parse(s).None? || Parse(e).None? {
      trace := trace + [Send(ClientError(InvalidMessage))];
      return;
    }
    var useCache := IsEligibleForCache(s, e);
    var key := CacheKey(s, e);
    if useCache {
      trace := trace + [CacheGet(key)];
      if key in cache' {
        trace := trace + [Send(Success(cache'[key]))];
        return;
      }
    }
    assert trace == (if useCache then [CacheGet(key)] else []);
    trace := trace + [Query(s, e, FetchLadderLimit)];
    ghost var query := trace;
    match fetch
    case FetchFailed =>
      trace := trace + [Send(ServerError(FetchFailedMessage))];
    case Fetched(problems) =>
      var finalRes := Dedup(problems);
      trace := trace + [Send(Success(problems))];
      if useCache {
        cache' := cache'[key := finalRes];
        trace := trace + [CacheSet(key, finalRes)];
        assert trace == query + [Send(Success(problems)), CacheSet(key, finalRes)];
      }
      assert finalRes == Ladder(problems);
  }

  /** A missing or non-numeric parameter is refused before the cache or the store is used. */
  lemma RejectsBadParameters(cache: Cache, startRating: Option<string>, endRating: Option<string>, fetch: FetchResult)
    requires IsMissing(startRating) || IsMissing(endRating) || Parse(startRating.value).None? || Parse(endRating.value).None?
    ensures var out := Serve(cache, startRating, endRating, fetch);
      && out.cache == cache
      && !Fetches(out.trace) && !TouchesCache(out.trace)
      && out.trace == [Send(ClientError(if IsMissing(startRating) || IsMissing(endRating) then MissingMessage else InvalidMessage))]
  {
  }

  /** An eligible request whose entry is cached is answered with that entry, and nothing is fetched. */
  lemma CacheHitShortCircuits(cache: Cache, s: string, e: string, fetch: FetchResult)
    requires s != "" && e != "" && IsEligibleForCache(s, e) && CacheKey(s, e) in cache
    ensures var out := Serve(cache, Some(s), Some(e), fetch);
      && out.trace == [CacheGet(CacheKey(s, e)), Send(Success(cache[CacheKey(s, e)]))]
      && out.cache == cache
      && !Fetches(out.trace)
  {
    var out := Serve(cache, Some(s), Some(e), fetch);
    assert out.trace[1].Send?;
  }

  /**
    A request not served from the cache responds with the fetched list as it
    came from the store, and stores the deduped ladder only when eligible.
   */
  lemma FreshRequest(cache: Cache, s: string, e: string, problems: seq<Problem>)
    requires s != "" && e != "" && Parse(s).Some? && Parse(e).Some?
    requires !IsEligibleForCache(s, e) || CacheKey(s, e) !in cache
    ensures var out := Serve(cache, Some(s), Some(e), Fetched(problems));
      && Fetches(out.trace)
      && out.trace ==
        (if IsEligibleForCache(s, e) then [CacheGet(CacheKey(s, e))] else [])
        + [Query(s, e, FetchLadderLimit), Send(Success(problems))]
        + (if IsEligibleForCache(s, e) then [CacheSet(CacheKey(s, e), Ladder(problems))] else [])
      && out.cache == (if IsEligibleForCache(s, e) then cache[CacheKey(s, e) := Ladder(problems)] else cache)
    ensures LadderLimit < FetchLadderLimit
  {
    var out := Serve(cache, Some(s), Some(e), Fetched(problems));
    var k := if IsEligibleForCache(s, e) then 1 else 0;
    assert out.trace[k].Query?;
  }

  /**
    On every path the handler's effects follow its fixed order: it reads the
    cache, queries the store and writes the cache at most once each, and
    writes the cache only after the cache read and the response.
   */
  lemma ServeEffectsAtMostOnce(cache: Cache, startRating: Option<string>, endRating: Option<string>, fetch: FetchResult)
    ensures InStageOrder(Serve(cache, startRating, endRating, fetch).trace)
    ensures var t := Serve(cache, startRating, endRating, fetch).trace;
      && (forall i, j :: 0 <= i < j < |t| ==> !(t[i].CacheGet? && t[j].CacheGet?))
      && (forall i, j :: 0 <= i < j < |t| ==> !(t[i].Query? && t[j].Query?))
      && (forall i, j :: 0 <= i < j < |t| ==> !(t[i].CacheSet? && t[j].CacheSet?))
      && (forall i, j :: 0 <= i < |t| && 0 <= j < |t| && t[i].CacheSet? && (t[j].CacheGet? || t[j].Send?) ==> j < i)
  {
    var t := Serve(cache, startRating, endRating, fetch).trace;
    assert InStageOrder(t);
    StageOrderEffectsOnce(t);
  }

  /** A failed fetch is a server error and leaves the cache as it was. */
  lemma FetchFailureIsServerError(cache: Cache, s: string, e: string)
    requires s != "" && e != "" && Parse(s).Some? && Parse(e).Some?
    requires !IsEligibleForCache(s, e) || CacheKey(s, e) !in cache
    ensures var out := Serve(cache, Some(s), Some(e), FetchFailed);
      && out.cache == cache
      && out.trace[|out.trace| - 1] == Send(ServerError(FetchFailedMessage))
      && (forall k :: 0 <= k < |out.trace| ==> !out.trace[k].CacheSet?)
      && out.trace ==
        (if IsEligibleForCache(s, e) then [CacheGet(CacheKey(s, e))] else [])
        + [Query(s, e, FetchLadderLimit), Send(ServerError(FetchFailedMessage))]
  {
  }

  /** A window that is not a canonical bucket never reads or writes the cache. */
  lemma IneligibleBypassesCache(cache: Cache, startRating: Option<string>, endRating: Option<string>, fetch: FetchResult)
    requires !startRating.None? && !endRating.None? && !IsEligibleForCache(startRating.value, endRating.value)
    ensures var out := Serve(cache, startRating, endRating, fetch);
      out.cache == cache && !TouchesCache(out.trace)
  {
  }

  /** The cache changes only by storing the ladder of a successful fetch for an eligible window. */
  lemma CacheWrittenOnlyWithLadder(cache: Cache, startRating: Option<string>, endRating: Option<string>, fetch: FetchResult)
    ensures var out := Serve(cache, startRating, endRating, fetch);
      || out.cache == cache
      || (&& !IsMissing(startRating) && !IsMissing(endRating)
          && IsEligibleForCache(startRating.value, endRating.value)
          && fetch.Fetched?
          && out.cache == cache[CacheKey(startRating.value, endRating.value) := Ladder(fetch.problems)])
  {
  }

  /** Every cached value is a ladder: bounded, with no mirrored pair. */
  ghost predicate HoldsLadders(cache: Cache) {
    forall key :: key in cache ==> |cache[key]| <= LadderLimit && NoAdjacentPair(cache[key])
  }

  /** Serving a request keeps every cache entry a ladder. */
  lemma ServePreservesLadders(cache: Cache, startRating: Option<string>, endRating: Option<string>, fetch: FetchResult)
    requires HoldsLadders(cache)
    ensures HoldsLadders(Serve(cache, startRating, endRating, fetch).cache)
  {
    CacheWrittenOnlyWithLadder(cache, startRating, endRating, fetch);
    if fetch.Fetched? {
      LadderNoAdjacentPair(fetch.problems);
    }
  }

  /**
    Repeating an eligible request after a successful fresh one is a cache
    hit: it returns the stored ladder and fetches nothing, whatever the store
    would now deliver.
   */
  lemma RepeatIsServedFromCache(cache: Cache, s: string, e: string, problems: seq<Problem>, later: FetchResult)
    requires s != "" && e != "" && IsEligibleForCache(s, e) && CacheKey(s, e) !in cache
    ensures var first := Serve(cache, Some(s), Some(e), Fetched(problems));
      var second := Serve(first.cache, Some(s), Some(e), later);
      && Fetches(first.trace)
      && second.trace == [CacheGet(CacheKey(s, e)), Send(Success(Ladder(problems)))]
      && second.cache == first.cache
  {
    var first := Serve(cache, Some(s), Some(e), Fetched(problems));
    assert first.trace[1].Query?;
  }

  /**
    The fresh response is the raw fetched list while the cache receives the
    deduped ladder, so two identical requests can see different payloads.
   */
  lemma FreshAndCachedResponsesDiffer()
    ensures var problems := [Problem(1, "A", 1200), Problem(2, "A", 1200)];
      var first := Serve(map[], Some("1200"), Some("1300"), Fetched(problems));
      var second := Serve(first.cache, Some("1200"), Some("1300"), FetchFailed);
      && Send(Success(problems)) in first.trace
      && second.trace[1] == Send(Success([Problem(1, "A", 1200)]))
  {
    var problems := [Problem(1, "A", 1200), Problem(2, "A", 1200)];
    NarrowWindowIneligible();
    SurvivorsStep(problems, 0);
    SurvivorsStep(problems, 1);
    assert problems[..0] == [] && problems[..2] == problems;
    assert problems[..1][0] == problems[0] && Adjacent(problems[0], problems[1]);
    assert Ladder(problems) == [Problem(1, "A", 1200)];
    FreshRequest(map[], "1200", "1300", problems);
    RepeatIsServedFromCache(map[], "1200", "1300", problems, FetchFailed);
  }

  /** A non-numeric rating such as "abc" is refused as invalid without a fetch. */
  lemma NonNumericRatingRefused(cache: Cache, fetch: FetchResult)
    ensures Serve(cache, Some("abc"), Some("1300"), fetch) == Outcome([Send(ClientError(InvalidMessage))], cache)
  {
    assert !IsDigit("abc"[0]);
  }
}
