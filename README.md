# Ladder route: a verified model

This project models the `/ladder` route of the ACDLadders backend
(`backend/src/routes/api/ladder.ts`). The route serves a "ladder": the
most popular practice problems whose rating falls in a requested window,
with mirrored copies of one problem collapsed into one entry. Mirrored
copies share a name and sit on neighbouring contest ids.

The model has three parts.

- **Cache policy** (`CachePolicy`). A request may use the result cache only
  when its window `[start, end)` is a canonical 100-point bucket. The cache
  key is `ladder:<startRating>:<endRating>`, built from the raw parameter
  text. Divisibility is tested with JavaScript's truncating `%`, written out
  as `JsRemainder`.
- **Dedup window** (`DedupWindow`, over `Problems` and `Decimal`). The loop
  `Dedup` keeps a seen set of `${contestId}:${name}` strings. For each
  candidate it probes contest ids `cid + 1`, `cid` and `cid - 1`. It then
  records the candidate's own identity, dropped or not. A candidate that hit
  a probe is skipped; otherwise it is appended. The loop stops at 100 kept
  problems. `Dedup` is proved equal to the pure specification `Ladder`:
  the first 100 of `Survivors`, i.e. the candidates that are no near
  duplicate of any earlier candidate.
- **Request handling** (`LadderRoute`). `GetLadder` takes the cache as a
  map, the two optional parameters, and the store's answer as an input
  value. It returns the trace of effects (cache get, store query, response,
  cache set, in order) and the new cache. It is proved equal to the
  specification function `Serve`, and the route's promises are lemmas
  about `Serve`.

The model keeps the code's behaviour even where that behaviour looks unintended:

- A fresh request is answered with the raw fetched list (line 80), while
  the cache receives the deduped ladder (line 82). The model keeps this
  asymmetry; `FreshAndCachedResponsesDiffer` shows two identical requests
  getting different payloads.
- The cache key is built from the parameter text, not from the parsed
  integers, so `"01200"` and `"1200"` reach different entries for one
  bucket (`KeyDependsOnSpelling`).
- An empty parameter is falsy in JavaScript and is reported as missing.
- A cached empty list is an array, hence truthy, so it counts as a hit.

## Model

| member | source | states |
|---|---|---|
| `Decimal.Parse` | backend/src/routes/api/ladder.ts:28 | a parameter that parses is non-empty and holds no colon |
| `Decimal.IntToString` | backend/src/routes/api/ladder.ts:66 | the rendering of a contest id in a seen-set key is non-empty and holds no colon |
| `Decimal.ParseRendered` | backend/src/routes/api/ladder.ts:62-66 | parsing the rendering of any integer gives that integer back, so distinct contest ids render differently |
| `Decimal.LeadingZero` | backend/src/routes/api/ladder.ts:13-14 | a leading zero does not change the parsed value |
| `Decimal.SplitAtColon` | backend/src/routes/api/ladder.ts:66-71 | a key `<prefix>:<rest>` with a colon-free prefix determines both prefix and rest, in both directions |
| `CachePolicy.JsRemainder` | backend/src/routes/api/ladder.ts:15 | the JavaScript remainder is `a - m * q` for some integer `q`, strictly inside `(-m, m)`, with the sign of the dividend |
| `CachePolicy.JsRemainderZero` | backend/src/routes/api/ladder.ts:15 | the truncating remainder by 100 is zero iff the Euclidean one is, so the test is plain divisibility |
| `CachePolicy.IsEligibleForCache` | backend/src/routes/api/ladder.ts:12-19 | eligible iff both parameters parse, both values are multiples of 100 and `end - start == 100`; a parameter that does not parse is never eligible |
| `CachePolicy.EligibleBuckets` | backend/src/routes/api/ladder.ts:15 | for parsed parameters, eligible iff the window is `[100k, 100k + 100)` for some integer `k` |
| `CachePolicy.CacheKey` | backend/src/routes/api/ladder.ts:35 | the key `ladder:<startRating>:<endRating>` from the raw texts, used for both the lookup and the store (line 82); its properties are `CacheKeyInjective` and `KeyDependsOnSpelling` |
| `CachePolicy.CacheKeyInjective` | backend/src/routes/api/ladder.ts:35 | for parameters accepted by the model's digits-only parser, equal keys iff equal start text and equal end text |
| `CachePolicy.KeyDependsOnSpelling` | backend/src/routes/api/ladder.ts:35 | `"01200"` and `"1200"` parse alike and are both eligible with `"1300"`, yet their keys differ |
| `CachePolicy.NarrowWindowIneligible` | backend/src/routes/api/ladder.ts:12-19 | the window 1200 to 1250 is not eligible; 1200 to 1300 is |
| `Problems.IdentityKey` | backend/src/routes/api/ladder.ts:66-71 | the seen-set entry `${cid}:${name}`; `IdentityKeyInjective` states that it identifies the pair |
| `Problems.IdentityKeyInjective` | backend/src/routes/api/ladder.ts:66-71 | two `${contestId}:${name}` entries are equal iff contest id and name are both equal |
| `DedupWindow.LadderLimit` | backend/src/routes/api/ladder.ts:9 | the ladder's length bound, 100; `Ladder` and `Dedup` are stated against it |
| `DedupWindow.FetchLadderLimit` | backend/src/routes/api/ladder.ts:10 | the query's limit, 120; `FreshRequest` shows it is the limit the store is asked for and that it exceeds `LadderLimit` |
| `DedupWindow.DeltaContestIds` | backend/src/routes/api/ladder.ts:58 | the probe offsets `[1, 0, -1]` in the source's order; `ProbeFindsEarlier` and `ProbeHitIsEarlier` show they cover exactly the contest ids at most one away |
| `DedupWindow.Adjacent` | backend/src/routes/api/ladder.ts:65-70 | same name and contest ids at most one apart, the relation the three probes test; `NearDuplicateBySeenKeys` proves the probes decide it |
| `DedupWindow.IsNearDuplicate` | backend/src/routes/api/ladder.ts:58-70 | some earlier candidate is `Adjacent` to this one, the independent definition `NearDuplicateBySeenKeys` relates to the string probes |
| `DedupWindow.Survivors` | backend/src/routes/api/ladder.ts:60-75 | the unbounded filter is no longer than its input and only holds input problems |
| `DedupWindow.Ladder` | backend/src/routes/api/ladder.ts:76-78 | the ladder holds at most 100 problems, is a prefix of the survivors, and is all of them when shorter than 100 |
| `DedupWindow.SurvivorsStep` | backend/src/routes/api/ladder.ts:63-75 | processing candidate `i` appends it iff it is no near duplicate of the candidates before it |
| `DedupWindow.SeenKeys` | backend/src/routes/api/ladder.ts:56-71 | the seen set after processing a prefix of the candidates; `SeenKeysRecord` and `SeenKeysOrigin` prove it holds exactly the processed candidates' identities, dropped ones included |
| `DedupWindow.SeenKeysStep` | backend/src/routes/api/ladder.ts:71 | processing candidate `i` adds its own identity to the seen set, kept or dropped |
| `DedupWindow.SeenKeysRecord` | backend/src/routes/api/ladder.ts:71 | every processed candidate's identity is in the seen set |
| `DedupWindow.SeenKeysOrigin` | backend/src/routes/api/ladder.ts:56-71 | every seen-set entry is the identity of a processed candidate |
| `DedupWindow.ProbeFindsEarlier` | backend/src/routes/api/ladder.ts:65-70 | an earlier candidate with the same name and a contest id at most one away is hit by one of the three probes |
| `DedupWindow.ProbeHitIsEarlier` | backend/src/routes/api/ladder.ts:65-70 | a probe hit implies an earlier candidate with the same name and a contest id at most one away |
| `DedupWindow.NearDuplicateBySeenKeys` | backend/src/routes/api/ladder.ts:58-70 | the three probes hit iff the candidate is a near duplicate of an earlier candidate |
| `DedupWindow.DedupStep` | backend/src/routes/api/ladder.ts:60-75 | one loop iteration takes the seen set and the kept list of a prefix to those of the next prefix |
| `DedupWindow.SurvivorsPrefix` | backend/src/routes/api/ladder.ts:60-79 | the survivors of an input prefix are a prefix of the survivors of the whole input |
| `DedupWindow.LadderOfFullPrefix` | backend/src/routes/api/ladder.ts:76-78 | when a prefix of the input yields 100 survivors, those are the ladder |
| `DedupWindow.LadderIgnoresLaterCandidates` | backend/src/routes/api/ladder.ts:76-78 | with at least 100 survivors the ladder has exactly 100 problems, and candidates appended after the input cannot change it |
| `DedupWindow.KeptWhenFresh` | backend/src/routes/api/ladder.ts:63-75 | a candidate that repeats nothing before it, met while fewer than 100 are kept, is in the ladder at the next free position |
| `DedupWindow.KeptIndicesPickFresh` | backend/src/routes/api/ladder.ts:60-79 | the survivors are the input at strictly increasing positions, and each repeats no candidate before its position |
| `DedupWindow.LadderPicksFresh` | backend/src/routes/api/ladder.ts:60-79 | the ladder is a subsequence of the input in popularity order, and none of its problems repeat a candidate processed before it, dropped ones included |
| `DedupWindow.PicksFreshNoAdjacentPair` | backend/src/routes/api/ladder.ts:65-75 | problems picked in order, each fresh against all earlier candidates, contain no pair with equal name and contest ids at most one apart |
| `DedupWindow.LadderNoAdjacentPair` | backend/src/routes/api/ladder.ts:60-79 | no two ladder problems share a name with contest ids at most one apart |
| `DedupWindow.MirroredProblemDropped` | backend/src/routes/api/ladder.ts:60-79 | `[(1, "A"), (2, "A"), (5, "B")]` gives `[(1, "A"), (5, "B")]` |
| `DedupWindow.DroppedDuplicatesStillRecorded` | backend/src/routes/api/ladder.ts:71-74 | the chain `A@1, A@2, A@3` gives `[A@1]`, although `A@3` is two contest ids from `A@1` |
| `DedupWindow.Dedup` | backend/src/routes/api/ladder.ts:56-79 | the loop with its seen set, three probes, record-after-probe and stop at 100 computes exactly `Ladder` of its input |
| `LadderRoute.IsMissing` | backend/src/routes/api/ladder.ts:24 | a parameter is missing when absent or empty, JavaScript's falsiness for a query string; `RejectsBadParameters` states its consequence |
| `LadderRoute.Serve` | backend/src/routes/api/ladder.ts:21-84 | the handler's outcome, path by path, as the specification `GetLadder` is proved against; the lemmas below state what each path does |
| `LadderRoute.ServeRespondsOnce` | backend/src/routes/api/ladder.ts:24-80 | every path of the handler sends exactly one response |
| `LadderRoute.GetLadder` | backend/src/routes/api/ladder.ts:21-84 | the handler's effect trace and new cache are exactly those of `Serve` |
| `LadderRoute.RejectsBadParameters` | backend/src/routes/api/ladder.ts:24-30 | a missing or empty parameter gives the "Missing" 400 error, else an unparsable one gives the "Invalid" 400 error; no cache access, no fetch, cache unchanged |
| `LadderRoute.NonNumericRatingRefused` | backend/src/routes/api/ladder.ts:28-30 | `startRating = "abc"` is refused as invalid, with nothing else done |
| `LadderRoute.CacheHitShortCircuits` | backend/src/routes/api/ladder.ts:32-39 | an eligible request with a cached entry reads the cache, answers with that entry, fetches nothing and leaves the cache unchanged |
| `LadderRoute.FreshRequest` | backend/src/routes/api/ladder.ts:32-83 | a request not served from the cache has exactly the effects cache read (iff eligible), query with limit 120, response with the raw fetched list, cache write of `Ladder` of it (iff eligible), in that order; the new cache holds that ladder under its key iff eligible; and 120 exceeds the ladder bound 100 |
| `LadderRoute.StageOrderEffectsOnce` | backend/src/routes/api/ladder.ts:32-83 | a trace whose effects go strictly forward through cache read, query, response, cache write has each of cache read, query and cache write at most once, and every cache write after every cache read and response |
| `LadderRoute.ServeEffectsAtMostOnce` | backend/src/routes/api/ladder.ts:32-83 | on every path the effects go strictly forward through cache read, query, response, cache write; hence the cache is read, the store queried and the cache written at most once each, and a cache write comes after the cache read and after the response |
| `LadderRoute.FetchFailureIsServerError` | backend/src/routes/api/ladder.ts:32-54 | a failed fetch has exactly the effects cache read (iff eligible), query with limit 120, server error; it never writes the cache and leaves it unchanged |
| `LadderRoute.IneligibleBypassesCache` | backend/src/routes/api/ladder.ts:32-39 | a request whose window is not eligible neither reads nor writes the cache |
| `LadderRoute.CacheWrittenOnlyWithLadder` | backend/src/routes/api/ladder.ts:80-83 | the cache is either unchanged or has the ladder of a successful fetch stored under the key of a valid, eligible request |
| `LadderRoute.ServePreservesLadders` | backend/src/routes/api/ladder.ts:80-83 | if every cached value holds at most 100 problems with no mirrored pair, that stays true after any request |
| `LadderRoute.RepeatIsServedFromCache` | backend/src/routes/api/ladder.ts:32-83 | after a fresh eligible request succeeds, the identical request is a hit that returns the stored ladder and fetches nothing, whatever the store would answer |
| `LadderRoute.FreshAndCachedResponsesDiffer` | backend/src/routes/api/ladder.ts:80-82 | for `[A@1, A@2]` on 1200 to 1300, the first response carries both problems and the repeated one only `A@1` |

## Left out

- The Express router, the extraction from `req.query` (a repeated parameter arriving as an array, say), and the `sendSuccess`/`sendError` formatting. A response is `Success`, `ClientError` (HTTP 400) or `ServerError`. It keeps the first message argument and drops the success message and the error detail text.
- The Mongo query. Its outcome is an input of the handler, and the handler's trace records the query with its raw bounds and the limit 120. The `$gte`/`$lt` comparison, the sort by descending frequency and the limit itself belong to the store. The model takes the candidate list in the order given and of any length.
- The `cache` module's internals (expiry, capacity, concurrent access). The cache is a plain map threaded through the handler.
- `parseInt` in full. `Parse` accepts exactly an optional sign followed by one or more decimal digits. Leading whitespace and trailing text (`"1200abc"`), which `parseInt` tolerates, make a parameter invalid in the model, not eligible. The same holds inside `IsEligibleForCache`. Because the model's parser rejects any text holding a colon, `CacheKeyInjective` holds in the model but not in the program: there `startRating = "1200:1300", endRating = "1300"` and `startRating = "1200", endRating = "1300:1300"` both pass validation, both are eligible for 1200 to 1300, and both use the key `ladder:1200:1300:1300`.
- Floating-point behaviour of JavaScript numbers: ratings and contest ids beyond 2^53 lose precision in the source, while the model's integers are exact.
- Contest ids are held as parsed integers. The `parseInt(contestId, 10)` of the stored string, and the `NaN:<name>` keys a non-numeric contest id would produce, are not modelled.
- The `frequency` score. It only orders the fetched list, and that order is taken as given.
- Concurrency between requests. Each request is one sequential step from one cache to the next.
