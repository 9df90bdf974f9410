# Password-reset and analytics-cache rules, verified

The repository is a set of prompt-engineering templates. Two of its worked
examples carry a Python listing with real decision logic, and this project
models that logic in Dafny:

- **Password reset** (`examples/python/security-example.py`).
  - An in-memory sliding-window rate limiter admits at most 3 attempts per key in 15 minutes.
  - A reset request stores a hashed, 15-minute, single-use token for a registered email.
    Its answer is the same generic success in every case.
  - A reset submission looks the token's digest up, then checks reuse and expiry, in that order.
    A successful reset changes the password and invalidates the token.
- **Analytics cache** (`examples/python/performance-example.py`).
  - Data is classed by age into hot, warm and cold tiers.
  - Hot and warm data is read from Redis; a miss is written back with a TTL of 300 (hot) or 600 (warm) seconds, after which Redis no longer returns it.
  - Cold data always goes to the database.
  - The cache key is built from the query, and a whitelisted SQL filter clause from the filters.
  - A batch of results keeps input order and replaces each failed query by an empty result.

The repository's prose also describes a template-selection decision tree.
No code implements it, so it is not modelled.

Layout:

- `wrappers.dfy`: module `Wrappers`, the `Option` type.
- `rate_limiter.dfy`: module `RateLimiting`.
  - Class `RateLimiter` holds the attempts map and updates it in place.
  - Pure `Prune` and `Admit` specify one call.
  - `ReplayKey` replays successive calls on one key, to state the limit over a whole run.
  - `CallsFollowReplay` drives a limiter through such a run and shows it keeps the history `ReplayKey` gives.
- `password_reset.dfy`: module `PasswordReset`.
  - Class `PasswordResetService` owns the user table (a map from user id to row) and the rate limiter.
  - Ghost functions `RequestOutcome` and `SubmitOutcome` specify its two methods.
  - Lemmas relate the two operations.
- `analytics.dfy`: module `Analytics`.
  - Tier, TTL and key functions, and the filter-clause method with its specification.
  - Class `AnalyticsService`, whose `cache` map stands for Redis.
  - The batch-assembly method.

Modelling choices:

- Time is an integer number of seconds passed in as `now`.
- SHA-256 of a token and bcrypt of a password are symbolic constructors (`Sha256Hex(token)`, `Bcrypt(password)`).
  Distinct inputs therefore give distinct digests.
- The random token of a request is a parameter.
- An instant carries its ISO-8601 text next to its epoch seconds.
- The MD5 hex digest of a query's filters is a parameter.

## Model

| member | source | states |
|---|---|---|
| `RateLimiting.Prune` | examples/python/security-example.py:120-124 | the kept list has, for every time, exactly as many copies as the history has when that time is strictly later than the cutoff, and none otherwise |
| `RateLimiting.Admit` | examples/python/security-example.py:114-134 | a call is refused exactly when at least 3 recorded attempts lie strictly after `now - 15 min` |
| `RateLimiting.RateLimiter.constructor` | examples/python/security-example.py:109-112 | a new limiter has no recorded attempts |
| `RateLimiting.RateLimiter.CheckRateLimit` | examples/python/security-example.py:114-134 | decides as `Admit` does; only the given key's entry changes, and it becomes the pruned history plus `now` when admitted, or the pruned history alone when refused; keeps every stored list at most 3 long |
| `RateLimiting.PruneAppend` | examples/python/security-example.py:120-124 | pruning a concatenation is the concatenation of the pruned parts, so the kept attempts stay in their original order |
| `RateLimiting.ReplayStep` | examples/python/security-example.py:114-134 | the history after calls 0..n on one key is one more `Admit` at call n on the history after calls 0..n-1 |
| `RateLimiting.CallsFollowReplay` | examples/python/security-example.py:106-134 | a fresh limiter called on one key at each of the given times ends with the history `ReplayKey` gives for that key, and each call's decision is `Admit` on the history left by the calls before it |
| `RateLimiting.PruneOrderedDropsPrefix` | examples/python/security-example.py:120-124 | on a time-ordered history, pruning removes a prefix, and every removed attempt is at or before the cutoff |
| `RateLimiting.ReplayInvariant` | examples/python/security-example.py:114-134 | over successive calls on one key with a clock that never goes back: the stored list is the tail of the admitted attempts, everything admitted before that tail is outside the latest window, and admitted attempts are ordered |
| `RateLimiting.AdmittedAttemptsSpaced` | examples/python/security-example.py:106-134 | with a clock that never goes back, any 4 consecutive admitted attempts on a key span at least 15 minutes, so no 15-minute window admits more than 3; the stored list never exceeds 3 entries |
| `PasswordReset.HashToken` | examples/python/security-example.py:101-103 | a token is stored as the digest of that token |
| `PasswordReset.HashTokenInjective` | examples/python/security-example.py:101-103 | distinct tokens have distinct digests |
| `PasswordReset.Verdict` | examples/python/security-example.py:263-294 | for the row holding the digest: a used token gives USED_TOKEN; otherwise `now > expiry` gives EXPIRED_TOKEN; otherwise success with "Password reset successful."; every failure carries "Invalid or expired reset token." |
| `PasswordReset.Redeemed` | examples/python/security-example.py:296-307 | a reset row keeps its email, gets the bcrypt hash of the new password and the change time, has no outstanding token and is marked used |
| `PasswordReset.Issued` | examples/python/security-example.py:175-189 | a requested row holds the digest of the new token, expiring 15 minutes after `now`, marked unused, with email, password hash and password-change time unchanged |
| `PasswordReset.SubmitOutcome` | examples/python/security-example.py:242-320 | an unknown digest gives INVALID_TOKEN; every failure leaves the table unchanged with the generic failure message; rows not holding the digest never change; the set of users, unique digests, unique emails and "no used token outstanding" are preserved |
| `PasswordReset.SubmitByHolder` | examples/python/security-example.py:245-307 | submitting the token held by a row applies `Verdict` to that row, and on success only that row becomes `Redeemed` |
| `PasswordReset.ResubmitIsInvalid` | examples/python/security-example.py:296-307 | after a successful reset, submitting the same token again gives INVALID_TOKEN |
| `PasswordReset.UsedTokenNeverReported` | examples/python/security-example.py:263-274 | while every outstanding token is unused (which request and submit preserve), USED_TOKEN is never returned |
| `PasswordReset.RequestOutcome` | examples/python/security-example.py:154-224 | the answer is always success with "If that email exists, we've sent reset instructions.", whether rate limited, registered or not; a refused request changes nothing; rows with another email never change; emails stay unique |
| `PasswordReset.RequestByHolder` | examples/python/security-example.py:168-189 | an admitted request for a registered email issues the token to that email's row only |
| `PasswordReset.RequestKeepsDigestsUnique` | examples/python/security-example.py:175-189 | issuing a token whose digest no row holds keeps token digests unique |
| `PasswordReset.RequestThenSubmit` | examples/python/security-example.py:175-189 | after an admitted request, the issued token resets that user's password exactly when submitted at or before `now + 15 min`, and is refused as EXPIRED_TOKEN after |
| `PasswordReset.RateLimitKey` | examples/python/security-example.py:155 | the limiter key is "reset:" followed by the email |
| `PasswordReset.PasswordResetService.constructor` | examples/python/security-example.py:136 | the service starts from a consistent table and a fresh, empty rate limiter |
| `PasswordReset.PasswordResetService.RequestPasswordReset` | examples/python/security-example.py:139-224 | consults the limiter under "reset:" + email, then updates the table as `RequestOutcome` says, and returns its constant answer |
| `PasswordReset.PasswordResetService.SubmitPasswordReset` | examples/python/security-example.py:226-320 | returns the result and leaves the table that `SubmitOutcome` gives |
| `Analytics.GetCacheStrategy` | examples/python/performance-example.py:180-194 | age under 24 h (negative ages included) is HOT, 24 h up to but excluding 7 days is WARM, 7 days or more is COLD |
| `Analytics.StrategyMonotone` | examples/python/performance-example.py:187-194 | an older start date never gives a hotter tier |
| `Analytics.WriteTtl` | examples/python/performance-example.py:159-163 | a miss is written back exactly for the tiers that are read from the cache, with TTL 300 s when hot and 600 s when warm; cold results are not written |
| `Analytics.FilterHash` | examples/python/performance-example.py:206-209 | no filters (absent or empty) give ""; otherwise the first 8 characters of the digest |
| `Analytics.BuildCacheKey` | examples/python/performance-example.py:196-217 | the key starts with "metric:" and ends with the filter hash |
| `Analytics.CacheKeyLength` | examples/python/performance-example.py:196-217 | filters add at most 8 characters to the key, exactly 8 with an MD5 digest, none without filters |
| `Analytics.FilteredKeyDiffers` | examples/python/performance-example.py:206-217 | a query with filters never shares its key with the same query without filters |
| `Analytics.ClauseFor` | examples/python/performance-example.py:321 | the condition is "AND ", the field, " = :" and the field again: the field name is both column and bind parameter, with no filter value in the text |
| `Analytics.ClauseForInjective` | examples/python/performance-example.py:321 | distinct fields give distinct conditions |
| `Analytics.WhitelistedClauses` | examples/python/performance-example.py:315-321 | at most one condition per filter entry; its partner lemmas `WhitelistedClausesAppend` and `WhitelistedClausesExact` give order and membership |
| `Analytics.FilterClause` | examples/python/performance-example.py:307-323 | absent or empty filters give ""; a single whitelisted condition is returned as is; `NoWhitelistedFieldNoClause` and `FilterClauseIgnoresValues` give the rest |
| `Analytics.JoinWithSpaces` | examples/python/performance-example.py:323 | joining no parts gives "", joining one part gives that part |
| `Analytics.BuildFilterClause` | examples/python/performance-example.py:307-323 | absent or empty filters give ""; otherwise the space-joined conditions `AND f = :f` of the whitelisted fields, in input order |
| `Analytics.WhitelistedClausesAppend` | examples/python/performance-example.py:319-321 | the conditions of concatenated filters are the concatenated conditions, so input order is kept |
| `Analytics.WhitelistedClausesExact` | examples/python/performance-example.py:315-321 | a condition appears exactly when a field among user_id, tenant_id, event_type asks for it; other fields are dropped |
| `Analytics.FilterClauseIgnoresValues` | examples/python/performance-example.py:319-321 | the clause depends on the filter fields only, never on their values |
| `Analytics.NoWhitelistedFieldNoClause` | examples/python/performance-example.py:312-323 | non-empty filters without a whitelisted field give "" |
| `Analytics.MetricOutcome` | examples/python/performance-example.py:134-178 | a result is served from the cache exactly when the tier is hot or warm and a live, non-empty entry sits under the key, and then the cache is unchanged; otherwise the queried rows are served uncached |
| `Analytics.ColdBypassesCache` | examples/python/performance-example.py:134-178 | for cold data the queried rows are returned uncached and the cache is neither read nor written |
| `Analytics.WarmOrHotUsesCache` | examples/python/performance-example.py:138-163 | for hot and warm data, a live, non-empty cached list is returned with `cached` true and the cache untouched; an absent, expired or empty one is a miss that returns the queried rows uncached and stores them under the key at `now` with TTL 300 (hot) or 600 (warm) |
| `Analytics.RepeatedQueryHits` | examples/python/performance-example.py:138-163 | asking again while the data is still hot or warm is a cache hit, returning the non-empty rows the first call returned, exactly while their entry is live; after a first call that missed, exactly when the second call comes before `now` plus the TTL it wrote |
| `Analytics.AnalyticsService.constructor` | examples/python/performance-example.py:109-117 | the service starts from the given cache |
| `Analytics.AnalyticsService.GetMetric` | examples/python/performance-example.py:119-178 | returns the result and leaves the cache that `MetricOutcome` gives |
| `Analytics.BatchGetMetrics` | examples/python/performance-example.py:336-369 | as many results as queries, position by position; a failed query becomes the empty, uncached result and a completed one is passed through unchanged |

## Left out

- Database, Redis, e-mail and logging I/O (SQLAlchemy, `redis.asyncio`, `email_service`, `audit_logger`, `structlog`).
  The user table and the cache are maps. The rows a query returns are an input.
- Concurrency and timing: `asyncio.Semaphore`, `asyncio.gather` and the 0.1 s `asyncio.sleep`.
  The constant-time and enumeration-timing claims are not modelled either.
  A batch is modelled from the per-query outcomes that `gather` returns.
- `query_time_ms`, `data_freshness` and the float conversions of query rows: timing and database values.
- `generate_reset_token`, `hash_token`, `bcrypt`, `hashlib.md5` and `json.dumps` are symbolic or inputs.
  The 64-hex-character token format and the random bcrypt salt are not modelled.
- `constant_time_compare` is never called in the listing; token lookup compares digests in the database query.
- The pydantic request models (`PasswordResetRequest`, `PasswordResetSubmit`) validate at the HTTP boundary, outside the two service functions.
- `_query_database`'s SQL text and row mapping, and the DDL block: no decision logic.
- Two `datetime.utcnow()` readings in one call are one `now`.
  The ISO-8601 rendering of an instant is carried as text, not computed.
- Redis expiry is modelled by time: an entry records when it was written and its TTL, and a read at or after their sum finds nothing. Expired entries stay in the map but are never read; Redis's eviction under memory pressure is not modelled.
  Redis read and write errors, which the service swallows, are not modelled.
  Such a read error would act as a miss; a write error would leave the cache unchanged.
- `scalar_one_or_none` raises when several rows match.
  The service's invariant rules this out: emails are unique and token digests are unique.
  `PasswordReset.PasswordResetService.RequestPasswordReset` requires that no row already holds the new token's digest; this stands for the 256 bits of randomness in the token.
- A row with a token hash but no expiry, where the comparison would raise, cannot be represented: hash and expiry are one optional pair.
- `ResetError.RATE_LIMITED` is declared but never returned by the source; the model declares it and never produces it either.
- The rate limiter never forgets keys; the model keeps them too.
- RateLimiting.AdmittedAttemptsSpaced: holds for a clock that never goes back. With a clock that jumps backwards, the window is not a guarantee.
- Analytics.AnalyticsService.GetMetric: each call is modelled alone. Calls in a concurrent batch, interleaving on the shared cache, are not.
