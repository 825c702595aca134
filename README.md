# WF Suite Release Proxy — release pipeline model

A Dafny model of the core of a small Flask service (`app.py`) that publishes
the releases of a private GitHub repository without exposing it. The model
covers the four pieces of the service that carry logic:

- **Rate limiter** (`rate_limit.dfy`, module `RateLimit`). This is the sliding-window
  decorator. Each decorated endpoint keeps a log of admission times. A call
  first drops every time that is 60 seconds old or older. It is refused with
  429 when the remaining log has reached the threshold. Otherwise it records
  its own time. `Limiter` is a class whose `log` field the `Admit` method
  updates in place. `Prune`, `Admits` and `NextLog` are its specification.
- **Release cache** (`release_cache.dfy`, module `Cache`). This is the single
  `(data, timestamp)` slot. It is valid while both halves are set and the
  entry is younger than five minutes. It is replaced as a whole after a
  successful fetch.
- **Release projection** (`releases.dfy`, module `Releases`, and
  `release_filter.dfy`, module `ReleaseFilter`). Raw upstream releases and
  assets are datatypes whose keys may be absent, `null` or present.
  `Project` is the reference definition. `FilterReleases`, `FilterRelease`
  and `FilterAssets` are the source's nested loops, proved to compute it.
- **`/releases` request path** (`endpoint.dfy`, module `Endpoint`).
  `GetReleases` fixes the decision order: a valid cache, then the token, then
  upstream. `HandleReleases` puts the limiter in front of it. The upstream
  request is an input (`Upstream`): either the decoded release list or a
  failed request. Every method also returns whether upstream was contacted.

Time is whole seconds, passed in as `now`.

Facts about `app.py` that the model keeps:
- `app.py` serves a single data endpoint, `/releases`, behind one limiter of 30
  calls per minute.
- `tag_name` and `html_url` are required only for a release that is actually
  published. A draft, or a release without `.exe` assets, is skipped before
  they are read.
- The `name` default applies only when the key is missing. A `name` sent as
  `null` is published as `null`.

## Model

| member | source | states |
|---|---|---|
| `RateLimit.Prune` | app.py:50-52 | the pruned log is no longer than the log, and every time it keeps is less than 60 seconds before `now` |
| `RateLimit.PruneExact` | app.py:52 | pruning keeps each time inside the window with its full multiplicity and drops every time outside it, so the dropped entries are exactly those with `now - t >= 60` |
| `RateLimit.Admits` | app.py:54-55 | a log holding fewer entries than the threshold never refuses, and a threshold of 0 refuses every call |
| `RateLimit.NextLog` | app.py:52-57 | the log after a call grows by at most one entry, stays within the threshold if it was within it, and holds only times inside the window |
| `RateLimit.Limiter.constructor` | app.py:45 | a new limiter has an empty log and the given threshold |
| `RateLimit.Limiter.Admit` | app.py:49-58 | the call is admitted iff the pruned log holds fewer entries than the threshold; the new log is the pruned log, plus `now` when admitted; the log never exceeds the threshold |
| `RateLimit.NextLogWindow` | app.py:50-57 | after a call, every logged time is inside the window, and the log holds exactly the old times still in the window, plus `now` if and only if the call was admitted |
| `RateLimit.NextLogLength` | app.py:54-58 | a refused call leaves the pruned log with nothing appended; an admitted call makes it exactly one longer; the log stays within the threshold |
| `RateLimit.PruneKeepsAll` | app.py:52 | when every logged time is inside the window, pruning changes nothing |
| `RateLimit.FullWindowRefuses` | app.py:54-55 | with at least `max` calls logged inside the window, the next call is refused and the log is unchanged |
| `RateLimit.PruneDropsExpired` | app.py:52 | any logged time outside the window makes the pruned log strictly shorter |
| `RateLimit.AdmitsOnceOldestExpires` | app.py:52-58 | once the oldest logged call is 60 seconds old, a call is admitted again |
| `RateLimit.PruneSorted` | app.py:52 | pruning keeps a nondecreasing log nondecreasing |
| `RateLimit.NextLogSorted` | app.py:50-57 | with a clock that does not run back, the log stays in admission order |
| `Cache.ReleaseCache.constructor` | app.py:38-41 | the slot starts with both halves unset |
| `Cache.ReleaseCache.Put` | app.py:146-148 | the update replaces both halves together, with the timestamp set to `now`, and the slot is then valid |
| `Cache.ReleaseCache.IsValid` | app.py:62-68 | a slot is served only when both halves are set and the entry is less than five minutes old |
| `Cache.UnsetSlotInvalid` | app.py:62-65 | an empty or half-filled slot is never valid |
| `Cache.ValidUntilExpiry` | app.py:66-68 | a filled slot is valid exactly while it is less than five minutes old, whatever list it holds (an empty list included) |
| `Releases.GetOr` | app.py:137-141 | a present key yields its value; when no value is present the result comes from the default only if the key is missing, so a `null` value is kept as `null` |
| `Releases.AssetWellFormed` | app.py:124-128 | an asset without a string name cannot be read; an asset whose name does not end in `.exe` can always be read, because its download URL is never looked up |
| `Releases.ReleaseWellFormed` | app.py:117-140 | a release with `null` assets can be read only if it is a draft; a release with an empty asset list can always be read; a readable published release has `tag_name` and `html_url` keys |
| `Releases.PublishAsset` | app.py:126-131 | the public asset keeps the name; its download URL is set exactly when the source has one, and its size is `null` only when the source size is `null` |
| `Releases.Publish` | app.py:135-143 | the public release of a visible release carries at least one asset, all of them `.exe`; its name is `null` exactly when the source name is `null`, or missing with no usable tag |
| `Releases.Project` | app.py:116-144 | the projection of no releases is empty; a successful projection is no longer than its input and every release in it carries an asset |
| `Releases.PublishedAssets` | app.py:123-131 | the filtered assets are no more than the source assets, and each published name ends in `.exe` |
| `Releases.PublishedReleases` | app.py:116-144 | the output is no longer than the input, and every published release carries at least one asset |
| `Releases.PublishedAssetsAppend` | app.py:124-131 | the asset filter commutes with concatenation, so it keeps source order |
| `Releases.PublishedReleasesAppend` | app.py:117-144 | the release filter commutes with concatenation, so it keeps source order |
| `Releases.PublishedAssetsSound` | app.py:125-131 | every published asset is the public shape of a source asset whose name ends in `.exe` |
| `Releases.PublishedAssetsComplete` | app.py:125-131 | every source asset whose name ends in `.exe` is published |
| `Releases.PublishedReleasesSound` | app.py:117-144 | every published release is the public shape of a non-draft source release with an `.exe` asset |
| `Releases.PublishedReleasesComplete` | app.py:117-144 | every non-draft source release with an `.exe` asset is published |
| `Releases.ProjectAppend` | app.py:116-144 | projecting a concatenation concatenates the projections, so output order follows input order; one unreadable release anywhere fails the whole projection |
| `Releases.ProjectSingle` | app.py:117-144 | one release contributes its public shape if it is visible, nothing if it is a draft or has no `.exe` asset, and a failure if it cannot be read |
| `Releases.DraftDropped` | app.py:118-120 | a draft contributes nothing, whatever its assets |
| `Releases.ProjectSound` | app.py:116-144 | every release of a successful projection comes from a non-draft input release with an `.exe` asset |
| `Releases.ProjectComplete` | app.py:116-144 | every non-draft input release with an `.exe` asset appears in a successful projection |
| `Releases.PublishedAssetsExact` | app.py:123-134 | a published release carries exactly the `.exe` assets of its source: each of its assets is the public shape of one, and each one is among them |
| `Releases.PublishDefaults` | app.py:129-139 | a missing `name` becomes the tag, a missing `prerelease` false, a missing `body` empty, a missing asset `size` 0; a `null` name stays `null` |
| `Releases.SetupExeExample` | app.py:116-144 | a release with `setup.exe` (size 100) and `readme.txt` projects to one release with only `setup.exe`, and with defaults for `name` and `body` |
| `ReleaseFilter.FilterReleases` | app.py:116-144 | the release loop computes exactly the reference projection `Project`, including its failure on unreadable data |
| `ReleaseFilter.FilterRelease` | app.py:117-144 | one loop iteration succeeds iff the release is readable, and then yields its public shape exactly when it is visible |
| `ReleaseFilter.FilterAssets` | app.py:123-131 | the asset loop succeeds iff every asset is readable, and then yields exactly the published `.exe` assets in order |
| `ReleaseFilter.NotWellFormed` | app.py:157-159 | a single unreadable release fails the whole projection |
| `Endpoint.TokenConfigured` | app.py:94-96 | an unset or empty token counts as missing |
| `Endpoint.FetchedResponse` | app.py:109-159 | the answer is a release list exactly when upstream answered and every release can be read; a failed request is exactly the 502 case, and every other failure is 500 |
| `Endpoint.GetReleases` | app.py:85-159 | a valid cache is answered as stored, without the token, without upstream and without a cache change; a miss without a token gives 500 before any fetch; otherwise upstream decides (502 for a failed request, 500 for unreadable data, the projection otherwise), and only a successful projection is cached, stamped `now` |
| `Endpoint.HandleReleases` | app.py:43-60 | a refused call answers 429 without reaching the handler, upstream or the cache; an admitted call behaves as `GetReleases`; the limiter's log advances as `NextLog` |
| `Endpoint.RepeatWithinTtl` | app.py:89-91 | two requests less than five minutes apart: once the first has stored a list, the second returns the same list without contacting upstream |
| `Endpoint.RefetchAfterTtl` | app.py:62-68 | a request five minutes or more after the list was stored goes upstream again whenever the token is set |
| `Endpoint.BurstOfListingRequests` | app.py:83-84 | of 31 listing requests less than a minute after the first, the first 30 pass the limiter and the 31st gets 429 without contacting upstream |
| `Endpoint.BurstStep` | app.py:50-58 | inside such a burst nothing is pruned, so the i-th call is admitted exactly while fewer than the threshold are logged |

## Left out

- Flask routing, `jsonify`, CORS, the error handlers and `home()` are HTTP plumbing. `health_check` is a network probe; its only core step, the cache-validity check, is `ReleaseCache.IsValid`.
- The GitHub request itself is an input of type `Upstream`: headers, the token in the header, the timeout, `raise_for_status` and JSON decoding are not modelled. A body that does not decode as JSON is not modelled separately.
- JSON values of an unexpected type are not modelled. Each key is absent, `null`, or holds the type the code expects. The truthiness of a non-boolean `draft` is therefore not covered.
- Logging, the environment variables, and the startup exit when the token is missing are not modelled. The token is a parameter of the request path.
- Time is whole seconds. `time.time()` returns a float and `datetime.now()` a datetime; both become the one parameter `now`.
- There is no locking around the shared log and cache. Concurrent requests are not modelled.
- `RateLimit.Limiter.constructor`: the threshold is a `nat`. A negative threshold, which the service never uses, would refuse every call just as 0 does.
