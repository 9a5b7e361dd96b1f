# Offline caching for the İmsakiye 2026 web app, modelled in Dafny

This project models the two cache-coordination components of the app and
proves properties of them.

- **Geolocation cache** (`pwa-loader.js`). It replaces
  `navigator.geolocation.getCurrentPosition`. One record sits in
  `localStorage` under `cached_geolocation`. A record younger than 30 days
  whose `coords` are truthy is handed straight to the success callback as a
  synthesized position. When online, a silent sensor refresh follows.
  Anything else reads the sensor and, when it answers with a fix, stores
  it.
- **Install-banner dismissal window** (`pwa-loader.js`). The banner stays
  hidden for seven days after the user closes it.
- **Service worker** (`sw.js`). It keeps one cache generation,
  `imsakiye-v3-local-icon`:
  - install fills it with the asset list, all or nothing;
  - every fetch is served stale-while-revalidate;
  - activation deletes every other cache of the origin.

Each handler is a pure transition. The platform is replaced by explicit
inputs:
- the stored strings;
- `Date.now()` at the call and when the sensor answers;
- `navigator.onLine`;
- the sensor's answer;
- the network's answer for each request;
- the JSON codec and string-to-number conversion. These form the
  `JsValues.JsRuntime` record, with `parse` answering `None` when
  `JSON.parse` throws.

Outputs are the new storage plus a trace of what happened: sensor reads,
writes, and callback invocations in order for the geolocation cache; the
reply and the requests sent to the network for the service worker.

Modules:
- `Wrappers`: the `Option` type.
- `JsValues`: parsed JSON values, `undefined`, truthiness, property reads,
  and `ToNumber` as `now - timestamp` applies it.
- `GeoCache`: the geolocation cache.
- `GeoProperties`: its properties across records and calls.
- `InstallBanner`: the dismissal check, with `parseInt` and the decimal text
  the close handler stores.
- `CacheStorage`: the Cache Storage API as the worker uses it. Caches are
  kept oldest first. `match` answers from the oldest cache holding a GET
  request. `put` refuses non-GET requests and 206 responses. `open` creates
  a missing cache at the end.
- `ServiceWorker`: the constants and the three handlers.
- `SwProperties`: properties across several events.

Two behaviours of `sw.js` are easy to overlook, and the model keeps both:
- **Misses with a body are not stored.** The network is asked on every
  request, hit or miss, and its response is copied into the current
  generation only after `caches.open` settles (sw.js:36-37). On a miss that
  same response has already been handed to `respondWith`, which has taken
  a reader on its body, so `networkResponse.clone()` throws and `cache.put`
  is never reached. A miss is therefore stored only when the response has a
  null body (204, 304, opaque); any other miss stays a miss, and the opened
  cache is the only change (`ServiceWorker.Refreshes`,
  `SwProperties.MissStoredOnlyWithoutBody`). On a hit nothing reads the
  network response, so the clone succeeds and the entry is refreshed.
- **Lookups search every cache.** `caches.match` consults every cache of
  the origin, not only the current generation. The fetch handler over any
  storage therefore answers from an older cache that holds the request, and
  the refreshed copy in the current generation stays unseen behind it
  (`SwProperties.OlderGenerationShadows`). For this worker the case arises
  only if an older cache survives activation: fetch events wait while the
  worker is activating, and `event.waitUntil` (sw.js:53) holds activation
  until every `caches.delete` has settled.

Of the reasons the Cache API has for refusing `cache.put`, the model keeps
two: a non-GET request and a 206 response. URL-scheme and `Vary` refusals
are not modelled (see "Left out"). So a network response of any other
status answering a cache hit is written over the cached copy, including a
404 or 500 answering a request whose cached copy was fine (`ServiceWorker.HandleFetch`,
`SwProperties.RefreshedEntryServedNext`). `cache.addAll` likewise rejects
the whole batch when any response is not ok or is a 206.

## Model

| member | source | states |
|---|---|---|
| GeoCache.Write | pwa-loader.js:79-82 | storing a fix replaces the single entry under `cached_geolocation` with the record text; every other key keeps its value |
| GeoCache.Decide | pwa-loader.js:23-46 | a hit needs a non-empty stored string that parses and truthy `coords`, and the served coordinates are the parsed record's `coords`; the age test is stated by `GeoProperties.NumericTimestampAge`, `GeoProperties.FalsyTimestampReadsAsEpoch` and `GeoProperties.FreshnessBoundary` |
| GeoCache.Refresh | pwa-loader.js:65-73 | the silent refresh reads the sensor exactly when online, never calls back, writes a fix stamped with the answer time, and leaves storage unchanged offline or on sensor failure |
| GeoCache.RefreshTrace | pwa-loader.js:65-73 | the refresh trace has no caller callback and one sensor read exactly when online, and its writes replay to the refresh's storage |
| GeoCache.ServeFromCache | pwa-loader.js:46-73 | on a hit, success comes first and only once; it carries the stored latitude/longitude, the stored accuracy or 100 when falsy, null altitude/altitudeAccuracy/heading/speed, and timestamp now; a sensor read follows only when online; storage changes only on a refreshed fix |
| GeoCache.ReadSensor | pwa-loader.js:75-85 | on a miss the sensor is read once; a fix is stored (stamped with the answer time) before success receives the genuine position; a failure goes to the error callback once and storage is unchanged |
| GeoCache.GetCurrentPosition | pwa-loader.js:22-86 | a call changes no storage key other than `cached_geolocation` |
| GeoCache.CallbacksFireExactlyOnce | pwa-loader.js:22-86 | for every stored value and sensor answer, exactly one caller callback fires (never both, never twice), at most one sensor read is issued, and the final storage is the trace's writes applied in order |
| GeoProperties.FreshnessBoundary | pwa-loader.js:30-34 | a record written at `w` is served exactly when `now - w` is strictly below 30 days; at exactly 30 days it is a miss; a hit serves that record's coordinates |
| GeoProperties.FalsyTimestampReadsAsEpoch | pwa-loader.js:30-34 | a missing or falsy timestamp counts as 0, so the record is served only while `now` is below 30 days and its coords are truthy |
| GeoProperties.NumericTimestampAge | pwa-loader.js:30-46 | any parsed record with a non-zero numeric timestamp, whoever wrote it, is served exactly while `now - timestamp` is below 30 days and its coords are truthy, is a miss from 30 days on, and serves its own `coords` |
| GeoProperties.FreshWithoutCoordsReadsSensor | pwa-loader.js:34-46 | a fresh record whose coords are absent or falsy still takes the miss path and reads the sensor first |
| GeoProperties.UnparsableIsAbsent | pwa-loader.js:27-43 | an unparsable stored string gives the same trace as no record, and storage equal apart from that key; a successful read overwrites it; the call returns normally |
| GeoProperties.ServedAfterWrite | pwa-loader.js:48-62 | after a fix is stored at `w`, a call within 30 days succeeds at once with that fix's latitude, longitude and accuracy (100 when zero); after 30 days it reads the sensor first |
| GeoProperties.SecondWriteWins | pwa-loader.js:79-82 | two writes leave one record, the second, and the second fix is the one served |
| GeoProperties.MissThenHit | pwa-loader.js:77-84 | a miss answered by the sensor makes the next call within 30 days of the answer a cache hit serving that fix |
| GeoProperties.FiveDayOldRecordServedFirst | pwa-loader.js:46-62 | a record `{latitude 1, longitude 2, accuracy 50}` written five days ago is the first event, handed to success with timestamp now |
| InstallBanner.Dismiss | pwa-loader.js:171 | closing the banner stores the dismissal time under `pwa_dismissed_time` as text that `parseInt` reads back as that time; it adds no other key and keeps every other value |
| InstallBanner.ParseInt | pwa-loader.js:96 | `parseInt` gives NaN for blank text and gives a number only when the text holds a decimal digit; its value on digit strings is stated by `InstallBanner.ParseIntDigits` and `InstallBanner.ParseIntDecimal` |
| InstallBanner.ParseIntDigits | pwa-loader.js:96 | a non-empty string of decimal digits reads as its decimal value: no white space is skipped, no sign is read and no hex prefix applies |
| InstallBanner.Suppressed | pwa-loader.js:94-97 | suppression needs a non-empty stored dismissal time that `parseInt` reads as a number |
| InstallBanner.ParseIntDecimal | pwa-loader.js:96 | `parseInt` of the stored decimal text of a time gives that time back |
| InstallBanner.DismissalWindow | pwa-loader.js:94-97 | after dismissing at `t`, the banner is suppressed exactly when `now - t` is below 7 days, including a clock earlier than `t`; from 7 days on it shows |
| InstallBanner.NoDismissalShowsBanner | pwa-loader.js:94-95 | with no stored dismissal time, or text with no number in it, the banner is never suppressed |
| ServiceWorker.AddAll | sw.js:23 | every asset URL is fetched; the batch is stored exactly when all responses have an ok status other than 206 and no URL repeats, and then each URL maps to its own response; otherwise no cache changes |
| ServiceWorker.Install | sw.js:19-28 | install succeeds exactly when every asset answers with an ok status other than 206, and then each asset is stored under its GET request in `CACHE_NAME`; on failure no existing entry changes and only the opened cache may be new; other caches never change |
| ServiceWorker.HandleFetch | sw.js:30-49 | one network fetch per request, hit or miss; a cached response is the reply whatever the network does; on a miss the reply is the network's response, or `undefined` when the network fails; a network response always opens `CACHE_NAME` and overwrites the request's entry there exactly when it is storable and the request was a hit or the body is null; a failure changes nothing; other caches never change |
| ServiceWorker.Evicted | sw.js:51-66 | the reference eviction keeps exactly the caches named `CACHE_NAME` |
| ServiceWorker.DropIsEviction | sw.js:54-60 | deleting exactly the names that differ from `CACHE_NAME` is the reference eviction |
| ServiceWorker.ActivationResult | sw.js:54-60 | deleting the listed non-current names leaves the reference eviction, with only current names and the current cache unchanged |
| ServiceWorker.Activate | sw.js:51-66 | the names deleted are exactly the existing names other than `CACHE_NAME`; the result is the reference eviction; the current generation keeps all its entries |
| SwProperties.EvictionIdempotent | sw.js:54-60 | evicting twice equals evicting once, and only current caches remain |
| SwProperties.EvictedCount | sw.js:52-60 | with unique names, eviction leaves exactly one cache when the current generation exists and none otherwise |
| SwProperties.RefreshedEntryServedNext | sw.js:32-39 | with only the current generation present, a storable network response is what the next lookup finds after a hit or a null-body miss, and a miss whose response has a body stays a miss; only the current generation remains |
| SwProperties.FailuresServeCached | sw.js:40-46 | while the network fails, every request is served the cached response and the caches stay as they are |
| SwProperties.StaleThrough | sw.js:32-46 | while the network fails, and at the first request it answers, the cached response is the reply; the reply after that is the first reply the updated storage gives |
| SwProperties.StaleUntilRevalidated | sw.js:32-46 | requests up to and including the one whose background fetch succeeds get the stale response; the next one gets the new response |
| SwProperties.MissStoredOnlyWithoutBody | sw.js:32-46 | a miss answered with a null body is stored, so the next request is served from the cache whatever the network does; a miss answered with a body is not, so the next request is answered exactly as if the first had not happened |
| SwProperties.OpenKeepsMiss | sw.js:36 | opening the current generation does not turn a miss into a hit |
| SwProperties.OlderGenerationShadows | sw.js:32-37 | an older cache holding the request keeps answering it, before and after the refresh into `CACHE_NAME` |
| SwProperties.Deploy | sw.js:19-66 | install then activate: when every asset answers with an ok status other than 206, `CACHE_NAME` becomes the only cache and answers every asset with its fetched response; otherwise no existing cache loses an entry and the worker does not activate |
| CacheStorage.Open | sw.js:36 | `caches.open` returns the named cache, creating it empty and last if missing, and leaves other caches alone |
| CacheStorage.Match | sw.js:32 | `caches.match` answers a non-GET request with nothing; for GET its answer is present exactly when some cache holds the request, and then it is the response of the oldest cache holding it |
| CacheStorage.Merge | sw.js:37 | `cache.put`/`addAll` write into the named cache only, overwriting the given requests |
| CacheStorage.Delete | sw.js:58 | `caches.delete` removes the named cache, keeps exactly the other caches, and answers every request the deleted cache did not hold as before |

## Left out

- Service-worker registration and `registration.update()`
  (pwa-loader.js:3-15): platform I/O with no decision logic.
- Banner markup, styles, click handlers, the `beforeinstallprompt` flow and
  standalone or iOS detection (pwa-loader.js:88-92, 99-203): presentation
  and browser sniffing. The close handler's write (line 171) is modelled as
  `InstallBanner.Dismiss`.
- `skipWaiting` and `clients.claim` (sw.js:27, sw.js:65): lifecycle side
  effects with no state in this model.
- Promise and callback ordering, and races:
  - a background refresh racing a later call or request;
  - the worker being stopped before an un-awaited `cache.put` completes.

  Each event runs to completion with its inputs given up front.
- Floating-point arithmetic. Day ages are compared as exact millisecond
  differences against `30 * 86400000` and `7 * 86400000`. JSON numbers are
  exact reals. `parseInt` returns exact integers, with no rounding of very
  long digit strings.
- The internals of `JSON.parse`, `JSON.stringify` and string-to-number
  conversion. They are explicit inputs, and the round-trip lemmas assume
  `parse(stringify(record)) == record`.
- `localStorage.setItem` throwing because the quota is exceeded.
- URL resolution and the Cache API's URL-scheme, `Vary` and fragment rules.
  Requests are compared as (method, URL) pairs exactly as given.
- `console.log` / `console.warn` output.
- Caller callbacks are assumed to return normally. In the source, a success
  callback that throws on the hit path would also skip the background
  refresh.
- An error callback is assumed to be passed.
- The sensor is assumed to answer every read it is given.
- The `options` argument only shapes the sensor's answer, which is an input
  here.
- InstallBanner.Suppressed: its contract states only the necessary
  conditions. The exact seven-day window is proved for a time written by
  the close handler (`InstallBanner.DismissalWindow`), not for arbitrary
  stored text.
