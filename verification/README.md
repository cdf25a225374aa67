# Shortcode store of a URL shortener, in Dafny

This project models the part of a URL-shortening service that stores shortcodes. The service keeps this store twice:

- **The server's in-memory model**, class `UrlModel` in `BackendTestSubmission/BackendTestSubmission/models/UrlModel.js`. It holds two maps keyed by shortcode:
  - `urls` holds one record per short URL: original URL, creation and expiry times, validity in minutes and an `isActive` flag;
  - `analytics` holds each code's click count and click list.

  The model also covers the redirect route `routes/redirectRoute.js` as one store method, `Redirect`. It checks the code's format, resolves the code with `getUrl`, then records one click with `recordClick`.
- **The browser's mock store**, class `UrlShortenerService` in `src/services/urlShortener.ts`. Its plain-JavaScript twin `src/services/urlShortener.js` behaves the same, so one model serves both. The table below cites whichever file is clearer; the same method sits at these lines of each:

  | method | urlShortener.ts | urlShortener.js |
  |---|---|---|
  | generateShortcode | 54-61 | 63-70 |
  | isValidShortcode | 72-74 | 81-83 |
  | isExpired | 76-78 | 85-87 |
  | createShortUrl | 86-134 | 95-143 |
  | getShortUrlStats | 136-154 | 145-163 |
  | redirectToOriginalUrl | 156-180 | 165-189 |
  | getAllShortUrls | 182-187 | 191-196 |
  | deleteShortUrl | 189-198 | 198-207 |

  It keeps one list of records, each carrying its own clicks, in local storage. Here that list is the field `urls`: reading the storage key reads the field, and saving the list assigns it.

Files:

- `wrappers.dfy` defines `Option` and `Result`. Each thrown `Error` and each `null` return becomes an `Err` or a `None`.
- `shortcode.dfy` holds what both stores share:
  - the shortcode format `/^[a-zA-Z0-9]{3,20}$/`, written as an anchored matcher together with the lemma that gives its meaning;
  - the JavaScript truthiness tests on a custom code and on a referrer;
  - the client's 62-character alphabet.
- `url_shortener.dfy` is the client store, a class over `seq<ShortUrl>`.
- `backend.dfy` is the server store, a class over two maps.

Inputs from outside the program become parameters:

- The clock becomes `now`, integer milliseconds.
- `new URL(...)` becomes the predicate `validUrl`.
- `Math.random()` becomes a stream `rand` of reals in [0, 1).
- `nanoid()` becomes a stream `gen` of codes.
- `crypto.randomUUID()` becomes the record `id`.

Each class has a `Valid()` invariant, and every operation preserves it.

- **Server invariant:**
  - both maps have the same keys;
  - each record is stored under its own code;
  - `expiresAt = createdAt + validityMinutes·60000`;
  - `totalClicks` is the length of the click list.
- **Client invariant:**
  - shortcodes are pairwise distinct and well formed;
  - each short link is the origin followed by `/` and the code;
  - the stored flag is set.

The model follows the code in three places where a reader might expect otherwise:

- **Expiry boundary.** A record counts as expired only when `now > expiresAt`. It still resolves at exactly `now == expiresAt`, rather than becoming inactive from that instant.
- **Stored flag on the server.** `getUrl` clears the flag only when it sees an expired record, and `getAnalytics` reports the stored flag. A record that expired but was never resolved is therefore still reported active.
- **Code reuse.** Codes are reused freely after deletion or a sweep.

## Model

| member | source | states |
|---|---|---|
| Shortcode.MatchRepeatMeaning | BackendTestSubmission/BackendTestSubmission/models/UrlModel.js:25-29 | An anchored match of `[a-zA-Z0-9]{min,max}` succeeds iff the length is within the bounds and every character is in the class. |
| Shortcode.IsValidShortcode | BackendTestSubmission/BackendTestSubmission/models/UrlModel.js:25-29 | isValidShortcode holds iff the code has 3 to 20 characters, all ASCII letters or digits. |
| Shortcode.IsCustom | BackendTestSubmission/BackendTestSubmission/models/UrlModel.js:38 | A custom code counts as given iff it is present and not the empty string, as JavaScript's truthiness test decides (also src/services/urlShortener.ts:96). |
| Shortcode.ReferrerOrDirect | BackendTestSubmission/BackendTestSubmission/routes/redirectRoute.js:52 | A missing or empty referer becomes 'Direct'; any other referer is kept as is. |
| Shortcode.AlphabetChar | src/services/urlShortener.ts:55-58 | Every position of the 62-character alphabet holds a letter or digit of the shortcode class. |
| Shortcode.AlphabetCoversAlnum | src/services/urlShortener.ts:55 | Every letter and digit occurs in the alphabet, and exactly once. |
| UrlShortener.ValidityMinutes | src/services/urlShortener.js:121-122 | An absent or zero validity becomes 30 minutes (JavaScript's `or`); any other value is kept; the result is never 0. |
| UrlShortener.AlphabetIndex | src/services/urlShortener.ts:58 | `Math.floor(Math.random() * 62)` is an index inside the alphabet for every draw in [0, 1). |
| UrlShortener.DrawChars | src/services/urlShortener.ts:56-59 | After n steps the code has n characters, and character i is the alphabet entry picked by draw i. |
| UrlShortener.IsExpired | src/services/urlShortener.ts:76-78 | A record is expired iff the current time is strictly after its expiry; it is live iff `now <= expiry`. |
| UrlShortener.Draw | src/services/urlShortener.ts:54-61 | Every generated code has 6 characters and passes isValidShortcode. |
| UrlShortener.AttemptsAreValid | src/services/urlShortener.js:115-119 | Every code the do-while loop can draw passes isValidShortcode. |
| UrlShortener.LocationAt | src/services/urlShortener.js:89-93 | The simulated location is always one of the five listed cities. |
| UrlShortener.Taken | src/services/urlShortener.ts:102 | The `some` test holds iff some stored record carries the code; the do-while at line 109 uses the same test. |
| UrlShortener.UrlShortenerService.ShortLink | src/services/urlShortener.ts:120 | The short link is the origin, then `/`, then the code, and nothing else. |
| UrlShortener.Find | src/services/urlShortener.ts:138 | `find` fails iff no record has the code; otherwise it gives the first record with the code. |
| UrlShortener.FindUnique | src/services/urlShortener.ts:138 | With distinct codes, `find` on a record's code returns that very record. |
| UrlShortener.Without | src/services/urlShortener.ts:191 | The filter keeps exactly the records whose code differs, and never grows the list. |
| UrlShortener.WithoutLengthIff | src/services/urlShortener.js:200-204 | The filtered list is as long as the original iff no record has the code; in that case the list is unchanged. |
| UrlShortener.WithoutSplice | src/services/urlShortener.ts:191 | With distinct codes, filtering out record k's code leaves every other record in its original order. |
| UrlShortener.WithoutKeepsUnique | src/services/urlShortener.ts:189-198 | Deleting keeps shortcodes pairwise distinct. |
| UrlShortener.AppendKeepsWellFormed | src/services/urlShortener.ts:127 | Pushing a well-formed record with an unused code keeps the list's codes distinct and well formed. |
| UrlShortener.UrlShortenerService.constructor | src/services/urlShortener.ts:41-48 | A fresh service, with empty storage, holds no records and satisfies the invariant. |
| UrlShortener.UrlShortenerService.GenerateShortcode | src/services/urlShortener.ts:54-61 | The loop builds the six-character code drawn from the given draws, and that code passes isValidShortcode. |
| UrlShortener.UrlShortenerService.GenerateUniqueShortcode | src/services/urlShortener.ts:106-110 | The do-while loop exits only with a code no stored record has. That code is the first free draw: every earlier draw was taken. |
| UrlShortener.UrlShortenerService.CreateShortUrl | src/services/urlShortener.ts:86-134 | The checks run in order: invalid URL, then bad custom-code format, then taken custom code. Any failure leaves the list unchanged. When no check fails, the call succeeds iff the expiry lies within the range of a Date; otherwise `toISOString` throws (line 121), which is InvalidDate, before anything is saved. Success appends exactly one record with an unused code (the custom code, or the first free draw), empty clicks, the flag set, `expiry = now + v·60000`, where v is the validity or 30 when it is absent or zero, and link `origin/code`. The response carries the stored link and expiry. Codes stay distinct. |
| UrlShortener.UrlShortenerService.GetShortUrlStats | src/services/urlShortener.ts:136-154 | Fails with NotFound iff no record has the code. Otherwise it reports the first such record, with `totalClicks` equal to the number of its clicks and `isActive = stored flag ∧ ¬(now > expiry)`. |
| UrlShortener.StatsActiveUntilExpiry | src/services/urlShortener.js:85-87 | In a valid store every stored code has stats, and they read active exactly while `now <= expiry`. |
| UrlShortener.UrlShortenerService.RedirectToOriginalUrl | src/services/urlShortener.ts:156-180 | An unknown code gives NotFound, and an expired one gives Expired; neither changes the list. Otherwise exactly one click is appended to that record only, with referrer defaulting to 'Direct', and the original URL is returned. |
| UrlShortener.UrlShortenerService.GetAllShortUrls | src/services/urlShortener.ts:182-187 | The result has the same length and order as the stored list. Each element equals its stored record, except that `isActive` is recomputed as stored flag ∧ not expired. |
| UrlShortener.ListAgreesWithStats | src/services/urlShortener.js:191-196 | The list view and the per-code stats agree on each record's activity and click count. |
| UrlShortener.UrlShortenerService.DeleteShortUrl | src/services/urlShortener.ts:189-198 | Fails with NotFound, saving nothing, iff no record has the code. Otherwise it keeps exactly the records with other codes, in order. The code is gone afterwards and the remaining codes stay distinct. |
| Backend.ValidityOrDefault | BackendTestSubmission/BackendTestSubmission/models/UrlModel.js:31 | The default parameter 30 applies only when the validity is absent; a given validity, even 0, is kept. |
| Backend.UrlModel.constructor | BackendTestSubmission/BackendTestSubmission/models/UrlModel.js:6-10 | A new model has two empty maps and satisfies the invariant. |
| Backend.UrlModel.CreateUrl | BackendTestSubmission/BackendTestSubmission/models/UrlModel.js:31-76 | The checks run in order: invalid URL, then bad format of a truthy custom code, then a custom code that is already a key. On failure neither map changes. When no check fails, the call succeeds iff the expiry lies within the range of a Date; otherwise `toISOString` throws (line 59), which is InvalidDate, before either map is touched. On success the code is fresh: the custom one, or the first nanoid draw not already a key. Both maps gain that key and nothing else: a record with `isActive = true` and `expiresAt = now + validity·60000`, and an analytics entry with 0 clicks and an empty list. The key sets stay equal. |
| Backend.UrlModel.GetUrl | BackendTestSubmission/BackendTestSubmission/models/UrlModel.js:78-91 | An unknown code gives nothing, with no change. When `now > expiresAt` it gives nothing and sets that record's flag to false, changing nothing else. Otherwise it returns the stored record unchanged, so a record still resolves at `now == expiresAt`. |
| Backend.UrlModel.RecordClick | BackendTestSubmission/BackendTestSubmission/models/UrlModel.js:93-102 | On a known code, `totalClicks` rises by exactly 1 and exactly one click, stamped `now`, is appended at the end. `totalClicks` stays equal to the length of the click list. On an unknown code nothing changes. |
| Backend.UrlModel.GetAnalytics | BackendTestSubmission/BackendTestSubmission/models/UrlModel.js:104-121 | Gives nothing unless the code is a key of both maps. Otherwise `totalClicks` and `clicks` come from `analytics`, while the `isActive` reported is the stored flag, not recomputed. |
| Backend.ReportCountsClicks | BackendTestSubmission/BackendTestSubmission/models/UrlModel.js:104-121 | In a valid store a report exists iff the code is stored, and its `totalClicks` equals the length of its click list. |
| Backend.Expired | BackendTestSubmission/BackendTestSubmission/models/UrlModel.js:85 | A record is expired iff the current time is strictly after its expiry; it still resolves at `now == expiresAt`. |
| Backend.ExpiredCodes | BackendTestSubmission/BackendTestSubmission/models/UrlModel.js:128-129 | A code is swept iff it is stored and its record is expired in getUrl's sense (`now > expiresAt`). |
| Backend.UrlModel.CleanupExpiredUrls | BackendTestSubmission/BackendTestSubmission/models/UrlModel.js:124-137 | Removes from both maps exactly the codes with `expiresAt < now`, leaves every other entry unchanged, and returns the number removed. The store shrinks by exactly that number. |
| Backend.SweepPartition | BackendTestSubmission/BackendTestSubmission/models/UrlModel.js:124-137 | Removing a set of stored keys leaves exactly the other keys, and the sizes add up. |
| Backend.LiveUntilExpiry | BackendTestSubmission/BackendTestSubmission/routes/urlRoutes.js:17 | A record created with a validity of at least 1 minute, the route's lower bound, expires strictly after its creation. It is neither expired nor swept at any instant from creation to expiry. |
| Backend.RouteValidityFitsDate | BackendTestSubmission/BackendTestSubmission/routes/urlRoutes.js:15-18 | With a validity the route accepts (1 to 525600 minutes), and a clock at least a year short of the end of the Date range, the expiry stays in range, so createUrl cannot fail with InvalidDate. |
| Backend.UrlModel.Redirect | BackendTestSubmission/BackendTestSubmission/routes/redirectRoute.js:11-61 | A malformed code is rejected with no change. An unknown code gives NotFound with no change. An expired code gives NotFound and only clears its flag. A live record whose flag is clear gives NotFound with no change. Otherwise exactly one click, with the referer defaulting to 'Direct', is recorded, and the original URL is returned. |

## Left out

- Time is integer milliseconds passed in as `now`. Each operation reads the clock once, although the source reads it more than once:
  - `createShortUrl` reads it twice, for `expiry` and for `createdAt`;
  - the redirect route reads it once in `getUrl` and once more in `recordClick`;
  - `redirectToOriginalUrl` reads it twice: in `isExpired` (src/services/urlShortener.ts:164, through line 77) and for the click's timestamp (line 170). In the source a click that passes the expiry check can therefore be stamped after the expiry; the single `now` rules that out;
  - `getAllShortUrls` reads it once per record (src/services/urlShortener.ts:185), so records can be judged against slightly different instants.
- `toISOString` formatting and date parsing are not modelled; dates are compared as numbers.
- JavaScript numbers are modelled as unbounded integers. Fractional, string or non-finite validities are not modelled.
- `new URL(...)` and the route's `isURL` check are the opaque predicate `validUrl`.
- Local-storage access and JSON (de)serialisation are the `urls` field. A missing or corrupt storage entry is not modelled.
- `crypto.randomUUID()` is the `id` parameter. The uniqueness of ids is not modelled.
- `nanoid`: its codes are the arbitrary stream `gen`. Nothing claims they pass isValidShortcode, because nanoid's alphabet contains `_` and `-`.
- Backend.UrlModel.CreateUrl and UrlShortener.UrlShortenerService.CreateShortUrl require that some draw of the generator is free. The source's do-while would never end otherwise.
- UrlShortener.UrlShortenerService.CreateShortUrl takes `draws`, the codes that successive generateShortcode calls return, rather than the raw `Math.random` draws:
  - GenerateShortcode relates one code to its six draws;
  - AttemptsAreValid shows that the stream built from any `Math.random` draws meets CreateShortUrl's precondition.
- The create route's validation is not a precondition of CreateUrl; LiveUntilExpiry and RouteValidityFitsDate state what its 1 to 525600 bound buys. That validation covers URL presence and protocol, the validity bound, and the shortcode format. The route's mapping of error messages to HTTP status codes is not modelled either.
- The redirect route's HTTP parts are not modelled: the 301 response, logging, the fallback chain for the client IP, and the geoip lookup. The IP and the looked-up location are parameters of Redirect.
- The server's getAnalytics route, server.js, the logging and error-handling middleware, and the React pages and components are not part of this model.
- Concurrency: the JavaScript runtime is single-threaded, and nothing here is concurrent.
