# Short-link service: a Dafny model

This project models the server side of the cam-connect-web short-link service. That is the two
Supabase edge functions that share the `short_links` table:

- **create-short-url** takes a `POST` with `{ original_url }` and checks the URL.
  - If that exact URL string is already stored, it answers with the stored code (`existing: true`).
  - Otherwise it draws random six-symbol codes from a 62-symbol alphabet.
  - It retries on collision, at most ten attempts, then inserts the row.
  - `OPTIONS` gets the CORS headers; any other method gets 405.
- **redirect-short-url** takes the last path segment of the request as the short code and looks the row up.
  - For a known code it writes back `click_count + 1`, then answers 302 Found (RFC 9110, section 15.4.3) with `Location` set to the stored URL.
  - That answer is built by the Fetch `Response` constructor. It throws when the URL is not an acceptable header value, and the handler then answers 500 after the counter is written.
  - Otherwise it answers 400, 404 or 500.

Layout:

- `wrappers.dfy`: `Option`.
- `http.dfy`: responses, the CORS and JSON headers, the URL-parser type that stands for `new URL(...)`, and the Fetch standard's rules for a header value (ByteString conversion, normalization, no NUL, LF or CR).
- `link_registry.dfy`: the `short_links` table as a map from code to `Link(originalUrl, clickCount, createdAt)`.
  - The class `Registry` performs the handlers' queries on that table.
  - `Valid()` says that no URL string is stored under two codes. The handlers keep it as long as the creator's lookup by URL reports no store error (see `CreateShortUrl.LookupFailureStoresUrlTwice`).
- `create_short_url.dfy`: `generateShortCode`, the retry loop, the handler `Serve`, and its specification `Create`, with the lemmas about it.
- `redirect_short_url.dfy`: `split('/').pop()`, the handler `Serve`, and its specification `Resolve`, with the lemmas about it.
- `short_link_service.dfy`: properties of the two handlers together (the round trip).

Each handler is a method that takes the registry. Its postcondition ties the response and the new table to a pure
specification function of the old table. The lemmas state the service's promises about that function.

Randomness, the clock, URL parsing and store failures are parameters:

- `RandomSource`: draw `n` is the index chosen by the `n`-th `Math.random()` call. Attempt `k` uses draws `6k` to `6k+5`.
- `now`: the `created_at` default.
- `UrlParser`: `None` where `new URL(s)` throws.
- `dedupLookupFails`, `insertFails`, `lookupFails`, `updateFails`: whether the store reports an error on that call.

Behaviours of the code that the model keeps as written:

- The creator answers 500 once ten attempts are used, even when the tenth candidate was free (see Findings).
- The creator reads only the data of its lookup by URL. A store error there, or several rows storing the URL, reads as "no row", and a new code is drawn.
- Any insert error is answered with 500 "Failed to create short URL".
- A fresh creation answers with `short_url`, `short_code`, `original_url` and `created_at`.
- The resolver reads the click counter, then writes back that value plus one.
- The resolver does not check the update's error: it still redirects, and the counter stays unchanged.
- The resolver writes the counter before it builds the redirect. A stored URL the `Response` constructor refuses is counted and answered with 500 (see Findings).

## Model

| member | source | states |
|---|---|---|
| `CreateShortUrl.GenerateShortCode` | supabase/functions/create-short-url/index.ts:14-17 | the code has exactly `length` symbols |
| `CreateShortUrl.GeneratedCodeIsWellFormed` | supabase/functions/create-short-url/index.ts:14-17 | whatever the draws, the code has exactly `length` symbols, each an ASCII letter or digit from the 62-symbol alphabet |
| `CreateShortUrl.AlphabetHoldsSymbols` | supabase/functions/create-short-url/index.ts:15 | every entry of the alphabet string is an upper-case letter, a lower-case letter or a digit |
| `CreateShortUrl.SymbolIndexOf` | supabase/functions/create-short-url/index.ts:15-16 | every letter or digit has a draw that picks it from the alphabet |
| `CreateShortUrl.EveryCodeCanBeDrawn` | supabase/functions/create-short-url/index.ts:14-17 | every string over the alphabet is produced by some sequence of draws, so no code is out of reach |
| `CreateShortUrl.Candidate` | supabase/functions/create-short-url/index.ts:78 | each attempt draws a code of the default length, six |
| `CreateShortUrl.CandidateIsShortCode` | supabase/functions/create-short-url/index.ts:78 | each attempt's candidate is a six-symbol code over the alphabet |
| `CreateShortUrl.ShortCodeHasNoSlash` | supabase/functions/create-short-url/index.ts:15 | a code over the alphabet never holds '/', so it is one whole path segment |
| `CreateShortUrl.FirstFree` | supabase/functions/create-short-url/index.ts:77-86 | the first attempt whose candidate is not a stored code: every earlier candidate collides, and it is free or equals the bound |
| `CreateShortUrl.FirstFreeAt` | supabase/functions/create-short-url/index.ts:77-86 | the first free attempt is determined by the collisions before it and the free candidate at it |
| `CreateShortUrl.DrawUniqueCode` | supabase/functions/create-short-url/index.ts:72-86 | the loop runs 1 to 10 attempts and stops at the first free candidate; `attempts` is the first free attempt plus one, or 10; the last candidate is the code, and `taken` says whether it is stored |
| `CreateShortUrl.IssuedCode` | supabase/functions/create-short-url/index.ts:88-93 | an issued code is well formed, not stored, and one of the first nine candidates; nothing is issued only when all of the first nine collide |
| `CreateShortUrl.IntendedIssuedCode` | supabase/functions/create-short-url/index.ts:77-93 | corrected search: an issued code is well formed, not stored, and one of the ten candidates; nothing is issued only when all ten collide |
| `CreateShortUrl.TenthFreeCandidateIsDiscarded` | supabase/functions/create-short-url/index.ts:88-93 | nine collisions then a free tenth candidate: the handler issues nothing, while the corrected search issues the tenth |
| `CreateShortUrl.NonPostLeavesTableAlone` | supabase/functions/create-short-url/index.ts:30-40 | `OPTIONS` gets 200 with the CORS headers and no body; any other method except POST gets 405 "Method Not Allowed"; the table is unchanged |
| `CreateShortUrl.RejectedUrlAnswers400` | supabase/functions/create-short-url/index.ts:44-49 | a missing, empty or unparsable URL gets 400 "Invalid URL provided", and the table is unchanged |
| `CreateShortUrl.IsValidUrl` | supabase/functions/create-short-url/index.ts:19-26 | `isValidUrl` holds exactly when the URL parser accepts the string; its effect on the handler is stated by `RejectedUrlAnswers400` and `FreshCreation` |
| `CreateShortUrl.IntendedUrlRejected` | supabase/functions/create-short-url/index.ts:44 | corrected guard: it rejects everything the written guard rejects, and it accepts only a parsable URL that is an acceptable header value |
| `CreateShortUrl.UrlRejected` | supabase/functions/create-short-url/index.ts:44 | the guard: a missing URL, the empty string, or one the parser refuses; `RejectedUrlAnswers400` states the 400 it leads to |
| `CreateShortUrl.ExistingResponse` | supabase/functions/create-short-url/index.ts:59-68 | the 200 answer for a stored URL; `StoredUrlAnswersExisting` and `CreateIsIdempotent` state its fields |
| `CreateShortUrl.CreatedResponse` | supabase/functions/create-short-url/index.ts:109-119 | the 200 answer for a new row; `FreshCreation` states its fields |
| `CreateShortUrl.Create` | supabase/functions/create-short-url/index.ts:28-128 | the handler as a function of the old table: no request removes or rewrites a row, and the table changes only by the one row (url, 0 clicks, now) of a fresh creation; the lemmas below state its outcomes |
| `CreateShortUrl.StoredUrlAnswersExisting` | supabase/functions/create-short-url/index.ts:52-69 | when the lookup reports no error, a URL string stored under `code` gets 200 with that code, `existing: true` and the short URL base plus the code; the table is unchanged |
| `CreateShortUrl.LookupFailureStoresUrlTwice` | supabase/functions/create-short-url/index.ts:52-58 | with a store error on the lookup by URL, a URL already stored under "AAAAAA" is stored again under "BBBBBB": the unique-URL invariant is lost without any concurrency |
| `CreateShortUrl.GenerationFails` | supabase/functions/create-short-url/index.ts:88-93 | when the lookup by URL gives no row, "Failed to generate unique short code" is answered iff the first nine candidates all collide, and no row is written |
| `CreateShortUrl.InsertFailureAnswers500` | supabase/functions/create-short-url/index.ts:101-107 | an insert error gets 500 "Failed to create short URL", and no row is added |
| `CreateShortUrl.FreshCreation` | supabase/functions/create-short-url/index.ts:52-119 | a fresh creation adds exactly one row, code to (url, 0 clicks, now), under a well-formed code not in use, after the lookup by URL gave no row (so, with unique URLs and no lookup error, for a URL not stored); the answer is 200 with the short URL base plus the code |
| `CreateShortUrl.CreateOutcomes` | supabase/functions/create-short-url/index.ts:28-128 | every answer is 200, 400, 405 or 500; a POST gets 200 exactly when it gets a short link; only a fresh creation changes the table |
| `CreateShortUrl.SuccessStoresCode` | supabase/functions/create-short-url/index.ts:52-119 | after a POST answered with a short link, the answered code maps to the requested URL, and every earlier row is unchanged; URLs stay unique when the lookup by URL reports no error |
| `CreateShortUrl.CreateKeepsUrlsUnique` | supabase/functions/create-short-url/index.ts:52-99 | when the lookup by URL reports no error, creation never stores one URL string under two codes |
| `CreateShortUrl.CreateIsIdempotent` | supabase/functions/create-short-url/index.ts:52-69 | when neither lookup by URL reports an error, once a URL has been answered with a short link, asking again gives the same code with `existing: true` and writes nothing, whatever the random draws |
| `CreateShortUrl.DistinctUrlsGetDistinctCodes` | supabase/functions/create-short-url/index.ts:52-99 | two different URLs shortened in turn get different codes |
| `CreateShortUrl.Serve` | supabase/functions/create-short-url/index.ts:28-128 | the handler's answer and new table are those of `Create` on any table; the unique-URL invariant is kept when the lookup by URL reports no error |
| `LinkRegistry.CodeOfUrl` | supabase/functions/create-short-url/index.ts:52-56 | `maybeSingle` yields a code iff exactly one row stores this URL string, and that row is the only one storing it; with unique URLs, iff some row stores it |
| `LinkRegistry.Registry.FindCodeByUrl` | supabase/functions/create-short-url/index.ts:52-56 | the lookup by `original_url` returns the only row's code, or none on a store error, on no row or on several rows; with unique URLs and no error, none exactly when no row stores that exact string |
| `LinkRegistry.Registry.FindByCode` | supabase/functions/redirect-short-url/index.ts:19-23 | the lookup by `short_code` returns the row iff the code is stored |
| `LinkRegistry.Registry.Insert` | supabase/functions/create-short-url/index.ts:95-99 | an insert adds the row (url, 0 clicks, now) under a code not in use; a key conflict or a store error adds nothing |
| `LinkRegistry.Registry.SetClickCount` | supabase/functions/redirect-short-url/index.ts:30-33 | the update overwrites the counter of the matching row only; an unknown code or a store error changes nothing |
| `LinkRegistry.InsertKeepsUrlsUnique` | supabase/functions/create-short-url/index.ts:95-99 | inserting a new code for a URL not yet stored keeps URLs unique, and the dedup lookup then finds that code |
| `LinkRegistry.CountUpdateKeepsUrlsUnique` | supabase/functions/redirect-short-url/index.ts:30-33 | rewriting one counter keeps URLs unique |
| `RedirectShortUrl.Split` | supabase/functions/redirect-short-url/index.ts:12 | `split` returns at least one piece, and no piece contains the separator |
| `RedirectShortUrl.JoinSplit` | supabase/functions/redirect-short-url/index.ts:12 | joining the pieces of a split with the separator gives back the original path |
| `RedirectShortUrl.JoinLast` | supabase/functions/redirect-short-url/index.ts:12 | the last piece is what follows the last separator of the join |
| `RedirectShortUrl.ShortCodeOf` | supabase/functions/redirect-short-url/index.ts:11-12 | `split('/').pop()` of the path: the code holds no '/'; `ShortCodeIsLastSegment` states which suffix it is |
| `RedirectShortUrl.ShortCodeIsLastSegment` | supabase/functions/redirect-short-url/index.ts:11-12 | the short code is the suffix of the path after its last '/': it holds no '/', and it is the whole path or is preceded by '/' |
| `RedirectShortUrl.TrailingSlashHasNoCode` | supabase/functions/redirect-short-url/index.ts:12-16 | an empty path or one ending in '/' yields the empty code |
| `RedirectShortUrl.ShortCodeAfterSlash` | supabase/functions/redirect-short-url/index.ts:12 | a path ending in "/" + code, with no '/' in the code, yields that code |
| `Http.NormalizeIsInfix` | supabase/functions/redirect-short-url/index.ts:36-41 | normalizing a header value only strips characters at the ends: what remains is the input from the end of its leading whitespace |
| `Http.NormalizeTrimsBothEnds` | supabase/functions/redirect-short-url/index.ts:36-41 | a normalized value never starts or ends with HTTP whitespace |
| `Http.NormalizeKeepsByteString` | supabase/functions/redirect-short-url/index.ts:36-41 | a normalized ByteString is still a ByteString |
| `Http.HeaderValueAcceptedSteps` | supabase/functions/redirect-short-url/index.ts:36-41 | a header value is accepted iff it converts to a ByteString and, once normalized, holds no NUL, LF or CR |
| `Http.HeaderValueIsNormal` | supabase/functions/redirect-short-url/index.ts:36-41 | a stored header value is accepted again unchanged |
| `RedirectShortUrl.Redirect` | supabase/functions/redirect-short-url/index.ts:36-41 | the `Response` constructor succeeds iff the target is an acceptable header value; then the answer is 302, no body, and a `Location` header alone, holding a header value that normalizes like the target |
| `RedirectShortUrl.Resolve` | supabase/functions/redirect-short-url/index.ts:9-47 | the handler as a function of the old table: no request adds or removes a row, a 400 or 404 writes nothing, and every 302 carries a valid `Location`; the lemmas below state its outcomes |
| `RedirectShortUrl.UnparsableRequestAnswers500` | supabase/functions/redirect-short-url/index.ts:43-46 | when parsing the request URL throws, the answer is 500 "Internal Server Error" and nothing is written |
| `RedirectShortUrl.MissingCodeAnswers400` | supabase/functions/redirect-short-url/index.ts:14-16 | an empty code gets 400 "Short code not provided" and the table is unchanged |
| `RedirectShortUrl.UnknownCodeAnswers404` | supabase/functions/redirect-short-url/index.ts:19-27 | an unknown code or a failed lookup gets 404 "Short URL not found", and the table is unchanged |
| `RedirectShortUrl.KnownCodeAnswers` | supabase/functions/redirect-short-url/index.ts:29-46 | a known code gets 302 with `Location` set to its stored URL, normalized, when that URL is an acceptable header value, and 500 "Internal Server Error" otherwise. In both cases its counter becomes the read value plus one (unchanged if the update fails). Its URL and creation time stay, and every other row is untouched |
| `RedirectShortUrl.ResolveOutcomes` | supabase/functions/redirect-short-url/index.ts:9-47 | every answer is 302, 400, 404 or 500. No row is added, removed or re-targeted, counters never decrease, and only a request whose code was found, with no store error, writes |
| `RedirectShortUrl.ResolveKeepsUrlsUnique` | supabase/functions/redirect-short-url/index.ts:30-33 | resolution keeps URLs unique |
| `RedirectShortUrl.RepeatedResolveCounts` | supabase/functions/redirect-short-url/index.ts:30-33 | `n` resolutions of a known code, redirected or not, raise its counter by exactly `n` and change nothing else |
| `RedirectShortUrl.Serve` | supabase/functions/redirect-short-url/index.ts:9-47 | the handler's answer and new table are those of `Resolve` on any table, and a table with unique URLs keeps them |
| `ShortLinkService.CreateThenResolve` | supabase/functions/redirect-short-url/index.ts:19-41 | after a fresh creation of (code, url) at create-short-url/index.ts:95-99, a path ending in "/" + code moves the counter from 0 to 1, and gets 302 to url, normalized, when url is an acceptable header value, and 500 otherwise; URLs stay unique when they were and the lookup by URL reported no error |
| `ShortLinkService.JapaneseArticleIsNoHeaderValue` | supabase/functions/redirect-short-url/index.ts:36-41 | a URL whose path holds characters above 0xFF is no acceptable header value |
| `ShortLinkService.UnredirectableLinkIsCounted` | supabase/functions/redirect-short-url/index.ts:29-46 | the creator shortens "https://ja.wikipedia.org/wiki/日本"; a visit to its code then writes the counter to 1 and is answered with 500 |
| `ShortLinkService.IntendedGuardLinksRedirect` | supabase/functions/create-short-url/index.ts:44 | with the corrected guard, the round trip from any fresh creation always ends in 302 to the normalized URL |
| `ShortLinkService.ShortUrlPathNamesCode` | supabase/functions/create-short-url/index.ts:109 | the resolver's code extraction applied to the path "/s/" + code gives back the code (the short URL itself names a page of the web app) |

## Left out

- The Supabase client, Deno `serve`, `req.json()` parsing, JSON encoding, environment variables and `console.error` logging are not modelled.
  - They are foreign I/O.
  - The table is an in-memory map, and bodies are symbolic values.
  - A body that `req.json()` cannot parse is the `Unreadable` payload.
- `Math.random`: floating point. Each draw is given as an alphabet index, so uniformity is not modelled.
- The WHATWG URL parser behind `new URL(...)` is a parameter (`UrlParser`), not a definition.
- Concurrency is not modelled: requests run one at a time.
  - Because of that, the model does not show the race that can store one URL under two codes, or the lost counter updates of the read-then-write-back.
  - Even one request at a time, a store error on the creator's lookup by URL stores a URL under a second code. The model has that path (`dedupLookupFails`, `CreateShortUrl.LookupFailureStoresUrlTwice`).
- In the creator's retry loop, a store error on the lookup by code reads as "free". The model's lookup by code always answers. Such a candidate would reach the insert, whose key conflict gives 500 "Failed to create short URL", as any insert error does.
- An `original_url` that is present but not a string (a number, an object) is not modelled. The payload holds a string or nothing.
- The `id` column is not modelled. `created_at` comes from the store's clock, so it is the `now` parameter.
- `click_count` is an unbounded natural. The store's integer width is not modelled.
- The Fetch header-value rules are modelled for the one computed header, `Location`. The other headers are constants that satisfy them.
- Headers the runtime adds by itself, such as the plain-text `Content-Type` on the resolver's answers, are not modelled.
- The browser side is not part of this model: the QR scanner, the URL-shortener form and the `/s/:code` page, which repeats the resolver's lookup and increment in the browser.

## Findings

| source | as written | input that shows it | evidently intended | confidence | as-written member | corrected member |
|---|---|---|---|---|---|---|
| supabase/functions/create-short-url/index.ts:88-93 | after the loop, failure is tested as `attempts >= maxAttempts` | the first nine candidates are "AAAAAA", which is stored, and the tenth is "BBBBBB", which is free: the answer is 500 and "BBBBBB" is thrown away | fail only when the last candidate also collides (test `exists`) | medium; not executed | `CreateShortUrl.TenthFreeCandidateIsDiscarded` | `CreateShortUrl.IntendedIssuedCode` |
| supabase/functions/redirect-short-url/index.ts:29-46 | the creator's guard (create-short-url/index.ts:44) accepts any string `new URL` parses; the resolver writes `click_count + 1`, then builds the 302, whose `Location` must be a ByteString with no NUL, LF or CR once trimmed | "https://ja.wikipedia.org/wiki/日本" is shortened; every visit to its code is counted and answered with 500 "Internal Server Error" | every link the creator hands out can be followed: refuse (or encode) a URL that cannot be a header value | medium; not executed | `ShortLinkService.UnredirectableLinkIsCounted` | `ShortLinkService.IntendedGuardLinksRedirect` |

The handler models (`CreateShortUrl.Create`, `RedirectShortUrl.Resolve` and both `Serve` methods) keep the code as written. The corrected definitions stand beside them:

- `IssuedCode` is the as-written search. `IntendedIssuedCode` is the corrected one, proved to issue a code exactly when one of the ten candidates is free.
- `UrlRejected` is the as-written guard. `IntendedUrlRejected` also refuses a URL that is no acceptable header value, and `IntendedGuardLinksRedirect` proves that every link it lets through redirects.
