# Link registry of a URL shortener, in Dafny

This project models the core of a small URL-shortening web application:

- the in-memory **link registry** `LinkStorage` of `lib/storage.ts`, which
  keeps short code → link record (`links`) and alias → short code
  (`aliasMap`), creates links under a custom alias or a random 6-character
  code, looks them up, lists them newest first, counts clicks and deletes them;
- the request decisions of `POST` and `GET` in `app/api/shorten/route.ts`:
  the required URL, the URL parser's verdict, the alias length (3–20) and
  charset (`[a-zA-Z0-9_-]`) checks, the mapping of the registry's error to
  409 and of any other error to 500, and the `shortUrl` built from the base URL.

Layout, one module per file:

| file | module | models |
|---|---|---|
| wrappers.dfy | Wrappers | `Option` (for `undefined`) and `Result` (for a thrown error) |
| links.dfy | Links | `LinkData`, click events, JavaScript truthiness of an optional string |
| short_code.dfy | ShortCode | `generateShortCode`'s alphabet, its 6-draw loop and its retry |
| ordering.dfy | Ordering | the stable newest-first sort of `getAllLinks` |
| registry.dfy | Registry | the registry as a value `Store`, its invariant `Valid`, one function per operation |
| registry_laws.dfy | RegistryLaws | invariant preservation and the behaviour across several calls |
| storage.dfy | Storage | class `LinkStorage`: the maps as fields updated in place, each method proved equal to its Registry function |
| shorten_route.dfy | ShortenRoute | `POST`/`GET` of the shorten route |

The JavaScript `Map` in `links` iterates in insertion order, and
`Map.set` on an existing key keeps the key's place; `getAllLinks` lists
`Array.from(links.values())` through a stable sort. The model therefore
keeps that order as a third field, `order`, and proves the listing to be
the records sorted newest first with same-millisecond records in insertion
order (`Ordering.SortIsStable`).

`createLink` fixes the short code as `alias || generateShortCode()` and then
checks the alias against `aliasMap` only. An alias equal to a generated
code that is in use therefore passes the check and `links.set` replaces
that record. A single key space for aliases and generated codes is
evidently intended; the model follows the code. `RegistryLaws.AliasReplacesGeneratedRecord` proves the replacement.
`ShortenRoute.GeneratedCodeCanBeClaimed` proves that every generated code
passes the route's alias checks. So any client can point any link created
without an alias at a URL of its own.

Inputs from the environment are parameters: `now` (milliseconds of the
clock) for `Date.now()` and `new Date()`; `attempts` for the values of
`Math.random()`, six reals in [0, 1) per attempt; `isUrl` for the verdict of
the platform's `URL` constructor; `env` and `origin` for
`NEXT_PUBLIC_BASE_URL` and the request origin.

## Model

| member | source | states |
|---|---|---|
| `Links.Clicked` | lib/storage.ts:59-64 | one more visit raises the counter by exactly one, appends exactly that event, changes no other field and keeps clicks equal to the length of `clickHistory` |
| `ShortCode.CharsAreAlphanumeric` | lib/storage.ts:80 | the alphabet has 62 characters, all of `[a-zA-Z0-9]` |
| `ShortCode.CharIndex` | lib/storage.ts:83 | `floor(random * 62)` is a valid index into the alphabet |
| `ShortCode.CodeOf` | lib/storage.ts:81-84 | the code has one character per draw, character `j` being the alphabet at draw `j`'s index |
| `ShortCode.CodeOfIsShortCode` | lib/storage.ts:80-84 | six draws spell a code of length 6 over `[a-zA-Z0-9]` |
| `ShortCode.BuildCode` | lib/storage.ts:81-84 | the `for` loop builds exactly the code the draws spell |
| `ShortCode.FirstFree` | lib/storage.ts:86-91 | the generated code has length 6, uses only the alphabet and is not a key of `links` |
| `ShortCode.FirstFreeIsFirstUnused` | lib/storage.ts:79-92 | the retry returns the first attempt whose code is unused, all earlier ones colliding |
| `Ordering.SortNewestFirst` | lib/storage.ts:50-54 | the sort is a permutation of its input and lists non-increasing `createdAt` |
| `Ordering.SortIsStable` | lib/storage.ts:51-53 | records with the same `createdAt` keep their input order |
| `Registry.EmptyIsValid` | lib/storage.ts:16-18 | the empty registry satisfies the invariant and lists nothing |
| `Registry.Create` | lib/storage.ts:20-44 | fails iff a non-empty alias is already a key of `aliasMap`, and then changes nothing; otherwise the new record stores the URL verbatim, has 0 clicks and no history, has `shortCode == alias` for a non-empty alias or a fresh 6-character generated code, and is stored under its code (replacing a record there), with `aliasMap[alias] == shortCode` |
| `Registry.Lookup` | lib/storage.ts:46-48 | finds a record iff the code is a key, and the record found is keyed by that code and has clicks equal to the length of `clickHistory` |
| `Registry.AllLinks` | lib/storage.ts:50-54 | every stored record exactly once, and no other, ordered by non-increasing `createdAt` |
| `Registry.Track` | lib/storage.ts:56-66 | on a stored code exactly that record gains one click and the event; on an unknown code nothing changes; `aliasMap` and every other record are unchanged |
| `Registry.Delete` | lib/storage.ts:68-77 | returns true iff the code was stored; afterwards the code is gone and, if the record had an alias, so is the alias; on absence nothing changes |
| `RegistryLaws.CreatePreservesValid` | lib/storage.ts:20-44 | a create keeps every invariant: records keyed by their code, clicks equal to the length of `clickHistory`, each alias `a` maps to `a` whose record has alias `a`, the insertion order lists each key once |
| `RegistryLaws.TrackPreservesValid` | lib/storage.ts:56-66 | a click keeps every invariant, clicks equal to the length of `clickHistory` included |
| `RegistryLaws.DeletePreservesValid` | lib/storage.ts:68-77 | a delete keeps every invariant and removes exactly the deleted code from `aliasMap` |
| `RegistryLaws.CreateThenLookup` | lib/storage.ts:38-48 | after a successful create, `getLink(shortCode)` returns the new record, the alias maps to it, and it is listed |
| `RegistryLaws.AliasTakenTwice` | lib/storage.ts:24-26 | a second create with the same alias fails with the alias error and leaves the state as the first create left it |
| `RegistryLaws.DeleteThenLookup` | lib/storage.ts:68-77 | after a delete, `getLink` of that code finds nothing |
| `RegistryLaws.DeleteReleasesAlias` | lib/storage.ts:68-77 | after deleting an aliased record, a create with the same alias succeeds |
| `RegistryLaws.AliasReplacesGeneratedRecord` | lib/storage.ts:20-41 | an alias equal to the code of a record created without an alias passes the check, the new record replaces that record in place, and the old record is no longer listed |
| `RegistryLaws.TrackAll` | lib/storage.ts:56-66 | a run of clicks changes no key, no alias and not the order |
| `RegistryLaws.ClicksAreCounted` | lib/storage.ts:56-66 | however clicks on different codes interleave, each record gains exactly its own events in order and one click per event, and nothing else in it changes |
| `RegistryLaws.TrackAllPreservesValid` | lib/storage.ts:56-66 | any run of clicks keeps the invariant |
| `RegistryLaws.NewRecordCountsItsVisits` | lib/storage.ts:28-66 | a new record clicked N times has N clicks and exactly those N events |
| `RegistryLaws.CreatedIsListedFirst` | lib/storage.ts:50-54 | a record created later than all stored records is the first one listed |
| `Storage.LinkStorage.constructor` | lib/storage.ts:16-18 | the new registry is empty and valid |
| `Storage.LinkStorage.CreateLink` | lib/storage.ts:20-44 | the fields and the result move exactly as `Registry.Create` says, and the invariant holds after |
| `Storage.LinkStorage.GetLink` | lib/storage.ts:46-48 | agrees with `Registry.Lookup` on the fields |
| `Storage.LinkStorage.GetAllLinks` | lib/storage.ts:50-54 | the fields' records, every stored one listed, as many as are stored, newest first: `Registry.AllLinks` of the fields |
| `Storage.LinkStorage.TrackClick` | lib/storage.ts:56-66 | the fields move exactly as `Registry.Track` says with the event stamped `now`, and the invariant holds after |
| `Storage.LinkStorage.DeleteLink` | lib/storage.ts:68-77 | the fields and the result are exactly those of `Registry.Delete`, and the invariant holds after |
| `Storage.LinkStorage.GenerateShortCode` | lib/storage.ts:79-92 | the retry loop returns the first unused attempt's code (see `ShortCode.FirstFree`) |
| `ShortenRoute.Validate` | app/api/shorten/route.ts:9-40 | the request passes iff the URL is present and non-empty, the parser accepts it, and an alias, if given, has 3–20 characters of `[a-zA-Z0-9_-]`; every rejection is a 400 |
| `ShortenRoute.PostOutcome` | app/api/shorten/route.ts:4-69 | a validated request whose alias is absent or not yet reserved succeeds, and only such a request does; every failure leaves the store unchanged; every 400 is a validation rejection; a success passed validation, has `shortUrl == baseUrl + "/" + shortCode`, echoes the URL, alias and time, and the record is stored with 0 clicks |
| `ShortenRoute.Post` | app/api/shorten/route.ts:4-69 | the early-return chain and the `createLink` call yield exactly `PostOutcome` and keep the registry valid |
| `ShortenRoute.Get` | app/api/shorten/route.ts:71-74 | the response lists exactly `getAllLinks()` |
| `ShortenRoute.MissingUrlRejectedFirst` | app/api/shorten/route.ts:9-14 | a missing or empty URL gives 400 "URL is required" before any other check, with no change |
| `ShortenRoute.MalformedUrlRejected` | app/api/shorten/route.ts:17-24 | a URL the parser refuses gives 400 "Invalid URL format", with no change |
| `ShortenRoute.AliasLengthCheckedFirst` | app/api/shorten/route.ts:27-33 | a non-empty alias shorter than 3 or longer than 20 gives the length error, whatever its characters |
| `ShortenRoute.AliasCharsetRejected` | app/api/shorten/route.ts:34-39 | an alias of valid length with a character outside `[a-zA-Z0-9_-]` gives the charset error |
| `ShortenRoute.TakenAliasIsConflict` | app/api/shorten/route.ts:42-63 | a valid request with a reserved alias gives 409 "Alias already exists" and no change |
| `ShortenRoute.UnparsableBodyIsServerError` | app/api/shorten/route.ts:57-67 | a body that cannot be parsed, whose error is not the alias conflict, gives 500 "Failed to create short link" and changes nothing |
| `ShortenRoute.GeneratedCodeCanBeClaimed` | app/api/shorten/route.ts:27-42 | a request whose alias is the code of a link created without an alias succeeds and repoints that code to the new URL |

## Left out

- Storage.LinkStorage.GenerateShortCode: requires that some supplied attempt spells an unused code. When none does, the source recurses until the JavaScript stack overflows, and the `catch` of `POST` turns the RangeError into a 500 "Failed to create short link"; the model does not cover that run, and `CreateLink`, `Post` and `PostOutcome` carry the same requirement when no alias is given.
- `Math.random()` is not modelled as a random source. Its values are supplied as reals in [0, 1), and `x * 62` is taken as exact real arithmetic rather than floating point.
- Wall-clock time is a parameter `now` in milliseconds. One reading serves as both `id` and `createdAt`, where the source reads the clock twice. `id` is a number, not its decimal string, and nothing is claimed about its uniqueness. `createdAt` is the time itself, not its ISO string; the sort compares the parsed times, which are these numbers.
- Object identity is not modelled. `getLink` returns the live record in the source, so a caller holding it sees later clicks. The model returns a value, and a click replaces the record in the map.
- `clicks` is an unbounded natural number, not a floating-point JavaScript number.
- `request.json()` is not modelled. The body is either its `url` and `alias` string fields or the message of the parse error; fields of other JSON types are not modelled.
- Alias length is counted in Unicode scalar values, while JavaScript counts UTF-16 code units. The two differ only for characters outside the Basic Multilingual Plane, which the charset check rejects anyway, although the error message can differ.
- `NextRequest`/`NextResponse` are replaced by the `Body` and `Response` datatypes; HTTP status and JSON body are fields.
- Concurrency is not modelled. The source runs on a single-threaded event loop with no locking.
- app/page.tsx, app/layout.tsx, app/api/qr/route.ts, app/[shortCode]/route.ts and app/api/links/[shortCode]/route.ts are not part of this model. They are the UI, static markup, a QR-code library wrapper, and thin callers of `getLink`, `trackClick` and `deleteLink`.
