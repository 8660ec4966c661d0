# URL shortener registry, modelled in Dafny

The server has two routes. `POST /api/shorturl` takes a URL and returns an object with `original_url` and `short_url`. `GET /api/shorturl/:number` redirects to the stored URL. This project models the logic behind both routes, in three modules:

- `UrlPattern` (UrlPattern.dfy): the URL syntax check, i.e. the anchored, case-insensitive regular expression the submit route tests. The pattern appears twice. `MatchesPattern` is a grammar that picks its split points by existential choice, the way a backtracking regex engine reads the pattern. `IsValidUrl` is a recognizer that computes the split points instead. `MatchesIffValid` proves they accept the same strings.
- `JsParseInt` (JsParseInt.dfy): JavaScript's `parseInt` with no radix, which the resolve route applies to its parameter. It follows section 19.2.5 of ECMA-262: leading white space is skipped, an optional sign is read, and a `0x`/`0X` prefix switches to radix 16. The longest digit run is then read, and an empty run gives NaN.
- `UrlRegistry` (UrlRegistry.dfy): the registry.
  - `Store` holds the URL→id map, the id→URL map and the `short_url_seq` counter as one value.
  - `Submitted` and `Resolved` give the two routes over a `Store`.
  - The class `Registry` holds the same state in fields and updates them in place. Its methods prove that they meet `Submitted` and `Resolved`.
  - The invariant `Consistent` says three things. The two maps are inverse to each other. The ids in use are exactly 1..counter. The counter equals the number of mappings.

The DNS lookup is an oracle. Its answer is the `dnsResolves` argument of `Submit`. Requests are handled one at a time.

Two behaviours of the code that are easy to miss:
- The route parameter goes through `parseInt` (server.js:127), which reads its leading digits: `12abc` resolves as id 12, and `0x1` is read as hexadecimal 1.
- A failed save is not turned into an `invalid url` reply: the `throw` inside the save callback (server.js:110-111) escapes the surrounding `try` (see Left out).

## Model

| member | source | states |
|---|---|---|
| `UrlPattern.MatchesPattern` | server.js:89 | the anchored pattern as a grammar: an optional scheme alternative (in any case), a host, a dot and a 2–5 letter TLD, an optional port, an optional path, with every split point chosen existentially; `MatchesIffValid` ties it to `IsValidUrl` |
| `UrlPattern.IsValidUrl` | server.js:89-94 | `checkValidUrl.test(url)`: the deterministic recognizer, trying no scheme, `http://` and `https://`; `MatchesIffValid` proves it accepts exactly what `MatchesPattern` matches, and `ValidIgnoresCase` that case does not matter |
| `UrlPattern.HostRunLength` | server.js:89 | the length of the longest prefix made of characters the host-and-TLD part accepts (`[a-z0-9]`, `-`, `.`); the next character, if any, is outside that set |
| `UrlPattern.LastIndexOf` | server.js:89 | the position of the last occurrence of a character, or -1; no later position holds it |
| `UrlPattern.HostOk` | server.js:89 | the label-by-label scan accepts exactly `[a-z0-9]+([\-\.][a-z0-9]+)*` (`IsHost`) |
| `UrlPattern.DomainOk` | server.js:89 | splitting at the last dot accepts exactly a host, a dot and a 2–5 letter TLD (`IsDomain`), because a TLD holds no dot |
| `UrlPattern.PortAndPathOk` | server.js:89 | accepts exactly an optional `:` with 1–5 digits followed by an optional `/`-led suffix without line terminators (`IsPortAndPath`) |
| `UrlPattern.AfterSchemeOk` | server.js:89 | taking the maximal host-character run as the domain accepts exactly what the pattern allows after the scheme group (`MatchesAfterScheme`) |
| `UrlPattern.WwwPrefixIsRedundant` | server.js:89 | a `www.` (in any case) that the scheme alternative consumed can be consumed by the host instead, so the `www.` alternatives accept nothing extra |
| `UrlPattern.DropWww` | server.js:89 | a string matched through `http://www.` or `https://www.` is also matched through `http://` or `https://` |
| `UrlPattern.SchemeForms` | server.js:89 | the four scheme alternatives, told apart by their lengths 7, 8, 11 and 12 |
| `UrlPattern.ValidImpliesMatches` | server.js:89-94 | every string the recognizer accepts matches the anchored pattern |
| `UrlPattern.MatchesImpliesValid` | server.js:89-94 | every string matching the anchored pattern, under any choice of split, is accepted by the recognizer |
| `UrlPattern.MatchesIffValid` | server.js:89-94 | `checkValidUrl.test(url)` as modelled by `IsValidUrl` holds exactly when the string matches the pattern |
| `UrlPattern.LowerPreservesMatch` | server.js:90 | the pattern with the `i` flag matches a string exactly when it matches its ASCII lower-cased form |
| `UrlPattern.ValidIgnoresCase` | server.js:90 | the validator accepts a string exactly when it accepts its ASCII lower-cased form |
| `UrlPattern.AcceptsParts` | server.js:89 | any scheme alternative (or none), a host, a dot and a TLD, with no port or path, is accepted |
| `UrlPattern.AcceptsDocExample` | server.js:89 | `https://www.freecodecamp.org` is accepted |
| `UrlPattern.AcceptsMixedCase` | server.js:82 | `https://freeCodeCamp.org`, the URL in the route's doc comment, is accepted |
| `UrlPattern.AcceptsShortest` | server.js:89 | `a.bc` is accepted |
| `UrlPattern.RejectsFtp` | server.js:89 | `ftp://a.com` is rejected |
| `UrlPattern.RejectsEmpty` | server.js:89 | the empty string is rejected |
| `UrlPattern.RejectsLongTld` | server.js:89 | `a.abcdef` is rejected (TLD longer than 5) |
| `UrlPattern.RejectsLongPort` | server.js:89 | `a.com:123456` is rejected (port longer than 5 digits) |
| `JsParseInt.ParseInt` | server.js:127 | `parseInt(req.params.number)` with no radix: white space, sign, `0x` prefix, then `ReadDigits`; `ParseDecimalString` and `LeadingDecimal` prove it reads back the decimal spelling of an id, with or without a non-digit tail |
| `JsParseInt.ReadDigits` | server.js:127 | the last steps of parseInt: the value of the longest digit run with the sign applied, or NaN when the run is empty; `NoLeadingDigitIsNaN` covers the NaN case |
| `JsParseInt.TrimStart` | server.js:127 | parseInt drops exactly the leading StrWhiteSpaceChar characters |
| `JsParseInt.DigitRunLength` | server.js:127 | parseInt's digit run is the longest prefix of digits of the radix; in radix 10 it also gives the `[0-9]{1,5}` port digits of the URL pattern |
| `JsParseInt.DecimalString` | server.js:127 | the decimal spelling of an id is a non-empty string of digits, with no leading zero unless the id is 0 |
| `JsParseInt.DecimalStringValue` | server.js:127 | the digits of the decimal spelling of `n` denote `n` |
| `JsParseInt.PlainDecimal` | server.js:127 | a parameter that starts with a decimal digit and no `0x` is read in radix 10 from its first character |
| `JsParseInt.LeadingDecimal` | server.js:127 | parseInt of a decimal number followed by a non-digit suffix (no `x` after a lone 0) gives that number |
| `JsParseInt.ParseDecimalString` | server.js:127 | parseInt of the decimal spelling of `n` gives `n` |
| `JsParseInt.NoLeadingDigitIsNaN` | server.js:127 | a parameter that starts with no white space, sign or digit gives NaN |
| `JsParseInt.ParsesLeadingDigits` | server.js:127 | `12abc` parses as 12 |
| `JsParseInt.NoDigitsIsNaN` | server.js:127 | `abc` parses as NaN |
| `UrlRegistry.Consistent` | server.js:28 | the registry invariant: the URL→id and id→URL maps are inverse, the ids in use are exactly 1..counter, and the counter is the number of mappings; `EmptyIsConsistent` and `SubmitKeepsConsistent` prove it always holds |
| `UrlRegistry.Submitted` | server.js:87-118 | the submit route on a store: `invalid url` and no change when the pattern or DNS fails, the stored id for a known URL, otherwise a new mapping under counter + 1; `Registry.Submit` is proved to meet it, and `SubmitKeepsConsistent`, `SubmitTwiceIsIdempotent` and `FreshIdIsNew` state its properties |
| `UrlRegistry.Resolved` | server.js:125-134 | the resolve route on a store: parseInt of the parameter, then a redirect to the URL under that id or not-found; `Registry.Resolve` is proved to meet it, and `ResolveAssigned` and `SubmitThenResolve` tie it to `Submitted` |
| `UrlRegistry.Registry.constructor` | server.js:28-30 | the collection starts empty and the sequence has issued nothing; the invariant holds |
| `UrlRegistry.Registry.FindByUrl` | server.js:42-51 | finds a document exactly when the URL is stored, and returns that document's original_url (the URL itself) and short_url |
| `UrlRegistry.Registry.FindByShortId` | server.js:53-60 | finds a URL exactly when the number is an integer in 1..counter; NaN and other numbers find nothing; the URL found maps back to the id |
| `UrlRegistry.Registry.Save` | server.js:109-110 | the new document gets short_url = counter + 1, the counter advances by one, both maps gain exactly this mapping, and the invariant is kept |
| `UrlRegistry.Registry.Submit` | server.js:87-118 | the new state and the reply are those of `Submitted`: `invalid url` and no change when validation or DNS fails; the stored id and no change for a known URL; otherwise counter + 1 with the mapping inserted |
| `UrlRegistry.Registry.Resolve` | server.js:125-134 | reads only; redirects exactly when parseInt of the parameter is an assigned id, and to the URL stored under that id |
| `UrlRegistry.EmptyIsConsistent` | server.js:28 | the empty registry with counter 0 satisfies the invariant |
| `UrlRegistry.InsertKeepsConsistent` | server.js:109-110 | storing a new URL under counter + 1 keeps the maps inverse and the ids exactly 1..counter |
| `UrlRegistry.SubmitKeepsConsistent` | server.js:94-113 | every submit keeps the invariant, so ids stay pairwise distinct and within 1..counter |
| `UrlRegistry.RejectedSubmitChangesNothing` | server.js:94-117 | a URL that fails the pattern or the DNS check gets `invalid url` and leaves both maps and the counter unchanged |
| `UrlRegistry.SubmitTwiceIsIdempotent` | server.js:103-107 | submitting a valid URL twice gives the same short_url both times; the second submit changes nothing; exactly one id maps to the URL |
| `UrlRegistry.SubmitStoresOriginal` | server.js:109-112 | the reply's original_url is the submitted string unchanged, and the store maps the reply's short_url to that string in both directions |
| `UrlRegistry.FreshIdIsNew` | server.js:28 | a new URL gets counter + 1, which is above every id issued before; the counter advances by one and all ids lie in 1..counter |
| `UrlRegistry.SubmitKeepsMappings` | server.js:109-110 | a submit never changes or removes an existing mapping, and the counter never decreases |
| `UrlRegistry.SubmitAllKeepsMappings` | server.js:109-110 | over any run of submits, every URL already stored keeps its id |
| `UrlRegistry.SubmitAll` | server.js:87-118 | a run of submits gives one reply per request |
| `UrlRegistry.SubmitAllRecords` | server.js:87-118 | after a run of submits the invariant holds, and every short_url handed out still maps to the URL of its request |
| `UrlRegistry.SubmitAllIdsDistinct` | server.js:28 | in any run of submits, two accepted requests get the same short_url exactly when they carry the same URL |
| `UrlRegistry.ResolveAssigned` | server.js:125-133 | resolving the decimal spelling of an assigned id redirects to the URL stored for it |
| `UrlRegistry.ResolveUnassigned` | server.js:127-131 | a parameter that parses to NaN or to a number outside 1..counter gets not-found |
| `UrlRegistry.SubmitThenResolve` | server.js:125-134 | the short_url a submit hands out resolves to exactly the URL submitted |
| `UrlRegistry.ResolveReadsLeadingDigits` | server.js:127 | `12abc` resolves as id 12 |
| `UrlRegistry.FirstSubmission` | server.js:87-134 | on an empty registry, `https://www.freecodecamp.org` gets short_url 1, and resolving `1` redirects back to it |

## Left out

- HTTP plumbing: Express, CORS, body parsing, static files, environment configuration, server start-up, the redirect status code and JSON serialisation (server.js:1-4, 11, 32-39, 73-77, 106, 112, 130, 133, 136-138).
- The MongoDB connection and the mongoose driver (server.js:6-7, 14-30). The collection is two in-memory maps owned by `Registry`, one per lookup the routes make. Lookup errors of `findOne` are not modelled: such an error in the submit lookup (server.js:45) would end in the `invalid url` reply of server.js:116, and one in the resolve lookup (server.js:56) counts as not found.
- The DNS lookup and the Node `url` hostname parsing (server.js:62-70). These are a network call and a foreign library, so they are modelled together as the boolean `dnsResolves`. The value `isDnsActive` resolves to is the URL itself, which is never empty once the pattern has passed. So line 99 only ever sees the oracle's answer. For a URL with no scheme, Node's `url.parse` does not extract the domain. Without a port the hostname is null, which `dns.lookup` answers without an error, so server.js:64-66 does not reject such a URL. With a port (`a.com:8080`), `url.parse` reads `a.com:` as the protocol and `8080` as the hostname, so the lookup is made for `8080`. The unconstrained oracle covers both cases.
- Concurrency. The atomic increment of the sequence belongs to the auto-increment plugin, which is not part of this model. Requests are modelled as sequential.
- Save failures. The `throw` at server.js:111 runs inside the save callback and escapes the `try` at server.js:92, so it is an unhandled error, not a reply.
- UrlRegistry.Registry.Save: requires that the URL is not stored yet. The map model cannot hold two documents for one URL. In the source, only the lookup in `Submit` keeps duplicates out of the collection.
- JsParseInt.ParseInt: the result is a mathematical integer. The rounding to a double that the standard applies to very long digit runs is not modelled, and `-0` is modelled as `Int(0)`. Neither matters for lookups: ids start at 1, and ids near 2^53 are not reached.
- Non-string request bodies. JavaScript would convert an array, an object or a missing `url` to a string before testing it. The model takes `url` as a string.
- Strings are sequences of Unicode characters, not UTF-16 code units. The pattern's `.` matches both halves of a surrogate pair, so this does not change which well-formed strings are accepted. A JavaScript string holding a lone surrogate (for example from the JSON escape `"\ud800"`) has no counterpart in the model, although the `(\/.*)?` path part would accept it.
- The `g` flag on the pattern. A fresh `RegExp` is built for every request, so its `lastIndex` state has no effect.
