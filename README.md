# Serverless URL shortener: the two Lambda handlers

This project models the core of a serverless URL shortener. Two AWS Lambda
handlers share one DynamoDB table of items `{id, longUrl, shortUrl}`:

- **shorten-url** checks the submitted `url` by JavaScript truthiness. It
  derives an id as the lowercase hex encoding of four random bytes, composes
  `shortUrl = BASE_URL + "/" + id`, and puts the item with an unconditional
  put. It answers 400 (no URL), 500 (the put failed) or 200 (`{shortUrl}`).
- **redirect** gets the item by id and normalises its `longUrl` with
  `ensureProtocol`. That function keeps a URL that parses as absolute and
  otherwise prepends `http://`. The handler answers 301 with a `Location`
  header. Every exception inside its `try` becomes 500, and that includes an
  unknown id.

Modules:

- `Hex` (hex.dfy): lowercase base16, the encoding of section 8 of RFC 4648
  with the alphabet of Node's `Buffer.toString("hex")`. It also has a
  strict decoder and the proofs that the two are inverse.
- `Store` (store.dfy): the table, as a class holding a `map` that its `Put`
  method updates in place.
- `ShortenUrl` (shorten.dfy): validation, id, short URL, the handler as a
  specification function `Shorten`, and the imperative `Handler` method proved
  against it.
- `Redirect` (redirect.dfy): `EnsureProtocol` and the read-only handler.
- `RoundTrip` (roundtrip.dfy): properties of the two handlers used together.
- `Http` and `Wrappers`: the response shape and `Option`.

Inputs from the environment become parameters:

- the four bytes of `randomBytes(4)`;
- `process.env.BASE_URL`;
- how the DynamoDB put ends (succeeded, rejected, or threw after the write
  was applied) and whether the get fails;
- the WHATWG URL parser behind `new URL(url)`, passed as a predicate
  `parsesAsAbsoluteUrl`.

The parser is not approximated. It accepts inputs such as
`example.com:8080/x`, whose scheme is `example.com`.

The model follows the code where it departs from what a URL shortener is
commonly expected to do:

- the put is unconditional, with no put-if-absent and no collision retry, and
  `RoundTrip.CollisionOverwrites` shows the result;
- a whitespace-only URL is accepted;
- an unknown id gives 500, not 404.

## Model

| member | source | states |
|---|---|---|
| `Hex.Digit` | lambdas/shorten-url/index.mjs:18 | each nibble becomes a character of `0-9a-f`, and decoding that character gives the nibble back |
| `Hex.ToHex` | lambdas/shorten-url/index.mjs:18 | the encoding has twice as many characters as there are bytes, and all of them are lowercase hex digits. Byte `i` sits at positions `2i` (high nibble) and `2i+1` (low nibble) |
| `Hex.FromHexToHex` | lambdas/shorten-url/index.mjs:18 | decoding the hex encoding of any byte sequence gives back exactly those bytes |
| `Hex.FromHex` | lambdas/shorten-url/index.mjs:18 | the strict decoder accepts a string exactly when it has even length and every character is in `0-9a-f`, and then yields half as many bytes as there are characters |
| `Hex.ToHexFromHex` | lambdas/shorten-url/index.mjs:18 | every string the strict decoder accepts is the encoding of what it decodes to, so encoding is onto the even-length lowercase hex strings |
| `Hex.ToHexInjective` | lambdas/shorten-url/index.mjs:18 | distinct byte sequences have distinct hex encodings |
| `ShortenUrl.IsTruthy` | lambdas/shorten-url/index.mjs:11 | `url` passes exactly when it is present and not the empty string |
| `ShortenUrl.UrlId` | lambdas/shorten-url/index.mjs:18 | the id from 4 bytes has exactly 8 characters, all in `0-9a-f`, contains no '/', and decodes to the 4 bytes |
| `ShortenUrl.LastSegment` | lambdas/shorten-url/index.mjs:19 | nothing in the handler computes it: it observes the short URL built at this line, and stands for how the `short_url_id` path parameter is taken from the link. The result is a suffix of the string with no '/' in it, and is either the whole string or preceded by a '/' |
| `ShortenUrl.LastSegmentAfterSlash` | lambdas/shorten-url/index.mjs:19 | for any prefix, the segment after the final '/' of `prefix + "/" + t` is `t` when `t` has no '/' |
| `ShortenUrl.ShortUrl` | lambdas/shorten-url/index.mjs:19 | the short URL starts with `BASE_URL`, then a '/', and its final segment is the id, with nothing else in between |
| `ShortenUrl.Shorten` | lambdas/shorten-url/index.mjs:8-48 | the status is 200, 400 or 500. It is 400 exactly when `url` is absent or `""`, with the error "URL is required". It is 500 exactly when the URL passes and the put throws, with "Error occurred while attempting to shorten URL". Neither error response has headers. The table is unchanged on 400 and when the store rejected the put. Whenever the put was applied (on 200, and on 500 after a write that then threw), the table maps the id to `{id, longUrl verbatim, BASE_URL + "/" + id}`, replacing any earlier item, and leaves every other key as it was. On 200 the header is `Content-Type: application/json` and the body's `shortUrl` is `BASE_URL + "/" + id` |
| `ShortenUrl.WhitespaceOnlyAccepted` | lambdas/shorten-url/index.mjs:11 | a non-empty URL made only of whitespace passes validation and is stored verbatim |
| `ShortenUrl.Handler` | lambdas/shorten-url/index.mjs:8-48 | the handler changes the table in place. Its response and the new table are those of `Shorten` applied to the old table |
| `ShortenUrl.PutPreservesWellFormed` | lambdas/shorten-url/index.mjs:21-31 | putting an item with an 8-character id with no '/', a non-empty long URL and the composed short URL keeps every item keyed by its own id and well formed |
| `ShortenUrl.ShortenPreservesWellFormed` | lambdas/shorten-url/index.mjs:18-31 | every shorten outcome keeps the table well formed: each key is its item's id, 8 characters long with no '/', and each item has a non-empty long URL and the short URL composed from the base |
| `Store.Table.Put` | lambdas/shorten-url/index.mjs:21-31 | the call reports success exactly when the put succeeded. A put that was applied, whether or not the call then threw, maps `item.id` to `item`, overwriting any earlier item, and leaves all other keys unchanged. A put the store rejected changes nothing |
| `Redirect.EnsureProtocol` | lambdas/redirect/index.mjs:7-14 | the URL comes back unchanged exactly when it parses as an absolute URL, and otherwise as `"http://" + url`. The input is always a suffix of the result, the result is non-empty when the input is, and it either parses or starts with `http://` |
| `Redirect.Handler` | lambdas/redirect/index.mjs:16-45 | the status is 301 or 500. It is 301 exactly when the get succeeds and the id is present, with only the header `Location = ensureProtocol(item.longUrl)` and no body. Otherwise it is 500 with the fixed "An error occurred while attempting to redirect you…" message, and an unknown id never gets a 301 |
| `RoundTrip.ShortenThenRedirect` | lambdas/redirect/index.mjs:25-35 | after a successful shorten of a non-empty URL, the redirect for the final segment of the returned short URL answers 301 with `Location = ensureProtocol(url)` |
| `RoundTrip.CollisionOverwrites` | lambdas/shorten-url/index.mjs:21-31 | two successful shortens that draw the same bytes return the same short URL. The second URL replaces the first, and the shared link redirects to the second URL |
| `RoundTrip.FailedShortenLeavesNoLink` | lambdas/shorten-url/index.mjs:30-39 | after a shorten whose put the store rejected, redirecting the id it drew answers 500 if that id was not stored before |
| `RoundTrip.FailedShortenMayStillLink` | lambdas/shorten-url/index.mjs:30-39 | when the put throws after DynamoDB applied it, the client gets 500 and no short URL, yet the id now redirects with 301 to `ensureProtocol(url)` |
| `RoundTrip.LocationNeverEmpty` | lambdas/redirect/index.mjs:26-33 | in a table written only by the shorten handler, a 301 always carries a non-empty `Location` |
| `RoundTrip.ShortenAndFollow` | lambdas/redirect/index.mjs:24-35 | a client that shortens through the in-place handler and then follows the link gets a link exactly when the URL passes and the put succeeds. Following it gives 301 to `ensureProtocol(url)` when the get succeeds, and the fixed 500 response when the get fails. The table afterwards is the one `Shorten` gives for the old table |

The redirect handler is a function of the table's contents. Nothing it does
can change the table, so a lookup repeated on the same table gives the same
answer.

## Left out

- The frontend (React page, buttons, footer, clipboard, axios call): UI state with no logic to state.
- The DynamoDB client: it is replaced by an in-memory map. How a put ends is a parameter (succeeded, rejected, or threw after the write was applied). A failed get is a boolean parameter; a get never changes the table. `TableName` and DynamoDB semantics beyond "get by key" and "unconditional put overwrites" are not modelled.
- Read consistency: a get is modelled as seeing every earlier put. The redirect's `GetCommand` does not set `ConsistentRead`, so DynamoDB serves an eventually consistent read. Such a read may miss a fresh item, which gives the same 500 as a failed get (`getFails`). It may also return the item that an overwrite replaced, which is not modelled. The 301s promised by `RoundTrip.ShortenThenRedirect`, `RoundTrip.CollisionOverwrites`, `RoundTrip.FailedShortenMayStillLink` and `RoundTrip.ShortenAndFollow` assume a read that sees the latest put.
- `randomBytes`: the four bytes are a parameter. Randomness and the probability of a collision are not modelled. `RoundTrip.CollisionOverwrites` shows what a collision does.
- The WHATWG URL parser: it is the parameter `parsesAsAbsoluteUrl`, so nothing is proved about which strings parse.
- `JSON.parse` of the request body. An uncaught exception on a malformed or null body happens outside the handled paths and is not modelled.
- Non-string `url` values (numbers, booleans, objects): `url` is modelled as an optional string. `None` covers an absent field and JSON `null`, which are both falsy.
- `JSON.stringify`: response bodies are the structured `Body` datatype, not serialised text.
- `process.env.BASE_URL`: it is a string parameter. An unset variable (which JavaScript renders as `"undefined"`) is just another string.
- A missing `pathParameters` in the redirect event throws outside the `try`. This is not modelled.
- A stored item without a `longUrl` field is not modelled, because the model's table only ever holds items written by the shorten handler.
- async/await and concurrent Lambda instances racing on the same id.
