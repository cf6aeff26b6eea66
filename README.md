# Image-optimisation worker: the request pipeline, in Dafny

This project models `handleRequest` in `src/index.ts`. That is the edge worker that
serves resized images. For each request it:

1. derives a WebP flag from the `Accept` header;
2. resolves the `url` query parameter to an absolute image URL (a path-absolute
   value gets `https://demo.nordcom.io` in front) and rejects it with
   400 `url is required` when it is missing, empty or not a parsable URL;
3. builds the edge-cache key: the inbound URL with `webp=true|false` appended;
4. answers a cache hit with the stored response as it is;
5. parses `w` and `h` with `parseInt`. A missing value, `0` or NaN counts as absent.
   If both are absent the answer is 400 `Width or height not supplied`. If one is
   absent it takes the other's value;
6. fetches the image with `cf.image` directives (width, height, quality) and
   `cf.cacheKey` (the URL's pathname, or the whole URL). A thrown fetch or a
   non-2xx reply is 404 `image not found`;
7. serves SVG and GIF as they are, without a `date` header. Every other type gets a
   `date`. Both carry `Cache-Control: public, max-age=31536000, immutable`, and both
   store the response in the cache under the key.

Layout, one module per file:

- `wrappers.dfy`: the `Option` type.
- `js_string.dfy`: `split`, `trim` and `startsWith` as JavaScript defines them.
- `js_number.dfy`: `parseInt` with no radix. It skips leading whitespace, reads a
  sign and an optional `0x` prefix, then the longest digit run; with no digits the
  result is NaN.
- `http.dfy`: the request, the response, `URLSearchParams.get`, and the mutable
  `SearchParams` object.
- `negotiation.dfy`, `source.dfy`, `cache_key.dfy`, `dimensions.dfy`,
  `upstream.dfy`, `assembly.dfy`: the six pieces of the pipeline.
- `handler.dfy`: the decision function `Handle` and the mutable `EdgeCache`.
  `HandleRequest` runs the handler against a live `SearchParams` object and a live
  cache. It is proved to give `Handle`'s response and fetch, and to leave the cache
  as `Handle`'s scheduled write says.
- `handler_properties.dfy`: what the handler promises, stated about `Handle`.

The platform is an input, in the `Platform` datatype. It holds the URL parser's
verdict (`isValidUrl`), `pathname`, the upstream fetch (a function from the fetch
request to a thrown error or a reply), and the current date string.

Behaviours of `src/index.ts` that are easy to miss:

- No output-format directive is sent upstream. The WebP flag only enters the cache
  key, and there is no AVIF choice.
- An empty `url` is rejected, just like a missing one.
- `parseInt` is lenient: `"100px"` reads as 100, while `"0"` and `"abc"` count as
  absent.
- A negative width passes through unchecked.

When the upstream sends no `content-type`, the transformed branch sets the header to
`contentType!`. The `!` is only a TypeScript assertion. Converting that `null` to a
header value gives the text `null`, so the model serves `Content-Type: null`
(`Assembly.HeaderValue`).

## Model

| member | source | states |
|---|---|---|
| `JsString.TrimStart` | src/index.ts:15 | what is left is a suffix of the input, everything dropped is whitespace, and the result does not start with whitespace |
| `JsString.TrimEnd` | src/index.ts:15 | what is left is a prefix of the input, everything dropped is whitespace, and the result does not end with whitespace |
| `JsString.Trim` | src/index.ts:15 | `trim()` is no longer than its input and neither starts nor ends with whitespace |
| `JsString.TrimKeepsInfix` | src/index.ts:15 | `trim()` keeps one contiguous piece of the input, starting where the leading whitespace ends |
| `JsString.TrimDropsOnlyWhitespace` | src/index.ts:15 | everything `trim()` removes, before and after the kept piece, is whitespace |
| `JsString.TrimUnpadded` | src/index.ts:15 | a string without leading or trailing whitespace is its own trim |
| `JsString.TrimStartWhitespace` | src/index.ts:39 | whitespace put in front of a string is exactly what `TrimStart` removes again |
| `JsString.Split` | src/index.ts:14 | `split(',')` never returns an empty list, no piece holds the separator, and joining the pieces with it gives the input back |
| `JsString.SplitWithoutSeparator` | src/index.ts:14 | a string without a comma splits into itself alone |
| `JsString.SplitConcat` | src/index.ts:14 | splitting `a + "," + b` gives the pieces of `a` followed by the pieces of `b` |
| `JsNumber.DigitPrefix` | src/index.ts:39 | `parseInt` reads the longest run of digits at the front: all digits, followed by a non-digit or the end |
| `JsNumber.ParseMagnitude` | src/index.ts:39 | the unsigned part never reads as negative; it reads a number only from text that starts with a decimal digit, and always does so when there is no `0x`/`0X` prefix |
| `JsNumber.ParseSigned` | src/index.ts:39 | after at most one sign, a number comes back only when the text starts with a decimal digit |
| `JsNumber.ParseInt` | src/index.ts:39 | `parseInt(s)` gives a number only when, after the leading whitespace and at most one sign, the text starts with a decimal digit |
| `JsNumber.ParseMagnitudeDecimal` | src/index.ts:39 | any decimal digit run, leading zeros included (`"08"` is 8), reads as its value up to the first non-digit, unless it is the `0x` prefix |
| `JsNumber.ParseIntSkipsWhitespace` | src/index.ts:39 | leading whitespace never changes what `parseInt` reads |
| `JsNumber.ParseIntPlus` | src/index.ts:39 | a leading `+` is dropped and the rest is read as the unsigned part |
| `JsNumber.ParseIntDecimal` | src/index.ts:39 | `parseInt` of a decimal numeral, with or without trailing non-digit text, is its value (`"100px"` is 100) |
| `JsNumber.ParseIntMinus` | src/index.ts:39 | a leading `-` negates the value that follows and leaves NaN as NaN |
| `JsNumber.ParseIntNegative` | src/index.ts:39 | `parseInt("-" + numeral)` is the negated value |
| `JsNumber.ParseIntUnsigned` | src/index.ts:39 | text that starts with neither whitespace nor a sign is read by the unsigned part alone |
| `JsNumber.ParseIntHex` | src/index.ts:39 | a `0x` or `0X` prefix reads the hexadecimal digits after it up to the first non-digit, and gives NaN when no hexadecimal digit follows |
| `JsNumber.ParseIntNoDigits` | src/index.ts:39 | text with no decimal digit parses to NaN |
| `Http.Lookup` | src/index.ts:21 | a value found by `searchParams.get(name)` belongs to a pair with that name (LookupFirst states the rest) |
| `Http.LookupFirst` | src/index.ts:21 | `searchParams.get(name)` finds a value exactly when some pair has the name, and the value is the first such pair's |
| `Http.LookupAppend` | src/index.ts:30 | after `append`, a lookup sees the new pair only when no earlier pair has its name |
| `Http.SearchParams.constructor` | src/index.ts:18-20 | `url.searchParams` starts as the inbound query pairs |
| `Http.SearchParams.Append` | src/index.ts:30 | `append` adds the pair after all existing ones and replaces none |
| `Negotiation.Tokens` | src/index.ts:13-15 | the header gives one token per comma-separated piece, at least one, and no token starts or ends with whitespace |
| `Negotiation.AnyWebp` | src/index.ts:16 | `some(...)` holds exactly when some token is `image/webp`, `*/*` or `image/*` |
| `Negotiation.AcceptsWebp` | src/index.ts:11-16 | with no `Accept` header the flag is true; with one, it is true exactly when some trimmed comma-separated token is one of the three WebP ranges |
| `Negotiation.EmptyHeaderRejectsWebp` | src/index.ts:12-16 | an empty `Accept` header gives false, not the default true |
| `Negotiation.TokensConcat` | src/index.ts:14-15 | the tokens of two headers joined by a comma are the tokens of each, in order |
| `Negotiation.AcceptsWebpConcat` | src/index.ts:14-16 | joining two headers with a comma accepts WebP exactly when one of them does |
| `Negotiation.SingleRange` | src/index.ts:14-16 | a lone media range is accepted exactly when it is one of the three ranges as written |
| `Negotiation.QualifiedWebpNotMatched` | src/index.ts:16 | `image/webp;q=0.9` does not count as accepting WebP |
| `Source.ResolveImageUrl` | src/index.ts:21-24 | a missing `url` stays missing; one starting with `/` gets the demo origin in front, any other is kept; a non-empty result never starts with `/` |
| `Source.Resolve` | src/index.ts:21-27 | the URL is rejected exactly when `url` is missing or empty, or its resolution fails validation; an accepted URL is non-empty, valid and never path-relative |
| `Source.ResolvedLocation` | src/index.ts:22-24 | a `url` starting with `/` is fetched from the demo origin followed by that path; any other `url` is fetched as given |
| `CacheKeys.CacheKey` | src/index.ts:30-31 | the key keeps the inbound URL's base and its query pairs in order, and adds exactly one `webp=true`/`webp=false` pair at the end |
| `CacheKeys.CacheKeyInjective` | src/index.ts:30-31 | two keys are equal exactly when the inbound URLs and the WebP flags are both equal |
| `CacheKeys.OtherParamsUnchanged` | src/index.ts:30-55 | every parameter other than `webp` reads the same from the key as from the inbound URL |
| `CacheKeys.ExistingWebpKept` | src/index.ts:30 | the pair is appended, not set: a `webp` the client sent is still the one `get` finds |
| `Dimensions.ParsedParam` | src/index.ts:37-45 | a parameter is parsed exactly when it is present and non-empty, and then it is `parseInt` of its text |
| `Dimensions.Present` | src/index.ts:47-53 | a parsed width or height is truthy exactly when it is neither missing, nor NaN, nor 0 |
| `Dimensions.Reconcile` | src/index.ts:47-53 | the result is absent exactly when neither side is truthy; otherwise both sides are non-zero, a present side keeps its value, and a missing side copies the other (square) |
| `Dimensions.NumeralPresent` | src/index.ts:38-40 | a positive decimal numeral is a present width or height with its value |
| `Dimensions.ZeroOrNaNAbsent` | src/index.ts:47 | `"0"` and text without digits count as absent |
| `Upstream.PartitionKey` | src/index.ts:59 | `cf.cacheKey` is the URL's pathname, or the whole URL when the pathname is empty |
| `Upstream.Directives` | src/index.ts:55-65 | the fetch goes to the image URL with the given width and height; quality is parsed only when `q` is non-empty; the upstream cache key is `PartitionKey` of the image URL, so it is non-empty whenever the URL is |
| `Upstream.Received` | src/index.ts:66-72 | an image comes back exactly for a 2xx reply (an empty body included) and carries the reply's bytes and content type; a thrown fetch gives nothing |
| `Assembly.IsPassthrough` | src/index.ts:74 | a reply is passed through exactly when its content type is `image/svg+xml` or `image/gif` (the `contentType &&` guard adds nothing) |
| `Assembly.HeaderValue` | src/index.ts:94 | a present content type is the header value as it is; the value is `null` exactly when the type is missing or is that text |
| `Assembly.Assemble` | src/index.ts:74-98 | the response is a 200 with the upstream bytes, its content type and the immutable cache policy; it has a `date` (the current time) exactly when the type is not SVG or GIF |
| `Handler.Handle` | src/index.ts:10-101 | a request is rejected as `url is required` exactly when its `url` does not resolve; a hit serves the stored response; a cache write comes only after a fetch, only on a miss, and always under the request's key |
| `Handler.Miss` | src/index.ts:37-100 | after a miss the outcome is never a rejected URL or a hit; nothing is fetched exactly when the size is missing; the fetch goes to the resolved URL; a write uses the given key |
| `Handler.Respond` | src/index.ts:66-100 | the fetch is recorded; the answer is a 404 with no write exactly when no image came back, otherwise a 200 written to the cache under the key |
| `Handler.EdgeCache.constructor` | src/index.ts:29 | the cache starts with the given entries |
| `Handler.EdgeCache.Match` | src/index.ts:32 | `cache.match` hits exactly when the key is stored, and returns the stored response |
| `Handler.EdgeCache.Put` | src/index.ts:81 | `cache.put` maps the key to the response and keeps every other entry |
| `Handler.HandleRequest` | src/index.ts:10-101 | the handler returns the decision's response and the fetch it issued, and leaves the cache with exactly the decision's write added |
| `HandlerProperties.UrlRejected` | src/index.ts:21-27 | the outcome is 400 `url is required` exactly when `url` is missing, empty or fails validation, and then nothing is fetched or written |
| `HandlerProperties.UrlCheckedBeforeCache` | src/index.ts:25-35 | a rejected URL gets the same answer whatever the cache holds |
| `HandlerProperties.CacheHitVerbatim` | src/index.ts:32-35 | a hit happens exactly when the URL is accepted and the key is stored; it returns the stored response unchanged, whatever `w` and `h` are, with no fetch and no write |
| `HandlerProperties.ParamsSeenOnMiss` | src/index.ts:30-55 | `w`, `h` and `q`, read after the append, are the inbound request's values |
| `HandlerProperties.DimensionsRequired` | src/index.ts:37-48 | on a miss, 400 `Width or height not supplied` happens exactly when neither `w` nor `h` is truthy; nothing is fetched or written |
| `HandlerProperties.FetchDirectives` | src/index.ts:49-66 | a fetch is issued exactly on the 404 and 200 outcomes. It goes to the resolved URL with the reconciled non-zero size (square fallback) and the parsed quality. Its upstream cache key follows the pathname rule |
| `HandlerProperties.FetchIssued` | src/index.ts:47-57 | on a miss with an accepted URL and a truthy width or height, the fetch is issued |
| `HandlerProperties.UpstreamFailureNotFound` | src/index.ts:66-72 | the outcome is 404 `image not found` exactly when the fetch throws or the reply is not 2xx, and nothing is written |
| `HandlerProperties.SuccessServedAndStored` | src/index.ts:74-100 | a write is scheduled exactly on the two 200 outcomes. The response carries the upstream bytes, its content type and the immutable policy. It lacks `date` exactly for SVG and GIF. The same response is stored under the request's key |
| `HandlerProperties.WebpNotSentUpstream` | src/index.ts:57-66 | the `Accept` header does not change the fetch: the WebP flag reaches only the cache key |
| `HandlerProperties.RepeatIsCacheHit` | src/index.ts:31-99 | after a response is written, the same request is a hit returning that response, whatever the upstream and the clock do then |
| `HandlerProperties.PathAbsoluteScenario` | src/index.ts:21-66 | `?url=/photo.jpg&w=50&h=80` fetches `https://demo.nordcom.io/photo.jpg` at 50 by 80 with no quality |
| `HandlerProperties.WidthOnlyScenario` | src/index.ts:37-66 | `?url=…&w=100` fetches at 100 by 100 |

## Left out

- Handler.HandleRequest: the source reassigns the locals `imageUrl`, `width` and
  `height` statement by statement. The method gets those values from the pure
  functions `Source.Resolve` and `Dimensions.Reconcile` instead, which follow the same
  branches. The in-place `append` and the cache write stay as state changes.
- The image resize and the network: the upstream fetch is a function parameter from
  the fetch request to a thrown error or a reply. A failure to read the body
  (`arrayBuffer()` throwing) is part of the thrown-error case.
- Cache semantics of `caches.default`: the cache is a map with exact key equality.
  Vary headers, expiry and eviction are not modelled.
- Timing of `ctx.waitUntil`: `HandleRequest` applies the scheduled `cache.put` before
  it returns. The model does not cover a write landing later, or failing.
- URL parsing and serialisation: `isValidUrl` and `pathname` are parameters. The
  inbound query is taken as already split into name/value pairs. The key is the
  structured URL, so `url.toString()` and its percent-encoding are not modelled, and
  key injectivity is stated for the structured URL.
- Floating point in `parseInt`: numbers are unbounded integers. JavaScript loses
  precision past 2^53 and gives Infinity for very long numerals. Negative zero is
  the same as zero here; both are falsy either way.
- The clock: `new Date().toUTCString()` is the `now` string in `Platform`.
- Response bodies are opaque byte sequences; streaming is not modelled.
- Headers the platform adds on its own, such as the default content type of a text
  response, are not modelled. Error responses carry no header set by the handler.
- The commented-out `optimizeImage` and format code is dead, and so is not modelled.
- The `export default` wiring and `new URL(request.url)` throwing on a malformed
  request URL (the platform always passes a valid one) are not modelled.
