/**
 * `handleRequest`: the request-decision pipeline. `Handle` says, as one
 * function of the request, the cache contents and the platform, which of the
 * six outcomes a request has, the response, the fetch it issues and the cache
 * write it schedules; `HandleRequest` does the same step by step, as the
 * handler does, against a mutable cache.
 */
module Handler {
  import opened Wrappers
  import opened Http
  import opened Negotiation
  import opened Source
  import opened CacheKeys
  import opened Dimensions
  import opened Upstream
  import opened Assembly

  /**
   * What the handler gets from its platform: the URL parser's verdict and
   * its `pathname`, the upstream fetch, and the clock's current date string.
   */
  datatype Platform = Platform(
    isValidUrl: string -> bool,
    pathname: string -> string,
    upstream: FetchRequest -> UpstreamResult,
    now: string)

  datatype Outcome = BadUrl | CacheHit | MissingDimensions | NotFound | Passthrough | Transformed

  /** A `cache.put(key, response.clone())` scheduled with `ctx.waitUntil`. */
  datatype CacheWrite = CacheWrite(key: RequestUrl, response: Response)

  datatype Decision = Decision(outcome: Outcome, response: Response, fetch: Option<FetchRequest>, store: Option<CacheWrite>)

  const UrlRequired := "url is required"
  const SizeRequired := "Width or height not supplied"
  const ImageNotFound := "image not found"

  /** The cache key of a request: its URL plus its WebP flag. */
  function KeyOf(request: Request): RequestUrl {
    CacheKey(request.url, AcceptsWebp(request.accept))
  }

  /**
   * The decision for one request: the URL check first, then the cache lookup,
   * then the rest. A hit serves the stored response; a write happens only
   * after a fetch, only on a miss, and always under the request's key.
   */
  function Handle(request: Request, entries: map<RequestUrl, Response>, platform: Platform): (d: Decision)
    ensures d.outcome == BadUrl <==> Resolve(Lookup(request.url.query, "url"), platform.isValidUrl).None?
    ensures d.outcome == CacheHit ==> KeyOf(request) in entries && d.response == entries[KeyOf(request)]
    ensures d.store.Some? ==> d.fetch.Some? && KeyOf(request) !in entries && d.store.value.key == KeyOf(request)
  {
    match Resolve(Lookup(request.url.query, "url"), platform.isValidUrl)
    case None => Decision(BadUrl, TextResponse(400, UrlRequired), None, None)
    case Some(imageUrl) =>
      var key := KeyOf(request);
      if key in entries then Decision(CacheHit, entries[key], None, None)
      else Miss(imageUrl, key, platform)
  }

  /**
   * A cache miss. Width, height and quality are read from the key's query,
   * because the handler appends the WebP pair to the same `searchParams`
   * object it reads them from afterwards.
   */
  function Miss(imageUrl: string, key: RequestUrl, platform: Platform): (d: Decision)
    ensures d.outcome != BadUrl && d.outcome != CacheHit
    ensures d.fetch.None? <==> d.outcome == MissingDimensions
    ensures d.fetch.Some? ==> d.fetch.value.url == imageUrl
    ensures d.store.Some? ==> d.fetch.Some? && d.store.value.key == key
  {
    match Reconcile(ParsedParam(Lookup(key.query, "w")), ParsedParam(Lookup(key.query, "h")))
    case None => Decision(MissingDimensions, TextResponse(400, SizeRequired), None, None)
    case Some(size) =>
      var fetch := Directives(imageUrl, size, Lookup(key.query, "q"), platform.pathname);
      Respond(key, fetch, platform.upstream(fetch), platform.now)
  }

  /** What the handler does with the upstream's reply to `fetch`. */
  function Respond(key: RequestUrl, fetch: FetchRequest, result: UpstreamResult, now: string): (d: Decision)
    ensures d.fetch == Some(fetch)
    ensures d.outcome == NotFound <==> Received(result).None?
    ensures d.outcome == NotFound ==> d.response.status == 404 && d.store.None?
    ensures d.outcome != NotFound ==> d.response.status == 200 && d.store == Some(CacheWrite(key, d.response))
  {
    match Received(result)
    case None => Decision(NotFound, TextResponse(404, ImageNotFound), Some(fetch), None)
    case Some(image) =>
      var response := Assemble(image.bytes, image.contentType, now);
      Decision(if IsPassthrough(image.contentType) then Passthrough else Transformed,
               response, Some(fetch), Some(CacheWrite(key, response)))
  }

  /** The cache state after a decision's write, if it has one. */
  function Stored(entries: map<RequestUrl, Response>, d: Decision): map<RequestUrl, Response> {
    match d.store
    case None => entries
    case Some(write) => entries[write.key := write.response]
  }

  /** `caches.default`, the edge cache, as a map from request URL to stored response. */
  class EdgeCache {
    var entries: map<RequestUrl, Response>

    constructor (entries: map<RequestUrl, Response>)
      ensures this.entries == entries
    {
      this.entries := entries;
    }

    /** `cache.match(key)`: the stored response itself, or nothing. */
    function Match(key: RequestUrl): (r: Option<Response>)
      reads this
      ensures r.Some? <==> key in entries
      ensures r.Some? ==> r.value == entries[key]
    {
      if key in entries then Some(entries[key]) else None
    }

    /** `cache.put(key, response)`: the key now maps to the response, every other key is kept. */
    method Put(key: RequestUrl, response: Response)
      modifies this
      ensures entries == old(entries)[key := response]
    {
      entries := entries[key := response];
    }
  }

  /**
   * `handleRequest` against the live cache and a live `searchParams` object:
   * it returns the response and the fetch it issued, and leaves the cache as
   * the decision's write says.
   */
  method HandleRequest(cache: EdgeCache, request: Request, platform: Platform)
    returns (response: Response, fetched: Option<FetchRequest>)
    modifies cache
    ensures var d := Handle(request, old(cache.entries), platform);
      response == d.response && fetched == d.fetch && cache.entries == Stored(old(cache.entries), d)
  {
    var isWebp := AcceptsWebp(request.accept);

    var params := new SearchParams(request.url.query);
    var imageUrl := Resolve(params.Get("url"), platform.isValidUrl);
    if imageUrl.None? {
      return TextResponse(400, UrlRequired), None;
    }

    // `params` and `url.searchParams` are one object: the key's pair is seen by the reads below.
    params.Append("webp", BoolString(isWebp));
    var cacheKey := RequestUrl(request.url.base, params.pairs);
    var cachedResponse := cache.Match(cacheKey);
    if cachedResponse.Some? {
      return cachedResponse.value, None;
    }

    var size := Reconcile(ParsedParam(params.Get("w")), ParsedParam(params.Get("h")));
    if size.None? {
      return TextResponse(400, SizeRequired), None;
    }

    var fetch := Directives(imageUrl.value, size.value, params.Get("q"), platform.pathname);
    fetched := Some(fetch);
    var image := Received(platform.upstream(fetch));
    if image.None? {
      return TextResponse(404, ImageNotFound), fetched;
    }

    response := Assemble(image.value.bytes, image.value.contentType, platform.now);
    cache.Put(cacheKey, response);
  }
}
