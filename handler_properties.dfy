/**
 * What `handleRequest` promises, stated about the decision function: the
 * order of the checks, each outcome's response, the fetch it issues, the
 * cache write it schedules, and that a repeated request is served from cache.
 */
module HandlerProperties {
  import opened Wrappers
  import opened Http
  import opened JsString
  import opened JsNumber
  import opened Negotiation
  import opened Source
  import opened CacheKeys
  import opened Dimensions
  import opened Upstream
  import opened Assembly
  import opened Handler

  /** The `url` parameter as the handler resolves it. */
  function ImageUrlOf(request: Request, platform: Platform): Option<string> {
    Resolve(Lookup(request.url.query, "url"), platform.isValidUrl)
  }

  /** A missing, empty or unparsable `url` is a 400, with no fetch and no cache write. */
  lemma UrlRejected(request: Request, entries: map<RequestUrl, Response>, platform: Platform)
    ensures var p, d := Lookup(request.url.query, "url"), Handle(request, entries, platform);
      d.outcome == BadUrl <==> p.None? || p.value == "" || !platform.isValidUrl(ResolveImageUrl(p).value)
    ensures var d := Handle(request, entries, platform);
      d.outcome == BadUrl ==> d.response == TextResponse(400, "url is required") && d.fetch.None? && d.store.None?
  {
  }

  /** The URL check comes before the cache: a rejected request is answered the same whatever the cache holds. */
  lemma UrlCheckedBeforeCache(request: Request, e1: map<RequestUrl, Response>, e2: map<RequestUrl, Response>, platform: Platform)
    requires ImageUrlOf(request, platform).None?
    ensures Handle(request, e1, platform) == Handle(request, e2, platform)
  {
  }

  /**
   * A hit returns the stored response as it is, before and whatever the
   * width and height: no dimension check, no fetch, no write.
   */
  lemma CacheHitVerbatim(request: Request, entries: map<RequestUrl, Response>, platform: Platform)
    ensures var d := Handle(request, entries, platform);
      d.outcome == CacheHit <==> ImageUrlOf(request, platform).Some? && KeyOf(request) in entries
    ensures var d := Handle(request, entries, platform);
      d.outcome == CacheHit ==> d == Decision(CacheHit, entries[KeyOf(request)], None, None)
  {
  }

  /** The parsed `w` and `h` of the inbound request. */
  function WidthOf(request: Request): Option<ParsedInt> {
    ParsedParam(Lookup(request.url.query, "w"))
  }

  function HeightOf(request: Request): Option<ParsedInt> {
    ParsedParam(Lookup(request.url.query, "h"))
  }

  /** The appended `webp` pair does not change what `w`, `h` and `q` read as. */
  lemma ParamsSeenOnMiss(request: Request)
    ensures Lookup(KeyOf(request).query, "w") == Lookup(request.url.query, "w")
    ensures Lookup(KeyOf(request).query, "h") == Lookup(request.url.query, "h")
    ensures Lookup(KeyOf(request).query, "q") == Lookup(request.url.query, "q")
  {
    var webp := AcceptsWebp(request.accept);
    OtherParamsUnchanged(request.url, webp, "w");
    OtherParamsUnchanged(request.url, webp, "h");
    OtherParamsUnchanged(request.url, webp, "q");
  }

  /**
   * On a miss, with neither width nor height present (missing, empty, 0 or
   * NaN), the answer is 400 `Width or height not supplied`, and nothing is
   * fetched or written.
   */
  lemma DimensionsRequired(request: Request, entries: map<RequestUrl, Response>, platform: Platform)
    ensures var d := Handle(request, entries, platform);
      (d.outcome == MissingDimensions) <==>
        (ImageUrlOf(request, platform).Some? && KeyOf(request) !in entries
         && !Present(WidthOf(request)) && !Present(HeightOf(request)))
    ensures var d := Handle(request, entries, platform);
      d.outcome == MissingDimensions ==>
        d.response == TextResponse(400, "Width or height not supplied") && d.fetch.None? && d.store.None?
  {
    ParamsSeenOnMiss(request);
  }

  /**
   * The one fetch goes to the resolved URL with the reconciled size (a
   * missing side copied from the other, both non-zero), the quality parsed
   * only when `q` is non-empty, and the pathname, or the whole URL, as the
   * upstream's cache key. It is issued exactly on the three outcomes that follow it.
   */
  lemma FetchDirectives(request: Request, entries: map<RequestUrl, Response>, platform: Platform)
    ensures var d := Handle(request, entries, platform);
      d.fetch.Some? <==> d.outcome in {NotFound, Passthrough, Transformed}
    ensures var d, w, h := Handle(request, entries, platform), WidthOf(request), HeightOf(request);
      d.fetch.Some? ==>
        var f := d.fetch.value;
        && ImageUrlOf(request, platform) == Some(f.url)
        && f.cacheKey == PartitionKey(f.url, platform.pathname)
        && f.image.width != 0 && f.image.height != 0
        && (Present(w) ==> f.image.width == w.value.value)
        && (Present(h) ==> f.image.height == h.value.value)
        && (!Present(w) ==> f.image.width == f.image.height)
        && (!Present(h) ==> f.image.height == f.image.width)
        && f.image.quality == ParsedParam(Lookup(request.url.query, "q"))
  {
    ParamsSeenOnMiss(request);
  }

  /** A thrown fetch or a non-2xx reply is a 404 `image not found`, and nothing is written. */
  lemma UpstreamFailureNotFound(request: Request, entries: map<RequestUrl, Response>, platform: Platform)
    ensures var d := Handle(request, entries, platform);
      d.outcome == NotFound <==> d.fetch.Some? && Received(platform.upstream(d.fetch.value)).None?
    ensures var d := Handle(request, entries, platform);
      d.outcome == NotFound ==> d.response == TextResponse(404, "image not found") && d.store.None?
  {
  }

  /**
   * Any 2xx reply, an empty body included, is served with status 200, the
   * upstream bytes, its content type and the immutable cache policy; SVG and
   * GIF are exactly the replies without a `date`; and the same response is
   * written to the cache under the request's key.
   */
  lemma SuccessServedAndStored(request: Request, entries: map<RequestUrl, Response>, platform: Platform)
    ensures var d := Handle(request, entries, platform);
      d.store.Some? <==> d.outcome in {Passthrough, Transformed}
    ensures var d := Handle(request, entries, platform);
      d.outcome in {Passthrough, Transformed} ==>
        var reply := platform.upstream(d.fetch.value);
        && d.fetch.Some? && reply.Reply? && 200 <= reply.status <= 299
        && d.response.status == 200 && d.response.body == Binary(reply.body)
        && d.response.headers["content-type"] == HeaderValue(reply.contentType)
        && d.response.headers["cache-control"] == "public, max-age=31536000, immutable"
        && (d.outcome == Passthrough <==> IsPassthrough(reply.contentType))
        && ("date" in d.response.headers <==> d.outcome == Transformed)
        && d.store == Some(CacheWrite(KeyOf(request), d.response))
  {
  }

  /** The WebP flag reaches the cache key only: on a miss, the fetch is the same whatever `Accept` says. */
  lemma WebpNotSentUpstream(request: Request, a1: Option<string>, a2: Option<string>,
                            entries: map<RequestUrl, Response>, platform: Platform)
    requires KeyOf(request.(accept := a1)) !in entries && KeyOf(request.(accept := a2)) !in entries
    ensures Handle(request.(accept := a1), entries, platform).fetch == Handle(request.(accept := a2), entries, platform).fetch
  {
    ParamsSeenOnMiss(request.(accept := a1));
    ParamsSeenOnMiss(request.(accept := a2));
  }

  /**
   * Once a response is written, the same request is a hit that returns it
   * unchanged, whatever the upstream and the clock do by then.
   */
  lemma RepeatIsCacheHit(request: Request, entries: map<RequestUrl, Response>, platform: Platform,
                         upstream: FetchRequest -> UpstreamResult, now: string)
    requires Handle(request, entries, platform).store.Some?
    ensures var d := Handle(request, entries, platform);
      Handle(request, Stored(entries, d), platform.(upstream := upstream, now := now))
        == Decision(CacheHit, d.response, None, None)
  {
  }

  /** A miss with a usable URL and a present width or height always reaches the fetch. */
  lemma FetchIssued(request: Request, entries: map<RequestUrl, Response>, platform: Platform)
    requires ImageUrlOf(request, platform).Some? && KeyOf(request) !in entries
    requires Present(WidthOf(request)) || Present(HeightOf(request))
    ensures Handle(request, entries, platform).fetch.Some?
  {
    UrlRejected(request, entries, platform);
    CacheHitVerbatim(request, entries, platform);
    DimensionsRequired(request, entries, platform);
    FetchDirectives(request, entries, platform);
  }

  /** `?url=/photo.jpg&w=50&h=80`: fetched from the demo origin at 50 by 80, no square fallback. */
  lemma PathAbsoluteScenario(base: string, platform: Platform)
    requires platform.isValidUrl("https://demo.nordcom.io/photo.jpg")
    ensures var request := Request(RequestUrl(base, [Param("url", "/photo.jpg"), Param("w", "50"), Param("h", "80")]), None);
      Handle(request, map[], platform).fetch
        == Some(FetchRequest("https://demo.nordcom.io/photo.jpg",
                             PartitionKey("https://demo.nordcom.io/photo.jpg", platform.pathname),
                             ImageOptions(50, 80, None)))
  {
    var request := Request(RequestUrl(base, [Param("url", "/photo.jpg"), Param("w", "50"), Param("h", "80")]), None);
    assert Lookup(request.url.query, "url") == Some("/photo.jpg");
    assert StartsWith("/photo.jpg", "/");
    assert Origin + "/photo.jpg" == "https://demo.nordcom.io/photo.jpg";
    assert ImageUrlOf(request, platform) == Some("https://demo.nordcom.io/photo.jpg");
    var q := request.url.query;
    assert q[1..] == [Param("w", "50"), Param("h", "80")] && q[2..] == [Param("h", "80")];
    assert q[1..][1..] == q[2..] && q[2..][1..] == [];
    assert Lookup(q, "w") == Some(Decimal(50) + "") by {
      assert Decimal(50) == "50";
      assert Decimal(50) + "" == "50";
      assert Lookup(q, "w") == Lookup(q[1..], "w");
    }
    assert Lookup(q, "h") == Some(Decimal(80) + "") by {
      assert Decimal(80) == "80";
      assert Decimal(80) + "" == "80";
      assert Lookup(q, "h") == Lookup(q[1..], "h") == Lookup(q[2..], "h");
    }
    assert Lookup(q, "q") == None by {
      assert Lookup(q, "q") == Lookup(q[1..], "q") == Lookup(q[2..], "q") == Lookup([], "q");
    }
    NumeralPresent(50, "");
    NumeralPresent(80, "");
    FetchIssued(request, map[], platform);
    FetchDirectives(request, map[], platform);
  }

  /** `?url=…&w=100`: the height follows the width, 100 by 100. */
  lemma WidthOnlyScenario(base: string, url: string, platform: Platform)
    requires url != "" && !StartsWith(url, "/") && platform.isValidUrl(url)
    ensures var request := Request(RequestUrl(base, [Param("url", url), Param("w", "100")]), None);
      Handle(request, map[], platform).fetch
        == Some(FetchRequest(url, PartitionKey(url, platform.pathname), ImageOptions(100, 100, None)))
  {
    var request := Request(RequestUrl(base, [Param("url", url), Param("w", "100")]), None);
    assert Lookup(request.url.query, "url") == Some(url);
    assert ImageUrlOf(request, platform) == Some(url);
    var q := request.url.query;
    assert q[1..] == [Param("w", "100")] && q[1..][1..] == [];
    assert Lookup(q, "w") == Some(Decimal(100) + "") by {
      assert Decimal(100) == "100";
      assert Decimal(100) + "" == "100";
      assert Lookup(q, "w") == Lookup(q[1..], "w");
    }
    assert Lookup(q, "h") == None by {
      assert Lookup(q, "h") == Lookup(q[1..], "h") == Lookup([], "h");
    }
    assert Lookup(q, "q") == None by {
      assert Lookup(q, "q") == Lookup(q[1..], "q") == Lookup([], "q");
    }
    NumeralPresent(100, "");
    FetchIssued(request, map[], platform);
    FetchDirectives(request, map[], platform);
  }
}
