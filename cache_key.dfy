/**
 * The edge-cache key: the inbound URL with one more query pair,
 * `webp=true` or `webp=false`, appended after the pairs it already has.
 */
module CacheKeys {
  import opened Wrappers
  import opened Http

  function BoolString(b: bool): string {
    if b then "true" else "false"
  }

  function CacheKey(url: RequestUrl, webp: bool): (key: RequestUrl)
    ensures key.base == url.base
    ensures |key.query| == |url.query| + 1 && key.query[..|url.query|] == url.query
    ensures key.query[|url.query|] == Param("webp", BoolString(webp))
  {
    RequestUrl(url.base, url.query + [Param("webp", BoolString(webp))])
  }

  /** Keys are equal exactly when the inbound URLs and the WebP flags are. */
  lemma CacheKeyInjective(u1: RequestUrl, f1: bool, u2: RequestUrl, f2: bool)
    ensures CacheKey(u1, f1) == CacheKey(u2, f2) <==> u1 == u2 && f1 == f2
  {
    if CacheKey(u1, f1) == CacheKey(u2, f2) {
      var k := CacheKey(u1, f1);
      assert |u1.query| == |u2.query|;
      assert u1.query == k.query[..|u1.query|] == u2.query;
      assert BoolString(f1) == k.query[|u1.query|].value == BoolString(f2);
    }
  }

  /** Every other parameter reads the same from the key as from the inbound URL. */
  lemma OtherParamsUnchanged(url: RequestUrl, webp: bool, name: string)
    requires name != "webp"
    ensures Lookup(CacheKey(url, webp).query, name) == Lookup(url.query, name)
  {
    LookupAppend(url.query, Param("webp", BoolString(webp)), name);
  }

  /** The pair is appended, not set: a `webp` the client sent is still the one `get` finds. */
  lemma ExistingWebpKept(url: RequestUrl, webp: bool)
    ensures Lookup(CacheKey(url, webp).query, "webp")
         == if Lookup(url.query, "webp").Some? then Lookup(url.query, "webp") else Some(BoolString(webp))
  {
    LookupAppend(url.query, Param("webp", BoolString(webp)), "webp");
  }
}
