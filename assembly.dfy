/**
 * Response assembly after a successful fetch: SVG and GIF are passed through
 * without a `date` header, every other type is served with one; both carry the
 * upstream bytes, its content type and an immutable one-year cache policy.
 */
module Assembly {
  import opened Wrappers
  import opened Http

  const CacheControl := "public, max-age=31536000, immutable"

  /** The content types that are not raster-transformed upstream. */
  const PassthroughTypes: seq<string> := ["image/svg+xml", "image/gif"]

  /** `contentType && PassthroughTypes.includes(contentType)` */
  predicate IsPassthrough(contentType: Option<string>)
    ensures IsPassthrough(contentType) <==> contentType == Some("image/svg+xml") || contentType == Some("image/gif")
  {
    contentType.Some? && contentType.value != "" && contentType.value in PassthroughTypes
  }

  /** A header value from `string | null`: a missing content type is converted to the text "null". */
  function HeaderValue(contentType: Option<string>): (value: string)
    ensures contentType.Some? ==> value == contentType.value
    ensures value == "null" <==> contentType.None? || contentType.value == "null"
  {
    if contentType.Some? then contentType.value else "null"
  }

  /** The response built from the upstream bytes; `now` is `new Date().toUTCString()`. */
  function Assemble(image: Bytes, contentType: Option<string>, now: string): (response: Response)
    ensures response.status == 200 && response.body == Binary(image)
    ensures "content-type" in response.headers && "cache-control" in response.headers
    ensures contentType.Some? ==> response.headers["content-type"] == contentType.value
    ensures contentType.None? ==> response.headers["content-type"] == "null"
    ensures response.headers["cache-control"] == CacheControl
    ensures "date" in response.headers <==> !IsPassthrough(contentType)
    ensures "date" in response.headers ==> response.headers["date"] == now
    ensures response.headers.Keys <= {"content-type", "cache-control", "date"}
  {
    if IsPassthrough(contentType) then
      Response(200, map["content-type" := contentType.value, "cache-control" := CacheControl], Binary(image))
    else
      Response(200, map["content-type" := HeaderValue(contentType), "cache-control" := CacheControl, "date" := now], Binary(image))
  }


}
