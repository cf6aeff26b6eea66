/**
 * The upstream fetch: the directives the handler attaches (`cf.cacheKey` and
 * `cf.image`), and how the reply is classified before the response is built.
 * The resize itself happens upstream and is not part of this model.
 */
module Upstream {
  import opened Wrappers
  import opened Http
  import opened JsNumber
  import opened Dimensions

  /** `cf.image`: the reconciled size and the quality, passed through unvalidated. */
  datatype ImageOptions = ImageOptions(width: int, height: int, quality: Option<ParsedInt>)

  /** One `fetch(url, { cf: { cacheKey, image } })`; the WebP flag has no field here. */
  datatype FetchRequest = FetchRequest(url: string, cacheKey: string, image: ImageOptions)

  /** What the fetch settles to: a thrown error, or a reply with its status, body and `content-type`. */
  datatype UpstreamResult = NetworkError | Reply(status: int, body: Bytes, contentType: Option<string>)

  datatype Image = Image(bytes: Bytes, contentType: Option<string>)

  /** `new URL(imageUrl).pathname || imageUrl`; `pathname` stands for the URL parser. */
  function PartitionKey(imageUrl: string, pathname: string -> string): (key: string)
    ensures pathname(imageUrl) != "" ==> key == pathname(imageUrl)
    ensures pathname(imageUrl) == "" ==> key == imageUrl
  {
    var path := pathname(imageUrl);
    if path != "" then path else imageUrl
  }

  function Directives(imageUrl: string, size: Size, quality: Option<string>, pathname: string -> string): (request: FetchRequest)
    ensures request.url == imageUrl
    ensures request.image.width == size.width && request.image.height == size.height
    ensures request.image.quality.None? <==> quality.None? || quality.value == ""
    ensures request.image.quality.Some? ==> request.image.quality.value == ParseInt(quality.value)
    ensures request.cacheKey == PartitionKey(imageUrl, pathname)
    ensures imageUrl != "" ==> request.cacheKey != ""
  {
    FetchRequest(imageUrl, PartitionKey(imageUrl, pathname), ImageOptions(size.width, size.height, ParsedParam(quality)))
  }

  /**
   * `.then(res => res.ok ? [body, type] : []).catch(() => [])`: an image only
   * for a 2xx reply, an empty body included; a thrown fetch and any other
   * status both give nothing.
   */
  function Received(result: UpstreamResult): (image: Option<Image>)
    ensures image.Some? <==> result.Reply? && 200 <= result.status <= 299
    ensures image.Some? ==> image.value.bytes == result.body && image.value.contentType == result.contentType
  {
    match result
    case NetworkError => None
    case Reply(status, body, contentType) =>
      if 200 <= status <= 299 then Some(Image(body, contentType)) else None
  }
}
