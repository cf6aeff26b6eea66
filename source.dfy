/**
 * Source-URL resolution: the `url` query parameter, made absolute with the
 * demo origin when it is path-absolute, then checked by the URL parser.
 */
module Source {
  import opened Wrappers
  import opened JsString

  const Origin := "https://demo.nordcom.io"

  /** The `imageUrl` local after the path-absolute rewrite. */
  function ResolveImageUrl(param: Option<string>): (resolved: Option<string>)
    ensures resolved.None? <==> param.None?
    ensures param.Some? && StartsWith(param.value, "/") ==> resolved.value == Origin + param.value
    ensures param.Some? && !StartsWith(param.value, "/") ==> resolved.value == param.value
    ensures resolved.Some? && resolved.value != "" ==> !StartsWith(resolved.value, "/")
  {
    match param
    case None => None
    case Some(p) =>
      if StartsWith(p, "/") then assert (Origin + p)[0] == Origin[0]; Some(Origin + p)
      else Some(p)
  }

  /**
   * The URL to fetch, or None for the 400 `url is required` response: the
   * parameter is missing, empty, or its resolution is not a parsable URL.
   * `isValidUrl` stands for `new URL(s)` not throwing.
   */
  function Resolve(param: Option<string>, isValidUrl: string -> bool): (imageUrl: Option<string>)
    ensures imageUrl.None? <==> param.None? || param.value == "" || !isValidUrl(ResolveImageUrl(param).value)
    ensures imageUrl.Some? ==> imageUrl.value != "" && isValidUrl(imageUrl.value) && !StartsWith(imageUrl.value, "/")
  {
    var resolved := ResolveImageUrl(param);
    if resolved.None? || resolved.value == "" || !isValidUrl(resolved.value) then None
    else resolved
  }

  /** A path-absolute parameter is fetched from the demo origin; any other is fetched as given. */
  lemma ResolvedLocation(param: string, isValidUrl: string -> bool)
    requires Resolve(Some(param), isValidUrl).Some?
    ensures var imageUrl := Resolve(Some(param), isValidUrl).value;
      if StartsWith(param, "/") then StartsWith(imageUrl, Origin) && imageUrl[|Origin|..] == param
      else imageUrl == param
  {
  }
}
