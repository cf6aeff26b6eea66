/**
 * Accept negotiation: whether the client takes WebP, read from the `Accept`
 * header by splitting it at commas, trimming each piece and looking for an
 * exact media range that admits WebP.
 */
module Negotiation {
  import opened Wrappers
  import opened JsString

  /** The media ranges that count as accepting WebP; any parameter (`;q=`) defeats the match. */
  const WebpRanges: seq<string> := ["image/webp", "*/*", "image/*"]

  /** The header's comma-separated pieces, each trimmed. */
  function Tokens(header: string): (tokens: seq<string>)
    ensures |tokens| == |Split(header, ',')| >= 1
    ensures forall i :: 0 <= i < |tokens| && |tokens[i]| > 0 ==>
      !IsWhitespace(tokens[i][0]) && !IsWhitespace(tokens[i][|tokens[i]| - 1])
  {
    var parts := Split(header, ',');
    seq(|parts|, i requires 0 <= i < |parts| => Trim(parts[i]))
  }

  /** `tokens.some(t => WebpRanges.includes(t))` */
  function AnyWebp(tokens: seq<string>): (r: bool)
    ensures r <==> exists i :: 0 <= i < |tokens| && tokens[i] in WebpRanges
  {
    if tokens == [] then false
    else tokens[0] in WebpRanges || AnyWebp(tokens[1..])
  }

  /** No header means WebP is taken; a header means it is taken only when a token names it. */
  function AcceptsWebp(accept: Option<string>): (webp: bool)
    ensures accept.None? ==> webp
    ensures accept.Some? ==> (webp <==> exists t :: t in Tokens(accept.value) && t in WebpRanges)
  {
    match accept
    case None => true
    case Some(header) => AnyWebp(Tokens(header))
  }

  /** An empty header is a header: it splits into one empty token, which names nothing. */
  lemma EmptyHeaderRejectsWebp()
    ensures !AcceptsWebp(Some(""))
  {
    assert Tokens("") == [""];
  }

  /** The tokens of two headers joined with a comma are the tokens of each, in order. */
  lemma TokensConcat(a: string, b: string)
    ensures Tokens(a + "," + b) == Tokens(a) + Tokens(b)
  {
    SplitConcat(a, b, ',');
    assert a + "," + b == a + [','] + b;
    var pa, pb := Split(a, ','), Split(b, ',');
    assert forall i :: 0 <= i < |pa| ==> (pa + pb)[i] == pa[i];
    assert forall i :: |pa| <= i < |pa| + |pb| ==> (pa + pb)[i] == pb[i - |pa|];
  }

  /** Joining two headers with a comma accepts WebP exactly when one of them does. */
  lemma AcceptsWebpConcat(a: string, b: string)
    ensures AcceptsWebp(Some(a + "," + b)) <==> AcceptsWebp(Some(a)) || AcceptsWebp(Some(b))
  {
    TokensConcat(a, b);
    var ta, tb := Tokens(a), Tokens(b);
    assert forall t :: t in ta + tb <==> t in ta || t in tb;
  }

  /** A lone media range is accepted exactly when it is one of the WebP ranges as written. */
  lemma SingleRange(range: string)
    requires |range| > 0 && ',' !in range
    requires !IsWhitespace(range[0]) && !IsWhitespace(range[|range| - 1])
    ensures AcceptsWebp(Some(range)) <==> range in WebpRanges
  {
    SplitWithoutSeparator(range, ',');
    TrimUnpadded(range);
    assert Tokens(range) == [range];
  }

  /** So a quality parameter on the WebP range is not a match. */
  lemma QualifiedWebpNotMatched()
    ensures !AcceptsWebp(Some("image/webp;q=0.9"))
  {
    SingleRange("image/webp;q=0.9");
  }
}
