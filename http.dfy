/**
 * The HTTP values the worker handles: the inbound request (its URL with the
 * query already split into name/value pairs, and its `Accept` header), the
 * response, and `URLSearchParams`, which the handler reads and appends to.
 */
module Http {
  import opened Wrappers

  datatype Param = Param(name: string, value: string)

  /** A URL: everything before the query (scheme, host, path), then the query pairs in order. */
  datatype RequestUrl = RequestUrl(base: string, query: seq<Param>)

  datatype Request = Request(url: RequestUrl, accept: Option<string>)

  type Bytes = seq<bv8>

  datatype Body = Text(text: string) | Binary(bytes: Bytes)

  /** Header names are stored lower-case, as the Fetch `Headers` object normalises them. */
  datatype Response = Response(status: int, headers: map<string, string>, body: Body)

  /** `new Response(text, { status })`: a text body and no header set by the handler. */
  function TextResponse(status: int, text: string): Response {
    Response(status, map[], Text(text))
  }

  /** `URLSearchParams.get(name)`: the value of the first pair with that name, if any (see LookupFirst). */
  function Lookup(query: seq<Param>, name: string): (r: Option<string>)
    ensures r.Some? ==> Param(name, r.value) in query
  {
    if query == [] then None
    else if query[0].name == name then Some(query[0].value)
    else Lookup(query[1..], name)
  }

  /** Lookup finds a value exactly when some pair has the name, and then it is the first such pair's. */
  lemma {:induction false} LookupFirst(query: seq<Param>, name: string)
    ensures Lookup(query, name).Some? <==> exists i :: 0 <= i < |query| && query[i].name == name
    ensures Lookup(query, name).Some? ==>
      exists i :: 0 <= i < |query| && query[i] == Param(name, Lookup(query, name).value)
                  && forall j :: 0 <= j < i ==> query[j].name != name
  {
    if query != [] && query[0].name != name {
      LookupFirst(query[1..], name);
      assert forall i :: 0 < i < |query| ==> query[i] == query[1..][i - 1];
      if Lookup(query, name).Some? {
        var i :| 0 <= i < |query[1..]| && query[1..][i] == Param(name, Lookup(query, name).value)
                 && forall j :: 0 <= j < i ==> query[1..][j].name != name;
        assert query[i + 1] == Param(name, Lookup(query, name).value);
        assert forall j :: 0 <= j < i + 1 ==> query[j].name != name;
      }
    }
  }

  /** An appended pair is seen by a lookup only when no earlier pair has its name. */
  lemma {:induction false} LookupAppend(query: seq<Param>, p: Param, name: string)
    ensures Lookup(query + [p], name)
         == if Lookup(query, name).Some? then Lookup(query, name)
            else if p.name == name then Some(p.value) else None
  {
    if query != [] {
      assert (query + [p])[1..] == query[1..] + [p];
      LookupAppend(query[1..], p, name);
    }
  }

  /** `url.searchParams`: the live query of a URL object, changed in place by `append`. */
  class SearchParams {
    var pairs: seq<Param>

    constructor (query: seq<Param>)
      ensures pairs == query
    {
      pairs := query;
    }

    function Get(name: string): Option<string>
      reads this
    {
      Lookup(pairs, name)
    }

    /** `append(name, value)`: adds a pair after all existing ones, replacing none. */
    method Append(name: string, value: string)
      modifies this
      ensures pairs == old(pairs) + [Param(name, value)]
    {
      pairs := pairs + [Param(name, value)];
    }
  }
}
