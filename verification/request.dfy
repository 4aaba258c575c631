/**
 * The snapshot of one inbound request that canonicalisation reads, and the
 * servlet header lookup.
 */
module Requests {
  import opened Wrappers
  import opened JavaStrings

  /** One header name with its values, in the order the container gives them. */
  datatype Header = Header(name: string, values: seq<string>)

  datatype Request = Request(
    /** `getMethod()`, as sent. */
    httpMethod: string,
    /** `getRequestURL()`: scheme, host, port and path, without the query. */
    url: string,
    /** `getQueryString()`: the raw query, `None` when the URL has none. */
    query: Option<string>,
    /** `getHeaderNames()` with `getHeaders(name)` for each, in transport order. */
    headers: seq<Header>,
    /** `getParameterMap()`: query and form parameters. */
    params: map<string, seq<string>>,
    /** The text `getReader()` yields (the buffered body). */
    body: string,
    /**
     * `None` when the request is not multipart; otherwise each file field
     * with the Base64 MD5 digest of each of its files, in upload order.
     */
    files: Option<map<string, seq<string>>>
  )

  /**
   * `getHeader(name)`: the first value of the first header whose name
   * matches ignoring case, or `None` (Java `null`).
   */
  function GetHeader(hs: seq<Header>, name: string): (r: Option<string>)
    ensures r.Some? ==> exists i :: 0 <= i < |hs| && EqualsIgnoreCase(hs[i].name, name) && r.value in hs[i].values
    ensures r.None? <==> forall i :: 0 <= i < |hs| && EqualsIgnoreCase(hs[i].name, name) ==> hs[i].values == []
  {
    if hs == [] then None
    else if EqualsIgnoreCase(hs[0].name, name) && hs[0].values != [] then Some(hs[0].values[0])
    else
      var r := GetHeader(hs[1..], name);
      assert forall i :: 1 <= i < |hs| ==> hs[i] == hs[1..][i - 1];
      r
  }

  /** A header whose name does not match is invisible to the lookup. */
  lemma {:induction false} GetHeaderSkips(a: seq<Header>, h: Header, b: seq<Header>, name: string)
    requires !EqualsIgnoreCase(h.name, name)
    ensures GetHeader(a + [h] + b, name) == GetHeader(a + b, name)
  {
    if a == [] {
      assert a + [h] + b == [h] + b && ([h] + b)[1..] == b && a + b == b;
    } else {
      GetHeaderSkips(a[1..], h, b, name);
      assert (a + [h] + b)[1..] == a[1..] + [h] + b;
      assert (a + b)[1..] == a[1..] + b;
    }
  }

  /** The lookup answers with the first header that matches and has a value. */
  lemma {:induction false} GetHeaderFirstMatch(a: seq<Header>, h: Header, b: seq<Header>, name: string)
    requires GetHeader(a, name).None?
    requires EqualsIgnoreCase(h.name, name) && h.values != []
    ensures GetHeader(a + [h] + b, name) == Some(h.values[0])
  {
    if a == [] {
      assert (a + [h] + b)[0] == h;
    } else {
      assert (a + [h] + b)[0] == a[0];
      assert (a + [h] + b)[1..] == a[1..] + [h] + b;
      assert GetHeader(a[1..], name).None?;
      GetHeaderFirstMatch(a[1..], h, b, name);
    }
  }
}

