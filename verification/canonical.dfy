/**
 * The canonical string of a request, built in three passes (method and
 * URL, headers, parameters) into the dual sink. Each pass is specified as
 * the sequence of pieces it writes; the sign string and the log string are
 * the two renderings of that one sequence.
 */
module Canonical {
  import opened Wrappers
  import opened JavaStrings
  import opened Ordering
  import opened Sink
  import opened Requests
  import opened QueryString
  import opened Parameters

  /** The headers that never take part in the signature, matched exactly. */
  const Filtered: seq<string> :=
    ["hisv", "accept-encoding", "user-agent", "host", "connection", "content-length", "content-type"]

  /** `ArrayUtils.contains(filtered, name)`: exact, case-sensitive equality. */
  predicate IsFiltered(name: string): (r: bool)
    ensures r ==> LowerCase(name) == name
  {
    name in Filtered
  }

  // ---------------------------------------------------------------- method and URL

  /** The request URL, with `?` and the raw query when there is a non-empty one. */
  function FullUrl(req: Request): (r: string)
    ensures |r| >= |req.url| && r[..|req.url|] == req.url
    ensures req.query.Some? && req.query.value != "" ==>
      r[|req.url|..] == ['?'] + req.query.value
    ensures req.query.None? || req.query.value == "" ==> r == req.url
  {
    if req.query.Some? && req.query.value != "" then req.url + "?" + req.query.value else req.url
  }

  function MethodAndUrlPieces(req: Request): seq<Piece> {
    [Lit(req.httpMethod), Lit("$"), Lit(FullUrl(req)), Lit("$")]
  }

  /** `appendMethodAndUrl`. */
  method AppendMethodAndUrl(req: Request, sink: DualSink)
    requires sink.Valid()
    modifies sink
    ensures sink.Valid() && sink.pieces == old(sink.pieces) + MethodAndUrlPieces(req)
  {
    sink.Append(req.httpMethod);
    sink.Append("$");
    var fullUrl := req.url;
    var queryString := req.query;
    if queryString.Some? && queryString.value != "" {
      fullUrl := fullUrl + "?" + queryString.value;
    }
    sink.Append(fullUrl);
    sink.Append("$");
  }

  // ---------------------------------------------------------------- headers

  /** Each value followed by `$`, written with plain `append`. */
  function LitValues(values: seq<string>): seq<Piece> {
    if values == [] then []
    else LitValues(values[..|values| - 1]) + [Lit(values[|values| - 1]), Lit("$")]
  }

  /** What one header contributes: nothing if filtered, else name, `$` and its values. */
  function HeaderEntry(h: Header): seq<Piece> {
    if IsFiltered(h.name) then [] else [Lit(h.name), Lit("$")] + LitValues(h.values)
  }

  function HeaderPieces(hs: seq<Header>): seq<Piece> {
    if hs == [] then [] else HeaderPieces(hs[..|hs| - 1]) + HeaderEntry(hs[|hs| - 1])
  }

  /** `joinEnumeration`. */
  method JoinEnumeration(values: seq<string>, sink: DualSink)
    requires sink.Valid()
    modifies sink
    ensures sink.Valid() && sink.pieces == old(sink.pieces) + LitValues(values)
  {
    ghost var start := sink.pieces;
    for i := 0 to |values|
      invariant sink.Valid() && sink.pieces == start + LitValues(values[..i])
    {
      sink.Append(values[i]);
      sink.Append("$");
      LitValuesStep(start, values, i);
    }
    assert values[..|values|] == values;
  }

  lemma LitValuesStep(start: seq<Piece>, values: seq<string>, i: nat)
    requires i < |values|
    ensures start + LitValues(values[..i]) + [Lit(values[i])] + [Lit("$")] == start + LitValues(values[..i + 1])
  {
    assert values[..i + 1][..i] == values[..i];
    Regroup(start, LitValues(values[..i]), [Lit(values[i]), Lit("$")]);
  }

  /** `appendHeaders`. */
  method AppendHeaders(headers: seq<Header>, sink: DualSink)
    requires sink.Valid()
    modifies sink
    ensures sink.Valid() && sink.pieces == old(sink.pieces) + HeaderPieces(headers)
  {
    ghost var start := sink.pieces;
    var i := 0;
    while i < |headers|
      invariant i <= |headers|
      invariant sink.Valid() && sink.pieces == start + HeaderPieces(headers[..i])
    {
      var header := headers[i];
      HeaderStep(start, headers, i);
      i := i + 1;
      if IsFiltered(header.name) {
        continue;
      }
      sink.Append(header.name);
      sink.Append("$");
      JoinEnumeration(header.values, sink);
    }
    assert headers[..i] == headers;
  }

  lemma HeaderStep(start: seq<Piece>, headers: seq<Header>, i: nat)
    requires i < |headers|
    ensures var h := headers[i];
      IsFiltered(h.name) ==> start + HeaderPieces(headers[..i]) == start + HeaderPieces(headers[..i + 1])
    ensures var h := headers[i];
      !IsFiltered(h.name) ==>
        start + HeaderPieces(headers[..i]) + [Lit(h.name)] + [Lit("$")] + LitValues(h.values)
        == start + HeaderPieces(headers[..i + 1])
  {
    var h := headers[i];
    assert headers[..i + 1][..i] == headers[..i];
    var hp := HeaderPieces(headers[..i]);
    if IsFiltered(h.name) {
      assert hp + [] == hp;
    } else {
      assert start + hp + [Lit(h.name)] + [Lit("$")] + LitValues(h.values)
          == start + (hp + ([Lit(h.name), Lit("$")] + LitValues(h.values)));
    }
  }

  lemma HeaderPiecesSnoc(hs: seq<Header>, h: Header)
    ensures HeaderPieces(hs + [h]) == HeaderPieces(hs) + HeaderEntry(h)
  {
    assert (hs + [h])[..|hs|] == hs;
  }

  lemma {:induction false} HeaderPiecesAppend(a: seq<Header>, b: seq<Header>)
    ensures HeaderPieces(a + b) == HeaderPieces(a) + HeaderPieces(b)
    decreases |b|
  {
    if b == [] {
      assert a + b == a;
    } else {
      var b', last := b[..|b| - 1], b[|b| - 1];
      assert a + b == (a + b') + [last] && b == b' + [last];
      HeaderPiecesSnoc(a + b', last);
      HeaderPiecesAppend(a, b');
      HeaderPiecesSnoc(b', last);
      Regroup(HeaderPieces(a), HeaderPieces(b'), HeaderEntry(last));
    }
  }

  /** A filtered header contributes nothing, wherever it stands. */
  lemma FilteredHeaderIgnored(a: seq<Header>, h: Header, b: seq<Header>)
    requires IsFiltered(h.name)
    ensures HeaderPieces(a + [h] + b) == HeaderPieces(a + b)
  {
    HeaderPiecesAppend(a + [h], b);
    HeaderPiecesSnoc(a, h);
    assert HeaderPieces(a + [h]) == HeaderPieces(a);
    HeaderPiecesAppend(a, b);
  }

  /**
   * Any other header contributes its name, `$`, then each value and `$`,
   * at its own place in the transport order.
   */
  lemma UnfilteredHeaderInPlace(a: seq<Header>, h: Header, b: seq<Header>)
    requires !IsFiltered(h.name)
    ensures HeaderPieces(a + [h] + b)
         == HeaderPieces(a) + [Lit(h.name), Lit("$")] + LitValues(h.values) + HeaderPieces(b)
  {
    HeaderPiecesAppend(a + [h], b);
    HeaderPiecesSnoc(a, h);
    Regroup(HeaderPieces(a), [Lit(h.name), Lit("$")], LitValues(h.values));
  }

  /**
   * The filter is case-sensitive: a header spelt `Hisv` or `Host` is signed,
   * although the container's case-insensitive lookup reads `Hisv` as the
   * signature header.
   */
  lemma FilterIsCaseSensitive(values: seq<string>)
    ensures HeaderEntry(Header("Hisv", values)) == [Lit("Hisv"), Lit("$")] + LitValues(values)
    ensures HeaderEntry(Header("Host", values)) == [Lit("Host"), Lit("$")] + LitValues(values)
    ensures HeaderEntry(Header("host", values)) == []
    ensures values != [] ==> GetHeader([Header("Hisv", values)], "hisv") == Some(values[0])
  {
    assert "Hisv"[0] != "hisv"[0];
    assert "Host"[0] != "host"[0];
  }

  // ---------------------------------------------------------------- parameters

  /** Each value through `appendAbbreviate`, each followed by a plain `$`. */
  function ValValues(values: seq<string>): seq<Piece> {
    if values == [] then []
    else ValValues(values[..|values| - 1]) + [Val(values[|values| - 1]), Lit("$")]
  }

  /** What one parameter contributes when it is not a query parameter. */
  function EntryPieces(name: string, values: seq<string>): seq<Piece> {
    [Lit(name), Lit("$")] + ValValues(values)
  }

  /** What one table entry contributes: nothing for a query parameter. */
  function ParamEntry(name: string, values: seq<string>, query: Option<string>): seq<Piece> {
    if IsQueryParameter(query, name) then [] else EntryPieces(name, values)
  }

  /** The parameter pass over the names `names`, in that order. */
  function ParamsPieces(m: map<string, seq<string>>, names: seq<string>, query: Option<string>): seq<Piece>
    requires forall k :: k in names ==> k in m
  {
    if names == [] then []
    else
      var name := names[|names| - 1];
      ParamsPieces(m, names[..|names| - 1], query)
        + ParamEntry(name, m[name], query)
  }

  /** The parameter pass over the whole table, in ascending name order. */
  ghost function ParamPieces(m: map<string, seq<string>>, query: Option<string>): seq<Piece> {
    SortedKeysSpec(m.Keys);
    ParamsPieces(m, SortedKeys(m.Keys), query)
  }

  /**
   * The start of `appendRequestParams`: the name-sorted table of the
   * request's parameters, the `_json` entry and the file digests.
   */
  method ParameterMap(req: Request) returns (m: map<string, seq<string>>)
    ensures m == EffectiveParams(req)
  {
    var parameterMap := new ParamTable();
    parameterMap.PutAll(req.params);
    assert parameterMap.entries == req.params;
    var json := GetJson(req);
    if json.Some? && json.value != "" {
      parameterMap.Put("_json", [json.value]);
    }
    assert parameterMap.entries == WithJson(req);
    FileUpload(req.files, parameterMap);
    m := parameterMap.entries;
  }

  /** The inner loop of `appendRequestParams`: each value abbreviated, then `$`. */
  method AppendValues(values: seq<string>, sink: DualSink)
    requires sink.Valid()
    modifies sink
    ensures sink.Valid() && sink.pieces == old(sink.pieces) + ValValues(values)
  {
    ghost var start := sink.pieces;
    for j := 0 to |values|
      invariant sink.Valid() && sink.pieces == start + ValValues(values[..j])
    {
      sink.AppendAbbreviate(values[j]);
      sink.Append("$");
      ValValuesStep(start, values, j);
    }
    assert values[..|values|] == values;
  }

  lemma ValValuesStep(start: seq<Piece>, values: seq<string>, j: nat)
    requires j < |values|
    ensures start + ValValues(values[..j]) + [Val(values[j])] + [Lit("$")] == start + ValValues(values[..j + 1])
  {
    assert values[..j + 1][..j] == values[..j];
    Regroup(start, ValValues(values[..j]), [Val(values[j]), Lit("$")]);
  }

  lemma ParamsPiecesSnoc(m: map<string, seq<string>>, names: seq<string>, name: string, query: Option<string>)
    requires forall k :: k in names ==> k in m
    requires name in m
    ensures ParamsPieces(m, names + [name], query) == ParamsPieces(m, names, query) + ParamEntry(name, m[name], query)
  {
    assert (names + [name])[..|names|] == names;
  }

  /** The body of the loop of `appendRequestParams`, for one entry. */
  method AppendParam(name: string, values: seq<string>, queryString: Option<string>, sink: DualSink)
    requires sink.Valid()
    modifies sink
    ensures sink.Valid() && sink.pieces == old(sink.pieces) + ParamEntry(name, values, queryString)
  {
    if IsQueryParameter(queryString, name) {
      assert sink.pieces + [] == sink.pieces;
      return;
    }
    ghost var start := sink.pieces;
    sink.Append(name);
    sink.Append("$");
    AppendValues(values, sink);
    assert start + [Lit(name)] + [Lit("$")] + ValValues(values) == start + EntryPieces(name, values);
  }

  lemma ParamsStep(start: seq<Piece>, m: map<string, seq<string>>, names: seq<string>, name: string, query: Option<string>)
    requires forall k :: k in names ==> k in m
    requires name in m
    ensures start + ParamsPieces(m, names, query) + ParamEntry(name, m[name], query)
         == start + ParamsPieces(m, names + [name], query)
  {
    ParamsPiecesSnoc(m, names, name, query);
    Regroup(start, ParamsPieces(m, names, query), ParamEntry(name, m[name], query));
  }

  /** `appendRequestParams`: the table's entries in ascending name order. */
  method AppendRequestParams(req: Request, sink: DualSink)
    requires sink.Valid()
    modifies sink
    ensures sink.Valid()
    ensures sink.pieces == old(sink.pieces) + ParamPieces(EffectiveParams(req), req.query)
  {
    ghost var start := sink.pieces;
    var m := ParameterMap(req);
    var queryString := req.query;
    var remaining := m.Keys;
    ghost var visited: seq<string> := [];
    while remaining != {}
      invariant remaining <= m.Keys
      invariant forall k :: k in visited ==> k in m
      invariant SortedKeys(m.Keys) == visited + SortedKeys(remaining)
      invariant sink.Valid() && sink.pieces == start + ParamsPieces(m, visited, queryString)
      decreases remaining
    {
      LeastExists(remaining);
      var parameterName :| IsLeast(parameterName, remaining);
      LeastUnique(parameterName, Least(remaining), remaining);
      AppendParam(parameterName, m[parameterName], queryString, sink);
      ParamsStep(start, m, visited, parameterName, queryString);
      RegroupNames(visited, [parameterName], SortedKeys(remaining - {parameterName}));
      visited := visited + [parameterName];
      remaining := remaining - {parameterName};
    }
    assert visited == SortedKeys(m.Keys);
    assert sink.pieces == start + ParamPieces(m, queryString);
  }

  // ---------------------------------------------------------------- the whole request

  /** Everything written for one request, in order. */
  ghost function Pieces(req: Request): seq<Piece> {
    MethodAndUrlPieces(req) + HeaderPieces(req.headers) + ParamPieces(EffectiveParams(req), req.query)
  }

  /** The signed string and its log shadow. */
  datatype CanonicalPair = CanonicalPair(signString: string, logString: string)

  ghost function Canonicalize(req: Request, abbrev: string -> string): CanonicalPair {
    CanonicalPair(Text(Pieces(req)), Shadow(Pieces(req), abbrev))
  }

  ghost function SignString(req: Request): string {
    Text(Pieces(req))
  }

  /** `createOriginalStringForSign`. */
  method CreateOriginalStringForSign(sink: DualSink, req: Request)
    requires sink.Valid()
    modifies sink
    ensures sink.Valid() && sink.pieces == old(sink.pieces) + Pieces(req)
  {
    ghost var start := sink.pieces;
    AppendMethodAndUrl(req, sink);
    AppendHeaders(req.headers, sink);
    Regroup(start, MethodAndUrlPieces(req), HeaderPieces(req.headers));
    AppendRequestParams(req, sink);
    Regroup(start, MethodAndUrlPieces(req) + HeaderPieces(req.headers), ParamPieces(EffectiveParams(req), req.query));
  }
}

/**
 * What the canonical string promises, stated over whole requests.
 */
module CanonicalProperties {
  import opened Wrappers
  import opened JavaStrings
  import opened Ordering
  import opened Sink
  import opened Requests
  import opened QueryString
  import opened Parameters
  import opened Canonical

  lemma {:induction false} LitValuesAreLit(values: seq<string>)
    ensures AllLit(LitValues(values))
  {
    if values != [] {
      LitValuesAreLit(values[..|values| - 1]);
    }
  }

  lemma {:induction false} HeaderPiecesAreLit(hs: seq<Header>)
    ensures AllLit(HeaderPieces(hs))
  {
    if hs != [] {
      HeaderPiecesAreLit(hs[..|hs| - 1]);
      LitValuesAreLit(hs[|hs| - 1].values);
    }
  }

  /**
   * Both strings open with the method, `$`, the request URL (with `?` and
   * the raw query verbatim when the query is present and non-empty) and `$`.
   */
  lemma MethodAndUrlPrefix(req: Request, abbrev: string -> string)
    ensures var prefix := req.httpMethod + "$"
      + (if req.query.Some? && req.query.value != "" then req.url + "?" + req.query.value else req.url)
      + "$";
      prefix <= Canonicalize(req, abbrev).signString && prefix <= Canonicalize(req, abbrev).logString
  {
    var mu := MethodAndUrlPieces(req);
    var rest := HeaderPieces(req.headers) + ParamPieces(EffectiveParams(req), req.query);
    Regroup(mu, HeaderPieces(req.headers), ParamPieces(EffectiveParams(req), req.query));
    TextAppend(mu, rest);
    ShadowAppend(mu, rest, abbrev);
    var prefix := req.httpMethod + "$" + FullUrl(req) + "$";
    assert Text(mu) == prefix by {
      var m1, m2, m3 := mu[..1], mu[..2], mu[..3];
      assert m1[..0] == [] && m2[..1] == m1 && m3[..2] == m2 && mu[..3] == m3;
      assert Text(m1) == req.httpMethod;
      assert Text(m2) == req.httpMethod + "$";
      assert Text(m3) == req.httpMethod + "$" + FullUrl(req);
    }
    assert AllLit(mu);
    ShadowOfLits(mu, abbrev);
    assert prefix <= prefix + Text(rest);
    assert prefix <= prefix + Shadow(rest, abbrev);
  }

  /**
   * The two strings share everything up to the parameter pass, and in the
   * parameter pass differ only where a value went through the abbreviation.
   */
  lemma LogShadowsSign(req: Request, abbrev: string -> string)
    ensures var fixed := Text(MethodAndUrlPieces(req) + HeaderPieces(req.headers));
      var params := ParamPieces(EffectiveParams(req), req.query);
      && Canonicalize(req, abbrev).signString == fixed + Text(params)
      && Canonicalize(req, abbrev).logString == fixed + Shadow(params, abbrev)
  {
    var fixed := MethodAndUrlPieces(req) + HeaderPieces(req.headers);
    var params := ParamPieces(EffectiveParams(req), req.query);
    TextAppend(fixed, params);
    ShadowAppend(fixed, params, abbrev);
    HeaderPiecesAreLit(req.headers);
    assert AllLit(fixed);
    ShadowOfLits(fixed, abbrev);
  }

  /** The parameter pass over `names` when every name is written. */
  function AllEntries(m: map<string, seq<string>>, names: seq<string>): seq<Piece>
    requires forall k :: k in names ==> k in m
  {
    if names == [] then []
    else
      var name := names[|names| - 1];
      AllEntries(m, names[..|names| - 1]) + EntryPieces(name, m[name])
  }

  /** The names of `names` that are not recognised as query parameters, in order. */
  function Unlisted(names: seq<string>, query: Option<string>): (r: seq<string>)
    ensures forall k :: k in r <==> k in names && !IsQueryParameter(query, k)
  {
    if names == [] then []
    else
      var name := names[|names| - 1];
      var init := names[..|names| - 1];
      assert forall k :: k in names <==> k in init || k == name;
      Unlisted(init, query) + (if IsQueryParameter(query, name) then [] else [name])
  }

  lemma {:induction false} UnlistedSorted(names: seq<string>, query: Option<string>)
    requires StrictlySorted(names)
    ensures StrictlySorted(Unlisted(names, query))
  {
    if names != [] {
      var name := names[|names| - 1];
      var init := names[..|names| - 1];
      UnlistedSorted(init, query);
      var u := Unlisted(init, query);
      forall k | k in u ensures Less(k, name) {
        var i :| 0 <= i < |init| && init[i] == k;
      }
    }
  }

  lemma {:induction false} ParamsPiecesUnlisted(m: map<string, seq<string>>, names: seq<string>, query: Option<string>)
    requires forall k :: k in names ==> k in m
    ensures ParamsPieces(m, names, query) == AllEntries(m, Unlisted(names, query))
  {
    if names != [] {
      var name := names[|names| - 1];
      var init := names[..|names| - 1];
      ParamsPiecesUnlisted(m, init, query);
      var u := Unlisted(init, query);
      if !IsQueryParameter(query, name) {
        assert (u + [name])[..|u|] == u;
      } else {
        assert Unlisted(names, query) == u;
      }
    }
  }

  /**
   * The reference listing of the parameter pass: the table's names that are
   * not recognised as query parameters, in ascending order.
   */
  ghost function WrittenNames(m: map<string, seq<string>>, query: Option<string>): (r: seq<string>)
    ensures StrictlySorted(r)
    ensures forall k :: k in r <==> k in m && !IsQueryParameter(query, k)
  {
    var written := set k | k in m && !IsQueryParameter(query, k);
    SortedKeysSpec(written);
    SortedKeys(written)
  }

  /**
   * The parameter pass writes exactly the table entries whose names are not
   * recognised as query parameters, each once, in ascending name order, as
   * name, `$`, then each value and `$`.
   */
  lemma ParamPassSkipsQueryNames(m: map<string, seq<string>>, query: Option<string>)
    ensures ParamPieces(m, query) == AllEntries(m, WrittenNames(m, query))
  {
    var all := SortedKeys(m.Keys);
    SortedKeysSpec(m.Keys);
    UnlistedSorted(all, query);
    SortedUnique(Unlisted(all, query), WrittenNames(m, query));
    ParamsPiecesUnlisted(m, all, query);
  }

  /**
   * Dropping a filtered header other than `content-type` leaves the signed
   * string as it was; in particular the `hisv` signature header is not part
   * of what it signs, so a client can sign first and attach the signature
   * afterwards.
   */
  lemma FilteredHeaderNotSigned(req: Request, a: seq<Header>, h: Header, b: seq<Header>)
    requires req.headers == a + [h] + b
    requires IsFiltered(h.name) && !EqualsIgnoreCase(h.name, "content-type")
    ensures SignString(req) == SignString(req.(headers := a + b))
  {
    var req' := req.(headers := a + b);
    FilteredHeaderIgnored(a, h, b);
    GetHeaderSkips(a, h, b, "content-type");
    assert req'.headers == a + b;
    assert GetJson(req) == GetJson(req');
    assert WithJson(req) == WithJson(req');
    assert EffectiveParams(req) == EffectiveParams(req');
    assert Pieces(req) == Pieces(req');
  }

  lemma SignatureHeaderNotSigned(req: Request, a: seq<Header>, values: seq<string>, b: seq<Header>)
    requires req.headers == a + [Header("hisv", values)] + b
    ensures SignString(req) == SignString(req.(headers := a + b))
  {
    FilteredHeaderNotSigned(req, a, Header("hisv", values), b);
  }

  /** `GET /orders?status=open` with header `X-Client: abc` and no body. */
  function OrdersRequest(): Request {
    Request("GET", "http://host/orders", Some("status=open"),
            [Header("X-Client", ["abc"])], map["status" := ["open"]], "", None)
  }

  lemma OrdersParams()
    ensures ParamPieces(EffectiveParams(OrdersRequest()), OrdersRequest().query) == []
  {
    var req := OrdersRequest();
    var m := map["status" := ["open"]];
    assert !EqualsIgnoreCase("GET", "POST");
    assert EffectiveParams(req) == m;
    assert IsOccurrence("status=open", "status", 0);
    assert IsQueryParameter(Some("status=open"), "status");
    assert SortedKeys(m.Keys) == ["status"] by {
      assert m.Keys == {"status"};
      assert Least({"status"}) == "status";
    }
    assert ["status"][..0] == [];
  }

  lemma OrdersHeaders()
    ensures HeaderPieces(OrdersRequest().headers) == [Lit("X-Client"), Lit("$"), Lit("abc"), Lit("$")]
  {
    var hs := OrdersRequest().headers;
    assert !IsFiltered("X-Client");
    assert hs[..0] == [];
    assert LitValues(["abc"]) == [Lit("abc"), Lit("$")] by {
      assert ["abc"][..0] == [];
    }
  }

  lemma OrdersMethodAndUrl()
    ensures MethodAndUrlPieces(OrdersRequest())
         == [Lit("GET"), Lit("$"), Lit("http://host/orders" + "?" + "status=open"), Lit("$")]
  {
  }

  /** The written text of the example, piece by piece. */
  lemma OrdersText(ps: seq<Piece>, url: string)
    requires ps == [Lit("GET"), Lit("$"), Lit(url), Lit("$"), Lit("X-Client"), Lit("$"), Lit("abc"), Lit("$")]
    ensures Text(ps) == "GET" + "$" + url + "$" + "X-Client" + "$" + "abc" + "$"
  {
    assert ps[..1][..0] == [] && Text(ps[..1]) == "GET";
    assert ps[..2][..1] == ps[..1] && Text(ps[..2]) == "GET" + "$";
    assert ps[..3][..2] == ps[..2] && Text(ps[..3]) == "GET" + "$" + url;
    assert ps[..4][..3] == ps[..3] && Text(ps[..4]) == "GET" + "$" + url + "$";
    assert ps[..5][..4] == ps[..4] && Text(ps[..5]) == "GET" + "$" + url + "$" + "X-Client";
    assert ps[..6][..5] == ps[..5] && Text(ps[..6]) == "GET" + "$" + url + "$" + "X-Client" + "$";
    assert ps[..7][..6] == ps[..6] && Text(ps[..7]) == "GET" + "$" + url + "$" + "X-Client" + "$" + "abc";
    assert ps[..8] == ps && ps[..8][..7] == ps[..7];
  }

  /**
   * `GET /orders?status=open` with header `X-Client: abc` and no body signs
   * `GET$http://host/orders?status=open$X-Client$abc$`: the `status`
   * parameter travels in the query and is left out of the parameter pass.
   */
  lemma OrdersExample()
    ensures SignString(OrdersRequest())
         == "GET" + "$" + ("http://host/orders" + "?" + "status=open") + "$" + "X-Client" + "$" + "abc" + "$"
  {
    var req := OrdersRequest();
    OrdersMethodAndUrl();
    OrdersParams();
    OrdersHeaders();
    var mu := [Lit("GET"), Lit("$"), Lit("http://host/orders" + "?" + "status=open"), Lit("$")];
    var hp := [Lit("X-Client"), Lit("$"), Lit("abc"), Lit("$")];
    assert Pieces(req) == mu + hp + [];
    OrdersText(mu + hp + [], "http://host/orders" + "?" + "status=open");
  }

  lemma {:induction false} ValValuesKept(values: seq<string>, abbrev: string -> string)
    requires forall v :: v in values ==> abbrev(v) == v
    ensures Shadow(ValValues(values), abbrev) == Text(ValValues(values))
  {
    if values != [] {
      var init := values[..|values| - 1];
      var last := [Val(values[|values| - 1]), Lit("$")];
      ValValuesKept(init, abbrev);
      TextAppend(ValValues(init), last);
      ShadowAppend(ValValues(init), last, abbrev);
      ShadowFaithful(last, abbrev);
    }
  }

  lemma {:induction false} AllEntriesKept(m: map<string, seq<string>>, names: seq<string>, abbrev: string -> string)
    requires forall k :: k in names ==> k in m
    requires forall k, v :: k in names && v in m[k] ==> abbrev(v) == v
    ensures Shadow(AllEntries(m, names), abbrev) == Text(AllEntries(m, names))
  {
    if names != [] {
      var init, name := names[..|names| - 1], names[|names| - 1];
      var head := [Lit(name), Lit("$")];
      AllEntriesKept(m, init, abbrev);
      ValValuesKept(m[name], abbrev);
      TextAppend(head, ValValues(m[name]));
      ShadowAppend(head, ValValues(m[name]), abbrev);
      ShadowOfLits(head, abbrev);
      TextAppend(AllEntries(m, init), EntryPieces(name, m[name]));
      ShadowAppend(AllEntries(m, init), EntryPieces(name, m[name]), abbrev);
    }
  }

  /**
   * When the abbreviation keeps every value the parameter pass writes (for
   * instance, every such value is within the abbreviation's cap), the
   * logged string is the signed string.
   */
  lemma LogEqualsSignWhenValuesKept(req: Request, abbrev: string -> string)
    requires forall k, v :: k in WrittenNames(EffectiveParams(req), req.query) && v in EffectiveParams(req)[k] ==>
      abbrev(v) == v
    ensures Canonicalize(req, abbrev).logString == Canonicalize(req, abbrev).signString
  {
    var m := EffectiveParams(req);
    LogShadowsSign(req, abbrev);
    ParamPassSkipsQueryNames(m, req.query);
    AllEntriesKept(m, WrittenNames(m, req.query), abbrev);
  }

  lemma {:induction false} AllEntriesAgree(m1: map<string, seq<string>>, m2: map<string, seq<string>>, names: seq<string>)
    requires forall k :: k in names ==> k in m1 && k in m2 && m1[k] == m2[k]
    ensures AllEntries(m1, names) == AllEntries(m2, names)
  {
    if names != [] {
      AllEntriesAgree(m1, m2, names[..|names| - 1]);
    }
  }

  /** `_json=1` makes `_json` a recognised query parameter. */
  lemma JsonQueryKey()
    ensures IsQueryParameter(Some("_json=1"), "_json")
  {
    assert IsOccurrence("_json=1", "_json", 0);
  }

  /**
   * When the raw query's first occurrence of `_json` is a key (as in
   * `?_json=1`), the request body takes no part in the signed string: any
   * other body yields the same sign string, so a signature made for one
   * JSON body also verifies for another.
   */
  lemma QueryKeyUnsignsBody(req: Request, otherBody: string)
    requires IsQueryParameter(req.query, "_json")
    ensures SignString(req) == SignString(req.(body := otherBody))
  {
    var req2 := req.(body := otherBody);
    var q := req.query;
    var m1, m2 := EffectiveParams(req), EffectiveParams(req2);
    assert forall k :: k != "_json" ==> (k in m1 <==> k in m2) && (k in m1 ==> m1[k] == m2[k]);
    var names := WrittenNames(m1, q);
    SortedUnique(names, WrittenNames(m2, q));
    AllEntriesAgree(m1, m2, names);
    ParamPassSkipsQueryNames(m1, q);
    ParamPassSkipsQueryNames(m2, q);
    assert Pieces(req) == Pieces(req2);
  }
}

