# Request signing in spring-rest-boot's `SignInterceptor`

This project models the core of `SignInterceptor`. The interceptor runs
before a Spring MVC controller method and decides whether the request may
proceed. It builds one canonical string from the request and compares the
Base64 HMAC-SHA256 of that string, keyed with a fixed shared secret, with
the client's `hisv` header. Alongside the string it signs, it builds a log
copy in which parameter values may be abbreviated.

The canonical string is written in three passes into a two-output sink,
with `$` after every item:

1. The method, then the request URL. When the raw query is present and
   non-empty, `?` and the query follow verbatim.
2. Every header except the fixed exclusion list, in transport order: the
   name, then each of its values.
3. The parameters in ascending `String.compareTo` order. They come from the
   servlet parameters, plus a synthetic `_json` entry for a JSON POST body,
   plus one entry per multipart field holding that field's file digests
   joined by `$`. A parameter is skipped when `isQueryParameter` finds it in
   the raw query. Values are written with `appendAbbreviate`: verbatim to
   the sign string, through the abbreviation to the log string.

The model consists of these modules:

- `Sink`: the sink (`DualSink`, a class with the two strings).
- `Requests`: the request snapshot and the header lookup.
- `QueryString`: `isQueryParameter`.
- `Parameters`: the parameter table, the JSON body and the digest join.
- `Canonical`: the three passes as loops over the sink.
- `CanonicalProperties`: what the passes promise over whole requests.
- `AuditLog`: which bodies are logged.
- `Verification`: the `preHandle` decision.

Each loop is proved against a ghost specification. That specification
records every write to the sink as a sequence of pieces: a `Lit` for a plain
`append`, a `Val` for an `appendAbbreviate`. The sign string is `Text` of
those pieces and the log string is `Shadow` of them.

Three consequences of the code are easy to miss:

- **Header exclusion is case-sensitive.** The exclusion list is matched with
  exact equality, so `Host` or `Hisv` is signed while `host` and `hisv` are
  not. HTTP header names are case-insensitive, and the lookup of `hisv`
  itself ignores case, but the exclusion does not.
- **Only the first occurrence counts in `isQueryParameter`.** It examines
  only the first occurrence of the name in the query. A name whose first
  occurrence lies inside another key is not recognised, even if it is a key
  later on.
- **A query key can take an entry out of the signature.** A parameter whose
  name is recognised in the raw query is skipped, whatever its value in the
  table. This holds for the synthetic `_json` entry and for a multipart
  field too: with `?_json=1` in the URL, the JSON body is not signed, and a
  signature made for one body also verifies for any other.

A handler that is not a controller method is refused: `preHandle` returns
`false` for it without writing a response.

## Model

| member | source | states |
|---|---|---|
| Ordering.LessEq | src/main/java/com/github/bingoohuang/springrest/boot/interceptor/SignInterceptor.java:187 | `a.compareTo(b) <= 0`: `a` is a prefix of `b`, or at the first position where they differ `a` has the smaller character |
| Ordering.LessEqTotal | src/main/java/com/github/bingoohuang/springrest/boot/interceptor/SignInterceptor.java:187 | Java `compareTo` order on strings relates any two strings one way or the other |
| Ordering.LessEqAntisymmetric | src/main/java/com/github/bingoohuang/springrest/boot/interceptor/SignInterceptor.java:187 | two strings each at most the other are equal, so `TreeMap` keys are distinct under it |
| Ordering.LessEqTransitive | src/main/java/com/github/bingoohuang/springrest/boot/interceptor/SignInterceptor.java:187 | the order is transitive |
| Ordering.SortedKeysSpec | src/main/java/com/github/bingoohuang/springrest/boot/interceptor/SignInterceptor.java:187 | the `TreeMap` key listing is strictly ascending and lists every key of the map exactly once |
| Ordering.SortedUnique | src/main/java/com/github/bingoohuang/springrest/boot/interceptor/SignInterceptor.java:197 | there is only one strictly ascending listing of a key set, so the visiting order is determined by the keys alone |
| Sink.DualSink.constructor | src/main/java/com/github/bingoohuang/springrest/boot/interceptor/SignInterceptor.java:68-70 | both builders start empty and nothing has been written |
| Sink.DualSink.Append | src/main/java/com/github/bingoohuang/springrest/boot/interceptor/SignInterceptor.java:293 | a plain `append` adds the same text to the sign string and the log string |
| Sink.DualSink.AppendAbbreviate | src/main/java/com/github/bingoohuang/springrest/boot/interceptor/SignInterceptor.java:204 | `appendAbbreviate` adds the value itself to the sign string and its abbreviation to the log string |
| Sink.ShadowOfLits | src/main/java/com/github/bingoohuang/springrest/boot/interceptor/SignInterceptor.java:280-288 | text written only with plain `append` is the same in both strings |
| Sink.ShadowFaithful | src/main/java/com/github/bingoohuang/springrest/boot/interceptor/SignInterceptor.java:68-71 | where the abbreviation leaves every written value unchanged, the log string equals the sign string |
| Sink.ShadowNoLonger | src/main/java/com/github/bingoohuang/springrest/boot/interceptor/SignInterceptor.java:68-71 | an abbreviation that never lengthens a value never makes the log string longer than the sign string |
| JavaStrings.IndexOf | src/main/java/com/github/bingoohuang/springrest/boot/interceptor/SignInterceptor.java:256 | `indexOf` returns the first index at which the substring occurs, and -1 exactly when it occurs nowhere |
| Requests.GetHeader | src/main/java/com/github/bingoohuang/springrest/boot/interceptor/SignInterceptor.java:76 | the lookup returns a value of a header whose name matches ignoring case, and `None` exactly when no matching header has a value |
| Requests.GetHeaderSkips | src/main/java/com/github/bingoohuang/springrest/boot/interceptor/SignInterceptor.java:240 | a header whose name does not match is invisible to the lookup |
| Requests.GetHeaderFirstMatch | src/main/java/com/github/bingoohuang/springrest/boot/interceptor/SignInterceptor.java:76 | the lookup answers with the first value of the first matching header that has one |
| QueryString.IsQueryParameter | src/main/java/com/github/bingoohuang/springrest/boot/interceptor/SignInterceptor.java:253-265 | false for a missing or empty query; otherwise true exactly when the first occurrence of the name starts the query or follows `&`, and ends the query or is followed by `=` |
| QueryString.QueryParameterIsKey | src/main/java/com/github/bingoohuang/springrest/boot/interceptor/SignInterceptor.java:253-265 | every name it accepts (containing neither `&` nor `=`) is the key of some `&`-separated field of the query |
| QueryString.FirstOccurrenceOnly | src/main/java/com/github/bingoohuang/springrest/boot/interceptor/SignInterceptor.java:256-259 | in `xa=1&a=2` the name `a` is a key, yet it is not recognised because its first occurrence sits inside `xa` |
| Parameters.GetJson | src/main/java/com/github/bingoohuang/springrest/boot/interceptor/SignInterceptor.java:238-251 | the body is returned exactly for a POST (ignoring case) whose `content-type` header contains `application/json`; otherwise nothing |
| Parameters.JoinDigests | src/main/java/com/github/bingoohuang/springrest/boot/interceptor/SignInterceptor.java:218-223 | the loop that appends each digest and `$` and then drops the last character yields the digests joined by `$`, with no trailing `$` and empty for no files |
| Parameters.SplitJoin | src/main/java/com/github/bingoohuang/springrest/boot/interceptor/SignInterceptor.java:218-223 | digests free of `$` are recovered by splitting the joined string at `$` |
| Parameters.JsonEntry | src/main/java/com/github/bingoohuang/springrest/boot/interceptor/SignInterceptor.java:190-193 | the `_json` entry holds the body exactly when the JSON conditions hold and the body is non-empty, overwriting any parameter of that name; otherwise it is the request's own |
| Parameters.FileEntries | src/main/java/com/github/bingoohuang/springrest/boot/interceptor/SignInterceptor.java:194 | every multipart field's entry is its joined digests, overwriting whatever had its name, and every other entry apart from `_json` is the request's own parameter |
| Parameters.ParamTable.constructor | src/main/java/com/github/bingoohuang/springrest/boot/interceptor/SignInterceptor.java:187 | the table starts empty |
| Parameters.ParamTable.PutAll | src/main/java/com/github/bingoohuang/springrest/boot/interceptor/SignInterceptor.java:188 | entries of the added map replace same-named ones and the rest stay |
| Parameters.ParamTable.Put | src/main/java/com/github/bingoohuang/springrest/boot/interceptor/SignInterceptor.java:192 | one entry is set and the rest stay |
| Parameters.FileUpload | src/main/java/com/github/bingoohuang/springrest/boot/interceptor/SignInterceptor.java:209-227 | a non-multipart request leaves the table unchanged; a multipart one overlays every field's joined digests on it |
| Canonical.IsFiltered | src/main/java/com/github/bingoohuang/springrest/boot/interceptor/SignInterceptor.java:267-271 | a header name is excluded only by exact membership in the list, every member of which is lower case, so a name with an upper-case letter is never excluded |
| Canonical.FullUrl | src/main/java/com/github/bingoohuang/springrest/boot/interceptor/SignInterceptor.java:295-299 | the URL is extended by `?` and the raw query exactly when that query is present and non-empty, and is the URL alone otherwise |
| Canonical.AppendMethodAndUrl | src/main/java/com/github/bingoohuang/springrest/boot/interceptor/SignInterceptor.java:292-302 | writes method, `$`, the URL with `?` and the raw query when that is non-empty, and `$`, all with plain `append` |
| Canonical.JoinEnumeration | src/main/java/com/github/bingoohuang/springrest/boot/interceptor/SignInterceptor.java:286-290 | writes each header value followed by `$`, in enumeration order |
| Canonical.AppendHeaders | src/main/java/com/github/bingoohuang/springrest/boot/interceptor/SignInterceptor.java:273-284 | writes, header by header in transport order, the header's entry (nothing for a filtered name) |
| Canonical.FilteredHeaderIgnored | src/main/java/com/github/bingoohuang/springrest/boot/interceptor/SignInterceptor.java:267-277 | a header whose name is on the exclusion list contributes nothing, wherever it stands |
| Canonical.UnfilteredHeaderInPlace | src/main/java/com/github/bingoohuang/springrest/boot/interceptor/SignInterceptor.java:277-282 | any other header contributes its name, `$`, then each value and `$`, between what the headers before and after it contribute |
| Canonical.FilterIsCaseSensitive | src/main/java/com/github/bingoohuang/springrest/boot/interceptor/SignInterceptor.java:267-277 | `Hisv` and `Host` are signed while `host` is not, although the case-insensitive lookup reads `Hisv` as the signature header |
| Canonical.ParameterMap | src/main/java/com/github/bingoohuang/springrest/boot/interceptor/SignInterceptor.java:187-194 | the table built by `putAll`, the `_json` put and `fileUpload` is the request's parameters, overlaid with `_json` and then with the file digests |
| Canonical.AppendValues | src/main/java/com/github/bingoohuang/springrest/boot/interceptor/SignInterceptor.java:203-205 | writes each value through `appendAbbreviate`, each followed by a plain `$` |
| Canonical.AppendParam | src/main/java/com/github/bingoohuang/springrest/boot/interceptor/SignInterceptor.java:198-205 | writes nothing for a name found in the query, else the name, `$` and the values |
| Canonical.AppendRequestParams | src/main/java/com/github/bingoohuang/springrest/boot/interceptor/SignInterceptor.java:186-206 | repeatedly taking the least remaining key writes the entries in ascending key order, the parameter pass of the table |
| Canonical.CreateOriginalStringForSign | src/main/java/com/github/bingoohuang/springrest/boot/interceptor/SignInterceptor.java:154-158 | the sink receives the method-and-URL pass, then the header pass, then the parameter pass |
| CanonicalProperties.MethodAndUrlPrefix | src/main/java/com/github/bingoohuang/springrest/boot/interceptor/SignInterceptor.java:292-302 | both strings begin with method, `$`, the URL (with `?` and the raw query exactly when that is present and non-empty) and `$` |
| CanonicalProperties.LogShadowsSign | src/main/java/com/github/bingoohuang/springrest/boot/interceptor/SignInterceptor.java:68-71 | the two strings share the method, URL and header passes verbatim and differ only in the parameter pass, where only abbreviated values can differ |
| CanonicalProperties.LogEqualsSignWhenValuesKept | src/main/java/com/github/bingoohuang/springrest/boot/interceptor/SignInterceptor.java:68-72 | when the abbreviation keeps every value the parameter pass writes (those of the table's names not recognised in the query), the logged string is the signed string |
| CanonicalProperties.Unlisted | src/main/java/com/github/bingoohuang/springrest/boot/interceptor/SignInterceptor.java:197-199 | keeps exactly the names that are not recognised as query parameters |
| CanonicalProperties.WrittenNames | src/main/java/com/github/bingoohuang/springrest/boot/interceptor/SignInterceptor.java:197-199 | the reference listing: the table's names not recognised as query parameters, strictly ascending |
| CanonicalProperties.ParamPassSkipsQueryNames | src/main/java/com/github/bingoohuang/springrest/boot/interceptor/SignInterceptor.java:186-206 | the parameter pass writes exactly the entries not recognised as query parameters, each once, in ascending order, as name, `$`, then each value and `$` |
| CanonicalProperties.JsonQueryKey | src/main/java/com/github/bingoohuang/springrest/boot/interceptor/SignInterceptor.java:253-265 | `_json` is recognised as a key in the query `_json=1` |
| CanonicalProperties.QueryKeyUnsignsBody | src/main/java/com/github/bingoohuang/springrest/boot/interceptor/SignInterceptor.java:190-199 | when `_json` is recognised in the raw query, replacing the request body by any other leaves the sign string unchanged, so the body is not signed |
| CanonicalProperties.FilteredHeaderNotSigned | src/main/java/com/github/bingoohuang/springrest/boot/interceptor/SignInterceptor.java:267-277 | dropping an excluded header other than `content-type` leaves the sign string unchanged |
| CanonicalProperties.SignatureHeaderNotSigned | src/main/java/com/github/bingoohuang/springrest/boot/interceptor/SignInterceptor.java:268 | the `hisv` header itself is not part of what is signed |
| CanonicalProperties.OrdersExample | src/main/java/com/github/bingoohuang/springrest/boot/interceptor/SignInterceptor.java:154-158 | `GET /orders?status=open` with header `X-Client: abc` signs `GET$http://host/orders?status=open$X-Client$abc$`, the query-borne `status` being skipped |
| AuditLog.ContainsAnyOrNull | src/main/java/com/github/bingoohuang/springrest/boot/interceptor/SignInterceptor.java:145-152 | true exactly for a missing content type or one containing one of the items |
| AuditLog.RequestBodyForLog | src/main/java/com/github/bingoohuang/springrest/boot/interceptor/SignInterceptor.java:59-66 | the request body is logged for a textual (or missing) content type when non-empty, and `(empty)` otherwise, so the logged body is never empty |
| AuditLog.ParseBody | src/main/java/com/github/bingoohuang/springrest/boot/interceptor/SignInterceptor.java:128-143 | for a textual content type the captured bytes (or, when there are none, the writer text) are logged; a non-textual type or a body with `<html>` logs ` ignored`; the result never contains `<html>` |
| Verification.IgnoreSign | src/main/java/com/github/bingoohuang/springrest/boot/interceptor/SignInterceptor.java:160-168 | signing is enforced exactly when the method's annotation says `ignore = false`, or there is none and the class's says so; the method's annotation wins |
| Verification.Decide | src/main/java/com/github/bingoohuang/springrest/boot/interceptor/SignInterceptor.java:74-90 | a controller method proceeds exactly when signing is not enforced or `hisv` is non-empty and equals the expected signature; an error is written exactly otherwise for enforced signing, `signature missed` exactly for a missing or empty `hisv`; other handlers are refused |
| Verification.Hici | src/main/java/com/github/bingoohuang/springrest/boot/interceptor/SignInterceptor.java:53-54 | the correlation id is the `hici` header value when that is present and non-empty, and the fresh id otherwise |
| Verification.ExpectedSignature | src/main/java/com/github/bingoohuang/springrest/boot/interceptor/SignInterceptor.java:83 | the expected signature is the HMAC of the sign string under the shared secret, whatever abbreviation the log copy uses |
| Verification.SignAndLogStrings | src/main/java/com/github/bingoohuang/springrest/boot/interceptor/SignInterceptor.java:68-71 | the two builders behind one proxy end up holding the sign string and its log shadow |
| Verification.PreHandle | src/main/java/com/github/bingoohuang/springrest/boot/interceptor/SignInterceptor.java:40-91 | the returned flag and error response are the decision on `hisv` against the HMAC of the sign string under the shared secret; at INFO a controller method logs the request line and then the missed or sign-result line, and nothing is logged otherwise |
| Verification.ValidSignatureAccepted | src/main/java/com/github/bingoohuang/springrest/boot/interceptor/SignInterceptor.java:83-90 | an enforced request carrying the non-empty expected signature is accepted |
| Verification.SignatureBindsSignString | src/main/java/com/github/bingoohuang/springrest/boot/interceptor/SignInterceptor.java:83-84 | under an HMAC without collisions, one signature accepted for two requests means they have the same sign string |
| Verification.SignBeforeAttaching | src/main/java/com/github/bingoohuang/springrest/boot/interceptor/SignInterceptor.java:76-90 | a client that signs the request without `hisv` and then attaches the signature as the only `hisv` header is accepted |

## Left out

- HMAC-SHA256, MD5 and Base64 (lines 170-184) are library code. The model takes the HMAC as a function parameter. The file digests are inputs: each multipart field comes with its files' Base64 MD5 digests.
- `AbbreviateAppendable` is not part of this model. Its abbreviation is a function parameter with no assumed bound. The model reads the constructor at line 70 as sending abbreviated values to the log builder and full values to the sign builder.
- The response side effects are left out. These are `rsp.addHeader("Rest-Server", …)`, the request attributes `_log_hici` and `_log_start`, and the clock. `Http.error` is modelled as the returned status and message.
- The logger lookup by bean type is left out. Whether the logger is at INFO is a parameter. The random correlation id used when `hici` is missing is also a parameter.
- Annotation reflection is left out: `ignoreSign` receives the two `ignore` flags, or `None` where an annotation is absent.
- Body and file I/O are left out, with their `IOException` wrapping. The body text and the captured response bytes and writer text are inputs. The UTF-8 decoding of the response bytes is a function parameter.
- Verification.PreHandle: a missing `_log_req` wrapper (a null dereference in the source) is not modelled. The request line always carries the buffered body text.
- `afterCompletion`'s header rendering and timing (lines 94-126) only produce a log line, which depends on `Collection.toString`. Only `parseBody` is modelled from it.
- `equalsIgnoreCase` and `toLowerCase` fold ASCII letters only. Case pairs outside ASCII, such as U+017F, are not modelled.
- `String.compareTo` compares UTF-16 code units. The model compares `char` values, so the order of supplementary characters is not modelled.
- Verification.SignatureBindsSignString assumes an HMAC free of collisions. This is not a property the model can prove about the real function.
- `Requests.Request` admits header snapshots that the servlet container never produces: two headers whose names are equal ignoring case, or a header with no values. The lookup skipping value-less headers matters only for those.
- `Requests.Request` has no separate content type. `preHandle` reads it with `req.getContentType()` (line 59), and the model reads the `content-type` header instead, as `getJson` does. The two agree for the requests the container builds.
