/**
 * `preHandle`: which handlers must carry a signature, the verdict on the
 * `hisv` header against the HMAC of the canonical string, and what is
 * logged on the way.
 */
module Verification {
  import opened Wrappers
  import opened JavaStrings
  import opened Sink
  import opened Requests
  import opened Canonical
  import opened AuditLog
  import CanonicalProperties

  /** The shared secret every signature is keyed with. */
  const ClientSecurity := "d51fd93e-f6c9-4eae-ae7a-9b37af1a60cc"

  /** The HTTP status of both rejections. */
  const RejectStatus := 416

  /**
   * What the dispatcher hands the interceptor: a controller method, with the
   * `ignore` flag of the `@RestfulSign` on the method and on its class
   * (`None` where there is no annotation), or anything else.
   */
  datatype Handler = OtherHandler | HandlerMethod(methodSign: Option<bool>, classSign: Option<bool>)

  /**
   * `ignoreSign`: the method's annotation decides if there is one, else the
   * class's; with neither, signing is skipped.
   */
  function IgnoreSign(methodSign: Option<bool>, classSign: Option<bool>): (r: bool)
    ensures !r <==> methodSign == Some(false) || (methodSign.None? && classSign == Some(false))
    ensures methodSign.Some? ==> r == methodSign.value
  {
    if methodSign.Some? then methodSign.value
    else if classSign.Some? then classSign.value
    else true
  }

  /** The outcome of `preHandle`. */
  datatype Verdict =
    | NotHandled        // not a controller method: refused, nothing written
    | Skipped           // signing not required: let through
    | SignatureMissed   // no `hisv` header, or an empty one
    | InvalidSignature  // `hisv` differs from the expected signature
    | SignatureOk
  {
    /** The boolean `preHandle` returns. */
    predicate Proceeds() {
      this == Skipped || this == SignatureOk
    }

    /** The error response written, as status and message. */
    function ErrorResponse(): Option<(int, string)> {
      match this
      case SignatureMissed => Some((RejectStatus, "signature missed"))
      case InvalidSignature => Some((RejectStatus, "invalid signature"))
      case _ => None
    }
  }

  /** Signing is required for this handler. */
  predicate Guarded(handler: Handler) {
    handler.HandlerMethod? && !IgnoreSign(handler.methodSign, handler.classSign)
  }

  /** The decision, given the `hisv` header and the expected signature. */
  function Decide(handler: Handler, hisv: Option<string>, expected: string): (v: Verdict)
    ensures v.Proceeds() <==>
      handler.HandlerMethod? && (!Guarded(handler) || (hisv.Some? && hisv.value != "" && hisv.value == expected))
    ensures v.ErrorResponse().Some? <==> Guarded(handler) && !(hisv.Some? && hisv.value != "" && hisv.value == expected)
    ensures v == SignatureMissed <==> Guarded(handler) && (hisv.None? || hisv.value == "")
    ensures v == NotHandled <==> handler.OtherHandler?
  {
    if handler.OtherHandler? then NotHandled
    else if IgnoreSign(handler.methodSign, handler.classSign) then Skipped
    else if hisv.None? || hisv.value == "" then SignatureMissed
    else if hisv.value == expected then SignatureOk
    else InvalidSignature
  }

  /** What `preHandle` writes to the audit log, in order. */
  datatype LogLine =
    | RequestLogged(hici: string, canonical: string, body: string)
    | SignatureMissedLogged(hici: string)
    | SignResultLogged(hici: string, ok: bool)

  /** The correlation id: the `hici` header when it is non-empty, else a fresh one. */
  function Hici(req: Request, freshId: string): (r: string)
    ensures GetHeader(req.headers, "hici").Some? && GetHeader(req.headers, "hici").value != "" ==>
      r == GetHeader(req.headers, "hici").value
    ensures GetHeader(req.headers, "hici").None? || GetHeader(req.headers, "hici").value == "" ==>
      r == freshId
  {
    match GetHeader(req.headers, "hici")
    case Some(h) => if h == "" then freshId else h
    case None => freshId
  }

  /** The log lines that follow the request line, for a controller method. */
  function VerdictLines(v: Verdict, hici: string): seq<LogLine> {
    match v
    case SignatureMissed => [SignatureMissedLogged(hici)]
    case InvalidSignature => [SignResultLogged(hici, false)]
    case SignatureOk => [SignResultLogged(hici, true)]
    case _ => []
  }

  /** The signature a client must send: the HMAC of the sign string under the shared secret. */
  ghost function ExpectedSignature(req: Request, hmac: (string, string) -> string): (r: string)
    ensures forall abbrev :: r == hmac(Canonicalize(req, abbrev).signString, ClientSecurity)
  {
    hmac(SignString(req), ClientSecurity)
  }

  /**
   * The request line: correlation id, the log shadow of the canonical
   * string, and the body when the content type is textual and the body is
   * not empty, `(empty)` otherwise.
   */
  ghost function RequestLine(req: Request, freshId: string, abbrev: string -> string): LogLine {
    var body := if Textual(LowerContentType(GetHeader(req.headers, "content-type"))) && req.body != ""
      then req.body else "(empty)";
    RequestLogged(Hici(req, freshId), Canonicalize(req, abbrev).logString, body)
  }

  /** The two builders behind one proxy, filled by `createOriginalStringForSign`. */
  method SignAndLogStrings(req: Request, abbrev: string -> string) returns (signStr: string, logStr: string)
    ensures signStr == SignString(req) && logStr == Canonicalize(req, abbrev).logString
  {
    var proxy := new DualSink(abbrev);
    CreateOriginalStringForSign(proxy, req);
    assert proxy.pieces == Pieces(req) by {
      assert [] + Pieces(req) == Pieces(req);
    }
    signStr, logStr := proxy.sign, proxy.log;
  }

  /**
   * `preHandle`. The HMAC, the abbreviation, the fresh correlation id and
   * whether the handler's logger is at INFO are supplied by the caller.
   */
  method PreHandle(handler: Handler, req: Request, infoEnabled: bool, freshId: string,
                   hmac: (string, string) -> string, abbrev: string -> string)
    returns (proceed: bool, error: Option<(int, string)>, lines: seq<LogLine>)
    ensures var v := Decide(handler, GetHeader(req.headers, "hisv"), ExpectedSignature(req, hmac));
      proceed == v.Proceeds() && error == v.ErrorResponse()
    ensures !infoEnabled || handler.OtherHandler? ==> lines == []
    ensures infoEnabled && handler.HandlerMethod? ==>
      var v := Decide(handler, GetHeader(req.headers, "hisv"), ExpectedSignature(req, hmac));
      lines == [RequestLine(req, freshId, abbrev)] + VerdictLines(v, Hici(req, freshId))
  {
    if handler.OtherHandler? {
      return false, None, [];
    }
    var ignoreSign := IgnoreSign(handler.methodSign, handler.classSign);
    if ignoreSign && !infoEnabled {
      return true, None, [];
    }

    var hici := Hici(req, freshId);
    var requestBody := RequestBodyForLog(GetHeader(req.headers, "content-type"), req.body);

    var signStr, logStr := SignAndLogStrings(req, abbrev);
    ghost var expected := ExpectedSignature(req, hmac);
    assert hmac(signStr, ClientSecurity) == expected;
    lines := [];
    if infoEnabled {
      lines := [RequestLogged(hici, logStr, requestBody)];
      assert lines == [RequestLine(req, freshId, abbrev)];
    }

    if ignoreSign {
      return true, None, lines;
    }

    var hisv := GetHeader(req.headers, "hisv");
    ghost var v := Decide(handler, hisv, expected);
    if hisv.None? || hisv.value == "" {
      assert v == SignatureMissed;
      if infoEnabled {
        lines := lines + [SignatureMissedLogged(hici)];
      }
      return false, Some((RejectStatus, "signature missed")), lines;
    }

    var sign := hmac(signStr, ClientSecurity);
    var signOk := sign == hisv.value;
    assert v == if signOk then SignatureOk else InvalidSignature;
    if infoEnabled {
      lines := lines + [SignResultLogged(hici, signOk)];
    }
    error := None;
    if !signOk {
      error := Some((RejectStatus, "invalid signature"));
    }
    proceed := signOk;
  }

  /** A guarded request carrying the expected signature is let through. */
  lemma ValidSignatureAccepted(handler: Handler, req: Request, hmac: (string, string) -> string)
    requires Guarded(handler)
    requires ExpectedSignature(req, hmac) != ""
    requires GetHeader(req.headers, "hisv") == Some(ExpectedSignature(req, hmac))
    ensures Decide(handler, GetHeader(req.headers, "hisv"), ExpectedSignature(req, hmac)) == SignatureOk
  {
  }

  /**
   * A signature accepted for two requests under an HMAC that never maps two
   * messages to one signature means the two requests have the same sign
   * string: the signature binds everything the canonical string holds.
   */
  lemma SignatureBindsSignString(handler: Handler, req1: Request, req2: Request, hisv: string,
                                 hmac: (string, string) -> string)
    requires forall m1, m2 :: hmac(m1, ClientSecurity) == hmac(m2, ClientSecurity) ==> m1 == m2
    requires Decide(handler, Some(hisv), ExpectedSignature(req1, hmac)) == SignatureOk
    requires Decide(handler, Some(hisv), ExpectedSignature(req2, hmac)) == SignatureOk
    ensures SignString(req1) == SignString(req2)
  {
  }

  /**
   * Attaching the signature header does not change what has to be signed:
   * the signature computed over the request without `hisv` is the one
   * checked once it is attached.
   */
  lemma SignBeforeAttaching(handler: Handler, req: Request, a: seq<Header>, b: seq<Header>,
                            hmac: (string, string) -> string)
    requires Guarded(handler)
    requires GetHeader(a + b, "hisv").None?
    requires ExpectedSignature(req.(headers := a + b), hmac) != ""
    requires req.headers == a + [Header("hisv", [ExpectedSignature(req.(headers := a + b), hmac)])] + b
    ensures Decide(handler, GetHeader(req.headers, "hisv"), ExpectedSignature(req, hmac)) == SignatureOk
  {
    var signature := ExpectedSignature(req.(headers := a + b), hmac);
    var h := Header("hisv", [signature]);
    CanonicalProperties.SignatureHeaderNotSigned(req, a, [signature], b);
    assert ExpectedSignature(req, hmac) == signature;
    assert GetHeader(a, "hisv").None? by {
      assert forall i :: 0 <= i < |a| ==> a[i] == (a + b)[i];
    }
    GetHeaderFirstMatch(a, h, b, "hisv");
  }
}
