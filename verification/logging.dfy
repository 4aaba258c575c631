/**
 * What the audit log writes beside the canonical string: the request body
 * when the content type looks textual, and after completion the response
 * body under the same test, with HTML pages suppressed.
 */
module AuditLog {
  import opened Wrappers
  import opened JavaStrings

  /** The markers both log sites pass to `containsAnyOrNull`. */
  const TextualMarkers: seq<string> := ["json", "xml", "text"]

  /** `StringUtils.lowerCase`: a missing content type stays missing. */
  function LowerContentType(contentType: Option<string>): Option<string> {
    if contentType.None? then None else Some(LowerCase(contentType.value))
  }

  /** A content type whose body is logged: none at all, or one mentioning a marker. */
  ghost predicate Textual(lowerContentType: Option<string>) {
    lowerContentType.None? ||
    exists i :: 0 <= i < |TextualMarkers| && Contains(lowerContentType.value, TextualMarkers[i])
  }

  /**
   * `containsAnyOrNull`: true for a missing content type, otherwise whether
   * some item occurs in it.
   */
  method ContainsAnyOrNull(contentType: Option<string>, any: seq<string>) returns (r: bool)
    ensures r <==> contentType.None? || exists i :: 0 <= i < |any| && Contains(contentType.value, any[i])
  {
    if contentType.None? {
      return true;
    }
    for k := 0 to |any|
      invariant forall i :: 0 <= i < k ==> !Contains(contentType.value, any[i])
    {
      if IndexOf(contentType.value, any[k]) >= 0 {
        return true;
      }
    }
    return false;
  }

  /**
   * The request body written beside the canonical string: the buffered
   * body for a textual content type, `(empty)` when there is none or it is
   * empty.
   */
  method RequestBodyForLog(contentType: Option<string>, body: string) returns (logged: string)
    ensures Textual(LowerContentType(contentType)) && body != "" ==> logged == body
    ensures !Textual(LowerContentType(contentType)) || body == "" ==> logged == "(empty)"
    ensures logged != ""
  {
    var lowerContentType := LowerContentType(contentType);
    var requestBody: Option<string> := None;
    var textual := ContainsAnyOrNull(lowerContentType, TextualMarkers);
    if textual {
      requestBody := Some(body);
    }
    if requestBody.None? || requestBody.value == "" {
      requestBody := Some("(empty)");
    }
    logged := requestBody.value;
  }

  /** The placeholder logged instead of a body. */
  const Ignored := " ignored"

  lemma IgnoredHasNoHtml()
    ensures !Contains(Ignored, "<html>")
  {
    forall j ensures !IsOccurrence(Ignored, "<html>", j) {
      if 0 <= j && j + 6 <= |Ignored| {
        assert Ignored[j] != '<';
        assert Ignored[j..j + 6][0] == Ignored[j];
      }
    }
  }

  /**
   * `parseBody`: the response body for the log. For a textual content type
   * it is the captured bytes decoded as UTF-8, or the captured writer text
   * when no bytes were written; anything else, and any body holding an
   * `<html>` tag, is logged as ` ignored`.
   */
  method ParseBody(contentType: Option<string>, bytes: seq<bv8>, writerText: string, decode: seq<bv8> -> string)
    returns (body: string)
    ensures !Contains(body, "<html>")
    ensures !Textual(LowerContentType(contentType)) ==> body == Ignored
    ensures Textual(LowerContentType(contentType)) ==>
      var captured := if |bytes| > 0 then decode(bytes) else writerText;
      body == if Contains(captured, "<html>") then Ignored else captured
  {
    var parsed: Option<string> := None;
    var lowerContentType := LowerContentType(contentType);
    var textual := ContainsAnyOrNull(lowerContentType, TextualMarkers);
    if textual {
      if |bytes| > 0 {
        parsed := Some(decode(bytes));
      } else {
        parsed := Some(writerText);
      }
    }
    if parsed.None? || IndexOf(parsed.value, "<html>") >= 0 {
      parsed := Some(Ignored);
      IgnoredHasNoHtml();
    }
    body := parsed.value;
  }
}
