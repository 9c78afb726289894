/** The status-code table of `HttpResponse` (lib/Rest/HttpResponse.cpp):
    the text written after `HTTP/1.1 ` for a code, and the code read back
    from such a text. */
module HttpCodes {
  import opened Chars

  /** `NOT_IMPLEMENTED`, the code every unknown or unreadable status maps to. */
  const NotImplemented: int := 501

  /** The 23 codes of the `HttpResponseCode` enumeration. */
  predicate IsKnownCode(c: int) {
    || c == 200 || c == 201 || c == 202 || c == 203 || c == 204
    || c == 301 || c == 302 || c == 303 || c == 304 || c == 307
    || c == 400 || c == 401 || c == 402 || c == 403 || c == 404 || c == 405 || c == 409 || c == 412 || c == 422
    || c == 500 || c == 501 || c == 502 || c == 503
  }

  /** The reason phrase `responseString` writes after each known code. */
  function ReasonPhrase(code: int): (phrase: Option<string>)
    ensures phrase.Some? <==> IsKnownCode(code)
    ensures phrase.Some? ==> '\n' !in phrase.value
  {
    if code < 300 then SuccessPhrase(code)
    else if code < 400 then RedirectionPhrase(code)
    else if code < 500 then ClientErrorPhrase(code)
    else ServerErrorPhrase(code)
  }

  /** Success 2xx. */
  function SuccessPhrase(code: int): (phrase: Option<string>)
    ensures phrase.Some? ==> '\n' !in phrase.value
  {
    match code
    case 200 => Some("OK")
    case 201 => Some("Created")
    case 202 => Some("Accepted")
    case 203 => Some("Partial Information")
    case 204 => Some("No Content")
    case _ => None
  }

  /** Redirection 3xx. */
  function RedirectionPhrase(code: int): (phrase: Option<string>)
    ensures phrase.Some? ==> '\n' !in phrase.value
  {
    match code
    case 301 => Some("Moved")
    case 302 => Some("Found")
    case 303 => Some("See Other")
    case 304 => Some("Not Modified")
    case 307 => Some("Temporary Redirect")
    case _ => None
  }

  /** Client errors 4xx. */
  function ClientErrorPhrase(code: int): (phrase: Option<string>)
    ensures phrase.Some? ==> '\n' !in phrase.value
  {
    match code
    case 400 => Some("Bad Request")
    case 401 => Some("Unauthorized")
    case 402 => Some("Payment Required")
    case 403 => Some("Forbidden")
    case 404 => Some("Not Found")
    case 405 => Some("Method")
    case 409 => Some("Conflict")
    case 412 => Some("Precondition Failed")
    case 422 => Some("Unprocessable Entity")
    case _ => None
  }

  /** Server errors 5xx. */
  function ServerErrorPhrase(code: int): (phrase: Option<string>)
    ensures phrase.Some? ==> '\n' !in phrase.value
  {
    match code
    case 500 => Some("Internal Error")
    case 501 => Some("Not implemented")
    case 502 => Some("Bad Gateway")
    case 503 => Some("Service Temporarily Unavailable")
    case _ => None
  }

  /** Decimal text has no newline. */
  lemma IntToStringOneLine(n: int)
    ensures '\n' !in IntToString(n)
  {
    var s := IntToString(n);
    var ds := NatToString(if n < 0 then -n else n);
    assert forall i :: 0 <= i < |s| ==> s[i] == '-' || s[i] in ds;
  }

  /** `responseString`: the status text of a code, "<code> <reason phrase>"
      for the known codes (so "200 OK", "404 Not Found") and
      "<code> (unknown HttpResponseCode)" for any other. Every text starts with
      the decimal code followed by a blank and fits on one line. */
  function ResponseString(code: int): (s: string)
    ensures IntToString(code) < s && s[|IntToString(code)|] == ' '
    ensures '\n' !in s
  {
    IntToStringOneLine(code);
    match ReasonPhrase(code)
    case Some(phrase) => IntToString(code) + " " + phrase
    case None => IntToString(code) + " (unknown HttpResponseCode)"
  }

  /** `responseCode(string)`: `atoi` of the text, kept when it is one of the
      known codes and `NOT_IMPLEMENTED` otherwise (non-numeric text reads as
      0, which is not a known code). */
  function ResponseCode(s: string): (c: int)
    ensures IsKnownCode(c)
    ensures c == Atoi(s) || c == NotImplemented
    ensures IsKnownCode(Atoi(s)) ==> c == Atoi(s)
  {
    var n := Atoi(s);
    if IsKnownCode(n) then n else NotImplemented
  }

  /** The number at the head of a status text is its code. */
  lemma AtoiOfResponseString(code: int)
    ensures Atoi(ResponseString(code)) == code
  {
    var s := ResponseString(code);
    var digits := IntToString(code);
    assert s == digits + s[|digits|..];
    AtoiOfIntToString(code, s[|digits|..]);
  }

  /** Reading a status text back gives the code for each of the 23 known
      codes, and `NOT_IMPLEMENTED` for every other code. */
  lemma ResponseCodeOfResponseString(code: int)
    ensures ResponseCode(ResponseString(code)) == if IsKnownCode(code) then code else NotImplemented
  {
    AtoiOfResponseString(code);
  }

  /** Text without a leading number (after blanks and a sign) reads as
      `NOT_IMPLEMENTED`. */
  lemma NonNumericIsNotImplemented(s: string)
    requires var t := SkipCSpace(s); t == [] || (!IsDigit(t[0]) && t[0] != '-' && t[0] != '+')
    ensures ResponseCode(s) == NotImplemented
  {
    // Atoi reads such a text as 0, which is not a known code
  }
}
