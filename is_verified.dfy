/** The `isVerified` middleware: a request passes on to the next handler only
    when its `x-verified` header is exactly the string `"true"`. */
module IsVerified {
  import opened Http

  const VerifiedValue: string := "true"
  const AccessDenied: string := "Access denied. Mobile not verified."

  /** What the middleware does with one request: the response it writes, if
      any, and how many times it calls `next`. */
  datatype GateOutcome = GateOutcome(response: Option<Response>, nextCalls: nat)

  /** The middleware, given the value of `req.headers["x-verified"]` (a string
      or absent; a repeated header arrives as one joined string). Either it
      answers 401 and does not call `next`, or it calls `next` once and writes
      nothing. */
  function Gate(header: JsValue): (r: GateOutcome)
    ensures r == GateOutcome(None, 1) || r == GateOutcome(Some(Response(401, Error(AccessDenied))), 0)
    ensures r.nextCalls == 1 <==> header == Str(VerifiedValue)
  {
    if header != Str(VerifiedValue) then GateOutcome(Some(Response(401, Error(AccessDenied))), 0)
    else GateOutcome(None, 1)
  }

  predicate Allowed(header: JsValue) {
    Gate(header).nextCalls == 1
  }

  /** A string header is let through exactly when it is `"true"`: a string of
      any other length, or of length four differing in any position, is refused. */
  lemma AllowedStrings(s: string)
    ensures Allowed(Str(s)) <==> s == "true"
    ensures |s| != 4 ==> !Allowed(Str(s))
    ensures |s| == 4 && (s[0] != 't' || s[1] != 'r' || s[2] != 'u' || s[3] != 'e') ==> !Allowed(Str(s))
  {
  }

  /** The comparison is exact and case-sensitive: near misses are refused with 401. */
  lemma NearMissesDenied()
    ensures !Allowed(Missing) && !Allowed(Other(true)) && !Allowed(Other(false))
    ensures !Allowed(Str("TRUE")) && !Allowed(Str("True")) && !Allowed(Str("1"))
    ensures !Allowed(Str("yes")) && !Allowed(Str(" true")) && !Allowed(Str("true ")) && !Allowed(Str(""))
    ensures Gate(Str("TRUE")) == GateOutcome(Some(Response(401, Error(AccessDenied))), 0)
    ensures Allowed(Str("true"))
  {
    assert "TRUE"[0] != "true"[0];
    assert "True"[0] != "true"[0];
    assert " true"[0] != "true"[0];
  }
}
