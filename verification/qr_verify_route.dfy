/** `POST /api/qr/verify`: validates the request body, runs the verifier and maps its result
    to an HTTP reply. */
module QrVerifyRoute {
  import opened Wrappers
  import opened Json
  import opened QrAttendance

  const TokenRequired: string := "token is required"
  const AlreadyUsedMessage: string := "This QR code has already been used."
  const InvalidMessage: string := "Invalid or expired QR token."
  const VerifyFailed: string := "Failed to verify QR code"

  function ErrorBody(message: string): map<string, JsValue>
  {
    map["error" := Str(message)]
  }

  /** The three verifier outcomes, as a scanning client tells them apart. */
  datatype Kind = Confirmed | Duplicate | Rejected

  function KindOf(result: VerifyResult): Kind
  {
    match result
    case Ok(_, _, _, _) => Confirmed
    case AlreadyCheckedIn => Duplicate
    case Invalid => Rejected
  }

  /** The reply for a verifier result that was returned (not thrown). */
  function ResponseFor(result: VerifyResult): (resp: Response)
    ensures result.Ok? ==>
              && resp.status == 200
              && BodyField(resp, "status") == Str("ok")
              && BodyField(resp, "verified") == Bool(true)
              && BodyField(resp, "signupId") == Str(result.signupId)
              && BodyField(resp, "eventId") == Str(result.eventId)
    ensures result.AlreadyCheckedIn? ==>
              && resp.status == 409
              && BodyField(resp, "status") == Str("already_checked_in")
              && BodyField(resp, "error") == Str(AlreadyUsedMessage)
    ensures result.Invalid? ==>
              && resp.status == 401
              && BodyField(resp, "status") == Str("invalid")
              && BodyField(resp, "error") == Str(InvalidMessage)
  {
    match result
    case Ok(signupId, _, eventId, _) =>
      Response(200, map["status" := Str("ok"), "verified" := Bool(true),
                        "signupId" := Str(signupId), "eventId" := Str(eventId)])
    case AlreadyCheckedIn =>
      Response(409, map["status" := Str("already_checked_in"), "error" := Str(AlreadyUsedMessage)])
    case Invalid =>
      Response(401, map["status" := Str("invalid"), "error" := Str(InvalidMessage)])
  }

  /** How a client reads the outcome back from the status code. */
  function KindOfStatus(status: nat): Option<Kind>
  {
    if status == 200 then Some(Confirmed)
    else if status == 409 then Some(Duplicate)
    else if status == 401 then Some(Rejected)
    else None
  }

  /** The status code alone identifies the outcome: the three outcomes get pairwise distinct
      statuses, none of which is the 400 or 500 of a bad request or a failure. */
  lemma StatusIdentifiesOutcome(a: VerifyResult, b: VerifyResult)
    ensures KindOfStatus(ResponseFor(a).status) == Some(KindOf(a))
    ensures ResponseFor(a).status == ResponseFor(b).status <==> KindOf(a) == KindOf(b)
    ensures ResponseFor(a).status !in {400, 500}
  {
  }

  /** The verifier as the route calls it: when the store cannot be reached the call throws,
      but only for a real token string, since anything else is rejected before any lookup. */
  predicate VerifierThrows(token: JsValue, storeAvailable: bool)
  {
    IsTokenString(token) && !storeAvailable
  }

  /** The whole handler. `storeAvailable` is false when the store's lookup or update fails. */
  function HandleVerify(body: Body, store: Store, now: Time, hash: string -> Digest, storeAvailable: bool): (h: Handled)
    requires UniqueHashes(store)
    ensures (body.Malformed? || PropertyAccessThrows(body.value)) ==>
              h == Handled(Response(500, ErrorBody(VerifyFailed)), store)
    ensures body.Parsed? && !PropertyAccessThrows(body.value) && !Truthy(Member(body.value, "token")) ==>
              h == Handled(Response(400, ErrorBody(TokenRequired)), store)
    ensures body.Parsed? && !PropertyAccessThrows(body.value) && VerifierThrows(Member(body.value, "token"), storeAvailable) ==>
              h == Handled(Response(500, ErrorBody(VerifyFailed)), store)
    ensures body.Parsed? && !PropertyAccessThrows(body.value) && Truthy(Member(body.value, "token")) &&
            !VerifierThrows(Member(body.value, "token"), storeAvailable) ==>
              var v := Verify(store, Member(body.value, "token"), now, hash);
              h == Handled(ResponseFor(v.result), v.store)
    ensures h.response.status in {200, 409, 401} ==>
              body.Parsed? &&
              var v := Verify(store, Member(body.value, "token"), now, hash);
              h == Handled(ResponseFor(v.result), v.store)
    ensures h.response.status in {400, 500, 409, 401} ==> h.store == store
  {
    if body.Malformed? || PropertyAccessThrows(body.value) then
      Handled(Response(500, ErrorBody(VerifyFailed)), store)
    else
      var token := Member(body.value, "token");
      if !Truthy(token) then
        Handled(Response(400, ErrorBody(TokenRequired)), store)
      else if VerifierThrows(token, storeAvailable) then
        Handled(Response(500, ErrorBody(VerifyFailed)), store)
      else
        var v := Verify(store, token, now, hash);
        Handled(ResponseFor(v.result), v.store)
  }

  /** A request carrying a token string, with the store reachable, is answered with the
      verifier's outcome, and the table becomes the verifier's table. */
  lemma ScanRequest(store: Store, token: string, now: Time, hash: string -> Digest)
    requires UniqueHashes(store)
    requires token != ""
    ensures var v := Verify(store, Str(token), now, hash);
            HandleVerify(Parsed(Object(map["token" := Str(token)])), store, now, hash, true) ==
              Handled(ResponseFor(v.result), v.store)
  {
    assert Member(Object(map["token" := Str(token)]), "token") == Str(token);
  }

  /** A request without a token is answered without consulting the verifier: the reply is the
      same whatever the table, clock, digest or store availability, and nothing is written. */
  lemma MissingTokenSkipsVerifier(fields: map<string, JsValue>,
                                  s1: Store, n1: Time, h1: string -> Digest, a1: bool,
                                  s2: Store, n2: Time, h2: string -> Digest, a2: bool)
    requires UniqueHashes(s1) && UniqueHashes(s2)
    requires !Truthy(Member(Object(fields), "token"))
    ensures HandleVerify(Parsed(Object(fields)), s1, n1, h1, a1).response ==
            HandleVerify(Parsed(Object(fields)), s2, n2, h2, a2).response
    ensures HandleVerify(Parsed(Object(fields)), s1, n1, h1, a1).response.status == 400
    ensures HandleVerify(Parsed(Object(fields)), s1, n1, h1, a1).store == s1
  {
  }
}
