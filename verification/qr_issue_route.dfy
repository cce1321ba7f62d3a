/** `POST /api/qr/issue`: validates the request body, issues a ticket without a base URL and
    returns the QR image and the token. */
module QrIssueRoute {
  import opened Wrappers
  import opened Strings
  import opened Json
  import opened QrAttendance
  import QrVerifyRoute
  import QrLifecycle

  const IdsRequired: string := "signupId and eventId are required"
  const IssueFailed: string := "Failed to issue QR code"

  function ErrorBody(message: string): map<string, JsValue>
  {
    map["error" := Str(message)]
  }

  /** The issuer's result as the route sees it: thrown (store unreachable, identifiers that are
      not strings, a rejected update) or returned. */
  function CallIssuer(signupId: JsValue, eventId: JsValue, store: Store, token: string, codec: QrCodec,
                      storeAvailable: bool): (r: Option<Issued>)
    requires UniqueHashes(store)
    ensures r.Some? <==>
              signupId.Str? && eventId.Str? && storeAvailable &&
              Issue(store, signupId.s, eventId.s, None, token, codec).Success?
    ensures r.Some? ==> r.value == Issue(store, signupId.s, eventId.s, None, token, codec).value
  {
    if !(signupId.Str? && eventId.Str?) || !storeAvailable then
      None
    else
      match Issue(store, signupId.s, eventId.s, None, token, codec)
      case Success(issued) => Some(issued)
      case Failure(_) => None
  }

  /** The whole handler; `token` is the random token this request draws. */
  function HandleIssue(body: Body, store: Store, token: string, codec: QrCodec, storeAvailable: bool): (h: Handled)
    requires UniqueHashes(store)
    ensures (body.Malformed? || PropertyAccessThrows(body.value)) ==>
              h == Handled(Response(500, ErrorBody(IssueFailed)), store)
    ensures body.Parsed? && !PropertyAccessThrows(body.value) &&
            (!Truthy(Member(body.value, "signupId")) || !Truthy(Member(body.value, "eventId"))) ==>
              h == Handled(Response(400, ErrorBody(IdsRequired)), store)
    ensures body.Parsed? && !PropertyAccessThrows(body.value) &&
            Truthy(Member(body.value, "signupId")) && Truthy(Member(body.value, "eventId")) ==>
              var call := CallIssuer(Member(body.value, "signupId"), Member(body.value, "eventId"),
                                     store, token, codec, storeAvailable);
              && (call.None? ==> h == Handled(Response(500, ErrorBody(IssueFailed)), store))
              && (call.Some? ==> h.response.status == 200 && h.store == call.value.store)
    ensures h.response.status == 200 ==> storeAvailable
    ensures h.response.status != 200 ==> h.store == store
    ensures h.response.status == 200 ==>
              && body.Parsed?
              && Member(body.value, "signupId").Str? && Member(body.value, "eventId").Str?
              && var issued := Issue(store, Member(body.value, "signupId").s, Member(body.value, "eventId").s, None, token, codec);
              && issued.Success?
              && h.store == issued.value.store
              && BodyField(h.response, "status") == Str("ok")
              && BodyField(h.response, "qrCode") == Str(issued.value.qrBase64)
              && BodyField(h.response, "token") == Str(issued.value.verifyPayload)
    ensures h.response.status in {200, 400, 500}
  {
    if body.Malformed? || PropertyAccessThrows(body.value) then
      Handled(Response(500, ErrorBody(IssueFailed)), store)
    else
      var signupId := Member(body.value, "signupId");
      var eventId := Member(body.value, "eventId");
      if !Truthy(signupId) || !Truthy(eventId) then
        Handled(Response(400, ErrorBody(IdsRequired)), store)
      else
        match CallIssuer(signupId, eventId, store, token, codec, storeAvailable)
        case None =>
          Handled(Response(500, ErrorBody(IssueFailed)), store)
        case Some(issued) =>
          Handled(Response(200, map["status" := Str("ok"), "qrCode" := Str(issued.qrBase64),
                                    "token" := Str(issued.verifyPayload)]),
                  issued.store)
  }

  /** The route passes no base URL, so the `token` it returns is exactly the raw token, and the
      `qrCode` is a PNG data URL. */
  lemma IssueRouteReturnsRawToken(body: Body, store: Store, token: string, codec: QrCodec, storeAvailable: bool)
    requires UniqueHashes(store)
    requires HandleIssue(body, store, token, codec, storeAvailable).response.status == 200
    ensures BodyField(HandleIssue(body, store, token, codec, storeAvailable).response, "token") == Str(token)
    ensures var qr := BodyField(HandleIssue(body, store, token, codec, storeAvailable).response, "qrCode");
            qr.Str? && StartsWith(qr.s, DataUrlPrefix)
  {
  }

  /** A request with two id strings, with the store reachable, that the issuer accepts is
      answered 200 with the raw token, and the table becomes the issuer's table. */
  lemma IssueRequest(store: Store, signupId: string, eventId: string, token: string, codec: QrCodec)
    requires UniqueHashes(store)
    requires signupId != "" && eventId != ""
    requires Issue(store, signupId, eventId, None, token, codec).Success?
    ensures var h := HandleIssue(Parsed(Object(map["signupId" := Str(signupId), "eventId" := Str(eventId)])),
                                 store, token, codec, true);
            && h.response.status == 200
            && BodyField(h.response, "token") == Str(token)
            && h.store == Issue(store, signupId, eventId, None, token, codec).value.store
  {
    var body := Object(map["signupId" := Str(signupId), "eventId" := Str(eventId)]);
    assert Member(body, "signupId") == Str(signupId);
    assert Member(body, "eventId") == Str(eventId);
    var issued := Issue(store, signupId, eventId, None, token, codec).value;
    assert CallIssuer(Str(signupId), Str(eventId), store, token, codec, true) == Some(issued);
    assert issued.verifyPayload == token;
    var h := HandleIssue(Parsed(body), store, token, codec, true);
    assert h == Handled(Response(200, map["status" := Str("ok"), "qrCode" := Str(issued.qrBase64),
                                          "token" := Str(token)]), issued.store);
  }

  /** End to end through both routes: issue a ticket, post the returned token to the verify
      route, and the attendee is checked in once; posting it again is answered 409. */
  lemma IssueThenScanThroughRoutes(store: Store, signupId: string, eventId: string, token: string,
                                   codec: QrCodec, first: Time, second: Time)
    requires UniqueHashes(store)
    requires signupId != "" && eventId != "" && token != ""
    requires signupId in store && store[signupId].checked_in_at.None?
    requires forall other :: other != signupId ==> !Holds(store, other, codec.hash(token))
    ensures var issueBody := Parsed(Object(map["signupId" := Str(signupId), "eventId" := Str(eventId)]));
            var h1 := HandleIssue(issueBody, store, token, codec, true);
            var scanBody := Parsed(Object(map["token" := BodyField(h1.response, "token")]));
            var h2 := QrVerifyRoute.HandleVerify(scanBody, h1.store, first, codec.hash, true);
            var h3 := QrVerifyRoute.HandleVerify(scanBody, h2.store, second, codec.hash, true);
            && h1.response.status == 200
            && h2.response.status == 200
            && BodyField(h2.response, "signupId") == Str(signupId)
            && BodyField(h2.response, "eventId") == Str(eventId)
            && h3.response.status == 409
  {
    assert Issue(store, signupId, eventId, None, token, codec).Success?;
    IssueRequest(store, signupId, eventId, token, codec);
    var s1 := Issue(store, signupId, eventId, None, token, codec).value.store;
    QrLifecycle.IssueThenVerify(store, signupId, eventId, None, token, codec, first);
    QrVerifyRoute.ScanRequest(s1, token, first, codec.hash);
    var v1 := Verify(s1, Str(token), first, codec.hash);
    QrLifecycle.OneShot(s1, Str(token), first, second, second, codec.hash);
    QrVerifyRoute.ScanRequest(v1.store, token, second, codec.hash);
  }
}
