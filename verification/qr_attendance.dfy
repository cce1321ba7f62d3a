/** Single-use QR attendance: issuing a token for a signup and verifying a scanned token.

    The signups table is an immutable map threaded through both operations. The digest
    function (SHA-256 rendered as hex) and the QR image encoder are parameters: the model
    never looks inside them. */
module QrAttendance {
  import opened Wrappers
  import opened Strings
  import opened Json

  type SignupId = string

  /** An instant, as the store records it. */
  type Time = int

  /** A hex digest of a token. */
  type Digest = string

  type Byte = bv8

  /** One row of the signups table, restricted to the columns the module reads or writes.
      `qr_token_hash` is absent until a token has been issued. */
  datatype Signup = Signup(
    event_id: string,
    attendee_name: string,
    qr_token_hash: Option<Digest>,
    checked_in_at: Option<Time>)

  type Store = map<SignupId, Signup>

  /** The opaque primitives the module calls: the token digest, the QR PNG encoder and
      base64 text encoding. */
  datatype QrCodec = QrCodec(
    hash: string -> Digest,
    renderPng: string -> seq<Byte>,
    base64: seq<Byte> -> string)

  ghost predicate Injective(hash: string -> Digest)
  {
    forall a, b :: hash(a) == hash(b) ==> a == b
  }

  /** Signup `id` currently stores digest `h`. */
  predicate Holds(store: Store, id: SignupId, h: Digest)
  {
    id in store && store[id].qr_token_hash == Some(h)
  }

  /** The table's unique constraint on `qr_token_hash`. */
  ghost predicate UniqueHashes(store: Store)
  {
    forall a, b, h :: Holds(store, a, h) && Holds(store, b, h) ==> a == b
  }

  /** `findUnique({ where: { qr_token_hash } })`: the one signup holding `h`, if any. */
  function FindByHash(store: Store, h: Digest): (r: Option<SignupId>)
    requires UniqueHashes(store)
    ensures r.None? <==> forall id :: !Holds(store, id, h)
    ensures r.Some? ==> Holds(store, r.value, h)
    ensures forall id :: Holds(store, id, h) ==> r == Some(id)
  {
    var holders := set id | id in store && Holds(store, id, h);
    if holders == {} then
      assert forall id :: Holds(store, id, h) ==> id in holders;
      None
    else
      var id :| id in holders;
      Some(id)
  }

  // ---------------------------------------------------------------- issue

  const DataUrlPrefix: string := "data:image/png;base64,"

  const TokenQuery: string := "?token="

  /** Why the store rejected the issuing update. */
  datatype StoreError =
    | NoSuchSignup      // the update's `where: { id }` matched no row
    | DuplicateHash     // another row already holds the digest (unique constraint)

  datatype Issued = Issued(store: Store, qrPng: seq<Byte>, qrBase64: string, verifyPayload: string)

  /** The text encoded in the QR code: the raw token, behind `baseUrl?token=` when a
      non-empty base URL is given. */
  function VerifyPayload(baseUrl: Option<string>, token: string): (p: string)
    ensures EndsWith(p, token)
    ensures (baseUrl.None? || baseUrl.value == "") ==> p == token
    ensures baseUrl.Some? && baseUrl.value != "" ==>
              StartsWith(p, baseUrl.value + TokenQuery) && |p| == |baseUrl.value| + |TokenQuery| + |token|
  {
    if baseUrl.Some? && baseUrl.value != "" then
      EndsWithConcat(baseUrl.value + TokenQuery, token);
      StartsWithConcat(baseUrl.value + TokenQuery, token);
      baseUrl.value + TokenQuery + token
    else
      assert token[|token| - |token|..] == token;
      token
  }

  /** `issueQrForSignup`: store the digest of the (freshly drawn) `token` and the event on
      the signup, then render the QR code. Nothing is rendered if the store rejects the write. */
  function Issue(store: Store, signupId: SignupId, eventId: string, baseUrl: Option<string>,
                 token: string, codec: QrCodec): (r: Result<Issued, StoreError>)
    requires UniqueHashes(store)
    ensures signupId !in store ==> r == Failure(NoSuchSignup)
    ensures signupId in store ==>
              (r == Failure(DuplicateHash) <==> exists other :: other != signupId && Holds(store, other, codec.hash(token)))
    ensures signupId in store ==>
              (r.Success? <==> !exists other :: other != signupId && Holds(store, other, codec.hash(token)))
    ensures r.Success? ==>
              && r.value.store.Keys == store.Keys
              && r.value.store[signupId] == store[signupId].(qr_token_hash := Some(codec.hash(token)), event_id := eventId)
              && (forall id :: id in store && id != signupId ==> r.value.store[id] == store[id])
              && UniqueHashes(r.value.store)
    ensures r.Success? ==>
              && r.value.verifyPayload == VerifyPayload(baseUrl, token)
              && r.value.qrPng == codec.renderPng(r.value.verifyPayload)
              && StartsWith(r.value.qrBase64, DataUrlPrefix)
              && r.value.qrBase64[|DataUrlPrefix|..] == codec.base64(r.value.qrPng)
  {
    var h := codec.hash(token);
    if signupId !in store then
      Failure(NoSuchSignup)
    else
      var holder := FindByHash(store, h);
      if holder.Some? && holder.value != signupId then
        Failure(DuplicateHash)
      else
        var store' := store[signupId := store[signupId].(qr_token_hash := Some(h), event_id := eventId)];
        assert UniqueHashes(store') by {
          forall a, b, g | Holds(store', a, g) && Holds(store', b, g)
            ensures a == b
          {
            if a != signupId && b != signupId {
              assert Holds(store, a, g) && Holds(store, b, g);
            } else if a != signupId || b != signupId {
              var other := if a == signupId then b else a;
              assert Holds(store, other, h);
            }
          }
        }
        var payload := VerifyPayload(baseUrl, token);
        var png := codec.renderPng(payload);
        var text := DataUrlPrefix + codec.base64(png);
        StartsWithConcat(DataUrlPrefix, codec.base64(png));
        Success(Issued(store', png, text, payload))
  }

  // ---------------------------------------------------------------- verify

  datatype VerifyResult =
    | Invalid
    | AlreadyCheckedIn
    | Ok(signupId: SignupId, attendeeName: string, eventId: string, checkedInAt: Time)

  datatype Verification = Verification(result: VerifyResult, store: Store)

  /** A route's reply together with the signups table after the request. */
  datatype Handled = Handled(response: Response, store: Store)

  /** The sanity check `!token || typeof token !== 'string'` passes exactly for non-empty strings. */
  predicate IsTokenString(token: JsValue)
  {
    token.Str? && token.s != ""
  }

  /** The signup a scanned token refers to: the holder of its digest. */
  predicate Matches(store: Store, token: JsValue, hash: string -> Digest, id: SignupId)
  {
    IsTokenString(token) && Holds(store, id, hash(token.s))
  }

  /** `verifyQrToken`: reject non-tokens and unknown digests, reject a signup already checked
      in, otherwise record `now` as its check-in time. */
  function Verify(store: Store, token: JsValue, now: Time, hash: string -> Digest): (v: Verification)
    requires UniqueHashes(store)
    ensures (forall id :: !Matches(store, token, hash, id)) ==> v == Verification(Invalid, store)
    ensures forall id :: Matches(store, token, hash, id) && store[id].checked_in_at.Some? ==>
              v == Verification(AlreadyCheckedIn, store)
    ensures forall id :: Matches(store, token, hash, id) && store[id].checked_in_at.None? ==>
              v == Verification(
                     Ok(id, store[id].attendee_name, store[id].event_id, now),
                     store[id := store[id].(checked_in_at := Some(now))])
    ensures UniqueHashes(v.store)
  {
    if !IsTokenString(token) then
      Verification(Invalid, store)
    else
      var found := FindByHash(store, hash(token.s));
      if found.None? then
        Verification(Invalid, store)
      else
        var id := found.value;
        var signup := store[id];
        assert Matches(store, token, hash, id);
        if signup.checked_in_at.Some? then
          Verification(AlreadyCheckedIn, store)
        else
          var store' := store[id := signup.(checked_in_at := Some(now))];
          assert forall a, g :: Holds(store', a, g) <==> Holds(store, a, g);
          Verification(Ok(id, signup.attendee_name, signup.event_id, now), store')
  }
}
