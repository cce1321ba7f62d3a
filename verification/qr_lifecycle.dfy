/** Properties of sequences of issue and verify operations on one signups table. */
module QrLifecycle {
  import opened Wrappers
  import opened Json
  import opened QrAttendance

  /** A token scanned right after it was issued finds the signup it was issued for; it checks
      the attendee in unless the signup was already checked in before the (re-)issue. */
  lemma IssueThenVerify(store: Store, signupId: SignupId, eventId: string, baseUrl: Option<string>,
                        token: string, codec: QrCodec, now: Time)
    requires UniqueHashes(store)
    requires token != ""
    requires Issue(store, signupId, eventId, baseUrl, token, codec).Success?
    ensures var s1 := Issue(store, signupId, eventId, baseUrl, token, codec).value.store;
            Verify(s1, Str(token), now, codec.hash).result ==
              if store[signupId].checked_in_at.None? then Ok(signupId, store[signupId].attendee_name, eventId, now)
              else AlreadyCheckedIn
  {
    var s1 := Issue(store, signupId, eventId, baseUrl, token, codec).value.store;
    assert Matches(s1, Str(token), codec.hash, signupId);
  }

  /** Once a scan succeeded, a second and a third scan of the same token report
      `already_checked_in` and change nothing. */
  lemma OneShot(store: Store, token: JsValue, first: Time, second: Time, third: Time, hash: string -> Digest)
    requires UniqueHashes(store)
    requires Verify(store, token, first, hash).result.Ok?
    ensures var s1 := Verify(store, token, first, hash).store;
            && Verify(s1, token, second, hash) == Verification(AlreadyCheckedIn, s1)
            && Verify(Verify(s1, token, second, hash).store, token, third, hash).result == AlreadyCheckedIn
  {
    var v := Verify(store, token, first, hash);
    var id := v.result.signupId;
    assert Matches(store, token, hash, id);
    assert Matches(v.store, token, hash, id);
  }

  /** The scenario of a freshly issued ticket: first scan ok, second and third already used,
      and a different token never issued is rejected as invalid. */
  lemma FreshTicketScenario(store: Store, signupId: SignupId, eventId: string, token: string, bogus: string,
                            codec: QrCodec, t1: Time, t2: Time, t3: Time)
    requires UniqueHashes(store)
    requires Injective(codec.hash)
    requires token != "" && bogus != "" && bogus != token
    requires (forall id, h :: !Holds(store, id, h))
    requires signupId in store && store[signupId].checked_in_at.None?
    ensures Issue(store, signupId, eventId, None, token, codec).Success?
    ensures var s1 := Issue(store, signupId, eventId, None, token, codec).value.store;
            var v1 := Verify(s1, Str(token), t1, codec.hash);
            var v2 := Verify(v1.store, Str(token), t2, codec.hash);
            var v3 := Verify(v2.store, Str(token), t3, codec.hash);
            && v1.result == Ok(signupId, store[signupId].attendee_name, eventId, t1)
            && v2.result == AlreadyCheckedIn
            && v3.result == AlreadyCheckedIn
            && Verify(s1, Str(bogus), t1, codec.hash).result == Invalid
  {
    assert forall other :: !Holds(store, other, codec.hash(token));
    IssueThenVerify(store, signupId, eventId, None, token, codec, t1);
    var s1 := Issue(store, signupId, eventId, None, token, codec).value.store;
    OneShot(s1, Str(token), t1, t2, t3, codec.hash);
    forall id
      ensures !Matches(s1, Str(bogus), codec.hash, id)
    {
      if id == signupId {
        assert s1[id].qr_token_hash == Some(codec.hash(token));
        assert codec.hash(bogus) != codec.hash(token);
      } else if id in store {
        assert s1[id] == store[id] && !Holds(store, id, codec.hash(bogus));
      }
    }
  }

  // ------------------------------------------------------------ repeated scans

  /** The results of scanning `token` once at each of the instants `nows`, in order. */
  function ScanRepeatedly(store: Store, token: JsValue, nows: seq<Time>, hash: string -> Digest): (rs: seq<VerifyResult>)
    requires UniqueHashes(store)
    ensures |rs| == |nows|
    decreases |nows|
  {
    if |nows| == 0 then []
    else
      var v := Verify(store, token, nows[0], hash);
      [v.result] + ScanRepeatedly(v.store, token, nows[1..], hash)
  }

  /** No signup holds the token's digest. */
  ghost predicate Unknown(store: Store, token: JsValue, hash: string -> Digest)
  {
    forall id :: !Matches(store, token, hash, id)
  }

  /** The token's signup is already checked in. */
  ghost predicate Spent(store: Store, token: JsValue, hash: string -> Digest)
  {
    exists id :: Matches(store, token, hash, id) && store[id].checked_in_at.Some?
  }

  lemma {:induction false} UnknownStaysInvalid(store: Store, token: JsValue, nows: seq<Time>, hash: string -> Digest)
    requires UniqueHashes(store)
    requires Unknown(store, token, hash)
    ensures forall i :: 0 <= i < |nows| ==> ScanRepeatedly(store, token, nows, hash)[i] == Invalid
    decreases |nows|
  {
    if |nows| > 0 {
      UnknownStaysInvalid(store, token, nows[1..], hash);
    }
  }

  lemma {:induction false} SpentStaysSpent(store: Store, token: JsValue, nows: seq<Time>, hash: string -> Digest)
    requires UniqueHashes(store)
    requires Spent(store, token, hash)
    ensures forall i :: 0 <= i < |nows| ==> ScanRepeatedly(store, token, nows, hash)[i] == AlreadyCheckedIn
    decreases |nows|
  {
    if |nows| > 0 {
      SpentStaysSpent(store, token, nows[1..], hash);
    }
  }

  /** However often one token is scanned, only the first scan can check anybody in; every later
      scan repeats `invalid` if the first was invalid and reports `already_checked_in` otherwise.
      (Sequential scans only: the source reads and then writes, so concurrent scans are not covered.) */
  lemma RepeatedScans(store: Store, token: JsValue, nows: seq<Time>, hash: string -> Digest)
    requires UniqueHashes(store)
    ensures var rs := ScanRepeatedly(store, token, nows, hash);
            forall i :: 0 < i < |rs| ==> rs[i] == if rs[0].Invalid? then Invalid else AlreadyCheckedIn
  {
    if |nows| > 0 {
      var v := Verify(store, token, nows[0], hash);
      if v.result.Invalid? {
        UnknownStaysInvalid(store, token, nows, hash);
      } else {
        var id :| Matches(store, token, hash, id);
        assert Matches(v.store, token, hash, id);
        SpentStaysSpent(v.store, token, nows[1..], hash);
      }
    }
  }

  // ------------------------------------------------------------ re-issue

  /** Re-issuing a ticket replaces the stored digest: the earlier token no longer matches any
      signup, while the new one finds the signup. */
  lemma ReissueInvalidatesPrevious(store: Store, signupId: SignupId, e1: string, e2: string,
                                   b1: Option<string>, b2: Option<string>, t1: string, t2: string,
                                   codec: QrCodec, now: Time)
    requires UniqueHashes(store)
    requires Injective(codec.hash)
    requires t1 != t2 && t1 != "" && t2 != ""
    requires Issue(store, signupId, e1, b1, t1, codec).Success?
    requires Issue(Issue(store, signupId, e1, b1, t1, codec).value.store, signupId, e2, b2, t2, codec).Success?
    ensures var s1 := Issue(store, signupId, e1, b1, t1, codec).value.store;
            var s2 := Issue(s1, signupId, e2, b2, t2, codec).value.store;
            && Verify(s2, Str(t1), now, codec.hash) == Verification(Invalid, s2)
            && Verify(s2, Str(t2), now, codec.hash).result ==
                 if store[signupId].checked_in_at.None? then Ok(signupId, store[signupId].attendee_name, e2, now)
                 else AlreadyCheckedIn
  {
    var s1 := Issue(store, signupId, e1, b1, t1, codec).value.store;
    var s2 := Issue(s1, signupId, e2, b2, t2, codec).value.store;
    forall id | Matches(s2, Str(t1), codec.hash, id)
      ensures false
    {
      assert id != signupId;
      assert Holds(s1, id, codec.hash(t1)) && Holds(s1, signupId, codec.hash(t1));
    }
    IssueThenVerify(s1, signupId, e2, b2, t2, codec, now);
  }

  // ------------------------------------------------------------ digests only

  /** Every stored digest is the digest of a token in `issued`. */
  ghost predicate DigestsOf(store: Store, issued: set<string>, hash: string -> Digest)
  {
    forall id, h :: Holds(store, id, h) ==> exists u :: u in issued && h == hash(u)
  }

  /** Issuing keeps every stored digest accounted for by the tokens handed out so far. */
  lemma IssueAccountsForDigests(store: Store, signupId: SignupId, eventId: string, baseUrl: Option<string>,
                                token: string, codec: QrCodec, issued: set<string>)
    requires UniqueHashes(store)
    requires DigestsOf(store, issued, codec.hash)
    requires Issue(store, signupId, eventId, baseUrl, token, codec).Success?
    ensures DigestsOf(Issue(store, signupId, eventId, baseUrl, token, codec).value.store, issued + {token}, codec.hash)
  {
    var s1 := Issue(store, signupId, eventId, baseUrl, token, codec).value.store;
    forall id, h | Holds(s1, id, h)
      ensures exists u :: u in issued + {token} && h == codec.hash(u)
    {
      if id == signupId {
        assert token in issued + {token};
      } else {
        assert Holds(store, id, h);
        var u :| u in issued && h == codec.hash(u);
        assert u in issued + {token};
      }
    }
  }

  /** Scanning writes only check-in times, so the stored digests stay accounted for. */
  lemma VerifyKeepsDigests(store: Store, token: JsValue, now: Time, hash: string -> Digest, issued: set<string>)
    requires UniqueHashes(store)
    requires DigestsOf(store, issued, hash)
    ensures DigestsOf(Verify(store, token, now, hash).store, issued, hash)
  {
    var v := Verify(store, token, now, hash);
    forall id, h | Holds(v.store, id, h)
      ensures exists u :: u in issued && h == hash(u)
    {
      if v.result.Ok? {
        assert Matches(store, token, hash, v.result.signupId);
      }
      assert Holds(store, id, h);
    }
  }

  /** A token that was never handed out (a guess, a corrupted or truncated code) is invalid. */
  lemma UnissuedTokenIsInvalid(store: Store, issued: set<string>, token: string, now: Time, hash: string -> Digest)
    requires UniqueHashes(store)
    requires Injective(hash)
    requires DigestsOf(store, issued, hash)
    requires token !in issued
    ensures Verify(store, Str(token), now, hash) == Verification(Invalid, store)
  {
    forall id | Matches(store, Str(token), hash, id)
      ensures false
    {
      assert false;
    }
  }

  /** The table after issuing depends on the token only through its digest: the raw token
      itself is never stored. */
  lemma IssueStoresOnlyDigest(store: Store, signupId: SignupId, eventId: string, baseUrl: Option<string>,
                              t1: string, t2: string, codec: QrCodec)
    requires UniqueHashes(store)
    requires codec.hash(t1) == codec.hash(t2)
    ensures Issue(store, signupId, eventId, baseUrl, t1, codec).Success? <==>
            Issue(store, signupId, eventId, baseUrl, t2, codec).Success?
    ensures Issue(store, signupId, eventId, baseUrl, t1, codec).Success? ==>
            Issue(store, signupId, eventId, baseUrl, t1, codec).value.store ==
            Issue(store, signupId, eventId, baseUrl, t2, codec).value.store
  {
  }

  /** A recorded check-in time is never changed or cleared, by a scan or by a re-issue. */
  lemma CheckInTimeIsFinal(store: Store, id: SignupId, token: JsValue, now: Time, signupId: SignupId,
                           eventId: string, baseUrl: Option<string>, raw: string, codec: QrCodec)
    requires UniqueHashes(store)
    requires id in store && store[id].checked_in_at.Some?
    ensures Verify(store, token, now, codec.hash).store[id] == store[id]
    ensures Issue(store, signupId, eventId, baseUrl, raw, codec).Success? ==>
            Issue(store, signupId, eventId, baseUrl, raw, codec).value.store[id].checked_in_at == store[id].checked_in_at
  {
    var v := Verify(store, token, now, codec.hash);
    if v.result.Ok? {
      assert Matches(store, token, codec.hash, v.result.signupId);
    }
  }
}
