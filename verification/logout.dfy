/**
 * The current session resource, `/api/sessions/current`: `GET` hands the
 * access token's value to the page (for the socket handshake), `DELETE` signs
 * out by revoking refresh rows and expiring every session cookie.
 */
module Sessions {
  import opened Wrappers
  import opened Decimal
  import opened Js
  import opened Cookies
  import opened Http
  import opened Store
  import opened Jwt

  // ---------------------------------------------------------------------
  // GET: the token peek
  // ---------------------------------------------------------------------

  /** `GET /api/sessions/current` given the request's access cookie, if it carries one. */
  function SessionGet(accessCookie: Option<string>): (r: Reply)
    ensures r.status == 404 <==> accessCookie.None?
    ensures accessCookie.Some? ==> r.status == 200 && r.body.Keys == {"token"} && r.body["token"] == Str(accessCookie.value)
    ensures r.cookies == []
  {
    match accessCookie
    case None => Reply(404, map[], [])
    case Some(v) => Reply(200, map["token" := Str(v)], [])
  }

  // ---------------------------------------------------------------------
  // DELETE: sign out
  // ---------------------------------------------------------------------

  /** `^\d+$` on the `x-device-id` header, read with `Number`. */
  function DigitsDeviceId(header: Option<string>): (r: Option<nat>)
    ensures r.Some? <==> header.Some? && |header.value| >= 1 && AllDigits(header.value)
    ensures r.Some? ==> ToNumber(header.value) == Finite(r.value as real)
  {
    if header.Some? && |header.value| >= 1 && AllDigits(header.value) then
      DigitStringValue(header.value);
      Some(DigitsValue(header.value))
    else None
  }

  /** The `userId` claim of a verified access token, when `typeof` says it is a number. */
  function AccessUserId(accessCookie: Option<string>, verify: Verifier, nowMs: int): (r: Option<JsNumber>)
    ensures r.Some? ==> accessCookie.Some? && accessCookie.value != ""
                        && verify(AccessToken, accessCookie.value, nowMs).Some?
                        && Claim(verify(AccessToken, accessCookie.value, nowMs).value, "userId") == Num(r.value)
  {
    if accessCookie.None? || accessCookie.value == "" then None
    else match verify(AccessToken, accessCookie.value, nowMs)
      case None => None
      case Some(p) => if Claim(p, "userId").Num? then Some(Claim(p, "userId").n) else None
  }

  /** Which refresh rows a sign-out deletes. */
  datatype Revocation =
    | ByToken(token: string)
    | ByPair(userId: JsNumber, deviceId: nat)
    | ByUser(userId: JsNumber)
    | ByDevice(deviceId: nat)
    | NoRevocation

  /**
   * The preference chain: the refresh cookie's own token, else the (user,
   * device) pair, else the user, else the device, else nothing. A zero, NaN
   * or absent id does not count.
   */
  function RevocationOf(refreshCookie: Option<string>, userId: Option<JsNumber>, deviceId: Option<nat>): (r: Revocation)
    ensures refreshCookie.Some? && refreshCookie.value != "" <==> r.ByToken?
    ensures r.ByToken? ==> r.token == refreshCookie.value
    ensures !r.ByToken? ==>
              var u := userId.Some? && NumberTruthy(userId.value);
              var d := deviceId.Some? && deviceId.value != 0;
              (r.ByPair? <==> u && d) && (r.ByUser? <==> u && !d) && (r.ByDevice? <==> !u && d)
              && (r.NoRevocation? <==> !u && !d)
    ensures (r.ByPair? || r.ByUser?) ==> userId == Some(r.userId)
    ensures (r.ByPair? || r.ByDevice?) ==> deviceId == Some(r.deviceId) && r.deviceId > 0
  {
    if refreshCookie.Some? && refreshCookie.value != "" then ByToken(refreshCookie.value)
    else
      var u := userId.Some? && NumberTruthy(userId.value);
      var d := deviceId.Some? && deviceId.value != 0;
      if u && d then ByPair(userId.value, deviceId.value)
      else if u then ByUser(userId.value)
      else if d then ByDevice(deviceId.value)
      else NoRevocation
  }

  /** The `deleteMany` a revocation performs, or the error it throws. */
  function Revoke(t: seq<TokenRow>, r: Revocation): (res: Result<seq<TokenRow>, DbError>)
    ensures r.NoRevocation? ==> res == Success(t)
    ensures r.ByToken? || r.ByDevice? ==> res.Success?
    ensures res.Success? ==> forall x :: x in res.value ==> x in t
    ensures r.ByToken? ==> forall x :: x in res.value <==> x in t && x.token != r.token
    ensures r.ByDevice? ==> forall x :: x in res.value <==> x in t && x.deviceId != r.deviceId
    ensures r.ByUser? ==> (res.Success? <==> NumberIsInteger(r.userId))
    ensures r.ByUser? && res.Success? ==>
              forall x :: x in res.value <==> x in t && x.userId as real != r.userId.x
    ensures r.ByPair? ==> (res.Success? <==> NumberIsInteger(r.userId))
    ensures r.ByPair? && res.Success? ==>
              forall x :: x in res.value <==> x in t && !(x.userId as real == r.userId.x && x.deviceId == r.deviceId)
  {
    match r
    case ByToken(token) => Success(ClearRefreshTokenCookie(t, token).0)
    case ByPair(u, d) =>
      var uid :- IntArg(u);
      Success(DeleteMany(t, WherePair(uid, d)))
    case ByUser(u) =>
      var uid :- IntArg(u);
      Success(DeleteMany(t, WhereUser(uid)))
    case ByDevice(d) => Success(DeleteMany(t, WhereDevice(d)))
    case NoRevocation => Success(t)
  }

  /** Every sign-out answer expires the refresh cookie at both paths, then the access cookie. */
  function SignOutCookies(): (cs: seq<SetCookie>)
    ensures |cs| == 3
    ensures cs[..2] == ExpireRefreshCookies()
    ensures cs[2] == Expire(AccessCookieName, "/")
  {
    ExpireRefreshCookies() + [Expire(AccessCookieName, "/")]
  }

  /**
   * `DELETE /api/sessions/current`. `storeUp` is false when the store call
   * throws; the handler catches that and still clears the cookies.
   */
  function Logout(refreshCookie: Option<string>, accessCookie: Option<string>, h: Headers, db: Db,
                  verify: Verifier, nowMs: int, storeUp: bool): (o: Outcome<Reply>)
    ensures o.reply == Reply(204, map[], SignOutCookies())
    ensures o.db.users == db.users && o.db.devices == db.devices
    ensures var rev := RevocationOf(refreshCookie, AccessUserId(accessCookie, verify, nowMs),
                                    DigitsDeviceId(Header(h, "x-device-id")));
            var res := Revoke(db.tokens, rev);
            o.db.tokens == (if storeUp && res.Success? then res.value else db.tokens)
  {
    var rev := RevocationOf(refreshCookie, AccessUserId(accessCookie, verify, nowMs),
                            DigitsDeviceId(Header(h, "x-device-id")));
    var tokens :=
      if !storeUp then db.tokens
      else match Revoke(db.tokens, rev)
        case Success(kept) => kept
        case Failure(_) => db.tokens;
    Outcome(db.(tokens := tokens), Reply(204, map[], SignOutCookies()))
  }

  // ---------------------------------------------------------------------
  // Properties
  // ---------------------------------------------------------------------

  /** With a refresh cookie, signing out deletes exactly the rows holding that token. */
  lemma LogoutWithRefreshCookie(token: string, accessCookie: Option<string>, h: Headers, db: Db, verify: Verifier, nowMs: int)
    requires token != ""
    ensures var o := Logout(Some(token), accessCookie, h, db, verify, nowMs, true);
            forall x :: x in o.db.tokens <==> x in db.tokens && x.token != token
  {
  }

  /**
   * Without a refresh cookie, a verified integer user id and a digit device
   * header revoke only that pair's rows; every other row stays.
   */
  lemma LogoutPrefersPair(accessCookie: Option<string>, h: Headers, db: Db, verify: Verifier, nowMs: int, userId: int, deviceId: nat)
    requires userId != 0 && deviceId != 0
    requires AccessUserId(accessCookie, verify, nowMs) == Some(Finite(userId as real))
    requires DigitsDeviceId(Header(h, "x-device-id")) == Some(deviceId)
    ensures var o := Logout(None, accessCookie, h, db, verify, nowMs, true);
            forall x :: x in o.db.tokens <==> x in db.tokens && !(x.userId == userId && x.deviceId == deviceId)
  {
  }

  /** A device header of "0" counts as absent: with a user id, all the user's rows go. */
  lemma ZeroDeviceHeaderIsAbsent(accessCookie: Option<string>, h: Headers, db: Db, verify: Verifier, nowMs: int, userId: int)
    requires userId != 0
    requires AccessUserId(accessCookie, verify, nowMs) == Some(Finite(userId as real))
    requires Header(h, "x-device-id") == Some("0")
    ensures var o := Logout(None, accessCookie, h, db, verify, nowMs, true);
            forall x :: x in o.db.tokens <==> x in db.tokens && x.userId != userId
  {
    assert DigitsValue("0") == 0 by { assert "0"[..0] == ""; }
  }

  /** A store failure deletes nothing, and the reply is the same 204 with the same cookies. */
  lemma LogoutSurvivesStoreFailure(refreshCookie: Option<string>, accessCookie: Option<string>, h: Headers, db: Db,
                                   verify: Verifier, nowMs: int)
    ensures var o := Logout(refreshCookie, accessCookie, h, db, verify, nowMs, false);
            o.db == db && o.reply == Logout(refreshCookie, accessCookie, h, db, verify, nowMs, true).reply
  {
  }

  /** A non-integer numeric user claim makes the store throw: nothing is deleted. */
  lemma FractionalUserIdDeletesNothing(accessCookie: Option<string>, h: Headers, db: Db, verify: Verifier, nowMs: int)
    requires AccessUserId(accessCookie, verify, nowMs) == Some(Finite(0.5))
    ensures Logout(None, accessCookie, h, db, verify, nowMs, true).db == db
  {
    assert !IsIntegral(0.5) by { assert (0.5).Floor == 0; }
  }

  /**
   * What a sign-out answer leaves in the browser: the store keeps one entry
   * per name, so the refresh cookie's "/" deletion replaces its narrow-path
   * one. The access cookie and a refresh cookie at "/" go; a refresh cookie
   * at the narrow refresh path stays as it was.
   */
  lemma SignOutJar(jar: Jar, now: int)
    requires now >= 0
    ensures Delivered(SignOutCookies()) == [Expire(RefreshCookieName, "/"), Expire(AccessCookieName, "/")]
    ensures var j := ReceiveAll(jar, Delivered(SignOutCookies()), now);
            (RefreshCookieName, "/") !in j && (AccessCookieName, "/") !in j
            && ((RefreshCookieName, RefreshPath) in j <==> (RefreshCookieName, RefreshPath) in jar)
            && ((RefreshCookieName, RefreshPath) in jar ==> j[(RefreshCookieName, RefreshPath)] == jar[(RefreshCookieName, RefreshPath)])
  {
    SignOutDelivers();
    var d := [Expire(RefreshCookieName, "/"), Expire(AccessCookieName, "/")];
    ReceiveAllLast(jar, d, now, 0);
    ReceiveAllLast(jar, d, now, 1);
    assert RefreshPath != "/" by { assert RefreshPath[1] != "/"[0]; }
    ReceiveAllUntouched(jar, d, now, (RefreshCookieName, RefreshPath));
  }

  /** Of the three sign-out deletions, the narrow-path one is replaced by the later "/" one of the same name. */
  lemma SignOutDelivers()
    ensures Delivered(SignOutCookies()) == [Expire(RefreshCookieName, "/"), Expire(AccessCookieName, "/")]
  {
    var cs := SignOutCookies();
    var root := Expire(RefreshCookieName, "/");
    var access := Expire(AccessCookieName, "/");
    assert Delivered([access]) == [access] by {
      assert Delivered([access][1..]) == [];
    }
    assert Delivered([root, access]) == [root, access] by {
      assert [root, access][1..] == [access];
      assert root.name != access.name by { assert RefreshCookieName[0] != AccessCookieName[0]; }
    }
    assert cs[1..] == [root, access];
    assert cs[1].name == cs[0].name;
  }

  /**
   * The narrow refresh cookie is never sent to `/api/sessions/current`: a
   * browser whose only refresh cookie sits at the refresh path reaches
   * `DELETE` without one, so revocation falls back to the claims.
   */
  lemma NarrowCookieNotSentToSignOut(jar: Jar, now: int)
    requires forall p :: (RefreshCookieName, p) in jar ==> p == RefreshPath
    ensures !Sends(jar, "/api/sessions/current", RefreshCookieName, now)
  {
    RefreshCookieReach();
  }
}
