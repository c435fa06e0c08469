/**
 * The signed-in user's own record: `GET /api/users/me` (access cookie) and
 * `GET /api/me` (`Authorization: Bearer <token>` header).
 */
module Profile {
  import opened Wrappers
  import opened Text
  import opened Js
  import opened Http
  import opened Store
  import opened Jwt

  /** A user row without its password hash. */
  datatype PublicUser = PublicUser(id: int, email: string, username: string, isEmailVerified: Option<bool>, createdAt: int)

  /** The projection `{ id, username, email, createdAt }` of `/api/me`. */
  datatype UserSummary = UserSummary(id: int, username: string, email: string, createdAt: int)

  datatype Answer<T> = Refused(reply: Reply) | Answered(value: T)

  /** `const { passwordHash, ...publicUser } = user` */
  function StripHash(u: User): (p: PublicUser)
    ensures p.id == u.id && p.email == u.email && p.username == u.username
    ensures p.isEmailVerified == u.isEmailVerified && p.createdAt == u.createdAt
  {
    PublicUser(u.id, u.email, u.username, u.isEmailVerified, u.createdAt)
  }

  /** Stripping forgets only the hash: two users with the same public part differ at most in it. */
  lemma StripHashForgetsOnlyHash(u: User, v: User)
    requires StripHash(u) == StripHash(v)
    ensures u == v.(passwordHash := u.passwordHash)
  {
  }

  /** `GET /api/users/me` */
  function Me(accessCookie: Option<string>, users: seq<User>, verify: Verifier, nowMs: int): (r: Answer<PublicUser>)
    ensures var p := verify(AccessToken, if accessCookie.Some? then accessCookie.value else "", nowMs);
            (p.None? || !Claim(p.value, "userId").Num?) <==> r == Refused(Error(400, "Invalid or expired token"))
    ensures r.Answered? ==>
              var p := verify(AccessToken, if accessCookie.Some? then accessCookie.value else "", nowMs);
              p.Some? && Claim(p.value, "userId").Num? && NumberIsInteger(Claim(p.value, "userId").n)
              && UserById(users, AsInt(Claim(p.value, "userId").n)).Some?
              && r.value == StripHash(UserById(users, AsInt(Claim(p.value, "userId").n)).value)
    ensures r.Refused? ==> r.reply.status in {400, 404, 500}
    ensures var p := verify(AccessToken, if accessCookie.Some? then accessCookie.value else "", nowMs);
            p.Some? && Claim(p.value, "userId").Num? ==>
              var n := Claim(p.value, "userId").n;
              (!NumberIsInteger(n) ==> r == Refused(Crash()))
              && (NumberIsInteger(n) && UserById(users, AsInt(n)).None? ==> r == Refused(Error(404, "User not found")))
              && (NumberIsInteger(n) && UserById(users, AsInt(n)).Some? ==> r == Answered(StripHash(UserById(users, AsInt(n)).value)))
  {
    var token := if accessCookie.Some? then accessCookie.value else "";
    match verify(AccessToken, token, nowMs)
    case None => Refused(Error(400, "Invalid or expired token"))
    case Some(p) =>
      if !Claim(p, "userId").Num? then Refused(Error(400, "Invalid or expired token"))
      else match IntArg(Claim(p, "userId").n)
        case Failure(_) => Refused(Crash())
        case Success(id) =>
          match UserById(users, id)
          case None => Refused(Error(404, "User not found"))
          case Some(u) => Answered(StripHash(u))
  }

  /** `auth.split(" ")` must give exactly ["Bearer", token]. */
  function BearerToken(authorization: Option<string>): (r: Option<string>)
    ensures var parts := Split(if authorization.Some? then authorization.value else "", ' ');
            r.Some? <==> |parts| == 2 && parts[0] == "Bearer"
    ensures r.Some? ==> ' ' !in r.value
  {
    var parts := Split(if authorization.Some? then authorization.value else "", ' ');
    if |parts| == 2 && parts[0] == "Bearer" then Some(parts[1]) else None
  }

  /** A well-formed header is exactly "Bearer " followed by the token. */
  lemma BearerHeaderShape(authorization: string)
    requires BearerToken(Some(authorization)).Some?
    ensures authorization == "Bearer " + BearerToken(Some(authorization)).value
  {
    var parts := Split(authorization, ' ');
    JoinSplit(authorization, ' ');
    assert parts[1..][0] == parts[1];
  }

  /** The scheme is matched case-sensitively: "bearer x" is refused. */
  lemma LowerCaseSchemeRefused()
    ensures BearerToken(Some("bearer x")).None?
  {
    var parts := Split("bearer x", ' ');
    if |parts| == 2 && parts[0] == "Bearer" {
      BearerHeaderShape("bearer x");
      assert false;
    }
  }

  /** `GET /api/me`: the user id is `Number(userId)` of whatever the claim holds. */
  function MeByBearer(authorization: Option<string>, users: seq<User>, verify: Verifier, nowMs: int): (r: Answer<UserSummary>)
    ensures BearerToken(authorization).None? ==> r == Refused(Error(401, "Missing token"))
    ensures BearerToken(authorization).Some? && verify(AccessToken, BearerToken(authorization).value, nowMs).None? ==>
              r == Refused(Error(401, "Invalid token"))
    ensures r.Answered? ==>
              var claims := verify(AccessToken, BearerToken(authorization).value, nowMs).value;
              var n := ValueToNumber(Claim(claims, "userId"));
              NumberIsInteger(n) && UserById(users, AsInt(n)).Some?
              && (var u := UserById(users, AsInt(n)).value;
                  r.value == UserSummary(u.id, u.username, u.email, u.createdAt))
    ensures BearerToken(authorization).Some? && verify(AccessToken, BearerToken(authorization).value, nowMs).Some? ==>
              var claims := verify(AccessToken, BearerToken(authorization).value, nowMs).value;
              var n := ValueToNumber(Claim(claims, "userId"));
              (!NumberIsInteger(n) ==> r == Refused(Crash()))
              && (NumberIsInteger(n) && UserById(users, AsInt(n)).None? ==> r == Refused(Error(404, "User not found")))
              && (NumberIsInteger(n) && UserById(users, AsInt(n)).Some? ==> r.Answered?)
  {
    match BearerToken(authorization)
    case None => Refused(Error(401, "Missing token"))
    case Some(token) =>
      match verify(AccessToken, token, nowMs)
      case None => Refused(Error(401, "Invalid token"))
      case Some(claims) =>
        match IntArg(ValueToNumber(Claim(claims, "userId")))
        case Failure(_) => Refused(Crash())
        case Success(id) =>
          match UserById(users, id)
          case None => Refused(Error(404, "User not found"))
          case Some(u) => Answered(UserSummary(u.id, u.username, u.email, u.createdAt))
  }
}
