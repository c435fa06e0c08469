/**
 * Signing in (`POST /api/sessions`), registering (`POST /api/auth/register`)
 * and confirming an e-mail address (`POST /api/email-verifications` and
 * `GET /api/auth/register/confirm`). Password hashing and comparison,
 * geolocation and mail delivery are inputs.
 */
module Accounts {
  import opened Wrappers
  import opened Text
  import opened Decimal
  import opened Js
  import opened Cookies
  import opened Http
  import opened ClientInfo
  import opened Store
  import opened Jwt

  /** `bcrypt.compare(password, hash)` */
  type PasswordCheck = (string, string) -> bool

  /** `header ? Number(header) : null`, kept only when it is a non-zero integer. */
  function HeaderDeviceId(header: Option<string>): (r: Option<int>)
    ensures r.Some? ==> header.Some? && r.value != 0 && ToNumber(header.value) == Finite(r.value as real)
    ensures (header.Some? && header.value != "" && NumberIsInteger(ToNumber(header.value))
             && ToNumber(header.value) != Finite(0.0)) ==> r.Some?
  {
    if header.None? || header.value == "" then None
    else NonZeroInteger(Num(ToNumber(header.value)))
  }

  /** A positive decimal header names that device: "42" is device 42. */
  lemma DigitHeaderNamesDevice(n: int)
    requires n != 0
    ensures HeaderDeviceId(Some(IntToString(n))) == Some(n)
  {
    IntSpellingRoundTrip(n);
  }

  /**
   * The device a request acts for: the header's id when it is a non-zero
   * integer (touched when `touch`), else a new device classified by its
   * user agent.
   */
  function ResolveDevice(devices: seq<Device>, h: Headers, userId: int, touch: bool, nowMs: int): (r: (seq<Device>, int))
    ensures HeaderDeviceId(Header(h, "x-device-id")).Some? ==>
              r.1 == HeaderDeviceId(Header(h, "x-device-id")).value
              && r.0 == (if touch then TouchDevice(devices, r.1, nowMs) else devices)
    ensures HeaderDeviceId(Header(h, "x-device-id")).None? ==>
              var ua := if Header(h, "user-agent").Some? then Header(h, "user-agent").value else "";
              r.0 == devices + [Device(r.1, userId, ua, DetectDeviceType(Some(ua)), None)]
              && forall d :: d in devices ==> d.id != r.1
    ensures r.1 != 0
  {
    match HeaderDeviceId(Header(h, "x-device-id"))
    case Some(id) => (if touch then TouchDevice(devices, id, nowMs) else devices, id)
    case None =>
      var ua := if Header(h, "user-agent").Some? then Header(h, "user-agent").value else "";
      CreateDevice(devices, userId, ua, DetectDeviceType(Some(ua)))
  }

  // ---------------------------------------------------------------------
  // POST /api/sessions (sign in)
  // ---------------------------------------------------------------------

  datatype Credentials = Credentials(email: Option<string>, password: Option<string>)

  const InvalidCredentials := "Invalid credentials"

  /** The account that the credentials open, if any. */
  function Authenticate(users: seq<User>, c: Credentials, check: PasswordCheck): (r: Option<User>)
    requires c.email.Some? && c.password.Some?
    ensures r.Some? ==> r.value in users && r.value.email == c.email.value
                        && r.value.isEmailVerified == Some(true) && check(c.password.value, r.value.passwordHash)
    ensures r.None? <==> UserByEmail(users, c.email.value).None?
                         || UserByEmail(users, c.email.value).value.isEmailVerified != Some(true)
                         || !check(c.password.value, UserByEmail(users, c.email.value).value.passwordHash)
  {
    match UserByEmail(users, c.email.value)
    case None => None
    case Some(u) =>
      if u.isEmailVerified != Some(true) then None
      else if !check(c.password.value, u.passwordHash) then None
      else Some(u)
  }

  /** The filter for a live refresh row of (user, device): `expiresAt > now`. */
  function LiveRowOf(userId: int, deviceId: int, nowMs: int): TokenWhere {
    TokenWhere(None, Some(userId), Some(deviceId), Some(nowMs))
  }

  /**
   * Signing in an authenticated user: resolve the device, then reuse a live
   * refresh row of (user, device) or issue a new one, and set a fresh access
   * cookie.
   */
  function StartSession(user: User, h: Headers, geo: Geo, db: Db, cfg: Config, sign: Signer, nowMs: int): (o: Outcome<Reply>)
    ensures o.db.users == db.users
    ensures o.db.devices == ResolveDevice(db.devices, h, user.id, true, nowMs).0
    ensures o.reply.status == 200 || o.reply == Crash()
    ensures o.reply.status == 200 ==>
              |o.reply.cookies| == 2
              && o.reply.cookies[1] == SetAccessTokenCookie(cfg, sign, nowMs, user.id)
              && o.reply.body == map["deviceId" := Num(Finite(ResolveDevice(db.devices, h, user.id, true, nowMs).1 as real))]
    ensures var deviceId := ResolveDevice(db.devices, h, user.id, true, nowMs).1;
            var live := FindFirst(db.tokens, LiveRowOf(user.id, deviceId, nowMs));
            live.Some? ==>
              && o.reply.status == 200 && o.db.tokens == db.tokens
              && o.reply.cookies[0] == RefreshCookie(live.value.token, live.value.expiresAt, cfg)
              && live.value in db.tokens && live.value.userId == user.id && live.value.deviceId == deviceId
              && live.value.expiresAt > nowMs
    ensures var deviceId := ResolveDevice(db.devices, h, user.id, true, nowMs).1;
            var issue := SetRefreshTokenCookie(db.tokens, cfg, sign, nowMs, user.id, deviceId, ExtractClientIp(h), Some(geo));
            FindFirst(db.tokens, LiveRowOf(user.id, deviceId, nowMs)).None? ==>
              && (o.reply.status == 200 <==> issue.result.Success?)
              && o.db.tokens == issue.tokens
              && (issue.result.Success? ==> o.reply.cookies[0] == issue.result.value.cookie)
  {
    var (devices, deviceId) := ResolveDevice(db.devices, h, user.id, true, nowMs);
    var access := SetAccessTokenCookie(cfg, sign, nowMs, user.id);
    var body := map["deviceId" := Num(Finite(deviceId as real))];
    match FindFirst(db.tokens, LiveRowOf(user.id, deviceId, nowMs))
    case Some(live) =>
      Outcome(db.(devices := devices), Reply(200, body, [RefreshCookie(live.token, live.expiresAt, cfg), access]))
    case None =>
      var issue := SetRefreshTokenCookie(db.tokens, cfg, sign, nowMs, user.id, deviceId, ExtractClientIp(h), Some(geo));
      match issue.result
      case Failure(_) => Outcome(Db(db.users, devices, issue.tokens), Crash())
      case Success(issued) => Outcome(Db(db.users, devices, issue.tokens), Reply(200, body, [issued.cookie, access]))
  }

  predicate MissingCredentials(c: Credentials) {
    c.email.None? || c.email == Some("") || c.password.None? || c.password == Some("")
  }

  /** `POST /api/sessions` */
  function Login(c: Credentials, h: Headers, geo: Geo, db: Db, cfg: Config, check: PasswordCheck,
                 sign: Signer, nowMs: int): (o: Outcome<Reply>)
    ensures MissingCredentials(c) <==> o.reply == Error(400, "email and password required")
    ensures MissingCredentials(c) ==> o.db == db
    ensures !MissingCredentials(c) ==>
              (Authenticate(db.users, c, check).None? <==> o.reply == Error(401, InvalidCredentials))
    ensures o.reply.status == 400 || o.reply.status == 401 ==> o.db == db
    ensures !MissingCredentials(c) && Authenticate(db.users, c, check).Some? ==>
              o == StartSession(Authenticate(db.users, c, check).value, h, geo, db, cfg, sign, nowMs)
  {
    if MissingCredentials(c) then Outcome(db, Error(400, "email and password required"))
    else
      match Authenticate(db.users, c, check)
      case None => Outcome(db, Error(401, InvalidCredentials))
      case Some(user) => StartSession(user, h, geo, db, cfg, sign, nowMs)
  }

  /** Wrong credentials look alike: unknown e-mail, unverified account and wrong password all answer the same 401. */
  lemma FailedSignInIsUniform(c: Credentials, h: Headers, geo: Geo, db: Db, cfg: Config, check: PasswordCheck,
                              sign: Signer, nowMs: int)
    requires c.email.Some? && c.email.value != "" && c.password.Some? && c.password.value != ""
    requires UserByEmail(db.users, c.email.value).None?
             || UserByEmail(db.users, c.email.value).value.isEmailVerified != Some(true)
             || !check(c.password.value, UserByEmail(db.users, c.email.value).value.passwordHash)
    ensures Login(c, h, geo, db, cfg, check, sign, nowMs) == Outcome(db, Error(401, InvalidCredentials))
  {
  }

  /**
   * Signing in keeps the refresh table's invariants, and afterwards the
   * signed-in (user, device) pair has a row holding the cookie's token.
   */
  lemma StartSessionKeepsInvariants(user: User, h: Headers, geo: Geo, db: Db, cfg: Config, sign: Signer, nowMs: int)
    requires UniqueTokens(db.tokens) && OnePerPair(db.tokens)
    ensures var o := StartSession(user, h, geo, db, cfg, sign, nowMs);
            UniqueTokens(o.db.tokens) && OnePerPair(o.db.tokens)
    ensures var o := StartSession(user, h, geo, db, cfg, sign, nowMs);
            var deviceId := ResolveDevice(db.devices, h, user.id, true, nowMs).1;
            o.reply.status == 200 ==>
              |FindMany(o.db.tokens, WherePair(user.id, deviceId))| == 1
              && FindMany(o.db.tokens, WherePair(user.id, deviceId))[0].token == o.reply.cookies[0].value
  {
    var deviceId := ResolveDevice(db.devices, h, user.id, true, nowMs).1;
    var w := WherePair(user.id, deviceId);
    var live := FindFirst(db.tokens, LiveRowOf(user.id, deviceId, nowMs));
    var o := StartSession(user, h, geo, db, cfg, sign, nowMs);
    if live.Some? {
      OnlyRowOfPair(db.tokens, live.value);
    } else {
      var issue := SetRefreshTokenCookie(db.tokens, cfg, sign, nowMs, user.id, deviceId, ExtractClientIp(h), Some(geo));
      IssueKeepsInvariants(db.tokens, cfg, sign, nowMs, user.id, deviceId, ExtractClientIp(h), Some(geo));
      if issue.result.Success? {
        IssueLeavesOneRow(db.tokens, cfg, sign, nowMs, user.id, deviceId, ExtractClientIp(h), Some(geo));
      }
    }
  }

  /** Under one row per pair, a row is the only row its pair selects. */
  lemma {:induction false} OnlyRowOfPair(t: seq<TokenRow>, row: TokenRow)
    requires OnePerPair(t) && row in t
    ensures FindMany(t, WherePair(row.userId, row.deviceId)) == [row]
  {
    var w := WherePair(row.userId, row.deviceId);
    var rest := t[1..];
    assert OnePerPair(rest) by {
      forall i, j | 0 <= i < |rest| && 0 <= j < |rest| && rest[i].userId == rest[j].userId && rest[i].deviceId == rest[j].deviceId
        ensures i == j
      {
        assert rest[i] == t[i + 1] && rest[j] == t[j + 1];
      }
    }
    if t[0] == row {
      forall x | x in rest ensures !Selects(w, x) {
        var k :| 0 <= k < |rest| && rest[k] == x;
        assert t[k + 1] == x;
      }
      FindManyNone(rest, w);
    } else {
      assert row in rest;
      assert !Selects(w, t[0]) by {
        var k :| 0 <= k < |rest| && rest[k] == row;
        assert t[k + 1] == row;
      }
      OnlyRowOfPair(rest, row);
    }
  }

  // ---------------------------------------------------------------------
  // POST /api/auth/register
  // ---------------------------------------------------------------------

  datatype Registration = Registration(
    email: Option<string>,
    username: Option<string>,
    password: Option<string>,
    passwordConfirmation: Option<string>)

  /** The reply and the confirmation token put in the e-mail, when one was sent for. */
  datatype Registered = Registered(reply: Reply, emailToken: Option<string>)

  predicate Blank(s: Option<string>) {
    s.None? || s.value == ""
  }

  /** The first validation failure, in the order the handler checks. */
  function RegistrationError(users: seq<User>, r: Registration): (e: Option<Reply>)
    ensures e.Some? ==> e.value.cookies == [] && e.value.status in {400, 409}
  {
    if Blank(r.username) || Blank(r.password) || Blank(r.passwordConfirmation) then
      Some(Error(400, "username and password required"))
    else if Blank(r.email) || !Contains(r.email.value, "@") then Some(Error(400, "Invalid email"))
    else if UserByEmail(users, r.email.value).Some? then Some(Error(409, "Email already registered"))
    else if r.passwordConfirmation != r.password then Some(Error(400, "Passwords do not match"))
    else if UserByName(users, r.username.value).Some? then Some(Error(409, "Username already taken"))
    else None
  }

  /**
   * `POST /api/auth/register` with `hash` the bcrypt hash of the password and
   * `mailSent` whether the confirmation mail went out.
   */
  function Register(r: Registration, h: Headers, db: Db, hash: string, mailSent: bool, sign: Signer, nowMs: int): (o: Outcome<Registered>)
    ensures RegistrationError(db.users, r).Some? ==>
              o == Outcome(db, Registered(RegistrationError(db.users, r).value, None))
    ensures RegistrationError(db.users, r).None? ==>
              && |o.db.users| == |db.users| + 1
              && o.db.users[..|db.users|] == db.users
              && (var u := o.db.users[|db.users|];
                  u.email == r.email.value && u.username == r.username.value && u.passwordHash == hash
                  && u.isEmailVerified == Some(false)
                  && (forall v :: v in db.users ==> v.id != u.id))
              && o.db.tokens == db.tokens
              && o.reply.emailToken.Some?
              && (o.reply.reply.status == 200 <==> mailSent)
              && (!mailSent ==> o.reply.reply == Error(500, "email_send_failed"))
              && o.reply.reply.cookies == []
    ensures RegistrationError(db.users, r).None? ==>
              var device := ResolveDevice(db.devices, h, o.db.users[|db.users|].id, false, nowMs);
              o.db.devices == device.0
              && (mailSent ==> o.reply.reply.body == map["deviceId" := Num(Finite(device.1 as real))])
  {
    match RegistrationError(db.users, r)
    case Some(e) => Outcome(db, Registered(e, None))
    case None =>
      var id := MaxId(db.users, IdOfUser) + 1;
      var user := User(id, r.email.value, r.username.value, hash, Some(false), nowMs);
      var (devices, deviceId) := ResolveDevice(db.devices, h, id, false, nowMs);
      var token := sign(EmailToken, Payload(id, Some(deviceId)), nowMs);
      var reply := if mailSent then Reply(200, map["deviceId" := Num(Finite(deviceId as real))], [])
                   else Error(500, "email_send_failed");
      Outcome(Db(db.users + [user], devices, db.tokens), Registered(reply, Some(token)))
  }

  /**
   * Without a device header a device is created for the new user, and it
   * stays even when the confirmation mail could not be sent.
   */
  lemma RegisterWithoutHeaderCreatesDevice(r: Registration, h: Headers, db: Db, hash: string, sign: Signer, nowMs: int)
    requires RegistrationError(db.users, r).None?
    requires HeaderDeviceId(Header(h, "x-device-id")).None?
    ensures var o := Register(r, h, db, hash, false, sign, nowMs);
            o.reply.reply.status == 500
            && |o.db.devices| == |db.devices| + 1
            && o.db.devices[..|db.devices|] == db.devices
            && o.db.devices[|db.devices|].userId == o.db.users[|db.users|].id
  {
    var o := Register(r, h, db, hash, false, sign, nowMs);
    var u := o.db.users[|db.users|];
    var ua := if Header(h, "user-agent").Some? then Header(h, "user-agent").value else "";
    var d := ResolveDevice(db.devices, h, u.id, false, nowMs);
    assert o.db.devices == db.devices + [Device(d.1, u.id, ua, DetectDeviceType(Some(ua)), None)];
  }

  /** A taken e-mail address is reported before a password mismatch. */
  lemma DuplicateEmailBeforeMismatch(users: seq<User>, r: Registration)
    requires !Blank(r.username) && !Blank(r.password) && !Blank(r.passwordConfirmation)
    requires !Blank(r.email) && Contains(r.email.value, "@")
    requires UserByEmail(users, r.email.value).Some?
    ensures RegistrationError(users, r) == Some(Error(409, "Email already registered"))
  {
  }

  /** Registration keeps e-mail addresses and user names unique. */
  lemma RegisterKeepsUsersUnique(r: Registration, h: Headers, db: Db, hash: string, mailSent: bool, sign: Signer, nowMs: int)
    requires forall i, j :: 0 <= i < j < |db.users| ==> db.users[i].email != db.users[j].email && db.users[i].username != db.users[j].username
    ensures var us := Register(r, h, db, hash, mailSent, sign, nowMs).db.users;
            forall i, j :: 0 <= i < j < |us| ==> us[i].email != us[j].email && us[i].username != us[j].username
  {
    var o := Register(r, h, db, hash, mailSent, sign, nowMs);
    if RegistrationError(db.users, r).None? {
      var us := o.db.users;
      var n := |db.users|;
      forall i, j | 0 <= i < j < |us|
        ensures us[i].email != us[j].email && us[i].username != us[j].username
      {
        if j == n {
          assert us[i] == db.users[i] && db.users[i] in db.users;
        } else {
          assert us[i] == db.users[i] && us[j] == db.users[j];
        }
      }
    }
  }

  /** The mailed token carries exactly the new user's id and the resolved device. */
  lemma RegisterEmailTokenPayload(r: Registration, h: Headers, db: Db, hash: string, mailSent: bool, sign: Signer, nowMs: int)
    requires RegistrationError(db.users, r).None?
    ensures var o := Register(r, h, db, hash, mailSent, sign, nowMs);
            var u := o.db.users[|db.users|];
            var deviceId := ResolveDevice(db.devices, h, u.id, false, nowMs).1;
            o.reply.emailToken == Some(sign(EmailToken, Payload(u.id, Some(deviceId)), nowMs))
            && o.db.devices == ResolveDevice(db.devices, h, u.id, false, nowMs).0
  {
  }

  // ---------------------------------------------------------------------
  // E-mail confirmation
  // ---------------------------------------------------------------------

  /** `body?.token` of a JSON body, where an unparsable body reads as `{}`. */
  function BodyToken(body: Option<Body>): (r: Option<string>)
    ensures r.Some? <==> body.Some? && "token" in body.value && body.value["token"].Str?
    ensures r.Some? ==> body.value["token"] == Str(r.value)
  {
    if body.Some? && "token" in body.value && body.value["token"].Str? then Some(body.value["token"].s) else None
  }

  /** The verified e-mail claims, both ids typed as numbers. */
  function EmailClaims(token: string, verify: Verifier, nowMs: int): (r: Option<(JsNumber, JsNumber)>)
    ensures r.Some? <==> verify(EmailToken, token, nowMs).Some?
                         && Claim(verify(EmailToken, token, nowMs).value, "userId").Num?
                         && Claim(verify(EmailToken, token, nowMs).value, "deviceId").Num?
    ensures r.Some? ==> Claim(verify(EmailToken, token, nowMs).value, "userId") == Num(r.value.0)
                        && Claim(verify(EmailToken, token, nowMs).value, "deviceId") == Num(r.value.1)
  {
    match verify(EmailToken, token, nowMs)
    case None => None
    case Some(p) =>
      if Claim(p, "userId").Num? && Claim(p, "deviceId").Num? then Some((Claim(p, "userId").n, Claim(p, "deviceId").n))
      else None
  }

  /** The shared confirmation: verify the user, sign in on the device named by the token. */
  function ConfirmEmail(token: Option<string>, h: Headers, geo: Geo, db: Db, cfg: Config, verify: Verifier,
                        sign: Signer, nowMs: int): (o: Outcome<Reply>)
    ensures token.None? || token == Some("") ==> o == Outcome(db, Error(400, "Token is required"))
    ensures token.Some? && token.value != "" && EmailClaims(token.value, verify, nowMs).None? ==>
              o == Outcome(db, Error(400, "Invalid or expired token"))
    ensures o.reply.status == 200 ==>
              token.Some? && token.value != "" && EmailClaims(token.value, verify, nowMs).Some?
              && (var (u, d) := EmailClaims(token.value, verify, nowMs).value;
                  NumberIsInteger(u) && NumberIsInteger(d)
                  && UserById(o.db.users, AsInt(u)).Some? && UserById(o.db.users, AsInt(u)).value.isEmailVerified == Some(true)
                  && (var issue := SetRefreshTokenCookie(db.tokens, cfg, sign, nowMs, AsInt(u), AsInt(d), ExtractClientIp(h), Some(geo));
                      issue.result.Success? && o.db.tokens == issue.tokens
                      && o.reply.cookies == [issue.result.value.cookie, SetAccessTokenCookie(cfg, sign, nowMs, AsInt(u))]))
    ensures token.Some? && token.value != "" && EmailClaims(token.value, verify, nowMs).Some? ==>
              var (u, d) := EmailClaims(token.value, verify, nowMs).value;
              && (!NumberIsInteger(u) || UserById(db.users, AsInt(u)).None? ==> o == Outcome(db, Crash()))
              && (NumberIsInteger(u) && UserById(db.users, AsInt(u)).Some? ==>
                    UserById(o.db.users, AsInt(u)).Some? && UserById(o.db.users, AsInt(u)).value.isEmailVerified == Some(true))
              && (NumberIsInteger(u) && UserById(db.users, AsInt(u)).Some? && !NumberIsInteger(d) ==>
                    o.reply == Crash() && o.db.tokens == db.tokens)
              && (NumberIsInteger(u) && UserById(db.users, AsInt(u)).Some? && NumberIsInteger(d) ==>
                    var issue := SetRefreshTokenCookie(db.tokens, cfg, sign, nowMs, AsInt(u), AsInt(d), ExtractClientIp(h), Some(geo));
                    && o.db.tokens == issue.tokens
                    && (o.reply.status == 200 <==> issue.result.Success?)
                    && (issue.result.Failure? ==> o.reply == Crash()))
    ensures o.reply.status == 200 ==> o.reply.body == map["success" := Bool(true)]
    ensures o.reply.status != 200 ==> o.reply.cookies == []
    ensures o.reply.status in {200, 400, 500}
    ensures o.db.devices == db.devices
  {
    if token.None? || token.value == "" then Outcome(db, Error(400, "Token is required"))
    else
      match EmailClaims(token.value, verify, nowMs)
      case None => Outcome(db, Error(400, "Invalid or expired token"))
      case Some((u, d)) =>
        if !NumberIsInteger(u) then Outcome(db, Crash())
        else
          match VerifyUser(db.users, AsInt(u))
          case Failure(_) => Outcome(db, Crash())
          case Success(users) =>
            VerifiedAfterUpdate(db.users, AsInt(u));
            var verified := db.(users := users);
            if !NumberIsInteger(d) then Outcome(verified, Crash())
            else
              var issue := SetRefreshTokenCookie(db.tokens, cfg, sign, nowMs, AsInt(u), AsInt(d), ExtractClientIp(h), Some(geo));
              match issue.result
              case Failure(_) => Outcome(verified.(tokens := issue.tokens), Crash())
              case Success(issued) =>
                Outcome(verified.(tokens := issue.tokens),
                        Reply(200, map["success" := Bool(true)], [issued.cookie, SetAccessTokenCookie(cfg, sign, nowMs, AsInt(u))]))
  }

  /** After the update the user is found, and found verified. */
  lemma VerifiedAfterUpdate(us: seq<User>, id: int)
    requires VerifyUser(us, id).Success?
    ensures var users := VerifyUser(us, id).value;
            UserById(users, id).Some? && UserById(users, id).value.isEmailVerified == Some(true)
  {
    var users := VerifyUser(us, id).value;
    var u :| u in us && u.id == id;
    var i :| 0 <= i < |us| && us[i] == u;
    assert users[i].id == id;
    UserByIdVerified(users, id);
  }

  lemma {:induction false} UserByIdVerified(users: seq<User>, id: int)
    requires exists i :: 0 <= i < |users| && users[i].id == id
    requires forall i :: 0 <= i < |users| && users[i].id == id ==> users[i].isEmailVerified == Some(true)
    ensures UserById(users, id).Some? && UserById(users, id).value.isEmailVerified == Some(true)
  {
    if users[0].id != id {
      var i :| 0 <= i < |users| && users[i].id == id;
      assert users[1..][i - 1].id == id;
      UserByIdVerified(users[1..], id);
    }
  }

  /** `POST /api/email-verifications`: the token comes from the JSON body. */
  function ConfirmByBody(body: Option<Body>, h: Headers, geo: Geo, db: Db, cfg: Config, verify: Verifier,
                         sign: Signer, nowMs: int): (o: Outcome<Reply>)
    ensures body.None? || "token" !in body.value ==> o == Outcome(db, Error(400, "Token is required"))
    ensures body.Some? && "token" in body.value && body.value["token"].Str? ==>
              o == ConfirmEmail(Some(body.value["token"].s), h, geo, db, cfg, verify, sign, nowMs)
  {
    ConfirmEmail(BodyToken(body), h, geo, db, cfg, verify, sign, nowMs)
  }

  /** `GET /api/auth/register/confirm?token=...`: the token comes from the query string. */
  function ConfirmByQuery(query: map<string, string>, h: Headers, geo: Geo, db: Db, cfg: Config, verify: Verifier,
                          sign: Signer, nowMs: int): (o: Outcome<Reply>)
    ensures "token" !in query ==> o == Outcome(db, Error(400, "Token is required"))
    ensures "token" in query ==> o == ConfirmEmail(Some(query["token"]), h, geo, db, cfg, verify, sign, nowMs)
  {
    ConfirmEmail(if "token" in query then Some(query["token"]) else None, h, geo, db, cfg, verify, sign, nowMs)
  }

  /**
   * Confirming twice is harmless: when the token still verifies and no row
   * of another pair holds the token the second confirmation signs, the
   * second confirmation also succeeds, the user stays verified and the pair
   * has exactly one refresh row, holding the second confirmation's token.
   */
  lemma ConfirmTwice(token: string, h: Headers, geo: Geo, db: Db, cfg: Config, verify: Verifier,
                     sign: Signer, now1: int, now2: int)
    requires ConfirmEmail(Some(token), h, geo, db, cfg, verify, sign, now1).reply.status == 200
    requires EmailClaims(token, verify, now2) == EmailClaims(token, verify, now1)
    requires EmailClaims(token, verify, now1).Some?
             && NumberIsInteger(EmailClaims(token, verify, now1).value.0)
             && NumberIsInteger(EmailClaims(token, verify, now1).value.1)
    requires var u := AsInt(EmailClaims(token, verify, now1).value.0);
             var d := AsInt(EmailClaims(token, verify, now1).value.1);
             forall x :: x in db.tokens && !(x.userId == u && x.deviceId == d)
               ==> x.token != sign(RefreshToken, Payload(u, Some(d)), now2)
    ensures var db1 := ConfirmEmail(Some(token), h, geo, db, cfg, verify, sign, now1).db;
            var o2 := ConfirmEmail(Some(token), h, geo, db1, cfg, verify, sign, now2);
            var u := AsInt(EmailClaims(token, verify, now1).value.0);
            var d := AsInt(EmailClaims(token, verify, now1).value.1);
            o2.reply.status == 200
            && UserById(o2.db.users, u).value.isEmailVerified == Some(true)
            && |FindMany(o2.db.tokens, WherePair(u, d))| == 1
            && FindMany(o2.db.tokens, WherePair(u, d))[0].token == sign(RefreshToken, Payload(u, Some(d)), now2)
  {
    var db1 := ConfirmEmail(Some(token), h, geo, db, cfg, verify, sign, now1).db;
    var u := AsInt(EmailClaims(token, verify, now1).value.0);
    var d := AsInt(EmailClaims(token, verify, now1).value.1);
    var ip := ExtractClientIp(h);
    var first := SetRefreshTokenCookie(db.tokens, cfg, sign, now1, u, d, ip, Some(geo));
    assert db1.tokens == first.tokens;
    var owner := UserById(db1.users, u).value;
    assert owner in db1.users && owner.id == u;
    assert VerifyUser(db1.users, u).Success?;
    var second := SetRefreshTokenCookie(db1.tokens, cfg, sign, now2, u, d, ip, Some(geo));
    assert second.result.Success?;
    IssueLeavesOneRow(db1.tokens, cfg, sign, now2, u, d, ip, Some(geo));
  }
}
