/**
 * Token issuance of `src/lib/jwt.ts`: the settings read at start-up, the
 * refresh-token row written by delete-then-insert, and the two session
 * cookies. Signing and verification are oracles passed in by the caller.
 */
module Jwt {
  import opened Wrappers
  import opened Js
  import opened Cookies
  import opened Store

  datatype TokenKind = AccessToken | RefreshToken | EmailToken

  /** What the application signs: `{ userId }` or `{ userId, deviceId }`. */
  datatype Payload = Payload(userId: int, deviceId: Option<int>)

  /** `jwt.sign(payload, secret, { expiresIn })` at time `now` with the kind's secret and lifetime. */
  type Signer = (TokenKind, Payload, int) -> string

  /** `verify*Token(token)` at time `now`: the decoded claims, or `null` for a bad signature or an expired token. */
  type Verifier = (TokenKind, string, int) -> Option<Claims>

  const AccessCookieName := "access_token"
  const RefreshCookieName := "refresh_token"

  /** The only path the refresh cookie is scoped to. */
  const RefreshPath := "/api/sessions/current/refresh"

  const MsPerDay := 86_400_000

  const DefaultAccessExpiresIn := 900     // seconds
  const DefaultRefreshExpiresInDays := 30
  const DefaultEmailExpiresIn := 1800     // seconds

  // ---------------------------------------------------------------------
  // Start-up settings
  // ---------------------------------------------------------------------

  type Env = map<string, string>

  datatype Config = Config(
    accessExpiresIn: int,
    refreshExpiresInDays: int,
    emailExpiresIn: int,
    production: bool)

  /** `Number(process.env[key] ?? default)`, when that is an integer. */
  function TtlSetting(env: Env, key: string, default: int): (r: Option<int>)
    ensures key !in env ==> r == Some(default)
    ensures key in env && r.Some? ==> ToNumber(env[key]) == Finite(r.value as real)
  {
    if key !in env then Some(default)
    else
      var n := ToNumber(env[key]);
      if NumberIsInteger(n) then Some(AsInt(n)) else None
  }

  /** A secret setting is usable when it is present and non-empty. */
  predicate HasSecret(env: Env, key: string) {
    key in env && env[key] != ""
  }

  /** Module initialisation: it throws unless all three signing secrets are set. */
  function LoadConfig(env: Env): (r: Result<Config, string>)
    ensures !(HasSecret(env, "JWT_ACCESS_SECRET") && HasSecret(env, "JWT_REFRESH_SECRET") && HasSecret(env, "JWT_EMAIL_SECRET"))
            ==> r == Failure("Missing JWT secrets in env")
    ensures r.Success? ==> (r.value.production <==> "NODE_ENV" in env && env["NODE_ENV"] == "production")
    ensures r.Success? && "ACCESS_TOKEN_EXPIRES_IN" !in env ==> r.value.accessExpiresIn == DefaultAccessExpiresIn
    ensures r.Success? && "REFRESH_TOKEN_EXPIRES_IN_DAYS" !in env ==> r.value.refreshExpiresInDays == DefaultRefreshExpiresInDays
    ensures r.Success? && "EMAIL_TOKEN_EXPIRES_IN" !in env ==> r.value.emailExpiresIn == DefaultEmailExpiresIn
  {
    var access := TtlSetting(env, "ACCESS_TOKEN_EXPIRES_IN", DefaultAccessExpiresIn);
    var refresh := TtlSetting(env, "REFRESH_TOKEN_EXPIRES_IN_DAYS", DefaultRefreshExpiresInDays);
    var email := TtlSetting(env, "EMAIL_TOKEN_EXPIRES_IN", DefaultEmailExpiresIn);
    if !(HasSecret(env, "JWT_ACCESS_SECRET") && HasSecret(env, "JWT_REFRESH_SECRET") && HasSecret(env, "JWT_EMAIL_SECRET")) then
      Failure("Missing JWT secrets in env")
    else if access.None? || refresh.None? || email.None? then
      Failure("non-integer token lifetime")
    else
      Success(Config(access.value, refresh.value, email.value,
                     "NODE_ENV" in env && env["NODE_ENV"] == "production"))
  }

  /** With every secret set and no lifetime overridden, the defaults apply: 15 minutes, 30 days, 30 minutes. */
  lemma DefaultLifetimes(env: Env)
    requires HasSecret(env, "JWT_ACCESS_SECRET") && HasSecret(env, "JWT_REFRESH_SECRET") && HasSecret(env, "JWT_EMAIL_SECRET")
    requires "ACCESS_TOKEN_EXPIRES_IN" !in env && "REFRESH_TOKEN_EXPIRES_IN_DAYS" !in env && "EMAIL_TOKEN_EXPIRES_IN" !in env
    ensures LoadConfig(env).Success?
    ensures LoadConfig(env).value.accessExpiresIn == 15 * 60
    ensures LoadConfig(env).value.refreshExpiresInDays == 30
    ensures LoadConfig(env).value.emailExpiresIn == 30 * 60
  {
  }

  // ---------------------------------------------------------------------
  // Cookies
  // ---------------------------------------------------------------------

  /** The refresh cookie: scoped to the refresh endpoints, expiring with its row. */
  function RefreshCookie(token: string, expiresAt: int, cfg: Config): (c: SetCookie)
    ensures c.name == RefreshCookieName && c.value == token
    ensures c.path == RefreshPath && c.expiry == ExpiresAt(expiresAt)
    ensures c.httpOnly && c.sameSite == Strict && (c.secure <==> cfg.production)
  {
    SetCookie(RefreshCookieName, token, RefreshPath, ExpiresAt(expiresAt), true, cfg.production, Strict)
  }

  /** `setAccessTokenCookie(userId)`: a fresh access token, site-wide, for `accessExpiresIn` seconds. */
  function SetAccessTokenCookie(cfg: Config, sign: Signer, now: int, userId: int): (c: SetCookie)
    ensures c.name == AccessCookieName && c.value == sign(AccessToken, Payload(userId, None), now)
    ensures c.path == "/" && c.expiry == MaxAge(cfg.accessExpiresIn)
    ensures c.httpOnly && c.sameSite == Strict && (c.secure <==> cfg.production)
  {
    SetCookie(AccessCookieName, sign(AccessToken, Payload(userId, None), now), "/",
              MaxAge(cfg.accessExpiresIn), true, cfg.production, Strict)
  }

  /** The narrow refresh cookie reaches the refresh endpoints and nothing else of the API. */
  lemma RefreshCookieReach()
    ensures PathMatch(RefreshPath, RefreshPath)
    ensures PathMatch(RefreshPath + "/redirect", RefreshPath)
    ensures !PathMatch("/api/sessions/current", RefreshPath)
    ensures !PathMatch("/api/sessions/current/refreshed", RefreshPath)
    ensures !PathMatch("/api/auth/refresh", RefreshPath)
    ensures !PathMatch("/api/auth/refresh/redirect", RefreshPath)
    ensures !PathMatch("/", RefreshPath)
  {
    PathMatchBoundary(RefreshPath + "/redirect", RefreshPath);
    PathMatchBoundary("/api/sessions/current/refreshed", RefreshPath);
    assert "/api/sessions/current/refreshed"[..|RefreshPath| + 1] != RefreshPath + "/";
  }

  // ---------------------------------------------------------------------
  // setRefreshTokenCookie: delete-then-insert
  // ---------------------------------------------------------------------

  /** `getGeolocation(...)`: the country name (possibly `undefined`) and the region code. */
  datatype Geo = Geo(country: Option<string>, region: Option<string>)

  /** `value || null` for an optional string. */
  function OrNull(s: Option<string>): (r: Option<string>)
    ensures r.Some? <==> s.Some? && s.value != ""
    ensures r.Some? ==> r == s
  {
    if s.Some? && s.value != "" then s else None
  }

  /** The row that a refresh issuance for (userId, deviceId) at `now` writes. */
  function IssuedRow(cfg: Config, sign: Signer, now: int, userId: int, deviceId: int,
                     ip: Option<string>, geo: Option<Geo>): (row: TokenRow)
    ensures row.token == sign(RefreshToken, Payload(userId, Some(deviceId)), now)
    ensures row.userId == userId && row.deviceId == deviceId
    ensures row.expiresAt == now + cfg.refreshExpiresInDays * MsPerDay
    ensures row.ipAddress == OrNull(ip)
    ensures row.country == (if geo.Some? then OrNull(geo.value.country) else None)
    ensures row.region == (if geo.Some? then OrNull(geo.value.region) else None)
  {
    TokenRow(sign(RefreshToken, Payload(userId, Some(deviceId)), now), userId, deviceId,
             now + cfg.refreshExpiresInDays * MsPerDay, OrNull(ip),
             if geo.Some? then OrNull(geo.value.country) else None,
             if geo.Some? then OrNull(geo.value.region) else None)
  }

  /** A successful issuance: the new token and the cookie carrying it. */
  datatype Issued = Issued(token: string, cookie: SetCookie)

  /**
   * What an issuance leaves: the refresh table, and the issuance or the
   * insert's failure. The deletion runs first and nothing rolls it back.
   */
  datatype Issuance = Issuance(tokens: seq<TokenRow>, result: Result<Issued, DbError>)

  /**
   * `setRefreshTokenCookie`: delete the pair's rows, insert the new one, set
   * the cookie. The insert throws when another pair's row already holds the
   * freshly signed token (the token column is unique); the pair's rows are
   * gone by then.
   */
  function SetRefreshTokenCookie(t: seq<TokenRow>, cfg: Config, sign: Signer, now: int, userId: int, deviceId: int,
                                 ip: Option<string>, geo: Option<Geo>): (r: Issuance)
    ensures r.result.Success? <==>
              forall x :: x in t && !(x.userId == userId && x.deviceId == deviceId)
                ==> x.token != sign(RefreshToken, Payload(userId, Some(deviceId)), now)
    ensures r.result.Failure? ==> r.result.error == UniqueViolation
    ensures r.result.Success? ==> r.result.value.token == sign(RefreshToken, Payload(userId, Some(deviceId)), now)
    ensures forall x: TokenRow :: !(x.userId == userId && x.deviceId == deviceId) ==> (x in r.tokens <==> x in t)
    ensures r.result.Failure? ==> forall x :: x in r.tokens ==> !(x.userId == userId && x.deviceId == deviceId)
    ensures r.result.Success? ==>
              r.result.value.cookie == RefreshCookie(r.result.value.token, now + cfg.refreshExpiresInDays * MsPerDay, cfg)
  {
    var row := IssuedRow(cfg, sign, now, userId, deviceId, ip, geo);
    var kept := DeleteMany(t, WherePair(userId, deviceId));
    if exists x :: x in kept && x.token == row.token then Issuance(kept, Failure(UniqueViolation))
    else Issuance(kept + [row], Success(Issued(row.token, RefreshCookie(row.token, row.expiresAt, cfg))))
  }

  /** After issuance the pair has exactly one row, the new one, and it holds the returned token. */
  lemma IssueLeavesOneRow(t: seq<TokenRow>, cfg: Config, sign: Signer, now: int, userId: int, deviceId: int,
                          ip: Option<string>, geo: Option<Geo>)
    requires SetRefreshTokenCookie(t, cfg, sign, now, userId, deviceId, ip, geo).result.Success?
    ensures var r := SetRefreshTokenCookie(t, cfg, sign, now, userId, deviceId, ip, geo);
            FindMany(r.tokens, WherePair(userId, deviceId)) == [IssuedRow(cfg, sign, now, userId, deviceId, ip, geo)]
            && r.tokens[|r.tokens| - 1].token == r.result.value.token
  {
    var w := WherePair(userId, deviceId);
    var row := IssuedRow(cfg, sign, now, userId, deviceId, ip, geo);
    var kept := DeleteMany(t, w);
    IssuedTokens(t, cfg, sign, now, userId, deviceId, ip, geo);
    FindManyNone(kept, w);
    FindManyAppend(kept, [row], w);
    assert FindMany([row], w) == [row] by {
      assert [row][1..] == [];
    }
  }

  /** A successful issuance appends the new row to the table left by the deletion. */
  lemma IssuedTokens(t: seq<TokenRow>, cfg: Config, sign: Signer, now: int, userId: int, deviceId: int,
                     ip: Option<string>, geo: Option<Geo>)
    requires SetRefreshTokenCookie(t, cfg, sign, now, userId, deviceId, ip, geo).result.Success?
    ensures var r := SetRefreshTokenCookie(t, cfg, sign, now, userId, deviceId, ip, geo);
            var row := IssuedRow(cfg, sign, now, userId, deviceId, ip, geo);
            r.tokens == DeleteMany(t, WherePair(userId, deviceId)) + [row] && r.result.value.token == row.token
  {
  }

  lemma {:induction false} FindManyNone(t: seq<TokenRow>, w: TokenWhere)
    requires forall x :: x in t ==> !Selects(w, x)
    ensures FindMany(t, w) == []
  {
    if FindMany(t, w) != [] {
      assert FindMany(t, w)[0] in FindMany(t, w);
    }
  }

  lemma {:induction false} FindManyAppend(a: seq<TokenRow>, b: seq<TokenRow>, w: TokenWhere)
    ensures FindMany(a + b, w) == FindMany(a, w) + FindMany(b, w)
    decreases |a|
  {
    if |a| > 0 {
      assert (a + b)[1..] == a[1..] + b;
      FindManyAppend(a[1..], b, w);
    } else {
      assert a + b == b;
    }
  }

  /** Issuance keeps both table invariants: unique tokens and one row per (user, device). */
  lemma IssueKeepsInvariants(t: seq<TokenRow>, cfg: Config, sign: Signer, now: int, userId: int, deviceId: int,
                             ip: Option<string>, geo: Option<Geo>)
    requires UniqueTokens(t) && OnePerPair(t)
    ensures var r := SetRefreshTokenCookie(t, cfg, sign, now, userId, deviceId, ip, geo);
            UniqueTokens(r.tokens) && OnePerPair(r.tokens)
  {
    var w := WherePair(userId, deviceId);
    var row := IssuedRow(cfg, sign, now, userId, deviceId, ip, geo);
    var kept := DeleteMany(t, w);
    DeleteManyKeepsInvariants(t, w);
    if SetRefreshTokenCookie(t, cfg, sign, now, userId, deviceId, ip, geo).result.Success? {
      var n := kept + [row];
      forall i, j | 0 <= i < |n| && 0 <= j < |n|
        ensures n[i].token == n[j].token ==> i == j
        ensures n[i].userId == n[j].userId && n[i].deviceId == n[j].deviceId ==> i == j
      {
        if i < |kept| && j == |kept| {
          assert n[i] in kept;
        } else if j < |kept| && i == |kept| {
          assert n[j] in kept;
        } else if i < |kept| && j < |kept| {
          assert n[i] == kept[i] && n[j] == kept[j];
        }
      }
    }
  }

  // ---------------------------------------------------------------------
  // clearRefreshTokenCookie
  // ---------------------------------------------------------------------

  /** The two instructions that expire the refresh cookie, at its narrow path and at "/". */
  function ExpireRefreshCookies(): (cs: seq<SetCookie>)
    ensures |cs| == 2
    ensures cs[0] == Expire(RefreshCookieName, RefreshPath) && cs[1] == Expire(RefreshCookieName, "/")
  {
    [Expire(RefreshCookieName, RefreshPath), Expire(RefreshCookieName, "/")]
  }

  /** `clearRefreshTokenCookie(token)`: delete exactly that token's rows and expire the cookie. */
  function ClearRefreshTokenCookie(t: seq<TokenRow>, token: string): (r: (seq<TokenRow>, seq<SetCookie>))
    ensures forall x :: x in r.0 <==> x in t && x.token != token
    ensures r.1 == ExpireRefreshCookies()
  {
    (DeleteMany(t, WhereToken(token)), ExpireRefreshCookies())
  }

  /**
   * The store keeps one `refresh_token` entry, so only the "/" deletion is
   * delivered: a refresh cookie at "/" goes, and one at the narrow refresh
   * path stays as it was.
   */
  lemma ClearingReachesOnlyRootPath(jar: Jar, now: int)
    requires now >= 0
    ensures Delivered(ExpireRefreshCookies()) == [Expire(RefreshCookieName, "/")]
    ensures var j := ReceiveAll(jar, Delivered(ExpireRefreshCookies()), now);
            (RefreshCookieName, "/") !in j
            && ((RefreshCookieName, RefreshPath) in j <==> (RefreshCookieName, RefreshPath) in jar)
            && ((RefreshCookieName, RefreshPath) in jar ==> j[(RefreshCookieName, RefreshPath)] == jar[(RefreshCookieName, RefreshPath)])
  {
    var cs := ExpireRefreshCookies();
    var root := Expire(RefreshCookieName, "/");
    assert Delivered(cs[1..]) == [root] by {
      assert cs[1..] == [root];
      assert Delivered([root][1..]) == [];
    }
    assert Delivered(cs) == [root] by {
      assert cs[1].name == cs[0].name;
    }
    ReceiveAllLast(jar, [root], now, 0);
    assert RefreshPath != "/" by { assert RefreshPath[1] != "/"[0]; }
    ReceiveAllUntouched(jar, [root], now, (RefreshCookieName, RefreshPath));
  }
}
