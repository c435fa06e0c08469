/**
 * Refreshing an access token from the refresh cookie, in its two shapes:
 * the browser-navigation endpoints (`GET .../refresh/redirect`, one under
 * `/api/sessions/current`, a legacy one under `/api/auth`) that answer with a
 * redirect, and the `POST .../refresh` endpoints that answer with a stable
 * error code or `{ ok, deviceId }`.
 */
module Refresh {
  import opened Wrappers
  import opened Text
  import opened Js
  import opened Cookies
  import opened Http
  import opened Store
  import opened Jwt
  import opened Uri

  // ---------------------------------------------------------------------
  // The two redirect endpoints
  // ---------------------------------------------------------------------

  /** `sessions/current/refresh/redirect` or the legacy `auth/refresh/redirect`. */
  datatype Variant = SessionsCurrent | AuthLegacy

  /** The area `next` may not lead back into. */
  function ForbiddenPrefix(v: Variant): string {
    match v
    case SessionsCurrent => RefreshPath
    case AuthLegacy => "/api/auth/refresh"
  }

  /** Where every failure is sent. */
  function FailureTarget(v: Variant): string {
    match v
    case SessionsCurrent => "/landing"
    case AuthLegacy => "/login"
  }

  /** `sanitizeNext(nextRaw)`: only same-origin paths outside the refresh area survive. */
  function SanitizeNext(v: Variant, nextRaw: string): (r: string)
    ensures StartsWith(r, "/") && !StartsWith(r, "//")
    ensures !StartsWith(r, ForbiddenPrefix(v))
    ensures r == nextRaw || r == "/"
    ensures r == nextRaw <==>
              StartsWith(nextRaw, "/") && !StartsWith(nextRaw, "//") && !StartsWith(nextRaw, ForbiddenPrefix(v))
  {
    if !StartsWith(nextRaw, "/") || StartsWith(nextRaw, "//") then "/"
    else if StartsWith(nextRaw, ForbiddenPrefix(v)) then "/"
    else nextRaw
  }

  /** Sanitising a sanitised path changes nothing. */
  lemma SanitizeNextIdempotent(v: Variant, nextRaw: string)
    ensures SanitizeNext(v, SanitizeNext(v, nextRaw)) == SanitizeNext(v, nextRaw)
  {
  }

  /** The legacy sanitiser lets the current refresh area through; the current one does not. */
  lemma SanitizersDiffer()
    ensures SanitizeNext(AuthLegacy, RefreshPath) == RefreshPath
    ensures SanitizeNext(SessionsCurrent, RefreshPath) == "/"
    ensures SanitizeNext(SessionsCurrent, "/api/auth/refresh") == "/api/auth/refresh"
    ensures SanitizeNext(AuthLegacy, "/api/auth/refresh") == "/"
  {
    DiffersAt(RefreshPath, "/api/auth/refresh", 5);
    DiffersAt("/api/auth/refresh", RefreshPath, 5);
    StartsWithChar(RefreshPath, '/');
    DiffersAt(RefreshPath, "//", 1);
    StartsWithChar("/api/auth/refresh", '/');
    DiffersAt("/api/auth/refresh", "//", 1);
  }

  // ---------------------------------------------------------------------
  // Where `new URL(nextPath, url)` leads
  // ---------------------------------------------------------------------

  /** The parser's first step on its input: tab, line feed and carriage return are dropped wherever they occur. */
  function StripTabNewline(s: string): (r: string)
    ensures |r| <= |s|
    ensures forall i :: 0 <= i < |r| ==> r[i] != '\t' && r[i] != '\n' && r[i] != '\r'
    ensures (forall i :: 0 <= i < |s| ==> s[i] != '\t' && s[i] != '\n' && s[i] != '\r') ==> r == s
  {
    if |s| == 0 then ""
    else if s[0] == '\t' || s[0] == '\n' || s[0] == '\r' then StripTabNewline(s[1..])
    else [s[0]] + StripTabNewline(s[1..])
  }

  /**
   * Resolved against the site's own `http(s)` URL, the location stays on the
   * site as a path. For a special scheme the WHATWG URL parser reads a
   * relative input whose first two characters (after the tab and newline
   * removal) are each "/" or "\" as `//host...`, a URL on another host; one
   * slash followed by anything else is a path of the same origin.
   */
  predicate ResolvesOnSite(loc: string) {
    var t := StripTabNewline(loc);
    |t| >= 1 && t[0] == '/' && (|t| == 1 || (t[1] != '/' && t[1] != '\\'))
  }

  /** A host name as an attacker spells it: no `+`, `%`, tab, line feed or carriage return. */
  predicate PlainHost(host: string) {
    forall i :: 0 <= i < |host| ==> host[i] != '+' && host[i] != '%' && host[i] != '\t' && host[i] != '\n' && host[i] != '\r'
  }

  /** A host name of ASCII letters in non-empty labels separated by single dots, such as `evil.com`. */
  predicate ValidHost(host: string) {
    && |host| > 0 && host[0] != '.' && host[|host| - 1] != '.'
    && (forall i :: 0 <= i < |host| ==> IsLowerAscii(host[i]) || IsUpperAscii(host[i]) || host[i] == '.')
    && (forall i :: 0 <= i < |host| - 1 && host[i] == '.' ==> host[i + 1] != '.')
  }

  lemma ValidHostIsPlain(host: string)
    requires ValidHost(host)
    ensures PlainHost(host) && host[0] != '/' && host[0] != '\\' && host[0] != '?' && host[0] != '#'
  {
  }

  predicate IsSlash(c: char) {
    c == '/' || c == '\\'
  }

  /** `s` without its leading slashes and backslashes. */
  function SkipSlashes(s: string): (r: string)
    ensures |r| <= |s| && r == s[|s| - |r|..]
    ensures |r| > 0 ==> !IsSlash(r[0])
    ensures |s| > 0 && !IsSlash(s[0]) ==> r == s
    decreases |s|
  {
    if |s| > 0 && IsSlash(s[0]) then SkipSlashes(s[1..]) else s
  }

  /**
   * After the tab and newline removal, two slashes or backslashes and then,
   * past any further ones, nothing, a `?` or a `#`: the resolved URL would
   * have an empty host, which an http(s) URL may not have.
   */
  predicate EmptyAuthority(loc: string) {
    var t := StripTabNewline(loc);
    |t| >= 2 && IsSlash(t[0]) && IsSlash(t[1])
    && var rest := SkipSlashes(t[2..]); |rest| == 0 || rest[0] == '?' || rest[0] == '#'
  }

  /**
   * `new URL(input, base)` with the site's http(s) request URL as base:
   * whether the WHATWG URL parser accepts the input. The parser is a
   * parameter; `FollowsWhatwg` states what the model relies on.
   */
  type UrlParser = string -> bool

  /**
   * What the URL Standard (section 4.4, basic URL parser) guarantees for the
   * inputs that matter here: a path resolving on the site always parses, an
   * empty host never does, and `/\<host>` or `/<tab>/<host>` with a plain
   * domain does.
   */
  ghost predicate FollowsWhatwg(parses: UrlParser) {
    && (forall p :: ResolvesOnSite(p) ==> parses(p))
    && (forall p :: EmptyAuthority(p) ==> !parses(p))
    && (forall host :: ValidHost(host) ==> parses("/\\" + host) && parses("/\t/" + host))
  }

  /** A query value `next=/%5C<host>` arrives as a slash, a backslash and the host. */
  lemma EscapedBackslashDecodes(host: string)
    requires PlainHost(host)
    ensures FormDecode("/%5C" + host) == "/\\" + host
  {
    EscapeValues();
    PlainDecodes(host);
    SlashEscapeDecodes('5', 'C', host);
  }

  /** A query value `next=/%09/<host>` arrives as a slash, a tab, a slash and the host. */
  lemma EscapedTabDecodes(host: string)
    requires PlainHost(host)
    ensures FormDecode("/%09/" + host) == "/\t/" + host
  {
    EscapeValues();
    PlainDecodes(host);
    PlainCharDecodes('/', host);
    SlashEscapeDecodes('0', '9', "/" + host);
    assert "/%09/" + host == ['/', '%', '0', '9'] + ("/" + host);
    assert "/\t/" + host == ['/', '\t'] + ("/" + host);
  }

  /** `%5C` escapes the backslash and `%09` the tab. */
  lemma EscapeValues()
    ensures IsHexDigit('5') && IsHexDigit('C') && HexDigitValue('5') * 16 + HexDigitValue('C') == 0x5C && 0x5C as char == '\\'
    ensures IsHexDigit('0') && IsHexDigit('9') && HexDigitValue('0') * 16 + HexDigitValue('9') == 0x09 && 0x09 as char == '\t'
  {
  }

  /** Both refresh areas begin with `/a`. */
  lemma ForbiddenPrefixStartsApi(v: Variant)
    ensures |ForbiddenPrefix(v)| > 1 && ForbiddenPrefix(v)[1] == 'a'
  {
    if v == SessionsCurrent {
      assert RefreshPath[1] == 'a';
    } else {
      assert "/api/auth/refresh"[1] == 'a';
    }
  }

  /** `sanitizeNext` keeps any path whose second character is neither `/` nor `a`. */
  lemma SanitizeNextKeeps(v: Variant, p: string)
    requires |p| >= 2 && p[0] == '/' && p[1] != '/' && p[1] != 'a'
    ensures SanitizeNext(v, p) == p
  {
    StartsWithChar(p, '/');
    DiffersAt(p, "//", 1);
    ForbiddenPrefixStartsApi(v);
    DiffersAt(p, ForbiddenPrefix(v), 1);
  }

  /** Tab and newline removal leaves `/\<host>` as it is. */
  lemma BackslashHostStrips(host: string)
    requires PlainHost(host)
    ensures StripTabNewline("/\\" + host) == "/\\" + host
  {
    SlashHostStrips(host);
    StripPair('/', '\\', host);
  }

  /** Tab and newline removal leaves `<host>` and `/<host>` as they are. */
  lemma SlashHostStrips(host: string)
    requires PlainHost(host)
    ensures StripTabNewline(host) == host
    ensures StripTabNewline("/" + host) == "/" + host
  {
    StripFirst('/', host);
  }

  /** Tab and newline removal turns `/<tab>/<host>` into `//<host>`. */
  lemma TabHostStrips(host: string)
    requires PlainHost(host)
    ensures StripTabNewline("/\t/" + host) == "//" + host
  {
    SlashHostStrips(host);
    StripPair('/', '\t', "/" + host);
    assert "/\t/" + host == ['/', '\t'] + ("/" + host);
    assert "//" + host == ['/'] + ("/" + host);
  }

  /** Tab and newline removal on two leading characters. */
  lemma StripPair(a: char, b: char, rest: string)
    requires a != '\t' && a != '\n' && a != '\r'
    ensures StripTabNewline([a, b] + rest)
            == [a] + (if b == '\t' || b == '\n' || b == '\r' then [] else [b]) + StripTabNewline(rest)
  {
    StripFirst(b, rest);
    StripFirst(a, [b] + rest);
    assert [a, b] + rest == [a] + ([b] + rest);
  }

  /** Tab and newline removal looks at one character at a time. */
  lemma StripFirst(c: char, s: string)
    ensures StripTabNewline([c] + s) == if c == '\t' || c == '\n' || c == '\r' then StripTabNewline(s) else [c] + StripTabNewline(s)
  {
    assert ([c] + s)[1..] == s;
  }

  /** `sanitizeNext` checks the string, not where it resolves: a backslash after the first slash reaches another host. */
  lemma BackslashNextLeavesSite(v: Variant, host: string)
    requires PlainHost(host)
    ensures SanitizeNext(v, "/\\" + host) == "/\\" + host
    ensures !ResolvesOnSite("/\\" + host)
  {
    SanitizeNextKeeps(v, "/\\" + host);
    BackslashHostStrips(host);
  }

  /** The same with a tab after the first slash: the parser drops it and reads `//host`. */
  lemma TabNextLeavesSite(v: Variant, host: string)
    requires PlainHost(host)
    ensures SanitizeNext(v, "/\t/" + host) == "/\t/" + host
    ensures !ResolvesOnSite("/\t/" + host)
  {
    SanitizeNextKeeps(v, "/\t/" + host);
    TabHostStrips(host);
  }

  /** The parser that rejects exactly the empty hosts meets `FollowsWhatwg`: the requirement can be met. */
  lemma SomeParserFollowsWhatwg()
    ensures FollowsWhatwg(p => !EmptyAuthority(p))
  {
    forall host | ValidHost(host)
      ensures !EmptyAuthority("/\\" + host) && !EmptyAuthority("/\t/" + host)
    {
      ValidHostIsPlain(host);
      BackslashHostStrips(host);
      TabHostStrips(host);
      assert ("/\\" + host)[2..] == host && ("//" + host)[2..] == host;
    }
  }

  /** `next=/%5C` passes the sanitiser as a lone `/\`, whose host is empty: the parser rejects it. */
  lemma LoneBackslashHasNoHost(v: Variant)
    ensures FormDecode("/%5C") == "/\\"
    ensures SanitizeNext(v, "/\\") == "/\\"
    ensures EmptyAuthority("/\\")
  {
    EscapedBackslashDecodes("");
    assert "/%5C" + "" == "/%5C" && "/\\" + "" == "/\\";
    BackslashNextLeavesSite(v, "");
    BackslashHostStrips("");
  }

  /**
   * The sanitiser as intended: the same checks, and in addition the path
   * must resolve on the site. It agrees with `sanitizeNext` wherever that
   * one's answer stays on the site.
   */
  function SafeNext(v: Variant, nextRaw: string): (r: string)
    ensures ResolvesOnSite(r)
    ensures !StartsWith(r, ForbiddenPrefix(v))
    ensures r == nextRaw || r == "/"
    ensures r == nextRaw <==> SanitizeNext(v, nextRaw) == nextRaw && ResolvesOnSite(nextRaw)
    ensures ResolvesOnSite(SanitizeNext(v, nextRaw)) ==> r == SanitizeNext(v, nextRaw)
  {
    var s := SanitizeNext(v, nextRaw);
    assert StripTabNewline("/") == "/";
    if ResolvesOnSite(s) then s else "/"
  }

  /** A redirect with the cookies set on the way. */
  datatype RedirectReply = RedirectReply(location: string, cookies: seq<SetCookie>)

  /** The claims of a truthy refresh cookie, provided `userId` and `deviceId` are truthy. */
  function RedirectClaims(refreshCookie: Option<string>, verify: Verifier, nowMs: int): (r: Option<(string, Claims)>)
    ensures refreshCookie.None? || refreshCookie == Some("") ==> r.None?
    ensures r.Some? ==> refreshCookie == Some(r.value.0) && verify(RefreshToken, r.value.0, nowMs) == Some(r.value.1)
    ensures r.Some? ==> Truthy(Claim(r.value.1, "userId")) && Truthy(Claim(r.value.1, "deviceId"))
    ensures refreshCookie.Some? && verify(RefreshToken, refreshCookie.value, nowMs).None? ==> r.None?
  {
    if refreshCookie.None? || refreshCookie.value == "" then None
    else
      var payload := verify(RefreshToken, refreshCookie.value, nowMs);
      if payload.None? || !Truthy(Claim(payload.value, "userId")) || !Truthy(Claim(payload.value, "deviceId")) then None
      else Some((refreshCookie.value, payload.value))
  }

  /** `Number(stored.x) !== Number(payload.x)` fails for the column value `n`. */
  predicate NumberAgrees(n: int, claim: JsValue) {
    ValueToNumber(claim) == Finite(n as real)
  }

  /** The owner of a row has a non-null `isEmailVerified`. */
  predicate OwnerVerificationSet(users: seq<User>, row: TokenRow) {
    exists u :: u in users && u.id == row.userId && u.isEmailVerified.Some?
  }

  /** The first row holding the token, the pair and an owner whose `isEmailVerified` is set. */
  function FindOwned(t: seq<TokenRow>, users: seq<User>, w: TokenWhere): (r: Option<TokenRow>)
    ensures r.Some? ==> r.value in t && Selects(w, r.value) && OwnerVerificationSet(users, r.value)
    ensures r.None? <==> forall x :: x in t && Selects(w, x) ==> !OwnerVerificationSet(users, x)
  {
    if |t| == 0 then None
    else if Selects(w, t[0]) && OwnerVerificationSet(users, t[0]) then Some(t[0])
    else FindOwned(t[1..], users, w)
  }

  /**
   * The stored row that vouches for the token, or the failure: the current
   * variant looks the token up and compares its columns with the claims as
   * numbers; the legacy one filters by token, the claims as integer columns,
   * and a verified-or-unverified owner, and throws on a claim that is not an
   * integer.
   */
  function Vouching(v: Variant, db: Db, token: string, claims: Claims): (r: Result<TokenRow, DbError>)
    ensures r.Success? ==> r.value in db.tokens && r.value.token == token
    ensures r.Success? ==> NumberAgrees(r.value.userId, Claim(claims, "userId"))
                           && NumberAgrees(r.value.deviceId, Claim(claims, "deviceId"))
    ensures r.Failure? ==> r.error == (if v == AuthLegacy && !(NumberIsInteger(ValueToNumber(Claim(claims, "deviceId")))
                                                              && NumberIsInteger(ValueToNumber(Claim(claims, "userId"))))
                                       then InvalidArgument else RecordNotFound)
    ensures v == AuthLegacy && r.Success? ==> OwnerVerificationSet(db.users, r.value)
  {
    match v
    case SessionsCurrent =>
      var stored := FindFirst(db.tokens, WhereToken(token));
      if stored.Some? && NumberAgrees(stored.value.deviceId, Claim(claims, "deviceId"))
         && NumberAgrees(stored.value.userId, Claim(claims, "userId"))
      then Success(stored.value) else Failure(RecordNotFound)
    case AuthLegacy =>
      var d := ValueToNumber(Claim(claims, "deviceId"));
      var u := ValueToNumber(Claim(claims, "userId"));
      if !NumberIsInteger(d) || !NumberIsInteger(u) then Failure(InvalidArgument)
      else
        var stored := FindOwned(db.tokens, db.users, TokenWhere(Some(token), Some(AsInt(u)), Some(AsInt(d)), None));
        if stored.Some? then Success(stored.value) else Failure(RecordNotFound)
  }

  /** `searchParams.get("next") || "/"`: a missing or empty `next` means the home page. */
  function NextRaw(nextParam: Option<string>): (r: string)
    ensures r != ""
    ensures nextParam.Some? && nextParam.value != "" ==> r == nextParam.value
  {
    if nextParam.None? || nextParam.value == "" then "/" else nextParam.value
  }

  /** `GET .../refresh/redirect?next=...` */
  function RefreshRedirect(v: Variant, nextParam: Option<string>, refreshCookie: Option<string>, db: Db,
                           cfg: Config, verify: Verifier, sign: Signer, parses: UrlParser, nowMs: int): (o: Outcome<RedirectReply>)
    ensures o.reply.location == FailureTarget(v) || o.reply.location == SanitizeNext(v, NextRaw(nextParam))
    ensures o.reply.location != FailureTarget(v) ==> o.reply.cookies != []
    ensures o.reply.cookies != [] ==>
              o.reply.location == if parses(SanitizeNext(v, NextRaw(nextParam))) then SanitizeNext(v, NextRaw(nextParam)) else FailureTarget(v)
    ensures o.reply.cookies == [] ==> o.reply.location == FailureTarget(v)
    ensures o.db.users == db.users && o.db.tokens == db.tokens
    ensures v == SessionsCurrent ==> o.db == db
  {
    var nextPath := SanitizeNext(v, NextRaw(nextParam));
    var fail := Outcome(db, RedirectReply(FailureTarget(v), []));
    match RedirectClaims(refreshCookie, verify, nowMs)
    case None => fail
    case Some((token, claims)) =>
      match Vouching(v, db, token, claims)
      case Failure(_) => fail
      case Success(stored) =>
        if stored.expiresAt < nowMs then fail
        else
          // The device is touched and the cookie set before `new URL(nextPath, url)`
          // runs; when that throws, the catch sends the failure page instead.
          var devices := if v == AuthLegacy then TouchDevice(db.devices, stored.deviceId, nowMs) else db.devices;
          var location := if parses(nextPath) then nextPath else FailureTarget(v);
          Outcome(db.(devices := devices),
                  RedirectReply(location, [SetAccessTokenCookie(cfg, sign, nowMs, stored.userId)]))
  }

  /**
   * Every location is, as a string, a path that is not protocol-relative;
   * whether it also resolves on the site depends only on the sanitised `next`,
   * since the failure pages do.
   */
  lemma NoOpenRedirect(v: Variant, nextParam: Option<string>, refreshCookie: Option<string>, db: Db,
                       cfg: Config, verify: Verifier, sign: Signer, parses: UrlParser, nowMs: int)
    ensures var loc := RefreshRedirect(v, nextParam, refreshCookie, db, cfg, verify, sign, parses, nowMs).reply.location;
            StartsWith(loc, "/") && !StartsWith(loc, "//")
    ensures var loc := RefreshRedirect(v, nextParam, refreshCookie, db, cfg, verify, sign, parses, nowMs).reply.location;
            ResolvesOnSite(SanitizeNext(v, NextRaw(nextParam))) ==> ResolvesOnSite(loc)
  {
    FailureTargetResolves(v);
  }

  /** Both failure pages are site paths that resolve on the site. */
  lemma FailureTargetResolves(v: Variant)
    ensures var f := FailureTarget(v); StartsWith(f, "/") && !StartsWith(f, "//") && ResolvesOnSite(f)
  {
    var f := FailureTarget(v);
    assert f[0] == '/' && f[1] == 'l';
    StartsWithChar(f, '/');
    DiffersAt(f, "//", 1);
    assert f == [f[0]] + f[1..];
    assert StripTabNewline(f[1..]) == f[1..];
  }

  /**
   * A successful redirect whose `next` decodes to `/\<host>`, for a plain
   * domain, sends the browser to that host.
   */
  lemma RedirectLeavesSite(v: Variant, host: string, refreshCookie: Option<string>, db: Db,
                           cfg: Config, verify: Verifier, sign: Signer, parses: UrlParser, nowMs: int)
    requires ValidHost(host) && FollowsWhatwg(parses)
    requires RefreshRedirect(v, Some(FormDecode("/%5C" + host)), refreshCookie, db, cfg, verify, sign, parses, nowMs).reply.cookies != []
    ensures var loc := RefreshRedirect(v, Some(FormDecode("/%5C" + host)), refreshCookie, db, cfg, verify, sign, parses, nowMs).reply.location;
            loc == "/\\" + host && !ResolvesOnSite(loc)
  {
    ValidHostIsPlain(host);
    EscapedBackslashDecodes(host);
    BackslashNextLeavesSite(v, host);
    assert parses("/\\" + host);
  }

  /**
   * A successful redirect whose `next` is `/%5C` alone lands on the failure
   * page, since the parser rejects the empty host, but it still carries the
   * fresh access cookie.
   */
  lemma EmptyHostFallsBack(v: Variant, refreshCookie: Option<string>, db: Db,
                           cfg: Config, verify: Verifier, sign: Signer, parses: UrlParser, nowMs: int)
    requires FollowsWhatwg(parses)
    requires RefreshRedirect(v, Some(FormDecode("/%5C")), refreshCookie, db, cfg, verify, sign, parses, nowMs).reply.cookies != []
    ensures var o := RefreshRedirect(v, Some(FormDecode("/%5C")), refreshCookie, db, cfg, verify, sign, parses, nowMs);
            o.reply.location == FailureTarget(v) && o.reply.cookies != []
  {
    LoneBackslashHasNoHost(v);
    assert !parses("/\\");
  }

  /**
   * The redirect succeeds exactly when a truthy cookie verifies with truthy
   * ids, a row vouches for it, and the row has not expired (expiring exactly
   * now is accepted); success sets the access cookie for the row's user.
   */
  lemma RefreshRedirectSucceeds(v: Variant, nextParam: Option<string>, refreshCookie: Option<string>, db: Db,
                                cfg: Config, verify: Verifier, sign: Signer, parses: UrlParser, nowMs: int)
    ensures var o := RefreshRedirect(v, nextParam, refreshCookie, db, cfg, verify, sign, parses, nowMs);
            var ok := RedirectClaims(refreshCookie, verify, nowMs).Some?
                      && var (token, claims) := RedirectClaims(refreshCookie, verify, nowMs).value;
                         Vouching(v, db, token, claims).Success?
                         && Vouching(v, db, token, claims).value.expiresAt >= nowMs;
            (o.reply.cookies != [] <==> ok)
            && (ok ==> var (token, claims) := RedirectClaims(refreshCookie, verify, nowMs).value;
                       o.reply.cookies == [SetAccessTokenCookie(cfg, sign, nowMs, Vouching(v, db, token, claims).value.userId)])
            && (ok ==> o.reply.location == if parses(SanitizeNext(v, NextRaw(nextParam))) then SanitizeNext(v, NextRaw(nextParam))
                                           else FailureTarget(v))
            && (ok && v == AuthLegacy ==> var (token, claims) := RedirectClaims(refreshCookie, verify, nowMs).value;
                                          o.db.devices == TouchDevice(db.devices, Vouching(v, db, token, claims).value.deviceId, nowMs))
            && (!ok ==> o.reply.location == FailureTarget(v) && o.db == db)
  {
  }

  /** In the current variant the row matches both ids; its user is the claim's `userId` read as a number. */
  lemma CurrentVouchingMatchesClaims(db: Db, token: string, claims: Claims)
    requires Vouching(SessionsCurrent, db, token, claims).Success?
    ensures var row := Vouching(SessionsCurrent, db, token, claims).value;
            row.token == token && row in db.tokens
            && ValueToNumber(Claim(claims, "userId")) == Finite(row.userId as real)
            && ValueToNumber(Claim(claims, "deviceId")) == Finite(row.deviceId as real)
  {
  }

  /** In the legacy variant the owner's `isEmailVerified` only has to be non-null: `false` passes. */
  lemma LegacyAcceptsUnverifiedOwner(u: User, row: TokenRow)
    requires u.id == row.userId && u.isEmailVerified == Some(false)
    ensures OwnerVerificationSet([u], row)
  {
    assert u in [u];
  }

  // ---------------------------------------------------------------------
  // POST .../refresh
  // ---------------------------------------------------------------------

  const MissingRefreshToken := "missing_refresh_token"
  const InvalidRefreshToken := "invalid_refresh_token"
  const MissingDeviceId := "missing_device_id"
  const InvalidRefreshTokenDevice := "invalid_refresh_token_device"

  /** The row a POST refresh accepts: found by token, unexpired, bound to the claimed device. */
  predicate AcceptableRow(row: Option<TokenRow>, deviceId: int, nowMs: int) {
    row.Some? && row.value.expiresAt >= nowMs && row.value.deviceId == deviceId
  }

  /** `POST /api/sessions/current/refresh` (and, to the letter, `POST /api/auth/refresh`). */
  function RefreshPost(refreshCookie: Option<string>, db: Db, cfg: Config, verify: Verifier, sign: Signer, nowMs: int): (r: Reply)
    ensures r.status == 200 || r.status == 400 || r.status == 401
    ensures r.status == 200 <==>
              refreshCookie.Some? && refreshCookie.value != ""
              && verify(RefreshToken, refreshCookie.value, nowMs).Some?
              && NonZeroInteger(Claim(verify(RefreshToken, refreshCookie.value, nowMs).value, "deviceId")).Some?
              && AcceptableRow(FindFirst(db.tokens, WhereToken(refreshCookie.value)),
                               NonZeroInteger(Claim(verify(RefreshToken, refreshCookie.value, nowMs).value, "deviceId")).value,
                               nowMs)
    ensures r.status == 200 ==>
              var row := FindFirst(db.tokens, WhereToken(refreshCookie.value)).value;
              r.cookies == [SetAccessTokenCookie(cfg, sign, nowMs, row.userId)]
              && r.body == map["ok" := Bool(true), "deviceId" := Num(Finite(row.deviceId as real))]
    ensures r.status != 200 ==> r.cookies == [] && r.body.Keys == {"error"}
  {
    if refreshCookie.None? || refreshCookie.value == "" then Error(401, MissingRefreshToken)
    else
      var token := refreshCookie.value;
      match verify(RefreshToken, token, nowMs)
      case None => Error(401, InvalidRefreshToken)
      case Some(payload) =>
        match NonZeroInteger(Claim(payload, "deviceId"))
        case None => Error(400, MissingDeviceId)
        case Some(deviceId) =>
          var stored := FindFirst(db.tokens, WhereToken(token));
          if !AcceptableRow(stored, deviceId, nowMs) then Error(401, InvalidRefreshTokenDevice)
          else
            Reply(200, map["ok" := Bool(true), "deviceId" := Num(Finite(deviceId as real))],
                  [SetAccessTokenCookie(cfg, sign, nowMs, stored.value.userId)])
  }

  /**
   * The checks run in a fixed order, and the first failing one names the
   * error: a missing cookie, then a bad token, then a device claim that is
   * not a non-zero integer, then the stored row.
   */
  lemma RefreshPostErrorOrder(refreshCookie: Option<string>, db: Db, cfg: Config, verify: Verifier, sign: Signer, nowMs: int)
    ensures var r := RefreshPost(refreshCookie, db, cfg, verify, sign, nowMs);
            var claims := if refreshCookie.Some? && refreshCookie.value != ""
                          then verify(RefreshToken, refreshCookie.value, nowMs) else None;
            && (refreshCookie.None? || refreshCookie == Some("") <==> r == Error(401, MissingRefreshToken))
            && (refreshCookie.Some? && refreshCookie.value != "" && claims.None? <==> r == Error(401, InvalidRefreshToken))
            && (claims.Some? && NonZeroInteger(Claim(claims.value, "deviceId")).None? <==> r == Error(400, MissingDeviceId))
  {
  }

  /** The user of the stored row, not any claim, receives the access token: the claim's `userId` is never read. */
  lemma RefreshPostIgnoresUserClaim(refreshCookie: Option<string>, db: Db, cfg: Config, verify: Verifier, verify2: Verifier,
                                    sign: Signer, nowMs: int, claims: Claims, uid: JsValue)
    requires refreshCookie.Some? && refreshCookie.value != ""
    requires verify(RefreshToken, refreshCookie.value, nowMs) == Some(claims)
    requires verify2(RefreshToken, refreshCookie.value, nowMs) == Some(claims["userId" := uid])
    ensures RefreshPost(refreshCookie, db, cfg, verify, sign, nowMs) == RefreshPost(refreshCookie, db, cfg, verify2, sign, nowMs)
  {
    assert Claim(claims["userId" := uid], "deviceId") == Claim(claims, "deviceId");
  }
}
