/**
 * The request gateway of `src/middleware.ts`: which requests pass, which are
 * bounced home or to the landing page, which are sent through the
 * refresh-then-redirect endpoint, and when a passing response carries the
 * `x-token-status: stale` header.
 */
module Gateway {
  import opened Wrappers
  import opened Text
  import opened Js
  import opened Cookies
  import opened Jwt
  import opened Uri

  /** Pages and endpoints only a signed-out visitor may use (matched exactly). */
  const PublicOnlyPaths: seq<string> :=
    ["/login", "/register", "/register/confirm", "/api/sessions", "/api/users", "/api/email-verifications"]

  /** Paths anyone may use (matched with their sub-paths). */
  const OpenPaths: seq<string> :=
    ["/favicon.ico", "/robots.txt", "/landing", "/pieces", "/api/health", "/api/sessions/current"]

  const RefreshRedirectPath := "/api/sessions/current/refresh/redirect"

  /** A token counts as stale this many seconds before it expires. */
  const StaleWindow := 30

  /** `matchesPath(base)`: the path is `base` or lies below it. */
  predicate MatchesPath(pathname: string, base: string)
    ensures MatchesPath(pathname, base) <==>
              StartsWith(pathname, base) && (|pathname| == |base| || pathname[|base|] == '/')
  {
    if pathname == base then true
    else
      assert StartsWith(pathname, base + "/") ==> pathname[..|base|] == (base + "/")[..|base|];
      assert StartsWith(pathname, base) && |pathname| > |base| && pathname[|base|] == '/'
             ==> pathname[..|base| + 1] == base + "/";
      StartsWith(pathname, base + "/")
  }

  /** The path is one of the open paths or lies below one. */
  predicate IsOpen(pathname: string)
    ensures IsOpen(pathname) ==> |pathname| > 1 && pathname[0] == '/'
  {
    exists i :: 0 <= i < |OpenPaths| && MatchesPath(pathname, OpenPaths[i])
  }

  /** The path is exactly one of the public-only paths. */
  predicate IsPublicOnly(pathname: string)
    ensures IsPublicOnly(pathname) ==> !IsOpen(pathname)
  {
    OpenAndPublicOnlyAreDisjoint(pathname);
    pathname in PublicOnlyPaths
  }

  /** No public-only page is open. */
  lemma OpenAndPublicOnlyAreDisjoint(pathname: string)
    ensures pathname in PublicOnlyPaths ==> !IsOpen(pathname)
  {
    if pathname == PublicOnlyPaths[0] { PublicOnlyNotOpen0(pathname); }
    else if pathname == PublicOnlyPaths[1] { PublicOnlyNotOpen1(pathname); }
    else if pathname == PublicOnlyPaths[2] { PublicOnlyNotOpen2(pathname); }
    else if pathname == PublicOnlyPaths[3] { PublicOnlyNotOpen3(pathname); }
    else if pathname == PublicOnlyPaths[4] { PublicOnlyNotOpen4(pathname); }
    else if pathname == PublicOnlyPaths[5] { PublicOnlyNotOpen5(pathname); }
  }

  /** A path that differs from `base` at position `k` of `base` does not lie under it. */
  lemma NotUnder(p: string, base: string, k: nat)
    requires k < |base| && (k >= |p| || p[k] != base[k])
    ensures !MatchesPath(p, base)
  {
  }

  lemma PublicOnlyNotOpen0(p: string)
    requires p == PublicOnlyPaths[0]
    ensures !IsOpen(p)
  {
    NotUnder(p, OpenPaths[0], 1);
    NotUnder(p, OpenPaths[1], 1);
    NotUnder(p, OpenPaths[2], 2);
    NotUnder(p, OpenPaths[3], 1);
    NotUnder(p, OpenPaths[4], 1);
    NotUnder(p, OpenPaths[5], 1);
  }

  lemma PublicOnlyNotOpen1(p: string)
    requires p == PublicOnlyPaths[1]
    ensures !IsOpen(p)
  {
    NotUnder(p, OpenPaths[0], 1);
    NotUnder(p, OpenPaths[1], 2);
    NotUnder(p, OpenPaths[2], 1);
    NotUnder(p, OpenPaths[3], 1);
    NotUnder(p, OpenPaths[4], 1);
    NotUnder(p, OpenPaths[5], 1);
  }

  lemma PublicOnlyNotOpen2(p: string)
    requires p == PublicOnlyPaths[2]
    ensures !IsOpen(p)
  {
    NotUnder(p, OpenPaths[0], 1);
    NotUnder(p, OpenPaths[1], 2);
    NotUnder(p, OpenPaths[2], 1);
    NotUnder(p, OpenPaths[3], 1);
    NotUnder(p, OpenPaths[4], 1);
    NotUnder(p, OpenPaths[5], 1);
  }

  lemma PublicOnlyNotOpen3(p: string)
    requires p == PublicOnlyPaths[3]
    ensures !IsOpen(p)
  {
    NotUnder(p, OpenPaths[0], 1);
    NotUnder(p, OpenPaths[1], 1);
    NotUnder(p, OpenPaths[2], 1);
    NotUnder(p, OpenPaths[3], 1);
    NotUnder(p, OpenPaths[4], 5);
    NotUnder(p, OpenPaths[5], 13);
  }

  lemma PublicOnlyNotOpen4(p: string)
    requires p == PublicOnlyPaths[4]
    ensures !IsOpen(p)
  {
    NotUnder(p, OpenPaths[0], 1);
    NotUnder(p, OpenPaths[1], 1);
    NotUnder(p, OpenPaths[2], 1);
    NotUnder(p, OpenPaths[3], 1);
    NotUnder(p, OpenPaths[4], 5);
    NotUnder(p, OpenPaths[5], 5);
  }

  lemma PublicOnlyNotOpen5(p: string)
    requires p == PublicOnlyPaths[5]
    ensures !IsOpen(p)
  {
    NotUnder(p, OpenPaths[0], 1);
    NotUnder(p, OpenPaths[1], 1);
    NotUnder(p, OpenPaths[2], 1);
    NotUnder(p, OpenPaths[3], 1);
    NotUnder(p, OpenPaths[4], 5);
    NotUnder(p, OpenPaths[5], 5);
  }

  datatype Request = Request(
    pathname: string,
    search: string,
    verb: Option<string>,       // `req.method`
    accessCookie: Option<string>)

  datatype Decision =
    | Next(stale: bool)          // pass on, with the stale header when `stale`
    | Redirect(location: string)

  /** The claims of the access cookie, when it is set, non-empty and verifies. */
  function AccessClaims(req: Request, verify: Verifier, nowMs: int): Option<Claims> {
    if req.accessCookie.Some? && req.accessCookie.value != "" then verify(AccessToken, req.accessCookie.value, nowMs)
    else None
  }

  /** `exp - now <= 30` on a numeric `exp` claim, in whole seconds. */
  predicate ExpiringSoon(exp: JsNumber, nowSec: int)
    ensures exp.Finite? ==> (ExpiringSoon(exp, nowSec) <==> exp.x <= (nowSec + StaleWindow) as real)
    ensures exp.NaN? || exp == Infinity(false) ==> !ExpiringSoon(exp, nowSec)
  {
    match exp
    case Finite(x) => x - nowSec as real <= StaleWindow as real
    case NaN => false
    case Infinity(negative) => negative
  }

  /** `x-token-status: stale` is due: claims exist and hold a numeric `exp` close to now. */
  predicate Stale(claims: Option<Claims>, nowMs: int)
    ensures Stale(claims, nowMs) ==> claims.Some? && Claim(claims.value, "exp").Num?
    ensures claims.Some? && Claim(claims.value, "exp").Num? && Claim(claims.value, "exp").n.Finite? ==>
              (Stale(claims, nowMs) <==> Claim(claims.value, "exp").n.x <= (nowMs / 1000 + StaleWindow) as real)
  {
    claims.Some? && Claim(claims.value, "exp").Num? && ExpiringSoon(Claim(claims.value, "exp").n, nowMs / 1000)
  }

  /** Where a signed-out GET is sent: the refresh endpoint, told where to come back to. */
  function RefreshRedirectLocation(pathname: string, search: string): (loc: string)
    ensures StartsWith(loc, RefreshRedirectPath + "?next=")
    ensures StartsWith(loc, "/")
  {
    var prefix := RefreshRedirectPath + "?next=";
    var loc := prefix + EncodeUriComponent(pathname + search);
    assert loc[..|prefix|] == prefix;
    assert loc[0] == RefreshRedirectPath[0] == '/';
    assert loc[..1] == [loc[0]];
    loc
  }

  /** `req.method || "GET"`: a missing or empty method reads as GET. */
  function Method(req: Request): (m: string)
    ensures m != ""
    ensures req.verb.Some? && req.verb.value != "" ==> m == req.verb.value
  {
    if req.verb.Some? && req.verb.value != "" then req.verb.value else "GET"
  }

  /** `middleware(req)` */
  function Middleware(req: Request, verify: Verifier, nowMs: int): (d: Decision)
    ensures IsOpen(req.pathname) ==> d == Next(false)
    ensures !IsOpen(req.pathname) && AccessClaims(req, verify, nowMs).Some? && IsPublicOnly(req.pathname)
            ==> d == Redirect("/")
    ensures !IsOpen(req.pathname) && AccessClaims(req, verify, nowMs).None? && !IsPublicOnly(req.pathname)
            ==> d == (if req.verb.None? || req.verb == Some("") || req.verb == Some("GET")
                      then Redirect(RefreshRedirectLocation(req.pathname, req.search))
                      else Redirect("/landing"))
    ensures !IsOpen(req.pathname) && AccessClaims(req, verify, nowMs).Some? && !IsPublicOnly(req.pathname)
            ==> d == Next(Stale(AccessClaims(req, verify, nowMs), nowMs))
    ensures !IsOpen(req.pathname) && AccessClaims(req, verify, nowMs).None? && IsPublicOnly(req.pathname)
            ==> d == Next(false)
    ensures d.Next? && !IsOpen(req.pathname) ==> (d.stale <==> Stale(AccessClaims(req, verify, nowMs), nowMs))
    ensures d.Redirect? ==> StartsWith(d.location, "/")
  {
    if IsOpen(req.pathname) then Next(false)
    else
      var claims := AccessClaims(req, verify, nowMs);
      var verb := Method(req);
      if claims.Some? && IsPublicOnly(req.pathname) then Redirect("/")
      else if claims.None? && !IsPublicOnly(req.pathname) then
        if MatchesPath(req.pathname, RefreshPath) then
          RefreshExemptionNeverDecides(req.pathname);
          assert false;
          Next(false)
        else if verb == "GET" then Redirect(RefreshRedirectLocation(req.pathname, req.search))
        else Redirect("/landing")
      else Next(Stale(claims, nowMs))
  }

  /**
   * `config.matcher`, `/((?!_next/static|_next/image|favicon.ico).*)`: the
   * middleware runs on every path except those whose text after the first
   * "/" begins with `_next/static`, `_next/image`, or `favicon`, any one
   * character (the pattern's `.` is not escaped) and `ico`.
   */
  predicate Matched(pathname: string) {
    |pathname| >= 1 && pathname[0] == '/'
    && !StartsWith(pathname, "/_next/static") && !StartsWith(pathname, "/_next/image") && !FaviconLike(pathname)
  }

  predicate FaviconLike(pathname: string) {
    |pathname| >= 12 && pathname[..8] == "/favicon" && pathname[9..12] == "ico"
  }

  /** What a request meets: the middleware when the matcher selects its path, and nothing otherwise. */
  function Gate(req: Request, verify: Verifier, nowMs: int): (d: Decision)
    ensures !Matched(req.pathname) ==> d == Next(false)
    ensures Matched(req.pathname) ==> d == Middleware(req, verify, nowMs)
  {
    if Matched(req.pathname) then Middleware(req, verify, nowMs) else Next(false)
  }

  /**
   * Build assets pass untouched although the middleware itself would bounce
   * a signed-out GET for them: the matcher, not the middleware, lets them through.
   */
  lemma StaticAssetsSkipMiddleware(req: Request, verify: Verifier, nowMs: int)
    requires StartsWith(req.pathname, "/_next/static")
    ensures Gate(req, verify, nowMs) == Next(false)
    ensures AccessClaims(req, verify, nowMs).None? && Method(req) == "GET" ==>
              Middleware(req, verify, nowMs) == Redirect(RefreshRedirectLocation(req.pathname, req.search))
  {
    var p := req.pathname;
    assert p[..|"/_next/static"|] == "/_next/static";
    assert p[1] == '_';
    UnderscoreIsProtected(p);
  }

  /** A path whose second character is `_` is neither open nor public-only. */
  lemma UnderscoreIsProtected(p: string)
    requires |p| > 1 && p[1] == '_'
    ensures !IsOpen(p) && !IsPublicOnly(p)
  {
    NotUnder(p, OpenPaths[0], 1);
    NotUnder(p, OpenPaths[1], 1);
    NotUnder(p, OpenPaths[2], 1);
    NotUnder(p, OpenPaths[3], 1);
    NotUnder(p, OpenPaths[4], 1);
    NotUnder(p, OpenPaths[5], 1);
    assert forall i :: 0 <= i < |PublicOnlyPaths| ==> PublicOnlyPaths[i][1] != '_';
  }

  // ---------------------------------------------------------------------
  // Properties
  // ---------------------------------------------------------------------

  /** Boundary-aware matching is the cookie path-match of section 5.1.4 of RFC 6265 for bases without a trailing "/". */
  lemma MatchesPathIsCookiePathMatch(pathname: string, base: string)
    requires base == [] || base[|base| - 1] != '/'
    ensures MatchesPath(pathname, base) <==> PathMatch(pathname, base)
  {
    PathMatchBoundary(pathname, base);
  }

  /** "/a" covers "/a" and "/a/x" but not "/ab". */
  lemma MatchingIsBoundaryAware()
    ensures MatchesPath("/landing", "/landing") && MatchesPath("/landing/x", "/landing")
    ensures !MatchesPath("/landingx", "/landing")
  {
    assert "/landing/x"[..|"/landing/"|] == "/landing/";
    assert "/landingx"[8] != "/landing/"[8];
  }

  lemma UnderSessionsCurrentIsOpen(p: string)
    requires StartsWith(p, "/api/sessions/current/")
    ensures IsOpen(p)
  {
    assert MatchesPath(p, OpenPaths[5]);
  }

  /**
   * Every path of the refresh family already is an open path, so the
   * refresh-family exemption for signed-out visitors never decides.
   */
  lemma RefreshExemptionNeverDecides(p: string)
    requires MatchesPath(p, RefreshPath)
    ensures IsOpen(p)
  {
    var prefix := "/api/sessions/current/";
    if p == RefreshPath {
      assert p[..|prefix|] == prefix;
    } else {
      assert p[..|prefix|] == (RefreshPath + "/")[..|prefix|];
    }
    UnderSessionsCurrentIsOpen(p);
  }

  /** Any path spelled with the refresh prefix, even without a boundary, is open. */
  lemma RefreshPrefixIsOpen(p: string)
    requires StartsWith(p, RefreshPath)
    ensures IsOpen(p)
  {
    var prefix := "/api/sessions/current/";
    assert p[..|prefix|] == RefreshPath[..|prefix|];
    UnderSessionsCurrentIsOpen(p);
  }

  /** Sub-paths of public-only pages are not public-only: "/login/x" is protected. */
  lemma PublicOnlyIsExact()
    ensures IsPublicOnly("/login") && !IsPublicOnly("/login/x")
  {
  }

  /** A signed-out visitor reaches the exact public-only pages, without a stale header. */
  lemma SignedOutPublicOnlyPasses(req: Request, verify: Verifier, nowMs: int)
    requires IsPublicOnly(req.pathname)
    requires AccessClaims(req, verify, nowMs).None?
    ensures Middleware(req, verify, nowMs) == Next(false)
  {
  }

  /** An empty method reads as GET, so a signed-out visitor sending one is sent through the refresh endpoint. */
  lemma EmptyMethodReadsAsGet(req: Request, verify: Verifier, nowMs: int)
    requires req.verb == Some("")
    requires !IsOpen(req.pathname) && !IsPublicOnly(req.pathname)
    requires AccessClaims(req, verify, nowMs).None?
    ensures Method(req) == "GET"
    ensures Middleware(req, verify, nowMs) == Redirect(RefreshRedirectLocation(req.pathname, req.search))
  {
  }

  /** A verified visitor on a protected page passes, with the stale header exactly when the token is about to expire. */
  lemma SignedInProtectedPasses(req: Request, verify: Verifier, nowMs: int)
    requires !IsOpen(req.pathname) && !IsPublicOnly(req.pathname)
    requires AccessClaims(req, verify, nowMs).Some?
    ensures Middleware(req, verify, nowMs).Next?
    ensures Middleware(req, verify, nowMs).stale <==> Stale(AccessClaims(req, verify, nowMs), nowMs)
  {
  }

  /** The stale threshold is inclusive: an `exp` exactly 30 s ahead is stale, 31 s is not. */
  lemma StaleBoundary(claims: Claims, nowMs: int)
    requires nowMs >= 0
    ensures var nowSec := nowMs / 1000;
            Stale(Some(claims["exp" := Num(Finite((nowSec + 30) as real))]), nowMs)
            && !Stale(Some(claims["exp" := Num(Finite((nowSec + 31) as real))]), nowMs)
  {
  }

  /** Without a numeric `exp` claim there is never a stale header. */
  lemma NoExpNeverStale(claims: Claims, nowMs: int)
    requires !Claim(claims, "exp").Num?
    ensures !Stale(Some(claims), nowMs)
  {
  }
}
