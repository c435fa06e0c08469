# Living Nightmare Chess: sessions, friends and client helpers in Dafny

This project models the server and client core of Living Nightmare Chess, a
web chess variant, as pure Dafny functions over immutable tables. Three areas
are covered.

- **Device-bound sessions.** The request gateway (`src/middleware.ts`) decides
  whether a request passes. A signed-out visitor may be bounced through the
  refresh-then-redirect endpoint. A passing response may carry
  `x-token-status: stale`. Signing in (`POST /api/sessions`) resolves or
  creates a device and reuses or issues one refresh row per (user, device).
  The refresh endpoints mint a new access token from the path-scoped refresh
  cookie. Signing out (`DELETE /api/sessions/current`) revokes rows by token,
  by (user, device), by user or by device. Registration mails a
  confirmation token, and confirming it signs the user in.
- **Friends.** Friend requests can be sent, cancelled, accepted and declined.
  A pending reverse request is accepted automatically. Friendships are stored
  once per pair as (smaller id, larger id). The module also covers the
  friends and request listings, and ending a friendship.
- **Pure client helpers.** These cover:
  - the friendly messages for match errors;
  - the initial board of a match;
  - the masked e-mail address of the user menu;
  - the two clocks;
  - the promotion dialog;
  - the client's challenge maps;
  - the toast queue;
  - the piece-abilities catalog lookup;
  - the pieces gallery;
  - the cleaning of the database URL setting.

Some things are parameters rather than modelled behaviour:

- JWT signing and verification (`Signer`, `Verifier`);
- `bcrypt.compare` (`PasswordCheck`);
- the bcrypt hash, the mail outcome and the Vercel geolocation headers;
- the random toast id;
- the current time.

The store is a set of sequences of rows, as follows.

- `findFirst` returns the first match.
- `deleteMany` keeps the rows the filter does not select.
- `create` appends a row with the next identifier.
- A value that must be an `Int` column but is a fractional JavaScript number
  makes the store throw, which the handler turns into a 500.

JavaScript values are modelled as follows.

- Numbers are `JsNumber` (`Finite(real)`, `NaN` or an infinity).
- `Number(string)` follows the StringNumericLiteral grammar of ECMA-262: decimal
  spellings with an optional exponent, hexadecimal, octal and binary integers,
  and "Infinity" with an optional sign.
- Truthiness, `typeof` and `Number.isInteger` are written out.

The browser's cookie jar follows the path-match rule of section 5.1.4 of
RFC 6265. This makes it possible to state which endpoints the path-scoped
refresh cookie reaches.

The modules follow the program's files:

| module | models |
|---|---|
| `Gateway` | the middleware |
| `Jwt` | the token and cookie helpers |
| `Accounts` | sign-in, registration and confirmation |
| `Refresh` | the four refresh endpoints |
| `Sessions` | `/api/sessions/current` |
| `Friends` | the friends routes |
| `Profile` | the two "me" routes |
| `ClientInfo` | the user-agent and IP helpers |
| `DeviceStorage` | the device id in `localStorage` |
| `EnvString` | the cleaning of the database URL setting |
| `MatchErrors`, `MatchSetup`, `EmailMask`, `Clocks`, `Promotion`, `Challenges`, `Toasts`, `Catalog`, `Gallery` | the client helpers |

Supporting modules:

- `Wrappers`, `Text`, `Runs`, `Ordering`: generic tools for options, strings, sequences and ordering.
- `Js` and `Decimal`: JavaScript numbers and decimal spellings.
- `Http`, `Cookies`, `Store`: the request and reply shapes, the cookie jar and the tables.

## Where the code decides

In each of these places the code settles a question its comments or its
other routes leave open, and the model follows the code.

- The device header at sign-in names a device whenever `Number` reads it as
  a non-zero integer, negative ones included (`Accounts.HeaderDeviceId`).
  The client's own device storage only ever keeps positive ids
  (`DeviceStorage.ReadAfterWrites`), so a negative id can come only
  from another client.
- The legacy refresh-redirect endpoint's owner filter only asks that
  `isEmailVerified` is not null, while sign-in refuses an unverified
  account. An owner whose address is unverified (`false`) therefore passes
  the legacy endpoint (`Refresh.LegacyAcceptsUnverifiedOwner`).
- The gateway's comment on its refresh-family exemption says signed-out
  visitors may reach those paths. Every path under "/api/sessions/current/"
  is already open, though (`Gateway.UnderSessionsCurrentIsOpen`), so the
  exemption never decides a request.
- Registration sets no cookies. Only confirming the e-mail address signs the
  user in.
- Sign-out and token clearing each ask for the refresh cookie to be
  deleted twice, once at its narrow path and once at "/". The response
  cookie store of Next.js keeps one entry per cookie name, so only the last
  instruction, at "/", reaches the browser (`Cookies.Delivered`). A refresh
  cookie at the narrow path therefore stays in the browser after sign-out,
  although the sign-out revokes its row (`Sessions.SignOutJar`).

## Model

| member | source | states |
|---|---|---|
| Gateway.Middleware | src/middleware.ts:27-76 | For a path the matcher selects (`Gateway.Gate`): open paths (a base or a path below it) always pass with no header. A verified visitor on an exact public-only path is redirected to "/". A signed-out visitor elsewhere is redirected. A GET, or a request whose method is missing or empty, goes to the refresh-then-redirect endpoint, and any other method goes to "/landing". A verified visitor on a protected path passes, and so does a signed-out visitor on a public-only path. A request that passes carries the stale header exactly when its claims hold a numeric `exp` at most 30 s ahead. Every redirect target is a site path. |
| Gateway.Gate | src/middleware.ts:86-95 | A path the matcher leaves out passes untouched, with no header. These are the paths under "/_next/static" or "/_next/image", and "/favicon" followed by any one character and "ico". Every other path gets the middleware's decision. |
| Gateway.StaticAssetsSkipMiddleware | src/middleware.ts:86-95 | A path under "/_next/static" passes untouched, although the middleware alone would send a signed-out GET for it through the refresh endpoint. |
| Gateway.MatchesPath | src/middleware.ts:31-32 | A path matches a base exactly when it starts with the base and then either ends or continues with "/". |
| Gateway.IsOpen | src/middleware.ts:34-35 | An open path is a site path: it starts with "/" and has more than one character. |
| Gateway.IsPublicOnly | src/middleware.ts:44-48 | A public-only path is never open, so the open-path rule never pre-empts the bounce of a signed-in visitor from "/login" and the other public-only pages. |
| Gateway.OpenAndPublicOnlyAreDisjoint | src/middleware.ts:7-24 | No path is both in the public-only list and open. |
| Gateway.ExpiringSoon | src/middleware.ts:73 | For a finite `exp`, it holds exactly when `exp` is at most 30 s after now. A `NaN` or `+Infinity` `exp` never holds, as JavaScript's `<=` gives for those values. |
| Gateway.Stale | src/middleware.ts:70-74 | A token is stale only with a numeric `exp`. For a finite one it is stale exactly when `exp` is at most 30 s after the current whole second. |
| Gateway.Method | src/middleware.ts:29 | A missing or empty method reads as "GET", and any other method is kept as given. |
| Gateway.EmptyMethodReadsAsGet | src/middleware.ts:29-62 | A signed-out request with an empty method on a protected path is sent through the refresh endpoint, as a GET would be. |
| Gateway.SignedInProtectedPasses | src/middleware.ts:68-76 | A verified visitor on a protected path passes. The stale header is set exactly when the token is about to expire. |
| Gateway.RefreshRedirectLocation | src/middleware.ts:60-62 | The bounce target of a signed-out GET is a site path under the refresh-redirect endpoint with a `next=` parameter. |
| Gateway.MatchesPathIsCookiePathMatch | src/middleware.ts:31-32 | For a base with no trailing slash, boundary-aware matching is exactly the cookie path-match of RFC 6265, in both directions. |
| Gateway.MatchingIsBoundaryAware | src/middleware.ts:31-32 | "/landing" covers itself and "/landing/x" but not "/landingx". |
| Gateway.UnderSessionsCurrentIsOpen | src/middleware.ts:17-24 | Every path below "/api/sessions/current/" is open, so the gateway never guards it. |
| Gateway.RefreshExemptionNeverDecides | src/middleware.ts:56-59 | Every path the refresh-family exemption would let through is already an open path, so that branch never decides a request. |
| Gateway.RefreshPrefixIsOpen | src/middleware.ts:17-24 | Even a path that only starts with the refresh path's spelling, with no boundary, is open. |
| Gateway.PublicOnlyIsExact | src/middleware.ts:44-48 | Public-only paths are matched exactly: "/login" is one, "/login/x" is not. |
| Gateway.SignedOutPublicOnlyPasses | src/middleware.ts:55 | A signed-out visitor on an exact public-only path passes, with no stale header. |
| Gateway.StaleBoundary | src/middleware.ts:70-74 | The stale threshold is inclusive, in whole seconds: an `exp` 30 s ahead is stale and one 31 s ahead is not. |
| Gateway.NoExpNeverStale | src/middleware.ts:71 | Without a numeric `exp` claim a response never carries the stale header. |
| Jwt.TtlSetting | src/lib/jwt.ts:9-11 | A missing lifetime setting gives the default. A present one gives an integer only when `Number` of its text is that integer. |
| Jwt.LoadConfig | src/lib/jwt.ts:6-15 | Loading fails unless all three secrets are set and non-empty. On success, `production` holds exactly when `NODE_ENV` is "production", and each lifetime left unset takes its default. |
| Jwt.DefaultLifetimes | src/lib/jwt.ts:9-11 | With the secrets set and nothing overridden, the lifetimes are 15 minutes (access), 30 days (refresh) and 30 minutes (e-mail). |
| Jwt.RefreshCookie | src/lib/jwt.ts:64-70 | The refresh cookie holds the token. It is scoped to "/api/sessions/current/refresh", expires with its row, is http-only and strict same-site, and is secure exactly in production. |
| Jwt.SetAccessTokenCookie | src/lib/jwt.ts:75-88 | The access cookie holds a token signed over `{ userId }` alone. It covers the whole site, lives `accessExpiresIn` seconds, and has the same flags as the refresh cookie. |
| Jwt.RefreshCookieReach | src/lib/jwt.ts:68 | The narrow cookie path reaches the refresh endpoint and its redirect child. It does not reach "/api/sessions/current", a sibling such as ".../refreshed", either legacy refresh endpoint, or "/". |
| Jwt.OrNull | src/lib/jwt.ts:56-58 | `value \|\| null` for a string: present exactly when the value is given and non-empty. |
| Jwt.IssuedRow | src/lib/jwt.ts:40-60 | The issued row holds a token signed over `{ userId, deviceId }` and both ids. It expires the configured number of days after now. Its IP, country and region are the given values, with empty ones turned into null. |
| Jwt.SetRefreshTokenCookie | src/lib/jwt.ts:29-73 | Issuance first deletes the pair's rows, then creates the new one. It fails with a unique violation exactly when a row of another pair already holds the new token. A failure leaves the pair's rows deleted and adds no row. On success it returns the signed token and its cookie. Rows of other pairs are untouched either way. |
| Jwt.IssueLeavesOneRow | src/lib/jwt.ts:44-60 | After issuance the (user, device) pair has exactly one row, the new one, holding the returned token. |
| Jwt.IssueKeepsInvariants | src/lib/jwt.ts:44-60 | Issuance keeps tokens unique and keeps at most one row per (user, device). |
| Jwt.FindManyAppend | src/lib/jwt.ts:45-60 | Selecting rows works piecewise over a table grown by an append. |
| Jwt.ClearRefreshTokenCookie | src/lib/jwt.ts:90-95 | Clearing deletes exactly the rows holding the token. It then expires the refresh cookie at its narrow path and at "/". |
| Jwt.ExpireRefreshCookies | src/lib/jwt.ts:93-94 | There are two deletion instructions: the narrow path first, then "/". |
| Jwt.ClearingReachesOnlyRootPath | src/lib/jwt.ts:93-94 | Of the two same-name deletions only the one at "/" survives the per-name response store. A browser loses its refresh cookie at "/" and keeps one at the narrow path as it was. |
| Store.IntArg | src/app/api/sessions/current/route.ts:42-45 | A number used as an `Int` filter is accepted exactly when it is an integer, with the same value. Otherwise the store throws an invalid-argument error. |
| Store.FirstWith | src/app/api/sessions/route.ts:18 | `findUnique` or `findFirst` on one column (the e-mail here, the user name at src/app/api/auth/register/route.ts:35, the id at src/app/api/users/me/route.ts:17-19): a hit is a row holding the value, a miss means no row holds it, and the row returned is the first that holds it. |
| Store.MaxId | src/app/api/sessions/route.ts:32-36 | Every id of the table is at most the result, so one more than it is an id no row holds. |
| Store.VerifyUser | src/app/api/email-verifications/route.ts:22 | The update succeeds exactly when a row has the id. Such rows become verified and every other row stays the same. |
| Store.CreateDevice | src/app/api/sessions/route.ts:32-36 | A new device row is appended under a fresh positive id that no existing device holds. |
| Store.TouchDevice | src/app/api/sessions/route.ts:38 | Only the `lastSeenAt` of devices with the id changes. A missing id changes nothing, because the failure is swallowed. |
| Store.FindFirst | src/app/api/sessions/route.ts:41-43 | Returns the earliest selected row, or none exactly when no row is selected. |
| Store.FindMany | src/lib/jwt.ts:44-46 | The rows a filter selects, each as often as the table holds it, and no others. |
| Store.DeleteMany | src/lib/jwt.ts:45-47 | Keeps exactly the rows the filter does not select. |
| Store.DeleteManyCount | src/lib/jwt.ts:45-47 | Deleting splits the table: the kept rows plus the selected rows make up its length. |
| Store.DeleteManyKeepsInvariants | src/lib/jwt.ts:45-47 | Deleting keeps tokens unique and keeps at most one row per (user, device). |
| Accounts.HeaderDeviceId | src/app/api/sessions/route.ts:26-27 | The device header names a device exactly when it is present, non-empty and `Number` reads it as a non-zero integer. The id is that number. |
| Accounts.DigitHeaderNamesDevice | src/app/api/sessions/route.ts:26-27 | The decimal spelling of any non-zero integer names that device. |
| Accounts.ResolveDevice | src/app/api/sessions/route.ts:26-39 | A named device is used as it is, and at sign-in it is touched. Otherwise a new device is created for the user, typed from the user agent. The resolved id is never 0. |
| Accounts.Authenticate | src/app/api/sessions/route.ts:18-24 | The credentials open the account stored under that e-mail exactly when it is verified and the password check passes against its hash. They open nothing when the address is unknown, the account is unverified or the password is wrong. |
| Accounts.StartSession | src/app/api/sessions/route.ts:26-65 | Sign-in after authentication does the following. The device is resolved. A live row of the pair is reused: its token and expiry go back in the narrow cookie. Otherwise a new row is issued, and the reply is 200 exactly when issuance succeeds, with the issued cookie first. A failed issuance is a 500 that leaves the pair's rows deleted. A 200 also sets the access cookie for the user and answers with the device id. |
| Accounts.Login | src/app/api/sessions/route.ts:10-66 | A missing e-mail or password is a 400 and nothing changes. Bad credentials are a 401 and nothing changes. Good credentials start a session. |
| Accounts.FailedSignInIsUniform | src/app/api/sessions/route.ts:18-24 | An unknown e-mail address gives the same 401 "Invalid credentials" as an unverified account or a wrong password, with the tables untouched. |
| Accounts.StartSessionKeepsInvariants | src/app/api/sessions/route.ts:41-58 | Sign-in keeps refresh tokens unique and keeps at most one row per (user, device). After a successful sign-in, the pair's only row holds the cookie's token. |
| Accounts.OnlyRowOfPair | src/app/api/sessions/route.ts:41-43 | Under one row per pair, a stored row is the only row its pair selects. |
| Accounts.RegistrationError | src/app/api/auth/register/route.ts:15-36 | Validation failures come in the handler's order, each a 400 or 409 without cookies. The order is: a missing field, an e-mail without "@", a taken e-mail, mismatched passwords, a taken user name. |
| Accounts.Register | src/app/api/auth/register/route.ts:11-83 | A validation failure changes nothing and mails nothing. Otherwise a new user is appended: unverified, with the given address, name and hash, under an id no other user holds. The device is resolved for the new user, so a missing header creates one. Token rows are untouched and a confirmation token is produced. The reply is 200 with body `{ deviceId }` for the resolved device exactly when the mail went out, and otherwise a 500 "email_send_failed". The new user and device stay either way. No cookies are set. |
| Accounts.RegisterWithoutHeaderCreatesDevice | src/app/api/auth/register/route.ts:48-60 | Without a device header, registration appends one device, owned by the new user, and keeps the earlier devices in front of it, even when the mail then fails. |
| Accounts.DuplicateEmailBeforeMismatch | src/app/api/auth/register/route.ts:23-30 | A taken e-mail address is reported (409) even when the passwords also differ. |
| Accounts.RegisterKeepsUsersUnique | src/app/api/auth/register/route.ts:23-46 | Registration keeps e-mail addresses and user names unique across users. |
| Accounts.RegisterEmailTokenPayload | src/app/api/auth/register/route.ts:63 | The mailed token is signed over exactly the new user's id and the resolved device. |
| Accounts.ConfirmEmail | src/app/api/email-verifications/route.ts:16-31 | A missing or empty token is a 400 and changes nothing. So is a token whose claims do not verify with two numeric ids. With such claims, a non-integer or unknown user id is a 500 that changes nothing. Otherwise the user ends verified. A non-integer device id is then a 500 that leaves the token rows alone. With an integer device id the token table becomes the issuance's: on success that is the pair's one new row, and on failure the pair's old rows deleted. The reply is 200 exactly when issuance succeeds, and a 500 otherwise. A 200 answers `{ success: true }` and sets the refresh cookie, then the access cookie. No other reply sets a cookie. Devices never change. |
| Accounts.BodyToken | src/app/api/email-verifications/route.ts:10-11 | A token is read exactly when the body parsed and its `token` is a string, and the token is that string. |
| Accounts.EmailClaims | src/app/api/email-verifications/route.ts:16-19 | Claims are read exactly when the token verifies and both ids are numbers, and they are those two numbers. |
| Accounts.VerifiedAfterUpdate | src/app/api/email-verifications/route.ts:22 | After a successful update the user is found, and found verified. |
| Accounts.ConfirmByBody | src/app/api/email-verifications/route.ts:9-14 | An unreadable body, or one without `token`, is a 400. A string token goes through the shared confirmation. |
| Accounts.ConfirmByQuery | src/app/api/auth/register/confirm/route.ts:8-13 | A missing `token` parameter is a 400. Otherwise the query token goes through the shared confirmation. |
| Accounts.ConfirmTwice | src/app/api/email-verifications/route.ts:21-31 | Suppose a first confirmation answered 200, the token verifies the same way later, and the new signature is held by no row of another pair. Then a second confirmation also answers 200, the user stays verified, and the pair again has exactly one row, holding the new token. |
| Refresh.SanitizeNext | src/app/api/sessions/current/refresh/redirect/route.ts:50-60 | As a string, the result starts with "/" but not "//" and lies outside the variant's refresh area. It is the input exactly when the input already has that shape, and "/" otherwise. This is a check on the string, not on where the browser goes (see Findings). |
| Refresh.NextRaw | src/app/api/sessions/current/refresh/redirect/route.ts:11 | A missing or empty `next` parameter reads as "/", and a non-empty one is kept. |
| Refresh.RedirectClaims | src/app/api/sessions/current/refresh/redirect/route.ts:17-25 | Claims come only from a non-empty cookie that the verifier accepts, they are the verifier's claims for it, and both ids are truthy. |
| Refresh.Vouching | src/app/api/sessions/current/refresh/redirect/route.ts:27-35 | A vouching row is stored, holds the token, and its two ids equal the claims read as numbers. The legacy variant (src/app/api/auth/refresh/redirect/route.ts:28-38) also asks for an owner whose `isEmailVerified` is set, and refuses non-integer claims with an invalid-argument error. Every other failure is not-found. |
| Refresh.SanitizeNextIdempotent | src/app/api/auth/refresh/redirect/route.ts:59-69 | Sanitising a sanitised path changes nothing. |
| Refresh.SanitizersDiffer | src/app/api/auth/refresh/redirect/route.ts:64 | Each sanitiser blocks its own refresh area only: the legacy one lets "/api/sessions/current/refresh" through, and the current one lets "/api/auth/refresh" through. |
| Refresh.FindOwned | src/app/api/auth/refresh/redirect/route.ts:30-38 | The legacy lookup finds a row that matches the token and both ids and whose owner's `isEmailVerified` is set. It finds none exactly when no such row exists. |
| Refresh.RefreshRedirect | src/app/api/sessions/current/refresh/redirect/route.ts:8-48 | The reply redirects either to the variant's failure page or to the sanitised `next`, with "/" when `next` is missing or empty. Without a vouched, unexpired refresh cookie it is the failure page and no cookie. Otherwise the access cookie is set, and the location is the sanitised `next` when the URL parser accepts it; when `new URL` throws, the catch sends the failure page with the cookie still set. Users and tokens never change, and the current variant changes nothing at all. |
| Refresh.NoOpenRedirect | src/app/api/sessions/current/refresh/redirect/route.ts:13-14 | As a string, every redirect location starts with "/" but not "//". It resolves on the site whenever the sanitised `next` does, since the failure pages always do. The string shape alone does not keep the browser on the site (see Findings). |
| Refresh.FailureTargetResolves | src/app/api/sessions/current/refresh/redirect/route.ts:19 | "/landing" and the legacy "/login" are site paths that resolve on the site. |
| Refresh.EscapedBackslashDecodes | src/app/api/sessions/current/refresh/redirect/route.ts:11 | For any host name free of `+`, `%`, tabs and line breaks, the query value `/%5C<host>` reads as "/", a backslash and the host. |
| Refresh.EscapedTabDecodes | src/app/api/sessions/current/refresh/redirect/route.ts:11 | For any host name free of `+`, `%`, tabs and line breaks, the query value `/%09/<host>` reads as "/", a tab, "/" and the host. |
| Refresh.BackslashNextLeavesSite | src/app/api/sessions/current/refresh/redirect/route.ts:53 | For any such host name and both variants, `/\<host>` passes the sanitiser unchanged, yet does not resolve on the site. |
| Refresh.TabNextLeavesSite | src/app/api/auth/refresh/redirect/route.ts:62 | For any such host name and both variants, "/", a tab and "/<host>" pass the sanitiser unchanged. The URL parser drops the tab and reads `//<host>`, so the path does not resolve on the site. |
| Refresh.RedirectLeavesSite | src/app/api/sessions/current/refresh/redirect/route.ts:41-43 | For a plain domain such as `evil.com` and a parser that follows the URL Standard, a successful redirect whose `next` is `/%5C<host>` sends the browser to `/\<host>`, which does not resolve on the site. |
| Refresh.EmptyHostFallsBack | src/app/api/sessions/current/refresh/redirect/route.ts:41-46 | For a parser that follows the URL Standard, a successful redirect whose `next` is `/%5C` alone lands on the failure page, because `new URL` rejects the empty host, yet it still sets the access cookie. |
| Refresh.LoneBackslashHasNoHost | src/app/api/sessions/current/refresh/redirect/route.ts:11-14 | The query value `/%5C` reads as "/" and a backslash, passes both sanitisers unchanged, and leaves the URL it resolves to with an empty host. |
| Refresh.SomeParserFollowsWhatwg | src/app/api/sessions/current/refresh/redirect/route.ts:43 | The three facts the model takes from the URL Standard are consistent: the parser that rejects exactly the empty hosts satisfies them. |
| Refresh.SafeNext | src/app/api/sessions/current/refresh/redirect/route.ts:50-60 | The corrected sanitiser. Its result always resolves on the site, lies outside the refresh area, and is the input or "/". It keeps the input exactly when the as-written sanitiser does and the input resolves on the site. It agrees with the as-written one wherever that one's answer resolves on the site. |
| Refresh.RefreshRedirectSucceeds | src/app/api/sessions/current/refresh/redirect/route.ts:11-43 | The redirect succeeds exactly when a non-empty cookie verifies with truthy ids, a row vouches for it, and the row has not expired. A row expiring exactly now still counts. Success sets the access cookie, and only it, for the vouching row's user. It redirects to the sanitised `next` when the parser accepts it and to the failure page otherwise. In the legacy variant (src/app/api/auth/refresh/redirect/route.ts:44-51) success touches the row's device whether or not the parser accepts. Failure changes nothing. |
| Refresh.CurrentVouchingMatchesClaims | src/app/api/sessions/current/refresh/redirect/route.ts:28-35 | In the current variant, the vouching row holds the token and both its ids equal the claims read as numbers. |
| Refresh.LegacyAcceptsUnverifiedOwner | src/app/api/auth/refresh/redirect/route.ts:35 | The legacy filter only asks that `isEmailVerified` is not null, so an owner with `false` passes. |
| Refresh.RefreshPost | src/app/api/sessions/current/refresh/route.ts:8-38 | The status is 200, 400 or 401. It is 200 exactly when a non-empty cookie verifies, the device claim is a non-zero integer, and the stored row for the token is unexpired and on that device. Success sets the access cookie for the row's user and answers `{ ok, deviceId }`. Failures carry only an error code and set no cookies. |
| Refresh.RefreshPostErrorOrder | src/app/api/auth/refresh/route.ts:9-37 | The failures come in a fixed order: a missing cookie (401), then an invalid token (401), then a bad device claim (400), then the row check (401). |
| Refresh.RefreshPostIgnoresUserClaim | src/app/api/sessions/current/refresh/route.ts:35 | Changing the token's `userId` claim changes nothing: the stored row's user gets the new token. |
| Cookies.Expire | src/app/api/sessions/current/route.ts:50-51 | The deletion idiom is an empty value that expired at the epoch, at the given name and path. |
| Cookies.PathMatchBoundary | src/app/api/sessions/current/route.ts:50-51 | For a cookie path with no trailing "/", a request path matches exactly when it equals the cookie path or continues it after a "/". |
| Cookies.RootMatchesAll | src/app/api/sessions/current/route.ts:51 | A cookie at "/" reaches every absolute request path. |
| Cookies.Receive | src/lib/jwt.ts:64-70 | After an instruction, the jar holds its (name, path) exactly when the new cookie is live, and then with the new value. Other entries stay the same. |
| Cookies.ReceiveAllLast | src/app/api/sessions/current/route.ts:54-58 | The last instruction for a (name, path) decides that entry. |
| Cookies.ReceiveAllUntouched | src/app/api/sessions/current/route.ts:54-58 | Instructions for other keys leave an entry as it was. |
| Cookies.Delivered | src/app/api/sessions/current/route.ts:54-58 | A response carries, for each cookie name, only the last instruction given for it, and no two carried instructions share a name. |
| Sessions.SessionGet | src/app/api/sessions/current/route.ts:8-18 | A request without the access cookie gets a 404. With the cookie it gets a 200 whose body is exactly `{ token }` with the cookie's value. No cookies are set. |
| Sessions.DigitsDeviceId | src/app/api/sessions/current/route.ts:40 | The device header is used exactly when it is one or more ASCII digits. The id is its decimal value. |
| Sessions.AccessUserId | src/app/api/sessions/current/route.ts:32-38 | A user id is read only from a present, non-empty access cookie whose claims verify and whose `userId` is a number. |
| Sessions.RevocationOf | src/app/api/sessions/current/route.ts:29-48 | Rows are revoked by token exactly when the refresh cookie is non-empty. Otherwise they are revoked by (user, device), by user, or by device, according to which of a truthy user id and a non-zero device id exist, or not at all. |
| Sessions.Revoke | src/app/api/sessions/current/route.ts:42-48 | Revoking only deletes. Revocation by token or by device keeps exactly the other rows. Revocation by user or by pair succeeds exactly when the user id is an integer, and then keeps exactly the other rows. |
| Sessions.SignOutCookies | src/app/api/sessions/current/route.ts:50-58 | Sign-out sends three deletions: the refresh cookie at its narrow path and at "/", then the access cookie. |
| Sessions.Logout | src/app/api/sessions/current/route.ts:21-61 | Every sign-out answers 204 with the three deletions, whatever the store does. Users and devices never change. Token rows change as the revocation says, or not at all when the store fails. |
| Sessions.LogoutWithRefreshCookie | src/app/api/sessions/current/route.ts:29-30 | With a refresh cookie, exactly the rows holding that token are deleted. |
| Sessions.LogoutPrefersPair | src/app/api/sessions/current/route.ts:42-43 | With both a user id and a device id, only that pair's rows go. |
| Sessions.ZeroDeviceHeaderIsAbsent | src/app/api/sessions/current/route.ts:40-45 | A device header of "0" counts as absent, so with a user id all that user's rows go. |
| Sessions.LogoutSurvivesStoreFailure | src/app/api/sessions/current/route.ts:53-56 | A store failure deletes nothing, and the answer and cookies are the same as on success. |
| Sessions.FractionalUserIdDeletesNothing | src/app/api/sessions/current/route.ts:35-45 | A numeric but fractional user claim makes the store throw, so nothing is deleted. |
| Sessions.SignOutJar | src/app/api/sessions/current/route.ts:54-58 | Sign-out delivers two deletions, the refresh cookie at "/" and the access cookie at "/". After them the browser holds neither, and a refresh cookie at the narrow path stays as it was. |
| Sessions.SignOutDelivers | src/app/api/sessions/current/route.ts:54-58 | Of the three sign-out deletions, the narrow-path refresh deletion is replaced by the later "/" one of the same name. |
| Sessions.NarrowCookieNotSentToSignOut | src/app/api/sessions/current/route.ts:24 | A browser whose refresh cookie lives only at the narrow path never sends it to "/api/sessions/current". That is why the handler falls back to the access token and the device header. |
| Friends.CallerId | src/app/api/friends/requests/route.ts:6-14 | There is a caller exactly when the access cookie (verified as "" when absent) yields a numeric, truthy `userId` claim. A claim of 0 or NaN is no caller. |
| Friends.PairKey | src/app/api/friends/requests/route.ts:57-58 | The pair key is the two ids as (smaller, larger). |
| Friends.PairKeySymmetric | src/app/api/friends/requests/route.ts:75-76 | The key does not depend on the order of the ids, and two distinct ids give a strictly ordered key. |
| Friends.UpsertFriendship | src/app/api/friends/requests/route.ts:61-65 | After the upsert the pair is friends. An existing friendship is left as it is, and otherwise one row is added. |
| Friends.UpsertKeepsCanonical | src/app/api/friends/requests/route.ts:61-65 | Upserting a strictly ordered key keeps each pair stored once, as (smaller, larger). |
| Friends.DeleteFriendship | src/app/api/friends/route.ts:43 | Deletes exactly the rows with that key. |
| Friends.FindRequest | src/app/api/friends/requests/route.ts:51 | Returns a matching request, or none exactly when nothing matches. |
| Friends.SetStatus | src/app/api/friends/requests/route.ts:43-46 | Exactly the matching requests get the new status. Everything else, order included, stays. |
| Friends.UpsertRequest | src/app/api/friends/requests/route.ts:89-93 | An existing (from, to) request becomes pending again under its own id. Otherwise a pending request with a fresh id is appended. |
| Friends.SetStatusKeepsWellFormed | src/app/api/friends/requests/route.ts:43-46 | Changing statuses keeps ids unique, keeps one row per (from, to), and never makes a request address its sender. |
| Friends.UpsertRequestKeepsWellFormed | src/app/api/friends/requests/route.ts:89-93 | The upsert keeps the request table well formed when sender and recipient differ. |
| Friends.IdArgs | src/app/api/friends/requests/route.ts:40-44 | The ids reach the store only when the caller's id is an integer and `requestId` is an integer or an object the store reads as an `IntFilter`. An integer stands for that one id, and an object acts as the filter it spells. Anything else makes the store throw. |
| Friends.Cancel | src/app/api/friends/requests/route.ts:42-48 | Exactly the caller's own pending requests that pass the id filter become cancelled, and the answer is `{ ok: true }` even when nothing matched. A `requestId` the store cannot read, or a non-integer caller id, is a 500 that changes nothing. |
| Friends.EmptyFilterCancelsAllSent | src/app/api/friends/requests/route.ts:42-48 | `{"action":"cancel","requestId":{}}` is no error: it cancels every pending request the caller has sent, answers ok, and changes nothing else. |
| Friends.Respond | src/app/api/friends/requests/route.ts:50-67 | The first pending request addressed to the caller that passes the id filter is declined, or accepted together with a friendship upsert. Without one it is a 404 that changes nothing. A `requestId` the store cannot read is a 500. |
| Friends.EmptyFilterAcceptsFirstIncoming | src/app/api/friends/requests/route.ts:50-67 | With `{}` as `requestId`, accepting acts on the first pending request addressed to the caller: it is accepted and its sender becomes a friend. |
| Friends.SendGuard | src/app/api/friends/requests/route.ts:70-78 | The guards come in order: a missing user name (400), an unknown user (404), the caller themself (400), already friends (409). On success they return two distinct ids, the caller's being an integer. |
| Friends.Send | src/app/api/friends/requests/route.ts:80-104 | With a pending reverse request, that request alone is accepted and the pair is befriended under its ordered key. The answer is `{ ok, autoAccepted }`. Users never change. |
| Friends.RequestPost | src/app/api/friends/requests/route.ts:35-105 | No caller is a 401. A literal `null` body is a 500, since destructuring it throws. Otherwise the body's `action` decides: "cancel" cancels, "accept" and "decline" respond, each with a truthy `requestId` (every object is truthy), and anything else sends once the guards pass. The answer is a 200, 400, 401, 404 or 409, or a 500 when the store throws. Any status but 200 leaves the tables alone, and users never change. |
| Friends.NoReverseAfterUpsert | src/app/api/friends/requests/route.ts:94-103 | Run sequentially, the re-check after the upsert never finds a reverse request, so that branch only matters under a race. |
| Friends.SendWithoutReverse | src/app/api/friends/requests/route.ts:89-104 | Without a reverse request, the caller's request to the target is pending afterwards and the friendships are unchanged. |
| Friends.ReverseRequestAutoAccepts | src/app/api/friends/requests/route.ts:80-87 | With a pending reverse request, the pair becomes friends and that request is accepted. |
| Friends.CancelTouchesOnlyOwnPending | src/app/api/friends/requests/route.ts:42-48 | Cancelling changes only requests that have the id, come from the caller and are pending. It always answers ok. |
| Friends.AcceptBefriends | src/app/api/friends/requests/route.ts:57-67 | Accepting befriends the two parties under their ordered key, whichever of them sent the request. |
| Friends.RequestPostKeepsInvariant | src/app/api/friends/requests/route.ts:35-105 | Every outcome of the POST handler keeps the friendship and request tables well formed. |
| Friends.CancelKeepsInvariant | src/app/api/friends/requests/route.ts:42-48 | Cancelling, with any id filter, keeps the tables well formed. |
| Friends.RespondKeepsInvariant | src/app/api/friends/requests/route.ts:50-67 | Accepting or declining, with any id filter, keeps the tables well formed. |
| Friends.SendKeepsInvariant | src/app/api/friends/requests/route.ts:80-104 | Sending between distinct users keeps the tables well formed. |
| Friends.FriendsDelete | src/app/api/friends/route.ts:34-45 | No caller is a 401, and a literal `null` body is a 500. A `userId` that `Number` does not read as an integer is a 400. With an integer `userId`, a non-integer caller id is a 500 that deletes nothing. An integer caller id deletes the friendship of the ordered pair and answers ok. Users and requests never change. |
| Friends.UnfriendIsSymmetric | src/app/api/friends/route.ts:41-43 | Either party ending the friendship deletes the same row. |
| Friends.FriendshipsOf | src/app/api/friends/route.ts:17-24 | The caller's friendships, newest first. They are the same multiset as `Friends.Involving` gives: every row with the caller on either side, as often as stored. |
| Friends.Involving | src/app/api/friends/route.ts:17-18 | Each row with the user on either side appears as many times as the table holds it, and no other row appears. |
| Friends.OtherParties | src/app/api/friends/route.ts:26-29 | Each listed profile is the other side of the corresponding friendship. The list is missing exactly when one of those users no longer exists. |
| Friends.OtherPartiesByMembership | src/app/api/friends/route.ts:26-29 | The profiles are all there exactly when every listed friendship's other user exists, and each carries that user's name. |
| Friends.ProfileOf | src/app/api/friends/route.ts:20-21 | A profile exists exactly when the user does, and it carries that user's id and name. |
| Friends.FriendList | src/app/api/users/me/friends/route.ts:13-32 | No caller is a 401, and a fractional caller id is a 500. Otherwise it answers exactly when every friend still exists. The answer lists, for each of the caller's friendships newest first, the other party's id and user name. |
| Friends.FriendsOf | src/app/api/users/me/friends/route.ts:17-32 | For an integer caller id the listing answers exactly when every friend still exists, and otherwise throws. An answer gives, for each friendship newest first, the other party's id and user name. |
| Friends.ListedAreFriends | src/app/api/friends/route.ts:13-32 | Everyone listed is joined to the caller by a stored friendship, in one of the two orders. |
| Friends.PendingListing | src/app/api/users/me/friends/requests/route.ts:25-29 | Exactly the pending requests matching the filter, newest first, each as often as in the table. |
| Friends.Entries | src/app/api/users/me/friends/requests/route.ts:30 | Each request is shown with its id and the other party's profile, or null where that user is gone. |
| Friends.DirectedRequests | src/app/api/users/me/friends/requests/route.ts:13-42 | No caller is a 401. A direction other than "incoming" or "outgoing" is a 400. With a caller and a valid direction it answers exactly when the caller id is an integer. The answer lists the pending requests to or from the caller, newest first. |
| Friends.Inboxes | src/app/api/friends/requests/route.ts:12-33 | No caller is a 401, and a fractional caller id is a 500. It answers exactly when every sender of an incoming request and every recipient of an outgoing one still exists, with both pending lists. A vanished party makes the handler throw. |
| Friends.InboxMatchesDirected | src/app/api/friends/requests/route.ts:16-27 | Whenever the inbox answers, its two lists agree with the per-direction endpoint. |
| Friends.IncomingAreAddressedToCaller | src/app/api/users/me/friends/requests/route.ts:24-32 | A request is in the incoming listing exactly when it is pending and addressed to the caller. |
| Profile.StripHash | src/app/api/users/me/route.ts:25 | The public user keeps every column but the password hash. |
| Profile.StripHashForgetsOnlyHash | src/app/api/users/me/route.ts:25 | Two users with the same public part differ at most in their hash. |
| Profile.Me | src/app/api/users/me/route.ts:6-28 | A token that does not verify, or has no numeric `userId`, is a 400. A fractional id is a 500. An integer id of no user is a 404, and one of a user answers with that user's stripped row. |
| Profile.BearerToken | src/app/api/me/route.ts:5-10 | The header splits on spaces into exactly "Bearer" and the token. The token contains no space. |
| Profile.BearerHeaderShape | src/app/api/me/route.ts:6-10 | A well-formed header is exactly "Bearer " followed by the token. |
| Profile.LowerCaseSchemeRefused | src/app/api/me/route.ts:7 | The scheme is case-sensitive: "bearer x" is refused. |
| Profile.MeByBearer | src/app/api/me/route.ts:4-19 | A malformed header is a 401 "Missing token" and a token that does not verify is a 401 "Invalid token". `Number(userId)` that is not an integer is a 500. An integer of no user is a 404 "User not found". One of a user answers with the id, name, e-mail and creation time of that user. |
| Ordering.SortDesc | src/app/api/users/me/friends/route.ts:23 | A listing is ordered newest first and holds the same rows the same number of times. |
| Ordering.SortDescSameElements | src/app/api/users/me/friends/requests/route.ts:28 | Ordering a listing neither adds nor loses a row. |
| Uri.DecodeEncode | src/middleware.ts:61-62 | The `next` value the gateway percent-encodes reads back, once form-decoded, as the path and query it encoded. |
| Uri.EncodedHasNoDelimiters | src/middleware.ts:61-62 | An encoded path holds no `&`, `=`, `#` or `+`, so it stays one query parameter. |
| Uri.EncodeUriComponent | src/middleware.ts:61 | The encoding holds only unreserved characters, `%` and hexadecimal digits. |
| Js.IntSpellingRoundTrip | src/lib/device.ts:5-12 | `Number(String(i))` is `i` for every integer, with `String` spelling it in plain decimal. |
| Js.ToNumber | src/lib/device.ts:5 | `Number` of a blank string is 0, and of "Infinity" with an optional sign the infinity of that sign. A string of decimal digits, white space around it aside, reads as its value. |
| Js.ValueToNumber | src/app/api/sessions/current/refresh/redirect/route.ts:33 | `Number` of a claim or body value, per section 7.1.4 of ECMA-262. A number is itself. `null`, `false` and blank text are 0, and `true` is 1. `undefined` and objects are `NaN`. Digit text reads as its decimal value. |
| Js.NonZeroInteger | src/app/api/sessions/current/refresh/route.ts:20 | A value is kept exactly when it is truthy and an integer. The kept value is a non-zero integer equal to the number given. |
| Js.SignedDecimalSpellings | src/lib/device.ts:5 | Among the decimal spellings, "Infinity" with an optional sign is the infinity of that sign, and a string of digits reads as its value. |
| ClientInfo.ExtractClientIp | src/lib/utils.ts:9-17 | A non-empty first `x-forwarded-for` element wins, trimmed. Otherwise a non-empty `x-real-ip` is used, trimmed. The answer is null exactly when neither is available. |
| ClientInfo.ForwardedAddressIsOneHop | src/lib/utils.ts:10-11 | An address taken from the forwarded list holds no comma: only the first hop is reported. |
| ClientInfo.WhitespaceFirstElementWins | src/lib/utils.ts:10-11 | A blank first forwarded element still wins over `x-real-ip` and gives the empty address. |
| ClientInfo.TrimKeepsOut | src/lib/utils.ts:11 | Trimming never introduces a character. |
| ClientInfo.LineHead | src/lib/utils.ts:35 | The part of a user agent a `.*` look-ahead can scan is a prefix of it. |
| ClientInfo.DetectDeviceType | src/lib/utils.ts:30-38 | A missing or empty agent is unknown. The rules fire in order on the lower-cased agent. It is a bot exactly when it names a bot, crawler or spider. Otherwise it is mobile exactly when it says "mobile" but not "tablet". Failing that, it is a tablet exactly when it says "tablet", "ipad" or "android". Failing all three, it is a desktop exactly when it names Windows, Macintosh, Linux or X11. |
| ClientInfo.DetectIgnoresCase | src/lib/utils.ts:32 | Upper- or lower-casing the agent first changes no classification. |
| ClientInfo.TabletRuleSimplifies | src/lib/utils.ts:34-35 | Once the mobile rule has not fired, the agent is a tablet exactly when it says "tablet", "ipad" or "android": the look-ahead is immaterial. |
| ClientInfo.NoMobileInLineHead | src/lib/utils.ts:35 | An agent without "mobile" has none after any position of it either. |
| DeviceStorage.GetDeviceId | src/lib/device.ts:1-7 | There is an id exactly in a browser whose stored value is non-empty and reads as a positive integer, and the id is that integer. |
| DeviceStorage.SetDeviceId | src/lib/device.ts:9-13 | Only a positive integer is stored, as its decimal spelling. Without a window, or for any other number, storage is unchanged. |
| DeviceStorage.SetThenGet | src/lib/device.ts:1-13 | Storing a positive integer and reading it back gives that integer. |
| DeviceStorage.ReadAfterWrites | src/lib/device.ts:1-13 | From any storage, a read after any run of `setDeviceId` calls gives the newest id the run accepted. When the run accepted none, it gives what the first read gave, and without a window it gives nothing. So no read ever yields a non-positive id. |
| DeviceStorage.RejectedIdKeepsRead | src/lib/device.ts:11 | A rejected id leaves the next read as it was. |
| DeviceStorage.SetKeepsOtherKeys | src/lib/device.ts:12 | Other keys of local storage are never touched. |
| EnvString.Inner | src/lib/prisma.ts:7 | Dropping the first and last characters leaves the inside of a value of length two or more, and "" otherwise. |
| EnvString.CleanEnvString | src/lib/prisma.ts:3-10 | A missing value stays missing. Otherwise the value is trimmed, and one layer of matching quotes comes off; a value not wrapped in one kind of quote keeps everything but its white space. |
| EnvString.CleanDatabaseUrl | src/lib/prisma.ts:13-18 | The setting changes exactly when it is non-empty and its cleaned form is non-empty and different, and then it becomes the cleaned form. |
| EnvString.Quote | src/lib/prisma.ts:6 | Wrapping in a quote gives a value that starts and ends with it. |
| EnvString.CleanUnquotesOnce | src/lib/prisma.ts:5-7 | Cleaning undoes one layer of quoting, whatever the inside holds. |
| EnvString.DoubleQuotesLoseOneLayer | src/lib/prisma.ts:6-7 | A doubly quoted value keeps its inner quotes. |
| EnvString.PaddedTrim | src/lib/prisma.ts:5 | One space of padding on each side is trimmed away. |
| EnvString.MismatchedQuotesKept | src/lib/prisma.ts:6-9 | A value not wrapped in one kind of quote loses only its white space. |
| EnvString.LoneQuoteCleansToEmpty | src/lib/prisma.ts:6-7 | A lone quote both starts and ends the value, so it cleans to "". |
| EnvString.CleanQuoted | src/lib/prisma.ts:6-7 | A trimmed value wrapped in one kind of quote cleans to its inside. |
| EnvString.EmptyQuotesKept | src/lib/prisma.ts:13-18 | A setting of two quotes cleans to "", which is falsy, so the setting is left as it was. |
| EnvString.QuotedUrlUnquoted | src/lib/prisma.ts:13-18 | A quoted non-empty URL is replaced by its contents. |
| MatchErrors.KnownCodesEndInLetters | src/lib/match/error-messages.ts:67-127 | Every known code begins and ends with a lower-case letter, so trimming and lower-casing leave it alone. |
| MatchErrors.MoveCodesEndInLetters | src/lib/match/error-messages.ts:67-127 | The move-rule codes begin and end with a lower-case letter. |
| MatchErrors.PromotionCodesEndInLetters | src/lib/match/error-messages.ts:67-127 | The promotion codes begin and end with a lower-case letter. |
| MatchErrors.MatchCodesEndInLetters | src/lib/match/error-messages.ts:67-127 | The match codes begin and end with a lower-case letter. |
| MatchErrors.AbilityCodesEndInLetters | src/lib/match/error-messages.ts:67-127 | The ability codes begin and end with a lower-case letter. |
| MatchErrors.ClientCodesEndInLetters | src/lib/match/error-messages.ts:67-127 | The client-only codes begin and end with a lower-case letter. |
| MatchErrors.Normalize | src/lib/match/error-messages.ts:130 | A missing input is "", and any other input is trimmed and lower-cased. |
| MatchErrors.ScanCodes | src/lib/match/error-messages.ts:134-137 | The scan finds the first code, other than "unknown", that the input contains. When it finds none, no such code is contained. |
| MatchErrors.FirstContainedUnique | src/lib/match/error-messages.ts:134-137 | There is at most one first contained code. |
| MatchErrors.Heuristic | src/lib/match/error-messages.ts:139-148 | The result is "unknown" exactly when no keyword occurs, and it is always one of the codes the heuristics produce. |
| MatchErrors.HeuristicCodesKnown | src/lib/match/error-messages.ts:139-148 | Every code a heuristic produces is a known code. |
| MatchErrors.ParseMatchError | src/lib/match/error-messages.ts:129-149 | The result is always a known code. An exact code is returned as it is. Otherwise the first contained code wins, and only when none is contained do the heuristics decide. |
| MatchErrors.HeuristicCodesLowerCase | src/lib/match/error-messages.ts:139-148 | The heuristic codes have no upper-case letter. |
| MatchErrors.ContainedNoUpper | src/lib/match/error-messages.ts:134-137 | A code found in lower-cased text has no upper-case letter. |
| MatchErrors.NormalWhenLowerWithLetterEnds | src/lib/match/error-messages.ts:130 | A lower-case code with letters at both ends is its own normal form. |
| MatchErrors.NormalizeIdempotent | src/lib/match/error-messages.ts:130 | Normalising twice is normalising once. |
| MatchErrors.ParseIdempotent | src/lib/match/error-messages.ts:129-149 | Parsing a parsed code gives it back. |
| MatchErrors.BlankIsUnknown | src/lib/match/error-messages.ts:129-149 | A missing or blank input is "unknown". |
| MatchErrors.Lookup | src/lib/match/error-messages.ts:151-263 | A code gets the message of the first arm that lists it, and the default message when no arm does. |
| MatchErrors.GetFriendlyError | src/lib/match/error-messages.ts:151-263 | A code gets the title and severity of the first switch arm that lists it, and the default message when no arm does. |
| MatchErrors.LookupSkips | src/lib/match/error-messages.ts:151-263 | Arms that do not list a code have no say in its message. |
| MatchErrors.FirstOf | src/lib/match/error-messages.ts:151-263 | A code listed by some arm has a first arm listing it. |
| MatchErrors.ListsNoneAppend | src/lib/match/error-messages.ts:151-263 | Two runs of arms that list none of some codes list none of them together. |
| MatchErrors.MoveArmsSkip | src/lib/match/error-messages.ts:153-194 | No move-rule arm lists "unknown", "target_invalid" or an invalid-target alias. |
| MatchErrors.MoveArmsSkipFront | src/lib/match/error-messages.ts:153-174 | The first ten move-rule arms list none of those codes. |
| MatchErrors.MoveArmsSkipBack | src/lib/match/error-messages.ts:175-194 | The later move-rule arms list none of those codes. |
| MatchErrors.PromotionAndMatchArmsSkip | src/lib/match/error-messages.ts:195-212 | No promotion or match arm lists "unknown", "target_invalid" or an invalid-target alias. |
| MatchErrors.AbilityArmsSkip | src/lib/match/error-messages.ts:213-251 | No ability arm lists the default codes, and none of the first five lists an invalid-target alias. |
| MatchErrors.AbilityArmsSkipFront | src/lib/match/error-messages.ts:213-233 | The first nine ability arms list no default code, and the first five no invalid-target alias. |
| MatchErrors.AbilityArmsSkipBack | src/lib/match/error-messages.ts:234-251 | The later ability arms list no default code. |
| MatchErrors.ClientArmsSkip | src/lib/match/error-messages.ts:252-259 | No client-only arm lists a default code. |
| MatchErrors.DefaultsUnlisted | src/lib/match/error-messages.ts:151-263 | No arm lists "unknown" or "target_invalid". |
| MatchErrors.DefaultCodesFallThrough | src/lib/match/error-messages.ts:260-261 | "unknown" and "target_invalid" get the default message, though the parser produces both. |
| MatchErrors.ArmSelected | src/lib/match/error-messages.ts:151-263 | Every code of an arm that no earlier arm lists selects that arm. |
| MatchErrors.PieceMissingArm | src/lib/match/error-messages.ts:155-157 | "piece_not_found" and "piece_captured" share the piece-missing message. |
| MatchErrors.NotYourPieceArm | src/lib/match/error-messages.ts:164-166 | "not_your_piece" and "piece_not_owned" share the not-your-piece message. |
| MatchErrors.InvalidTargetArm | src/lib/match/error-messages.ts:223-227 | The four invalid-target codes share the invalid-target message. |
| MatchErrors.AliasesShareMessages | src/lib/match/error-messages.ts:155-227 | Two codes of one alias group always get the same message. |
| MatchSetup.CellOf | src/lib/match/setup.ts:12-19 | A board cell carries the row's id, kind, owner, ability use, capture and status unchanged. |
| MatchSetup.EmptyBoard | src/lib/match/setup.ts:6-8 | The starting board is 8 by 8 and empty. |
| MatchSetup.LastAt | src/lib/match/setup.ts:10-21 | The last row placed on a square, or none when no row is placed there. |
| MatchSetup.Put | src/lib/match/setup.ts:12-19 | A write succeeds exactly when the row index is on the board. It changes at most the one square and keeps the board 8 by 8. |
| MatchSetup.ConvertGameStateToBoard | src/lib/match/setup.ts:4-24 | The conversion succeeds exactly when every placed row has an on-board row index. Each square then shows the last row placed on it, and is empty when none is. |
| MatchSetup.LaterPieceOverwrites | src/lib/match/setup.ts:10-21 | A row placed later on an occupied square replaces its cell, and every other square keeps its cell. |
| MatchSetup.UnplacedRowIgnored | src/lib/match/setup.ts:11 | A row with a null coordinate leaves the board as it was. |
| MatchSetup.SetupMatch | src/lib/match/setup.ts:26-46 | The board and then the game id are installed exactly when the game, its piece list and the conversion are all present. Otherwise the error is swallowed and nothing is installed. |
| EmailMask.VisibleCount | src/components/global/UserInfo.tsx:40 | One to three characters stay readable: three for parts longer than seven, one for parts of five or fewer. |
| EmailMask.VisibleLength | src/components/global/UserInfo.tsx:54-55 | The readable prefix never exceeds the part, and is at least one character of a non-empty part. |
| EmailMask.MaskPart | src/components/global/UserInfo.tsx:38-43 | A masked part keeps the part's length and its readable prefix, with a star at every later position. |
| EmailMask.MaskEmail | src/components/global/UserInfo.tsx:36-66 | The masked address has the address's length and keeps its first "@". Every character that is not a star is the address's own character at that position. |
| EmailMask.LocalLength | src/components/global/UserInfo.tsx:37 | The local part runs up to the first "@", or is the whole address when there is none. |
| EmailMask.MaskShape | src/components/global/UserInfo.tsx:36-66 | The masked address has the address's length. It shows the readable prefix of the local part and the first "@" as they are, and a star everywhere else. |
| EmailMask.EmptyMasksToEmpty | src/components/global/UserInfo.tsx:38-49 | An empty address masks to the empty string. |
| EmailMask.MaskRevealsOnlyPrefix | src/components/global/UserInfo.tsx:36-66 | Two addresses of one length, with the "@" in one place and one readable prefix, mask alike: nothing else leaks. |
| EmailMask.MaskIdempotent | src/components/global/UserInfo.tsx:36-66 | Masking a masked address changes nothing. |
| Clocks.Clamp | src/components/Clocks.tsx:7 | A negative time reads as zero and any other time as it is. |
| Clocks.PadTwo | src/components/Clocks.tsx:10 | A seconds count below sixty is spelled in exactly two digits that read back as it. |
| Clocks.PadTwoValue | src/components/Clocks.tsx:10 | The padded spelling of a seconds count is two digits of its value. |
| Clocks.Format | src/components/Clocks.tsx:6-11 | The display is canonical minutes, a colon and two digits of seconds below sixty. Read back, it is the whole seconds left. |
| Clocks.SecondsOf | src/components/Clocks.tsx:9 | The seconds shown stay below sixty. |
| Clocks.FormatValue | src/components/Clocks.tsx:6-11 | The rendered minutes and seconds make up the whole seconds of the time. |
| Clocks.FormatParts | src/components/Clocks.tsx:10 | The display splits back into its minutes and its seconds at the colon. |
| Clocks.SecondsSplit | src/components/Clocks.tsx:8-9 | Whole minutes and the seconds left over make up the whole seconds. |
| Clocks.NegativeRendersZero | src/components/Clocks.tsx:6-11 | A negative remaining time reads "0:00". |
| Clocks.Displays | src/components/Clocks.tsx:31-40 | Without both clock values nothing is displayed. Otherwise only the side to move loses the time since the last sync, and neither side shows below zero. |
| Clocks.Elapsed | src/components/Clocks.tsx:34 | The elapsed time is zero without a sync or for a sync in the future, and the time since the sync otherwise. |
| Clocks.OnlySideToMoveTicks | src/components/Clocks.tsx:37-38 | The waiting side shows its synced time, and the side to move never shows more than its own. |
| Clocks.DisplayNonIncreasing | src/components/Clocks.tsx:31-40 | Between two syncs, no displayed time goes up as time passes. |
| Clocks.DreamEnergy | src/components/Clocks.tsx:45-47 | The bar's level lies in 0 to 20. A missing level is 0, a level in range is kept, and anything else is cut to the nearer bound. |
| Clocks.DreamEnergyIdempotent | src/components/Clocks.tsx:46-47 | Clamping a clamped level changes nothing. |
| Promotion.InfestRowY | src/components/modals/PromotionModal.tsx:30 | White infests row 0, and every other colour (or none) row 7. |
| Promotion.EmptyColsFrom | src/components/modals/PromotionModal.tsx:32-39 | Exactly the empty columns of the range, ascending. |
| Promotion.EmptyColsOnStartRow | src/components/modals/PromotionModal.tsx:32-39 | Exactly the empty back-rank columns, ascending; none without a board. |
| Promotion.ThreeEmptyAllowInfest | src/components/modals/PromotionModal.tsx:41 | Three empty back-rank squares make infesting possible. |
| Promotion.ThreeMembers | src/components/modals/PromotionModal.tsx:41 | A list holding three different columns has at least three entries. |
| Promotion.InfestNeedsThreeEmpty | src/components/modals/PromotionModal.tsx:41 | Infesting is possible only with three empty back-rank squares, and the first three empty columns are they. |
| Promotion.Picked | src/components/modals/PromotionModal.tsx:94 | No positions means an empty selection. |
| Promotion.ToggleInfestCol | src/components/modals/PromotionModal.tsx:92-102 | A picked square is unpicked. An unpicked one is appended below the cap of three and ignored at it. The piece type is kept. |
| Promotion.Filter | src/components/modals/PromotionModal.tsx:97 | Every copy of the square goes, and the rest stay. |
| Promotion.ToggleKeepsWellPicked | src/components/modals/PromotionModal.tsx:92-102 | The selection stays at most three squares, all on the back rank. |
| Promotion.ToggleTwiceRestores | src/components/modals/PromotionModal.tsx:92-102 | Toggling an unpicked square twice, below the cap, gives the selection back. |
| Promotion.FilterAppend | src/components/modals/PromotionModal.tsx:97 | Removing a square just appended gives back the list before it. |
| Promotion.ChooseSummon | src/components/modals/PromotionModal.tsx:135 | Choosing a summon option sets it and drops any picked squares. |
| Promotion.SwitchMode | src/components/modals/PromotionModal.tsx:109-124 | Summon can always be chosen. Infest is reached only when infesting is possible, or when it is already the mode. |
| Promotion.Submit | src/components/modals/PromotionModal.tsx:43-90 | A running submission ignores the click. A summon needs a piece type and an infestation exactly three squares, each refused with its message otherwise, and the request carries the larva and the choice. |
| Promotion.ConfirmMatchesSubmit | src/components/modals/PromotionModal.tsx:158 | The Confirm button is enabled exactly when submitting would send a request. |
| Promotion.Acknowledge | src/components/modals/PromotionModal.tsx:59-63 | The dialog closes exactly on an ok acknowledgement. Otherwise it shows the server's error, or "failed" when the error is missing or empty. |
| Promotion.FormatPiece | src/components/modals/PromotionModal.tsx:191-204 | Keys outside the four summon options are shown as they are. |
| Promotion.FormatPieceNamesDistinct | src/components/modals/PromotionModal.tsx:191-204 | The four summon options get four different names, none of them a key. |
| Challenges.BuildMapKeys | src/contexts/ChallengesContext.tsx:33-36 | A rebuilt map has a key exactly for each listed challenge's user. |
| Challenges.BuildMapLast | src/contexts/ChallengesContext.tsx:33-36 | A later challenge for the same user overwrites an earlier one. |
| Challenges.BuildMap | src/contexts/ChallengesContext.tsx:33-36 | A rebuilt map has at most one key per listed challenge and at least one for a non-empty list. Every value is the id of a listed challenge. |
| Challenges.Refetch | src/contexts/ChallengesContext.tsx:28-40 | A failed or non-ok fetch leaves both maps alone. Otherwise both are rebuilt from the listing, outgoing by recipient and incoming by sender. |
| Challenges.RefetchForgetsOldEntries | src/contexts/ChallengesContext.tsx:33-38 | A refetch drops every entry the listing no longer holds. |
| Challenges.OnCreated | src/contexts/ChallengesContext.tsx:51-54 | A created challenge becomes the outgoing entry for its recipient, and nothing else changes. |
| Challenges.OnWaiting | src/contexts/ChallengesContext.tsx:55-61 | The waiting event is the created event, taken only when both fields are numbers. |
| Challenges.OnIncoming | src/contexts/ChallengesContext.tsx:62-65 | An incoming challenge becomes the incoming entry for its sender, and nothing else changes. |
| Challenges.WithoutValue | src/contexts/ChallengesContext.tsx:66-79 | Exactly the entries holding the id are removed. |
| Challenges.OnCancelled | src/contexts/ChallengesContext.tsx:66-80 | A numeric non-zero id is removed wherever it appears, in both maps. Anything else is ignored. |
| Challenges.OnCancelledIdempotent | src/contexts/ChallengesContext.tsx:66-80 | Repeating a cancellation changes nothing more. |
| Challenges.ChallengeFriend | src/contexts/ChallengesContext.tsx:107-112 | The request is always sent. A friend without a pending entry gets the placeholder -1, and afterwards the friend is always pending. |
| Challenges.CancelChallenge | src/contexts/ChallengesContext.tsx:113-120 | Without a pending entry nothing happens. Otherwise exactly that entry goes and its id is sent. |
| Challenges.AcceptChallenge | src/contexts/ChallengesContext.tsx:121-126 | The pending incoming id is sent exactly when there is one, and the maps stay as they are. |
| Challenges.ChallengeTwiceKeepsState | src/contexts/ChallengesContext.tsx:107-112 | Challenging twice leaves the maps as challenging once does. |
| Challenges.EarlyCancelSendsPlaceholder | src/contexts/ChallengesContext.tsx:107-120 | A cancel before the server answers sends the placeholder -1, and the entry is gone as if never set. |
| Toasts.Spread | src/components/global/ToastProvider.tsx:67 | A left-out property keeps its default, a present `undefined` overrides it, and a given value wins. |
| Toasts.Build | src/components/global/ToastProvider.tsx:66-67 | The toast carries the id, the title and the description, with the variant defaulting to info and the duration to 4000 ms. |
| Toasts.Show | src/components/global/ToastProvider.tsx:65-71 | The new toast goes in front, the older ones follow in order, and the list is cut to five. A removal timer is set for its id. |
| Toasts.Without | src/components/global/ToastProvider.tsx:57 | Exactly the toasts with other ids remain. |
| Toasts.WithoutAppend | src/components/global/ToastProvider.tsx:57 | The toasts that remain keep their order. |
| Toasts.WithoutAbsent | src/components/global/ToastProvider.tsx:57 | A list without the id is left as it is. |
| Toasts.Remove | src/components/global/ToastProvider.tsx:56-63 | Every toast with the id goes and its timer is dropped. Other timers are untouched. |
| Toasts.ShowKeepsBounded | src/components/global/ToastProvider.tsx:68 | Never more than five toasts are shown. |
| Toasts.RemoveKeepsBounded | src/components/global/ToastProvider.tsx:57 | Removing keeps the list within five. |
| Toasts.ShowThenRemove | src/components/global/ToastProvider.tsx:56-71 | Showing a toast under a fresh id and removing it restores the timers and the list, cut to four when it was full: the pushed-out toast does not return. |
| Toasts.ShowThenRemoveToasts | src/components/global/ToastProvider.tsx:56-71 | Removing the new front toast leaves the older ones that were kept. |
| Catalog.ReplaceRunsStaysIn | src/components/PieceAbilities.tsx:29 | Replacing runs by a character of a class keeps a string inside that class. |
| Catalog.NormalizeKey | src/components/PieceAbilities.tsx:28-30 | A normalised key is empty exactly when the name is, and is never longer. It holds only upper-case letters, digits and "_", and never two "_" in a row. |
| Catalog.Slug | src/components/PieceAbilities.tsx:55 | A slug is empty exactly when the name is, and is never longer. It holds no white space and no upper-case letter. |
| Catalog.CollapsedIsSnake | src/components/PieceAbilities.tsx:29 | After both replacements only word characters remain, and never two "_" in a row. |
| Catalog.UpperKeepsSnake | src/components/PieceAbilities.tsx:29 | Upper-casing such a string gives a normalised key. |
| Catalog.NormalizeKeyIdempotent | src/components/PieceAbilities.tsx:28-30 | Normalising a normalised key changes nothing. |
| Catalog.SlugEntry | src/components/PieceAbilities.tsx:55 | Only the table's own keys answer, with their entries. |
| Catalog.SlugHit | src/components/PieceAbilities.tsx:55 | A name hits exactly when its lower-cased form or its slug is a key, and the lower-cased form is asked first. |
| Catalog.Keep | src/components/PieceAbilities.tsx:51 | A missing or empty field is dropped. |
| Catalog.Candidates | src/components/PieceAbilities.tsx:45-51 | Exactly the non-empty name fields, with the slug first when it is set. |
| Catalog.FirstSome | src/components/PieceAbilities.tsx:54-62 | The answer for the first candidate that has one, or none when no candidate does. |
| Catalog.CatalogHit | src/components/PieceAbilities.tsx:59-61 | A candidate answers with its normalised key exactly when the catalog holds that key. |
| Catalog.ResolveCatalogKey | src/components/PieceAbilities.tsx:43-64 | No piece gives no key. Every candidate is tried against the slug table before any normalised key is tried against the catalog. An answer is a table entry or a catalog key. |
| Catalog.NormalizedKeysNotInherited | src/components/PieceAbilities.tsx:60-61 | No normalised key names an inherited member, so the catalog test sees own keys only. |
| Catalog.PrototypeMembersShape | src/components/PieceAbilities.tsx:55 | Every inherited member name starts with a lower-case letter or "__". |
| Catalog.NotKeyShaped | src/components/PieceAbilities.tsx:28-30 | A normalised key never looks like an inherited member name. |
| Catalog.SlugFieldWins | src/components/PieceAbilities.tsx:53-57 | A slug field whose lower-cased form is in the table decides the key, whatever the catalog holds. |
| Catalog.SlugEntryAsWritten | src/components/PieceAbilities.tsx:32-41 | Plain indexing reads an own key's entry, and otherwise an inherited member of that name. |
| Catalog.SlugHitAsWritten | src/components/PieceAbilities.tsx:55 | An own hit agrees with the intended lookup, and an inherited hit is a member the table does not hold. Names that are not member names behave as intended. |
| Catalog.ResolveCatalogKeyAsWritten | src/components/PieceAbilities.tsx:43-64 | The lookup as the source has it, where an inherited member answers as a slug hit. |
| Catalog.Own | src/components/PieceAbilities.tsx:56 | An own key as a hit. |
| Catalog.FirstSlugHitOwn | src/components/PieceAbilities.tsx:54-57 | Without inherited members the slug scan as written finds what the intended one does. |
| Catalog.AsWrittenWithoutInheritance | src/components/PieceAbilities.tsx:43-64 | Without inherited members the lookup as written is the intended one. |
| Catalog.ConstructorSpellings | src/components/PieceAbilities.tsx:55 | "Constructor" lower-cases and slugs to "constructor". |
| Catalog.ConstructorNotASlug | src/components/PieceAbilities.tsx:32-41 | "constructor" is not a key of the slug table, yet every object inherits it. |
| Catalog.ConstructorResolvesToInherited | src/components/PieceAbilities.tsx:53-57 | For a piece named "Constructor", the lookup as written answers with the inherited member. The intended lookup falls through to the catalog. |
| Gallery.BuildItems | src/components/PiecesGallery.tsx:19-29 | One item per definition, in order, with its key, name, slug and default movement. |
| Gallery.Distinct | src/components/PiecesGallery.tsx:32-34 | Each value once, holding exactly the values of the input. |
| Gallery.DistinctPrefix | src/components/PiecesGallery.tsx:32-34 | The options keep the order in which values first appear. |
| Gallery.DistinctOfDistinct | src/components/PiecesGallery.tsx:32-34 | A list without duplicates is its own set of values. |
| Gallery.Movements | src/components/PiecesGallery.tsx:31-35 | "all" comes first, then each item's movement exactly once. |
| Gallery.MovementList | src/components/PiecesGallery.tsx:33 | The items' movements, in order. |
| Gallery.MovementListMembers | src/components/PiecesGallery.tsx:33 | A movement is listed exactly when some item has it. |
| Gallery.Filtered | src/components/PiecesGallery.tsx:42-49 | Exactly the items that match the trimmed, lower-cased query by name, slug or key, and the chosen movement. |
| Gallery.FilteredAppend | src/components/PiecesGallery.tsx:44-48 | The items shown keep the gallery's order. |
| Gallery.BlankQueryShowsAll | src/components/PiecesGallery.tsx:43-46 | A blank query with every movement shows the whole gallery, in order. |
| Gallery.FilteredIdempotent | src/components/PiecesGallery.tsx:42-49 | Filtering a filtered gallery again with the same search changes nothing. |
| Gallery.OpenPiece | src/components/PiecesGallery.tsx:51 | The open piece is the first item with the open key, and there is none when no key is open or no item has it. |
| Runs.DropRun | src/components/PieceAbilities.tsx:29 | A leading run of the class is dropped whole. |
| Runs.ReplaceRuns | src/components/PieceAbilities.tsx:29 | Replacing runs never lengthens a string, and the result is empty exactly when the input is. |
| Runs.ReplaceRunsChars | src/components/PieceAbilities.tsx:29 | Every character of the result is the replacement or outside the class. |
| Runs.ReplaceRunsHead | src/components/PieceAbilities.tsx:29 | A leading run becomes the replacement, and any other first character stays. |
| Runs.ReplaceRunsNoAdjacent | src/components/PieceAbilities.tsx:29 | With a replacement in the class, no two neighbours of the result are both in the class. |
| Runs.ReplaceRunsFixed | src/components/PieceAbilities.tsx:29 | A string whose class members are single replacement characters is left as it is. |
| Runs.FixedTail | src/components/PieceAbilities.tsx:29 | That property passes to the string's tail. |

## Left out

- JWT signing and verification, including expiry checks at the boundary instant: they are oracles passed in as parameters, so the model states what the routes do with their answers.
- `bcrypt` hashing and comparison, mail delivery and the Vercel geolocation lookup: foreign calls, passed in as values or functions.
- Wall-clock time, `Math.random` and the toast ids drawn from it: parameters.
- Concurrency: every handler runs to completion on its own. Two sign-ins racing on one (user, device) pair, or two friend requests racing on one pair, are not modelled; the unique token constraint is.
- Store outages: only sign-out models a failing store, because it swallows the failure. Elsewhere a store failure would surface as a 500 the model does not enumerate.
- The device touches the current refresh endpoints start without awaiting them: their outcome cannot reach the reply, so they are left out. Sign-in awaits its touch, and that one is modelled.
- The device foreign key of refresh rows: a row may name a device that does not exist.
- `updatedAt` columns, and the order the database gives rows with equal `createdAt`: the listings keep table order for ties.
- Integer columns are unbounded `int`: the 32-bit range of Postgres `Int` is not enforced.
- JavaScript numbers are exact reals: double rounding is not modelled, so very long digit strings and very large exponents read exactly rather than rounded to a double.
- Js.IntSpellingRoundTrip: `String` of an integer is taken as its plain decimal spelling. JavaScript spells magnitudes of 1e21 and above in exponent notation, which `Number` still reads back as the same double, but that spelling is not modelled.
- Js.ValueToNumber: an object or array converts to `NaN`. JavaScript converts an array through its string form, so `Number([5])` is 5 and a one-element array `userId` would name a user in `Friends.FriendsDelete`.
- EmailMask.MaskEmail: lengths count code points (Dafny characters), while JavaScript counts UTF-16 units, so an address with characters outside the Basic Multilingual Plane shows more stars in JavaScript.
- Cookies.Delivered: the one-entry-per-name behaviour of the Next.js response cookie store is stated as the model of that store, not derived from it.
- Jwt.LoadConfig: a lifetime setting that `Number` does not read as an integer makes loading fail, where the source would carry the odd value into token lifetimes and expiry dates.
- Sign-in and registration read their bodies with `await req.json()` and no `catch` (src/app/api/sessions/route.ts:11, src/app/api/auth/register/route.ts:12). A body that is not JSON, or is `null`, makes the route throw, a 500. The model takes the parsed fields and does not model that 500. The friends routes catch the parse error, and their literal `null` body is modelled (`Friends.JsonBody`).
- Gateway.Matched: the matcher is read as the plain regular expression it is written as. The `/_next/data` and locale rewriting that Next.js applies before matching is not modelled.
- Refresh.RefreshRedirect: the WHATWG URL parser is a parameter (`parses`), not a model of section 4.4 of the URL Standard. `Refresh.FollowsWhatwg` states the three facts the lemmas rely on: a same-site path always parses, an empty host never does, and a plain letters-and-dots domain after `/\` or `/<tab>/` does. Other hosts the parser rejects (forbidden code points, a non-numeric port, a bad IPv4 address) are decided by the parameter.
- Friends.IdArgs: an object `requestId` is read as an `IntFilter` whose operands are integers (`in` and `notIn` as integer lists). A nested filter under `not`, and `null` operands, are counted among the objects the store refuses.
- Refresh.ResolvesOnSite: only the parser step that decides between another host and a same-site path is modelled, for a relative input that begins with "/". Percent-escapes in the path are not decoded by it.
- Request body fields are strings or missing: a number, boolean or object where a string is expected is not modelled.
- Day lengths are fixed at 86 400 000 ms: daylight-saving shifts in `setDate` are not modelled.
- `encodeURIComponent` of non-ASCII text and lone surrogates: the round trip is stated for ASCII, which is what a parsed URL path holds.
- `toLowerCase`, `toUpperCase` and `trim` follow ASCII letters and the white space `Text` lists. Other Unicode case mappings, such as those of "DOPPELGÄNGER", are not modelled.
- The legacy sign-in, sign-out and token routes under `/api/auth`, other than the legacy refresh endpoints: they are outside the session core.
- The client's fetch wrapper, its single in-flight refresh and the jittered refresh timer: they are browser-side scheduling.
- The 404 body of the token-peek route is plain text; only its status is modelled.
- MatchErrors.GetFriendlyError: only the title and severity of each message are modelled, not the description sentence.
- MatchSetup.Put: a write to an off-board column adds an entry outside the row's eight squares in JavaScript; the model keeps the eight squares and drops that entry, which the board never draws.
- Clocks.Displays: times are whole milliseconds; `Math.floor` of a fractional time and the bar's percentage width are not modelled.
- Clocks: the clock fields come from the match context as parameters, and the animation-frame timer is `now`.
- Challenges: the focus and visibility listeners that call `refetch` are not modelled, and a socket payload field that is not a number arrives as `None`.
- Promotion.Submit: the awaited socket emission and the `connection_error` it may throw are not modelled; the step ends at the request sent.
- Toasts: timers are a map from toast id to delay; their firing is `Remove`.
- Catalog: the abilities catalog is a parameter (its set of own keys), because which export holds it is decided at run time.
- Catalog.SlugFieldWins: the slug table's keys are not proved lower-case; the lemma asks for a slug whose lower-cased form is a key.
- Gallery: images and the preview colour are presentation only.
- ClientInfo.DetectDeviceType: the `android(?!.*mobile)` look-ahead is stated in its simplified form, which `ClientInfo.TabletRuleSimplifies` proves equivalent once the mobile rule has not fired.
- The `cn` class-name helper: presentation only.

## Findings

The route members keep the code as written, so their rows describe the
program. Each corrected member states what the fix guarantees, and it is
proved against the same model.

| source | as written | input that shows it | evidently intended | confidence | as-written member | corrected member |
|---|---|---|---|---|---|---|
| src/components/PieceAbilities.tsx:53-57 | `SLUG_TO_KEY[x]` reads inherited `Object.prototype` members as well as the table's own keys. | A piece whose only name is "Constructor": its lower-cased form "constructor" reads the inherited `Object` constructor, which is truthy and is returned as the key. | Only the table's own keys answer, so the lookup falls through to the normalised catalog key. | not executed | Catalog.ResolveCatalogKeyAsWritten (with Catalog.ConstructorResolvesToInherited) | Catalog.ResolveCatalogKey |
| src/app/api/sessions/current/refresh/redirect/route.ts:53 | `sanitizeNext` checks the string: it must start with "/" and not with "//". The redirect then resolves it with `new URL(nextPath, url)` (line 43). That parser drops tabs and newlines and reads `\` like "/" on an `http(s)` base. The legacy copy at src/app/api/auth/refresh/redirect/route.ts:62 is the same. | A visitor with a valid refresh cookie follows `/api/sessions/current/refresh/redirect?next=/%5Cevil.com`, or `next=/%09/evil.com`. `next` reads as `/\evil.com` (or "/", tab, "/evil.com"), passes the check, and the browser is sent to `evil.com`. | Only a `next` that stays on the site survives, and anything that resolves elsewhere becomes "/". | not executed | Refresh.SanitizeNext (with Refresh.BackslashNextLeavesSite, Refresh.TabNextLeavesSite, Refresh.RedirectLeavesSite) | Refresh.SafeNext |
