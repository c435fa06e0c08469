/**
 * Cookies as the handlers emit them (`cookieStore.set(name, value, options)`)
 * and as a browser keeps and returns them: storage keyed by (name, path),
 * removal by a past expiry (section 5.3 of RFC 6265), and the path-match rule
 * of section 5.1.4 of RFC 6265 that decides which cookies a request carries.
 * One origin is modelled, so the domain attribute is left out.
 */
module Cookies {
  import opened Text
  import opened Wrappers

  datatype SameSite = Strict | Lax | Unspecified

  /** `expires: <Date>` (milliseconds since the epoch), `maxAge: <seconds>`, or neither. */
  datatype Expiry = SessionOnly | ExpiresAt(ms: int) | MaxAge(seconds: int)

  /** One `Set-Cookie` instruction. */
  datatype SetCookie = SetCookie(
    name: string,
    value: string,
    path: string,
    expiry: Expiry,
    httpOnly: bool,
    secure: bool,
    sameSite: SameSite)

  /** `cookieStore.set(name, "", { expires: new Date(0), path })`: the deletion idiom. */
  function Expire(name: string, path: string): (c: SetCookie)
    ensures c.name == name && c.path == path && c.value == ""
    ensures c.expiry == ExpiresAt(0)
  {
    SetCookie(name, "", path, ExpiresAt(0), false, false, Unspecified)
  }

  // ---------------------------------------------------------------------
  // Path matching (section 5.1.4 of RFC 6265)
  // ---------------------------------------------------------------------

  /** `requestPath` path-matches `cookiePath`. */
  predicate PathMatch(requestPath: string, cookiePath: string) {
    requestPath == cookiePath
    || (StartsWith(requestPath, cookiePath) && |cookiePath| > 0 && cookiePath[|cookiePath| - 1] == '/')
    || (StartsWith(requestPath, cookiePath) && |requestPath| > |cookiePath| && requestPath[|cookiePath|] == '/')
  }

  /** For a cookie path without a trailing "/", matching is "equal, or below it after a slash". */
  lemma PathMatchBoundary(requestPath: string, cookiePath: string)
    requires cookiePath == [] || cookiePath[|cookiePath| - 1] != '/'
    ensures PathMatch(requestPath, cookiePath)
        <==> requestPath == cookiePath || StartsWith(requestPath, cookiePath + "/")
  {
    if StartsWith(requestPath, cookiePath + "/") {
      assert requestPath[..|cookiePath|] == (cookiePath + "/")[..|cookiePath|];
    }
    if StartsWith(requestPath, cookiePath) && |requestPath| > |cookiePath| && requestPath[|cookiePath|] == '/' {
      assert requestPath[..|cookiePath| + 1] == cookiePath + "/";
    }
  }

  /** Path "/" path-matches every absolute request path. */
  lemma RootMatchesAll(requestPath: string)
    requires StartsWith(requestPath, "/")
    ensures PathMatch(requestPath, "/")
  {
  }

  // ---------------------------------------------------------------------
  // The browser's cookie jar
  // ---------------------------------------------------------------------

  /** A stored cookie: its value and its expiry instant, if it has one. */
  datatype Stored = Stored(value: string, expiresAt: Option<int>)

  /** A jar holds at most one cookie per (name, path). */
  type Jar = map<(string, string), Stored>

  function ExpiryInstant(e: Expiry, now: int): Option<int> {
    match e
    case SessionOnly => None
    case ExpiresAt(ms) => Some(ms)
    case MaxAge(s) => Some(now + s * 1000)
  }

  predicate Live(s: Stored, now: int) {
    s.expiresAt.None? || s.expiresAt.value > now
  }

  /** Receiving one instruction at time `now`: a past expiry evicts, anything else replaces. */
  function Receive(jar: Jar, c: SetCookie, now: int): (j: Jar)
    ensures (c.name, c.path) in j <==> Live(Stored(c.value, ExpiryInstant(c.expiry, now)), now)
    ensures (c.name, c.path) in j ==> j[(c.name, c.path)].value == c.value
    ensures forall k :: k != (c.name, c.path) ==> (k in j <==> k in jar) && (k in j ==> j[k] == jar[k])
  {
    var s := Stored(c.value, ExpiryInstant(c.expiry, now));
    if Live(s, now) then jar[(c.name, c.path) := s] else jar - {(c.name, c.path)}
  }

  /** Receiving the instructions of one response, in order. */
  function ReceiveAll(jar: Jar, cs: seq<SetCookie>, now: int): Jar
    decreases |cs|
  {
    if |cs| == 0 then jar else ReceiveAll(Receive(jar, cs[0], now), cs[1..], now)
  }

  /** A later instruction for the same (name, path) decides the jar entry. */
  lemma {:induction false} ReceiveAllLast(jar: Jar, cs: seq<SetCookie>, now: int, i: int)
    requires 0 <= i < |cs|
    requires forall j :: i < j < |cs| ==> (cs[j].name, cs[j].path) != (cs[i].name, cs[i].path)
    ensures var k := (cs[i].name, cs[i].path);
            k in ReceiveAll(jar, cs, now) <==> Live(Stored(cs[i].value, ExpiryInstant(cs[i].expiry, now)), now)
    decreases |cs|
  {
    if i == 0 {
      ReceiveAllUntouched(Receive(jar, cs[0], now), cs[1..], now, (cs[0].name, cs[0].path));
    } else {
      ReceiveAllLast(Receive(jar, cs[0], now), cs[1..], now, i - 1);
    }
  }

  /** Instructions for other keys leave a jar entry as it was. */
  lemma {:induction false} ReceiveAllUntouched(jar: Jar, cs: seq<SetCookie>, now: int, k: (string, string))
    requires forall j :: 0 <= j < |cs| ==> (cs[j].name, cs[j].path) != k
    ensures k in ReceiveAll(jar, cs, now) <==> k in jar
    ensures k in jar ==> ReceiveAll(jar, cs, now)[k] == jar[k]
    decreases |cs|
  {
    if |cs| > 0 {
      ReceiveAllUntouched(Receive(jar, cs[0], now), cs[1..], now, k);
    }
  }

  // ---------------------------------------------------------------------
  // What a response carries
  // ---------------------------------------------------------------------

  /** No later instruction of `cs` sets the same name as `cs[i]`. */
  predicate LastOfName(cs: seq<SetCookie>, i: int)
    requires 0 <= i < |cs|
  {
    forall j :: i < j < |cs| ==> cs[j].name != cs[i].name
  }

  /**
   * The instructions a response delivers. The handler's cookie store keeps
   * one entry per name, so a later `set` of a name replaces an earlier one
   * whatever its path; the delivered instructions carry distinct names, so
   * their order does not matter to a jar.
   */
  function Delivered(cs: seq<SetCookie>): (r: seq<SetCookie>)
    ensures forall c :: c in r <==> exists i :: 0 <= i < |cs| && cs[i] == c && LastOfName(cs, i)
    ensures forall i, j :: 0 <= i < j < |r| ==> r[i].name != r[j].name
    decreases |cs|
  {
    if |cs| == 0 then []
    else
      var rest := Delivered(cs[1..]);
      forall c ensures c in rest <==> exists i :: 1 <= i < |cs| && cs[i] == c && LastOfName(cs, i) {
        if c in rest {
          var k :| 0 <= k < |cs[1..]| && cs[1..][k] == c && LastOfName(cs[1..], k);
          assert cs[k + 1] == c && LastOfName(cs, k + 1);
        }
        if exists i :: 1 <= i < |cs| && cs[i] == c && LastOfName(cs, i) {
          var i :| 1 <= i < |cs| && cs[i] == c && LastOfName(cs, i);
          assert cs[1..][i - 1] == c && LastOfName(cs[1..], i - 1);
        }
      }
      if exists j :: 0 < j < |cs| && cs[j].name == cs[0].name then
        rest
      else
        forall c | c in rest ensures c.name != cs[0].name {
          var i :| 1 <= i < |cs| && cs[i] == c && LastOfName(cs, i);
        }
        [cs[0]] + rest
  }

  /** The browser attaches cookie `name` to a request for `requestPath` at time `now`. */
  ghost predicate Sends(jar: Jar, requestPath: string, name: string, now: int) {
    exists path :: (name, path) in jar && PathMatch(requestPath, path) && Live(jar[(name, path)], now)
  }
}
