/**
 * Request metadata helpers of `src/lib/utils.ts`: the client address behind
 * reverse proxies, and the coarse device class derived from a user agent.
 */
module ClientInfo {
  import opened Wrappers
  import opened Text
  import opened Http

  // ---------------------------------------------------------------------
  // extractClientIp
  // ---------------------------------------------------------------------

  /** The first comma-separated element of `x-forwarded-for`, or "" without that header. */
  function FirstForwarded(h: Headers): string {
    match Header(h, "x-forwarded-for")
    case Some(f) => Split(f, ',')[0]
    case None => ""
  }

  /** The client address: the first `x-forwarded-for` element, else `x-real-ip`, both trimmed. */
  function ExtractClientIp(h: Headers): (r: Option<string>)
    ensures r.Some? ==> Trim(r.value) == r.value
    ensures FirstForwarded(h) != "" ==> r == Some(Trim(FirstForwarded(h)))
    ensures r.None? <==> FirstForwarded(h) == "" && (Header(h, "x-real-ip").None? || Header(h, "x-real-ip") == Some(""))
  {
    var first := FirstForwarded(h);
    if first != "" then
      TrimIdempotent(first);
      Some(Trim(first))
    else
      match Header(h, "x-real-ip")
      case Some(ip) =>
        if ip != "" then
          TrimIdempotent(ip);
          Some(Trim(ip))
        else None
      case None => None
  }

  /** An address taken from the forwarded list holds no comma: only the first hop is used. */
  lemma ForwardedAddressIsOneHop(h: Headers)
    requires FirstForwarded(h) != ""
    ensures ExtractClientIp(h).Some? && ',' !in ExtractClientIp(h).value
  {
    TrimKeepsOut(FirstForwarded(h), ',');
  }

  /** `trim` only removes characters, so a character absent before is absent after. */
  lemma TrimKeepsOut(s: string, c: char)
    requires c !in s
    ensures c !in Trim(s)
  {
    var k :| OccursAt(s, Trim(s), k);
    assert forall i :: 0 <= i < |Trim(s)| ==> Trim(s)[i] == s[k + i];
  }

  /**
   * A first forwarded element of only white space still wins over
   * `x-real-ip`: the address is then "".
   */
  lemma WhitespaceFirstElementWins(h: Headers)
    requires FirstForwarded(h) != "" && Trim(FirstForwarded(h)) == ""
    ensures ExtractClientIp(h) == Some("")
  {
  }

  // ---------------------------------------------------------------------
  // detectDeviceType
  // ---------------------------------------------------------------------

  datatype DeviceType = Desktop | Mobile | Tablet | Bot | UnknownDevice

  /** The part of `s` before its first line terminator: how far `.*` can reach. */
  function LineHead(s: string): (r: string)
    ensures StartsWith(s, r)
    decreases |s|
  {
    if |s| == 0 || s[0] == '\n' || s[0] == '\r' || s[0] == '\U{2028}' || s[0] == '\U{2029}' then ""
    else [s[0]] + LineHead(s[1..])
  }

  /** `/android(?!.*mobile)/`: some "android" not followed, on its line, by "mobile". */
  predicate AndroidWithoutMobile(ua: string) {
    exists i :: 0 <= i <= |ua| - 7 && OccursAt(ua, "android", i) && !Contains(LineHead(ua[i + 7..]), "mobile")
  }

  predicate IsBotAgent(ua: string) {
    Contains(ua, "bot") || Contains(ua, "crawler") || Contains(ua, "spider") || Contains(ua, "crawling")
  }

  predicate IsMobileAgent(ua: string) {
    Contains(ua, "mobile") && !Contains(ua, "tablet")
  }

  predicate IsTabletAgent(ua: string) {
    Contains(ua, "tablet") || Contains(ua, "ipad") || AndroidWithoutMobile(ua)
  }

  predicate IsDesktopAgent(ua: string) {
    Contains(ua, "windows") || Contains(ua, "macintosh") || Contains(ua, "linux") || Contains(ua, "x11")
  }

  /** The class of a user agent, by the first rule that fires on its lower-cased text. */
  function DetectDeviceType(userAgent: Option<string>): (t: DeviceType)
    ensures userAgent.None? || userAgent == Some("") ==> t == UnknownDevice
    ensures t == Bot <==> userAgent.Some? && IsBotAgent(Lower(userAgent.value))
    ensures t == Mobile <==> userAgent.Some? && !IsBotAgent(Lower(userAgent.value)) && IsMobileAgent(Lower(userAgent.value))
    ensures t == Tablet <==>
              userAgent.Some? && !IsBotAgent(Lower(userAgent.value)) && !IsMobileAgent(Lower(userAgent.value))
              && (Contains(Lower(userAgent.value), "tablet") || Contains(Lower(userAgent.value), "ipad")
                  || Contains(Lower(userAgent.value), "android"))
    ensures t == Desktop <==>
              userAgent.Some? && !IsBotAgent(Lower(userAgent.value)) && !IsMobileAgent(Lower(userAgent.value))
              && !(Contains(Lower(userAgent.value), "tablet") || Contains(Lower(userAgent.value), "ipad")
                   || Contains(Lower(userAgent.value), "android"))
              && IsDesktopAgent(Lower(userAgent.value))
  {
    match userAgent
    case None => UnknownDevice
    case Some(s) =>
      if s == "" then
        assert Lower(s) == "";
        UnknownDevice
      else
        var ua := Lower(s);
        if IsBotAgent(ua) then Bot
        else if IsMobileAgent(ua) then Mobile
        else
          TabletRuleSimplifies(ua);
          if IsTabletAgent(ua) then Tablet
          else if IsDesktopAgent(ua) then Desktop
          else UnknownDevice
  }

  /** Lower-casing first changes nothing: the classification ignores ASCII case. */
  lemma DetectIgnoresCase(s: string)
    ensures DetectDeviceType(Some(Upper(s))) == DetectDeviceType(Some(s))
    ensures DetectDeviceType(Some(Lower(s))) == DetectDeviceType(Some(s))
  {
    assert Lower(Upper(s)) == Lower(s);
    LowerIdempotent(s);
  }

  /**
   * Once the mobile rule has not fired, the look-ahead is immaterial: an agent
   * is a tablet exactly when it mentions "tablet", "ipad" or "android".
   */
  lemma TabletRuleSimplifies(ua: string)
    requires !IsMobileAgent(ua)
    ensures IsTabletAgent(ua) <==> Contains(ua, "tablet") || Contains(ua, "ipad") || Contains(ua, "android")
  {
    ContainsIffOccurs(ua, "android");
    if Contains(ua, "android") && !Contains(ua, "tablet") {
      var i :| OccursAt(ua, "android", i);
      NoMobileInLineHead(ua, i + 7);
      assert !Contains(LineHead(ua[i + 7..]), "mobile");
    }
  }

  lemma NoMobileInLineHead(ua: string, j: int)
    requires 0 <= j <= |ua|
    requires !Contains(ua, "mobile")
    ensures !Contains(LineHead(ua[j..]), "mobile")
  {
    if Contains(LineHead(ua[j..]), "mobile") {
      ContainsPrefix(ua[j..], LineHead(ua[j..]), "mobile");
      ContainsTail(ua, j, "mobile");
    }
  }
}
