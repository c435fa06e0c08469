/**
 * `encodeURIComponent` (UTF-8 percent-encoding, section 2.1 of RFC 3986) and
 * the `application/x-www-form-urlencoded` decoding that `URLSearchParams.get`
 * applies to a query value.
 */
module Uri {
  import opened Text
  import opened Js

  /** The characters `encodeURIComponent` leaves alone. */
  predicate Unreserved(c: char) {
    IsUpperAscii(c) || IsLowerAscii(c) || IsDigit(c)
    || c == '-' || c == '_' || c == '.' || c == '!' || c == '~' || c == '*' || c == '\'' || c == '(' || c == ')'
  }

  predicate IsAscii(s: string) {
    forall i :: 0 <= i < |s| ==> s[i] as int < 0x80
  }

  /** The UTF-8 bytes of one code point. */
  function Utf8(c: char): (bs: seq<int>)
    ensures 1 <= |bs| <= 4
    ensures forall i :: 0 <= i < |bs| ==> 0 <= bs[i] < 256
    ensures c as int < 0x80 ==> bs == [c as int]
  {
    var cp := c as int;
    if cp < 0x80 then [cp]
    else if cp < 0x800 then [0xC0 + cp / 64, 0x80 + cp % 64]
    else if cp < 0x10000 then [0xE0 + cp / 4096, 0x80 + (cp / 64) % 64, 0x80 + cp % 64]
    else [0xF0 + cp / 262144, 0x80 + (cp / 4096) % 64, 0x80 + (cp / 64) % 64, 0x80 + cp % 64]
  }

  function HexUpper(d: int): (c: char)
    requires 0 <= d < 16
    ensures IsHexDigit(c) && HexDigitValue(c) == d
  {
    if d < 10 then ('0' as int + d) as char else ('A' as int + d - 10) as char
  }

  /** `%XY` for each byte, upper-case hexadecimal. */
  function PercentBytes(bs: seq<int>): (r: string)
    requires forall i :: 0 <= i < |bs| ==> 0 <= bs[i] < 256
    ensures |r| == 3 * |bs|
    ensures forall i :: 0 <= i < |r| ==> r[i] == '%' || IsHexDigit(r[i])
  {
    if |bs| == 0 then ""
    else ['%', HexUpper(bs[0] / 16), HexUpper(bs[0] % 16)] + PercentBytes(bs[1..])
  }

  function EncodeChar(c: char): (r: string)
    ensures |r| >= 1
    ensures forall i :: 0 <= i < |r| ==> Unreserved(r[i]) || r[i] == '%' || IsHexDigit(r[i])
  {
    if Unreserved(c) then [c] else PercentBytes(Utf8(c))
  }

  /** `encodeURIComponent(s)` */
  function EncodeUriComponent(s: string): (r: string)
    ensures forall i :: 0 <= i < |r| ==> Unreserved(r[i]) || r[i] == '%' || IsHexDigit(r[i])
  {
    if |s| == 0 then "" else EncodeChar(s[0]) + EncodeUriComponent(s[1..])
  }

  /**
   * Form decoding of a query value: `+` is a space and `%XY` an escaped
   * byte. Escapes of bytes above 0x7F, which start a UTF-8 sequence, are
   * kept as written here.
   */
  function FormDecode(s: string): string
    decreases |s|
  {
    if |s| == 0 then ""
    else if s[0] == '+' then " " + FormDecode(s[1..])
    else if |s| >= 3 && s[0] == '%' && IsHexDigit(s[1]) && IsHexDigit(s[2])
            && HexDigitValue(s[1]) * 16 + HexDigitValue(s[2]) < 0x80 then
      [(HexDigitValue(s[1]) * 16 + HexDigitValue(s[2])) as char] + FormDecode(s[3..])
    else [s[0]] + FormDecode(s[1..])
  }

  /** `%hl` followed by `rest` decodes to the ASCII character `hl` followed by the decoded rest. */
  lemma EscapeDecodes(h: char, l: char, rest: string)
    requires IsHexDigit(h) && IsHexDigit(l) && HexDigitValue(h) * 16 + HexDigitValue(l) < 0x80
    ensures FormDecode(['%', h, l] + rest) == [(HexDigitValue(h) * 16 + HexDigitValue(l)) as char] + FormDecode(rest)
  {
    assert (['%', h, l] + rest)[3..] == rest;
  }

  /** A slash and an escape: the slash stays and the escape becomes its character. */
  lemma SlashEscapeDecodes(h: char, l: char, rest: string)
    requires IsHexDigit(h) && IsHexDigit(l) && HexDigitValue(h) * 16 + HexDigitValue(l) < 0x80
    ensures FormDecode(['/', '%', h, l] + rest) == ['/', (HexDigitValue(h) * 16 + HexDigitValue(l)) as char] + FormDecode(rest)
  {
    var s := ['/', '%', h, l] + rest;
    assert s[1..] == ['%', h, l] + rest;
    EscapeDecodes(h, l, rest);
  }

  /** A character other than `+` and `%` decodes to itself. */
  lemma PlainCharDecodes(c: char, rest: string)
    requires c != '+' && c != '%'
    ensures FormDecode([c] + rest) == [c] + FormDecode(rest)
  {
    assert ([c] + rest)[1..] == rest;
  }

  /** A string without `+` or `%` decodes to itself. */
  lemma {:induction false} PlainDecodes(s: string)
    requires forall i :: 0 <= i < |s| ==> s[i] != '+' && s[i] != '%'
    ensures FormDecode(s) == s
  {
    if |s| > 0 {
      PlainDecodes(s[1..]);
    }
  }

  lemma DecodeEncodedChar(c: char, rest: string)
    requires c as int < 0x80
    ensures FormDecode(EncodeChar(c) + rest) == [c] + FormDecode(rest)
  {
    var e := EncodeChar(c);
    if Unreserved(c) {
      assert (e + rest)[1..] == rest;
    } else {
      var cp := c as int;
      assert e == ['%', HexUpper(cp / 16), HexUpper(cp % 16)];
      assert (e + rest)[3..] == rest;
    }
  }

  /** Form-decoding undoes `encodeURIComponent` on the ASCII strings a parsed URL consists of. */
  lemma {:induction false} DecodeEncode(s: string)
    requires IsAscii(s)
    ensures FormDecode(EncodeUriComponent(s)) == s
    decreases |s|
  {
    if |s| > 0 {
      DecodeEncodedChar(s[0], EncodeUriComponent(s[1..]));
      DecodeEncode(s[1..]);
      assert s == [s[0]] + s[1..];
    }
  }

  /** An encoded value holds none of the query delimiters, so it stays one `name=value` pair. */
  lemma EncodedHasNoDelimiters(s: string)
    ensures '&' !in EncodeUriComponent(s) && '=' !in EncodeUriComponent(s)
    ensures '#' !in EncodeUriComponent(s) && '+' !in EncodeUriComponent(s)
  {
  }
}
