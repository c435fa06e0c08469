/**
 * Start-up clean-up of `DATABASE_URL` in `src/lib/prisma.ts`: an env file
 * may inject the value with surrounding white space or one layer of quotes.
 */
module EnvString {
  import opened Wrappers
  import opened Text

  /** A quote character that `cleanEnvString` strips in matching pairs. */
  predicate IsQuote(c: char) {
    c == '"' || c == '\''
  }

  /** `t` starts and ends with the same quote character (a lone quote counts). */
  predicate QuotedBy(t: string, q: char) {
    IsQuote(q) && |t| >= 1 && t[0] == q && t[|t| - 1] == q
  }

  /** `s.slice(1, -1)`: drop the first and the last character; shorter strings give "". */
  function Inner(t: string): (r: string)
    ensures |t| >= 2 ==> |r| == |t| - 2 && t == [t[0]] + r + [t[|t| - 1]]
    ensures |t| < 2 ==> r == ""
  {
    if |t| >= 2 then t[1..|t| - 1] else ""
  }

  /** `cleanEnvString(val)` */
  function CleanEnvString(val: Option<string>): (r: Option<string>)
    ensures r.None? <==> val.None?
    ensures val.Some? && (QuotedBy(Trim(val.value), '"') || QuotedBy(Trim(val.value), '\'')) ==>
              r.value == Inner(Trim(val.value))
    ensures val.Some? && !QuotedBy(Trim(val.value), '"') && !QuotedBy(Trim(val.value), '\'') ==>
              r.value == Trim(val.value)
  {
    match val
    case None => None
    case Some(v) =>
      var t := Trim(v);
      if (|t| >= 1 && t[0] == '"' && t[|t| - 1] == '"') || (|t| >= 1 && t[0] == '\'' && t[|t| - 1] == '\'') then
        Some(Inner(t))
      else Some(t)
  }

  /**
   * The module-load step: the variable is replaced only when it is set to a
   * non-empty value whose cleaned form is non-empty and different.
   */
  function CleanDatabaseUrl(env: Option<string>): (r: Option<string>)
    ensures env.None? || env.value == "" ==> r == env
    ensures r != env <==>
              env.Some? && env.value != "" && CleanEnvString(env).value != "" && CleanEnvString(env).value != env.value
    ensures r != env ==> r == CleanEnvString(env)
  {
    if env.Some? && env.value != "" then
      var cleaned := CleanEnvString(env);
      if cleaned.Some? && cleaned.value != "" && cleaned.value != env.value then cleaned else env
    else env
  }

  /** `q + s + q` for a quote `q`. */
  function Quote(s: string, q: char): (r: string)
    requires IsQuote(q)
    ensures |r| == |s| + 2 && QuotedBy(r, q)
  {
    [q] + s + [q]
  }

  /**
   * Exactly one layer comes off: a quoted value, whatever it contains
   * (including quotes of its own), cleans back to its contents.
   */
  lemma CleanUnquotesOnce(s: string, q: char)
    requires IsQuote(q)
    ensures CleanEnvString(Some(Quote(s, q))) == Some(s)
  {
    var t := Quote(s, q);
    TrimIdentity(t);
    assert Inner(t) == s;
  }

  /** A doubly quoted value keeps its inner quotes. */
  lemma DoubleQuotesLoseOneLayer(s: string)
    ensures CleanEnvString(Some(Quote(Quote(s, '\''), '"'))) == Some(Quote(s, '\''))
  {
    CleanUnquotesOnce(Quote(s, '\''), '"');
  }

  /** One space of padding on each side is trimmed away. */
  lemma PaddedTrim(t: string)
    requires |t| >= 1 && !IsWhitespace(t[0]) && !IsWhitespace(t[|t| - 1])
    ensures Trim(" " + t + " ") == t
  {
    var p := " " + t + " ";
    assert p[1..] == t + " ";
    assert TrimStart(p) == t + " ";
    assert (t + " ")[..|t|] == t;
    assert TrimEnd(t + " ") == t;
  }

  /** A value that is not wrapped in one kind of quote loses only its white space. */
  lemma MismatchedQuotesKept(t: string)
    requires |t| >= 1 && !IsWhitespace(t[0]) && !IsWhitespace(t[|t| - 1])
    requires !QuotedBy(t, '"') && !QuotedBy(t, '\'')
    ensures CleanEnvString(Some(" " + t + " ")) == Some(t)
  {
    PaddedTrim(t);
  }

  /** A lone quote both starts and ends the trimmed value, so it cleans to "". */
  lemma LoneQuoteCleansToEmpty(t: string)
    requires |t| == 1 && IsQuote(t[0])
    ensures CleanEnvString(Some(t)) == Some("")
  {
    TrimIdentity(t);
    CleanQuoted(t, t[0]);
  }

  /** A trimmed value wrapped in one kind of quote cleans to its inside. */
  lemma CleanQuoted(t: string, q: char)
    requires QuotedBy(t, q) && Trim(t) == t
    ensures CleanEnvString(Some(t)) == Some(Inner(t))
  {
    if q == '"' {
      assert QuotedBy(Trim(t), '"');
    } else {
      assert QuotedBy(Trim(t), '\'');
    }
  }

  /** `""` in quotes cleans to the empty string, which is falsy: the quoted value stays. */
  lemma EmptyQuotesKept()
    ensures CleanDatabaseUrl(Some("\"\"")) == Some("\"\"")
  {
    CleanUnquotesOnce("", '"');
    assert Quote("", '"') == "\"\"";
  }

  /** A quoted URL is replaced by its contents. */
  lemma QuotedUrlUnquoted(url: string, q: char)
    requires IsQuote(q) && url != ""
    ensures CleanDatabaseUrl(Some(Quote(url, q))) == Some(url)
  {
    CleanUnquotesOnce(url, q);
  }
}
