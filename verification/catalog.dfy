/**
 * Finding a piece's entry in the abilities catalog, `src/components/PieceAbilities.tsx`:
 * the piece's names are tried against a fixed slug table first, then as
 * normalised UPPER_SNAKE keys against the catalog. The catalog is a
 * parameter: the set of its own keys.
 */
module Catalog {
  import opened Wrappers
  import opened Text
  import opened Runs

  // ---------------------------------------------------------------------
  // Slugs and normalised keys
  // ---------------------------------------------------------------------

  /** `s.toLowerCase().replace(/\s+/g, "-")` */
  function Slug(s: string): (r: string)
    ensures |r| <= |s| && (|r| == 0 <==> |s| == 0)
    ensures forall i :: 0 <= i < |r| ==> !IsWhitespace(r[i]) && !IsUpperAscii(r[i])
  {
    var low := Lower(s);
    ReplaceRunsChars(low, IsWhitespace, '-');
    ReplaceRunsStaysIn(low, IsWhitespace, '-', NotUpper);
    ReplaceRuns(low, IsWhitespace, '-')
  }

  predicate NotUpper(c: char) {
    !IsUpperAscii(c)
  }

  /** `\w`: an ASCII letter, a digit or "_". */
  predicate IsWordChar(c: char) {
    IsUpperAscii(c) || IsLowerAscii(c) || IsDigit(c) || c == '_'
  }

  predicate NonWord(c: char) {
    !IsWordChar(c)
  }

  predicate IsUnderscore(c: char) {
    c == '_'
  }

  /** A character `normalizeKey` can produce. */
  predicate IsKeyChar(c: char) {
    IsUpperAscii(c) || IsDigit(c) || c == '_'
  }

  /** The shape of a normalised key: UPPER_SNAKE characters, never two "_" in a row. */
  predicate IsNormalKey(k: string) {
    (forall i :: 0 <= i < |k| ==> IsKeyChar(k[i]))
    && forall i :: 0 <= i < |k| - 1 ==> !(k[i] == '_' && k[i + 1] == '_')
  }

  /** Replacing runs by a character of a class keeps a string inside that class. */
  lemma {:induction false} ReplaceRunsStaysIn(s: string, p: char -> bool, rep: char, q: char -> bool)
    requires q(rep) && forall i :: 0 <= i < |s| ==> q(s[i])
    ensures forall i :: 0 <= i < |ReplaceRuns(s, p, rep)| ==> q(ReplaceRuns(s, p, rep)[i])
    decreases |s|
  {
    if |s| > 0 {
      if p(s[0]) {
        var t := DropRun(s[1..], p);
        assert forall i :: 0 <= i < |t| ==> t[i] == s[|s| - |t| + i];
        ReplaceRunsStaysIn(t, p, rep, q);
      } else {
        ReplaceRunsStaysIn(s[1..], p, rep, q);
      }
    }
  }

  /** `s.replace(/[^\w]+/g, "_").replace(/_+/g, "_").toUpperCase()`: an UPPER_SNAKE key, never two "_" in a row. */
  function NormalizeKey(s: string): (r: string)
    ensures |r| <= |s| && (|r| == 0 <==> |s| == 0)
    ensures IsNormalKey(r)
  {
    var b := ReplaceRuns(ReplaceRuns(s, NonWord, '_'), IsUnderscore, '_');
    CollapsedIsSnake(s);
    UpperKeepsSnake(b);
    Upper(b)
  }

  /** A word-character string with no two "_" in a row. */
  predicate IsSnake(b: string) {
    (forall i :: 0 <= i < |b| ==> IsWordChar(b[i]))
    && forall i :: 0 <= i < |b| - 1 ==> !(b[i] == '_' && b[i + 1] == '_')
  }

  /** Both replacements leave word characters with single "_" separators. */
  lemma CollapsedIsSnake(s: string)
    ensures IsSnake(ReplaceRuns(ReplaceRuns(s, NonWord, '_'), IsUnderscore, '_'))
  {
    var a := ReplaceRuns(s, NonWord, '_');
    ReplaceRunsChars(s, NonWord, '_');
    assert forall i :: 0 <= i < |a| ==> IsWordChar(a[i]);
    var b := ReplaceRuns(a, IsUnderscore, '_');
    ReplaceRunsStaysIn(a, IsUnderscore, '_', IsWordChar);
    ReplaceRunsNoAdjacent(a, IsUnderscore, '_');
    forall i | 0 <= i < |b| - 1 ensures !(b[i] == '_' && b[i + 1] == '_') {
      var u: char -> bool := IsUnderscore;
      assert !(u(b[i]) && u(b[i + 1]));
    }
  }

  /** Upper-casing turns such a string into a normalised key. */
  lemma UpperKeepsSnake(b: string)
    requires IsSnake(b)
    ensures IsNormalKey(Upper(b))
  {
    var r := Upper(b);
    forall i | 0 <= i < |r| ensures IsKeyChar(r[i]) && (r[i] == '_' <==> b[i] == '_') {
      assert r[i] == UpperChar(b[i]);
    }
  }

  /** Normalising a normalised key changes nothing. */
  lemma NormalizeKeyIdempotent(s: string)
    ensures NormalizeKey(NormalizeKey(s)) == NormalizeKey(s)
  {
    var k := NormalizeKey(s);
    ReplaceRunsFixed(k, NonWord, '_');
    ReplaceRunsFixed(k, IsUnderscore, '_');
    assert Upper(k) == k;
  }

  // ---------------------------------------------------------------------
  // The slug table
  // ---------------------------------------------------------------------

  /** `SLUG_TO_KEY`, its own properties. */
  const SlugToKey: map<string, string> := map[
    "sleepless-eye" := "SLEEPLESS_EYE",
    "phantom-matriarch" := "PHANTOM_MATRIARCH",
    "shadow-hunter" := "SHADOW_HUNTER",
    "doppelganger" := "DOPPELGANGER",
    "phobic-leaper" := "PHOBIC_LEAPER",
    "psychic-larva" := "PSYCHIC_LARVA",
    "doppelgänger" := "DOPPELGANGER"
  ]

  /**
   * The properties every plain object inherits from `Object.prototype`. Each
   * holds a function, except `__proto__`, which holds the prototype object;
   * all are truthy.
   */
  const ObjectPrototypeMembers: set<string> := {
    "constructor", "__proto__", "hasOwnProperty", "isPrototypeOf", "propertyIsEnumerable",
    "toLocaleString", "toString", "valueOf",
    "__defineGetter__", "__defineSetter__", "__lookupGetter__", "__lookupSetter__"
  }

  /** `table[x]` for one spelling, own properties only. */
  function SlugEntry(table: map<string, string>, x: string): (r: Option<string>)
    ensures r.Some? <==> x in table
    ensures r.Some? ==> r.value == table[x]
  {
    if x in table then Some(table[x]) else None
  }

  /** `table[s.toLowerCase()] || table[slug(s)]`, with the table's own properties only. */
  function SlugHit(table: map<string, string>, s: string): (r: Option<string>)
    ensures r.Some? <==> Lower(s) in table || Slug(s) in table
    ensures r.Some? ==> r.value == (if Lower(s) in table then table[Lower(s)] else table[Slug(s)])
  {
    if SlugEntry(table, Lower(s)).Some? then SlugEntry(table, Lower(s)) else SlugEntry(table, Slug(s))
  }

  // ---------------------------------------------------------------------
  // Resolution
  // ---------------------------------------------------------------------

  /** The name fields of a `PieceLike`; an absent one is `None`. */
  datatype PieceLike = PieceLike(slug: Option<string>, kind: Option<string>, pieceType: Option<string>,
                                 code: Option<string>, name: Option<string>)

  /** A field that passes `filter(Boolean)`. */
  predicate Truthy(f: Option<string>) {
    f.Some? && f.value != ""
  }

  function Keep(f: Option<string>): (r: seq<string>)
    ensures Truthy(f) ==> r == [f.value]
    ensures !Truthy(f) ==> r == []
  {
    if Truthy(f) then [f.value] else []
  }

  /** `[slug, kind, type, code, name].filter(Boolean)` */
  function Candidates(p: PieceLike): (cs: seq<string>)
    ensures forall i :: 0 <= i < |cs| ==> cs[i] != ""
    ensures forall x :: x in cs <==> x != "" && Some(x) in [p.slug, p.kind, p.pieceType, p.code, p.name]
    ensures Truthy(p.slug) ==> |cs| > 0 && cs[0] == p.slug.value
  {
    Keep(p.slug) + Keep(p.kind) + Keep(p.pieceType) + Keep(p.code) + Keep(p.name)
  }

  /** `i` is the first candidate `f` answers for. */
  predicate FirstAnswered<T>(cs: seq<string>, f: string -> Option<T>, i: int) {
    0 <= i < |cs| && f(cs[i]).Some? && forall j :: 0 <= j < i ==> f(cs[j]).None?
  }

  /** `for (const s of candStrs) { const key = f(s); if (key) return key; }` */
  function FirstSome<T>(cs: seq<string>, f: string -> Option<T>): (r: Option<T>)
    ensures r.None? <==> forall i :: 0 <= i < |cs| ==> f(cs[i]).None?
    ensures r.Some? ==> exists i :: FirstAnswered(cs, f, i) && r == f(cs[i])
    ensures forall i :: FirstAnswered(cs, f, i) ==> r == f(cs[i])
    decreases |cs|
  {
    if |cs| == 0 then None
    else if f(cs[0]).Some? then
      assert FirstAnswered(cs, f, 0);
      f(cs[0])
    else
      var r := FirstSome(cs[1..], f);
      assert forall i :: FirstAnswered(cs, f, i) ==> i > 0 && FirstAnswered(cs[1..], f, i - 1);
      assert forall i :: FirstAnswered(cs[1..], f, i) ==> FirstAnswered(cs, f, i + 1);
      r
  }

  /** The normalised key of a candidate, when the catalog holds it. */
  function CatalogHit(s: string, catalog: set<string>): (r: Option<string>)
    ensures r.Some? <==> NormalizeKey(s) in catalog
    ensures r.Some? ==> r.value == NormalizeKey(s)
  {
    var k := NormalizeKey(s);
    if k in catalog then Some(k) else None
  }

  /**
   * `resolveCatalogKey(piece)` as its authors meant it: the slug table is
   * asked about every candidate before any normalised key is tried, and a
   * normalised key is returned only when the catalog has it.
   */
  function ResolveCatalogKey(table: map<string, string>, piece: Option<PieceLike>, catalog: set<string>): (r: Option<string>)
    ensures piece.None? ==> r.None?
    ensures piece.Some? ==>
              var cs := Candidates(piece.value);
              var slugs := FirstSome(cs, s => SlugHit(table, s));
              var keys := FirstSome(cs, s => CatalogHit(s, catalog));
              r == if slugs.Some? then slugs else keys
    ensures r.Some? ==> r.value in table.Values || r.value in catalog
  {
    if piece.None? then None
    else
      var cs := Candidates(piece.value);
      var slugs := FirstSome(cs, s => SlugHit(table, s));
      if slugs.Some? then slugs else FirstSome(cs, s => CatalogHit(s, catalog))
  }

  /** No normalised key is the name of an inherited member, so `key in catalog` sees own keys only. */
  lemma NormalizedKeysNotInherited(s: string)
    ensures NormalizeKey(s) !in ObjectPrototypeMembers
  {
    PrototypeMembersShape();
    NotKeyShaped(NormalizeKey(s));
  }

  /** An inherited member name starts with a lower-case letter or with "__". */
  predicate MemberShaped(m: string) {
    |m| >= 2 && (IsLowerAscii(m[0]) || (m[0] == '_' && m[1] == '_'))
  }

  lemma PrototypeMembersShape()
    ensures forall m :: m in ObjectPrototypeMembers ==> MemberShaped(m)
  {
  }

  lemma NotKeyShaped(k: string)
    requires IsNormalKey(k)
    ensures !MemberShaped(k)
  {
    if |k| >= 2 {
      assert IsKeyChar(k[0]);
    }
  }

  /** A piece whose slug field, lower-cased, is in the table gets that entry, whatever the catalog holds. */
  lemma SlugFieldWins(table: map<string, string>, p: PieceLike, catalog: set<string>)
    requires Truthy(p.slug) && Lower(p.slug.value) in table
    ensures ResolveCatalogKey(table, Some(p), catalog) == Some(table[Lower(p.slug.value)])
  {
    var cs := Candidates(p);
    assert FirstAnswered(cs, s => SlugHit(table, s), 0);
  }

  // ---------------------------------------------------------------------
  // The lookup as written
  // ---------------------------------------------------------------------

  /** What `SLUG_TO_KEY[x]` reads: an own key, or a member every object inherits. */
  datatype Hit = OwnKey(key: string) | Inherited(member: string)

  /** `table[x]` with the prototype chain: the `inherited` member names read as truthy too. */
  function SlugEntryAsWritten(table: map<string, string>, inherited: set<string>, x: string): (r: Option<Hit>)
    ensures x in table ==> r == Some(OwnKey(table[x]))
    ensures x !in table ==> (r.Some? <==> x in inherited) && (r.Some? ==> r == Some(Inherited(x)))
  {
    if x in table then Some(OwnKey(table[x]))
    else if x in inherited then Some(Inherited(x))
    else None
  }

  /** `table[s.toLowerCase()] || table[slug(s)]` with the prototype chain. */
  function SlugHitAsWritten(table: map<string, string>, inherited: set<string>, s: string): (r: Option<Hit>)
    ensures r.Some? && r.value.OwnKey? ==> SlugHit(table, s) == Some(r.value.key)
    ensures r.Some? && r.value.Inherited? ==> r.value.member in inherited && r.value.member !in table
    ensures Lower(s) !in inherited && Slug(s) !in inherited ==>
              (r.Some? <==> SlugHit(table, s).Some?) && (r.Some? ==> r.value.OwnKey?)
  {
    var lower := SlugEntryAsWritten(table, inherited, Lower(s));
    if lower.Some? then lower else SlugEntryAsWritten(table, inherited, Slug(s))
  }

  /** `resolveCatalogKey(piece)` as the source has it. */
  function ResolveCatalogKeyAsWritten(table: map<string, string>, inherited: set<string>,
                                      piece: Option<PieceLike>, catalog: set<string>): (r: Option<Hit>)
    ensures piece.None? ==> r.None?
    ensures r.Some? && r.value.Inherited? ==> r.value.member in inherited && r.value.member !in table
  {
    if piece.None? then None
    else
      var cs := Candidates(piece.value);
      match FirstSome(cs, s => SlugHitAsWritten(table, inherited, s))
      case Some(h) => Some(h)
      case None => match FirstSome(cs, s => CatalogHit(s, catalog))
        case Some(k) => Some(OwnKey(k))
        case None => None
  }

  /** An own key as a hit. */
  function Own(k: Option<string>): (r: Option<Hit>)
    ensures r.None? <==> k.None?
    ensures r.Some? ==> r.value == OwnKey(k.value)
  {
    match k
    case Some(key) => Some(OwnKey(key))
    case None => None
  }

  lemma {:induction false} FirstSlugHitOwn(table: map<string, string>, cs: seq<string>)
    ensures FirstSome(cs, s => SlugHitAsWritten(table, {}, s)) == Own(FirstSome(cs, s => SlugHit(table, s)))
    decreases |cs|
  {
    if |cs| > 0 {
      FirstSlugHitOwn(table, cs[1..]);
    }
  }

  /** Without inherited members the lookup as written is the intended one: the prototype is all that differs. */
  lemma AsWrittenWithoutInheritance(table: map<string, string>, piece: Option<PieceLike>, catalog: set<string>)
    ensures ResolveCatalogKeyAsWritten(table, {}, piece, catalog) == Own(ResolveCatalogKey(table, piece, catalog))
  {
    if piece.Some? {
      FirstSlugHitOwn(table, Candidates(piece.value));
    }
  }

  /** A piece named "Constructor" and nothing else. */
  const ConstructorPiece: PieceLike := PieceLike(None, None, None, None, Some("Constructor"))

  lemma ConstructorSpellings()
    ensures Lower("Constructor") == "constructor"
    ensures Slug("Constructor") == "constructor"
  {
    assert Lower("Constructor") == "constructor";
    ReplaceRunsFixed("constructor", IsWhitespace, '-');
  }

  lemma ConstructorNotASlug()
    ensures "constructor" !in SlugToKey && "constructor" in ObjectPrototypeMembers
  {
  }

  /**
   * The lookup as written hands back `Object` itself for a piece named
   * "Constructor", where the intended lookup finds no slug and falls through
   * to the catalog.
   */
  lemma ConstructorResolvesToInherited(catalog: set<string>)
    ensures ResolveCatalogKeyAsWritten(SlugToKey, ObjectPrototypeMembers, Some(ConstructorPiece), catalog)
              == Some(Inherited("constructor"))
    ensures ResolveCatalogKey(SlugToKey, Some(ConstructorPiece), catalog) == CatalogHit("Constructor", catalog)
  {
    var cs := Candidates(ConstructorPiece);
    assert cs == ["Constructor"];
    ConstructorSpellings();
    ConstructorNotASlug();
    assert SlugHitAsWritten(SlugToKey, ObjectPrototypeMembers, "Constructor") == Some(Inherited("constructor"));
    assert SlugHit(SlugToKey, "Constructor").None?;
    assert cs[1..] == [];
  }
}
