/**
 * The pieces gallery of `src/components/PiecesGallery.tsx`: one item per
 * piece definition, the movement filter's options, the search filter and
 * the piece whose abilities dialog is open. The piece table is a parameter,
 * its entries in `Object.keys` order; images are left out.
 */
module Gallery {
  import opened Wrappers
  import opened Text
  import opened Catalog

  /** A piece definition: its display name and its default movement. */
  datatype PieceDef = PieceDef(name: string, defaultMovement: string)

  datatype Item = Item(key: string, name: string, slug: string, movement: string)

  /** The `items` memo: each definition in order, with its slug. */
  function BuildItems(defs: seq<(string, PieceDef)>): (r: seq<Item>)
    ensures |r| == |defs|
    ensures forall i :: 0 <= i < |r| ==>
              r[i] == Item(defs[i].0, defs[i].1.name, Slug(defs[i].1.name), defs[i].1.defaultMovement)
  {
    seq(|defs|, i requires 0 <= i < |defs| => Item(defs[i].0, defs[i].1.name, Slug(defs[i].1.name), defs[i].1.defaultMovement))
  }

  // ---------------------------------------------------------------------
  // Movement options
  // ---------------------------------------------------------------------

  predicate NoDuplicates(s: seq<string>) {
    forall i, j :: 0 <= i < j < |s| ==> s[i] != s[j]
  }

  /** `Array.from(new Set(s))`: each value once, in order of first appearance. */
  function Distinct(s: seq<string>): (r: seq<string>)
    ensures NoDuplicates(r)
    ensures forall x :: x in r <==> x in s
    ensures |r| <= |s|
    decreases |s|
  {
    if |s| == 0 then []
    else
      var d := Distinct(s[..|s| - 1]);
      assert forall x :: x in s <==> x in s[..|s| - 1] || x == s[|s| - 1];
      if s[|s| - 1] in d then d else d + [s[|s| - 1]]
  }

  /** The values of a prefix come first: `Distinct` of a prefix is a prefix of `Distinct`. */
  lemma {:induction false} DistinctPrefix(s: seq<string>, k: nat)
    requires k <= |s|
    ensures var d := Distinct(s[..k]); |d| <= |Distinct(s)| && d == Distinct(s)[..|d|]
    decreases |s| - k
  {
    if k < |s| {
      DistinctPrefix(s, k + 1);
      assert s[..k + 1][..k] == s[..k];
    } else {
      assert s[..k] == s;
    }
  }

  /** A list without duplicates is its own set. */
  lemma {:induction false} DistinctOfDistinct(s: seq<string>)
    requires NoDuplicates(s)
    ensures Distinct(s) == s
    decreases |s|
  {
    if |s| > 0 {
      var front := s[..|s| - 1];
      assert NoDuplicates(front);
      DistinctOfDistinct(front);
      assert s[|s| - 1] !in front;
      assert front + [s[|s| - 1]] == s;
    }
  }

  /** The `movements` memo: "all", then every item's movement once, in order of first appearance. */
  function Movements(items: seq<Item>): (r: seq<string>)
    ensures |r| > 0 && r[0] == "all"
    ensures forall m :: m in r[1..] <==> exists i :: 0 <= i < |items| && items[i].movement == m
    ensures NoDuplicates(r[1..])
  {
    var ms := MovementList(items);
    MovementListMembers(items);
    assert (["all"] + Distinct(ms))[1..] == Distinct(ms);
    ["all"] + Distinct(ms)
  }

  function MovementList(items: seq<Item>): (ms: seq<string>)
    ensures |ms| == |items| && forall i :: 0 <= i < |items| ==> ms[i] == items[i].movement
  {
    seq(|items|, i requires 0 <= i < |items| => items[i].movement)
  }

  lemma MovementListMembers(items: seq<Item>)
    ensures forall m :: m in MovementList(items) <==> exists i :: 0 <= i < |items| && items[i].movement == m
  {
    var ms := MovementList(items);
    forall m | m in ms ensures exists i :: 0 <= i < |items| && items[i].movement == m {
      var k :| 0 <= k < |ms| && ms[k] == m;
      assert items[k].movement == m;
    }
    assert forall i :: 0 <= i < |items| ==> ms[i] in ms;
  }

  // ---------------------------------------------------------------------
  // Search
  // ---------------------------------------------------------------------

  /** The filter selection for every movement. */
  const AllMovements: string := "all"

  /** One item's test: the trimmed, lower-cased query in its name, slug or key, and the movement chosen. */
  predicate Matches(it: Item, query: string, movement: string) {
    var q := Lower(Trim(query));
    (q == "" || Contains(Lower(it.name), q) || Contains(it.slug, q) || Contains(Lower(it.key), q))
    && (movement == AllMovements || it.movement == movement)
  }

  /** The `filtered` memo. */
  function Filtered(items: seq<Item>, query: string, movement: string): (r: seq<Item>)
    ensures forall it :: it in r <==> it in items && Matches(it, query, movement)
    ensures |r| <= |items|
    decreases |items|
  {
    if |items| == 0 then []
    else
      var rest := Filtered(items[1..], query, movement);
      assert forall it :: it in items <==> it == items[0] || it in items[1..];
      if Matches(items[0], query, movement) then [items[0]] + rest else rest
  }

  /** Filtering works piecewise, so the items shown keep the gallery's order. */
  lemma {:induction false} FilteredAppend(a: seq<Item>, b: seq<Item>, query: string, movement: string)
    ensures Filtered(a + b, query, movement) == Filtered(a, query, movement) + Filtered(b, query, movement)
    decreases |a|
  {
    if |a| > 0 {
      assert (a + b)[1..] == a[1..] + b;
      FilteredAppend(a[1..], b, query, movement);
    } else {
      assert a + b == b;
    }
  }

  /** With a blank query and every movement selected, the whole gallery is shown, in order. */
  lemma {:induction false} BlankQueryShowsAll(items: seq<Item>, query: string)
    requires Trim(query) == ""
    ensures Filtered(items, query, AllMovements) == items
    decreases |items|
  {
    if |items| > 0 {
      BlankQueryShowsAll(items[1..], query);
    }
  }

  /** Filtering twice with the same search shows what filtering once does. */
  lemma {:induction false} FilteredIdempotent(items: seq<Item>, query: string, movement: string)
    ensures Filtered(Filtered(items, query, movement), query, movement) == Filtered(items, query, movement)
    decreases |items|
  {
    if |items| > 0 {
      FilteredIdempotent(items[1..], query, movement);
      var rest := Filtered(items[1..], query, movement);
      if Matches(items[0], query, movement) {
        assert ([items[0]] + rest)[1..] == rest;
      }
    }
  }

  // ---------------------------------------------------------------------
  // The open dialog
  // ---------------------------------------------------------------------

  lemma OpenPieceTail(items: seq<Item>, openKey: Option<string>)
    requires |items| > 0
    ensures forall i :: 1 <= i < |items| ==> items[i] == items[1..][i - 1]
  {
  }

  /** `items.find((i) => i.key === openKey) || null`: no key is open when `openKey` is null. */
  function OpenPiece(items: seq<Item>, openKey: Option<string>): (r: Option<Item>)
    ensures r.Some? <==> openKey.Some? && exists i :: 0 <= i < |items| && items[i].key == openKey.value
    ensures r.Some? ==> r.value in items && r.value.key == openKey.value
    ensures r.Some? ==> exists i :: 0 <= i < |items| && items[i] == r.value
                                    && forall j :: 0 <= j < i ==> items[j].key != openKey.value
    decreases |items|
  {
    if openKey.None? || |items| == 0 then None
    else if items[0].key == openKey.value then Some(items[0])
    else
      OpenPieceTail(items, openKey);
      OpenPiece(items[1..], openKey)
  }
}
