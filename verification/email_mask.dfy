/**
 * `renderMaskedEmail` of `src/components/global/UserInfo.tsx`, read as the
 * string the two rendered spans spell out: a short visible prefix of the
 * local part, stars for the rest, and the domain starred behind the "@".
 */
module EmailMask {
  import opened Text

  /** How many leading characters of a part of length `n` stay readable. */
  function VisibleCount(n: nat): (k: nat)
    ensures 1 <= k <= 3
    ensures k == 3 <==> n > 7
    ensures k == 1 <==> n <= 5
  {
    if n > 7 then 3 else if n > 5 then 2 else 1
  }

  /** The length of `s.slice(0, Math.min(visibleCount, Math.max(1, n)))`: slicing past the end stops at it. */
  function VisibleLength(n: nat): (v: nat)
    ensures v <= n
    ensures n > 0 ==> v >= 1
    ensures v == (if VisibleCount(n) < n then VisibleCount(n) else n)
  {
    var m := if VisibleCount(n) < (if n > 1 then n else 1) then VisibleCount(n) else (if n > 1 then n else 1);
    if m < n then m else n
  }

  /** Visible prefix, then one star per remaining character. */
  function MaskPart(s: string): (r: string)
    ensures |r| == |s|
    ensures r[..VisibleLength(|s|)] == s[..VisibleLength(|s|)]
    ensures forall j :: VisibleLength(|s|) <= j < |s| ==> r[j] == '*'
  {
    var vis := s[..VisibleLength(|s|)];
    vis + Repeat('*', |s| - |vis|)
  }

  /** The characters of `renderMaskedEmail(e)`, in reading order. */
  function MaskEmail(e: string): (r: string)
    ensures |r| == |e|
    ensures '@' in e ==> r[IndexOf(e, '@')] == '@'
    ensures forall j :: 0 <= j < |r| && r[j] != '*' ==> r[j] == e[j]
  {
    var at := IndexOf(e, '@');
    if at == -1 then MaskPart(e)
    else MaskPart(e[..at]) + "@" + Repeat('*', |e| - at - 1)
  }

  /** The length of the local part: everything before the first "@", or the whole string. */
  function LocalLength(e: string): (n: nat)
    ensures n <= |e|
    ensures '@' !in e[..n]
    ensures n < |e| <==> '@' in e
    ensures n < |e| ==> e[n] == '@'
  {
    var at := IndexOf(e, '@');
    if at == -1 then |e| else at
  }

  /**
   * What the mask shows, character by character: the visible prefix of the
   * local part as it is, the first "@" as it is, and a star everywhere else.
   */
  lemma MaskShape(e: string)
    ensures |MaskEmail(e)| == |e|
    ensures forall j :: 0 <= j < |e| ==>
              MaskEmail(e)[j] ==
                (if j < VisibleLength(LocalLength(e)) then e[j]
                 else if j == LocalLength(e) then '@'
                 else '*')
  {
    var n := LocalLength(e);
    var at := IndexOf(e, '@');
    var r := MaskEmail(e);
    if at == -1 {
      assert r == MaskPart(e);
    } else {
      var p := MaskPart(e[..at]);
      var stars := Repeat('*', |e| - at - 1);
      assert r == p + "@" + stars;
      forall j | 0 <= j < |e|
        ensures r[j] == (if j < VisibleLength(n) then e[j] else if j == n then '@' else '*')
      {
        if j < at {
          assert r[j] == p[j];
        } else if j == at {
          assert r[j] == "@"[0];
        } else {
          assert r[j] == stars[j - at - 1];
        }
      }
    }
  }

  /** An empty address masks to the empty string. */
  lemma EmptyMasksToEmpty()
    ensures MaskEmail("") == ""
  {
    MaskShape("");
  }

  /**
   * Nothing else leaks: two addresses of the same length, with the "@" at
   * the same place and the same visible prefix, mask to the same string.
   */
  lemma MaskRevealsOnlyPrefix(e: string, f: string)
    requires |e| == |f| && LocalLength(e) == LocalLength(f)
    requires e[..VisibleLength(LocalLength(e))] == f[..VisibleLength(LocalLength(f))]
    ensures MaskEmail(e) == MaskEmail(f)
  {
    MaskShape(e);
    MaskShape(f);
    var v := VisibleLength(LocalLength(e));
    forall j | 0 <= j < |e| ensures MaskEmail(e)[j] == MaskEmail(f)[j] {
      if j < v {
        assert e[j] == e[..v][j] && f[j] == f[..v][j];
      }
    }
  }

  /** Masking a masked address changes nothing. */
  lemma MaskIdempotent(e: string)
    ensures MaskEmail(MaskEmail(e)) == MaskEmail(e)
  {
    var r := MaskEmail(e);
    MaskShape(e);
    var n := LocalLength(e);
    var v := VisibleLength(n);
    // The masked local part still has no "@", and the "@" stays where it was.
    assert forall j :: 0 <= j < n ==> r[j] != '@' by {
      forall j | 0 <= j < n ensures r[j] != '@' {
        if j < v {
          assert e[j] == e[..n][j];
        }
      }
    }
    assert n < |e| ==> r[n] == '@';
    assert LocalLength(r) == n;
    MaskShape(r);
  }
}
