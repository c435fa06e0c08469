/**
 * `s.replace(/[class]+/g, c)`: every maximal run of characters of a class
 * replaced by one character. The piece helpers use it three times: white
 * space to "-" for slugs, non-word characters to "_" and repeated "_" to
 * one "_" for catalog keys.
 */
module Runs {

  /** `s` without its leading characters of the class. */
  function DropRun(s: string, p: char -> bool): (r: string)
    ensures |r| <= |s| && r == s[|s| - |r|..]
    ensures |r| > 0 ==> !p(r[0])
    ensures forall i :: 0 <= i < |s| - |r| ==> p(s[i])
    decreases |s|
  {
    if |s| > 0 && p(s[0]) then DropRun(s[1..], p) else s
  }

  function ReplaceRuns(s: string, p: char -> bool, rep: char): (r: string)
    ensures |r| <= |s|
    ensures |r| == 0 <==> |s| == 0
    decreases |s|
  {
    if |s| == 0 then ""
    else if p(s[0]) then [rep] + ReplaceRuns(DropRun(s[1..], p), p, rep)
    else [s[0]] + ReplaceRuns(s[1..], p, rep)
  }

  /** Every character of the result is the replacement or a character outside the class. */
  lemma {:induction false} ReplaceRunsChars(s: string, p: char -> bool, rep: char)
    ensures forall i :: 0 <= i < |ReplaceRuns(s, p, rep)| ==> ReplaceRuns(s, p, rep)[i] == rep || !p(ReplaceRuns(s, p, rep)[i])
    decreases |s|
  {
    if |s| > 0 {
      if p(s[0]) {
        ReplaceRunsChars(DropRun(s[1..], p), p, rep);
      } else {
        ReplaceRunsChars(s[1..], p, rep);
      }
    }
  }

  /** The result starts the way the input does: a run of the class becomes the replacement. */
  lemma ReplaceRunsHead(s: string, p: char -> bool, rep: char)
    requires |s| > 0
    ensures |ReplaceRuns(s, p, rep)| > 0
    ensures ReplaceRuns(s, p, rep)[0] == if p(s[0]) then rep else s[0]
  {
  }

  /** No two neighbours of the result are both in the class when the replacement is: runs are gone. */
  lemma {:induction false} ReplaceRunsNoAdjacent(s: string, p: char -> bool, rep: char)
    requires p(rep)
    ensures forall i :: 0 <= i < |ReplaceRuns(s, p, rep)| - 1 ==>
              !(p(ReplaceRuns(s, p, rep)[i]) && p(ReplaceRuns(s, p, rep)[i + 1]))
    decreases |s|
  {
    var r := ReplaceRuns(s, p, rep);
    if |s| > 0 {
      if p(s[0]) {
        var t := DropRun(s[1..], p);
        ReplaceRunsNoAdjacent(t, p, rep);
        if |t| > 0 {
          ReplaceRunsHead(t, p, rep);
        }
        assert r[1..] == ReplaceRuns(t, p, rep);
      } else {
        ReplaceRunsNoAdjacent(s[1..], p, rep);
        assert r[1..] == ReplaceRuns(s[1..], p, rep);
      }
    }
  }

  /** A string whose class members are single replacement characters is left as it is. */
  lemma {:induction false} ReplaceRunsFixed(s: string, p: char -> bool, rep: char)
    requires forall i :: 0 <= i < |s| && p(s[i]) ==> s[i] == rep
    requires forall i :: 0 <= i < |s| - 1 ==> !(p(s[i]) && p(s[i + 1]))
    ensures ReplaceRuns(s, p, rep) == s
    decreases |s|
  {
    if |s| > 0 {
      var t := s[1..];
      FixedTail(s, p, rep);
      ReplaceRunsFixed(t, p, rep);
      if p(s[0]) {
        assert |s| > 1 ==> !p(s[1]);
        assert DropRun(t, p) == t;
      }
      assert s == [s[0]] + t;
    }
  }

  lemma FixedTail(s: string, p: char -> bool, rep: char)
    requires |s| > 0
    requires forall i :: 0 <= i < |s| && p(s[i]) ==> s[i] == rep
    requires forall i :: 0 <= i < |s| - 1 ==> !(p(s[i]) && p(s[i + 1]))
    ensures forall i :: 0 <= i < |s[1..]| && p(s[1..][i]) ==> s[1..][i] == rep
    ensures forall i :: 0 <= i < |s[1..]| - 1 ==> !(p(s[1..][i]) && p(s[1..][i + 1]))
  {
    assert forall i :: 0 <= i < |s[1..]| ==> s[1..][i] == s[i + 1];
  }
}
