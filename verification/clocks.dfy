/**
 * The match clocks of `src/components/Clocks.tsx`: the `m:ss` rendering of
 * a remaining time, the two displayed times between server syncs, and the
 * Dream Energy bar's clamp. Times are whole milliseconds; `now` is a
 * parameter standing for `Date.now()`.
 */
module Clocks {
  import opened Wrappers
  import opened Text
  import opened Decimal

  datatype Color = White | Black

  /** `Math.max(0, Math.floor(ms))`: times are whole here, so only the clamp is left. */
  function Clamp(ms: int): (c: nat)
    ensures c >= ms
    ensures ms >= 0 ==> c == ms
    ensures ms < 0 ==> c == 0
  {
    if ms < 0 then 0 else ms
  }

  /** `s.toString().padStart(2, "0")` for a seconds count below 60. */
  function PadTwo(s: nat): (r: string)
    requires s < 60
    ensures |r| == 2 && AllDigits(r) && DigitsValue(r) == s
  {
    PadTwoValue(s);
    if s < 10 then "0" + NatToString(s) else NatToString(s)
  }

  lemma PadTwoValue(s: nat)
    requires s < 60
    ensures var r := if s < 10 then "0" + NatToString(s) else NatToString(s);
            |r| == 2 && AllDigits(r) && DigitsValue(r) == s
  {
    NatToStringValue(s);
    if s < 10 {
      var r := "0" + NatToString(s);
      assert r[..1] == "0";
    } else {
      assert NatToString(s) == NatToString(s / 10) + [DigitChar(s % 10)];
      assert |NatToString(s / 10)| == 1;
    }
  }

  /**
   * `format(ms)`: the minutes, a colon, and two digits of seconds. Read
   * back, the display is the whole seconds left: minutes times 60 plus the
   * seconds, which stay below 60.
   */
  function Format(ms: int): (r: string)
    ensures |r| >= 4 && r[|r| - 3] == ':'
    ensures Canonical(r[..|r| - 3]) && AllDigits(r[|r| - 2..]) && DigitsValue(r[|r| - 2..]) < 60
    ensures DigitsValue(r[..|r| - 3]) * 60 + DigitsValue(r[|r| - 2..]) == Clamp(ms) / 1000
  {
    FormatValue(Clamp(ms));
    Render(Clamp(ms))
  }

  /** The seconds shown: `Math.floor((c % 60000) / 1000)`. */
  function SecondsOf(c: nat): (s: nat)
    ensures s < 60
  {
    (c % 60000) / 1000
  }

  function Render(c: nat): string {
    NatToString(c / 60000) + ":" + PadTwo(SecondsOf(c))
  }

  lemma FormatValue(c: nat)
    ensures var r := Render(c);
            |r| >= 4 && r[|r| - 3] == ':'
            && Canonical(r[..|r| - 3]) && AllDigits(r[|r| - 2..]) && DigitsValue(r[|r| - 2..]) < 60
            && DigitsValue(r[..|r| - 3]) * 60 + DigitsValue(r[|r| - 2..]) == c / 1000
  {
    var mm := NatToString(c / 60000);
    var ss := PadTwo(SecondsOf(c));
    FormatParts(mm, ss);
    NatToStringValue(c / 60000);
    SecondsSplit(c);
  }

  lemma FormatParts(mm: string, ss: string)
    requires |mm| >= 1 && |ss| == 2
    ensures var r := mm + ":" + ss;
            |r| >= 4 && r[|r| - 3] == ':' && r[..|r| - 3] == mm && r[|r| - 2..] == ss
  {
    var r := mm + ":" + ss;
    assert r[..|r| - 3] == mm && r[|r| - 2..] == ss;
  }

  /** Whole minutes and the seconds left over make up the whole seconds. */
  lemma SecondsSplit(c: nat)
    ensures (c / 60000) * 60 + (c % 60000) / 1000 == c / 1000
  {
    var m := c / 60000;
    var rest := c % 60000;
    assert c == m * 60000 + rest;
    assert c / 1000 == m * 60 + rest / 1000 by {
      assert m * 60000 + rest == (m * 60 + rest / 1000) * 1000 + rest % 1000;
    }
  }

  /** A negative remaining time reads as an expired clock. */
  lemma NegativeRendersZero(ms: int)
    requires ms < 0
    ensures Format(ms) == "0:00"
  {
    var r := Format(ms);
    var mm := r[..|r| - 3];
    CanonicalSpelling(mm);
    assert DigitsValue(mm) == 0;
    assert NatToString(0) == "0";
    assert r == mm + ":" + r[|r| - 2..];
    var ss := r[|r| - 2..];
    assert DigitsValue(ss) == DigitsValue(ss[..1]) * 10 + DigitValue(ss[1]);
    assert ss[..1][..0] == [];
  }

  /** The remaining times on screen, white then black; `None` renders "--:--". */
  datatype Display = Display(white: nat, black: nat)

  /**
   * The displays between two server syncs: with both clocks known, only the
   * side to move loses the time since the sync (or nothing without a sync),
   * and neither shows below zero.
   */
  function Displays(whiteMs: Option<int>, blackMs: Option<int>, turn: Option<Color>, syncedAt: Option<int>, now: int): (r: Option<Display>)
    ensures r.None? <==> whiteMs.None? || blackMs.None?
    ensures r.Some? ==>
              var elapsed := Elapsed(syncedAt, now);
              r.value.white == Clamp(if turn == Some(White) then whiteMs.value - elapsed else whiteMs.value)
              && r.value.black == Clamp(if turn == Some(Black) then blackMs.value - elapsed else blackMs.value)
  {
    if whiteMs.None? || blackMs.None? then None
    else
      var elapsed := Elapsed(syncedAt, now);
      var white := if turn == Some(White) then whiteMs.value - elapsed else whiteMs.value;
      var black := if turn == Some(Black) then blackMs.value - elapsed else blackMs.value;
      Some(Display(Clamp(white), Clamp(black)))
  }

  /** `Math.max(0, now - (clocksSyncedAt ?? now))` */
  function Elapsed(syncedAt: Option<int>, now: int): (e: nat)
    ensures syncedAt.None? ==> e == 0
    ensures syncedAt.Some? && syncedAt.value <= now ==> e == now - syncedAt.value
    ensures syncedAt.Some? && syncedAt.value > now ==> e == 0
  {
    Clamp(now - syncedAt.GetOr(now))
  }

  /**
   * Only the side to move ticks: the other side shows its synced time
   * (floored at zero), and the side to move never shows more than its own.
   */
  lemma OnlySideToMoveTicks(whiteMs: int, blackMs: int, turn: Color, syncedAt: Option<int>, now: int)
    requires whiteMs >= 0 && blackMs >= 0
    ensures var d := Displays(Some(whiteMs), Some(blackMs), Some(turn), syncedAt, now).value;
            (turn == White ==> d.black == blackMs && d.white <= whiteMs)
            && (turn == Black ==> d.white == whiteMs && d.black <= blackMs)
  {
  }

  /** As time passes without a sync, the running clock's display never goes up. */
  lemma DisplayNonIncreasing(whiteMs: int, blackMs: int, turn: Option<Color>, syncedAt: Option<int>, now: int, later: int)
    requires now <= later
    ensures var a := Displays(Some(whiteMs), Some(blackMs), turn, syncedAt, now).value;
            var b := Displays(Some(whiteMs), Some(blackMs), turn, syncedAt, later).value;
            b.white <= a.white && b.black <= a.black
  {
  }

  const MaxDreamEnergy: int := 20

  /** `Math.max(0, Math.min(maxDE, val ?? 0))`: the filled part of the Dream Energy bar. */
  function DreamEnergy(val: Option<int>): (v: int)
    ensures 0 <= v <= MaxDreamEnergy
    ensures val.None? ==> v == 0
    ensures val.Some? && 0 <= val.value <= MaxDreamEnergy ==> v == val.value
    ensures val.Some? && val.value > MaxDreamEnergy ==> v == MaxDreamEnergy
    ensures val.Some? && val.value < 0 ==> v == 0
  {
    var x := val.GetOr(0);
    var lo := if MaxDreamEnergy < x then MaxDreamEnergy else x;
    if 0 < lo then lo else 0
  }

  /** Clamping a clamped level changes nothing. */
  lemma DreamEnergyIdempotent(val: Option<int>)
    ensures DreamEnergy(Some(DreamEnergy(val))) == DreamEnergy(val)
  {
  }
}
