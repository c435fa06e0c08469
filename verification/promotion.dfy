/**
 * The promotion dialog of `src/components/modals/PromotionModal.tsx`: a
 * larva either summons one of four pieces on its square or infests three
 * empty squares of the player's back rank. The dialog state is a value and
 * every handler a function from state to state.
 */
module Promotion {
  import opened Wrappers
  import opened MatchSetup

  datatype Side = White | Black

  /** The back rank a side infests: row 0 for white, row 7 otherwise (no colour included). */
  function InfestRowY(myColor: Option<Side>): (y: int)
    ensures y == 0 <==> myColor == Some(White)
    ensures y == 0 || y == 7
  {
    if myColor == Some(White) then 0 else 7
  }

  /** `board[y]?.[x] == null`: a missing row or column reads as empty too. */
  predicate EmptyAt(b: Board, y: int, x: int) {
    !(0 <= y < |b|) || !(0 <= x < |b[y]|) || b[y][x].None?
  }

  /** The empty columns among `x, …, 7`, ascending. */
  function EmptyColsFrom(b: Board, y: int, x: nat): (res: seq<int>)
    requires x <= Size
    ensures forall i :: 0 <= i < |res| ==> x <= res[i] < Size && EmptyAt(b, y, res[i])
    ensures forall c :: x <= c < Size && EmptyAt(b, y, c) ==> c in res
    ensures forall i, j :: 0 <= i < j < |res| ==> res[i] < res[j]
    decreases Size - x
  {
    if x == Size then []
    else
      var rest := EmptyColsFrom(b, y, x + 1);
      if EmptyAt(b, y, x) then [x] + rest else rest
  }

  /** `emptyColsOnStartRow`: the empty columns of the back rank in ascending order; none without a board. */
  function EmptyColsOnStartRow(board: Option<Board>, y: int): (res: seq<int>)
    ensures board.None? ==> res == []
    ensures board.Some? ==> forall c :: c in res <==> 0 <= c < Size && EmptyAt(board.value, y, c)
    ensures forall i, j :: 0 <= i < j < |res| ==> res[i] < res[j]
  {
    if board.None? then [] else EmptyColsFrom(board.value, y, 0)
  }

  /** Infesting needs at least three empty squares on the back rank. */
  predicate CanInfest(board: Option<Board>, y: int) {
    |EmptyColsOnStartRow(board, y)| >= 3
  }

  /** Three empty back-rank squares, in column order. */
  predicate ThreeEmpty(b: Board, y: int, c1: int, c2: int, c3: int) {
    0 <= c1 < c2 < c3 < Size && EmptyAt(b, y, c1) && EmptyAt(b, y, c2) && EmptyAt(b, y, c3)
  }

  /** Infesting is offered when three different back-rank squares are empty ... */
  lemma ThreeEmptyAllowInfest(b: Board, y: int, c1: int, c2: int, c3: int)
    requires ThreeEmpty(b, y, c1, c2, c3)
    ensures CanInfest(Some(b), y)
  {
    var res := EmptyColsOnStartRow(Some(b), y);
    assert c1 in res && c2 in res && c3 in res;
    ThreeMembers(res, c1, c2, c3);
  }

  lemma ThreeMembers(res: seq<int>, c1: int, c2: int, c3: int)
    requires c1 < c2 < c3 && c1 in res && c2 in res && c3 in res
    ensures |res| >= 3
  {
  }

  /** ... and only then: the first three empty columns witness it. */
  lemma InfestNeedsThreeEmpty(b: Board, y: int)
    requires CanInfest(Some(b), y)
    ensures var res := EmptyColsOnStartRow(Some(b), y);
            ThreeEmpty(b, y, res[0], res[1], res[2])
  {
    var res := EmptyColsOnStartRow(Some(b), y);
    assert res[0] in res && res[1] in res && res[2] in res;
  }

  datatype Pos = Pos(x: int, y: int)

  /** The dialog's `choice`: a piece to summon and the squares picked for infesting, each possibly unset. */
  datatype Choice = Choice(pieceType: Option<string>, positions: Option<seq<Pos>>)

  /** `choice.positions ?? []` */
  function Picked(c: Choice): (ps: seq<Pos>)
    ensures c.positions.None? ==> ps == []
  {
    c.positions.GetOr([])
  }

  const MaxInfest: nat := 3

  /**
   * `toggleInfestCol(x)`: a picked square is unpicked; an unpicked one is
   * added at the end unless three are already picked.
   */
  function ToggleInfestCol(c: Choice, y: int, x: int): (r: Choice)
    ensures r.pieceType == c.pieceType
    ensures Pos(x, y) in Picked(c) ==> Picked(r) == Filter(Picked(c), Pos(x, y))
    ensures Pos(x, y) !in Picked(c) && |Picked(c)| >= MaxInfest ==> r == c
    ensures Pos(x, y) !in Picked(c) && |Picked(c)| < MaxInfest ==> Picked(r) == Picked(c) + [Pos(x, y)]
  {
    var cur := Picked(c);
    if Pos(x, y) in cur then c.(positions := Some(Filter(cur, Pos(x, y))))
    else if |cur| >= MaxInfest then c
    else c.(positions := Some(cur + [Pos(x, y)]))
  }

  /** `cur.filter(p => !(p.x === x && p.y === y))`: every copy of `p` goes, the rest keep their order. */
  function Filter(ps: seq<Pos>, p: Pos): (r: seq<Pos>)
    ensures p !in r
    ensures forall q :: q in r <==> q in ps && q != p
    ensures |r| <= |ps|
    ensures p !in ps ==> r == ps
  {
    if |ps| == 0 then []
    else if ps[0] == p then Filter(ps[1..], p)
    else [ps[0]] + Filter(ps[1..], p)
  }

  /** The selection invariant: at most three squares, all on the back rank. */
  predicate WellPicked(c: Choice, y: int) {
    |Picked(c)| <= MaxInfest && forall q :: q in Picked(c) ==> q.y == y
  }

  /** Toggling keeps the invariant, whatever the column. */
  lemma ToggleKeepsWellPicked(c: Choice, y: int, x: int)
    requires WellPicked(c, y)
    ensures WellPicked(ToggleInfestCol(c, y, x), y)
  {
  }

  /** Toggling an unpicked square twice, below the cap, gives the selection back. */
  lemma ToggleTwiceRestores(c: Choice, y: int, x: int)
    requires Pos(x, y) !in Picked(c) && |Picked(c)| < MaxInfest
    ensures Picked(ToggleInfestCol(ToggleInfestCol(c, y, x), y, x)) == Picked(c)
  {
    FilterAppend(Picked(c), Pos(x, y));
  }

  lemma {:induction false} FilterAppend(ps: seq<Pos>, p: Pos)
    requires p !in ps
    ensures Filter(ps + [p], p) == ps
    decreases |ps|
  {
    if |ps| > 0 {
      assert (ps + [p])[1..] == ps[1..] + [p];
      FilterAppend(ps[1..], p);
    } else {
      assert Filter([p][1..], p) == [];
    }
  }

  /** Picking a summon option starts a fresh choice: any picked squares are dropped. */
  function ChooseSummon(opt: string): (r: Choice)
    ensures r.pieceType == Some(opt) && Picked(r) == []
  {
    Choice(Some(opt), None)
  }

  datatype Mode = Summon | Infest

  /** The mode buttons: the Infest button is disabled while infesting is impossible. */
  function SwitchMode(m: Mode, target: Mode, canInfest: bool): (r: Mode)
    ensures r == Infest ==> canInfest || m == Infest
    ensures target == Summon ==> r == Summon
    ensures target == Infest ==> (r == Infest <==> canInfest || m == Infest)
  {
    if target == Infest && !canInfest then m else target
  }

  /** What `promotion:resolve` carries. */
  datatype Request =
    | SummonRequest(larvaId: int, pieceType: string)
    | InfestRequest(larvaId: int, positions: seq<Pos>)

  /** The first half of `submit`: ignored while a submission runs, refused with a message, or emitted. */
  datatype SubmitStep = Busy | Refused(error: string) | Emit(request: Request)

  /** `!choice.pieceType` */
  predicate HasPieceType(c: Choice) {
    c.pieceType.Some? && c.pieceType.value != ""
  }

  function Submit(submitting: bool, mode: Mode, c: Choice, larvaId: int): (r: SubmitStep)
    ensures submitting <==> r.Busy?
    ensures !submitting && mode == Summon ==>
              (r.Emit? <==> HasPieceType(c))
              && (r.Emit? ==> r.request == SummonRequest(larvaId, c.pieceType.value))
              && (r.Refused? ==> r.error == "Pick a piece type")
    ensures !submitting && mode == Infest ==>
              (r.Emit? <==> |Picked(c)| == MaxInfest)
              && (r.Emit? ==> r.request == InfestRequest(larvaId, Picked(c)))
              && (r.Refused? ==> r.error == "Select three positions")
  {
    if submitting then Busy
    else if mode == Summon then
      if !HasPieceType(c) then Refused("Pick a piece type")
      else Emit(SummonRequest(larvaId, c.pieceType.value))
    else
      if |Picked(c)| != MaxInfest then Refused("Select three positions")
      else Emit(InfestRequest(larvaId, Picked(c)))
  }

  /** The Confirm button's `disabled` expression. */
  predicate ConfirmDisabled(submitting: bool, mode: Mode, c: Choice) {
    submitting || (mode == Infest && |Picked(c)| != MaxInfest) || (mode == Summon && !HasPieceType(c))
  }

  /** The button and the handler agree: Confirm is enabled exactly when submitting would emit. */
  lemma ConfirmMatchesSubmit(submitting: bool, mode: Mode, c: Choice, larvaId: int)
    ensures !ConfirmDisabled(submitting, mode, c) <==> Submit(submitting, mode, c, larvaId).Emit?
  {
  }

  /** The server's acknowledgement, if it carries an object. */
  datatype Ack = Ack(ok: bool, error: Option<string>)

  datatype Settled = Closed | Failed(error: string)

  /** The acknowledgement callback: close on `ok`, else show the server's error or "failed". */
  function Acknowledge(ack: Option<Ack>): (r: Settled)
    ensures r.Closed? <==> ack.Some? && ack.value.ok
    ensures r.Failed? ==> r.error != ""
    ensures r.Failed? && ack.Some? && ack.value.error.Some? && ack.value.error.value != "" ==> r.error == ack.value.error.value
    ensures !(ack.Some? && ack.value.ok) && (ack.None? || ack.value.error.None? || ack.value.error.value == "") ==>
              r == Failed("failed")
  {
    if ack.Some? && ack.value.ok then Closed
    else if ack.Some? && ack.value.error.Some? && ack.value.error.value != "" then Failed(ack.value.error.value)
    else Failed("failed")
  }

  const SummonOptions: seq<string> := ["PHANTOM_MATRIARCH", "SHADOW_HUNTER", "DOPPELGANGER", "PHOBIC_LEAPER"]

  /** `formatPiece(k)`: display names for the four summon keys; anything else as it is. */
  function FormatPiece(k: string): (r: string)
    ensures k !in SummonOptions ==> r == k
  {
    if k == "PHANTOM_MATRIARCH" then "Phantom Matriarch"
    else if k == "SHADOW_HUNTER" then "Shadow Hunter"
    else if k == "DOPPELGANGER" then "Doppelgänger"
    else if k == "PHOBIC_LEAPER" then "Phobic Leaper"
    else k
  }

  /** The four summon keys get four different names, none of them a key itself. */
  lemma FormatPieceNamesDistinct()
    ensures forall i, j :: 0 <= i < j < |SummonOptions| ==> FormatPiece(SummonOptions[i]) != FormatPiece(SummonOptions[j])
    ensures forall i :: 0 <= i < |SummonOptions| ==> FormatPiece(SummonOptions[i]) !in SummonOptions
  {
  }
}
