/**
 * `src/lib/match/setup.ts`: turning the stored `match_piece` rows of a game
 * into the 8×8 board the client draws, and installing it with the game id.
 */
module MatchSetup {
  import opened Wrappers

  /** A `match_piece` row. `status` is a JSON value the board carries unread; its text stands for it. */
  datatype PieceRow = PieceRow(id: int, status: string, matchId: int, playerId: Option<int>, kind: string,
                               posX: Option<int>, posY: Option<int>, usedAbility: Option<int>, captured: Option<int>)

  /** A `BoardCell`: the fields of a row the board keeps. */
  datatype Cell = Cell(id: int, kind: string, playerId: Option<int>, usedAbility: Option<int>, captured: Option<int>, status: string)

  /** Rows of squares, `board[y][x]`. */
  type Board = seq<seq<Option<Cell>>>

  const Size: nat := 8

  predicate OnBoard(i: int) {
    0 <= i < Size
  }

  predicate IsSquare(b: Board) {
    |b| == Size && forall y :: 0 <= y < |b| ==> |b[y]| == Size
  }

  /** The cell a row becomes. */
  function CellOf(p: PieceRow): (c: Cell)
    ensures c.id == p.id && c.kind == p.kind && c.playerId == p.playerId
    ensures c.usedAbility == p.usedAbility && c.captured == p.captured && c.status == p.status
  {
    Cell(p.id, p.kind, p.playerId, p.usedAbility, p.captured, p.status)
  }

  /** A row with both coordinates is written to the board; one with a null coordinate is skipped. */
  predicate Placed(p: PieceRow) {
    p.posX.Some? && p.posY.Some?
  }

  /** A placed row at square (x, y). */
  predicate At(p: PieceRow, x: int, y: int) {
    Placed(p) && p.posX.value == x && p.posY.value == y
  }

  /** `Array(8).fill(null).map(() => Array(8).fill(null))` */
  function EmptyBoard(): (b: Board)
    ensures IsSquare(b)
    ensures forall y, x :: 0 <= y < Size && 0 <= x < Size ==> b[y][x].None?
  {
    seq(Size, _ => seq(Size, _ => None))
  }

  /** The index of the last row placed at (x, y), if any: the reference for what a square shows. */
  function LastAt(ps: seq<PieceRow>, x: int, y: int): (r: Option<nat>)
    ensures r.Some? ==> r.value < |ps| && At(ps[r.value], x, y)
                        && forall j :: r.value < j < |ps| ==> !At(ps[j], x, y)
    ensures r.None? ==> forall j :: 0 <= j < |ps| ==> !At(ps[j], x, y)
    decreases |ps|
  {
    if |ps| == 0 then None
    else if At(ps[|ps| - 1], x, y) then Some(|ps| - 1)
    else LastAt(ps[..|ps| - 1], x, y)
  }

  /**
   * Writing one cell into `board[y][x]`. A row index off the board reads
   * `undefined` and the write throws; an off-board column lands outside the
   * eight squares of the row and leaves them as they were.
   */
  function Put(b: Board, x: int, y: int, c: Cell): (r: Option<Board>)
    requires IsSquare(b)
    ensures r.Some? <==> OnBoard(y)
    ensures r.Some? ==> IsSquare(r.value)
    ensures r.Some? ==> forall i, j :: 0 <= i < Size && 0 <= j < Size ==>
                          r.value[i][j] == (if i == y && j == x then Some(c) else b[i][j])
  {
    if !OnBoard(y) then None
    else if !OnBoard(x) then Some(b)
    else Some(b[y := b[y][x := Some(c)]])
  }

  /** `gameState.forEach(...)`: every placed row in order; `None` when a write throws. */
  function ConvertGameStateToBoard(ps: seq<PieceRow>): (r: Option<Board>)
    ensures r.Some? <==> forall j :: 0 <= j < |ps| && Placed(ps[j]) ==> OnBoard(ps[j].posY.value)
    ensures r.Some? ==> IsSquare(r.value)
    ensures r.Some? ==> forall y, x :: 0 <= y < Size && 0 <= x < Size ==>
                          r.value[y][x] == (match LastAt(ps, x, y)
                                            case Some(i) => Some(CellOf(ps[i]))
                                            case None => None)
    decreases |ps|
  {
    if |ps| == 0 then Some(EmptyBoard())
    else
      var front := ps[..|ps| - 1];
      var p := ps[|ps| - 1];
      assert forall j :: 0 <= j < |front| ==> front[j] == ps[j];
      match ConvertGameStateToBoard(front)
      case None => None
      case Some(b) =>
        if Placed(p) then Put(b, p.posX.value, p.posY.value, CellOf(p)) else Some(b)
  }

  /** A row appended on an occupied square replaces what was there; every other square keeps its cell. */
  lemma LaterPieceOverwrites(ps: seq<PieceRow>, p: PieceRow, x: int, y: int)
    requires ConvertGameStateToBoard(ps).Some? && At(p, x, y) && OnBoard(x) && OnBoard(y)
    ensures ConvertGameStateToBoard(ps + [p]).Some?
    ensures var b := ConvertGameStateToBoard(ps).value;
            var b' := ConvertGameStateToBoard(ps + [p]).value;
            b'[y][x] == Some(CellOf(p))
            && forall i, j :: 0 <= i < Size && 0 <= j < Size && (i, j) != (y, x) ==> b'[i][j] == b[i][j]
  {
    assert (ps + [p])[..|ps|] == ps;
  }

  /** A row with a null coordinate leaves the board as it was. */
  lemma UnplacedRowIgnored(ps: seq<PieceRow>, p: PieceRow)
    requires !Placed(p)
    ensures ConvertGameStateToBoard(ps + [p]) == ConvertGameStateToBoard(ps)
  {
    assert (ps + [p])[..|ps|] == ps;
  }

  /** The `GameState` a hydration hands over: `null` when there is none, and its piece list (checked at run time). */
  datatype Game = Game(id: int, pieces: Option<seq<PieceRow>>)

  /** The calls `setupMatch` makes on the client state. */
  datatype Effect = SetBoard(board: Board) | SetGameId(gameId: int)

  /**
   * `setupMatch`: a missing game or piece list throws before any call; so
   * does a failed conversion. The error is logged and swallowed, so the
   * client state is left as it was.
   */
  function SetupMatch(game: Option<Game>): (effects: seq<Effect>)
    ensures effects == [] || |effects| == 2
    ensures effects != [] <==> game.Some? && game.value.pieces.Some? && ConvertGameStateToBoard(game.value.pieces.value).Some?
    ensures effects != [] ==> effects[0] == SetBoard(ConvertGameStateToBoard(game.value.pieces.value).value)
                              && effects[1] == SetGameId(game.value.id)
  {
    if game.None? || game.value.pieces.None? then []
    else match ConvertGameStateToBoard(game.value.pieces.value)
      case None => []
      case Some(b) => [SetBoard(b), SetGameId(game.value.id)]
  }
}
