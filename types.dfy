/** The value types of the draughts engine: players, pieces, the 8x8 board,
    positions, moves and the game-state snapshot (src/types/game.ts). */
module Types {

  datatype Option<T> = None | Some(value: T)

  datatype Player = Red | Black

  function Opponent(p: Player): Player
  {
    if p == Red then Black else Red
  }

  /** A piece is an immutable value here; kinging writes a new crowned piece. */
  datatype Piece = Piece(color: Player, isKing: bool)

  type Cell = Option<Piece>

  datatype Position = Position(row: int, col: int)

  /** `jumpedPiece` is the captured square, present on jumps only. */
  datatype Move = Move(from: Position, to: Position, isJump: bool, jumpedPiece: Option<Position>)

  datatype GameMode = PvP | PvAI

  datatype AILevel = Beginner | Intermediate | Advanced

  /** `winner` of the source is `Player | 'draw' | null`. */
  datatype Winner = Undecided | Won(player: Player) | Drawn

  const BoardSize: int := 8

  /** On-board test, used by both move generators. */
  predicate IsValidPos(row: int, col: int)
  {
    0 <= row < BoardSize && 0 <= col < BoardSize
  }

  /** The test guards every board lookup: a position is on the board exactly
      when it indexes a cell of the board. */
  lemma ValidPosIndexes(b: Board, row: int, col: int)
    ensures IsValidPos(row, col) <==> 0 <= row < |b| && 0 <= col < |b[row]|
  {
  }

  predicate OnBoard(p: Position)
  {
    IsValidPos(p.row, p.col)
  }

  predicate IsBoard(b: seq<seq<Cell>>)
  {
    |b| == BoardSize && forall r :: 0 <= r < BoardSize ==> |b[r]| == BoardSize
  }

  /** `BoardState`: eight rows of eight cells. */
  type Board = b: seq<seq<Cell>> | IsBoard(b) witness seq(8, _ => seq(8, _ => None))

  function At(b: Board, p: Position): Cell
    requires OnBoard(p)
  {
    b[p.row][p.col]
  }

  /** Writing one cell of a copy of the board. */
  function Put(b: Board, p: Position, c: Cell): (r: Board)
    requires OnBoard(p)
    ensures At(r, p) == c
    ensures forall q :: OnBoard(q) && q != p ==> At(r, q) == At(b, q)
  {
    b[p.row := b[p.row][p.col := c]]
  }

  datatype GameState = GameState(
    board: Board,
    currentPlayer: Player,
    selectedPosition: Option<Position>,
    validMoves: seq<Move>,
    winner: Winner,
    gameMode: GameMode,
    isAiTurn: bool,
    aiLevel: AILevel)
}
