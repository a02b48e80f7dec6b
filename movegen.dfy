/** The two copies of move generation as the source runs them: the loop over
    the directions of one piece (`getValidMoves` in src/hooks/useGameState.ts,
    repeated inline in `getAllValidMoves` of src/hooks/useAI.ts, whose comment
    calls it a duplicate) and the row-major scan of the whole board. Each is
    proved equal to the functions of Rules. */
module MoveGen {
  import opened Types
  import opened Rules

  /** The callback the source runs for each direction of a piece at `pos`:
      a simple move onto a free neighbour, then a jump over an opposing
      neighbour onto a free cell. */
  method DirectionStep(board: Board, piece: Piece, pos: Position, dir: Dir) returns (step: seq<Move>)
    requires OnBoard(pos) && UnitDiagonal(dir)
    ensures step == DirectionMoves(board, piece, pos, dir)
  {
    step := [];
    // 1. Simple move
    var targetRow := pos.row + dir.dr;
    var targetCol := pos.col + dir.dc;
    if IsValidPos(targetRow, targetCol) && board[targetRow][targetCol] == None {
      step := step + [Move(pos, Position(targetRow, targetCol), false, None)];
    }
    // 2. Jump move
    var jumpRow := pos.row + dir.dr * 2;
    var jumpCol := pos.col + dir.dc * 2;
    if IsValidPos(jumpRow, jumpCol) && board[jumpRow][jumpCol] == None {
      var midRow := pos.row + dir.dr;
      var midCol := pos.col + dir.dc;
      var midPiece := board[midRow][midCol];
      if midPiece.Some? && midPiece.value.color != piece.color {
        step := step + [Move(pos, Position(jumpRow, jumpCol), true, Some(Position(midRow, midCol)))];
      }
    }
  }

  /** `getValidMoves(board, piece, pos)`: the moves of one piece at `pos`,
      direction by direction. */
  method GetValidMoves(board: Board, piece: Piece, pos: Position) returns (moves: seq<Move>)
    requires OnBoard(pos)
    ensures moves == MovesFrom(board, piece, pos)
  {
    var directions: seq<Dir> := [];
    if piece.color == Red || piece.isKing {
      directions := directions + [Dir(-1, -1), Dir(-1, 1)];
    }
    if piece.color == Black || piece.isKing {
      directions := directions + [Dir(1, -1), Dir(1, 1)];
    }
    assert directions == Directions(piece);
    moves := [];
    var i := 0;
    while i < |directions|
      invariant 0 <= i <= |directions|
      invariant moves == DirsMoves(board, piece, pos, directions[..i])
    {
      var step := DirectionStep(board, piece, pos, directions[i]);
      moves := moves + step;
      assert directions[..i + 1][..i] == directions[..i];
      i := i + 1;
    }
    assert directions[..|directions|] == directions;
  }

  /** `getAllValidMoves(board, player)`: nested row and column loops over the
      squares, collecting the moves of every piece of `player` in row-major order. */
  method GetAllValidMoves(board: Board, player: Player) returns (moves: seq<Move>)
    ensures moves == AllMoves(board, player)
  {
    ghost var squares := SquareMovesList(board, player);
    moves := [];
    var row := 0;
    while row < 8
      invariant 0 <= row <= 8
      invariant moves == Flatten(squares[..row * 8])
    {
      var col := 0;
      while col < 8
        invariant 0 <= col <= 8
        invariant moves == Flatten(squares[..row * 8 + col])
      {
        var pieceMoves := ScanSquare(board, player, row, col);
        SquareMovesListAt(board, player, row, col);
        FlattenPrefixStep(squares, row * 8 + col);
        moves := moves + pieceMoves;
        col := col + 1;
      }
      row := row + 1;
    }
    assert squares[..64] == squares;
  }

  lemma SquareMovesListAt(b: Board, p: Player, row: int, col: int)
    requires IsValidPos(row, col)
    ensures SquareMovesList(b, p)[row * 8 + col] == SquareMoves(b, p, row, col)
  {
    RowMajor(row, col);
  }

  lemma RowMajor(row: int, col: int)
    requires 0 <= col < 8
    ensures (row * 8 + col) / 8 == row && (row * 8 + col) % 8 == col
  {
  }

  /** The body of the column loop: the moves of the square when it holds a
      piece of `player`, none otherwise. */
  method ScanSquare(board: Board, player: Player, row: int, col: int) returns (pieceMoves: seq<Move>)
    requires IsValidPos(row, col)
    ensures pieceMoves == SquareMoves(board, player, row, col)
  {
    var piece := board[row][col];
    pieceMoves := [];
    if piece.Some? && piece.value.color == player {
      pieceMoves := GetValidMoves(board, piece.value, Position(row, col));
    }
  }
}
