/** `evaluateBoard` (src/hooks/useAI.ts:71-108). Every weight of the source is a
    multiple of 0.5, so scores here are in half-points: a score of n means n / 2. */
module Evaluator {
  import opened Types

  /** The contribution of one piece at (row, col), in half-points. Own pieces:
      3 or 5 for a king, half the advancement and 2 near the far rank for a
      non-king, 0.5 in columns 2..5. Opposing pieces: minus 3 or 5. */
  function PieceScore(piece: Piece, row: int, col: int, player: Player): int
  {
    if piece.color == player then
      (if piece.isKing then 10 else 6)
      + (if piece.isKing then 0
         else (if piece.color == Red then 7 - row else row)
              + (if (piece.color == Red && row == 1) || (piece.color == Black && row == 6) then 4 else 0))
      + (if 2 <= col <= 5 then 1 else 0)
    else
      -(if piece.isKing then 10 else 6)
  }

  function CellScore(cell: Cell, row: int, col: int, player: Player): int
  {
    if cell.None? then 0 else PieceScore(cell.value, row, col, player)
  }

  /** Sum over the first `n` cells of row `row`. */
  function RowScore(b: Board, row: int, n: nat, player: Player): int
    requires 0 <= row < BoardSize && n <= BoardSize
  {
    if n == 0 then 0 else RowScore(b, row, n - 1, player) + CellScore(b[row][n - 1], row, n - 1, player)
  }

  /** Sum over the first `n` rows. */
  function RowsScore(b: Board, n: nat, player: Player): int
    requires n <= BoardSize
  {
    if n == 0 then 0 else RowsScore(b, n - 1, player) + RowScore(b, n - 1, |b[n - 1]|, player)
  }

  /** The evaluation of `board` for `player`, in half-points (the bounds are
      the board's own lengths, so that the sum is not unrolled eagerly). */
  function Eval(b: Board, player: Player): int
  {
    RowsScore(b, |b|, player)
  }

  /** `evaluateBoard(board, player)`: the nested loops accumulate `score`. */
  method EvaluateBoard(board: Board, player: Player) returns (score: int)
    ensures score == Eval(board, player)
  {
    score := 0;
    var opponent := if player == Red then Black else Red;
    var row := 0;
    while row < 8
      invariant 0 <= row <= 8
      invariant score == RowsScore(board, row, player)
    {
      var col := 0;
      while col < 8
        invariant 0 <= col <= 8
        invariant score == RowsScore(board, row, player) + RowScore(board, row, col, player)
      {
        var cell := board[row][col];
        if cell.Some? {
          var piece := cell.value;
          if piece.color == player {
            score := score + (if piece.isKing then 10 else 6);
            if !piece.isKing {
              var advancement := if piece.color == Red then 7 - row else row;
              score := score + advancement;
              if (piece.color == Red && row == 1) || (piece.color == Black && row == 6) {
                score := score + 4;
              }
            }
            if col >= 2 && col <= 5 {
              score := score + 1;
            }
          } else if piece.color == opponent {
            score := score - (if piece.isKing then 10 else 6);
          }
        }
        col := col + 1;
      }
      row := row + 1;
    }
  }

  const EmptyBoard: Board := seq(8, _ => seq(8, _ => None))

  lemma {:induction false} EmptyRowScoreZero(b: Board, row: int, n: nat, player: Player)
    requires 0 <= row < BoardSize && n <= BoardSize
    requires forall c :: 0 <= c < n ==> b[row][c] == None
    ensures RowScore(b, row, n, player) == 0
  {
    if n > 0 {
      EmptyRowScoreZero(b, row, n - 1, player);
    }
  }

  lemma {:induction false} EmptyRowsScoreZero(b: Board, n: nat, player: Player)
    requires n <= BoardSize
    requires forall r, c :: 0 <= r < n && 0 <= c < BoardSize ==> b[r][c] == None
    ensures RowsScore(b, n, player) == 0
  {
    if n > 0 {
      EmptyRowsScoreZero(b, n - 1, player);
      EmptyRowScoreZero(b, n - 1, |b[n - 1]|, player);
    }
  }

  /** The empty board scores 0 for either side. */
  lemma EmptyBoardScoresZero(player: Player)
    ensures Eval(EmptyBoard, player) == 0
  {
    EmptyRowsScoreZero(EmptyBoard, BoardSize, player);
  }

  /** Every cell adds as much for one side as it takes from the other, or more:
      opposing pieces carry no positional terms, so the two perspectives are not
      negatives of each other, but their sum is never negative. */
  lemma {:induction false} RowScoreSumNonNegative(b: Board, row: int, n: nat)
    requires 0 <= row < BoardSize && n <= BoardSize
    ensures RowScore(b, row, n, Red) + RowScore(b, row, n, Black) >= 0
  {
    if n > 0 {
      RowScoreSumNonNegative(b, row, n - 1);
    }
  }

  lemma {:induction false} RowsScoreSumNonNegative(b: Board, n: nat)
    requires n <= BoardSize
    ensures RowsScore(b, n, Red) + RowsScore(b, n, Black) >= 0
  {
    if n > 0 {
      RowsScoreSumNonNegative(b, n - 1);
      RowScoreSumNonNegative(b, n - 1, |b[n - 1]|);
    }
  }

  lemma EvalSumNonNegative(b: Board)
    ensures Eval(b, Red) + Eval(b, Black) >= 0
  {
    RowsScoreSumNonNegative(b, BoardSize);
  }

  /** A lone red man on (6, 1): red scores 3.5, black scores -3, so
      `evaluateBoard(b, red) != -evaluateBoard(b, black)`. */
  lemma EvalNotAntisymmetric()
    ensures var b := EmptyBoard[6 := EmptyBoard[6][1 := Some(Piece(Red, false))]];
            Eval(b, Red) == 7 && Eval(b, Black) == -6
  {
    var b: Board := EmptyBoard[6 := EmptyBoard[6][1 := Some(Piece(Red, false))]];
    LoneManScore(b, Red);
    LoneManScore(b, Black);
  }

  lemma LoneManScore(b: Board, player: Player)
    requires b == EmptyBoard[6 := EmptyBoard[6][1 := Some(Piece(Red, false))]]
    ensures Eval(b, player) == CellScore(Some(Piece(Red, false)), 6, 1, player)
  {
    EmptyRowsScoreZero(b, 6, player);
    EmptyRowScoreZero(b, 7, BoardSize, player);
    RowTailEmpty(b, BoardSize, player);
    assert RowsScore(b, 7, player) == RowsScore(b, 6, player) + RowScore(b, 6, |b[6]|, player);
    assert RowsScore(b, 8, player) == RowsScore(b, 7, player) + RowScore(b, 7, |b[7]|, player);
  }

  lemma {:induction false} RowTailEmpty(b: Board, n: nat, player: Player)
    requires b == EmptyBoard[6 := EmptyBoard[6][1 := Some(Piece(Red, false))]]
    requires 2 <= n <= BoardSize
    ensures RowScore(b, 6, n, player) == CellScore(Some(Piece(Red, false)), 6, 1, player)
  {
    if n > 2 {
      RowTailEmpty(b, n - 1, player);
    } else {
      EmptyRowScoreZero(b, 6, 1, player);
    }
  }
}
