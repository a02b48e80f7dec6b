/** The turn state machine of the game hook (src/hooks/useGameState.ts): the
    initial board and snapshot, the click and drag transitions of the human
    player, and the commit of the computer's move. Every transition maps one
    `GameState` snapshot to the next; the React scheduling around them is not
    part of this model. */
module Controller {
  import opened Types
  import opened Rules
  import opened MoveGen
  import opened Search

  /** What `createInitialBoard` leaves in a cell: black men on the dark squares
      of rows 0-2, red men on the dark squares of rows 5-7, nothing elsewhere. */
  function InitialCell(row: int, col: int): Cell
  {
    if (row + col) % 2 == 1 then
      if row < 3 then Some(Piece(Black, false))
      else if row > 4 then Some(Piece(Red, false))
      else None
    else None
  }

  function InitialBoard(): Board
  {
    seq(BoardSize, r => seq(BoardSize, c => InitialCell(r, c)))
  }

  /** `createInitialBoard`: a grid filled with empty cells, then a row-major
      sweep writing the dark squares. */
  method CreateInitialBoard() returns (b: Board)
    ensures b == InitialBoard()
  {
    var grid := new Cell[BoardSize, BoardSize]((r, c) => None);
    for row := 0 to BoardSize
      invariant forall r, c :: 0 <= r < BoardSize && 0 <= c < BoardSize ==>
                  grid[r, c] == (if r < row then InitialCell(r, c) else None)
    {
      for col := 0 to BoardSize
        invariant forall r, c :: 0 <= r < BoardSize && 0 <= c < BoardSize ==>
                    grid[r, c] == (if r < row || (r == row && c < col) then InitialCell(r, c) else None)
      {
        if (row + col) % 2 == 1 {
          if row < 3 {
            grid[row, col] := Some(Piece(Black, false));
          } else if row > 4 {
            grid[row, col] := Some(Piece(Red, false));
          } else {
            grid[row, col] := None;
          }
        }
      }
    }
    b := seq(BoardSize, r requires 0 <= r < BoardSize reads grid =>
           seq(BoardSize, c requires 0 <= c < BoardSize reads grid => grid[r, c]));
    forall r | 0 <= r < BoardSize
      ensures b[r] == InitialBoard()[r]
    {
    }
  }

  /** Number of pieces of `color` in the first `n` cells of a row. */
  function RowCount(row: seq<Cell>, n: nat, color: Player): nat
    requires n <= |row|
  {
    if n == 0 then 0
    else RowCount(row, n - 1, color) + (if row[n - 1].Some? && row[n - 1].value.color == color then 1 else 0)
  }

  /** Number of pieces of `color` on the first `n` rows. */
  function PieceCount(b: Board, n: nat, color: Player): nat
    requires n <= BoardSize
  {
    if n == 0 then 0 else PieceCount(b, n - 1, color) + RowCount(b[n - 1], BoardSize, color)
  }

  /** The opening position: pieces only on dark squares, all of them men, black
      exactly on rows 0-2 and red exactly on rows 5-7, rows 3-4 empty. */
  lemma InitialBoardLayout()
    ensures DarkOnly(InitialBoard())
    ensures forall r, c :: 0 <= r < BoardSize && 0 <= c < BoardSize ==>
              && (InitialBoard()[r][c].Some? ==> !InitialBoard()[r][c].value.isKing)
              && (InitialBoard()[r][c] == Some(Piece(Black, false)) <==> r < 3 && (r + c) % 2 == 1)
              && (InitialBoard()[r][c] == Some(Piece(Red, false)) <==> r > 4 && (r + c) % 2 == 1)
              && (3 <= r <= 4 ==> InitialBoard()[r][c] == None)
  {
  }

  /** The two row patterns of the opening position: men on the even columns
      (`darkFirst`) or on the odd ones. */
  function ManRow(color: Player, darkFirst: bool): seq<Cell>
  {
    seq(BoardSize, c => if (c % 2 == 0) == darkFirst then Some(Piece(color, false)) else None)
  }

  lemma ManRowCount(color: Player, darkFirst: bool, other: Player)
    ensures RowCount(ManRow(color, darkFirst), BoardSize, color) == 4
    ensures other != color ==> RowCount(ManRow(color, darkFirst), BoardSize, other) == 0
  {
    var s := ManRow(color, darkFirst);
    var k, n := 0, 0;
    while k < BoardSize
      invariant 0 <= k <= BoardSize && k == 2 * n
      invariant RowCount(s, k, color) == n
      invariant other != color ==> RowCount(s, k, other) == 0
    {
      assert (k % 2 == 0) && ((k + 1) % 2 == 1);
      k, n := k + 2, n + 1;
    }
  }

  lemma EmptyRowCount(color: Player)
    ensures RowCount(seq(BoardSize, c => None), BoardSize, color) == 0
  {
    var e: seq<Cell> := seq(BoardSize, c => None);
    for k := 0 to BoardSize
      invariant RowCount(e, k, color) == 0
    {
    }
  }

  lemma InitialRows()
    ensures InitialBoard()[0] == InitialBoard()[2] == ManRow(Black, false)
    ensures InitialBoard()[1] == ManRow(Black, true)
    ensures InitialBoard()[3] == InitialBoard()[4] == seq(BoardSize, c => None)
    ensures InitialBoard()[5] == InitialBoard()[7] == ManRow(Red, true)
    ensures InitialBoard()[6] == ManRow(Red, false)
  {
  }

  /** Each side starts with twelve men. */
  lemma InitialBoardCounts()
    ensures PieceCount(InitialBoard(), BoardSize, Black) == 12
    ensures PieceCount(InitialBoard(), BoardSize, Red) == 12
  {
    InitialRows();
    ManRowCount(Black, false, Red);
    ManRowCount(Black, true, Red);
    ManRowCount(Red, false, Black);
    ManRowCount(Red, true, Black);
    EmptyRowCount(Black);
    EmptyRowCount(Red);
  }

  /** The snapshot the hook starts from: valid, red to move, nothing selected,
      no winner, the computer not thinking. */
  function InitialState(): (st: GameState)
    ensures Valid(st)
    ensures st.currentPlayer == Red && st.winner == Undecided
    ensures st.selectedPosition == None && st.validMoves == []
    ensures !st.isAiTurn
  {
    InitialBoardLayout();
    GameState(InitialBoard(), Red, None, [], Undecided, PvAI, false, Intermediate)
  }

  /** The invariant every reachable snapshot keeps: pieces stay on dark squares;
      a selection holds a piece of the side to move and `validMoves` are exactly
      that piece's moves; without a selection there are no moves; only the
      computer's loss sets a winner, and then black is to move with no move. */
  predicate Valid(st: GameState)
  {
    && DarkOnly(st.board)
    && st.winner != Drawn
    && (st.winner.Won? ==> st.winner.player == Red && st.currentPlayer == Black && AllMoves(st.board, Black) == [])
    && match st.selectedPosition
       case None => st.validMoves == []
       case Some(sel) =>
         && OnBoard(sel) && At(st.board, sel).Some? && At(st.board, sel).value.color == st.currentPlayer
         && st.validMoves == MovesFrom(st.board, At(st.board, sel).value, sel)
  }

  /** A move in `validMoves` of a valid snapshot starts at the selection and is
      a legal move of the side to move. */
  lemma ValidMovesLegal(st: GameState, m: Move)
    requires Valid(st) && m in st.validMoves
    ensures st.selectedPosition.Some? && m.from == st.selectedPosition.value
    ensures LegalMove(st.board, st.currentPlayer, m) && Applicable(st.board, m)
    ensures m in AllMoves(st.board, st.currentPlayer)
  {
    var sel := st.selectedPosition.value;
    MovesFromSound(st.board, At(st.board, sel).value, sel, m);
    AllMovesCharacterized(st.board, st.currentPlayer, m);
  }

  /** `Array.prototype.find` as an index: the first position whose element
      satisfies `matches`, or `|moves|` when none does. */
  function FirstIndex(moves: seq<Move>, matches: Move -> bool): (k: nat)
    ensures k <= |moves|
    ensures forall j :: 0 <= j < k ==> !matches(moves[j])
    ensures k < |moves| ==> matches(moves[k])
  {
    if moves == [] then 0
    else if matches(moves[0]) then 0
    else 1 + FirstIndex(moves[1..], matches)
  }

  /** The common tail of every move commit: the board after the move, the
      other side to move, the selection cleared. */
  function Commit(st: GameState, m: Move, next: Player): GameState
    requires Applicable(st.board, m)
  {
    st.(board := ApplyMove(st.board, m), currentPlayer := next, selectedPosition := None, validMoves := [])
  }

  /** `handleTileClick(row, col)`. Ignored while the computer thinks or after
      the game is decided; otherwise selects a piece of the side to move,
      moves the selected piece to an empty target listed in `validMoves`, or
      clears the selection. The moved piece is read at the selection, which
      in a valid snapshot is the move's `from`. */
  function HandleTileClick(st: GameState, row: int, col: int): (r: GameState)
    requires IsValidPos(row, col) && Valid(st)
    ensures r.winner == st.winner && r.gameMode == st.gameMode
    ensures r.isAiTurn == st.isAiTurn && r.aiLevel == st.aiLevel
  {
    if st.isAiTurn || st.winner != Undecided then st
    else
      var pos := Position(row, col);
      var clicked := At(st.board, pos);
      if clicked.Some? && clicked.value.color == st.currentPlayer then
        st.(selectedPosition := Some(pos), validMoves := MovesFrom(st.board, clicked.value, pos))
      else
        var k := FirstIndex(st.validMoves, (m: Move) => m.to == pos);
        if clicked.None? && st.selectedPosition.Some? && k < |st.validMoves| then
          ValidMovesLegal(st, st.validMoves[k]);
          Commit(st, st.validMoves[k], Opponent(st.currentPlayer))
        else
          st.(selectedPosition := None, validMoves := [])
  }

  /** `movePiece(from, to)`, the drag-and-drop path: a no-op unless a move of
      `validMoves` runs from `from` to `to`, and then that move is made. It
      does not look at `isAiTurn` or `winner`. */
  function MovePiece(st: GameState, from: Position, to: Position): (r: GameState)
    requires Valid(st)
    ensures r.winner == st.winner && r.gameMode == st.gameMode
    ensures r.isAiTurn == st.isAiTurn && r.aiLevel == st.aiLevel
  {
    var k := FirstIndex(st.validMoves, (m: Move) => m.from == from && m.to == to);
    if k == |st.validMoves| then st
    else
      ValidMovesLegal(st, st.validMoves[k]);
      Commit(st, st.validMoves[k], Opponent(st.currentPlayer))
  }

  /** `setAILevel(level)`. */
  function SetAILevel(st: GameState, level: AILevel): (r: GameState)
    ensures r.aiLevel == level
    ensures Valid(r) == Valid(st)
  {
    st.(aiLevel := level)
  }

  /** The guard of the computer's turn: playing the computer, black to move,
      no winner yet. */
  predicate AiToMove(st: GameState)
  {
    st.gameMode == PvAI && st.currentPlayer == Black && st.winner == Undecided
  }

  /** The effect marks the computer as thinking. */
  function BeginAiTurn(st: GameState): (r: GameState)
    ensures AiToMove(st) ==> r.isAiTurn
    ensures r.board == st.board && r.currentPlayer == st.currentPlayer && r.winner == st.winner
    ensures Valid(st) ==> Valid(r)
  {
    if AiToMove(st) && !st.isAiTurn then st.(isAiTurn := true) else st
  }

  /** The commit when the timer fires: the chosen move is made and red is to
      move, or, when there was no move, red wins. */
  function CommitAiMove(st: GameState, aiMove: Option<Move>): (r: GameState)
    requires aiMove.Some? ==> Applicable(st.board, aiMove.value)
    ensures !r.isAiTurn
    ensures aiMove.None? ==> r.winner == Won(Red) && r.board == st.board
    ensures aiMove.Some? ==> r.board == ApplyMove(st.board, aiMove.value) && r.currentPlayer == Red
    ensures aiMove.Some? ==> r.selectedPosition == None && r.validMoves == [] && r.winner == st.winner
    ensures r.gameMode == st.gameMode && r.aiLevel == st.aiLevel
  {
    match aiMove
    case Some(m) => Commit(st, m, Red).(isAiTurn := false)
    case None => st.(winner := Won(Red), isAiTurn := false)
  }

  /** The snapshot after black plays `m`, one of its moves. */
  function AiPlayed(st: GameState, m: Move): GameState
    requires m in AllMoves(st.board, Black)
  {
    AllMovesApplicable(st.board, Black);
    CommitAiMove(st, Some(m))
  }

  /** The computer's turn, from the effect's guard to the commit. */
  method AiTurn(st: GameState) returns (r: GameState)
    requires Valid(st)
    ensures Valid(r)
    ensures !AiToMove(st) ==> r == st
    ensures AiToMove(st) ==> !r.isAiTurn && (r.winner == Won(Red) <==> AllMoves(st.board, Black) == [])
    ensures AiToMove(st) && AllMoves(st.board, Black) != [] ==>
              exists m :: m in AllMoves(st.board, Black) && r == AiPlayed(st, m)
    ensures AiToMove(st) && AllMoves(st.board, Black) != [] && st.aiLevel != Beginner && HasJump(AllMoves(st.board, Black)) ==>
              exists m :: m in AllMoves(st.board, Black) && m.isJump && r == AiPlayed(st, m)
    ensures AiToMove(st) && AllMoves(st.board, Black) != [] && st.aiLevel == Advanced ==>
              r == AiPlayed(st, AdvancedPick(st.board, Black))
    ensures r.board != st.board <==> r.currentPlayer != st.currentPlayer
    ensures AiToMove(st) ==> !AiToMove(r)
  {
    if !AiToMove(st) {
      return st;
    }
    var thinking := BeginAiTurn(st);
    var aiMove := GetBestMove(st.board, Black, st.aiLevel);
    if aiMove.Some? {
      AllMovesApplicable(st.board, Black);
      ApplyMoveKeepsDark(st.board, Black, aiMove.value);
      MoveChangesBoard(st.board, Black, aiMove.value);
    }
    r := CommitAiMove(thinking, aiMove);
    if aiMove.Some? {
      assert r == AiPlayed(st, aiMove.value);
    }
  }

  /** In a valid snapshot a listed move is determined by its target: all
      listed moves start at the selection, and the distance to the target
      fixes whether it is a jump and what it captures. */
  lemma TargetDeterminesMove(st: GameState, m1: Move, m2: Move)
    requires Valid(st) && m1 in st.validMoves && m2 in st.validMoves && m1.to == m2.to
    ensures m1 == m2
  {
    ValidMovesLegal(st, m1);
    ValidMovesLegal(st, m2);
  }

  /** Against the computer, a move made by red's click leaves a snapshot in
      which the computer's turn starts. */
  lemma HandOverToComputer(st: GameState, row: int, col: int)
    requires IsValidPos(row, col) && Valid(st) && st.gameMode == PvAI && st.currentPlayer == Red
    ensures HandleTileClick(st, row, col).board != st.board ==> AiToMove(HandleTileClick(st, row, col))
  {
    ClickKeepsValid(st, row, col);
  }

  /** Making a legal move from a valid, undecided snapshot gives a valid one. */
  lemma CommitKeepsValid(st: GameState, p: Player, m: Move, next: Player)
    requires Valid(st) && st.winner == Undecided && LegalMove(st.board, p, m)
    ensures Applicable(st.board, m) && Valid(Commit(st, m, next))
  {
    ApplyMoveKeepsDark(st.board, p, m);
  }

  /** A legal move always changes the board: its start square empties. */
  lemma MoveChangesBoard(b: Board, p: Player, m: Move)
    requires LegalMove(b, p, m)
    ensures Applicable(b, m) && ApplyMove(b, m) != b
  {
    ApplyMoveFrame(b, p, m);
    assert At(ApplyMove(b, m), m.from) != At(b, m.from);
  }

  /** Clicks are ignored while the computer thinks and once a winner is set. */
  lemma ClickIgnoredWhenBusy(st: GameState, row: int, col: int)
    requires IsValidPos(row, col) && Valid(st)
    requires st.isAiTurn || st.winner != Undecided
    ensures HandleTileClick(st, row, col) == st
  {
  }

  /** Clicking a piece of the side to move selects it and lists exactly the
      legal moves starting there; board and turn stay as they were. */
  lemma ClickSelects(st: GameState, row: int, col: int)
    requires IsValidPos(row, col) && Valid(st) && !st.isAiTurn && st.winner == Undecided
    requires At(st.board, Position(row, col)).Some? && At(st.board, Position(row, col)).value.color == st.currentPlayer
    ensures var r := HandleTileClick(st, row, col);
      && r.selectedPosition == Some(Position(row, col))
      && r.board == st.board && r.currentPlayer == st.currentPlayer
      && forall m :: m in r.validMoves <==> m.from == Position(row, col) && LegalMove(st.board, st.currentPlayer, m)
  {
    var pos := Position(row, col);
    var piece := At(st.board, pos).value;
    forall m
      ensures m in MovesFrom(st.board, piece, pos) <==> m.from == pos && LegalMove(st.board, st.currentPlayer, m)
    {
      MovesFromCharacterized(st.board, piece, pos, m);
    }
  }

  /** Clicking an empty square that is the target of a listed move makes the
      first such move: a legal move of the side to move, after which the other
      side is to move and nothing is selected. */
  lemma ClickMoves(st: GameState, row: int, col: int)
    requires IsValidPos(row, col) && Valid(st) && !st.isAiTurn && st.winner == Undecided
    requires At(st.board, Position(row, col)).None?
    requires exists m :: m in st.validMoves && m.to == Position(row, col)
    ensures exists m :: && m in st.validMoves && m.to == Position(row, col)
                        && LegalMove(st.board, st.currentPlayer, m)
                        && HandleTileClick(st, row, col) == Commit(st, m, Opponent(st.currentPlayer))
  {
    var pos := Position(row, col);
    var k := FirstIndex(st.validMoves, (m: Move) => m.to == pos);
    assert k < |st.validMoves|;
    ValidMovesLegal(st, st.validMoves[k]);
  }

  /** Any other click only drops the selection. */
  lemma ClickDeselects(st: GameState, row: int, col: int)
    requires IsValidPos(row, col) && Valid(st) && !st.isAiTurn && st.winner == Undecided
    requires !(At(st.board, Position(row, col)).Some? && At(st.board, Position(row, col)).value.color == st.currentPlayer)
    requires !(At(st.board, Position(row, col)).None? && exists m :: m in st.validMoves && m.to == Position(row, col))
    ensures HandleTileClick(st, row, col) == st.(selectedPosition := None, validMoves := [])
  {
    var pos := Position(row, col);
    var k := FirstIndex(st.validMoves, (m: Move) => m.to == pos);
    assert !(At(st.board, pos).None? && st.selectedPosition.Some? && k < |st.validMoves|);
  }

  /** Clicks keep the snapshot valid, and the board changes exactly when the
      turn passes to the other side. */
  lemma ClickKeepsValid(st: GameState, row: int, col: int)
    requires IsValidPos(row, col) && Valid(st)
    ensures Valid(HandleTileClick(st, row, col))
    ensures HandleTileClick(st, row, col).board != st.board <==>
            HandleTileClick(st, row, col).currentPlayer != st.currentPlayer
  {
    var pos := Position(row, col);
    var clicked := At(st.board, pos);
    var k := FirstIndex(st.validMoves, (m: Move) => m.to == pos);
    if st.isAiTurn || st.winner != Undecided {
    } else if clicked.Some? && clicked.value.color == st.currentPlayer {
    } else if clicked.None? && st.selectedPosition.Some? && k < |st.validMoves| {
      var m := st.validMoves[k];
      ValidMovesLegal(st, m);
      CommitKeepsValid(st, st.currentPlayer, m, Opponent(st.currentPlayer));
      MoveChangesBoard(st.board, st.currentPlayer, m);
    }
  }

  /** A drag is a no-op unless a listed move runs from `from` to `to`; if one
      does, that move is made, it is legal, the other side is to move and the
      snapshot stays valid. */
  lemma DragMoves(st: GameState, from: Position, to: Position)
    requires Valid(st)
    ensures var r := MovePiece(st, from, to);
      && Valid(r)
      && ((forall m :: m in st.validMoves ==> !(m.from == from && m.to == to)) ==> r == st)
      && ((exists m :: m in st.validMoves && m.from == from && m.to == to) ==>
            exists m :: && m in st.validMoves && m.from == from && m.to == to
                        && LegalMove(st.board, st.currentPlayer, m)
                        && r == Commit(st, m, Opponent(st.currentPlayer)))
      && (r.board != st.board <==> r.currentPlayer != st.currentPlayer)
  {
    var k := FirstIndex(st.validMoves, (m: Move) => m.from == from && m.to == to);
    if k < |st.validMoves| {
      var m := st.validMoves[k];
      ValidMovesLegal(st, m);
      if st.winner != Undecided {
        assert false;
      }
      CommitKeepsValid(st, st.currentPlayer, m, Opponent(st.currentPlayer));
      MoveChangesBoard(st.board, st.currentPlayer, m);
    } else {
      forall m | m in st.validMoves
        ensures !(m.from == from && m.to == to)
      {
        var j :| 0 <= j < |st.validMoves| && st.validMoves[j] == m;
      }
    }
  }

  /** Once a winner is set, neither a click nor a drag changes anything. */
  lemma GameOverIsFinal(st: GameState, row: int, col: int, from: Position, to: Position)
    requires IsValidPos(row, col) && Valid(st) && st.winner != Undecided
    ensures HandleTileClick(st, row, col) == st
    ensures MovePiece(st, from, to) == st
  {
    if st.validMoves != [] {
      ValidMovesLegal(st, st.validMoves[0]);
    }
  }
}
