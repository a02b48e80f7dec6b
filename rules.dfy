/** The rules both move generators implement (src/hooks/useGameState.ts:41-71 and
    src/hooks/useAI.ts:12-68), stated once as functions: the moves of one square,
    the moves of a whole side in row-major order, an independent description of a
    legal move, and the application of a move to a copy of the board. */
module Rules {
  import opened Types

  /** A diagonal direction as a row and column delta. */
  datatype Dir = Dir(dr: int, dc: int)

  predicate UnitDiagonal(d: Dir)
  {
    (d.dr == -1 || d.dr == 1) && (d.dc == -1 || d.dc == 1)
  }

  /** Red and kings step toward row 0 first, then black and kings toward row 7. */
  function Directions(piece: Piece): (ds: seq<Dir>)
    ensures forall i :: 0 <= i < |ds| ==> UnitDiagonal(ds[i])
  {
    (if piece.color == Red || piece.isKing then [Dir(-1, -1), Dir(-1, 1)] else [])
    + (if piece.color == Black || piece.isKing then [Dir(1, -1), Dir(1, 1)] else [])
  }

  /** Red men step up, black men step down, kings both ways. */
  lemma DirectionsRule(piece: Piece)
    ensures forall d :: d in Directions(piece) && d.dr < 0 ==> piece.color == Red || piece.isKing
    ensures forall d :: d in Directions(piece) && d.dr > 0 ==> piece.color == Black || piece.isKing
    ensures piece.color == Red || piece.isKing <==> Dir(-1, -1) in Directions(piece) && Dir(-1, 1) in Directions(piece)
    ensures piece.color == Black || piece.isKing <==> Dir(1, -1) in Directions(piece) && Dir(1, 1) in Directions(piece)
  {
  }

  /** The neighbour of `pos` in direction `d`. */
  function Neighbour(pos: Position, d: Dir): Position
  {
    Position(pos.row + d.dr, pos.col + d.dc)
  }

  /** The square two steps from `pos` in direction `d`, where a jump lands. */
  function Beyond(pos: Position, d: Dir): Position
  {
    Position(pos.row + d.dr * 2, pos.col + d.dc * 2)
  }

  /** True when `p` is on the board and holds a piece of the other colour. */
  predicate OpposingAt(b: Board, p: Position, color: Player)
  {
    OnBoard(p) && At(b, p).Some? && At(b, p).value.color != color
  }

  /** Simple step (if the neighbour is free), then the jump (if the cell beyond is
      free and the neighbour holds an opposing piece), for one direction. */
  function DirectionMoves(b: Board, piece: Piece, pos: Position, d: Dir): seq<Move>
    requires OnBoard(pos) && UnitDiagonal(d)
  {
    var target := Neighbour(pos, d);
    var jumpTarget := Beyond(pos, d);
    (if OnBoard(target) && At(b, target) == None
     then [Move(pos, target, false, None)] else [])
    + (if OnBoard(jumpTarget) && At(b, jumpTarget) == None && OpposingAt(b, target, piece.color)
       then [Move(pos, jumpTarget, true, Some(target))] else [])
  }

  /** The moves for the directions `ds`, in order. */
  function DirsMoves(b: Board, piece: Piece, pos: Position, ds: seq<Dir>): seq<Move>
    requires OnBoard(pos)
    requires forall i :: 0 <= i < |ds| ==> UnitDiagonal(ds[i])
  {
    if ds == [] then []
    else DirsMoves(b, piece, pos, ds[..|ds| - 1]) + DirectionMoves(b, piece, pos, ds[|ds| - 1])
  }

  /** `getValidMoves(board, piece, pos)`. */
  function MovesFrom(b: Board, piece: Piece, pos: Position): seq<Move>
    requires OnBoard(pos)
  {
    DirsMoves(b, piece, pos, Directions(piece))
  }

  /** The moves of the square (row, col) when it holds a piece of `p`. */
  function SquareMoves(b: Board, p: Player, row: int, col: int): seq<Move>
    requires IsValidPos(row, col)
  {
    var cell := At(b, Position(row, col));
    if cell.Some? && cell.value.color == p then MovesFrom(b, cell.value, Position(row, col)) else []
  }

  /** The moves of each square, in row-major order: entry `i` belongs to
      square (i / 8, i % 8). */
  function SquareMovesList(b: Board, p: Player): (ss: seq<seq<Move>>)
    ensures |ss| == BoardSize * BoardSize
  {
    seq(BoardSize * BoardSize, i requires 0 <= i < BoardSize * BoardSize => SquareMoves(b, p, i / BoardSize, i % BoardSize))
  }

  /** Concatenation of a sequence of sequences. */
  function Flatten<T>(ss: seq<seq<T>>): seq<T>
  {
    if ss == [] then [] else Flatten(ss[..|ss| - 1]) + ss[|ss| - 1]
  }

  /** `getAllValidMoves(board, player)`: every square, row-major. */
  function AllMoves(b: Board, p: Player): seq<Move>
  {
    Flatten(SquareMovesList(b, p))
  }

  function Abs(x: int): nat
  {
    if x < 0 then -x else x
  }

  function Midpoint(a: Position, c: Position): Position
  {
    Position((a.row + c.row) / 2, (a.col + c.col) / 2)
  }

  /** An independent description of a move the engine admits for `piece` at
      `pos`: a one-step diagonal to a free cell, or a two-step diagonal to a free
      cell over an opposing piece, in a direction the piece may move in. */
  predicate LegalFrom(b: Board, piece: Piece, pos: Position, m: Move)
  {
    var dr := m.to.row - pos.row;
    var dc := m.to.col - pos.col;
    && m.from == pos
    && OnBoard(m.to) && At(b, m.to) == None
    && (dr < 0 ==> piece.color == Red || piece.isKing)
    && (dr > 0 ==> piece.color == Black || piece.isKing)
    && (|| (Abs(dr) == 1 && Abs(dc) == 1 && !m.isJump && m.jumpedPiece == None)
        || (&& Abs(dr) == 2 && Abs(dc) == 2 && m.isJump
            && m.jumpedPiece == Some(Midpoint(pos, m.to))
            && OpposingAt(b, Midpoint(pos, m.to), piece.color)))
  }

  /** A move of side `p`: it starts on a square holding a piece of `p`. */
  predicate LegalMove(b: Board, p: Player, m: Move)
  {
    && OnBoard(m.from) && At(b, m.from).Some? && At(b, m.from).value.color == p
    && LegalFrom(b, At(b, m.from).value, m.from, m)
  }

  lemma DirectionMovesSound(b: Board, piece: Piece, pos: Position, d: Dir, m: Move)
    requires OnBoard(pos) && UnitDiagonal(d) && d in Directions(piece)
    requires m in DirectionMoves(b, piece, pos, d)
    ensures LegalFrom(b, piece, pos, m)
  {
    var target := Neighbour(pos, d);
    var jumpTarget := Beyond(pos, d);
    if m.isJump {
      assert m == Move(pos, jumpTarget, true, Some(target));
      assert Midpoint(pos, jumpTarget) == target;
    }
  }

  lemma {:induction false} DirsMovesSound(b: Board, piece: Piece, pos: Position, ds: seq<Dir>, m: Move)
    requires OnBoard(pos)
    requires forall i :: 0 <= i < |ds| ==> UnitDiagonal(ds[i]) && ds[i] in Directions(piece)
    requires m in DirsMoves(b, piece, pos, ds)
    ensures LegalFrom(b, piece, pos, m)
  {
    if ds != [] {
      var last := ds[|ds| - 1];
      if m in DirectionMoves(b, piece, pos, last) {
        DirectionMovesSound(b, piece, pos, last, m);
      } else {
        DirsMovesSound(b, piece, pos, ds[..|ds| - 1], m);
      }
    }
  }

  /** Every generated move of a square is legal for its piece. */
  lemma MovesFromSound(b: Board, piece: Piece, pos: Position, m: Move)
    requires OnBoard(pos)
    requires m in MovesFrom(b, piece, pos)
    ensures LegalFrom(b, piece, pos, m)
  {
    DirsMovesSound(b, piece, pos, Directions(piece), m);
  }

  lemma {:induction false} DirsMovesContain(b: Board, piece: Piece, pos: Position, ds: seq<Dir>, k: int, m: Move)
    requires OnBoard(pos)
    requires forall i :: 0 <= i < |ds| ==> UnitDiagonal(ds[i])
    requires 0 <= k < |ds| && m in DirectionMoves(b, piece, pos, ds[k])
    ensures m in DirsMoves(b, piece, pos, ds)
  {
    if k < |ds| - 1 {
      DirsMovesContain(b, piece, pos, ds[..|ds| - 1], k, m);
    }
  }

  /** Every legal move of a square is generated. */
  lemma MovesFromComplete(b: Board, piece: Piece, pos: Position, m: Move)
    requires OnBoard(pos)
    requires LegalFrom(b, piece, pos, m)
    ensures m in MovesFrom(b, piece, pos)
  {
    var dr := m.to.row - pos.row;
    var dc := m.to.col - pos.col;
    var d := Dir(if dr < 0 then -1 else 1, if dc < 0 then -1 else 1);
    var ds := Directions(piece);
    var k: int;
    if d == Dir(-1, -1) {
      k := 0;
    } else if d == Dir(-1, 1) {
      k := 1;
    } else if piece.color == Red || piece.isKing {
      k := if d == Dir(1, -1) then 2 else 3;
    } else {
      k := if d == Dir(1, -1) then 0 else 1;
    }
    assert ds[k] == d;
    if Abs(dr) == 1 {
      assert m.to == Neighbour(pos, d);
    } else {
      assert m.to == Beyond(pos, d);
      assert Midpoint(pos, m.to) == Neighbour(pos, d);
    }
    assert m in DirectionMoves(b, piece, pos, d);
    DirsMovesContain(b, piece, pos, ds, k, m);
  }

  /** A move is among the moves of a square exactly when it is legal from it. */
  lemma MovesFromCharacterized(b: Board, piece: Piece, pos: Position, m: Move)
    requires OnBoard(pos)
    ensures m in MovesFrom(b, piece, pos) <==> LegalFrom(b, piece, pos, m)
  {
    if m in MovesFrom(b, piece, pos) {
      MovesFromSound(b, piece, pos, m);
    }
    if LegalFrom(b, piece, pos, m) {
      MovesFromComplete(b, piece, pos, m);
    }
  }

  /** A move is among the moves of square (row, col) exactly when it is a
      legal move of side `p` starting there. */
  lemma SquareMovesCharacterized(b: Board, p: Player, row: int, col: int, m: Move)
    requires IsValidPos(row, col)
    ensures m in SquareMoves(b, p, row, col) <==> m.from == Position(row, col) && LegalMove(b, p, m)
  {
    var pos := Position(row, col);
    var cell := At(b, pos);
    if cell.Some? && cell.value.color == p {
      MovesFromCharacterized(b, cell.value, pos, m);
    }
  }

  lemma {:induction false} FlattenMembership<T>(ss: seq<seq<T>>, x: T)
    ensures x in Flatten(ss) <==> exists i :: 0 <= i < |ss| && x in ss[i]
  {
    if ss != [] {
      var init := ss[..|ss| - 1];
      FlattenMembership(init, x);
      assert x in Flatten(ss) <==> x in Flatten(init) || x in ss[|ss| - 1];
      if x in Flatten(init) {
        var i :| 0 <= i < |init| && x in init[i];
        assert ss[i] == init[i];
      }
      if exists i :: 0 <= i < |ss| && x in ss[i] {
        var i :| 0 <= i < |ss| && x in ss[i];
        if i < |ss| - 1 {
          assert init[i] == ss[i];
        }
      }
    }
  }

  /** Appending one more inner sequence to the prefix. */
  lemma FlattenPrefixStep<T>(ss: seq<seq<T>>, k: int)
    requires 0 <= k < |ss|
    ensures Flatten(ss[..k + 1]) == Flatten(ss[..k]) + ss[k]
  {
    assert ss[..k + 1][..k] == ss[..k];
  }

  /** A move is in `getAllValidMoves(board, p)` exactly when it is a legal move
      of side `p`. */
  lemma AllMovesCharacterized(b: Board, p: Player, m: Move)
    ensures m in AllMoves(b, p) <==> LegalMove(b, p, m)
  {
    var ss := SquareMovesList(b, p);
    FlattenMembership(ss, m);
    if m in AllMoves(b, p) {
      var i :| 0 <= i < |ss| && m in ss[i];
      SquareMovesCharacterized(b, p, i / BoardSize, i % BoardSize, m);
    }
    if LegalMove(b, p, m) {
      var i := m.from.row * BoardSize + m.from.col;
      assert i / BoardSize == m.from.row && i % BoardSize == m.from.col;
      SquareMovesCharacterized(b, p, m.from.row, m.from.col, m);
      assert m in ss[i];
    }
  }

  /** The shape of every generated move: the mover's square, the direction its
      colour allows, and the one-step or two-step geometry of simple moves and
      jumps, with the jumped square the midpoint holding an opposing piece. */
  lemma AllMovesShape(b: Board, p: Player, m: Move)
    requires m in AllMoves(b, p)
    ensures OnBoard(m.from) && At(b, m.from).Some? && At(b, m.from).value.color == p
    ensures m.to.row < m.from.row ==> p == Red || At(b, m.from).value.isKing
    ensures m.to.row > m.from.row ==> p == Black || At(b, m.from).value.isKing
    ensures OnBoard(m.to) && At(b, m.to) == None
    ensures !m.isJump ==> Abs(m.to.row - m.from.row) == 1 && Abs(m.to.col - m.from.col) == 1
                          && m.jumpedPiece == None
    ensures m.isJump ==> Abs(m.to.row - m.from.row) == 2 && Abs(m.to.col - m.from.col) == 2
                         && m.jumpedPiece == Some(Midpoint(m.from, m.to))
                         && OpposingAt(b, m.jumpedPiece.value, p)
  {
    AllMovesCharacterized(b, p, m);
  }

  /** A generated move changes only the cells it writes. */
  predicate Applicable(b: Board, m: Move)
  {
    && OnBoard(m.from) && OnBoard(m.to) && At(b, m.from).Some?
    && (m.isJump && m.jumpedPiece.Some? ==> OnBoard(m.jumpedPiece.value))
  }

  lemma LegalIsApplicable(b: Board, p: Player, m: Move)
    requires LegalMove(b, p, m)
    ensures Applicable(b, m)
  {
  }

  /** Kinging: red landing on row 0 or black landing on row 7 is crowned. */
  function Crowned(piece: Piece, row: int): (c: Piece)
    ensures c.color == piece.color
    ensures c.isKing <==> piece.isKing || (piece.color == Red && row == 0) || (piece.color == Black && row == BoardSize - 1)
  {
    if (piece.color == Red && row == 0) || (piece.color == Black && row == BoardSize - 1)
    then piece.(isKing := true) else piece
  }

  /** Copy the board, move the piece, clear the jumped cell, crown on the far rank. */
  function ApplyMove(b: Board, m: Move): (r: Board)
    requires Applicable(b, m)
    ensures At(r, m.from) == None
    ensures m.isJump && m.jumpedPiece.Some? ==> At(r, m.jumpedPiece.value) == None
    ensures m.to != m.from && !(m.isJump && m.jumpedPiece == Some(m.to)) ==>
              At(r, m.to) == Some(Crowned(At(b, m.from).value, m.to.row))
  {
    var piece := At(b, m.from).value;
    var b1 := Put(b, m.to, Some(Crowned(piece, m.to.row)));
    var b2 := Put(b1, m.from, None);
    if m.isJump && m.jumpedPiece.Some? then Put(b2, m.jumpedPiece.value, None) else b2
  }

  /** What applying a legal move does to each cell of the board. */
  lemma ApplyMoveFrame(b: Board, p: Player, m: Move)
    requires LegalMove(b, p, m)
    ensures Applicable(b, m)
    ensures var piece := At(b, m.from).value;
      var r := ApplyMove(b, m);
      && At(r, m.to) == Some(Piece(piece.color,
           piece.isKing || (piece.color == Red && m.to.row == 0)
                        || (piece.color == Black && m.to.row == 7)))
      && At(r, m.from) == None
      && (m.isJump ==> At(r, m.jumpedPiece.value) == None)
      && (forall q :: (OnBoard(q) && q != m.from && q != m.to
                        && (m.isJump ==> q != m.jumpedPiece.value)) ==> At(r, q) == At(b, q))
  {
    if m.isJump {
      assert m.jumpedPiece.value != m.to;
    }
  }

  /** Dark squares are those with (row + col) odd. */
  predicate DarkOnly(b: Board)
  {
    forall r, c :: 0 <= r < BoardSize && 0 <= c < BoardSize && b[r][c].Some? ==> (r + c) % 2 == 1
  }

  /** Pieces stay on dark squares when a legal move is applied. */
  lemma ApplyMoveKeepsDark(b: Board, p: Player, m: Move)
    requires DarkOnly(b) && LegalMove(b, p, m)
    ensures DarkOnly(ApplyMove(b, m))
  {
    ApplyMoveFrame(b, p, m);
    var r := ApplyMove(b, m);
    DiagonalKeepsParity(m.from.row, m.from.col, m.to.row, m.to.col);
    forall rr, cc | 0 <= rr < BoardSize && 0 <= cc < BoardSize && r[rr][cc].Some?
      ensures (rr + cc) % 2 == 1
    {
      var q := Position(rr, cc);
      if q != m.to {
        assert At(b, q) == At(r, q);
      }
    }
  }

  /** A diagonal step keeps the colour of the square. */
  lemma DiagonalKeepsParity(fr: int, fc: int, tr: int, tc: int)
    requires (fr + fc) % 2 == 1 && Abs(tr - fr) == Abs(tc - fc)
    ensures (tr + tc) % 2 == 1
  {
    var dr := tr - fr;
    var dc := tc - fc;
    assert (dr + dc) % 2 == 0 by {
      if dr == dc || dr == -dc {
        assert dr + dc == 2 * dr || dr + dc == 0;
      }
    }
    assert tr + tc == (fr + fc) + (dr + dc);
  }
}
