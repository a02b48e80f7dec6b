/** The AI of src/hooks/useAI.ts: `getAllValidMoves`, depth-limited `minimax`
    with alpha-beta pruning, and `getBestMove` with its three difficulty tiers.
    Scores are in half-points (see Evaluator); the terminal scores -1000 and
    +1000 of the source are therefore -2000 and +2000 here. */
module Search {
  import opened Types
  import opened Rules
  import opened MoveGen
  import opened Evaluator

  /** The numbers the search compares: the scores, and the -Infinity and
      +Infinity that start `alpha`, `beta`, `maxEval`, `minEval` and `bestScore`. */
  datatype ExtInt = NegInf | Fin(n: int) | PosInf

  predicate Le(a: ExtInt, b: ExtInt)
  {
    a.NegInf? || b.PosInf? || (a.Fin? && b.Fin? && a.n <= b.n)
  }

  predicate Lt(a: ExtInt, b: ExtInt)
  {
    !Le(b, a)
  }

  /** `Math.max`. */
  function Max(a: ExtInt, b: ExtInt): ExtInt
  {
    if Le(a, b) then b else a
  }

  /** `Math.min`. */
  function Min(a: ExtInt, b: ExtInt): ExtInt
  {
    if Le(a, b) then a else b
  }

  const TerminalScore: int := 2000

  /** The largest element of a non-empty sequence. */
  function MaxSeq(s: seq<int>): (r: int)
    requires |s| > 0
    ensures forall k :: 0 <= k < |s| ==> s[k] <= r
    ensures exists k :: 0 <= k < |s| && s[k] == r
  {
    if |s| == 1 then s[0]
    else
      var m := MaxSeq(s[..|s| - 1]);
      if s[|s| - 1] > m then s[|s| - 1] else m
  }

  /** The smallest element of a non-empty sequence. */
  function MinSeq(s: seq<int>): (r: int)
    requires |s| > 0
    ensures forall k :: 0 <= k < |s| ==> r <= s[k]
    ensures exists k :: 0 <= k < |s| && s[k] == r
  {
    if |s| == 1 then s[0]
    else
      var m := MinSeq(s[..|s| - 1]);
      if s[|s| - 1] < m then s[|s| - 1] else m
  }

  lemma AllMovesApplicable(b: Board, p: Player)
    ensures forall m :: m in AllMoves(b, p) ==> Applicable(b, m)
  {
    forall m | m in AllMoves(b, p)
      ensures Applicable(b, m)
    {
      AllMovesCharacterized(b, p, m);
    }
  }

  /** The side to move at a ply. */
  function Mover(maximizing: bool, player: Player): Player
  {
    if maximizing then player else Opponent(player)
  }

  /** Plain depth-limited minimax, without pruning: the reference value of the
      search. `player` is the side the evaluation is from. */
  function Minimax(b: Board, depth: nat, maximizing: bool, player: Player): int
    decreases depth, 1, 0
  {
    if depth == 0 then Eval(b, player)
    else
      var moves := AllMoves(b, Mover(maximizing, player));
      if |moves| == 0 then (if maximizing then -TerminalScore else TerminalScore)
      else
        AllMovesApplicable(b, Mover(maximizing, player));
        var scores := Scores(b, moves, depth - 1, !maximizing, player);
        if maximizing then MaxSeq(scores) else MinSeq(scores)
  }

  /** The minimax values, at depth `d`, of the boards reached by `moves`. */
  function Scores(b: Board, moves: seq<Move>, d: nat, childMaximizing: bool, player: Player): (s: seq<int>)
    requires forall m :: m in moves ==> Applicable(b, m)
    ensures |s| == |moves|
    decreases d + 1, 0, |moves|
  {
    if moves == [] then []
    else
      Scores(b, moves[..|moves| - 1], d, childMaximizing, player)
      + [Minimax(ApplyMove(b, moves[|moves| - 1]), d, childMaximizing, player)]
  }

  lemma {:induction false} ScoresAt(b: Board, moves: seq<Move>, d: nat, childMaximizing: bool, player: Player, k: int)
    requires forall m :: m in moves ==> Applicable(b, m)
    requires 0 <= k < |moves|
    ensures Scores(b, moves, d, childMaximizing, player)[k]
         == Minimax(ApplyMove(b, moves[k]), d, childMaximizing, player)
  {
    if k < |moves| - 1 {
      ScoresAt(b, moves[..|moves| - 1], d, childMaximizing, player, k);
    }
  }

  /** The fail-soft alpha-beta contract: inside the window the value is exact;
      at or below `alpha` it bounds the true value from above; at or above
      `beta` it bounds it from below. */
  predicate FailSoft(value: int, alpha: ExtInt, beta: ExtInt, exact: int)
  {
    && (Lt(alpha, Fin(value)) && Lt(Fin(value), beta) ==> value == exact)
    && (Le(Fin(value), alpha) ==> exact <= value)
    && (Le(beta, Fin(value)) ==> value <= exact)
  }

  /** `minimax(board, depth, alpha, beta, maximizingPlayer, player)`. At depth 0
      the evaluation; with no move for the side to move, the terminal score;
      otherwise a loop over the moves (`MaxPly` or `MinPly`). */
  method MinimaxSearch(board: Board, depth: nat, alpha: ExtInt, beta: ExtInt, maximizing: bool, player: Player)
    returns (value: int)
    requires Lt(alpha, beta)
    ensures depth == 0 ==> value == Eval(board, player)
    ensures depth > 0 && AllMoves(board, Mover(maximizing, player)) == [] ==>
              value == (if maximizing then -TerminalScore else TerminalScore)
    ensures FailSoft(value, alpha, beta, Minimax(board, depth, maximizing, player))
    ensures alpha == NegInf && beta == PosInf ==> value == Minimax(board, depth, maximizing, player)
    decreases depth, 3
  {
    if depth == 0 {
      value := EvaluateBoard(board, player);
      MinimaxLeaf(board, maximizing, player);
      return;
    }
    var currentPlayer := if maximizing then player else (if player == Red then Black else Red);
    var moves := GetAllValidMoves(board, currentPlayer);
    if |moves| == 0 {
      value := if maximizing then -TerminalScore else TerminalScore;
      MinimaxNoMoves(board, depth, maximizing, player);
      return;
    }
    AllMovesApplicable(board, currentPlayer);
    if maximizing {
      value := MaxPly(board, depth, alpha, beta, player, moves);
    } else {
      value := MinPly(board, depth, alpha, beta, player, moves);
    }
    MinimaxOfMoves(board, depth, maximizing, player, value, alpha, beta);
  }

  /** One iteration's search: the move applied to a copy of the board and the
      result searched one ply deeper with the current window. */
  method ChildSearch(board: Board, m: Move, d: nat, alpha: ExtInt, beta: ExtInt, childMaximizing: bool,
                     player: Player)
    returns (value: int)
    requires Applicable(board, m) && Lt(alpha, beta)
    ensures FailSoft(value, alpha, beta, Minimax(ApplyMove(board, m), d, childMaximizing, player))
    decreases d + 1, 0
  {
    var newBoard := ApplyMove(board, m);
    value := MinimaxSearch(newBoard, d, alpha, beta, childMaximizing, player);
  }

  /** `ChildSearch` for the `i`-th move of `moves`, stated against that
      child's entry in `Scores`. */
  method ChildAt(board: Board, moves: seq<Move>, i: int, d: nat, alpha: ExtInt, beta: ExtInt,
                 childMaximizing: bool, player: Player)
    returns (value: int)
    requires Lt(alpha, beta) && 0 <= i < |moves|
    requires forall m :: m in moves ==> Applicable(board, m)
    ensures FailSoft(value, alpha, beta, Scores(board, moves, d, childMaximizing, player)[i])
    decreases d + 1, 1
  {
    assert moves[i] in moves;
    value := ChildSearch(board, moves[i], d, alpha, beta, childMaximizing, player);
    ChildScore(board, moves, d, childMaximizing, player, i, value, alpha, beta);
  }

  lemma ChildScore(b: Board, moves: seq<Move>, d: nat, childMaximizing: bool, player: Player, i: int,
                   v: int, alpha: ExtInt, beta: ExtInt)
    requires forall m :: m in moves ==> Applicable(b, m)
    requires 0 <= i < |moves|
    requires FailSoft(v, alpha, beta, Minimax(ApplyMove(b, moves[i]), d, childMaximizing, player))
    ensures FailSoft(v, alpha, beta, Scores(b, moves, d, childMaximizing, player)[i])
  {
    ScoresAt(b, moves, d, childMaximizing, player, i);
  }

  /** The maximizing loop: each move applied to a copy of the board, searched
      one ply deeper, `maxEval` and `alpha` raised, stop once `beta <= alpha`. */
  method MaxPly(board: Board, depth: nat, alpha: ExtInt, beta: ExtInt, player: Player, moves: seq<Move>)
    returns (value: int)
    requires depth > 0 && Lt(alpha, beta)
    requires moves != [] && forall m :: m in moves ==> Applicable(board, m)
    ensures FailSoft(value, alpha, beta, MaxSeq(Scores(board, moves, depth - 1, false, player)))
    decreases depth, 2
  {
    ghost var scores := Scores(board, moves, depth - 1, false, player);
    var maxEval := NegInf;
    var a := alpha;
    var i := 0;
    while i < |moves|
      invariant MaxInv(alpha, beta, a, maxEval, scores, i)
    {
      var evalScore := ChildAt(board, moves, i, depth - 1, a, beta, false, player);
      MaxStep(alpha, beta, a, maxEval, scores, i, evalScore);
      maxEval := Max(maxEval, Fin(evalScore));
      a := Max(a, Fin(evalScore));
      if Le(beta, a) {
        break;
      }
      i := i + 1;
    }
    if i == |moves| {
      MaxDone(alpha, beta, a, maxEval, scores);
    }
    value := maxEval.n;
  }

  /** The minimizing loop: `minEval` and `beta` lowered, stop once `beta <= alpha`. */
  method MinPly(board: Board, depth: nat, alpha: ExtInt, beta: ExtInt, player: Player, moves: seq<Move>)
    returns (value: int)
    requires depth > 0 && Lt(alpha, beta)
    requires moves != [] && forall m :: m in moves ==> Applicable(board, m)
    ensures FailSoft(value, alpha, beta, MinSeq(Scores(board, moves, depth - 1, true, player)))
    decreases depth, 2
  {
    ghost var scores := Scores(board, moves, depth - 1, true, player);
    var minEval := PosInf;
    var b := beta;
    var i := 0;
    while i < |moves|
      invariant MinInv(alpha, beta, b, minEval, scores, i)
    {
      var evalScore := ChildAt(board, moves, i, depth - 1, alpha, b, true, player);
      MinStep(alpha, beta, b, minEval, scores, i, evalScore);
      minEval := Min(minEval, Fin(evalScore));
      b := Min(b, Fin(evalScore));
      if Le(b, alpha) {
        break;
      }
      i := i + 1;
    }
    if i == |moves| {
      MinDone(alpha, beta, b, minEval, scores);
    }
    value := minEval.n;
  }

  lemma MinimaxLeaf(b: Board, maximizing: bool, player: Player)
    ensures Minimax(b, 0, maximizing, player) == Eval(b, player)
  {
  }

  lemma MinimaxNoMoves(b: Board, depth: nat, maximizing: bool, player: Player)
    requires depth > 0 && AllMoves(b, Mover(maximizing, player)) == []
    ensures Minimax(b, depth, maximizing, player) == if maximizing then -TerminalScore else TerminalScore
  {
  }

  /** At an inner node with moves, the minimax value is the best of its
      children's values. */
  lemma MinimaxInner(b: Board, depth: nat, maximizing: bool, player: Player)
    requires depth > 0 && AllMoves(b, Mover(maximizing, player)) != []
    requires forall m :: m in AllMoves(b, Mover(maximizing, player)) ==> Applicable(b, m)
    ensures var scores := Scores(b, AllMoves(b, Mover(maximizing, player)), depth - 1, !maximizing, player);
            Minimax(b, depth, maximizing, player) == if maximizing then MaxSeq(scores) else MinSeq(scores)
  {
  }

  /** A fail-soft bound on the best child value is one on the node's value. */
  lemma MinimaxOfMoves(b: Board, depth: nat, maximizing: bool, player: Player, v: int, alpha: ExtInt, beta: ExtInt)
    requires depth > 0 && AllMoves(b, Mover(maximizing, player)) != []
    requires forall m :: m in AllMoves(b, Mover(maximizing, player)) ==> Applicable(b, m)
    requires var scores := Scores(b, AllMoves(b, Mover(maximizing, player)), depth - 1, !maximizing, player);
             FailSoft(v, alpha, beta, if maximizing then MaxSeq(scores) else MinSeq(scores))
    ensures FailSoft(v, alpha, beta, Minimax(b, depth, maximizing, player))
    ensures alpha == NegInf && beta == PosInf ==> v == Minimax(b, depth, maximizing, player)
  {
    MinimaxInner(b, depth, maximizing, player);
  }

  /** The invariant of the maximizing loop after the children `scores[..i]`:
      `a` is `alpha` raised to `maxEval`, the window is still open, and
      `maxEval` is the largest of those children's values (bounded by them
      from above; attained by one of them once it is above `alpha`). */
  ghost predicate MaxInv(alpha: ExtInt, beta: ExtInt, a: ExtInt, maxEval: ExtInt, scores: seq<int>, i: int)
  {
    && 0 <= i <= |scores|
    && a == Max(alpha, maxEval)
    && Lt(a, beta)
    && (i == 0 <==> maxEval.NegInf?)
    && !maxEval.PosInf?
    && (maxEval.Fin? ==> forall k :: 0 <= k < i ==> scores[k] <= maxEval.n)
    && (maxEval.Fin? && Lt(alpha, maxEval) ==> exists k :: 0 <= k < i && scores[k] == maxEval.n)
  }

  /** One iteration of the maximizing loop, given the fail-soft value `e` of
      child `i`: either the window stays open and the invariant holds for
      `i + 1` children, or the cut-off value is a fail-soft value of the node. */
  lemma MaxStep(alpha: ExtInt, beta: ExtInt, a: ExtInt, maxEval: ExtInt, scores: seq<int>, i: int, e: int)
    requires MaxInv(alpha, beta, a, maxEval, scores, i) && i < |scores|
    requires FailSoft(e, a, beta, scores[i])
    ensures Lt(Max(a, Fin(e)), beta) ==>
      MaxInv(alpha, beta, Max(a, Fin(e)), Max(maxEval, Fin(e)), scores, i + 1)
    ensures Le(beta, Max(a, Fin(e))) ==>
      Max(maxEval, Fin(e)) == Fin(e) && FailSoft(e, alpha, beta, MaxSeq(scores))
  {
    var m' := Max(maxEval, Fin(e));
    if Lt(Max(a, Fin(e)), beta) {
      assert scores[i] <= m'.n;
      if Lt(alpha, m') && m' == maxEval {
        var k :| 0 <= k < i && scores[k] == maxEval.n;
      }
    } else {
      assert scores[i] <= MaxSeq(scores);
    }
  }

  /** After the last child, `maxEval` is a fail-soft value of the node. */
  lemma MaxDone(alpha: ExtInt, beta: ExtInt, a: ExtInt, maxEval: ExtInt, scores: seq<int>)
    requires |scores| > 0 && MaxInv(alpha, beta, a, maxEval, scores, |scores|)
    ensures maxEval.Fin? && FailSoft(maxEval.n, alpha, beta, MaxSeq(scores))
  {
    var k :| 0 <= k < |scores| && scores[k] == MaxSeq(scores);
  }

  /** The invariant of the minimizing loop, the mirror image of `MaxInv`. */
  ghost predicate MinInv(alpha: ExtInt, beta: ExtInt, b: ExtInt, minEval: ExtInt, scores: seq<int>, i: int)
  {
    && 0 <= i <= |scores|
    && b == Min(beta, minEval)
    && Lt(alpha, b)
    && (i == 0 <==> minEval.PosInf?)
    && !minEval.NegInf?
    && (minEval.Fin? ==> forall k :: 0 <= k < i ==> minEval.n <= scores[k])
    && (minEval.Fin? && Lt(minEval, beta) ==> exists k :: 0 <= k < i && scores[k] == minEval.n)
  }

  lemma MinStep(alpha: ExtInt, beta: ExtInt, b: ExtInt, minEval: ExtInt, scores: seq<int>, i: int, e: int)
    requires MinInv(alpha, beta, b, minEval, scores, i) && i < |scores|
    requires FailSoft(e, alpha, b, scores[i])
    ensures Lt(alpha, Min(b, Fin(e))) ==>
      MinInv(alpha, beta, Min(b, Fin(e)), Min(minEval, Fin(e)), scores, i + 1)
    ensures Le(Min(b, Fin(e)), alpha) ==>
      Min(minEval, Fin(e)) == Fin(e) && FailSoft(e, alpha, beta, MinSeq(scores))
  {
    var m' := Min(minEval, Fin(e));
    if Lt(alpha, Min(b, Fin(e))) {
      assert m'.n <= scores[i];
      if Lt(m', beta) && m' == minEval {
        var k :| 0 <= k < i && scores[k] == minEval.n;
      }
    } else {
      assert MinSeq(scores) <= scores[i];
    }
  }

  lemma MinDone(alpha: ExtInt, beta: ExtInt, b: ExtInt, minEval: ExtInt, scores: seq<int>)
    requires |scores| > 0 && MinInv(alpha, beta, b, minEval, scores, |scores|)
    ensures minEval.Fin? && FailSoft(minEval.n, alpha, beta, MinSeq(scores))
  {
    var k :| 0 <= k < |scores| && scores[k] == MinSeq(scores);
  }

  /** `allMoves.filter(m => m.isJump)`: the jumps, in their original order. */
  function Jumps(moves: seq<Move>): (r: seq<Move>)
    ensures forall m :: m in r <==> m in moves && m.isJump
    ensures |r| <= |moves|
  {
    if moves == [] then []
    else Jumps(moves[..|moves| - 1]) + (if moves[|moves| - 1].isJump then [moves[|moves| - 1]] else [])
  }

  /** True when some move of `moves` is a jump. */
  predicate HasJump(moves: seq<Move>)
  {
    exists m :: m in moves && m.isJump
  }

  /** `movesToEvaluate`: the jumps when there are any, otherwise every move. */
  function Candidates(moves: seq<Move>): (c: seq<Move>)
    ensures forall m :: m in c ==> m in moves
    ensures moves != [] ==> c != []
    ensures HasJump(moves) ==> forall m :: m in c ==> m.isJump
    ensures HasJump(moves) ==> forall m :: m in moves && m.isJump ==> m in c
    ensures !HasJump(moves) ==> c == moves
  {
    var jumps := Jumps(moves);
    if jumps != [] then
      assert jumps[0] in jumps;
      jumps
    else
      moves
  }

  /** The depth of the advanced tier's look-ahead below each candidate. */
  const SearchDepth: nat := 3

  /** The index of the first largest of `s[..n]`: what a scan keeping the
      best so far and replacing it only on a strictly larger value returns. */
  function FirstMaxIndex(s: seq<int>, n: nat): (k: nat)
    requires 0 < n <= |s|
    ensures k < n
    ensures forall j :: 0 <= j < n ==> s[j] <= s[k]
    ensures forall j :: 0 <= j < k ==> s[j] < s[k]
  {
    if n == 1 then 0
    else
      var k := FirstMaxIndex(s, n - 1);
      if s[n - 1] > s[k] then n - 1 else k
  }

  /** The score the advanced tier gives a root move: plain minimax at depth
      `SearchDepth` of the board after it, with the opponent to move. */
  function RootScore(b: Board, m: Move, player: Player): int
    requires m in AllMoves(b, player)
  {
    AllMovesApplicable(b, player);
    Minimax(ApplyMove(b, m), SearchDepth, false, player)
  }

  /** The root scores of the candidates, in order. */
  function RootScores(b: Board, player: Player): (s: seq<int>)
    ensures |s| == |Candidates(AllMoves(b, player))|
  {
    AllMovesApplicable(b, player);
    Scores(b, Candidates(AllMoves(b, player)), SearchDepth, false, player)
  }

  lemma RootScoreAt(b: Board, player: Player, j: int)
    requires 0 <= j < |Candidates(AllMoves(b, player))|
    ensures Candidates(AllMoves(b, player))[j] in AllMoves(b, player)
    ensures RootScores(b, player)[j] == RootScore(b, Candidates(AllMoves(b, player))[j], player)
  {
    var cands := Candidates(AllMoves(b, player));
    AllMovesApplicable(b, player);
    assert cands[j] in cands;
    ScoresAt(b, cands, SearchDepth, false, player, j);
  }

  /** The move the advanced tier returns: among the candidates, the first whose
      board scores highest at depth `SearchDepth` with the opponent to move. */
  function AdvancedPick(b: Board, player: Player): (m: Move)
    requires AllMoves(b, player) != []
    ensures m in AllMoves(b, player)
  {
    var cands := Candidates(AllMoves(b, player));
    cands[FirstMaxIndex(RootScores(b, player), |cands|)]
  }

  /** The advanced pick is a legal candidate, and a jump when one exists. */
  lemma AdvancedPickLegal(b: Board, player: Player)
    requires AllMoves(b, player) != []
    ensures AdvancedPick(b, player) in Candidates(AllMoves(b, player))
    ensures LegalMove(b, player, AdvancedPick(b, player))
    ensures HasJump(AllMoves(b, player)) ==> AdvancedPick(b, player).isJump
  {
    var cands := Candidates(AllMoves(b, player));
    var k := FirstMaxIndex(RootScores(b, player), |cands|);
    assert AdvancedPick(b, player) == cands[k] && cands[k] in cands;
    AllMovesCharacterized(b, player, cands[k]);
  }

  /** No candidate scores higher than the advanced pick. */
  lemma AdvancedPickIsBest(b: Board, player: Player, m: Move)
    requires AllMoves(b, player) != []
    requires m in Candidates(AllMoves(b, player))
    ensures AdvancedPick(b, player) in AllMoves(b, player)
    ensures RootScore(b, m, player) <= RootScore(b, AdvancedPick(b, player), player)
  {
    var cands := Candidates(AllMoves(b, player));
    var k := FirstMaxIndex(RootScores(b, player), |cands|);
    assert AdvancedPick(b, player) == cands[k];
    RootScoreAt(b, player, k);
    var j :| 0 <= j < |cands| && cands[j] == m;
    RootScoreAt(b, player, j);
  }

  /** `getBestMove(board, player, difficulty)`. `Math.random` becomes a choice
      the model leaves open: any index in range may be picked. */
  method GetBestMove(board: Board, player: Player, difficulty: AILevel) returns (best: Option<Move>)
    ensures best.None? <==> AllMoves(board, player) == []
    ensures best.Some? ==> best.value in AllMoves(board, player) && LegalMove(board, player, best.value)
    ensures best.Some? && difficulty != Beginner && HasJump(AllMoves(board, player)) ==> best.value.isJump
    ensures best.Some? && difficulty == Advanced ==> best.value == AdvancedPick(board, player)
  {
    var allMoves := GetAllValidMoves(board, player);
    if |allMoves| == 0 {
      return None;
    }
    match difficulty {
    case Beginner =>
      var k :| 0 <= k < |allMoves|;
      best := Some(allMoves[k]);
    case Intermediate =>
      var jumps := JumpMoves(allMoves);
      if |jumps| > 0 {
        var k :| 0 <= k < |jumps|;
        assert jumps[k] in jumps;
        best := Some(jumps[k]);
      } else {
        var k :| 0 <= k < |allMoves|;
        best := Some(allMoves[k]);
      }
    case Advanced =>
      var jumps := JumpMoves(allMoves);
      var movesToEvaluate := if |jumps| > 0 then jumps else allMoves;
      assert movesToEvaluate == Candidates(allMoves);
      AllMovesApplicable(board, player);
      var m := BestCandidate(board, player, movesToEvaluate);
      assert m in movesToEvaluate;
      best := Some(m);
    }
    AllMovesCharacterized(board, player, best.value);
  }

  /** The `filter` call, as the loop it runs. */
  method JumpMoves(moves: seq<Move>) returns (jumps: seq<Move>)
    ensures jumps == Jumps(moves)
  {
    jumps := [];
    var i := 0;
    while i < |moves|
      invariant 0 <= i <= |moves|
      invariant jumps == Jumps(moves[..i])
    {
      assert moves[..i + 1][..i] == moves[..i];
      if moves[i].isJump {
        jumps := jumps + [moves[i]];
      }
      i := i + 1;
    }
    assert moves[..i] == moves;
  }

  /** The advanced tier's loop: each candidate searched to depth `SearchDepth`
      with the full window, the first strictly best kept. */
  method BestCandidate(board: Board, player: Player, cands: seq<Move>) returns (best: Move)
    requires cands != [] && forall m :: m in cands ==> Applicable(board, m)
    ensures best == cands[FirstMaxIndex(Scores(board, cands, SearchDepth, false, player), |cands|)]
  {
    ghost var scores := Scores(board, cands, SearchDepth, false, player);
    ghost var bestIndex := 0;
    var bestMove: Option<Move> := None;
    var bestScore := NegInf;
    var i := 0;
    while i < |cands|
      invariant BestSoFar(scores, i, bestScore, bestIndex)
      invariant i > 0 ==> bestMove == Some(cands[bestIndex])
    {
      var score := ChildAt(board, cands, i, SearchDepth, NegInf, PosInf, false, player);
      BestStep(scores, i, bestScore, bestIndex, score);
      if Lt(bestScore, Fin(score)) {
        bestScore := Fin(score);
        bestMove := Some(cands[i]);
        bestIndex := i;
      }
      i := i + 1;
    }
    assert i == |cands| && bestIndex == FirstMaxIndex(scores, |cands|);
    best := bestMove.value;
  }

  /** After the first `i` candidates, `bestScore` is the first largest score
      among them, at index `k` (nothing seen yet: -Infinity). */
  ghost predicate BestSoFar(s: seq<int>, i: int, bestScore: ExtInt, k: int)
  {
    && 0 <= i <= |s|
    && (i == 0 ==> bestScore.NegInf?)
    && (i > 0 ==> k == FirstMaxIndex(s, i) && bestScore == Fin(s[k]))
  }

  lemma BestStep(s: seq<int>, i: int, bestScore: ExtInt, k: int, score: int)
    requires BestSoFar(s, i, bestScore, k) && i < |s|
    requires FailSoft(score, NegInf, PosInf, s[i])
    ensures Lt(bestScore, Fin(score)) ==> BestSoFar(s, i + 1, Fin(score), i)
    ensures !Lt(bestScore, Fin(score)) ==> BestSoFar(s, i + 1, bestScore, k)
  {
  }
}
