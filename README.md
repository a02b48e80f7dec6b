# Draughts engine and computer player: a Dafny model

This project models the rules engine and the computer player of a React
draughts (checkers) game on an 8x8 board. Red plays the human side, black
the computer. The modelled core is:

- the value types of `src/types/game.ts`;
- the two copies of move generation: `getValidMoves` for one square and
  `getAllValidMoves` for every square of a side;
- move application with capture and crowning;
- the evaluator `evaluateBoard`;
- depth-limited minimax with alpha-beta pruning (`minimax`);
- `getBestMove` with its beginner, intermediate and advanced tiers;
- the turn state machine of `useGameState`: the initial board and snapshot,
  `handleTileClick`, the drag path `movePiece`, `setAILevel`, and the commit
  of the computer's move or of its loss.

Modules, in dependency order:

| module | file | models |
|---|---|---|
| `Types` | `types.dfy` | players, pieces, the 8x8 board as a value, positions, moves, the `GameState` snapshot |
| `Rules` | `rules.dfy` | the move rules as functions, an independent legality predicate, move application |
| `Evaluator` | `evaluator.dfy` | `evaluateBoard`, as a loop proved equal to a sum |
| `MoveGen` | `movegen.dfy` | both move generators, as loops proved equal to the rule functions |
| `Search` | `search.dfy` | `minimax` with pruning, plain minimax as its specification, `getBestMove` |
| `Controller` | `controller.dfy` | `createInitialBoard`, the initial state, and the snapshot transitions |

Conventions of the model:

- **Boards are values.** A board is a sequence of eight rows of eight cells.
  A cell holds an optional `Piece(color, isKing)`. Applying a move builds a new
  board with a new crowned piece where the source crowns.
- **Piece aliasing is not modelled.** The source copies rows shallowly
  (`board.map(r => [...r])`) and then sets `piece.isKing = true` on the Piece
  object it shares with the board it copied from (src/hooks/useAI.ts:146,
  :171, :232; src/hooks/useGameState.ts:109, :160, :203). A crowning during
  the search therefore also crowns that piece in the board the caller still
  holds. Here pieces are immutable values, and only the new board holds the
  crowned piece. In the running game this matters on the advanced tier. Its
  search copies boards from `gameState.board`, so each piece object the
  search crowns is also a piece of the live board, and every later snapshot
  keeps it. A red man one step from row 0, or a black man one step from
  row 7, can therefore become a king in the real game without having moved:
  the search only has to try the crowning move. The same write at
  src/hooks/useGameState.ts:109 and :160 crowns the piece in the previous
  snapshot as well as in the new one.
- **Scores are in half-points.** Every weight of the evaluator is a multiple
  of 0.5, so the model doubles all scores and stays in integers. The
  terminal score 1000 becomes `TerminalScore` = 2000.
- **Infinities.** `-Infinity` and `Infinity`, the initial values of
  `alpha`, `beta`, `maxEval`, `minEval` and `bestScore`, are the
  `NegInf`/`PosInf` cases of an extended-integer type `ExtInt`.
- **Randomness.** `Math.random` in the beginner and intermediate tiers
  becomes a nondeterministic choice (`:|`) of an index in range. The
  contracts hold for every choice.
- **Specifications and loops.** Code that loops (the generators, the
  evaluator, the minimax move loops, the advanced tier's scan,
  `createInitialBoard`) is a method. Each method except the minimax move
  loops is proved equal to a function, and the properties are proved about
  the function. The minimax loops are proved fail-soft against plain
  minimax, and the search equals plain minimax with the full window (see
  below). The snapshot
  transitions of `useGameState` build a new record from the old one and are
  functions here.

What is proved, in short:

- Each move generator equals a specification function. That function is
  characterised both ways by `LegalMove`, a predicate written independently
  of the generator.
- Move application changes exactly the start, target and captured cells. It
  crowns exactly on the far rank, and it keeps pieces on dark squares.
- The pruned search is *fail-soft* against plain minimax. Inside the
  `(alpha, beta)` window its result is exact. At or below `alpha` it is an
  upper bound of the exact value, and at or above `beta` a lower bound. With
  the full window it equals plain minimax.
- For `getBestMove`:
  - it returns nothing exactly when the side has no move;
  - every move it returns is legal;
  - the intermediate and advanced tiers return a jump whenever a jump exists;
  - the advanced tier returns the first candidate of maximal depth-3 score,
    and no candidate scores higher.
- The initial board has twelve men per side, placed on dark squares only.
- For the snapshots:
  - every transition keeps the snapshot valid: clicks, drags, the level
    setting, the start of the computer's turn, and its commit;
  - for clicks, drags and the computer's turn, the board changes exactly
    when the turn passes to the other side;
  - clicks are ignored while the computer thinks;
  - once a winner is set, no click, drag or computer turn changes anything.
    Only the level setting still changes the level.

## Model

| member | source | states |
|---|---|---|
| `Types.IsValidPos` | src/hooks/useAI.ts:5-7 | the on-board test, `0 <= row < 8` and `0 <= col < 8`; it also stands for the copy at src/hooks/useGameState.ts:32-39, which takes a `Position` (`Types.OnBoard`). What it guards is stated by `Types.ValidPosIndexes` |
| `Types.ValidPosIndexes` | src/hooks/useGameState.ts:32-39 | a position passes the on-board test exactly when it indexes a cell of the board, so every guarded lookup is in range |
| `Types.Put` | src/hooks/useAI.ts:134-137 | writing one cell of a copied board sets that cell and leaves every other on-board cell as it was |
| `Rules.Directions` | src/hooks/useAI.ts:20-28 | every step direction is a unit diagonal |
| `Rules.DirectionsRule` | src/hooks/useAI.ts:22-28 | a piece steps up only if it is red or a king and down only if it is black or a king; red pieces and kings get both upward diagonals, black pieces and kings both downward ones |
| `Rules.SquareMovesList` | src/hooks/useAI.ts:16-19 | the row-major sweep visits all 64 squares |
| `Rules.DirectionMovesSound` | src/hooks/useAI.ts:33-61 | each move generated in one direction is legal: a one-step diagonal to a free cell with no capture, or a two-step diagonal to a free cell over an opposing piece at the midpoint |
| `Rules.DirsMovesSound` | src/hooks/useGameState.ts:53-68 | every move generated over a list of permitted directions is legal for the piece |
| `Rules.MovesFromSound` | src/hooks/useGameState.ts:41-71 | every move generated for one square starts on that square and is legal for the piece |
| `Rules.DirsMovesContain` | src/hooks/useGameState.ts:53-68 | a move generated in one of the listed directions is in the combined output |
| `Rules.MovesFromComplete` | src/hooks/useGameState.ts:41-71 | every legal move of the piece on a square is generated for that square |
| `Rules.MovesFromCharacterized` | src/hooks/useGameState.ts:41-71 | a move is generated for a square if and only if it is legal from there |
| `Rules.SquareMovesCharacterized` | src/hooks/useAI.ts:18-63 | the moves produced at one square are exactly the legal moves of the side that start there |
| `Rules.FlattenMembership` | src/hooks/useAI.ts:13-67 | a move is in the concatenated output if and only if some square produced it |
| `Rules.AllMovesCharacterized` | src/hooks/useAI.ts:12-68 | a move is in `getAllValidMoves(board, p)` if and only if it is a legal move of side `p` |
| `Rules.AllMovesShape` | src/hooks/useAI.ts:16-28 | every generated move starts on a piece of the side; it goes up only for red or a king, down only for black or a king |
| `Rules.LegalIsApplicable` | src/hooks/useAI.ts:134-141 | a legal move only touches on-board cells and starts on a piece, so applying it is well defined |
| `Rules.Crowned` | src/hooks/useAI.ts:143-147 | the crowned piece keeps its colour and is a king iff it was one, or it is red on row 0, or black on row 7 |
| `Rules.ApplyMove` | src/hooks/useAI.ts:134-147 | the start square of the move is empty afterwards; so is the captured square of a jump; the target holds the mover, crowned by `Crowned`. The same copy appears at src/hooks/useAI.ts:159-172 and :220-233 and src/hooks/useGameState.ts:101-113, :149-161 and :188-206 |
| `Rules.ApplyMoveFrame` | src/hooks/useAI.ts:134-147 | after a move: the target holds the mover, crowned iff red reaches row 0 or black reaches row 7; the start and the captured cell are empty; every other cell is unchanged |
| `Rules.ApplyMoveKeepsDark` | src/hooks/useAI.ts:134-147 | applying a legal move keeps every piece on a dark square |
| `Evaluator.EvaluateBoard` | src/hooks/useAI.ts:71-108 | the nested loops compute the row-by-row sum of the per-piece weights (`Eval`) |
| `Evaluator.EmptyBoardScoresZero` | src/hooks/useAI.ts:71-108 | an empty board scores 0 for either side |
| `Evaluator.EvalSumNonNegative` | src/hooks/useAI.ts:80-103 | the two sides' evaluations of a board never sum below zero, because the opposing pieces are charged only their material |
| `Evaluator.EvalNotAntisymmetric` | src/hooks/useAI.ts:80-103 | a lone red man on (6, 1) scores 3.5 for red and -3 for black, so the evaluation is not zero-sum |
| `Evaluator.LoneManScore` | src/hooks/useAI.ts:75-105 | the board holding only a red man on (6, 1) evaluates to that piece's weight, for either side |
| `MoveGen.DirectionStep` | src/hooks/useGameState.ts:53-68 | one `forEach` step appends the simple move and then the jump of that direction, exactly the rule function's output |
| `MoveGen.GetValidMoves` | src/hooks/useGameState.ts:41-71 | the generated list equals the rule function for that square, in order; the same loop is the inline copy at src/hooks/useAI.ts:20-63 |
| `MoveGen.GetAllValidMoves` | src/hooks/useAI.ts:12-68 | the generated list is the concatenation, in row-major order, of the per-square lists of the side's pieces |
| `MoveGen.SquareMovesListAt` | src/hooks/useAI.ts:16-17 | the square at index `row * 8 + col` of the sweep is (row, col) |
| `MoveGen.ScanSquare` | src/hooks/useAI.ts:18-64 | visiting one square yields its moves if it holds a piece of the side, and nothing otherwise |
| `Search.MaxSeq` | src/hooks/useAI.ts:132-155 | the maximum of the child values bounds them all and is attained |
| `Search.MinSeq` | src/hooks/useAI.ts:157-180 | the minimum of the child values bounds them all and is attained |
| `Search.AllMovesApplicable` | src/hooks/useAI.ts:133-141 | every generated move can be applied to the board |
| `Search.ScoresAt` | src/hooks/useAI.ts:133-149 | the child value of the k-th move is minimax of the board after that move |
| `Search.MinimaxSearch` | src/hooks/useAI.ts:111-182 | depth 0 returns the evaluation; no moves returns -1000 when maximising and +1000 otherwise; the result is fail-soft against plain minimax, and equals it with the full window |
| `Search.ChildSearch` | src/hooks/useAI.ts:134-149 | the recursive call on the board after a move is fail-soft against that child's minimax value |
| `Search.ChildAt` | src/hooks/useAI.ts:133-149 | the value searched for the i-th move is fail-soft against the i-th child value |
| `Search.MaxPly` | src/hooks/useAI.ts:131-155 | the maximising loop, with `alpha` raised and a break once `beta <= alpha`, is fail-soft against the largest child value |
| `Search.MinPly` | src/hooks/useAI.ts:156-181 | the minimising loop, with `beta` lowered and a break once `beta <= alpha`, is fail-soft against the smallest child value |
| `Search.MaxStep` | src/hooks/useAI.ts:149-153 | one maximising iteration keeps the loop invariant, or its cut-off already decides the fail-soft result |
| `Search.MinStep` | src/hooks/useAI.ts:174-178 | one minimising iteration keeps the loop invariant, or its cut-off already decides the fail-soft result |
| `Search.MaxDone` | src/hooks/useAI.ts:133-155 | a maximising loop that ran to the end returns a fail-soft value |
| `Search.MinDone` | src/hooks/useAI.ts:158-180 | a minimising loop that ran to the end returns a fail-soft value |
| `Search.MinimaxOfMoves` | src/hooks/useAI.ts:123-181 | a fail-soft value for the best child is a fail-soft value for the position |
| `Search.Jumps` | src/hooks/useAI.ts:216 | the filter keeps exactly the jumps of the list |
| `Search.Candidates` | src/hooks/useAI.ts:216-217 | when a jump exists the moves evaluated are exactly the jumps; otherwise they are all the moves; never empty when moves exist |
| `Search.FirstMaxIndex` | src/hooks/useAI.ts:219-242 | the index kept by the strict `>` scan is maximal and strictly above every earlier score |
| `Search.RootScoreAt` | src/hooks/useAI.ts:219-236 | the k-th root score is the depth-3 minimax value of the board after the k-th candidate, with the opponent to move |
| `Search.AdvancedPick` | src/hooks/useAI.ts:211-245 | the advanced tier's choice is one of the side's moves |
| `Search.AdvancedPickLegal` | src/hooks/useAI.ts:211-245 | the advanced choice is a legal candidate, and a jump whenever any jump exists |
| `Search.AdvancedPickIsBest` | src/hooks/useAI.ts:236-241 | no candidate has a higher depth-3 score than the advanced choice |
| `Search.GetBestMove` | src/hooks/useAI.ts:185-249 | returns nothing iff the side has no move; any move returned is legal; intermediate and advanced return a jump whenever one exists; advanced returns the first best-scoring candidate |
| `Search.JumpMoves` | src/hooks/useAI.ts:216 | the filter loop computes `Jumps` |
| `Search.BestCandidate` | src/hooks/useAI.ts:212-244 | the scan keeping a strictly larger score returns the first candidate of maximal full-window depth-3 score |
| `Search.BestStep` | src/hooks/useAI.ts:236-241 | one scan step keeps the best-so-far invariant |
| `Controller.CreateInitialBoard` | src/hooks/useGameState.ts:7-30 | the nested loops build the opening position |
| `Controller.InitialBoardLayout` | src/hooks/useGameState.ts:13-27 | pieces stand on dark squares only and are all men; black exactly on rows 0-2, red exactly on rows 5-7; rows 3-4 are empty |
| `Controller.InitialBoardCounts` | src/hooks/useGameState.ts:13-27 | each side starts with twelve men |
| `Controller.InitialState` | src/hooks/useGameState.ts:74-83 | the initial snapshot is valid: red to move, nothing selected, no moves listed, no winner, the computer not thinking |
| `Controller.ValidMovesLegal` | src/hooks/useGameState.ts:137-141 | each listed move starts at the selection and is a legal move of the side to move |
| `Controller.FirstIndex` | src/hooks/useGameState.ts:145-147 | `find` returns the first matching element, or nothing when none matches |
| `Controller.HandleTileClick` | src/hooks/useGameState.ts:131-175 | a click never changes the winner, the mode, the level or the thinking flag |
| `Controller.MovePiece` | src/hooks/useGameState.ts:178-216 | a drag never changes the winner, the mode, the level or the thinking flag |
| `Controller.SetAILevel` | src/hooks/useGameState.ts:218-220 | sets the level and keeps the snapshot valid |
| `Controller.AiToMove` | src/hooks/useGameState.ts:89-93 | the effect's guard: playing the computer, black to move, no winner. `Controller.HandOverToComputer` and `Controller.AiTurn` state when it holds |
| `Controller.BeginAiTurn` | src/hooks/useGameState.ts:89-96 | when the computer is to move it is marked as thinking; board, turn and winner stay; a valid snapshot stays valid |
| `Controller.CommitAiMove` | src/hooks/useGameState.ts:99-124 | the commit clears the thinking flag and keeps mode and level; with no move, red wins and the board stays; with a move, the board is that move applied, red is to move, the selection and listed moves are cleared and the winner is kept |
| `Controller.AiTurn` | src/hooks/useGameState.ts:88-126 | unless the computer is to move nothing changes; otherwise red wins iff black has no move, or black's chosen legal move is made, red is to move and nothing is selected; the intermediate and advanced tiers play a jump whenever black has one; the advanced tier makes the advanced choice; the board changes iff the side to move changes; afterwards the guard no longer holds; the snapshot stays valid |
| `Controller.TargetDeterminesMove` | src/hooks/useGameState.ts:144-147 | in a valid snapshot two listed moves with the same target are the same move, so the `find` on the target alone picks the only candidate |
| `Controller.HandOverToComputer` | src/hooks/useGameState.ts:89-93 | against the computer, a click that moves a red piece leaves a snapshot in which the computer's turn starts |
| `Controller.CommitKeepsValid` | src/hooks/useGameState.ts:149-168 | making a legal move keeps the snapshot valid |
| `Controller.MoveChangesBoard` | src/hooks/useGameState.ts:149-161 | a legal move always changes the board |
| `Controller.ClickIgnoredWhenBusy` | src/hooks/useGameState.ts:132 | clicks change nothing while the computer thinks or after a winner is set |
| `Controller.ClickSelects` | src/hooks/useGameState.ts:137-141 | clicking a piece of the side to move selects it and lists exactly the legal moves from there; board and turn are unchanged |
| `Controller.ClickMoves` | src/hooks/useGameState.ts:144-169 | clicking an empty listed target makes the listed move to it (there is only one, by `Controller.TargetDeterminesMove`): a legal move, after which the other side is to move and nothing is selected |
| `Controller.ClickDeselects` | src/hooks/useGameState.ts:172-173 | any other click only clears the selection and the listed moves |
| `Controller.ClickKeepsValid` | src/hooks/useGameState.ts:131-175 | clicks keep the snapshot valid, and the board changes iff the side to move changes |
| `Controller.DragMoves` | src/hooks/useGameState.ts:178-216 | a drag is a no-op unless a listed move runs from `from` to `to`; otherwise that legal move is made and the other side is to move; validity is kept; the board changes iff the turn passes |
| `Controller.GameOverIsFinal` | src/hooks/useGameState.ts:132 | once a winner is set, neither clicks nor drags change anything; for drags this holds because no move is listed then |

## Left out

- React plumbing is not modelled: `useState`, `useCallback`, the effect's
  dependency list, and the one-second `setTimeout`/`clearTimeout` delay. Only
  the snapshots those effects commit are modelled. The effect reads the board
  from its closure and the commit from `prev`. Here both are the same
  snapshot, so no click can fall between the two.
- `Math.random` is a nondeterministic choice; its distribution is not
  modelled.
- Piece aliasing is not modelled; see the conventions above. A crowning in
  the source also mutates the piece in the board the caller still holds, and
  later siblings in the search would then see a king. The model never does
  that.
- The fallback at src/hooks/useAI.ts:248 is not modelled. It is reachable
  only for a level outside the three, and `AILevel` has exactly three values.
- `Search.MinimaxSearch` and the helpers under it are split into a method per
  loop (`MaxPly`, `MinPly`) and a method per recursive call (`ChildSearch`,
  `ChildAt`). This is only a split of one function; the order of evaluation
  and the break conditions are those of the source.
- The `console.log` calls in `createInitialBoard` are left out.
- The source detects no draw, no loss of the human side and no win for
  black. Its only winner is red, set when the computer has no move. The
  model adds none of these. `Controller.Valid` records that a set winner is
  always red.
- `Controller.HandleTileClick` and `Controller.MovePiece` require a valid
  snapshot. The source reads the selected piece with a non-null assertion
  (`!`), which presumes the selection holds a piece.
  `Controller.HandleTileClick` also requires an on-board square; an
  off-board row would throw in the source.
- Move generation enforces neither mandatory capture nor chained jumps,
  because the source enforces neither.
- Undo, clocks, move history and score breakdowns are not modelled. They are
  referenced by the user interface, but no hook in the modelled core defines
  them.
