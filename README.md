# Checkers rules engine in Dafny

This project models the rules engine of a two-player checkers game.
The engine works on a rectangular grid of cell kinds: empty, White man, Black man, White king and Black king. Row 0 is Black's home side.
It covers:
- moves, which are promoted, relocated and cleared in place;
- the list of moves a side may make, where capturing is compulsory;
- the game-over test;
- a depth-bounded look-ahead that plays every line on the live board and restores it afterwards;
- the choice of a best line by the ratio of the mover's material to the opponent's.

There are two copies of the engine:
- the current `Board` (`src/checkers/board.py`);
- an older one, the `Game` object's rule methods working on a `Field` (`src/checkers/game.py`, `src/checkers/filed.py`).

## How the model is organised

- `enums.dfy` (`Enums`), `constants.dfy` (`Constants`), `geometry.dfy` (`Geometry`) and `checker.dfy` (`CheckerCell`) hold the value types:
  - sides and cell kinds;
  - the piece groups, with the man first and the king second;
  - positions, the four diagonal offsets and moves, with the move's text form and a reader that inverts it;
  - the mutable `Checker` cell.
- `grids.dfy` (`Grids`) holds the board as a value, `Grid(w, h, rows)`. It defines:
  - cell access and single-cell writes;
  - the counts and scores, which are sums of per-row folds as in the source;
  - the opening layout;
  - `Moved`, the grid after a move.
- `movegen.dfy` (`MoveGen`) restates the generation loops as functions: a ray scan per direction, then per piece, per row and per board.
- `rules.dfy` (`MoveRules`) proves that these scans list exactly the moves the rules allow:
  - man jumps over one opposing piece;
  - king captures past exactly one opposing piece onto any empty cell behind it;
  - forward man steps;
  - king slides up to the first occupied cell.
- `effects.dfy` (`MoveEffects`) proves what playing an allowed move does to the material.
- `search.dfy` (`Search`) holds the look-ahead and the tally as functions, and the theorems about them. Two parameters select the engine:
  - `Recording` says how a child's line is recorded;
  - `Scoring` selects the score functions.
- `field.dfy` (`FieldScores`) holds the older field's score functions.
- `board.dfy` (`BoardModel`) holds the `Board` class. Its fields are the size and `rows`, a sequence of rows of kinds. Every method is proved against the value-level functions through `View()`. The ghost lemmas at module level are the loop invariants' bookkeeping.
- `game.dfy` (`GameModel`) holds the `Game` class. It has a `field: Board`, `playerTurn` and `selected`. The rule methods run on the field.

The field of `filed.py` is held as a `Board`. The two classes have the same cells, size, layout, `copy`, `is_within`, `type_at` and counts. The only difference is the Black score, which is `FieldScores.FieldBlackScore`.

The rule methods of `game.py` are the same code as `board.py`'s, so they call the `Board` methods that model that code. They differ in two ways:
- the older look-ahead records `CandidatesThenMove` lines;
- it rates moves with the `FieldMaterial` scores.

The older look-ahead undoes a move by replacing `field` with a fresh copy, as the source does. The newer one restores the board in place.

### Behaviour of the code worth noting

- With a search depth of 0, the look-ahead explores nothing and `get_optimal_move` returns `[]`.
- The chosen line is cut on the unchanged board: the walk stops before the first move whose start cell holds an opposing piece, and nothing is played. `Search.OwnPrefix` is that walk.
- Each move of an explored line is rated alone on the root board. The board is restored after every move.
- The accumulator of the look-ahead is threaded by value. This is what the recursive calls compute, because every call appends to the same list it returns.

### Other modelling choices

- The division `own / opp` is an exact rational (`Search.Ratio`), and a zero divisor gives `Infinite`. This matches the code, 0 / 0 included: `board.py:202-203` and `game.py:324-325` catch the `ZeroDivisionError` and use `inf`.
- `random.choice` is a nondeterministic pick (`:|`). The result is specified as the cut of *some* best line.
- `handle_move` requires both ends on the board and the move on a diagonal, or the walk back from `to` would not stop. `restore_copy` requires a board of the same size, which is the only way it is called.
- Indices are always within the board, so Python's negative-index wrap-around in `at` never arises.
- The cell type is stored directly in the grid. `checker.py`'s `Checker` class is modelled separately, in `CheckerCell`.
- The source's files disagree with each other in ways the model papers over:
  - `board.py` imports the piece groups from `checker.py`, which does not define them;
  - it writes `.type =`, where `checker.py` only offers `change_type`;
  - it builds `Checker()` without the kind the constructor requires;
  - it uses a `Move(Position, Position)` with `from_`/`to`, where `move.py` has four integer coordinates.

  The model has one `Move` of two positions. It offers `move.py`'s four-coordinate constructor and accessors. A cell is created empty and then laid out.
- `side.py` is a copy of `enums.py`'s `SideType`, and both are modelled by `Enums.Side`.
- `Point` (from `point.py`) is not part of this model. `Game.selected` is an `Option<Position>`, where `Nothing` stands for the blank point.

## Model

| member | source | states |
|---|---|---|
| Enums.Opposite | src/checkers/enums.py:8-13 | White and Black swap, and no side is its own opposite |
| Enums.OppositeInvolution | src/checkers/side.py:8-13 | the opposite of the opposite is the side itself |
| Enums.OppositeBijective | src/checkers/side.py:8-15 | `opposite` is a bijection without a fixed point; the error branch is unreachable on the closed type |
| Enums.AllCheckerTypes | src/checkers/enums.py:18-23 | five pairwise distinct kinds, `NONE` first |
| Enums.AllCheckerTypesComplete | src/checkers/enums.py:18-23 | every kind is one of the five listed |
| Constants.Checkers | src/checkers/constants.py:37-38 | each group has a man and a king, and neither group holds `NONE` |
| Constants.GroupsPartition | src/checkers/constants.py:37-38 | the groups are disjoint; `NONE` is in neither; White's group is exactly {WHITE_MAN, WHITE_KING} and Black's exactly {BLACK_MAN, BLACK_KING} |
| Constants.GroupOfSide | src/checkers/constants.py:37-38 | a side owns exactly its man and its king; the opponent owns neither, and man and king differ |
| Geometry.DefaultPosition | src/checkers/position.py:5-7 | the default position is (-1, -1) |
| Geometry.PositionEquality | src/checkers/position.py:9-12 | positions are equal exactly when both coordinates are |
| Geometry.MoveOffsets | src/checkers/position.py:24-29 | four pairwise distinct unit diagonals; the first two have y = -1 and the last two y = +1 |
| Geometry.MoveOffsetsAreAllDiagonals | src/checkers/constants.py:34 | the offsets are exactly the four unit diagonals, starting with (-1,-1) and ending with (1,1) |
| Geometry.MoveOf | src/checkers/move.py:2-24 | the accessors return the four constructor arguments |
| Geometry.DefaultMove | src/checkers/move.py:2-8 | a default move has every coordinate -1 |
| Geometry.MoveEquality | src/checkers/move.py:32-39 | moves are equal exactly when all four coordinates are, so equality is reflexive and symmetric |
| Geometry.Str | src/checkers/move.py:29-30 | `str` gives the same text as `repr` |
| Geometry.Repr | src/checkers/move.py:26-27 | the text `"{from_x}-{from_y} -> {to_x}-{to_y}"`, from which a reader recovers the same move, negative coordinates included |
| Geometry.ReprInjective | src/checkers/move.py:26-39 | two moves have the same text exactly when they are equal |
| CheckerCell.Checker.constructor | src/checkers/checker.py:5-6 | the new cell holds the given kind |
| CheckerCell.Checker.Type | src/checkers/checker.py:8-10 | `type` returns the stored kind |
| CheckerCell.Checker.ChangeType | src/checkers/checker.py:12-13 | after `change_type(t)` the cell holds `t` |
| CheckerCell.ChangeTypeTwice | src/checkers/checker.py:12-13 | changing to `t` twice leaves the cell holding `t`, as once does |
| Grids.Size | src/checkers/filed.py:21-23 | `size` is the larger of the two dimensions |
| Grids.DefaultPositionNeverWithin | src/checkers/position.py:5-7 | the default position lies on no board |
| Grids.Put | src/checkers/board.py:84-88 | writing a cell changes that cell only |
| Grids.ScoreIsWeightedCount | src/checkers/board.py:66-72 | a side's score is its men plus three times its kings, never negative |
| Grids.ScoreRowsSplit | src/checkers/board.py:247-255 | the per-row sum of the weighted fold is the man count plus three times the king count |
| Grids.CountBound | src/checkers/filed.py:25-41 | a group's count never exceeds the number of cells |
| Grids.CountPut | src/checkers/board.py:241-245 | one cell write changes a group's count by the membership of the old and new kinds |
| Grids.InitialGrid | src/checkers/filed.py:79-90 | the opening grid has the given size and the layout's kind on each cell |
| Grids.LayoutCell | src/checkers/filed.py:84-90 | defines the opening kind of a cell: a Black man on a dark cell (x + y odd) of rows 0-2, else a White man on a dark cell of the last three rows, else empty; `InitialLayout` states its consequences |
| Grids.InitialLayout | src/checkers/board.py:228-239 | only dark cells hold pieces: Black men on rows 0-2, White men on the last three other rows, no kings |
| Grids.Promote | src/checkers/board.py:91-100 | a White man reaching row 0 becomes a king, as does a Black man reaching the last row; nothing else changes kind |
| Grids.Moved | src/checkers/board.py:90-114 | the grid after a move keeps its size and holds `CellAfter` on every cell |
| Grids.MovedCells | src/checkers/board.py:100-113 | after a move, `from` and the cells strictly between the ends are empty, `to` holds the promoted piece, and every other cell keeps its kind |
| Grids.CellAfter | src/checkers/board.py:90-114 | defines a cell after a move: `from` empty, `to` the promoted piece, a cell strictly between the ends empty, any other cell unchanged; `MovedCells` states it per position |
| Grids.Captured | src/checkers/board.py:106-114 | defines `has_killed`: some cell strictly between the ends held a piece before the move |
| FieldScores.FieldWhiteScore | src/checkers/filed.py:43-54 | one per White man plus three per White king, equal to the board's White score |
| FieldScores.FieldBlackScore | src/checkers/filed.py:56-67 | as written, the field's Black score is four per Black king, whatever the number of Black men |
| FieldScores.FieldBlackScoreMissesMen | src/checkers/filed.py:56-67 | a lone Black man scores 0 on the field and 1 by the intended weighting |
| FieldScores.IntendedBlackScore | src/checkers/filed.py:43-67 | the intended Black score mirrors the White one; the field's agrees with it exactly when Black has as many kings as men |
| MoveGen.RuleShape | src/checkers/board.py:146-183 | a move the rules allow lies on a diagonal on the board, starts on the mover's piece and ends on an empty cell; it is a capture exactly when it jumps over something |
| MoveGen.ForwardOffsets | src/checkers/board.py:272-276 | men step by two distinct unit diagonals, up for White and down for Black |
| MoveGen.FromCell | src/checkers/board.py:323-328 | the filter keeps exactly the moves starting on the given cell |
| MoveGen.ManJump | src/checkers/board.py:148-160 | defines a man's jump in one direction: at most one move, over an opposing piece onto an empty cell two steps away; `ManJumpMembers` characterises it |
| MoveGen.KingScan | src/checkers/board.py:161-183 | defines a king's capture scan along one ray: skip off-board steps, pass one opposing piece, stop at an own piece or a second piece, list each empty cell beyond; `KingScanMembers` characterises it |
| MoveGen.ManStep | src/checkers/board.py:272-283 | defines a man's step in one direction: at most one move, onto the adjacent empty cell; `ManStepMembers` characterises it |
| MoveGen.SlideScan | src/checkers/board.py:284-298 | defines a king's slide along one ray: each empty cell up to the first occupied one; `SlideScanMembers` characterises it |
| MoveGen.RequiredMoves | src/checkers/board.py:131-185 | defines `get_required_moves`: every cell's captures in row-then-column scan order; `RequiredMovesAreCaptures` characterises it |
| MoveGen.OptionalMoves | src/checkers/board.py:257-300 | defines `__get_optional_moves`: every cell's quiet moves in scan order; `OptionalMovesAreQuiet` characterises it |
| MoveGen.LegalMoves | src/checkers/board.py:125-129 | defines `get_moves`: the captures when there is one, otherwise the quiet moves; `LegalMovesRule` characterises it |
| MoveRules.ManJumpMembers | src/checkers/board.py:148-160 | a man's jump in a direction is listed exactly when it passes over an opposing piece onto an empty cell two steps away |
| MoveRules.KingScanMembers | src/checkers/board.py:166-183 | the king's scan lists exactly the empty cells beyond one opposing piece, with the run cut by a second piece or an own piece |
| MoveRules.KingCapturesMembers | src/checkers/board.py:161-183 | a king's capture in a direction is listed exactly when exactly one opposing piece and nothing else lies between its ends and it lands empty |
| MoveRules.ManStepMembers | src/checkers/board.py:272-284 | a man's step is listed exactly when it moves one cell forward onto an empty cell |
| MoveRules.SlideScanMembers | src/checkers/board.py:288-298 | the slide scan lists exactly the empty cells up to the first occupied cell or the edge |
| MoveRules.KingSlidesMembers | src/checkers/board.py:285-298 | a king's slide is listed exactly when every cell up to and including its target is empty |
| MoveRules.CellMovesMembers | src/checkers/board.py:147-183 | the moves listed for a cell are exactly the rule's moves starting there |
| MoveRules.RowMovesMembers | src/checkers/board.py:270-298 | the moves listed for a row are exactly the rule's moves starting on it |
| MoveRules.RequiredMovesAreCaptures | src/checkers/board.py:131-185 | `get_required_moves` lists exactly the captures the rules allow |
| MoveRules.OptionalMovesAreQuiet | src/checkers/board.py:257-300 | `__get_optional_moves` lists exactly the quiet moves the rules allow |
| MoveRules.LegalMovesRule | src/checkers/board.py:125-129 | a move is offered exactly when it is a capture, or when no capture exists and it is a quiet move |
| MoveRules.LegalMovesShape | src/checkers/board.py:125-185 | an offered move starts on the mover's piece and lands on an empty cell; it jumps over something exactly when it is a capture |
| MoveRules.NoLegalMovesIff | src/checkers/board.py:116-123 | a side has no offered move exactly when the rules allow it no move |
| MoveEffects.PromoteKeepsSide | src/checkers/board.py:91-100 | promotion keeps the piece's side and never creates or removes a piece |
| MoveEffects.CaptureEffect | src/checkers/board.py:104-114 | a listed capture reports a kill, removes exactly one opposing piece and keeps the mover's count |
| MoveEffects.QuietEffect | src/checkers/board.py:104-114 | a listed quiet move reports no kill and changes no count |
| MoveEffects.LegalMoveMaterial | src/checkers/board.py:329-345 | a capture removes one piece and a quiet move none, which bounds the search |
| Search.Candidates | src/checkers/board.py:315-318 | every move a node tries (the forced continuations if any, otherwise `get_moves`) is a capture or quiet move the rules allow on the node's board |
| Search.Continuations | src/checkers/board.py:322-328 | after a move, the continuations are exactly the captures from its landing cell |
| Search.ChildLine | src/checkers/board.py:335 | defines the line a child receives: the line so far plus the move for the current engine, the candidate list plus the move for the older one (`game.py:392`, `game.py:400`) |
| Search.Explore | src/checkers/board.py:302-347 | defines `__get_possible_moves`: the node's own line when non-empty, then, while a ply is left and a candidate exists, the lines below each candidate; `ExploreLines` characterises it |
| Search.ExploreEach | src/checkers/board.py:321-346 | defines the loop over the candidates: the lines below each candidate in turn, in candidate order |
| Search.Child | src/checkers/board.py:322-345 | defines the recursive call after one candidate: same side and depth when it captured and a continuation exists, otherwise the opponent one ply deeper |
| Search.ExploreLines | src/checkers/board.py:311-346 | with the line recorded, the explored lines are exactly the non-empty continuations of the current line that are lines of play within the plies left |
| Search.ExploreFits | src/checkers/board.py:311-346 | every explored move stays on the board |
| Search.ExploreAtDepthLimit | src/checkers/board.py:319 | no exploration happens once the depth reaches the maximum |
| Search.ExploreRecordsCurrentFirst | src/checkers/board.py:311-314 | a node with a non-empty line records it first |
| Search.FirstRecorded | src/checkers/board.py:319-345 | at the root, the first recorded line is what the first candidate's child receives |
| Search.SecondMoveIllegal | src/checkers/board.py:329-345 | after one offered move, another offered move of the same position can neither continue the capture nor answer it |
| Search.CandidateRecordingDiverges | src/checkers/game.py:370-400 | with two or more moves available, the older engine first records the candidate list plus a move, which is not a line of play |
| Search.RatioOf | src/checkers/board.py:197-203 | a ratio is never below 0 |
| Search.RatioOfMeaning | src/checkers/board.py:197-203 | the ratio is infinite exactly on a zero divisor, and otherwise times the divisor gives back the dividend |
| Search.Rate | src/checkers/board.py:196-203 | a move's rating is never below the initial best of 0 |
| Search.Step | src/checkers/board.py:204-209 | defines one comparison: a greater ratio restarts the kept lines, an equal one appends the line, a smaller one changes nothing |
| Search.Fold | src/checkers/board.py:188-211 | defines the comparisons over the rated pairs in order, starting from ratio 0 and no line; `FoldPicksBest` characterises it |
| Search.FoldPicksBest | src/checkers/board.py:204-209 | the comparisons keep the maximum ratio and exactly the lines of the pairs reaching it |
| Search.Tally | src/checkers/board.py:187-211 | defines `get_optimal_move`'s comparisons over every move of every explored line; `TallyIsMaximum`, `TallyKeepsBestLines` and `TallyEmptyIff` characterise it |
| Search.TallyIsMaximum | src/checkers/board.py:194-211 | no explored move rates above the kept ratio |
| Search.TallyKeepsBestLines | src/checkers/board.py:194-211 | the kept lines are exactly the explored lines holding a move with the kept ratio |
| Search.TallyEmptyIff | src/checkers/board.py:192-211 | no line is kept exactly when every explored line is empty |
| Search.OwnPrefix | src/checkers/board.py:212-225 | defines the walk over the chosen line, stopping before the first move that starts on an opposing piece; `OwnPrefixCut` characterises it |
| Search.OwnPrefixCut | src/checkers/board.py:214-225 | the cut is a prefix of the line, starting on no opposing piece, and stops only before one that does |
| BoardModel.Board.Size | src/checkers/board.py:54-56 | `size` is the larger dimension |
| BoardModel.Board.IsWithin | src/checkers/board.py:81-82 | defines `is_within`: both coordinates lie inside the board |
| BoardModel.Board.TypeAt | src/checkers/board.py:84-88 | `type_at` reads the cell's kind |
| BoardModel.Board.SetType | src/checkers/board.py:43 | a cell write changes that cell only |
| BoardModel.Board.WhiteScore | src/checkers/board.py:66-68 | White men plus three times White kings |
| BoardModel.Board.BlackScore | src/checkers/board.py:70-72 | Black men plus three times Black kings |
| BoardModel.Board.WhiteCheckersCount | src/checkers/board.py:58-60 | the White pieces on the board, at most one per cell |
| BoardModel.Board.BlackCheckersCount | src/checkers/board.py:62-64 | the Black pieces on the board, at most one per cell |
| BoardModel.Board.constructor | src/checkers/board.py:228-239 | a new board of the given size in the opening layout |
| BoardModel.Board.Copy | src/checkers/board.py:38-44 | a freshly allocated board of the same size holding the same kinds, so writes to it never reach the original |
| BoardModel.Board.RestoreCopy | src/checkers/board.py:74-79 | the board afterwards holds what the other board held |
| BoardModel.Board.HandleMove | src/checkers/board.py:90-114 | the board becomes `Moved` of the old one, and the result reports whether a piece lay strictly between the ends |
| BoardModel.Board.ClearPath | src/checkers/board.py:104-113 | the walk from `to` back to `from` clears every occupied cell and reports whether it cleared one between the ends |
| BoardModel.Board.ClearCell | src/checkers/board.py:108-113 | one step of the walk empties the cell and reports whether it held a piece strictly between the ends |
| BoardModel.Board.KingCaptureRay | src/checkers/board.py:166-183 | the king's capture scan in one direction |
| BoardModel.Board.KingSlideRay | src/checkers/board.py:288-298 | the king's slide scan in one direction |
| BoardModel.Board.PieceCaptures | src/checkers/board.py:148-183 | the captures listed for one cell |
| BoardModel.Board.ManCaptures | src/checkers/board.py:148-160 | a man's jumps in the four directions |
| BoardModel.Board.KingCapturesAll | src/checkers/board.py:161-183 | a king's captures in the four directions |
| BoardModel.Board.PieceSteps | src/checkers/board.py:272-298 | the quiet moves listed for one cell |
| BoardModel.Board.ManSteps | src/checkers/board.py:272-284 | a man's forward steps |
| BoardModel.Board.KingSlidesAll | src/checkers/board.py:285-298 | a king's slides in the four directions |
| BoardModel.Board.GetRequiredMoves | src/checkers/board.py:131-185 | the captures of the board, row by row and cell by cell |
| BoardModel.Board.RowCaptures | src/checkers/board.py:147-183 | the captures of one row |
| BoardModel.Board.GetOptionalMoves | src/checkers/board.py:257-300 | the quiet moves of the board, row by row and cell by cell |
| BoardModel.Board.RowSteps | src/checkers/board.py:271-298 | the quiet moves of one row |
| BoardModel.Board.GetMoves | src/checkers/board.py:125-129 | the captures if there is one, otherwise the quiet moves, so capturing is compulsory |
| BoardModel.Board.IsGameOver | src/checkers/board.py:116-123 | over exactly when White (asked first) or Black has no allowed move, and the other side wins |
| BoardModel.Board.PossibleMoves | src/checkers/board.py:302-347 | the lines added are exactly the exploration of the current line, and the board is left as it was |
| BoardModel.Board.ExploreCandidates | src/checkers/board.py:319-346 | the lines below each candidate in turn, each explored on a restored board |
| BoardModel.Board.PlayAndExplore | src/checkers/board.py:322-345 | a candidate is played, then explored by the same side at the same depth when it chains, else by the opponent one ply deeper |
| BoardModel.Board.GetOptimalMove | src/checkers/board.py:187-226 | the board is unchanged; the result is `[]` when no line is kept, and otherwise the cut of one best line |
| BoardModel.Board.ChooseLine | src/checkers/board.py:213-225 | the cut of some kept line |
| BoardModel.Board.TallyLines | src/checkers/board.py:192-210 | the kept ratio and lines over every explored move, with the board unchanged |
| BoardModel.Board.TallyLine | src/checkers/board.py:195-210 | the comparisons over the moves of one line, each played alone |
| BoardModel.Board.TallyMove | src/checkers/board.py:196-210 | one move rated and compared, with the board restored |
| BoardModel.Board.TallyStep | src/checkers/board.py:195-210 | pass j extends the comparisons over the line's first j moves by move j, with the board restored |
| BoardModel.Board.Compare | src/checkers/board.py:204-209 | a better ratio restarts the kept lines, and an equal one adds its line |
| BoardModel.Board.RateMove | src/checkers/board.py:196-203 | the board after the move and the mover's material over the opponent's |
| BoardModel.Board.CutOwnPrefix | src/checkers/board.py:214-225 | the chosen line up to its first move starting on an opposing piece |
| GameModel.Game.constructor | src/checkers/game.py:25-31 | a field in the opening layout, the player to move, and nothing selected |
| GameModel.Game.HandleMove | src/checkers/game.py:221-260 | the same board effect and report as `Board.handle_move` |
| GameModel.Game.HandlePlayerTurn | src/checkers/game.py:262-277 | the player keeps the turn exactly when the move captured and the piece can capture again from its landing cell; the selection is cleared |
| GameModel.Game.MovesList | src/checkers/game.py:407-411 | the captures if there is one, otherwise the quiet moves |
| GameModel.Game.RequiredMovesList | src/checkers/game.py:413-494 | exactly the captures the rules allow |
| GameModel.Game.OptionalMovesList | src/checkers/game.py:496-544 | exactly the quiet moves the rules allow |
| GameModel.Game.PossibleMoveList | src/checkers/game.py:353-405 | the older exploration: each child receives the candidate list plus its move; the field holds the same kinds afterwards |
| GameModel.Game.ExploreCandidates | src/checkers/game.py:375-403 | the lines below each candidate, with the field replaced by a copy of the saved one after each |
| GameModel.Game.PlayAndExplore | src/checkers/game.py:376-401 | a candidate is played, then explored by the same side at the same depth when it chains, else by the opponent one ply deeper |
| GameModel.Game.CountOptimalMoves | src/checkers/game.py:308-351 | the field's kinds are unchanged; the result is `[]` when no line is kept, and otherwise the cut of one best line by the field's scores |
| GameModel.Game.TallyLines | src/checkers/game.py:313-334 | the kept ratio and lines over every explored move under the field's scores |
| GameModel.Game.TallyEachLine | src/checkers/game.py:315-334 | the outer loop over the explored lines |
| GameModel.Game.TallyNextLine | src/checkers/game.py:315-334 | one explored line's comparisons carry on from the lines before it |
| GameModel.Game.TallyLine | src/checkers/game.py:316-334 | the comparisons over one line's moves, each played alone |
| GameModel.Game.TallyMove | src/checkers/game.py:317-334 | one move rated and compared, with the field replaced by a fresh copy |
| GameModel.Game.TallyStep | src/checkers/game.py:316-334 | pass j extends the comparisons over the line's first j moves by move j, with the field's view restored |
| GameModel.Game.RateMove | src/checkers/game.py:317-325 | the field after the move, and the mover's field score over the opponent's |

## Left out

- The tkinter drawing, animation, images, mouse handling and the game-over dialog of `game.py` (`src/checkers/game.py:41-220`, `279-306`) are left out, along with `src/app/`, `src/main.py` and `src/build.py`. They are I/O with no rule logic. The opponent's turn at `game.py:279-290` only strings together `__count_optimal_moves` and `__handle_move`, which are modelled.
- The UI mistake `player_checkers == BLACK_CHECKERS` in `mouse_down` (`src/checkers/game.py:61`, a comparison where an assignment was meant) is not modelled, because it is UI code.
- The opponent's opening move when the player is configured to play Black (`src/checkers/game.py:38-39`) is left out, because `Constants.PlayerSide` is White.
- The render constants of `constants.py` are display settings and are left out.
- `Board.__repr__`, the debugging text of the grid, is left out because it is output only.
- Floating-point rounding is not modelled. The ratios are exact rationals, so two ratios that round to the same float in Python may compare as different here.
- The shared mutable default arguments of `__get_possible_moves` are not modelled. The accumulator is passed and returned by value, which is what a single top-level call computes.
- Python's negative-index wrap-around in `at` is not modelled, because every access is proved to be on the board.
- BoardModel.Board.ChooseLine: `random.choice` is a nondeterministic pick, so the contract names only *some* kept line, not its distribution.
- GameModel.Game.CountOptimalMoves: like `Board.ChooseLine`, it does not model the distribution of `random.choice`.
- BoardModel.Board.RestoreCopy: it requires a board of the same size, so the resizing assignments of `x_size`/`y_size` in `restore_copy` are not modelled.

## Findings

| source | as written | input that shows it | evidently intended | confidence | as-written member | corrected member |
|---|---|---|---|---|---|---|
| src/checkers/filed.py:56-67 | `black_score` tests `BLACK_KING` in both terms, so a Black man counts 0 and a king 4 | a 1×1 field holding one Black man: the field scores Black 0 | one per Black man and three per Black king, mirroring `white_score` (as `board.py:70-72` does) | not executed | FieldScores.FieldBlackScoreMissesMen | Grids.ScoreIsWeightedCount |
| src/checkers/game.py:370-400 | the child call receives `moves + [move]`, where `moves` was rebound to the node's candidate list | any position where the side to move has two or more moves and a ply is left: the first recorded line is every candidate followed by the first one | the line so far plus the move (`current_moves + [move]`, as `board.py:335` does) | not executed | Search.CandidateRecordingDiverges | Search.ExploreLines |
