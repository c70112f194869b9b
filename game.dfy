/**
 * The older engine's `Game`: a field of checkers, whose turn it is and the
 * selected cell, with its own copies of the move rules and of the
 * look-ahead. The field has the current board's cells, size, copy and
 * queries, so it is held as a `Board`; its Black score is the field's own
 * (`FieldBlackScore`). The look-ahead records lines as written (each child
 * receives the node's candidate list plus the move) and rates with the
 * field's scores.
 */
module GameModel {
  import opened Enums
  import opened Constants
  import opened Geometry
  import opened Grids
  import opened MoveGen
  import opened MoveRules
  import opened MoveEffects
  import opened FieldScores
  import opened Search
  import opened BoardModel

  class Game {
    /** `__field`; replaced by a fresh copy whenever the look-ahead undoes a move. */
    var field: Board
    /** `__player_turn`: the human player may move. */
    var playerTurn: bool
    /** `__selected_cell`; `Nothing` for the blank `Point()`. */
    var selected: Option<Position>

    predicate Valid()
      reads this, field
    {
      field.Valid()
    }

    /** The rule state of `__init__`: a field in the opening position, the player to move, nothing selected. */
    constructor (xSize: nat, ySize: nat)
      ensures Valid() && fresh(field) && field.View() == InitialGrid(xSize, ySize)
      ensures playerTurn && selected == Nothing
    {
      field := new Board(xSize, ySize);
      playerTurn := true;
      selected := Nothing;
    }

    /** `__handle_move` without drawing: the field after `m`, and whether a piece was cleared between its ends. */
    method HandleMove(m: Move) returns (killed: bool)
      requires Valid() && Fits(field.View(), m)
      modifies field
      ensures Valid() && field.View() == Moved(old(field.View()), m)
      ensures killed == Captured(old(field.View()), m)
    {
      killed := field.HandleMove(m);
    }

    /**
     * `__handle_player_turn`: play the player's move; the player keeps the
     * turn exactly when the move captured and the capturing piece can
     * capture again; the selection is cleared.
     */
    method HandlePlayerTurn(m: Move)
      requires Valid() && Fits(field.View(), m)
      modifies this, field
      ensures Valid() && field == old(field) && field.View() == Moved(old(field.View()), m)
      ensures playerTurn == Chains(old(field.View()), PlayerSide, m)
      ensures selected == Nothing
    {
      ghost var g := field.View();
      playerTurn := false;
      var killed := HandleMove(m);
      var required := RequiredMovesList(PlayerSide);
      var continuations := FromCell(required, m.to);
      assert continuations == Continuations(g, PlayerSide, m);
      if killed && continuations != [] {
        playerTurn := true;
      }
      selected := Nothing;
    }

    /** `__get_moves_list`: the captures when there is one, otherwise the quiet moves. */
    method MovesList(side: Side) returns (moves: seq<Move>)
      requires Valid()
      ensures moves == LegalMoves(field.View(), side)
      ensures forall m :: m in moves <==>
        if exists c :: IsCapture(field.View(), side, c) then IsCapture(field.View(), side, m) else IsQuiet(field.View(), side, m)
    {
      moves := RequiredMovesList(side);
      if moves == [] {
        moves := OptionalMovesList(side);
      }
      forall m
        ensures m in moves <==> if exists c :: IsCapture(field.View(), side, c) then IsCapture(field.View(), side, m) else IsQuiet(field.View(), side, m)
      {
        LegalMovesRule(field.View(), side, m);
      }
    }

    /** `__get_required_moves_list`: the side's captures, exactly those the capture rule allows. */
    method RequiredMovesList(side: Side) returns (moves: seq<Move>)
      requires Valid()
      ensures moves == RequiredMoves(field.View(), side)
      ensures forall m :: m in moves <==> IsCapture(field.View(), side, m)
    {
      moves := field.GetRequiredMoves(side);
      forall m
        ensures m in moves <==> IsCapture(field.View(), side, m)
      {
        RequiredMovesAreCaptures(field.View(), side, m);
      }
    }

    /** `__get_optional_moves_list`: the side's quiet moves, exactly those the step rule allows. */
    method OptionalMovesList(side: Side) returns (moves: seq<Move>)
      requires Valid()
      ensures moves == OptionalMoves(field.View(), side)
      ensures forall m :: m in moves <==> IsQuiet(field.View(), side, m)
    {
      moves := field.GetOptionalMoves(side);
      forall m
        ensures m in moves <==> IsQuiet(field.View(), side, m)
      {
        OptionalMovesAreQuiet(field.View(), side, m);
      }
    }

    /**
     * `__get_possible_move_list` with `MAX_PREDICTION_DEPTH`: records
     * `movesList` when non-empty (a root call starts a fresh list), then,
     * while a ply is left, explores below each candidate, each child
     * receiving the candidate list plus its move. The field holds the same
     * kinds afterwards, though it may be a different object.
     */
    method PossibleMoveList(side: Side, depth: int, allMoves: seq<seq<Move>>, movesList: seq<Move>, required: seq<Move>)
      returns (all: seq<seq<Move>>)
      requires Valid() && Captures(field.View(), side, required)
      modifies this, field
      ensures Valid() && field.View() == old(field.View()) && (field == old(field) || fresh(field))
      ensures all == (if movesList != [] then allMoves else [])
                   + Explore(old(field.View()), side, MaxPredictionDepth, depth, movesList, required, CandidatesThenMove)
      decreases MaxPredictionDepth - depth, PieceCount(field.View()), 2
    {
      ExploreNode(field.View(), side, MaxPredictionDepth, depth, movesList, required, CandidatesThenMove, allMoves);
      all := if movesList != [] then allMoves + [movesList] else [];
      var moves := required;
      if moves == [] {
        moves := MovesList(side);
      }
      assert moves == Candidates(old(field.View()), side, required);
      if moves != [] && depth < MaxPredictionDepth {
        all := ExploreCandidates(side, depth, all, movesList, moves);
      } else {
        assert all + [] == all;
      }
    }

    /** The loop of `__get_possible_move_list` over the candidates, the field replaced by a copy of the saved one after each. */
    method ExploreCandidates(side: Side, depth: int, acc: seq<seq<Move>>, ghost current: seq<Move>, moves: seq<Move>)
      returns (all: seq<seq<Move>>)
      requires Valid() && depth < MaxPredictionDepth && Playable(field.View(), side, moves)
      modifies this, field
      ensures Valid() && field.View() == old(field.View()) && (field == old(field) || fresh(field))
      ensures all == acc + ExploreEach(old(field.View()), side, MaxPredictionDepth, depth, current, moves, moves, CandidatesThenMove)
      decreases MaxPredictionDepth - depth, PieceCount(field.View()), 1
    {
      ghost var g := field.View();
      BelowEnds(g, side, MaxPredictionDepth, depth, current, moves, CandidatesThenMove);
      var fieldCopy := Board.Copy(field);
      all := acc;
      var i := 0;
      while i < |moves|
        invariant 0 <= i <= |moves| && Valid() && field.View() == g
        invariant fieldCopy.Valid() && fieldCopy.View() == g && fieldCopy != field
        invariant field == old(field) || fresh(field)
        invariant all + Below(g, side, MaxPredictionDepth, depth, current, moves, i, CandidatesThenMove)
               == acc + Below(g, side, MaxPredictionDepth, depth, current, moves, 0, CandidatesThenMove)
      {
        assert moves[i] in moves;
        ghost var before := all;
        all := PlayAndExplore(side, depth, all, moves, moves[i]);
        assert ChildLine(CandidatesThenMove, current, moves, moves[i]) == moves + [moves[i]];
        BelowShift(g, side, MaxPredictionDepth, depth, current, moves, i, CandidatesThenMove, before, all);
        field := Board.Copy(fieldCopy);
        i := i + 1;
      }
    }

    /** One candidate `m` of `moves`: play it, then continue the capture or hand the turn over one ply deeper, recording `moves + [m]`. */
    method PlayAndExplore(side: Side, depth: int, acc: seq<seq<Move>>, moves: seq<Move>, m: Move)
      returns (all: seq<seq<Move>>)
      requires Valid() && depth < MaxPredictionDepth && (IsCapture(field.View(), side, m) || IsQuiet(field.View(), side, m))
      modifies this, field
      ensures Valid() && field.View() == Moved(old(field.View()), m) && (field == old(field) || fresh(field))
      ensures all == acc + Child(old(field.View()), side, MaxPredictionDepth, depth, moves + [m], m, CandidatesThenMove)
      decreases MaxPredictionDepth - depth, PieceCount(field.View()), 0
    {
      ghost var g := field.View();
      RuleShape(g, side, m);
      LegalMoveMaterial(g, side, m);
      var killed := HandleMove(m);
      var required := RequiredMovesList(side);
      var next := FromCell(required, m.to);
      assert next == Continuations(g, side, m);
      if killed && next != [] {
        all := PossibleMoveList(side, depth, acc, moves + [m], next);
      } else {
        all := PossibleMoveList(Opposite(side), depth + 1, acc, moves + [m], []);
      }
    }

    /**
     * `__count_optimal_moves`: explores from the root as written, rates
     * every move of every explored line alone on the field with the field's
     * scores (best ratio kept, ties collected), then cuts one best line
     * before its first move that starts on an opposing piece.
     */
    method CountOptimalMoves(side: Side) returns (line: seq<Move>)
      requires Valid()
      modifies this, field
      ensures Valid() && field.View() == old(field.View()) && (field == old(field) || fresh(field))
      ensures OptimalLines(old(field.View()), side, MaxPredictionDepth, CandidatesThenMove, FieldMaterial) == [] ==> line == []
      ensures var best := OptimalLines(old(field.View()), side, MaxPredictionDepth, CandidatesThenMove, FieldMaterial);
        best != [] ==> exists k :: 0 <= k < |best| && line == OwnPrefix(old(field.View()), side, best[k])
    {
      ghost var g := field.View();
      var predicted := PossibleMoveList(side, 0, [], [], []);
      ExploreFits(g, side, MaxPredictionDepth, 0, [], [], CandidatesThenMove);
      assert predicted == Explore(g, side, MaxPredictionDepth, 0, [], [], CandidatesThenMove);
      var best, optimal := TallyLines(side, predicted);
      assert optimal == OptimalLines(g, side, MaxPredictionDepth, CandidatesThenMove, FieldMaterial);
      line := [];
      if optimal != [] {
        TallyKeepsBestLines(g, side, FieldMaterial, predicted);
        line := field.ChooseLine(side, optimal);
      }
    }

    /** The two loops of `__count_optimal_moves`: the best ratio over every explored move, and the lines reaching it. */
    method TallyLines(side: Side, predicted: seq<seq<Move>>) returns (best: Ratio, optimal: seq<seq<Move>>)
      requires Valid() && LinesFit(field.View(), predicted)
      modifies this, field
      ensures Valid() && field.View() == old(field.View()) && (field == old(field) || fresh(field))
      ensures Pick(best, optimal) == Tally(old(field.View()), side, FieldMaterial, predicted)
    {
      ghost var g := field.View();
      RatedUpToEnds(g, side, FieldMaterial, predicted);
      best, optimal := Zero, [];
      if predicted != [] {
        var fieldCopy := Board.Copy(field);
        best, optimal := TallyEachLine(side, predicted, fieldCopy);
      }
    }

    /** The outer loop of `__count_optimal_moves`, from the initial ratio 0 and no best line. */
    method TallyEachLine(side: Side, predicted: seq<seq<Move>>, fieldCopy: Board) returns (best: Ratio, optimal: seq<seq<Move>>)
      requires Valid() && LinesFit(field.View(), predicted)
      requires fieldCopy != field && fieldCopy.Valid() && fieldCopy.View() == field.View()
      modifies this, field
      ensures Valid() && field.View() == old(field.View()) && (field == old(field) || fresh(field))
      ensures Pick(best, optimal) == Fold(RatedUpTo(old(field.View()), side, FieldMaterial, predicted, |predicted|))
    {
      ghost var g := field.View();
      RatedUpToEnds(g, side, FieldMaterial, predicted);
      best, optimal := Zero, [];
      var i := 0;
      while i < |predicted|
        invariant 0 <= i <= |predicted| && Valid() && field.View() == g
        invariant fieldCopy.Valid() && fieldCopy.View() == g && fieldCopy != field
        invariant field == old(field) || fresh(field)
        invariant Pick(best, optimal) == Fold(RatedUpTo(g, side, FieldMaterial, predicted, i))
      {
        best, optimal := TallyNextLine(side, predicted, i, fieldCopy, best, optimal);
        i := i + 1;
      }
    }

    /** One pass of the outer loop: the comparisons over the `i`-th explored line carry on from those over the lines before it. */
    method TallyNextLine(side: Side, predicted: seq<seq<Move>>, i: int, fieldCopy: Board, best0: Ratio, optimal0: seq<seq<Move>>)
      returns (best: Ratio, optimal: seq<seq<Move>>)
      requires Valid() && LinesFit(field.View(), predicted) && 0 <= i < |predicted|
      requires fieldCopy != field && fieldCopy.Valid() && fieldCopy.View() == field.View()
      requires Pick(best0, optimal0) == Fold(RatedUpTo(field.View(), side, FieldMaterial, predicted, i))
      modifies this, field
      ensures Valid() && field.View() == old(field.View()) && (field == old(field) || fresh(field))
      ensures Pick(best, optimal) == Fold(RatedUpTo(old(field.View()), side, FieldMaterial, predicted, i + 1))
    {
      ghost var g := field.View();
      RatedUpToStep(g, side, FieldMaterial, predicted, i);
      FoldFromAppend(RatedUpTo(g, side, FieldMaterial, predicted, i), RatedLine(g, side, FieldMaterial, predicted[i]));
      best, optimal := TallyLine(side, predicted[i], fieldCopy, best0, optimal0);
    }

    /** The inner loop of `__count_optimal_moves` over the moves of one line, the field replaced by a copy of `fieldCopy` after each. */
    method TallyLine(side: Side, moves: seq<Move>, fieldCopy: Board, best0: Ratio, optimal0: seq<seq<Move>>)
      returns (best: Ratio, optimal: seq<seq<Move>>)
      requires Valid() && fieldCopy != field && fieldCopy.Valid() && fieldCopy.View() == field.View()
      requires forall m :: m in moves ==> Fits(field.View(), m)
      modifies this, field
      ensures Valid() && field.View() == old(field.View()) && (field == old(field) || fresh(field))
      ensures Pick(best, optimal) == FoldFrom(Pick(best0, optimal0), RatedLine(old(field.View()), side, FieldMaterial, moves))
    {
      ghost var g := field.View();
      ghost var rated := RatedLine(g, side, FieldMaterial, moves);
      best, optimal := best0, optimal0;
      var j := 0;
      while j < |moves|
        invariant 0 <= j <= |moves| && Valid() && field.View() == g
        invariant fieldCopy.Valid() && fieldCopy.View() == g && fieldCopy != field
        invariant field == old(field) || fresh(field)
        invariant Pick(best, optimal) == FoldFrom(Pick(best0, optimal0), rated[..j])
      {
        best, optimal := TallyStep(side, moves, j, fieldCopy, Pick(best0, optimal0), best, optimal);
        j := j + 1;
      }
      assert rated[..|moves|] == rated;
    }

    /** Pass `j` of the inner loop: the comparisons so far over the first `j` moves of the line are extended by the move `moves[j]`. */
    method TallyStep(side: Side, moves: seq<Move>, j: int, fieldCopy: Board, ghost start: Pick, best0: Ratio, optimal0: seq<seq<Move>>)
      returns (best: Ratio, optimal: seq<seq<Move>>)
      requires Valid() && fieldCopy != field && fieldCopy.Valid() && fieldCopy.View() == field.View()
      requires forall m :: m in moves ==> Fits(field.View(), m)
      requires 0 <= j < |moves|
      requires Pick(best0, optimal0) == FoldFrom(start, RatedLine(field.View(), side, FieldMaterial, moves)[..j])
      modifies this, field
      ensures Valid() && fresh(field) && field.View() == old(field.View())
      ensures Pick(best, optimal) == FoldFrom(start, RatedLine(old(field.View()), side, FieldMaterial, moves)[..j + 1])
    {
      assert moves[j] in moves;
      FoldFromStep(start, RatedLine(field.View(), side, FieldMaterial, moves), j);
      best, optimal := TallyMove(side, moves[j], fieldCopy, best0, optimal0, moves);
    }

    /** One pass of the inner loop: rate the move `m` of the line `moves`, compare, and put a copy of `fieldCopy` back as the field. */
    method TallyMove(side: Side, m: Move, fieldCopy: Board, best0: Ratio, optimal0: seq<seq<Move>>, moves: seq<Move>)
      returns (best: Ratio, optimal: seq<seq<Move>>)
      requires Valid() && fieldCopy != field && fieldCopy.Valid() && fieldCopy.View() == field.View()
      requires Fits(field.View(), m)
      modifies this, field
      ensures Valid() && fresh(field) && field.View() == old(field.View())
      ensures Pick(best, optimal) == Step(Pick(best0, optimal0), moves, Rate(old(field.View()), side, FieldMaterial, m))
    {
      var result := RateMove(side, m);
      best, optimal := Board.Compare(best0, optimal0, moves, result);
      field := Board.Copy(fieldCopy);
    }

    /** Plays `m` and divides the side's field score by the opponent's (infinite on a zero divisor). */
    method RateMove(side: Side, m: Move) returns (result: Ratio)
      requires Valid() && Fits(field.View(), m)
      modifies field
      ensures Valid() && field.View() == Moved(old(field.View()), m)
      ensures result == Rate(old(field.View()), side, FieldMaterial, m)
    {
      var _ := HandleMove(m);
      var white, black := FieldWhiteScore(field.View()), FieldBlackScore(field.View());
      result := if side == White then RatioOf(white, black) else RatioOf(black, white);
    }
  }
}
