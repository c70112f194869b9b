/**
 * Material scores of the older engine's `Field`. Its White score weighs a
 * man 1 and a king 3, like the current board; its Black score, as written,
 * tests for the Black king in both terms, so a Black man weighs nothing and a
 * Black king 4.
 */
module FieldScores {
  import opened Enums
  import opened Constants
  import opened Grids

  /** `Field.white_score`: one per White man and three per White king, the same weighting as the current board. */
  function FieldWhiteScore(g: Grid): (r: nat)
    ensures r == CheckersCount(g, [WhiteMan]) + 3 * CheckersCount(g, [WhiteKing])
    ensures r == WhiteScore(g)
  {
    ScoreIsWeightedCount(g, White);
    Score(g, WhiteMan, WhiteKing)
  }

  /** `Field.black_score` as written: both terms test for `BLACK_KING`, so it is four per Black king and ignores Black men. */
  function FieldBlackScore(g: Grid): (r: nat)
    ensures r == 4 * CheckersCount(g, [BlackKing])
  {
    ScoreRowsOneKind(g.rows, BlackKing);
    Score(g, BlackKing, BlackKing)
  }

  lemma {:induction false} RowScoreOneKind(row: seq<CheckerType>, k: CheckerType)
    ensures RowScore(row, k, k) == 4 * RowCount(row, [k])
    decreases |row|
  {
    if row != [] {
      RowScoreOneKind(row[..|row| - 1], k);
    }
  }

  lemma {:induction false} ScoreRowsOneKind(rows: seq<seq<CheckerType>>, k: CheckerType)
    ensures ScoreRows(rows, k, k) == 4 * CountRows(rows, [k])
    decreases |rows|
  {
    if rows != [] {
      ScoreRowsOneKind(rows[..|rows| - 1], k);
      RowScoreOneKind(rows[|rows| - 1], k);
    }
  }

  /** A one-cell board holding a Black man: the field scores Black 0, the intended weighting 1. */
  lemma FieldBlackScoreMissesMen()
    ensures var g := Grid(1, 1, [[BlackMan]]);
      Valid(g) && FieldBlackScore(g) == 0 && BlackScore(g) == 1
  {
    var g := Grid(1, 1, [[BlackMan]]);
    assert g.rows[..0] == [];
    assert g.rows[0][..0] == [];
  }

  /** The intended Black score weighs a man 1 and a king 3; the field's agrees with it exactly when Black has as many kings as men. */
  lemma IntendedBlackScore(g: Grid)
    ensures BlackScore(g) == CheckersCount(g, [BlackMan]) + 3 * CheckersCount(g, [BlackKing])
    ensures FieldBlackScore(g) == BlackScore(g) <==> CheckersCount(g, [BlackKing]) == CheckersCount(g, [BlackMan])
  {
    ScoreIsWeightedCount(g, Black);
  }
}
