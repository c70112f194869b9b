/**
 * The board as a value: a rectangular grid of cell kinds, with the pure
 * queries of the engine (bounds, counts, material score, the opening layout)
 * and the effect of applying a move. The mutable board in module BoardModel is
 * proved against these definitions.
 */
module Grids {
  import opened Enums
  import opened Constants
  import opened Geometry

  /** `rows[y][x]` is the kind on column `x` of row `y`; `w` columns, `h` rows. */
  datatype Grid = Grid(w: nat, h: nat, rows: seq<seq<CheckerType>>)

  /** The rows have the declared dimensions. */
  predicate Valid(g: Grid)
  {
    |g.rows| == g.h && forall y :: 0 <= y < g.h ==> |g.rows[y]| == g.w
  }

  /** `is_within`: the coordinate names a cell of the grid. */
  predicate InBounds(g: Grid, x: int, y: int)
  {
    0 <= x < g.w && 0 <= y < g.h
  }

  predicate Within(g: Grid, p: Position)
  {
    InBounds(g, p.x, p.y)
  }

  /** The kind on a cell; only ever consulted on cells within the grid (None elsewhere). */
  function At(g: Grid, x: int, y: int): CheckerType
    requires Valid(g)
  {
    if InBounds(g, x, y) then g.rows[y][x] else None
  }

  function Cell(g: Grid, p: Position): CheckerType
    requires Valid(g)
  {
    At(g, p.x, p.y)
  }

  /** `size`: the longer side of the grid. */
  function Size(g: Grid): (r: nat)
    ensures r >= g.w && r >= g.h
    ensures r == g.w || r == g.h
  {
    if g.w >= g.h then g.w else g.h
  }

  /** The sentinel position is never a cell of any grid. */
  lemma DefaultPositionNeverWithin(g: Grid)
    ensures !Within(g, DefaultPosition())
  {
  }

  /** Two valid grids of equal dimensions that agree on every cell are equal. */
  lemma GridsEqual(a: Grid, b: Grid)
    requires Valid(a) && Valid(b) && a.w == b.w && a.h == b.h
    requires forall x, y :: 0 <= x < a.w && 0 <= y < a.h ==> a.rows[y][x] == b.rows[y][x]
    ensures a == b
  {
    forall y | 0 <= y < a.h
      ensures a.rows[y] == b.rows[y]
    {
      assert forall x :: 0 <= x < a.w ==> a.rows[y][x] == b.rows[y][x];
    }
  }

  /** The grid with one cell overwritten. */
  function Put(g: Grid, x: int, y: int, t: CheckerType): (r: Grid)
    requires Valid(g) && InBounds(g, x, y)
    ensures Valid(r) && r.w == g.w && r.h == g.h
    ensures forall a, b :: At(r, a, b) == if a == x && b == y then t else At(g, a, b)
  {
    Grid(g.w, g.h, g.rows[y := g.rows[y][x := t]])
  }

  // ---------------------------------------------------------------- counting

  function Indicator(b: bool): nat { if b then 1 else 0 }

  /** One row folded left to right, adding one per cell whose kind is in `kinds`. */
  function RowCount(row: seq<CheckerType>, kinds: seq<CheckerType>): nat
  {
    if row == [] then 0 else RowCount(row[..|row| - 1], kinds) + Indicator(row[|row| - 1] in kinds)
  }

  function CountRows(rows: seq<seq<CheckerType>>, kinds: seq<CheckerType>): nat
  {
    if rows == [] then 0 else CountRows(rows[..|rows| - 1], kinds) + RowCount(rows[|rows| - 1], kinds)
  }

  /** `__checkers_count`: the number of cells whose kind is in `kinds`. */
  function CheckersCount(g: Grid, kinds: seq<CheckerType>): nat
  {
    CountRows(g.rows, kinds)
  }

  /** One row folded left to right, adding 1 per `man` and 3 per `king`. */
  function RowScore(row: seq<CheckerType>, man: CheckerType, king: CheckerType): nat
  {
    if row == [] then 0
    else RowScore(row[..|row| - 1], man, king) + Indicator(row[|row| - 1] == man) + 3 * Indicator(row[|row| - 1] == king)
  }

  function ScoreRows(rows: seq<seq<CheckerType>>, man: CheckerType, king: CheckerType): nat
  {
    if rows == [] then 0 else ScoreRows(rows[..|rows| - 1], man, king) + RowScore(rows[|rows| - 1], man, king)
  }

  /** `__score`: material of the pieces `man` and `king`. */
  function Score(g: Grid, man: CheckerType, king: CheckerType): nat
  {
    ScoreRows(g.rows, man, king)
  }

  function WhiteScore(g: Grid): nat { Score(g, WhiteMan, WhiteKing) }

  function BlackScore(g: Grid): nat { Score(g, BlackMan, BlackKing) }

  /** Material of a side under the current engine's (symmetric) scoring. */
  function SideScore(g: Grid, side: Side): nat
  {
    match side
    case White => WhiteScore(g)
    case Black => BlackScore(g)
  }

  function PieceCount(g: Grid): nat
  {
    CountRows(g.rows, [WhiteMan, BlackMan, WhiteKing, BlackKing])
  }

  lemma {:induction false} RowScoreSplit(row: seq<CheckerType>, man: CheckerType, king: CheckerType)
    requires man != king
    ensures RowScore(row, man, king) == RowCount(row, [man]) + 3 * RowCount(row, [king])
    decreases |row|
  {
    if row != [] {
      RowScoreSplit(row[..|row| - 1], man, king);
    }
  }

  lemma {:induction false} ScoreRowsSplit(rows: seq<seq<CheckerType>>, man: CheckerType, king: CheckerType)
    requires man != king
    ensures ScoreRows(rows, man, king) == CountRows(rows, [man]) + 3 * CountRows(rows, [king])
    decreases |rows|
  {
    if rows != [] {
      ScoreRowsSplit(rows[..|rows| - 1], man, king);
      RowScoreSplit(rows[|rows| - 1], man, king);
    }
  }

  /** Material is the number of men plus three times the number of kings; never negative. */
  lemma ScoreIsWeightedCount(g: Grid, side: Side)
    ensures SideScore(g, side) == CheckersCount(g, [Man(side)]) + 3 * CheckersCount(g, [King(side)])
    ensures SideScore(g, side) >= 0
  {
    ScoreRowsSplit(g.rows, Man(side), King(side));
  }

  lemma {:induction false} RowCountBound(row: seq<CheckerType>, kinds: seq<CheckerType>)
    ensures RowCount(row, kinds) <= |row|
    decreases |row|
  {
    if row != [] {
      RowCountBound(row[..|row| - 1], kinds);
    }
  }

  lemma {:induction false} CountRowsBound(rows: seq<seq<CheckerType>>, kinds: seq<CheckerType>, w: nat)
    requires forall y :: 0 <= y < |rows| ==> |rows[y]| == w
    ensures CountRows(rows, kinds) <= |rows| * w
    decreases |rows|
  {
    if rows != [] {
      var init := rows[..|rows| - 1];
      CountRowsBound(init, kinds, w);
      RowCountBound(rows[|rows| - 1], kinds);
      assert CountRows(init, kinds) <= |init| * w;
      assert |init| * w + w == |rows| * w;
    }
  }

  /** A count of cells never exceeds the number of cells. */
  lemma CountBound(g: Grid, kinds: seq<CheckerType>)
    requires Valid(g)
    ensures CheckersCount(g, kinds) <= g.w * g.h
  {
    CountRowsBound(g.rows, kinds, g.w);
  }

  lemma {:induction false} RowCountPut(row: seq<CheckerType>, x: nat, t: CheckerType, kinds: seq<CheckerType>)
    requires x < |row|
    ensures RowCount(row[x := t], kinds) + Indicator(row[x] in kinds) == RowCount(row, kinds) + Indicator(t in kinds)
    decreases |row|
  {
    var n := |row|;
    if x == n - 1 {
      assert row[x := t][..n - 1] == row[..n - 1];
    } else {
      assert row[x := t][..n - 1] == row[..n - 1][x := t];
      RowCountPut(row[..n - 1], x, t, kinds);
    }
  }

  lemma {:induction false} CountRowsPut(rows: seq<seq<CheckerType>>, y: nat, r: seq<CheckerType>, kinds: seq<CheckerType>)
    requires y < |rows|
    ensures CountRows(rows[y := r], kinds) + RowCount(rows[y], kinds) == CountRows(rows, kinds) + RowCount(r, kinds)
    decreases |rows|
  {
    var n := |rows|;
    if y == n - 1 {
      assert rows[y := r][..n - 1] == rows[..n - 1];
    } else {
      assert rows[y := r][..n - 1] == rows[..n - 1][y := r];
      CountRowsPut(rows[..n - 1], y, r, kinds);
    }
  }

  /** Overwriting one cell changes a count by what left the cell and what entered it. */
  lemma CountPut(g: Grid, x: int, y: int, t: CheckerType, kinds: seq<CheckerType>)
    requires Valid(g) && InBounds(g, x, y)
    ensures CheckersCount(Put(g, x, y, t), kinds) + Indicator(At(g, x, y) in kinds)
         == CheckersCount(g, kinds) + Indicator(t in kinds)
  {
    CountRowsPut(g.rows, y, g.rows[y][x := t], kinds);
    RowCountPut(g.rows[y], x, t, kinds);
  }

  // ---------------------------------------------------------------- opening layout

  /** The kind `__generate` puts on a cell: Black men on dark cells of the top three rows, White men on dark cells of the bottom three. */
  function LayoutCell(x: int, y: int, h: int): CheckerType
  {
    if (x + y) % 2 == 1 then
      if y < 3 then BlackMan else if y >= h - 3 then WhiteMan else None
    else None
  }

  /** The opening position of a `w` by `h` board. */
  function InitialGrid(w: nat, h: nat): (g: Grid)
    ensures Valid(g) && g.w == w && g.h == h
    ensures forall x, y :: InBounds(g, x, y) ==> At(g, x, y) == LayoutCell(x, y, h)
  {
    Grid(w, h, seq(h, y requires 0 <= y < h => seq(w, x requires 0 <= x < w => LayoutCell(x, y, h))))
  }

  /** Pieces stand only on dark cells (odd coordinate sum); rows 0-2 hold Black men, the last three rows (below row 2) White men, all else is empty; there are no kings. */
  lemma InitialLayout(w: nat, h: nat, x: int, y: int)
    requires 0 <= x < w && 0 <= y < h
    ensures At(InitialGrid(w, h), x, y) != None ==> (x + y) % 2 == 1
    ensures (x + y) % 2 == 1 && y < 3 ==> At(InitialGrid(w, h), x, y) == BlackMan
    ensures (x + y) % 2 == 1 && 3 <= y && y >= h - 3 ==> At(InitialGrid(w, h), x, y) == WhiteMan
    ensures 3 <= y < h - 3 ==> At(InitialGrid(w, h), x, y) == None
    ensures At(InitialGrid(w, h), x, y) != WhiteKing && At(InitialGrid(w, h), x, y) != BlackKing
  {
  }

  // ---------------------------------------------------------------- applying a move

  /** The move stays on the grid and runs along a diagonal. */
  predicate Fits(g: Grid, m: Move)
  {
    Within(g, m.from) && Within(g, m.to) && Diagonal(m)
  }

  /** A man reaching its far row (row 0 for White, the last row for Black) becomes a king. */
  function Promote(t: CheckerType, toY: int, h: int): (r: CheckerType)
    ensures t == WhiteMan && toY == 0 ==> r == WhiteKing
    ensures t == BlackMan && toY == h - 1 ==> r == BlackKing
    ensures r == t || (t == WhiteMan && toY == 0) || (t == BlackMan && toY == h - 1)
  {
    if toY == 0 && t == WhiteMan then WhiteKing
    else if toY == h - 1 && t == BlackMan then BlackKing
    else t
  }

  /** The cell `p` lies strictly between the two ends of the move, on its diagonal. */
  predicate OnPath(m: Move, p: Position)
  {
    var i := Abs(p.x - m.from.x);
    0 < i < Dist(m) && p == PathAt(m, i)
  }

  lemma OnPathIff(m: Move, p: Position)
    requires Diagonal(m)
    ensures OnPath(m, p) <==> exists i :: 0 < i < Dist(m) && p == PathAt(m, i)
  {
    if exists i :: 0 < i < Dist(m) && p == PathAt(m, i) {
      var i :| 0 < i < Dist(m) && p == PathAt(m, i);
      assert Abs(p.x - m.from.x) == i;
    }
  }

  lemma PathWithin(g: Grid, m: Move, i: int)
    requires Fits(g, m) && 0 <= i <= Dist(m)
    ensures Within(g, PathAt(m, i))
  {
  }

  /** What a cell holds after the move: `from` and the cells strictly between are cleared, `to` receives the (possibly promoted) piece, every other cell keeps its kind. */
  function CellAfter(g: Grid, m: Move, x: int, y: int): CheckerType
    requires Valid(g) && Fits(g, m)
  {
    var p := Position(x, y);
    if p == m.from then None
    else if p == m.to then Promote(Cell(g, m.from), m.to.y, g.h)
    else if OnPath(m, p) then None
    else At(g, x, y)
  }

  /** The grid after `handle_move(m)`. */
  function Moved(g: Grid, m: Move): (r: Grid)
    requires Valid(g) && Fits(g, m)
    ensures Valid(r) && r.w == g.w && r.h == g.h
    ensures forall x, y :: InBounds(g, x, y) ==> At(r, x, y) == CellAfter(g, m, x, y)
  {
    Grid(g.w, g.h, seq(g.h, y requires 0 <= y < g.h => seq(g.w, x requires 0 <= x < g.w => CellAfter(g, m, x, y))))
  }

  /**
   * The cells of the grid after a move: `from` is emptied, `to` receives the
   * moving piece (promoted on its far row), the cells strictly between the
   * ends are emptied, and every cell off the move keeps its kind.
   */
  lemma MovedCells(g: Grid, m: Move, p: Position)
    requires Valid(g) && Fits(g, m) && Within(g, p)
    ensures p == m.from ==> Cell(Moved(g, m), p) == None
    ensures p == m.to && m.to != m.from ==> Cell(Moved(g, m), p) == Promote(Cell(g, m.from), m.to.y, g.h)
    ensures StrictlyBetween(m, p) ==> Cell(Moved(g, m), p) == None
    ensures p != m.from && p != m.to && !StrictlyBetween(m, p) ==> Cell(Moved(g, m), p) == Cell(g, p)
  {
    OnPathIff(m, p);
  }

  /** `handle_move` reports a capture: some cell strictly between the ends was occupied. */
  predicate Captured(g: Grid, m: Move)
    requires Valid(g)
  {
    exists i :: 0 < i < Dist(m) && Cell(g, PathAt(m, i)) != None
  }
}
