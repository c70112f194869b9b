/**
 * The current engine's board: `h` rows of `w` cell kinds, overwritten cell
 * by cell. Every method is proved against the value-level definitions of
 * modules Grids, MoveGen and Search through `View()`, the grid the array
 * currently holds.
 */
module BoardModel {
  import opened Enums
  import opened Constants
  import opened Geometry
  import opened Grids
  import opened MoveGen
  import opened MoveRules
  import opened MoveEffects
  import opened Search

  /**
   * A cell's kind part-way through the capture walk of `handle_move`: the
   * path cells at distance `lo` or more from `from` have been cleared
   * already, the others not yet.
   */
  ghost function CellDuring(g: Grid, m: Move, lo: nat, x: int, y: int): CheckerType
    requires Grids.Valid(g) && Fits(g, m)
  {
    var p := Position(x, y);
    if p == m.from then None
    else if p == m.to then Promote(Cell(g, m.from), m.to.y, g.h)
    else if OnPath(m, p) && Abs(x - m.from.x) >= lo then None
    else At(g, x, y)
  }

  /** Before the walk nothing between the ends is cleared. */
  lemma DuringStart(g: Grid, m: Move, x: int, y: int)
    requires Grids.Valid(g) && Fits(g, m)
    ensures CellDuring(g, m, Dist(m), x, y) ==
      if Position(x, y) == m.from then None
      else if Position(x, y) == m.to then Promote(Cell(g, m.from), m.to.y, g.h)
      else At(g, x, y)
  {
  }

  /** One step of the walk, onto the cell at distance `lo - 1` from `from`, clears that cell and no other. */
  lemma DuringStep(g: Grid, m: Move, lo: nat, x: int, y: int)
    requires Grids.Valid(g) && Fits(g, m) && 1 <= lo <= Dist(m)
    ensures Position(x, y) != PathAt(m, lo - 1) ==> CellDuring(g, m, lo - 1, x, y) == CellDuring(g, m, lo, x, y)
    ensures Position(x, y) == PathAt(m, lo - 1) && lo >= 2 ==>
      CellDuring(g, m, lo, x, y) == At(g, x, y) && CellDuring(g, m, lo - 1, x, y) == None
    ensures Position(x, y) == PathAt(m, lo - 1) && lo == 1 ==> CellDuring(g, m, lo - 1, x, y) == None
  {
    var p := Position(x, y);
    if p == PathAt(m, lo - 1) && lo >= 2 {
      assert Abs(x - m.from.x) == lo - 1;
      assert OnPath(m, p);
    }
  }

  /** Some cell at distance `lo` or more from `from`, strictly before `to`, is occupied. */
  ghost predicate CapturedFrom(g: Grid, m: Move, lo: nat)
    requires Grids.Valid(g)
  {
    exists i :: 0 < i && lo <= i < Dist(m) && Cell(g, PathAt(m, i)) != None
  }

  /** Extending the walk by the cell at distance `lo - 1` adds that cell to the ones inspected (the `from` cell excepted). */
  lemma CapturedFromStep(g: Grid, m: Move, lo: nat)
    requires Grids.Valid(g) && 1 <= lo
    ensures CapturedFrom(g, m, lo - 1) <==> CapturedFrom(g, m, lo) || (lo >= 2 && lo - 1 < Dist(m) && Cell(g, PathAt(m, lo - 1)) != None)
  {
  }

  /** The whole grid at that stage of the walk. */
  ghost function Walked(g: Grid, m: Move, lo: nat): (r: Grid)
    requires Grids.Valid(g) && Fits(g, m)
    ensures Grids.Valid(r) && r.w == g.w && r.h == g.h
  {
    Grid(g.w, g.h, seq(g.h, y requires 0 <= y < g.h => seq(g.w, x requires 0 <= x < g.w => CellDuring(g, m, lo, x, y))))
  }

  lemma WalkedAt(g: Grid, m: Move, lo: nat, x: int, y: int)
    requires Grids.Valid(g) && Fits(g, m) && InBounds(g, x, y)
    ensures At(Walked(g, m, lo), x, y) == CellDuring(g, m, lo, x, y)
  {
  }

  /** Promoting, relocating and emptying `from` gives the walk's first stage. */
  lemma WalkStart(g: Grid, m: Move, cur: Grid)
    requires Grids.Valid(g) && Fits(g, m)
    requires cur == Put(Put(g, m.to.x, m.to.y, Promote(Cell(g, m.from), m.to.y, g.h)), m.from.x, m.from.y, None)
    ensures cur == Walked(g, m, Dist(m))
  {
    forall a, b | 0 <= a < g.w && 0 <= b < g.h
      ensures cur.rows[b][a] == Walked(g, m, Dist(m)).rows[b][a]
    {
      DuringStart(g, m, a, b);
      WalkedAt(g, m, Dist(m), a, b);
    }
    GridsEqual(cur, Walked(g, m, Dist(m)));
  }

  /**
   * A step of the walk onto the cell at distance `lo - 1`: that cell still
   * holds its kind from before the move (or is `from`, already empty), and
   * clearing it gives the next stage.
   */
  lemma WalkStep(g: Grid, m: Move, lo: nat)
    requires Grids.Valid(g) && Fits(g, m) && 1 <= lo <= Dist(m)
    ensures Within(g, PathAt(m, lo - 1))
    ensures Cell(Walked(g, m, lo), PathAt(m, lo - 1)) == if lo >= 2 then Cell(g, PathAt(m, lo - 1)) else None
    ensures var p := PathAt(m, lo - 1);
      Put(Walked(g, m, lo), p.x, p.y, None) == Walked(g, m, lo - 1)
  {
    var p := PathAt(m, lo - 1);
    var cur := Walked(g, m, lo);
    PathWithin(g, m, lo - 1);
    DuringStep(g, m, lo, p.x, p.y);
    WalkedAt(g, m, lo, p.x, p.y);
    forall a, b | 0 <= a < g.w && 0 <= b < g.h
      ensures Put(cur, p.x, p.y, None).rows[b][a] == Walked(g, m, lo - 1).rows[b][a]
    {
      DuringStep(g, m, lo, a, b);
      WalkedAt(g, m, lo, a, b);
      WalkedAt(g, m, lo - 1, a, b);
      assert At(Put(cur, p.x, p.y, None), a, b) == CellDuring(g, m, lo - 1, a, b);
    }
    GridsEqual(Put(cur, p.x, p.y, None), Walked(g, m, lo - 1));
  }

  /** Clearing a cell that is already empty changes nothing. */
  lemma PutNone(g: Grid, x: int, y: int)
    requires Grids.Valid(g) && InBounds(g, x, y) && At(g, x, y) == None
    ensures Put(g, x, y, None) == g
  {
    GridsEqual(Put(g, x, y, None), g);
  }

  /** The walk's last stage is the grid after the move. */
  lemma WalkEnd(g: Grid, m: Move)
    requires Grids.Valid(g) && Fits(g, m)
    ensures Walked(g, m, 0) == Moved(g, m)
  {
    forall a, b | 0 <= a < g.w && 0 <= b < g.h
      ensures Walked(g, m, 0).rows[b][a] == Moved(g, m).rows[b][a]
    {
      DuringEnd(g, m, a, b);
      WalkedAt(g, m, 0, a, b);
      assert At(Moved(g, m), a, b) == CellAfter(g, m, a, b);
    }
    GridsEqual(Walked(g, m, 0), Moved(g, m));
  }

  /** The walk from `to` back to `from` moves one diagonal step per iteration: column and row each step against the move. */
  lemma PathBack(m: Move, lo: nat)
    requires Diagonal(m)
    ensures PathAt(m, 0) == m.from
    ensures lo >= 1 ==>
      PathAt(m, lo - 1) == Position(PathAt(m, lo).x + (if m.from.x < m.to.x then -1 else 1), PathAt(m, lo).y + (if m.from.y < m.to.y then -1 else 1))
  {
  }

  /** A node's lines after those of `acc`: its own line when non-empty (a root starts afresh), then the lines below its candidates. */
  lemma ExploreNode(g: Grid, side: Side, maxDepth: int, depth: int, current: seq<Move>, required: seq<Move>, rec: Recording, acc: seq<seq<Move>>)
    requires Valid(g) && Captures(g, side, required)
    ensures var cands := Candidates(g, side, required);
      (if current != [] then acc else []) + Explore(g, side, maxDepth, depth, current, required, rec)
      == (if current != [] then acc + [current] else [])
         + (if cands != [] && depth < maxDepth then ExploreEach(g, side, maxDepth, depth, current, cands, cands, rec) else [])
  {
  }

  /** The lines below the candidates from the `i`-th on, as recorded by `rec`. */
  ghost function Below(g: Grid, side: Side, maxDepth: int, depth: int, current: seq<Move>, moves: seq<Move>, i: int, rec: Recording): seq<seq<Move>>
    requires Valid(g) && depth < maxDepth && Playable(g, side, moves) && 0 <= i <= |moves|
  {
    assert forall m :: m in moves[i..] ==> m in moves;
    ExploreEach(g, side, maxDepth, depth, current, moves, moves[i..], rec)
  }

  /** Those below the `i`-th candidate, then those below the rest. */
  lemma BelowStep(g: Grid, side: Side, maxDepth: int, depth: int, current: seq<Move>, moves: seq<Move>, i: int, rec: Recording)
    requires Valid(g) && depth < maxDepth && Playable(g, side, moves) && 0 <= i < |moves|
    ensures IsCapture(g, side, moves[i]) || IsQuiet(g, side, moves[i])
    ensures Below(g, side, maxDepth, depth, current, moves, i, rec)
         == Child(g, side, maxDepth, depth, ChildLine(rec, current, moves, moves[i]), moves[i], rec) + Below(g, side, maxDepth, depth, current, moves, i + 1, rec)
  {
    assert moves[i] in moves;
    assert moves[i..][1..] == moves[i + 1..];
  }

  /** Appending the lines below the `i`-th candidate moves the loop one candidate on. */
  lemma BelowShift(g: Grid, side: Side, maxDepth: int, depth: int, current: seq<Move>, moves: seq<Move>, i: int, rec: Recording,
                   before: seq<seq<Move>>, after: seq<seq<Move>>)
    requires Valid(g) && depth < maxDepth && Playable(g, side, moves) && 0 <= i < |moves|
    requires IsCapture(g, side, moves[i]) || IsQuiet(g, side, moves[i])
    requires after == before + Child(g, side, maxDepth, depth, ChildLine(rec, current, moves, moves[i]), moves[i], rec)
    ensures after + Below(g, side, maxDepth, depth, current, moves, i + 1, rec) == before + Below(g, side, maxDepth, depth, current, moves, i, rec)
  {
    BelowStep(g, side, maxDepth, depth, current, moves, i, rec);
  }

  lemma BelowEnds(g: Grid, side: Side, maxDepth: int, depth: int, current: seq<Move>, moves: seq<Move>, rec: Recording)
    requires Valid(g) && depth < maxDepth && Playable(g, side, moves)
    ensures Below(g, side, maxDepth, depth, current, moves, 0, rec) == ExploreEach(g, side, maxDepth, depth, current, moves, moves, rec)
    ensures Below(g, side, maxDepth, depth, current, moves, |moves|, rec) == []
  {
    assert moves[0..] == moves;
  }

  /** One more move of the chosen line: the cut stops at it or keeps it. */
  lemma OwnPrefixStep(g: Grid, side: Side, s: seq<Move>, k: int)
    requires Valid(g) && 0 <= k < |s|
    ensures OwnPrefix(g, side, s[k..])
         == if Owns(Opposite(side), Cell(g, s[k].from)) then [] else [s[k]] + OwnPrefix(g, side, s[k + 1..])
  {
    assert s[k..][1..] == s[k + 1..];
  }

  /** Rating one more pair is one more comparison step. */
  lemma RateStep(ps: seq<(seq<Move>, Ratio)>, p: (seq<Move>, Ratio))
    ensures Fold(ps + [p]) == Step(Fold(ps), p.0, p.1)
  {
    assert (ps + [p])[..|ps|] == ps;
  }

  /** The comparisons of `get_optimal_move` over the rated pairs `ps` in order, from the state `st`. */
  function FoldFrom(st: Pick, ps: seq<(seq<Move>, Ratio)>): Pick
  {
    if ps == [] then st else Step(FoldFrom(st, ps[..|ps| - 1]), ps[|ps| - 1].0, ps[|ps| - 1].1)
  }

  /** Folding one more pair of `ps` is one more comparison step. */
  lemma FoldFromStep(st: Pick, ps: seq<(seq<Move>, Ratio)>, j: int)
    requires 0 <= j < |ps|
    ensures FoldFrom(st, ps[..j + 1]) == Step(FoldFrom(st, ps[..j]), ps[j].0, ps[j].1)
  {
    assert ps[..j + 1][..j] == ps[..j];
  }

  /** Folding a concatenation is folding the second part from where the first left off. */
  lemma {:induction false} FoldFromAppend(done: seq<(seq<Move>, Ratio)>, more: seq<(seq<Move>, Ratio)>)
    ensures Fold(done + more) == FoldFrom(Fold(done), more)
  {
    if more == [] {
      assert done + more == done;
    } else {
      var init := more[..|more| - 1];
      FoldFromAppend(done, init);
      assert (done + more)[..|done + more| - 1] == done + init;
      assert (done + more)[|done + more| - 1] == more[|more| - 1];
    }
  }

  /** The rated pairs of the first `i` explored lines. */
  ghost function RatedUpTo(g: Grid, side: Side, sc: Scoring, possible: seq<seq<Move>>, i: int): seq<(seq<Move>, Ratio)>
    requires Valid(g) && LinesFit(g, possible) && 0 <= i <= |possible|
  {
    PrefixFits(g, possible, i);
    Rated(g, side, sc, possible[..i])
  }

  lemma PrefixFits(g: Grid, possible: seq<seq<Move>>, i: int)
    requires LinesFit(g, possible) && 0 <= i <= |possible|
    ensures LinesFit(g, possible[..i])
  {
    forall s, m | s in possible[..i] && m in s
      ensures Fits(g, m)
    {
      assert s in possible;
    }
  }

  /** One more explored line adds its own rated pairs at the end. */
  lemma RatedUpToStep(g: Grid, side: Side, sc: Scoring, possible: seq<seq<Move>>, i: int)
    requires Valid(g) && LinesFit(g, possible) && 0 <= i < |possible|
    ensures forall m :: m in possible[i] ==> Fits(g, m)
    ensures RatedUpTo(g, side, sc, possible, i + 1) == RatedUpTo(g, side, sc, possible, i) + RatedLine(g, side, sc, possible[i])
  {
    assert possible[i] in possible;
    assert possible[..i + 1][..i] == possible[..i];
  }

  lemma RatedUpToEnds(g: Grid, side: Side, sc: Scoring, possible: seq<seq<Move>>)
    requires Valid(g) && LinesFit(g, possible)
    ensures RatedUpTo(g, side, sc, possible, 0) == []
    ensures RatedUpTo(g, side, sc, possible, |possible|) == Rated(g, side, sc, possible)
  {
    assert possible[..|possible|] == possible;
  }

  /** Once the walk is back on `from`, every cell holds what the move leaves there. */
  lemma DuringEnd(g: Grid, m: Move, x: int, y: int)
    requires Grids.Valid(g) && Fits(g, m)
    ensures CellDuring(g, m, 0, x, y) == CellAfter(g, m, x, y)
  {
  }

  class Board {
    /** `x_size`, the number of columns. */
    const w: nat
    /** `y_size`, the number of rows. */
    const h: nat
    /** `rows[y][x]` is the kind on column `x` of row `y` (the `__checkers` rows). */
    var rows: seq<seq<CheckerType>>

    predicate Valid()
      reads this
    {
      Grids.Valid(View())
    }

    /** The grid the board currently holds. */
    function View(): (g: Grid)
      reads this
      ensures g.w == w && g.h == h && g.rows == rows
    {
      Grid(w, h, rows)
    }

    /** `size`: the longer side. */
    function Size(): (r: nat)
      ensures r >= w && r >= h && (r == w || r == h)
    {
      if w >= h then w else h
    }

    /** `is_within`: the coordinate names a cell of the board. */
    predicate IsWithin(x: int, y: int)
    {
      0 <= x < w && 0 <= y < h
    }

    /** `type_at`: the kind on a cell of the board. */
    function TypeAt(x: int, y: int): (t: CheckerType)
      requires Valid() && IsWithin(x, y)
      reads this
      ensures t == Cell(View(), Position(x, y))
    {
      rows[y][x]
    }

    /** `at(x, y).type = t`: one cell overwritten, every other cell kept. */
    method SetType(x: int, y: int, t: CheckerType)
      requires Valid() && IsWithin(x, y)
      modifies this
      ensures Valid() && View() == Put(old(View()), x, y, t)
    {
      rows := rows[y := rows[y][x := t]];
    }

    /** `white_score`: one per White man, three per White king. */
    function WhiteScore(): (r: nat)
      requires Valid()
      reads this
      ensures r == CheckersCount(View(), [WhiteMan]) + 3 * CheckersCount(View(), [WhiteKing])
    {
      ScoreIsWeightedCount(View(), White);
      Grids.WhiteScore(View())
    }

    /** `black_score`: one per Black man, three per Black king. */
    function BlackScore(): (r: nat)
      requires Valid()
      reads this
      ensures r == CheckersCount(View(), [BlackMan]) + 3 * CheckersCount(View(), [BlackKing])
    {
      ScoreIsWeightedCount(View(), Black);
      Grids.BlackScore(View())
    }

    /** `white_checkers_count`: the cells holding a White piece, never more than there are cells. */
    function WhiteCheckersCount(): (r: nat)
      requires Valid()
      reads this
      ensures r == CheckersCount(View(), WhiteCheckers()) && r <= w * h
    {
      CountBound(View(), WhiteCheckers());
      CheckersCount(View(), WhiteCheckers())
    }

    /** `black_checkers_count`: the cells holding a Black piece, never more than there are cells. */
    function BlackCheckersCount(): (r: nat)
      requires Valid()
      reads this
      ensures r == CheckersCount(View(), BlackCheckers()) && r <= w * h
    {
      CountBound(View(), BlackCheckers());
      CheckersCount(View(), BlackCheckers())
    }

    /** A board of the given size in the opening position (`__init__` with `__generate`). */
    constructor (xSize: nat, ySize: nat)
      ensures w == xSize && h == ySize && Valid()
      ensures View() == InitialGrid(xSize, ySize)
    {
      w, h := xSize, ySize;
      rows := seq(ySize, _ => seq(xSize, _ => None));
      new;
      var y := 0;
      while y < h
        invariant 0 <= y <= h && Valid()
        invariant forall b, a :: 0 <= b < h && 0 <= a < w ==> rows[b][a] == if b < y then LayoutCell(a, b, h) else None
      {
        var x := 0;
        while x < w
          invariant 0 <= x <= w && Valid()
          invariant forall b, a :: 0 <= b < h && 0 <= a < w ==>
            rows[b][a] == if b < y || (b == y && a < x) then LayoutCell(a, b, h) else None
        {
          if (y + x) % 2 == 1 {
            if y < 3 {
              SetType(x, y, BlackMan);
            } else if y >= h - 3 {
              SetType(x, y, WhiteMan);
            }
          }
          x := x + 1;
        }
        y := y + 1;
      }
      GridsEqual(View(), InitialGrid(w, h));
    }

    /** `Board.copy`: a new board of the same size holding the same kinds. */
    static method Copy(board: Board) returns (c: Board)
      requires board.Valid()
      ensures fresh(c) && c.Valid() && c.w == board.w && c.h == board.h
      ensures c.View() == board.View()
    {
      c := new Board(board.w, board.h);
      var y := 0;
      while y < board.h
        invariant 0 <= y <= board.h && c.Valid() && c.w == board.w && c.h == board.h
        invariant forall b, a :: 0 <= b < y && 0 <= a < board.w ==> c.rows[b][a] == board.rows[b][a]
      {
        var x := 0;
        while x < board.w
          invariant 0 <= x <= board.w && c.Valid()
          invariant forall b, a :: 0 <= a < board.w && (0 <= b < y || (b == y && 0 <= a < x)) ==> c.rows[b][a] == board.rows[b][a]
        {
          c.SetType(x, y, board.TypeAt(x, y));
          x := x + 1;
        }
        y := y + 1;
      }
      GridsEqual(c.View(), board.View());
    }

    /** `restore_copy`: overwrite every cell with the kind `board` holds (a board of the same size, possibly this one). */
    method RestoreCopy(board: Board)
      requires Valid() && board.Valid() && board.w == w && board.h == h
      modifies this
      ensures Valid() && View() == old(board.View())
    {
      ghost var src := board.View();
      var y := 0;
      while y < h
        invariant 0 <= y <= h && Valid()
        invariant forall b, a :: 0 <= b < h && 0 <= a < w ==> rows[b][a] == if b < y then src.rows[b][a] else old(rows[b][a])
        invariant board.Valid() && forall b, a :: y <= b < h && 0 <= a < w ==> board.rows[b][a] == src.rows[b][a]
      {
        var x := 0;
        while x < w
          invariant 0 <= x <= w && Valid()
          invariant forall b, a :: 0 <= b < h && 0 <= a < w ==>
            rows[b][a] == if b < y || (b == y && a < x) then src.rows[b][a] else old(rows[b][a])
          invariant board.Valid() && forall b, a :: 0 <= a < w && ((b == y && x <= a) || y < b < h) ==> board.rows[b][a] == src.rows[b][a]
        {
          SetType(x, y, board.TypeAt(x, y));
          x := x + 1;
        }
        y := y + 1;
      }
      GridsEqual(View(), src);
    }

    /**
     * `handle_move`: promote a man reaching its far row, move the piece to
     * `to`, then walk back from `to` to `from` clearing every occupied cell;
     * the result says whether anything was cleared between the two ends.
     */
    method HandleMove(m: Move) returns (killed: bool)
      requires Valid() && Fits(View(), m)
      modifies this
      ensures Valid() && View() == Moved(old(View()), m)
      ensures killed == Captured(old(View()), m)
    {
      ghost var g := View();
      var fx, fy, tx, ty := m.from.x, m.from.y, m.to.x, m.to.y;
      if ty == 0 && TypeAt(fx, fy) == WhiteMan {
        SetType(fx, fy, WhiteKing);
      } else if ty == h - 1 && TypeAt(fx, fy) == BlackMan {
        SetType(fx, fy, BlackKing);
      }
      assert TypeAt(fx, fy) == Promote(Cell(g, m.from), m.to.y, g.h);
      ghost var promoted := View();
      SetType(tx, ty, TypeAt(fx, fy));
      SetType(fx, fy, None);
      assert View() == Put(Put(g, tx, ty, Promote(Cell(g, m.from), m.to.y, g.h)), fx, fy, None) by {
        GridsEqual(View(), Put(Put(g, tx, ty, Promote(Cell(g, m.from), m.to.y, g.h)), fx, fy, None));
      }
      WalkStart(g, m, View());
      killed := ClearPath(m, g);
      WalkEnd(g, m);
    }

    /** The walk of `handle_move` from `to` back to `from`, clearing every occupied cell it steps on. */
    method ClearPath(m: Move, ghost g: Grid) returns (killed: bool)
      requires Valid() && Grids.Valid(g) && g.w == w && g.h == h && Fits(g, m)
      requires View() == Walked(g, m, Dist(m))
      modifies this
      ensures Valid() && View() == Walked(g, m, 0)
      ensures killed == Captured(g, m)
    {
      var fx, fy, tx, ty := m.from.x, m.from.y, m.to.x, m.to.y;
      var dx := if fx < tx then -1 else 1;
      var dy := if fy < ty then -1 else 1;
      killed := false;
      var x, y := tx, ty;
      ghost var lo: nat := Dist(m);
      while x != fx || y != fy
        invariant Valid() && lo <= Dist(m) && Position(x, y) == PathAt(m, lo)
        invariant View() == Walked(g, m, lo)
        invariant killed <==> CapturedFrom(g, m, lo)
        decreases lo
      {
        PathBack(m, lo);
        x := x + dx;
        y := y + dy;
        lo := lo - 1;
        CapturedFromStep(g, m, lo + 1);
        var hit := ClearCell(x, y, m, g, lo);
        killed := killed || hit;
      }
      PathBack(m, lo);
    }

    /** One step of the walk back: the cell `(x, y)` at distance `lo` from `from` is emptied, reporting whether it held a piece. */
    method ClearCell(x: int, y: int, ghost m: Move, ghost g: Grid, ghost lo: nat) returns (hit: bool)
      requires Valid() && Grids.Valid(g) && g.w == w && g.h == h && Fits(g, m) && lo < Dist(m)
      requires Position(x, y) == PathAt(m, lo) && View() == Walked(g, m, lo + 1)
      modifies this
      ensures Valid() && View() == Walked(g, m, lo)
      ensures hit <==> lo >= 1 && Cell(g, PathAt(m, lo)) != None
    {
      WalkStep(g, m, lo + 1);
      if TypeAt(x, y) != None {
        SetType(x, y, None);
        hit := true;
      } else {
        PutNone(View(), x, y);
        hit := false;
      }
    }

    /** The king capture scan of `get_required_moves` along direction `o` from `(x, y)`. */
    method KingCaptureRay(side: Side, x: int, y: int, o: Position) returns (found: seq<Move>)
      requires Valid()
      ensures found == KingScan(View(), side, x, y, o, 1, false)
    {
      var crossed := false;
      found := [];
      var shift: int := 1;
      while shift < Size()
        invariant 1 <= shift
        invariant found + KingScan(View(), side, x, y, o, shift, crossed) == KingScan(View(), side, x, y, o, 1, false)
        decreases Size() - shift
      {
        var p := RayAt(x, y, o, shift);
        if !IsWithin(p.x, p.y) {
          shift := shift + 1;
          continue;
        }
        var t := TypeAt(p.x, p.y);
        if !crossed {
          if Owns(Opposite(side), t) {
            crossed := true;
            shift := shift + 1;
            continue;
          } else if Owns(side, t) {
            break;
          }
        }
        if crossed {
          if t == None {
            found := found + [Move(Position(x, y), p)];
          } else {
            break;
          }
        }
        shift := shift + 1;
      }
    }

    /** The king slide scan of `__get_optional_moves` along direction `o` from `(x, y)`. */
    method KingSlideRay(x: int, y: int, o: Position) returns (found: seq<Move>)
      requires Valid()
      ensures found == SlideScan(View(), x, y, o, 1)
    {
      found := [];
      var shift: int := 1;
      while shift < Size()
        invariant 1 <= shift
        invariant found + SlideScan(View(), x, y, o, shift) == SlideScan(View(), x, y, o, 1)
        decreases Size() - shift
      {
        var p := RayAt(x, y, o, shift);
        if !IsWithin(p.x, p.y) {
          shift := shift + 1;
          continue;
        }
        if TypeAt(p.x, p.y) == None {
          found := found + [Move(Position(x, y), p)];
        } else {
          break;
        }
        shift := shift + 1;
      }
    }

    /** The captures of the piece on `(x, y)` if it belongs to `side`: a man's jumps, a king's long captures, direction by direction. */
    method PieceCaptures(side: Side, x: int, y: int) returns (found: seq<Move>)
      requires Valid() && IsWithin(x, y)
      ensures found == CellMoves(View(), side, Required, x, y)
    {
      var t := TypeAt(x, y);
      if t == Man(side) {
        found := ManCaptures(side, x, y);
      } else if t == King(side) {
        found := KingCapturesAll(side, x, y);
      } else {
        found := [];
      }
    }

    /** A man's jumps, one per direction: over an adjacent opposing piece onto the empty cell behind it. */
    method ManCaptures(side: Side, x: int, y: int) returns (found: seq<Move>)
      requires Valid() && IsWithin(x, y) && TypeAt(x, y) == Man(side)
      ensures found == PieceMoves(View(), side, Required, x, y, MoveOffsets(), 4)
    {
      found := [];
      var k := 0;
      while k < 4
        invariant 0 <= k <= 4
        invariant found == PieceMoves(View(), side, Required, x, y, MoveOffsets(), k)
      {
        var o := MoveOffsets()[k];
        var to := RayAt(x, y, o, 2);
        if IsWithin(to.x, to.y) {
          var over := RayAt(x, y, o, 1);
          if Owns(Opposite(side), TypeAt(over.x, over.y)) && TypeAt(to.x, to.y) == None {
            found := found + [Move(Position(x, y), to)];
          }
        }
        k := k + 1;
      }
    }

    /** A king's captures, direction by direction, each scanned only when two steps fit on the board. */
    method KingCapturesAll(side: Side, x: int, y: int) returns (found: seq<Move>)
      requires Valid() && IsWithin(x, y) && TypeAt(x, y) == King(side)
      ensures found == PieceMoves(View(), side, Required, x, y, MoveOffsets(), 4)
    {
      found := [];
      var k := 0;
      while k < 4
        invariant 0 <= k <= 4
        invariant found == PieceMoves(View(), side, Required, x, y, MoveOffsets(), k)
      {
        var o := MoveOffsets()[k];
        var to := RayAt(x, y, o, 2);
        if IsWithin(to.x, to.y) {
          var ray := KingCaptureRay(side, x, y, o);
          found := found + ray;
        }
        k := k + 1;
      }
    }

    /** The quiet moves of the piece on `(x, y)` if it belongs to `side`: a man's forward steps, a king's slides. */
    method PieceSteps(side: Side, x: int, y: int) returns (found: seq<Move>)
      requires Valid() && IsWithin(x, y)
      ensures found == CellMoves(View(), side, Optional, x, y)
    {
      var t := TypeAt(x, y);
      if t == Man(side) {
        found := ManSteps(side, x, y);
      } else if t == King(side) {
        found := KingSlidesAll(side, x, y);
      } else {
        found := [];
      }
    }

    /** A man's steps onto an empty cell, in its two forward directions. */
    method ManSteps(side: Side, x: int, y: int) returns (found: seq<Move>)
      requires Valid() && IsWithin(x, y) && TypeAt(x, y) == Man(side)
      ensures found == PieceMoves(View(), side, Optional, x, y, ForwardOffsets(side), 2)
    {
      var offsets := if side == White then MoveOffsets()[..2] else MoveOffsets()[2..];
      found := [];
      var k := 0;
      while k < 2
        invariant 0 <= k <= 2
        invariant found == PieceMoves(View(), side, Optional, x, y, ForwardOffsets(side), k)
      {
        var to := RayAt(x, y, offsets[k], 1);
        if IsWithin(to.x, to.y) && TypeAt(to.x, to.y) == None {
          found := found + [Move(Position(x, y), to)];
        }
        k := k + 1;
      }
    }

    /** A king's slides, direction by direction, each scanned only when one step fits on the board. */
    method KingSlidesAll(side: Side, x: int, y: int) returns (found: seq<Move>)
      requires Valid() && IsWithin(x, y) && TypeAt(x, y) == King(side)
      ensures found == PieceMoves(View(), side, Optional, x, y, MoveOffsets(), 4)
    {
      found := [];
      var k := 0;
      while k < 4
        invariant 0 <= k <= 4
        invariant found == PieceMoves(View(), side, Optional, x, y, MoveOffsets(), k)
      {
        var o := MoveOffsets()[k];
        var next := RayAt(x, y, o, 1);
        if IsWithin(next.x, next.y) {
          var ray := KingSlideRay(x, y, o);
          found := found + ray;
        }
        k := k + 1;
      }
    }

    /** `get_required_moves`: the captures of `side`, cell by cell in row order. */
    method GetRequiredMoves(side: Side) returns (moves: seq<Move>)
      requires Valid()
      ensures moves == RequiredMoves(View(), side)
    {
      moves := [];
      var y := 0;
      while y < h
        invariant 0 <= y <= h
        invariant moves == MovesUpTo(View(), side, Required, y)
      {
        var found := RowCaptures(side, y);
        moves := moves + found;
        y := y + 1;
      }
    }

    /** The inner loop of `get_required_moves`: the captures from row `y`, left to right. */
    method RowCaptures(side: Side, y: int) returns (found: seq<Move>)
      requires Valid() && 0 <= y < h
      ensures found == RowMoves(View(), side, Required, y, w)
    {
      found := [];
      var x := 0;
      while x < w
        invariant 0 <= x <= w
        invariant found == RowMoves(View(), side, Required, y, x)
      {
        var cell := PieceCaptures(side, x, y);
        found := found + cell;
        x := x + 1;
      }
    }

    /** `__get_optional_moves`: the quiet moves of `side`, in the same scan order. */
    method GetOptionalMoves(side: Side) returns (moves: seq<Move>)
      requires Valid()
      ensures moves == OptionalMoves(View(), side)
    {
      moves := [];
      var y := 0;
      while y < h
        invariant 0 <= y <= h
        invariant moves == MovesUpTo(View(), side, Optional, y)
      {
        var found := RowSteps(side, y);
        moves := moves + found;
        y := y + 1;
      }
    }

    /** The inner loop of `__get_optional_moves`: the quiet moves from row `y`, left to right. */
    method RowSteps(side: Side, y: int) returns (found: seq<Move>)
      requires Valid() && 0 <= y < h
      ensures found == RowMoves(View(), side, Optional, y, w)
    {
      found := [];
      var x := 0;
      while x < w
        invariant 0 <= x <= w
        invariant found == RowMoves(View(), side, Optional, y, x)
      {
        var cell := PieceSteps(side, x, y);
        found := found + cell;
        x := x + 1;
      }
    }

    /** `get_moves`: the captures when there is one, otherwise the quiet moves; so capturing is compulsory. */
    method GetMoves(side: Side) returns (moves: seq<Move>)
      requires Valid()
      ensures moves == LegalMoves(View(), side)
      ensures forall m :: m in moves <==>
        if exists c :: IsCapture(View(), side, c) then IsCapture(View(), side, m) else IsQuiet(View(), side, m)
    {
      moves := GetRequiredMoves(side);
      if moves == [] {
        moves := GetOptionalMoves(side);
      }
      forall m
        ensures m in moves <==> if exists c :: IsCapture(View(), side, c) then IsCapture(View(), side, m) else IsQuiet(View(), side, m)
      {
        LegalMovesRule(View(), side, m);
      }
    }

    /** `is_game_over`: over when White (asked first) or Black has no move the rules allow; the other side wins. */
    method IsGameOver() returns (over: bool, winner: Option<Side>)
      requires Valid()
      ensures over <==> Stuck(View(), White) || Stuck(View(), Black)
      ensures winner == if Stuck(View(), White) then Some(Black) else if Stuck(View(), Black) then Some(White) else Nothing
    {
      NoLegalMovesIff(View(), White);
      NoLegalMovesIff(View(), Black);
      var whiteMoves := GetMoves(White);
      if whiteMoves == [] {
        return true, Some(Black);
      }
      var blackMoves := GetMoves(Black);
      if blackMoves == [] {
        return true, Some(White);
      }
      return false, Nothing;
    }

    /**
     * `__get_possible_moves`: records `current` when non-empty (a root call
     * starts a fresh list), then, while a ply is left, explores below each
     * candidate. The lines added are exactly the exploration of the line so
     * far, and the board is left as it was.
     */
    method PossibleMoves(side: Side, maxDepth: int, depth: int, acc: seq<seq<Move>>, current: seq<Move>, required: seq<Move>)
      returns (all: seq<seq<Move>>)
      requires Valid() && Captures(View(), side, required)
      modifies this
      ensures Valid() && View() == old(View())
      ensures all == (if current != [] then acc else []) + Explore(old(View()), side, maxDepth, depth, current, required, Line)
      decreases maxDepth - depth, PieceCount(View()), 2
    {
      all := if current != [] then acc + [current] else [];
      var moves := required;
      if moves == [] {
        moves := GetMoves(side);
      }
      assert moves == Candidates(View(), side, required);
      if moves != [] && depth < maxDepth {
        all := ExploreCandidates(side, maxDepth, depth, all, current, moves);
      }
    }

    /** The loop of `__get_possible_moves` over the candidates `moves`, each explored from a copy-restored board. */
    method ExploreCandidates(side: Side, maxDepth: int, depth: int, acc: seq<seq<Move>>, current: seq<Move>, moves: seq<Move>)
      returns (all: seq<seq<Move>>)
      requires Valid() && depth < maxDepth && Playable(View(), side, moves)
      modifies this
      ensures Valid() && View() == old(View())
      ensures all == acc + ExploreEach(old(View()), side, maxDepth, depth, current, moves, moves, Line)
      decreases maxDepth - depth, PieceCount(View()), 1
    {
      ghost var g := View();
      BelowEnds(g, side, maxDepth, depth, current, moves, Line);
      var copy := Copy(this);
      all := acc;
      var i := 0;
      while i < |moves|
        invariant 0 <= i <= |moves| && Valid() && View() == g
        invariant copy.Valid() && copy.w == w && copy.h == h && copy.View() == g
        invariant all + Below(g, side, maxDepth, depth, current, moves, i, Line) == acc + Below(g, side, maxDepth, depth, current, moves, 0, Line)
      {
        assert moves[i] in moves;
        ghost var before := all;
        all := PlayAndExplore(side, maxDepth, depth, all, current, moves[i]);
        assert ChildLine(Line, current, moves, moves[i]) == current + [moves[i]];
        BelowShift(g, side, maxDepth, depth, current, moves, i, Line, before, all);
        RestoreCopy(copy);
        i := i + 1;
      }
    }

    /** One candidate: play it, then continue the capture from the landing cell or hand the turn over one ply deeper. */
    method PlayAndExplore(side: Side, maxDepth: int, depth: int, acc: seq<seq<Move>>, current: seq<Move>, m: Move)
      returns (all: seq<seq<Move>>)
      requires Valid() && depth < maxDepth && (IsCapture(View(), side, m) || IsQuiet(View(), side, m))
      modifies this
      ensures Valid() && View() == Moved(old(View()), m)
      ensures all == acc + Child(old(View()), side, maxDepth, depth, current + [m], m, Line)
      decreases maxDepth - depth, PieceCount(View()), 0
    {
      ghost var g := View();
      RuleShape(g, side, m);
      LegalMoveMaterial(g, side, m);
      var killed := HandleMove(m);
      var req := GetRequiredMoves(side);
      var next := FromCell(req, m.to);
      assert next == Continuations(g, side, m);
      if killed && next != [] {
        all := PossibleMoves(side, maxDepth, depth, acc, current + [m], next);
      } else {
        all := PossibleMoves(Opposite(side), maxDepth, depth + 1, acc, current + [m], []);
      }
    }

    /**
     * `get_optimal_move`: rates every move of every explored line alone on
     * this board (best ratio kept, ties collected), then cuts one best line
     * before its first move that starts on an opposing piece.
     */
    method GetOptimalMove(side: Side, maxDepth: int) returns (line: seq<Move>)
      requires Valid()
      modifies this
      ensures Valid() && View() == old(View())
      ensures OptimalLines(old(View()), side, maxDepth, Line, Material) == [] ==> line == []
      ensures var best := OptimalLines(old(View()), side, maxDepth, Line, Material);
        best != [] ==> exists k :: 0 <= k < |best| && line == OwnPrefix(old(View()), side, best[k])
    {
      ghost var g := View();
      var possible := PossibleMoves(side, maxDepth, 0, [], [], []);
      ExploreFits(g, side, maxDepth, 0, [], [], Line);
      assert possible == Explore(g, side, maxDepth, 0, [], [], Line);
      var best, optimal := TallyLines(side, possible);
      assert optimal == OptimalLines(g, side, maxDepth, Line, Material);
      line := [];
      if optimal != [] {
        TallyKeepsBestLines(g, side, Material, possible);
        line := ChooseLine(side, optimal);
      }
    }

    /** `choice(optimal_moves)`, then the cut of the chosen line. */
    method ChooseLine(side: Side, optimal: seq<seq<Move>>) returns (line: seq<Move>)
      requires Valid() && optimal != [] && LinesFit(View(), optimal)
      ensures exists k :: 0 <= k < |optimal| && line == OwnPrefix(View(), side, optimal[k])
    {
      assert optimal[0] in optimal;
      var chosen: seq<Move> :| chosen in optimal;
      ghost var k :| 0 <= k < |optimal| && optimal[k] == chosen;
      line := CutOwnPrefix(side, chosen);
    }

    /** The two loops of `get_optimal_move`: the best ratio over every explored move, and the lines reaching it. */
    method TallyLines(side: Side, possible: seq<seq<Move>>) returns (best: Ratio, optimal: seq<seq<Move>>)
      requires Valid() && LinesFit(View(), possible)
      modifies this
      ensures Valid() && View() == old(View())
      ensures Pick(best, optimal) == Tally(old(View()), side, Material, possible)
    {
      ghost var g := View();
      RatedUpToEnds(g, side, Material, possible);
      best, optimal := Zero, [];
      if possible != [] {
        var copy := Copy(this);
        var i := 0;
        while i < |possible|
          invariant 0 <= i <= |possible| && View() == g && copy.View() == g
          invariant Pick(best, optimal) == Fold(RatedUpTo(g, side, Material, possible, i))
        {
          RatedUpToStep(g, side, Material, possible, i);
          FoldFromAppend(RatedUpTo(g, side, Material, possible, i), RatedLine(g, side, Material, possible[i]));
          best, optimal := TallyLine(side, possible[i], copy, best, optimal);
          i := i + 1;
        }
      }
    }

    /** The inner loop of `get_optimal_move` over the moves of one line, each played alone and undone from `copy`. */
    method TallyLine(side: Side, moves: seq<Move>, copy: Board, best0: Ratio, optimal0: seq<seq<Move>>)
      returns (best: Ratio, optimal: seq<seq<Move>>)
      requires Valid() && copy != this && copy.Valid() && copy.w == w && copy.h == h && copy.View() == View()
      requires forall m :: m in moves ==> Fits(View(), m)
      modifies this
      ensures Valid() && View() == old(View())
      ensures Pick(best, optimal) == FoldFrom(Pick(best0, optimal0), RatedLine(old(View()), side, Material, moves))
    {
      ghost var g := View();
      ghost var rated := RatedLine(g, side, Material, moves);
      best, optimal := best0, optimal0;
      var j := 0;
      while j < |moves|
        invariant 0 <= j <= |moves| && View() == g && copy.View() == g
        invariant Pick(best, optimal) == FoldFrom(Pick(best0, optimal0), rated[..j])
      {
        best, optimal := TallyStep(side, moves, j, copy, Pick(best0, optimal0), best, optimal);
        j := j + 1;
      }
      assert rated[..|moves|] == rated;
    }

    /** Pass `j` of the inner loop: the comparisons so far over the first `j` moves of the line are extended by the move `moves[j]`. */
    method TallyStep(side: Side, moves: seq<Move>, j: int, copy: Board, ghost start: Pick, best0: Ratio, optimal0: seq<seq<Move>>)
      returns (best: Ratio, optimal: seq<seq<Move>>)
      requires Valid() && copy != this && copy.Valid() && copy.w == w && copy.h == h && copy.View() == View()
      requires forall m :: m in moves ==> Fits(View(), m)
      requires 0 <= j < |moves|
      requires Pick(best0, optimal0) == FoldFrom(start, RatedLine(View(), side, Material, moves)[..j])
      modifies this
      ensures Valid() && View() == old(View())
      ensures Pick(best, optimal) == FoldFrom(start, RatedLine(old(View()), side, Material, moves)[..j + 1])
    {
      assert moves[j] in moves;
      FoldFromStep(start, RatedLine(View(), side, Material, moves), j);
      best, optimal := TallyMove(side, moves[j], copy, best0, optimal0, moves);
    }

    /** One pass of the inner loop: rate the move `m` of the line `moves`, compare, and undo the move from `copy`. */
    method TallyMove(side: Side, m: Move, copy: Board, best0: Ratio, optimal0: seq<seq<Move>>, moves: seq<Move>)
      returns (best: Ratio, optimal: seq<seq<Move>>)
      requires Valid() && copy != this && copy.Valid() && copy.w == w && copy.h == h && copy.View() == View()
      requires Fits(View(), m)
      modifies this
      ensures Valid() && View() == old(View())
      ensures Pick(best, optimal) == Step(Pick(best0, optimal0), moves, Rate(old(View()), side, Material, m))
    {
      var result := RateMove(side, m);
      best, optimal := Compare(best0, optimal0, moves, result);
      RestoreCopy(copy);
    }

    /** One comparison of `get_optimal_move`: a better ratio restarts the list of best lines, an equal one appends to it. */
    static method Compare(best0: Ratio, optimal0: seq<seq<Move>>, moves: seq<Move>, result: Ratio) returns (best: Ratio, optimal: seq<seq<Move>>)
      ensures Pick(best, optimal) == Step(Pick(best0, optimal0), moves, result)
    {
      best, optimal := best0, optimal0;
      if Greater(result, best) {
        best := result;
        optimal := [moves];
      } else if result == best {
        optimal := optimal + [moves];
      }
    }

    /** Plays `m` and divides the side's score by the opponent's (infinite on a zero divisor). */
    method RateMove(side: Side, m: Move) returns (result: Ratio)
      requires Valid() && Fits(View(), m)
      modifies this
      ensures Valid() && View() == Moved(old(View()), m)
      ensures result == Rate(old(View()), side, Material, m)
    {
      var _ := HandleMove(m);
      result := if side == White then RatioOf(WhiteScore(), BlackScore()) else RatioOf(BlackScore(), WhiteScore());
    }

    /** The last loop of `get_optimal_move`: the chosen line's moves up to the first one starting on an opposing piece. */
    method CutOwnPrefix(side: Side, chosen: seq<Move>) returns (line: seq<Move>)
      requires Valid() && forall m :: m in chosen ==> Fits(View(), m)
      ensures line == OwnPrefix(View(), side, chosen)
    {
      line := [];
      var k := 0;
      while k < |chosen|
        invariant 0 <= k <= |chosen|
        invariant line + OwnPrefix(View(), side, chosen[k..]) == OwnPrefix(View(), side, chosen)
      {
        var m := chosen[k];
        assert m in chosen;
        OwnPrefixStep(View(), side, chosen, k);
        if Owns(Opposite(side), TypeAt(m.from.x, m.from.y)) {
          assert line + [] == line;
          return;
        }
        assert (line + [m]) + OwnPrefix(View(), side, chosen[k + 1..]) == line + ([m] + OwnPrefix(View(), side, chosen[k + 1..]));
        line := line + [m];
        k := k + 1;
      }
      assert chosen[k..] == [] && line + [] == line;
    }
  }
}
