/**
 * What applying a generated move does to the material on the board: a
 * capture removes exactly one opposing piece and nothing of the mover's, a
 * quiet move removes nothing; the moving piece lands (promoted on its far
 * row) and its start cell empties.
 */
module MoveEffects {
  import opened Enums
  import opened Constants
  import opened Geometry
  import opened Grids
  import opened MoveGen
  import opened MoveRules

  /** Promotion never changes which side a piece belongs to. */
  lemma PromoteKeepsSide(side: Side, t: CheckerType, y: int, h: int)
    ensures Owns(side, t) <==> Owns(side, Promote(t, y, h))
    ensures t != None <==> Promote(t, y, h) != None
  {
    GroupsPartition(t);
    GroupsPartition(Promote(t, y, h));
  }

  /** The grid after a move whose path is empty: clear `from`, then write the (promoted) piece on `to`. */
  lemma QuietMovedIsPuts(g: Grid, m: Move)
    requires Valid(g) && Fits(g, m) && Dist(m) >= 1
    requires forall i :: 0 < i < Dist(m) ==> Cell(g, PathAt(m, i)) == None
    ensures Moved(g, m) == Put(Put(g, m.from.x, m.from.y, None), m.to.x, m.to.y, Promote(Cell(g, m.from), m.to.y, g.h))
  {
    var r := Moved(g, m);
    var g2 := Put(Put(g, m.from.x, m.from.y, None), m.to.x, m.to.y, Promote(Cell(g, m.from), m.to.y, g.h));
    forall x, y | 0 <= x < g.w && 0 <= y < g.h
      ensures r.rows[y][x] == g2.rows[y][x]
    {
      assert At(r, x, y) == CellAfter(g, m, x, y);
      OnPathIff(m, Position(x, y));
    }
    GridsEqual(r, g2);
  }

  /** The grid after a move over exactly one occupied cell, step `j`: as above, then clear that cell. */
  lemma CaptureMovedIsPuts(g: Grid, m: Move, j: int)
    requires Valid(g) && Fits(g, m) && 0 < j < Dist(m)
    requires forall i :: 0 < i < Dist(m) && i != j ==> Cell(g, PathAt(m, i)) == None
    ensures PathAt(m, j) != m.from && PathAt(m, j) != m.to && m.from != m.to && Within(g, PathAt(m, j))
    ensures Moved(g, m) == Put(Put(Put(g, m.from.x, m.from.y, None), m.to.x, m.to.y, Promote(Cell(g, m.from), m.to.y, g.h)),
                               PathAt(m, j).x, PathAt(m, j).y, None)
  {
    var q := PathAt(m, j);
    PathWithin(g, m, j);
    var r := Moved(g, m);
    var g3 := Put(Put(Put(g, m.from.x, m.from.y, None), m.to.x, m.to.y, Promote(Cell(g, m.from), m.to.y, g.h)), q.x, q.y, None);
    forall x, y | 0 <= x < g.w && 0 <= y < g.h
      ensures r.rows[y][x] == g3.rows[y][x]
    {
      CaptureMovedAt(g, m, j, x, y);
    }
    GridsEqual(r, g3);
  }

  /** Cell by cell: the moved grid agrees with the three writes on `(x, y)`. */
  lemma CaptureMovedAt(g: Grid, m: Move, j: int, x: int, y: int)
    requires Valid(g) && Fits(g, m) && 0 < j < Dist(m) && 0 <= x < g.w && 0 <= y < g.h
    requires forall i :: 0 < i < Dist(m) && i != j ==> Cell(g, PathAt(m, i)) == None
    requires Within(g, PathAt(m, j))
    ensures var q := PathAt(m, j);
      At(Moved(g, m), x, y)
      == At(Put(Put(Put(g, m.from.x, m.from.y, None), m.to.x, m.to.y, Promote(Cell(g, m.from), m.to.y, g.h)), q.x, q.y, None), x, y)
  {
    assert At(Moved(g, m), x, y) == CellAfter(g, m, x, y);
    OnPathIff(m, Position(x, y));
  }

  /** The one opposing piece a capture jumps: step `j` of its path. */
  lemma CaptureSite(g: Grid, side: Side, m: Move) returns (j: int)
    requires Valid(g) && IsCapture(g, side, m)
    ensures Fits(g, m) && 0 < j < Dist(m) && Owns(Opposite(side), Cell(g, PathAt(m, j)))
    ensures forall i :: 0 < i < Dist(m) && i != j ==> Cell(g, PathAt(m, i)) == None
  {
    RuleShape(g, side, m);
    if IsManJump(g, side, m) {
      j := 1;
    } else {
      j :| 0 < j < Dist(m) && Owns(Opposite(side), Cell(g, PathAt(m, j)))
         && forall i :: 0 < i < Dist(m) && i != j ==> Cell(g, PathAt(m, i)) == None;
    }
  }

  /** Counting through three writes on distinct cells: clear `a`, write `tb` on `b`, clear `c`. */
  lemma CountThroughPuts(g: Grid, a: Position, b: Position, c: Position, tb: CheckerType, kinds: seq<CheckerType>)
    requires Valid(g) && Within(g, a) && Within(g, b) && Within(g, c) && a != b && a != c && b != c
    requires None !in kinds
    ensures CheckersCount(Put(Put(Put(g, a.x, a.y, None), b.x, b.y, tb), c.x, c.y, None), kinds)
            + Indicator(Cell(g, a) in kinds) + Indicator(Cell(g, b) in kinds) + Indicator(Cell(g, c) in kinds)
         == CheckersCount(g, kinds) + Indicator(tb in kinds)
  {
    var g1 := Put(g, a.x, a.y, None);
    var g2 := Put(g1, b.x, b.y, tb);
    CountPut(g, a.x, a.y, None, kinds);
    CountPut(g1, b.x, b.y, tb, kinds);
    CountPut(g2, c.x, c.y, None, kinds);
  }

  /** Counting through the three writes of a capture. */
  lemma CaptureCounts(g: Grid, side: Side, m: Move, j: int, kinds: seq<CheckerType>)
    requires Valid(g) && Fits(g, m) && 0 < j < Dist(m) && Cell(g, m.to) == None && None !in kinds
    requires forall i :: 0 < i < Dist(m) && i != j ==> Cell(g, PathAt(m, i)) == None
    ensures CheckersCount(Moved(g, m), kinds) + Indicator(Cell(g, PathAt(m, j)) in kinds) + Indicator(Cell(g, m.from) in kinds)
         == CheckersCount(g, kinds) + Indicator(Promote(Cell(g, m.from), m.to.y, g.h) in kinds)
  {
    CaptureMovedIsPuts(g, m, j);
    CountThroughPuts(g, m.from, m.to, PathAt(m, j), Promote(Cell(g, m.from), m.to.y, g.h), kinds);
  }

  /** A capture removes exactly one opposing piece, keeps the mover's material count, and lands the (promoted) piece. */
  lemma CaptureEffect(g: Grid, side: Side, m: Move)
    requires Valid(g) && IsCapture(g, side, m)
    ensures Captured(g, m) && Fits(g, m)
    ensures Cell(Moved(g, m), m.from) == None
    ensures Cell(Moved(g, m), m.to) == Promote(Cell(g, m.from), m.to.y, g.h)
    ensures CheckersCount(Moved(g, m), Checkers(Opposite(side))) + 1 == CheckersCount(g, Checkers(Opposite(side)))
    ensures CheckersCount(Moved(g, m), Checkers(side)) == CheckersCount(g, Checkers(side))
    ensures PieceCount(Moved(g, m)) + 1 == PieceCount(g)
  {
    RuleShape(g, side, m);
    var opp := Opposite(side);
    var j := CaptureSite(g, side, m);
    var c := Cell(g, PathAt(m, j));
    var t := Cell(g, m.from);
    var pt := Promote(t, m.to.y, g.h);
    GroupOfSide(side, t);
    GroupOfSide(opp, c);
    OppositeInvolution(side);
    PromoteKeepsSide(side, t, m.to.y, g.h);
    PromoteKeepsSide(opp, t, m.to.y, g.h);
    GroupsPartition(c);
    GroupsPartition(pt);
    GroupsPartition(t);
    var all := [WhiteMan, BlackMan, WhiteKing, BlackKing];
    CaptureCounts(g, side, m, j, Checkers(side));
    CaptureCounts(g, side, m, j, Checkers(opp));
    CaptureCounts(g, side, m, j, all);
    assert c in all && t in all && pt in all;
  }

  /** A quiet move captures nothing, keeps both sides' material counts, and lands the (promoted) piece. */
  lemma QuietEffect(g: Grid, side: Side, m: Move)
    requires Valid(g) && IsQuiet(g, side, m)
    ensures !Captured(g, m) && Fits(g, m)
    ensures Cell(Moved(g, m), m.from) == None
    ensures Cell(Moved(g, m), m.to) == Promote(Cell(g, m.from), m.to.y, g.h)
    ensures CheckersCount(Moved(g, m), Checkers(Opposite(side))) == CheckersCount(g, Checkers(Opposite(side)))
    ensures CheckersCount(Moved(g, m), Checkers(side)) == CheckersCount(g, Checkers(side))
    ensures PieceCount(Moved(g, m)) == PieceCount(g)
  {
    RuleShape(g, side, m);
    assert !IsCapture(g, side, m) by {
      if IsManStep(g, side, m) {
        assert Abs(Dx(m)) == 1;
      } else {
        assert Cell(g, PathAt(m, Dist(m))) == None;
      }
    }
    assert forall i :: 0 < i < Dist(m) ==> Cell(g, PathAt(m, i)) == None;
    QuietMovedIsPuts(g, m);
    var opp := Opposite(side);
    var t := Cell(g, m.from);
    var pt := Promote(t, m.to.y, g.h);
    var g1 := Put(g, m.from.x, m.from.y, None);
    var g2 := Put(g1, m.to.x, m.to.y, pt);
    GroupOfSide(side, t);
    OppositeInvolution(side);
    PromoteKeepsSide(side, t, m.to.y, g.h);
    PromoteKeepsSide(opp, t, m.to.y, g.h);
    GroupsPartition(pt);
    var all := [WhiteMan, BlackMan, WhiteKing, BlackKing];
    forall kinds: seq<CheckerType> | kinds == Checkers(side) || kinds == Checkers(opp) || kinds == all
      ensures CheckersCount(g2, kinds) + Indicator(t in kinds) == CheckersCount(g, kinds) + Indicator(pt in kinds)
    {
      CountPut(g, m.from.x, m.from.y, None, kinds);
      CountPut(g1, m.to.x, m.to.y, pt, kinds);
    }
    assert CheckersCount(g2, all) == PieceCount(g2);
  }

  /** Any listed move either shrinks the material on the board by one piece (a capture) or keeps it. */
  lemma LegalMoveMaterial(g: Grid, side: Side, m: Move)
    requires Valid(g) && (IsCapture(g, side, m) || IsQuiet(g, side, m))
    ensures Fits(g, m)
    ensures Captured(g, m) ==> PieceCount(Moved(g, m)) + 1 == PieceCount(g)
    ensures !Captured(g, m) ==> PieceCount(Moved(g, m)) == PieceCount(g)
  {
    RuleShape(g, side, m);
    if IsCapture(g, side, m) { CaptureEffect(g, side, m); } else { QuietEffect(g, side, m); }
  }
}
