/**
 * The generated move lists contain exactly the moves the declarative rules
 * admit: a capture list holds the captures of the side, a quiet list its
 * quiet moves, and a side with a capture must capture.
 */
module MoveRules {
  import opened Enums
  import opened Constants
  import opened Geometry
  import opened Grids
  import opened MoveGen

  // ---------------------------------------------------------------- king captures along one ray

  /** Every ray cell from step `s` up to (not including) step `k` is empty. */
  predicate Clear(g: Grid, x: int, y: int, o: Position, s: int, k: int)
    requires Valid(g)
  {
    forall i :: s <= i < k ==> Cell(g, RayAt(x, y, o, i)) == None
  }

  /** Every ray cell from step `s` up to and including step `k` is empty. */
  predicate ClearThrough(g: Grid, x: int, y: int, o: Position, s: int, k: int)
    requires Valid(g)
  {
    forall i :: s <= i <= k ==> Cell(g, RayAt(x, y, o, i)) == None
  }

  /**
   * Step `k` of the ray is an empty in-grid landing reachable from step `s`:
   * past exactly one opposing piece when none was crossed yet, past empty
   * cells only when one already was.
   */
  predicate CaptureLanding(g: Grid, side: Side, x: int, y: int, o: Position, s: int, k: int, crossed: bool)
    requires Valid(g)
  {
    && s <= k && Within(g, RayAt(x, y, o, k)) && Cell(g, RayAt(x, y, o, k)) == None
    && if crossed then Clear(g, x, y, o, s, k)
       else exists j :: s <= j < k && Owns(Opposite(side), Cell(g, RayAt(x, y, o, j)))
              && forall i :: s <= i < k && i != j ==> Cell(g, RayAt(x, y, o, i)) == None
  }

  lemma {:induction false} KingScanOutside(g: Grid, side: Side, x: int, y: int, o: Position, s: nat, crossed: bool)
    requires Valid(g) && InBounds(g, x, y) && Unit(o) && !Within(g, RayAt(x, y, o, s))
    ensures KingScan(g, side, x, y, o, s, crossed) == []
    decreases Size(g) - s
  {
    if s < Size(g) {
      RayLeaves(g, x, y, o, s, s + 1);
      KingScanOutside(g, side, x, y, o, s + 1, crossed);
    }
  }

  /** The king's capture scan from step `s` yields exactly the moves to the capture landings beyond `s`. */
  lemma {:induction false} KingScanMembers(g: Grid, side: Side, x: int, y: int, o: Position, s: nat, crossed: bool, m: Move)
    requires Valid(g) && InBounds(g, x, y) && Unit(o)
    ensures m in KingScan(g, side, x, y, o, s, crossed) <==>
      m.from == Position(x, y) &&
      exists k :: s <= k < Size(g) && m.to == RayAt(x, y, o, k) && CaptureLanding(g, side, x, y, o, s, k, crossed)
    decreases Size(g) - s
  {
    if s < Size(g) {
      var p := RayAt(x, y, o, s);
      if !Within(g, p) {
        KingScanOutside(g, side, x, y, o, s, crossed);
        NoLandingOutside(g, side, x, y, o, s, crossed);
      } else {
        var t := Cell(g, p);
        GroupOfSide(side, t);
        GroupOfSide(Opposite(side), t);
        OppositeInvolution(side);
        if !crossed && Owns(Opposite(side), t) {
          KingScanMembers(g, side, x, y, o, s + 1, true, m);
          LandingAfterCrossing(g, side, x, y, o, s);
        } else if !crossed && Owns(side, t) {
          NoLandingBlocked(g, side, x, y, o, s, false);
        } else if crossed && t != None {
          NoLandingBlocked(g, side, x, y, o, s, true);
        } else if crossed {
          KingScanMembers(g, side, x, y, o, s + 1, true, m);
          LandingEmptyCrossed(g, side, x, y, o, s);
        } else {
          KingScanMembers(g, side, x, y, o, s + 1, false, m);
          LandingEmptyUncrossed(g, side, x, y, o, s);
        }
      }
    }
  }

  lemma NoLandingOutside(g: Grid, side: Side, x: int, y: int, o: Position, s: nat, crossed: bool)
    requires Valid(g) && InBounds(g, x, y) && Unit(o) && !Within(g, RayAt(x, y, o, s))
    ensures forall k :: !CaptureLanding(g, side, x, y, o, s, k, crossed)
  {
    forall k | s <= k
      ensures !CaptureLanding(g, side, x, y, o, s, k, crossed)
    {
      RayLeaves(g, x, y, o, s, k);
    }
  }

  /** A piece of the mover's own (no opposing piece crossed yet) or any piece after one blocks every landing. */
  lemma NoLandingBlocked(g: Grid, side: Side, x: int, y: int, o: Position, s: nat, crossed: bool)
    requires Valid(g) && Within(g, RayAt(x, y, o, s)) && Cell(g, RayAt(x, y, o, s)) != None
    requires !crossed ==> !Owns(Opposite(side), Cell(g, RayAt(x, y, o, s)))
    ensures forall k :: !CaptureLanding(g, side, x, y, o, s, k, crossed)
  {
  }

  /** Crossing the opposing piece at step `s`: the landings are those past it with that piece crossed. */
  lemma LandingAfterCrossing(g: Grid, side: Side, x: int, y: int, o: Position, s: nat)
    requires Valid(g) && Within(g, RayAt(x, y, o, s)) && Owns(Opposite(side), Cell(g, RayAt(x, y, o, s)))
    ensures forall k :: CaptureLanding(g, side, x, y, o, s, k, false) <==> s + 1 <= k && CaptureLanding(g, side, x, y, o, s + 1, k, true)
  {
    forall k
      ensures CaptureLanding(g, side, x, y, o, s, k, false) <==> s + 1 <= k && CaptureLanding(g, side, x, y, o, s + 1, k, true)
    {
      if CaptureLanding(g, side, x, y, o, s, k, false) {
        var j :| s <= j < k && Owns(Opposite(side), Cell(g, RayAt(x, y, o, j)))
          && forall i :: s <= i < k && i != j ==> Cell(g, RayAt(x, y, o, i)) == None;
        assert j == s;
      }
    }
  }

  /** An empty cell after the crossing is itself a landing, and the scan goes on. */
  lemma LandingEmptyCrossed(g: Grid, side: Side, x: int, y: int, o: Position, s: nat)
    requires Valid(g) && Within(g, RayAt(x, y, o, s)) && Cell(g, RayAt(x, y, o, s)) == None
    ensures forall k :: CaptureLanding(g, side, x, y, o, s, k, true) <==> k == s || CaptureLanding(g, side, x, y, o, s + 1, k, true)
  {
    assert CaptureLanding(g, side, x, y, o, s, s, true);
  }

  /** An empty cell before any crossing changes nothing: the scan goes on from the next step. */
  lemma LandingEmptyUncrossed(g: Grid, side: Side, x: int, y: int, o: Position, s: nat)
    requires Valid(g) && Within(g, RayAt(x, y, o, s)) && Cell(g, RayAt(x, y, o, s)) == None
    ensures forall k :: CaptureLanding(g, side, x, y, o, s, k, false) <==> CaptureLanding(g, side, x, y, o, s + 1, k, false)
  {
    forall k
      ensures CaptureLanding(g, side, x, y, o, s, k, false) <==> CaptureLanding(g, side, x, y, o, s + 1, k, false)
    {
      if CaptureLanding(g, side, x, y, o, s, k, false) {
        var j :| s <= j < k && Owns(Opposite(side), Cell(g, RayAt(x, y, o, j)))
          && forall i :: s <= i < k && i != j ==> Cell(g, RayAt(x, y, o, i)) == None;
        GroupOfSide(Opposite(side), None);
        assert j != s;
      }
    }
  }

  lemma LandingIsKingCapture(g: Grid, side: Side, x: int, y: int, o: Position, k: int, m: Move)
    requires Valid(g) && InBounds(g, x, y) && Unit(o) && Cell(g, Position(x, y)) == King(side)
    requires m.from == Position(x, y) && 1 <= k && m.to == RayAt(x, y, o, k)
    requires CaptureLanding(g, side, x, y, o, 1, k, false)
    ensures DirOf(m) == o && IsKingCapture(g, side, m)
  {
    var opp := Opposite(side);
    PathIsRay(m, o, k);
    var j :| 1 <= j < k && Owns(opp, Cell(g, RayAt(x, y, o, j)))
      && forall i :: 1 <= i < k && i != j ==> Cell(g, RayAt(x, y, o, i)) == None;
    assert Owns(opp, Cell(g, PathAt(m, j)));
    forall i | 0 < i < Dist(m) && i != j
      ensures Cell(g, PathAt(m, i)) == None
    {
      assert PathAt(m, i) == RayAt(x, y, o, i);
    }
  }

  lemma KingCaptureFromScan(g: Grid, side: Side, x: int, y: int, o: Position, m: Move)
    requires Valid(g) && InBounds(g, x, y) && Unit(o) && Cell(g, Position(x, y)) == King(side)
    requires m in KingCaptures(g, side, x, y, o)
    ensures m.from == Position(x, y) && DirOf(m) == o && IsKingCapture(g, side, m)
  {
    KingScanMembers(g, side, x, y, o, 1, false, m);
    var k :| 1 <= k < Size(g) && m.to == RayAt(x, y, o, k) && CaptureLanding(g, side, x, y, o, 1, k, false);
    LandingIsKingCapture(g, side, x, y, o, k, m);
  }

  lemma KingCaptureToScan(g: Grid, side: Side, x: int, y: int, o: Position, m: Move)
    requires Valid(g) && InBounds(g, x, y) && Unit(o)
    requires m.from == Position(x, y) && DirOf(m) == o && IsKingCapture(g, side, m)
    ensures m in KingCaptures(g, side, x, y, o)
  {
    var opp := Opposite(side);
    var k := Dist(m);
    RayOfPath(m);
    var j :| 0 < j < k && Owns(opp, Cell(g, PathAt(m, j)))
      && forall i :: 0 < i < k && i != j ==> Cell(g, PathAt(m, i)) == None;
    RayStays(g, x, y, o, 2, k);
    assert Owns(opp, Cell(g, RayAt(x, y, o, j)));
    assert CaptureLanding(g, side, x, y, o, 1, k, false);
    KingScanMembers(g, side, x, y, o, 1, false, m);
  }

  /** The king captures of direction `o` are the king captures whose direction is `o`. */
  lemma KingCapturesMembers(g: Grid, side: Side, x: int, y: int, o: Position, m: Move)
    requires Valid(g) && InBounds(g, x, y) && Unit(o) && Cell(g, Position(x, y)) == King(side)
    ensures m in KingCaptures(g, side, x, y, o) <==> m.from == Position(x, y) && DirOf(m) == o && IsKingCapture(g, side, m)
  {
    if m in KingCaptures(g, side, x, y, o) {
      KingCaptureFromScan(g, side, x, y, o, m);
    }
    if m.from == Position(x, y) && DirOf(m) == o && IsKingCapture(g, side, m) {
      KingCaptureToScan(g, side, x, y, o, m);
    }
  }

  // ---------------------------------------------------------------- king slides along one ray

  lemma {:induction false} SlideScanOutside(g: Grid, x: int, y: int, o: Position, s: nat)
    requires Valid(g) && InBounds(g, x, y) && Unit(o) && !Within(g, RayAt(x, y, o, s))
    ensures SlideScan(g, x, y, o, s) == []
    decreases Size(g) - s
  {
    if s < Size(g) {
      RayLeaves(g, x, y, o, s, s + 1);
      SlideScanOutside(g, x, y, o, s + 1);
    }
  }

  /** The slide scan from step `s` yields exactly the moves to in-grid cells reached over empty cells only. */
  /** Once the ray leaves the grid it stays out. */
  lemma OutsideFrom(g: Grid, x: int, y: int, o: Position, s: nat)
    requires Valid(g) && InBounds(g, x, y) && Unit(o) && !Within(g, RayAt(x, y, o, s))
    ensures forall k :: s <= k ==> !Within(g, RayAt(x, y, o, k))
  {
    forall k | s <= k
      ensures !Within(g, RayAt(x, y, o, k))
    {
      RayLeaves(g, x, y, o, s, k);
    }
  }

  /** With step `s` empty, the ray is clear from `s` through `k` exactly when `k` is `s` or it is clear from `s + 1`. */
  lemma ClearThroughStep(g: Grid, x: int, y: int, o: Position, s: nat)
    requires Valid(g) && Cell(g, RayAt(x, y, o, s)) == None
    ensures ClearThrough(g, x, y, o, s, s)
    ensures forall k :: s + 1 <= k ==> (ClearThrough(g, x, y, o, s, k) <==> ClearThrough(g, x, y, o, s + 1, k))
  {
    forall k | s + 1 <= k
      ensures ClearThrough(g, x, y, o, s, k) <==> ClearThrough(g, x, y, o, s + 1, k)
    {
    }
  }

  lemma {:induction false} SlideScanMembers(g: Grid, x: int, y: int, o: Position, s: nat, m: Move)
    requires Valid(g) && InBounds(g, x, y) && Unit(o)
    ensures m in SlideScan(g, x, y, o, s) <==>
      m.from == Position(x, y) &&
      exists k :: s <= k < Size(g) && m.to == RayAt(x, y, o, k) && Within(g, RayAt(x, y, o, k)) && ClearThrough(g, x, y, o, s, k)
    decreases Size(g) - s
  {
    if s < Size(g) {
      var p := RayAt(x, y, o, s);
      if !Within(g, p) {
        SlideScanOutside(g, x, y, o, s);
        OutsideFrom(g, x, y, o, s);
      } else if Cell(g, p) == None {
        SlideScanMembers(g, x, y, o, s + 1, m);
        ClearThroughStep(g, x, y, o, s);
      } else {
        assert forall k :: s <= k ==> !ClearThrough(g, x, y, o, s, k);
      }
    }
  }

  /** The king slides of direction `o` are the king slides whose direction is `o`. */
  lemma KingSlidesMembers(g: Grid, side: Side, x: int, y: int, o: Position, m: Move)
    requires Valid(g) && InBounds(g, x, y) && Unit(o) && Cell(g, Position(x, y)) == King(side)
    ensures m in KingSlides(g, x, y, o) <==> m.from == Position(x, y) && DirOf(m) == o && IsKingSlide(g, side, m)
  {
    SlideScanMembers(g, x, y, o, 1, m);
    if m in KingSlides(g, x, y, o) {
      var k :| 1 <= k < Size(g) && m.to == RayAt(x, y, o, k) && Within(g, RayAt(x, y, o, k)) && ClearThrough(g, x, y, o, 1, k);
      PathIsRay(m, o, k);
    }
    if m.from == Position(x, y) && DirOf(m) == o && IsKingSlide(g, side, m) {
      var k := Dist(m);
      RayOfPath(m);
      RayStays(g, x, y, o, 1, k);
      assert ClearThrough(g, x, y, o, 1, k);
    }
  }

  // ---------------------------------------------------------------- men

  lemma ManJumpMembers(g: Grid, side: Side, x: int, y: int, o: Position, m: Move)
    requires Valid(g) && InBounds(g, x, y) && Unit(o) && Cell(g, Position(x, y)) == Man(side)
    ensures m in ManJump(g, side, x, y, o) <==> m.from == Position(x, y) && DirOf(m) == o && IsManJump(g, side, m)
  {
    if m in ManJump(g, side, x, y, o) {
      PathIsRay(m, o, 2);
    }
    if m.from == Position(x, y) && DirOf(m) == o && IsManJump(g, side, m) {
      RayOfPath(m);
    }
  }

  lemma ManStepMembers(g: Grid, side: Side, x: int, y: int, o: Position, m: Move)
    requires Valid(g) && InBounds(g, x, y) && Unit(o) && Cell(g, Position(x, y)) == Man(side)
    requires o.y == Forward(side)
    ensures m in ManStep(g, x, y, o) <==> m.from == Position(x, y) && DirOf(m) == o && IsManStep(g, side, m)
  {
    if m in ManStep(g, x, y, o) {
      PathIsRay(m, o, 1);
    }
    if m.from == Position(x, y) && DirOf(m) == o && IsManStep(g, side, m) {
      RayOfPath(m);
    }
  }

  // ---------------------------------------------------------------- whole pieces, rows and the board

  /** A capture when generating required moves, a quiet move when generating optional ones. */
  predicate ByRule(g: Grid, side: Side, kind: Kind, m: Move)
    requires Valid(g)
  {
    if kind == Required then IsCapture(g, side, m) else IsQuiet(g, side, m)
  }

  lemma DirMovesMembers(g: Grid, side: Side, kind: Kind, x: int, y: int, o: Position, m: Move)
    requires Valid(g) && InBounds(g, x, y) && Unit(o)
    requires Cell(g, Position(x, y)) == Man(side) || Cell(g, Position(x, y)) == King(side)
    requires kind == Optional && Cell(g, Position(x, y)) == Man(side) ==> o.y == Forward(side)
    ensures m in DirMoves(g, side, kind, x, y, o) <==> m.from == Position(x, y) && DirOf(m) == o && ByRule(g, side, kind, m)
  {
    GroupOfSide(side, Man(side));
    if Cell(g, Position(x, y)) == Man(side) {
      if kind == Required { ManJumpMembers(g, side, x, y, o, m); } else { ManStepMembers(g, side, x, y, o, m); }
    } else {
      if kind == Required { KingCapturesMembers(g, side, x, y, o, m); } else { KingSlidesMembers(g, side, x, y, o, m); }
    }
  }

  lemma {:induction false} PieceMovesMembers(g: Grid, side: Side, kind: Kind, x: int, y: int, offs: seq<Position>, k: nat, m: Move)
    requires Valid(g) && k <= |offs|
    ensures m in PieceMoves(g, side, kind, x, y, offs, k) <==> exists j :: 0 <= j < k && m in DirMoves(g, side, kind, x, y, offs[j])
  {
    if k > 0 {
      PieceMovesMembers(g, side, kind, x, y, offs, k - 1, m);
    }
  }

  /** The moves generated for a cell are exactly the rule's moves starting there. */
  lemma CellMovesMembers(g: Grid, side: Side, kind: Kind, x: int, y: int, m: Move)
    requires Valid(g) && InBounds(g, x, y)
    ensures m in CellMoves(g, side, kind, x, y) <==> m.from == Position(x, y) && ByRule(g, side, kind, m)
  {
    var P := Position(x, y);
    var t := Cell(g, P);
    GroupOfSide(side, Man(side));
    if t == Man(side) || t == King(side) {
      var offs := OffsetsFor(g, side, kind, x, y);
      PieceMovesMembers(g, side, kind, x, y, offs, |offs|, m);
      assert forall j :: 0 <= j < |offs| ==> Unit(offs[j]);
      assert kind == Optional && t == Man(side) ==> forall j :: 0 <= j < |offs| ==> offs[j].y == Forward(side);
      forall j | 0 <= j < |offs|
        ensures m in DirMoves(g, side, kind, x, y, offs[j]) <==> m.from == P && DirOf(m) == offs[j] && ByRule(g, side, kind, m)
      {
        DirMovesMembers(g, side, kind, x, y, offs[j], m);
      }
      if m.from == P && ByRule(g, side, kind, m) {
        RuleShape(g, side, m);
        RayOfPath(m);
        var o := DirOf(m);
        if kind == Optional && t == Man(side) {
          var f := ForwardOffsets(side);
          assert o == f[0] || o == f[1];
          if o == f[0] { assert m in DirMoves(g, side, kind, x, y, offs[0]); }
          else { assert m in DirMoves(g, side, kind, x, y, offs[1]); }
        } else {
          var j := UnitInOffsets(o);
          assert m in DirMoves(g, side, kind, x, y, offs[j]);
        }
      }
    }
  }

  lemma {:induction false} RowMovesMembers(g: Grid, side: Side, kind: Kind, y: int, n: nat, m: Move)
    requires Valid(g) && 0 <= y < g.h && n <= g.w
    ensures m in RowMoves(g, side, kind, y, n) <==> m.from.y == y && 0 <= m.from.x < n && ByRule(g, side, kind, m)
  {
    if n > 0 {
      var prev, cell := RowMoves(g, side, kind, y, n - 1), CellMoves(g, side, kind, n - 1, y);
      RowMovesMembers(g, side, kind, y, n - 1, m);
      CellMovesMembers(g, side, kind, n - 1, y, m);
      assert RowMoves(g, side, kind, y, n) == prev + cell;
      assert m in prev + cell <==> m in prev || m in cell;
      assert m.from == Position(n - 1, y) <==> m.from.x == n - 1 && m.from.y == y;
    }
  }

  lemma {:induction false} MovesUpToMembers(g: Grid, side: Side, kind: Kind, n: nat, m: Move)
    requires Valid(g) && n <= g.h
    ensures m in MovesUpTo(g, side, kind, n) <==> 0 <= m.from.y < n && ByRule(g, side, kind, m)
  {
    if n > 0 {
      MovesUpToMembers(g, side, kind, n - 1, m);
      RowMovesMembers(g, side, kind, n - 1, g.w, m);
      if ByRule(g, side, kind, m) {
        RuleShape(g, side, m);
      }
    }
  }

  /** `get_required_moves` lists exactly the captures available to the side. */
  lemma RequiredMovesAreCaptures(g: Grid, side: Side, m: Move)
    requires Valid(g)
    ensures m in RequiredMoves(g, side) <==> IsCapture(g, side, m)
  {
    MovesUpToMembers(g, side, Required, g.h, m);
  }

  /** `__get_optional_moves` lists exactly the quiet moves available to the side. */
  lemma OptionalMovesAreQuiet(g: Grid, side: Side, m: Move)
    requires Valid(g)
    ensures m in OptionalMoves(g, side) <==> IsQuiet(g, side, m)
  {
    MovesUpToMembers(g, side, Optional, g.h, m);
  }

  /** `get_moves`: capturing is compulsory; quiet moves are offered only when no capture exists. */
  lemma LegalMovesRule(g: Grid, side: Side, m: Move)
    requires Valid(g)
    ensures m in LegalMoves(g, side) <==>
      if exists c :: IsCapture(g, side, c) then IsCapture(g, side, m) else IsQuiet(g, side, m)
  {
    RequiredMovesAreCaptures(g, side, m);
    OptionalMovesAreQuiet(g, side, m);
    if exists c :: IsCapture(g, side, c) {
      var c :| IsCapture(g, side, c);
      RequiredMovesAreCaptures(g, side, c);
    } else if RequiredMoves(g, side) != [] {
      RequiredMovesAreCaptures(g, side, RequiredMoves(g, side)[0]);
    }
  }

  /** Every listed move starts on the mover's piece, lands on an empty cell and follows a diagonal; it captures exactly when it is a required move. */
  lemma LegalMovesShape(g: Grid, side: Side, m: Move)
    requires Valid(g)
    ensures m in LegalMoves(g, side) ==> Fits(g, m) && Dist(m) >= 1 && Owns(side, Cell(g, m.from)) && Cell(g, m.to) == None
    ensures m in LegalMoves(g, side) ==> (Captured(g, m) <==> m in RequiredMoves(g, side))
  {
    LegalMovesRule(g, side, m);
    RequiredMovesAreCaptures(g, side, m);
    OptionalMovesAreQuiet(g, side, m);
    if IsCapture(g, side, m) || IsQuiet(g, side, m) {
      RuleShape(g, side, m);
    }
  }

  /** The side has no move the rules allow: no capture and no quiet move. */
  ghost predicate Stuck(g: Grid, side: Side)
    requires Valid(g)
  {
    forall m :: !IsCapture(g, side, m) && !IsQuiet(g, side, m)
  }

  /** `get_moves` comes back empty exactly when the side has no move the rules allow. */
  lemma NoLegalMovesIff(g: Grid, side: Side)
    requires Valid(g)
    ensures LegalMoves(g, side) == [] <==> Stuck(g, side)
  {
    if LegalMoves(g, side) != [] {
      LegalMovesRule(g, side, LegalMoves(g, side)[0]);
    } else if !Stuck(g, side) {
      var m :| IsCapture(g, side, m) || IsQuiet(g, side, m);
      if IsCapture(g, side, m) {
        LegalMovesRule(g, side, m);
      } else {
        LegalMovesRule(g, side, m);
        if exists c :: IsCapture(g, side, c) {
          var c :| IsCapture(g, side, c);
          LegalMovesRule(g, side, c);
        }
      }
    }
  }
}
