/**
 * Move generation on grid values, in the order the engine's nested loops
 * produce moves (rows top to bottom, columns left to right, offsets in table
 * order, king rays outward), together with declarative descriptions of
 * captures and quiet moves and the lemmas that the generated lists contain
 * exactly the moves those descriptions admit.
 */
module MoveGen {
  import opened Enums
  import opened Constants
  import opened Geometry
  import opened Grids

  // ---------------------------------------------------------------- rays

  /** `v + k * d` for a unit direction `d`. */
  function Ray(v: int, d: int, k: int): int
  {
    if d > 0 then v + k else v - k
  }

  predicate Unit(o: Position)
  {
    (o.x == 1 || o.x == -1) && (o.y == 1 || o.y == -1)
  }

  /** The cell `k` steps from `(x, y)` in direction `o`. */
  function RayAt(x: int, y: int, o: Position, k: int): Position
  {
    Position(Ray(x, o.x, k), Ray(y, o.y, k))
  }

  /** A ray that has left the grid never comes back. */
  lemma RayLeaves(g: Grid, x: int, y: int, o: Position, s: int, k: int)
    requires InBounds(g, x, y) && Unit(o) && 0 <= s <= k && !Within(g, RayAt(x, y, o, s))
    ensures !Within(g, RayAt(x, y, o, k))
  {
  }

  /** Every cell of a ray up to an in-grid cell is in the grid, and its distance is below `size`. */
  lemma RayStays(g: Grid, x: int, y: int, o: Position, i: int, k: int)
    requires InBounds(g, x, y) && Unit(o) && 0 <= i <= k && Within(g, RayAt(x, y, o, k))
    ensures Within(g, RayAt(x, y, o, i))
    ensures k < Size(g)
  {
  }

  /** A diagonal move of length k from `(x, y)` follows the ray in its own direction. */
  function DirOf(m: Move): Position
  {
    Position(if Dx(m) > 0 then 1 else -1, if Dy(m) > 0 then 1 else -1)
  }

  lemma PathIsRay(m: Move, o: Position, k: int)
    requires Unit(o) && k >= 1 && m.to == RayAt(m.from.x, m.from.y, o, k)
    ensures Diagonal(m) && Dist(m) == k && DirOf(m) == o
    ensures forall i :: PathAt(m, i) == RayAt(m.from.x, m.from.y, o, i)
  {
  }

  lemma RayOfPath(m: Move)
    requires Diagonal(m) && Dist(m) >= 1
    ensures Unit(DirOf(m)) && m.to == RayAt(m.from.x, m.from.y, DirOf(m), Dist(m))
    ensures forall i :: PathAt(m, i) == RayAt(m.from.x, m.from.y, DirOf(m), i)
  {
  }

  lemma UnitInOffsets(o: Position) returns (j: nat)
    requires Unit(o)
    ensures j < 4 && MoveOffsets()[j] == o
  {
    MoveOffsetsAreAllDiagonals(o);
    var r := MoveOffsets();
    j :| 0 <= j < 4 && r[j] == o;
  }

  // ---------------------------------------------------------------- declarative rules

  /** A man of `side` jumps two cells diagonally (any of the four directions) over an opposing piece onto an empty cell. */
  predicate IsManJump(g: Grid, side: Side, m: Move)
    requires Valid(g)
  {
    && Within(g, m.from) && Cell(g, m.from) == Man(side)
    && Abs(Dx(m)) == 2 && Abs(Dy(m)) == 2
    && Within(g, m.to) && Cell(g, m.to) == None
    && Owns(Opposite(side), Cell(g, PathAt(m, 1)))
  }

  /** A king of `side` lands on an empty cell beyond exactly one opposing piece, every other cell in between being empty. */
  predicate IsKingCapture(g: Grid, side: Side, m: Move)
    requires Valid(g)
  {
    && Within(g, m.from) && Cell(g, m.from) == King(side)
    && Diagonal(m) && Within(g, m.to) && Cell(g, m.to) == None
    && exists j :: 0 < j < Dist(m) && Owns(Opposite(side), Cell(g, PathAt(m, j)))
         && forall i :: 0 < i < Dist(m) && i != j ==> Cell(g, PathAt(m, i)) == None
  }

  predicate IsCapture(g: Grid, side: Side, m: Move)
    requires Valid(g)
  {
    IsManJump(g, side, m) || IsKingCapture(g, side, m)
  }

  /** A man of `side` steps one cell diagonally forward (up for White, down for Black) onto an empty cell. */
  predicate IsManStep(g: Grid, side: Side, m: Move)
    requires Valid(g)
  {
    && Within(g, m.from) && Cell(g, m.from) == Man(side)
    && Dy(m) == Forward(side) && Abs(Dx(m)) == 1
    && Within(g, m.to) && Cell(g, m.to) == None
  }

  /** A king of `side` slides any distance along a diagonal whose cells up to and including the landing are empty. */
  predicate IsKingSlide(g: Grid, side: Side, m: Move)
    requires Valid(g)
  {
    && Within(g, m.from) && Cell(g, m.from) == King(side)
    && Diagonal(m) && Dist(m) >= 1 && Within(g, m.to)
    && forall i :: 0 < i <= Dist(m) ==> Cell(g, PathAt(m, i)) == None
  }

  predicate IsQuiet(g: Grid, side: Side, m: Move)
    requires Valid(g)
  {
    IsManStep(g, side, m) || IsKingSlide(g, side, m)
  }

  /** Every capture or quiet move starts on a piece of the mover, lands on an empty cell of the grid and follows a diagonal. */
  lemma RuleShape(g: Grid, side: Side, m: Move)
    requires Valid(g) && (IsCapture(g, side, m) || IsQuiet(g, side, m))
    ensures Fits(g, m) && Dist(m) >= 1
    ensures Owns(side, Cell(g, m.from)) && Cell(g, m.to) == None
    ensures IsCapture(g, side, m) <==> Captured(g, m)
  {
    if IsKingSlide(g, side, m) {
      assert PathAt(m, Dist(m)) == m.to;
      assert !IsCapture(g, side, m);
    } else if IsManStep(g, side, m) {
      assert !IsCapture(g, side, m);
      assert !Captured(g, m);
    } else if IsManJump(g, side, m) {
      assert Cell(g, PathAt(m, 1)) != None;
    } else {
      var j :| 0 < j < Dist(m) && Owns(Opposite(side), Cell(g, PathAt(m, j)))
         && forall i :: 0 < i < Dist(m) && i != j ==> Cell(g, PathAt(m, i)) == None;
      assert Cell(g, PathAt(m, j)) != None;
    }
  }

  // ---------------------------------------------------------------- generators

  datatype Kind = Required | Optional

  /** A man's capture in direction `o`. */
  function ManJump(g: Grid, side: Side, x: int, y: int, o: Position): seq<Move>
    requires Valid(g)
  {
    var to := RayAt(x, y, o, 2);
    if !Within(g, to) then []
    else if Owns(Opposite(side), Cell(g, RayAt(x, y, o, 1))) && Cell(g, to) == None then [Move(Position(x, y), to)]
    else []
  }

  /** King capture scan in direction `o` from step `shift` on; `crossed` records an opposing piece already passed. */
  function KingScan(g: Grid, side: Side, x: int, y: int, o: Position, shift: nat, crossed: bool): seq<Move>
    requires Valid(g)
    decreases Size(g) - shift
  {
    if shift >= Size(g) then []
    else
      var p := RayAt(x, y, o, shift);
      if !Within(g, p) then KingScan(g, side, x, y, o, shift + 1, crossed)
      else if !crossed && Owns(Opposite(side), Cell(g, p)) then KingScan(g, side, x, y, o, shift + 1, true)
      else if !crossed && Owns(side, Cell(g, p)) then []
      else if crossed && Cell(g, p) != None then []
      else if crossed then [Move(Position(x, y), p)] + KingScan(g, side, x, y, o, shift + 1, true)
      else KingScan(g, side, x, y, o, shift + 1, false)
  }

  function KingCaptures(g: Grid, side: Side, x: int, y: int, o: Position): seq<Move>
    requires Valid(g)
  {
    if !Within(g, RayAt(x, y, o, 2)) then [] else KingScan(g, side, x, y, o, 1, false)
  }

  /** A man's step in direction `o`. */
  function ManStep(g: Grid, x: int, y: int, o: Position): seq<Move>
    requires Valid(g)
  {
    var to := RayAt(x, y, o, 1);
    if !Within(g, to) then []
    else if Cell(g, to) == None then [Move(Position(x, y), to)]
    else []
  }

  /** King slide scan in direction `o` from step `shift` on. */
  function SlideScan(g: Grid, x: int, y: int, o: Position, shift: nat): seq<Move>
    requires Valid(g)
    decreases Size(g) - shift
  {
    if shift >= Size(g) then []
    else
      var p := RayAt(x, y, o, shift);
      if !Within(g, p) then SlideScan(g, x, y, o, shift + 1)
      else if Cell(g, p) == None then [Move(Position(x, y), p)] + SlideScan(g, x, y, o, shift + 1)
      else []
  }

  function KingSlides(g: Grid, x: int, y: int, o: Position): seq<Move>
    requires Valid(g)
  {
    if !Within(g, RayAt(x, y, o, 1)) then [] else SlideScan(g, x, y, o, 1)
  }

  /** The directions a man of `side` may step in: the first two offsets for White, the last two for Black. */
  function ForwardOffsets(side: Side): (r: seq<Position>)
    ensures |r| == 2
    ensures forall i :: 0 <= i < 2 ==> Unit(r[i]) && r[i].y == Forward(side)
    ensures r[0] != r[1]
  {
    if side == White then MoveOffsets()[..2] else MoveOffsets()[2..]
  }

  /** The moves of the piece on `(x, y)` in direction `o`. */
  function DirMoves(g: Grid, side: Side, kind: Kind, x: int, y: int, o: Position): seq<Move>
    requires Valid(g)
  {
    if Cell(g, Position(x, y)) == Man(side) then
      (if kind == Required then ManJump(g, side, x, y, o) else ManStep(g, x, y, o))
    else
      (if kind == Required then KingCaptures(g, side, x, y, o) else KingSlides(g, x, y, o))
  }

  /** The moves of the piece on `(x, y)` for the offsets `offs[..k]`, in order. */
  function PieceMoves(g: Grid, side: Side, kind: Kind, x: int, y: int, offs: seq<Position>, k: nat): seq<Move>
    requires Valid(g) && k <= |offs|
  {
    if k == 0 then [] else PieceMoves(g, side, kind, x, y, offs, k - 1) + DirMoves(g, side, kind, x, y, offs[k - 1])
  }

  /** The offsets a piece on `(x, y)` tries: all four, except a man's step uses its two forward ones. */
  function OffsetsFor(g: Grid, side: Side, kind: Kind, x: int, y: int): seq<Position>
    requires Valid(g)
  {
    if kind == Optional && Cell(g, Position(x, y)) == Man(side) then ForwardOffsets(side) else MoveOffsets()
  }

  /** The moves generated for the cell `(x, y)`. */
  function CellMoves(g: Grid, side: Side, kind: Kind, x: int, y: int): seq<Move>
    requires Valid(g)
  {
    var t := Cell(g, Position(x, y));
    if t == Man(side) || t == King(side) then
      var offs := OffsetsFor(g, side, kind, x, y);
      PieceMoves(g, side, kind, x, y, offs, |offs|)
    else []
  }

  /** The moves of the first `n` cells of row `y`. */
  function RowMoves(g: Grid, side: Side, kind: Kind, y: int, n: nat): seq<Move>
    requires Valid(g)
  {
    if n == 0 then [] else RowMoves(g, side, kind, y, n - 1) + CellMoves(g, side, kind, n - 1, y)
  }

  /** The moves of the first `n` rows. */
  function MovesUpTo(g: Grid, side: Side, kind: Kind, n: nat): seq<Move>
    requires Valid(g)
  {
    if n == 0 then [] else MovesUpTo(g, side, kind, n - 1) + RowMoves(g, side, kind, n - 1, g.w)
  }

  /** `get_required_moves`: every capture available to `side`, in scan order. */
  function RequiredMoves(g: Grid, side: Side): seq<Move>
    requires Valid(g)
  {
    MovesUpTo(g, side, Required, g.h)
  }

  /** `__get_optional_moves`: every quiet move available to `side`, in scan order. */
  function OptionalMoves(g: Grid, side: Side): seq<Move>
    requires Valid(g)
  {
    MovesUpTo(g, side, Optional, g.h)
  }

  /** `get_moves`: the captures when there is one, otherwise the quiet moves. */
  function LegalMoves(g: Grid, side: Side): seq<Move>
    requires Valid(g)
  {
    var required := RequiredMoves(g, side);
    if required != [] then required else OptionalMoves(g, side)
  }

  /** The moves of `ms` that start on `p` (the filter applied after a capture). */
  function FromCell(ms: seq<Move>, p: Position): (r: seq<Move>)
    ensures forall m :: m in r <==> m in ms && m.from == p
  {
    if ms == [] then [] else (if ms[0].from == p then [ms[0]] else []) + FromCell(ms[1..], p)
  }
}
