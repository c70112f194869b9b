/**
 * Cell coordinates, the four diagonal offsets and moves, with the textual
 * form of a move.
 */
module Geometry {

  /** A cell coordinate: column `x`, row `y` (row 0 is the top, Black's home side). */
  datatype Position = Position(x: int, y: int)

  /** The "nothing selected" coordinate that a position takes when constructed without arguments. */
  function DefaultPosition(): (p: Position)
    ensures p.x < 0 && p.y < 0
    ensures p.x == -1 && p.y == -1
  {
    Position(-1, -1)
  }

  /** Two positions are equal exactly when both coordinates are. */
  lemma PositionEquality(p: Position, q: Position)
    ensures p == q <==> p.x == q.x && p.y == q.y
  {
  }

  /**
   * The four diagonal unit offsets. The first two point up the board
   * (y - 1, the direction White men move), the last two down (y + 1, Black).
   */
  function MoveOffsets(): (r: seq<Position>)
    ensures |r| == 4
    ensures forall i :: 0 <= i < 4 ==> (r[i].x == 1 || r[i].x == -1) && (r[i].y == 1 || r[i].y == -1)
    ensures forall i, j :: 0 <= i < j < 4 ==> r[i] != r[j]
    ensures r[0].y == -1 && r[1].y == -1 && r[2].y == 1 && r[3].y == 1
  {
    [Position(-1, -1), Position(1, -1), Position(-1, 1), Position(1, 1)]
  }

  /** The offsets are exactly the four unit diagonals, in the order left-up, right-up, left-down, right-down. */
  lemma MoveOffsetsAreAllDiagonals(o: Position)
    ensures o in MoveOffsets() <==> (o.x == 1 || o.x == -1) && (o.y == 1 || o.y == -1)
    ensures MoveOffsets()[0] == Position(-1, -1) && MoveOffsets()[3] == Position(1, 1)
  {
    var r := MoveOffsets();
    if (o.x == 1 || o.x == -1) && (o.y == 1 || o.y == -1) {
      if o.x == -1 && o.y == -1 { assert r[0] == o; }
      else if o.x == 1 && o.y == -1 { assert r[1] == o; }
      else if o.x == -1 { assert r[2] == o; }
      else { assert r[3] == o; }
    }
  }

  /** A move of the piece on `from` to `to`. */
  datatype Move = Move(from: Position, to: Position)
  {
    function FromX(): int { from.x }
    function FromY(): int { from.y }
    function ToX(): int { to.x }
    function ToY(): int { to.y }
  }

  /** The four-coordinate constructor of the older engine. */
  function MoveOf(fromX: int, fromY: int, toX: int, toY: int): (m: Move)
    ensures m.FromX() == fromX && m.FromY() == fromY && m.ToX() == toX && m.ToY() == toY
  {
    Move(Position(fromX, fromY), Position(toX, toY))
  }

  /** A move constructed without arguments has every coordinate -1. */
  function DefaultMove(): (m: Move)
    ensures m.FromX() == -1 && m.FromY() == -1 && m.ToX() == -1 && m.ToY() == -1
    ensures m.from == DefaultPosition() && m.to == DefaultPosition()
  {
    MoveOf(-1, -1, -1, -1)
  }

  /** Move equality is equality of all four coordinates; so it is reflexive and symmetric. */
  lemma MoveEquality(a: Move, b: Move)
    ensures a == b <==> a.FromX() == b.FromX() && a.FromY() == b.FromY() && a.ToX() == b.ToX() && a.ToY() == b.ToY()
    ensures a == a
    ensures a == b ==> b == a
  {
  }

  // ---------------------------------------------------------------- diagonals

  function Abs(n: int): nat { if n < 0 then -n else n }

  /** Columns travelled by the move. */
  function Dx(m: Move): int { m.to.x - m.from.x }

  /** Rows travelled by the move. */
  function Dy(m: Move): int { m.to.y - m.from.y }

  /** Number of diagonal steps between the ends of a diagonal move. */
  function Dist(m: Move): nat { Abs(Dx(m)) }

  /** The move runs along a diagonal (a move from a cell to itself counts). */
  predicate Diagonal(m: Move) { Abs(Dx(m)) == Abs(Dy(m)) }

  /** The cell `i` diagonal steps from `from` towards `to`. */
  function PathAt(m: Move, i: int): (p: Position)
    ensures Diagonal(m) && 0 <= i ==> Abs(p.x - m.from.x) == i && Abs(p.y - m.from.y) == i
    ensures Diagonal(m) && i == Dist(m) ==> p == m.to
  {
    Position(m.from.x + (if m.to.x > m.from.x then i else -i),
             m.from.y + (if m.to.y > m.from.y then i else -i))
  }

  /** Positions strictly between the ends of a diagonal move. */
  predicate StrictlyBetween(m: Move, p: Position)
  {
    exists i :: 0 < i < Dist(m) && p == PathAt(m, i)
  }

  // ---------------------------------------------------------------- text form

  function DigitChar(d: nat): char
    requires d < 10
  {
    "0123456789"[d]
  }

  predicate IsDigit(c: char) { '0' <= c <= '9' }

  /** Decimal digits of a natural number, most significant first, no leading zeros. */
  function NatToString(n: nat): (s: string)
    ensures |s| > 0
    ensures forall i :: 0 <= i < |s| ==> IsDigit(s[i])
    decreases n
  {
    if n < 10 then [DigitChar(n)] else NatToString(n / 10) + [DigitChar(n % 10)]
  }

  /** Python's `str` of an integer: an optional minus sign followed by the digits. */
  function IntToString(n: int): (s: string)
    ensures |s| > 0
    ensures n < 0 <==> s[0] == '-'
  {
    if n < 0 then "-" + NatToString(-n) else NatToString(n)
  }

  /** The text form `"{from_x}-{from_y} -> {to_x}-{to_y}"` of a move; `str` gives the same text. */
  function Repr(m: Move): (s: string)
    ensures ReadMove(s) == Some(m)
  {
    TextRoundTrip(m);
    IntToString(m.FromX()) + "-" + IntToString(m.FromY()) + " -> " + IntToString(m.ToX()) + "-" + IntToString(m.ToY())
  }

  /** `str(move)` delegates to `repr(move)`. */
  function Str(m: Move): (s: string)
    ensures s == Repr(m)
  {
    Repr(m)
  }

  // A reader for the text form, used to show that the text form loses nothing.

  function DigitValue(c: char): nat
  {
    if IsDigit(c) then (c as int) - ('0' as int) else 0
  }

  function DigitsValue(s: string): nat
  {
    if s == [] then 0 else DigitsValue(s[..|s| - 1]) * 10 + DigitValue(s[|s| - 1])
  }

  /** Number of leading digit characters of `s`. */
  function LeadingDigits(s: string): (n: nat)
    ensures n <= |s|
  {
    if s != [] && IsDigit(s[0]) then 1 + LeadingDigits(s[1..]) else 0
  }

  /** Reads an optionally signed integer from the front of `s`; returns it with the unread rest. */
  function ReadInt(s: string): (r: (int, string))
  {
    if s != [] && s[0] == '-' then
      var n := LeadingDigits(s[1..]);
      (-(DigitsValue(s[1..][..n]) as int), s[1..][n..])
    else
      var n := LeadingDigits(s);
      (DigitsValue(s[..n]), s[n..])
  }

  /** Reads back a move from its text form; `Nothing` exactly when the separators are not where they belong. */
  function ReadMove(s: string): (r: Option<Move>)
  {
    var p := ReadInt(s);
    if |p.1| < 1 || p.1[0] != '-' then Nothing else ReadMoveFrom(p.0, p.1[1..])
  }

  /** Continues `ReadMove` after the `from` column and its separator. */
  function ReadMoveFrom(fx: int, s: string): (r: Option<Move>)
  {
    var p := ReadInt(s);
    if |p.1| < 4 || p.1[..4] != " -> " then Nothing else ReadMoveTo(fx, p.0, p.1[4..])
  }

  /** Continues `ReadMove` after the arrow. */
  function ReadMoveTo(fx: int, fy: int, s: string): (r: Option<Move>)
  {
    var p := ReadInt(s);
    if |p.1| < 1 || p.1[0] != '-' then Nothing else
    var q := ReadInt(p.1[1..]);
    if q.1 != [] then Nothing else Some(MoveOf(fx, fy, p.0, q.0))
  }

  datatype Option<T> = Nothing | Some(value: T)

  lemma {:induction false} DigitsValueOfNat(n: nat)
    ensures DigitsValue(NatToString(n)) == n
    decreases n
  {
    var s := NatToString(n);
    if n < 10 {
      assert s[..|s| - 1] == [];
    } else {
      DigitsValueOfNat(n / 10);
      assert s[..|s| - 1] == NatToString(n / 10);
    }
  }

  lemma {:induction false} LeadingDigitsOfDigits(d: string, t: string)
    requires forall i :: 0 <= i < |d| ==> IsDigit(d[i])
    requires t == [] || !IsDigit(t[0])
    ensures LeadingDigits(d + t) == |d|
    decreases |d|
  {
    if d != [] {
      assert (d + t)[1..] == d[1..] + t;
      LeadingDigitsOfDigits(d[1..], t);
    } else {
      assert d + t == t;
    }
  }

  /** Reading the text of an integer followed by a non-digit gives back the integer and the rest. */
  lemma ReadIntString(n: int, t: string)
    requires t == [] || !IsDigit(t[0])
    ensures ReadInt(IntToString(n) + t) == (n, t)
  {
    var a := if n < 0 then -n else n;
    var d := NatToString(a);
    LeadingDigitsOfDigits(d, t);
    DigitsValueOfNat(a);
    if n < 0 {
      var s := IntToString(n) + t;
      assert s == "-" + (d + t);
      assert s[1..] == d + t;
      assert (d + t)[..|d|] == d;
      assert (d + t)[|d|..] == t;
    } else {
      assert (d + t)[..|d|] == d;
      assert (d + t)[|d|..] == t;
    }
  }

  /** Regrouping the pieces of a text form. */
  lemma Regroup(a: string, b: string, c: string, d: string, e: string)
    ensures a + b + c + d + e == a + (b + (c + d + e))
  {
  }

  lemma ReadMoveToText(fx: int, fy: int, tx: int, ty: int)
    ensures ReadMoveTo(fx, fy, IntToString(tx) + "-" + IntToString(ty)) == Some(MoveOf(fx, fy, tx, ty))
  {
    var r3 := "-" + IntToString(ty);
    assert IntToString(tx) + "-" + IntToString(ty) == IntToString(tx) + r3;
    ReadIntString(tx, r3);
    assert r3[1..] == IntToString(ty) + [];
    ReadIntString(ty, []);
  }

  lemma ReadMoveFromText(fx: int, fy: int, tx: int, ty: int)
    ensures ReadMoveFrom(fx, IntToString(fy) + " -> " + IntToString(tx) + "-" + IntToString(ty)) == Some(MoveOf(fx, fy, tx, ty))
  {
    var t := IntToString(tx) + "-" + IntToString(ty);
    var r2 := " -> " + t;
    var s := IntToString(fy) + " -> " + IntToString(tx) + "-" + IntToString(ty);
    Regroup(IntToString(fy), " -> ", IntToString(tx), "-", IntToString(ty));
    assert s == IntToString(fy) + r2;
    ReadIntString(fy, r2);
    assert ReadInt(s) == (fy, r2);
    assert r2[..4] == " -> " && r2[4..] == t;
    ReadMoveToText(fx, fy, tx, ty);
    assert ReadMoveFrom(fx, s) == ReadMoveTo(fx, fy, t);
  }

  /** Reading back the text of the four coordinates yields the move. */
  lemma TextRoundTrip(m: Move)
    ensures ReadMove(IntToString(m.FromX()) + "-" + IntToString(m.FromY()) + " -> " + IntToString(m.ToX()) + "-" + IntToString(m.ToY())) == Some(m)
  {
    var t := IntToString(m.FromY()) + " -> " + IntToString(m.ToX()) + "-" + IntToString(m.ToY());
    var r1 := "-" + t;
    assert IntToString(m.FromX()) + "-" + IntToString(m.FromY()) + " -> " + IntToString(m.ToX()) + "-" + IntToString(m.ToY())
      == IntToString(m.FromX()) + r1;
    ReadIntString(m.FromX(), r1);
    assert r1[1..] == t;
    ReadMoveFromText(m.FromX(), m.FromY(), m.ToX(), m.ToY());
  }

  /** Distinct moves have distinct text forms, matching the coordinate-wise equality. */
  lemma ReprInjective(a: Move, b: Move)
    ensures Repr(a) == Repr(b) <==> a == b
  {
  }
}
