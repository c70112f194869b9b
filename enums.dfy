/** The two sides and the five cell kinds of the checkers engine. */
module Enums {

  /** The two players. */
  datatype Side = White | Black

  /**
   * The side that moves after `s`. The source raises an error for any other
   * value; the datatype is closed, so that branch cannot be reached here.
   */
  function Opposite(s: Side): (r: Side)
    ensures r != s
    ensures s == White ==> r == Black
    ensures s == Black ==> r == White
  {
    match s
    case White => Black
    case Black => White
  }

  /** `Opposite` undoes itself. */
  lemma OppositeInvolution(s: Side)
    ensures Opposite(Opposite(s)) == s
  {
  }

  /** `Opposite` has no fixed point and is onto: every side is the opposite of exactly one side. */
  lemma OppositeBijective(s: Side, t: Side)
    ensures Opposite(s) == t <==> s == Opposite(t)
    ensures Opposite(s) != s
  {
  }

  /** The content of one cell; declaration order follows the source enumeration. */
  datatype CheckerType = None | WhiteMan | BlackMan | WhiteKing | BlackKing

  /** Every cell kind, in declaration order, each exactly once. */
  function AllCheckerTypes(): (r: seq<CheckerType>)
    ensures |r| == 5
    ensures forall i, j :: 0 <= i < j < |r| ==> r[i] != r[j]
    ensures r[0] == None
  {
    [None, WhiteMan, BlackMan, WhiteKing, BlackKing]
  }

  /** The enumeration is exhaustive: every cell kind is one of the five listed. */
  lemma AllCheckerTypesComplete(t: CheckerType)
    ensures t in AllCheckerTypes()
  {
    var r := AllCheckerTypes();
    match t
    case None => assert r[0] == t;
    case WhiteMan => assert r[1] == t;
    case BlackMan => assert r[2] == t;
    case WhiteKing => assert r[3] == t;
    case BlackKing => assert r[4] == t;
  }
}
