/** The engine's constant tables: piece groups per side and the default search depth. */
module Constants {
  import opened Enums

  /** Default number of plies the search looks ahead. */
  const MaxPredictionDepth: nat := 3

  /** The side the human player moves in the older engine's game. */
  const PlayerSide: Side := White

  /** White's pieces, man first then king. */
  function WhiteCheckers(): seq<CheckerType>
  {
    [WhiteMan, WhiteKing]
  }

  /** Black's pieces, man first then king. */
  function BlackCheckers(): seq<CheckerType>
  {
    [BlackMan, BlackKing]
  }

  /** The piece group of a side (`friendly_checkers`). */
  function Checkers(side: Side): (r: seq<CheckerType>)
    ensures |r| == 2 && None !in r
  {
    match side
    case White => WhiteCheckers()
    case Black => BlackCheckers()
  }

  /** The man of a side: the first entry of its group. */
  function Man(side: Side): CheckerType { Checkers(side)[0] }

  /** The king of a side: the second entry of its group. */
  function King(side: Side): CheckerType { Checkers(side)[1] }

  /** The row a man of `side` advances towards by one step: up for White, down for Black. */
  function Forward(side: Side): int
  {
    match side
    case White => -1
    case Black => 1
  }

  /** `t` is a piece of `side`. */
  predicate Owns(side: Side, t: CheckerType) { t in Checkers(side) }

  /**
   * The groups partition the occupied kinds: no kind belongs to both sides,
   * None belongs to neither, and every other kind belongs to exactly one.
   */
  lemma GroupsPartition(t: CheckerType)
    ensures !(Owns(White, t) && Owns(Black, t))
    ensures t == None <==> !Owns(White, t) && !Owns(Black, t)
    ensures Owns(White, t) <==> t == WhiteMan || t == WhiteKing
    ensures Owns(Black, t) <==> t == BlackMan || t == BlackKing
  {
  }

  /** A side's pieces are exactly its man and its king, and the opponent owns neither. */
  lemma GroupOfSide(side: Side, t: CheckerType)
    ensures Owns(side, t) <==> t == Man(side) || t == King(side)
    ensures Owns(side, t) ==> !Owns(Opposite(side), t) && t != None
    ensures Man(side) != King(side)
  {
  }
}
