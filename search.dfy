/**
 * The engine's look-ahead on grid values: the recursive exploration of lines
 * of play, the best-ratio tally over the explored moves, and the cut of the
 * chosen line at the first move of the opponent.
 */
module Search {
  import opened Enums
  import opened Constants
  import opened Geometry
  import opened Grids
  import opened MoveGen
  import opened MoveRules
  import opened MoveEffects
  import opened FieldScores

  // ---------------------------------------------------------------- candidate moves at a node

  predicate Captures(g: Grid, side: Side, ms: seq<Move>)
    requires Valid(g)
  {
    forall m :: m in ms ==> IsCapture(g, side, m)
  }

  predicate Playable(g: Grid, side: Side, ms: seq<Move>)
    requires Valid(g)
  {
    forall m :: m in ms ==> IsCapture(g, side, m) || IsQuiet(g, side, m)
  }

  /** The moves tried at a node: the forced continuations if any, otherwise `get_moves(side)`. */
  function Candidates(g: Grid, side: Side, required: seq<Move>): (r: seq<Move>)
    requires Valid(g) && Captures(g, side, required)
    ensures Playable(g, side, r)
  {
    assert Playable(g, side, LegalMoves(g, side)) by {
      forall m | m in LegalMoves(g, side)
        ensures IsCapture(g, side, m) || IsQuiet(g, side, m)
      {
        LegalMovesRule(g, side, m);
      }
    }
    if required != [] then required else LegalMoves(g, side)
  }

  /** After `m`, the captures of the same side that start on the cell `m` landed on. */
  function Continuations(g: Grid, side: Side, m: Move): (r: seq<Move>)
    requires Valid(g) && Fits(g, m)
    ensures forall c :: c in r <==> IsCapture(Moved(g, m), side, c) && c.from == m.to
  {
    var next := Moved(g, m);
    assert forall c :: c in RequiredMoves(next, side) <==> IsCapture(next, side, c) by {
      forall c
        ensures c in RequiredMoves(next, side) <==> IsCapture(next, side, c)
      {
        RequiredMovesAreCaptures(next, side, c);
      }
    }
    FromCell(RequiredMoves(next, side), m.to)
  }

  /** The same side moves again: `m` captured and the capturing piece can capture once more. */
  predicate Chains(g: Grid, side: Side, m: Move)
    requires Valid(g) && Fits(g, m)
  {
    Captured(g, m) && Continuations(g, side, m) != []
  }

  // ---------------------------------------------------------------- the turn rule

  /**
   * `ms` is a line of play from a node where `side` is to move, the forced
   * continuations being `required` and `plies` changes of turn being left:
   * each move is a candidate; the same side moves again exactly when it
   * captured and can go on capturing (then only with such a capture), and
   * every move needs a ply left, a change of turn using one up.
   */
  predicate LegalLine(g: Grid, side: Side, required: seq<Move>, plies: int, ms: seq<Move>)
    requires Valid(g) && Captures(g, side, required)
    decreases |ms|, 1
  {
    ms == [] || (plies >= 1 && ms[0] in Candidates(g, side, required) && Continues(g, side, plies, ms[0], ms[1..]))
  }

  /** `rest` is a line of play after the playable move `m`. */
  predicate Continues(g: Grid, side: Side, plies: int, m: Move, rest: seq<Move>)
    requires Valid(g) && (IsCapture(g, side, m) || IsQuiet(g, side, m))
    decreases |rest| + 1, 0
  {
    RuleShape(g, side, m);
    if Chains(g, side, m) then LegalLine(Moved(g, m), side, Continuations(g, side, m), plies, rest)
    else LegalLine(Moved(g, m), Opposite(side), [], plies - 1, rest)
  }

  // ---------------------------------------------------------------- exploring

  /**
   * What a node passes to a child as its line: the current engine passes the
   * line so far plus the move; the older engine, as written, passes the
   * node's candidate list plus the move.
   */
  datatype Recording = Line | CandidatesThenMove

  function ChildLine(rec: Recording, current: seq<Move>, cands: seq<Move>, m: Move): seq<Move>
  {
    (if rec == Line then current else cands) + [m]
  }

  /**
   * `__get_possible_moves(side, max_depth, depth, ..., current, required)`:
   * the node's own line when non-empty, then, while a ply is left and a
   * candidate exists, the lines found below each candidate in turn.
   */
  function Explore(g: Grid, side: Side, maxDepth: int, depth: int, current: seq<Move>, required: seq<Move>, rec: Recording): seq<seq<Move>>
    requires Valid(g) && Captures(g, side, required)
    decreases maxDepth - depth, PieceCount(g), 1, 0
  {
    var entry := if current != [] then [current] else [];
    var cands := Candidates(g, side, required);
    if cands != [] && depth < maxDepth then entry + ExploreEach(g, side, maxDepth, depth, current, cands, cands, rec)
    else entry
  }

  /** The lines found below each move of `ms` (a suffix of the node's candidates `cands`). */
  function ExploreEach(g: Grid, side: Side, maxDepth: int, depth: int, current: seq<Move>, cands: seq<Move>, ms: seq<Move>, rec: Recording): seq<seq<Move>>
    requires Valid(g) && depth < maxDepth && Playable(g, side, ms)
    decreases maxDepth - depth, PieceCount(g), 0, |ms|
  {
    if ms == [] then []
    else Child(g, side, maxDepth, depth, ChildLine(rec, current, cands, ms[0]), ms[0], rec)
         + ExploreEach(g, side, maxDepth, depth, current, cands, ms[1..], rec)
  }

  /** The lines found below the move `m`, recorded after `line`: same side and ply when it chains, otherwise the opponent one ply deeper. */
  function Child(g: Grid, side: Side, maxDepth: int, depth: int, line: seq<Move>, m: Move, rec: Recording): seq<seq<Move>>
    requires Valid(g) && depth < maxDepth && (IsCapture(g, side, m) || IsQuiet(g, side, m))
    decreases maxDepth - depth, PieceCount(g), 0, 0
  {
    LegalMoveMaterial(g, side, m);
    if Chains(g, side, m) then Explore(Moved(g, m), side, maxDepth, depth, line, Continuations(g, side, m), rec)
    else Explore(Moved(g, m), Opposite(side), maxDepth, depth + 1, line, [], rec)
  }

  /** With the line so far recorded, the explored lines are exactly the non-empty extensions of `current` by a line of play within the plies left. */
  lemma {:induction false} ExploreLines(g: Grid, side: Side, maxDepth: int, depth: int, current: seq<Move>, required: seq<Move>, s: seq<Move>)
    requires Valid(g) && Captures(g, side, required)
    ensures s in Explore(g, side, maxDepth, depth, current, required, Line) <==>
      s != [] && |current| <= |s| && s[..|current|] == current && LegalLine(g, side, required, maxDepth - depth, s[|current|..])
    decreases maxDepth - depth, PieceCount(g), 1, 0
  {
    var cands := Candidates(g, side, required);
    var n := |current|;
    if |current| <= |s| && s[..n] == current {
      var ms := s[n..];
      if ms != [] {
        assert ms[0] == s[n] && ms[1..] == s[n + 1..];
      } else {
        assert s == current;
      }
    }
    if cands != [] && depth < maxDepth {
      ExploreEachLines(g, side, maxDepth, depth, current, cands, cands, s);
    }
  }

  lemma {:induction false} ExploreEachLines(g: Grid, side: Side, maxDepth: int, depth: int, current: seq<Move>, cands: seq<Move>, ms: seq<Move>, s: seq<Move>)
    requires Valid(g) && depth < maxDepth && Playable(g, side, ms)
    ensures s in ExploreEach(g, side, maxDepth, depth, current, cands, ms, Line) <==>
      |current| < |s| && s[..|current|] == current && s[|current|] in ms && Continues(g, side, maxDepth - depth, s[|current|], s[|current| + 1..])
    decreases maxDepth - depth, PieceCount(g), 0, |ms| + 1
  {
    if ms != [] {
      var m := ms[0];
      assert ChildLine(Line, current, cands, m) == current + [m];
      ChildLines(g, side, maxDepth, depth, current, m, s);
      ExploreEachLines(g, side, maxDepth, depth, current, cands, ms[1..], s);
      if |current| < |s| {
        assert s[|current|] in ms <==> s[|current|] == m || s[|current|] in ms[1..];
      }
    }
  }

  lemma {:induction false} ChildLines(g: Grid, side: Side, maxDepth: int, depth: int, current: seq<Move>, m: Move, s: seq<Move>)
    requires Valid(g) && depth < maxDepth && (IsCapture(g, side, m) || IsQuiet(g, side, m))
    ensures s in Child(g, side, maxDepth, depth, current + [m], m, Line) <==>
      |current| < |s| && s[..|current|] == current && s[|current|] == m && Continues(g, side, maxDepth - depth, m, s[|current| + 1..])
    decreases maxDepth - depth, PieceCount(g), 0, 1
  {
    RuleShape(g, side, m);
    if Chains(g, side, m) {
      ChainedLines(g, side, maxDepth, depth, current, m, s);
    } else {
      PassedLines(g, side, maxDepth, depth, current, m, s);
    }
  }

  /** `ChildLines` when `m` chains: the same side goes on capturing at the same depth. */
  lemma {:induction false} ChainedLines(g: Grid, side: Side, maxDepth: int, depth: int, current: seq<Move>, m: Move, s: seq<Move>)
    requires Valid(g) && depth < maxDepth && (IsCapture(g, side, m) || IsQuiet(g, side, m))
    requires Fits(g, m) && Chains(g, side, m)
    ensures s in Child(g, side, maxDepth, depth, current + [m], m, Line) <==>
      |current| < |s| && s[..|current|] == current && s[|current|] == m && Continues(g, side, maxDepth - depth, m, s[|current| + 1..])
    decreases maxDepth - depth, PieceCount(g), 0, 0
  {
    LegalMoveMaterial(g, side, m);
    var line := current + [m];
    var n := |current|;
    var next := Moved(g, m);
    var req := Continuations(g, side, m);
    assert Child(g, side, maxDepth, depth, line, m, Line) == Explore(next, side, maxDepth, depth, line, req, Line) by {
      ChildUnfold(g, side, maxDepth, depth, line, m);
    }
    assert (|line| <= |s| && s[..|line|] == line) <==> (n < |s| && s[..n] == current && s[n] == m) by {
      ExtendedShape(current, m, s);
    }
    if n < |s| {
      assert Continues(g, side, maxDepth - depth, m, s[n + 1..]) <==> LegalLine(next, side, req, maxDepth - depth, s[|line|..]) by {
        ExtendedShape(current, m, s);
        ContinuesUnfold(g, side, maxDepth - depth, m, s[n + 1..]);
      }
    }
    ExploreLines(next, side, maxDepth, depth, line, req, s);
  }

  /** `ChildLines` when `m` does not chain: the opponent moves one ply deeper. */
  lemma {:induction false} PassedLines(g: Grid, side: Side, maxDepth: int, depth: int, current: seq<Move>, m: Move, s: seq<Move>)
    requires Valid(g) && depth < maxDepth && (IsCapture(g, side, m) || IsQuiet(g, side, m))
    requires Fits(g, m) && !Chains(g, side, m)
    ensures s in Child(g, side, maxDepth, depth, current + [m], m, Line) <==>
      |current| < |s| && s[..|current|] == current && s[|current|] == m && Continues(g, side, maxDepth - depth, m, s[|current| + 1..])
    decreases maxDepth - depth, PieceCount(g), 0, 0
  {
    var line := current + [m];
    var next := Moved(g, m);
    PassedCombine(g, side, maxDepth, depth, current, m, s, next, line);
    if depth + 1 < maxDepth {
      // the opponent's node still has a ply to explore
      ExploreLines(next, Opposite(side), maxDepth, depth + 1, line, [], s);
    } else {
      // the opponent's node is at the depth limit and only records the line
      ExploreLines(next, Opposite(side), maxDepth, depth + 1, line, [], s);
    }
  }

  /** The two sides of `PassedLines` restated at the opponent's node one ply deeper. */
  lemma PassedCombine(g: Grid, side: Side, maxDepth: int, depth: int, current: seq<Move>, m: Move, s: seq<Move>, next: Grid, line: seq<Move>)
    requires Valid(g) && depth < maxDepth && (IsCapture(g, side, m) || IsQuiet(g, side, m))
    requires Fits(g, m) && !Chains(g, side, m)
    requires next == Moved(g, m) && line == current + [m]
    ensures (s in Child(g, side, maxDepth, depth, current + [m], m, Line)) == (s in Explore(next, Opposite(side), maxDepth, depth + 1, line, [], Line))
    ensures (|current| < |s| && s[..|current|] == current && s[|current|] == m && Continues(g, side, maxDepth - depth, m, s[|current| + 1..]))
         == (s != [] && |line| <= |s| && s[..|line|] == line && LegalLine(next, Opposite(side), [], maxDepth - (depth + 1), s[|line|..]))
  {
    var n := |current|;
    assert Child(g, side, maxDepth, depth, line, m, Line) == Explore(next, Opposite(side), maxDepth, depth + 1, line, [], Line) by {
      ChildUnfold(g, side, maxDepth, depth, line, m);
    }
    assert (|line| <= |s| && s[..|line|] == line) <==> (n < |s| && s[..n] == current && s[n] == m) by {
      ExtendedShape(current, m, s);
    }
    if n < |s| {
      assert Continues(g, side, maxDepth - depth, m, s[n + 1..]) <==> LegalLine(next, Opposite(side), [], maxDepth - (depth + 1), s[|line|..]) by {
        ExtendedShape(current, m, s);
        ContinuesUnfold(g, side, maxDepth - depth, m, s[n + 1..]);
      }
    }
  }

  /** The lines below `m`: the same side's forced captures when it chains, otherwise the opponent one ply deeper. */
  lemma ChildUnfold(g: Grid, side: Side, maxDepth: int, depth: int, line: seq<Move>, m: Move)
    requires Valid(g) && depth < maxDepth && (IsCapture(g, side, m) || IsQuiet(g, side, m))
    ensures Fits(g, m)
    ensures Chains(g, side, m) ==>
      Child(g, side, maxDepth, depth, line, m, Line) == Explore(Moved(g, m), side, maxDepth, depth, line, Continuations(g, side, m), Line)
    ensures !Chains(g, side, m) ==>
      Child(g, side, maxDepth, depth, line, m, Line) == Explore(Moved(g, m), Opposite(side), maxDepth, depth + 1, line, [], Line)
  {
    RuleShape(g, side, m);
  }

  /** `s` extends `current + [m]` exactly when it extends `current` and `m` comes next. */
  lemma ExtendedShape(current: seq<Move>, m: Move, s: seq<Move>)
    ensures (|current + [m]| <= |s| && s[..|current + [m]|] == current + [m])
        <==> (|current| < |s| && s[..|current|] == current && s[|current|] == m)
    ensures |current| < |s| ==> s[|current| + 1..] == s[|current + [m]|..]
  {
    var n := |current|;
    if n < |s| {
      assert s[..n + 1] == current + [m] <==> s[..n] == current && s[n] == m;
    }
  }

  /** After `m` the line goes on with the same side's forced captures when `m` chains, otherwise with the opponent one ply down. */
  lemma ContinuesUnfold(g: Grid, side: Side, plies: int, m: Move, rest: seq<Move>)
    requires Valid(g) && (IsCapture(g, side, m) || IsQuiet(g, side, m))
    ensures Fits(g, m)
    ensures Chains(g, side, m) ==> (Continues(g, side, plies, m, rest) <==> LegalLine(Moved(g, m), side, Continuations(g, side, m), plies, rest))
    ensures !Chains(g, side, m) ==> (Continues(g, side, plies, m, rest) <==> LegalLine(Moved(g, m), Opposite(side), [], plies - 1, rest))
  {
    RuleShape(g, side, m);
  }

  /** Every explored line holds moves that stay on the grid, provided the line passed in does. */
  lemma {:induction false} ExploreFits(g: Grid, side: Side, maxDepth: int, depth: int, current: seq<Move>, required: seq<Move>, rec: Recording)
    requires Valid(g) && Captures(g, side, required)
    requires forall m :: m in current ==> Fits(g, m)
    ensures forall s, m :: s in Explore(g, side, maxDepth, depth, current, required, rec) && m in s ==> Fits(g, m)
    decreases maxDepth - depth, PieceCount(g), 1, 0
  {
    var cands := Candidates(g, side, required);
    if cands != [] && depth < maxDepth {
      ExploreEachFits(g, side, maxDepth, depth, current, cands, cands, rec);
    }
  }

  lemma {:induction false} ExploreEachFits(g: Grid, side: Side, maxDepth: int, depth: int, current: seq<Move>, cands: seq<Move>, ms: seq<Move>, rec: Recording)
    requires Valid(g) && depth < maxDepth && Playable(g, side, ms) && Playable(g, side, cands)
    requires forall m :: m in current ==> Fits(g, m)
    ensures forall s, m :: s in ExploreEach(g, side, maxDepth, depth, current, cands, ms, rec) && m in s ==> Fits(g, m)
    decreases maxDepth - depth, PieceCount(g), 0, |ms|
  {
    if ms != [] {
      forall c | c in cands
        ensures Fits(g, c)
      {
        RuleShape(g, side, c);
      }
      ChildFits(g, side, maxDepth, depth, ChildLine(rec, current, cands, ms[0]), ms[0], rec);
      ExploreEachFits(g, side, maxDepth, depth, current, cands, ms[1..], rec);
    }
  }

  lemma {:induction false} ChildFits(g: Grid, side: Side, maxDepth: int, depth: int, line: seq<Move>, m: Move, rec: Recording)
    requires Valid(g) && depth < maxDepth && (IsCapture(g, side, m) || IsQuiet(g, side, m))
    requires forall c :: c in line ==> Fits(g, c)
    ensures forall s, c :: s in Child(g, side, maxDepth, depth, line, m, rec) && c in s ==> Fits(g, c)
    decreases maxDepth - depth, PieceCount(g), 0, 0
  {
    LegalMoveMaterial(g, side, m);
    var next := Moved(g, m);
    assert forall c :: Fits(g, c) <==> Fits(next, c);
    if Chains(g, side, m) {
      ExploreFits(next, side, maxDepth, depth, line, Continuations(g, side, m), rec);
    } else {
      ExploreFits(next, Opposite(side), maxDepth, depth + 1, line, [], rec);
    }
  }

  /** No exploration happens once the plies are used up: the node only records its own line. */
  lemma ExploreAtDepthLimit(g: Grid, side: Side, maxDepth: int, depth: int, current: seq<Move>, required: seq<Move>, rec: Recording)
    requires Valid(g) && Captures(g, side, required) && depth >= maxDepth
    ensures Explore(g, side, maxDepth, depth, current, required, rec) == if current != [] then [current] else []
  {
  }

  /** A node with a non-empty line records that line first. */
  lemma ExploreRecordsCurrentFirst(g: Grid, side: Side, maxDepth: int, depth: int, current: seq<Move>, required: seq<Move>, rec: Recording)
    requires Valid(g) && Captures(g, side, required) && current != []
    ensures |Explore(g, side, maxDepth, depth, current, required, rec)| > 0
    ensures Explore(g, side, maxDepth, depth, current, required, rec)[0] == current
  {
  }

  lemma ChildRecordsLineFirst(g: Grid, side: Side, maxDepth: int, depth: int, line: seq<Move>, m: Move, rec: Recording)
    requires Valid(g) && depth < maxDepth && (IsCapture(g, side, m) || IsQuiet(g, side, m)) && line != []
    ensures |Child(g, side, maxDepth, depth, line, m, rec)| > 0 && Child(g, side, maxDepth, depth, line, m, rec)[0] == line
  {
    LegalMoveMaterial(g, side, m);
    if Chains(g, side, m) {
      ExploreRecordsCurrentFirst(Moved(g, m), side, maxDepth, depth, line, Continuations(g, side, m), rec);
    } else {
      ExploreRecordsCurrentFirst(Moved(g, m), Opposite(side), maxDepth, depth + 1, line, [], rec);
    }
  }

  /** At the root with a move available and a ply to spend, the first recorded line is what the first candidate's child receives. */
  lemma FirstRecorded(g: Grid, side: Side, maxDepth: int, rec: Recording)
    requires Valid(g) && 1 <= maxDepth && LegalMoves(g, side) != []
    ensures var L := LegalMoves(g, side);
      |Explore(g, side, maxDepth, 0, [], [], rec)| > 0 && Explore(g, side, maxDepth, 0, [], [], rec)[0] == ChildLine(rec, [], L, L[0])
  {
    var L := LegalMoves(g, side);
    assert Candidates(g, side, []) == L;
    var line := ChildLine(rec, [], L, L[0]);
    ChildRecordsLineFirst(g, side, maxDepth, 0, line, L[0], rec);
    assert Explore(g, side, maxDepth, 0, [], [], rec) == ExploreEach(g, side, maxDepth, 0, [], L, L, rec);
  }

  /** After a listed move `a`, the start cell of another listed move holds the mover's piece or nothing; never the opponent's. */
  lemma OtherStartAfterMove(g: Grid, side: Side, a: Move, b: Move)
    requires Valid(g) && a in LegalMoves(g, side) && b in LegalMoves(g, side)
    ensures Fits(g, a) && b.from != a.to
    ensures !Owns(Opposite(side), Cell(Moved(g, a), b.from))
  {
    LegalMovesShape(g, side, a);
    LegalMovesShape(g, side, b);
    var t := Cell(Moved(g, a), b.from);
    assert t == None || t == Cell(g, b.from);
    GroupOfSide(side, Cell(g, b.from));
    GroupsPartition(t);
  }

  /** After any listed move `a`, another listed move `b` of the same position can neither continue the capture nor be the opponent's reply. */
  lemma SecondMoveIllegal(g: Grid, side: Side, a: Move, b: Move, plies: int, rest: seq<Move>)
    requires Valid(g) && a in LegalMoves(g, side) && b in LegalMoves(g, side)
    requires IsCapture(g, side, a) || IsQuiet(g, side, a)
    ensures !Continues(g, side, plies, a, [b] + rest)
  {
    OtherStartAfterMove(g, side, a, b);
    var next := Moved(g, a);
    var opp := Opposite(side);
    LegalMovesShape(next, opp, b);
    assert b !in Continuations(g, side, a);
    assert b !in Candidates(next, opp, []);
    assert ([b] + rest)[0] == b;
  }

  /**
   * With two or more moves available, the older engine's first recorded
   * line is the whole candidate list followed by the first candidate, which
   * is not a line of play; the current engine records the first move alone.
   */
  lemma CandidateRecordingDiverges(g: Grid, side: Side, maxDepth: int)
    requires Valid(g) && 1 <= maxDepth && |LegalMoves(g, side)| >= 2
    ensures var L := LegalMoves(g, side);
      && |Explore(g, side, maxDepth, 0, [], [], CandidatesThenMove)| > 0
      && Explore(g, side, maxDepth, 0, [], [], CandidatesThenMove)[0] == L + [L[0]]
      && |Explore(g, side, maxDepth, 0, [], [], Line)| > 0
      && Explore(g, side, maxDepth, 0, [], [], Line)[0] == [L[0]]
      && !LegalLine(g, side, [], maxDepth, L + [L[0]])
      && LegalLine(g, side, [], maxDepth, [L[0]])
  {
    var L := LegalMoves(g, side);
    FirstRecorded(g, side, maxDepth, CandidatesThenMove);
    FirstRecorded(g, side, maxDepth, Line);
    LegalMovesRule(g, side, L[0]);
    var line := L + [L[0]];
    assert line[0] == L[0] && line[1..] == [L[1]] + (L[2..] + [L[0]]);
    SecondMoveIllegal(g, side, L[0], L[1], maxDepth, L[2..] + [L[0]]);
    assert [L[0]][1..] == [];
  }

  // ---------------------------------------------------------------- rating a move

  /** A score ratio as the engine divides it: `own / opp`, or infinity when `opp` is 0. */
  datatype Ratio = Finite(value: real) | Infinite

  /** `>` on such ratios (infinity exceeds every finite value and not itself). */
  predicate Greater(a: Ratio, b: Ratio)
  {
    match a
    case Infinite => b.Finite?
    case Finite(x) => b.Finite? && x > b.value
  }

  const Zero: Ratio := Finite(0.0)

  function RatioOf(own: nat, opp: nat): (r: Ratio)
    ensures !Greater(Zero, r)
  {
    if opp == 0 then Infinite else Finite(own as real / opp as real)
  }

  /** The division is exact: infinite only for a zero denominator, otherwise a non-negative quotient that gives back `own`. */
  lemma RatioOfMeaning(own: nat, opp: nat)
    ensures RatioOf(own, opp).Infinite? <==> opp == 0
    ensures opp != 0 ==> RatioOf(own, opp).value * (opp as real) == own as real && RatioOf(own, opp).value >= 0.0
  {
  }

  /** The score functions the two engines divide. */
  datatype Scoring = Material | FieldMaterial

  function BlackMaterial(sc: Scoring, g: Grid): nat
  {
    if sc == Material then BlackScore(g) else FieldBlackScore(g)
  }

  /** The mover's score over the opponent's on the grid after `m` alone. */
  function Rate(g: Grid, side: Side, sc: Scoring, m: Move): (r: Ratio)
    requires Valid(g) && Fits(g, m)
    ensures !Greater(Zero, r)
  {
    var n := Moved(g, m);
    if side == White then RatioOf(WhiteScore(n), BlackMaterial(sc, n))
    else RatioOf(BlackMaterial(sc, n), WhiteScore(n))
  }

  // ---------------------------------------------------------------- the tally

  predicate NonNegative(ps: seq<(seq<Move>, Ratio)>)
  {
    forall i :: 0 <= i < |ps| ==> !Greater(Zero, ps[i].1)
  }

  /** Each move of the line `s` paired with the line and the move's ratio. */
  function RatedLine(g: Grid, side: Side, sc: Scoring, s: seq<Move>): (r: seq<(seq<Move>, Ratio)>)
    requires Valid(g) && forall m :: m in s ==> Fits(g, m)
    ensures |r| == |s| && forall i {:trigger Rate(g, side, sc, s[i])} :: 0 <= i < |s| ==> r[i] == (s, Rate(g, side, sc, s[i]))
    ensures NonNegative(r)
  {
    seq(|s|, i requires 0 <= i < |s| => (s, Rate(g, side, sc, s[i])))
  }

  predicate LinesFit(g: Grid, seqs: seq<seq<Move>>)
  {
    forall s, m :: s in seqs && m in s ==> Fits(g, m)
  }

  /** Every move of every line with its line and ratio, line by line and move by move. */
  function Rated(g: Grid, side: Side, sc: Scoring, seqs: seq<seq<Move>>): (r: seq<(seq<Move>, Ratio)>)
    requires Valid(g) && LinesFit(g, seqs)
    ensures NonNegative(r)
  {
    if seqs == [] then [] else Rated(g, side, sc, seqs[..|seqs| - 1]) + RatedLine(g, side, sc, seqs[|seqs| - 1])
  }

  lemma RatedLineMembers(g: Grid, side: Side, sc: Scoring, line: seq<Move>, s: seq<Move>, r: Ratio)
    requires Valid(g) && forall m :: m in line ==> Fits(g, m)
    ensures (s, r) in RatedLine(g, side, sc, line) <==> s == line && exists i :: 0 <= i < |line| && r == Rate(g, side, sc, line[i])
  {
    var rl := RatedLine(g, side, sc, line);
    if s == line && exists i :: 0 <= i < |line| && r == Rate(g, side, sc, line[i]) {
      var i :| 0 <= i < |line| && r == Rate(g, side, sc, line[i]);
      assert rl[i] == (s, r);
    }
  }

  lemma {:induction false} RatedMembers(g: Grid, side: Side, sc: Scoring, seqs: seq<seq<Move>>, s: seq<Move>, r: Ratio)
    requires Valid(g) && LinesFit(g, seqs)
    ensures (s, r) in Rated(g, side, sc, seqs) <==> s in seqs && exists i :: 0 <= i < |s| && r == Rate(g, side, sc, s[i])
  {
    if seqs != [] {
      var init := seqs[..|seqs| - 1];
      var last := seqs[|seqs| - 1];
      assert LinesFit(g, init);
      RatedMembers(g, side, sc, init, s, r);
      assert Rated(g, side, sc, seqs) == Rated(g, side, sc, init) + RatedLine(g, side, sc, last);
      assert s in seqs <==> s in init || s == last by {
        assert seqs == init + [last];
      }
      RatedLineMembers(g, side, sc, last, s, r);
    }
  }

  /** The best ratio so far and the lines that reached it. */
  datatype Pick = Pick(best: Ratio, optimal: seq<seq<Move>>)

  /** One comparison of `get_optimal_move`: a better ratio restarts the list, an equal one appends the line. */
  function Step(st: Pick, s: seq<Move>, r: Ratio): Pick
  {
    if Greater(r, st.best) then Pick(r, [s])
    else if r == st.best then Pick(st.best, st.optimal + [s])
    else st
  }

  /** The comparisons over the rated pairs `ps` in order, from ratio 0 and no line. */
  function Fold(ps: seq<(seq<Move>, Ratio)>): Pick
  {
    if ps == [] then Pick(Zero, []) else Step(Fold(ps[..|ps| - 1]), ps[|ps| - 1].0, ps[|ps| - 1].1)
  }

  /** Over non-negative ratios the fold ends on the largest one and keeps exactly the lines of the pairs reaching it. */
  lemma {:induction false} FoldPicksBest(ps: seq<(seq<Move>, Ratio)>)
    requires NonNegative(ps)
    ensures var st := Fold(ps);
      && (forall i :: 0 <= i < |ps| ==> !Greater(ps[i].1, st.best))
      && (forall s :: s in st.optimal <==> (s, st.best) in ps)
      && (st.optimal == [] <==> ps == [])
      && (ps == [] ==> st.best == Zero)
  {
    if ps != [] {
      var init := ps[..|ps| - 1];
      var p := ps[|ps| - 1];
      assert ps == init + [p];
      FoldPicksBest(init);
      var st0 := Fold(init);
      var st := Fold(ps);
      forall i | 0 <= i < |ps|
        ensures !Greater(ps[i].1, st.best)
      {
        if i < |ps| - 1 { assert ps[i] == init[i]; }
      }
      if Greater(p.1, st0.best) {
        assert forall i :: 0 <= i < |init| ==> init[i].1 != p.1;
      }
    }
  }

  /** `get_optimal_move`'s comparisons over the explored lines. */
  function Tally(g: Grid, side: Side, sc: Scoring, seqs: seq<seq<Move>>): Pick
    requires Valid(g) && LinesFit(g, seqs)
  {
    Fold(Rated(g, side, sc, seqs))
  }

  /** The tally's ratio is at least the ratio of every explored move. */
  lemma TallyIsMaximum(g: Grid, side: Side, sc: Scoring, seqs: seq<seq<Move>>)
    requires Valid(g) && LinesFit(g, seqs)
    ensures forall s, m :: s in seqs && m in s ==> !Greater(Rate(g, side, sc, m), Tally(g, side, sc, seqs).best)
  {
    var ps := Rated(g, side, sc, seqs);
    var st := Tally(g, side, sc, seqs);
    FoldPicksBest(ps);
    forall s, m | s in seqs && m in s
      ensures !Greater(Rate(g, side, sc, m), st.best)
    {
      var j :| 0 <= j < |s| && s[j] == m;
      RatedMembers(g, side, sc, seqs, s, Rate(g, side, sc, m));
      var i :| 0 <= i < |ps| && ps[i] == (s, Rate(g, side, sc, m));
    }
  }

  /** The tally keeps exactly the explored lines holding a move whose ratio is the tally's. */
  lemma TallyKeepsBestLines(g: Grid, side: Side, sc: Scoring, seqs: seq<seq<Move>>)
    requires Valid(g) && LinesFit(g, seqs)
    ensures var st := Tally(g, side, sc, seqs);
      forall s :: s in st.optimal <==> s in seqs && exists i :: 0 <= i < |s| && Rate(g, side, sc, s[i]) == st.best
  {
    var st := Tally(g, side, sc, seqs);
    FoldPicksBest(Rated(g, side, sc, seqs));
    forall s
      ensures s in st.optimal <==> s in seqs && exists i :: 0 <= i < |s| && Rate(g, side, sc, s[i]) == st.best
    {
      RatedMembers(g, side, sc, seqs, s, st.best);
    }
  }

  /** The tally keeps no line exactly when every explored line is empty. */
  lemma TallyEmptyIff(g: Grid, side: Side, sc: Scoring, seqs: seq<seq<Move>>)
    requires Valid(g) && LinesFit(g, seqs)
    ensures Tally(g, side, sc, seqs).optimal == [] <==> forall s :: s in seqs ==> s == []
  {
    var ps := Rated(g, side, sc, seqs);
    FoldPicksBest(ps);
    if ps != [] {
      RatedMembers(g, side, sc, seqs, ps[0].0, ps[0].1);
    } else {
      forall s | s in seqs
        ensures s == []
      {
        if s != [] { RatedMembers(g, side, sc, seqs, s, Rate(g, side, sc, s[0])); }
      }
    }
  }

  // ---------------------------------------------------------------- the chosen line

  /** The chosen line up to (not including) its first move that starts on an opposing piece of the unchanged grid. */
  function OwnPrefix(g: Grid, side: Side, s: seq<Move>): seq<Move>
    requires Valid(g)
  {
    if s == [] || Owns(Opposite(side), Cell(g, s[0].from)) then []
    else [s[0]] + OwnPrefix(g, side, s[1..])
  }

  /** The cut is a prefix of the line, starts on no opposing piece, and stops only at a move that does. */
  lemma {:induction false} OwnPrefixCut(g: Grid, side: Side, s: seq<Move>)
    requires Valid(g)
    ensures var r := OwnPrefix(g, side, s);
      && |r| <= |s| && r == s[..|r|]
      && (forall i :: 0 <= i < |r| ==> !Owns(Opposite(side), Cell(g, r[i].from)))
      && (|r| < |s| ==> Owns(Opposite(side), Cell(g, s[|r|].from)))
  {
    if s != [] && !Owns(Opposite(side), Cell(g, s[0].from)) {
      OwnPrefixCut(g, side, s[1..]);
    }
  }

  /** `get_optimal_move`'s candidates: the lines the tally keeps over the exploration from the root. */
  function OptimalLines(g: Grid, side: Side, maxDepth: int, rec: Recording, sc: Scoring): seq<seq<Move>>
    requires Valid(g)
  {
    ExploreFits(g, side, maxDepth, 0, [], [], rec);
    Tally(g, side, sc, Explore(g, side, maxDepth, 0, [], [], rec)).optimal
  }
}
