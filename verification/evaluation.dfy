/**
 * The static evaluation of a position for the searching player: material
 * (pieces on the board, and during placement pieces in hand with a bonus for
 * the extra piece), plus mobility (empty neighbours of each piece), all as
 * the 16-bit value the search works with.
 */
module Evaluation {
  import opened BoardInfo
  import opened BoardRules
  import opened Positions

  /** The value of a won position; MIN_VALUE that of a lost one. */
  const MAX_VALUE: int := 9999
  const MIN_VALUE: int := -9999

  /** The largest value a position that is not over can have. */
  const POSITIONAL_BOUND: int := 1660

  /** Java's narrowing of an int to a 16-bit short: the value modulo 2^16,
      read as a signed number. */
  function ShortCast(v: int): (r: int)
    ensures -0x8000 <= r < 0x8000
    ensures -0x8000 <= v < 0x8000 ==> r == v
  {
    (v + 0x8000) % 0x1_0000 - 0x8000
  }

  // ---- mobility ----

  /** The empty squares among the first k neighbours of s, in table order. */
  function EmptyNeighboursBelow(b: seq<int>, s: int, k: nat): nat
    requires |b| == SQUARES_ON_BOARD && IsSquare(s) && k <= |Neighbours(s)|
  {
    if k == 0 then 0
    else
      NeighbourDegree(s);
      EmptyNeighboursBelow(b, s, k - 1) + (if b[Neighbours(s)[k - 1]] == EMPTY then 1 else 0)
  }

  /** getEmptyNeighbourCount: the empty neighbours of s. */
  function EmptyNeighbours(b: seq<int>, s: int): nat
    requires |b| == SQUARES_ON_BOARD && IsSquare(s)
  {
    EmptyNeighboursBelow(b, s, |Neighbours(s)|)
  }

  lemma {:induction false} EmptyNeighboursBelowMeaning(b: seq<int>, s: int, k: nat)
    requires |b| == SQUARES_ON_BOARD && IsSquare(s) && k <= |Neighbours(s)|
    ensures EmptyNeighboursBelow(b, s, k) <= k
    ensures EmptyNeighboursBelow(b, s, k) == 0 <==> forall j | 0 <= j < k :: b[Neighbours(s)[j]] != EMPTY
    decreases k
  {
    NeighbourDegree(s);
    if k > 0 {
      EmptyNeighboursBelowMeaning(b, s, k - 1);
    }
  }

  /** A square has at most four empty neighbours, and none exactly when the
      piece on it is jammed. */
  lemma EmptyNeighboursMeaning(b: seq<int>, s: int)
    requires |b| == SQUARES_ON_BOARD && IsSquare(s)
    ensures EmptyNeighbours(b, s) <= 4
    ensures EmptyNeighbours(b, s) == 0 <==> PieceJammed(b, s)
  {
    NeighbourDegree(s);
    EmptyNeighboursBelowMeaning(b, s, |Neighbours(s)|);
    if EmptyNeighbours(b, s) == 0 {
      forall q | q in Neighbours(s)
        ensures b[q] != EMPTY
      {
        var j :| 0 <= j < |Neighbours(s)| && Neighbours(s)[j] == q;
      }
    }
  }

  predicate AllSquares(squares: seq<int>)
  {
    forall i | 0 <= i < |squares| :: IsSquare(squares[i])
  }

  /** The empty neighbours of each of the given squares, summed. */
  function Mobility(b: seq<int>, squares: seq<int>): nat
    requires |b| == SQUARES_ON_BOARD && AllSquares(squares)
  {
    if squares == [] then 0
    else Mobility(b, squares[..|squares| - 1]) + EmptyNeighbours(b, squares[|squares| - 1])
  }

  /** Each square adds at most four. */
  lemma {:induction false} MobilityBound(b: seq<int>, squares: seq<int>)
    requires |b| == SQUARES_ON_BOARD && AllSquares(squares)
    ensures Mobility(b, squares) <= 4 * |squares|
    decreases |squares|
  {
    if squares != [] {
      MobilityBound(b, squares[..|squares| - 1]);
      EmptyNeighboursMeaning(b, squares[|squares| - 1]);
    }
  }

  /** The squares holding c are squares of the board. */
  lemma ColouredAreSquares(b: seq<int>, c: int)
    requires |b| == SQUARES_ON_BOARD
    ensures AllSquares(ColouredSquares(b, c))
  {
    var r := ColouredSquares(b, c);
    SquaresBelowMeaning(b, c, |b|);
    forall i | 0 <= i < |r|
      ensures IsSquare(r[i])
    {
      assert r[i] in r;
    }
  }

  /** The summed empty neighbours of the pieces of colour c. */
  function MobilityOf(b: seq<int>, c: int): (n: nat)
    requires |b| == SQUARES_ON_BOARD
  {
    ColouredAreSquares(b, c);
    Mobility(b, ColouredSquares(b, c))
  }

  lemma MobilityOfBound(b: seq<int>, c: int)
    requires |b| == SQUARES_ON_BOARD
    ensures MobilityOf(b, c) <= 4 * Count(b, c)
  {
    ColouredAreSquares(b, c);
    MobilityBound(b, ColouredSquares(b, c));
  }

  // ---- evaluate ----

  /** The material term: pieces on the board and, during placement, in hand,
      100 each, with 40 for the side holding more pieces in hand. */
  function Material(p: Position, player: int): int
    requires |p.board| == SQUARES_ON_BOARD
  {
    var opponent := Opponent(player);
    var pp := Count(p.board, player);
    var op := Count(p.board, opponent);
    if p.phase == PHASE_BEGINNING then
      var ph := p.Hand(player);
      var oh := p.Hand(opponent);
      100 * ((pp + ph) - (op + oh)) + (if ph < oh then -40 else if ph > oh then 40 else 0)
    else 100 * (pp - op)
  }

  /** The evaluation before the narrowing to 16 bits: material plus 20 for
      each empty neighbour of the player's pieces, minus 20 for each of the
      opponent's. */
  function RawValue(p: Position, player: int): int
    requires |p.board| == SQUARES_ON_BOARD
  {
    Material(p, player) + 20 * MobilityOf(p.board, player) - 20 * MobilityOf(p.board, Opponent(player))
  }

  /** evaluate: a finished game is worth MAX_VALUE to the winner (the player
      to move once the game is over) and MIN_VALUE to the loser; any other
      position its raw value narrowed to a short. */
  function Evaluate(p: Position, player: int): (v: int)
    requires |p.board| == SQUARES_ON_BOARD
    ensures p.phase == PHASE_GAME_OVER ==> (v == MAX_VALUE <==> p.active == player)
    ensures p.phase == PHASE_GAME_OVER ==> (v == MIN_VALUE <==> p.active != player)
  {
    if p.phase == PHASE_GAME_OVER then
      if p.active == player then MAX_VALUE else MIN_VALUE
    else ShortCast(RawValue(p, player))
  }

  /** For a reachable position that is not over, the raw value lies within
      1660 of zero, so the narrowing changes nothing and the value is neither
      a win nor a loss. */
  lemma EvaluateBounds(p: Position, player: int)
    requires p.Valid() && IsColour(player) && p.phase != PHASE_GAME_OVER
    ensures -POSITIONAL_BOUND <= RawValue(p, player) <= POSITIONAL_BOUND
    ensures Evaluate(p, player) == RawValue(p, player)
    ensures MIN_VALUE < Evaluate(p, player) < MAX_VALUE
  {
    var opponent := Opponent(player);
    MobilityOfBound(p.board, player);
    MobilityOfBound(p.board, opponent);
    assert Count(p.board, player) + p.Hand(player) <= PIECES_IN_HAND;
    assert Count(p.board, opponent) + p.Hand(opponent) <= PIECES_IN_HAND;
  }

  /** The evaluation is zero-sum: what one player gains the other loses. */
  lemma EvaluateAntisymmetric(p: Position, player: int)
    requires p.Valid() && IsColour(player)
    ensures Evaluate(p, player) == -Evaluate(p, Opponent(player))
  {
    if p.phase != PHASE_GAME_OVER {
      OpponentInvolution(player);
      EvaluateBounds(p, player);
      EvaluateBounds(p, Opponent(player));
    }
  }
}
