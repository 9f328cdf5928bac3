/**
 * The move lists LegalMoves produces, as values: the phase generators of
 * getAllLegalMoves and the brute-force enumeration of getAllLegalMoves2. Each
 * list is defined the way its loop builds it, one block appended per
 * iteration, so that a loop invariant can name the prefix built so far.
 */
module Generation {
  import opened BoardInfo
  import opened Moves
  import opened BoardRules
  import opened Positions
  import opened Legality
  import opened Enumeration
  import opened Capacity

  // ---- the moves for one (FROM, TO) pair ----

  /** The captures of the piece on a square below n that the loop over REMOVE
      accepts. */
  function CapturesBelow(p: Position, from: int, to: int, n: nat): (r: seq<Move>)
    requires p.Valid() && SquareOrNowhere(from) && IsSquare(to) && n <= SQUARES_ON_BOARD
    ensures forall m: Move {:trigger m in r} :: m in r <==>
      m.from == from && m.to == to && 0 <= m.remove < n && CaptureAllowed(p, m.remove)
    ensures |r| <= Tally(p.board, Opponent(p.active), n)
  {
    if n == 0 then []
    else
      var r := CapturesBelow(p, from, to, n - 1);
      if CaptureAllowed(p, n - 1) then r + [MoveFields(from, to, n - 1)] else r
  }

  /** The moves to an empty square `to`: all allowed captures when the move
      closes a mill, otherwise the single move without a capture. */
  function TargetMoves(p: Position, from: int, to: int): (r: seq<Move>)
    requires p.Valid() && SquareOrNowhere(from) && IsSquare(to)
    ensures forall m: Move {:trigger m in r} :: m in r <==>
      m.from == from && m.to == to && p.board[to] == EMPTY && CaptureRuleHolds(p, m)
    ensures |r| <= PIECES_IN_HAND
  {
    var probe := MoveFields(from, to, 0);
    if p.board[to] != EMPTY then []
    else if MillFormed(p.board, probe, p.active) then
      var r := CapturesBelow(p, from, to, |p.board|);
      assert forall m: Move | m.from == from && m.to == to ::
        MillFormed(p.board, m, p.active) == MillFormed(p.board, probe, p.active);
      TallyCount(p.board, Opponent(p.active));
      r
    else
      assert forall m: Move | m.from == from && m.to == to ::
        MillFormed(p.board, m, p.active) == MillFormed(p.board, probe, p.active);
      [MoveFields(from, to, NOWHERE)]
  }

  // ---- BEGINNING: place on any empty square ----

  function PlacementsBelow(p: Position, n: nat): (r: seq<Move>)
    requires p.Valid() && n <= SQUARES_ON_BOARD
    ensures forall m: Move {:trigger m in r} :: m in r <==> m.from == NOWHERE && m.to < n && m in TargetMoves(p, NOWHERE, m.to)
    ensures |r| <= PIECES_IN_HAND * n
  {
    if n == 0 then [] else PlacementsBelow(p, n - 1) + TargetMoves(p, NOWHERE, n - 1)
  }

  // ---- MIDGAME: slide to an empty neighbour ----

  /** The moves from `from` to its first k neighbours, in table order. */
  function SlidesBelow(p: Position, from: int, k: nat): (r: seq<Move>)
    requires p.Valid() && IsSquare(from) && k <= |Neighbours(from)|
    ensures forall m: Move {:trigger m in r} :: m in r <==>
      m.from == from && m.to in Neighbours(from)[..k] && m in TargetMoves(p, from, m.to)
    ensures |r| <= PIECES_IN_HAND * k
  {
    NeighbourDegree(from);
    if k == 0 then []
    else
      var to := Neighbours(from)[k - 1];
      assert Neighbours(from)[..k] == Neighbours(from)[..k - 1] + [to];
      SlidesBelow(p, from, k - 1) + TargetMoves(p, from, to)
  }

  /** All slides of the mover's pieces on squares below n. */
  function SlidingBelow(p: Position, n: nat): (r: seq<Move>)
    requires p.Valid() && n <= SQUARES_ON_BOARD
    ensures forall m: Move {:trigger m in r} :: m in r <==>
      0 <= m.from < n && p.board[m.from] == p.active && Adjacent(m.from, m.to) &&
      m in TargetMoves(p, m.from, m.to)
    ensures |r| <= 4 * PIECES_IN_HAND * Tally(p.board, p.active, n)
  {
    if n == 0 then []
    else if p.board[n - 1] != p.active then SlidingBelow(p, n - 1)
    else SlidingBelow(p, n - 1) + SlidesFrom(p, n - 1)
  }

  /** The slides from `from` to each of its neighbours in turn. */
  function SlidesFrom(p: Position, from: int): (r: seq<Move>)
    requires p.Valid() && IsSquare(from)
    ensures forall m: Move {:trigger m in r} :: m in r <==>
      m.from == from && Adjacent(from, m.to) && m in TargetMoves(p, from, m.to)
    ensures |r| <= 4 * PIECES_IN_HAND
  {
    NeighbourDegree(from);
    assert Neighbours(from)[..|Neighbours(from)|] == Neighbours(from);
    SlidesBelow(p, from, |Neighbours(from)|)
  }

  // ---- ENDGAME with at most three pieces: fly to any empty square ----

  function FlightsBelow(p: Position, from: int, n: nat): (r: seq<Move>)
    requires p.Valid() && IsSquare(from) && n <= SQUARES_ON_BOARD
    ensures forall m: Move {:trigger m in r} :: m in r <==> m.from == from && m.to < n && m in TargetMoves(p, from, m.to)
    ensures |r| <= PIECES_IN_HAND * n
  {
    if n == 0 then [] else FlightsBelow(p, from, n - 1) + TargetMoves(p, from, n - 1)
  }

  function FlyingBelow(p: Position, n: nat): (r: seq<Move>)
    requires p.Valid() && n <= SQUARES_ON_BOARD
    ensures forall m: Move {:trigger m in r} :: m in r <==>
      0 <= m.from < n && p.board[m.from] == p.active && m in TargetMoves(p, m.from, m.to)
    ensures |r| <= SQUARES_ON_BOARD * PIECES_IN_HAND * Tally(p.board, p.active, n)
  {
    if n == 0 then []
    else if p.board[n - 1] != p.active then FlyingBelow(p, n - 1)
    else FlyingBelow(p, n - 1) + FlightsBelow(p, n - 1, |p.board|)
  }

  /** getAllLegalMoves: the generator of the current phase; in ENDGAME a mover
      with more than three pieces still only slides; nothing in GAME_OVER. */
  function GeneratedMoves(p: Position): seq<Move>
    requires p.Valid()
  {
    var n := |p.board|;
    if p.phase == PHASE_BEGINNING then PlacementsBelow(p, n)
    else if p.phase == PHASE_MIDGAME then SlidingBelow(p, n)
    else if p.phase == PHASE_ENDGAME then
      if Count(p.board, p.active) > 3 then SlidingBelow(p, n)
      else FlyingBelow(p, n)
    else []
  }

  // ---- the order the generators produce moves in ----

  lemma {:induction false} CapturesIncreasing(p: Position, from: int, to: int, n: nat)
    requires p.Valid() && SquareOrNowhere(from) && IsSquare(to) && n <= SQUARES_ON_BOARD
    ensures Increasing(CapturesBelow(p, from, to, n))
  {
    if n > 0 {
      CapturesIncreasing(p, from, to, n - 1);
      if CaptureAllowed(p, n - 1) {
        IncreasingConcat(CapturesBelow(p, from, to, n - 1), [MoveFields(from, to, n - 1)]);
      }
    }
  }

  lemma TargetIncreasing(p: Position, from: int, to: int)
    requires p.Valid() && SquareOrNowhere(from) && IsSquare(to)
    ensures Increasing(TargetMoves(p, from, to))
  {
    CapturesIncreasing(p, from, to, |p.board|);
  }

  lemma {:induction false} PlacementsIncreasing(p: Position, n: nat)
    requires p.Valid() && n <= SQUARES_ON_BOARD
    ensures Increasing(PlacementsBelow(p, n))
  {
    if n > 0 {
      PlacementsIncreasing(p, n - 1);
      TargetIncreasing(p, NOWHERE, n - 1);
      IncreasingConcat(PlacementsBelow(p, n - 1), TargetMoves(p, NOWHERE, n - 1));
    }
  }

  lemma {:induction false} SlidesIncreasing(p: Position, from: int, k: nat)
    requires p.Valid() && IsSquare(from) && k <= |Neighbours(from)|
    ensures Increasing(SlidesBelow(p, from, k))
  {
    NeighbourDegree(from);
    if k > 0 {
      var to := Neighbours(from)[k - 1];
      SlidesIncreasing(p, from, k - 1);
      TargetIncreasing(p, from, to);
      SlidesBeforeBlock(p, from, k, to);
      IncreasingConcat(SlidesBelow(p, from, k - 1), TargetMoves(p, from, to));
    }
  }

  /** The slides to the first k - 1 neighbours come before those to the
      k-th, `to`. */
  lemma SlidesBeforeBlock(p: Position, from: int, k: nat, to: int)
    requires p.Valid() && IsSquare(from) && 0 < k <= |Neighbours(from)| && to == Neighbours(from)[k - 1] && IsSquare(to)
    ensures forall x, y | x in SlidesBelow(p, from, k - 1) && y in TargetMoves(p, from, to) :: Before(x, y)
  {
    forall x, y | x in SlidesBelow(p, from, k - 1) && y in TargetMoves(p, from, to)
      ensures Before(x, y)
    {
      assert x.from == from && x.to in Neighbours(from)[..k - 1];
      assert y.from == from && y.to == to;
      EarlierNeighbour(from, k, x.to);
    }
  }

  /** A neighbour among the first k - 1 lies below the k-th. */
  lemma EarlierNeighbour(from: int, k: nat, t: int)
    requires IsSquare(from) && 0 < k <= |Neighbours(from)| && t in Neighbours(from)[..k - 1]
    ensures t < Neighbours(from)[k - 1]
  {
    NeighboursAscending(from);
    var i :| 0 <= i < k - 1 && Neighbours(from)[..k - 1][i] == t;
    assert Neighbours(from)[i] == t;
  }

  lemma SlidesFromIncreasing(p: Position, from: int)
    requires p.Valid() && IsSquare(from)
    ensures Increasing(SlidesFrom(p, from))
  {
    NeighbourDegree(from);
    SlidesIncreasing(p, from, |Neighbours(from)|);
  }

  lemma {:induction false} SlidingIncreasing(p: Position, n: nat)
    requires p.Valid() && n <= SQUARES_ON_BOARD
    ensures Increasing(SlidingBelow(p, n))
  {
    if n > 0 {
      SlidingIncreasing(p, n - 1);
      if p.board[n - 1] == p.active {
        SlidesFromIncreasing(p, n - 1);
        IncreasingConcat(SlidingBelow(p, n - 1), SlidesFrom(p, n - 1));
      }
    }
  }

  lemma {:induction false} FlightsIncreasing(p: Position, from: int, n: nat)
    requires p.Valid() && IsSquare(from) && n <= SQUARES_ON_BOARD
    ensures Increasing(FlightsBelow(p, from, n))
  {
    if n > 0 {
      FlightsIncreasing(p, from, n - 1);
      TargetIncreasing(p, from, n - 1);
      IncreasingConcat(FlightsBelow(p, from, n - 1), TargetMoves(p, from, n - 1));
    }
  }

  lemma {:induction false} FlyingIncreasing(p: Position, n: nat)
    requires p.Valid() && n <= SQUARES_ON_BOARD
    ensures Increasing(FlyingBelow(p, n))
  {
    if n > 0 {
      FlyingIncreasing(p, n - 1);
      if p.board[n - 1] == p.active {
        FlightsIncreasing(p, n - 1, |p.board|);
        IncreasingConcat(FlyingBelow(p, n - 1), FlightsBelow(p, n - 1, |p.board|));
      }
    }
  }

  /** getAllLegalMoves lists its moves by ascending (FROM, TO, REMOVE). */
  lemma GeneratedIncreasing(p: Position)
    requires p.Valid()
    ensures Increasing(GeneratedMoves(p))
  {
    var n := |p.board|;
    if p.phase == PHASE_BEGINNING {
      PlacementsIncreasing(p, n);
    } else if p.phase == PHASE_MIDGAME || (p.phase == PHASE_ENDGAME && Count(p.board, p.active) > 3) {
      SlidingIncreasing(p, n);
    } else if p.phase == PHASE_ENDGAME {
      FlyingIncreasing(p, n);
    }
  }

  // ---- getAllLegalMoves2: every triple tried in turn ----

  /** The legality rule of p as a test on moves. */
  function LegalIn(p: Position): Move -> bool
    requires p.Valid()
  {
    (m: Move) => Legal(p, m)
  }

  /** getAllLegalMoves2: exactly the legal moves, by ascending (FROM, TO, REMOVE). */
  function AllLegalMoves(p: Position): (r: seq<Move>)
    requires p.Valid()
    ensures forall m: Move {:trigger m in r} :: m in r <==> Legal(p, m)
    ensures Increasing(r)
  {
    AcceptedAll(LegalIn(p))
  }

  // ---- the size of getAllLegalMoves2's result ----

  /** At most one legal move per choice of FROM (NOWHERE or a mover's piece),
      TO (an empty square) and REMOVE (NOWHERE or an opponent's piece). */
  lemma LegalChoices(p: Position)
    requires p.Valid()
    ensures |AcceptedAll(LegalIn(p))| <=
      Times(1 + Count(p.board, p.active), Times(Count(p.board, EMPTY), 1 + Count(p.board, Opponent(p.active))))
  {
    LegalIsCandidate(p);
    CandidateChoices(LegalIn(p), p);
  }

  /** The capacity bound for any test that only accepts candidates in p. */
  lemma CandidateChoices(ok: Move -> bool, p: Position)
    requires p.Valid()
    requires Candidates(ok, p.board, p.active, Opponent(p.active))
    ensures |AcceptedAll(ok)| <=
      Times(1 + Count(p.board, p.active), Times(Count(p.board, EMPTY), 1 + Count(p.board, Opponent(p.active))))
  {
    AcceptedAllBound(ok, p.board, p.active, Opponent(p.active));
  }

  lemma LegalIsCandidate(p: Position)
    requires p.Valid()
    ensures Candidates(LegalIn(p), p.board, p.active, Opponent(p.active))
  {
    forall m: Move {:trigger Candidate(p.board, p.active, Opponent(p.active), m)} | LegalIn(p)(m)
      ensures Candidate(p.board, p.active, Opponent(p.active), m)
    {
      LegalCharacterisation(p, m);
    }
  }

  /** (1 + a) * e * (1 + o) for a board split into a mover pieces, o opponent
      pieces and e empty squares, each side holding at most nine: at most
      648, reached with eight pieces a side. */
  lemma BufferProduct(a: nat, e: nat, o: nat)
    requires a + e + o == SQUARES_ON_BOARD && a <= PIECES_IN_HAND && o <= PIECES_IN_HAND
    ensures (1 + a) * (e * (1 + o)) <= 648
  {
    if o == 0 {} else if o == 1 {} else if o == 2 {} else if o == 3 {} else if o == 4 {}
    else if o == 5 {} else if o == 6 {} else if o == 7 {} else if o == 8 {} else {}
  }

  /** The same bound on the product written as repeated addition. */
  lemma BufferTimes(a: nat, e: nat, o: nat)
    requires a + e + o == SQUARES_ON_BOARD && a <= PIECES_IN_HAND && o <= PIECES_IN_HAND
    ensures Times(1 + a, Times(e, 1 + o)) <= 648
  {
    ProductOfTimes(a, e, o);
    BufferProduct(a, e, o);
  }

  /** getAllLegalMoves2 never finds more than 648 moves, so its 1000-slot buffer never overflows. */
  lemma AllLegalMovesBound(p: Position)
    requires p.Valid()
    ensures |AllLegalMoves(p)| <= 648
  {
    LegalChoices(p);
    SidesOfBoard(p);
    BufferTimes(Count(p.board, p.active), Count(p.board, EMPTY), Count(p.board, Opponent(p.active)));
  }

  /** The squares split into the mover's pieces, the empty squares and the
      opponent's pieces, and neither side has more than nine on the board. */
  lemma SidesOfBoard(p: Position)
    requires p.Valid()
    ensures Count(p.board, p.active) + Count(p.board, EMPTY) + Count(p.board, Opponent(p.active)) == SQUARES_ON_BOARD
    ensures Count(p.board, p.active) <= PIECES_IN_HAND && Count(p.board, Opponent(p.active)) <= PIECES_IN_HAND
  {
    CountPartition(p.board);
  }

  // ---- the generator against the rule ----

  /** A mover that must slide: in MIDGAME, and in ENDGAME with more than three pieces. */
  predicate MustSlide(p: Position)
    requires p.Valid()
  {
    p.phase == PHASE_MIDGAME || (p.phase == PHASE_ENDGAME && Count(p.board, p.active) > 3)
  }

  /** Every generated move is legal, and every legal move is generated except
      the flying moves of an ENDGAME mover with more than three pieces: the
      generator only slides such a mover, while the rule lets it fly. */
  lemma GeneratedMovesExact(p: Position, m: Move)
    requires p.Valid()
    ensures m in GeneratedMoves(p) ==> Legal(p, m)
    ensures m in GeneratedMoves(p) && MustSlide(p) ==> Adjacent(m.from, m.to)
    ensures Legal(p, m) && (MustSlide(p) ==> Adjacent(m.from, m.to)) ==> m in GeneratedMoves(p)
    ensures !(p.phase == PHASE_ENDGAME && Count(p.board, p.active) > 3) ==> (m in GeneratedMoves(p) <==> Legal(p, m))
  {
    LegalCharacterisation(p, m);
    var n := |p.board|;
    if p.phase == PHASE_BEGINNING {
      assert m in GeneratedMoves(p) <==> m in PlacementsBelow(p, n);
    } else if MustSlide(p) {
      assert m in GeneratedMoves(p) <==> m in SlidingBelow(p, n);
    } else if p.phase == PHASE_ENDGAME {
      assert m in GeneratedMoves(p) <==> m in FlyingBelow(p, n);
    }
  }

  /** Outside the flying gap the generator agrees with getAllLegalMoves2 as a
      list: the same moves in the same order. */
  lemma GeneratedMatchesBruteForce(p: Position)
    requires p.Valid()
    requires !(p.phase == PHASE_ENDGAME && Count(p.board, p.active) > 3)
    ensures GeneratedMoves(p) == AllLegalMoves(p)
  {
    GeneratedSameMembers(p);
    GeneratedIncreasing(p);
    IncreasingUnique(GeneratedMoves(p), AllLegalMoves(p));
  }

  lemma GeneratedSameMembers(p: Position)
    requires p.Valid()
    requires !(p.phase == PHASE_ENDGAME && Count(p.board, p.active) > 3)
    ensures forall m :: m in GeneratedMoves(p) <==> m in AllLegalMoves(p)
  {
    forall m: Move
      ensures m in GeneratedMoves(p) <==> m in AllLegalMoves(p)
    {
      GeneratedMovesExact(p, m);
    }
  }

  /** The generated list never holds more than 648 moves, so the 1000-slot
      buffer the generators fill never overflows; in GAME_OVER it is empty. */
  lemma GeneratedMovesBound(p: Position)
    requires p.Valid()
    ensures |GeneratedMoves(p)| <= 648
    ensures p.phase == PHASE_GAME_OVER ==> GeneratedMoves(p) == []
  {
    var n := |p.board|;
    TallyCount(p.board, p.active);
  }

  /** White on 0, 4, 8 and 17, Black on 14, 19 and 23. */
  function FlyingGapBoard(): (b: seq<int>)
    ensures ValidCells(b)
    ensures b[0] == WHITE && b[5] == EMPTY && b[12] == EMPTY && b[13] == EMPTY
  {
    seq(SQUARES_ON_BOARD, i =>
      if i == 0 || i == 4 || i == 8 || i == 17 then WHITE
      else if i == 14 || i == 19 || i == 23 then BLACK
      else EMPTY)
  }

  lemma FlyingGapWhite()
    ensures ColouredSquares(FlyingGapBoard(), WHITE) == [0, 4, 8, 17]
  {
    ColouredSquaresAre(FlyingGapBoard(), WHITE, [0, 4, 8, 17]);
  }

  lemma FlyingGapBlack()
    ensures ColouredSquares(FlyingGapBoard(), BLACK) == [14, 19, 23]
  {
    ColouredSquaresAre(FlyingGapBoard(), BLACK, [14, 19, 23]);
  }

  /** An ENDGAME position where White, to move, has four pieces. */
  function FlyingGapPosition(): (p: Position)
    ensures p.Valid() && p.phase == PHASE_ENDGAME && p.active == WHITE_PLAYER
    ensures Count(p.board, p.active) == 4
    ensures p.board[0] == WHITE && p.board[5] == EMPTY && p.board[12] == EMPTY && p.board[13] == EMPTY
  {
    FlyingGapWhite();
    FlyingGapBlack();
    Position(PHASE_ENDGAME, WHITE_PLAYER, 0, 0, FlyingGapBoard())
  }

  /** In any ENDGAME position where White, holding more than three pieces, has
      a piece on 0 and 13 is empty with no mill through it, flying from 0 to
      13 is legal but not generated. */
  lemma {:induction false} FlyingGap(p: Position)
    requires p.Valid() && p.phase == PHASE_ENDGAME && p.active == WHITE_PLAYER
    requires Count(p.board, p.active) > 3
    requires p.board[0] == WHITE && p.board[5] == EMPTY && p.board[12] == EMPTY && p.board[13] == EMPTY
    ensures Legal(p, MoveFields(0, 13, NOWHERE)) && MoveFields(0, 13, NOWHERE) !in GeneratedMoves(p)
  {
    var m: Move := MoveFields(0, 13, NOWHERE);
    assert !MillFormed(p.board, m, WHITE) by {
      assert MillLines(13) == [[5, 20], [12, 14]];
    }
    assert !Adjacent(0, 13);
    GeneratedMovesExact(p, m);
  }

  /** In that position the rule accepts White flying from 0 to 13, which the
      generator does not offer. */
  lemma FlyingGapWitness()
    ensures var p := FlyingGapPosition();
      Legal(p, MoveFields(0, 13, NOWHERE)) && MoveFields(0, 13, NOWHERE) !in GeneratedMoves(p)
  {
    FlyingGap(FlyingGapPosition());
  }
}
