/**
 * How many moves the brute-force enumeration can keep: every accepted move
 * targets an empty square, starts from nowhere or from a mover's piece and
 * removes nothing or an opponent's piece, so the list is no longer than the
 * product of those choices.
 */
module Capacity {
  import opened BoardInfo
  import opened Moves
  import opened BoardRules
  import opened Enumeration

  /** What every legal move for `mover` on board b satisfies, without the mill
      conditions: an empty target, no source or one of the mover's pieces, and
      no capture or the capture of one of the opponent's pieces. */
  predicate Candidate(b: seq<int>, mover: int, opponent: int, m: Move)
    requires |b| == SQUARES_ON_BOARD
  {
    b[m.to] == EMPTY && (m.from == NOWHERE || b[m.from] == mover) &&
    (m.remove == NOWHERE || b[m.remove] == opponent)
  }

  /** Every move ok accepts is a candidate. */
  ghost predicate Candidates(ok: Move -> bool, b: seq<int>, mover: int, opponent: int)
    requires |b| == SQUARES_ON_BOARD
  {
    forall m: Move {:trigger Candidate(b, mover, opponent, m)} :: ok(m) ==> Candidate(b, mover, opponent, m)
  }

  /** The number of squares below n holding c. */
  function Tally(b: seq<int>, c: int, n: nat): nat
    requires n <= |b|
  {
    if n == 0 then 0 else Tally(b, c, n - 1) + (if b[n - 1] == c then 1 else 0)
  }

  lemma {:induction false} TallyBelow(b: seq<int>, c: int, n: nat)
    requires n <= |b|
    ensures Tally(b, c, n) == |SquaresBelow(b, c, n)|
    decreases n
  {
    if n > 0 {
      TallyBelow(b, c, n - 1);
    }
  }

  /** Only NOWHERE and the opponent's pieces can be captured, and nothing is
      accepted unless FROM is usable and TO is empty: trying NOWHERE and the
      squares below hi keeps at most one move more than the opponent has
      pieces there. */
  lemma {:induction false} AcceptedRemovesBound(ok: Move -> bool, b: seq<int>, mover: int, opponent: int, from: int, to: int, hi: nat)
    requires |b| == SQUARES_ON_BOARD && SquareOrNowhere(from) && IsSquare(to) && hi <= SQUARES_ON_BOARD
    requires Candidates(ok, b, mover, opponent)
    ensures |AcceptedRemoves(ok, from, to, hi + 1)| <= 1 + Tally(b, opponent, hi)
    ensures !((from == NOWHERE || b[from] == mover) && b[to] == EMPTY) ==> AcceptedRemoves(ok, from, to, hi + 1) == []
    decreases hi
  {
    var m: Move := MoveFields(from, to, hi - 1);
    if ok(m) {
      assert Candidate(b, mover, opponent, m);
    }
    if hi > 0 {
      AcceptedRemovesBound(ok, b, mover, opponent, from, to, hi - 1);
    }
  }

  /** From a usable FROM, the accepted moves with TO below hi number at most
      one per choice of REMOVE for each empty square below hi. */
  lemma {:induction false} AcceptedTargetsBound(ok: Move -> bool, b: seq<int>, mover: int, opponent: int, from: int, hi: nat, width: nat)
    requires |b| == SQUARES_ON_BOARD && SquareOrNowhere(from) && hi <= SQUARES_ON_BOARD && width <= SQUARES_ON_BOARD
    requires Candidates(ok, b, mover, opponent)
    requires from == NOWHERE || b[from] == mover
    ensures |AcceptedTargets(ok, from, hi, width)| <= Times(Tally(b, EMPTY, hi), 1 + Tally(b, opponent, width))
    decreases hi
  {
    if hi > 0 {
      AcceptedTargetsBound(ok, b, mover, opponent, from, hi - 1, width);
      AcceptedRemovesBound(ok, b, mover, opponent, from, hi - 1, width);
      TargetsLength(ok, from, hi, width);
      StepBound(|AcceptedTargets(ok, from, hi, width)|, |AcceptedTargets(ok, from, hi - 1, width)|,
                |AcceptedRemoves(ok, from, hi - 1, width + 1)|, Tally(b, EMPTY, hi - 1), Tally(b, EMPTY, hi),
                1 + Tally(b, opponent, width));
    }
  }

  /** Nothing is accepted from a square that does not hold one of the mover's pieces. */
  lemma UnusableSource(ok: Move -> bool, b: seq<int>, mover: int, opponent: int, from: int, hi: nat, width: nat)
    requires |b| == SQUARES_ON_BOARD && IsSquare(from) && hi <= SQUARES_ON_BOARD && width <= SQUARES_ON_BOARD
    requires Candidates(ok, b, mover, opponent)
    requires b[from] != mover
    ensures AcceptedTargets(ok, from, hi, width) == []
  {
    var r := AcceptedTargets(ok, from, hi, width);
    TargetsMembers(ok, from, hi, width);
    MoveHeadMember(r);
    assert r != [] ==> Candidate(b, mover, opponent, r[0]);
  }

  /** The usable values among the first n values of FROM tried: NOWHERE,
      tried first, and each of the mover's pieces. */
  function Sources(b: seq<int>, mover: int, n: nat): nat
    requires n <= |b| + 1
  {
    if n == 0 then 0 else Sources(b, mover, n - 1) + (if n == 1 || b[n - 2] == mover then 1 else 0)
  }

  lemma {:induction false} SourcesTally(b: seq<int>, mover: int, hi: nat)
    requires hi <= |b|
    ensures Sources(b, mover, hi + 1) == 1 + Tally(b, mover, hi)
    decreases hi
  {
    if hi > 0 {
      SourcesTally(b, mover, hi - 1);
    }
  }

  /** The most moves kept from one usable FROM: one per choice of an empty
      TO and of REMOVE among NOWHERE and the opponent's pieces. */
  function PerSource(b: seq<int>, opponent: int, width: nat): nat
    requires width <= |b|
  {
    Times(Tally(b, EMPTY, width), 1 + Tally(b, opponent, width))
  }

  /** Every enumeration of candidates keeps at most a product of choices:
      FROM among NOWHERE and the mover's pieces, TO among the empty squares,
      REMOVE among NOWHERE and the opponent's pieces; here for the first n
      values of FROM tried. */
  lemma {:induction false} AcceptedMovesBound(ok: Move -> bool, b: seq<int>, mover: int, opponent: int, n: nat, width: nat)
    requires |b| == SQUARES_ON_BOARD && n <= SQUARES_ON_BOARD + 1 && width <= SQUARES_ON_BOARD
    requires Candidates(ok, b, mover, opponent)
    ensures |AcceptedMoves(ok, n, width)| <= Times(Sources(b, mover, n), PerSource(b, opponent, width))
    decreases n
  {
    if n > 0 {
      AcceptedMovesBound(ok, b, mover, opponent, n - 1, width);
      MovesStepBound(ok, b, mover, opponent, n, width);
    }
  }

  /** One more FROM tried adds at most one block of PerSource moves, and only
      when that FROM is usable. */
  lemma MovesStepBound(ok: Move -> bool, b: seq<int>, mover: int, opponent: int, n: nat, width: nat)
    requires |b| == SQUARES_ON_BOARD && 0 < n <= SQUARES_ON_BOARD + 1 && width <= SQUARES_ON_BOARD
    requires Candidates(ok, b, mover, opponent)
    requires |AcceptedMoves(ok, n - 1, width)| <= Times(Sources(b, mover, n - 1), PerSource(b, opponent, width))
    ensures |AcceptedMoves(ok, n, width)| <= Times(Sources(b, mover, n), PerSource(b, opponent, width))
  {
    OneSourceBound(ok, b, mover, opponent, n - 2, width);
    MovesLength(ok, n, width);
    StepBound(|AcceptedMoves(ok, n, width)|, |AcceptedMoves(ok, n - 1, width)|, |AcceptedTargets(ok, n - 2, width, width)|,
              Sources(b, mover, n - 1), Sources(b, mover, n), PerSource(b, opponent, width));
  }

  /** The bound on the moves kept from one FROM: none from a square without
      one of the mover's pieces. */
  lemma OneSourceBound(ok: Move -> bool, b: seq<int>, mover: int, opponent: int, from: int, width: nat)
    requires |b| == SQUARES_ON_BOARD && SquareOrNowhere(from) && width <= SQUARES_ON_BOARD
    requires Candidates(ok, b, mover, opponent)
    ensures |AcceptedTargets(ok, from, width, width)| <=
      if from == NOWHERE || b[from] == mover then PerSource(b, opponent, width) else 0
  {
    if from == NOWHERE || b[from] == mover {
      AcceptedTargetsBound(ok, b, mover, opponent, from, width, width);
    } else {
      UnusableSource(ok, b, mover, opponent, from, width, width);
    }
  }

  lemma AcceptedAllBound(ok: Move -> bool, b: seq<int>, mover: int, opponent: int)
    requires |b| == SQUARES_ON_BOARD
    requires Candidates(ok, b, mover, opponent)
    ensures |AcceptedAll(ok)| <= Times(1 + Count(b, mover), Times(Count(b, EMPTY), 1 + Count(b, opponent)))
  {
    var n := |b|;
    AcceptedMovesBound(ok, b, mover, opponent, n + 1, n);
    SourcesTally(b, mover, n);
    TallyCount(b, mover);
    TallyCount(b, EMPTY);
    TallyCount(b, opponent);
    SameBound(|AcceptedAll(ok)|, Sources(b, mover, n + 1), Tally(b, EMPTY, n), Tally(b, opponent, n),
              Count(b, mover), Count(b, EMPTY), Count(b, opponent));
  }

  lemma SameBound(x: nat, s: nat, e: nat, o: nat, a': nat, e': nat, o': nat)
    requires x <= Times(s, Times(e, 1 + o))
    requires s == 1 + a' && e == e' && o == o'
    ensures x <= Times(1 + a', Times(e', 1 + o'))
  {
  }

  lemma TallyCount(b: seq<int>, c: int)
    ensures Tally(b, c, |b|) == Count(b, c)
  {
    TallyBelow(b, c, |b|);
  }

  lemma ProductOfTimes(a: nat, e: nat, o: nat)
    ensures Times(1 + a, Times(e, 1 + o)) == (1 + a) * (e * (1 + o))
  {
    TimesIsProduct(e, 1 + o);
    TimesIsProduct(1 + a, e * (1 + o));
  }

  /** x * y by repeated addition, which keeps the bound proofs linear. */
  function Times(x: nat, y: nat): (r: nat)
    ensures x == 0 || y == 0 ==> r == 0
  {
    if x == 0 then 0 else Times(x - 1, y) + y
  }

  lemma TargetsLength(ok: Move -> bool, from: int, hi: nat, width: nat)
    requires SquareOrNowhere(from) && 0 < hi <= SQUARES_ON_BOARD && width <= SQUARES_ON_BOARD
    ensures |AcceptedTargets(ok, from, hi, width)| ==
      |AcceptedTargets(ok, from, hi - 1, width)| + |AcceptedRemoves(ok, from, hi - 1, width + 1)|
  {
  }

  lemma MovesLength(ok: Move -> bool, n: nat, width: nat)
    requires 0 < n <= SQUARES_ON_BOARD + 1 && width <= SQUARES_ON_BOARD
    ensures |AcceptedMoves(ok, n, width)| == |AcceptedMoves(ok, n - 1, width)| + |AcceptedTargets(ok, n - 2, width, width)|
  {
  }

  /** One step of a count of blocks of at most k: a block of at most k
      after one more counted value, or an empty block after an uncounted one. */
  lemma StepBound(total: nat, prev: nat, block: nat, before: nat, after: nat, k: nat)
    requires total == prev + block && prev <= Times(before, k)
    requires (after == before + 1 && block <= k) || (after == before && block == 0)
    ensures total <= Times(after, k)
  {
  }

  lemma {:induction false} TimesIsProduct(x: nat, y: nat)
    ensures Times(x, y) == x * y
  {
    if x > 0 {
      TimesIsProduct(x - 1, y);
    }
  }
}
