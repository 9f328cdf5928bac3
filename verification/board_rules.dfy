/**
 * The board's rule queries, stated on the board's cell values: 24 cells, each
 * EMPTY, BLACK or WHITE. The class MillBoard computes the same queries on its
 * array, and the game rules use them on board snapshots.
 */
module BoardRules {
  import opened Wrappers
  import opened BoardInfo
  import opened Moves

  predicate IsColour(c: int) { c == BLACK || c == WHITE }

  predicate IsCellValue(v: int) { v == EMPTY || v == BLACK || v == WHITE }

  /** A board: 24 cells, each EMPTY, BLACK or WHITE. */
  predicate ValidCells(b: seq<int>) {
    |b| == SQUARES_ON_BOARD && forall i | 0 <= i < |b| :: IsCellValue(b[i])
  }

  function EmptyCells(): (b: seq<int>)
    ensures ValidCells(b)
    ensures forall i | 0 <= i < |b| :: b[i] == EMPTY
  {
    seq(SQUARES_ON_BOARD, _ => EMPTY)
  }

  /** The squares below n holding c, in ascending order. */
  function SquaresBelow(b: seq<int>, c: int, n: nat): seq<int>
    requires n <= |b|
  {
    if n == 0 then []
    else if b[n - 1] == c then SquaresBelow(b, c, n - 1) + [n - 1]
    else SquaresBelow(b, c, n - 1)
  }

  /** SquaresBelow lists exactly the squares below n holding c, in strictly
      ascending order. */
  lemma {:induction false} SquaresBelowMeaning(b: seq<int>, c: int, n: nat)
    requires n <= |b|
    ensures forall x :: x in SquaresBelow(b, c, n) <==> 0 <= x < n && b[x] == c
    ensures forall i, j | 0 <= i < j < |SquaresBelow(b, c, n)| :: SquaresBelow(b, c, n)[i] < SquaresBelow(b, c, n)[j]
    ensures |SquaresBelow(b, c, n)| <= n
  {
    if n > 0 {
      SquaresBelowMeaning(b, c, n - 1);
      var r := SquaresBelow(b, c, n - 1);
      assert forall i | 0 <= i < |r| :: r[i] in r;
    }
  }

  /** All squares holding c, strictly ascending. */
  function ColouredSquares(b: seq<int>, c: int): seq<int>
  {
    SquaresBelow(b, c, |b|)
  }

  /** The number of pieces (or empty squares) of value c. */
  function Count(b: seq<int>, c: int): nat
  {
    |ColouredSquares(b, c)|
  }

  /** Playing m for colour c closes a mill: a mill line through m.to whose other
      two squares hold c, neither of them the square the piece slides away from. */
  predicate MillFormed(b: seq<int>, m: Move, c: int)
    requires |b| == SQUARES_ON_BOARD
  {
    MillLinesShape(m.to);
    var line1, line2 := MillLines(m.to)[0], MillLines(m.to)[1];
    (b[line1[0]] == c && line1[0] != m.from && b[line1[1]] == c && line1[1] != m.from) ||
    (b[line2[0]] == c && line2[0] != m.from && b[line2[1]] == c && line2[1] != m.from)
  }

  /** createsNewMill: rejects a non-colour, and a colour that does not match the
      piece being moved; otherwise tells whether the move closes a new mill. */
  function CreatesNewMill(b: seq<int>, m: Move, c: int): (r: Result<bool>)
    requires |b| == SQUARES_ON_BOARD
    ensures r.Ok? <==> IsColour(c) && (m.from == NOWHERE || b[m.from] == c)
    ensures r.Err? ==> r.error == IllegalArgument
    ensures r.Ok? ==> (r.value <==> MillFormed(b, m, c))
  {
    if !IsColour(c) then Err(IllegalArgument)
    else if m.from != NOWHERE && b[m.from] != c then Err(IllegalArgument)
    else Ok(MillFormed(b, m, c))
  }

  /** MillFormed holds exactly when one of the two mill lines through m.to has
      both other squares of colour c, and neither is the square FROM. */
  lemma MillFormedMeaning(b: seq<int>, m: Move, c: int)
    requires |b| == SQUARES_ON_BOARD
    ensures MillFormed(b, m, c) <==> exists line | line in MillLines(m.to) :: forall q | q in line ::
      IsSquare(q) && b[q] == c && q != m.from
  {
    MillLinesShape(m.to);
    var L := MillLines(m.to);
    assert L == [L[0], L[1]] && L[0] == [L[0][0], L[0][1]] && L[1] == [L[1][0], L[1][1]];
    if b[L[0][0]] == c && L[0][0] != m.from && b[L[0][1]] == c && L[0][1] != m.from {
      assert L[0] in L;
    } else if b[L[1][0]] == c && L[1][0] != m.from && b[L[1][1]] == c && L[1][1] != m.from {
      assert L[1] in L;
    }
  }

  /** The piece on s lies on a mill line fully of its own colour (no square excluded). */
  predicate IsPartOfMill(b: seq<int>, s: int)
    requires |b| == SQUARES_ON_BOARD && IsSquare(s)
  {
    MillLinesShape(s);
    var line1, line2 := MillLines(s)[0], MillLines(s)[1];
    b[s] != EMPTY &&
    ((b[line1[0]] == b[s] && b[line1[1]] == b[s]) ||
     (b[line2[0]] == b[s] && b[line2[1]] == b[s]))
  }

  /** Every piece of colour c is part of a mill (true when c has no pieces). */
  predicate AllInMills(b: seq<int>, c: int)
    requires |b| == SQUARES_ON_BOARD
  {
    forall s | 0 <= s < SQUARES_ON_BOARD && b[s] == c :: IsPartOfMill(b, s)
  }

  /** No neighbour of s is empty. */
  predicate PieceJammed(b: seq<int>, s: int)
    requires |b| == SQUARES_ON_BOARD && IsSquare(s)
  {
    NeighbourDegree(s);
    forall q | q in Neighbours(s) :: b[q] != EMPTY
  }

  /** No piece of colour c has an empty neighbour (true when c has no pieces). */
  predicate AllJammed(b: seq<int>, c: int)
    requires |b| == SQUARES_ON_BOARD
  {
    forall s | 0 <= s < SQUARES_ON_BOARD && b[s] == c :: PieceJammed(b, s)
  }

  // ---- properties of the queries ----

  /** One piece of colour c with an empty neighbour keeps c from being jammed. */
  lemma FreePiece(b: seq<int>, c: int, s: int)
    requires |b| == SQUARES_ON_BOARD && IsSquare(s) && b[s] == c && !PieceJammed(b, s)
    ensures !AllJammed(b, c)
  {
  }

  /** Every coloured square jammed, checked along the list of them, makes
      the colour jammed. */
  lemma JammedAlongList(b: seq<int>, c: int, s: seq<int>)
    requires |b| == SQUARES_ON_BOARD && s == ColouredSquares(b, c)
    requires forall k | 0 <= k < |s| :: IsSquare(s[k]) && PieceJammed(b, s[k])
    ensures AllJammed(b, c)
  {
    SquaresBelowMeaning(b, c, |b|);
    forall x | 0 <= x < SQUARES_ON_BOARD && b[x] == c
      ensures PieceJammed(b, x)
    {
      assert x in s;
      var k :| 0 <= k < |s| && s[k] == x;
    }
  }

  /** A colour absent from the board has count zero. */
  lemma CountAbsent(b: seq<int>, c: int)
    requires forall i | 0 <= i < |b| :: b[i] != c
    ensures Count(b, c) == 0
  {
    NoneBelow(b, c, |b|);
  }

  lemma {:induction false} NoneBelow(b: seq<int>, c: int, n: nat)
    requires n <= |b| && forall i | 0 <= i < n :: b[i] != c
    ensures SquaresBelow(b, c, n) == []
  {
    if n > 0 {
      NoneBelow(b, c, n - 1);
    }
  }

  /** Writing v into cell i changes the count of c by what left and what came in. */
  lemma {:induction false} SquaresBelowUpdate(b: seq<int>, i: int, v: int, c: int, n: nat)
    requires 0 <= i < |b| && n <= |b|
    ensures |SquaresBelow(b[i := v], c, n)| ==
      |SquaresBelow(b, c, n)| - (if i < n && b[i] == c then 1 else 0) + (if i < n && v == c then 1 else 0)
  {
    if n > 0 {
      SquaresBelowUpdate(b, i, v, c, n - 1);
    }
  }

  lemma CountUpdate(b: seq<int>, i: int, v: int, c: int)
    requires 0 <= i < |b|
    ensures Count(b[i := v], c) == Count(b, c) - (if b[i] == c then 1 else 0) + (if v == c then 1 else 0)
  {
    SquaresBelowUpdate(b, i, v, c, |b|);
  }

  /** Scanning further never finds fewer squares; the square at n counts once
      it is scanned. */
  lemma {:induction false} SquaresBelowMonotone(b: seq<int>, c: int, n: nat, k: nat)
    requires n <= k <= |b|
    ensures |SquaresBelow(b, c, n)| + (if n < k && b[n] == c then 1 else 0) <= |SquaresBelow(b, c, k)|
    decreases k - n
  {
    if n < k {
      SquaresBelowMonotone(b, c, n + 1, k);
    }
  }

  /** Every scanned cell is empty, black or white, so the three counts add up. */
  lemma {:induction false} SquaresBelowPartition(b: seq<int>, n: nat)
    requires n <= |b| && ValidCells(b)
    ensures |SquaresBelow(b, EMPTY, n)| + |SquaresBelow(b, BLACK, n)| + |SquaresBelow(b, WHITE, n)| == n
  {
    if n > 0 {
      SquaresBelowPartition(b, n - 1);
    }
  }

  /** On a well-formed board the pieces of both colours and the empty squares
      make up the 24 squares. */
  lemma CountPartition(b: seq<int>)
    requires ValidCells(b)
    ensures Count(b, EMPTY) + Count(b, BLACK) + Count(b, WHITE) == SQUARES_ON_BOARD
  {
    SquaresBelowPartition(b, |b|);
  }

  /** A piece sliding along a mill line cannot count itself toward the mill it
      would close on that line: only lines avoiding FROM can form. */
  lemma SlidingPieceNotCounted(b: seq<int>, m: Move, c: int)
    requires |b| == SQUARES_ON_BOARD
    requires MillFormed(b, m, c)
    ensures exists i | 0 <= i < 2 :: m.from !in MillLines(m.to)[i]
  {
    MillLinesShape(m.to);
    if b[MillLines(m.to)[0][0]] == c && MillLines(m.to)[0][0] != m.from &&
       b[MillLines(m.to)[0][1]] == c && MillLines(m.to)[0][1] != m.from {
      assert m.from !in MillLines(m.to)[0];
    } else {
      assert m.from !in MillLines(m.to)[1];
    }
  }

  /** An empty square is never part of a mill, and a piece in a mill has two
      partners of its colour on one of its lines. */
  lemma PartOfMillMeaning(b: seq<int>, s: int)
    requires |b| == SQUARES_ON_BOARD && IsSquare(s)
    ensures b[s] == EMPTY ==> !IsPartOfMill(b, s)
    ensures IsPartOfMill(b, s) <==>
      b[s] != EMPTY && exists line | line in MillLines(s) :: forall q | q in line :: IsSquare(q) && b[q] == b[s]
  {
    MillLinesShape(s);
    var L := MillLines(s);
    assert L == [L[0], L[1]] && L[0] == [L[0][0], L[0][1]] && L[1] == [L[1][0], L[1][1]];
    if b[L[0][0]] == b[s] && b[L[0][1]] == b[s] {
      assert L[0] in L;
    } else if b[L[1][0]] == b[s] && b[L[1][1]] == b[s] {
      assert L[1] in L;
    }
  }

  /** Two strictly ascending lists with the same members are equal; used to
      read off ColouredSquares of a concrete board. */
  lemma {:induction false} AscendingUnique(a: seq<int>, b: seq<int>)
    requires forall i, j | 0 <= i < j < |a| :: a[i] < a[j]
    requires forall i, j | 0 <= i < j < |b| :: b[i] < b[j]
    requires forall x :: x in a <==> x in b
    ensures a == b
    decreases |a|
  {
    if a == [] {
      HeadMember(b);
    } else {
      assert b != [] by { assert a[0] in a; }
      assert a[0] == b[0] by {
        assert a[0] in b && b[0] in a;
        var j :| 0 <= j < |b| && b[j] == a[0];
        var i :| 0 <= i < |a| && a[i] == b[0];
      }
      forall x
        ensures x in a[1..] <==> x in b[1..]
      {
        if x in a[1..] {
          var i :| 1 <= i < |a| && a[i] == x;
          assert x in b;
        }
        if x in b[1..] {
          var j :| 1 <= j < |b| && b[j] == x;
          assert x in a;
        }
      }
      AscendingUnique(a[1..], b[1..]);
      assert a == [a[0]] + a[1..] && b == [b[0]] + b[1..];
    }
  }

  lemma HeadMember(s: seq<int>)
    ensures |s| > 0 ==> s[0] in s
  {
  }

  /** ColouredSquares of a board is the ascending list of exactly the squares
      holding c. */
  lemma ColouredSquaresAre(b: seq<int>, c: int, squares: seq<int>)
    requires forall i, j | 0 <= i < j < |squares| :: squares[i] < squares[j]
    requires forall x :: x in squares <==> 0 <= x < |b| && b[x] == c
    ensures ColouredSquares(b, c) == squares
  {
    SquaresBelowMeaning(b, c, |b|);
    AscendingUnique(ColouredSquares(b, c), squares);
  }
}
