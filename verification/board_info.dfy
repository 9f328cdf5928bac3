/**
 * Constant topology of the 24-square board: the adjacency table and the two
 * mill lines through every square. The squares are numbered row by row, top
 * to bottom and left to right, over three nested squares (outer, middle,
 * inner); each side of a nested square is a line of three squares, and the
 * midpoints of the sides are joined across the three nested squares.
 */
module BoardInfo {
  import opened Wrappers

  const SQUARES_ON_BOARD: int := 24
  const EMPTY: int := 0
  const BLACK: int := 1
  const WHITE: int := 2

  predicate IsSquare(s: int) { 0 <= s < SQUARES_ON_BOARD }

  /** The neighbour table: row p lists the squares adjacent to p, ascending. */
  function Neighbours(p: int): seq<int>
    requires IsSquare(p)
  {
    match p
    case 0 => [1, 9]
    case 1 => [0, 2, 4]
    case 2 => [1, 14]
    case 3 => [4, 10]
    case 4 => [1, 3, 5, 7]
    case 5 => [4, 13]
    case 6 => [7, 11]
    case 7 => [4, 6, 8]
    case 8 => [7, 12]
    case 9 => [0, 10, 21]
    case 10 => [3, 9, 11, 18]
    case 11 => [6, 10, 15]
    case 12 => [8, 13, 17]
    case 13 => [5, 12, 14, 20]
    case 14 => [2, 13, 23]
    case 15 => [11, 16]
    case 16 => [15, 17, 19]
    case 17 => [12, 16]
    case 18 => [10, 19]
    case 19 => [16, 18, 20, 22]
    case 20 => [13, 19]
    case 21 => [9, 22]
    case 22 => [19, 21, 23]
    case _ => [14, 22]
  }

  /** The mill-line table: row p holds, for each of the two lines through p, its other two squares. */
  function MillLines(p: int): seq<seq<int>>
    requires IsSquare(p)
  {
    match p
    case 0 => [[1, 2], [9, 21]]
    case 1 => [[0, 2], [4, 7]]
    case 2 => [[0, 1], [14, 23]]
    case 3 => [[4, 5], [10, 18]]
    case 4 => [[1, 7], [3, 5]]
    case 5 => [[3, 4], [13, 20]]
    case 6 => [[7, 8], [11, 15]]
    case 7 => [[1, 4], [6, 8]]
    case 8 => [[6, 7], [12, 17]]
    case 9 => [[0, 21], [10, 11]]
    case 10 => [[3, 18], [9, 11]]
    case 11 => [[6, 15], [9, 10]]
    case 12 => [[8, 17], [13, 14]]
    case 13 => [[5, 20], [12, 14]]
    case 14 => [[2, 23], [12, 13]]
    case 15 => [[6, 11], [16, 17]]
    case 16 => [[15, 17], [19, 22]]
    case 17 => [[8, 12], [15, 16]]
    case 18 => [[3, 10], [19, 20]]
    case 19 => [[16, 22], [18, 20]]
    case 20 => [[5, 13], [18, 19]]
    case 21 => [[0, 9], [22, 23]]
    case 22 => [[16, 19], [21, 23]]
    case _ => [[2, 14], [21, 22]]
  }

  /** Copies row `square` of the neighbour table into a fresh array; a square
      off the board fails as the table lookup does. */
  method GetNeighbours(square: int) returns (r: Result<array<int>>)
    ensures r.Ok? <==> IsSquare(square)
    ensures r.Err? ==> r.error == IndexOutOfBounds
    ensures r.Ok? ==> fresh(r.value) && r.value[..] == Neighbours(square)
  {
    if !IsSquare(square) {
      return Err(IndexOutOfBounds);
    }
    var neighbours := CopyRow(Neighbours(square));
    return Ok(neighbours);
  }

  /** A fresh array holding the entries of a table row. */
  method CopyRow(row: seq<int>) returns (a: array<int>)
    ensures fresh(a) && a[..] == row
  {
    a := new int[|row|];
    var i := 0;
    while i < a.Length
      invariant 0 <= i <= a.Length
      invariant a[..i] == row[..i]
    {
      a[i] := row[i];
      i := i + 1;
    }
  }

  /** The two mill lines of `square` as a fresh 2x2 value: two disjoint pairs of
      board squares, neither containing `square`. */
  function GetMillLines(square: int): (r: Result<seq<seq<int>>>)
    ensures r.Ok? <==> IsSquare(square)
    ensures r.Ok? ==> |r.value| == 2 && |r.value[0]| == 2 && |r.value[1]| == 2
    ensures r.Ok? ==> forall i, j | 0 <= i < 2 && 0 <= j < 2 :: IsSquare(r.value[i][j]) && r.value[i][j] != square
    ensures r.Ok? ==> r.value[0][0] != r.value[0][1] && r.value[1][0] != r.value[1][1]
    ensures r.Ok? ==> r.value[0][0] !in r.value[1] && r.value[0][1] !in r.value[1]
    ensures r.Ok? ==> r.value == MillLines(square)
  {
    if !IsSquare(square) then Err(IndexOutOfBounds)
    else
      MillLinesShape(square);
      var lines := MillLines(square);
      Ok([[lines[0][0], lines[0][1]], [lines[1][0], lines[1][1]]])
  }

  predicate Adjacent(p: int, q: int)
    requires IsSquare(p)
  {
    q in Neighbours(p)
  }

  // ---- The tables are checked row by row: on a literal square the
  // ---- verifier evaluates RowOk outright.

  /** Entries k.. of row p are squares other than p whose own rows list p. */
  predicate NeighboursOkFrom(p: int, k: nat)
    requires IsSquare(p)
    decreases |Neighbours(p)| - k
  {
    k >= |Neighbours(p)| ||
    (IsSquare(Neighbours(p)[k]) && Neighbours(p)[k] != p && p in Neighbours(Neighbours(p)[k])
     && (k + 1 == |Neighbours(p)| || Neighbours(p)[k] < Neighbours(p)[k + 1])
     && NeighboursOkFrom(p, k + 1))
  }

  /** Square x has a mill line whose other two squares are u and v, in either order. */
  predicate HasLine(x: int, u: int, v: int)
    requires IsSquare(x)
  {
    MillLines(x)[0] == [u, v] || MillLines(x)[0] == [v, u] ||
    MillLines(x)[1] == [u, v] || MillLines(x)[1] == [v, u]
  }

  /** Line i of p is a pair of two distinct squares other than p, and forms a triple with p. */
  predicate LineOk(p: int, i: int)
    requires IsSquare(p) && 0 <= i < 2
  {
    |MillLines(p)| == 2 && |MillLines(p)[i]| == 2 &&
    var a, b := MillLines(p)[i][0], MillLines(p)[i][1];
    IsSquare(a) && IsSquare(b) && a != p && b != p && a != b &&
    HasLine(a, p, b) && HasLine(b, p, a)
  }

  predicate RowOk(p: int)
    requires IsSquare(p)
  {
    && 2 <= |Neighbours(p)| <= 4
    && NeighboursOkFrom(p, 0)
    && LineOk(p, 0) && LineOk(p, 1)
    && MillLines(p)[0][0] !in MillLines(p)[1]
    && MillLines(p)[0][1] !in MillLines(p)[1]
  }

  lemma Row0Ok()
    ensures RowOk(0)
  {
  }

  lemma Row1Ok()
    ensures RowOk(1)
  {
  }

  lemma Row2Ok()
    ensures RowOk(2)
  {
  }

  lemma Row3Ok()
    ensures RowOk(3)
  {
  }

  lemma Row4Ok()
    ensures RowOk(4)
  {
  }

  lemma Row5Ok()
    ensures RowOk(5)
  {
  }

  lemma Row6Ok()
    ensures RowOk(6)
  {
  }

  lemma Row7Ok()
    ensures RowOk(7)
  {
  }

  lemma Row8Ok()
    ensures RowOk(8)
  {
  }

  lemma Row9Ok()
    ensures RowOk(9)
  {
  }

  lemma Row10Ok()
    ensures RowOk(10)
  {
  }

  lemma Row11Ok()
    ensures RowOk(11)
  {
  }

  lemma Row12Ok()
    ensures RowOk(12)
  {
  }

  lemma Row13Ok()
    ensures RowOk(13)
  {
  }

  lemma Row14Ok()
    ensures RowOk(14)
  {
  }

  lemma Row15Ok()
    ensures RowOk(15)
  {
  }

  lemma Row16Ok()
    ensures RowOk(16)
  {
  }

  lemma Row17Ok()
    ensures RowOk(17)
  {
  }

  lemma Row18Ok()
    ensures RowOk(18)
  {
  }

  lemma Row19Ok()
    ensures RowOk(19)
  {
  }

  lemma Row20Ok()
    ensures RowOk(20)
  {
  }

  lemma Row21Ok()
    ensures RowOk(21)
  {
  }

  lemma Row22Ok()
    ensures RowOk(22)
  {
  }

  lemma Row23Ok()
    ensures RowOk(23)
  {
  }

  lemma TableRows0To5(p: int)
    requires 0 <= p < 6
    ensures RowOk(p)
  {
    if p == 0 { Row0Ok(); }
    else if p == 1 { Row1Ok(); }
    else if p == 2 { Row2Ok(); }
    else if p == 3 { Row3Ok(); }
    else if p == 4 { Row4Ok(); }
    else { assert p == 5; Row5Ok(); }
  }

  lemma TableRows6To11(p: int)
    requires 6 <= p < 12
    ensures RowOk(p)
  {
    if p == 6 { Row6Ok(); }
    else if p == 7 { Row7Ok(); }
    else if p == 8 { Row8Ok(); }
    else if p == 9 { Row9Ok(); }
    else if p == 10 { Row10Ok(); }
    else { assert p == 11; Row11Ok(); }
  }

  lemma TableRows12To17(p: int)
    requires 12 <= p < 18
    ensures RowOk(p)
  {
    if p == 12 { Row12Ok(); }
    else if p == 13 { Row13Ok(); }
    else if p == 14 { Row14Ok(); }
    else if p == 15 { Row15Ok(); }
    else if p == 16 { Row16Ok(); }
    else { assert p == 17; Row17Ok(); }
  }

  lemma TableRows18To23(p: int)
    requires 18 <= p < 24
    ensures RowOk(p)
  {
    if p == 18 { Row18Ok(); }
    else if p == 19 { Row19Ok(); }
    else if p == 20 { Row20Ok(); }
    else if p == 21 { Row21Ok(); }
    else if p == 22 { Row22Ok(); }
    else { assert p == 23; Row23Ok(); }
  }

  lemma TableRow(p: int)
    requires IsSquare(p)
    ensures RowOk(p)
  {
    if p < 6 { TableRows0To5(p); }
    else if p < 12 { TableRows6To11(p); }
    else if p < 18 { TableRows12To17(p); }
    else { TableRows18To23(p); }
  }

  lemma {:induction false} NeighboursOkAt(p: int, k: nat, j: nat)
    requires IsSquare(p) && NeighboursOkFrom(p, k) && k <= j < |Neighbours(p)|
    ensures IsSquare(Neighbours(p)[j]) && Neighbours(p)[j] != p && p in Neighbours(Neighbours(p)[j])
    ensures j + 1 < |Neighbours(p)| ==> Neighbours(p)[j] < Neighbours(p)[j + 1]
    decreases j - k
  {
    if k < j {
      NeighboursOkAt(p, k + 1, j);
    }
  }

  /** Every square has two to four neighbours, all of them other squares of the board. */
  lemma NeighbourDegree(p: int)
    requires IsSquare(p)
    ensures 2 <= |Neighbours(p)| <= 4
    ensures !Adjacent(p, p)
    ensures forall q | q in Neighbours(p) :: IsSquare(q)
  {
    TableRow(p);
    forall j | 0 <= j < |Neighbours(p)|
      ensures IsSquare(Neighbours(p)[j]) && Neighbours(p)[j] != p
    {
      NeighboursOkAt(p, 0, j);
    }
  }

  /** Entries i < j of row p are in strictly ascending order. */
  lemma {:induction false} NeighboursOrdered(p: int, i: nat, j: nat)
    requires IsSquare(p) && i < j < |Neighbours(p)|
    ensures Neighbours(p)[i] < Neighbours(p)[j]
    decreases j - i
  {
    TableRow(p);
    NeighboursOkAt(p, 0, i);
    if i + 1 < j {
      NeighboursOrdered(p, i + 1, j);
    }
  }

  /** Every row of the neighbour table is strictly ascending. */
  lemma NeighboursAscending(p: int)
    requires IsSquare(p)
    ensures forall i, j | 0 <= i < j < |Neighbours(p)| :: Neighbours(p)[i] < Neighbours(p)[j]
  {
    forall i, j | 0 <= i < j < |Neighbours(p)|
      ensures Neighbours(p)[i] < Neighbours(p)[j]
    {
      NeighboursOrdered(p, i, j);
    }
  }

  /** Adjacency is symmetric. */
  lemma NeighbourSymmetry(p: int, q: int)
    requires IsSquare(p) && IsSquare(q)
    ensures Adjacent(p, q) <==> Adjacent(q, p)
  {
    TableRow(p);
    TableRow(q);
    if Adjacent(p, q) {
      var j :| 0 <= j < |Neighbours(p)| && Neighbours(p)[j] == q;
      NeighboursOkAt(p, 0, j);
    }
    if Adjacent(q, p) {
      var j :| 0 <= j < |Neighbours(q)| && Neighbours(q)[j] == p;
      NeighboursOkAt(q, 0, j);
    }
  }

  /** The two mill lines of p are two disjoint pairs of squares, neither containing p. */
  lemma MillLinesShape(p: int)
    requires IsSquare(p)
    ensures |MillLines(p)| == 2 && |MillLines(p)[0]| == 2 && |MillLines(p)[1]| == 2
    ensures IsSquare(MillLines(p)[0][0]) && IsSquare(MillLines(p)[0][1])
    ensures IsSquare(MillLines(p)[1][0]) && IsSquare(MillLines(p)[1][1])
    ensures MillLines(p)[0][0] != MillLines(p)[0][1] && MillLines(p)[1][0] != MillLines(p)[1][1]
    ensures MillLines(p)[0][0] != p && MillLines(p)[0][1] != p && MillLines(p)[1][0] != p && MillLines(p)[1][1] != p
    ensures MillLines(p)[0][0] !in MillLines(p)[1] && MillLines(p)[0][1] !in MillLines(p)[1]
  {
    TableRow(p);
  }

  /** Mill lines are consistent triples: if {a, b} completes a line through p,
      then {p, b} completes a line through a and {p, a} one through b. */
  lemma MillLinesTriples(p: int, i: int)
    requires IsSquare(p) && 0 <= i < 2
    ensures |MillLines(p)| == 2 && |MillLines(p)[i]| == 2
    ensures IsSquare(MillLines(p)[i][0]) && IsSquare(MillLines(p)[i][1])
    ensures HasLine(MillLines(p)[i][0], p, MillLines(p)[i][1])
    ensures HasLine(MillLines(p)[i][1], p, MillLines(p)[i][0])
  {
    TableRow(p);
  }

  /** The fixture of the table's own test program: square 5. */
  lemma Square5Fixture()
    ensures Neighbours(5) == [4, 13]
    ensures MillLines(5) == [[3, 4], [13, 20]]
  {
  }
}
