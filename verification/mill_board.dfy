/**
 * The board object: 24 squares held in an array that setPiece, removePiece and
 * movePiece update in place. Every query is proved against the value-level rule
 * of module BoardRules applied to the current cells.
 */
module Board {
  import opened Wrappers
  import opened BoardInfo
  import opened Moves
  import opened BoardRules

  class MillBoard {
    var squares: array<int>

    /** The object invariant: 24 squares, each EMPTY, BLACK or WHITE. */
    ghost predicate Valid()
      reads this, squares
    {
      squares.Length == SQUARES_ON_BOARD && ValidCells(squares[..])
    }

    /** The current cell values. */
    function Cells(): seq<int>
      reads this, squares
    {
      squares[..]
    }

    /** An empty board. */
    constructor ()
      ensures Valid() && fresh(squares)
      ensures Cells() == EmptyCells()
    {
      squares := new int[SQUARES_ON_BOARD](_ => EMPTY);
    }

    /** A board with the given cells in a fresh array (how a restored snapshot
        comes back as a board object). */
    constructor FromCells(cells: seq<int>)
      requires ValidCells(cells)
      ensures Valid() && fresh(squares)
      ensures Cells() == cells
    {
      squares := new int[SQUARES_ON_BOARD](i requires 0 <= i < SQUARES_ON_BOARD => cells[i]);
    }

    /** An exact copy sharing nothing with this board. */
    method Clone() returns (copy: MillBoard)
      requires Valid()
      ensures fresh(copy) && fresh(copy.squares)
      ensures copy.Valid() && copy.Cells() == Cells()
    {
      copy := new MillBoard();
      var index := 0;
      while index < squares.Length
        invariant 0 <= index <= squares.Length
        invariant copy.squares.Length == SQUARES_ON_BOARD
        invariant copy.squares[..index] == squares[..index]
        invariant fresh(copy) && fresh(copy.squares)
        modifies copy.squares
      {
        copy.squares[index] := squares[index];
        index := index + 1;
      }
      assert copy.squares[..] == copy.squares[..index];
    }

    /** Places a piece of `color` on an empty square. A non-colour is refused
        first, then a square off the board, then an occupied square; a refused
        call leaves the board as it was. */
    method SetPiece(square: int, color: int) returns (r: Outcome)
      requires Valid()
      modifies squares
      ensures Valid()
      ensures r.Pass? <==> IsColour(color) && IsSquare(square) && old(Cells())[square] == EMPTY
      ensures r.Pass? ==> Cells() == old(Cells())[square := color]
      ensures r.Fail? ==> Cells() == old(Cells())
      ensures r.Fail? ==> r.error == (if !IsColour(color) then IllegalArgument
                                      else if !IsSquare(square) then IndexOutOfBounds
                                      else IllegalState)
    {
      if !IsColour(color) {
        return Fail(IllegalArgument);
      }
      if !(0 <= square < squares.Length) {
        return Fail(IndexOutOfBounds);
      }
      if squares[square] != EMPTY {
        return Fail(IllegalState);
      }
      squares[square] := color;
      return Pass;
    }

    /** Empties a square, whatever it held. */
    method RemovePiece(square: int) returns (r: Outcome)
      requires Valid()
      modifies squares
      ensures Valid()
      ensures r.Pass? <==> IsSquare(square)
      ensures r.Pass? ==> Cells() == old(Cells())[square := EMPTY]
      ensures r.Fail? ==> Cells() == old(Cells()) && r.error == IndexOutOfBounds
    {
      if !(0 <= square < squares.Length) {
        return Fail(IndexOutOfBounds);
      }
      squares[square] := EMPTY;
      return Pass;
    }

    /** Slides the piece on `from` to the empty square `to`: `from` off the board,
        an empty `from` (its value is no colour), `to` off the board and an
        occupied `to` are refused in that order. */
    method MovePiece(from: int, to: int) returns (r: Outcome)
      requires Valid()
      modifies squares
      ensures Valid()
      ensures r.Pass? <==>
        IsSquare(from) && old(Cells())[from] != EMPTY && IsSquare(to) && old(Cells())[to] == EMPTY
      ensures r.Pass? ==> Cells() == old(Cells())[to := old(Cells())[from]][from := EMPTY]
      ensures r.Fail? ==> Cells() == old(Cells())
      ensures r.Fail? ==> r.error == (if !IsSquare(from) then IndexOutOfBounds
                                      else if old(Cells())[from] == EMPTY then IllegalArgument
                                      else if !IsSquare(to) then IndexOutOfBounds
                                      else IllegalState)
    {
      if !(0 <= from < squares.Length) {
        return Fail(IndexOutOfBounds);
      }
      r := SetPiece(to, squares[from]);
      if r.Fail? {
        return r;
      }
      r := RemovePiece(from);
    }

    /** The value of a square; a square off the board is refused. */
    function Get(square: int): (r: Result<int>)
      requires Valid()
      reads this, squares
      ensures r.Ok? <==> IsSquare(square)
      ensures r.Ok? ==> IsCellValue(r.value) && r.value == Cells()[square]
      ensures r.Err? ==> r.error == IndexOutOfBounds
    {
      if 0 <= square < squares.Length then Ok(squares[square]) else Err(IndexOutOfBounds)
    }

    /** The squares holding `color` in ascending order, in a fresh array sized to
        fit; anything but EMPTY, BLACK or WHITE is refused. */
    method GetColouredSquares(color: int) returns (r: Result<array<int>>)
      requires Valid()
      ensures r.Ok? <==> IsCellValue(color)
      ensures r.Err? ==> r.error == IllegalArgument
      ensures r.Ok? ==> fresh(r.value) && r.value[..] == ColouredSquares(Cells(), color)
    {
      if !IsCellValue(color) {
        return Err(IllegalArgument);
      }
      var tmp := new int[SQUARES_ON_BOARD];
      var squareCounter := 0;
      var index := 0;
      while index < squares.Length
        invariant 0 <= index <= squares.Length
        invariant squareCounter <= index
        invariant tmp[..squareCounter] == SquaresBelow(Cells(), color, index)
        modifies tmp
      {
        if squares[index] == color {
          tmp[squareCounter] := index;
          squareCounter := squareCounter + 1;
        }
        index := index + 1;
      }
      var compressed := new int[squareCounter];
      index := 0;
      while index < squareCounter
        invariant 0 <= index <= squareCounter
        invariant compressed[..index] == tmp[..index]
        modifies compressed
      {
        compressed[index] := tmp[index];
        index := index + 1;
      }
      assert compressed[..] == tmp[..squareCounter];
      return Ok(compressed);
    }

    /** Whether two squares are adjacent; a first square off the board is
        refused, a second one off the board is simply nobody's neighbour. */
    method AreNeighbours(square1: int, square2: int) returns (r: Result<bool>)
      ensures r.Ok? <==> IsSquare(square1)
      ensures r.Err? ==> r.error == IndexOutOfBounds
      ensures r.Ok? ==> (r.value <==> Adjacent(square1, square2))
    {
      var found := GetNeighbours(square1);
      if found.Err? {
        return Err(found.error);
      }
      var neighbours := found.value;
      var index := 0;
      while index < neighbours.Length
        invariant 0 <= index <= neighbours.Length
        invariant square2 !in neighbours[..index]
      {
        if neighbours[index] == square2 {
          return Ok(true);
        }
        index := index + 1;
      }
      assert neighbours[..] == neighbours[..index];
      return Ok(false);
    }

    /** Whether playing m for `color` closes a new mill (see BoardRules). */
    function CreatesNewMill(m: Move, color: int): (r: Result<bool>)
      requires Valid()
      reads this, squares
      ensures r.Ok? <==> IsColour(color) && (m.from == NOWHERE || Cells()[m.from] == color)
      ensures r.Ok? ==> (r.value <==> MillFormed(Cells(), m, color))
    {
      BoardRules.CreatesNewMill(squares[..], m, color)
    }

    /** Whether the piece on a square lies in a mill; an empty square is not. */
    function IsPartOfMill(square: int): (r: Result<bool>)
      requires Valid()
      reads this, squares
      ensures r.Ok? <==> IsSquare(square)
      ensures r.Err? ==> r.error == IndexOutOfBounds
      ensures r.Ok? ==> (r.value <==> BoardRules.IsPartOfMill(Cells(), square))
      ensures r.Ok? && Cells()[square] == EMPTY ==> !r.value
    {
      if 0 <= square < squares.Length then Ok(BoardRules.IsPartOfMill(squares[..], square))
      else Err(IndexOutOfBounds)
    }

    /** Whether every piece of `color` lies in a mill; a non-colour is refused. */
    method AllPiecesInMills(color: int) returns (r: Result<bool>)
      requires Valid()
      ensures r.Ok? <==> IsColour(color)
      ensures r.Err? ==> r.error == IllegalArgument
      ensures r.Ok? ==> (r.value <==> AllInMills(Cells(), color))
    {
      if !IsColour(color) {
        return Err(IllegalArgument);
      }
      var found := GetColouredSquares(color);
      var colouredSquares := found.value;
      ColouredSquaresOnBoard(colouredSquares, color);
      var index := 0;
      while index < colouredSquares.Length
        invariant 0 <= index <= colouredSquares.Length
        invariant forall k | 0 <= k < index :: BoardRules.IsPartOfMill(Cells(), colouredSquares[k])
      {
        var inMill := IsPartOfMill(colouredSquares[index]);
        if !inMill.value {
          return Ok(false);
        }
        index := index + 1;
      }
      forall s | 0 <= s < SQUARES_ON_BOARD && Cells()[s] == color
        ensures BoardRules.IsPartOfMill(Cells(), s)
      {
        SquaresBelowMeaning(Cells(), color, |Cells()|);
        assert s in colouredSquares[..];
        var k :| 0 <= k < colouredSquares.Length && colouredSquares[k] == s;
      }
      return Ok(true);
    }

    /** Whether every piece of `color` has no empty neighbour; a non-colour is
        refused. */
    method AllPiecesJammed(color: int) returns (r: Result<bool>)
      requires Valid()
      ensures r.Ok? <==> IsColour(color)
      ensures r.Err? ==> r.error == IllegalArgument
      ensures r.Ok? ==> (r.value <==> AllJammed(Cells(), color))
    {
      if !IsColour(color) {
        return Err(IllegalArgument);
      }
      var found := GetColouredSquares(color);
      var colouredSquares := found.value;
      ColouredSquaresOnBoard(colouredSquares, color);
      ghost var cells := Cells();
      var index := 0;
      while index < colouredSquares.Length
        invariant 0 <= index <= colouredSquares.Length && Cells() == cells
        invariant colouredSquares[..] == ColouredSquares(cells, color)
        invariant forall k | 0 <= k < colouredSquares.Length :: IsSquare(colouredSquares[k]) && cells[colouredSquares[k]] == color
        invariant forall k | 0 <= k < index :: BoardRules.PieceJammed(cells, colouredSquares[k])
      {
        var jammed := PieceJammed(colouredSquares[index]);
        if !jammed {
          FreePiece(cells, color, colouredSquares[index]);
          return Ok(false);
        }
        index := index + 1;
      }
      JammedAlongList(cells, color, colouredSquares[..]);
      return Ok(true);
    }

    /** The entries of a coloured-squares result are board squares of that colour. */
    lemma ColouredSquaresOnBoard(a: array<int>, color: int)
      requires Valid() && a[..] == ColouredSquares(Cells(), color)
      ensures forall k | 0 <= k < a.Length :: IsSquare(a[k]) && Cells()[a[k]] == color
    {
      SquaresBelowMeaning(Cells(), color, |Cells()|);
      forall k | 0 <= k < a.Length
        ensures IsSquare(a[k]) && Cells()[a[k]] == color
      {
        assert a[..][k] in ColouredSquares(Cells(), color);
      }
    }

    /** Whether the piece on a square has no empty neighbour. */
    method PieceJammed(square: int) returns (jammed: bool)
      requires Valid() && IsSquare(square)
      ensures jammed <==> BoardRules.PieceJammed(Cells(), square)
    {
      var found := GetNeighbours(square);
      var neighbours := found.value;
      NeighbourDegree(square);
      var index := 0;
      while index < neighbours.Length
        invariant 0 <= index <= neighbours.Length
        invariant forall k | 0 <= k < index :: Cells()[neighbours[k]] != EMPTY
      {
        if squares[neighbours[index]] == EMPTY {
          return false;
        }
        index := index + 1;
      }
      return true;
    }
  }
}
