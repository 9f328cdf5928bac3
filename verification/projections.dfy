/**
 * The square lists LegalMoves offers a player interface: the squares a legal
 * move can start from, the squares it can go to from a given start, and the
 * squares it can capture for a given start and target. Each is the list of
 * one field of the generated moves that pass a filter, without NOWHERE and
 * without repeats, in the order the values first appear.
 */
module Projections {
  import opened BoardInfo
  import opened Moves
  import opened BoardRules
  import opened Positions
  import opened Legality
  import opened Mill
  import opened Generation
  import opened Generators

  /** What the scratch buffer holds before it is filled: no square and not NOWHERE. */
  const UNUSED: int := -2

  /** The field a projection lists. */
  datatype Field = FromField | ToField | RemoveField

  function FieldOf(m: Move, field: Field): (v: int)
    ensures SquareOrNowhere(v)
  {
    match field
    case FromField => m.from
    case ToField => m.to
    case RemoveField => m.remove
  }

  /** Which moves a projection looks at: all of them, those from one square,
      or those from one square to another. */
  datatype Filter = AnyMove | FromIs(fromSquare: int) | FromToIs(fromSquare: int, toSquare: int)

  predicate Keeps(filter: Filter, m: Move)
  {
    match filter
    case AnyMove => true
    case FromIs(f) => m.from == f
    case FromToIs(f, t) => m.from == f && m.to == t
  }

  /** The values of `field` in the moves of ms that pass the filter, NOWHERE
      left out, each kept where it first appears. */
  function Projection(ms: seq<Move>, filter: Filter, field: Field): seq<int>
  {
    if ms == [] then []
    else
      var r := Projection(ms[..|ms| - 1], filter, field);
      var m := ms[|ms| - 1];
      var v := FieldOf(m, field);
      if Keeps(filter, m) && v != NOWHERE && v !in r then r + [v] else r
  }

  /** A value is listed exactly when it is not NOWHERE and some move passing
      the filter has it in the field. */
  lemma {:induction false} ProjectionMember(ms: seq<Move>, filter: Filter, field: Field, v: int)
    ensures v in Projection(ms, filter, field) <==>
      v != NOWHERE && exists i | 0 <= i < |ms| :: Keeps(filter, ms[i]) && FieldOf(ms[i], field) == v
    decreases |ms|
  {
    if ms != [] {
      var init := ms[..|ms| - 1];
      ProjectionMember(init, filter, field, v);
      if v != NOWHERE && exists i | 0 <= i < |ms| :: Keeps(filter, ms[i]) && FieldOf(ms[i], field) == v {
        var i :| 0 <= i < |ms| && Keeps(filter, ms[i]) && FieldOf(ms[i], field) == v;
        if i < |ms| - 1 {
          assert init[i] == ms[i];
        }
      }
      if exists i | 0 <= i < |init| :: Keeps(filter, init[i]) && FieldOf(init[i], field) == v {
        var i :| 0 <= i < |init| && Keeps(filter, init[i]) && FieldOf(init[i], field) == v;
        assert ms[i] == init[i];
      }
    }
  }

  /** The list has no repeats, holds only squares and is no longer than ms. */
  lemma {:induction false} ProjectionDistinct(ms: seq<Move>, filter: Filter, field: Field)
    ensures var r := Projection(ms, filter, field);
      (forall i, j | 0 <= i < j < |r| :: r[i] != r[j]) && (forall i | 0 <= i < |r| :: IsSquare(r[i])) && |r| <= |ms|
    decreases |ms|
  {
    if ms != [] {
      ProjectionDistinct(ms[..|ms| - 1], filter, field);
    }
  }

  /** Whether move i of ms passes the filter with value v in the field. */
  predicate Shows(ms: seq<Move>, filter: Filter, field: Field, i: int, v: int)
  {
    0 <= i < |ms| && Keeps(filter, ms[i]) && FieldOf(ms[i], field) == v
  }

  /** The list follows first appearance: a value listed before another shows
      up in ms before every move that shows the later one. */
  lemma {:induction false} ProjectionFirstAppearance(ms: seq<Move>, filter: Filter, field: Field, i: nat, j: nat, b: nat)
    requires var r := Projection(ms, filter, field); i < j < |r| && Shows(ms, filter, field, b, r[j])
    ensures exists a | 0 <= a < b :: Shows(ms, filter, field, a, Projection(ms, filter, field)[i])
    decreases |ms|
  {
    var init := ms[..|ms| - 1];
    var r := Projection(ms, filter, field);
    var r' := Projection(init, filter, field);
    if b == |ms| - 1 {
      // the last move shows r[j], so r[j] was listed earlier or by this move; either way r[i] is in r'
      assert r[i] in r' by {
        if |r| == |r'| {
        } else {
          assert r == r' + [FieldOf(ms[|ms| - 1], field)];
        }
      }
      ProjectionMember(init, filter, field, r[i]);
      var a :| 0 <= a < |init| && Keeps(filter, init[a]) && FieldOf(init[a], field) == r[i];
      assert Shows(ms, filter, field, a, r[i]);
    } else {
      assert Shows(init, filter, field, b, r[j]);
      if j < |r'| {
        assert r[i] == r'[i] && r[j] == r'[j];
        ProjectionFirstAppearance(init, filter, field, i, j, b);
        var a :| 0 <= a < b && Shows(init, filter, field, a, r'[i]);
        assert Shows(ms, filter, field, a, r[i]);
      } else {
        // r[j] is the value of the last move and was not listed before it,
        // yet move b < |ms| - 1 shows it
        assert r == r' + [FieldOf(ms[|ms| - 1], field)] && r[j] !in r';
        ProjectionMember(init, filter, field, r[j]);
        assert false;
      }
    }
  }

  // ---- the three projections of the generated moves ----

  /** getAllLegalFROMSquares: the starting squares of the legal moves. */
  function FromSquares(p: Position): seq<int>
    requires p.Valid()
  {
    Projection(GeneratedMoves(p), AnyMove, FromField)
  }

  /** getAllLegalTOSquares: the targets of the legal moves from fromSquare. */
  function ToSquares(p: Position, fromSquare: int): seq<int>
    requires p.Valid()
  {
    Projection(GeneratedMoves(p), FromIs(fromSquare), ToField)
  }

  /** getAllLegalREMOVESquares: the captures of the legal moves from fromSquare to toSquare. */
  function RemoveSquares(p: Position, fromSquare: int, toSquare: int): seq<int>
    requires p.Valid()
  {
    Projection(GeneratedMoves(p), FromToIs(fromSquare, toSquare), RemoveField)
  }

  /** No starting square is offered exactly when pieces are being placed or
      there is no legal move. */
  lemma FromSquaresEmpty(p: Position)
    requires p.Valid()
    ensures FromSquares(p) == [] <==> p.phase == PHASE_BEGINNING || GeneratedMoves(p) == []
  {
    var ms := GeneratedMoves(p);
    var r := FromSquares(p);
    if p.phase == PHASE_BEGINNING && r != [] {
      ProjectionMember(ms, AnyMove, FromField, r[0]);
      var i :| 0 <= i < |ms| && FieldOf(ms[i], FromField) == r[0];
      GeneratedMovesExact(p, ms[i]);
    }
    if p.phase != PHASE_BEGINNING && ms != [] {
      GeneratedMovesExact(p, ms[0]);
      ProjectionMember(ms, AnyMove, FromField, ms[0].from);
      assert Shows(ms, AnyMove, FromField, 0, ms[0].from);
    }
  }

  /** A target is offered exactly when a legal move goes there from fromSquare. */
  lemma ToSquaresMember(p: Position, fromSquare: int, v: int)
    requires p.Valid()
    ensures v in ToSquares(p, fromSquare) <==> exists m | m in GeneratedMoves(p) :: m.from == fromSquare && m.to == v
  {
    var ms := GeneratedMoves(p);
    ProjectionMember(ms, FromIs(fromSquare), ToField, v);
    if exists m | m in ms :: m.from == fromSquare && m.to == v {
      var m :| m in ms && m.from == fromSquare && m.to == v;
      var i :| 0 <= i < |ms| && ms[i] == m;
      assert Shows(ms, FromIs(fromSquare), ToField, i, v);
    }
  }

  /** Every target offered is an empty square. */
  lemma ToSquaresEmpty(p: Position, fromSquare: int, v: int)
    requires p.Valid()
    ensures v in ToSquares(p, fromSquare) ==> IsSquare(v) && p.board[v] == EMPTY
  {
    var ms := GeneratedMoves(p);
    ProjectionMember(ms, FromIs(fromSquare), ToField, v);
    if v in ToSquares(p, fromSquare) {
      var i :| 0 <= i < |ms| && Keeps(FromIs(fromSquare), ms[i]) && FieldOf(ms[i], ToField) == v;
      GeneratedMovesExact(p, ms[i]);
    }
  }

  /** Nothing is listed exactly when every move passing the filter has NOWHERE in the field. */
  lemma ProjectionEmpty(ms: seq<Move>, filter: Filter, field: Field)
    ensures Projection(ms, filter, field) == [] <==>
      forall i | 0 <= i < |ms| && Keeps(filter, ms[i]) :: FieldOf(ms[i], field) == NOWHERE
  {
    var r := Projection(ms, filter, field);
    if r != [] {
      ProjectionMember(ms, filter, field, r[0]);
    }
    forall i | 0 <= i < |ms| && Keeps(filter, ms[i]) && FieldOf(ms[i], field) != NOWHERE
      ensures r != []
    {
      ProjectionMember(ms, filter, field, FieldOf(ms[i], field));
    }
  }

  /** No capture is offered exactly when every legal move from fromSquare to
      toSquare captures nothing. */
  lemma RemoveSquaresEmpty(p: Position, fromSquare: int, toSquare: int)
    requires p.Valid()
    ensures RemoveSquares(p, fromSquare, toSquare) == [] <==>
      forall m | m in GeneratedMoves(p) && m.from == fromSquare && m.to == toSquare :: m.remove == NOWHERE
  {
    var ms := GeneratedMoves(p);
    ProjectionEmpty(ms, FromToIs(fromSquare, toSquare), RemoveField);
    assert forall m | m in ms :: exists i | 0 <= i < |ms| :: ms[i] == m;
  }

  /** Every capture offered is of one of the opponent's pieces. */
  lemma RemoveSquaresOpponent(p: Position, fromSquare: int, toSquare: int, v: int)
    requires p.Valid()
    ensures v in RemoveSquares(p, fromSquare, toSquare) ==> IsSquare(v) && p.board[v] == Opponent(p.active)
  {
    var ms := GeneratedMoves(p);
    var filter := FromToIs(fromSquare, toSquare);
    ProjectionMember(ms, filter, RemoveField, v);
    if v in RemoveSquares(p, fromSquare, toSquare) {
      var i :| 0 <= i < |ms| && Keeps(filter, ms[i]) && FieldOf(ms[i], RemoveField) == v;
      GeneratedMovesExact(p, ms[i]);
    }
  }

  // ---- the loops ----

  /** The scan shared by the three projections: a scratch buffer as long as
      the move list, filled with UNUSED, then each new value of the field
      stored after the ones found so far. */
  method CollectSquares(allMoves: array<Move>, filter: Filter, field: Field) returns (squares: array<int>)
    ensures fresh(squares)
    ensures squares[..] == Projection(allMoves[..], filter, field)
  {
    var tmpSquares := UnusedBuffer(allMoves.Length);
    var counter: nat := 0;
    for index := 0 to allMoves.Length
      invariant counter <= index
      invariant tmpSquares[..counter] == Projection(allMoves[..index], filter, field)
      invariant forall k | counter <= k < tmpSquares.Length :: tmpSquares[k] == UNUSED
    {
      counter := CollectOne(allMoves[..index], allMoves[index], filter, field, tmpSquares, counter);
      assert allMoves[..index + 1] == allMoves[..index] + [allMoves[index]];
    }
    assert allMoves[..allMoves.Length] == allMoves[..];
    squares := CompressArray(tmpSquares, counter);
  }

  /** A buffer of n entries, each UNUSED. */
  method UnusedBuffer(n: nat) returns (tmpSquares: array<int>)
    ensures fresh(tmpSquares) && tmpSquares.Length == n
    ensures forall k | 0 <= k < n :: tmpSquares[k] == UNUSED
  {
    tmpSquares := new int[n];
    for i := 0 to n
      invariant forall k | 0 <= k < i :: tmpSquares[k] == UNUSED
    {
      tmpSquares[i] := UNUSED;
    }
  }

  /** One round of the scan: the field of `move` stored when the move passes
      the filter, the value is a square and the buffer does not hold it yet. */
  method CollectOne(seen: seq<Move>, move: Move, filter: Filter, field: Field, tmpSquares: array<int>, counter: nat)
    returns (next: nat)
    requires counter <= |seen| < tmpSquares.Length
    requires tmpSquares[..counter] == Projection(seen, filter, field)
    requires forall k | counter <= k < tmpSquares.Length :: tmpSquares[k] == UNUSED
    modifies tmpSquares
    ensures next <= |seen| + 1
    ensures tmpSquares[..next] == Projection(seen + [move], filter, field)
    ensures forall k | next <= k < tmpSquares.Length :: tmpSquares[k] == UNUSED
  {
    assert (seen + [move])[..|seen|] == seen;
    ProjectionDistinct(seen, filter, field);
    next := counter;
    var value := FieldOf(move, field);
    if Keeps(filter, move) && value != NOWHERE {
      var present := ContainsValue(tmpSquares, value);
      assert tmpSquares[..] == tmpSquares[..counter] + tmpSquares[counter..];
      assert value !in tmpSquares[counter..];
      if !present {
        tmpSquares[counter] := value;
        next := counter + 1;
      }
    }
  }

  /** getAllLegalFROMSquares. */
  method GetAllLegalFromSquares(game: MillGame) returns (squares: array<int>)
    requires game.Valid()
    ensures fresh(squares)
    ensures squares[..] == FromSquares(game.Pos())
  {
    var allMoves := GetAllLegalMoves(game);
    squares := CollectSquares(allMoves, AnyMove, FromField);
  }

  /** getAllLegalTOSquares. */
  method GetAllLegalToSquares(game: MillGame, fromSquare: int) returns (squares: array<int>)
    requires game.Valid()
    ensures fresh(squares)
    ensures squares[..] == ToSquares(game.Pos(), fromSquare)
  {
    var allMoves := GetAllLegalMoves(game);
    squares := CollectSquares(allMoves, FromIs(fromSquare), ToField);
  }

  /** getAllLegalREMOVESquares. */
  method GetAllLegalRemoveSquares(game: MillGame, fromSquare: int, toSquare: int) returns (squares: array<int>)
    requires game.Valid()
    ensures fresh(squares)
    ensures squares[..] == RemoveSquares(game.Pos(), fromSquare, toSquare)
  {
    var allMoves := GetAllLegalMoves(game);
    squares := CollectSquares(allMoves, FromToIs(fromSquare, toSquare), RemoveField);
  }
}
