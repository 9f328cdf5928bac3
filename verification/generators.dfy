/**
 * The move generators of LegalMoves as the loops they are: each fills a
 * buffer of 1000 moves from a copy of the game's board, square by square,
 * and returns the filled prefix. Every generator is proved to return exactly
 * the list of module Generation for the game's position, so what is proved
 * there about those lists (legality, order, size) holds for the arrays.
 */
module Generators {
  import opened Wrappers
  import opened BoardInfo
  import opened Moves
  import opened BoardRules
  import opened Positions
  import opened Legality
  import opened Board
  import opened Mill
  import opened Enumeration
  import opened Capacity
  import opened Generation

  /** The size of the buffer every generator fills. */
  const MOVE_BUFFER: nat := 1000

  /** What the buffer holds before it is filled. */
  const BLANK: Move := MoveFields(NOWHERE, 0, NOWHERE)

  // ---- the block shared by the three phase generators ----

  /** The moves for one (FROM, TO) pair, appended at `counter`: none onto an
      occupied square; when the move closes a mill, one per capturable piece
      by ascending square; otherwise the move without a capture. */
  method AddTargetMoves(board: MillBoard, ghost p: Position, activePlayer: int, opponent: int,
                        from: int, to: int, moves: array<Move>, counter: nat) returns (next: nat)
    requires board.Valid() && p.Valid() && board.Cells() == p.board
    requires activePlayer == p.active && opponent == Opponent(p.active)
    requires SquareOrNowhere(from) && IsSquare(to) && (from == NOWHERE || p.board[from] == p.active)
    requires counter + PIECES_IN_HAND <= moves.Length
    modifies moves
    ensures next <= counter + PIECES_IN_HAND
    ensures next == counter + |TargetMoves(p, from, to)|
    ensures moves[..next] == old(moves[..counter]) + TargetMoves(p, from, to)
  {
    next := counter;
    var cell := board.Get(to);
    if cell.value != EMPTY {
      return;
    }
    var closes := board.CreatesNewMill(MoveFields(from, to, 0), activePlayer);
    if closes.value {
      next := AddCaptures(board, p, opponent, from, to, moves, counter);
    } else {
      next := Push(moves, counter, MoveFields(from, to, NOWHERE));
    }
  }

  /** The loop over REMOVE of a move that closes a mill: one move per
      opponent's piece that may be taken, by ascending square. */
  method AddCaptures(board: MillBoard, ghost p: Position, opponent: int,
                     from: int, to: int, moves: array<Move>, counter: nat) returns (next: nat)
    requires board.Valid() && p.Valid() && board.Cells() == p.board && opponent == Opponent(p.active)
    requires SquareOrNowhere(from) && IsSquare(to)
    requires counter + PIECES_IN_HAND <= moves.Length
    modifies moves
    ensures next <= counter + PIECES_IN_HAND
    ensures next == counter + |CapturesBelow(p, from, to, SQUARES_ON_BOARD)|
    ensures moves[..next] == old(moves[..counter]) + CapturesBelow(p, from, to, SQUARES_ON_BOARD)
  {
    next := counter;
    ghost var prefix := moves[..counter];
    for remove := 0 to SQUARES_ON_BOARD
      invariant next <= counter + PIECES_IN_HAND
      invariant next == counter + |CapturesBelow(p, from, to, remove)|
      invariant moves[..next] == prefix + CapturesBelow(p, from, to, remove)
    {
      OpponentTally(p, remove + 1);
      CapturesStep(p, from, to, remove);
      Regroup(prefix, CapturesBelow(p, from, to, remove), [MoveFields(from, to, remove)]);
      var piece := board.Get(remove);
      if piece.value != opponent {
        continue;
      }
      var inMill := board.IsPartOfMill(remove);
      if inMill.value {
        var allInMills := board.AllPiecesInMills(opponent);
        if allInMills.value {
          next := Push(moves, next, MoveFields(from, to, remove));
        }
      } else {
        next := Push(moves, next, MoveFields(from, to, remove));
      }
    }
  }

  /** Stores m at `counter` and returns the next free index. */
  method Push(moves: array<Move>, counter: nat, m: Move) returns (next: nat)
    requires counter < moves.Length
    modifies moves
    ensures next == counter + 1
    ensures moves[..next] == old(moves[..counter]) + [m]
  {
    moves[counter] := m;
    next := counter + 1;
  }

  lemma CapturesStep(p: Position, from: int, to: int, n: nat)
    requires p.Valid() && SquareOrNowhere(from) && IsSquare(to) && n < SQUARES_ON_BOARD
    ensures CapturesBelow(p, from, to, n + 1) ==
      if CaptureAllowed(p, n) then CapturesBelow(p, from, to, n) + [MoveFields(from, to, n)]
      else CapturesBelow(p, from, to, n)
  {
  }

  /** The opponent has at most nine pieces on any part of the board. */
  lemma OpponentTally(p: Position, n: nat)
    requires p.Valid() && n <= SQUARES_ON_BOARD
    ensures Tally(p.board, Opponent(p.active), n) <= PIECES_IN_HAND
  {
    TallyGrow(p.board, Opponent(p.active), n, SQUARES_ON_BOARD);
    TallyCount(p.board, Opponent(p.active));
  }

  lemma Regroup(a: seq<Move>, b: seq<Move>, c: seq<Move>)
    ensures (a + b) + c == a + (b + c)
  {
  }

  lemma {:induction false} TallyGrow(b: seq<int>, c: int, i: nat, j: nat)
    requires i <= j <= |b|
    ensures Tally(b, c, i) <= Tally(b, c, j) <= j
    decreases j
  {
    if j > 0 {
      if i < j {
        TallyGrow(b, c, i, j - 1);
      } else {
        TallyGrow(b, c, i - 1, j - 1);
      }
    }
  }

  // ---- one generator per phase ----

  /** BEGINNING: a placement on every empty square, by ascending square. */
  method GetAllLegalMovesBeginning(game: MillGame) returns (moves: array<Move>)
    requires game.Valid()
    ensures fresh(moves)
    ensures moves[..] == PlacementsBelow(game.Pos(), SQUARES_ON_BOARD)
  {
    ghost var p := game.Pos();
    var activePlayer := game.GetActivePlayer();
    var opponent := game.GetOpponent();
    var board := game.GetMillBoard();
    var allMoves := new Move[MOVE_BUFFER](_ => BLANK);
    var counter := 0;
    for to := 0 to SQUARES_ON_BOARD
      modifies allMoves
      invariant counter == |PlacementsBelow(p, to)| <= PIECES_IN_HAND * to
      invariant allMoves[..counter] == PlacementsBelow(p, to)
    {
      counter := AddTargetMoves(board, p, activePlayer, opponent, NOWHERE, to, allMoves, counter);
    }
    moves := CompressArray(allMoves, counter);
  }

  /** MIDGAME: for each of the mover's pieces by ascending square, a slide to
      each empty neighbour in table order. */
  method GetAllLegalMovesMiddlegame(game: MillGame) returns (moves: array<Move>)
    requires game.Valid()
    ensures fresh(moves)
    ensures moves[..] == SlidingBelow(game.Pos(), SQUARES_ON_BOARD)
  {
    ghost var p := game.Pos();
    var activePlayer := game.GetActivePlayer();
    var opponent := game.GetOpponent();
    var board := game.GetMillBoard();
    var allMoves := new Move[MOVE_BUFFER](_ => BLANK);
    var counter := 0;
    for from := 0 to SQUARES_ON_BOARD
      modifies allMoves
      invariant counter == |SlidingBelow(p, from)| <= 4 * PIECES_IN_HAND * from
      invariant allMoves[..counter] == SlidingBelow(p, from)
    {
      TallyGrow(p.board, p.active, from + 1, from + 1);
      var piece := board.Get(from);
      if piece.value != activePlayer {
        continue;
      }
      counter := AddSlides(board, p, activePlayer, opponent, from, allMoves, counter);
    }
    moves := CompressArray(allMoves, counter);
  }

  /** The slides of the piece on `from` to each neighbour in table order. */
  method AddSlides(board: MillBoard, ghost p: Position, activePlayer: int, opponent: int,
                   from: int, moves: array<Move>, counter: nat) returns (next: nat)
    requires board.Valid() && p.Valid() && board.Cells() == p.board
    requires activePlayer == p.active && opponent == Opponent(p.active)
    requires IsSquare(from) && p.board[from] == p.active
    requires counter + 4 * PIECES_IN_HAND <= moves.Length
    modifies moves
    ensures next == counter + |SlidesFrom(p, from)|
    ensures moves[..next] == old(moves[..counter]) + SlidesFrom(p, from)
  {
    NeighbourDegree(from);
    var found := GetNeighbours(from);
    var neighbours := found.value;
    next := counter;
    ghost var prefix := moves[..counter];
    for neighbourIndex := 0 to neighbours.Length
      invariant neighbours[..] == Neighbours(from)
      invariant next == counter + |SlidesBelow(p, from, neighbourIndex)| <= counter + PIECES_IN_HAND * neighbourIndex
      invariant moves[..next] == prefix + SlidesBelow(p, from, neighbourIndex)
    {
      var to := neighbours[neighbourIndex];
      SlidesStep(p, from, neighbourIndex);
      Regroup(prefix, SlidesBelow(p, from, neighbourIndex), TargetMoves(p, from, to));
      next := AddTargetMoves(board, p, activePlayer, opponent, from, to, moves, next);
    }
    SlidesFromAll(p, from);
  }

  lemma SlidesStep(p: Position, from: int, k: nat)
    requires p.Valid() && IsSquare(from) && k < |Neighbours(from)|
    ensures IsSquare(Neighbours(from)[k])
    ensures SlidesBelow(p, from, k + 1) == SlidesBelow(p, from, k) + TargetMoves(p, from, Neighbours(from)[k])
  {
    NeighbourDegree(from);
  }

  lemma SlidesFromAll(p: Position, from: int)
    requires p.Valid() && IsSquare(from)
    ensures |Neighbours(from)| <= 4
    ensures SlidesFrom(p, from) == SlidesBelow(p, from, |Neighbours(from)|)
  {
    NeighbourDegree(from);
  }

  /** ENDGAME: with more than three pieces the mover slides as in MIDGAME;
      otherwise each piece, by ascending square, flies to every empty square. */
  method GetAllLegalMovesEndgame(game: MillGame) returns (moves: array<Move>)
    requires game.Valid()
    ensures fresh(moves)
    ensures moves[..] ==
      if Count(game.Pos().board, game.Pos().active) > 3 then SlidingBelow(game.Pos(), SQUARES_ON_BOARD)
      else FlyingBelow(game.Pos(), SQUARES_ON_BOARD)
  {
    ghost var p := game.Pos();
    var activePlayer := game.GetActivePlayer();
    var opponent := game.GetOpponent();
    var board := game.GetMillBoard();
    var found := board.GetColouredSquares(activePlayer);
    if found.value.Length > 3 {
      moves := GetAllLegalMovesMiddlegame(game);
      return;
    }
    TallyCount(p.board, p.active);
    var allMoves := new Move[MOVE_BUFFER](_ => BLANK);
    var counter := 0;
    for from := 0 to SQUARES_ON_BOARD
      modifies allMoves
      invariant counter == |FlyingBelow(p, from)| <= SQUARES_ON_BOARD * PIECES_IN_HAND * 3
      invariant allMoves[..counter] == FlyingBelow(p, from)
    {
      TallyGrow(p.board, p.active, from + 1, SQUARES_ON_BOARD);
      var piece := board.Get(from);
      if piece.value != activePlayer {
        continue;
      }
      counter := AddFlights(board, p, activePlayer, opponent, from, allMoves, counter);
    }
    moves := CompressArray(allMoves, counter);
  }

  /** The flights of the piece on `from` to every square, by ascending square. */
  method AddFlights(board: MillBoard, ghost p: Position, activePlayer: int, opponent: int,
                    from: int, moves: array<Move>, counter: nat) returns (next: nat)
    requires board.Valid() && p.Valid() && board.Cells() == p.board
    requires activePlayer == p.active && opponent == Opponent(p.active)
    requires IsSquare(from) && p.board[from] == p.active
    requires counter + SQUARES_ON_BOARD * PIECES_IN_HAND <= moves.Length
    modifies moves
    ensures next == counter + |FlightsBelow(p, from, SQUARES_ON_BOARD)|
    ensures moves[..next] == old(moves[..counter]) + FlightsBelow(p, from, SQUARES_ON_BOARD)
  {
    next := counter;
    ghost var prefix := moves[..counter];
    for to := 0 to SQUARES_ON_BOARD
      invariant next == counter + |FlightsBelow(p, from, to)| <= counter + PIECES_IN_HAND * to
      invariant moves[..next] == prefix + FlightsBelow(p, from, to)
    {
      Regroup(prefix, FlightsBelow(p, from, to), TargetMoves(p, from, to));
      next := AddTargetMoves(board, p, activePlayer, opponent, from, to, moves, next);
    }
  }

  /** getAllLegalMoves: the generator of the current phase; no moves once the
      game is over. */
  method GetAllLegalMoves(game: MillGame) returns (moves: array<Move>)
    requires game.Valid()
    ensures fresh(moves)
    ensures moves[..] == GeneratedMoves(game.Pos())
  {
    var gameState := game.GetGameState();
    if gameState == PHASE_BEGINNING {
      moves := GetAllLegalMovesBeginning(game);
    } else if gameState == PHASE_MIDGAME {
      moves := GetAllLegalMovesMiddlegame(game);
    } else if gameState == PHASE_ENDGAME {
      moves := GetAllLegalMovesEndgame(game);
    } else {
      moves := new Move[0];
    }
  }

  /** isLegalMove: an empty target, a source the phase allows, and a capture
      exactly when the move closes a mill, of a piece that may be taken. */
  method IsLegalMove(m: Move, game: MillGame) returns (legal: bool)
    requires game.Valid()
    ensures legal <==> game.Pos().board[m.to] == EMPTY && PhaseAllows(game.Pos(), m) && CaptureRuleHolds(game.Pos(), m)
  {
    LegalCharacterisation(game.Pos(), m);
    legal := Legal(game.Pos(), m);
  }

  // ---- getAllLegalMoves2: every triple tried in turn ----

  /** getAllLegalMoves2: every (FROM, TO, REMOVE) with FROM and REMOVE running
      from NOWHERE, kept when legal, so exactly the legal moves in ascending
      order. */
  method GetAllLegalMoves2(game: MillGame) returns (moves: array<Move>)
    requires game.Valid()
    ensures fresh(moves)
    ensures moves[..] == AllLegalMoves(game.Pos())
  {
    var p := game.Pos();
    AllLegalMovesBound(p);
    moves := KeepAccepted(LegalIn(p), SQUARES_ON_BOARD);
  }

  // The brute-force loops are written for any test on moves and for a board
  // of `squares` squares; getAllLegalMoves2 runs them on the whole board. The
  // width is a parameter so that the verifier reasons about the loops rather
  // than unrolling the enumeration over a fixed number of squares.

  /** The triple loop of getAllLegalMoves2: FROM, TO and REMOVE in ascending
      order, FROM and REMOVE from NOWHERE, each accepted move stored in a
      buffer of 1000, which the accepted moves fit. */
  method KeepAccepted(ok: Move -> bool, squares: nat) returns (moves: array<Move>)
    requires squares <= SQUARES_ON_BOARD
    requires |AcceptedMoves(ok, squares + 1, squares)| <= MOVE_BUFFER
    ensures fresh(moves)
    ensures moves[..] == AcceptedMoves(ok, squares + 1, squares)
  {
    var tmpAllMoves := new Move[MOVE_BUFFER](_ => BLANK);
    var counter := KeepFroms(ok, squares, tmpAllMoves);
    moves := CompressArray(tmpAllMoves, counter);
  }

  /** The loop over FROM, from NOWHERE to the last square. */
  method KeepFroms(ok: Move -> bool, squares: nat, moves: array<Move>) returns (counter: nat)
    requires squares <= SQUARES_ON_BOARD
    requires |AcceptedMoves(ok, squares + 1, squares)| <= moves.Length
    modifies moves
    ensures counter == |AcceptedMoves(ok, squares + 1, squares)|
    ensures moves[..counter] == AcceptedMoves(ok, squares + 1, squares)
  {
    counter := 0;
    for fromIndex := 0 to squares + 1
      invariant counter == |AcceptedMoves(ok, fromIndex, squares)| <= |AcceptedMoves(ok, squares + 1, squares)|
      invariant moves[..counter] == AcceptedMoves(ok, fromIndex, squares)
    {
      MovesSoFar(ok, fromIndex, squares);
      counter := KeepTargets(ok, fromIndex - 1, squares, moves, counter);
    }
  }

  /** The loops over TO and REMOVE for one FROM. */
  method KeepTargets(ok: Move -> bool, from: int, squares: nat, moves: array<Move>, counter: nat) returns (next: nat)
    requires squares <= SQUARES_ON_BOARD && SquareOrNowhere(from)
    requires counter + |AcceptedTargets(ok, from, squares, squares)| <= moves.Length
    modifies moves
    ensures next == counter + |AcceptedTargets(ok, from, squares, squares)|
    ensures moves[..next] == old(moves[..counter]) + AcceptedTargets(ok, from, squares, squares)
  {
    ghost var prefix := moves[..counter];
    next := counter;
    for to := 0 to squares
      invariant next == counter + |AcceptedTargets(ok, from, to, squares)|
      invariant |AcceptedTargets(ok, from, to, squares)| <= |AcceptedTargets(ok, from, squares, squares)|
      invariant moves[..next] == prefix + AcceptedTargets(ok, from, to, squares)
    {
      TargetsSoFar(ok, from, to, squares);
      Regroup(prefix, AcceptedTargets(ok, from, to, squares), AcceptedRemoves(ok, from, to, squares + 1));
      next := KeepRemoves(ok, from, to, squares, moves, next);
    }
  }

  /** The loop over REMOVE for one (FROM, TO), from NOWHERE to the last square. */
  method KeepRemoves(ok: Move -> bool, from: int, to: int, squares: nat, moves: array<Move>, counter: nat) returns (next: nat)
    requires squares <= SQUARES_ON_BOARD && SquareOrNowhere(from) && IsSquare(to)
    requires counter + |AcceptedRemoves(ok, from, to, squares + 1)| <= moves.Length
    modifies moves
    ensures next == counter + |AcceptedRemoves(ok, from, to, squares + 1)|
    ensures moves[..next] == old(moves[..counter]) + AcceptedRemoves(ok, from, to, squares + 1)
  {
    ghost var prefix := moves[..counter];
    next := counter;
    for removeIndex := 0 to squares + 1
      invariant next == counter + |AcceptedRemoves(ok, from, to, removeIndex)|
      invariant |AcceptedRemoves(ok, from, to, removeIndex)| <= |AcceptedRemoves(ok, from, to, squares + 1)|
      invariant moves[..next] == prefix + AcceptedRemoves(ok, from, to, removeIndex)
    {
      var move := MoveFields(from, to, removeIndex - 1);
      RemovesGrow(ok, from, to, removeIndex + 1, squares + 1);
      Regroup(prefix, AcceptedRemoves(ok, from, to, removeIndex), [move]);
      if ok(move) {
        next := Push(moves, next, move);
      }
    }
  }

  /** The moves tried up to TO = to are a prefix of those from `from`. */
  lemma TargetsSoFar(ok: Move -> bool, from: int, to: nat, squares: nat)
    requires squares <= SQUARES_ON_BOARD && SquareOrNowhere(from) && to < squares
    ensures AcceptedTargets(ok, from, to + 1, squares) ==
      AcceptedTargets(ok, from, to, squares) + AcceptedRemoves(ok, from, to, squares + 1)
    ensures |AcceptedTargets(ok, from, to, squares)| + |AcceptedRemoves(ok, from, to, squares + 1)|
      <= |AcceptedTargets(ok, from, squares, squares)|
  {
    TargetsGrow(ok, from, to + 1, squares, squares);
  }

  /** The moves tried up to the FROM at fromIndex are a prefix of all of them. */
  lemma MovesSoFar(ok: Move -> bool, fromIndex: nat, squares: nat)
    requires fromIndex < squares + 1 && squares <= SQUARES_ON_BOARD
    ensures AcceptedMoves(ok, fromIndex + 1, squares) ==
      AcceptedMoves(ok, fromIndex, squares) + AcceptedTargets(ok, fromIndex - 1, squares, squares)
    ensures |AcceptedMoves(ok, fromIndex, squares)| + |AcceptedTargets(ok, fromIndex - 1, squares, squares)|
      <= |AcceptedMoves(ok, squares + 1, squares)|
  {
    MovesGrow(ok, fromIndex + 1, squares + 1, squares);
  }

  lemma {:induction false} RemovesGrow(ok: Move -> bool, from: int, to: int, i: nat, j: nat)
    requires SquareOrNowhere(from) && IsSquare(to) && i <= j <= SQUARES_ON_BOARD + 1
    ensures |AcceptedRemoves(ok, from, to, i)| <= |AcceptedRemoves(ok, from, to, j)|
    decreases j
  {
    if i < j {
      RemovesGrow(ok, from, to, i, j - 1);
    }
  }

  lemma {:induction false} TargetsGrow(ok: Move -> bool, from: int, i: nat, j: nat, width: nat)
    requires SquareOrNowhere(from) && i <= j <= SQUARES_ON_BOARD && width <= SQUARES_ON_BOARD
    ensures |AcceptedTargets(ok, from, i, width)| <= |AcceptedTargets(ok, from, j, width)|
    decreases j
  {
    if i < j {
      TargetsGrow(ok, from, i, j - 1, width);
    }
  }

  lemma {:induction false} MovesGrow(ok: Move -> bool, i: nat, j: nat, width: nat)
    requires i <= j <= SQUARES_ON_BOARD + 1 && width <= SQUARES_ON_BOARD
    ensures |AcceptedMoves(ok, i, width)| <= |AcceptedMoves(ok, j, width)|
    decreases j
  {
    if i < j {
      MovesGrow(ok, i, j - 1, width);
    }
  }

  // ---- the array helpers ----

  /** A fresh array holding the first `count` entries of `buffer`. */
  method CompressArray<T(0)>(buffer: array<T>, count: nat) returns (compressed: array<T>)
    requires count <= buffer.Length
    ensures fresh(compressed)
    ensures compressed[..] == buffer[..count]
  {
    compressed := new T[count];
    for index := 0 to count
      invariant compressed[..index] == buffer[..index]
    {
      compressed[index] := buffer[index];
    }
  }

  /** Whether `value` occurs anywhere in `values`. */
  method ContainsValue(values: array<int>, value: int) returns (found: bool)
    ensures found <==> value in values[..]
  {
    for index := 0 to values.Length
      invariant value !in values[..index]
    {
      if values[index] == value {
        return true;
      }
    }
    return false;
  }

}
