/**
 * The computer player: alpha-beta search over copies of the game, to a
 * fixed depth or by iterative deepening against the clock. Each method is
 * proved to compute what the matching function of module Minimax says, the
 * nodes' values and the first move of each node's PATH included.
 */
module Search {
  import opened Wrappers
  import opened BoardInfo
  import opened Moves
  import opened BoardRules
  import opened Positions
  import opened Legality
  import opened Ordering
  import opened Board
  import opened Mill
  import opened Generators
  import opened Nodes
  import Evaluation
  import GameRules
  import Minimax

  /** The PATH chain from `path` lists `line`, as printPath walks it: each
      node in repr, reached by the next move of the line, and the last one
      without a PATH. */
  ghost predicate Chain(path: Node?, line: seq<Move>, repr: set<Node>)
    reads repr
    decreases |line|
  {
    if line == [] then path == null
    else path != null && path in repr && path.previousMove == Some(line[0]) && Chain(path.path, line[1..], repr)
  }

  /** A chain through some nodes is a chain through more nodes. */
  lemma {:induction false} ChainGrow(path: Node?, line: seq<Move>, repr: set<Node>, more: set<Node>)
    requires repr <= more && Chain(path, line, repr)
    ensures Chain(path, line, more)
    decreases |line|
  {
    if line != [] {
      ChainGrow(path.path, line[1..], repr, more);
    }
  }

  /** A node reached by m, whose PATH lists `line`, starts a chain listing
      m and then `line`. */
  lemma ChainExtend(next: Node, m: Move, line: seq<Move>, repr: set<Node>)
    requires next.previousMove == Some(m) && Chain(next.path, line, repr)
    ensures Chain(next, [m] + line, {next} + repr)
  {
    ChainGrow(next.path, line, repr, {next} + repr);
    assert ([m] + line)[1..] == line;
  }

  /** A node reached by m without a PATH is a chain of the one move m. */
  lemma ChainEnd(child: Node, m: Move)
    requires child.previousMove == Some(m) && child.path == null
    ensures Chain(child, [m], {child})
  {
    assert [m][1..] == [];
  }

  /** Where a search loop stands before move i, as values: what
      Minimax.MaxLoop and Minimax.MinLoop ask of their arguments, with the
      best (or worst) value so far a short. */
  ghost predicate LoopAt(ctx: Minimax.Ctx, p: Position, depth: int, moves: seq<Move>, i: int, v: int)
  {
    && p.Valid() && 0 <= depth < ctx.depthLimit && IsColour(ctx.player)
    && 0 <= i <= |moves| && Minimax.AllLegal(p, moves)
    && Minimax.SHORT_MIN <= v <= Minimax.SHORT_MAX
  }

  /** Where the loop of maxValue or minValue stands before move i: the
      node untouched, and the best (or worst) path so far a chain through
      repr, which the node is not part of. */
  ghost predicate At(ctx: Minimax.Ctx, p: Position, node: Node, moves: seq<Move>, i: int, v: int,
                     path: Node?, line: seq<Move>, repr: set<Node>)
    reads node, repr
  {
    && node.path == null && node.value == 0 && node !in repr
    && Chain(path, line, repr)
    && LoopAt(ctx, p, node.depth, moves, i, v)
  }

  /** The best node of timeSearch so far holds the value and, along its
      PATH chain through repr, the line of `spec` (null before any round). */
  ghost predicate BestKept(best: Node?, spec: Option<Minimax.Scored>, repr: set<Node>)
    reads best, repr
  {
    && (best == null <==> spec.None?)
    && (best != null ==> best.value == spec.value.value && Chain(best.path, spec.value.line, repr))
  }

  class MillAI {
    var timeLimited: bool
    var depthLimit: int
    var player: int
    var opponent: int
    /** The looks at the clock taken since the search started. */
    var ticks: nat
    /** The look from which on the time limit has passed. */
    var expiry: nat

    /** What the search functions of module Minimax take from the fields. */
    function Context(): Minimax.Ctx
      reads this
    {
      Minimax.Ctx(player, depthLimit, timeLimited, expiry)
    }

    /** The searching side and its opponent. */
    ghost predicate Sides()
      reads this
    {
      IsColour(player) && opponent == Opponent(player)
    }

    /** No time limit, no depth and no side chosen yet. */
    constructor ()
      ensures !timeLimited && depthLimit == -1 && player == -1 && opponent == -1
      ensures ticks == 0 && expiry == 0
    {
      timeLimited := false;
      depthLimit := -1;
      player := -1;
      opponent := -1;
      ticks := 0;
      expiry := 0;
    }

    /** stopSearch: from now on every look at the clock finds the time
        limit passed. */
    method StopSearch()
      modifies this
      ensures timeLimited && expiry == 0
      ensures depthLimit == old(depthLimit) && player == old(player) && opponent == old(opponent) && ticks == old(ticks)
      ensures Minimax.TimeOut(Context(), ticks).expired
    {
      timeLimited := true;
      expiry := 0;
    }

    /** timeOut: one look at the clock, as Minimax.TimeOut counts it. */
    method TimeOut() returns (expired: bool)
      modifies this
      ensures Context() == old(Context()) && opponent == old(opponent)
      ensures Minimax.TimeOut(Context(), old(ticks)) == Minimax.Look(expired, ticks)
    {
      if !timeLimited {
        return false;
      }
      expired := ticks >= expiry;
      ticks := ticks + 1;
    }

    /** getEmptyNeighbourCount: the empty neighbours of a square, counted
        along its row of the neighbour table; a square off the board fails
        as the table lookup does. */
    method GetEmptyNeighbourCount(square: int, board: MillBoard) returns (r: Result<int>)
      requires board.Valid()
      ensures r.Ok? <==> IsSquare(square)
      ensures r.Err? ==> r.error == IndexOutOfBounds
      ensures r.Ok? ==> r.value == Evaluation.EmptyNeighbours(board.Cells(), square)
    {
      var neighbours :- GetNeighbours(square);
      NeighbourDegree(square);
      var counter := 0;
      var i := 0;
      while i < neighbours.Length
        invariant 0 <= i <= neighbours.Length
        invariant counter == Evaluation.EmptyNeighboursBelow(board.Cells(), square, i)
      {
        assert neighbours[i] in Neighbours(square);
        var cell := board.Get(neighbours[i]);
        if cell.value == EMPTY {
          counter := counter + 1;
        }
        i := i + 1;
      }
      return Ok(counter);
    }

    /** The sum of 20 times the empty neighbours of each square listed. */
    method MobilityTerm(squares: array<int>, board: MillBoard) returns (total: int)
      requires board.Valid() && Evaluation.AllSquares(squares[..])
      ensures total == 20 * Evaluation.Mobility(board.Cells(), squares[..])
    {
      total := 0;
      var i := 0;
      while i < squares.Length
        invariant 0 <= i <= squares.Length
        invariant Evaluation.AllSquares(squares[..i])
        invariant total == 20 * Evaluation.Mobility(board.Cells(), squares[..i])
      {
        assert squares[..i + 1][..i] == squares[..i];
        var count := GetEmptyNeighbourCount(squares[i], board);
        total := total + 20 * count.value;
        i := i + 1;
      }
      assert squares[..i] == squares[..];
    }

    /** evaluate: Evaluation.Evaluate for the searching side. */
    method Evaluate(game: MillGame) returns (v: int)
      requires game.Valid() && Sides()
      ensures v == Evaluation.Evaluate(game.Pos(), player)
    {
      if game.GetGameState() == PHASE_GAME_OVER {
        if game.GetActivePlayer() == player {
          return Evaluation.MAX_VALUE;
        } else {
          return Evaluation.MIN_VALUE;
        }
      }
      var board := game.GetMillBoard();
      var value := 0;
      var mine := board.GetColouredSquares(player);
      var theirs := board.GetColouredSquares(opponent);
      var playerPieces := mine.value.Length;
      var opponentPieces := theirs.value.Length;
      if game.GetGameState() == PHASE_BEGINNING {
        var playerHandPieces, opponentHandPieces;
        if player == WHITE_PLAYER {
          playerHandPieces := game.GetWhitePiecesInHand();
          opponentHandPieces := game.GetBlackPiecesInHand();
        } else {
          playerHandPieces := game.GetBlackPiecesInHand();
          opponentHandPieces := game.GetWhitePiecesInHand();
        }
        value := value + 100 * ((playerPieces + playerHandPieces) - (opponentPieces + opponentHandPieces));
        if playerHandPieces < opponentHandPieces {
          value := value - 20 * 2;
        } else if playerHandPieces > opponentHandPieces {
          value := value + 20 * 2;
        }
      } else {
        value := value + 100 * (playerPieces - opponentPieces);
      }
      assert value == Evaluation.Material(game.Pos(), player);
      Evaluation.ColouredAreSquares(board.Cells(), player);
      Evaluation.ColouredAreSquares(board.Cells(), opponent);
      var gain := MobilityTerm(mine.value, board);
      var loss := MobilityTerm(theirs.value, board);
      value := value + gain - loss;
      assert value == Evaluation.RawValue(game.Pos(), player);
      return Evaluation.ShortCast(value);
    }
  
    /** The copy of the game maxValue and minValue make for one move of p,
        and whether the move ends the game. */
    static method Play(game: MillGame, m: Move, ghost p: Position) returns (copy: MillGame, over: bool)
      requires game.Valid() && game.Pos() == p && Legal(p, m)
      ensures fresh(copy) && fresh(copy.board) && fresh(copy.board.squares) && copy.Valid()
      ensures copy.Pos() == GameRules.Step(p, m).next && over == GameRules.Step(p, m).over
    {
      copy := game.Clone();
      var made := copy.MakeMove(m, false);
      over := made.value;
    }

    /** The node holds what a search function of module Minimax returned:
        the same error, or its value, its clock looks and, along the PATH
        chain through the nodes of repr, its line. */
    ghost predicate Settled(r: Outcome, node: Node, spec: Result<Minimax.Scored>, repr: set<Node>)
      reads this, node, repr
    {
      && (r.Pass? <==> spec.Ok?)
      && (r.Fail? ==> r.error == spec.error)
      && (r.Pass? ==> node.value == spec.value.value && ticks == spec.value.ticks && Chain(node.path, spec.value.line, repr))
    }

    /** A node at the depth limit takes the evaluation of its game and no
        PATH. */
    method Leaf(node: Node, ghost ctx: Minimax.Ctx, ghost p: Position)
      requires Context() == ctx && Sides() && node.game.Valid() && node.game.Pos() == p
      modifies node
      ensures node.value == Evaluation.Evaluate(p, ctx.player) && Chain(node.path, [], {})
    {
      var v := Evaluate(node.game);
      Minimax.EvaluateInRange(ctx, p);
      node.SetValue(v);
      node.SetPath(null);
    }

    /** A move that ends the game settles the node: a win when the side to
        move afterwards is the searching one, a loss otherwise, and a PATH
        to a new node for the move. */
    method Ended(node: Node, copy: MillGame, m: Move, ghost ctx: Minimax.Ctx, ghost q: Position, ghost above: set<Node>)
      returns (ghost repr: set<Node>)
      requires Context() == ctx && copy.Valid() && copy.Pos() == q
      modifies node
      ensures node.value == Minimax.Ending(ctx, q) && Chain(node.path, [m], repr) && repr !! above && node !in repr
    {
      if copy.GetActivePlayer() == player {
        node.SetValue(Evaluation.MAX_VALUE);
      } else {
        node.SetValue(Evaluation.MIN_VALUE);
      }
      var child := new Node(copy, node.depth + 1, Some(m));
      node.SetPath(child);
      ChainEnd(child, m);
      repr := {child};
    }

    /** maxValue: the node is given the value that Minimax.MaxValue computes,
        and its PATH chain lists that function's line; the clock is looked
        at as often. Sorting an empty list of moves fails. */
    method MaxValue(node: Node, alpha: int, beta: int, ghost ctx: Minimax.Ctx, ghost p: Position, ghost above: set<Node>)
      returns (r: Outcome, ghost repr: set<Node>)
      requires Context() == ctx && Sides() && node.game.Valid() && node.game.Pos() == p
      requires 0 <= node.depth <= ctx.depthLimit && node.path == null && node.value == 0
      modifies this, node
      ensures Context() == ctx && opponent == old(opponent) && repr !! above
      ensures Settled(r, node, Minimax.MaxValue(ctx, p, node.depth, alpha, beta, old(ticks)), repr)
      decreases ctx.depthLimit - node.depth, 4
    {
      if node.depth >= depthLimit {
        Leaf(node, ctx, p);
        return Pass, {};
      }
      var allMoves := GetAllLegalMoves(node.game);
      r := SortMoves(allMoves);
      if r.Fail? {
        return r, {};
      }
      Minimax.OrderedMoves(p);
      r, repr := MaxLoop(node, allMoves, allMoves[..], alpha, beta, ctx, p, above,
                         Minimax.MaxLoop(ctx, p, node.depth, allMoves[..], 0, alpha, beta, Minimax.SHORT_MIN, [], ticks));
    }

    /** The loop of maxValue over the sorted moves, from the best value
        Short.MIN_VALUE and no PATH, as Minimax.MaxLoop says. */
    method MaxLoop(node: Node, moves: array<Move>, ghost ms: seq<Move>, alpha: int, beta: int,
                   ghost ctx: Minimax.Ctx, ghost p: Position, ghost above: set<Node>, ghost spec: Result<Minimax.Scored>)
      returns (r: Outcome, ghost repr: set<Node>)
      requires Context() == ctx && Sides() && node.game.Valid() && node.game.Pos() == p
      requires 0 <= node.depth < ctx.depthLimit && node.path == null && node.value == 0
      requires moves[..] == ms && p.Valid() && Minimax.AllLegal(p, ms)
      requires spec == Minimax.MaxLoop(ctx, p, node.depth, ms, 0, alpha, beta, Minimax.SHORT_MIN, [], ticks)
      modifies this, node
      ensures Context() == ctx && opponent == old(opponent) && repr !! above
      ensures Settled(r, node, spec, repr)
      decreases ctx.depthLimit - node.depth, 3
    {
      repr := {};
      var bestValue := Minimax.SHORT_MIN;
      var bestPath: Node? := null;
      ghost var line: seq<Move> := [];
      var a := alpha;
      var moveIndex := 0;
      while moveIndex < moves.Length
        invariant moves[..] == ms && opponent == old(opponent) && node.game.Valid() && node.game.Pos() == p && repr !! above
        invariant Context() == ctx && Sides() && At(ctx, p, node, ms, moveIndex, bestValue, bestPath, line, repr)
        invariant Minimax.MaxLoop(ctx, p, node.depth, ms, moveIndex, a, beta, bestValue, line, ticks) == spec
        decreases moves.Length - moveIndex
      {
        var done;
        done, r, a, bestValue, bestPath, line, repr :=
          MaxTry(node, moves[moveIndex], ms, moveIndex, a, beta, bestValue, bestPath, line, repr, ctx, p, above);
        if done {
          return;
        }
        moveIndex := moveIndex + 1;
      }
      node.SetValue(bestValue);
      node.SetPath(bestPath);
      return Pass, repr;
    }

    /** One turn of maxValue's loop, on move i: either the node is settled
        as Minimax.MaxLoop says, or the loop goes on to move i + 1 where
        Minimax.MaxLoop says it does. */
    method MaxTry(node: Node, m: Move, ghost ms: seq<Move>, i: int, a: int, beta: int, best: int, bestPath: Node?,
                  ghost line: seq<Move>, ghost repr: set<Node>, ghost ctx: Minimax.Ctx, ghost p: Position, ghost above: set<Node>)
      returns (done: bool, r: Outcome, a': int, best': int, bestPath': Node?, ghost line': seq<Move>, ghost repr': set<Node>)
      requires node.game.Valid() && node.game.Pos() == p && 0 <= i < |ms| && ms[i] == m && repr !! above
      requires Context() == ctx && Sides() && At(ctx, p, node, ms, i, best, bestPath, line, repr)
      modifies this, node
      ensures Context() == ctx && opponent == old(opponent) && repr' !! above
      ensures var spec := Minimax.MaxLoop(ctx, p, node.depth, ms, i, a, beta, best, line, old(ticks));
        && (done ==> Settled(r, node, spec, repr'))
        && (!done ==> At(ctx, p, node, ms, i + 1, best', bestPath', line', repr') &&
                      spec == Minimax.MaxLoop(ctx, p, node.depth, ms, i + 1, a', beta, best', line', ticks))
      decreases ctx.depthLimit - node.depth, 2
    {
      var currentMove := m;
      assert currentMove in ms;
      var copy, over := Play(node.game, currentMove, p);
      ghost var q := GameRules.Step(p, currentMove).next;
      if over {
        repr' := Ended(node, copy, currentMove, ctx, q, above);
        return true, Pass, a, best, bestPath, line, repr';
      }
      ghost var before := if node.depth == 0 then Minimax.TimeOut(ctx, ticks).ticks else ticks;
      Minimax.MaxLoopReply(ctx, p, node.depth, ms, i, a, beta, best, line, ticks, q, before);
      ghost var reply := Minimax.MinValue(ctx, q, node.depth + 1, a, beta, before);
      ghost var spec := if reply.Ok? then Minimax.MaxAfter(ctx, p, node.depth, ms, i, a, beta, best, line, reply.value)
                        else reply;
      done, r, a', best', bestPath', line', repr' :=
        MaxDescend(node, m, ms, i, a, beta, best, bestPath, line, repr, copy, ctx, p, q, above, reply, spec);
    }

    /** Move i of maxValue's loop leads to q and does not end the game: the
        opponent's reply is searched on the copy, and the node takes it as
        Minimax.MaxAfter says. */
    method MaxDescend(node: Node, m: Move, ghost ms: seq<Move>, i: int, a: int, beta: int, best: int, bestPath: Node?,
                      ghost line: seq<Move>, ghost repr: set<Node>, copy: MillGame,
                      ghost ctx: Minimax.Ctx, ghost p: Position, ghost q: Position, ghost above: set<Node>,
                      ghost reply: Result<Minimax.Scored>, ghost spec: Result<Minimax.Scored>)
      returns (done: bool, r: Outcome, a': int, best': int, bestPath': Node?, ghost line': seq<Move>, ghost repr': set<Node>)
      requires 0 <= i < |ms| && ms[i] == m && repr !! above && Context() == ctx && Sides() && At(ctx, p, node, ms, i, best, bestPath, line, repr)
      requires copy.Valid() && copy.Pos() == q
      requires reply == Minimax.MinValue(ctx, q, node.depth + 1, a, beta,
                                         if node.depth == 0 then Minimax.TimeOut(ctx, ticks).ticks else ticks)
      requires reply.Ok? ==> spec == Minimax.MaxAfter(ctx, p, node.depth, ms, i, a, beta, best, line, reply.value)
      modifies this, node
      ensures Context() == ctx && opponent == old(opponent) && repr' !! above
      ensures reply.Err? ==> done && r == Fail(reply.error)
      ensures reply.Ok? ==> r == Pass
      ensures reply.Ok? && done ==> Settled(Pass, node, spec, repr')
      ensures reply.Ok? && !done ==>
        At(ctx, p, node, ms, i + 1, best', bestPath', line', repr') &&
        spec == Minimax.MaxLoop(ctx, p, node.depth, ms, i + 1, a', beta, best', line', ticks)
      decreases ctx.depthLimit - node.depth, 1
    {
      var next;
      ghost var childRepr;
      r, next, childRepr := MaxReply(copy, m, node.depth, a, beta, ctx, q, above + {node}, reply);
      if r.Fail? {
        return true, r, a, best, bestPath, line, repr;
      }
      done, a', best', bestPath', line', repr' :=
        MaxAfterStep(node, ms, i, a, beta, best, bestPath, line, repr, next, childRepr, reply.value, ctx, p, spec);
    }

    /** The opponent's reply to a move of maxValue that does not end the
        game: at the root the clock is looked at first; then minValue
        searches a new node for the copy, one level deeper. */
    method MaxReply(copy: MillGame, m: Move, depth: int, a: int, beta: int,
                    ghost ctx: Minimax.Ctx, ghost q: Position, ghost above: set<Node>, ghost reply: Result<Minimax.Scored>)
      returns (r: Outcome, next: Node, ghost childRepr: set<Node>)
      requires Context() == ctx && Sides() && copy.Valid() && copy.Pos() == q
      requires 0 <= depth < ctx.depthLimit
      requires reply == Minimax.MinValue(ctx, q, depth + 1, a, beta,
                                         if depth == 0 then Minimax.TimeOut(ctx, ticks).ticks else ticks)
      modifies this
      ensures fresh(next) && next.previousMove == Some(m)
      ensures Context() == ctx && opponent == old(opponent) && childRepr !! above
      ensures Settled(r, next, reply, childRepr)
      ensures r.Pass? ==> Evaluation.MIN_VALUE <= next.value <= Evaluation.MAX_VALUE
      decreases ctx.depthLimit - depth, 0
    {
      if depth == 0 {
        var _ := TimeOut();
      }
      ghost var before := ticks;
      next := new Node(copy, depth + 1, Some(m));
      r, childRepr := MinValue(next, a, beta, ctx, q, above);
      Minimax.MinValueRange(ctx, q, depth + 1, a, beta, before);
    }

    /** What maxValue's loop does with the reply to move i, as
        Minimax.MaxAfter says. */
    method MaxAfterStep(node: Node, ghost ms: seq<Move>, i: int, a: int, beta: int, best: int, bestPath: Node?,
                        ghost line: seq<Move>, ghost repr: set<Node>, next: Node, ghost childRepr: set<Node>,
                        ghost reply: Minimax.Scored, ghost ctx: Minimax.Ctx, ghost p: Position, ghost spec: Result<Minimax.Scored>)
      returns (done: bool, a': int, best': int, bestPath': Node?, ghost line': seq<Move>, ghost repr': set<Node>)
      requires 0 <= i < |ms| && Context() == ctx && Sides() && At(ctx, p, node, ms, i, best, bestPath, line, repr)
      requires Evaluation.MIN_VALUE <= reply.value <= Evaluation.MAX_VALUE
      requires next.value == reply.value && next.previousMove == Some(ms[i]) && Chain(next.path, reply.line, childRepr)
      requires next != node && node !in childRepr && ticks == reply.ticks
      requires spec == Minimax.MaxAfter(ctx, p, node.depth, ms, i, a, beta, best, line, reply)
      modifies this, node
      ensures Context() == ctx && opponent == old(opponent) && (repr' == repr || repr' == {next} + childRepr)
      ensures done ==> Settled(Pass, node, spec, repr')
      ensures !done ==>
        At(ctx, p, node, ms, i + 1, best', bestPath', line', repr') &&
        spec == Minimax.MaxLoop(ctx, p, node.depth, ms, i + 1, a', beta, best', line', ticks)
    {
      var expired := TimeOut();
      if expired {
        if node.depth == 0 {
          if i > 0 {
            node.SetValue(best);
            node.SetPath(bestPath);
          } else {
            node.SetValue(Evaluation.MIN_VALUE);
            node.SetPath(null);
          }
        }
        return true, a, best, bestPath, line, repr;
      }
      if next.value == Evaluation.MAX_VALUE {
        node.SetValue(Evaluation.MAX_VALUE);
        node.SetPath(next);
        ChainExtend(next, ms[i], reply.line, childRepr);
        return true, a, best, bestPath, line, {next} + childRepr;
      }
      best', bestPath', line', repr' := best, bestPath, line, repr;
      if next.value > best {
        best', bestPath', line', repr' := next.value, next, [ms[i]] + reply.line, {next} + childRepr;
        ChainExtend(next, ms[i], reply.line, childRepr);
      }
      a' := a;
      if best' >= beta {
        node.SetValue(best');
        node.SetPath(bestPath');
        return true, a', best', bestPath', line', repr';
      }
      if best' > a {
        a' := best';
      }
      done := false;
    }

    /** minValue: the mirror image of maxValue, as Minimax.MinValue says. */
    method MinValue(node: Node, alpha: int, beta: int, ghost ctx: Minimax.Ctx, ghost p: Position, ghost above: set<Node>)
      returns (r: Outcome, ghost repr: set<Node>)
      requires Context() == ctx && Sides() && node.game.Valid() && node.game.Pos() == p
      requires 0 <= node.depth <= ctx.depthLimit && node.path == null && node.value == 0
      modifies this, node
      ensures Context() == ctx && opponent == old(opponent) && repr !! above
      ensures Settled(r, node, Minimax.MinValue(ctx, p, node.depth, alpha, beta, old(ticks)), repr)
      decreases ctx.depthLimit - node.depth, 4
    {
      if node.depth >= depthLimit {
        Leaf(node, ctx, p);
        return Pass, {};
      }
      var allMoves := GetAllLegalMoves(node.game);
      r := SortMoves(allMoves);
      if r.Fail? {
        return r, {};
      }
      Minimax.OrderedMoves(p);
      r, repr := MinLoop(node, allMoves, allMoves[..], alpha, beta, ctx, p, above,
                         Minimax.MinLoop(ctx, p, node.depth, allMoves[..], 0, alpha, beta, Minimax.SHORT_MAX, [], ticks));
    }

    /** The loop of minValue over the sorted moves, from the worst value
        Short.MAX_VALUE and no PATH, as Minimax.MinLoop says. */
    method MinLoop(node: Node, moves: array<Move>, ghost ms: seq<Move>, alpha: int, beta: int,
                   ghost ctx: Minimax.Ctx, ghost p: Position, ghost above: set<Node>, ghost spec: Result<Minimax.Scored>)
      returns (r: Outcome, ghost repr: set<Node>)
      requires Context() == ctx && Sides() && node.game.Valid() && node.game.Pos() == p
      requires 0 <= node.depth < ctx.depthLimit && node.path == null && node.value == 0
      requires moves[..] == ms && p.Valid() && Minimax.AllLegal(p, ms)
      requires spec == Minimax.MinLoop(ctx, p, node.depth, ms, 0, alpha, beta, Minimax.SHORT_MAX, [], ticks)
      modifies this, node
      ensures Context() == ctx && opponent == old(opponent) && repr !! above
      ensures Settled(r, node, spec, repr)
      decreases ctx.depthLimit - node.depth, 3
    {
      repr := {};
      var worstValue := Minimax.SHORT_MAX;
      var worstPath: Node? := null;
      ghost var line: seq<Move> := [];
      var b := beta;
      var moveIndex := 0;
      while moveIndex < moves.Length
        invariant moves[..] == ms && opponent == old(opponent) && node.game.Valid() && node.game.Pos() == p && repr !! above
        invariant Context() == ctx && Sides() && At(ctx, p, node, ms, moveIndex, worstValue, worstPath, line, repr)
        invariant Minimax.MinLoop(ctx, p, node.depth, ms, moveIndex, alpha, b, worstValue, line, ticks) == spec
        decreases moves.Length - moveIndex
      {
        var done;
        done, r, b, worstValue, worstPath, line, repr :=
          MinTry(node, moves[moveIndex], ms, moveIndex, alpha, b, worstValue, worstPath, line, repr, ctx, p, above);
        if done {
          return;
        }
        moveIndex := moveIndex + 1;
      }
      node.SetValue(worstValue);
      node.SetPath(worstPath);
      return Pass, repr;
    }

    /** One turn of minValue's loop, on move i, as Minimax.MinLoop says. */
    method MinTry(node: Node, m: Move, ghost ms: seq<Move>, i: int, alpha: int, b: int, worst: int, worstPath: Node?,
                  ghost line: seq<Move>, ghost repr: set<Node>, ghost ctx: Minimax.Ctx, ghost p: Position, ghost above: set<Node>)
      returns (done: bool, r: Outcome, b': int, worst': int, worstPath': Node?, ghost line': seq<Move>, ghost repr': set<Node>)
      requires node.game.Valid() && node.game.Pos() == p && 0 <= i < |ms| && ms[i] == m && repr !! above
      requires Context() == ctx && Sides() && At(ctx, p, node, ms, i, worst, worstPath, line, repr)
      modifies this, node
      ensures Context() == ctx && opponent == old(opponent) && repr' !! above
      ensures var spec := Minimax.MinLoop(ctx, p, node.depth, ms, i, alpha, b, worst, line, old(ticks));
        && (done ==> Settled(r, node, spec, repr'))
        && (!done ==> At(ctx, p, node, ms, i + 1, worst', worstPath', line', repr') &&
                      spec == Minimax.MinLoop(ctx, p, node.depth, ms, i + 1, alpha, b', worst', line', ticks))
      decreases ctx.depthLimit - node.depth, 2
    {
      var currentMove := m;
      assert currentMove in ms;
      var copy, over := Play(node.game, currentMove, p);
      ghost var q := GameRules.Step(p, currentMove).next;
      if over {
        repr' := Ended(node, copy, currentMove, ctx, q, above);
        return true, Pass, b, worst, worstPath, line, repr';
      }
      Minimax.MinLoopReply(ctx, p, node.depth, ms, i, alpha, b, worst, line, ticks, q);
      ghost var reply := Minimax.MaxValue(ctx, q, node.depth + 1, alpha, b, ticks);
      ghost var spec := if reply.Ok? then Minimax.MinAfter(ctx, p, node.depth, ms, i, alpha, b, worst, line, reply.value)
                        else reply;
      done, r, b', worst', worstPath', line', repr' :=
        MinDescend(node, m, ms, i, alpha, b, worst, worstPath, line, repr, copy, ctx, p, q, above, reply, spec);
    }

    /** Move i of minValue's loop leads to q and does not end the game: the
        player's reply is searched on the copy, and the node takes it as
        Minimax.MinAfter says. */
    method MinDescend(node: Node, m: Move, ghost ms: seq<Move>, i: int, alpha: int, b: int, worst: int, worstPath: Node?,
                      ghost line: seq<Move>, ghost repr: set<Node>, copy: MillGame,
                      ghost ctx: Minimax.Ctx, ghost p: Position, ghost q: Position, ghost above: set<Node>,
                      ghost reply: Result<Minimax.Scored>, ghost spec: Result<Minimax.Scored>)
      returns (done: bool, r: Outcome, b': int, worst': int, worstPath': Node?, ghost line': seq<Move>, ghost repr': set<Node>)
      requires 0 <= i < |ms| && ms[i] == m && repr !! above && Context() == ctx && Sides() && At(ctx, p, node, ms, i, worst, worstPath, line, repr)
      requires copy.Valid() && copy.Pos() == q
      requires reply == Minimax.MaxValue(ctx, q, node.depth + 1, alpha, b, ticks)
      requires reply.Ok? ==> spec == Minimax.MinAfter(ctx, p, node.depth, ms, i, alpha, b, worst, line, reply.value)
      modifies this, node
      ensures Context() == ctx && opponent == old(opponent) && repr' !! above
      ensures reply.Err? ==> done && r == Fail(reply.error)
      ensures reply.Ok? ==> r == Pass
      ensures reply.Ok? && done ==> Settled(Pass, node, spec, repr')
      ensures reply.Ok? && !done ==>
        At(ctx, p, node, ms, i + 1, worst', worstPath', line', repr') &&
        spec == Minimax.MinLoop(ctx, p, node.depth, ms, i + 1, alpha, b', worst', line', ticks)
      decreases ctx.depthLimit - node.depth, 1
    {
      var next;
      ghost var childRepr;
      r, next, childRepr := MinReply(copy, m, node.depth, alpha, b, ctx, q, above + {node}, reply);
      if r.Fail? {
        return true, r, b, worst, worstPath, line, repr;
      }
      done, b', worst', worstPath', line', repr' :=
        MinAfterStep(node, ms, i, alpha, b, worst, worstPath, line, repr, next, childRepr, reply.value, ctx, p, spec);
    }

    /** The player's reply to a move of minValue that does not end the
        game: maxValue searches a new node for the copy, one level deeper. */
    method MinReply(copy: MillGame, m: Move, depth: int, alpha: int, b: int,
                    ghost ctx: Minimax.Ctx, ghost q: Position, ghost above: set<Node>, ghost reply: Result<Minimax.Scored>)
      returns (r: Outcome, next: Node, ghost childRepr: set<Node>)
      requires Context() == ctx && Sides() && copy.Valid() && copy.Pos() == q
      requires 0 <= depth < ctx.depthLimit
      requires reply == Minimax.MaxValue(ctx, q, depth + 1, alpha, b, ticks)
      modifies this
      ensures fresh(next) && next.previousMove == Some(m)
      ensures Context() == ctx && opponent == old(opponent) && childRepr !! above
      ensures Settled(r, next, reply, childRepr)
      ensures r.Pass? ==> Evaluation.MIN_VALUE <= next.value <= Evaluation.MAX_VALUE
      decreases ctx.depthLimit - depth, 0
    {
      next := new Node(copy, depth + 1, Some(m));
      r, childRepr := MaxValue(next, alpha, b, ctx, q, above);
      Minimax.MaxValueRange(ctx, q, depth + 1, alpha, b, old(ticks));
    }

    /** What minValue's loop does with the reply to move i, as
        Minimax.MinAfter says. */
    method MinAfterStep(node: Node, ghost ms: seq<Move>, i: int, alpha: int, b: int, worst: int, worstPath: Node?,
                        ghost line: seq<Move>, ghost repr: set<Node>, next: Node, ghost childRepr: set<Node>,
                        ghost reply: Minimax.Scored, ghost ctx: Minimax.Ctx, ghost p: Position, ghost spec: Result<Minimax.Scored>)
      returns (done: bool, b': int, worst': int, worstPath': Node?, ghost line': seq<Move>, ghost repr': set<Node>)
      requires 0 <= i < |ms| && Context() == ctx && Sides() && At(ctx, p, node, ms, i, worst, worstPath, line, repr)
      requires Evaluation.MIN_VALUE <= reply.value <= Evaluation.MAX_VALUE
      requires next.value == reply.value && next.previousMove == Some(ms[i]) && Chain(next.path, reply.line, childRepr)
      requires next != node && node !in childRepr && ticks == reply.ticks
      requires spec == Minimax.MinAfter(ctx, p, node.depth, ms, i, alpha, b, worst, line, reply)
      modifies this, node
      ensures Context() == ctx && opponent == old(opponent) && (repr' == repr || repr' == {next} + childRepr)
      ensures done ==> Settled(Pass, node, spec, repr')
      ensures !done ==>
        At(ctx, p, node, ms, i + 1, worst', worstPath', line', repr') &&
        spec == Minimax.MinLoop(ctx, p, node.depth, ms, i + 1, alpha, b', worst', line', ticks)
    {
      var expired := TimeOut();
      if expired {
        return true, b, worst, worstPath, line, repr;
      }
      if next.value == Evaluation.MIN_VALUE {
        node.SetValue(Evaluation.MIN_VALUE);
        node.SetPath(next);
        ChainExtend(next, ms[i], reply.line, childRepr);
        return true, b, worst, worstPath, line, {next} + childRepr;
      }
      worst', worstPath', line', repr' := worst, worstPath, line, repr;
      if next.value < worst {
        worst', worstPath', line', repr' := next.value, next, [ms[i]] + reply.line, {next} + childRepr;
        ChainExtend(next, ms[i], reply.line, childRepr);
      }
      b' := b;
      if worst' <= alpha {
        node.SetValue(worst');
        node.SetPath(worstPath');
        return true, b', worst', worstPath', line', repr';
      }
      if worst' < b {
        b' := worst';
      }
      done := false;
    }

    /** randomMove: the generated move at the index Math.random() (the
        draw `pick`) picks; indexing an empty list fails. */
    method RandomMove(game: MillGame, pick: real) returns (r: Result<Move>)
      requires game.Valid() && 0.0 <= pick < 1.0
      ensures r == Minimax.RandomMove(game.Pos(), pick)
    {
      var moves := GetAllLegalMoves(game);
      if moves.Length == 0 {
        return Err(IndexOutOfBounds);
      }
      Minimax.PickInRange(pick, moves.Length);
      return Ok(moves[Minimax.Pick(pick, moves.Length)]);
    }

    /** depthSearch: the move Minimax.DepthSearch answers, read off the
        root's PATH after maxValue. The clock restarts; without a time limit
        it is never looked at. The search fields keep the settings it ran
        with. */
    method DepthSearch(game: MillGame, depth: int, pick: real) returns (r: Result<Option<Move>>)
      requires game.Valid() && 0.0 <= pick < 1.0
      modifies this
      ensures r == Minimax.DepthSearch(game.Pos(), depth, pick)
      ensures 0 <= depth ==> !timeLimited && depthLimit == depth && player == game.Pos().active && opponent == Opponent(player)
    {
      if depth < 0 {
        return Err(IllegalArgument);
      }
      timeLimited := false;
      depthLimit := depth;
      player := game.GetActivePlayer();
      opponent := game.GetOpponent();
      ticks := 0;
      expiry := 0;
      if depth == 0 {
        var m :- RandomMove(game, pick);
        return Ok(Some(m));
      }
      ghost var p := game.Pos();
      var root := new Node(game, 0, None);
      var searched, repr := MaxValue(root, Evaluation.MIN_VALUE, Evaluation.MAX_VALUE, Context(), p, {});
      if searched.Fail? {
        return Err(searched.error);
      }
      if root.path == null {
        return Ok(None);
      }
      return Ok(root.path.previousMove);
    }

    /** The answer of timeSearch: the move leading to the first node of the
        best node's PATH; a null best node or PATH fails. */
    static method Answer(best: Node?, ghost spec: Option<Minimax.Scored>, ghost repr: set<Node>) returns (r: Result<Move>)
      requires BestKept(best, spec, repr)
      ensures r == Minimax.Finish(spec)
    {
      if best == null || best.path == null {
        return Err(NullPointer);
      }
      return Ok(best.path.previousMove.value);
    }

    /** timeSearch: iterative deepening against a clock whose deadline is
        look number `deadline`, answering what Minimax.TimeSearch does. The
        search fields keep the settings of its last round. */
    method TimeSearch(game: MillGame, seconds: int, deadline: nat) returns (r: Result<Move>)
      requires game.Valid()
      modifies this
      ensures r == Minimax.TimeSearch(game.Pos(), seconds, deadline)
      ensures 1 <= seconds < 100000 ==>
        && timeLimited && expiry == deadline && 1 <= depthLimit <= Minimax.DEPTH_CAP
        && player == game.Pos().active && opponent == Opponent(player)
    {
      if seconds < 1 || 100000 <= seconds {
        return Err(IllegalArgument);
      }
      ghost var p := game.Pos();
      timeLimited := true;
      expiry := deadline;
      player := game.GetActivePlayer();
      opponent := game.GetOpponent();
      ticks := 0;
      var best: Node? := null;
      ghost var bestSpec: Option<Minimax.Scored> := None;
      ghost var repr: set<Node> := {};
      depthLimit := 1;
      var done := false;
      r := Err(NullPointer);
      while !done
        invariant 1 <= depthLimit <= Minimax.DEPTH_CAP && Context() == Minimax.Ctx(p.active, depthLimit, true, deadline)
        invariant Sides() && game.Valid() && game.Pos() == p
        invariant !done ==> BestKept(best, bestSpec, repr) &&
                            Minimax.Deepen(p, deadline, depthLimit, bestSpec, ticks) == Minimax.Deepen(p, deadline, 1, None, 0)
        invariant done ==> r == Minimax.Deepen(p, deadline, 1, None, 0)
        decreases if done then 0 else 1, Minimax.DEPTH_CAP - depthLimit
      {
        done, r, best, bestSpec, repr := Round(game, best, bestSpec, repr, p);
      }
    }

    /** One round of timeSearch's loop at the current depth limit, as
        Minimax.Deepen says: either the answer, or the best node after the
        round and the next depth limit. */
    method Round(game: MillGame, best: Node?, ghost bestSpec: Option<Minimax.Scored>, ghost repr: set<Node>, ghost p: Position)
      returns (done: bool, r: Result<Move>, best': Node?, ghost bestSpec': Option<Minimax.Scored>, ghost repr': set<Node>)
      requires game.Valid() && game.Pos() == p && Sides() && player == p.active
      requires timeLimited && 1 <= depthLimit <= Minimax.DEPTH_CAP && BestKept(best, bestSpec, repr)
      modifies this
      ensures timeLimited && expiry == old(expiry) && player == old(player) && opponent == old(opponent)
      ensures 1 <= depthLimit <= Minimax.DEPTH_CAP
      ensures var spec := Minimax.Deepen(p, expiry, old(depthLimit), bestSpec, old(ticks));
        && (done ==> r == spec)
        && (!done ==> depthLimit == old(depthLimit) + 1 && BestKept(best', bestSpec', repr') &&
                      spec == Minimax.Deepen(p, expiry, depthLimit, bestSpec', ticks))
    {
      var expired := TimeOut();
      if expired || depthLimit >= Minimax.DEPTH_CAP {
        r := Answer(best, bestSpec, repr);
        return true, r, best, bestSpec, repr;
      }
      ghost var start := ticks;
      var candidate := new Node(game, 0, None);
      var searched, candidateRepr := MaxValue(candidate, Evaluation.MIN_VALUE, Evaluation.MAX_VALUE, Context(), p, {});
      if searched.Fail? {
        return true, Err(searched.error), best, bestSpec, repr;
      }
      ghost var found := Minimax.MaxValue(Context(), p, 0, Evaluation.MIN_VALUE, Evaluation.MAX_VALUE, start).value;
      var late := TimeOut();
      best', bestSpec', repr' := candidate, Some(found), candidateRepr;
      if late {
        if best == null {
          return true, Err(NullPointer), best, bestSpec, repr;
        }
        if !(best.value < candidate.value) {
          best', bestSpec', repr' := best, bestSpec, repr;
        }
      }
      if best'.value == Evaluation.MAX_VALUE {
        r := Answer(best', bestSpec', repr');
        return true, r, best', bestSpec', repr';
      }
      depthLimit := depthLimit + 1;
      return false, Err(NullPointer), best', bestSpec', repr';
    }
  }
}
