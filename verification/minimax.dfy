/**
 * The search of MillAI on values: fail-soft alpha-beta over the generated
 * moves in the order sortMoves gives them, cut short by a game-ending move,
 * by a certain win or loss and by an expired clock. The wall clock is
 * abstract: each look at it is numbered, and the deadline has passed from
 * look number `expiry` on, which covers every run of a clock that never
 * goes back.
 */
module Minimax {
  import opened Wrappers
  import opened Moves
  import opened BoardRules
  import opened Positions
  import opened Legality
  import opened GameRules
  import opened Generation
  import opened Ordering
  import opened Evaluation

  /** Short.MIN_VALUE and Short.MAX_VALUE, the starting best and worst values. */
  const SHORT_MIN: int := -0x8000
  const SHORT_MAX: int := 0x7FFF

  /** Byte.MAX_VALUE: iterative deepening stops before this depth. */
  const DEPTH_CAP: int := 127

  /** What a search works with: whose side it takes, how deep it looks,
      whether the clock matters, and when the deadline passes. */
  datatype Ctx = Ctx(player: int, depthLimit: int, timeLimited: bool, expiry: nat)

  /** The answer of one look at the clock, and the looks taken so far. */
  datatype Look = Look(expired: bool, ticks: nat)

  /** timeOut: without a time limit the clock is not read and the answer is
      no; otherwise the look is counted, and it finds the deadline passed
      from look number `expiry` on. */
  function TimeOut(ctx: Ctx, ticks: nat): Look
  {
    if !ctx.timeLimited then Look(false, ticks) else Look(ticks >= ctx.expiry, ticks + 1)
  }

  /** A node's value, its line (the moves along its PATH chain: empty when
      PATH is null) and the clock looks taken so far. */
  datatype Scored = Scored(value: int, line: seq<Move>, ticks: nat)

  /** The moves of p in the order the search tries them: getAllLegalMoves,
      then sortMoves. */
  function Ordered(p: Position): seq<Move>
    requires p.Valid() && GeneratedMoves(p) != []
  {
    SortedMoves(GeneratedMoves(p))
  }

  ghost predicate AllLegal(p: Position, moves: seq<Move>)
    requires p.Valid()
  {
    forall m | m in moves :: Legal(p, m)
  }

  /** The search tries exactly the generated moves, each of them legal. */
  lemma OrderedMoves(p: Position)
    requires p.Valid() && GeneratedMoves(p) != []
    ensures AllLegal(p, Ordered(p))
    ensures forall m :: m in Ordered(p) <==> m in GeneratedMoves(p)
  {
    SortedMovesSorted(GeneratedMoves(p));
    forall m | m in Ordered(p)
      ensures Legal(p, m)
    {
      GeneratedMovesExact(p, m);
    }
  }

  /** The value of a game-ending move to the searching player. */
  function Ending(ctx: Ctx, q: Position): int
  {
    if q.active == ctx.player then MAX_VALUE else MIN_VALUE
  }

  /** maxValue: at the depth limit the evaluation, otherwise a search of
      the moves. */
  function MaxValue(ctx: Ctx, p: Position, depth: int, alpha: int, beta: int, ticks: nat): Result<Scored>
    requires p.Valid() && 0 <= depth <= ctx.depthLimit && IsColour(ctx.player)
    decreases ctx.depthLimit - depth, 2, 0, 0
  {
    if depth >= ctx.depthLimit then Ok(Scored(Evaluate(p, ctx.player), [], ticks))
    else MaxSearch(ctx, p, depth, alpha, beta, ticks)
  }

  /** maxValue above the depth limit: the moves in order, from the best
      value Short.MIN_VALUE and no line. Sorting an empty list of moves
      fails. */
  function MaxSearch(ctx: Ctx, p: Position, depth: int, alpha: int, beta: int, ticks: nat): Result<Scored>
    requires p.Valid() && 0 <= depth < ctx.depthLimit && IsColour(ctx.player)
    decreases ctx.depthLimit - depth, 1, 0, 0
  {
    if GeneratedMoves(p) == [] then Err(IndexOutOfBounds)
    else
      OrderedMoves(p);
      MaxLoop(ctx, p, depth, Ordered(p), 0, alpha, beta, SHORT_MIN, [], ticks)
  }

  /** The loop of maxValue from move i, with the best value and line so far.
      A move that ends the game settles the node at once; otherwise the
      opponent's reply is searched, at the root after a look at the clock. */
  function MaxLoop(ctx: Ctx, p: Position, depth: int, moves: seq<Move>, i: int,
                   alpha: int, beta: int, best: int, line: seq<Move>, ticks: nat): Result<Scored>
    requires p.Valid() && 0 <= depth < ctx.depthLimit && 0 <= i <= |moves| && AllLegal(p, moves)
    requires IsColour(ctx.player)
    decreases ctx.depthLimit - depth, 0, |moves| - i, 1
  {
    if i == |moves| then Ok(Scored(best, line, ticks))
    else
      assert moves[i] in moves;
      var played := Step(p, moves[i]);
      if played.over then Ok(Scored(Ending(ctx, played.next), [moves[i]], ticks))
      else
        var before := if depth == 0 then TimeOut(ctx, ticks).ticks else ticks;
        var reply :- MinValue(ctx, played.next, depth + 1, alpha, beta, before);
        MaxAfter(ctx, p, depth, moves, i, alpha, beta, best, line, reply)
  }

  /** What maxValue does with the reply to move i. The clock is looked at
      first: time out returns the best of the moves searched to the end at
      the root (a loss when there is none) and leaves any other node
      untouched (value 0, no line). A reply worth a win settles the node;
      otherwise the best improves, a best of at least beta cuts off the
      remaining moves, and alpha rises to the best. */
  function MaxAfter(ctx: Ctx, p: Position, depth: int, moves: seq<Move>, i: int,
                    alpha: int, beta: int, best: int, line: seq<Move>, reply: Scored): Result<Scored>
    requires p.Valid() && 0 <= depth < ctx.depthLimit && 0 <= i < |moves| && AllLegal(p, moves)
    requires IsColour(ctx.player)
    decreases ctx.depthLimit - depth, 0, |moves| - i, 0
  {
    var look := TimeOut(ctx, reply.ticks);
    if look.expired then
      if depth > 0 then Ok(Scored(0, [], look.ticks))
      else if i > 0 then Ok(Scored(best, line, look.ticks))
      else Ok(Scored(MIN_VALUE, [], look.ticks))
    else if reply.value == MAX_VALUE then Ok(Scored(MAX_VALUE, [moves[i]] + reply.line, look.ticks))
    else
      var best' := if reply.value > best then reply.value else best;
      var line' := if reply.value > best then [moves[i]] + reply.line else line;
      if best' >= beta then Ok(Scored(best', line', look.ticks))
      else MaxLoop(ctx, p, depth, moves, i + 1, if best' > alpha then best' else alpha, beta, best', line', look.ticks)
  }

  /** minValue: the mirror image of maxValue for the opponent's moves, from
      the worst value Short.MAX_VALUE. */
  function MinValue(ctx: Ctx, p: Position, depth: int, alpha: int, beta: int, ticks: nat): Result<Scored>
    requires p.Valid() && 0 <= depth <= ctx.depthLimit && IsColour(ctx.player)
    decreases ctx.depthLimit - depth, 2, 0, 0
  {
    if depth >= ctx.depthLimit then Ok(Scored(Evaluate(p, ctx.player), [], ticks))
    else MinSearch(ctx, p, depth, alpha, beta, ticks)
  }

  /** minValue above the depth limit, from the worst value Short.MAX_VALUE. */
  function MinSearch(ctx: Ctx, p: Position, depth: int, alpha: int, beta: int, ticks: nat): Result<Scored>
    requires p.Valid() && 0 <= depth < ctx.depthLimit && IsColour(ctx.player)
    decreases ctx.depthLimit - depth, 1, 0, 0
  {
    if GeneratedMoves(p) == [] then Err(IndexOutOfBounds)
    else
      OrderedMoves(p);
      MinLoop(ctx, p, depth, Ordered(p), 0, alpha, beta, SHORT_MAX, [], ticks)
  }

  /** The loop of minValue from move i, with the worst value and line so
      far. A move that ends the game settles the node at once; otherwise the
      player's reply is searched. */
  function MinLoop(ctx: Ctx, p: Position, depth: int, moves: seq<Move>, i: int,
                   alpha: int, beta: int, worst: int, line: seq<Move>, ticks: nat): Result<Scored>
    requires p.Valid() && 0 <= depth < ctx.depthLimit && 0 <= i <= |moves| && AllLegal(p, moves)
    requires IsColour(ctx.player)
    decreases ctx.depthLimit - depth, 0, |moves| - i, 1
  {
    if i == |moves| then Ok(Scored(worst, line, ticks))
    else
      assert moves[i] in moves;
      var played := Step(p, moves[i]);
      if played.over then Ok(Scored(Ending(ctx, played.next), [moves[i]], ticks))
      else
        var reply :- MaxValue(ctx, played.next, depth + 1, alpha, beta, ticks);
        MinAfter(ctx, p, depth, moves, i, alpha, beta, worst, line, reply)
  }

  /** What minValue does with the reply to move i: time out leaves the node
      untouched; a reply worth a loss settles the node; otherwise the worst
      falls, a worst of at most alpha cuts off the remaining moves, and beta
      falls to the worst. */
  function MinAfter(ctx: Ctx, p: Position, depth: int, moves: seq<Move>, i: int,
                    alpha: int, beta: int, worst: int, line: seq<Move>, reply: Scored): Result<Scored>
    requires p.Valid() && 0 <= depth < ctx.depthLimit && 0 <= i < |moves| && AllLegal(p, moves)
    requires IsColour(ctx.player)
    decreases ctx.depthLimit - depth, 0, |moves| - i, 0
  {
    var look := TimeOut(ctx, reply.ticks);
    if look.expired then Ok(Scored(0, [], look.ticks))
    else if reply.value == MIN_VALUE then Ok(Scored(MIN_VALUE, [moves[i]] + reply.line, look.ticks))
    else
      var worst' := if reply.value < worst then reply.value else worst;
      var line' := if reply.value < worst then [moves[i]] + reply.line else line;
      if worst' <= alpha then Ok(Scored(worst', line', look.ticks))
      else MinLoop(ctx, p, depth, moves, i + 1, alpha, if worst' < beta then worst' else beta, worst', line', look.ticks)
  }

  /** One turn of maxValue's loop on a move that does not end the game:
      the opponent's reply from the position q the move leads to, with
      `before` the looks taken once the clock is read at the root, and what
      maxValue does with it. */
  lemma MaxLoopReply(ctx: Ctx, p: Position, depth: int, moves: seq<Move>, i: int,
                     alpha: int, beta: int, best: int, line: seq<Move>, ticks: nat, q: Position, before: nat)
    requires p.Valid() && 0 <= depth < ctx.depthLimit && 0 <= i < |moves| && AllLegal(p, moves)
    requires IsColour(ctx.player) && Legal(p, moves[i]) && !Step(p, moves[i]).over && Step(p, moves[i]).next == q
    requires before == if depth == 0 then TimeOut(ctx, ticks).ticks else ticks
    ensures q.Valid()
    ensures MinValue(ctx, q, depth + 1, alpha, beta, before).Err? ==>
      MaxLoop(ctx, p, depth, moves, i, alpha, beta, best, line, ticks) == Err(MinValue(ctx, q, depth + 1, alpha, beta, before).error)
    ensures MinValue(ctx, q, depth + 1, alpha, beta, before).Ok? ==>
      MaxLoop(ctx, p, depth, moves, i, alpha, beta, best, line, ticks) ==
      MaxAfter(ctx, p, depth, moves, i, alpha, beta, best, line, MinValue(ctx, q, depth + 1, alpha, beta, before).value)
  {
  }

  /** One turn of minValue's loop on a move that does not end the game:
      the player's reply from the position q the move leads to, and what
      minValue does with it. */
  lemma MinLoopReply(ctx: Ctx, p: Position, depth: int, moves: seq<Move>, i: int,
                     alpha: int, beta: int, worst: int, line: seq<Move>, ticks: nat, q: Position)
    requires p.Valid() && 0 <= depth < ctx.depthLimit && 0 <= i < |moves| && AllLegal(p, moves)
    requires IsColour(ctx.player) && Legal(p, moves[i]) && !Step(p, moves[i]).over && Step(p, moves[i]).next == q
    ensures q.Valid()
    ensures MaxValue(ctx, q, depth + 1, alpha, beta, ticks).Err? ==>
      MinLoop(ctx, p, depth, moves, i, alpha, beta, worst, line, ticks) == Err(MaxValue(ctx, q, depth + 1, alpha, beta, ticks).error)
    ensures MaxValue(ctx, q, depth + 1, alpha, beta, ticks).Ok? ==>
      MinLoop(ctx, p, depth, moves, i, alpha, beta, worst, line, ticks) ==
      MinAfter(ctx, p, depth, moves, i, alpha, beta, worst, line, MaxValue(ctx, q, depth + 1, alpha, beta, ticks).value)
  {
  }

  // ---- what every search result satisfies ----

  /** The moves can be played one after the other from p, and a move that
      ends the game is the last. */
  ghost predicate Playable(p: Position, line: seq<Move>)
    requires p.Valid()
    decreases |line|
  {
    line == [] ||
    (Legal(p, line[0]) &&
     var played := Step(p, line[0]);
     if played.over then |line| == 1 else Playable(played.next, line[1..]))
  }

  /** What a node searched from p at `depth`, with `ticks` looks taken
      before, comes back with: a value from a loss to a win; no looks taken
      back, and none at all without a time limit; a line no longer than the
      depth left, playable from p, and present whenever the node is searched
      without a time limit below the depth limit. */
  ghost predicate Sound(ctx: Ctx, p: Position, depth: int, ticks: nat, s: Scored)
    requires p.Valid()
  {
    && MIN_VALUE <= s.value <= MAX_VALUE
    && ticks <= s.ticks
    && (!ctx.timeLimited ==> s.ticks == ticks)
    && |s.line| <= ctx.depthLimit - depth
    && Playable(p, s.line)
    && (!ctx.timeLimited && depth < ctx.depthLimit ==> s.line != [])
  }

  /** Where a loop stands before move i: nothing searched yet and the
      starting value `init`, or a value and line as Sound asks for, with the
      line starting with one of the moves. */
  ghost predicate Started(ctx: Ctx, p: Position, depth: int, moves: seq<Move>, i: int, v: int, line: seq<Move>, init: int)
    requires p.Valid()
  {
    (i == 0 && v == init && line == []) ||
    (i > 0 && MIN_VALUE <= v <= MAX_VALUE && |line| <= ctx.depthLimit - depth && Playable(p, line) &&
     (line != [] ==> line[0] in moves) && (!ctx.timeLimited ==> line != []))
  }

  /** A loop's result is Sound and its line starts with one of the moves. */
  ghost predicate LoopSound(ctx: Ctx, p: Position, depth: int, moves: seq<Move>, ticks: nat, s: Scored)
    requires p.Valid()
  {
    Sound(ctx, p, depth, ticks, s) && (s.line != [] ==> s.line[0] in moves)
  }

  /** maxValue's answer is Sound, and its line starts with a generated move. */
  lemma {:induction false} MaxValueSound(ctx: Ctx, p: Position, depth: int, alpha: int, beta: int, ticks: nat)
    requires p.Valid() && 0 <= depth <= ctx.depthLimit && IsColour(ctx.player)
    ensures var r := MaxValue(ctx, p, depth, alpha, beta, ticks);
      r.Ok? ==> Sound(ctx, p, depth, ticks, r.value) && (r.value.line != [] ==> r.value.line[0] in GeneratedMoves(p))
    decreases ctx.depthLimit - depth, 1, 0, 0
  {
    if depth >= ctx.depthLimit {
      EvaluateInRange(ctx, p);
    } else if GeneratedMoves(p) != [] {
      OrderedMoves(p);
      MaxLoopSound(ctx, p, depth, Ordered(p), 0, alpha, beta, SHORT_MIN, [], ticks);
    }
  }

  /** The loop of maxValue, started as Started says, ends Sound. */
  lemma {:induction false} MaxLoopSound(ctx: Ctx, p: Position, depth: int, moves: seq<Move>, i: int,
                                        alpha: int, beta: int, best: int, line: seq<Move>, ticks: nat)
    requires p.Valid() && 0 <= depth < ctx.depthLimit && 0 <= i <= |moves| && |moves| > 0 && AllLegal(p, moves)
    requires IsColour(ctx.player) && Started(ctx, p, depth, moves, i, best, line, SHORT_MIN)
    ensures var r := MaxLoop(ctx, p, depth, moves, i, alpha, beta, best, line, ticks);
      r.Ok? ==> LoopSound(ctx, p, depth, moves, ticks, r.value)
    decreases ctx.depthLimit - depth, 0, |moves| - i, 3
  {
    if i == |moves| {
      StartedSound(ctx, p, depth, moves, i, best, line, SHORT_MIN, ticks);
    } else {
      assert moves[i] in moves;
      if Step(p, moves[i]).over {
        EndingSound(ctx, p, depth, moves, i, ticks);
      } else {
        MaxReplySound(ctx, p, depth, moves, i, alpha, beta, best, line, ticks,
                      if depth == 0 then TimeOut(ctx, ticks).ticks else ticks);
      }
    }
  }

  /** Move i of maxValue's loop does not end the game: the reply,
      when there is one, leaves the loop Sound. */
  lemma {:induction false} MaxReplySound(ctx: Ctx, p: Position, depth: int, moves: seq<Move>, i: int,
                                         alpha: int, beta: int, best: int, line: seq<Move>, ticks: nat, before: nat)
    requires p.Valid() && 0 <= depth < ctx.depthLimit && 0 <= i < |moves| && AllLegal(p, moves)
    requires IsColour(ctx.player) && Started(ctx, p, depth, moves, i, best, line, SHORT_MIN)
    requires Legal(p, moves[i]) && !Step(p, moves[i]).over
    requires ticks <= before && (!ctx.timeLimited ==> before == ticks)
    ensures var reply := MinValue(ctx, Step(p, moves[i]).next, depth + 1, alpha, beta, before);
      reply.Ok? ==>
        var r := MaxAfter(ctx, p, depth, moves, i, alpha, beta, best, line, reply.value);
        r.Ok? ==> LoopSound(ctx, p, depth, moves, ticks, r.value)
    decreases ctx.depthLimit - depth, 0, |moves| - i, 2
  {
    var q := Step(p, moves[i]).next;
    MinValueSound(ctx, q, depth + 1, alpha, beta, before);
    var reply := MinValue(ctx, q, depth + 1, alpha, beta, before);
    if reply.Ok? {
      MaxAfterSound(ctx, p, depth, moves, i, alpha, beta, best, line, reply.value);
      var r := MaxAfter(ctx, p, depth, moves, i, alpha, beta, best, line, reply.value);
      if r.Ok? {
        LoopSoundEarlier(ctx, p, depth, moves, ticks, reply.value.ticks, r.value);
      }
    }
  }

  /** maxValue's step after a Sound reply to move i keeps the loop Sound. */
  lemma {:induction false} MaxAfterSound(ctx: Ctx, p: Position, depth: int, moves: seq<Move>, i: int,
                                         alpha: int, beta: int, best: int, line: seq<Move>, reply: Scored)
    requires p.Valid() && 0 <= depth < ctx.depthLimit && 0 <= i < |moves| && AllLegal(p, moves)
    requires IsColour(ctx.player) && Started(ctx, p, depth, moves, i, best, line, SHORT_MIN)
    requires Legal(p, moves[i]) && !Step(p, moves[i]).over
    requires Sound(ctx, Step(p, moves[i]).next, depth + 1, reply.ticks, reply)
    ensures var r := MaxAfter(ctx, p, depth, moves, i, alpha, beta, best, line, reply);
      r.Ok? ==> LoopSound(ctx, p, depth, moves, reply.ticks, r.value)
    decreases ctx.depthLimit - depth, 0, |moves| - i, 1
  {
    var look := TimeOut(ctx, reply.ticks);
    var extended := [moves[i]] + reply.line;
    assert extended[0] == moves[i] && extended[1..] == reply.line;
    assert moves[i] in moves;
    if !look.expired && reply.value != MAX_VALUE {
      var best', line', alpha', t := MaxOn(ctx, p, depth, moves, i, alpha, beta, best, line, reply);
      MaxNext(ctx, p, depth, moves, i, best, line, reply);
      MaxOnSound(ctx, p, depth, moves, i, alpha, beta, best', line', alpha', reply.ticks, t,
                 MaxAfter(ctx, p, depth, moves, i, alpha, beta, best, line, reply));
    }
  }

  /** maxValue goes on from a reply that is in time and not a win: the
      best improves or stays, and the loop cuts off or moves on, Sound. */
  lemma {:induction false} MaxOnSound(ctx: Ctx, p: Position, depth: int, moves: seq<Move>, i: int,
                                      alpha: int, beta: int, best': int, line': seq<Move>, alpha': int, t0: nat, t: nat, r: Result<Scored>)
    requires p.Valid() && 0 <= depth < ctx.depthLimit && 0 <= i < |moves| && AllLegal(p, moves)
    requires IsColour(ctx.player) && Started(ctx, p, depth, moves, i + 1, best', line', SHORT_MIN)
    requires t0 <= t && (!ctx.timeLimited ==> t == t0)
    requires r == if best' >= beta then Ok(Scored(best', line', t)) else MaxLoop(ctx, p, depth, moves, i + 1, alpha', beta, best', line', t)
    ensures r.Ok? ==> LoopSound(ctx, p, depth, moves, t0, r.value)
    decreases ctx.depthLimit - depth, 0, |moves| - i, 0
  {
    if best' < beta {
      MaxGoOnSound(ctx, p, depth, moves, i + 1, alpha', beta, best', line', t0, t, r);
    } else {
      StoppedSound(ctx, p, depth, moves, i + 1, best', line', SHORT_MIN, t0, t, r);
    }
  }

  /** A maxValue loop that goes on after a look at the clock ends Sound for the
      ticks before that look. */
  lemma {:induction false} MaxGoOnSound(ctx: Ctx, p: Position, depth: int, moves: seq<Move>, i: int,
                                        alpha: int, beta: int, best: int, line: seq<Move>, t0: nat, t1: nat, r: Result<Scored>)
    requires p.Valid() && 0 <= depth < ctx.depthLimit && 0 <= i <= |moves| && |moves| > 0 && AllLegal(p, moves)
    requires IsColour(ctx.player) && Started(ctx, p, depth, moves, i, best, line, SHORT_MIN)
    requires t0 <= t1 && (!ctx.timeLimited ==> t1 == t0)
    requires r == MaxLoop(ctx, p, depth, moves, i, alpha, beta, best, line, t1)
    ensures r.Ok? ==> LoopSound(ctx, p, depth, moves, t0, r.value)
    decreases ctx.depthLimit - depth, 0, |moves| - i, 4
  {
    MaxLoopSound(ctx, p, depth, moves, i, alpha, beta, best, line, t1);
    if r.Ok? {
      LoopSoundEarlier(ctx, p, depth, moves, t0, t1, r.value);
    }
  }

  /** What maxValue does with a reply in time that is not a win: cut off at
      beta, or go on to move i + 1. */
  lemma MaxOn(ctx: Ctx, p: Position, depth: int, moves: seq<Move>, i: int,
              alpha: int, beta: int, best: int, line: seq<Move>, reply: Scored)
    returns (best': int, line': seq<Move>, alpha': int, t: nat)
    requires p.Valid() && 0 <= depth < ctx.depthLimit && 0 <= i < |moves| && AllLegal(p, moves) && IsColour(ctx.player)
    requires !TimeOut(ctx, reply.ticks).expired && reply.value != MAX_VALUE
    ensures best' == (if reply.value > best then reply.value else best)
    ensures line' == (if reply.value > best then [moves[i]] + reply.line else line)
    ensures reply.ticks <= t && (!ctx.timeLimited ==> t == reply.ticks)
    ensures alpha' == (if best' > alpha then best' else alpha) && t == TimeOut(ctx, reply.ticks).ticks
    ensures MaxAfter(ctx, p, depth, moves, i, alpha, beta, best, line, reply) ==
      if best' >= beta then Ok(Scored(best', line', t)) else MaxLoop(ctx, p, depth, moves, i + 1, alpha', beta, best', line', t)
  {
    best' := if reply.value > best then reply.value else best;
    line' := if reply.value > best then [moves[i]] + reply.line else line;
    alpha' := if best' > alpha then best' else alpha;
    t := TimeOut(ctx, reply.ticks).ticks;
  }

  /** After a reply that is not a win, the best and its line stand as
      Started says before move i + 1. */
  lemma MaxNext(ctx: Ctx, p: Position, depth: int, moves: seq<Move>, i: int, best: int, line: seq<Move>, reply: Scored)
    requires p.Valid() && 0 <= depth < ctx.depthLimit && 0 <= i < |moves| && AllLegal(p, moves)
    requires Started(ctx, p, depth, moves, i, best, line, SHORT_MIN)
    requires Legal(p, moves[i]) && !Step(p, moves[i]).over
    requires Sound(ctx, Step(p, moves[i]).next, depth + 1, reply.ticks, reply)
    ensures Started(ctx, p, depth, moves, i + 1, if reply.value > best then reply.value else best,
                    if reply.value > best then [moves[i]] + reply.line else line, SHORT_MIN)
  {
    ReplySound(ctx, p, depth, moves, i, reply);
  }

  /** A loop that has searched a move may stop with what it has. */
  lemma StartedSound(ctx: Ctx, p: Position, depth: int, moves: seq<Move>, i: int, v: int, line: seq<Move>, init: int, ticks: nat)
    requires p.Valid() && 0 <= depth < ctx.depthLimit && i > 0 && Started(ctx, p, depth, moves, i, v, line, init)
    ensures LoopSound(ctx, p, depth, moves, ticks, Scored(v, line, ticks))
  {
  }

  /** A loop that stops with what it has after a look at the clock ends
      Sound for the ticks before that look. */
  lemma StoppedSound(ctx: Ctx, p: Position, depth: int, moves: seq<Move>, i: int, v: int, line: seq<Move>, init: int,
                     t0: nat, t1: nat, r: Result<Scored>)
    requires p.Valid() && 0 <= depth < ctx.depthLimit && i > 0 && Started(ctx, p, depth, moves, i, v, line, init)
    requires t0 <= t1 && (!ctx.timeLimited ==> t1 == t0) && r == Ok(Scored(v, line, t1))
    ensures r.Ok? ==> LoopSound(ctx, p, depth, moves, t0, r.value)
  {
    StartedSound(ctx, p, depth, moves, i, v, line, init, t1);
    LoopSoundEarlier(ctx, p, depth, moves, t0, t1, r.value);
  }

  /** A move that ends the game makes a Sound line of its own. */
  lemma EndingSound(ctx: Ctx, p: Position, depth: int, moves: seq<Move>, i: int, ticks: nat)
    requires p.Valid() && 0 <= depth < ctx.depthLimit && 0 <= i < |moves| && Legal(p, moves[i]) && Step(p, moves[i]).over
    ensures LoopSound(ctx, p, depth, moves, ticks, Scored(Ending(ctx, Step(p, moves[i]).next), [moves[i]], ticks))
  {
    assert [moves[i]][0] == moves[i] && [moves[i]][1..] == [];
    assert moves[i] in moves;
  }

  /** Move i followed by a Sound reply's line is a Sound line from p, with
      the reply's value and one more look at the clock allowed. */
  lemma ReplySound(ctx: Ctx, p: Position, depth: int, moves: seq<Move>, i: int, reply: Scored)
    requires p.Valid() && 0 <= depth < ctx.depthLimit && 0 <= i < |moves| && Legal(p, moves[i]) && !Step(p, moves[i]).over
    requires Sound(ctx, Step(p, moves[i]).next, depth + 1, reply.ticks, reply)
    ensures var extended := [moves[i]] + reply.line;
      && Started(ctx, p, depth, moves, i + 1, reply.value, extended, 0)
      && LoopSound(ctx, p, depth, moves, reply.ticks, Scored(reply.value, extended, TimeOut(ctx, reply.ticks).ticks))
  {
    var extended := [moves[i]] + reply.line;
    assert extended[0] == moves[i] && extended[1..] == reply.line;
    assert moves[i] in moves;
  }

  /** A loop result Sound after some looks at the clock is Sound after fewer,
      when no look is taken without a time limit. */
  lemma LoopSoundEarlier(ctx: Ctx, p: Position, depth: int, moves: seq<Move>, t0: nat, t1: nat, s: Scored)
    requires p.Valid() && t0 <= t1 && (!ctx.timeLimited ==> t1 == t0)
    requires LoopSound(ctx, p, depth, moves, t1, s)
    ensures LoopSound(ctx, p, depth, moves, t0, s)
  {
  }

  /** minValue's answer is Sound. */
  lemma {:induction false} MinValueSound(ctx: Ctx, p: Position, depth: int, alpha: int, beta: int, ticks: nat)
    requires p.Valid() && 0 <= depth <= ctx.depthLimit && IsColour(ctx.player)
    ensures var r := MinValue(ctx, p, depth, alpha, beta, ticks);
      r.Ok? ==> Sound(ctx, p, depth, ticks, r.value)
    decreases ctx.depthLimit - depth, 1, 0, 0
  {
    if depth >= ctx.depthLimit {
      EvaluateInRange(ctx, p);
    } else if GeneratedMoves(p) != [] {
      OrderedMoves(p);
      MinLoopSound(ctx, p, depth, Ordered(p), 0, alpha, beta, SHORT_MAX, [], ticks);
    }
  }

  /** The loop of minValue, started as Started says, ends Sound. */
  lemma {:induction false} MinLoopSound(ctx: Ctx, p: Position, depth: int, moves: seq<Move>, i: int,
                                        alpha: int, beta: int, worst: int, line: seq<Move>, ticks: nat)
    requires p.Valid() && 0 <= depth < ctx.depthLimit && 0 <= i <= |moves| && |moves| > 0 && AllLegal(p, moves)
    requires IsColour(ctx.player) && Started(ctx, p, depth, moves, i, worst, line, SHORT_MAX)
    ensures var r := MinLoop(ctx, p, depth, moves, i, alpha, beta, worst, line, ticks);
      r.Ok? ==> LoopSound(ctx, p, depth, moves, ticks, r.value)
    decreases ctx.depthLimit - depth, 0, |moves| - i, 3
  {
    if i == |moves| {
      StartedSound(ctx, p, depth, moves, i, worst, line, SHORT_MAX, ticks);
    } else {
      assert moves[i] in moves;
      if Step(p, moves[i]).over {
        EndingSound(ctx, p, depth, moves, i, ticks);
      } else {
        MinReplySound(ctx, p, depth, moves, i, alpha, beta, worst, line, ticks);
      }
    }
  }

  /** Move i of minValue's loop does not end the game: the reply,
      when there is one, leaves the loop Sound. */
  lemma {:induction false} MinReplySound(ctx: Ctx, p: Position, depth: int, moves: seq<Move>, i: int,
                                         alpha: int, beta: int, worst: int, line: seq<Move>, ticks: nat)
    requires p.Valid() && 0 <= depth < ctx.depthLimit && 0 <= i < |moves| && AllLegal(p, moves)
    requires IsColour(ctx.player) && Started(ctx, p, depth, moves, i, worst, line, SHORT_MAX)
    requires Legal(p, moves[i]) && !Step(p, moves[i]).over
    ensures var before := ticks;
      var reply := MaxValue(ctx, Step(p, moves[i]).next, depth + 1, alpha, beta, before);
      reply.Ok? ==>
        var r := MinAfter(ctx, p, depth, moves, i, alpha, beta, worst, line, reply.value);
        r.Ok? ==> LoopSound(ctx, p, depth, moves, ticks, r.value)
    decreases ctx.depthLimit - depth, 0, |moves| - i, 2
  {
    var q := Step(p, moves[i]).next;
    var before := ticks;
    MaxValueSound(ctx, q, depth + 1, alpha, beta, before);
    var reply := MaxValue(ctx, q, depth + 1, alpha, beta, before);
    if reply.Ok? {
      MinAfterSound(ctx, p, depth, moves, i, alpha, beta, worst, line, reply.value);
      var r := MinAfter(ctx, p, depth, moves, i, alpha, beta, worst, line, reply.value);
      if r.Ok? {
        LoopSoundEarlier(ctx, p, depth, moves, ticks, reply.value.ticks, r.value);
      }
    }
  }

  /** minValue's step after a Sound reply to move i keeps the loop Sound. */
  lemma {:induction false} MinAfterSound(ctx: Ctx, p: Position, depth: int, moves: seq<Move>, i: int,
                                         alpha: int, beta: int, worst: int, line: seq<Move>, reply: Scored)
    requires p.Valid() && 0 <= depth < ctx.depthLimit && 0 <= i < |moves| && AllLegal(p, moves)
    requires IsColour(ctx.player) && Started(ctx, p, depth, moves, i, worst, line, SHORT_MAX)
    requires Legal(p, moves[i]) && !Step(p, moves[i]).over
    requires Sound(ctx, Step(p, moves[i]).next, depth + 1, reply.ticks, reply)
    ensures var r := MinAfter(ctx, p, depth, moves, i, alpha, beta, worst, line, reply);
      r.Ok? ==> LoopSound(ctx, p, depth, moves, reply.ticks, r.value)
    decreases ctx.depthLimit - depth, 0, |moves| - i, 1
  {
    var look := TimeOut(ctx, reply.ticks);
    var extended := [moves[i]] + reply.line;
    assert extended[0] == moves[i] && extended[1..] == reply.line;
    assert moves[i] in moves;
    if !look.expired && reply.value != MIN_VALUE {
      var worst', line', beta', t := MinOn(ctx, p, depth, moves, i, alpha, beta, worst, line, reply);
      MinNext(ctx, p, depth, moves, i, worst, line, reply);
      MinOnSound(ctx, p, depth, moves, i, alpha, beta, worst', line', beta', reply.ticks, t,
                 MinAfter(ctx, p, depth, moves, i, alpha, beta, worst, line, reply));
    }
  }

  /** minValue goes on from a reply that is in time and not a loss. */
  lemma {:induction false} MinOnSound(ctx: Ctx, p: Position, depth: int, moves: seq<Move>, i: int,
                                      alpha: int, beta: int, worst': int, line': seq<Move>, beta': int, t0: nat, t: nat, r: Result<Scored>)
    requires p.Valid() && 0 <= depth < ctx.depthLimit && 0 <= i < |moves| && AllLegal(p, moves)
    requires IsColour(ctx.player) && Started(ctx, p, depth, moves, i + 1, worst', line', SHORT_MAX)
    requires t0 <= t && (!ctx.timeLimited ==> t == t0)
    requires r == if worst' <= alpha then Ok(Scored(worst', line', t)) else MinLoop(ctx, p, depth, moves, i + 1, alpha, beta', worst', line', t)
    ensures r.Ok? ==> LoopSound(ctx, p, depth, moves, t0, r.value)
    decreases ctx.depthLimit - depth, 0, |moves| - i, 0
  {
    if worst' > alpha {
      MinGoOnSound(ctx, p, depth, moves, i + 1, alpha, beta', worst', line', t0, t, r);
    } else {
      StoppedSound(ctx, p, depth, moves, i + 1, worst', line', SHORT_MAX, t0, t, r);
    }
  }

  /** A minValue loop that goes on after a look at the clock ends Sound for the
      ticks before that look. */
  lemma {:induction false} MinGoOnSound(ctx: Ctx, p: Position, depth: int, moves: seq<Move>, i: int,
                                        alpha: int, beta: int, worst: int, line: seq<Move>, t0: nat, t1: nat, r: Result<Scored>)
    requires p.Valid() && 0 <= depth < ctx.depthLimit && 0 <= i <= |moves| && |moves| > 0 && AllLegal(p, moves)
    requires IsColour(ctx.player) && Started(ctx, p, depth, moves, i, worst, line, SHORT_MAX)
    requires t0 <= t1 && (!ctx.timeLimited ==> t1 == t0)
    requires r == MinLoop(ctx, p, depth, moves, i, alpha, beta, worst, line, t1)
    ensures r.Ok? ==> LoopSound(ctx, p, depth, moves, t0, r.value)
    decreases ctx.depthLimit - depth, 0, |moves| - i, 4
  {
    MinLoopSound(ctx, p, depth, moves, i, alpha, beta, worst, line, t1);
    if r.Ok? {
      LoopSoundEarlier(ctx, p, depth, moves, t0, t1, r.value);
    }
  }

  /** What minValue does with a reply in time that is not a loss: cut off
      at alpha, or go on to move i + 1. */
  lemma MinOn(ctx: Ctx, p: Position, depth: int, moves: seq<Move>, i: int,
              alpha: int, beta: int, worst: int, line: seq<Move>, reply: Scored)
    returns (worst': int, line': seq<Move>, beta': int, t: nat)
    requires p.Valid() && 0 <= depth < ctx.depthLimit && 0 <= i < |moves| && AllLegal(p, moves) && IsColour(ctx.player)
    requires !TimeOut(ctx, reply.ticks).expired && reply.value != MIN_VALUE
    ensures worst' == (if reply.value < worst then reply.value else worst)
    ensures line' == (if reply.value < worst then [moves[i]] + reply.line else line)
    ensures reply.ticks <= t && (!ctx.timeLimited ==> t == reply.ticks)
    ensures beta' == (if worst' < beta then worst' else beta) && t == TimeOut(ctx, reply.ticks).ticks
    ensures MinAfter(ctx, p, depth, moves, i, alpha, beta, worst, line, reply) ==
      if worst' <= alpha then Ok(Scored(worst', line', t)) else MinLoop(ctx, p, depth, moves, i + 1, alpha, beta', worst', line', t)
  {
    worst' := if reply.value < worst then reply.value else worst;
    line' := if reply.value < worst then [moves[i]] + reply.line else line;
    beta' := if worst' < beta then worst' else beta;
    t := TimeOut(ctx, reply.ticks).ticks;
  }

  /** After a reply that is not a loss, the worst and its line stand as
      Started says before move i + 1. */
  lemma MinNext(ctx: Ctx, p: Position, depth: int, moves: seq<Move>, i: int, worst: int, line: seq<Move>, reply: Scored)
    requires p.Valid() && 0 <= depth < ctx.depthLimit && 0 <= i < |moves| && AllLegal(p, moves)
    requires Started(ctx, p, depth, moves, i, worst, line, SHORT_MAX)
    requires Legal(p, moves[i]) && !Step(p, moves[i]).over
    requires Sound(ctx, Step(p, moves[i]).next, depth + 1, reply.ticks, reply)
    ensures Started(ctx, p, depth, moves, i + 1, if reply.value < worst then reply.value else worst,
                    if reply.value < worst then [moves[i]] + reply.line else line, SHORT_MAX)
  {
    ReplySound(ctx, p, depth, moves, i, reply);
  }

  /** The values maxValue and minValue answer lie between a loss and a win,
      so they fit a short. */
  lemma MaxValueRange(ctx: Ctx, p: Position, depth: int, alpha: int, beta: int, ticks: nat)
    requires p.Valid() && 0 <= depth <= ctx.depthLimit && IsColour(ctx.player)
    ensures var r := MaxValue(ctx, p, depth, alpha, beta, ticks);
      r.Ok? ==> MIN_VALUE <= r.value.value <= MAX_VALUE && ticks <= r.value.ticks
  {
    MaxValueSound(ctx, p, depth, alpha, beta, ticks);
  }

  lemma MinValueRange(ctx: Ctx, p: Position, depth: int, alpha: int, beta: int, ticks: nat)
    requires p.Valid() && 0 <= depth <= ctx.depthLimit && IsColour(ctx.player)
    ensures var r := MinValue(ctx, p, depth, alpha, beta, ticks);
      r.Ok? ==> MIN_VALUE <= r.value.value <= MAX_VALUE && ticks <= r.value.ticks
  {
    MinValueSound(ctx, p, depth, alpha, beta, ticks);
  }

  /** The evaluation of a position for one of the players lies between a
      loss and a win. */
  lemma EvaluateInRange(ctx: Ctx, p: Position)
    requires p.Valid() && IsColour(ctx.player)
    ensures MIN_VALUE <= Evaluate(p, ctx.player) <= MAX_VALUE
  {
    if p.phase != PHASE_GAME_OVER {
      EvaluateBounds(p, ctx.player);
    }
  }

  // ---- the searches a player asks for ----

  /** The index Math.random() in [0, 1) picks among n moves: the product,
      truncated toward zero. */
  function Pick(pick: real, n: nat): (k: int)
    requires 0.0 <= pick < 1.0
  {
    (pick * n as real).Floor
  }

  lemma PickInRange(pick: real, n: nat)
    requires 0.0 <= pick < 1.0 && n > 0
    ensures 0 <= Pick(pick, n) < n
  {
    assert 0.0 <= pick * n as real < n as real;
  }

  /** randomMove: one of the generated moves, chosen by `pick`, the draw of
      Math.random(); indexing an empty list fails. */
  function RandomMove(p: Position, pick: real): (r: Result<Move>)
    requires p.Valid() && 0.0 <= pick < 1.0
    ensures r.Ok? <==> GeneratedMoves(p) != []
    ensures r.Err? ==> r.error == IndexOutOfBounds
    ensures r.Ok? ==> r.value in GeneratedMoves(p)
  {
    var moves := GeneratedMoves(p);
    if moves == [] then Err(IndexOutOfBounds)
    else
      PickInRange(pick, |moves|);
      Ok(moves[Pick(pick, |moves|)])
  }

  /** A random move is a legal move of p. */
  lemma RandomMoveLegal(p: Position, pick: real)
    requires p.Valid() && 0.0 <= pick < 1.0
    ensures RandomMove(p, pick).Ok? ==> Legal(p, RandomMove(p, pick).value)
  {
    var r := RandomMove(p, pick);
    if r.Ok? {
      GeneratedMovesExact(p, r.value);
    }
  }

  /** depthSearch: a negative depth is refused; depth 0 plays a random
      move; otherwise maxValue searches to that depth from the root without
      a time limit, and the answer is the first move of the line found, or
      null when there is none. */
  function DepthSearch(p: Position, depth: int, pick: real): (r: Result<Option<Move>>)
    requires p.Valid() && 0.0 <= pick < 1.0
  {
    if depth < 0 then Err(IllegalArgument)
    else if depth == 0 then
      var m :- RandomMove(p, pick);
      Ok(Some(m))
    else
      var best :- MaxValue(Ctx(p.active, depth, false, 0), p, 0, MIN_VALUE, MAX_VALUE, 0);
      if best.line == [] then Ok(None) else Ok(Some(best.line[0]))
  }

  /** What depthSearch promises: a negative depth fails with
      IllegalArgument, a position without moves fails with
      IndexOutOfBounds, and any other answer is a legal move of p: a search
      without a time limit always finds a line. */
  lemma DepthSearchMove(p: Position, depth: int, pick: real)
    requires p.Valid() && 0.0 <= pick < 1.0
    ensures depth < 0 ==> DepthSearch(p, depth, pick) == Err(IllegalArgument)
    ensures depth >= 0 && GeneratedMoves(p) == [] ==> DepthSearch(p, depth, pick) == Err(IndexOutOfBounds)
    ensures DepthSearch(p, depth, pick).Ok? ==>
      var m := DepthSearch(p, depth, pick).value;
      m.Some? && m.value in GeneratedMoves(p) && Legal(p, m.value)
  {
    if depth == 0 {
      RandomMoveLegal(p, pick);
    } else if depth > 0 {
      MaxValueSound(Ctx(p.active, depth, false, 0), p, 0, MIN_VALUE, MAX_VALUE, 0);
      var best := MaxValue(Ctx(p.active, depth, false, 0), p, 0, MIN_VALUE, MAX_VALUE, 0);
      if best.Ok? && best.value.line != [] {
        GeneratedMovesExact(p, best.value.line[0]);
      }
    }
  }

  /** timeSearch: a limit outside 1 to 99999 seconds is refused; otherwise
      iterative deepening from depth 1 until the clock runs out. */
  function TimeSearch(p: Position, seconds: int, expiry: nat): (r: Result<Move>)
    requires p.Valid()
  {
    if seconds < 1 || 100000 <= seconds then Err(IllegalArgument)
    else Deepen(p, expiry, 1, None, 0)
  }

  /** One round of the deepening loop at depth `limit`, with the best node
      so far (null before the first round ends). The loop looks at the clock
      and stops when time is out or the depth reaches Byte.MAX_VALUE.
      Otherwise it searches to `limit`; a search the clock cut short
      replaces the best only when its value is strictly greater (comparing
      with a null best fails), a completed one replaces it always, and a
      best worth a win ends the loop. */
  function Deepen(p: Position, expiry: nat, limit: int, best: Option<Scored>, ticks: nat): Result<Move>
    requires p.Valid() && 1 <= limit <= DEPTH_CAP
    decreases DEPTH_CAP - limit
  {
    var ctx := Ctx(p.active, limit, true, expiry);
    var look := TimeOut(ctx, ticks);
    if look.expired || limit >= DEPTH_CAP then Finish(best)
    else
      var candidate :- MaxValue(ctx, p, 0, MIN_VALUE, MAX_VALUE, look.ticks);
      var after := TimeOut(ctx, candidate.ticks);
      var best' :-
        if !after.expired then Ok(candidate)
        else if best.None? then Err(NullPointer)
        else if best.value.value < candidate.value then Ok(candidate)
        else Ok(best.value);
      if best'.value == MAX_VALUE then Finish(Some(best'))
      else Deepen(p, expiry, limit + 1, Some(best'), after.ticks)
  }

  /** The move timeSearch answers: the first of the best node's line;
      a null best node or an empty line fails. */
  function Finish(best: Option<Scored>): (r: Result<Move>)
    ensures r.Ok? <==> best.Some? && best.value.line != []
    ensures r.Err? ==> r.error == NullPointer
  {
    if best.None? || best.value.line == [] then Err(NullPointer) else Ok(best.value.line[0])
  }

  /** A best node whose line, when present, starts with a generated move. */
  ghost predicate FromRoot(p: Position, best: Option<Scored>)
    requires p.Valid()
  {
    best.Some? && best.value.line != [] ==> best.value.line[0] in GeneratedMoves(p)
  }

  /** A round of deepening ends with a node whose line, when present,
      starts with a generated move. */
  lemma RootLine(ctx: Ctx, p: Position, ticks: nat)
    requires p.Valid() && 0 < ctx.depthLimit && IsColour(ctx.player)
    ensures var r := MaxValue(ctx, p, 0, MIN_VALUE, MAX_VALUE, ticks);
      r.Ok? ==> FromRoot(p, Some(r.value))
  {
    MaxValueSound(ctx, p, 0, MIN_VALUE, MAX_VALUE, ticks);
  }

  /** Every round keeps a best node whose line starts with a generated
      move, so the answer is one. */
  lemma {:induction false} DeepenFromRoot(p: Position, expiry: nat, limit: int, best: Option<Scored>, ticks: nat)
    requires p.Valid() && 1 <= limit <= DEPTH_CAP && FromRoot(p, best)
    ensures Deepen(p, expiry, limit, best, ticks).Ok? ==> Deepen(p, expiry, limit, best, ticks).value in GeneratedMoves(p)
  {
    DeepenAnswer(p, expiry, limit, best, ticks, Deepen(p, expiry, limit, best, ticks));
  }

  /** DeepenFromRoot for a given answer r of the deepening from `limit`. */
  lemma {:induction false} DeepenAnswer(p: Position, expiry: nat, limit: int, best: Option<Scored>, ticks: nat, r: Result<Move>)
    requires p.Valid() && 1 <= limit <= DEPTH_CAP && FromRoot(p, best)
    requires r == Deepen(p, expiry, limit, best, ticks)
    ensures r.Ok? ==> r.value in GeneratedMoves(p)
    decreases DEPTH_CAP - limit
  {
    var stop, best', ticks' := DeepenRound(p, expiry, limit, best, ticks);
    if !stop {
      DeepenAnswer(p, expiry, limit + 1, best', ticks', r);
    }
  }

  /** One round of deepening either settles the answer as the first move of
      a best node, or fails, or hands the next round a best node; the best
      node's line always starts with a generated move. */
  lemma DeepenRound(p: Position, expiry: nat, limit: int, best: Option<Scored>, ticks: nat)
    returns (stop: bool, best': Option<Scored>, ticks': nat)
    requires p.Valid() && 1 <= limit <= DEPTH_CAP && FromRoot(p, best)
    ensures FromRoot(p, best')
    ensures stop ==> Deepen(p, expiry, limit, best, ticks).Err? || Deepen(p, expiry, limit, best, ticks) == Finish(best')
    ensures !stop ==> limit < DEPTH_CAP && Deepen(p, expiry, limit, best, ticks) == Deepen(p, expiry, limit + 1, best', ticks')
  {
    var ctx := Ctx(p.active, limit, true, expiry);
    var look := TimeOut(ctx, ticks);
    stop, best', ticks' := true, best, ticks;
    if !look.expired && limit < DEPTH_CAP {
      RootLine(ctx, p, look.ticks);
      var candidate := MaxValue(ctx, p, 0, MIN_VALUE, MAX_VALUE, look.ticks);
      if candidate.Ok? {
        var after := TimeOut(ctx, candidate.value.ticks);
        if !after.expired || best.Some? {
          var b :=
            if !after.expired then candidate.value
            else if best.value.value < candidate.value.value then candidate.value
            else best.value;
          stop, best', ticks' := b.value == MAX_VALUE, Some(b), after.ticks;
        }
      }
    }
  }

  /** What timeSearch promises: a limit out of range fails with
      IllegalArgument, and any answer is a legal move of p. */
  lemma TimeSearchMove(p: Position, seconds: int, expiry: nat)
    requires p.Valid()
    ensures seconds < 1 || 100000 <= seconds ==> TimeSearch(p, seconds, expiry) == Err(IllegalArgument)
    ensures TimeSearch(p, seconds, expiry).Ok? ==>
      TimeSearch(p, seconds, expiry).value in GeneratedMoves(p) && Legal(p, TimeSearch(p, seconds, expiry).value)
  {
    if 1 <= seconds < 100000 {
      DeepenFromRoot(p, expiry, 1, None, 0);
      var r := TimeSearch(p, seconds, expiry);
      if r.Ok? {
        GeneratedMovesExact(p, r.value);
      }
    }
  }

  /** A deadline that passes before the first round of deepening ends makes
      timeSearch fail: either the loop stops at its first look with no best,
      or the depth-1 search is cut short and its result is compared with the
      null best. The second case covers every deadline that the depth-1
      search's own looks reach. */
  lemma TimeSearchEarlyDeadline(p: Position, seconds: int, expiry: nat)
    requires p.Valid()
    requires expiry == 0 ||
      var c := MaxValue(Ctx(p.active, 1, true, expiry), p, 0, MIN_VALUE, MAX_VALUE, 1);
      c.Ok? ==> c.value.ticks >= expiry
    ensures TimeSearch(p, seconds, expiry).Err?
  {
    MaxValueRange(Ctx(p.active, 1, true, expiry), p, 0, MIN_VALUE, MAX_VALUE, 1);
  }
}
