/**
 * The game's state machine on values: what one move does to a position, and
 * the game record of a position with its undo and redo stacks. The class
 * MillGame carries out the same transitions in place.
 */
module GameRules {
  import opened Wrappers
  import opened BoardInfo
  import opened Moves
  import opened BoardRules
  import opened Positions
  import opened Legality

  /** The position after a move, and whether the move ended the game. */
  datatype Played = Played(next: Position, over: bool)

  /** The cells after placing for `mover` on `to`, then clearing `remove` if set. */
  function PlaceCells(b: seq<int>, m: Move, mover: int): seq<int>
    requires |b| == SQUARES_ON_BOARD
  {
    var placed := b[m.to := mover];
    if m.remove != NOWHERE then placed[m.remove := EMPTY] else placed
  }

  /** The cells after sliding or flying FROM to TO, then clearing `remove` if set. */
  function MoveCells(b: seq<int>, m: Move): seq<int>
    requires |b| == SQUARES_ON_BOARD && m.from != NOWHERE
  {
    var moved := b[m.to := b[m.from]][m.from := EMPTY];
    if m.remove != NOWHERE then moved[m.remove := EMPTY] else moved
  }

  /** Whether `player` has lost by the jam rule (when it applies) or by having
      fewer than three pieces. */
  predicate Beaten(b: seq<int>, player: int, jamRuleApplies: bool)
    requires |b| == SQUARES_ON_BOARD
  {
    (jamRuleApplies && AllJammed(b, player)) || Count(b, player) < 3
  }

  /** One legal move. In placement the mover's hand shrinks and the piece lands
      on TO; in movement the piece goes FROM to TO; a capture clears REMOVE.
      What happens next is decided by AfterPlacement or AfterMovement. */
  function Step(p: Position, m: Move): (r: Played)
    requires p.Valid() && Legal(p, m)
    ensures r.next.Valid()
    ensures r.over <==> r.next.phase == PHASE_GAME_OVER
  {
    LegalCells(p, m);
    if p.phase == PHASE_BEGINNING then
      var wh := if p.active == WHITE_PLAYER then p.whiteHand - 1 else p.whiteHand;
      var bh := if p.active == BLACK_PLAYER then p.blackHand - 1 else p.blackHand;
      PlaceCounts(p, m);
      AfterPlacement(p.active, wh, bh, PlaceCells(p.board, m, p.active))
    else
      MoveCounts(p, m);
      AfterMovement(p.phase, p.active, MoveCells(p.board, m))
  }

  /** After a placement by `mover` leaving hands `wh` and `bh` and cells `b`:
      while a hand holds pieces the turn passes. When both hands are empty the
      game moves to MIDGAME, unless the mover (judged first) or the opponent is
      jammed or below three pieces, which ends the game with the other side as
      winner. */
  function AfterPlacement(mover: int, wh: int, bh: int, b: seq<int>): (r: Played)
    requires IsColour(mover) && |b| == SQUARES_ON_BOARD
    ensures r.next.board == b && r.next.whiteHand == wh && r.next.blackHand == bh
    ensures IsColour(r.next.active)
    ensures r.next.phase == PHASE_BEGINNING <==> wh != 0 || bh != 0
    ensures r.next.phase == PHASE_BEGINNING || r.next.phase == PHASE_MIDGAME || r.next.phase == PHASE_GAME_OVER
    ensures r.next.phase != PHASE_GAME_OVER ==> r.next.active == Opponent(mover)
    ensures r.over <==> r.next.phase == PHASE_GAME_OVER
  {
    var opponent := Opponent(mover);
    if wh == 0 && bh == 0 then
      if Beaten(b, mover, true) then Played(Position(PHASE_GAME_OVER, opponent, wh, bh, b), true)
      else if Beaten(b, opponent, true) then Played(Position(PHASE_GAME_OVER, mover, wh, bh, b), true)
      else Played(Position(PHASE_MIDGAME, opponent, wh, bh, b), false)
    else Played(Position(PHASE_BEGINNING, opponent, wh, bh, b), false)
  }

  /** After a movement by `mover` in `phase` leaving cells `b`: a colour with
      exactly three pieces puts the game in ENDGAME; then the opponent (judged
      first) or the mover may be beaten, by fewer than three pieces or, in
      MIDGAME only, by being jammed; otherwise the turn passes. */
  function AfterMovement(phase: int, mover: int, b: seq<int>): (r: Played)
    requires phase == PHASE_MIDGAME || phase == PHASE_ENDGAME
    requires IsColour(mover) && |b| == SQUARES_ON_BOARD
    ensures r.next.board == b && r.next.whiteHand == 0 && r.next.blackHand == 0
    ensures IsColour(r.next.active)
    ensures PHASE_MIDGAME <= r.next.phase <= PHASE_GAME_OVER
    ensures r.next.phase != PHASE_GAME_OVER ==> r.next.active == Opponent(mover)
    ensures r.over <==> r.next.phase == PHASE_GAME_OVER
  {
    var opponent := Opponent(mover);
    var after := if Count(b, WHITE) == 3 || Count(b, BLACK) == 3 then PHASE_ENDGAME else phase;
    if Beaten(b, opponent, after == PHASE_MIDGAME) then
      Played(Position(PHASE_GAME_OVER, mover, 0, 0, b), true)
    else if Beaten(b, mover, after == PHASE_MIDGAME) then
      Played(Position(PHASE_GAME_OVER, opponent, 0, 0, b), true)
    else Played(Position(after, opponent, 0, 0, b), false)
  }

  // ---- facts Step relies on ----

  /** A legal move targets an empty square; a captured square holds an
      opponent piece; a moved piece is the mover's. */
  lemma LegalCells(p: Position, m: Move)
    requires p.Valid() && Legal(p, m)
    ensures p.board[m.to] == EMPTY && p.phase != PHASE_GAME_OVER
    ensures m.remove != NOWHERE ==> p.board[m.remove] == Opponent(p.active) && m.remove != m.to
    ensures p.phase == PHASE_BEGINNING <==> m.from == NOWHERE
    ensures m.from != NOWHERE ==> p.board[m.from] == p.active && m.from != m.to
    ensures m.from != NOWHERE && m.remove != NOWHERE ==> m.remove != m.from
  {
    LegalCharacterisation(p, m);
  }

  lemma PlaceCounts(p: Position, m: Move)
    requires p.Valid() && Legal(p, m) && p.phase == PHASE_BEGINNING
    ensures ValidCells(PlaceCells(p.board, m, p.active))
    ensures Count(PlaceCells(p.board, m, p.active), p.active) == Count(p.board, p.active) + 1
    ensures Count(PlaceCells(p.board, m, p.active), Opponent(p.active)) ==
      Count(p.board, Opponent(p.active)) - (if m.remove != NOWHERE then 1 else 0)
  {
    LegalCells(p, m);
    var placed := p.board[m.to := p.active];
    CountUpdate(p.board, m.to, p.active, p.active);
    CountUpdate(p.board, m.to, p.active, Opponent(p.active));
    if m.remove != NOWHERE {
      CountUpdate(placed, m.remove, EMPTY, p.active);
      CountUpdate(placed, m.remove, EMPTY, Opponent(p.active));
    }
  }

  lemma MoveCounts(p: Position, m: Move)
    requires p.Valid() && Legal(p, m) && p.phase != PHASE_BEGINNING
    ensures m.from != NOWHERE
    ensures ValidCells(MoveCells(p.board, m))
    ensures Count(MoveCells(p.board, m), p.active) == Count(p.board, p.active)
    ensures Count(MoveCells(p.board, m), Opponent(p.active)) ==
      Count(p.board, Opponent(p.active)) - (if m.remove != NOWHERE then 1 else 0)
  {
    LegalCells(p, m);
    var b := p.board;
    var landed := b[m.to := b[m.from]];
    var moved := landed[m.from := EMPTY];
    CountUpdate(b, m.to, b[m.from], p.active);
    CountUpdate(b, m.to, b[m.from], Opponent(p.active));
    CountUpdate(landed, m.from, EMPTY, p.active);
    CountUpdate(landed, m.from, EMPTY, Opponent(p.active));
    if m.remove != NOWHERE {
      CountUpdate(moved, m.remove, EMPTY, p.active);
      CountUpdate(moved, m.remove, EMPTY, Opponent(p.active));
    }
  }

  // ---- what one move does ----

  /** Whether the jam rule applies when judging the board `b` reached from `p`:
      always at the end of placement, and in movement only while no colour is
      down to three pieces and the game was in MIDGAME. */
  predicate JamRule(p: Position, b: seq<int>)
    requires |b| == SQUARES_ON_BOARD
  {
    p.phase == PHASE_BEGINNING ||
    (p.phase == PHASE_MIDGAME && Count(b, WHITE) != 3 && Count(b, BLACK) != 3)
  }

  /** Placement: the mover's hand shrinks by one and only the mover's hand; the
      piece lands on TO, a captured square is cleared and no other cell changes;
      the game leaves placement exactly when both hands are empty. */
  lemma StepPlacement(p: Position, m: Move)
    requires p.Valid() && Legal(p, m) && p.phase == PHASE_BEGINNING
    ensures var q := Step(p, m).next;
      && q.Hand(p.active) == p.Hand(p.active) - 1
      && q.Hand(Opponent(p.active)) == p.Hand(Opponent(p.active))
      && q.board[m.to] == p.active
      && (m.remove != NOWHERE ==> q.board[m.remove] == EMPTY)
      && (forall s | 0 <= s < SQUARES_ON_BOARD && s != m.to && s != m.remove :: q.board[s] == p.board[s])
      && Count(q.board, p.active) == Count(p.board, p.active) + 1
      && (q.phase == PHASE_BEGINNING <==> q.whiteHand + q.blackHand > 0)
      && q.phase != PHASE_ENDGAME
  {
    LegalCells(p, m);
    PlaceCounts(p, m);
  }

  /** Movement: the mover's piece leaves FROM for TO, a captured square is
      cleared, no other cell changes, the mover keeps every piece and the
      opponent loses one exactly when the move captures. */
  lemma StepMovement(p: Position, m: Move)
    requires p.Valid() && Legal(p, m) && p.phase != PHASE_BEGINNING
    ensures m.from != NOWHERE
    ensures var q := Step(p, m).next;
      && q.board[m.to] == p.active && q.board[m.from] == EMPTY
      && (m.remove != NOWHERE ==> q.board[m.remove] == EMPTY)
      && (forall s | 0 <= s < SQUARES_ON_BOARD && s != m.to && s != m.from && s != m.remove ::
            q.board[s] == p.board[s])
      && Count(q.board, p.active) == Count(p.board, p.active)
      && Count(q.board, Opponent(p.active)) ==
           Count(p.board, Opponent(p.active)) - (if m.remove != NOWHERE then 1 else 0)
  {
    LegalCells(p, m);
    MoveCounts(p, m);
  }

  /** The phase only moves forward: placement never jumps to ENDGAME, MIDGAME
      never returns to placement, and ENDGAME ends only in GAME_OVER. MIDGAME
      turns into ENDGAME only when a colour is down to three pieces, and a
      movement game that goes on with a colour at three pieces is in ENDGAME. */
  lemma StepPhase(p: Position, m: Move)
    requires p.Valid() && Legal(p, m)
    ensures var q := Step(p, m).next;
      && (p.phase == PHASE_BEGINNING ==> q.phase != PHASE_ENDGAME)
      && (p.phase == PHASE_MIDGAME ==> q.phase != PHASE_BEGINNING)
      && (p.phase == PHASE_ENDGAME ==> q.phase == PHASE_ENDGAME || q.phase == PHASE_GAME_OVER)
      && (p.phase == PHASE_MIDGAME && q.phase == PHASE_ENDGAME ==>
            Count(q.board, WHITE) == 3 || Count(q.board, BLACK) == 3)
      && ((p.phase != PHASE_BEGINNING && q.phase != PHASE_GAME_OVER &&
             (Count(q.board, WHITE) == 3 || Count(q.board, BLACK) == 3)) ==> q.phase == PHASE_ENDGAME)
  {
    LegalCells(p, m);
    if p.phase == PHASE_BEGINNING {
      StepPlacement(p, m);
    } else {
      var b := MoveCells(p.board, m);
      assert Step(p, m).next.board == b;
    }
  }

  /** Who wins. When the game goes on, the turn passes, and once placement is
      over neither side is beaten. When it ends, the loser (the opponent of the player left as
      active) is beaten; in placement the mover is judged first, in movement
      the opponent is, so a move that beats both sides loses for the mover in
      placement and wins for the mover in movement. */
  lemma StepWinner(p: Position, m: Move)
    requires p.Valid() && Legal(p, m)
    ensures var r := Step(p, m); var q := r.next; var jam := JamRule(p, q.board);
      && (!r.over ==> q.active == Opponent(p.active))
      && (!r.over && q.phase != PHASE_BEGINNING ==>
            !Beaten(q.board, p.active, jam) && !Beaten(q.board, Opponent(p.active), jam))
      && (r.over ==> Beaten(q.board, Opponent(q.active), jam))
      && (r.over && p.phase == PHASE_BEGINNING ==>
            q.whiteHand == 0 && q.blackHand == 0 &&
            (q.active == p.active <==> !Beaten(q.board, p.active, jam)))
      && (r.over && p.phase != PHASE_BEGINNING ==>
            (q.active == p.active <==> Beaten(q.board, Opponent(p.active), jam)))
  {
    LegalCells(p, m);
    OpponentInvolution(p.active);
    var mover := p.active;
    if p.phase == PHASE_BEGINNING {
      var b := PlaceCells(p.board, m, mover);
      assert Step(p, m).next.board == b;
      assert JamRule(p, b);
    } else {
      var b := MoveCells(p.board, m);
      assert Step(p, m).next.board == b;
      assert JamRule(p, b) <==>
        p.phase == PHASE_MIDGAME && Count(b, WHITE) != 3 && Count(b, BLACK) != 3;
    }
  }

  // ---- the game record: a position with its undo and redo stacks ----

  /** The live position with the positions before it (`history`, most recent
      last) and the positions undone since the last move (`future`, most recent
      last). */
  datatype Game = Game(pos: Position, history: seq<Position>, future: seq<Position>)
  {
    predicate Valid()
    {
      && pos.Valid()
      && (forall i | 0 <= i < |history| :: history[i].Valid())
      && (forall i | 0 <= i < |future| :: future[i].Valid())
    }
  }

  /** A new game: the initial position and empty stacks. */
  function NewGame(): (g: Game)
    ensures g.Valid() && g.history == [] && g.future == []
    ensures g.pos == InitialPosition()
  {
    Game(InitialPosition(), [], [])
  }

  /** The turn number: one more than the moves that can be undone. */
  function TurnNumber(g: Game): (n: int)
    ensures n >= 1
    ensures n == 1 <==> g.history == []
  {
    |g.history| + 1
  }

  /** Playing `m`: refused with IllegalArgument unless legal; otherwise the
      position before the move is pushed onto the undo stack (or the stack is
      emptied when undo is not wanted), the redo stack is emptied and the
      position advances by Step. The flag says whether the game ended. */
  function MakeMove(g: Game, m: Move, undoEnabled: bool): (r: Result<(Game, bool)>)
    requires g.Valid()
    ensures r.Ok? <==> Legal(g.pos, m)
    ensures r.Err? ==> r.error == IllegalArgument
    ensures r.Ok? ==> var (h, over) := r.value;
      && h.Valid() && h.future == []
      && h.history == (if undoEnabled then g.history + [g.pos] else [])
      && (over <==> h.pos.phase == PHASE_GAME_OVER)
  {
    if !Legal(g.pos, m) then Err(IllegalArgument)
    else
      var st := Step(g.pos, m);
      Ok((Game(st.next, if undoEnabled then g.history + [g.pos] else [], []), st.over))
  }

  /** Undo: refused with IllegalState when there is nothing to undo; otherwise
      the live position goes onto the redo stack and the last saved position
      becomes live. */
  function Undo(g: Game): (r: Result<Game>)
    ensures r.Ok? <==> g.history != []
    ensures r.Err? ==> r.error == IllegalState
    ensures r.Ok? ==> |r.value.history| == |g.history| - 1 && |r.value.future| == |g.future| + 1
    ensures r.Ok? && g.Valid() ==> r.value.Valid()
  {
    if g.history == [] then Err(IllegalState)
    else
      var n := |g.history| - 1;
      Ok(Game(g.history[n], g.history[..n], g.future + [g.pos]))
  }

  /** Redo: refused with IllegalState when nothing has been undone since the
      last move; otherwise the live position goes onto the undo stack and the
      last undone position becomes live. */
  function Redo(g: Game): (r: Result<Game>)
    ensures r.Ok? <==> g.future != []
    ensures r.Err? ==> r.error == IllegalState
    ensures r.Ok? ==> |r.value.history| == |g.history| + 1 && |r.value.future| == |g.future| - 1
    ensures r.Ok? && g.Valid() ==> r.value.Valid()
  {
    if g.future == [] then Err(IllegalState)
    else
      var n := |g.future| - 1;
      Ok(Game(g.future[n], g.history + [g.pos], g.future[..n]))
  }

  /** Redo takes back an undo and undo takes back a redo. */
  lemma UndoRedoInverse(g: Game)
    ensures g.history != [] ==> Undo(g).Ok? && Redo(Undo(g).value) == Ok(g)
    ensures g.future != [] ==> Redo(g).Ok? && Undo(Redo(g).value) == Ok(g)
  {
    if g.history != [] {
      var n := |g.history| - 1;
      assert g.history[..n] + [g.history[n]] == g.history;
    }
    if g.future != [] {
      var n := |g.future| - 1;
      assert g.future[..n] + [g.future[n]] == g.future;
    }
  }

  /** Undoing a move played with undo enabled restores the position and the
      undo stack from before the move, and offers the move again for redo. */
  lemma UndoAfterMove(g: Game, m: Move)
    requires g.Valid() && Legal(g.pos, m)
    ensures var h := MakeMove(g, m, true).value.0;
      Undo(h) == Ok(Game(g.pos, g.history, [h.pos])) && Redo(Undo(h).value) == Ok(h)
  {
    var h := MakeMove(g, m, true).value.0;
    assert h.history[..|h.history| - 1] == g.history;
    UndoRedoInverse(h);
  }

  /** Plays `moves` in order with undo enabled; fails at the first illegal one. */
  function PlayAll(g: Game, moves: seq<Move>): (r: Result<Game>)
    requires g.Valid()
    ensures r.Ok? ==> r.value.Valid()
    decreases |moves|
  {
    if moves == [] then Ok(g)
    else
      match MakeMove(g, moves[0], true)
      case Err(e) => Err(e)
      case Ok((h, _)) => PlayAll(h, moves[1..])
  }

  /** Undoes `n` times; fails when the undo stack runs out. */
  function UndoTimes(g: Game, n: nat): (r: Result<Game>)
    ensures r.Ok? <==> n <= |g.history|
    ensures r.Ok? ==> |r.value.history| == |g.history| - n
    decreases n
  {
    if n == 0 then Ok(g)
    else
      match Undo(g)
      case Err(e) => Err(e)
      case Ok(h) => UndoTimes(h, n - 1)
  }

  /** Redoes `n` times; fails when the redo stack runs out. */
  function RedoTimes(g: Game, n: nat): (r: Result<Game>)
    ensures r.Ok? <==> n <= |g.future|
    ensures r.Ok? ==> |r.value.future| == |g.future| - n
    decreases n
  {
    if n == 0 then Ok(g)
    else
      match Redo(g)
      case Err(e) => Err(e)
      case Ok(h) => RedoTimes(h, n - 1)
  }

  /** Redoing n times after undoing n times gives back the game exactly,
      with its position, undo stack and redo stack. */
  lemma {:induction false} UndoRedoTimes(g: Game, n: nat)
    requires n <= |g.history|
    ensures UndoTimes(g, n).Ok? && RedoTimes(UndoTimes(g, n).value, n) == Ok(g)
    decreases n
  {
    if n > 0 {
      UndoTimesSplit(g, n - 1);
      UndoRedoInverse(UndoTimes(g, n - 1).value);
      UndoRedoTimes(g, n - 1);
    }
  }

  /** After any run of legal moves played with undo enabled, the undo stack has
      grown by one entry per move, undoing as many times brings back the
      starting position and undo stack, and redoing as many times after that
      brings back the game reached. */
  lemma {:induction false} UndoAllMoves(g: Game, moves: seq<Move>)
    requires g.Valid() && PlayAll(g, moves).Ok?
    ensures var h := PlayAll(g, moves).value;
      && |h.history| == |g.history| + |moves|
      && h.history[..|g.history|] == g.history
      && UndoTimes(h, |moves|).Ok?
      && UndoTimes(h, |moves|).value.pos == g.pos
      && UndoTimes(h, |moves|).value.history == g.history
      && RedoTimes(UndoTimes(h, |moves|).value, |moves|) == Ok(h)
    decreases |moves|
  {
    if moves != [] {
      var first := MakeMove(g, moves[0], true);
      assert first.Ok?;
      var g1 := first.value.0;
      assert g1.history == g.history + [g.pos];
      assert PlayAll(g, moves) == PlayAll(g1, moves[1..]);
      UndoAllMoves(g1, moves[1..]);
      var h := PlayAll(g1, moves[1..]).value;
      UndoTimesSplit(h, |moves| - 1);
      var back := UndoTimes(h, |moves| - 1).value;
      assert back.history == g.history + [g.pos];
      assert back.history[..|g.history|] == g.history;
      assert h.history[..|g.history|] == (h.history[..|g1.history|])[..|g.history|];
    }
    UndoRedoTimes(PlayAll(g, moves).value, |moves|);
  }

  /** Undoing n + 1 times is undoing n times and then once more. */
  lemma {:induction false} UndoTimesSplit(g: Game, n: nat)
    requires n + 1 <= |g.history|
    ensures UndoTimes(g, n + 1) == Undo(UndoTimes(g, n).value)
    decreases n
  {
    if n > 0 {
      UndoTimesSplit(Undo(g).value, n - 1);
    }
  }
}
