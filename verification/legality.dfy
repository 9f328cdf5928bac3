/**
 * The legality rule of a move in a position, as LegalMoves.legal decides it
 * on a copy of the game's board.
 */
module Legality {
  import opened BoardInfo
  import opened Moves
  import opened BoardRules
  import opened Positions

  /** A capture of the piece on r is allowed: it is the opponent's, and it is
      not in a mill unless every opponent piece is. */
  predicate CaptureAllowed(p: Position, r: int)
    requires p.Valid() && IsSquare(r)
  {
    var opponent := Opponent(p.active);
    p.board[r] == opponent && (!IsPartOfMill(p.board, r) || AllInMills(p.board, opponent))
  }

  /** legal / isLegalMove: the target must be empty and the game running; the
      phase decides where the piece may come from; a move that closes a mill
      must capture, and one that does not must not. */
  predicate Legal(p: Position, m: Move)
    requires p.Valid()
  {
    var b := p.board;
    if b[m.to] != EMPTY then false
    else if p.phase == PHASE_GAME_OVER then false
    else if p.phase == PHASE_BEGINNING && m.from != NOWHERE then false
    else if p.phase == PHASE_MIDGAME &&
            (m.from == NOWHERE || b[m.from] != p.active || !Adjacent(m.from, m.to)) then false
    else if p.phase == PHASE_ENDGAME && (m.from == NOWHERE || b[m.from] != p.active) then false
    else if m.remove == NOWHERE then !MillFormed(b, m, p.active)
    else
      b[m.remove] == Opponent(p.active) && MillFormed(b, m, p.active) &&
      (!IsPartOfMill(b, m.remove) || AllInMills(b, Opponent(p.active)))
  }

  /** Where the piece may come from in the current phase. */
  predicate PhaseAllows(p: Position, m: Move)
    requires p.Valid()
  {
    && p.phase != PHASE_GAME_OVER
    && (p.phase == PHASE_BEGINNING ==> m.from == NOWHERE)
    && (p.phase == PHASE_MIDGAME ==>
          m.from != NOWHERE && p.board[m.from] == p.active && Adjacent(m.from, m.to))
    && (p.phase == PHASE_ENDGAME ==> m.from != NOWHERE && p.board[m.from] == p.active)
  }

  /** What a move closing a mill, or not closing one, must do about captures. */
  predicate CaptureRuleHolds(p: Position, m: Move)
    requires p.Valid()
  {
    if MillFormed(p.board, m, p.active) then m.remove != NOWHERE && CaptureAllowed(p, m.remove)
    else m.remove == NOWHERE
  }

  /** Legality is exactly: an empty target, a phase that allows the source
      square, and the capture rule. In particular a move in GAME_OVER, or onto
      an occupied square, is never legal. */
  lemma LegalCharacterisation(p: Position, m: Move)
    requires p.Valid()
    ensures Legal(p, m) <==> p.board[m.to] == EMPTY && PhaseAllows(p, m) && CaptureRuleHolds(p, m)
    ensures p.phase == PHASE_GAME_OVER ==> !Legal(p, m)
    ensures p.board[m.to] != EMPTY ==> !Legal(p, m)
  {
  }

  /** Closing a mill makes a capture compulsory, and a capture is legal only
      with a closed mill. */
  lemma MillForcesCapture(p: Position, m: Move)
    requires p.Valid() && Legal(p, m)
    ensures m.remove != NOWHERE <==> MillFormed(p.board, m, p.active)
    ensures m.remove != NOWHERE ==> p.board[m.remove] == Opponent(p.active)
  {
  }
}
