/**
 * A game position as a value: the phase, the player to move, the pieces still
 * in each hand and the 24 cells. MillGame keeps one as its live state and one
 * per entry of its undo and redo stacks.
 */
module Positions {
  import opened BoardInfo
  import opened BoardRules

  const PHASE_BEGINNING: int := 1
  const PHASE_MIDGAME: int := 2
  const PHASE_ENDGAME: int := 3
  const PHASE_GAME_OVER: int := 4

  const PIECES_IN_HAND: int := 9

  const BLACK_PLAYER: int := BLACK
  const WHITE_PLAYER: int := WHITE

  /** The other player; anything that is not WHITE counts as BLACK's side. */
  function Opponent(player: int): (r: int)
    ensures IsColour(r) && r != player
  {
    if player == WHITE_PLAYER then BLACK_PLAYER else WHITE_PLAYER
  }

  /** For the two colours, taking the opponent twice gives the player back. */
  lemma OpponentInvolution(player: int)
    requires IsColour(player)
    ensures Opponent(Opponent(player)) == player
  {
  }

  datatype Position = Position(phase: int, active: int, whiteHand: int, blackHand: int, board: seq<int>)
  {
    /** The pieces still in the hand of `player`. */
    function Hand(player: int): int
    {
      if player == WHITE_PLAYER then whiteHand else blackHand
    }

    /** The states a game can reach: a known phase and player, a well-formed
        board, no colour with more than nine pieces on board and in hand, and
        during placement White and Black taking turns with their hands (White,
        to move, holds as many as Black; Black, to move, one more than White). */
    predicate Valid()
    {
      && PHASE_BEGINNING <= phase <= PHASE_GAME_OVER
      && IsColour(active)
      && ValidCells(board)
      && 0 <= whiteHand && 0 <= blackHand
      && Count(board, WHITE) + whiteHand <= PIECES_IN_HAND
      && Count(board, BLACK) + blackHand <= PIECES_IN_HAND
      && (phase == PHASE_BEGINNING ==>
            (active == WHITE_PLAYER && whiteHand == blackHand && whiteHand >= 1) ||
            (active == BLACK_PLAYER && blackHand == whiteHand + 1))
      && (phase != PHASE_BEGINNING ==> whiteHand == 0 && blackHand == 0)
    }
  }

  /** The position of a new game: placement, White to move, nine pieces in
      each hand, an empty board. */
  function InitialPosition(): (p: Position)
    ensures p.Valid()
    ensures p.phase == PHASE_BEGINNING && p.active == WHITE_PLAYER
    ensures p.whiteHand == PIECES_IN_HAND && p.blackHand == PIECES_IN_HAND
    ensures forall i | 0 <= i < |p.board| :: p.board[i] == EMPTY
  {
    var b := EmptyCells();
    CountAbsent(b, WHITE);
    CountAbsent(b, BLACK);
    Position(PHASE_BEGINNING, WHITE_PLAYER, PIECES_IN_HAND, PIECES_IN_HAND, b)
  }
}
