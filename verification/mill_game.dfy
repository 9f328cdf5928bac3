/**
 * The game object: phase, player to move, hands and board held in fields that
 * makeMove, undo and redo update in place, with the undo and redo stacks as
 * sequences of position snapshots. Every state change is proved to be the
 * matching transition of module GameRules applied to the old state.
 */
module Mill {
  import opened Wrappers
  import opened BoardInfo
  import opened Moves
  import opened BoardRules
  import opened Positions
  import opened Legality
  import opened Board
  import GameRules

  class MillGame {
    var gameState: int
    var activePlayer: int
    var whitePiecesInHand: int
    var blackPiecesInHand: int
    var board: MillBoard
    var history: seq<Position>
    var future: seq<Position>

    /** The object invariant: a well-formed board and a reachable-looking
        position, with well-formed snapshots on both stacks. */
    ghost predicate Valid()
      reads this, board, board.squares
    {
      board.Valid() && State().Valid()
    }

    /** The live position as a value. */
    function Pos(): Position
      reads this, board, board.squares
    {
      Position(gameState, activePlayer, whitePiecesInHand, blackPiecesInHand, board.Cells())
    }

    /** The live position with both stacks. */
    function State(): GameRules.Game
      reads this, board, board.squares
    {
      GameRules.Game(Pos(), history, future)
    }

    /** A new game. */
    constructor ()
      ensures Valid() && State() == GameRules.NewGame()
      ensures fresh(board) && fresh(board.squares)
    {
      board := new MillBoard();
      new;
      NewGame();
    }

    /** Puts this game back to its start: placement, White to move, nine
        pieces in each hand, a new empty board and empty stacks. */
    method NewGame()
      modifies this
      ensures Valid() && State() == GameRules.NewGame()
      ensures fresh(board) && fresh(board.squares)
    {
      gameState := PHASE_BEGINNING;
      activePlayer := WHITE_PLAYER;
      whitePiecesInHand := PIECES_IN_HAND;
      blackPiecesInHand := PIECES_IN_HAND;
      board := new MillBoard();
      history := [];
      future := [];
      assert Pos() == InitialPosition();
    }

    /** The turn number: one more than the moves that can be undone. */
    function GetTurnNumber(): (n: int)
      reads this, board, board.squares
      ensures n == GameRules.TurnNumber(State())
      ensures n == 1 <==> !UndoIsPossible()
    {
      |history| + 1
    }

    /** An independent copy of the position, with a board of its own and
        empty stacks. */
    method Clone() returns (copy: MillGame)
      requires Valid()
      ensures fresh(copy) && fresh(copy.board) && fresh(copy.board.squares)
      ensures copy.Valid() && copy.State() == GameRules.Game(Pos(), [], [])
    {
      copy := new MillGame();
      copy.gameState := gameState;
      copy.activePlayer := activePlayer;
      copy.whitePiecesInHand := whitePiecesInHand;
      copy.blackPiecesInHand := blackPiecesInHand;
      copy.board := board.Clone();
    }

    /** Goes back to the position before the last move; the live position is
        saved for redo. Refused with IllegalState when nothing can be undone. */
    method Undo() returns (r: Outcome)
      requires Valid()
      modifies this
      ensures Valid()
      ensures r.Pass? <==> GameRules.Undo(old(State())).Ok?
      ensures r.Pass? ==> State() == GameRules.Undo(old(State())).value && fresh(board)
      ensures r.Fail? ==> r.error == IllegalState && State() == old(State()) && board == old(board)
    {
      if history == [] {
        return Fail(IllegalState);
      }
      future := future + [Pos()];
      var n := |history| - 1;
      var restored := history[n];
      history := history[..n];
      RestoreGame(restored);
      return Pass;
    }

    /** Replays the last undone position; the live position is saved for
        undo. Refused with IllegalState when nothing has been undone since the
        last move. */
    method Redo() returns (r: Outcome)
      requires Valid()
      modifies this
      ensures Valid()
      ensures r.Pass? <==> GameRules.Redo(old(State())).Ok?
      ensures r.Pass? ==> State() == GameRules.Redo(old(State())).value && fresh(board)
      ensures r.Fail? ==> r.error == IllegalState && State() == old(State()) && board == old(board)
    {
      if future == [] {
        return Fail(IllegalState);
      }
      history := history + [Pos()];
      var n := |future| - 1;
      var restored := future[n];
      future := future[..n];
      RestoreGame(restored);
      return Pass;
    }

    /** Makes a saved position live on a board object of its own; the stacks
        are left alone. */
    method RestoreGame(restored: Position)
      requires restored.Valid()
      modifies this
      ensures fresh(board) && board.Valid() && Pos() == restored
      ensures history == old(history) && future == old(future)
    {
      gameState := restored.phase;
      activePlayer := restored.active;
      whitePiecesInHand := restored.whiteHand;
      blackPiecesInHand := restored.blackHand;
      board := new MillBoard.FromCells(restored.board);
    }

    /** Whether undo would be accepted. */
    function UndoIsPossible(): (b: bool)
      reads this, board, board.squares
      ensures b <==> GameRules.Undo(State()).Ok?
    {
      |history| > 0
    }

    /** Whether redo would be accepted. */
    function RedoIsPossible(): (b: bool)
      reads this, board, board.squares
      ensures b <==> GameRules.Redo(State()).Ok?
    {
      |future| > 0
    }

    /** A copy of the board that later moves do not touch. */
    method GetMillBoard() returns (copy: MillBoard)
      requires Valid()
      ensures fresh(copy) && fresh(copy.squares)
      ensures copy.Valid() && copy.Cells() == board.Cells()
    {
      copy := board.Clone();
    }

    function GetBlackPiecesInHand(): (n: int)
      requires Valid()
      reads this, board, board.squares
      ensures 0 <= n <= PIECES_IN_HAND && n == Pos().Hand(BLACK_PLAYER)
    {
      blackPiecesInHand
    }

    function GetWhitePiecesInHand(): (n: int)
      requires Valid()
      reads this, board, board.squares
      ensures 0 <= n <= PIECES_IN_HAND && n == Pos().Hand(WHITE_PLAYER)
    {
      whitePiecesInHand
    }

    /** The player to move, or once the game is over the winner. */
    function GetActivePlayer(): (player: int)
      requires Valid()
      reads this, board, board.squares
      ensures IsColour(player) && player == Pos().active
    {
      activePlayer
    }

    function GetGameState(): (phase: int)
      requires Valid()
      reads this, board, board.squares
      ensures PHASE_BEGINNING <= phase <= PHASE_GAME_OVER && phase == Pos().phase
    {
      gameState
    }

    /** The opponent of the player to move. */
    function GetOpponent(): (player: int)
      reads this
      ensures IsColour(player) && player != activePlayer
      ensures IsColour(activePlayer) ==> Opponent(player) == activePlayer
    {
      if activePlayer == WHITE_PLAYER then BLACK_PLAYER else WHITE_PLAYER
    }

    /** Plays `m` for the player to move; makeMove(move) is the call with undo
        enabled. An illegal move is refused with IllegalArgument and changes
        nothing. Otherwise the old position is saved for undo (or the undo
        stack is emptied), the redo stack is emptied and the position becomes
        what GameRules.Step gives; the result says whether the game ended. */
    method MakeMove(m: Move, undoEnabled: bool) returns (r: Result<bool>)
      requires Valid()
      modifies this, board.squares
      ensures Valid() && board == old(board)
      ensures r.Ok? <==> GameRules.MakeMove(old(State()), m, undoEnabled).Ok?
      ensures r.Err? ==> r.error == IllegalArgument && State() == old(State())
      ensures r.Ok? ==> GameRules.MakeMove(old(State()), m, undoEnabled).value == (State(), r.value)
    {
      if !Legal(Pos(), m) {
        return Err(IllegalArgument);
      }
      if undoEnabled {
        history := history + [Pos()];
      } else {
        history := [];
      }
      future := [];
      ghost var p := Pos();
      GameRules.LegalCells(p, m);
      var over;
      if gameState == PHASE_BEGINNING {
        over := Place(m);
      } else {
        // MIDGAME or ENDGAME: a legal move is never played in GAME_OVER.
        over := Shift(m);
      }
      assert GameRules.Step(p, m) == GameRules.Played(Pos(), over);
      return Ok(over);
    }

    /** The placement half of makeMove: the hand of the player to move
        shrinks, the piece is placed and a capture cleared; phase and player
        to move then become what GameRules.AfterPlacement gives. */
    method Place(m: Move) returns (over: bool)
      requires board.Valid() && IsColour(activePlayer) && gameState == PHASE_BEGINNING
      requires board.Cells()[m.to] == EMPTY
      modifies this, board.squares
      ensures board == old(board) && board.Valid()
      ensures history == old(history) && future == old(future)
      ensures board.Cells() == GameRules.PlaceCells(old(board.Cells()), m, old(activePlayer))
      ensures whitePiecesInHand == old(whitePiecesInHand) - (if old(activePlayer) == WHITE_PLAYER then 1 else 0)
      ensures blackPiecesInHand == old(blackPiecesInHand) - (if old(activePlayer) == BLACK_PLAYER then 1 else 0)
      ensures GameRules.AfterPlacement(old(activePlayer), whitePiecesInHand, blackPiecesInHand, board.Cells())
              == GameRules.Played(Pos(), over)
    {
      if activePlayer == WHITE_PLAYER {
        whitePiecesInHand := whitePiecesInHand - 1;
        var _ := board.SetPiece(m.to, WHITE);
      } else {
        blackPiecesInHand := blackPiecesInHand - 1;
        var _ := board.SetPiece(m.to, BLACK);
      }
      if m.remove != NOWHERE {
        var _ := board.RemovePiece(m.remove);
      }
      if whitePiecesInHand == 0 && blackPiecesInHand == 0 {
        gameState := PHASE_MIDGAME;
        var moverBeaten := IsBeaten(activePlayer, true);
        if moverBeaten {
          gameState := PHASE_GAME_OVER;
          activePlayer := GetOpponent();
          return true;
        }
        var opponentBeaten := IsBeaten(GetOpponent(), true);
        if opponentBeaten {
          gameState := PHASE_GAME_OVER;
          return true;
        }
      }
      activePlayer := GetOpponent();
      return false;
    }

    /** The movement half of makeMove: the piece moves and a capture is
        cleared; phase and player to move then become what
        GameRules.AfterMovement gives. */
    method Shift(m: Move) returns (over: bool)
      requires board.Valid() && IsColour(activePlayer)
      requires gameState == PHASE_MIDGAME || gameState == PHASE_ENDGAME
      requires whitePiecesInHand == 0 && blackPiecesInHand == 0
      requires m.from != NOWHERE && board.Cells()[m.from] == activePlayer && board.Cells()[m.to] == EMPTY
      modifies this, board.squares
      ensures board == old(board) && board.Valid()
      ensures history == old(history) && future == old(future)
      ensures board.Cells() == GameRules.MoveCells(old(board.Cells()), m)
      ensures GameRules.AfterMovement(old(gameState), old(activePlayer), board.Cells())
              == GameRules.Played(Pos(), over)
    {
      var _ := board.MovePiece(m.from, m.to);
      if m.remove != NOWHERE {
        var _ := board.RemovePiece(m.remove);
      }
      over := JudgeMovement();
    }

    /** The end of makeMove's movement branch, on the board after the move:
        phase and player to move become what GameRules.AfterMovement gives. */
    method JudgeMovement() returns (over: bool)
      requires board.Valid() && IsColour(activePlayer)
      requires gameState == PHASE_MIDGAME || gameState == PHASE_ENDGAME
      requires whitePiecesInHand == 0 && blackPiecesInHand == 0
      modifies this
      ensures board == old(board) && history == old(history) && future == old(future)
      ensures GameRules.AfterMovement(old(gameState), old(activePlayer), board.Cells())
              == GameRules.Played(Pos(), over)
    {
      var whites := PieceCount(WHITE);
      var blacks := PieceCount(BLACK);
      if whites == 3 || blacks == 3 {
        gameState := PHASE_ENDGAME;
      }
      var opponentBeaten := IsBeaten(GetOpponent(), gameState == PHASE_MIDGAME);
      if opponentBeaten {
        gameState := PHASE_GAME_OVER;
        return true;
      }
      var moverBeaten := IsBeaten(activePlayer, gameState == PHASE_MIDGAME);
      if moverBeaten {
        gameState := PHASE_GAME_OVER;
        activePlayer := GetOpponent();
        return true;
      }
      activePlayer := GetOpponent();
      return false;
    }

    /** getColouredSquares(color).length: the pieces of `color` on the board. */
    method PieceCount(color: int) returns (n: int)
      requires board.Valid() && IsColour(color)
      ensures n == Count(board.Cells(), color)
    {
      var squares := board.GetColouredSquares(color);
      n := squares.value.Length;
    }

    /** The loss test makeMove applies to `color`: all its pieces jammed (only
        when the jam rule applies) or fewer than three pieces. */
    method IsBeaten(color: int, jamRule: bool) returns (beaten: bool)
      requires board.Valid() && IsColour(color)
      ensures beaten == GameRules.Beaten(board.Cells(), color, jamRule)
    {
      var jammed := false;
      if jamRule {
        var allJammed := board.AllPiecesJammed(color);
        jammed := allJammed.value;
      }
      var pieces := PieceCount(color);
      beaten := jammed || pieces < 3;
    }

    /** Sets the position directly, sharing the given board object, and leaves
        the stacks alone; nothing is checked, so the game is well formed
        afterwards exactly when the position given is. */
    method GenerateMillGame(newBoard: MillBoard, newActivePlayer: int, newGameState: int,
                            newWhitePiecesInHand: int, newBlackPiecesInHand: int)
      requires Valid() && newBoard.Valid()
      modifies this
      ensures board == newBoard && history == old(history) && future == old(future)
      ensures Pos() == Position(newGameState, newActivePlayer, newWhitePiecesInHand,
                                newBlackPiecesInHand, newBoard.Cells())
      ensures Valid() <==> Pos().Valid()
    {
      board := newBoard;
      activePlayer := newActivePlayer;
      gameState := newGameState;
      whitePiecesInHand := newWhitePiecesInHand;
      blackPiecesInHand := newBlackPiecesInHand;
    }
  }
}
