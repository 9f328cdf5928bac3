# mill-ai in Dafny

A model of the rules engine and the game-playing search of mill-ai, a nine
men's morris program. The board has 24 squares on three nested squares. Each
side places nine pieces, then slides them to adjacent squares, and flies once
it is down to three. Closing a mill (three in a line) captures an opponent
piece, which may not sit in a mill unless all of them do. A side that is
jammed or has fewer than three pieces loses.

Modules, one per component of the program:

- `BoardInfo`: the constant tables, namely the neighbours of every square
  and the two mill lines through it. Proved: the table is symmetric, every
  square has two to four neighbours, and the lines are consistent triples.
- `Moves`: the (FROM, TO, REMOVE) move with its checked byte and int
  constructors, Java's byte narrowing, and `toString`.
- `BoardRules`, `Board`: the board queries as functions on the 24 cells,
  and the `MillBoard` class over an `array<int>` whose methods are proved
  against those functions (setPiece, removePiece, movePiece,
  getColouredSquares, createsNewMill, isPartOfMill, allPiecesInMills,
  allPiecesJammed).
- `Positions`, `Legality`, `GameRules`: a game position as a value, the
  legality rule of `LegalMoves.legal`, and what `makeMove` does, as the pure
  function `Step`. GameRules also holds undo/redo over stacks of snapshots.
  Proved: piece counts, the phase only advancing, who wins, undo and redo
  being inverse, and undoing a whole sequence of moves restoring the start.
- `Mill`: the `MillGame` class. Its fields are the live position, a
  `MillBoard` and the two stacks. Its methods are proved to change the state
  exactly as GameRules says.
- `Generation`, `Generators`, `Enumeration`, `Capacity`, `Projections`: the
  move generators.
  - The per-phase generators of `getAllLegalMoves` are loops filling a
    1000-slot array, proved equal to recursive list functions.
  - The brute-force `getAllLegalMoves2` is a triple loop over every
    (FROM, TO, REMOVE).
  - Both lists are strictly ascending. They coincide except in one ENDGAME
    case (below), and neither can overflow its buffer (at most 648 moves).
  - The FROM/TO/REMOVE square lists are distinct projections of the
    generated moves.
- `Ordering`: `compareMoves` with its square classes, and the in-place
  `quicksort` of `sortMoves`. It is proved to leave the moves in
  non-increasing order as a permutation of what was there.
- `Evaluation`: `evaluate`, with the short cast made explicit. Proved
  zero-sum, and in a live position strictly between a loss and a win.
- `Nodes`: the search tree node, with `PATH` and `VALUE` updated in place.
- `Minimax`, `Search`: alpha-beta search and iterative deepening.
  - `Minimax` states maxValue, minValue, depthSearch, timeSearch and
    randomMove as functions on values. It proves every answer sound: in
    range, with a playable line starting with a generated move. So
    depthSearch and timeSearch only ever answer legal moves.
  - `Search.MillAI` is the imperative searcher. Its fields are the side,
    the depth limit, the time flag and the clock. Its methods build `Node`
    objects and are proved to return exactly what the `Minimax` functions
    say.
  - The moves along a node's `PATH` links are tied to the function's line
    by the ghost predicate `Chain`, over the set of nodes the search
    created.

The wall clock is a counter of looks: each call of `timeOut` with a time
limit is one look, and the deadline has passed from look number `expiry` on.
A clock that can only move forward answers "not yet" some number of times
and "time out" ever after, so this covers every run of a clock that never
goes back.
`Math.random()` is a parameter `pick` in [0, 1).

## Model

| member | source | states |
|---|---|---|
| BoardInfo.GetNeighbours | src/BoardInfo.java:41-47 | a square off the board fails as the table lookup does (IndexOutOfBounds); otherwise a fresh array equal, entry by entry, to row `square` of the neighbour table |
| BoardInfo.CopyRow | src/BoardInfo.java:42-45 | the copy loop: a fresh array whose contents are the given table row |
| BoardInfo.GetMillLines | src/BoardInfo.java:130-137 | fails exactly off the board; otherwise a 2x2 value equal to the square's mill-line row: two disjoint pairs of distinct squares, neither containing the square |
| BoardInfo.NeighbourDegree | src/BoardInfo.java:24-31 | every square has two to four neighbours, all squares of the board, and is not its own neighbour |
| BoardInfo.NeighboursAscending | src/BoardInfo.java:24-31 | every row of the neighbour table is strictly ascending (no duplicates) |
| BoardInfo.NeighbourSymmetry | src/BoardInfo.java:24-31 | q is a neighbour of p exactly when p is a neighbour of q |
| BoardInfo.MillLinesShape | src/BoardInfo.java:55-79 | the two lines through p are two disjoint pairs of distinct board squares, neither containing p |
| BoardInfo.MillLinesTriples | src/BoardInfo.java:55-79 | the lines form consistent triples: if {a, b} completes a line of p, then {p, b} completes a line of a and {p, a} one of b |
| BoardInfo.Square5Fixture | src/BoardInfo.java:141-156 | the table's own test: the neighbours of 5 are 4 and 13, its lines are {3, 4} and {13, 20} |
| BoardInfo.TableRow | src/BoardInfo.java:24-79 | every row of both tables passes the row check (degree, ascending, symmetric entries, consistent disjoint lines) |
| Moves.NewMove | src/Move.java:47-58 | the byte constructor succeeds exactly when FROM and REMOVE are NOWHERE or a square and TO is a square, with exactly the given fields; otherwise IllegalArgument |
| Moves.ToByte | src/Move.java:63-65 | Java's `(byte)` narrowing: a value in -128..127 congruent to the argument modulo 256 |
| Moves.NewMoveFromInts | src/Move.java:63-65 | the int constructor accepts exactly the arguments whose byte narrowings pass the range check, and keeps the narrowed values |
| Moves.IntConstructorNarrows | src/Move.java:63-65 | inside the byte range both constructors agree; an argument off by a multiple of 256 is accepted as the wrapped value |
| Moves.ConstructorFixtures | src/Move.java:78-93 | the class's own test, through the int constructor it calls and through the byte one: (1,2,3) and (-1,2,-1) are moves with those fields, (7,-1,9) is rejected with IllegalArgument |
| Moves.IntString | src/Move.java:73-75 | Java's decimal rendering of an int: non-empty, without commas or parentheses |
| Moves.ToStringInjective | src/Move.java:73-75 | `toString` "(FROM,TO,REMOVE)" prints different moves differently |
| Moves.IntStringInjective | src/Move.java:73-75 | the decimal rendering of ints is injective |
| Moves.ToStringCapture | src/Move.java:73-75 | `toString` of (1,2,3) is "(1,2,3)" |
| Moves.ToStringPlacement | src/Move.java:73-75 | NOWHERE prints as -1: "(-1,2,-1)" |
| Moves.ToStringSlide | src/Move.java:73-75 | two-digit squares print in full: "(12,17,-1)" |
| Positions.Opponent | src/MillGame.java:362-368 | `getOpponent`: always a colour, never the given player |
| Positions.OpponentInvolution | src/MillGame.java:362-368 | for a colour, the opponent's opponent is the player |
| Positions.InitialPosition | src/MillGame.java:70-78 | the state `newGame` sets up: BEGINNING, White to move, nine pieces in each hand, all 24 squares empty, and a valid position |
| BoardRules.EmptyCells | src/MillBoard.java:45-47 | a new board: 24 cells, all EMPTY |
| BoardRules.SquaresBelowMeaning | src/MillBoard.java:136-157 | the scan of `getColouredSquares` lists exactly the squares holding the colour, strictly ascending |
| BoardRules.ColouredSquaresAre | src/MillBoard.java:136-157 | any strictly ascending list of exactly the squares holding c is the `getColouredSquares` answer |
| BoardRules.CreatesNewMill | src/MillBoard.java:193-219 | fails with IllegalArgument exactly for a non-colour or a FROM piece of another colour; otherwise true exactly when the move closes a mill |
| BoardRules.MillFormedMeaning | src/MillBoard.java:208-218 | a mill closes exactly when one of the two lines through TO has both other squares of the colour and neither of them is FROM |
| BoardRules.SlidingPieceNotCounted | src/MillBoard.java:208-215 | a mill closed by a move lies on a line that avoids the FROM square |
| BoardRules.PartOfMillMeaning | src/MillBoard.java:228-240 | an empty square is never in a mill; a piece is in a mill exactly when one of its lines has both other squares of its colour |
| BoardRules.FreePiece | src/MillBoard.java:272-283 | one piece of the colour with an empty neighbour means the colour is not jammed |
| BoardRules.JammedAlongList | src/MillBoard.java:272-283 | every coloured square jammed, checked along the ascending list, means the colour is jammed |
| BoardRules.CountUpdate | src/MillBoard.java:75-109 | writing one cell changes each colour's piece count by what left and what came in |
| BoardRules.CountPartition | src/MillBoard.java:36-47 | on a well-formed board the empty squares and the pieces of both colours make up the 24 squares |
| Board.MillBoard.constructor | src/MillBoard.java:45-47 | a new board owns a fresh array of 24 EMPTY squares |
| Board.MillBoard.FromCells | src/MillGame.java:142-150 | a board holding exactly the given cells, in a fresh array (how a restored snapshot's board comes back) |
| Board.MillBoard.Clone | src/MillBoard.java:54-60 | an equal copy in a fresh object with a fresh array, so it shares nothing with the original |
| Board.MillBoard.SetPiece | src/MillBoard.java:75-84 | succeeds exactly for a colour on an empty board square and then changes that square only; a non-colour fails with IllegalArgument first, a square off the board with IndexOutOfBounds, an occupied square with IllegalState, each leaving the board as it was |
| Board.MillBoard.RemovePiece | src/MillBoard.java:91-93 | empties the square whatever it held (so a second call changes nothing) and touches no other square; off the board it is IndexOutOfBounds |
| Board.MillBoard.MovePiece | src/MillBoard.java:105-109 | afterwards `to` holds what `from` held and `from` is empty, nothing else changes; an empty `from` fails with IllegalArgument (the colour check of setPiece comes first), an occupied `to` with IllegalState, and a failed call changes nothing |
| Board.MillBoard.Get | src/MillBoard.java:121-123 | the value of the square, one of EMPTY, BLACK, WHITE; IndexOutOfBounds off the board |
| Board.MillBoard.GetColouredSquares | src/MillBoard.java:136-157 | refuses any value but EMPTY, BLACK, WHITE with IllegalArgument; otherwise a fresh array listing exactly the squares holding that value, ascending |
| Board.MillBoard.AreNeighbours | src/MillBoard.java:169-177 | true exactly when the squares are adjacent; a first square off the board fails as the table lookup does |
| Board.MillBoard.CreatesNewMill | src/MillBoard.java:193-219 | the board's createsNewMill: refusals and answer as BoardRules.CreatesNewMill, on the current cells |
| Board.MillBoard.IsPartOfMill | src/MillBoard.java:228-240 | true exactly when the piece on the square completes one of its two lines; false on an empty square; IndexOutOfBounds off the board |
| Board.MillBoard.AllPiecesInMills | src/MillBoard.java:249-260 | refuses a non-colour; otherwise true exactly when every piece of the colour is part of a mill, which includes having no pieces |
| Board.MillBoard.AllPiecesJammed | src/MillBoard.java:272-283 | refuses a non-colour; otherwise true exactly when no piece of the colour has an empty neighbour |
| Board.MillBoard.PieceJammed | src/MillBoard.java:292-300 | true exactly when no neighbour of the square is empty |
| Board.MillBoard.ColouredSquaresOnBoard | src/MillBoard.java:136-157 | every entry of a coloured-squares answer is a board square holding that colour |
| Legality.MillForcesCapture | src/LegalMoves.java:72-86 | in a legal move, a capture is named exactly when the move closes a mill, and the captured piece is the opponent's |
| GameRules.Step | src/MillGame.java:282-350 | the successor of a legal move is a well-formed position, and the returned flag is true exactly when the game is over |
| GameRules.AfterPlacement | src/MillGame.java:300-320 | keeps board and hands; stays in BEGINNING exactly while a hand is non-empty; otherwise MIDGAME or GAME_OVER; when the game goes on the turn passes |
| GameRules.AfterMovement | src/MillGame.java:330-350 | keeps the board with empty hands; MIDGAME, ENDGAME or GAME_OVER; when the game goes on the turn passes; the flag is true exactly at GAME_OVER |
| GameRules.LegalCells | src/LegalMoves.java:38-86 | a legal move targets an empty square in a live game, captures an opponent piece distinct from TO, places exactly in BEGINNING, and moves one of the mover's own pieces off a square distinct from TO and REMOVE |
| GameRules.PlaceCounts | src/MillGame.java:282-298 | placing adds one piece for the mover and takes one from the opponent exactly when the move captures |
| GameRules.MoveCounts | src/MillGame.java:322-328 | a movement keeps the mover's count and takes one from the opponent exactly when the move captures |
| GameRules.StepPlacement | src/MillGame.java:282-320 | placement takes one piece from the mover's hand, puts it on TO, empties REMOVE, changes no other square, and leaves BEGINNING exactly when both hands are empty, never into ENDGAME |
| GameRules.StepMovement | src/MillGame.java:322-350 | movement puts the piece on TO, empties FROM and REMOVE, changes no other square, keeps both hands empty, and keeps the piece counts but for the capture |
| GameRules.StepPhase | src/MillGame.java:300-347 | the phase only advances: BEGINNING never goes to ENDGAME, ENDGAME stays or ends, and a movement game going on with a colour at three pieces is in ENDGAME |
| GameRules.StepWinner | src/MillGame.java:307-347 | while the game goes on the turn passes; at GAME_OVER the loser is beaten (jammed where the jam rule applies, or under three pieces) and the active player is the winner, the opponent being checked first in movement and the mover first in placement |
| GameRules.NewGame | src/MillGame.java:70-78 | a well-formed game at the initial position with empty undo and redo stacks |
| GameRules.TurnNumber | src/MillGame.java:85-87 | at least one, and one exactly when nothing can be undone |
| GameRules.MakeMove | src/MillGame.java:228-280 | succeeds exactly for a legal move, otherwise IllegalArgument; pushes the old position when undo is enabled, else clears history; always clears the redo stack; the flag says whether the game is over |
| GameRules.Undo | src/MillGame.java:115-121 | fails with IllegalState exactly when history is empty; otherwise moves one snapshot from history to future and keeps the game well-formed |
| GameRules.Redo | src/MillGame.java:133-139 | fails with IllegalState exactly when future is empty; otherwise moves one snapshot from future to history and keeps the game well-formed |
| GameRules.UndoRedoInverse | src/MillGame.java:115-139 | redo right after undo, and undo right after redo, give back the same game |
| GameRules.UndoAfterMove | src/MillGame.java:115-121 | undoing a move played with undo enabled restores the position and history from before it and offers the resulting position for redo |
| GameRules.PlayAll | src/MillGame.java:228-231 | playing a sequence of moves with undo enabled keeps the game well-formed |
| GameRules.UndoTimes | src/MillGame.java:115-121 | undoing n times succeeds exactly when n snapshots are on the undo stack, and takes n of them off |
| GameRules.RedoTimes | src/MillGame.java:133-139 | redoing n times succeeds exactly when n snapshots are on the redo stack, and takes n of them off |
| GameRules.UndoRedoTimes | src/MillGame.java:115-139 | redoing n times right after undoing n times gives back the same game, position and both stacks |
| GameRules.UndoAllMoves | src/MillGame.java:115-139 | after a sequence of moves with undo enabled, as many undos bring back the starting position and undo stack, and as many redos after them bring back the game the moves reached |
| GameRules.UndoTimesSplit | src/MillGame.java:115-121 | undoing n + 1 times is undoing n times and once more |
| Generation.CapturesBelow | src/LegalMoves.java:148-164 | the REMOVE loop keeps exactly the captures of opponent pieces below n that the capture rule allows, at most one per opponent piece |
| Generation.TargetMoves | src/LegalMoves.java:144-169 | for an empty TO, exactly the moves to it that obey the capture rule: the allowed captures when the move closes a mill, otherwise the move without capture; none for an occupied TO; at most nine |
| Generation.PlacementsBelow | src/LegalMoves.java:142-170 | the placements listed for TO below n are exactly the rule-abiding moves from NOWHERE to those squares |
| Generation.SlidesBelow | src/LegalMoves.java:187-217 | the slides from one piece to its first k neighbours, exactly the rule-abiding moves to those neighbours |
| Generation.SlidingBelow | src/LegalMoves.java:183-218 | the slides of the mover's pieces below n: exactly the rule-abiding moves from such a piece to an adjacent square, at most four targets per piece |
| Generation.SlidesFrom | src/LegalMoves.java:187-217 | the slides of one piece are exactly the rule-abiding moves to its adjacent squares |
| Generation.FlightsBelow | src/LegalMoves.java:239-266 | the flights of one piece to TO below n, exactly the rule-abiding moves to those squares |
| Generation.FlyingBelow | src/LegalMoves.java:235-267 | the flights of the mover's pieces below n: exactly the rule-abiding moves from such a piece to any square |
| Generation.GeneratedIncreasing | src/LegalMoves.java:117-269 | getAllLegalMoves lists its moves strictly ascending by (FROM, TO, REMOVE), so without repeats |
| Generation.CapturesIncreasing | src/LegalMoves.java:148-164 | the REMOVE loop's moves are strictly ascending |
| Generation.PlacementsIncreasing | src/LegalMoves.java:143-170 | the placements are strictly ascending |
| Generation.SlidingIncreasing | src/LegalMoves.java:183-218 | the slides are strictly ascending, although neighbours are visited in table order |
| Generation.FlyingIncreasing | src/LegalMoves.java:235-267 | the flights are strictly ascending |
| Generation.AllLegalMoves | src/LegalMoves.java:93-114 | the brute-force list holds exactly the legal moves, strictly ascending |
| Generation.LegalChoices | src/LegalMoves.java:93-108 | at most one legal move per usable FROM, empty TO and REMOVE among NOWHERE and the opponent's pieces |
| Generation.AllLegalMovesBound | src/LegalMoves.java:94 | never more than 648 legal moves, so the 1000-slot buffer cannot overflow |
| Generation.GeneratedMovesExact | src/LegalMoves.java:117-269 | every generated move is legal; a legal move is generated when it is a slide or the mover may fly; outside an ENDGAME with more than three pieces, generated exactly when legal |
| Generation.GeneratedMatchesBruteForce | src/LegalMoves.java:93-269 | outside that ENDGAME case getAllLegalMoves and getAllLegalMoves2 return the same list |
| Generation.GeneratedSameMembers | src/LegalMoves.java:93-269 | outside that ENDGAME case the two generators have the same members |
| Generation.GeneratedMovesBound | src/LegalMoves.java:129-131 | at most 648 generated moves, and none once the game is over |
| Generation.FlyingGap | src/LegalMoves.java:62-69 | in ENDGAME a mover with more than three pieces may fly by `legal`, yet `getAllLegalMoves_endgame` (lines 229-231) offers only slides: a flight 0 to 13 is legal but not generated |
| Generation.FlyingGapWitness | src/LegalMoves.java:229-231 | a concrete valid ENDGAME position with that legal, ungenerated flight |
| Generation.FlyingGapPosition | src/LegalMoves.java:229-231 | a valid ENDGAME position with White to move and four white pieces |
| Generators.AddTargetMoves | src/LegalMoves.java:144-169 | the moves stored for one TO are exactly TargetMoves, appended after the earlier ones |
| Generators.AddCaptures | src/LegalMoves.java:148-164 | the REMOVE loop appends exactly the allowed captures, ascending |
| Generators.GetAllLegalMovesBeginning | src/LegalMoves.java:135-172 | a fresh array equal to the placement list |
| Generators.GetAllLegalMovesMiddlegame | src/LegalMoves.java:176-220 | a fresh array equal to the slide list |
| Generators.AddSlides | src/LegalMoves.java:187-217 | the neighbour loop appends exactly the slides of one piece |
| Generators.GetAllLegalMovesEndgame | src/LegalMoves.java:224-269 | with more than three pieces the slide list, otherwise the flight list, in a fresh array |
| Generators.AddFlights | src/LegalMoves.java:239-266 | the TO loop appends exactly the flights of one piece |
| Generators.GetAllLegalMoves | src/LegalMoves.java:117-132 | a fresh array equal to the phase's generated list, which GeneratedMovesExact relates to legality |
| Generators.IsLegalMove | src/LegalMoves.java:28-89 | true exactly when TO is empty, the phase allows FROM and the capture rule holds, which is Legal |
| Generators.GetAllLegalMoves2 | src/LegalMoves.java:93-114 | a fresh array equal to AllLegalMoves: exactly the legal moves, ascending |
| Generators.KeepAccepted | src/LegalMoves.java:93-114 | the triple loop over a 1000-slot buffer returns exactly the accepted moves, in enumeration order |
| Generators.KeepFroms | src/LegalMoves.java:98-108 | the FROM loop stores exactly the accepted moves |
| Generators.KeepTargets | src/LegalMoves.java:99-107 | the TO loop stores exactly the accepted moves from one FROM |
| Generators.KeepRemoves | src/LegalMoves.java:100-106 | the REMOVE loop stores exactly the accepted moves for one (FROM, TO) |
| Generators.Push | src/LegalMoves.java:156-157 | storing a move at the counter and advancing it appends the move to the stored prefix |
| Generators.CompressArray | src/LegalMoves.java:351-363 | a fresh array holding the first `count` entries of the buffer |
| Generators.ContainsValue | src/LegalMoves.java:342-349 | true exactly when the value occurs in the array |
| Enumeration.AcceptedAll | src/LegalMoves.java:98-108 | the triple enumeration keeps exactly the moves the test accepts, strictly ascending |
| Enumeration.IncreasingUnique | src/LegalMoves.java:93-269 | two strictly ascending lists with the same members are equal, which turns equal members into equal lists |
| Capacity.AcceptedAllBound | src/LegalMoves.java:94 | a test accepting only candidate moves keeps at most (1 + mover's pieces) x empty squares x (1 + opponent's pieces) moves |
| Projections.ProjectionMember | src/LegalMoves.java:273-339 | a square is listed exactly when some move passing the filter has it in the field |
| Projections.ProjectionDistinct | src/LegalMoves.java:283-286 | the list has no repeats, holds only squares and is no longer than the move list |
| Projections.ProjectionFirstAppearance | src/LegalMoves.java:280-288 | squares are listed in order of their first appearance in the move list |
| Projections.ProjectionEmpty | src/LegalMoves.java:282 | nothing is listed exactly when every move passing the filter has NOWHERE in the field |
| Projections.FromSquaresEmpty | src/LegalMoves.java:272-290 | no starting square is offered exactly when pieces are being placed or there is no generated move |
| Projections.ToSquaresMember | src/LegalMoves.java:293-314 | a target is offered exactly when a generated move goes there from fromSquare |
| Projections.ToSquaresEmpty | src/LegalMoves.java:293-314 | every target offered is an empty square |
| Projections.RemoveSquaresEmpty | src/LegalMoves.java:316-339 | no capture is offered exactly when every generated move from fromSquare to toSquare captures nothing |
| Projections.RemoveSquaresOpponent | src/LegalMoves.java:317-339 | every capture offered is of one of the opponent's pieces |
| Projections.CollectSquares | src/LegalMoves.java:275-289 | the buffer scan returns exactly the projection of the move list, in a fresh array |
| Projections.UnusedBuffer | src/LegalMoves.java:275-278 | a fresh buffer of the given length with every entry the -2 marker |
| Projections.CollectOne | src/LegalMoves.java:280-288 | one round of the scan extends the stored prefix to the projection of one more move and keeps the rest of the buffer unused |
| Projections.GetAllLegalFromSquares | src/LegalMoves.java:273-290 | a fresh array equal to the distinct starting squares of the generated moves |
| Projections.GetAllLegalToSquares | src/LegalMoves.java:293-314 | a fresh array equal to the distinct targets of the generated moves from fromSquare |
| Projections.GetAllLegalRemoveSquares | src/LegalMoves.java:317-339 | a fresh array equal to the distinct captures of the generated moves from fromSquare to toSquare |
| Mill.MillGame.constructor | src/MillGame.java:63-65 | a new game object is in the state GameRules.NewGame gives, on a fresh board |
| Mill.MillGame.NewGame | src/MillGame.java:70-78 | resets the object to GameRules.NewGame on a fresh board |
| Mill.MillGame.GetTurnNumber | src/MillGame.java:85-87 | the turn number of the state; it is one exactly when undo is not possible |
| Mill.MillGame.Clone | src/MillGame.java:97-105 | a fresh game with the same position, a fresh board and empty stacks |
| Mill.MillGame.Undo | src/MillGame.java:115-121 | succeeds exactly when GameRules.Undo does, and then the new state is its answer; otherwise IllegalState and nothing changes |
| Mill.MillGame.Redo | src/MillGame.java:133-139 | succeeds exactly when GameRules.Redo does, and then the new state is its answer; otherwise IllegalState and nothing changes |
| Mill.MillGame.RestoreGame | src/MillGame.java:142-150 | the saved position becomes live, the stacks stay as they were |
| Mill.MillGame.UndoIsPossible | src/MillGame.java:158-160 | true exactly when undo would be accepted |
| Mill.MillGame.RedoIsPossible | src/MillGame.java:168-170 | true exactly when redo would be accepted |
| Mill.MillGame.GetMillBoard | src/MillGame.java:177-179 | a fresh board with the same cells |
| Mill.MillGame.GetBlackPiecesInHand | src/MillGame.java:182 | Black's hand, between 0 and 9 |
| Mill.MillGame.GetWhitePiecesInHand | src/MillGame.java:185 | White's hand, between 0 and 9 |
| Mill.MillGame.GetActivePlayer | src/MillGame.java:194 | a colour: the player to move, or the winner once the game is over |
| Mill.MillGame.GetGameState | src/MillGame.java:207 | one of the four phases |
| Mill.MillGame.GetOpponent | src/MillGame.java:362-368 | a colour other than the active player, and its opponent is the active player |
| Mill.MillGame.MakeMove | src/MillGame.java:228-360 | accepts exactly what GameRules.MakeMove accepts, otherwise IllegalArgument and nothing changes; the new state and the flag are GameRules.MakeMove's answer |
| Mill.MillGame.Place | src/MillGame.java:282-320 | the placement branch: the board becomes PlaceCells, the mover's hand drops by one, and phase and player to move become AfterPlacement's |
| Mill.MillGame.Shift | src/MillGame.java:322-350 | the movement branch: the board becomes MoveCells, and phase and player to move become AfterMovement's |
| Mill.MillGame.JudgeMovement | src/MillGame.java:330-350 | the end of the movement branch: phase and player to move become AfterMovement's on the current board |
| Mill.MillGame.PieceCount | src/MillGame.java:308 | `getColouredSquares(color).length` is the colour's piece count |
| Mill.MillGame.IsBeaten | src/MillGame.java:307-308 | the loss test: jammed (where the jam rule applies) or fewer than three pieces |
| Mill.MillGame.GenerateMillGame | src/MillGame.java:402-413 | installs the given board, player, phase and hands as they are, keeps the stacks, and the object is well-formed exactly when that position is |
| Ordering.ClassesByDegree | src/MillAI.java:332-346 | the junction, T-junction and corner squares are exactly the squares with four, three and two neighbours in the table, and the middle corners are corners |
| Ordering.ClassesByDegreeLow | src/MillAI.java:332-343 | the same for squares 0 to 11 |
| Ordering.ClassesByDegreeHigh | src/MillAI.java:332-343 | the same for squares 12 to 23 |
| Ordering.SquareClass | src/MillAI.java:302-327 | the target class compareMoves tests in turn: one of four levels |
| Ordering.Rank | src/MillAI.java:295-327 | the key compareMoves orders by, below eight |
| Ordering.CompareMoves | src/MillAI.java:294-330 | compareMoves is the sign of the difference of the two moves' ranks |
| Ordering.CompareOrder | src/MillAI.java:294-330 | the comparison is antisymmetric and transitive (both strictly and not), and a capture beats a non-capture |
| Ordering.ScanUp | src/MillAI.java:270-272 | the left scan stops inside the range on an entry not better than the divider |
| Ordering.ScanUpPasses | src/MillAI.java:270-272 | the left scan passes only entries better than the divider |
| Ordering.ScanDown | src/MillAI.java:273-275 | the right scan stops inside the range on an entry not worse than the divider |
| Ordering.ScanDownPasses | src/MillAI.java:273-275 | the right scan passes only entries worse than the divider |
| Ordering.PartStep | src/MillAI.java:269-282 | a round keeps the length, moves both scans past each other's start when they swap, and narrows the gap between them |
| Ordering.PartLoop | src/MillAI.java:269-283 | the do-while loop ends with the scans crossed, inside the range |
| Ordering.PartitionCut | src/MillAI.java:266-283 | the partition around the middle entry ends with both scans strictly inside the range |
| Ordering.StepKeeps | src/MillAI.java:269-282 | a round keeps the left region ranked at least the divider and the right region at most, and permutes the entries |
| Ordering.LoopKeeps | src/MillAI.java:269-283 | the whole loop keeps both regions bounded and permutes the entries |
| Ordering.PartitionKeeps | src/MillAI.java:266-283 | after the partition the left part ranks at least the divider, the right part at most, and the range is a permutation |
| Ordering.QuicksortSeq | src/MillAI.java:265-291 | the quicksort of a range keeps the length |
| Ordering.QuicksortSorts | src/MillAI.java:265-291 | quicksort leaves the range in non-increasing rank, a permutation of what was there, and the rest unchanged |
| Ordering.SortPartSorts | src/MillAI.java:285-290 | a recursive call sorts its part or, with fewer than two entries, is not made |
| Ordering.SortedMovesSorted | src/MillAI.java:260-263 | sortMoves leaves the list in non-increasing compareMoves order, as a permutation with the same members |
| Ordering.SortMoves | src/MillAI.java:260-263 | an empty array fails with IndexOutOfBounds (the divider lookup), otherwise the array becomes the sorted list |
| Ordering.Quicksort | src/MillAI.java:265-291 | the in-place sort leaves the array equal to QuicksortSeq of what it held |
| Ordering.Partition | src/MillAI.java:266-283 | the in-place partition leaves the array and the scan positions as PartitionCut gives |
| Ordering.PartitionStep | src/MillAI.java:269-282 | one in-place round leaves the array and the scans as PartStep gives |
| Ordering.ScanFromLeft | src/MillAI.java:270-272 | the in-place left scan stops where ScanUp does |
| Ordering.ScanFromRight | src/MillAI.java:273-275 | the in-place right scan stops where ScanDown does |
| Ordering.Swap | src/MillAI.java:277-279 | exchanges the two entries and nothing else |
| Ordering.SwapKeeps | src/MillAI.java:277-279 | a swap inside the range keeps the multiset of the range and everything outside it |
| Evaluation.ShortCast | src/MillAI.java:402 | Java's `(short)` narrowing: a value in the short range, equal to the argument when that is already in range |
| Evaluation.EmptyNeighboursMeaning | src/MillAI.java:405-414 | getEmptyNeighbourCount is at most four, and zero exactly when the piece is jammed |
| Evaluation.MobilityBound | src/MillAI.java:393-400 | the summed empty neighbours of a list of squares are at most four per square |
| Evaluation.MobilityOfBound | src/MillAI.java:393-400 | the mobility of a colour is at most four per piece |
| Evaluation.Evaluate | src/MillAI.java:349-358 | at GAME_OVER the value is MAX_VALUE exactly when the player is the winner and MIN_VALUE exactly when not |
| Evaluation.EvaluateBounds | src/MillAI.java:360-402 | in a live position the raw value lies in the positional bound, so the short cast keeps it and it stays strictly between MIN_VALUE and MAX_VALUE |
| Evaluation.EvaluateAntisymmetric | src/MillAI.java:349-403 | the evaluation is zero-sum: one player's value is minus the other's |
| Nodes.Node.constructor | src/Node.java:8-13 | a node records the game, depth and previous move, with no continuation and value 0 |
| Nodes.Node.SetPath | src/Node.java:15-17 | sets the continuation and keeps the value |
| Nodes.Node.SetValue | src/Node.java:19-21 | sets the value, a Java short, and keeps the continuation |
| Minimax.OrderedMoves | src/MillAI.java:131-132 | the search tries exactly the generated moves, in sortMoves order, each of them legal |
| Minimax.MaxLoopReply | src/MillAI.java:136-158 | a move of maxValue's loop that does not end the game: the loop fails as the opponent's reply fails, or goes on as MaxAfter says with it; the clock is read first at the root |
| Minimax.MinLoopReply | src/MillAI.java:211-228 | the mirror for minValue's loop and the player's reply |
| Minimax.MaxValueSound | src/MillAI.java:119-192 | maxValue's answer is a value from a loss to a win, takes no looks back (none at all without a time limit), has a line no longer than the depth left, playable from the position, starting with a generated move, and present whenever the search is not time-limited above the depth limit |
| Minimax.MinValueSound | src/MillAI.java:194-252 | the same for minValue's answer |
| Minimax.MaxLoopSound | src/MillAI.java:136-191 | maxValue's loop, from a best and line so far that satisfy those conditions, ends with an answer that does too |
| Minimax.MinLoopSound | src/MillAI.java:211-251 | the same for minValue's loop |
| Minimax.MaxReplySound | src/MillAI.java:157-187 | the opponent's reply to a move that does not end the game, when it comes back, leaves maxValue's loop answer sound |
| Minimax.MinReplySound | src/MillAI.java:227-247 | the mirror for minValue |
| Minimax.MaxAfterSound | src/MillAI.java:158-187 | maxValue's handling of a sound reply (time out, win, improvement, cut-off at beta, raise of alpha) keeps the answer sound |
| Minimax.MinAfterSound | src/MillAI.java:228-247 | minValue's handling of a sound reply (time out, loss, fall, cut-off at alpha, fall of beta) keeps the answer sound |
| Minimax.MaxOn | src/MillAI.java:176-187 | after a reply in time that is not a win, the best becomes the larger value with its line, alpha rises to it, and the loop cuts off at beta or goes on to the next move |
| Minimax.MinOn | src/MillAI.java:236-247 | after a reply in time that is not a loss, the worst becomes the smaller value with its line, beta falls to it, and the loop cuts off at alpha or goes on |
| Minimax.MaxOnSound | src/MillAI.java:176-188 | that cut-off or continuation of maxValue ends sound |
| Minimax.MinOnSound | src/MillAI.java:236-248 | that cut-off or continuation of minValue ends sound |
| Minimax.MaxNext | src/MillAI.java:176-179 | after a sound reply that is not a win, the new best and line are a sound start for the next move |
| Minimax.MinNext | src/MillAI.java:236-239 | the mirror for minValue |
| Minimax.EndingSound | src/MillAI.java:140-149 | a move that ends the game gives a sound one-move line |
| Minimax.ReplySound | src/MillAI.java:157-179 | the move followed by a sound reply's line is a sound line from the position, with one more look at the clock allowed |
| Minimax.MaxValueRange | src/MillAI.java:119-192 | maxValue's value lies from a loss to a win, so it fits a short, and the clock looks only increase |
| Minimax.MinValueRange | src/MillAI.java:194-252 | the same for minValue |
| Minimax.EvaluateInRange | src/MillAI.java:349-403 | the evaluation lies from a loss to a win |
| Minimax.PickInRange | src/MillAI.java:427 | `(int)(Math.random()*n)` is an index of the list |
| Minimax.RandomMove | src/MillAI.java:425-428 | fails with IndexOutOfBounds exactly when there is no generated move; otherwise one of the generated moves |
| Minimax.RandomMoveLegal | src/MillAI.java:425-428 | a random move is legal |
| Minimax.DepthSearchMove | src/MillAI.java:29-63 | a negative depth fails with IllegalArgument, a position without moves with IndexOutOfBounds, and any other answer is a move, generated and legal, so without a time limit the search always finds a line |
| Minimax.Finish | src/MillAI.java:101-108 | the answer is the first move of the best node's line; a null best node or an empty line fails with NullPointer |
| Minimax.RootLine | src/MillAI.java:83 | a round of deepening gives a node whose line, when present, starts with a generated move |
| Minimax.DeepenRound | src/MillAI.java:81-100 | one round of the loop either settles the answer (the first move of the best node, or a failure) or hands on a best node whose line starts with a generated move, one depth deeper |
| Minimax.DeepenFromRoot | src/MillAI.java:81-108 | the deepening's answer, when there is one, is a generated move |
| Minimax.DeepenAnswer | src/MillAI.java:81-108 | the same, for a given answer of the deepening from a depth limit |
| Minimax.TimeSearchMove | src/MillAI.java:66-109 | a limit outside 1 to 99999 seconds fails with IllegalArgument, and any answer is a generated, legal move |
| Minimax.TimeSearchEarlyDeadline | src/MillAI.java:79-108 | a deadline at the loop's first look, or any deadline the depth-1 search reaches before it ends, makes timeSearch fail, as `best` is still null when it is read |
| Search.ChainGrow | src/MillAI.java:416-423 | a PATH chain through some nodes is a chain through any larger set of nodes |
| Search.ChainExtend | src/MillAI.java:173-182 | a node reached by a move whose PATH chain lists a line starts a chain listing the move and then that line |
| Search.ChainEnd | src/MillAI.java:148 | a node reached by a move, without PATH, is a chain of that one move |
| Search.MillAI.constructor | src/MillAI.java:14-22 | a new searcher has no time limit, depth -1, no side chosen and an unread clock |
| Search.MillAI.StopSearch | src/MillAI.java:24-27 | sets the time limit on with a deadline already passed, so the next look at the clock finds time out, and changes nothing else |
| Search.MillAI.TimeOut | src/MillAI.java:111-116 | one look at the clock, counted and answered as Minimax.TimeOut says |
| Search.MillAI.GetEmptyNeighbourCount | src/MillAI.java:405-414 | a square off the board fails as the table lookup does; otherwise the number of empty neighbours |
| Search.MillAI.MobilityTerm | src/MillAI.java:393-400 | the loop sums 20 times the empty neighbours of each listed square |
| Search.MillAI.Evaluate | src/MillAI.java:349-403 | evaluate returns Evaluation.Evaluate for the searching side |
| Search.MillAI.Leaf | src/MillAI.java:123-127 | a node at the depth limit takes the evaluation and no PATH |
| Search.MillAI.Play | src/MillAI.java:137-140 | the clone a search loop makes for one legal move holds the position GameRules.Step reaches, on fresh objects, and the flag is true exactly when that move ends the game |
| Search.MillAI.Ended | src/MillAI.java:140-149 | a move that ends the game gives the node the win or loss value and a PATH of one new node for the move |
| Search.MillAI.MaxValue | src/MillAI.java:119-192 | the node ends holding what Minimax.MaxValue answers: the same error, or its value, its clock looks and, along the PATH chain of new nodes, its line |
| Search.MillAI.MaxLoop | src/MillAI.java:128-191 | the loop over the sorted moves ends with the node holding Minimax.MaxLoop's answer |
| Search.MillAI.MaxTry | src/MillAI.java:137-187 | one turn of the loop either settles the node as Minimax.MaxLoop says or moves on with best, alpha and path such that Minimax.MaxLoop from the next move gives the same answer |
| Search.MillAI.MaxDescend | src/MillAI.java:157-187 | the reply's failure fails the node; otherwise the turn settles the node or moves on as Minimax.MaxAfter says |
| Search.MillAI.MaxReply | src/MillAI.java:152-157 | the opponent's reply is a fresh node for the move, holding Minimax.MinValue's answer |
| Search.MillAI.MaxAfterStep | src/MillAI.java:158-187 | the reply's handling settles the node or moves on exactly as Minimax.MaxAfter says |
| Search.MillAI.MinValue | src/MillAI.java:194-252 | the node ends holding what Minimax.MinValue answers |
| Search.MillAI.MinLoop | src/MillAI.java:203-251 | the loop ends with the node holding Minimax.MinLoop's answer |
| Search.MillAI.MinTry | src/MillAI.java:212-247 | one turn of minValue's loop, as Minimax.MinLoop says |
| Search.MillAI.MinDescend | src/MillAI.java:227-247 | the reply's failure fails the node; otherwise the turn goes as Minimax.MinAfter says |
| Search.MillAI.MinReply | src/MillAI.java:227 | the player's reply is a fresh node for the move, holding Minimax.MaxValue's answer |
| Search.MillAI.MinAfterStep | src/MillAI.java:228-247 | the reply's handling settles the node or moves on exactly as Minimax.MinAfter says |
| Search.MillAI.RandomMove | src/MillAI.java:425-428 | answers what Minimax.RandomMove does |
| Search.MillAI.DepthSearch | src/MillAI.java:29-63 | answers what Minimax.DepthSearch does, read off the root's PATH; for a depth it accepts, leaves the time limit off, the depth limit at that depth and the searching side and its opponent set |
| Search.MillAI.Answer | src/MillAI.java:101-108 | the move of the best node's first PATH node, as Minimax.Finish says |
| Search.MillAI.TimeSearch | src/MillAI.java:66-109 | answers what Minimax.TimeSearch does; for a time limit it accepts, leaves the time limit on with that deadline, the depth limit within 1..127 and the searching side and its opponent set |
| Search.MillAI.Round | src/MillAI.java:81-100 | one round of the loop gives Minimax.Deepen's answer or the best node and the next depth limit from which Minimax.Deepen gives the same answer |

## Left out

- `makeMove(null)` and its IllegalArgumentException (src/MillGame.java:263-265): a move is a value here and cannot be null.
- Java's byte and short widths of the Move fields, `depth`, `Node.DEPTH` and `Node.VALUE`: all are unbounded integers kept in range by the contracts. The one narrowing that matters, the `(short)` cast in `evaluate` (src/MillAI.java:402), is written out as `Evaluation.ShortCast`, and `EvaluateBounds` proves it never changes a live position's value.
- `Math.random()` (src/MillAI.java:425-428) becomes the parameter `pick` in [0, 1). The `random` field is left out: `sortMoves` sets it (src/MillAI.java:6, 260-263) and nothing reads it.
- The wall clock `System.currentTimeMillis()` (src/MillAI.java:111-116) becomes a counter of looks with the deadline `expiry`, as described above. Real time in milliseconds is not modelled.
- A wall clock that is set back is not modelled: once a look finds time out, every later look does too. With a clock set back, a look at src/MillAI.java:84 could answer "not yet" after maxValue had returned cut short at the root (src/MillAI.java:158-169), and line 94 would then take that cut-short result as a completed depth.
- `Search.MillAI.StopSearch` models `stopSearch` (src/MillAI.java:24-27) as a sequential call. The model has no concurrency, so a search cannot be stopped while it runs.
- DepthSearchMove: proves the answer is always a move. In Java a `stopSearch` from another thread during `depthSearch` can leave the root without a PATH and make it return null (src/MillAI.java:59-61). That cannot happen without concurrency.
- The statistics `nodesOpened`, `nodesTotal`, `rootNodes`, `currentRootNode` and `bestPathSoFar` (src/MillAI.java:8-12, 153-154) are not modelled: nothing in the search reads them. The same goes for `printPath`, `print`/`println` and the `toString` methods of MillAI, MillGame, MillBoard and Move (ASCII views; `Move.toString` is modelled).
- Mill.MillGame.RestoreGame: builds a fresh board from the snapshot's cells instead of installing the snapshot's own board object (src/MillGame.java:147). Snapshots are values here, and no snapshot is used again after it is restored, so this sharing is not observable.
- The IllegalStateException for an `activePlayer` that is neither colour (src/MillGame.java:291-294) cannot be reached from a well-formed game, and is not modelled.
- The IllegalStateException of `makeMove` once the game is over (src/MillGame.java:352-354) cannot be reached either: `legal` refuses every move in GAME_OVER first, so the model gives IllegalArgument, as the code does.
- Mill.MillGame.GenerateMillGame: installs any board, player, phase and hands, as the code does (src/MillGame.java:402-413), but every other operation requires a well-formed position. Its ensures says the object is well-formed exactly when the installed position is; what the other operations do on a malformed one is not modelled.
- `getAllLegalMoves` versus `legal` in ENDGAME is modelled as written. A mover with more than three pieces may fly by `legal` (src/LegalMoves.java:62-69), but `getAllLegalMoves_endgame` offers it only slides (src/LegalMoves.java:229-231). `Generation.FlyingGap` and `FlyingGapWitness` exhibit a legal flight that is not generated. This is not listed as a finding, as the lenient rule may be intended.
- `quiescence` (src/MillAI.java:256) is an empty stub that nothing calls.
- The user interface, console, threads and any other files of the program are not part of this model.
