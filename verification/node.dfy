/**
 * A node of the search tree: the game it stands for, its depth, the move
 * that led to it, and the value and continuation (PATH) the search gives it.
 */
module Nodes {
  import opened Wrappers
  import opened Moves
  import opened Mill

  class Node {
    const game: MillGame
    const depth: int
    /** The move that led here; null at the root. */
    const previousMove: Option<Move>
    /** The child node on the line the search chose; null when there is none. */
    var path: Node?
    var value: int

    /** A new node has no continuation and value 0, a Java short's default. */
    constructor (game: MillGame, depth: int, previousMove: Option<Move>)
      ensures this.game == game && this.depth == depth && this.previousMove == previousMove
      ensures path == null && value == 0
    {
      this.game := game;
      this.depth := depth;
      this.previousMove := previousMove;
      path := null;
      value := 0;
    }

    method SetPath(next: Node?)
      modifies this
      ensures path == next && value == old(value)
    {
      path := next;
    }

    /** The value is a Java short. */
    method SetValue(v: int)
      requires -0x8000 <= v < 0x8000
      modifies this
      ensures value == v && path == old(path)
    {
      value := v;
    }
  }
}
