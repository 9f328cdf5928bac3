/**
 * The order in which LegalMoves produces moves, and the brute-force
 * enumeration of getAllLegalMoves2 written for any test on moves: every
 * triple (FROM, TO, REMOVE) tried in ascending order, the accepted ones kept.
 */
module Enumeration {
  import opened BoardInfo
  import opened Moves

  // ---- the order moves are produced in ----

  /** Lexicographic order on (FROM, TO, REMOVE). */
  predicate Before(a: Move, b: Move)
  {
    a.from < b.from || (a.from == b.from && (a.to < b.to || (a.to == b.to && a.remove < b.remove)))
  }

  predicate Increasing(s: seq<Move>)
  {
    forall i, j | 0 <= i < j < |s| :: Before(s[i], s[j])
  }

  lemma IncreasingConcat(a: seq<Move>, b: seq<Move>)
    requires Increasing(a) && Increasing(b)
    requires forall x, y | x in a && y in b :: Before(x, y)
    ensures Increasing(a + b)
  {
    forall i, j | 0 <= i < j < |a + b|
      ensures Before((a + b)[i], (a + b)[j])
    {
      if j < |a| {
      } else if i >= |a| {
        assert (a + b)[i] == b[i - |a|] && (a + b)[j] == b[j - |a|];
      } else {
        assert (a + b)[i] in a && (a + b)[j] in b;
      }
    }
  }

  lemma MoveHeadMember(s: seq<Move>)
    ensures |s| > 0 ==> s[0] in s
  {
  }

  /** The head of an increasing list comes before every other member. */
  lemma HeadIsLeast(s: seq<Move>, x: Move)
    requires Increasing(s) && x in s
    ensures x == s[0] || Before(s[0], x)
  {
    var i :| 0 <= i < |s| && s[i] == x;
    if i > 0 {
      assert Before(s[0], s[i]);
    }
  }

  /** Two increasing lists with the same members are the same list. */
  lemma {:induction false} IncreasingUnique(a: seq<Move>, b: seq<Move>)
    requires Increasing(a) && Increasing(b)
    requires forall x :: x in a <==> x in b
    ensures a == b
    decreases |a|
  {
    if a == [] {
      MoveHeadMember(b);
    } else {
      assert b != [] by { assert a[0] in b; }
      HeadIsLeast(b, a[0]);
      HeadIsLeast(a, b[0]);
      forall x
        ensures x in a[1..] <==> x in b[1..]
      {
        if x in a[1..] {
          var i :| 1 <= i < |a| && a[i] == x;
          assert Before(a[0], a[i]);
          assert x in b;
        }
        if x in b[1..] {
          var j :| 1 <= j < |b| && b[j] == x;
          assert Before(b[0], b[j]);
          assert x in a;
        }
      }
      IncreasingUnique(a[1..], b[1..]);
      assert a == [a[0]] + a[1..] && b == [b[0]] + b[1..];
    }
  }

  // ---- every triple tried in turn ----
  // The enumeration is written for any test `ok` on moves, so that its
  // structure can be reasoned about without unfolding the legality rule.

  // The three enumeration functions carry no postcondition, so that reasoning
  // about the loops that build them does not pay for one at every unfolding;
  // what they hold is stated by the Members lemmas below.

  /** The moves (from, to, REMOVE) that ok accepts among the first n values
      of REMOVE tried, NOWHERE then the squares in ascending order. */
  function AcceptedRemoves(ok: Move -> bool, from: int, to: int, n: nat): seq<Move>
    requires SquareOrNowhere(from) && IsSquare(to) && n <= SQUARES_ON_BOARD + 1
  {
    if n == 0 then []
    else
      var r := AcceptedRemoves(ok, from, to, n - 1);
      var m := MoveFields(from, to, n - 2);
      if ok(m) then r + [m] else r
  }

  /** The accepted moves from `from` with TO below hi, by ascending (TO, REMOVE);
      width is the number of squares, which bounds REMOVE; it is a parameter
      so that the verifier does not unroll the enumeration. */
  function AcceptedTargets(ok: Move -> bool, from: int, hi: nat, width: nat): seq<Move>
    requires SquareOrNowhere(from) && hi <= SQUARES_ON_BOARD && width <= SQUARES_ON_BOARD
  {
    if hi == 0 then []
    else AcceptedTargets(ok, from, hi - 1, width) + AcceptedRemoves(ok, from, hi - 1, width + 1)
  }

  /** The accepted moves among the first n values of FROM tried, NOWHERE then
      the squares in ascending order, by ascending (FROM, TO, REMOVE). */
  function AcceptedMoves(ok: Move -> bool, n: nat, width: nat): seq<Move>
    requires n <= SQUARES_ON_BOARD + 1 && width <= SQUARES_ON_BOARD
  {
    if n == 0 then []
    else AcceptedMoves(ok, n - 1, width) + AcceptedTargets(ok, n - 2, width, width)
  }

  /** The REMOVE loop keeps exactly the accepted moves with REMOVE among the
      first n values tried, in order. */
  lemma {:induction false} RemovesMembers(ok: Move -> bool, from: int, to: int, n: nat)
    requires SquareOrNowhere(from) && IsSquare(to) && n <= SQUARES_ON_BOARD + 1
    ensures forall m: Move {:trigger m in AcceptedRemoves(ok, from, to, n)} :: m in AcceptedRemoves(ok, from, to, n) <==>
      m.from == from && m.to == to && m.remove < n - 1 && ok(m)
    ensures Increasing(AcceptedRemoves(ok, from, to, n))
    decreases n
  {
    if n > 0 {
      var r := AcceptedRemoves(ok, from, to, n - 1);
      var m := MoveFields(from, to, n - 2);
      RemovesMembers(ok, from, to, n - 1);
      if ok(m) {
        IncreasingConcat(r, [m]);
      }
    }
  }

  /** The TO loop keeps exactly the accepted moves from `from` with TO below hi, in order. */
  lemma {:induction false} TargetsMembers(ok: Move -> bool, from: int, hi: nat, width: nat)
    requires SquareOrNowhere(from) && hi <= SQUARES_ON_BOARD && width <= SQUARES_ON_BOARD
    ensures forall m: Move {:trigger m in AcceptedTargets(ok, from, hi, width)} :: m in AcceptedTargets(ok, from, hi, width) <==>
      m.from == from && m.to < hi && m.remove < width && ok(m)
    ensures Increasing(AcceptedTargets(ok, from, hi, width))
    decreases hi
  {
    if hi > 0 {
      TargetsMembers(ok, from, hi - 1, width);
      RemovesMembers(ok, from, hi - 1, width + 1);
      IncreasingConcat(AcceptedTargets(ok, from, hi - 1, width), AcceptedRemoves(ok, from, hi - 1, width + 1));
    }
  }

  /** The FROM loop keeps exactly the accepted moves with FROM among the first
      n values tried, in order. */
  lemma {:induction false} MovesMembers(ok: Move -> bool, n: nat, width: nat)
    requires n <= SQUARES_ON_BOARD + 1 && width <= SQUARES_ON_BOARD
    ensures forall m: Move {:trigger m in AcceptedMoves(ok, n, width)} :: m in AcceptedMoves(ok, n, width) <==>
      m.from < n - 1 && m.to < width && m.remove < width && ok(m)
    ensures Increasing(AcceptedMoves(ok, n, width))
    decreases n
  {
    if n > 0 {
      MovesMembers(ok, n - 1, width);
      TargetsMembers(ok, n - 2, width, width);
      IncreasingConcat(AcceptedMoves(ok, n - 1, width), AcceptedTargets(ok, n - 2, width, width));
    }
  }

  /** Every triple tried: exactly the moves ok accepts, in ascending order. */
  function AcceptedAll(ok: Move -> bool): (r: seq<Move>)
    ensures forall m: Move {:trigger m in r} :: m in r <==> ok(m)
    ensures Increasing(r)
  {
    MovesMembers(ok, SQUARES_ON_BOARD + 1, SQUARES_ON_BOARD);
    AcceptedMoves(ok, SQUARES_ON_BOARD + 1, SQUARES_ON_BOARD)
  }
}
