/**
 * A move of the game: where a piece comes from (NOWHERE while placing), the
 * square it goes to, and the square of a captured piece (NOWHERE if none).
 * The three fields are fixed at construction, which range-checks them.
 */
module Moves {
  import opened Wrappers
  import opened BoardInfo

  const NOWHERE: int := -1

  /** A square or NOWHERE. */
  predicate SquareOrNowhere(s: int) { s == NOWHERE || IsSquare(s) }

  datatype MoveFields = MoveFields(from: int, to: int, remove: int) {
    /** The range check of the constructor: FROM and REMOVE may be NOWHERE, TO may not. */
    predicate InRange() {
      SquareOrNowhere(from) && IsSquare(to) && SquareOrNowhere(remove)
    }
  }

  /** Every Move value passed the constructor's range check; being a value,
      it never changes after construction. */
  type Move = m: MoveFields | m.InRange() witness MoveFields(NOWHERE, 0, NOWHERE)

  /** The byte constructor: succeeds exactly when the range check passes, with
      the given fields, and fails with IllegalArgument otherwise. */
  function NewMove(from: int, to: int, remove: int): (r: Result<Move>)
    ensures r.Ok? <==> SquareOrNowhere(from) && IsSquare(to) && SquareOrNowhere(remove)
    ensures r.Ok? ==> r.value.from == from && r.value.to == to && r.value.remove == remove
    ensures r.Err? ==> r.error == IllegalArgument
  {
    if from != NOWHERE && !(0 <= from <= 23) then Err(IllegalArgument)
    else if !(0 <= to <= 23) then Err(IllegalArgument)
    else if remove != NOWHERE && !(0 <= remove <= 23) then Err(IllegalArgument)
    else Ok(MoveFields(from, to, remove))
  }

  /** Java's narrowing cast from int to byte: keep the low eight bits, two's complement. */
  function ToByte(x: int): (b: int)
    ensures -128 <= b < 128
    ensures (b - x) % 256 == 0
  {
    (x + 128) % 256 - 128
  }

  /** The int constructor narrows each argument to a byte, then runs the byte constructor. */
  function NewMoveFromInts(from: int, to: int, remove: int): (r: Result<Move>)
    ensures r.Ok? <==> SquareOrNowhere(ToByte(from)) && IsSquare(ToByte(to)) && SquareOrNowhere(ToByte(remove))
    ensures r.Ok? ==> (r.value.from - from) % 256 == 0 && (r.value.to - to) % 256 == 0 && (r.value.remove - remove) % 256 == 0
    ensures r.Err? ==> r.error == IllegalArgument
  {
    NewMove(ToByte(from), ToByte(to), ToByte(remove))
  }

  /** Within the byte range the two constructors agree; outside it the int one
      accepts arguments that wrap onto a square. */
  lemma IntConstructorNarrows(from: int, to: int, remove: int)
    requires -128 <= from < 128 && -128 <= to < 128 && -128 <= remove < 128
    ensures NewMoveFromInts(from, to, remove) == NewMove(from, to, remove)
    ensures NewMoveFromInts(from + 256, to - 512, remove) == NewMove(from, to, remove)
  {
    assert ToByte(from) == from && ToByte(to) == to && ToByte(remove) == remove;
    assert ToByte(from + 256) == from;
    assert ToByte(to - 512) == to;
  }

  /** The constructor fixtures, through the int constructor as the class's own
      test calls it and through the byte one: (1,2,3) and (-1,2,-1) are moves,
      (7,-1,9) is not. */
  lemma ConstructorFixtures()
    ensures NewMoveFromInts(1, 2, 3) == Ok(MoveFields(1, 2, 3))
    ensures NewMoveFromInts(NOWHERE, 2, NOWHERE) == Ok(MoveFields(-1, 2, -1))
    ensures NewMoveFromInts(7, NOWHERE, 9) == Err(IllegalArgument)
    ensures NewMove(1, 2, 3) == Ok(MoveFields(1, 2, 3))
    ensures NewMove(NOWHERE, 2, NOWHERE) == Ok(MoveFields(-1, 2, -1))
    ensures NewMove(7, NOWHERE, 9) == Err(IllegalArgument)
  {
  }

  // ---- toString ----

  /** The character of a decimal digit. */
  function DigitChar(d: int): (c: char)
    requires 0 <= d < 10
    ensures '0' <= c <= '9'
  {
    ('0' as int + d) as char
  }

  function NaturalString(n: nat): (s: string)
    ensures |s| > 0
    ensures forall k | 0 <= k < |s| :: '0' <= s[k] <= '9'
    decreases n
  {
    if n < 10 then [DigitChar(n)] else NaturalString(n / 10) + [DigitChar(n % 10)]
  }

  /** Decimal notation as Java prints an int. */
  function IntString(n: int): (s: string)
    ensures |s| > 0 && ',' !in s && ')' !in s
  {
    if n < 0 then "-" + NaturalString(-n) else NaturalString(n)
  }

  /** "(FROM,TO,REMOVE)", with -1 for NOWHERE. */
  function ToString(m: Move): (s: string)
  {
    "(" + (IntString(m.from) + ("," + (IntString(m.to) + ("," + (IntString(m.remove) + ")")))))
  }

  /** Different moves print differently. */
  lemma ToStringInjective(m: Move, n: Move)
    ensures ToString(m) == ToString(n) ==> m == n
  {
    if ToString(m) == ToString(n) {
      var a, b, c := IntString(m.from), IntString(m.to), IntString(m.remove);
      var a', b', c' := IntString(n.from), IntString(n.to), IntString(n.remove);
      var tail, tail' := b + ("," + (c + ")")), b' + ("," + (c' + ")"));
      assert ToString(m)[1..] == a + ("," + tail);
      assert ToString(n)[1..] == a' + ("," + tail');
      SplitAtComma(a, tail, a', tail');
      SplitAtComma(b, c + ")", b', c' + ")");
      assert c == (c + ")")[..|c|];
      assert c' == (c' + ")")[..|c'|];
      IntStringInjective(m.from, n.from);
      IntStringInjective(m.to, n.to);
      IntStringInjective(m.remove, n.remove);
    }
  }

  /** A string without commas before a comma is recovered from the whole. */
  lemma SplitAtComma(x: string, y: string, x': string, y': string)
    requires ',' !in x && ',' !in x'
    requires x + ("," + y) == x' + ("," + y')
    ensures x == x' && y == y'
  {
    var s := x + ("," + y);
    assert forall k | 0 <= k < |x| :: s[k] == x[k];
    assert forall k | 0 <= k < |x'| :: s[k] == x'[k];
    assert s[|x|] == ',' && s[|x'|] == ',';
    assert |x| == |x'|;
    assert x == s[..|x|] == x';
    assert y == s[|x| + 1..] == y';
  }

  /** A one-digit numeral is exactly the numeral of a number below ten. */
  lemma NaturalStringShort(n: nat)
    ensures |NaturalString(n)| == 1 <==> n < 10
  {
    if n >= 10 {
      assert |NaturalString(n / 10)| > 0;
    }
  }

  lemma {:induction false} NaturalStringInjective(i: nat, j: nat)
    ensures NaturalString(i) == NaturalString(j) ==> i == j
    decreases i
  {
    var s, t := NaturalString(i), NaturalString(j);
    if s == t {
      NaturalStringShort(i);
      NaturalStringShort(j);
      if i < 10 {
        assert DigitChar(i) == s[0] == DigitChar(j);
      } else {
        assert s[..|s| - 1] == NaturalString(i / 10) && t[..|t| - 1] == NaturalString(j / 10);
        assert DigitChar(i % 10) == s[|s| - 1] == DigitChar(j % 10);
        NaturalStringInjective(i / 10, j / 10);
        assert i == 10 * (i / 10) + i % 10 && j == 10 * (j / 10) + j % 10;
      }
    }
  }

  /** A numeral starts with a minus sign exactly when the number is negative. */
  lemma IntStringSign(n: int)
    ensures IntString(n)[0] == '-' <==> n < 0
  {
  }

  lemma IntStringInjective(i: int, j: int)
    ensures IntString(i) == IntString(j) ==> i == j
  {
    var s, t := IntString(i), IntString(j);
    if s == t {
      IntStringSign(i);
      IntStringSign(j);
      if i < 0 {
        assert s[1..] == NaturalString(-i) && t[1..] == NaturalString(-j);
        NaturalStringInjective(-i, -j);
      } else {
        NaturalStringInjective(i, j);
      }
    }
  }

  /** toString of a capture: "(1,2,3)". */
  lemma ToStringCapture()
    ensures ToString(MoveFields(1, 2, 3)) == "(1,2,3)"
  {
    assert IntString(1) == "1" && IntString(2) == "2" && IntString(3) == "3";
  }

  /** toString of a placement: NOWHERE prints as -1. */
  lemma ToStringPlacement()
    ensures ToString(MoveFields(NOWHERE, 2, NOWHERE)) == "(-1,2,-1)"
  {
    assert IntString(NOWHERE) == "-1" && IntString(2) == "2";
  }

  /** toString of a two-digit slide. */
  lemma ToStringSlide()
    ensures ToString(MoveFields(12, 17, NOWHERE)) == "(12,17,-1)"
  {
    assert IntString(12) == "12" && IntString(17) == "17" && IntString(NOWHERE) == "-1";
  }
}
