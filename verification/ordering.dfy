/**
 * How the search orders moves before trying them: captures first, then moves
 * onto the best-connected squares, sorted in place by a quicksort that puts
 * the better moves first.
 */
module Ordering {
  import opened BoardInfo
  import opened Wrappers
  import opened Moves

  // ---- the square classes ----

  /** The four squares with four neighbours. */
  predicate IsJunctionSquare(s: int)
  {
    s == 4 || s == 10 || s == 13 || s == 19
  }

  /** The eight squares with three neighbours. */
  predicate IsTJunctionSquare(s: int)
  {
    s == 1 || s == 7 || s == 9 || s == 11 || s == 12 || s == 14 || s == 16 || s == 22
  }

  /** The twelve squares with two neighbours. */
  predicate IsCornerSquare(s: int)
  {
    s == 0 || s == 2 || s == 3 || s == 5 || s == 6 || s == 8 || s == 15 || s == 17 ||
    s == 18 || s == 20 || s == 21 || s == 23
  }

  /** The corners of the middle ring. */
  predicate IsMiddleCornerSquare(s: int)
  {
    s == 3 || s == 5 || s == 18 || s == 20
  }

  /** The classes are the degrees in the neighbour table, for squares 0 to 11. */
  lemma ClassesByDegreeLow(p: int)
    requires 0 <= p < 12
    ensures IsJunctionSquare(p) <==> |Neighbours(p)| == 4
    ensures IsTJunctionSquare(p) <==> |Neighbours(p)| == 3
    ensures IsCornerSquare(p) <==> |Neighbours(p)| == 2
  {
    if p < 6 {
      assert p == 0 || p == 1 || p == 2 || p == 3 || p == 4 || p == 5;
    } else {
      assert p == 6 || p == 7 || p == 8 || p == 9 || p == 10 || p == 11;
    }
  }

  /** The classes are the degrees in the neighbour table, for squares 12 to 23. */
  lemma ClassesByDegreeHigh(p: int)
    requires 12 <= p < 24
    ensures IsJunctionSquare(p) <==> |Neighbours(p)| == 4
    ensures IsTJunctionSquare(p) <==> |Neighbours(p)| == 3
    ensures IsCornerSquare(p) <==> |Neighbours(p)| == 2
  {
    if p < 18 {
      assert p == 12 || p == 13 || p == 14 || p == 15 || p == 16 || p == 17;
    } else {
      assert p == 18 || p == 19 || p == 20 || p == 21 || p == 22 || p == 23;
    }
  }

  /** The junction, T-junction and corner squares are exactly the squares with
      four, three and two neighbours; the middle corners are corners. */
  lemma ClassesByDegree(p: int)
    requires IsSquare(p)
    ensures IsJunctionSquare(p) <==> |Neighbours(p)| == 4
    ensures IsTJunctionSquare(p) <==> |Neighbours(p)| == 3
    ensures IsCornerSquare(p) <==> |Neighbours(p)| == 2
    ensures IsMiddleCornerSquare(p) ==> IsCornerSquare(p)
  {
    if p < 12 {
      ClassesByDegreeLow(p);
    } else {
      ClassesByDegreeHigh(p);
    }
  }

  // ---- the comparison ----

  /** How good a target square is: junctions best, then T-junctions, then
      middle corners, then the rest. */
  function SquareClass(s: int): (c: nat)
    ensures c <= 3
  {
    if IsJunctionSquare(s) then 3
    else if IsTJunctionSquare(s) then 2
    else if IsMiddleCornerSquare(s) then 1
    else 0
  }

  /** The key the comparison orders by: a capture outweighs any target. */
  function Rank(m: Move): (k: nat)
    ensures k <= 7
  {
    (if m.remove != NOWHERE then 4 else 0) + SquareClass(m.to)
  }

  function Sign(x: int): int
  {
    if x > 0 then 1 else if x < 0 then -1 else 0
  }

  /** compareMoves: +1 when the first move is better, -1 when the second is,
      0 when neither is; a move is better when it captures and the other does
      not, and otherwise by its target's class. */
  function CompareMoves(a: Move, b: Move): (r: int)
    ensures r == Sign(Rank(a) - Rank(b))
  {
    if a.remove != NOWHERE && b.remove == NOWHERE then 1
    else if a.remove == NOWHERE && b.remove != NOWHERE then -1
    else if IsJunctionSquare(a.to) && !IsJunctionSquare(b.to) then 1
    else if !IsJunctionSquare(a.to) && IsJunctionSquare(b.to) then -1
    else if IsTJunctionSquare(a.to) && !IsTJunctionSquare(b.to) then 1
    else if !IsTJunctionSquare(a.to) && IsTJunctionSquare(b.to) then -1
    else if IsMiddleCornerSquare(a.to) && !IsMiddleCornerSquare(b.to) then 1
    else if !IsMiddleCornerSquare(a.to) && IsMiddleCornerSquare(b.to) then -1
    else 0
  }

  /** The comparison is antisymmetric and transitive, and a capture always wins. */
  lemma CompareOrder(a: Move, b: Move, c: Move)
    ensures CompareMoves(a, b) == -CompareMoves(b, a)
    ensures CompareMoves(a, b) >= 0 && CompareMoves(b, c) >= 0 ==> CompareMoves(a, c) >= 0
    ensures CompareMoves(a, b) > 0 && CompareMoves(b, c) > 0 ==> CompareMoves(a, c) > 0
    ensures a.remove != NOWHERE && b.remove == NOWHERE ==> CompareMoves(a, b) == 1
  {
  }

  // ---- the sort ----

  /** Entries lo to hi - 1 of s are in non-increasing rank. */
  ghost predicate Descending(s: seq<Move>, lo: int, hi: int)
    requires 0 <= lo && hi <= |s|
  {
    forall i, j | lo <= i < j < hi :: Rank(s[i]) >= Rank(s[j])
  }

  /** after equals before outside entries lo to hi. */
  ghost predicate SameOutside(before: seq<Move>, after: seq<Move>, lo: int, hi: int)
  {
    |after| == |before| && forall k | 0 <= k < |before| && !(lo <= k <= hi) :: after[k] == before[k]
  }

  // ---- quicksort as functions ----
  // The functions take the same steps as the methods below on a sequence;
  // `stop` arguments name an entry known to end a scan, which bounds it.

  /** The scan from the left from entry l: the first entry not better than
      the divider. */
  function ScanUp(s: seq<Move>, l: int, divider: Move, stop: int): (r: int)
    requires 0 <= l <= stop < |s| && Rank(s[stop]) <= Rank(divider)
    ensures l <= r <= stop && Rank(s[r]) <= Rank(divider)
    decreases stop - l
  {
    if CompareMoves(s[l], divider) > 0 then ScanUp(s, l + 1, divider, stop) else l
  }

  /** The scan from the left passes over entries better than the divider only. */
  lemma {:induction false} ScanUpPasses(s: seq<Move>, l: int, divider: Move, stop: int)
    requires 0 <= l <= stop < |s| && Rank(s[stop]) <= Rank(divider)
    ensures forall k | l <= k < ScanUp(s, l, divider, stop) :: Rank(s[k]) > Rank(divider)
    decreases stop - l
  {
    if CompareMoves(s[l], divider) > 0 {
      ScanUpPasses(s, l + 1, divider, stop);
    }
  }

  /** The scan from the right from entry r: the last entry not worse than
      the divider. */
  function ScanDown(s: seq<Move>, r: int, divider: Move, stop: int): (q: int)
    requires 0 <= stop <= r < |s| && Rank(s[stop]) >= Rank(divider)
    ensures stop <= q <= r && Rank(s[q]) >= Rank(divider)
    decreases r - stop
  {
    if CompareMoves(divider, s[r]) > 0 then ScanDown(s, r - 1, divider, stop) else r
  }

  /** The scan from the right passes over entries worse than the divider only. */
  lemma {:induction false} ScanDownPasses(s: seq<Move>, r: int, divider: Move, stop: int)
    requires 0 <= stop <= r < |s| && Rank(s[stop]) >= Rank(divider)
    ensures forall k | ScanDown(s, r, divider, stop) < k <= r :: Rank(s[k]) < Rank(divider)
    decreases r - stop
  {
    if CompareMoves(divider, s[r]) > 0 {
      ScanDownPasses(s, r - 1, divider, stop);
    }
  }

  /** The state of a partition: the entries, the two scan positions, and an
      entry for each scan that will stop it. */
  datatype Cut = Cut(s: seq<Move>, left: int, right: int, lstop: int, rstop: int)

  /** Both scans of a round can start: each has an entry ahead that stops it. */
  predicate Ready(c: Cut, start: int, end: int, divider: Move)
  {
    && 0 <= start <= c.left && c.right <= end < |c.s|
    && c.left <= c.lstop <= end && Rank(c.s[c.lstop]) <= Rank(divider)
    && start <= c.rstop <= c.right && Rank(c.s[c.rstop]) >= Rank(divider)
  }

  /** One round of the partition: both scans, then, unless they crossed, the
      swap of the two entries they stopped on and a step past both. */
  function PartStep(c: Cut, start: int, end: int, divider: Move): (n: Cut)
    requires Ready(c, start, end, divider)
    ensures |n.s| == |c.s| && c.left <= n.left <= end + 1 && start - 1 <= n.right <= c.right
    ensures c.lstop <= c.rstop ==> c.left < n.left && n.right < c.right
    ensures c.left < c.right ==> n.right - n.left < c.right - c.left
    ensures n.left < n.right ==> Ready(n, start, end, divider)
  {
    var l := ScanUp(c.s, c.left, divider, c.lstop);
    var r := ScanDown(c.s, c.right, divider, c.rstop);
    if l <= r then Cut(c.s[l := c.s[r]][r := c.s[l]], l + 1, r - 1, r, l)
    else Cut(c.s, l, r, c.lstop, c.rstop)
  }

  /** Rounds until the scans cross. */
  function PartLoop(c: Cut, start: int, end: int, divider: Move): (n: Cut)
    requires 0 <= start && end < |c.s| && start - 1 <= c.right && c.left <= end + 1
    requires c.left < c.right ==> Ready(c, start, end, divider)
    ensures |n.s| == |c.s| && c.left <= n.left <= end + 1 && start - 1 <= n.right <= c.right
    ensures n.right <= n.left
    decreases c.right - c.left
  {
    if c.left < c.right then PartLoop(PartStep(c, start, end, divider), start, end, divider) else c
  }

  /** The partition of entries start to end around the middle entry. The first
      round always swaps (both scans stop at the latest on the middle entry),
      so both scans end strictly inside. */
  function PartitionCut(s: seq<Move>, start: int, end: int): (c: Cut)
    requires 0 <= start <= end < |s|
    ensures |c.s| == |s| && start < c.left && c.right < end && start - 1 <= c.right <= c.left <= end + 1
  {
    var mid := (start + end) / 2;
    PartLoop(PartStep(Cut(s, start, end, mid, mid), start, end, s[mid]), start, end, s[mid])
  }

  /** quicksort of entries start to end: partition, then sort the part up to
      `right` and the part from `left`. */
  function QuicksortSeq(s: seq<Move>, start: int, end: int): (r: seq<Move>)
    requires 0 <= start <= end < |s|
    ensures |r| == |s|
    decreases end + 1 - start, 0
  {
    var c := PartitionCut(s, start, end);
    SortPart(SortPart(c.s, start, c.right), c.left, end)
  }

  /** A recursive call of quicksort on entries lo to hi, made only when they
      hold two entries or more. */
  function SortPart(s: seq<Move>, lo: int, hi: int): (r: seq<Move>)
    requires 0 <= lo <= hi + 1 && hi < |s|
    ensures |r| == |s|
    decreases hi + 1 - lo, 1
  {
    if lo < hi then QuicksortSeq(s, lo, hi) else s
  }

  /** sortMoves on a non-empty list. */
  function SortedMoves(s: seq<Move>): seq<Move>
    requires |s| > 0
  {
    QuicksortSeq(s, 0, |s| - 1)
  }

  // ---- what the sort achieves ----

  /** Entries start to left - 1 rank at least d, entries right + 1 to end at most d. */
  ghost predicate Parted(s: seq<Move>, start: int, end: int, left: int, right: int, d: int)
    requires 0 <= start && end < |s| && left <= end + 1 && start - 1 <= right
  {
    (forall k | start <= k < left :: Rank(s[k]) >= d) && (forall k | right < k <= end :: Rank(s[k]) <= d)
  }

  /** after is a permutation of before on entries start to end and equal elsewhere. */
  ghost predicate Kept(before: seq<Move>, after: seq<Move>, start: int, end: int)
    requires 0 <= start && end < |before| && start <= end + 1
  {
    SameOutside(before, after, start, end) && multiset(after[start..end + 1]) == multiset(before[start..end + 1])
  }

  /** A round keeps the bounded regions bounded and permutes the entries. */
  lemma StepKeeps(c: Cut, start: int, end: int, divider: Move)
    requires Ready(c, start, end, divider)
    requires Parted(c.s, start, end, c.left, c.right, Rank(divider))
    ensures var n := PartStep(c, start, end, divider);
      Parted(n.s, start, end, n.left, n.right, Rank(divider)) && Kept(c.s, n.s, start, end)
  {
    var l := ScanUp(c.s, c.left, divider, c.lstop);
    var r := ScanDown(c.s, c.right, divider, c.rstop);
    ScanUpPasses(c.s, c.left, divider, c.lstop);
    ScanDownPasses(c.s, c.right, divider, c.rstop);
    if l <= r {
      var t := c.s[l := c.s[r]][r := c.s[l]];
      assert PartStep(c, start, end, divider) == Cut(t, l + 1, r - 1, r, l);
      SwapKeeps(c.s, start, end, l, r);
      SwapBounds(c.s, t, start, end, l, r, Rank(divider));
    } else {
      assert PartStep(c, start, end, divider) == Cut(c.s, l, r, c.lstop, c.rstop);
    }
  }

  lemma {:induction false} LoopKeeps(c: Cut, start: int, end: int, divider: Move)
    requires 0 <= start <= end && end < |c.s| && start - 1 <= c.right && c.left <= end + 1
    requires c.left < c.right ==> Ready(c, start, end, divider)
    requires Parted(c.s, start, end, c.left, c.right, Rank(divider))
    ensures var n := PartLoop(c, start, end, divider);
      Parted(n.s, start, end, n.left, n.right, Rank(divider)) && Kept(c.s, n.s, start, end)
    decreases c.right - c.left
  {
    if c.left < c.right {
      var n := PartStep(c, start, end, divider);
      StepKeeps(c, start, end, divider);
      LoopKeeps(n, start, end, divider);
    }
  }

  /** The partition permutes entries start to end so that those before `left`
      rank at least as high as the middle entry and those after `right` at
      most as high. */
  lemma PartitionKeeps(s: seq<Move>, start: int, end: int)
    requires 0 <= start <= end < |s|
    ensures var c := PartitionCut(s, start, end);
      Parted(c.s, start, end, c.left, c.right, Rank(s[(start + end) / 2])) && Kept(s, c.s, start, end)
  {
    var mid := (start + end) / 2;
    var c := Cut(s, start, end, mid, mid);
    StepKeeps(c, start, end, s[mid]);
    LoopKeeps(PartStep(c, start, end, s[mid]), start, end, s[mid]);
  }

  /** quicksort sorts entries start to end into non-increasing rank, permuting
      them, and leaves the rest alone. */
  lemma {:induction false} QuicksortSorts(s: seq<Move>, start: int, end: int)
    requires 0 <= start <= end < |s|
    ensures Descending(QuicksortSeq(s, start, end), start, end + 1)
    ensures Kept(s, QuicksortSeq(s, start, end), start, end)
    decreases end + 1 - start, 0
  {
    var c := PartitionCut(s, start, end);
    PartitionKeeps(s, start, end);
    var first := SortPart(c.s, start, c.right);
    SortPartSorts(c.s, start, c.right);
    SortPartSorts(first, c.left, end);
    Join(s, c.s, first, SortPart(first, c.left, end), start, end, c.left, c.right, Rank(s[(start + end) / 2]));
  }

  lemma {:induction false} SortPartSorts(s: seq<Move>, lo: int, hi: int)
    requires 0 <= lo <= hi + 1 && hi < |s|
    ensures SortedPart(s, SortPart(s, lo, hi), lo, hi)
    decreases hi + 1 - lo, 1
  {
    if lo < hi {
      QuicksortSorts(s, lo, hi);
    }
  }

  /** sortMoves puts the list in non-increasing compareMoves order and only
      reorders it. */
  lemma SortedMovesSorted(s: seq<Move>)
    requires |s| > 0
    ensures Descending(SortedMoves(s), 0, |s|)
    ensures multiset(SortedMoves(s)) == multiset(s)
    ensures forall m :: m in SortedMoves(s) <==> m in s
  {
    QuicksortSorts(s, 0, |s| - 1);
    assert SortedMoves(s)[0..|s| - 1 + 1] == SortedMoves(s);
    assert s[0..|s| - 1 + 1] == s;
    assert forall m :: m in SortedMoves(s) <==> m in multiset(SortedMoves(s));
  }

  // ---- quicksort in place ----

  /** sortMoves: sorts the array in place, better moves first (see
      SortedMovesSorted). An empty array fails, as the sort reads the middle
      entry of the whole array. */
  method SortMoves(moves: array<Move>) returns (r: Outcome)
    modifies moves
    ensures r.Fail? <==> moves.Length == 0
    ensures r.Fail? ==> r.error == IndexOutOfBounds
    ensures r.Pass? ==> moves[..] == SortedMoves(old(moves[..]))
  {
    if moves.Length == 0 {
      return Fail(IndexOutOfBounds);
    }
    ghost var before := moves[..];
    assert SortedMoves(before) == QuicksortSeq(before, 0, moves.Length - 1);
    Quicksort(moves, 0, moves.Length - 1);
    return Pass;
  }

  /** quicksort: sorts entries start to end in place. */
  method Quicksort(moves: array<Move>, start: int, end: int)
    requires 0 <= start <= end < moves.Length
    modifies moves
    ensures moves[..] == QuicksortSeq(old(moves[..]), start, end)
    decreases end - start
  {
    var left, right := Partition(moves, start, end);
    if start < right {
      Quicksort(moves, start, right);
    }
    if left < end {
      Quicksort(moves, left, end);
    }
  }

  /** The partition of quicksort: rounds of scans and swaps around the middle
      entry until the scans cross. */
  method Partition(moves: array<Move>, start: int, end: int) returns (left: int, right: int)
    requires 0 <= start <= end < moves.Length
    modifies moves
    ensures var c := PartitionCut(old(moves[..]), start, end);
      moves[..] == c.s && left == c.left && right == c.right
  {
    var divider := moves[(start + end) / 2];
    ghost var lstop, rstop := (start + end) / 2, (start + end) / 2;
    ghost var goal := PartitionCut(moves[..], start, end);
    left, right, lstop, rstop := PartitionStep(moves, start, end, divider, start, end, lstop, rstop);
    while left < right
      invariant start - 1 <= right && left <= end + 1
      invariant left < right ==> Ready(Cut(moves[..], left, right, lstop, rstop), start, end, divider)
      invariant PartLoop(Cut(moves[..], left, right, lstop, rstop), start, end, divider) == goal
      decreases right - left
    {
      left, right, lstop, rstop := PartitionStep(moves, start, end, divider, left, right, lstop, rstop);
    }
  }

  /** One round of the partition: both scans, then the swap if they have not crossed. */
  method PartitionStep(moves: array<Move>, start: int, end: int, divider: Move, left: int, right: int,
                       ghost lstop: int, ghost rstop: int)
    returns (l: int, r: int, ghost lstop': int, ghost rstop': int)
    requires Ready(Cut(moves[..], left, right, lstop, rstop), start, end, divider)
    modifies moves
    ensures Cut(moves[..], l, r, lstop', rstop') ==
      PartStep(Cut(old(moves[..]), left, right, lstop, rstop), start, end, divider)
  {
    l := ScanFromLeft(moves, divider, left, lstop);
    r := ScanFromRight(moves, divider, right, rstop);
    lstop', rstop' := lstop, rstop;
    if l <= r {
      Swap(moves, l, r);
      lstop', rstop' := r, l;
      l := l + 1;
      r := r - 1;
    }
  }

  /** The scan from the left: passes over the entries better than the divider. */
  method ScanFromLeft(moves: array<Move>, divider: Move, left: int, ghost lstop: int) returns (l: int)
    requires 0 <= left <= lstop < moves.Length && Rank(moves[lstop]) <= Rank(divider)
    ensures l == ScanUp(moves[..], left, divider, lstop)
  {
    l := left;
    while CompareMoves(moves[l], divider) > 0
      invariant left <= l <= lstop
      invariant ScanUp(moves[..], l, divider, lstop) == ScanUp(moves[..], left, divider, lstop)
      decreases lstop - l
    {
      l := l + 1;
    }
  }

  /** The scan from the right: passes over the entries worse than the divider. */
  method ScanFromRight(moves: array<Move>, divider: Move, right: int, ghost rstop: int) returns (r: int)
    requires 0 <= rstop <= right < moves.Length && Rank(moves[rstop]) >= Rank(divider)
    ensures r == ScanDown(moves[..], right, divider, rstop)
  {
    r := right;
    while CompareMoves(divider, moves[r]) > 0
      invariant rstop <= r <= right
      invariant ScanDown(moves[..], r, divider, rstop) == ScanDown(moves[..], right, divider, rstop)
      decreases r - rstop
    {
      r := r - 1;
    }
  }

  /** Exchanges entries i and j. */
  method Swap(moves: array<Move>, i: int, j: int)
    requires 0 <= i < moves.Length && 0 <= j < moves.Length
    modifies moves
    ensures moves[..] == old(moves[..])[i := old(moves[j])][j := old(moves[i])]
  {
    var tmp := moves[i];
    moves[i] := moves[j];
    moves[j] := tmp;
  }

  /** Exchanging the entries where the scans stopped extends both bounded regions by one entry. */
  lemma SwapBounds(s: seq<Move>, t: seq<Move>, start: int, end: int, i: int, j: int, d: int)
    requires 0 <= start <= i <= j <= end < |s| && t == s[i := s[j]][j := s[i]]
    requires Rank(s[i]) <= d && Rank(s[j]) >= d
    requires forall k | start <= k < i :: Rank(s[k]) >= d
    requires forall k | j < k <= end :: Rank(s[k]) <= d
    ensures forall k | start <= k <= i :: Rank(t[k]) >= d
    ensures forall k | j <= k <= end :: Rank(t[k]) <= d
  {
  }

  /** Exchanging two entries between start and end keeps the multiset of
      start to end and everything outside it. */
  lemma SwapKeeps(s: seq<Move>, start: int, end: int, i: int, j: int)
    requires 0 <= start <= i <= j <= end < |s|
    ensures multiset(s[i := s[j]][j := s[i]][start..end + 1]) == multiset(s[start..end + 1])
    ensures SameOutside(s, s[i := s[j]][j := s[i]], start, end)
  {
    var t := s[start..end + 1];
    assert s[i := s[j]][j := s[i]][start..end + 1] == t[i - start := t[j - start]][j - start := t[i - start]];
  }

  /** The effect of one recursive call on entries lo to hi: sorted and
      permuted there, nothing else changed; no change at all when lo to hi
      holds fewer than two entries, as the call is then not made. */
  ghost predicate SortedPart(before: seq<Move>, after: seq<Move>, lo: int, hi: int)
    requires 0 <= lo && hi < |before|
  {
    if lo < hi then
      SameOutside(before, after, lo, hi) && Descending(after, lo, hi + 1) &&
      multiset(after[lo..hi + 1]) == multiset(before[lo..hi + 1])
    else after == before
  }

  /** After the partition and the two calls, entries start to end are sorted
      and permuted. */
  lemma Join(initial: seq<Move>, parted: seq<Move>, first: seq<Move>, last: seq<Move>,
             start: int, end: int, left: int, right: int, d: int)
    requires 0 <= start < left && right < end < |initial| && start - 1 <= right <= left <= end + 1
    requires SameOutside(initial, parted, start, end)
    requires multiset(parted[start..end + 1]) == multiset(initial[start..end + 1])
    requires forall k | start <= k < left :: Rank(parted[k]) >= d
    requires forall k | right < k <= end :: Rank(parted[k]) <= d
    requires SortedPart(parted, first, start, right)
    requires SortedPart(first, last, left, end)
    ensures Descending(last, start, end + 1)
    ensures multiset(last[start..end + 1]) == multiset(initial[start..end + 1])
    ensures SameOutside(initial, last, start, end)
  {
    PartsKeep(initial, parted, first, last, start, end, left, right);
    if right < left {
      DisjointParts(parted, first, last, start, end, left, right, d);
    } else {
      OverlappingParts(parted, first, last, start, end, left, d);
    }
  }

  /** The partition and the two calls keep the multiset of start to end and
      everything outside it. */
  lemma PartsKeep(initial: seq<Move>, parted: seq<Move>, first: seq<Move>, last: seq<Move>,
                  start: int, end: int, left: int, right: int)
    requires 0 <= start < left && right < end < |initial| && start - 1 <= right <= left <= end + 1
    requires SameOutside(initial, parted, start, end)
    requires multiset(parted[start..end + 1]) == multiset(initial[start..end + 1])
    requires SortedPart(parted, first, start, right)
    requires SortedPart(first, last, left, end)
    ensures multiset(last[start..end + 1]) == multiset(initial[start..end + 1])
    ensures SameOutside(initial, last, start, end)
  {
    PartMultiset(parted, first, start, right, start, end);
    PartMultiset(first, last, left, end, start, end);
  }

  /** When the scans crossed, the calls sort disjoint parts: the first holds
      ranks at least d, the second ranks at most d. */
  lemma DisjointParts(parted: seq<Move>, first: seq<Move>, last: seq<Move>, start: int, end: int, left: int, right: int, d: int)
    requires 0 <= start < left && right < end < |parted| && start - 1 <= right < left <= end + 1
    requires forall k | start <= k < left :: Rank(parted[k]) >= d
    requires forall k | right < k <= end :: Rank(parted[k]) <= d
    requires SortedPart(parted, first, start, right)
    requires SortedPart(first, last, left, end)
    ensures Descending(last, start, end + 1)
  {
    forall k | start <= k <= right
      ensures last[k] == first[k] && Rank(first[k]) >= d
    {
      MembersKept(parted, first, start, right, k);
    }
    forall k | left <= k <= end
      ensures Rank(last[k]) <= d
    {
      MembersKept(first, last, left, end, k);
    }
    forall i, j | start <= i < j <= end
      ensures Rank(last[i]) >= Rank(last[j])
    {
      if right < i < left {
        assert last[i] == first[i] == parted[i];
      }
      if right < j < left {
        assert last[j] == first[j] == parted[j];
      }
    }
  }

  /** When the scans met on entry m, the calls overlap there: what the first
      call leaves at m, and the divider's rank, bound what the second sorts. */
  lemma OverlappingParts(parted: seq<Move>, first: seq<Move>, last: seq<Move>, start: int, end: int, m: int, d: int)
    requires 0 <= start < m < end < |parted|
    requires forall k | start <= k < m :: Rank(parted[k]) >= d
    requires forall k | m < k <= end :: Rank(parted[k]) <= d
    requires SortedPart(parted, first, start, m)
    requires SortedPart(first, last, m, end)
    ensures Descending(last, start, end + 1)
  {
    OverlapBound(parted, first, start, m, d);
    forall k | m <= k <= end
      ensures Rank(last[k]) <= Rank(first[m]) || Rank(last[k]) <= d
    {
      MembersKept(first, last, m, end, k);
      var j :| m <= j <= end && last[k] == first[j];
      if j > m {
        assert first[j] == parted[j];
      }
    }
    forall i, j | start <= i < j <= end
      ensures Rank(last[i]) >= Rank(last[j])
    {
      if i < m {
        assert last[i] == first[i];
        if j < m {
          assert last[j] == first[j];
        }
      }
    }
  }

  /** After sorting entries start to m, every entry before m ranks at least d,
      when before the sort only entry m could rank below d. */
  lemma OverlapBound(parted: seq<Move>, first: seq<Move>, start: int, m: int, d: int)
    requires 0 <= start < m < |parted|
    requires forall k | start <= k < m :: Rank(parted[k]) >= d
    requires SortedPart(parted, first, start, m)
    ensures forall k | start <= k < m :: Rank(first[k]) >= d
  {
    var x := parted[m];
    var p, f := parted[start..m + 1], first[start..m + 1];
    assert p == parted[start..m] + [x];
    assert f == first[start..m] + [first[m]];
    forall k | start <= k < m
      ensures Rank(first[k]) >= d
    {
      MembersKept(parted, first, start, m, k);
      if Rank(x) < d {
        assert x !in parted[start..m];
        assert multiset(p)[x] == 1;
        if first[m] == x {
          assert multiset(first[start..m])[x] == 0;
          assert first[k] == first[start..m][k - start];
        } else {
          MembersKept(parted, first, start, m, m);
        }
      }
    }
  }

  /** Every entry a call leaves between lo and hi was there before it. */
  lemma MembersKept(before: seq<Move>, after: seq<Move>, lo: int, hi: int, k: int)
    requires 0 <= lo <= k <= hi < |before|
    requires SortedPart(before, after, lo, hi)
    ensures exists j | lo <= j <= hi :: after[k] == before[j]
  {
    if lo < hi {
      assert after[k] == after[lo..hi + 1][k - lo];
      assert after[k] in multiset(before[lo..hi + 1]);
      var j :| 0 <= j < hi + 1 - lo && before[lo..hi + 1][j] == after[k];
      assert after[k] == before[lo + j];
    } else {
      assert after[k] == before[k];
    }
  }

  /** One call changes nothing outside start to end and keeps the multiset of start to end. */
  lemma PartMultiset(before: seq<Move>, after: seq<Move>, lo: int, hi: int, start: int, end: int)
    requires 0 <= start <= lo && hi <= end < |before| && lo <= hi + 1
    requires SortedPart(before, after, lo, hi)
    ensures multiset(after[start..end + 1]) == multiset(before[start..end + 1])
    ensures SameOutside(before, after, start, end)
  {
    if lo < hi {
      assert before[start..end + 1] == before[start..lo] + before[lo..hi + 1] + before[hi + 1..end + 1];
      assert after[start..end + 1] == after[start..lo] + after[lo..hi + 1] + after[hi + 1..end + 1];
      assert after[start..lo] == before[start..lo];
      assert after[hi + 1..end + 1] == before[hi + 1..end + 1];
    }
  }
}
