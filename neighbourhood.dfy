/** Candidate moves (board.py: get_potential_moves): the empty cells next to
    a played cell, moves that win at once placed first. */
module Neighbourhood {
  import opened Cells
  import opened Lines

  /** The eight neighbour offsets, in the order the program lists them
      (dx over -1, 0, 1, then dy over -1, 0, 1, skipping (0, 0)). */
  const Offsets: seq<(int, int)> := [(-1, -1), (-1, 0), (-1, 1), (0, -1), (0, 1), (1, -1), (1, 0), (1, 1)]

  function Neighbour(m: Move, j: nat): Move
    requires j < |Offsets|
  {
    Move(m.row + Offsets[j].0, m.col + Offsets[j].1)
  }

  /** `m` is an 8-neighbour of a played cell, reached while scanning the
      history before move `k`, direction `j`. */
  predicate SeenBefore(b: BoardState, m: Move, k: nat, j: nat)
    requires k <= |b.orderedMoves| && j <= |Offsets|
  {
    exists k', j' | 0 <= k' < |b.orderedMoves| && 0 <= j' < |Offsets| && (k' < k || (k' == k && j' < j)) ::
      m == Neighbour(b.orderedMoves[k'], j')
  }

  /** The set the program builds, after the history up to move `k` and the
      first `j` directions of move `k`, kept in order of first insertion. */
  function Collected(b: BoardState, k: nat, j: nat): seq<Move>
    requires WellFormed(b)
    requires k <= |b.orderedMoves| && j <= |Offsets| && (k == |b.orderedMoves| ==> j == 0)
    decreases k, j
  {
    if j == 0 then
      if k == 0 then [] else Collected(b, k - 1, |Offsets|)
    else
      var prev := Collected(b, k, j - 1);
      var next := Neighbour(b.orderedMoves[k], j - 1);
      if InRange(b, next) && At(b, next) == Empty && next !in prev then prev + [next] else prev
  }

  /** The collected cells are distinct, and they are exactly the empty
      in-range neighbours met so far. */
  lemma {:induction false} CollectedSpec(b: BoardState, k: nat, j: nat)
    requires WellFormed(b)
    requires k <= |b.orderedMoves| && j <= |Offsets| && (k == |b.orderedMoves| ==> j == 0)
    ensures NoDuplicates(Collected(b, k, j))
    ensures forall m :: m in Collected(b, k, j) <==> InRange(b, m) && At(b, m) == Empty && SeenBefore(b, m, k, j)
    decreases k, j
  {
    if j == 0 {
      if k > 0 {
        CollectedSpec(b, k - 1, |Offsets|);
        forall m ensures SeenBefore(b, m, k, 0) <==> SeenBefore(b, m, k - 1, |Offsets|) {
          if SeenBefore(b, m, k, 0) {
            var k', j' :| 0 <= k' < |b.orderedMoves| && 0 <= j' < |Offsets| && (k' < k || (k' == k && j' < 0)) && m == Neighbour(b.orderedMoves[k'], j');
            assert k' < k - 1 || (k' == k - 1 && j' < |Offsets|);
          }
        }
      }
    } else {
      CollectedSpec(b, k, j - 1);
      var prev := Collected(b, k, j - 1);
      var next := Neighbour(b.orderedMoves[k], j - 1);
      forall m ensures SeenBefore(b, m, k, j) <==> SeenBefore(b, m, k, j - 1) || m == next {
        if SeenBefore(b, m, k, j) && m != next {
          var k', j' :| 0 <= k' < |b.orderedMoves| && 0 <= j' < |Offsets| && (k' < k || (k' == k && j' < j)) && m == Neighbour(b.orderedMoves[k'], j');
          assert k' < k || (k' == k && j' < j - 1);
        }
      }
    }
  }

  /** All empty 8-neighbours of played cells, each once. */
  function NeighbourCells(b: BoardState): (found: seq<Move>)
    requires WellFormed(b)
    ensures NoDuplicates(found)
    ensures forall m :: m in found <==> InRange(b, m) && At(b, m) == Empty && SeenBefore(b, m, |b.orderedMoves|, 0)
  {
    CollectedSpec(b, |b.orderedMoves|, 0);
    Collected(b, |b.orderedMoves|, 0)
  }

  /** Every listed move is in range. */
  predicate AllInRange(b: BoardState, ms: seq<Move>) {
    forall i | 0 <= i < |ms| :: InRange(b, ms[i])
  }

  /** The listed moves that win at once for `s`. */
  function Winning(b: BoardState, s: Symbol, ms: seq<Move>): set<Move>
    requires WellFormed(b) && AllInRange(b, ms)
  {
    set i | 0 <= i < |ms| && IsWinningMove(b, s, ms[i]) :: ms[i]
  }

  /** A listed move is in the winning set exactly when it wins at once. */
  lemma WinningMember(b: BoardState, s: Symbol, ms: seq<Move>, m: Move)
    requires WellFormed(b) && AllInRange(b, ms) && m in ms
    ensures m in Winning(b, s, ms) <==> IsWinningMove(b, s, m)
  {
    var i :| 0 <= i < |ms| && ms[i] == m;
  }

  /** Members of `w` precede all other moves. */
  predicate FirstAmong(w: set<Move>, ms: seq<Move>) {
    forall i, j | 0 <= i < |ms| && 0 <= j < |ms| && ms[j] in w && ms[i] !in w :: j < i
  }

  /** Winning moves precede all other moves. */
  predicate WinnersFirst(b: BoardState, s: Symbol, ms: seq<Move>)
    requires WellFormed(b) && AllInRange(b, ms)
  {
    forall i, j | 0 <= i < |ms| && 0 <= j < |ms| && IsWinningMove(b, s, ms[j]) && !IsWinningMove(b, s, ms[i]) :: j < i
  }

  /** The second loop of get_potential_moves after its first `n` moves, with
      `w` the moves that win: a winning move is inserted at the front, any
      other appended. */
  function Arranged(ms: seq<Move>, w: set<Move>, n: nat): (r: seq<Move>)
    requires n <= |ms|
    ensures multiset(r) == multiset(ms[..n])
    decreases n
  {
    if n == 0 then []
    else
      var prev, m := Arranged(ms, w, n - 1), ms[n - 1];
      assert ms[..n] == ms[..n - 1] + [m];
      if m in w then [m] + prev else prev + [m]
  }

  /** Front insertion of winning moves and appending of the others keeps
      every winning move ahead of every other move. */
  lemma {:induction false} ArrangedFirstAmong(ms: seq<Move>, w: set<Move>, n: nat)
    requires n <= |ms|
    ensures FirstAmong(w, Arranged(ms, w, n))
  {
    if n > 0 {
      ArrangedFirstAmong(ms, w, n - 1);
      var prev, m := Arranged(ms, w, n - 1), ms[n - 1];
      if m in w {
        PrependKeepsFirst(w, m, prev);
      } else {
        AppendKeepsFirst(w, m, prev);
      }
    }
  }

  lemma PrependKeepsFirst(w: set<Move>, m: Move, prev: seq<Move>)
    requires m in w && FirstAmong(w, prev)
    ensures FirstAmong(w, [m] + prev)
  {
    var r := [m] + prev;
    forall i, j | 0 <= i < |r| && 0 <= j < |r| && r[j] in w && r[i] !in w
      ensures j < i
    {
      assert i > 0;
      if j > 0 {
        assert r[j] == prev[j - 1] && r[i] == prev[i - 1];
      }
    }
  }

  lemma AppendKeepsFirst(w: set<Move>, m: Move, prev: seq<Move>)
    requires m !in w && FirstAmong(w, prev)
    ensures FirstAmong(w, prev + [m])
  {
    var r := prev + [m];
    forall i, j | 0 <= i < |r| && 0 <= j < |r| && r[j] in w && r[i] !in w
      ensures j < i
    {
      assert j < |prev|;
      if i < |prev| {
        assert r[j] == prev[j] && r[i] == prev[i];
      }
    }
  }

  /** Distinct elements stay distinct under a permutation. */
  lemma PermutationKeepsNoDuplicates(a: seq<Move>, r: seq<Move>)
    requires multiset(r) == multiset(a) && NoDuplicates(a)
    ensures NoDuplicates(r)
  {
    forall i, j | 0 <= i < j < |r| ensures r[i] != r[j] {
      if r[i] == r[j] {
        var x := r[i];
        assert multiset(r)[x] >= 2 by {
          assert r == r[..i] + [x] + r[i + 1..j] + [x] + r[j + 1..];
        }
        DistinctCountsOnce(a, x);
        assert false;
      }
    }
  }

  lemma {:induction false} DistinctCountsOnce(a: seq<Move>, x: Move)
    requires NoDuplicates(a)
    ensures multiset(a)[x] <= 1
  {
    if a != [] {
      assert a == [a[0]] + a[1..];
      DistinctCountsOnce(a[1..], x);
      if a[0] == x {
        assert x !in a[1..];
      }
    }
  }

  /** get_potential_moves. */
  function PotentialMoves(b: BoardState, s: Symbol): seq<Move>
    requires WellFormed(b)
  {
    var found := NeighbourCells(b);
    Arranged(found, Winning(b, s, found), |found|)
  }

  /** The candidates are exactly the empty in-range 8-neighbours of played
      cells, each listed once, winning moves first. */
  lemma PotentialMovesSpec(b: BoardState, s: Symbol)
    requires WellFormed(b)
    ensures var r := PotentialMoves(b, s);
      && NoDuplicates(r)
      && AllInRange(b, r)
      && WinnersFirst(b, s, r)
      && forall m :: m in r <==> IsValidMove(b, m) && exists k, j | 0 <= k < |b.orderedMoves| && 0 <= j < |Offsets| :: m == Neighbour(b.orderedMoves[k], j)
  {
    var found := NeighbourCells(b);
    var r := PotentialMoves(b, s);
    SameMembers(b, s);
    PermutationKeepsNoDuplicates(found, r);
    assert AllInRange(b, r) by {
      forall i | 0 <= i < |r| ensures InRange(b, r[i]) {
        assert r[i] in found;
      }
    }
    PotentialWinnersFirst(b, s);
  }

  /** The arrangement is a permutation of the collected cells. */
  lemma SameMembers(b: BoardState, s: Symbol)
    requires WellFormed(b)
    ensures multiset(PotentialMoves(b, s)) == multiset(NeighbourCells(b))
    ensures forall m :: m in PotentialMoves(b, s) <==> m in NeighbourCells(b)
  {
    var found := NeighbourCells(b);
    var r := PotentialMoves(b, s);
    assert found[..|found|] == found;
    forall m ensures m in r <==> m in found {
      assert m in r <==> m in multiset(r);
    }
  }

  lemma PotentialWinnersFirst(b: BoardState, s: Symbol)
    requires WellFormed(b)
    requires AllInRange(b, PotentialMoves(b, s))
    ensures WinnersFirst(b, s, PotentialMoves(b, s))
  {
    var found := NeighbourCells(b);
    var w := Winning(b, s, found);
    var r := PotentialMoves(b, s);
    SameMembers(b, s);
    ArrangedFirstAmong(found, w, |found|);
    forall i, j | 0 <= i < |r| && 0 <= j < |r| && IsWinningMove(b, s, r[j]) && !IsWinningMove(b, s, r[i])
      ensures j < i
    {
      assert r[j] in found && r[i] in found;
      WinningMember(b, s, found, r[j]);
      WinningMember(b, s, found, r[i]);
    }
  }
}
