/** The pattern-score table (utils.py, create_pattern_dict): scores for
    short line patterns, where 0 is a free cell, i a stone of the side
    being scored and y the stone that blocks it. */
module Patterns {

  /** A line pattern: a tuple of four to seven cell codes. */
  datatype Pattern =
    | P4(int, int, int, int)
    | P5(int, int, int, int, int)
    | P6(int, int, int, int, int, int)
    | P7(int, int, int, int, int, int, int)

  /** The two passes of the loop: the opponent (-1), then the player (1). */
  const Signs: seq<int> := [-1, 1]

  /** One pass of the loop body for side `i` with blocker `y`: the
      assignments in program order (five in a row, the fours, the threes,
      the twos), a later one overwriting an earlier one with the same
      key. */
  function Pass(d: map<Pattern, int>, i: int, y: int): map<Pattern, int> {
    d[P5(i, i, i, i, i) := 1000000 * i]
     [P6(0, i, i, i, i, 0) := 100000 * i]
     [P7(0, i, i, i, 0, i, 0) := 100000 * i]
     [P7(0, i, 0, i, i, i, 0) := 100000 * i]
     [P7(0, i, i, 0, i, i, 0) := 100000 * i]
     [P6(0, i, i, i, i, y) := 10000 * i]
     [P6(y, i, i, i, i, 0) := 10000 * i]
     [P6(y, i, i, i, i, y) := -10 * i]
     [P5(0, i, i, i, 0) := 1000 * i]
     [P6(0, i, 0, i, i, 0) := 1000 * i]
     [P6(0, i, i, 0, i, 0) := 1000 * i]
     [P6(0, 0, i, i, i, y) := 100 * i]
     [P6(y, i, i, i, 0, 0) := 100 * i]
     [P6(0, i, 0, i, i, y) := 100 * i]
     [P6(y, i, i, 0, i, 0) := 100 * i]
     [P5(y, i, i, i, y) := -10 * i]
     [P5(0, 0, i, i, 0) := 100 * i]
     [P5(0, i, i, 0, 0) := 100 * i]
     [P5(0, i, 0, i, 0) := 100 * i]
     [P6(0, 0, 0, i, i, y) := 10 * i]
     [P6(y, i, i, 0, 0, 0) := 10 * i]
     [P4(y, i, i, y) := -10 * i]
  }

  /** The table after the first `n` passes, with the blocker the program
      uses: `y = i`. */
  function Passes(n: nat): map<Pattern, int>
    requires n <= |Signs|
  {
    if n == 0 then map[] else Pass(Passes(n - 1), Signs[n - 1], Signs[n - 1])
  }

  /** The table create_pattern_dict returns. */
  function PatternDict(): map<Pattern, int> {
    Passes(|Signs|)
  }

  /** create_pattern_dict: the loop over both sides, each pass assigning the
      22 entries in order. */
  method CreatePatternDict() returns (patternDict: map<Pattern, int>)
    ensures patternDict == PatternDict()
  {
    patternDict := map[];
    var signs := [-1, 1];
    for n := 0 to |signs|
      invariant patternDict == Passes(n)
    {
      var i := signs[n];
      var y := i;
      patternDict := patternDict[P5(i, i, i, i, i) := 1000000 * i];
      patternDict := patternDict[P6(0, i, i, i, i, 0) := 100000 * i];
      patternDict := patternDict[P7(0, i, i, i, 0, i, 0) := 100000 * i];
      patternDict := patternDict[P7(0, i, 0, i, i, i, 0) := 100000 * i];
      patternDict := patternDict[P7(0, i, i, 0, i, i, 0) := 100000 * i];
      patternDict := patternDict[P6(0, i, i, i, i, y) := 10000 * i];
      patternDict := patternDict[P6(y, i, i, i, i, 0) := 10000 * i];
      patternDict := patternDict[P6(y, i, i, i, i, y) := -10 * i];
      patternDict := patternDict[P5(0, i, i, i, 0) := 1000 * i];
      patternDict := patternDict[P6(0, i, 0, i, i, 0) := 1000 * i];
      patternDict := patternDict[P6(0, i, i, 0, i, 0) := 1000 * i];
      patternDict := patternDict[P6(0, 0, i, i, i, y) := 100 * i];
      patternDict := patternDict[P6(y, i, i, i, 0, 0) := 100 * i];
      patternDict := patternDict[P6(0, i, 0, i, i, y) := 100 * i];
      patternDict := patternDict[P6(y, i, i, 0, i, 0) := 100 * i];
      patternDict := patternDict[P5(y, i, i, i, y) := -10 * i];
      patternDict := patternDict[P5(0, 0, i, i, 0) := 100 * i];
      patternDict := patternDict[P5(0, i, i, 0, 0) := 100 * i];
      patternDict := patternDict[P5(0, i, 0, i, 0) := 100 * i];
      patternDict := patternDict[P6(0, 0, 0, i, i, y) := 10 * i];
      patternDict := patternDict[P6(y, i, i, 0, 0, 0) := 10 * i];
      patternDict := patternDict[P4(y, i, i, y) := -10 * i];
    }
  }

  /** The 21 entries one pass leaves when `y = i`: the dead-three key
      (y, i, i, i, y) is the five-in-a-row key, so -10 * i replaces
      1000000 * i. */
  function Survivors(i: int): map<Pattern, int> {
    map[P5(i, i, i, i, i) := -10 * i,
        P6(0, i, i, i, i, 0) := 100000 * i,
        P7(0, i, i, i, 0, i, 0) := 100000 * i,
        P7(0, i, 0, i, i, i, 0) := 100000 * i,
        P7(0, i, i, 0, i, i, 0) := 100000 * i,
        P6(0, i, i, i, i, i) := 10000 * i,
        P6(i, i, i, i, i, 0) := 10000 * i,
        P6(i, i, i, i, i, i) := -10 * i,
        P5(0, i, i, i, 0) := 1000 * i,
        P6(0, i, 0, i, i, 0) := 1000 * i,
        P6(0, i, i, 0, i, 0) := 1000 * i,
        P6(0, 0, i, i, i, i) := 100 * i,
        P6(i, i, i, i, 0, 0) := 100 * i,
        P6(0, i, 0, i, i, i) := 100 * i,
        P6(i, i, i, 0, i, 0) := 100 * i,
        P5(0, 0, i, i, 0) := 100 * i,
        P5(0, i, i, 0, 0) := 100 * i,
        P5(0, i, 0, i, 0) := 100 * i,
        P6(0, 0, 0, i, i, i) := 10 * i,
        P6(i, i, i, 0, 0, 0) := 10 * i,
        P4(i, i, i, i) := -10 * i]
  }

  /** A pass with `y = i` adds the side's survivors to the table, replacing
      the values of keys already present. */
  lemma OnePass(d: map<Pattern, int>, i: int)
    ensures Pass(d, i, i) == d + Survivors(i)
  {
  }

  /** The table the program builds: both sides' survivors. */
  lemma PatternDictEntries()
    ensures PatternDict() == Survivors(-1) + Survivors(1)
  {
    OnePass(map[], -1);
    assert map[] + Survivors(-1) == Survivors(-1);
    assert Passes(1) == Survivors(-1);
    OnePass(Survivors(-1), 1);
  }

  /** The codes of a pattern, as the program's tuple. */
  function Codes(p: Pattern): (cs: seq<int>)
    ensures 4 <= |cs| <= 7
  {
    match p
    case P4(a, b, c, d) => [a, b, c, d]
    case P5(a, b, c, d, e) => [a, b, c, d, e]
    case P6(a, b, c, d, e, f) => [a, b, c, d, e, f]
    case P7(a, b, c, d, e, f, g) => [a, b, c, d, e, f, g]
  }

  /** The elementwise negation of a pattern. */
  function Neg(p: Pattern): Pattern {
    match p
    case P4(a, b, c, d) => P4(-a, -b, -c, -d)
    case P5(a, b, c, d, e) => P5(-a, -b, -c, -d, -e)
    case P6(a, b, c, d, e, f) => P6(-a, -b, -c, -d, -e, -f)
    case P7(a, b, c, d, e, f, g) => P7(-a, -b, -c, -d, -e, -f, -g)
  }

  /** Every code of the pattern is 0 or `i`, and some code is `i`. */
  predicate OwnedBy(p: Pattern, i: int) {
    (forall j | 0 <= j < |Codes(p)| :: Codes(p)[j] == 0 || Codes(p)[j] == i)
    && i in Codes(p)
  }

  /** Each side's keys hold only free cells and that side's stones. */
  lemma SurvivorsOwned(i: int)
    requires i == -1 || i == 1
    ensures forall k | k in Survivors(i) :: OwnedBy(k, i)
  {
  }

  /** The player's and the opponent's keys are disjoint. */
  lemma SidesDisjoint()
    ensures Survivors(-1).Keys !! Survivors(1).Keys
  {
    SurvivorsOwned(-1);
    SurvivorsOwned(1);
  }

  /** Every key of `m` negates to a key of `n` holding the negated value. */
  predicate NegatesInto(m: map<Pattern, int>, n: map<Pattern, int>) {
    forall k | k in m :: Neg(k) in n && n[Neg(k)] == -m[k]
  }

  /** Keys of each length negating into `n` is every key doing so. */
  lemma {:induction false} NegatesByLength(m: map<Pattern, int>, n: map<Pattern, int>)
    requires forall k | k in m && k.P4? :: Neg(k) in n && n[Neg(k)] == -m[k]
    requires forall k | k in m && k.P5? :: Neg(k) in n && n[Neg(k)] == -m[k]
    requires forall k | k in m && k.P6? :: Neg(k) in n && n[Neg(k)] == -m[k]
    requires forall k | k in m && k.P7? :: Neg(k) in n && n[Neg(k)] == -m[k]
    ensures NegatesInto(m, n)
  {
  }

  /** Two disjoint halves that negate into each other make a table that
      negates into itself. */
  lemma {:induction false} UnionNegates(m: map<Pattern, int>, n: map<Pattern, int>)
    requires m.Keys !! n.Keys && NegatesInto(m, n) && NegatesInto(n, m)
    ensures NegatesInto(m + n, m + n)
  {
    forall k | k in m + n ensures Neg(k) in m + n && (m + n)[Neg(k)] == -(m + n)[k] {
      if k in m {
        assert Neg(k) in n;
      } else {
        assert Neg(k) in m && Neg(k) !in n;
      }
    }
  }

  /** Negating a key of one side gives the key of the other side that the
      same assignment wrote, with the negated value; shown one key length
      at a time. */
  lemma OpponentNegates4()
    ensures forall k | k in Survivors(-1) && k.P4? :: Neg(k) in Survivors(1) && Survivors(1)[Neg(k)] == -Survivors(-1)[k]
  {
  }

  lemma OpponentNegates5()
    ensures forall k | k in Survivors(-1) && k.P5? :: Neg(k) in Survivors(1) && Survivors(1)[Neg(k)] == -Survivors(-1)[k]
  {
  }

  lemma OpponentNegates6()
    ensures forall k | k in Survivors(-1) && k.P6? :: Neg(k) in Survivors(1) && Survivors(1)[Neg(k)] == -Survivors(-1)[k]
  {
  }

  lemma OpponentNegates7()
    ensures forall k | k in Survivors(-1) && k.P7? :: Neg(k) in Survivors(1) && Survivors(1)[Neg(k)] == -Survivors(-1)[k]
  {
  }

  lemma PlayerNegates4()
    ensures forall k | k in Survivors(1) && k.P4? :: Neg(k) in Survivors(-1) && Survivors(-1)[Neg(k)] == -Survivors(1)[k]
  {
  }

  lemma PlayerNegates5()
    ensures forall k | k in Survivors(1) && k.P5? :: Neg(k) in Survivors(-1) && Survivors(-1)[Neg(k)] == -Survivors(1)[k]
  {
  }

  lemma PlayerNegates6()
    ensures forall k | k in Survivors(1) && k.P6? :: Neg(k) in Survivors(-1) && Survivors(-1)[Neg(k)] == -Survivors(1)[k]
  {
  }

  lemma PlayerNegates7()
    ensures forall k | k in Survivors(1) && k.P7? :: Neg(k) in Survivors(-1) && Survivors(-1)[Neg(k)] == -Survivors(1)[k]
  {
  }

  lemma OpponentSideNegates()
    ensures NegatesInto(Survivors(-1), Survivors(1))
  {
    OpponentNegates4(); OpponentNegates5(); OpponentNegates6(); OpponentNegates7();
    NegatesByLength(Survivors(-1), Survivors(1));
  }

  lemma PlayerSideNegates()
    ensures NegatesInto(Survivors(1), Survivors(-1))
  {
    PlayerNegates4(); PlayerNegates5(); PlayerNegates6(); PlayerNegates7();
    NegatesByLength(Survivors(1), Survivors(-1));
  }

  /** The passes for -1 and 1 make the same assignments, so for every key
      the negated key is present with the negated value. */
  lemma NegationSymmetric()
    ensures NegatesInto(PatternDict(), PatternDict())
  {
    OpponentSideNegates();
    PlayerSideNegates();
    SidesDisjoint();
    UnionNegates(Survivors(-1), Survivors(1));
    PatternDictEntries();
  }

  /** A code 0, i or -i as a digit 0, 1 or 2. */
  function Digit(x: int, i: int): int {
    if x == 0 then 0 else if x == i then 1 else 2
  }

  /** A number for a pattern of side `i`: its length, then its codes as
      base-3 digits. Equal patterns have equal numbers, so a list of keys
      whose numbers increase has no repeated key. */
  function Rank(p: Pattern, i: int): int {
    match p
    case P4(a, b, c, d) =>
      (((4 * 3 + Digit(a, i)) * 3 + Digit(b, i)) * 3 + Digit(c, i)) * 3 + Digit(d, i)
    case P5(a, b, c, d, e) =>
      ((((5 * 3 + Digit(a, i)) * 3 + Digit(b, i)) * 3 + Digit(c, i)) * 3 + Digit(d, i)) * 3 + Digit(e, i)
    case P6(a, b, c, d, e, f) =>
      (((((6 * 3 + Digit(a, i)) * 3 + Digit(b, i)) * 3 + Digit(c, i)) * 3 + Digit(d, i)) * 3 + Digit(e, i)) * 3
        + Digit(f, i)
    case P7(a, b, c, d, e, f, g) =>
      ((((((7 * 3 + Digit(a, i)) * 3 + Digit(b, i)) * 3 + Digit(c, i)) * 3 + Digit(d, i)) * 3 + Digit(e, i)) * 3
        + Digit(f, i)) * 3 + Digit(g, i)
  }

  /** The ranks of `ks[lo..hi]` increase step by step. */
  predicate RanksIncrease(ks: seq<Pattern>, i: int, lo: int, hi: int)
    requires 0 <= lo <= hi <= |ks|
  {
    forall n | lo <= n < hi - 1 :: Rank(ks[n], i) < Rank(ks[n + 1], i)
  }

  /** Every key after the first ranks above it. */
  lemma {:induction false} RanksAbove(ks: seq<Pattern>, i: int)
    requires RanksIncrease(ks, i, 0, |ks|) && ks != []
    ensures forall n | 0 < n < |ks| :: Rank(ks[0], i) < Rank(ks[n], i)
  {
    if |ks| > 1 {
      RanksAbove(ks[1..], i);
      assert forall n | 0 < n < |ks| - 1 :: ks[1..][n] == ks[n + 1];
    }
  }

  /** Keys with increasing ranks are distinct: as many keys as entries. */
  lemma {:induction false} IncreasingKeysDistinct(ks: seq<Pattern>, i: int)
    requires RanksIncrease(ks, i, 0, |ks|)
    ensures |set k | k in ks| == |ks|
  {
    if ks != [] {
      RanksAbove(ks, i);
      assert RanksIncrease(ks[1..], i, 0, |ks| - 1);
      IncreasingKeysDistinct(ks[1..], i);
      assert ks[0] !in ks[1..];
      assert (set k | k in ks) == {ks[0]} + set k | k in ks[1..];
    }
  }

  /** The keys of Survivors(i), in increasing rank. */
  function SurvivorKeys(i: int): seq<Pattern> {
    [P4(i, i, i, i),
     P5(0, 0, i, i, 0),
     P5(0, i, 0, i, 0),
     P5(0, i, i, 0, 0),
     P5(0, i, i, i, 0),
     P5(i, i, i, i, i),
     P6(0, 0, 0, i, i, i),
     P6(0, 0, i, i, i, i),
     P6(0, i, 0, i, i, 0),
     P6(0, i, 0, i, i, i),
     P6(0, i, i, 0, i, 0),
     P6(0, i, i, i, i, 0),
     P6(0, i, i, i, i, i),
     P6(i, i, i, 0, 0, 0),
     P6(i, i, i, 0, i, 0),
     P6(i, i, i, i, 0, 0),
     P6(i, i, i, i, i, 0),
     P6(i, i, i, i, i, i),
     P7(0, i, 0, i, i, i, 0),
     P7(0, i, i, 0, i, i, 0),
     P7(0, i, i, i, 0, i, 0)]
  }

  lemma OpponentKeysIncrease()
    ensures RanksIncrease(SurvivorKeys(-1), -1, 0, |SurvivorKeys(-1)|)
  {
  }

  lemma PlayerKeysIncrease()
    ensures RanksIncrease(SurvivorKeys(1), 1, 0, |SurvivorKeys(1)|)
  {
  }

  /** One pass with `y = i` leaves 21 distinct keys. */
  lemma SurvivorCount(i: int)
    requires i == -1 || i == 1
    ensures |Survivors(i).Keys| == 21
  {
    assert Survivors(i).Keys == set k | k in SurvivorKeys(i);
    if i == -1 { OpponentKeysIncrease(); } else { PlayerKeysIncrease(); }
    IncreasingKeysDistinct(SurvivorKeys(i), i);
  }

  /** Merging disjoint tables adds their key counts. */
  lemma {:induction false} DisjointUnionCount(m: map<Pattern, int>, n: map<Pattern, int>)
    requires m.Keys !! n.Keys
    ensures |(m + n).Keys| == |m.Keys| + |n.Keys|
  {
    assert (m + n).Keys == m.Keys + n.Keys;
  }

  /** Each side leaves 21 distinct keys, 42 in all. */
  lemma KeyCount()
    ensures |PatternDict().Keys| == 42
  {
    PatternDictEntries();
    SidesDisjoint();
    SurvivorCount(-1);
    SurvivorCount(1);
    DisjointUnionCount(Survivors(-1), Survivors(1));
  }

  /** Every value one side leaves lies within 100000 of 0. */
  lemma SurvivorsBounded(i: int)
    requires i == -1 || i == 1
    ensures forall k | k in Survivors(i) :: -100000 <= Survivors(i)[k] <= 100000
  {
  }

  /** The value a key of side `i` has in the final table. */
  lemma FinalValue(i: int, k: Pattern)
    requires i == -1 || i == 1
    requires k in Survivors(i)
    ensures k in PatternDict() && PatternDict()[k] == Survivors(i)[k]
  {
    PatternDictEntries();
    SidesDisjoint();
  }

  /** Some of the final values, for either side. */
  lemma FinalValues(i: int)
    requires i == -1 || i == 1
    ensures P6(0, i, i, i, i, 0) in PatternDict() && PatternDict()[P6(0, i, i, i, i, 0)] == 100000 * i
    ensures P6(0, i, i, i, i, i) in PatternDict() && PatternDict()[P6(0, i, i, i, i, i)] == 10000 * i
    ensures P6(i, i, i, i, i, i) in PatternDict() && PatternDict()[P6(i, i, i, i, i, i)] == -10 * i
    ensures P5(0, i, i, i, 0) in PatternDict() && PatternDict()[P5(0, i, i, i, 0)] == 1000 * i
    ensures P4(i, i, i, i) in PatternDict() && PatternDict()[P4(i, i, i, i)] == -10 * i
  {
    FinalValue(i, P6(0, i, i, i, i, 0));
    FinalValue(i, P6(0, i, i, i, i, i));
    FinalValue(i, P6(i, i, i, i, i, i));
    FinalValue(i, P5(0, i, i, i, 0));
    FinalValue(i, P4(i, i, i, i));
  }

  /** The five-in-a-row entry written first by each pass is overwritten by
      the dead-three entry, so no value of size 1000000 remains: every
      value lies within 100000 of 0. */
  lemma FiveInRowOverwritten(i: int)
    requires i == -1 || i == 1
    ensures P5(i, i, i, i, i) in Pass(map[], i, i) && Pass(map[], i, i)[P5(i, i, i, i, i)] == -10 * i
    ensures P5(i, i, i, i, i) in PatternDict() && PatternDict()[P5(i, i, i, i, i)] == -10 * i
    ensures forall k | k in PatternDict() :: -100000 <= PatternDict()[k] <= 100000
  {
    OnePass(map[], i);
    FinalValue(i, P5(i, i, i, i, i));
    PatternDictEntries();
    SurvivorsBounded(-1);
    SurvivorsBounded(1);
  }

  /** The table with the blocker as evidently intended, the other side's
      stone: `y = -i`. */
  function IntendedPatternDict(): map<Pattern, int> {
    Pass(Pass(map[], -1, 1), 1, -1)
  }

  /** The 22 entries one pass leaves when `y = -i`: no key repeats. */
  function IntendedSurvivors(i: int): map<Pattern, int> {
    map[P5(i, i, i, i, i) := 1000000 * i,
        P6(0, i, i, i, i, 0) := 100000 * i,
        P7(0, i, i, i, 0, i, 0) := 100000 * i,
        P7(0, i, 0, i, i, i, 0) := 100000 * i,
        P7(0, i, i, 0, i, i, 0) := 100000 * i,
        P6(0, i, i, i, i, -i) := 10000 * i,
        P6(-i, i, i, i, i, 0) := 10000 * i,
        P6(-i, i, i, i, i, -i) := -10 * i,
        P5(0, i, i, i, 0) := 1000 * i,
        P6(0, i, 0, i, i, 0) := 1000 * i,
        P6(0, i, i, 0, i, 0) := 1000 * i,
        P6(0, 0, i, i, i, -i) := 100 * i,
        P6(-i, i, i, i, 0, 0) := 100 * i,
        P6(0, i, 0, i, i, -i) := 100 * i,
        P6(-i, i, i, 0, i, 0) := 100 * i,
        P5(-i, i, i, i, -i) := -10 * i,
        P5(0, 0, i, i, 0) := 100 * i,
        P5(0, i, i, 0, 0) := 100 * i,
        P5(0, i, 0, i, 0) := 100 * i,
        P6(0, 0, 0, i, i, -i) := 10 * i,
        P6(-i, i, i, 0, 0, 0) := 10 * i,
        P4(-i, i, i, -i) := -10 * i]
  }

  lemma IntendedOnePass(d: map<Pattern, int>, i: int)
    requires i == -1 || i == 1
    ensures Pass(d, i, -i) == d + IntendedSurvivors(i)
  {
  }

  lemma IntendedEntries()
    ensures IntendedPatternDict() == IntendedSurvivors(-1) + IntendedSurvivors(1)
  {
    IntendedOnePass(map[], -1);
    assert map[] + IntendedSurvivors(-1) == IntendedSurvivors(-1);
    IntendedOnePass(IntendedSurvivors(-1), 1);
  }

  /** The keys of IntendedSurvivors(i), in increasing rank. */
  function IntendedKeys(i: int): seq<Pattern> {
    [P4(-i, i, i, -i),
     P5(0, 0, i, i, 0),
     P5(0, i, 0, i, 0),
     P5(0, i, i, 0, 0),
     P5(0, i, i, i, 0),
     P5(i, i, i, i, i),
     P5(-i, i, i, i, -i),
     P6(0, 0, 0, i, i, -i),
     P6(0, 0, i, i, i, -i),
     P6(0, i, 0, i, i, 0),
     P6(0, i, 0, i, i, -i),
     P6(0, i, i, 0, i, 0),
     P6(0, i, i, i, i, 0),
     P6(0, i, i, i, i, -i),
     P6(-i, i, i, 0, 0, 0),
     P6(-i, i, i, 0, i, 0),
     P6(-i, i, i, i, 0, 0),
     P6(-i, i, i, i, i, 0),
     P6(-i, i, i, i, i, -i),
     P7(0, i, 0, i, i, i, 0),
     P7(0, i, i, 0, i, i, 0),
     P7(0, i, i, i, 0, i, 0)]
  }

  lemma IntendedOpponentKeysIncrease()
    ensures RanksIncrease(IntendedKeys(-1), -1, 0, |IntendedKeys(-1)|)
  {
  }

  lemma IntendedPlayerKeysIncrease()
    ensures RanksIncrease(IntendedKeys(1), 1, 0, |IntendedKeys(1)|)
  {
  }

  /** One pass with `y = -i` keeps all 22 keys. */
  lemma IntendedCount(i: int)
    requires i == -1 || i == 1
    ensures |IntendedSurvivors(i).Keys| == 22
  {
    assert IntendedSurvivors(i).Keys == set k | k in IntendedKeys(i);
    if i == -1 { IntendedOpponentKeysIncrease(); } else { IntendedPlayerKeysIncrease(); }
    IncreasingKeysDistinct(IntendedKeys(i), i);
  }

  /** The interior of a pattern: its codes without the two ends. */
  function Interior(p: Pattern): seq<int> {
    match p
    case P4(_, b, c, _) => [b, c]
    case P5(_, b, c, d, _) => [b, c, d]
    case P6(_, b, c, d, e, _) => [b, c, d, e]
    case P7(_, b, c, d, e, f, _) => [b, c, d, e, f]
  }

  /** Every interior code is 0 or `i`, and some interior code is `i`: a
      blocker stands only at an end. */
  predicate OwnedInside(p: Pattern, i: int) {
    (forall c | c in Interior(p) :: c == 0 || c == i) && i in Interior(p)
  }

  /** With `y = -i` the blockers stand at the ends only. */
  lemma IntendedOwnedInside(i: int)
    requires i == -1 || i == 1
    ensures forall k | k in IntendedSurvivors(i) :: OwnedInside(k, i)
  {
  }

  /** The two sides of the intended table are disjoint. */
  lemma IntendedSidesDisjoint()
    ensures IntendedSurvivors(-1).Keys !! IntendedSurvivors(1).Keys
  {
    IntendedOwnedInside(-1);
    IntendedOwnedInside(1);
  }

  /** With `y = -i` five in a row keeps its score of 1000000 * i. */
  lemma IntendedKeepsFive(i: int)
    requires i == -1 || i == 1
    ensures P5(i, i, i, i, i) in IntendedPatternDict()
    ensures IntendedPatternDict()[P5(i, i, i, i, i)] == 1000000 * i
  {
    IntendedEntries();
    IntendedSidesDisjoint();
  }

  /** With `y = -i` each pass keeps all 22 keys, 44 in all. */
  lemma IntendedKeyCount()
    ensures |IntendedPatternDict().Keys| == 44
  {
    IntendedEntries();
    IntendedSidesDisjoint();
    IntendedCount(-1);
    IntendedCount(1);
    DisjointUnionCount(IntendedSurvivors(-1), IntendedSurvivors(1));
  }

  /** The same for the intended table. */
  lemma IntendedOpponentNegates4()
    ensures forall k | k in IntendedSurvivors(-1) && k.P4? :: Neg(k) in IntendedSurvivors(1) && IntendedSurvivors(1)[Neg(k)] == -IntendedSurvivors(-1)[k]
  {
  }

  lemma IntendedOpponentNegates5()
    ensures forall k | k in IntendedSurvivors(-1) && k.P5? :: Neg(k) in IntendedSurvivors(1) && IntendedSurvivors(1)[Neg(k)] == -IntendedSurvivors(-1)[k]
  {
  }

  lemma IntendedOpponentNegates6()
    ensures forall k | k in IntendedSurvivors(-1) && k.P6? :: Neg(k) in IntendedSurvivors(1) && IntendedSurvivors(1)[Neg(k)] == -IntendedSurvivors(-1)[k]
  {
  }

  lemma IntendedOpponentNegates7()
    ensures forall k | k in IntendedSurvivors(-1) && k.P7? :: Neg(k) in IntendedSurvivors(1) && IntendedSurvivors(1)[Neg(k)] == -IntendedSurvivors(-1)[k]
  {
  }

  lemma IntendedPlayerNegates4()
    ensures forall k | k in IntendedSurvivors(1) && k.P4? :: Neg(k) in IntendedSurvivors(-1) && IntendedSurvivors(-1)[Neg(k)] == -IntendedSurvivors(1)[k]
  {
  }

  lemma IntendedPlayerNegates5()
    ensures forall k | k in IntendedSurvivors(1) && k.P5? :: Neg(k) in IntendedSurvivors(-1) && IntendedSurvivors(-1)[Neg(k)] == -IntendedSurvivors(1)[k]
  {
  }

  lemma IntendedPlayerNegates6()
    ensures forall k | k in IntendedSurvivors(1) && k.P6? :: Neg(k) in IntendedSurvivors(-1) && IntendedSurvivors(-1)[Neg(k)] == -IntendedSurvivors(1)[k]
  {
  }

  lemma IntendedPlayerNegates7()
    ensures forall k | k in IntendedSurvivors(1) && k.P7? :: Neg(k) in IntendedSurvivors(-1) && IntendedSurvivors(-1)[Neg(k)] == -IntendedSurvivors(1)[k]
  {
  }

  lemma IntendedOpponentSideNegates()
    ensures NegatesInto(IntendedSurvivors(-1), IntendedSurvivors(1))
  {
    IntendedOpponentNegates4(); IntendedOpponentNegates5(); IntendedOpponentNegates6(); IntendedOpponentNegates7();
    NegatesByLength(IntendedSurvivors(-1), IntendedSurvivors(1));
  }

  lemma IntendedPlayerSideNegates()
    ensures NegatesInto(IntendedSurvivors(1), IntendedSurvivors(-1))
  {
    IntendedPlayerNegates4(); IntendedPlayerNegates5(); IntendedPlayerNegates6(); IntendedPlayerNegates7();
    NegatesByLength(IntendedSurvivors(1), IntendedSurvivors(-1));
  }

  /** The intended table is still symmetric under negation. */
  lemma IntendedNegationSymmetric()
    ensures NegatesInto(IntendedPatternDict(), IntendedPatternDict())
  {
    IntendedOpponentSideNegates();
    IntendedPlayerSideNegates();
    IntendedSidesDisjoint();
    UnionNegates(IntendedSurvivors(-1), IntendedSurvivors(1));
    IntendedEntries();
  }
}
