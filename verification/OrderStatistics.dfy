/** Nearest-rank percentiles, characterised by counting. */
module OrderStatistics {

  ghost predicate Sorted(s: seq<real>) {
    forall i, j | 0 <= i < j < |s| :: s[i] <= s[j]
  }

  function InsertReal(x: real, s: seq<real>): (r: seq<real>)
    requires Sorted(s)
    ensures Sorted(r) && |r| == |s| + 1
    ensures forall i | 0 <= i < |r| :: r[i] == x || r[i] in s
  {
    if s == [] || x <= s[0] then [x] + s else [s[0]] + InsertReal(x, s[1..])
  }

  lemma FirstOut(s: seq<real>)
    requires s != []
    ensures multiset(s) == multiset(s[1..]) + multiset{s[0]}
  {
    assert s == [s[0]] + s[1..];
  }

  lemma {:induction false} InsertKeeps(x: real, s: seq<real>)
    requires Sorted(s)
    ensures multiset(InsertReal(x, s)) == multiset(s) + multiset{x}
  {
    if s != [] && !(x <= s[0]) {
      InsertKeeps(x, s[1..]);
      FirstOut(s);
      FirstOut(InsertReal(x, s));
    }
  }

  function SortReals(s: seq<real>): (r: seq<real>)
    ensures Sorted(r) && |r| == |s|
  {
    if s == [] then [] else InsertReal(s[0], SortReals(s[1..]))
  }

  lemma {:induction false} SortKeeps(s: seq<real>)
    ensures multiset(SortReals(s)) == multiset(s)
  {
    if s != [] {
      SortKeeps(s[1..]);
      InsertKeeps(s[0], SortReals(s[1..]));
      FirstOut(s);
    }
  }

  /** The rank `max(1, ceil(p * n))`, counted from 1, for the percentile p = num / den. */
  function Rank(num: nat, den: nat, n: nat): nat
    requires 0 < den
  {
    var ceiling := (num * n + den - 1) / den;
    if ceiling < 1 then 1 else ceiling
  }

  lemma MultiplyAtLeast(a: nat, b: nat, c: nat)
    ensures a <= b ==> a * c <= b * c
  {}

  lemma CeilingBound(a: nat, den: nat, n: nat)
    requires 0 < den && a <= n * den
    ensures (a + den - 1) / den <= n
  {
    var q := (a + den - 1) / den;
    assert q * den <= a + den - 1;
    MultiplyAtLeast(n + 1, q, den);
  }

  lemma RankInRange(num: nat, den: nat, n: nat)
    requires 0 < num <= den && 0 < n
    ensures 1 <= Rank(num, den, n) <= n
  {
    assert num * n <= n * den;
    CeilingBound(num * n, den, n);
  }

  /** The rank is the least count that is no smaller than `num / den` of `n`. */
  lemma RankIsCeiling(num: nat, den: nat, n: nat)
    requires 0 < num <= den && 0 < n
    ensures den * (Rank(num, den, n) - 1) < num * n <= den * Rank(num, den, n)
  {
    var a := num * n;
    var q := (a + den - 1) / den;
    assert a + den - 1 == den * q + (a + den - 1) % den;
    assert a > 0 by { MultiplyAtLeast(1, num, n); }
    assert den * (q - 1) == den * q - den;
  }

  function NearestRank(values: seq<real>, num: nat, den: nat): real
    requires values != [] && 0 < num <= den
  {
    RankInRange(num, den, |values|);
    SortReals(values)[Rank(num, den, |values|) - 1]
  }

  function CountLess(s: seq<real>, x: real): nat {
    if s == [] then 0 else (if s[0] < x then 1 else 0) + CountLess(s[1..], x)
  }

  function CountAtMost(s: seq<real>, x: real): nat {
    if s == [] then 0 else (if s[0] <= x then 1 else 0) + CountAtMost(s[1..], x)
  }

  lemma {:induction false} InsertCounts(y: real, s: seq<real>, x: real)
    requires Sorted(s)
    ensures CountLess(InsertReal(y, s), x) == CountLess([y] + s, x)
    ensures CountAtMost(InsertReal(y, s), x) == CountAtMost([y] + s, x)
  {
    assert ([y] + s)[1..] == s;
    if s != [] && !(y <= s[0]) {
      InsertCounts(y, s[1..], x);
      assert ([y] + s[1..])[1..] == s[1..];
    }
  }

  lemma {:induction false} SortCounts(s: seq<real>, x: real)
    ensures CountLess(SortReals(s), x) == CountLess(s, x)
    ensures CountAtMost(SortReals(s), x) == CountAtMost(s, x)
  {
    if s != [] {
      SortCounts(s[1..], x);
      InsertCounts(s[0], SortReals(s[1..]), x);
      assert ([s[0]] + SortReals(s[1..]))[1..] == SortReals(s[1..]);
    }
  }

  lemma {:induction false} SortedCounts(s: seq<real>, k: nat)
    requires Sorted(s) && k < |s|
    ensures CountLess(s, s[k]) <= k < CountAtMost(s, s[k])
  {
    if k == 0 {
      NoneLess(s, s[0]);
    } else {
      SortedCounts(s[1..], k - 1);
    }
  }

  lemma {:induction false} NoneLess(s: seq<real>, x: real)
    requires forall i | 0 <= i < |s| :: x <= s[i]
    ensures CountLess(s, x) == 0
  {
    if s != [] { NoneLess(s[1..], x); }
  }

  lemma SortedMember(values: seq<real>, k: nat)
    requires k < |values|
    ensures SortReals(values)[k] in values
  {
    SortKeeps(values);
    assert SortReals(values)[k] in multiset(SortReals(values));
  }

  /** The nearest-rank value is observed, fewer than `rank` values lie below it and at least `rank` do not exceed it. */
  lemma NearestRankIsOrderStatistic(values: seq<real>, num: nat, den: nat)
    requires values != [] && 0 < num <= den
    ensures var v := NearestRank(values, num, den); var rank := Rank(num, den, |values|);
      v in values && CountLess(values, v) < rank <= CountAtMost(values, v)
  {
    RankInRange(num, den, |values|);
    var sorted, k := SortReals(values), Rank(num, den, |values|) - 1;
    SortedCounts(sorted, k);
    SortCounts(values, sorted[k]);
    SortedMember(values, k);
  }

  lemma {:induction false} CountsApart(s: seq<real>, y: real, x: real)
    requires y < x
    ensures CountAtMost(s, y) <= CountLess(s, x)
  {
    if s != [] { CountsApart(s[1..], y, x); }
  }

  lemma ScaledLess(den: nat, a: nat, b: nat)
    requires a <= b
    ensures den * a <= den * b
  {}

  /** `v` splits the values at the fraction num / den: what lies below it is less than that, what does not exceed it is
      at least that. */
  ghost predicate SplitsAt(values: seq<real>, v: real, num: nat, den: nat) {
    den * CountLess(values, v) < num * |values| <= den * CountAtMost(values, v)
  }

  /** The nearest-rank value is observed, splits the values at the percentile, and is the only number that does. */
  lemma NearestRankSplits(values: seq<real>, num: nat, den: nat)
    requires values != [] && 0 < num <= den
    ensures NearestRank(values, num, den) in values && SplitsAt(values, NearestRank(values, num, den), num, den)
    ensures forall w | SplitsAt(values, w, num, den) :: w == NearestRank(values, num, den)
  {
    var v, rank := NearestRank(values, num, den), Rank(num, den, |values|);
    NearestRankIsOrderStatistic(values, num, den);
    RankIsCeiling(num, den, |values|);
    ScaledLess(den, CountLess(values, v), rank - 1);
    ScaledLess(den, rank, CountAtMost(values, v));
    forall w | SplitsAt(values, w, num, den) ensures w == v { OneSplit(values, v, w, num, den); }
  }

  lemma OneSplit(values: seq<real>, v: real, w: real, num: nat, den: nat)
    requires SplitsAt(values, v, num, den) && SplitsAt(values, w, num, den)
    ensures v == w
  {
    if v < w {
      CountsApart(values, v, w);
      ScaledLess(den, CountAtMost(values, v), CountLess(values, w));
    } else if w < v {
      CountsApart(values, w, v);
      ScaledLess(den, CountAtMost(values, w), CountLess(values, v));
    }
  }

  ghost predicate Dominates(b: seq<real>, a: seq<real>) {
    |a| == |b| && forall i | 0 <= i < |a| :: a[i] <= b[i]
  }

  lemma {:induction false} DominatedCount(a: seq<real>, b: seq<real>, x: real)
    requires Dominates(b, a)
    ensures CountAtMost(b, x) <= CountAtMost(a, x)
  {
    if a != [] {
      assert Dominates(b[1..], a[1..]);
      DominatedCount(a[1..], b[1..], x);
    }
  }

  /** Raising values never lowers a percentile. */
  lemma NearestRankMonotone(a: seq<real>, b: seq<real>, num: nat, den: nat)
    requires a != [] && 0 < num <= den && Dominates(b, a)
    ensures NearestRank(a, num, den) <= NearestRank(b, num, den)
  {
    var x, y := NearestRank(a, num, den), NearestRank(b, num, den);
    NearestRankIsOrderStatistic(a, num, den);
    NearestRankIsOrderStatistic(b, num, den);
    DominatedCount(a, b, y);
    if y < x { CountsApart(a, y, x); }
  }

  /** The median is at most the 95th percentile. */
  lemma PercentilesOrdered(values: seq<real>)
    requires values != []
    ensures NearestRank(values, 1, 2) <= NearestRank(values, 19, 20)
  {}
}
