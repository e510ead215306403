/** Nearest-rank percentiles, over exact reals. */
module Percentile {
  import opened Ordering

  /** What Python's subscript answers: an element, or IndexError. */
  datatype Outcome = Element(value: real) | IndexError

  /** `round(x)`: the nearest integer, a tie going to the even one. */
  function Round(x: real): (n: int)
    ensures n as real - 0.5 <= x <= n as real + 0.5
    ensures x == n as real - 0.5 || x == n as real + 0.5 ==> n % 2 == 0
  {
    var f := x.Floor;
    if x - f as real < 0.5 || (x - f as real == 0.5 && f % 2 == 0) then f else f + 1
  }

  predicate RealLeq(a: real, b: real) {
    a <= b
  }

  function Ordered(values: seq<real>): (r: seq<real>)
    ensures Sorted(RealLeq, r) && multiset(r) == multiset(values) && |r| == |values|
  {
    assert TotalOrder(RealLeq);
    var r := Sort(RealLeq, values);
    assert |multiset(r)| == |multiset(values)|;
    r
  }

  /** Where the percentage falls among ranks 0 to `top`. */
  function Position(top: nat, percentage: real): real {
    percentage / 100.0 * top as real
  }

  /** The index a percentage picks among `n` ordered values; it may come out negative. */
  function Rank(n: nat, percentage: real): int
    requires n > 0
  {
    var k := Round(Position(n - 1, percentage));
    if k < n - 1 then k else n - 1
  }

  /** A negative index counts from the end, as Python's does. */
  function Percentile(values: seq<real>, percentage: real): Outcome {
    if values == [] then Element(0.0)
    else
      var n, k := |values|, Rank(|values|, percentage);
      if 0 <= k then Element(Ordered(values)[k])
      else if -n <= k then Element(Ordered(values)[n + k])
      else IndexError
  }

  // ---------------------------------------------------------------------------
  // The rank
  // ---------------------------------------------------------------------------

  lemma RoundMonotone(x: real, y: real)
    requires x <= y
    ensures Round(x) <= Round(y)
  {
  }

  lemma RoundInteger(n: int)
    ensures Round(n as real) == n
  {
  }

  lemma PositionMonotone(top: nat, p: real, q: real)
    requires p <= q
    ensures Position(top, p) <= Position(top, q)
  {
  }

  lemma PositionEnds(top: nat)
    ensures Position(top, 0.0) == 0.0 && Position(top, 100.0) == top as real
  {
  }

  lemma RankMonotone(n: nat, p: real, q: real)
    requires n > 0 && p <= q
    ensures Rank(n, p) <= Rank(n, q)
  {
    PositionMonotone(n - 1, p, q);
    hide Round, Position;
    RoundMonotone(Position(n - 1, p), Position(n - 1, q));
  }

  lemma RankEnds(n: nat)
    requires n > 0
    ensures Rank(n, 0.0) == 0 && Rank(n, 100.0) == n - 1
  {
  }

  /** Up to 100 the rank is within one half of p(n-1)/100, an exact half going to the even rank;
      above it is the last; and on [0, 100] it lies inside the list. */
  lemma RankNearest(n: nat, p: real)
    requires n > 0
    ensures p >= 100.0 ==> Rank(n, p) == n - 1
    ensures 0.0 <= p ==> 0 <= Rank(n, p) < n
    ensures p <= 100.0 ==>
              var (k, exact) := (Rank(n, p), p * (n - 1) as real / 100.0);
              && k as real - 0.5 <= exact <= k as real + 0.5
              && (exact == k as real - 0.5 || exact == k as real + 0.5 ==> k % 2 == 0)
  {
    RankEnds(n);
    PositionOf(n - 1, p);
    if p <= 100.0 {
      PositionEnds(n - 1);
      PositionMonotone(n - 1, p, 100.0);
      hide Round, Position;
      RoundMonotone(Position(n - 1, p), (n - 1) as real);
      RoundInteger(n - 1);
      if 0.0 <= p {
        RankMonotone(n, 0.0, p);
      }
    } else {
      hide Rank;
      RankMonotone(n, 100.0, p);
      RankBounded(n, p);
    }
  }

  lemma RankBounded(n: nat, p: real)
    requires n > 0
    ensures Rank(n, p) <= n - 1
  {
  }

  /** On [0, 100] the rank lies inside the list and within one half of p(n-1)/100, an exact
      half going to the even rank. */
  lemma RankInside(n: nat, p: real)
    requires n > 0 && 0.0 <= p <= 100.0
    ensures var k, exact := Rank(n, p), Position(n - 1, p);
            && 0 <= k < n
            && k as real - 0.5 <= exact <= k as real + 0.5
            && (exact == k as real - 0.5 || exact == k as real + 0.5 ==> k % 2 == 0)
  {
    RankEnds(n);
    RankMonotone(n, 0.0, p);
    PositionEnds(n - 1);
    PositionMonotone(n - 1, p, 100.0);
    hide Round, Position;
    RoundMonotone(Position(n - 1, p), (n - 1) as real);
    RoundInteger(n - 1);
  }

  /** A rank is negative exactly below minus half a place. */
  lemma RankNotNegative(n: nat, p: real)
    requires n > 0
    ensures 0 <= Rank(n, p) <==> p * (n - 1) as real >= -50.0
  {
    PositionOf(n - 1, p);
    hide Position;
  }

  lemma PositionOf(top: nat, p: real)
    ensures Position(top, p) == p * top as real / 100.0
  {
  }

  // ---------------------------------------------------------------------------
  // The value
  // ---------------------------------------------------------------------------

  /** How many values lie below `v`; and, with `v` itself counted, up to it. */
  function Below(values: seq<real>, v: real): nat {
    if values == [] then 0 else (if values[0] < v then 1 else 0) + Below(values[1..], v)
  }

  function UpTo(values: seq<real>, v: real): nat {
    if values == [] then 0 else (if values[0] <= v then 1 else 0) + UpTo(values[1..], v)
  }

  lemma {:induction false} InsertCounts(x: real, s: seq<real>, v: real)
    ensures Below(Insert(RealLeq, x, s), v) == Below([x] + s, v)
    ensures UpTo(Insert(RealLeq, x, s), v) == UpTo([x] + s, v)
  {
    assert ([x] + s)[1..] == s;
    if s != [] && !RealLeq(x, s[0]) {
      InsertCounts(x, s[1..], v);
      assert ([x] + s[1..])[1..] == s[1..];
      assert Insert(RealLeq, x, s)[1..] == Insert(RealLeq, x, s[1..]);
    }
  }

  lemma {:induction false} SortCounts(s: seq<real>, v: real)
    ensures Below(Sort(RealLeq, s), v) == Below(s, v) && UpTo(Sort(RealLeq, s), v) == UpTo(s, v)
  {
    if s == [] {
    } else {
      SortCounts(s[1..], v);
      InsertCounts(s[0], Sort(RealLeq, s[1..]), v);
      assert ([s[0]] + Sort(RealLeq, s[1..]))[1..] == Sort(RealLeq, s[1..]);
    }
  }

  lemma {:induction false} SortedCounts(r: seq<real>, k: nat, v: real)
    requires Sorted(RealLeq, r) && k < |r| && r[k] == v
    ensures Below(r, v) <= k < UpTo(r, v)
  {
    if k == 0 {
      NoneBelow(r, v);
    } else {
      assert RealLeq(r[0], r[k]);
      SortedCounts(r[1..], k - 1, v);
    }
  }

  lemma {:induction false} NoneBelow(r: seq<real>, v: real)
    requires forall i :: 0 <= i < |r| ==> v <= r[i]
    ensures Below(r, v) == 0
  {
    if r == [] {
    } else {
      NoneBelow(r[1..], v);
    }
  }

  /** What a percentile is, with no sorting in it: one of the values, with at most `Rank` of
      them below it and more than `Rank` up to it. */
  lemma {:induction false} PercentileIsOrderStatistic(values: seq<real>, p: real)
    requires values != [] && p * (|values| - 1) as real >= -50.0
    ensures Percentile(values, p).Element?
    ensures var v := Percentile(values, p).value;
            v in values && Below(values, v) <= Rank(|values|, p) < UpTo(values, v)
  {
    RankNotNegative(|values|, p);
    var k := Rank(|values|, p);
    assert k < |values|;
    hide Rank, RealLeq;
    var r := Ordered(values);
    assert r[k] in multiset(r);
    SortedCounts(r, k, r[k]);
    SortCounts(values, r[k]);
  }

  /** A negative rank counts from the end: the value is the order statistic of n plus the rank. */
  lemma NegativeRankCountsBack(values: seq<real>, p: real)
    requires values != [] && -|values| <= Rank(|values|, p) < 0
    ensures Percentile(values, p).Element?
    ensures var (v, k) := (Percentile(values, p).value, |values| + Rank(|values|, p));
            v in values && Below(values, v) <= k < UpTo(values, v)
  {
    var k := |values| + Rank(|values|, p);
    hide Rank, RealLeq;
    var r := Ordered(values);
    assert r[k] in multiset(r);
    SortedCounts(r, k, r[k]);
    SortCounts(values, r[k]);
  }

  lemma {:induction false} UpToGrows(values: seq<real>, v: real, w: real)
    requires v < w
    ensures UpTo(values, v) <= Below(values, w)
  {
    if values == [] {
    } else {
      UpToGrows(values[1..], v, w);
    }
  }

  /** And that pins the value down. */
  lemma OrderStatisticUnique(values: seq<real>, k: nat, v: real, w: real)
    requires Below(values, v) <= k < UpTo(values, v) && Below(values, w) <= k < UpTo(values, w)
    ensures v == w
  {
    if v < w {
      UpToGrows(values, v, w);
    } else if w < v {
      UpToGrows(values, w, v);
    }
  }

  lemma SameOrdered(values: seq<real>, values': seq<real>)
    requires multiset(values) == multiset(values')
    ensures Ordered(values) == Ordered(values') && |values| == |values'|
  {
    assert TotalOrder(RealLeq);
    assert |Ordered(values)| == |multiset(values)| && |Ordered(values')| == |multiset(values')|;
    hide Ordered, RealLeq, Sorted, TotalOrder;
    SortedUnique(RealLeq, Ordered(values), Ordered(values'));
  }

  /** The order the values come in does not matter, at any percentage. */
  lemma {:induction false} PercentileIgnoresOrder(values: seq<real>, values': seq<real>, p: real)
    requires multiset(values) == multiset(values')
    ensures Percentile(values, p) == Percentile(values', p)
  {
    hide Rank, Ordered;
    SameOrdered(values, values');
  }

  /** A higher percentage never gives a smaller value, from the first percentage on whose rank
      is not negative; so p50 <= p95 <= p99. */
  lemma PercentileMonotone(values: seq<real>, p: real, q: real)
    requires values != [] && p * (|values| - 1) as real >= -50.0 && p <= q
    ensures Percentile(values, p).Element? && Percentile(values, q).Element?
    ensures Percentile(values, p).value <= Percentile(values, q).value
  {
    var n := |values|;
    RankNotNegative(n, p);
    RankMonotone(n, p, q);
    hide Rank;
    var r, i, j := Ordered(values), Rank(n, p), Rank(n, q);
    assert i < j ==> RealLeq(r[i], r[j]);
  }

  /** The values do not fall from percentage p to percentage q. */
  predicate Rises(values: seq<real>, p: real, q: real) {
    var a, b := Percentile(values, p), Percentile(values, q);
    a.Element? && b.Element? && a.value <= b.value
  }

  /** On lists of `n` values no percentage from `low` on gives more than a higher one. */
  ghost predicate MonotoneFrom(n: nat, low: real) {
    forall values, p, q :: |values| == n && low <= p <= q ==> Rises(values, p, q)
  }

  /** That is exactly how far monotonicity goes: start one step lower and some list of that
      very length breaks it. */
  lemma MonotoneExactly(n: nat, low: real)
    requires n > 0
    ensures MonotoneFrom(n, low) <==> low * (n - 1) as real >= -50.0
  {
    if low * (n - 1) as real >= -50.0 {
      forall values, p, q | |values| == n && low <= p <= q
        ensures Rises(values, p, q)
      {
        ScaleMonotone(low, p, (n - 1) as real);
        PercentileMonotone(values, p, q);
      }
    } else {
      var values, p := WrapsAround(n, low);
      assert !Rises(values, p, 0.0);
    }
  }

  lemma ScaleMonotone(x: real, y: real, k: real)
    requires x <= y && k >= 0.0
    ensures x * k <= y * k
  {
  }

  /** Zeros and a one: from a low enough percentage, one that ranks at -1 wraps to the one. */
  lemma WrapsAround(n: nat, low: real) returns (values: seq<real>, p: real)
    requires n > 0 && low * (n - 1) as real < -50.0
    ensures |values| == n && low <= p <= 0.0
    ensures Percentile(values, p) == Element(1.0) && Percentile(values, 0.0) == Element(0.0)
  {
    p := RankMinusOne(n, low);
    values := seq(n - 1, i => 0.0) + [1.0];
    RankEnds(n);
    hide Rank;
    assert Sorted(RealLeq, values) by { hide Percentile; }
    assert TotalOrder(RealLeq);
    SortedUnique(RealLeq, Ordered(values), values);
  }

  lemma RankMinusOne(n: nat, low: real) returns (p: real)
    requires n > 0 && low * (n - 1) as real < -50.0
    ensures low <= p <= 0.0 && Rank(n, p) == -1
  {
    var top := n - 1;
    PositionOf(top, low);
    if low * top as real >= -100.0 {
      p := low;
      if p > 0.0 {
        ScaleMonotone(0.0, p, top as real);
      }
    } else {
      p := OnePlaceBelow(top, low);
    }
    hide Position, Round;
    RoundMinusOne(Position(top, p));
  }

  lemma OnePlaceBelow(top: nat, low: real) returns (p: real)
    requires low * top as real < -100.0
    ensures low <= p <= 0.0 && Position(top, p) == -1.0
  {
    hide Position;
    p := Quotient(top as real, low);
    PositionOf(top, p);
  }

  lemma Quotient(k: real, low: real) returns (p: real)
    requires k >= 0.0 && low * k < -100.0
    ensures low <= p <= 0.0 && p * k == -100.0
  {
    ZeroFactor(low, k);
    p := DividedBy(k);
    ScaleReflects(low, p, k, -100.0);
  }

  lemma ZeroFactor(x: real, k: real)
    ensures k == 0.0 ==> x * k == 0.0
  {
  }

  lemma DividedBy(k: real) returns (p: real)
    requires k > 0.0
    ensures p <= 0.0 && p * k == -100.0
  {
    p := -100.0 / k;
  }

  lemma ScaleReflects(x: real, y: real, k: real, bound: real)
    requires k >= 0.0 && x * k < bound && bound == y * k
    ensures x < y
  {
    if y <= x {
      ScaleMonotone(y, x, k);
    }
  }

  lemma RoundMinusOne(x: real)
    requires -1.0 <= x < -0.5
    ensures Round(x) == -1
  {
  }

  /** When Python raises IndexError: the rank is further below zero than the list is long, so
      p(n-1) is below -100n - 50, or just there with n odd, the tie then going away from the
      list. */
  lemma IndexErrorExactly(values: seq<real>, p: real)
    requires values != []
    ensures Percentile(values, p).IndexError? <==> Rank(|values|, p) < -|values|
    ensures var (n, exact, limit) := (|values|, p * (|values| - 1) as real, -100.0 * |values| as real - 50.0);
            Rank(n, p) < -n <==> exact < limit || (exact == limit && n % 2 == 1)
  {
    hide Rank, Ordered;
    RankBelow(|values|, p);
    PositionOf(|values| - 1, p);
    hide Position;
    Hundredfold(p * (|values| - 1) as real, Position(|values| - 1, p), |values| as real);
  }

  lemma RankBelow(n: nat, p: real)
    requires n > 0
    ensures var (at, limit) := (Position(n - 1, p), -(n as real) - 0.5);
            Rank(n, p) < 0 - n <==> at < limit || (at == limit && n % 2 == 1)
  {
    hide Round, Position;
    RoundBelow(Position(n - 1, p), 0 - n);
  }

  lemma Hundredfold(exact: real, at: real, n: real)
    requires at == exact / 100.0
    ensures at < -n - 0.5 <==> exact < -100.0 * n - 50.0
    ensures at == -n - 0.5 <==> exact == -100.0 * n - 50.0
  {
  }

  lemma RoundBelow(x: real, k: int)
    ensures Round(x) < k <==> x < k as real - 0.5 || (x == k as real - 0.5 && k % 2 == 1)
  {
  }

  /** The extremes: 0 gives the smallest value, and 100 or anything above it the largest. */
  lemma {:induction false} PercentileExtremes(values: seq<real>, p: real, v: real)
    requires v in values && p >= 100.0
    ensures Percentile(values, 0.0).Element? && Percentile(values, p).Element?
    ensures Percentile(values, 0.0).value <= v <= Percentile(values, p).value
  {
    var n, r := |values|, Ordered(values);
    assert v in multiset(r);
    var i :| 0 <= i < n && r[i] == v;
    RankEnds(n);
    RankMonotone(n, 100.0, p);
    assert Rank(n, p) == n - 1 by { hide Round, Position; }
    hide Rank;
    assert i > 0 ==> RealLeq(r[0], r[i]);
    assert i < n - 1 ==> RealLeq(r[i], r[n - 1]);
  }

  /** A list on which monotonicity fails: -100 percent of two values wraps to the larger. */
  lemma NegativePercentageWraps()
    ensures Percentile([1.0, 2.0], -100.0) == Element(2.0) && Percentile([1.0, 2.0], 0.0) == Element(1.0)
  {
    var r := Ordered([1.0, 2.0]);
    assert TotalOrder(RealLeq);
    SortedUnique(RealLeq, r, [1.0, 2.0]);
    RoundInteger(-1);
    RoundInteger(0);
    assert Position(1, -100.0) == -1.0 && Position(1, 0.0) == 0.0;
    hide Round, Position;
  }
}
