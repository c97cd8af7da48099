/** `average` and `variance` of ecr.sh, in the shell's signed 64-bit arithmetic. */
module Statistics {
  import opened Records

  const MAX64: int := 0x7FFF_FFFF_FFFF_FFFF
  const MIN64: int := -0x8000_0000_0000_0000

  predicate InInt64(x: int) { MIN64 <= x <= MAX64 }

  /** What $((...)) keeps of a mathematical result. */
  function Wrap(x: int): (r: int)
    ensures InInt64(r)
    ensures InInt64(x) ==> r == x
  {
    (x - MIN64) % U64 + MIN64
  }

  lemma WrapCongruent(x: int) returns (q: int)
    ensures Wrap(x) == x + U64 * q
  {
    q := -((x - MIN64) / U64);
  }

  lemma WrapOfMultiple(x: int, q: int)
    ensures Wrap(x + U64 * q) == Wrap(x)
  {
    var y := x - MIN64;
    assert (y + U64 * q) % U64 == y % U64;
  }

  lemma WrapAdds(x: int, y: int)
    ensures Wrap(Wrap(x) + y) == Wrap(x + y)
    ensures Wrap(x + Wrap(y)) == Wrap(x + y)
  {
    var p := WrapCongruent(x);
    WrapOfMultiple(x + y, p);
    var q := WrapCongruent(y);
    WrapOfMultiple(x + y, q);
  }

  lemma WrapSquares(x: int)
    ensures Wrap(Wrap(x) * Wrap(x)) == Wrap(x * x)
  {
    var q := WrapCongruent(x);
    assert Wrap(x) * Wrap(x) == x * x + U64 * (2 * x * q + U64 * q * q) by {
      assert (x + U64 * q) * (x + U64 * q) == x * x + x * (U64 * q) + (U64 * q) * x + (U64 * q) * (U64 * q);
      assert x * (U64 * q) == U64 * (x * q);
      assert (U64 * q) * (U64 * q) == U64 * (U64 * q * q);
    }
    WrapOfMultiple(x * x, 2 * x * q + U64 * q * q);
  }

  /** Shell division: truncation toward zero. */
  function Quot(x: int, n: int): int
    requires n > 0
  {
    if x >= 0 then x / n else -((-x) / n)
  }

  /** Zero arguments are divided by one. */
  function Divisor(n: nat): nat { if n == 0 then 1 else n }

  function Sum(s: seq<int>): int {
    if s == [] then 0 else Sum(s[..|s| - 1]) + s[|s| - 1]
  }

  /** Sum of the squared distances from `a`. */
  function Spread(s: seq<int>, a: int): int {
    if s == [] then 0 else Spread(s[..|s| - 1], a) + (s[|s| - 1] - a) * (s[|s| - 1] - a)
  }

  /** The values that the two functions print. */
  function AverageOf(s: seq<int>): int { Quot(Wrap(Sum(s)), Divisor(|s|)) }
  function VarianceOf(a: int, s: seq<int>): int { Quot(Wrap(Spread(s, a)), Divisor(|s|)) }

  predicate Samples(s: seq<int>) {
    forall i :: 0 <= i < |s| ==> InInt64(s[i])
  }

  /** `average`: one pass over the arguments, each addition wrapping. */
  method Average(temp: seq<int>) returns (avg: int)
    requires |temp| <= MAX64
    ensures avg == AverageOf(temp)
  {
    avg := 0;
    var count := 0;
    for i := 0 to |temp|
      invariant avg == Wrap(Sum(temp[..i])) && count == i
    {
      assert temp[..i + 1][..i] == temp[..i];
      WrapAdds(Sum(temp[..i]), temp[i]);
      avg := Wrap(avg + temp[i]);
      count := Wrap(count + 1);
    }
    assert temp[..|temp|] == temp;
    if count == 0 {
      count := 1;
    }
    avg := Quot(avg, count);
  }

  /** `variance`: difference, square and sum all wrap. */
  method Variance(avg: int, arr: seq<int>) returns (variance: int)
    requires |arr| <= MAX64
    ensures variance == VarianceOf(avg, arr)
  {
    variance := 0;
    var count := 0;
    for i := 0 to |arr|
      invariant variance == Wrap(Spread(arr[..i], avg)) && count == i
    {
      assert arr[..i + 1][..i] == arr[..i];
      count := Wrap(count + 1);
      var distance := Wrap(arr[i] - avg);
      WrapSquares(arr[i] - avg);
      var square := Wrap(distance * distance);
      WrapAdds(Spread(arr[..i], avg), square);
      WrapAdds(Spread(arr[..i], avg), (arr[i] - avg) * (arr[i] - avg));
      variance := Wrap(variance + square);
    }
    assert arr[..|arr|] == arr;
    if count == 0 {
      count := 1;
    }
    variance := Quot(variance, count);
  }

  // ---- When the shell's average is the true one ----

  /** A truncated quotient is within one of the true one, on the side of zero. */
  lemma QuotClose(x: int, n: int)
    requires n > 0
    ensures x - n < n * Quot(x, n) < x + n
    ensures 0 <= x ==> n * Quot(x, n) <= x
    ensures x <= 0 ==> x <= n * Quot(x, n)
  {
    if x < 0 {
      assert n * (-((-x) / n)) == -(n * ((-x) / n));
    }
  }

  lemma MulMonotone(n: int, x: int, y: int)
    requires n >= 0 && x <= y
    ensures n * x <= n * y
  {
  }

  /** Quotients of numbers at least two divisors apart differ. */
  lemma QuotApart(x: int, y: int, n: int)
    requires n > 0 && y - x >= 2 * n
    ensures Quot(x, n) < Quot(y, n)
  {
    QuotClose(x, n);
    QuotClose(y, n);
    if Quot(y, n) <= Quot(x, n) {
      MulMonotone(n, Quot(y, n), Quot(x, n));
    }
  }

  lemma QuotMonotone(x: int, y: int, n: int)
    requires n > 0 && x <= y
    ensures Quot(x, n) <= Quot(y, n)
  {
    QuotClose(x, n);
    QuotClose(y, n);
    if Quot(x, n) > Quot(y, n) {
      MulMonotone(n, Quot(y, n) + 1, Quot(x, n));
    }
  }

  /** Dividing a wrapped total gives the true quotient exactly when nothing was lost. */
  lemma QuotOfWrap(x: int, n: int)
    requires 0 < n <= MAX64
    ensures Quot(Wrap(x), n) == Quot(x, n) <==> InInt64(x)
  {
    var q := WrapCongruent(x);
    if !InInt64(x) {
      if q >= 1 {
        MulMonotone(U64, 1, q);
        QuotApart(x, Wrap(x), n);
      } else if q <= -1 {
        MulMonotone(U64, q, -1);
        QuotApart(Wrap(x), x, n);
      }
    }
  }

  /**
    The shell's average is the truncated true average exactly when the sum of the samples
    fits the shell's integers; how the sum got there does not matter.
   */
  lemma AverageExactIff(s: seq<int>)
    requires |s| <= MAX64
    ensures AverageOf(s) == Quot(Sum(s), Divisor(|s|)) <==> InInt64(Sum(s))
  {
    QuotOfWrap(Sum(s), Divisor(|s|));
  }

  /** Likewise for the variance and the sum of squares. */
  lemma VarianceExactIff(s: seq<int>, a: int)
    requires |s| <= MAX64
    ensures VarianceOf(a, s) == Quot(Spread(s, a), Divisor(|s|)) <==> InInt64(Spread(s, a))
  {
    QuotOfWrap(Spread(s, a), Divisor(|s|));
  }

  // ---- Sums ----

  lemma {:induction false} SumBounds(s: seq<int>, lo: int, hi: int)
    requires forall i :: 0 <= i < |s| ==> lo <= s[i] <= hi
    ensures |s| * lo <= Sum(s) <= |s| * hi
  {
    if s != [] {
      SumBounds(s[..|s| - 1], lo, hi);
    }
  }

  lemma {:induction false} SumMonotone(s: seq<int>, t: seq<int>)
    requires |s| == |t| && forall i :: 0 <= i < |s| ==> s[i] <= t[i]
    ensures Sum(s) <= Sum(t)
  {
    if s != [] {
      SumMonotone(s[..|s| - 1], t[..|t| - 1]);
    }
  }

  /** Sums and spreads add up, and each sample counts for itself. */
  lemma {:induction false} SumAdds(s: seq<int>, t: seq<int>, a: int, x: int)
    ensures Sum([x]) == x && Sum(s + t) == Sum(s) + Sum(t)
    ensures Spread([x], a) == (x - a) * (x - a) && Spread(s + t, a) == Spread(s, a) + Spread(t, a)
  {
    assert [x][..0] == [];
    if t == [] {
      assert s + t == s;
    } else {
      var n := |t| - 1;
      SumAdds(s, t[..n], a, x);
      assert (s + t)[..|s| + n] == s + t[..n];
    }
  }

  /** A sample counts the same wherever it stands. */
  lemma SampleAnywhere(p: seq<int>, x: int, q: seq<int>, a: int)
    ensures Sum(p + [x] + q) == Sum(p + q) + x
    ensures Spread(p + [x] + q, a) == Spread(p + q, a) + Spread([x], a)
  {
    SumAdds(p + [x], q, a, x);
    SumAdds(p, [x], a, x);
    SumAdds(p, q, a, x);
  }

  lemma SamplesLeft(s: seq<int>, x: int, p: seq<int>, q: seq<int>)
    requires multiset(s + [x]) == multiset(p + [x] + q)
    ensures multiset(s) == multiset(p + q)
  {
    assert multiset(s + [x]) == multiset(s) + multiset{x};
    assert multiset(p + [x] + q) == multiset(p + q) + multiset{x};
    assert multiset(s) == multiset(s + [x]) - multiset{x};
  }

  lemma {:induction false} SumOfMultiset(s: seq<int>, t: seq<int>, a: int)
    requires multiset(s) == multiset(t)
    ensures |s| == |t| && Sum(s) == Sum(t) && Spread(s, a) == Spread(t, a)
    decreases |s|
  {
    assert |multiset(s)| == |s| && |multiset(t)| == |t|;
    if s != [] {
      var init, x := s[..|s| - 1], s[|s| - 1];
      assert s == init + [x];
      assert x in multiset(t);
      var i :| 0 <= i < |t| && t[i] == x;
      var p, q := t[..i], t[i + 1..];
      assert t == p + [x] + q;
      SamplesLeft(init, x, p, q);
      SumOfMultiset(init, p + q, a);
      SumAdds(init, [x], a, x);
      SampleAnywhere(p, x, q, a);
    }
  }

  /** The order of the rounds does not matter. */
  lemma OrderIndependent(s: seq<int>, t: seq<int>, a: int)
    requires multiset(s) == multiset(t)
    ensures AverageOf(s) == AverageOf(t) && VarianceOf(a, s) == VarianceOf(a, t)
  {
    SumOfMultiset(s, t, a);
  }

  /** The average lies between any bounds of the samples, truncation included. */
  lemma AverageBetween(s: seq<int>, lo: int, hi: int)
    requires s != [] && InInt64(Sum(s))
    requires forall i :: 0 <= i < |s| ==> lo <= s[i] <= hi
    ensures lo <= AverageOf(s) <= hi
    ensures lo >= 0 ==> Sum(s) - |s| < |s| * AverageOf(s) <= Sum(s)
  {
    var n := |s|;
    SumBounds(s, lo, hi);
    QuotMonotone(n * lo, Sum(s), n);
    QuotMonotone(Sum(s), n * hi, n);
    QuotOfMultiple(lo, n);
    QuotOfMultiple(hi, n);
    QuotClose(Sum(s), n);
    if lo >= 0 {
      MulMonotone(n, 0, lo);
    }
  }

  lemma QuotOfMultiple(x: int, n: int)
    requires n > 0
    ensures Quot(n * x, n) == x
  {
    QuotClose(n * x, n);
    if Quot(n * x, n) < x {
      MulMonotone(n, Quot(n * x, n) + 1, x);
    } else if Quot(n * x, n) > x {
      MulMonotone(n, x + 1, Quot(n * x, n));
    }
  }

  /** Raising samples never lowers the average. */
  lemma AverageMonotone(s: seq<int>, t: seq<int>)
    requires |s| == |t| && forall i :: 0 <= i < |s| ==> s[i] <= t[i]
    requires InInt64(Sum(s)) && InInt64(Sum(t))
    ensures AverageOf(s) <= AverageOf(t)
  {
    SumMonotone(s, t);
    QuotMonotone(Sum(s), Sum(t), Divisor(|s|));
  }

  /** No samples: both functions print 0. */
  lemma NoSamples(a: int)
    ensures AverageOf([]) == 0 && VarianceOf(a, []) == 0
  {
  }

  // ---- The variance ----

  /** Sum of the squares. */
  function Squares(s: seq<int>): int { Spread(s, 0) }

  lemma {:induction false} SpreadExpands(s: seq<int>, a: int)
    ensures Spread(s, a) == Squares(s) - 2 * a * Sum(s) + |s| * a * a
  {
    if s != [] {
      var init, x := s[..|s| - 1], s[|s| - 1];
      SpreadExpands(init, a);
      assert (x - a) * (x - a) == x * x - 2 * a * x + a * a;
      assert 2 * a * Sum(s) == 2 * a * Sum(init) + 2 * a * x;
      assert |s| * a * a == |init| * a * a + a * a;
    }
  }

  /** n times the spread about `a`, in terms of the two power sums and the division's remainder. */
  lemma SpreadIdentity(s: seq<int>, a: int)
    ensures var n, S := |s|, Sum(s);
            n * Spread(s, a) == n * Squares(s) - S * S + (S - n * a) * (S - n * a)
  {
    SpreadExpands(s, a);
    ScaledExpansion(|s|, Squares(s), Sum(s), a);
  }

  lemma ScaledExpansion(n: int, q: int, S: int, a: int)
    ensures n * (q - 2 * a * S + n * a * a) == n * q - S * S + (S - n * a) * (S - n * a)
  {
    assert n * (q - 2 * a * S + n * a * a) == n * q - 2 * (n * a) * S + (n * a) * (n * a);
    assert (S - n * a) * (S - n * a) == S * S - 2 * (n * a) * S + (n * a) * (n * a);
  }

  lemma {:induction false} SpreadNonNegative(s: seq<int>, a: int)
    ensures Spread(s, a) >= 0
  {
    if s != [] {
      SpreadNonNegative(s[..|s| - 1], a);
      SquareNonNegative(s[|s| - 1] - a);
    }
  }

  lemma SquareNonNegative(x: int)
    ensures x * x >= 0
  {
  }

  lemma {:induction false} SpreadGrows(s: seq<int>, a: int, i: nat)
    requires i <= |s|
    ensures 0 <= Spread(s[..i], a) <= Spread(s, a)
  {
    if i < |s| {
      SpreadGrows(s[..|s| - 1], a, i);
      assert s[..|s| - 1][..i] == s[..i];
      SquareNonNegative(s[|s| - 1] - a);
    } else {
      assert s[..i] == s;
      SpreadNonNegative(s, a);
    }
  }

  /** Samples in [0, R]: each square is at most R times the sample. */
  lemma {:induction false} SquaresBelow(s: seq<int>, R: int)
    requires forall i :: 0 <= i < |s| ==> 0 <= s[i] <= R
    ensures Squares(s) <= R * Sum(s)
  {
    if s != [] {
      var init, x := s[..|s| - 1], s[|s| - 1];
      SquaresBelow(init, R);
      MulMonotone(x, x, R);
      assert R * Sum(s) == R * Sum(init) + R * x;
    }
  }

  /**
    A Popoviciu bound for the truncated average: samples in [0, R] have a sum of squares
    about it of at most n*R^2/4 + n.
   */
  lemma SpreadBound(s: seq<int>, R: int, a: int)
    requires s != [] && forall i :: 0 <= i < |s| ==> 0 <= s[i] <= R
    requires Sum(s) - |s| < |s| * a <= Sum(s)
    ensures 4 * Spread(s, a) <= |s| * R * R + 4 * |s|
  {
    SpreadIdentity(s, a);
    SquaresBelow(s, R);
    BoundFromIdentity(|s|, R, Sum(s), Squares(s), Sum(s) - |s| * a, Spread(s, a));
  }

  lemma BoundFromIdentity(n: int, R: int, S: int, q: int, r: int, spread: int)
    requires n > 0 && q <= R * S && 0 <= r < n
    requires n * spread == n * q - S * S + r * r
    ensures 4 * spread <= n * R * R + 4 * n
  {
    MulMonotone(n, q, R * S);
    SquareBelow(r, n);
    CompletedSquare(n, R, S);
    ScaledBound(n, R, spread);
  }

  lemma ScaledBound(n: int, R: int, spread: int)
    requires n > 0 && 4 * (n * spread) <= n * (n * R * R) + 4 * (n * n)
    ensures 4 * spread <= n * R * R + 4 * n
  {
    assert n * (4 * spread) == 4 * (n * spread);
    assert n * (n * R * R + 4 * n) == n * (n * R * R) + 4 * (n * n);
    CancelFactor(n, 4 * spread, n * R * R + 4 * n);
  }

  lemma CompletedSquare(n: int, R: int, S: int)
    ensures 4 * (n * (R * S)) - 4 * (S * S) <= n * (n * R * R)
  {
    SquareNonNegative(n * R - 2 * S);
    assert (n * R - 2 * S) * (n * R - 2 * S) == (n * R) * (n * R) - 4 * ((n * R) * S) + 4 * (S * S);
    assert (n * R) * (n * R) == n * (n * R * R);
    assert (n * R) * S == n * (R * S);
  }

  lemma CancelFactor(n: int, x: int, y: int)
    requires n > 0 && n * x <= n * y
    ensures x <= y
  {
    if x > y {
      MulMonotone(n, y + 1, x);
    }
  }

  /**
    The 64-bit accumulator of `variance` is exact at every iteration, for any number of
    samples in [0, R] and their own average, as long as n*R^2/4 + n fits.
   */
  lemma VarianceNeverOverflows(s: seq<int>, R: int, i: nat)
    requires s != [] && |s| <= MAX64 && InInt64(Sum(s))
    requires forall j :: 0 <= j < |s| ==> 0 <= s[j] <= R
    requires |s| * R * R + 4 * |s| <= 4 * MAX64 + 3
    requires i <= |s|
    ensures var a := AverageOf(s);
            && 0 <= Spread(s[..i], a) <= Spread(s, a) <= MAX64
            && VarianceOf(a, s) == Spread(s, a) / |s|
  {
    var a := AverageOf(s);
    AverageBetween(s, 0, R);
    SpreadBound(s, R, a);
    SpreadGrows(s, a, i);
  }

  /**
    In particular for the script's fifteen rounds of wall-clock samples, each below 10^9
    nanoseconds, although fifteen squares of 10^9 would not fit.
   */
  lemma WallVarianceNeverOverflows(s: seq<int>, i: nat)
    requires 0 < |s| <= 15 && i <= |s|
    requires forall j :: 0 <= j < |s| ==> 0 <= s[j] < 1_000_000_000
    ensures 0 <= Spread(s[..i], AverageOf(s)) <= MAX64
    ensures VarianceOf(AverageOf(s), s) == Spread(s, AverageOf(s)) / |s|
    ensures 15 * 1_000_000_000 * 1_000_000_000 > MAX64
  {
    SumBounds(s, 0, 1_000_000_000);
    VarianceNeverOverflows(s, 1_000_000_000, i);
  }

  /** floor((n*q - S^2) / n^2): the true population variance of samples with these power sums, rounded down. */
  function FloorVariance(s: seq<int>): int
    requires s != []
  {
    (|s| * Squares(s) - Sum(s) * Sum(s)) / (|s| * |s|)
  }

  /**
    Whatever the samples, of either sign, as long as their sum and spread do not overflow:
    the reported variance is the true population variance rounded down, or that plus one.
   */
  lemma VarianceWithinOne(s: seq<int>)
    requires s != [] && |s| <= MAX64
    requires InInt64(Sum(s)) && InInt64(Spread(s, AverageOf(s)))
    ensures FloorVariance(s) <= VarianceOf(AverageOf(s), s) <= FloorVariance(s) + 1
  {
    var a, n, S := AverageOf(s), |s|, Sum(s);
    QuotClose(S, n);
    SpreadIdentity(s, a);
    SpreadNonNegative(s, a);
    var r := S - n * a;
    FloorsWithinOne(n, n * Squares(s) - S * S, r, Spread(s, a));
  }

  lemma {:induction false} SumBoundsBelow(s: seq<int>)
    requires forall j :: 0 <= j < |s| ==> 0 <= s[j]
    ensures Sum(s) >= 0
  {
    if s != [] {
      SumBoundsBelow(s[..|s| - 1]);
    }
  }

  lemma DivBounds(v: int, d: int)
    requires d > 0
    ensures d * (v / d) <= v < d * (v / d) + d
  {
  }

  /** Dividing by n and then scaling by n^2 stays within n^2 of scaling by n. */
  lemma ScaledFloor(n: int, spread: int)
    requires n > 0
    ensures (n * n) * (spread / n) <= n * spread < (n * n) * (spread / n) + n * n
  {
    var y := spread / n;
    DivBounds(spread, n);
    MulMonotone(n, n * y, spread);
    MulMonotone(n, spread, n * y + n - 1);
    assert n * (n * y) == (n * n) * y;
    assert n * (n * y + n - 1) == (n * n) * y + n * n - n;
  }

  lemma FloorsApart(d: int, x: int, y: int, v: int, w: int)
    requires d > 0 && d * x <= v < d * x + d && d * y <= w < d * y + d && v <= w < v + d
    ensures x <= y <= x + 1
  {
    if y < x {
      MulMonotone(d, y + 1, x);
    } else if y > x + 1 {
      MulMonotone(d, x + 2, y);
    }
  }

  lemma SquareBelow(r: int, n: int)
    requires 0 <= r < n
    ensures 0 <= r * r < n * n
  {
    MulMonotone(r, r, n - 1);
    MulMonotone(n, r, n - 1);
    MulMonotone(n - 1, 0, r);
    SquareNonNegative(r);
  }

  /** v/n^2 and (v + r^2)/n^2 differ by less than one. */
  lemma FloorsWithinOne(n: int, v: int, r: int, spread: int)
    requires n > 0 && -n < r < n && n * spread == v + r * r
    ensures v / (n * n) <= spread / n <= v / (n * n) + 1
  {
    MulMonotone(n, 1, n);
    SquareBelow(if r < 0 then -r else r, n);
    assert (-r) * (-r) == r * r;
    DivBounds(v, n * n);
    ScaledFloor(n, spread);
    FloorsApart(n * n, v / (n * n), spread / n, v, n * spread);
  }

  /** The extra one does occur. */
  lemma VarianceCanExceedFloor()
    ensures var s := [0, 0, 0, 3];
            VarianceOf(AverageOf(s), s) == FloorVariance(s) + 1
  {
    var s := [0, 0, 0, 3];
    ConstantSpread(s[..3], 0);
    assert Sum(s) == 3 && Spread(s, 0) == 9;
  }

  lemma {:induction false} ConstantSpread(s: seq<int>, c: int)
    requires forall i :: 0 <= i < |s| ==> s[i] == c
    ensures Spread(s, c) == 0 && Sum(s) == |s| * c
  {
    if s != [] {
      ConstantSpread(s[..|s| - 1], c);
      assert |s| * c == (|s| - 1) * c + c;
    }
  }

  /** Constant samples are reported as having no variance. */
  lemma ConstantSamples(s: seq<int>, c: int)
    requires s != [] && forall i :: 0 <= i < |s| ==> s[i] == c
    requires InInt64(|s| * c)
    ensures AverageOf(s) == c && VarianceOf(c, s) == 0
  {
    ConstantSpread(s, c);
    QuotOfMultiple(c, |s|);
  }
}
