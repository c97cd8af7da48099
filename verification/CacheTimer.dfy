/** Cache timing: the 32-bit probe difference and its averaging in an `int`. */
module CacheTimer {

  const U32: int := 0x1_0000_0000
  const MAX32: int := 0x7FFF_FFFF
  const COUNT := 100

  /** Two readings of the time-stamp counter around one load. */
  datatype Probe = Probe(before: nat, after: nat)

  /** rdtsc leaves the low word in eax, and subl subtracts low words. */
  function Low(x: nat): nat { x % U32 }
  function Difference(p: Probe): nat { (Low(p.after) - Low(p.before)) % U32 }

  /** The difference of the low words is the elapsed cycles modulo 2^32, across a wrap of the low word too. */
  lemma DifferenceIsElapsed(p: Probe)
    requires p.before <= p.after
    ensures Difference(p) == (p.after - p.before) % U32
    ensures Difference(p) == p.after - p.before <==> p.after - p.before < U32
  {
    var q := p.after / U32 - p.before / U32;
    assert p.after - p.before == Low(p.after) - Low(p.before) + U32 * q;
    ModShift(Low(p.after) - Low(p.before), q);
  }

  lemma ModShift(x: int, q: int)
    ensures (x + U32 * q) % U32 == x % U32
  {
  }

  /** Conversion to a 32-bit int. */
  function ToInt(x: int): (r: int)
    ensures -U32 / 2 <= r <= MAX32
    ensures -U32 / 2 <= x <= MAX32 ==> r == x
  {
    (x + U32 / 2) % U32 - U32 / 2
  }

  lemma ToIntShift(x: int) returns (q: int)
    ensures ToInt(x) == x + U32 * q
  {
    q := -((x + U32 / 2) / U32);
  }

  lemma ToIntAdds(x: int, y: int)
    ensures ToInt(ToInt(x) + y) == ToInt(x + y)
  {
    var q := ToIntShift(x);
    ModShift(x + y + U32 / 2, q);
  }

  /** C division by the positive constant COUNT. */
  function Quot(x: int): int { if x >= 0 then x / COUNT else -((-x) / COUNT) }

  function Total(probes: seq<Probe>): nat {
    if probes == [] then 0 else Total(probes[..|probes| - 1]) + Difference(probes[|probes| - 1])
  }

  function Reported(probes: seq<Probe>): int { Quot(ToInt(Total(probes))) }

  /** cache_timing_handler: flushes and sleeps have no effect here, the probes are what rdtsc returned. */
  method Handler(probes: seq<Probe>) returns (avg: int)
    requires |probes| == COUNT
    ensures avg == Reported(probes)
  {
    avg := 0;
    for i := 0 to COUNT
      invariant avg == ToInt(Total(probes[..i]))
    {
      assert probes[..i + 1][..i] == probes[..i];
      var t := Difference(probes[i]);
      ToIntAdds(Total(probes[..i]), t);
      avg := ToInt(avg + t);
    }
    assert probes[..COUNT] == probes;
    avg := Quot(avg);
  }

  /** The total of one probe is its difference, and totals add up, however the probes are grouped. */
  lemma {:induction false} TotalAdds(p: seq<Probe>, q: seq<Probe>, x: Probe)
    ensures Total([x]) == Difference(x)
    ensures Total(p + q) == Total(p) + Total(q)
  {
    assert [x][..0] == [];
    if q == [] {
      assert p + q == p;
    } else {
      var n := |q| - 1;
      TotalAdds(p, q[..n], x);
      assert (p + q)[..|p| + n] == p + q[..n];
    }
  }

  /** Each probe counts for itself: changing one changes the total by the difference of the two. */
  lemma EachProbeCounts(probes: seq<Probe>, i: nat, x: Probe)
    requires i < |probes|
    ensures Total(probes[i := x]) == Total(probes) - Difference(probes[i]) + Difference(x)
  {
    var before, after := probes[..i], probes[i + 1..];
    assert probes == before + ([probes[i]] + after) && probes[i := x] == before + ([x] + after);
    TotalAdds(before, [x] + after, x);
    TotalAdds([x], after, x);
    TotalAdds(before, [probes[i]] + after, probes[i]);
    TotalAdds([probes[i]], after, probes[i]);
  }

  /**
    The reported average is the floor of the true mean exactly when the probes' total fits
    an `int`.
   */
  lemma AverageExactIff(probes: seq<Probe>)
    ensures Reported(probes) == Total(probes) / COUNT <==> Total(probes) <= MAX32
  {
    var q := ToIntShift(Total(probes));
    if Total(probes) > MAX32 {
      assert q <= -1;
    }
  }

  /**
    In every case, overflow included, the report is the truncated quotient of the one `int`
    that is congruent to the total.
   */
  lemma ReportTruncates(probes: seq<Probe>) returns (t: int)
    ensures -U32 / 2 <= t <= MAX32 && (Total(probes) - t) % U32 == 0
    ensures t >= 0 ==> t - COUNT < COUNT * Reported(probes) <= t
    ensures t < 0 ==> t <= COUNT * Reported(probes) < t + COUNT
  {
    t := ToInt(Total(probes));
    var q := ToIntShift(Total(probes));
    ModShift(0, -q);
  }

  lemma {:induction false} TotalBounds(probes: seq<Probe>, lo: nat, hi: nat)
    requires forall i :: 0 <= i < |probes| ==> lo <= Difference(probes[i]) <= hi
    ensures |probes| * lo <= Total(probes) <= |probes| * hi
  {
    if probes != [] {
      var n := |probes| - 1;
      TotalBounds(probes[..n], lo, hi);
      assert (n + 1) * lo == n * lo + lo && (n + 1) * hi == n * hi + hi;
    }
  }

  lemma {:induction false} TotalGrows(probes: seq<Probe>, i: nat)
    requires i <= |probes|
    ensures Total(probes[..i]) <= Total(probes)
  {
    if i < |probes| {
      TotalGrows(probes[..|probes| - 1], i);
      assert probes[..|probes| - 1][..i] == probes[..i];
    } else {
      assert probes[..i] == probes;
    }
  }

  /**
    If each of the hundred probes is at most 21474836 cycles, the accumulator is exact at
    every iteration, and the report is the floor mean, between the least and the greatest probe.
   */
  lemma SmallProbesAverageExactly(probes: seq<Probe>, lo: nat, hi: nat, i: nat)
    requires |probes| == COUNT && i <= COUNT && lo <= hi <= 21474836
    requires forall j :: 0 <= j < COUNT ==> lo <= Difference(probes[j]) <= hi
    ensures ToInt(Total(probes[..i])) == Total(probes[..i])
    ensures Reported(probes) == Total(probes) / COUNT && lo <= Reported(probes) <= hi
  {
    TotalBounds(probes, lo, hi);
    TotalGrows(probes, i);
    AverageExactIff(probes);
  }
}
