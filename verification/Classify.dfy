/** The script's collection, reduction and classification of its samples. */
module Classify {
  import opened Records
  import opened Statistics
  import opened Dmesg

  /** exit_flag_<name>: empty, "?", "X", or "-" where the script overrides it. */
  datatype Flag = Silent | Unsure | Exits | Overridden

  function Rank(f: Flag): int {
    match f
    case Silent => 0
    case Unsure => 1
    case Exits => 2
    case Overridden => 3
  }

  /** The averages that every instruction is compared with. */
  datatype Refs = Refs(wallCpuid: int, wallXor: int, nopCpuid: int, nopXor: int)

  /** One dimension of `evaluate_exiting`: further above XOR than below CPUID. */
  predicate Votes(cpuid: int, xor: int, avg: int) {
    Wrap(cpuid - avg) < Wrap(avg - xor)
  }

  function EvaluateExiting(refs: Refs, wall: int, nop: int): Flag {
    if Votes(refs.wallCpuid, refs.wallXor, wall) && Votes(refs.nopCpuid, refs.nopXor, nop) then Exits
    else if Votes(refs.wallCpuid, refs.wallXor, wall) || Votes(refs.nopCpuid, refs.nopXor, nop) then Unsure
    else Silent
  }

  /** The flag after the script's overrides. */
  function FinalFlag(name: string, refs: Refs, wall: int, nop: int): Flag {
    if name == "INB" || name == "OUTB" then Overridden else EvaluateExiting(refs, wall, nop)
  }

  // ---- From log text to samples ----

  predicate Digits(s: string) {
    s != "" && forall i :: 0 <= i < |s| ==> '0' <= s[i] <= '9'
  }

  /** A word in shell arithmetic: a number, or else the name of an unset variable. */
  function ValueOf(word: string): (v: int)
    ensures InInt64(v)
  {
    if Digits(word) then Wrap(Number(word)) else 0
  }

  /** Word splitting drops empty elements. */
  function SamplesOf(words: seq<string>): seq<int> {
    if words == [] then []
    else
      var init := SamplesOf(words[..|words| - 1]);
      if words[|words| - 1] == "" then init else init + [ValueOf(words[|words| - 1])]
  }

  /** Words that a sequence of counts was printed as are those counts again. */
  lemma {:induction false} CountsSurvive(words: seq<string>, counts: seq<nat>)
    requires |words| == |counts|
    requires forall i :: 0 <= i < |words| ==> words[i] == Decimal(counts[i])
    requires forall i :: 0 <= i < |counts| ==> counts[i] <= MAX64
    ensures |SamplesOf(words)| == |counts|
    ensures forall i :: 0 <= i < |counts| ==> SamplesOf(words)[i] == counts[i]
  {
    if words != [] {
      var n := |words| - 1;
      CountsSurvive(words[..n], counts[..n]);
      NumberOfDecimal(counts[n]);
    }
  }

  /** Samples follow their words: each word counts for itself, and an empty one for nothing. */
  lemma {:induction false} SamplesAdd(p: seq<string>, q: seq<string>, word: string)
    ensures SamplesOf([word]) == if word == "" then [] else [ValueOf(word)]
    ensures SamplesOf(p + q) == SamplesOf(p) + SamplesOf(q)
  {
    assert [word][..0] == [];
    assert SamplesOf([word][..0]) == [];
    if q == [] {
      assert p + q == p;
    } else {
      var n := |q| - 1;
      SamplesAdd(p, q[..n], word);
      assert (p + q)[..|p| + n] == p + q[..n];
    }
  }

  predicate Letter(c: char) { 'a' <= c <= 'z' || 'A' <= c <= 'Z' || c == '_' }

  /** A word that shell arithmetic takes for the name of a variable. */
  predicate Identifier(word: string) {
    word != "" && Letter(word[0]) && forall i :: 0 <= i < |word| ==> Letter(word[i]) || '0' <= word[i] <= '9'
  }

  /** A name read in place of a number counts as a sample, and as zero. */
  lemma {:induction false} IdentifiersCountAsZero(words: seq<string>)
    requires forall i :: 0 <= i < |words| ==> Identifier(words[i])
    ensures |SamplesOf(words)| == |words| && forall i :: 0 <= i < |words| ==> SamplesOf(words)[i] == 0
  {
    if words != [] {
      IdentifiersCountAsZero(words[..|words| - 1]);
    }
  }

  /** What one name's rounds yield. */
  function WallWords(logs: seq<seq<string>>, name: string): seq<string> {
    seq(|logs|, r requires 0 <= r < |logs| => WallParse(logs[r], name))
  }

  function NopWords(logs: seq<seq<string>>, name: string): seq<string> {
    seq(|logs|, r requires 0 <= r < |logs| => NopParse(logs[r], name))
  }

  function Get(averages: map<string, int>, name: string): int {
    if name in averages then averages[name] else 0
  }

  /** wall_avg_<name> and nop_avg_<name>; a reference that is not measured counts as 0. */
  function WallAverage(logs: seq<seq<string>>, name: string): int { AverageOf(SamplesOf(WallWords(logs, name))) }
  function NopAverage(logs: seq<seq<string>>, name: string): int { AverageOf(SamplesOf(NopWords(logs, name))) }

  function RefsOf(names: seq<string>, wallLogs: seq<seq<string>>, nopLogs: seq<seq<string>>): Refs {
    var cpuid, xor := "CPUID" in names, "XOR" in names;
    Refs(if cpuid then WallAverage(wallLogs, "CPUID") else 0,
         if xor then WallAverage(wallLogs, "XOR") else 0,
         if cpuid then NopAverage(nopLogs, "CPUID") else 0,
         if xor then NopAverage(nopLogs, "XOR") else 0)
  }

  /** wall_var_<name> and nop_var_<name>: the samples' variance about their own average. */
  function WallVariance(logs: seq<seq<string>>, name: string): int {
    VarianceOf(WallAverage(logs, name), SamplesOf(WallWords(logs, name)))
  }

  function NopVariance(logs: seq<seq<string>>, name: string): int {
    VarianceOf(NopAverage(logs, name), SamplesOf(NopWords(logs, name)))
  }

  /** The flag of a name, as the logs of all rounds determine it. */
  function FlagFrom(names: seq<string>, wallLogs: seq<seq<string>>, nopLogs: seq<seq<string>>, name: string): Flag {
    FinalFlag(name, RefsOf(names, wallLogs, nopLogs), WallAverage(wallLogs, name), NopAverage(nopLogs, name))
  }

  lemma {:induction false} SamplesFit(words: seq<string>)
    ensures |SamplesOf(words)| <= |words|
  {
    if words != [] {
      SamplesFit(words[..|words| - 1]);
    }
  }

  /**
    The script's rounds: in each one the wall-clock results are read from the log left by
    the wall-clock ioctl, then the NOP results from the log left by the NOP ioctl.
   */
  method Collect(names: seq<string>, wallLogs: seq<seq<string>>, nopLogs: seq<seq<string>>)
    returns (wall: map<string, seq<string>>, nop: map<string, seq<string>>)
    requires |wallLogs| == |nopLogs|
    ensures forall j :: j in names ==>
              j in wall && j in nop && wall[j] == WallWords(wallLogs, j) && nop[j] == NopWords(nopLogs, j)
  {
    wall := map j | j in names :: [];
    nop := map j | j in names :: [];
    for r := 0 to |wallLogs|
      invariant forall j :: j in names ==>
                  j in wall && j in nop && wall[j] == WallWords(wallLogs[..r], j) && nop[j] == NopWords(nopLogs[..r], j)
    {
      wall := ReadWall(names, wall, wallLogs[r]);
      nop := ReadNop(names, nop, nopLogs[r]);
      assert wallLogs[..r + 1] == wallLogs[..r] + [wallLogs[r]] && nopLogs[..r + 1] == nopLogs[..r] + [nopLogs[r]];
    }
    assert wallLogs[..|wallLogs|] == wallLogs && nopLogs[..|wallLogs|] == nopLogs;
  }

  /** One round's wall-clock results; a name listed twice is read twice into the same element. */
  method ReadWall(names: seq<string>, before: map<string, seq<string>>, lines: seq<string>) returns (after: map<string, seq<string>>)
    requires forall j :: j in names ==> j in before
    ensures forall j :: j in names ==> j in after && after[j] == before[j] + [WallParse(lines, j)]
  {
    after := before;
    for n := 0 to |names|
      invariant after.Keys == before.Keys
      invariant forall j :: j in names[..n] ==> after[j] == before[j] + [WallParse(lines, j)]
      invariant forall j :: j in before && j !in names[..n] ==> after[j] == before[j]
    {
      after := after[names[n] := before[names[n]] + [WallParse(lines, names[n])]];
      assert names[..n + 1] == names[..n] + [names[n]];
    }
    assert names[..|names|] == names;
  }

  method ReadNop(names: seq<string>, before: map<string, seq<string>>, lines: seq<string>) returns (after: map<string, seq<string>>)
    requires forall j :: j in names ==> j in before
    ensures forall j :: j in names ==> j in after && after[j] == before[j] + [NopParse(lines, j)]
  {
    after := before;
    for n := 0 to |names|
      invariant after.Keys == before.Keys
      invariant forall j :: j in names[..n] ==> after[j] == before[j] + [NopParse(lines, j)]
      invariant forall j :: j in before && j !in names[..n] ==> after[j] == before[j]
    {
      after := after[names[n] := before[names[n]] + [NopParse(lines, names[n])]];
      assert names[..n + 1] == names[..n] + [names[n]];
    }
    assert names[..|names|] == names;
  }

  /** The reduction loop: each name's average, then its variance about that average. */
  method Reduce(names: seq<string>, words: map<string, seq<string>>) returns (averages: map<string, int>, variances: map<string, int>)
    requires forall j :: j in names ==> j in words && |words[j]| <= MAX64
    ensures averages.Keys == variances.Keys == set j | j in names
    ensures forall j :: j in names ==> averages[j] == AverageOf(SamplesOf(words[j]))
    ensures forall j :: j in names ==> variances[j] == VarianceOf(averages[j], SamplesOf(words[j]))
  {
    averages, variances := map[], map[];
    for n := 0 to |names|
      invariant averages.Keys == variances.Keys == set j | j in names[..n]
      invariant forall j :: j in names[..n] ==> averages[j] == AverageOf(SamplesOf(words[j]))
      invariant forall j :: j in names[..n] ==> variances[j] == VarianceOf(averages[j], SamplesOf(words[j]))
    {
      SamplesFit(words[names[n]]);
      var avg := Average(SamplesOf(words[names[n]]));
      var spread := Variance(avg, SamplesOf(words[names[n]]));
      averages, variances := averages[names[n] := avg], variances[names[n] := spread];
      assert names[..n + 1] == names[..n] + [names[n]];
    }
    assert names[..|names|] == names;
  }

  /** The whole computation of the exit flags and the variances, from the logs of all rounds. */
  method Flags(names: seq<string>, wallLogs: seq<seq<string>>, nopLogs: seq<seq<string>>)
    returns (flags: map<string, Flag>, wallVar: map<string, int>, nopVar: map<string, int>)
    requires |wallLogs| == |nopLogs| <= MAX64
    ensures forall j :: j in names ==> j in flags && flags[j] == FlagFrom(names, wallLogs, nopLogs, j)
    ensures forall j :: j in names ==> j in wallVar && wallVar[j] == WallVariance(wallLogs, j)
    ensures forall j :: j in names ==> j in nopVar && nopVar[j] == NopVariance(nopLogs, j)
  {
    var wall, nop := Collect(names, wallLogs, nopLogs);
    var wallAvg, nopAvg;
    wallAvg, wallVar := Reduce(names, wall);
    nopAvg, nopVar := Reduce(names, nop);
    var refs := Refs(Get(wallAvg, "CPUID"), Get(wallAvg, "XOR"), Get(nopAvg, "CPUID"), Get(nopAvg, "XOR"));
    flags := FlagAll(names, refs, wallAvg, nopAvg);
  }

  /** The classification loop. */
  method FlagAll(names: seq<string>, refs: Refs, wallAvg: map<string, int>, nopAvg: map<string, int>) returns (flags: map<string, Flag>)
    requires forall j :: j in names ==> j in wallAvg && j in nopAvg
    ensures forall j :: j in names ==> j in flags && flags[j] == FinalFlag(j, refs, wallAvg[j], nopAvg[j])
  {
    flags := map[];
    for n := 0 to |names|
      invariant flags.Keys == set j | j in names[..n]
      invariant forall j :: j in names[..n] ==> flags[j] == FinalFlag(j, refs, wallAvg[j], nopAvg[j])
    {
      flags := flags[names[n] := FinalFlag(names[n], refs, wallAvg[names[n]], nopAvg[names[n]])];
      assert names[..n + 1] == names[..n] + [names[n]];
    }
    assert names[..|names|] == names;
  }

  // ---- What a flag means ----

  /**
    A dimension's vote is that of the midpoint test, whether twice the average exceeds the
    two references together, exactly if neither difference wraps, or one alone does and the
    average is at least 2^63 away from the midpoint. If both wrap, the vote is wrong.
   */
  lemma VoteMeansAboveMidpointIff(cpuid: int, xor: int, avg: int)
    requires InInt64(cpuid) && InInt64(xor) && InInt64(avg)
    ensures var below, above := InInt64(cpuid - avg), InInt64(avg - xor);
            (Votes(cpuid, xor, avg) == (2 * avg > cpuid + xor)) <==>
              (below && above) || (below != above && (2 * avg - cpuid - xor > U64 || cpuid + xor - 2 * avg >= U64))
  {
  }

  /** The average of a single printed number. */
  lemma OneSample(n: nat)
    ensures AverageOf(SamplesOf([Decimal(n)])) == Wrap(n)
  {
    var words := [Decimal(n)];
    NumberOfDecimal(n);
    assert words[..0] == [] && words[0] != "" && Digits(words[0]);
    assert SamplesOf(words) == SamplesOf(words[..0]) + [ValueOf(words[0])];
    var samples := SamplesOf(words);
    assert samples[..0] == [];
    assert Sum(samples) == Wrap(n);
  }

  /** The wrong vote does occur, with averages of counts that the NOP thread can print. */
  lemma VoteCanWrap()
    ensures var cpuid, xor, avg := AverageOf(SamplesOf([Decimal(0)])), AverageOf(SamplesOf([Decimal(U64 - 2)])),
                                   AverageOf(SamplesOf([Decimal(MAX64)]));
            !Votes(cpuid, xor, avg) && 2 * avg > cpuid + xor
  {
    OneSample(0);
    OneSample(U64 - 2);
    OneSample(MAX64);
    VoteMeansAboveMidpointIff(0, -2, MAX64);
  }

  predicate NonNegative(s: seq<int>) {
    InInt64(Sum(s)) && forall i :: 0 <= i < |s| ==> 0 <= s[i]
  }

  lemma AverageNonNegative(s: seq<int>)
    requires NonNegative(s)
    ensures AverageOf(s) >= 0
  {
    SumBoundsBelow(s);
  }

  lemma VoteMonotone(cpuid: int, xor: int, avg: int, avg': int)
    requires 0 <= cpuid <= MAX64 && 0 <= xor <= MAX64 && 0 <= avg <= avg' <= MAX64
    ensures Votes(cpuid, xor, avg) ==> Votes(cpuid, xor, avg')
  {
    VoteMeansAboveMidpointIff(cpuid, xor, avg);
    VoteMeansAboveMidpointIff(cpuid, xor, avg');
  }

  predicate GoodRefs(refs: Refs) {
    0 <= refs.wallCpuid <= MAX64 && 0 <= refs.wallXor <= MAX64 && 0 <= refs.nopCpuid <= MAX64 && 0 <= refs.nopXor <= MAX64
  }

  lemma AverageFits(s: seq<int>)
    requires NonNegative(s)
    ensures 0 <= AverageOf(s) <= MAX64
  {
    AverageNonNegative(s);
    QuotClose(Sum(s), Divisor(|s|));
    MulMonotone(AverageOf(s), 1, Divisor(|s|));
  }

  /**
    End to end from samples to flag: with the reference instructions' averages fixed,
    raising any samples of an instruction, in either dimension, never lowers its flag.
   */
  lemma RaisingSamplesNeverLowersFlag(name: string, refs: Refs, wall: seq<int>, wall': seq<int>, nop: seq<int>, nop': seq<int>)
    requires GoodRefs(refs)
    requires NonNegative(wall) && NonNegative(wall') && NonNegative(nop) && NonNegative(nop')
    requires |wall| == |wall'| && forall i :: 0 <= i < |wall| ==> wall[i] <= wall'[i]
    requires |nop| == |nop'| && forall i :: 0 <= i < |nop| ==> nop[i] <= nop'[i]
    ensures Rank(FinalFlag(name, refs, AverageOf(wall), AverageOf(nop))) <= Rank(FinalFlag(name, refs, AverageOf(wall'), AverageOf(nop')))
  {
    AverageMonotone(wall, wall');
    AverageMonotone(nop, nop');
    AverageFits(wall);
    AverageFits(wall');
    AverageFits(nop);
    AverageFits(nop');
    VoteMonotone(refs.wallCpuid, refs.wallXor, AverageOf(wall), AverageOf(wall'));
    VoteMonotone(refs.nopCpuid, refs.nopXor, AverageOf(nop), AverageOf(nop'));
  }

  lemma FlagAtMidpoints(refs: Refs, wall: int, nop: int)
    requires GoodRefs(refs) && 0 <= wall <= MAX64 && 0 <= nop <= MAX64
    ensures var w, n := 2 * wall > refs.wallCpuid + refs.wallXor, 2 * nop > refs.nopCpuid + refs.nopXor;
            var f := EvaluateExiting(refs, wall, nop);
            (f.Exits? <==> w && n) && (f.Unsure? <==> w != n) && (f.Silent? <==> !w && !n)
  {
    VoteMeansAboveMidpointIff(refs.wallCpuid, refs.wallXor, wall);
    VoteMeansAboveMidpointIff(refs.nopCpuid, refs.nopXor, nop);
  }

  /** The flag in full: both midpoints exceeded, exactly one, or none. */
  lemma FlagMeansMidpoints(refs: Refs, wall: seq<int>, nop: seq<int>)
    requires GoodRefs(refs) && NonNegative(wall) && NonNegative(nop)
    ensures var w := 2 * AverageOf(wall) > refs.wallCpuid + refs.wallXor;
            var n := 2 * AverageOf(nop) > refs.nopCpuid + refs.nopXor;
            var f := EvaluateExiting(refs, AverageOf(wall), AverageOf(nop));
            (f.Exits? <==> w && n) && (f.Unsure? <==> w != n) && (f.Silent? <==> !w && !n)
  {
    AverageFits(wall);
    AverageFits(nop);
    FlagAtMidpoints(refs, AverageOf(wall), AverageOf(nop));
  }

  /** The references' averages in the shell's integers, as any samples give. */
  predicate FittingRefs(refs: Refs) {
    InInt64(refs.wallCpuid) && InInt64(refs.wallXor) && InInt64(refs.nopCpuid) && InInt64(refs.nopXor)
  }

  /** The references lie below zero together, and the negation of XOR's does not wrap. */
  predicate BelowZero(cpuid: int, xor: int) {
    cpuid + xor < 0 && xor != MIN64
  }

  /**
    An instruction that was never measured, such as INVPCID, counts as measured at zero. So
    it is flagged exactly in the dimensions whose references lie below zero together.
   */
  lemma UnmeasuredFlagIff(refs: Refs, words: seq<string>, words': seq<string>)
    requires FittingRefs(refs)
    requires (forall i :: 0 <= i < |words| ==> words[i] == "") && forall i :: 0 <= i < |words'| ==> words'[i] == ""
    ensures var f := EvaluateExiting(refs, AverageOf(SamplesOf(words)), AverageOf(SamplesOf(words')));
            var w, n := BelowZero(refs.wallCpuid, refs.wallXor), BelowZero(refs.nopCpuid, refs.nopXor);
            (f.Exits? <==> w && n) && (f.Unsure? <==> w != n) && (f.Silent? <==> !w && !n)
  {
    EmptyWords(words);
    EmptyWords(words');
    ZeroVotes(refs.wallCpuid, refs.wallXor);
    ZeroVotes(refs.nopCpuid, refs.nopXor);
  }

  lemma ZeroVotes(cpuid: int, xor: int)
    requires InInt64(cpuid) && InInt64(xor)
    ensures Votes(cpuid, xor, 0) <==> BelowZero(cpuid, xor)
  {
  }

  /** In particular never, once no reference is negative. */
  lemma UnmeasuredNeverFlagged(name: string, refs: Refs, words: seq<string>, words': seq<string>)
    requires GoodRefs(refs)
    requires (forall i :: 0 <= i < |words| ==> words[i] == "") && forall i :: 0 <= i < |words'| ==> words'[i] == ""
    ensures var f := FinalFlag(name, refs, AverageOf(SamplesOf(words)), AverageOf(SamplesOf(words')));
            if name == "INB" || name == "OUTB" then f.Overridden? else f.Silent?
  {
    UnmeasuredFlagIff(refs, words, words');
  }

  lemma {:induction false} EmptyWords(words: seq<string>)
    requires forall i :: 0 <= i < |words| ==> words[i] == ""
    ensures SamplesOf(words) == []
  {
    if words != [] {
      EmptyWords(words[..|words| - 1]);
    }
  }
}
