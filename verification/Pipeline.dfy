/** From the interleaved threads of every round to the flag that the script prints. */
module Pipeline {
  import opened Records
  import opened NopMachine
  import opened SeqSpec
  import opened Refinement
  import opened Dmesg
  import opened RoundTrip
  import opened Statistics
  import opened Classify
  import opened Plans
  import opened Handshake
  import W = WallTimer
  import D = Driver

  /** The latest event of the name in this round is a measurement that fits the shell's integers. */
  ghost predicate MeasuredInRound(run: seq<Step>, x: string) {
    var items := AfterSys(run).h.items; var t := Latest(items, x);
    t >= 0 && items[t].Measured? && items[t].n <= MAX64
  }

  function CountOf(run: seq<Step>, x: string): nat {
    var items := AfterSys(run).h.items; var t := Latest(items, x);
    if t >= 0 && items[t].Measured? then items[t].n else 0
  }

  lemma CountIsReadBack(run: seq<Step>, stamps: seq<string>, x: string) returns (w: Window)
    requires GoodName(x) && ReadyToRead(run, stamps) && MeasuredInRound(run, x)
    ensures NopParse(Show(stamps, After(run).log), x) == Decimal(CountOf(run, x))
    ensures CountOf(run, x) <= MAX64
    ensures Measured(x, CountOf(run, x), w) in AfterSys(run).h.items && CountsWindow(CountOf(run, x), w)
  {
    NopParseReturnsMeasuredCount(run, stamps, x);
    var items := AfterSys(run).h.items;
    var item := items[Latest(items, x)];
    w := item.w;
    assert item == Measured(x, CountOf(run, x), w) && item in items;
  }

  /** The count is that of a window which the run recorded. */
  ghost predicate IsMeasuredCount(run: seq<Step>, x: string, n: nat) {
    exists w :: Measured(x, n, w) in AfterSys(run).h.items && CountsWindow(n, w)
  }

  /** The latest wall-clock record of the name in this round fits the shell's integers. */
  predicate TimedInRound(run: seq<Step>, x: string) {
    var log := After(run).log; var i := LastWall(log, x);
    i >= 0 && log[i].nsec <= MAX64
  }

  function NsecOf(run: seq<Step>, x: string): nat {
    var log := After(run).log; var i := LastWall(log, x);
    if i >= 0 then log[i].nsec else 0
  }

  /** One round of the script: the log is read after the wall-clock ioctl, and after the NOP ioctl. */
  datatype Round = Round(wallRun: seq<Step>, wallStamps: seq<string>, nopRun: seq<Step>, nopStamps: seq<string>)

  ghost predicate Legible(rounds: seq<Round>) {
    forall r :: 0 <= r < |rounds| ==>
      ReadyToRead(rounds[r].wallRun, rounds[r].wallStamps) && ReadyToRead(rounds[r].nopRun, rounds[r].nopStamps)
  }

  ghost function WallLogs(rounds: seq<Round>): seq<seq<string>>
    requires Legible(rounds)
  {
    seq(|rounds|, r requires 0 <= r < |rounds| => Show(rounds[r].wallStamps, After(rounds[r].wallRun).log))
  }

  ghost function NopLogs(rounds: seq<Round>): seq<seq<string>>
    requires Legible(rounds)
  {
    seq(|rounds|, r requires 0 <= r < |rounds| => Show(rounds[r].nopStamps, After(rounds[r].nopRun).log))
  }

  ghost predicate Counted(rounds: seq<Round>, x: string) {
    forall r :: 0 <= r < |rounds| ==> MeasuredInRound(rounds[r].nopRun, x)
  }

  predicate Timed(rounds: seq<Round>, x: string) {
    forall r :: 0 <= r < |rounds| ==> TimedInRound(rounds[r].wallRun, x)
  }

  /** What the name's rounds measured. */
  function Counts(rounds: seq<Round>, x: string): seq<nat> {
    seq(|rounds|, r requires 0 <= r < |rounds| => CountOf(rounds[r].nopRun, x))
  }

  function Nsecs(rounds: seq<Round>, x: string): seq<nat> {
    seq(|rounds|, r requires 0 <= r < |rounds| => NsecOf(rounds[r].wallRun, x))
  }

  /**
    If every round measured the instruction, then, however the threads of the rounds were
    interleaved, the average that the script works with is that of exactly the counts that
    the NOP thread printed, each of them the length of its own window.
   */
  lemma AverageIsOfMeasuredCounts(rounds: seq<Round>, x: string)
    requires Legible(rounds) && GoodName(x) && Counted(rounds, x)
    ensures SamplesOf(NopWords(NopLogs(rounds), x)) == Counts(rounds, x)
    ensures NopAverage(NopLogs(rounds), x) == AverageOf(Counts(rounds, x))
    ensures forall r :: 0 <= r < |rounds| ==> IsMeasuredCount(rounds[r].nopRun, x, CountOf(rounds[r].nopRun, x))
  {
    var counts := Counts(rounds, x);
    var words := NopWords(NopLogs(rounds), x);
    forall r | 0 <= r < |rounds|
      ensures words[r] == Decimal(counts[r]) && counts[r] <= MAX64
      ensures IsMeasuredCount(rounds[r].nopRun, x, CountOf(rounds[r].nopRun, x))
    {
      var w := CountIsReadBack(rounds[r].nopRun, rounds[r].nopStamps, x);
    }
    CountsSurvive(words, counts);
    assert SamplesOf(words) == counts;
  }

  /** Likewise for the wall-clock records. */
  lemma AverageIsOfLoggedTimes(rounds: seq<Round>, x: string)
    requires Legible(rounds) && GoodName(x) && Timed(rounds, x)
    ensures SamplesOf(WallWords(WallLogs(rounds), x)) == Nsecs(rounds, x)
    ensures WallAverage(WallLogs(rounds), x) == AverageOf(Nsecs(rounds, x))
  {
    var nsecs := Nsecs(rounds, x);
    var words := WallWords(WallLogs(rounds), x);
    forall r | 0 <= r < |rounds| ensures words[r] == Decimal(nsecs[r]) && nsecs[r] <= MAX64 {
      assert TimedInRound(rounds[r].wallRun, x);
      WallParseReturnsLatestRun(rounds[r].wallRun, rounds[r].wallStamps, x);
    }
    CountsSurvive(words, nsecs);
    assert SamplesOf(words) == nsecs;
  }

  lemma ReferencesAreGood()
    ensures GoodName("CPUID") && GoodName("XOR")
  {
    StandardNamesAreGood();
    assert PLAIN_NAMES[0] == "XOR" && PLAIN_NAMES[1] == "CPUID";
  }

  /** Every round measured the name in both ways, and the totals fit the shell's integers. */
  ghost predicate Sampled(rounds: seq<Round>, x: string) {
    Counted(rounds, x) && Timed(rounds, x) && InInt64(Sum(Counts(rounds, x))) && InInt64(Sum(Nsecs(rounds, x)))
  }

  /** The averages that the script has for a name are those of what was measured, and are in range. */
  lemma AveragesOf(rounds: seq<Round>, x: string)
    requires Legible(rounds) && GoodName(x) && Sampled(rounds, x)
    ensures WallAverage(WallLogs(rounds), x) == AverageOf(Nsecs(rounds, x)) && 0 <= AverageOf(Nsecs(rounds, x)) <= MAX64
    ensures NopAverage(NopLogs(rounds), x) == AverageOf(Counts(rounds, x)) && 0 <= AverageOf(Counts(rounds, x)) <= MAX64
  {
    AverageIsOfMeasuredCounts(rounds, x);
    AverageIsOfLoggedTimes(rounds, x);
    AverageFits(Nsecs(rounds, x));
    AverageFits(Counts(rounds, x));
  }

  /**
    The variances that the script prints are those of what was measured, rounded down or
    that plus one, as long as the squares add up within the shell's integers.
   */
  lemma VariancesOfMeasurements(rounds: seq<Round>, x: string)
    requires Legible(rounds) && GoodName(x) && Sampled(rounds, x) && 0 < |rounds| <= MAX64
    ensures var s := Nsecs(rounds, x);
            InInt64(Spread(s, AverageOf(s))) ==> FloorVariance(s) <= WallVariance(WallLogs(rounds), x) <= FloorVariance(s) + 1
    ensures var s := Counts(rounds, x);
            InInt64(Spread(s, AverageOf(s))) ==> FloorVariance(s) <= NopVariance(NopLogs(rounds), x) <= FloorVariance(s) + 1
  {
    AverageIsOfMeasuredCounts(rounds, x);
    AverageIsOfLoggedTimes(rounds, x);
    var s, t := Nsecs(rounds, x), Counts(rounds, x);
    if InInt64(Spread(s, AverageOf(s))) {
      VarianceWithinOne(s);
    }
    if InInt64(Spread(t, AverageOf(t))) {
      VarianceWithinOne(t);
    }
  }

  /** The instruction took longer, by what was measured of it, than CPUID and XOR on average. */
  predicate SlowByWall(rounds: seq<Round>, x: string) {
    2 * AverageOf(Nsecs(rounds, x)) > AverageOf(Nsecs(rounds, "CPUID")) + AverageOf(Nsecs(rounds, "XOR"))
  }

  predicate SlowByNop(rounds: seq<Round>, x: string) {
    2 * AverageOf(Counts(rounds, x)) > AverageOf(Counts(rounds, "CPUID")) + AverageOf(Counts(rounds, "XOR"))
  }

  /** The flag that `Flags` computes for the name from the rounds' logs. */
  ghost function FlagOf(names: seq<string>, rounds: seq<Round>, x: string): Flag
    requires Legible(rounds)
  {
    FlagFrom(names, WallLogs(rounds), NopLogs(rounds), x)
  }

  /**
    End to end: if the instruction, CPUID and XOR were measured in every round, then,
    however the threads of the rounds were interleaved, the printed flag compares what was
    really measured: X if the instruction lies above the midpoint of the two references
    both in wall-clock time and in counted NOPs, ? if in one of them, nothing otherwise.
   */
  lemma FlagComparesMeasurements(names: seq<string>, rounds: seq<Round>, x: string)
    requires Legible(rounds) && GoodName(x) && "CPUID" in names && "XOR" in names
    requires Sampled(rounds, x) && Sampled(rounds, "CPUID") && Sampled(rounds, "XOR")
    ensures var f, w, n := FlagOf(names, rounds, x), SlowByWall(rounds, x), SlowByNop(rounds, x);
            if x == "INB" || x == "OUTB" then f.Overridden?
            else (f.Exits? <==> w && n) && (f.Unsure? <==> w != n) && (f.Silent? <==> !w && !n)
  {
    ReferencesAreGood();
    AveragesOf(rounds, x);
    AveragesOf(rounds, "CPUID");
    AveragesOf(rounds, "XOR");
    FlagAtMidpoints(RefsOf(names, WallLogs(rounds), NopLogs(rounds)), AverageOf(Nsecs(rounds, x)), AverageOf(Counts(rounds, x)));
  }

  /**
    A reference that the script does not list counts as zero. Without both, the flag says
    in how many ways the instruction took any time at all on average.
   */
  lemma FlagWithoutReferences(names: seq<string>, rounds: seq<Round>, x: string)
    requires Legible(rounds) && GoodName(x) && "CPUID" !in names && "XOR" !in names
    requires Sampled(rounds, x)
    ensures var f := FlagOf(names, rounds, x);
            var w, n := AverageOf(Nsecs(rounds, x)) > 0, AverageOf(Counts(rounds, x)) > 0;
            if x == "INB" || x == "OUTB" then f.Overridden?
            else (f.Exits? <==> w && n) && (f.Unsure? <==> w != n) && (f.Silent? <==> !w && !n)
  {
    AveragesOf(rounds, x);
    FlagAtMidpoints(RefsOf(names, WallLogs(rounds), NopLogs(rounds)), AverageOf(Nsecs(rounds, x)), AverageOf(Counts(rounds, x)));
  }

  /** With one reference alone, twice the average is compared with it. */
  lemma FlagWithOneReference(names: seq<string>, rounds: seq<Round>, x: string, y: string, z: string)
    requires Legible(rounds) && GoodName(x) && ((y == "CPUID" && z == "XOR") || (y == "XOR" && z == "CPUID"))
    requires y in names && z !in names && Sampled(rounds, x) && Sampled(rounds, y)
    ensures var f := FlagOf(names, rounds, x);
            var w := 2 * AverageOf(Nsecs(rounds, x)) > AverageOf(Nsecs(rounds, y));
            var n := 2 * AverageOf(Counts(rounds, x)) > AverageOf(Counts(rounds, y));
            if x == "INB" || x == "OUTB" then f.Overridden?
            else (f.Exits? <==> w && n) && (f.Unsure? <==> w != n) && (f.Silent? <==> !w && !n)
  {
    ReferencesAreGood();
    AveragesOf(rounds, x);
    AveragesOf(rounds, y);
    FlagAtMidpoints(RefsOf(names, WallLogs(rounds), NopLogs(rounds)), AverageOf(Nsecs(rounds, x)), AverageOf(Counts(rounds, x)));
  }

  /** So it is for the script's flush list, which names neither reference. */
  lemma FlushListHasNoReferences()
    ensures "CPUID" !in FLUSH_INSTRUCTIONS && "XOR" !in FLUSH_INSTRUCTIONS
    ensures forall x :: x in FLUSH_INSTRUCTIONS ==> GoodName(x) && x != "INB" && x != "OUTB"
  {
    FlushNamesAreGood();
    assert FLUSH_INSTRUCTIONS == FLUSH_NAMES;
    assert forall x :: x in FLUSH_INSTRUCTIONS ==> |x| >= 6;
  }

  lemma FlushFlags(rounds: seq<Round>, x: string)
    requires Legible(rounds) && x in FLUSH_INSTRUCTIONS && Sampled(rounds, x)
    ensures var f := FlagOf(FLUSH_INSTRUCTIONS, rounds, x);
            var w, n := AverageOf(Nsecs(rounds, x)) > 0, AverageOf(Counts(rounds, x)) > 0;
            (f.Exits? <==> w && n) && (f.Unsure? <==> w != n) && (f.Silent? <==> !w && !n)
  {
    FlushListHasNoReferences();
    FlagWithoutReferences(FLUSH_INSTRUCTIONS, rounds, x);
  }

  // ---- Zeros that are overtaken ----

  /** The call that the round asked for ends with an entry without its buffer, and another message has followed. */
  ghost predicate Overtaken(run: seq<Step>, x: string) {
    var job, h := Asked(run), AfterSys(run).h;
    && job.plan.entries != [] && !job.mem
    && job.plan.entries[|job.plan.entries| - 1].gate.Kmalloc? && job.plan.entries[|job.plan.entries| - 1].name == x
    && h.end < |h.items| && h.items[h.end].Other? && Identifier(LastWord(h.items[h.end].rec))
  }

  lemma OvertakenIsRead(run: seq<Step>, stamps: seq<string>, x: string)
    requires ReadyToRead(run, stamps) && Overtaken(run, x)
    ensures Identifier(NopParse(Show(stamps, After(run).log), x))
  {
    LastZeroIsOvertaken(run, stamps);
  }

  lemma {:induction false} ZerosAddUp(s: seq<int>)
    requires forall i :: 0 <= i < |s| ==> s[i] == 0
    ensures Sum(s) == 0
  {
    if s != [] {
      ZerosAddUp(s[..|s| - 1]);
    }
  }

  /**
    If in every round the zero of the last entry was overtaken by a message that ends in a
    plain word, as "IOCTL release succeeded" does, then that word is a sample of the script,
    it counts as zero, and the instruction is flagged by its wall-clock time alone.
   */
  lemma OvertakenCountsAsZero(names: seq<string>, rounds: seq<Round>, x: string)
    requires Legible(rounds) && GoodName(x) && "CPUID" in names && "XOR" in names
    requires forall r :: 0 <= r < |rounds| ==> Overtaken(rounds[r].nopRun, x)
    requires Timed(rounds, x) && InInt64(Sum(Nsecs(rounds, x))) && Sampled(rounds, "CPUID") && Sampled(rounds, "XOR")
    ensures |SamplesOf(NopWords(NopLogs(rounds), x))| == |rounds| && NopAverage(NopLogs(rounds), x) == 0
    ensures var f := FlagOf(names, rounds, x);
            x != "INB" && x != "OUTB" ==>
              !f.Exits? && (f.Unsure? <==> SlowByWall(rounds, x)) && (f.Silent? <==> !SlowByWall(rounds, x))
  {
    var words := NopWords(NopLogs(rounds), x);
    forall r | 0 <= r < |words| ensures Identifier(words[r]) {
      OvertakenIsRead(rounds[r].nopRun, rounds[r].nopStamps, x);
    }
    IdentifiersCountAsZero(words);
    ZerosAddUp(SamplesOf(words));
    ReferencesAreGood();
    AveragesOf(rounds, "CPUID");
    AveragesOf(rounds, "XOR");
    AverageIsOfLoggedTimes(rounds, x);
    AverageFits(Nsecs(rounds, x));
    FlagAtMidpoints(RefsOf(names, WallLogs(rounds), NopLogs(rounds)), AverageOf(Nsecs(rounds, x)), 0);
  }

  lemma SucceededIsAWord()
    ensures Identifier("succeeded") && ' ' !in "succeeded"
  {
  }

  lemma ReleaseIsAWord()
    ensures Identifier(LastWord(Note("IOCTL release" + " " + "succeeded")))
  {
    SucceededIsAWord();
    LastWordOfTail("IOCTL release", "succeeded");
    LastWordOfWord("succeeded");
  }

  // ---- Wall-clock runs in a session ----

  /** The module logs these records, one after another, while no NOP timing is in progress. */
  function Asides(recs: seq<Record>): (steps: seq<Step>)
    ensures |steps| == |recs|
  {
    seq(|recs|, i requires 0 <= i < |recs| => Ctrl(Aside(recs[i]), true))
  }

  lemma AsideStep(m: Machine, rec: Record)
    requires m.cpc.Idle? && Foreign(rec)
    ensures Next(m, Ctrl(Aside(rec), true)) == m.(log := m.log + [rec])
  {
  }

  lemma AfterAside(before: seq<Step>, rec: Record)
    requires After(before).cpc.Idle? && Foreign(rec)
    ensures After(before + [Ctrl(Aside(rec), true)]) == After(before).(log := After(before).log + [rec])
  {
    assert (before + [Ctrl(Aside(rec), true)])[..|before|] == before;
    AsideStep(After(before), rec);
  }

  lemma OneMoreAside(before: seq<Step>, recs: seq<Record>)
    requires recs != []
    ensures var n := |recs| - 1; before + Asides(recs) == before + Asides(recs[..n]) + [Ctrl(Aside(recs[n]), true)]
  {
  }

  lemma NoAsides(before: seq<Step>, recs: seq<Record>)
    requires recs == []
    ensures before + Asides(recs) == before
  {
  }

  lemma LogGrows(log: seq<Record>, recs: seq<Record>)
    requires recs != []
    ensures var n := |recs| - 1; log + recs[..n] + [recs[n]] == log + recs
  {
  }

  lemma {:induction false} AsidesAreLogged(before: seq<Step>, recs: seq<Record>)
    requires After(before).cpc.Idle? && forall rec :: rec in recs ==> Foreign(rec)
    ensures After(before + Asides(recs)) == After(before).(log := After(before).log + recs)
    decreases |recs|
  {
    if recs == [] {
      NoAsides(before, recs);
      assert After(before).log + recs == After(before).log;
    } else {
      var n := |recs| - 1;
      AsidesAreLogged(before, recs[..n]);
      OneMoreAside(before, recs);
      AfterAside(before + Asides(recs[..n]), recs[n]);
      LogGrows(After(before).log, recs);
    }
  }

  lemma {:induction false} WallRecordsAreForeign(entries: seq<Entry>, mem: bool, readings: seq<W.Reading>, rec: Record)
    requires |entries| == |readings| && rec in W.LoggedAll(entries, mem, readings)
    ensures Foreign(rec)
  {
    var n := |entries| - 1;
    if rec !in W.Logged(entries[n], mem, readings[n]) {
      WallRecordsAreForeign(entries[..n], mem, readings[..n], rec);
    }
  }

  /** What `wall_timing_start` logs, as its method says. */
  function WallRecords(entries: seq<Entry>, mem: bool, readings: seq<W.Reading>, ecx: int): seq<Record>
    requires |entries| == |readings|
  {
    [W.Support(ecx), W.WALL_BANNER] + W.LoggedAll(entries, mem, readings)
  }

  lemma WallRunIsLogged(before: seq<Step>, entries: seq<Entry>, mem: bool, readings: seq<W.Reading>, ecx: int)
    requires After(before).cpc.Idle? && |entries| == |readings|
    ensures After(before + Asides(WallRecords(entries, mem, readings, ecx))).log
         == After(before).log + [W.Support(ecx), W.WALL_BANNER] + W.LoggedAll(entries, mem, readings)
  {
    var recs, logged := WallRecords(entries, mem, readings, ecx), W.LoggedAll(entries, mem, readings);
    forall rec | rec in recs ensures Foreign(rec) {
      if rec in logged {
        WallRecordsAreForeign(entries, mem, readings, rec);
      }
    }
    AsidesAreLogged(before, recs);
    assert After(before).log + recs == After(before).log + [W.Support(ecx), W.WALL_BANNER] + logged;
  }

  /**
    What a round's wall-clock sample means: after any history, a wall-clock run leaves for
    each name that it logs the elapsed time of its last entry modulo one second, or zero
    if that lacked its buffer.
   */
  lemma WallRunIsTimed(before: seq<Step>, entries: seq<Entry>, mem: bool, readings: seq<W.Reading>, ecx: int, x: string)
    requires After(before).cpc.Idle? && |entries| == |readings| && W.LastEntry(entries, x) >= 0
    ensures var run := before + Asides(WallRecords(entries, mem, readings, ecx)); var j := W.LastEntry(entries, x);
            && TimedInRound(run, x)
            && NsecOf(run, x) == if Available(entries[j], mem) then W.Elapsed(readings[j]) % W.NANO else 0
  {
    WallRunIsLogged(before, entries, mem, readings, ecx);
    W.LatestInRun(After(before).log + [W.Support(ecx), W.WALL_BANNER], entries, mem, readings, x);
  }

  /**
    A standard wall-clock run, after any history: each listed instruction, save INVPCID, is
    timed by its only entry, over a hundred calls, with interrupts off exactly for the MOV_*
    instructions, and leaves that time modulo one second as the round's sample.
   */
  lemma StandardWallRun(before: seq<Step>, rdrand: bool, rdseed: bool, mem: bool, readings: seq<W.Reading>, ecx: int, x: string)
    returns (j: nat)
    requires After(before).cpc.Idle? && |readings| == |StandardPlan(rdrand, rdseed).entries|
    requires x in STANDARD_INSTRUCTIONS && x != UNMEASURED
    ensures var entries := StandardPlan(rdrand, rdseed).entries;
            && OnlyAt(entries, x, j) && GuardedByName(entries[j])
            && (Available(entries[j], mem) ==>
                  && W.TimedAt(W.TraceAll(entries, mem, readings), W.Begin(entries, mem, readings, j), entries[j], readings[j])
                  && NsecOf(before + Asides(WallRecords(entries, mem, readings, ecx)), x) == W.Elapsed(readings[j]) % W.NANO)
  {
    var entries := StandardPlan(rdrand, rdseed).entries;
    StandardPlanCoversScript(rdrand, rdseed, x);
    j :| OnlyAt(entries, x, j);
    StandardPlanGuards(rdrand, rdseed, j);
    if Available(entries[j], mem) {
      assert W.LastEntry(entries, x) == j;
      W.EachEntryIsTimed(entries, mem, readings, j);
      WallRunIsTimed(before, entries, mem, readings, ecx, x);
    }
  }

  // ---- From ioctls to runs ----

  /** The request that a NOP-timing ioctl makes of the idle module, given the ioctls before it. */
  function StartOf(requests: seq<D.Request>, action: bool, rdrand: bool, rdseed: bool): Request {
    Start(PlanOf(action, rdrand, rdseed), D.After(requests).aligned != 0)
  }

  /** The two NOP-timing ioctls measure what the script's two lists ask for, with a buffer exactly if one could be aligned. */
  lemma IoctlsMeasureLists(requests: seq<D.Request>, cmd: D.Command, env: D.Env, rdrand: bool, rdseed: bool, x: string)
    requires cmd.Thread? || cmd.ThreadFlush?
    ensures var runs := D.Next(D.After(requests), cmd, env).0.runs;
            && runs != [] && runs[|runs| - 1].NopRun?
            && var start := StartOf(requests, runs[|runs| - 1].standard, rdrand, rdseed);
               && (x in NamesOf(start.plan.entries) <==>
                     if cmd.Thread? then x in STANDARD_INSTRUCTIONS && x != UNMEASURED else x in FLUSH_INSTRUCTIONS)
               && (start.mem <==> 0 < D.FirstAllocation(requests) <= D.LAST_ALIGNABLE)
  {
    StandardPlanCoversScript(rdrand, rdseed, x);
    FlushPlanCoversScript();
    D.BufferIsFirstAllocation(requests);
    D.AlignUpIsMultiple(D.FirstAllocation(requests));
  }
}
