/** From a measurement by the NOP thread to the number that `nop_parse` returns for it. */
module RoundTrip {
  import opened Records
  import opened NopMachine
  import opened Handshake
  import opened SeqSpec
  import opened Refinement
  import opened Dmesg
  import opened Plans

  ghost predicate GoodPlan(p: Plan) {
    GoodText(p.banner) && forall i :: 0 <= i < |p.entries| ==> GoodName(p.entries[i].name)
  }

  /** A sufficient test for holding no tag: no "WA", and no "NO" with an underscore two places on. */
  predicate Clean(s: string) {
    forall i :: 0 <= i < |s| - 1 ==>
      && !(s[i] == 'N' && s[i + 1] == 'O' && (i + 3 >= |s| || s[i + 3] == '_'))
      && !(s[i] == 'W' && s[i + 1] == 'A')
  }

  lemma CleanIsGood(s: string)
    requires Clean(s)
    ensures GoodText(s)
  {
    if Contains(s, NOP) {
      var i :| 0 <= i <= |s| && OccursAt(s, NOP, i);
      OccurrenceChar(s, NOP, i, 0);
      OccurrenceChar(s, NOP, i, 1);
      OccurrenceChar(s, NOP, i, 3);
    }
    if Contains(s, WALL) {
      var i :| 0 <= i <= |s| && OccursAt(s, WALL, i);
      OccurrenceChar(s, WALL, i, 0);
      OccurrenceChar(s, WALL, i, 1);
    }
  }

  lemma GoodNames(names: seq<string>)
    requires forall i :: 0 <= i < |names| ==> Clean(names[i]) && ':' !in names[i]
    ensures forall i :: 0 <= i < |names| ==> GoodName(names[i])
  {
    forall i | 0 <= i < |names| ensures GoodName(names[i]) {
      CleanIsGood(names[i]);
    }
  }

  /** Both tags hold an underscore. */
  lemma TextWithoutUnderscore(s: string)
    requires forall i :: 0 <= i < |s| ==> s[i] != '_'
    ensures GoodText(s)
  {
    if Contains(s, NOP) {
      var i :| 0 <= i <= |s| && OccursAt(s, NOP, i);
      OccurrenceChar(s, NOP, i, 3);
    }
    if Contains(s, WALL) {
      var i :| 0 <= i <= |s| && OccursAt(s, WALL, i);
      OccurrenceChar(s, WALL, i, 4);
    }
  }

  lemma StandardBannerIsGood()
    ensures GoodText("Aggregating NOP based timings")
  {
    TextWithoutUnderscore("Aggregating NOP based timings");
  }

  lemma FlushBannerIsGood()
    ensures GoodText("Aggregating buffer flush NOP based timing")
  {
    TextWithoutUnderscore("Aggregating buffer flush NOP based timing");
  }

  lemma FlushNamesAreGood()
    ensures forall i :: 0 <= i < |FLUSH_NAMES| ==> GoodName(FLUSH_NAMES[i])
  {
    GoodNames(FLUSH_NAMES);
  }

  lemma StandardNamesAreGood()
    ensures forall i :: 0 <= i < |PLAIN_NAMES| ==> GoodName(PLAIN_NAMES[i])
    ensures forall i :: 0 <= i < |SUSPENDED_NAMES| ==> GoodName(SUSPENDED_NAMES[i])
  {
    GoodNames(PLAIN_NAMES);
    GoodNames(SUSPENDED_NAMES);
  }

  lemma OtherNamesAreGood()
    ensures GoodName("RDMSR") && GoodName("RDPMC") && GoodName("RDRAND") && GoodName("RDSEED")
    ensures GoodName("WBINVD") && GoodName("WRMSR") && GoodName("MOVNTDQA") && GoodName("MOVNTDQ")
  {
    var names := ["RDMSR", "RDPMC", "RDRAND", "RDSEED", "WBINVD", "WRMSR", "MOVNTDQA", "MOVNTDQ"];
    GoodNames(names);
    assert forall i :: 0 <= i < 8 ==> GoodName(names[i]);
    assert names[0] == "RDMSR" && names[1] == "RDPMC" && names[2] == "RDRAND" && names[3] == "RDSEED";
    assert names[4] == "WBINVD" && names[5] == "WRMSR" && names[6] == "MOVNTDQA" && names[7] == "MOVNTDQ";
  }

  /** No name that the source measures can be mistaken for another by the script's grep. */
  lemma SourcePlansAreGood(rdrand: bool, rdseed: bool)
    ensures GoodPlan(StandardPlan(rdrand, rdseed)) && GoodPlan(FlushPlan())
  {
    FlushNamesAreGood();
    StandardNamesAreGood();
    OtherNamesAreGood();
    StandardBannerIsGood();
    FlushBannerIsGood();
  }

  // ---- Logs that can be read by name ----

  /** The step brings in no name or message that could be mistaken for another. */
  ghost predicate GoodStep(s: Step) {
    s.Ctrl? ==>
      match s.request
      case Start(plan, _) => GoodPlan(plan)
      case Aside(rec) => GoodRecord(rec)
  }

  ghost predicate GoodMachine(m: Machine) {
    GoodPlan(m.job.plan) && forall i :: 0 <= i < |m.log| ==> GoodRecord(m.log[i])
  }

  lemma EmptyIsGood()
    ensures GoodName("") && GoodText("")
  {
  }

  lemma AppendedIsGood(m: Machine, s: Step)
    requires GoodMachine(m) && GoodStep(s)
    ensures forall i :: 0 <= i < |Appended(m, s)| ==> GoodRecord(Appended(m, s)[i])
  {
    EmptyIsGood();
    assert GoodName(Current(m).name);
  }

  lemma GoodMachineKept(m: Machine, s: Step)
    requires GoodMachine(m) && GoodStep(s)
    ensures GoodMachine(Next(m, s))
  {
    AppendedIsGood(m, s);
    NextAppends(m, s);
    assert Next(m, s).job.plan == m.job.plan || (s.Ctrl? && s.request.Start? && Next(m, s).job.plan == s.request.plan);
  }

  lemma InitialIsGood()
    ensures GoodMachine(Initial())
  {
    EmptyIsGood();
    InsertedIsGood();
    assert Initial().log == [INSERTED];
  }

  lemma InsertedIsGood()
    ensures GoodRecord(INSERTED)
  {
    TextWithoutUnderscore("Inserting ECR kernel object");
  }

  lemma {:induction false} LogStaysGood(schedule: seq<Step>)
    requires forall i :: 0 <= i < |schedule| ==> GoodStep(schedule[i])
    ensures GoodMachine(After(schedule))
  {
    if schedule == [] {
      InitialIsGood();
    } else {
      LogStaysGood(schedule[..|schedule| - 1]);
      GoodMachineKept(After(schedule[..|schedule| - 1]), schedule[|schedule| - 1]);
    }
  }

  // ---- The latest event of a name ----

  /** The latest entry of name `x` among the events, or -1. */
  function Latest(items: seq<Item>, x: string): (t: int)
    ensures -1 <= t < |items|
    ensures t >= 0 ==> !items[t].Other? && items[t].name == x
    ensures forall u :: t < u < |items| ==> items[u].Other? || items[u].name != x
  {
    if items == [] then -1
    else if !items[|items| - 1].Other? && items[|items| - 1].name == x then |items| - 1
    else Latest(items[..|items| - 1], x)
  }

  lemma LastNopSkips(log: seq<Record>, more: seq<Record>, x: string)
    requires |more| <= 2 && forall i :: 0 <= i < |more| ==> more[i] != Label(x) && more[i] != Zero(x)
    ensures LastNop(log + more, x) == LastNop(log, x)
  {
    if |more| == 1 {
      assert (log + more)[..|log|] == log;
    } else if |more| == 2 {
      assert (log + more)[..|log| + 1] == log + [more[0]];
      assert (log + [more[0]])[..|log|] == log;
    } else {
      assert log + more == log;
    }
  }

  lemma ExpandOfOthers(item: Item, x: string)
    requires if item.Other? then Foreign(item.rec) else item.name != x
    ensures |Expand(item)| <= 2
    ensures forall i :: 0 <= i < |Expand(item)| ==> Expand(item)[i] != Label(x) && Expand(item)[i] != Zero(x)
  {
  }

  lemma LastNopHits(log: seq<Record>, item: Item)
    requires !item.Other?
    ensures LastNop(log + Expand(item), item.name) == |log|
  {
    var x := item.name;
    if item.Measured? {
      assert (log + Expand(item))[..|log| + 1] == log + [Label(x)];
    }
  }

  lemma LastNopStep(log: seq<Record>, item: Item, x: string)
    requires item.Other? ==> Foreign(item.rec)
    ensures LastNop(log + Expand(item), x) == if !item.Other? && item.name == x then |log| else LastNop(log, x)
  {
    if !item.Other? && item.name == x {
      LastNopHits(log, item);
    } else {
      ExpandOfOthers(item, x);
      LastNopSkips(log, Expand(item), x);
    }
  }

  /** Grepping the log by name finds the latest event of that name. */
  lemma {:induction false} LastNopIsLatest(items: seq<Item>, x: string)
    requires forall u :: 0 <= u < |items| && items[u].Other? ==> Foreign(items[u].rec)
    ensures var t := Latest(items, x);
            LastNop(Flatten(items), x) == if t < 0 then -1 else |Flatten(items[..t])|
  {
    if items != [] {
      var init := items[..|items| - 1];
      LastNopStep(Flatten(init), items[|items| - 1], x);
      LastNopIsLatest(init, x);
      var t := Latest(init, x);
      assert t >= 0 ==> init[..t] == items[..t];
    }
  }

  lemma AllOthersForeign(schedule: seq<Step>)
    ensures var items := AfterSys(schedule).h.items;
            forall u :: 0 <= u < |items| && items[u].Other? ==> Foreign(items[u].rec)
  {
    var items := AfterSys(schedule).h.items;
    forall u | 0 <= u < |items| && items[u].Other? ensures Foreign(items[u].rec) {
      OthersAreForeign(schedule, u);
    }
  }

  /** The conditions under which a log is read: no call in progress, readable texts and stamps. */
  ghost predicate ReadyToRead(schedule: seq<Step>, stamps: seq<string>) {
    && After(schedule).cpc.Idle?
    && |stamps| == |After(schedule).log|
    && (forall i :: 0 <= i < |stamps| ==> GoodStamp(stamps[i]))
    && (forall i :: 0 <= i < |schedule| ==> GoodStep(schedule[i]))
  }

  /** An idle module's log can be read: it is exactly its events. */
  lemma LogIsReadable(schedule: seq<Step>, stamps: seq<string>)
    requires ReadyToRead(schedule, stamps)
    ensures var items := AfterSys(schedule).h.items;
            && After(schedule).log == Flatten(items) && Readable(stamps, Flatten(items))
            && (forall u :: 0 <= u < |items| && items[u].Other? ==> Foreign(items[u].rec))
            && Windows(items, AfterSys(schedule).h.w.printedAt) && GoodPlan(After(schedule).job.plan)
  {
    FinishedRunIsComplete(schedule);
    LogIsSequential(schedule);
    LogStaysGood(schedule);
    AllOthersForeign(schedule);
  }

  lemma ReadMeasured(items: seq<Item>, stamps: seq<string>, x: string)
    requires Readable(stamps, Flatten(items)) && GoodName(x)
    requires forall u :: 0 <= u < |items| && items[u].Other? ==> Foreign(items[u].rec)
    ensures var t := Latest(items, x); var answer := NopParse(Show(stamps, Flatten(items)), x);
            && (t < 0 ==> answer == "")
            && (t >= 0 && items[t].Measured? ==> answer == Decimal(items[t].n))
  {
    LastNopIsLatest(items, x);
    NopParseReadsNext(stamps, Flatten(items), x);
    var t := Latest(items, x);
    if t >= 0 && items[t].Measured? {
      FlattenAt(items, t);
      var p := |Flatten(items[..t])|;
      assert Flatten(items)[p + 1] == (Flatten(items[..t]) + Expand(items[t]))[p + 1];
    }
  }

  /** The first record of each event, and where it stands. */
  lemma FirstRecordAt(items: seq<Item>, t: nat)
    requires t < |items|
    ensures var log, p := Flatten(items), |Flatten(items[..t])|; p < |log| && log[p] == Expand(items[t])[0]
  {
    FlattenAt(items, t);
    var p := |Flatten(items[..t])|;
    assert Flatten(items)[p] == (Flatten(items[..t]) + Expand(items[t]))[p];
  }

  lemma FlattenUpTo(items: seq<Item>, t: nat)
    requires t < |items|
    ensures Flatten(items[..t + 1]) == Flatten(items[..t]) + Expand(items[t])
  {
    assert items[..t + 1] == items[..t] + [items[t]];
    FlattenSnoc(items[..t], items[t]);
  }

  /** The record after an unmeasured event is the first record of the next event. */
  lemma AfterUnmeasured(items: seq<Item>, t: nat)
    requires t < |items| && items[t].Unmeasured?
    ensures var log, p := Flatten(items), |Flatten(items[..t])|;
            && p < |log| && log[p] == Zero(items[t].name)
            && (t + 1 == |items| ==> p + 1 == |log|)
            && (t + 1 < |items| ==> p + 1 < |log| && log[p + 1] == Expand(items[t + 1])[0])
  {
    FirstRecordAt(items, t);
    FlattenUpTo(items, t);
    if t + 1 == |items| {
      assert items[..t + 1] == items;
    } else {
      FirstRecordAt(items, t + 1);
    }
  }

  /**
    What `nop_parse` answers for an unmeasured event, which is the last word of the line
    after it: "0" if the log ends there or another unmeasured event follows, nothing at all
    before a measured one, and the last word of any other message.
   */
  function UnmeasuredAnswer(items: seq<Item>, t: nat): string {
    if t + 1 >= |items| then "0"
    else match items[t + 1]
      case Unmeasured(_) => "0"
      case Measured(_, _, _) => ""
      case Other(rec) => LastWord(rec)
  }

  /** Nothing follows event `t`, or another unmeasured event, or a message whose last word is "0". */
  predicate ZeroFollows(items: seq<Item>, t: nat) {
    t + 1 >= |items| || items[t + 1].Unmeasured? || (items[t + 1].Other? && LastWord(items[t + 1].rec) == "0")
  }

  lemma UnmeasuredAnswerIsZero(items: seq<Item>, t: nat)
    ensures UnmeasuredAnswer(items, t) == "0" <==> ZeroFollows(items, t)
  {
  }

  lemma UnmeasuredNext(items: seq<Item>, t: nat)
    requires t < |items| && items[t].Unmeasured?
    ensures var log, p := Flatten(items), |Flatten(items[..t])|;
            p < |log| && LastWord(log[Following(log, p)]) == UnmeasuredAnswer(items, t)
  {
    AfterUnmeasured(items, t);
  }

  lemma ReadUnmeasured(items: seq<Item>, stamps: seq<string>, x: string)
    requires Readable(stamps, Flatten(items)) && GoodName(x)
    requires forall u :: 0 <= u < |items| && items[u].Other? ==> Foreign(items[u].rec)
    requires var t := Latest(items, x); t >= 0 && items[t].Unmeasured?
    ensures NopParse(Show(stamps, Flatten(items)), x) == UnmeasuredAnswer(items, Latest(items, x))
  {
    LastNopIsLatest(items, x);
    NopParseReadsNext(stamps, Flatten(items), x);
    UnmeasuredNext(items, Latest(items, x));
  }

  /**
    The round trip. After any number of completed runs, under any interleavings, with any
    other messages in between: if the latest entry of a name was measured, `nop_parse`
    returns the digits of the count that this very measurement printed, and shell
    arithmetic reads that count back. A name never logged yields the empty string.
   */
  lemma NopParseReturnsMeasuredCount(schedule: seq<Step>, stamps: seq<string>, x: string)
    requires ReadyToRead(schedule, stamps) && GoodName(x)
    ensures var items := AfterSys(schedule).h.items; var t := Latest(items, x);
            var answer := NopParse(Show(stamps, After(schedule).log), x);
            && (t < 0 ==> answer == "")
            && (t >= 0 && items[t].Measured? ==>
                  answer == Decimal(items[t].n) && Number(answer) == items[t].n && CountsWindow(items[t].n, items[t].w))
  {
    LogIsReadable(schedule, stamps);
    var items := AfterSys(schedule).h.items;
    ReadMeasured(items, stamps, x);
    var t := Latest(items, x);
    if t >= 0 && items[t].Measured? {
      NumberOfDecimal(items[t].n);
    }
  }

  /**
    An unmeasured entry does not survive the trip in general: its zero is on the label's
    own line, and the next line is read. The answer is "0" exactly when nothing follows, or
    another unmeasured entry, or a message whose last word is "0".
   */
  lemma NopParseOfUnmeasured(schedule: seq<Step>, stamps: seq<string>, x: string)
    requires ReadyToRead(schedule, stamps) && GoodName(x)
    requires var t := Latest(AfterSys(schedule).h.items, x); t >= 0 && AfterSys(schedule).h.items[t].Unmeasured?
    ensures var items := AfterSys(schedule).h.items; var t := Latest(items, x);
            var answer := NopParse(Show(stamps, After(schedule).log), x);
            answer == UnmeasuredAnswer(items, t) && (answer == "0" <==> ZeroFollows(items, t))
  {
    LogIsReadable(schedule, stamps);
    var items := AfterSys(schedule).h.items;
    ReadUnmeasured(items, stamps, x);
    UnmeasuredAnswerIsZero(items, Latest(items, x));
  }

  /**
    After a completed run in which every CPU test saw two CPUs, each entry that was asked
    for and whose guards held is read back as a count measured in that very run, over all
    the calls of an entry of its name.
   */
  lemma CompletedRunIsReadBack(schedule: seq<Step>, stamps: seq<string>, j: nat) returns (n: nat, w: Window, i: nat)
    requires ReadyToRead(schedule, stamps) && !FailedCpuTest(schedule)
    requires var job := Asked(schedule);
             && j < |job.plan.entries|
             && forall i :: 0 <= i < |job.plan.entries| && job.plan.entries[i].name == job.plan.entries[j].name ==>
                  Available(job.plan.entries[i], job.mem)
    ensures NopParse(Show(stamps, After(schedule).log), Asked(schedule).plan.entries[j].name) == Decimal(n)
    ensures CountsWindow(n, w)
    ensures var entries := Asked(schedule).plan.entries;
            i < |entries| && entries[i].name == entries[j].name && w.calls == entries[i].iterations
    ensures var h := AfterSys(schedule).h;
            h.base <= h.end <= |h.items| && Measured(Asked(schedule).plan.entries[j].name, n, w) in RunEvents(h.items, h.base, h.end)
  {
    RunsWhatWasAsked(schedule);
    LogIsReadable(schedule, stamps);
    FinishedRunIsComplete(schedule);
    ObserverTellsCpus(schedule);
    var h := AfterSys(schedule).h;
    n, w, i := ReadRun(h.items, h.base, h.end, Asked(schedule), stamps, j, h.w.printedAt);
  }

  lemma AllAvailable(rdrand: bool, rdseed: bool, j: nat)
    requires j < |StandardPlan(rdrand, rdseed).entries| && rdrand && rdseed
    ensures Available(StandardPlan(rdrand, rdseed).entries[j], true)
  {
  }

  /**
    In particular, after a request for the standard run on a CPU that has all instructions
    and with a buffer, each name that the script lists, save INVPCID, is read back as a count
    over a hundred calls.
   */
  lemma StandardRunIsReadBack(schedule: seq<Step>, stamps: seq<string>, x: string) returns (n: nat, w: Window)
    requires ReadyToRead(schedule, stamps) && !FailedCpuTest(schedule)
    requires Asked(schedule) == Job(StandardPlan(true, true), true) && x in STANDARD_INSTRUCTIONS && x != UNMEASURED
    ensures NopParse(Show(stamps, After(schedule).log), x) == Decimal(n)
    ensures CountsWindow(n, w) && w.calls == 100
    ensures var h := AfterSys(schedule).h;
            h.base <= h.end <= |h.items| && Measured(x, n, w) in RunEvents(h.items, h.base, h.end)
  {
    var entries := StandardPlan(true, true).entries;
    forall i | 0 <= i < |entries| ensures Available(entries[i], true) {
      AllAvailable(true, true, i);
    }
    StandardPlanCoversScript(true, true, x);
    var j :| OnlyAt(entries, x, j);
    var i;
    n, w, i := CompletedRunIsReadBack(schedule, stamps, j);
    StandardPlanGuards(true, true, i);
  }

  /** What is measured next was asked for. */
  lemma CurrentIsAsked(schedule: seq<Step>)
    requires After(schedule).t.pc.Body?
    ensures var k := After(schedule).t.k; var entries := Asked(schedule).plan.entries;
            k < |entries| && Current(After(schedule)) == entries[k]
  {
    Reachable(schedule);
    RunsWhatWasAsked(schedule);
  }

  /**
    In every schedule that was asked for one of the two plans: the calls of the MOV_*
    instructions are made with interrupts off and all others with interrupts on, and every
    count that is printed spans a hundred calls.
   */
  lemma PlannedMeasurements(schedule: seq<Step>, rdrand: bool, rdseed: bool)
    requires Asked(schedule).plan == StandardPlan(rdrand, rdseed) || Asked(schedule).plan == FlushPlan()
    ensures var m := After(schedule);
            && (m.t.pc == Body(Call) ==> m.irq.on == !StartsWith(Current(m).name, "MOV_"))
            && (m.npc.EmitCount? ==> CallsSince(schedule) == 100)
  {
    var m := After(schedule);
    RequestsExclusive(schedule);
    if m.t.pc.Body? {
      CurrentIsAsked(schedule);
      if Asked(schedule).plan == FlushPlan() {
        FlushPlanGuards(m.t.k);
      } else {
        StandardPlanGuards(rdrand, rdseed, m.t.k);
      }
      InterruptDiscipline(schedule);
      if m.npc.EmitCount? {
        PrintedCountIsExact(schedule);
      }
    }
  }

  /** `items[base..end]` is a completed run of the job in which no CPU test failed. */
  predicate TwoCpuRun(items: seq<Item>, base: nat, end: nat, job: Job) {
    && base <= end <= |items|
    && Matches(job.plan.entries, RunEvents(items, base, end), job.mem, false)
    && forall u :: end <= u < |items| ==> items[u].Other?
  }

  lemma ReadRun(items: seq<Item>, base: nat, end: nat, job: Job, stamps: seq<string>, j: nat, last: nat)
    returns (n: nat, w: Window, i: nat)
    requires TwoCpuRun(items, base, end, job) && j < |job.plan.entries| && GoodPlan(job.plan) && Windows(items, last)
    requires Readable(stamps, Flatten(items))
    requires forall u :: 0 <= u < |items| && items[u].Other? ==> Foreign(items[u].rec)
    requires forall i :: 0 <= i < |job.plan.entries| && job.plan.entries[i].name == job.plan.entries[j].name ==>
               Available(job.plan.entries[i], job.mem)
    ensures NopParse(Show(stamps, Flatten(items)), job.plan.entries[j].name) == Decimal(n)
    ensures CountsWindow(n, w) && Measured(job.plan.entries[j].name, n, w) in RunEvents(items, base, end)
    ensures i < |job.plan.entries| && job.plan.entries[i].name == job.plan.entries[j].name && w.calls == job.plan.entries[i].iterations
  {
    ReadMeasured(items, stamps, job.plan.entries[j].name);
    var t;
    t, i := LatestOfRun(items, base, end, job, j);
    n, w := items[t].n, items[t].w;
    assert RunEvents(items, base, end)[t - base - 1] == items[t];
  }

  /** The latest event of an available entry of a completed two-CPU run is a measurement of that run. */
  lemma LatestOfRun(items: seq<Item>, base: nat, end: nat, job: Job, j: nat) returns (t: nat, i: nat)
    requires TwoCpuRun(items, base, end, job) && j < |job.plan.entries|
    requires forall i :: 0 <= i < |job.plan.entries| && job.plan.entries[i].name == job.plan.entries[j].name ==>
               Available(job.plan.entries[i], job.mem)
    ensures base < t < end && t == Latest(items, job.plan.entries[j].name) && items[t].Measured?
    ensures i < |job.plan.entries| && job.plan.entries[i].name == job.plan.entries[j].name
    ensures items[t].w.calls == job.plan.entries[i].iterations
  {
    var run := RunEvents(items, base, end);
    var u := MatchedEvent(job.plan.entries, run, job.mem, false, j);
    assert items[base + 1 + u] == run[u];
    t := Latest(items, job.plan.entries[j].name);
    assert t >= base + 1 + u;
    assert run[t - base - 1] == items[t];
    i := MatchedEntry(job.plan.entries, run, job.mem, false, t - base - 1);
  }

  // ---- The buffer-flush run without its buffer ----

  /** In a run without a failed CPU test, the last entry, unless skipped, has left the last event. */
  lemma MatchesLast(entries: seq<Entry>, e: Entry, events: seq<Item>, mem: bool)
    requires Matches(entries + [e], events, mem, false) && !Skipped(e)
    ensures events != [] && Matches(entries, events[..|events| - 1], mem, false)
    ensures var last := events[|events| - 1];
            !last.Other? && last.name == e.name && (last.Measured? <==> Available(e, mem))
  {
    assert (entries + [e])[..|entries|] == entries;
  }

  /** A run of three entries of which only the first needs the buffer, and lacks it. */
  lemma FlushEvents(a: Entry, b: Entry, c: Entry, run: seq<Item>)
    requires a.gate.Kmalloc? && b.gate.Plain? && c.gate.Plain?
    requires Matches([a, b] + [c], run, false, false)
    ensures |run| == 3 && run[0] == Unmeasured(a.name)
    ensures run[1].Measured? && run[1].name == b.name && run[2].Measured? && run[2].name == c.name
  {
    MatchesLast([a, b], c, run, false);
    var two := run[..|run| - 1];
    MatchesLast([a], b, two, false);
    var one := two[..|two| - 1];
    MatchesLast([], a, one, false);
    assert one[..|one| - 1] == [];
  }

  lemma LatestIs(items: seq<Item>, x: string, t: nat)
    requires t < |items| && !items[t].Other? && items[t].name == x
    requires forall u :: t < u < |items| ==> items[u].Other? || items[u].name != x
    ensures Latest(items, x) == t
  {
  }

  lemma LatestOfThree(items: seq<Item>, base: nat, end: nat, x: string, y: string, z: string)
    requires base <= end <= |items| && x != y && x != z
    requires var run := RunEvents(items, base, end);
             |run| == 3 && run[0] == Unmeasured(x) && run[1].Measured? && run[1].name == y && run[2].Measured? && run[2].name == z
    requires forall u :: end <= u < |items| ==> items[u].Other?
    ensures base + 2 < |items| && Latest(items, x) == base + 1
    ensures items[base + 1].Unmeasured? && items[base + 2].Measured?
  {
    var run := RunEvents(items, base, end);
    assert end == base + 4;
    assert items[base + 1] == run[0] && items[base + 2] == run[1] && items[base + 3] == run[2];
    forall u | base + 1 < u < |items| ensures items[u].Other? || items[u].name != x {
      assert u == base + 2 || u == base + 3 || end <= u;
    }
    LatestIs(items, x, base + 1);
  }

  lemma LatestOfFlush(items: seq<Item>, base: nat, end: nat, a: Entry, b: Entry, c: Entry)
    requires a.gate.Kmalloc? && b.gate.Plain? && c.gate.Plain? && a.name != b.name && a.name != c.name
    requires base <= end <= |items| && Matches([a, b] + [c], RunEvents(items, base, end), false, false)
    requires forall u :: end <= u < |items| ==> items[u].Other?
    ensures base + 2 < |items| && Latest(items, a.name) == base + 1
    ensures items[base + 1].Unmeasured? && items[base + 2].Measured?
  {
    FlushEvents(a, b, c, RunEvents(items, base, end));
    LatestOfThree(items, base, end, a.name, b.name, c.name);
  }

  lemma FlushPlanIs() returns (a: Entry, b: Entry, c: Entry)
    ensures FlushPlan().entries == [a, b] + [c]
    ensures a.name == "CLFLUSH" && a.gate.Kmalloc? && b.gate.Plain? && c.gate.Plain?
    ensures a.name != b.name && a.name != c.name && GoodName(a.name)
  {
    FlushNamesAreGood();
    a, b, c := Entry(FLUSH_NAMES[0], Kmalloc, ITERATIONS), Entry(FLUSH_NAMES[1], Plain, ITERATIONS), Entry(FLUSH_NAMES[2], Plain, ITERATIONS);
    assert FLUSH_NAMES[..1] == [FLUSH_NAMES[0]] && FLUSH_NAMES[1..] == [FLUSH_NAMES[1], FLUSH_NAMES[2]];
    assert a.name[0] == 'C' && b.name[0] == 'S' && c.name[0] == 'M';
  }

  /** An unmeasured event is read as nothing before a measured one. */
  lemma AnswerBeforeMeasured(items: seq<Item>, t: nat)
    requires t + 1 < |items| && items[t + 1].Measured?
    ensures UnmeasuredAnswer(items, t) == ""
  {
  }

  /**
    After every buffer-flush run without its buffer in which no CPU test failed, whatever
    came before it and was logged after it, CLFLUSH's zero is lost: `nop_parse` returns nothing.
   */
  lemma FlushWithoutBufferReadsEmpty(schedule: seq<Step>, stamps: seq<string>)
    requires ReadyToRead(schedule, stamps) && !FailedCpuTest(schedule)
    requires Asked(schedule) == Job(FlushPlan(), false)
    ensures NopParse(Show(stamps, After(schedule).log), "CLFLUSH") == ""
  {
    RunsWhatWasAsked(schedule);
    LogIsReadable(schedule, stamps);
    FinishedRunIsComplete(schedule);
    ObserverTellsCpus(schedule);
    var h := AfterSys(schedule).h;
    var a, b, c := FlushPlanIs();
    LatestOfFlush(h.items, h.base, h.end, a, b, c);
    ReadUnmeasured(h.items, stamps, a.name);
    AnswerBeforeMeasured(h.items, h.base + 1);
  }

  /** The last event of a completed run whose last entry lacks its buffer. */
  lemma LastEventWithoutBuffer(items: seq<Item>, base: nat, end: nat, job: Job, oneCpu: bool)
    requires job.plan.entries != [] && job.plan.entries[|job.plan.entries| - 1].gate.Kmalloc? && !job.mem
    requires base <= end <= |items| && Matches(job.plan.entries, RunEvents(items, base, end), false, oneCpu)
    requires forall u :: end <= u < |items| ==> items[u].Other?
    ensures end > 0 && items[end - 1].Unmeasured?
    ensures Latest(items, job.plan.entries[|job.plan.entries| - 1].name) == end - 1
  {
    var run := RunEvents(items, base, end);
    assert items[end - 1] == run[|run| - 1];
    LatestIs(items, job.plan.entries[|job.plan.entries| - 1].name, end - 1);
  }

  /** What is read for such an event. */
  function LastZeroAnswer(items: seq<Item>, end: nat): string {
    if end >= |items| then "0" else if items[end].Other? then LastWord(items[end].rec) else ""
  }

  lemma ReadLastZero(items: seq<Item>, base: nat, end: nat, job: Job, oneCpu: bool, stamps: seq<string>)
    requires job.plan.entries != [] && job.plan.entries[|job.plan.entries| - 1].gate.Kmalloc? && !job.mem && GoodPlan(job.plan)
    requires base <= end <= |items| && Matches(job.plan.entries, RunEvents(items, base, end), false, oneCpu)
    requires forall u :: end <= u < |items| ==> items[u].Other?
    requires forall u :: 0 <= u < |items| && items[u].Other? ==> Foreign(items[u].rec)
    requires Readable(stamps, Flatten(items))
    ensures NopParse(Show(stamps, Flatten(items)), job.plan.entries[|job.plan.entries| - 1].name) == LastZeroAnswer(items, end)
  {
    LastEventWithoutBuffer(items, base, end, job, oneCpu);
    ReadUnmeasured(items, stamps, job.plan.entries[|job.plan.entries| - 1].name);
  }

  /**
    The zero of a run's last entry, such as MOVNTDQ's in a standard run without a buffer,
    is read as 0 only until the module logs its next message: then as that message's last word.
   */
  lemma LastZeroIsOvertaken(schedule: seq<Step>, stamps: seq<string>)
    requires ReadyToRead(schedule, stamps)
    requires var job := Asked(schedule);
             job.plan.entries != [] && job.plan.entries[|job.plan.entries| - 1].gate.Kmalloc? && !job.mem
    ensures var entries, h := Asked(schedule).plan.entries, AfterSys(schedule).h;
            && NopParse(Show(stamps, After(schedule).log), entries[|entries| - 1].name) == LastZeroAnswer(h.items, h.end)
            && forall u :: h.end <= u < |h.items| ==> h.items[u].Other?
  {
    RunsWhatWasAsked(schedule);
    LogIsReadable(schedule, stamps);
    FinishedRunIsComplete(schedule);
    var h := AfterSys(schedule).h;
    ReadLastZero(h.items, h.base, h.end, Asked(schedule), h.oneCpu, stamps);
  }

  /** Wall-clock results are logged between NOP runs and are read back from the same log. */
  lemma WallParseReturnsLatestRun(schedule: seq<Step>, stamps: seq<string>, x: string)
    requires ReadyToRead(schedule, stamps) && GoodName(x)
    ensures var log := After(schedule).log; var i := LastWall(log, x);
            WallParse(Show(stamps, log), x) == if i < 0 then "" else Decimal(log[i].nsec)
  {
    LogStaysGood(schedule);
    WallParseReturnsLatest(stamps, After(schedule).log, x);
  }
}
