/** The wall-clock measurements: TIMING_LOOP and its variants, and reading their results back. */
module WallTimer {
  import opened Records
  import opened Dmesg

  const NANO := 1_000_000_000

  datatype Timespec = Timespec(sec: int, nsec: int)

  predicate Normal(t: Timespec) { 0 <= t.nsec < NANO }

  /** A time stamp as one number of nanoseconds. */
  function Nanos(t: Timespec): int { t.sec * NANO + t.nsec }

  /** timespec_sub: the fields are subtracted and a negative tv_nsec borrows a second. */
  function TimespecSub(end: Timespec, start: Timespec): Timespec {
    if end.nsec < start.nsec then Timespec(end.sec - start.sec - 1, end.nsec - start.nsec + NANO)
    else Timespec(end.sec - start.sec, end.nsec - start.nsec)
  }

  /** The two clock readings of one entry. */
  datatype Reading = Reading(start: Timespec, end: Timespec)

  predicate NormalReading(r: Reading) { Normal(r.start) && Normal(r.end) }

  function Elapsed(r: Reading): int { Nanos(r.end) - Nanos(r.start) }

  /** The nanosecond field of the difference is the elapsed time modulo one second. */
  lemma NsecIsElapsedModSecond(r: Reading)
    requires NormalReading(r)
    ensures TimespecSub(r.end, r.start).nsec == Elapsed(r) % NANO
    ensures Nanos(TimespecSub(r.end, r.start)) == Elapsed(r)
  {
    var d := TimespecSub(r.end, r.start);
    assert Elapsed(r) == d.sec * NANO + d.nsec && 0 <= d.nsec < NANO;
    ModOfSum(d.sec, d.nsec);
  }

  lemma ModOfSum(q: int, r: int)
    requires 0 <= r < NANO
    ensures (q * NANO + r) % NANO == r
  {
  }

  /** The record that one entry leaves: its elapsed time modulo one second, or zero without its buffer. */
  function Logged(e: Entry, mem: bool, r: Reading): seq<Record> {
    if Skipped(e) then []
    else if Available(e, mem) then [Wall(e.name, Elapsed(r) % NANO)]
    else [Wall(e.name, 0)]
  }

  /** What the CPU does: it reads the clock, or calls a measured instruction with interrupts on or off. */
  datatype Event = Reads(t: Timespec) | Call(name: string, irqOn: bool)

  function Repeat(n: nat, e: Event): (s: seq<Event>)
    ensures |s| == n && forall i :: 0 <= i < n ==> s[i] == e
  {
    seq(n, _ => e)
  }

  /** TIMING_LOOP with interrupts on or off. */
  function Loop(e: Entry, irqOn: bool, r: Reading): seq<Event> {
    [Reads(r.start)] + Repeat(e.iterations, Call(e.name, irqOn)) + [Reads(r.end)]
  }

  /** What one entry does. */
  function Trace(e: Entry, mem: bool, r: Reading): seq<Event> {
    if Available(e, mem) then Loop(e, !e.gate.Suspended?, r) else []
  }

  function LoggedAll(entries: seq<Entry>, mem: bool, readings: seq<Reading>): seq<Record>
    requires |entries| == |readings|
  {
    if entries == [] then []
    else
      var n := |entries| - 1;
      LoggedAll(entries[..n], mem, readings[..n]) + Logged(entries[n], mem, readings[n])
  }

  function TraceAll(entries: seq<Entry>, mem: bool, readings: seq<Reading>): seq<Event>
    requires |entries| == |readings|
  {
    if entries == [] then []
    else
      var n := |entries| - 1;
      TraceAll(entries[..n], mem, readings[..n]) + Trace(entries[n], mem, readings[n])
  }

  lemma OneMoreEntry(entries: seq<Entry>, mem: bool, readings: seq<Reading>, n: nat)
    requires n < |entries| == |readings|
    ensures LoggedAll(entries[..n + 1], mem, readings[..n + 1])
         == LoggedAll(entries[..n], mem, readings[..n]) + Logged(entries[n], mem, readings[n])
    ensures TraceAll(entries[..n + 1], mem, readings[..n + 1])
         == TraceAll(entries[..n], mem, readings[..n]) + Trace(entries[n], mem, readings[n])
  {
    assert entries[..n + 1][..n] == entries[..n] && readings[..n + 1][..n] == readings[..n];
  }

  lemma Regrouped<T>(a: seq<T>, b: seq<T>, c: seq<T>)
    ensures a + b + c == a + (b + c)
  {
  }

  /** Bit 5 of ecx after CPUID leaf 1, and the message about it. */
  predicate SupportsVmx(ecx: int) { ecx / 32 % 2 == 1 }

  function Support(ecx: int): Record {
    Note(if SupportsVmx(ecx) then "VMX supported CPU" else "VMX not supported by CPU")
  }

  /** Whatever the other bits are, and whatever the sign. */
  lemma SupportIsBitFive(high: int, low: nat)
    requires low < 32
    ensures SupportsVmx(64 * high + 32 + low) && !SupportsVmx(64 * high + low)
  {
    assert (64 * high + 32 + low) / 32 == 2 * high + 1;
    assert (64 * high + low) / 32 == 2 * high;
  }

  const WALL_BANNER := Note("Aggregating wall clock timing")
  const FLUSH_BANNER := Note("Aggregating buffer flush wall clock timing")

  /** `wall_timing_start` and `buffer_flush_start`: the first also reports the CPU's support for VMX. */
  class Timer {
    var tsStart: Timespec
    var tsEnd: Timespec
    var testOfTime: Timespec
    var irqOn: bool
    var flags: bool
    var log: seq<Record>
    ghost var trace: seq<Event>    // what the CPU has done so far

    constructor (log: seq<Record>)
      ensures irqOn && this.log == log && trace == []
    {
      tsStart, tsEnd, testOfTime := Timespec(0, 0), Timespec(0, 0), Timespec(0, 0);
      irqOn, flags, this.log, trace := true, true, log, [];
    }

    /** TIMING_LOOP. The clock's answers are `reading`. */
    method TimingLoop(e: Entry, reading: Reading)
      requires NormalReading(reading)
      modifies this`tsStart, this`tsEnd, this`testOfTime, this`log, this`trace
      ensures log == old(log) + [Wall(e.name, Elapsed(reading) % NANO)]
      ensures trace == old(trace) + Loop(e, irqOn, reading)
    {
      tsStart := ReadClock(reading.start);
      for i := 0 to e.iterations
        invariant trace == old(trace) + ([Reads(reading.start)] + Repeat(i, Call(e.name, irqOn)))
        invariant tsStart == reading.start && log == old(log)
      {
        trace := trace + [Call(e.name, irqOn)];
        assert Repeat(i + 1, Call(e.name, irqOn)) == Repeat(i, Call(e.name, irqOn)) + [Call(e.name, irqOn)];
      }
      tsEnd := ReadClock(reading.end);
      testOfTime := TimespecSub(tsEnd, tsStart);
      NsecIsElapsedModSecond(reading);
      log := log + [Wall(e.name, testOfTime.nsec)];
    }

    /** getnstimeofday, when the clock shows `now`. */
    method ReadClock(now: Timespec) returns (t: Timespec)
      modifies this`trace
      ensures t == now && trace == old(trace) + [Reads(now)]
    {
      t := now;
      trace := trace + [Reads(now)];
    }

    /** One macro use: TIMING_LOOP under its guard. */
    method Measure(e: Entry, mem: bool, reading: Reading)
      requires irqOn && NormalReading(reading)
      modifies this
      ensures irqOn
      ensures log == old(log) + Logged(e, mem, reading)
      ensures trace == old(trace) + Trace(e, mem, reading)
    {
      match e.gate
      case Plain => TimingLoop(e, reading);
      case Suspended =>
        flags := irqOn;
        irqOn := false;
        irqOn := false;
        TimingLoop(e, reading);
        irqOn := flags;
        irqOn := true;
      case Feature(present) =>
        if present {
          TimingLoop(e, reading);
        }
      case Kmalloc =>
        if mem {
          TimingLoop(e, reading);
        } else {
          log := log + [Wall(e.name, 0)];
        }
    }

    /** The macros of a run, in order. */
    method MeasureAll(entries: seq<Entry>, mem: bool, readings: seq<Reading>)
      requires irqOn && |readings| == |entries| && forall i :: 0 <= i < |readings| ==> NormalReading(readings[i])
      modifies this
      ensures irqOn
      ensures log == old(log) + LoggedAll(entries, mem, readings)
      ensures trace == old(trace) + TraceAll(entries, mem, readings)
    {
      for n := 0 to |entries|
        invariant irqOn
        invariant log == old(log) + LoggedAll(entries[..n], mem, readings[..n])
        invariant trace == old(trace) + TraceAll(entries[..n], mem, readings[..n])
      {
        Measure(entries[n], mem, readings[n]);
        OneMoreEntry(entries, mem, readings, n);
        Regrouped(old(log), LoggedAll(entries[..n], mem, readings[..n]), Logged(entries[n], mem, readings[n]));
        Regrouped(old(trace), TraceAll(entries[..n], mem, readings[..n]), Trace(entries[n], mem, readings[n]));
      }
      assert entries[..|entries|] == entries && readings[..|entries|] == readings;
    }

    /** cpuid_test_support_f. What CPUID leaves in ecx is `ecx`. */
    method CpuidTestSupport(ecx: int)
      modifies this`log
      ensures log == old(log) + [Support(ecx)]
    {
      if ecx / 32 % 2 == 1 {
        log := log + [Note("VMX supported CPU")];
      } else {
        log := log + [Note("VMX not supported by CPU")];
      }
    }

    /**
      A standard run, started with interrupts on: the CPU's support, the banner, and every
      entry's record in order; each call with interrupts on exactly if its entry is not
      suspended; interrupts on at the end.
     */
    method WallTimingStart(entries: seq<Entry>, mem: bool, readings: seq<Reading>, ecx: int)
      requires irqOn && |readings| == |entries| && forall i :: 0 <= i < |readings| ==> NormalReading(readings[i])
      modifies this
      ensures irqOn
      ensures log == old(log) + [Support(ecx), WALL_BANNER] + LoggedAll(entries, mem, readings)
      ensures trace == old(trace) + TraceAll(entries, mem, readings)
    {
      CpuidTestSupport(ecx);
      log := log + [WALL_BANNER];
      assert log == old(log) + [Support(ecx), WALL_BANNER];
      MeasureAll(entries, mem, readings);
    }

    /** A buffer-flush run: the same without the CPU's support. */
    method BufferFlushStart(entries: seq<Entry>, mem: bool, readings: seq<Reading>)
      requires irqOn && |readings| == |entries| && forall i :: 0 <= i < |readings| ==> NormalReading(readings[i])
      modifies this
      ensures irqOn
      ensures log == old(log) + [FLUSH_BANNER] + LoggedAll(entries, mem, readings)
      ensures trace == old(trace) + TraceAll(entries, mem, readings)
    {
      log := log + [FLUSH_BANNER];
      MeasureAll(entries, mem, readings);
    }
  }

  lemma {:induction false} TracePrefix(entries: seq<Entry>, mem: bool, readings: seq<Reading>, j: nat)
    requires j <= |entries| == |readings|
    ensures TraceAll(entries[..j], mem, readings[..j]) <= TraceAll(entries, mem, readings)
  {
    if j == |entries| {
      assert entries[..j] == entries && readings[..j] == readings;
    } else {
      var n := |entries| - 1;
      assert entries[..n][..j] == entries[..j] && readings[..n][..j] == readings[..j];
      TracePrefix(entries[..n], mem, readings[..n], j);
    }
  }

  /** From place `from` on, the trace holds one whole measurement of the entry. */
  predicate TimedAt(trace: seq<Event>, from: nat, e: Entry, r: Reading) {
    && from + e.iterations + 1 < |trace|
    && trace[from] == Reads(r.start) && trace[from + e.iterations + 1] == Reads(r.end)
    && forall c :: from < c <= from + e.iterations ==> trace[c] == Call(e.name, !e.gate.Suspended?)
  }

  /** Where entry `j` begins in the run's trace. */
  function Begin(entries: seq<Entry>, mem: bool, readings: seq<Reading>, j: nat): nat
    requires j <= |entries| == |readings|
  {
    |TraceAll(entries[..j], mem, readings[..j])|
  }

  lemma LoopIsTimed(front: seq<Event>, e: Entry, r: Reading)
    ensures TimedAt(front + Loop(e, !e.gate.Suspended?, r), |front|, e, r)
  {
    var loop := Loop(e, !e.gate.Suspended?, r);
    assert forall c :: 0 < c <= e.iterations ==> loop[c] == Call(e.name, !e.gate.Suspended?);
    assert forall c :: |front| <= c < |front| + |loop| ==> (front + loop)[c] == loop[c - |front|];
  }

  lemma TimedStays(part: seq<Event>, whole: seq<Event>, from: nat, e: Entry, r: Reading)
    requires part <= whole && TimedAt(part, from, e, r)
    ensures TimedAt(whole, from, e, r)
  {
    assert forall c :: 0 <= c < |part| ==> whole[c] == part[c];
  }

  /**
    A run's trace consists of its entries' measurements, back to back in plan order: each
    available entry reads the clock, makes exactly its calls, with interrupts off exactly
    if it is suspended, and reads the clock again; any other entry does nothing.
   */
  lemma EachEntryIsTimed(entries: seq<Entry>, mem: bool, readings: seq<Reading>, j: nat)
    requires j < |entries| == |readings|
    ensures Begin(entries, mem, readings, 0) == 0
    ensures Begin(entries, mem, readings, |entries|) == |TraceAll(entries, mem, readings)|
    ensures Available(entries[j], mem) ==>
              && TimedAt(TraceAll(entries, mem, readings), Begin(entries, mem, readings, j), entries[j], readings[j])
              && Begin(entries, mem, readings, j + 1) == Begin(entries, mem, readings, j) + entries[j].iterations + 2
    ensures !Available(entries[j], mem) ==> Begin(entries, mem, readings, j + 1) == Begin(entries, mem, readings, j)
  {
    assert entries[..|entries|] == entries && readings[..|entries|] == readings;
    OneMoreEntry(entries, mem, readings, j);
    TracePrefix(entries, mem, readings, j + 1);
    if Available(entries[j], mem) {
      var front := TraceAll(entries[..j], mem, readings[..j]);
      LoopIsTimed(front, entries[j], readings[j]);
      TimedStays(front + Loop(entries[j], !entries[j].gate.Suspended?, readings[j]), TraceAll(entries, mem, readings),
                 |front|, entries[j], readings[j]);
    }
  }

  /** In any run, each call is that of an entry, with interrupts as the entry's macro asks. */
  lemma {:induction false} EveryCallIsBracketed(entries: seq<Entry>, mem: bool, readings: seq<Reading>, c: nat) returns (j: nat)
    requires |entries| == |readings| && c < |TraceAll(entries, mem, readings)| && TraceAll(entries, mem, readings)[c].Call?
    ensures j < |entries| && Available(entries[j], mem)
    ensures TraceAll(entries, mem, readings)[c] == Call(entries[j].name, !entries[j].gate.Suspended?)
  {
    var n := |entries| - 1;
    if c < |TraceAll(entries[..n], mem, readings[..n])| {
      j := EveryCallIsBracketed(entries[..n], mem, readings[..n], c);
    } else {
      j := n;
    }
  }

  /** The reported value is the elapsed time exactly when less than a second has passed. */
  lemma ReportExactIffUnderASecond(r: Reading)
    requires NormalReading(r) && Nanos(r.start) <= Nanos(r.end)
    ensures TimespecSub(r.end, r.start).nsec == Elapsed(r) <==> Elapsed(r) < NANO
  {
    NsecIsElapsedModSecond(r);
  }

  /** The last entry of name `x` that logs anything, or -1. */
  function LastEntry(entries: seq<Entry>, x: string): (j: int)
    ensures -1 <= j < |entries|
    ensures j >= 0 ==> entries[j].name == x && !Skipped(entries[j])
    ensures forall i :: j < i < |entries| ==> entries[i].name != x || Skipped(entries[i])
  {
    if entries == [] then -1
    else if entries[|entries| - 1].name == x && !Skipped(entries[|entries| - 1]) then |entries| - 1
    else LastEntry(entries[..|entries| - 1], x)
  }

  lemma LastWallSnoc(log: seq<Record>, r: Record, x: string)
    ensures LastWall(log + [r], x) == if r.Wall? && r.name == x then |log| else LastWall(log, x)
  {
    assert (log + [r])[..|log|] == log;
  }

  /** One more entry, after a log in which the latest record of `x` is known. */
  lemma LastWallOfEntry(earlier: seq<Record>, e: Entry, mem: bool, r: Reading, x: string)
    ensures var log := earlier + Logged(e, mem, r);
            if Skipped(e) then log == earlier
            else if e.name == x then LastWall(log, x) == |earlier| && Logged(e, mem, r) == [log[|earlier|]]
            else LastWall(log, x) == LastWall(earlier, x)
  {
    if Skipped(e) {
      assert earlier + [] == earlier;
    } else {
      var rec := Logged(e, mem, r)[0];
      assert Logged(e, mem, r) == [rec] && rec.Wall? && rec.name == e.name;
      LastWallSnoc(earlier, rec, x);
    }
  }

  lemma {:induction false} LatestInRun(before: seq<Record>, entries: seq<Entry>, mem: bool, readings: seq<Reading>, x: string)
    requires |entries| == |readings|
    ensures var log := before + LoggedAll(entries, mem, readings);
            var j := LastEntry(entries, x); var i := LastWall(log, x);
            && (j < 0 ==> i == LastWall(before, x))
            && (j >= 0 ==> i >= 0 && [log[i]] == Logged(entries[j], mem, readings[j]))
  {
    if entries == [] {
      assert before + LoggedAll(entries, mem, readings) == before;
    } else {
      var n := |entries| - 1;
      LatestInRun(before, entries[..n], mem, readings[..n], x);
      var earlier := before + LoggedAll(entries[..n], mem, readings[..n]);
      assert before + LoggedAll(entries, mem, readings) == earlier + Logged(entries[n], mem, readings[n]);
      LastWallOfEntry(earlier, entries[n], mem, readings[n], x);
    }
  }

  /**
    Round trip: right after a wall-clock run, `wall_parse` returns, for every name that the
    run logged, the digits of its elapsed time modulo one second, or "0" if it had no buffer.
   */
  lemma WallRunIsReadBack(stamps: seq<string>, before: seq<Record>, entries: seq<Entry>, mem: bool, readings: seq<Reading>, x: string)
    requires |entries| == |readings| && Readable(stamps, before + LoggedAll(entries, mem, readings)) && GoodName(x)
    requires LastEntry(entries, x) >= 0
    ensures var j := LastEntry(entries, x);
            WallParse(Show(stamps, before + LoggedAll(entries, mem, readings)), x) ==
            if Available(entries[j], mem) then Decimal(Elapsed(readings[j]) % NANO) else "0"
  {
    LatestInRun(before, entries, mem, readings, x);
    WallParseReturnsLatest(stamps, before + LoggedAll(entries, mem, readings), x);
  }
}
