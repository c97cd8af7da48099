/**
  The sequential meaning of NOP timing: a run works through its plan, one entry at a time,
  and each entry is one indivisible event that is measured, left unmeasured, or skipped.
 */
module SeqSpec {
  import opened Records
  import opened NopMachine

  /**
    A measurement placed on the NOP thread's own time line, which counts every increment
    ever executed: INSTR's reset request, the reset, the call loop from its start to its
    end, INSTR's print request, and the printing. `calls` is how many calls the loop made.
   */
  datatype Window = Window(
    requestedAt: nat, resetAt: nat, callsFrom: nat, callsTo: nat, raisedAt: nat, printedAt: nat, calls: nat)

  /** One event of the session. `Other` events do not belong to an entry of a plan. */
  datatype Item =
    | Measured(name: string, n: nat, w: Window)
    | Unmeasured(name: string)
    | Other(rec: Record)

  /** The window is in order and NOP was prompt: at most one increment late at either end. */
  predicate GoodWindow(w: Window) {
    && w.requestedAt <= w.resetAt <= w.requestedAt + 1
    && w.resetAt <= w.callsFrom <= w.callsTo <= w.raisedAt
    && w.raisedAt <= w.printedAt <= w.raisedAt + 1
  }

  /** The count is that of this window, from its own reset to its own print. */
  predicate CountsWindow(n: nat, w: Window) {
    GoodWindow(w) && n == (w.printedAt - w.resetAt) % U64
  }

  /** Between runs; a run asked for but not yet announced; a run whose banner is in the log. */
  datatype Stage = Closed | Begun | Announced

  /**
    `pos` entries of the job's plan are dealt with. The current or latest run has left
    items[base..end]: its banner, then the events of its entries; `last` is when a count was
    last printed; `online` is the answer of the latest CPU test, and some test of this run
    has failed iff `oneCpu`.
   */
  datatype Spec = Spec(
    stage: Stage, job: Job, pos: nat, items: seq<Item>, base: nat, end: nat, last: nat, online: bool, oneCpu: bool)

  function Entries(a: Spec): seq<Entry> { a.job.plan.entries }

  /** A new run begins, after the previous one has ended. */
  predicate Begins(a: Spec, b: Spec) {
    && a.stage.Closed?
    && b == a.(stage := Begun, job := b.job, pos := 0, base := |a.items|, end := |a.items|, online := true, oneCpu := false)
  }

  /** The run announces itself. */
  predicate Announces(a: Spec, b: Spec) {
    && a.stage.Begun?
    && b == a.(stage := Announced, items := a.items + [Other(Note(a.job.plan.banner))], end := |a.items| + 1)
  }

  /** The run has dealt with all its entries. */
  predicate Ends(a: Spec, b: Spec) {
    && a.stage.Announced? && a.pos == |Entries(a)|
    && b == a.(stage := Closed)
  }

  /** Between runs, the module logs something else. */
  predicate Logs(a: Spec, b: Spec) {
    && a.stage.Closed?
    && |b.items| == |a.items| + 1
    && b.items[|a.items|].Other? && Foreign(b.items[|a.items|].rec)
    && b == a.(items := a.items + [b.items[|a.items|]])
  }

  /** The CPUs are counted. */
  predicate CountsCpus(a: Spec, b: Spec) {
    && a.stage.Announced?
    && b == a.(online := b.online, oneCpu := a.oneCpu || !b.online)
  }

  /** The next entry's feature test fails. */
  predicate Skips(a: Spec, b: Spec) {
    && a.stage.Announced?
    && a.pos < |Entries(a)| && Skipped(Entries(a)[a.pos])
    && b == a.(pos := a.pos + 1)
  }

  /** The next entry is measured, in one step, with all its calls. */
  predicate Measures(a: Spec, b: Spec) {
    && a.stage.Announced?
    && a.pos < |Entries(a)| && Available(Entries(a)[a.pos], a.job.mem) && a.online
    && |b.items| == |a.items| + 1
    && var item := b.items[|a.items|];
       && item.Measured? && item.name == Entries(a)[a.pos].name
       && CountsWindow(item.n, item.w) && a.last <= item.w.requestedAt
       && item.w.calls == Entries(a)[a.pos].iterations
       && b == a.(pos := a.pos + 1, items := a.items + [item], end := |a.items| + 1, last := item.w.printedAt)
  }

  /** The next entry is logged as zero: no buffer for it, or not enough CPUs. */
  predicate Declines(a: Spec, b: Spec) {
    && a.stage.Announced?
    && a.pos < |Entries(a)| && !Skipped(Entries(a)[a.pos])
    && (Available(Entries(a)[a.pos], a.job.mem) ==> !a.online)
    && b == a.(pos := a.pos + 1, items := a.items + [Unmeasured(Entries(a)[a.pos].name)], end := |a.items| + 1)
  }

  predicate SpecNext(a: Spec, b: Spec) {
    || b == a || Begins(a, b) || Announces(a, b) || Ends(a, b) || Logs(a, b) || CountsCpus(a, b)
    || Skips(a, b) || Measures(a, b) || Declines(a, b)
  }

  /** The log of a sequence of events. */
  function Expand(item: Item): seq<Record> {
    match item
    case Measured(name, n, _) => [Label(name), Value(n)]
    case Unmeasured(name) => [Zero(name)]
    case Other(rec) => [rec]
  }

  function Flatten(items: seq<Item>): seq<Record> {
    if items == [] then [] else Flatten(items[..|items| - 1]) + Expand(items[|items| - 1])
  }

  lemma FlattenSnoc(items: seq<Item>, item: Item)
    ensures Flatten(items + [item]) == Flatten(items) + Expand(item)
  {
    assert (items + [item])[..|items|] == items;
  }

  lemma {:induction false} FlattenConcat(items: seq<Item>, more: seq<Item>)
    ensures Flatten(items + more) == Flatten(items) + Flatten(more)
  {
    if more == [] {
      assert items + more == items;
    } else {
      var init, last := more[..|more| - 1], more[|more| - 1];
      assert items + more == (items + init) + [last] && more == init + [last];
      FlattenConcat(items, init);
      FlattenSnoc(items + init, last);
    }
  }

  // ---- What every run of the specification keeps ----

  /**
    `events` are those of `entries`, in the plan's order: no event for a skipped entry,
    otherwise exactly one, which is a measurement of all its calls unless the entry lacks its
    buffer or a CPU test has failed. Nothing else is among them.
   */
  predicate Matches(entries: seq<Entry>, events: seq<Item>, mem: bool, oneCpu: bool)
    decreases |entries|
  {
    var e, t := |entries| - 1, |events| - 1;
    if e < 0 then t < 0
    else if Skipped(entries[e]) then Matches(entries[..e], events, mem, oneCpu)
    else
      && t >= 0 && !events[t].Other? && events[t].name == entries[e].name
      && (events[t].Measured? ==> Available(entries[e], mem) && events[t].w.calls == entries[e].iterations)
      && (events[t].Unmeasured? ==> oneCpu || !Available(entries[e], mem))
      && Matches(entries[..e], events[..t], mem, oneCpu)
  }

  lemma {:induction false} MatchesLosesCpu(entries: seq<Entry>, events: seq<Item>, mem: bool, oneCpu: bool)
    requires Matches(entries, events, mem, oneCpu)
    ensures Matches(entries, events, mem, true)
    decreases |entries|
  {
    var e, t := |entries| - 1, |events| - 1;
    if e < 0 {
    } else if Skipped(entries[e]) {
      MatchesLosesCpu(entries[..e], events, mem, oneCpu);
    } else {
      MatchesLosesCpu(entries[..e], events[..t], mem, oneCpu);
    }
  }

  /** The events of the current or latest run: what follows its banner. */
  function RunEvents(items: seq<Item>, base: nat, end: nat): seq<Item>
    requires end <= |items|
  {
    if base < end then items[base + 1..end] else []
  }

  /**
    The log around the latest run: its banner and its events stand together; whatever
    follows them was logged after the run, and nothing does while the run is in progress.
   */
  predicate Segment(a: Spec) {
    && a.base <= a.end <= |a.items|
    && (!a.stage.Closed? ==> a.end == |a.items|)
    && (a.stage.Begun? ==> a.base == a.end)
    && (a.stage.Announced? ==> a.base < a.end)
    && (a.base < a.end ==> a.items[a.base] == Other(Note(a.job.plan.banner)))
    && (forall u :: a.base < u < a.end ==> !a.items[u].Other?)
    && (forall u :: a.end <= u < |a.items| ==> a.items[u].Other?)
  }

  /** Each measurement has its own window, and successive windows do not overlap. */
  predicate Windows(items: seq<Item>, last: nat) {
    && (forall t :: 0 <= t < |items| && items[t].Measured? ==>
          CountsWindow(items[t].n, items[t].w) && items[t].w.printedAt <= last)
    && (forall t, u :: 0 <= t < u < |items| && items[t].Measured? && items[u].Measured? ==>
          items[t].w.printedAt <= items[u].w.requestedAt)
  }

  predicate Progressed(a: Spec) {
    && a.pos <= |Entries(a)|
    && (a.stage.Begun? ==> a.pos == 0)
    && (a.stage.Closed? ==> a.pos == |Entries(a)|)
    && (!a.online ==> a.oneCpu)
  }

  predicate SpecInv(a: Spec) {
    && Progressed(a) && Segment(a) && Windows(a.items, a.last)
    && Matches(Entries(a)[..a.pos], RunEvents(a.items, a.base, a.end), a.job.mem, a.oneCpu)
  }

  lemma SegmentKept(a: Spec, b: Spec)
    requires Progressed(a) && Segment(a) && SpecNext(a, b)
    ensures Progressed(b) && Segment(b)
  {
  }

  lemma WindowsKept(a: Spec, b: Spec)
    requires Windows(a.items, a.last) && SpecNext(a, b)
    ensures Windows(b.items, b.last)
  {
  }

  /** One more event, for one more entry, extends a matched run. */
  lemma MatchesAppend(a: Spec, b: Spec, item: Item)
    requires SpecInv(a) && a.stage.Announced? && b.job == a.job && b.base == a.base && b.oneCpu == a.oneCpu
    requires b.items == a.items + [item] && b.end == |b.items| && b.pos == a.pos + 1 <= |Entries(a)|
    requires !item.Other? && !Skipped(Entries(a)[a.pos]) && item.name == Entries(a)[a.pos].name
    requires item.Measured? ==> Available(Entries(a)[a.pos], a.job.mem) && item.w.calls == Entries(a)[a.pos].iterations
    requires item.Unmeasured? ==> a.oneCpu || !Available(Entries(a)[a.pos], a.job.mem)
    ensures Matches(Entries(b)[..b.pos], RunEvents(b.items, b.base, b.end), b.job.mem, b.oneCpu)
  {
    var run := RunEvents(a.items, a.base, a.end);
    assert RunEvents(b.items, b.base, b.end) == run + [item];
    assert (run + [item])[..|run|] == run;
    assert Entries(b)[..b.pos][..a.pos] == Entries(a)[..a.pos];
  }

  lemma MatchesKept(a: Spec, b: Spec)
    requires SpecInv(a) && SpecNext(a, b)
    ensures SegmentBounds(b) && Matches(Entries(b)[..b.pos], RunEvents(b.items, b.base, b.end), b.job.mem, b.oneCpu)
  {
    SegmentKept(a, b);
    if CountsCpus(a, b) {
      if b.oneCpu {
        MatchesLosesCpu(Entries(a)[..a.pos], RunEvents(a.items, a.base, a.end), a.job.mem, a.oneCpu);
      }
    } else if Skips(a, b) {
      assert Entries(b)[..b.pos][..a.pos] == Entries(a)[..a.pos];
    } else if Measures(a, b) || Declines(a, b) {
      MatchesAppend(a, b, b.items[|a.items|]);
    } else {
      assert RunEvents(b.items, b.base, b.end) == RunEvents(a.items, a.base, a.end) || b.pos == 0;
    }
  }

  predicate SegmentBounds(a: Spec) { a.pos <= |Entries(a)| && a.base <= a.end <= |a.items| }

  /** Every step of the specification keeps the plan's order, its guards, the run's place in the log, and disjoint exact windows. */
  lemma SpecKeeps(a: Spec, b: Spec)
    requires SpecInv(a) && SpecNext(a, b)
    ensures SpecInv(b)
  {
    SegmentKept(a, b);
    WindowsKept(a, b);
    MatchesKept(a, b);
  }

  /** In a matched run, every entry that was not skipped has its event, with its guards respected. */
  lemma {:induction false} MatchedEvent(entries: seq<Entry>, events: seq<Item>, mem: bool, oneCpu: bool, j: nat) returns (t: nat)
    requires Matches(entries, events, mem, oneCpu) && j < |entries| && !Skipped(entries[j])
    ensures t < |events| && !events[t].Other? && events[t].name == entries[j].name
    ensures Available(entries[j], mem) && !oneCpu ==> events[t].Measured?
    ensures events[t].Measured? ==> events[t].w.calls == entries[j].iterations
    ensures !Available(entries[j], mem) ==> events[t].Unmeasured?
    decreases |entries|
  {
    var e, u := |entries| - 1, |events| - 1;
    if Skipped(entries[e]) {
      t := MatchedEvent(entries[..e], events, mem, oneCpu, j);
    } else if j == e {
      t := u;
    } else {
      t := MatchedEvent(entries[..e], events[..u], mem, oneCpu, j);
    }
  }

  /** Conversely, every event of a matched run comes from an entry of the plan, and without a failed
      CPU test it is a measurement exactly when the entry's guards held. */
  lemma {:induction false} MatchedEntry(entries: seq<Entry>, events: seq<Item>, mem: bool, oneCpu: bool, t: nat) returns (j: nat)
    requires Matches(entries, events, mem, oneCpu) && t < |events|
    ensures j < |entries| && !Skipped(entries[j]) && !events[t].Other? && entries[j].name == events[t].name
    ensures !oneCpu ==> (events[t].Measured? <==> Available(entries[j], mem))
    ensures events[t].Measured? ==> events[t].w.calls == entries[j].iterations
    decreases |entries|
  {
    var e, u := |entries| - 1, |events| - 1;
    if Skipped(entries[e]) {
      j := MatchedEntry(entries[..e], events, mem, oneCpu, t);
    } else if t == u {
      j := e;
    } else {
      j := MatchedEntry(entries[..e], events[..u], mem, oneCpu, t);
    }
  }

  /**
    What a printed count means: unless the counter has wrapped, it is at least the
    increments made during the measured calls, and exceeds those made from the reset to
    the print request by at most one.
   */
  lemma CountBounds(n: nat, w: Window)
    requires CountsWindow(n, w)
    ensures n == w.printedAt - w.resetAt <==> w.printedAt - w.resetAt < U64
    ensures w.printedAt - w.resetAt < U64 ==> w.callsTo - w.callsFrom <= n <= w.raisedAt - w.resetAt + 1
  {
  }
}
