/** Every interleaving of the NOP timer's threads behaves as the sequential specification. */
module Refinement {
  import opened Records
  import opened NopMachine
  import opened Handshake
  import opened SeqSpec

  /**
    An observer of the machine. It follows the steps and is never read by them: `incs`
    counts the increments executed so far, `w` is the window being filled in (its
    printedAt is that of the latest printed count), `items` the events so far; the current
    or latest run has left items[base..end].
   */
  datatype Hist = Hist(incs: nat, w: Window, items: seq<Item>, base: nat, end: nat, online: bool, oneCpu: bool)

  datatype Sys = Sys(m: Machine, h: Hist)

  function ObserveNop(h: Hist, m: Machine): Hist {
    match m.npc
    case ClearCount => h.(w := h.w.(resetAt := h.incs))
    case EmitCount =>
      var w := h.w.(printedAt := h.incs);
      h.(w := w, items := h.items + [Measured(Current(m).name, m.g.count, w)], end := |h.items| + 1)
    case Increment => h.(incs := h.incs + 1)
    case _ => h
  }

  function ObserveBody(h: Hist, m: Machine, p: BodyPc, online: bool): Hist {
    match p
    case CpuTest => h.(online := online, oneCpu := h.oneCpu || !online)
    case RaiseReset => h.(w := h.w.(requestedAt := h.incs))
    case SpinReset => if m.g.resetCount then h else h.(w := h.w.(callsFrom := h.incs, calls := 0))
    case Call => h.(w := h.w.(calls := h.w.calls + 1))
    case LoopTest => if m.t.i < Current(m).iterations then h else h.(w := h.w.(callsTo := h.incs))
    case RaisePrint => h.(w := h.w.(raisedAt := h.incs))
    case PrintZero => h.(items := h.items + [Unmeasured(Current(m).name)], end := |h.items| + 1)
    case _ => h
  }

  function ObserveInstr(h: Hist, m: Machine, online: bool): Hist {
    match m.t.pc
    case Banner => h.(items := h.items + [Other(Note(m.job.plan.banner))], end := |h.items| + 1)
    case Body(p) => ObserveBody(h, m, p, online)
    case _ => h
  }

  function ObserveCtrl(h: Hist, m: Machine, request: Request): Hist {
    match m.cpc
    case Idle =>
      (match request
       case Start(_, _) => h.(base := |h.items|, end := |h.items|, online := true, oneCpu := false)
       case Aside(rec) => if Foreign(rec) then h.(items := h.items + [Other(rec)]) else h)
    case Setup(s) => if s.InitCount? then h.(w := h.w.(resetAt := h.incs)) else h
    case _ => h
  }

  function Observe(h: Hist, m: Machine, s: Step): Hist {
    match s
    case Nop(_) => ObserveNop(h, m)
    case Instr(online) => ObserveInstr(h, m, online)
    case Ctrl(request, _) => ObserveCtrl(h, m, request)
  }

  function NextSys(s: Sys, step: Step): Sys {
    Sys(Next(s.m, step), Observe(s.h, s.m, step))
  }

  function InitialSys(): Sys {
    Sys(Initial(), Hist(0, Window(0, 0, 0, 0, 0, 0, 0), [Other(INSERTED)], 1, 1, true, false))
  }

  function AfterSys(schedule: seq<Step>): Sys {
    if schedule == [] then InitialSys()
    else NextSys(AfterSys(schedule[..|schedule| - 1]), schedule[|schedule| - 1])
  }

  /** INSTR's label is in the log and its value is not. */
  predicate AwaitingValue(m: Machine) {
    m.t.pc == Body(RaisePrint) || (AtPrintSpin(m) && m.g.printCount && !m.npc.ClearPrint?)
  }

  function Pending(m: Machine): seq<Record> {
    if AwaitingValue(m) then [Label(Current(m).name)] else []
  }

  /** How many entries of the plan have had their effect. */
  function Pos(m: Machine): nat {
    if (AtPrintSpin(m) && !AwaitingValue(m)) || m.t.pc == Bracket(Restore) || m.t.pc == Bracket(Enable)
    then m.t.k + 1 else m.t.k
  }

  /** Whether a run has been asked for, and whether INSTR has announced it. */
  function StageOf(m: Machine): Stage {
    if m.cpc.Idle? then Closed
    else if m.cpc.Setup? || m.cpc.WakeNop? || m.cpc.WakeInstr? || m.t.pc.InstrOff? || m.t.pc.Banner? then Begun
    else Announced
  }

  /** The refinement mapping. */
  function Abs(s: Sys): Spec {
    Spec(StageOf(s.m), s.m.job, Pos(s.m), s.h.items, s.h.base, s.h.end, s.h.w.printedAt, s.h.online, s.h.oneCpu)
  }

  /** The reset that INSTR asked for has taken effect. */
  predicate ResetServed(m: Machine) { AtResetSpin(m) && (!m.g.resetCount || m.npc.ClearReset?) }

  predicate ResetPending(m: Machine) { AtResetSpin(m) && m.g.resetCount && !m.npc.ClearReset? }

  /** The counter is the number of increments since the latest reset, modulo its width. */
  predicate ClockInv(s: Sys) {
    var w, now := s.h.w, s.h.incs;
    w.resetAt <= now && w.printedAt <= now && s.m.g.count == (now - w.resetAt) % U64
  }

  /** INSTR has asked for a reset that belongs to the entry it is measuring, and NOP has done it. */
  predicate HasOwnReset(m: Machine) {
    || ResetServed(m) || m.t.pc == Body(LoopTest) || m.t.pc == Body(Call) || m.t.pc == Body(PrintLabel)
    || m.t.pc == Body(RaisePrint) || (AtPrintSpin(m) && AwaitingValue(m))
  }

  /** The window's opening end. */
  predicate ResetInv(s: Sys) {
    var m, w, now := s.m, s.h.w, s.h.incs;
    && (ResetPending(m) ==>
          && w.printedAt <= w.requestedAt <= now <= w.requestedAt + 1
          && (m.npc.PrintTest? || m.npc.Increment? ==> now == w.requestedAt))
    && (HasOwnReset(m) ==> w.printedAt <= w.requestedAt <= w.resetAt <= w.requestedAt + 1)
  }

  /** The window's calls and its closing end. */
  predicate PrintInv(s: Sys) {
    var m, w, now := s.m, s.h.w, s.h.incs;
    var pc := m.t.pc;
    && (pc == Body(LoopTest) || pc == Body(Call) ==> w.resetAt <= w.callsFrom <= now)
    && (pc == Body(PrintLabel) || pc == Body(RaisePrint) ==> w.resetAt <= w.callsFrom <= w.callsTo <= now)
    && (AtPrintSpin(m) && AwaitingValue(m) ==>
          && w.resetAt <= w.callsFrom <= w.callsTo <= w.raisedAt <= now <= w.raisedAt + 1
          && (m.npc.Increment? ==> now == w.raisedAt))
  }

  /** The window under construction is right as far as it goes. */
  predicate WindowInv(s: Sys) {
    ClockInv(s) && ResetInv(s) && PrintInv(s)
  }

  /** The call loop has made as many calls as its counter says, and all of them once it is left. */
  predicate CallsInv(s: Sys) {
    var m := s.m;
    && (m.t.pc == Body(LoopTest) || m.t.pc == Body(Call) ==> s.h.w.calls == m.t.i)
    && (m.t.pc == Body(PrintLabel) || m.t.pc == Body(RaisePrint) || AtPrintSpin(m) ==>
          s.h.w.calls == Current(m).iterations)
  }

  predicate LogInv(s: Sys) {
    s.m.log == Flatten(s.h.items) + Pending(s.m)
  }

  /** INSTR measures an entry only after its CPU test, and gives up an available one only against it. */
  predicate CpuInv(s: Sys) {
    s.m.t.pc.Body? && !s.m.t.pc.p.CpuTest? ==>
      if s.m.t.pc.p.PrintZero? then Available(Current(s.m), s.m.job.mem) ==> !s.h.online else s.h.online
  }

  predicate SysInv(s: Sys) {
    Inv(s.m) && WindowInv(s) && LogInv(s) && CpuInv(s) && CallsInv(s)
  }

  // ---- The window ----

  /** Only two steps of the NOP thread concern the clock. */
  lemma ClockStill(s: Sys, kill: bool)
    requires !s.m.npc.Increment? && !s.m.npc.ClearCount?
    ensures var n := NextSys(s, Nop(kill));
            n.m.g.count == s.m.g.count && n.h.incs == s.h.incs && n.h.w.resetAt == s.h.w.resetAt
            && (n.h.w.printedAt == s.h.w.printedAt || n.h.w.printedAt == s.h.incs)
  {
  }

  lemma ClockNop(s: Sys, kill: bool)
    requires ClockInv(s)
    ensures ClockInv(NextSys(s, Nop(kill)))
  {
    if s.m.npc.Increment? {
      CountStep(s.m.g.count, s.h.incs - s.h.w.resetAt);
    } else if !s.m.npc.ClearCount? {
      ClockStill(s, kill);
    }
  }

  lemma CountStep(count: nat, ticks: nat)
    requires count == ticks % U64
    ensures (count + 1) % U64 == (ticks + 1) % U64
  {
  }

  lemma ResetNop(s: Sys, kill: bool)
    requires Flags(s.m) && ClockInv(s) && ResetInv(s)
    ensures ResetInv(NextSys(s, Nop(kill)))
  {
  }

  lemma PrintNop(s: Sys, kill: bool)
    requires Flags(s.m) && PrintInv(s)
    ensures PrintInv(NextSys(s, Nop(kill)))
  {
  }

  lemma ClockBodyEarly(s: Sys, online: bool)
    requires ClockInv(s) && s.m.t.pc.Body? && BeforeLabel(s.m.t.pc.p)
    ensures ClockInv(NextSys(s, Instr(online)))
  {
  }

  lemma ClockBodyLate(s: Sys, online: bool)
    requires ClockInv(s) && s.m.t.pc.Body? && !BeforeLabel(s.m.t.pc.p)
    ensures ClockInv(NextSys(s, Instr(online)))
  {
  }

  lemma ResetBodyEarly(s: Sys, online: bool)
    requires Flags(s.m) && ClockInv(s) && ResetInv(s) && s.m.t.pc.Body? && BeforeLabel(s.m.t.pc.p)
    requires AtResetSpin(s.m) ==> !s.m.g.instrStop
    ensures ResetInv(NextSys(s, Instr(online)))
  {
  }

  lemma ResetBodyReport(s: Sys, online: bool)
    requires Flags(s.m) && ResetInv(s) && s.m.t.pc.Body? && !BeforeLabel(s.m.t.pc.p) && !AtPrintSpin(s.m)
    ensures ResetInv(NextSys(s, Instr(online)))
  {
  }

  lemma ResetBodySpin(s: Sys, online: bool)
    requires Flags(s.m) && ResetInv(s) && AtPrintSpin(s.m) && !s.m.g.instrStop
    ensures ResetInv(NextSys(s, Instr(online)))
  {
  }

  lemma PrintBodyEarly(s: Sys, online: bool)
    requires Flags(s.m) && WindowInv(s) && s.m.t.pc.Body? && BeforeLabel(s.m.t.pc.p)
    requires AtResetSpin(s.m) ==> !s.m.g.instrStop
    ensures PrintInv(NextSys(s, Instr(online)))
  {
  }

  lemma PrintBodyLate(s: Sys, online: bool)
    requires Flags(s.m) && ClockInv(s) && PrintInv(s) && s.m.t.pc.Body? && !BeforeLabel(s.m.t.pc.p)
    requires AtPrintSpin(s.m) ==> !s.m.g.instrStop
    ensures PrintInv(NextSys(s, Instr(online)))
  {
  }

  lemma WindowOutsideBody(s: Sys, online: bool)
    requires Flags(s.m) && WindowInv(s) && !s.m.t.pc.Body?
    ensures WindowInv(NextSys(s, Instr(online)))
  {
  }

  lemma WindowInstr(s: Sys, online: bool)
    requires Inv(s.m) && WindowInv(s)
    ensures WindowInv(NextSys(s, Instr(online)))
  {
    if !s.m.t.pc.Body? {
      WindowOutsideBody(s, online);
    } else {
      if BeforeLabel(s.m.t.pc.p) {
        ClockBodyEarly(s, online);
        ResetBodyEarly(s, online);
        PrintBodyEarly(s, online);
      } else {
        ClockBodyLate(s, online);
        if AtPrintSpin(s.m) {
          ResetBodySpin(s, online);
        } else {
          ResetBodyReport(s, online);
        }
        PrintBodyLate(s, online);
      }
    }
  }

  lemma WindowSetup(s: Sys, request: Request, created: bool)
    requires Flags(s.m) && WindowInv(s) && s.m.cpc.Setup? && NoThreadLive(s.m)
    ensures WindowInv(NextSys(s, Ctrl(request, created)))
  {
  }

  lemma WindowWaking(s: Sys, request: Request, created: bool)
    requires Flags(s.m) && Phase(s.m) && WindowInv(s) && (s.m.cpc.WakeNop? || s.m.cpc.WakeInstr?)
    ensures WindowInv(NextSys(s, Ctrl(request, created)))
  {
  }

  lemma WindowCtrl(s: Sys, request: Request, created: bool)
    requires Inv(s.m) && WindowInv(s)
    ensures WindowInv(NextSys(s, Ctrl(request, created)))
  {
    if s.m.cpc.Setup? {
      WindowSetup(s, request, created);
    } else if s.m.cpc.WakeNop? || s.m.cpc.WakeInstr? {
      WindowWaking(s, request, created);
    }
  }

  // ---- The log and the specification's steps ----

  /** A NOP step other than the printing of a count is invisible to the specification. */
  lemma QuietNop(s: Sys, kill: bool)
    requires Flags(s.m) && !s.m.npc.EmitCount?
    ensures var n := NextSys(s, Nop(kill));
            n.m.log == s.m.log && Abs(n) == Abs(s) && Pending(n.m) == Pending(s.m)
  {
  }

  lemma EmitEffect(s: Sys, kill: bool)
    requires Flags(s.m) && s.m.npc.EmitCount?
    ensures var n := NextSys(s, Nop(kill));
            var w := s.h.w.(printedAt := s.h.incs);
            var item := Measured(Current(s.m).name, s.m.g.count, w);
            && Pos(s.m) == s.m.t.k && Pending(s.m) == [Label(item.name)] && Pending(n.m) == []
            && n.m.log == s.m.log + [Value(item.n)] && n.h.items == s.h.items + [item]
            && Abs(n) == Abs(s).(pos := Pos(s.m) + 1, items := s.h.items + [item], end := |s.h.items| + 1, last := w.printedAt)
  {
  }

  /** While INSTR is in a macro, the run has been announced. */
  lemma BodyIsAnnounced(m: Machine)
    requires Phase(m) && (m.t.pc.Body? || m.t.pc.Bracket? || m.t.pc.EntryHead?)
    ensures m.cpc.WaitFinish? || m.cpc.StopNop? || m.cpc.JoinNop? || m.cpc.StopInstr? || m.cpc.JoinInstr?
    ensures StageOf(m).Announced?
  {
  }

  /** The printing of a count is the measurement of the current entry. */
  lemma EmitMeasures(s: Sys, kill: bool)
    requires SysInv(s) && s.m.npc.EmitCount?
    ensures var n := NextSys(s, Nop(kill)); LogInv(n) && Measures(Abs(s), Abs(n))
  {
    var n := NextSys(s, Nop(kill));
    var w := s.h.w.(printedAt := s.h.incs);
    var item := Measured(Current(s.m).name, s.m.g.count, w);
    FlattenSnoc(s.h.items, item);
    EmitEffect(s, kill);
    BodyIsAnnounced(s.m);
    assert CountsWindow(item.n, item.w);
  }

  lemma RefinesNop(s: Sys, kill: bool)
    requires SysInv(s)
    ensures var n := NextSys(s, Nop(kill)); LogInv(n) && SpecNext(Abs(s), Abs(n))
  {
    if s.m.npc.EmitCount? {
      EmitMeasures(s, kill);
    } else {
      QuietNop(s, kill);
    }
  }

  /** Leaving a macro is invisible: its entry has had its effect before. */
  lemma QuietLeave(m: Machine)
    requires AtPrintSpin(m) && !AwaitingValue(m) && !m.g.printCount
    ensures Pos(Leave(m)) == Pos(m) && !AwaitingValue(Leave(m)) && Leave(m).log == m.log
    ensures StageOf(Leave(m)) == StageOf(m)
  {
  }

  lemma QuietBody(s: Sys, online: bool)
    requires Inv(s.m) && s.m.t.pc.Body?
    requires var p := s.m.t.pc.p; !p.CpuTest? && !p.PrintZero? && !p.PrintLabel?
    ensures var n := NextSys(s, Instr(online));
            n.m.log == s.m.log && Abs(n) == Abs(s) && Pending(n.m) == Pending(s.m)
  {
    if s.m.t.pc.p.SpinPrint? && !s.m.g.printCount {
      QuietLeave(s.m);
    }
  }

  lemma LabelAwaitsValue(s: Sys, online: bool)
    requires s.m.t.pc == Body(PrintLabel)
    ensures var n := NextSys(s, Instr(online));
            n.m.log == s.m.log + Pending(n.m) && Abs(n) == Abs(s) && Pending(s.m) == []
  {
  }

  lemma CpuTestOnly(s: Sys, online: bool)
    requires s.m.t.pc == Body(CpuTest)
    ensures var n := NextSys(s, Instr(online));
            && n.m.log == s.m.log && Pending(n.m) == Pending(s.m)
            && Abs(n) == Abs(s).(online := online, oneCpu := s.h.oneCpu || !online)
  {
  }

  lemma LeaveAfterZero(m: Machine)
    requires m.t.pc == Body(PrintZero)
    ensures Pos(Leave(m)) == m.t.k + 1 && Pending(Leave(m)) == [] && Leave(m).job == m.job && Leave(m).log == m.log
    ensures StageOf(Leave(m)) == StageOf(m)
  {
  }

  lemma ZeroEffect(s: Sys, online: bool)
    requires s.m.t.pc == Body(PrintZero)
    ensures var n := NextSys(s, Instr(online));
            var zero := Unmeasured(Current(s.m).name);
            && n.m == Leave(s.m.(log := s.m.log + [Zero(zero.name)]))
            && Abs(n) == Abs(s).(pos := s.m.t.k + 1, items := s.h.items + [zero], end := |s.h.items| + 1)
            && Pos(s.m) == s.m.t.k && Pending(s.m) == [] && n.h.items == s.h.items + [zero]
  {
    LeaveAfterZero(s.m.(log := s.m.log + [Zero(Current(s.m).name)]));
  }

  lemma ZeroLogs(s: Sys, online: bool)
    requires LogInv(s) && s.m.t.pc == Body(PrintZero)
    ensures LogInv(NextSys(s, Instr(online)))
  {
    var zero := Unmeasured(Current(s.m).name);
    FlattenSnoc(s.h.items, zero);
    LeaveAfterZero(s.m.(log := s.m.log + [Zero(zero.name)]));
    ZeroEffect(s, online);
  }

  lemma ZeroDeclines(s: Sys, online: bool)
    requires Phase(s.m) && Position(s.m) && CpuInv(s) && s.m.t.pc == Body(PrintZero)
    ensures Declines(Abs(s), Abs(NextSys(s, Instr(online))))
  {
    ZeroEffect(s, online);
    BodyIsAnnounced(s.m);
  }

  lemma RefinesBody(s: Sys, online: bool)
    requires SysInv(s) && s.m.t.pc.Body?
    ensures var n := NextSys(s, Instr(online)); LogInv(n) && SpecNext(Abs(s), Abs(n))
  {
    match s.m.t.pc.p
    case CpuTest => CpuTestOnly(s, online); BodyIsAnnounced(s.m);
    case PrintLabel => LabelAwaitsValue(s, online);
    case PrintZero => ZeroLogs(s, online); ZeroDeclines(s, online);
    case _ => QuietBody(s, online);
  }

  /** Outside a measurement, only the banner and the skipping of an entry are visible. */
  lemma QuietInstr(s: Sys, online: bool)
    requires Inv(s.m) && !s.m.t.pc.Body? && !s.m.t.pc.Banner?
    ensures var n := NextSys(s, Instr(online));
            && n.m.log == s.m.log && Pending(n.m) == Pending(s.m)
            && (Abs(n) == Abs(s) || Skips(Abs(s), Abs(n)))
  {
  }

  lemma BannerEffect(s: Sys, online: bool)
    requires Phase(s.m) && s.m.t.pc.Banner?
    ensures var n := NextSys(s, Instr(online));
            var rec := Note(s.m.job.plan.banner); var items := s.h.items + [Other(rec)];
            && Abs(n) == Abs(s).(stage := Announced, items := items, end := |s.h.items| + 1)
            && Pending(s.m) == [] && Pending(n.m) == []
            && n.m.log == s.m.log + [rec] && n.h.items == items
  {
  }

  lemma BannerAnnounces(s: Sys, online: bool)
    requires Phase(s.m) && LogInv(s) && s.m.t.pc.Banner?
    ensures var n := NextSys(s, Instr(online)); LogInv(n) && Announces(Abs(s), Abs(n))
  {
    FlattenSnoc(s.h.items, Other(Note(s.m.job.plan.banner)));
    BannerEffect(s, online);
  }

  lemma RefinesInstr(s: Sys, online: bool)
    requires SysInv(s)
    ensures var n := NextSys(s, Instr(online)); LogInv(n) && SpecNext(Abs(s), Abs(n))
  {
    if s.m.t.pc.Body? {
      RefinesBody(s, online);
    } else if s.m.t.pc.Banner? {
      BannerAnnounces(s, online);
    } else {
      QuietInstr(s, online);
    }
  }

  lemma QuietSetup(s: Sys, request: Request, created: bool)
    requires Inv(s.m) && s.m.cpc.Setup?
    ensures var n := NextSys(s, Ctrl(request, created));
            n.m.log == s.m.log && Abs(n) == Abs(s) && Pending(n.m) == Pending(s.m)
  {
  }

  lemma QuietWaking(s: Sys, request: Request, created: bool)
    requires Inv(s.m) && (s.m.cpc.WakeNop? || s.m.cpc.WakeInstr?)
    ensures var n := NextSys(s, Ctrl(request, created));
            n.m.log == s.m.log && Abs(n) == Abs(s) && Pending(n.m) == Pending(s.m)
  {
  }

  /** During a call the controller is invisible, until it returns. */
  lemma QuietCtrl(s: Sys, request: Request, created: bool)
    requires Inv(s.m) && !s.m.cpc.Idle?
    ensures var n := NextSys(s, Ctrl(request, created));
            && n.m.log == s.m.log && Pending(n.m) == Pending(s.m)
            && (Abs(n) == Abs(s) || Ends(Abs(s), Abs(n)))
  {
    if s.m.cpc.Setup? {
      QuietSetup(s, request, created);
    } else if s.m.cpc.WakeNop? || s.m.cpc.WakeInstr? {
      QuietWaking(s, request, created);
    }
  }

  lemma StartBegins(s: Sys, request: Request, created: bool)
    requires Inv(s.m) && LogInv(s) && s.m.cpc.Idle? && request.Start?
    ensures var n := NextSys(s, Ctrl(request, created)); LogInv(n) && Begins(Abs(s), Abs(n))
  {
  }

  lemma AsideEffect(s: Sys, request: Request, created: bool)
    requires s.m.cpc.Idle? && request.Aside? && Foreign(request.rec)
    ensures var n := NextSys(s, Ctrl(request, created)); var items := s.h.items + [Other(request.rec)];
            && Abs(n) == Abs(s).(items := items) && Pending(n.m) == Pending(s.m)
            && n.m.log == s.m.log + [request.rec] && n.h.items == items
  {
  }

  lemma AsideLogs(s: Sys, request: Request, created: bool)
    requires NoThreadLive(s.m) && LogInv(s) && s.m.cpc.Idle? && request.Aside? && Foreign(request.rec)
    ensures var n := NextSys(s, Ctrl(request, created)); LogInv(n) && Logs(Abs(s), Abs(n))
  {
    FlattenSnoc(s.h.items, Other(request.rec));
    AsideEffect(s, request, created);
  }

  lemma RefinesCtrl(s: Sys, request: Request, created: bool)
    requires SysInv(s)
    ensures var n := NextSys(s, Ctrl(request, created)); LogInv(n) && SpecNext(Abs(s), Abs(n))
  {
    var n := NextSys(s, Ctrl(request, created));
    if !s.m.cpc.Idle? {
      QuietCtrl(s, request, created);
    } else if request.Start? {
      StartBegins(s, request, created);
    } else if Foreign(request.rec) {
      AsideLogs(s, request, created);
    } else {
      assert n == s;
    }
  }

  lemma CallsNop(s: Sys, kill: bool)
    requires CallsInv(s)
    ensures CallsInv(NextSys(s, Nop(kill)))
  {
  }

  lemma CallsEarly(s: Sys, online: bool)
    requires Position(s.m) && CallsInv(s) && s.m.t.pc.Body? && BeforeLabel(s.m.t.pc.p)
    requires AtResetSpin(s.m) ==> !s.m.g.instrStop
    ensures CallsInv(NextSys(s, Instr(online)))
  {
  }

  lemma CallsLate(s: Sys, online: bool)
    requires CallsInv(s) && s.m.t.pc.Body? && !BeforeLabel(s.m.t.pc.p)
    ensures CallsInv(NextSys(s, Instr(online)))
  {
  }

  lemma CallsOther(s: Sys, step: Step)
    requires Phase(s.m) && CallsInv(s) && !s.m.t.pc.Body? && !step.Nop?
    ensures CallsInv(NextSys(s, step))
  {
  }

  lemma CallsCtrl(s: Sys, step: Step)
    requires Phase(s.m) && CallsInv(s) && s.m.t.pc.Body? && step.Ctrl?
    ensures CallsInv(NextSys(s, step))
  {
  }

  lemma CallsKeeps(s: Sys, step: Step)
    requires Inv(s.m) && CallsInv(s)
    ensures CallsInv(NextSys(s, step))
  {
    match step
    case Nop(kill) => CallsNop(s, kill);
    case Instr(online) =>
      if !s.m.t.pc.Body? {
        CallsOther(s, step);
      } else if BeforeLabel(s.m.t.pc.p) {
        CallsEarly(s, online);
      } else {
        CallsLate(s, online);
      }
    case Ctrl(_, _) =>
      if s.m.t.pc.Body? {
        CallsCtrl(s, step);
      } else {
        CallsOther(s, step);
      }
  }

  lemma CpuKeeps(s: Sys, step: Step)
    requires Inv(s.m) && CpuInv(s)
    ensures CpuInv(NextSys(s, step))
  {
  }

  lemma SysKeeps(s: Sys, step: Step)
    requires SysInv(s)
    ensures SysInv(NextSys(s, step))
    ensures SpecNext(Abs(s), Abs(NextSys(s, step)))
  {
    NextKeeps(s.m, step);
    CpuKeeps(s, step);
    CallsKeeps(s, step);
    match step
    case Nop(kill) => ClockNop(s, kill); ResetNop(s, kill); PrintNop(s, kill); RefinesNop(s, kill);
    case Instr(online) => WindowInstr(s, online); RefinesInstr(s, online);
    case Ctrl(request, created) => WindowCtrl(s, request, created); RefinesCtrl(s, request, created);
  }

  lemma {:induction false} ObserverIsPassive(schedule: seq<Step>)
    ensures AfterSys(schedule).m == After(schedule)
  {
    if schedule != [] {
      ObserverIsPassive(schedule[..|schedule| - 1]);
    }
  }

  lemma IncrementStep(s: Sys, step: Step)
    ensures NextSys(s, step).h.incs == s.h.incs + if step.Nop? && s.m.npc.Increment? then 1 else 0
  {
  }

  lemma {:induction false} ObserverCountsIncrements(schedule: seq<Step>)
    ensures AfterSys(schedule).h.incs == Increments(schedule)
  {
    if schedule != [] {
      var earlier := schedule[..|schedule| - 1];
      ObserverCountsIncrements(earlier);
      ObserverIsPassive(earlier);
      IncrementStep(AfterSys(earlier), schedule[|schedule| - 1]);
    }
  }

  /** The events that delimit a measurement. */
  datatype Event = RequestsReset | Resets | EntersCalls | LeavesCalls | RequestsPrint

  /** Step `s` is the event, when taken in state `m`. */
  predicate Occurs(e: Event, m: Machine, s: Step) {
    match e
    case RequestsReset => s.Instr? && m.t.pc == Body(RaiseReset)
    case Resets => (s.Nop? && m.npc.ClearCount?) || (s.Ctrl? && m.cpc == Setup(InitCount))
    case EntersCalls => s.Instr? && m.t.pc == Body(SpinReset) && !m.g.resetCount
    case LeavesCalls => s.Instr? && m.t.pc == Body(LoopTest) && m.t.i >= Current(m).iterations
    case RequestsPrint => s.Instr? && m.t.pc == Body(RaisePrint)
  }

  /** How many increments had been executed when the event last occurred in a schedule. */
  function TimeOf(e: Event, schedule: seq<Step>): nat {
    if schedule == [] then 0
    else
      var earlier := schedule[..|schedule| - 1];
      if Occurs(e, After(earlier), schedule[|schedule| - 1]) then Increments(earlier) else TimeOf(e, earlier)
  }

  /** Calls of measured instructions since the call loop was last entered. */
  function CallsSince(schedule: seq<Step>): nat {
    if schedule == [] then 0
    else
      var earlier, s := schedule[..|schedule| - 1], schedule[|schedule| - 1];
      if Occurs(EntersCalls, After(earlier), s) then 0
      else CallsSince(earlier) + if s.Instr? && After(earlier).t.pc == Body(Call) then 1 else 0
  }

  /** The window that a schedule has run through when a count is printed next. */
  function WindowOf(schedule: seq<Step>): Window {
    Window(TimeOf(RequestsReset, schedule), TimeOf(Resets, schedule), TimeOf(EntersCalls, schedule),
           TimeOf(LeavesCalls, schedule), TimeOf(RequestsPrint, schedule), Increments(schedule),
           CallsSince(schedule))
  }

  lemma TimedStep(s: Sys, step: Step)
    ensures var w, w', now := s.h.w, NextSys(s, step).h.w, s.h.incs;
            && w'.requestedAt == (if Occurs(RequestsReset, s.m, step) then now else w.requestedAt)
            && w'.resetAt == (if Occurs(Resets, s.m, step) then now else w.resetAt)
            && w'.callsFrom == (if Occurs(EntersCalls, s.m, step) then now else w.callsFrom)
            && w'.callsTo == (if Occurs(LeavesCalls, s.m, step) then now else w.callsTo)
            && w'.raisedAt == (if Occurs(RequestsPrint, s.m, step) then now else w.raisedAt)
            && w'.calls == (if Occurs(EntersCalls, s.m, step) then 0
                            else w.calls + if step.Instr? && s.m.t.pc == Body(Call) then 1 else 0)
  {
  }

  lemma {:induction false} ObserverTellsTime(schedule: seq<Step>)
    ensures var h := AfterSys(schedule).h; h.w.(printedAt := h.incs) == WindowOf(schedule)
  {
    if schedule != [] {
      var earlier := schedule[..|schedule| - 1];
      ObserverTellsTime(earlier);
      ObserverIsPassive(earlier);
      ObserverCountsIncrements(earlier);
      TimedStep(AfterSys(earlier), schedule[|schedule| - 1]);
    }
  }

  lemma InitialSysHolds()
    ensures SysInv(InitialSys()) && SpecInv(Abs(InitialSys()))
  {
    var items := [Other(INSERTED)];
    assert items[..0] == [];
    assert Flatten(items) == Flatten(items[..0]) + Expand(items[0]);
  }

  // ---- The main results about the handshake ----

  lemma {:induction false} ReachableSys(schedule: seq<Step>)
    ensures SysInv(AfterSys(schedule)) && SpecInv(Abs(AfterSys(schedule)))
  {
    if schedule == [] {
      InitialSysHolds();
    } else {
      var earlier := schedule[..|schedule| - 1];
      ReachableSys(earlier);
      SysKeeps(AfterSys(earlier), schedule[|schedule| - 1]);
      SpecKeeps(Abs(AfterSys(earlier)), Abs(AfterSys(schedule)));
    }
  }

  lemma WindowAtPrint(s: Sys)
    requires Flags(s.m) && WindowInv(s) && s.m.npc.EmitCount?
    ensures CountsWindow(s.m.g.count, s.h.w.(printedAt := s.h.incs))
  {
  }

  /**
    Exactness, read off the schedule alone: when a count is about to be printed, it is the
    number of increments executed since the latest reset, modulo 2^64; that reset follows
    INSTR's request, precedes the measured calls, and the print follows INSTR's request for
    it, with at most one increment of delay at either end. All the entry's calls were made.
   */
  lemma PrintedCountIsExact(schedule: seq<Step>)
    requires After(schedule).npc.EmitCount?
    ensures CountsWindow(After(schedule).g.count, WindowOf(schedule))
    ensures CallsSince(schedule) == Current(After(schedule)).iterations
  {
    ObserverIsPassive(schedule);
    ObserverTellsTime(schedule);
    ReachableSys(schedule);
    WindowAtPrint(AfterSys(schedule));
  }

  /** The measurement that is then recorded carries that count and that window, under INSTR's current name. */
  lemma PrintRecordsItsWindow(schedule: seq<Step>, kill: bool)
    requires After(schedule).npc.EmitCount?
    ensures var m := After(schedule);
            var item := Measured(Current(m).name, m.g.count, WindowOf(schedule));
            && AfterSys(schedule + [Nop(kill)]).h.items == AfterSys(schedule).h.items + [item]
            && m.log == Flatten(AfterSys(schedule).h.items) + [Label(item.name)]
            && After(schedule + [Nop(kill)]).log == m.log + [Value(item.n)]
  {
    assert (schedule + [Nop(kill)])[..|schedule|] == schedule;
    ObserverIsPassive(schedule);
    ObserverTellsTime(schedule);
    ReachableSys(schedule);
    EmitEffect(AfterSys(schedule), kill);
  }

  /**
    Refinement: however the threads are interleaved, each step of the machine is one step
    of the sequential specification, or none. In particular a count is printed in exactly
    the step in which the specification measures the next entry, and that count is the
    increments of this entry's own window.
   */
  lemma RefinesSequentialTiming(schedule: seq<Step>, step: Step)
    ensures SpecNext(Abs(AfterSys(schedule)), Abs(AfterSys(schedule + [step])))
    ensures step.Nop? && After(schedule).npc.EmitCount? ==>
              Measures(Abs(AfterSys(schedule)), Abs(AfterSys(schedule + [step])))
  {
    assert (schedule + [step])[..|schedule|] == schedule;
    ReachableSys(schedule);
    ObserverIsPassive(schedule);
    SysKeeps(AfterSys(schedule), step);
    if step.Nop? && After(schedule).npc.EmitCount? {
      EmitMeasures(AfterSys(schedule), step.kill);
    }
  }

  /**
    At every moment the log is that of the events so far, plus at most one label whose
    value is still to come; the events of the current run are those of the entries dealt
    with; and every measurement counts its own window, disjoint from all others.
   */
  lemma LogIsSequential(schedule: seq<Step>)
    ensures var m, h := After(schedule), AfterSys(schedule).h;
            && m.log == Flatten(h.items) + Pending(m)
            && h.base <= h.end <= |h.items| && Pos(m) <= |m.job.plan.entries|
            && Matches(m.job.plan.entries[..Pos(m)], RunEvents(h.items, h.base, h.end), m.job.mem, h.oneCpu)
            && Windows(h.items, h.w.printedAt)
  {
    ReachableSys(schedule);
    ObserverIsPassive(schedule);
  }

  lemma FlattenPieces(before: seq<Item>, item: Item, run: seq<Item>, rest: seq<Item>)
    ensures Flatten(before + [item] + run + rest) == Flatten(before) + Expand(item) + Flatten(run) + Flatten(rest)
  {
    FlattenConcat(before + [item] + run, rest);
    FlattenConcat(before + [item], run);
    FlattenSnoc(before, item);
  }

  lemma RunPieces(items: seq<Item>, base: nat, end: nat)
    requires base < end <= |items|
    ensures items == items[..base] + [items[base]] + RunEvents(items, base, end) + items[end..]
  {
  }

  /** A log whose latest run has a banner falls into what preceded it, the run, and what followed. */
  lemma FlattenRun(items: seq<Item>, base: nat, end: nat)
    requires base < end <= |items|
    ensures Flatten(items) ==
              Flatten(items[..base]) + Expand(items[base]) + Flatten(RunEvents(items, base, end)) + Flatten(items[end..])
  {
    RunPieces(items, base, end);
    FlattenPieces(items[..base], items[base], RunEvents(items, base, end), items[end..]);
  }

  /**
    Once a run has announced itself and until the call returns, the log ends with the
    run's banner followed by the records of its entries alone.
   */
  lemma RunIsUnbroken(schedule: seq<Step>)
    requires StageOf(After(schedule)).Announced?
    ensures var m, h := After(schedule), AfterSys(schedule).h; var banner := Note(m.job.plan.banner);
            && h.base < h.end == |h.items|
            && h.items[h.base] == Other(banner)
            && (forall u :: h.base < u < h.end ==> !h.items[u].Other?)
            && m.log == Flatten(h.items[..h.base]) + [banner] + Flatten(RunEvents(h.items, h.base, h.end)) + Pending(m)
  {
    ReachableSys(schedule);
    ObserverIsPassive(schedule);
    var h := AfterSys(schedule).h;
    FlattenRun(h.items, h.base, h.end);
  }

  predicate HasBanner(s: Sys) {
    s.m.g.finish && !s.m.cpc.Setup? ==> s.h.base < s.h.end
  }

  lemma FinishedIsAnnounced(s: Sys)
    requires Inv(s.m) && Segment(Abs(s)) && !s.m.cpc.Idle?
    ensures HasBanner(s)
  {
  }

  lemma BannerStays(s: Sys, step: Step)
    requires Inv(s.m) && s.h.end <= |s.h.items| && HasBanner(s) && NextSys(s, step).m.cpc.Idle?
    ensures HasBanner(NextSys(s, step))
  {
  }

  /** After a completed run, and whatever is logged later, that run's banner has been recorded. */
  lemma {:induction false} FinishedRunHasBanner(schedule: seq<Step>)
    ensures HasBanner(AfterSys(schedule))
  {
    ReachableSys(schedule);
    if !AfterSys(schedule).m.cpc.Idle? {
      FinishedIsAnnounced(AfterSys(schedule));
    } else if schedule != [] {
      var earlier := schedule[..|schedule| - 1];
      FinishedRunHasBanner(earlier);
      ReachableSys(earlier);
      BannerStays(AfterSys(earlier), schedule[|schedule| - 1]);
    }
  }

  /**
    Once `finish` is set during a call, its whole plan is in the log and nothing is pending:
    the log is what preceded the run, its banner, the records of its entries, and whatever
    else was logged after the call had returned. An idle module's log has no record pending.
   */
  lemma FinishedRunIsComplete(schedule: seq<Step>)
    ensures var m, h := After(schedule), AfterSys(schedule).h;
            (m.g.finish && !m.cpc.Setup?) || m.cpc.Idle? ==>
              && m.log == Flatten(h.items) && !m.g.resetCount && !m.g.printCount
              && h.base <= h.end <= |h.items|
              && Matches(m.job.plan.entries, RunEvents(h.items, h.base, h.end), m.job.mem, h.oneCpu)
              && forall u :: h.end <= u < |h.items| ==> h.items[u].Other?
    ensures var m, h := After(schedule), AfterSys(schedule).h;
            m.g.finish && !m.cpc.Setup? ==>
              && h.base < h.end <= |h.items|
              && m.log == Flatten(h.items[..h.base]) + [Note(m.job.plan.banner)]
                          + Flatten(RunEvents(h.items, h.base, h.end)) + Flatten(h.items[h.end..])
  {
    LogIsSequential(schedule);
    ReachableSys(schedule);
    ObserverIsPassive(schedule);
    FinishedRunHasBanner(schedule);
    var m, h := After(schedule), AfterSys(schedule).h;
    if (m.g.finish && !m.cpc.Setup?) || m.cpc.Idle? {
      FinishedPlan(m);
    }
    if m.g.finish && !m.cpc.Setup? {
      FlattenRun(h.items, h.base, h.end);
    }
  }

  lemma FinishedPlan(m: Machine)
    requires Inv(m) && ((m.g.finish && !m.cpc.Setup?) || m.cpc.Idle?)
    ensures Pos(m) == |m.job.plan.entries| && m.job.plan.entries[..Pos(m)] == m.job.plan.entries
    ensures Pending(m) == [] && !m.g.resetCount && !m.g.printCount
  {
  }

  // ---- The CPU tests of a run ----

  /** In the latest run that a schedule has started, some CPU test found too few CPUs online. */
  predicate FailedCpuTest(schedule: seq<Step>)
    decreases |schedule|
  {
    schedule != [] &&
    var earlier, s := schedule[..|schedule| - 1], schedule[|schedule| - 1];
    var m := After(earlier);
    if s.Ctrl? && m.cpc.Idle? && s.request.Start? then false
    else FailedCpuTest(earlier) || (s.Instr? && m.t.pc == Body(CpuTest) && !s.online)
  }

  lemma CpuTestStep(s: Sys, step: Step)
    ensures NextSys(s, step).h.oneCpu ==
              if step.Ctrl? && s.m.cpc.Idle? && step.request.Start? then false
              else s.h.oneCpu || (step.Instr? && s.m.t.pc == Body(CpuTest) && !step.online)
  {
  }

  lemma {:induction false} ObserverTellsCpus(schedule: seq<Step>)
    ensures AfterSys(schedule).h.oneCpu == FailedCpuTest(schedule)
  {
    if schedule != [] {
      var earlier := schedule[..|schedule| - 1];
      ObserverTellsCpus(earlier);
      ObserverIsPassive(earlier);
      CpuTestStep(AfterSys(earlier), schedule[|schedule| - 1]);
    }
  }

  /** Where an event's records stand in the log. */
  lemma {:induction false} FlattenAt(items: seq<Item>, t: nat)
    requires t < |items|
    ensures Flatten(items[..t]) + Expand(items[t]) <= Flatten(items)
  {
    var n := |items| - 1;
    if t < n {
      FlattenAt(items[..n], t);
      assert items[..n][..t] == items[..t];
    }
  }

  lemma {:induction false} ValueComesFrom(items: seq<Item>, v: nat) returns (t: nat)
    requires v < |Flatten(items)| && Flatten(items)[v].Value?
    requires forall u :: 0 <= u < |items| && items[u].Other? ==> Foreign(items[u].rec)
    ensures t < |items| && items[t].Measured? && v == |Flatten(items[..t])| + 1
    ensures Flatten(items)[v] == Value(items[t].n)
  {
    var n := |items| - 1;
    if v < |Flatten(items[..n])| {
      t := ValueComesFrom(items[..n], v);
      assert items[..n][..t] == items[..t];
    } else {
      t := n;
    }
  }

  lemma {:induction false} OthersAreForeign(schedule: seq<Step>, u: nat)
    requires u < |AfterSys(schedule).h.items| && AfterSys(schedule).h.items[u].Other?
    ensures Foreign(AfterSys(schedule).h.items[u].rec)
  {
    if schedule != [] {
      var earlier := schedule[..|schedule| - 1];
      var s, step := AfterSys(earlier), schedule[|schedule| - 1];
      ObservedItems(s, step);
      if u < |s.h.items| {
        OthersAreForeign(earlier, u);
      }
    }
  }

  lemma ObservedItems(s: Sys, step: Step)
    ensures var n := NextSys(s, step).h.items;
            || n == s.h.items
            || (|n| == |s.h.items| + 1 && n == s.h.items + [n[|s.h.items|]] && (n[|s.h.items|].Other? ==> Foreign(n[|s.h.items|].rec)))
  {
  }

  /**
    Every value in the log directly follows the label of its own measurement, and is the
    number of NOPs executed in that measurement's window.
   */
  lemma EveryValueIsAMeasurement(schedule: seq<Step>, v: nat) returns (name: string, w: Window)
    requires v < |After(schedule).log| && After(schedule).log[v].Value?
    ensures v > 0 && After(schedule).log[v - 1] == Label(name)
    ensures CountsWindow(After(schedule).log[v].n, w) && w.printedAt <= Increments(schedule)
    ensures Measured(name, After(schedule).log[v].n, w) in AfterSys(schedule).h.items
  {
    LogIsSequential(schedule);
    ReachableSys(schedule);
    ObserverCountsIncrements(schedule);
    var items := AfterSys(schedule).h.items;
    forall u | 0 <= u < |items| && items[u].Other? ensures Foreign(items[u].rec) {
      OthersAreForeign(schedule, u);
    }
    var t := ValueComesFrom(items, v);
    FlattenAt(items, t);
    name, w := items[t].name, items[t].w;
    assert items[t] in items;
    assert After(schedule).log[v - 1] == (Flatten(items[..t]) + Expand(items[t]))[v - 1];
  }
}
