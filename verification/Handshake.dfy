/** What every step of the NOP timer keeps: flags, thread positions, controller phases, interrupts. */
module Handshake {
  import opened Records
  import opened NopMachine

  /** INSTR waits for its reset, or for its count to be printed. */
  predicate AtResetSpin(m: Machine) { m.t.pc == Body(SpinReset) || m.t.pc == Body(SpinResetStop) }
  predicate AtPrintSpin(m: Machine) { m.t.pc == Body(SpinPrint) || m.t.pc == Body(SpinPrintStop) }

  /** No thread of the timer exists that could take a step. */
  predicate NoThreadLive(m: Machine) {
    (m.npc.NopOff? || m.npc.NopDead?) && (m.t.pc.InstrOff? || m.t.pc.InstrDead?)
  }

  /** The flags and the two threads' positions agree. */
  predicate Flags(m: Machine) {
    && (m.g.resetCount ==> AtResetSpin(m))
    && (m.g.printCount ==> AtPrintSpin(m))
    && (m.npc.ClearCount? || m.npc.ClearReset? ==> m.g.resetCount)
    && (m.npc.EmitCount? || m.npc.ClearPrint? ==> m.g.printCount)
    && (m.g.finish ==> m.t.pc.InstrExit? || m.t.pc.InstrDead?)
    && (m.t.pc.InstrExit? ==> m.g.finish)
  }

  /** What the controller's position says about the threads and their stop requests. */
  predicate Phase(m: Machine) {
    var c := m.cpc;
    && (c.Idle? || c.Setup? ==> NoThreadLive(m))
    && (c.Idle? ==> m.t.k == |m.job.plan.entries|)
    && (c.Setup? || c.WakeNop? || c.WakeInstr? ==> m.t.k == 0)
    && (c == Setup(CreateNop) || c == Setup(CreateInstr) || c.WakeNop? || c.WakeInstr? ==> !m.g.finish)
    && (c == Setup(CreateInstr) || c.WakeNop? ==> m.npc.NopOff?)
    && (c.WakeNop? || c.WakeInstr? ==> m.t.pc.InstrOff?)
    && (c.WakeInstr? ==> !m.npc.NopOff?)
    && (c == Setup(CreateInstr) || c.WakeNop? || c.WakeInstr? || c.WaitFinish? || c.StopNop? ==> !m.g.nopStop)
    && (c.JoinNop? ==> m.g.nopStop)
    && (c.WakeNop? || c.WakeInstr? || c.WaitFinish? || c.StopNop? || c.JoinNop? || c.StopInstr? ==> !m.g.instrStop)
    && (c.WaitFinish? || c.StopNop? || c.JoinNop? ==> (m.npc.NopOff? <==> m.t.pc.InstrOff?))
    && (c.WaitFinish? && m.t.pc.InstrDead? ==> m.g.finish)
    && (c.StopNop? || c.JoinNop? || c.StopInstr? || c.JoinInstr? ==> m.g.finish)
    && (c.StopInstr? || c.JoinInstr? ==> m.npc.NopDead? && m.g.nopStop)
    && (c.JoinInstr? ==> m.g.instrStop)
    && (c.Idle? && m.g.finish ==> m.g.nopStop && m.g.instrStop)
  }

  /** Where INSTR is in its plan. */
  predicate Position(m: Machine) {
    && m.t.k <= |m.job.plan.entries|
    && (m.t.pc.Banner? ==> m.t.k == 0)
    && (m.t.pc.SetFinish? ==> m.t.k == |m.job.plan.entries|)
    && (m.g.finish && !m.cpc.Idle? && !m.cpc.Setup? ==> m.t.k == |m.job.plan.entries|)
    && (m.t.pc.Bracket? ==> m.t.k < |m.job.plan.entries| && Current(m).gate.Suspended?)
    && (m.t.pc.Body? ==>
          && m.t.k < |m.job.plan.entries|
          && !Skipped(Current(m))
          && (!m.t.pc.p.PrintZero? ==> Available(Current(m), m.job.mem))
          && (m.t.pc.p.LoopTest? ==> m.t.i <= Current(m).iterations)
          && (m.t.pc.p.Call? ==> m.t.i < Current(m).iterations))
  }

  /** The INSTR CPU's interrupt state, with `flags` holding what local_irq_save saw. */
  predicate Interrupts(m: Machine) {
    if m.t.pc == Bracket(Disable) || m.t.pc == Bracket(Restore) || (m.t.pc.Body? && Current(m).gate.Suspended?)
    then !m.irq.on && m.irq.flags
    else m.irq.on
  }

  predicate Inv(m: Machine) {
    Flags(m) && Phase(m) && Position(m) && Interrupts(m)
  }

  lemma NopKeepsFlags(m: Machine, kill: bool)
    requires Flags(m)
    ensures Flags(NextNop(m, kill))
  {
  }

  lemma NopKeepsPhase(m: Machine, kill: bool)
    requires Phase(m)
    ensures Phase(NextNop(m, kill))
  {
  }

  /** The NOP thread never touches INSTR's position, its interrupts, or the controller. */
  lemma NopFrame(m: Machine, kill: bool)
    ensures var n := NextNop(m, kill);
            n.t == m.t && n.irq == m.irq && n.job == m.job && n.cpc == m.cpc && n.g.finish == m.g.finish
  {
  }

  lemma NopKeeps(m: Machine, kill: bool)
    requires Inv(m)
    ensures Inv(NextNop(m, kill))
  {
    NopKeepsFlags(m, kill);
    NopKeepsPhase(m, kill);
    NopFrame(m, kill);
  }

  lemma BodyKeepsFlags(m: Machine, online: bool)
    requires Inv(m) && m.t.pc.Body?
    ensures Flags(NextBody(m, m.t.pc.p, online))
  {
  }

  lemma BodyKeepsPhase(m: Machine, online: bool)
    requires Inv(m) && m.t.pc.Body?
    ensures Phase(NextBody(m, m.t.pc.p, online))
  {
  }

  lemma BodyKeepsPosition(m: Machine, online: bool)
    requires Inv(m) && m.t.pc.Body?
    ensures Position(NextBody(m, m.t.pc.p, online)) && Interrupts(NextBody(m, m.t.pc.p, online))
  {
  }

  lemma OutsideKeepsPhase(m: Machine, online: bool)
    requires Inv(m) && !m.t.pc.Body?
    ensures Flags(NextInstr(m, online)) && Phase(NextInstr(m, online))
  {
  }

  lemma OutsideKeepsPosition(m: Machine, online: bool)
    requires Inv(m) && !m.t.pc.Body?
    ensures Position(NextInstr(m, online)) && Interrupts(NextInstr(m, online))
  {
  }

  lemma InstrKeeps(m: Machine, online: bool)
    requires Inv(m)
    ensures Inv(NextInstr(m, online))
  {
    if m.t.pc.Body? {
      BodyKeepsFlags(m, online);
      BodyKeepsPhase(m, online);
      BodyKeepsPosition(m, online);
    } else {
      OutsideKeepsPhase(m, online);
      OutsideKeepsPosition(m, online);
    }
  }

  lemma SetupKeepsPhase(m: Machine, created: bool)
    requires Inv(m) && m.cpc.Setup?
    ensures Phase(NextSetup(m, m.cpc.s, created))
  {
  }

  lemma SetupKeeps(m: Machine, created: bool)
    requires Inv(m) && m.cpc.Setup?
    ensures Inv(NextSetup(m, m.cpc.s, created))
  {
    SetupKeepsPhase(m, created);
  }

  lemma CtrlKeeps(m: Machine, request: Request, created: bool)
    requires Inv(m)
    ensures Inv(NextCtrl(m, request, created))
  {
    if m.cpc.Setup? {
      SetupKeeps(m, created);
    }
  }

  lemma InitialHolds()
    ensures Inv(Initial())
  {
  }

  lemma NextKeeps(m: Machine, s: Step)
    requires Inv(m)
    ensures Inv(Next(m, s))
  {
    match s
    case Nop(kill) => NopKeeps(m, kill);
    case Instr(online) => InstrKeeps(m, online);
    case Ctrl(request, created) => CtrlKeeps(m, request, created);
  }

  /** The invariant holds in every reachable state, whatever the schedule does. */
  lemma {:induction false} Reachable(schedule: seq<Step>)
    ensures Inv(After(schedule))
  {
    if schedule == [] {
      InitialHolds();
    } else {
      Reachable(schedule[..|schedule| - 1]);
      NextKeeps(After(schedule[..|schedule| - 1]), schedule[|schedule| - 1]);
    }
  }

  // ---- What a call was asked to do ----

  /** The step is a request to start a call, taken while none is active. */
  predicate Starts(m: Machine, s: Step) {
    s.Ctrl? && m.cpc.Idle? && s.request.Start?
  }

  /** What the latest call in a schedule was asked to measure, and whether it then had the buffer. */
  function Asked(schedule: seq<Step>): Job {
    if schedule == [] then Job(Plan("", []), false)
    else
      var earlier, s := schedule[..|schedule| - 1], schedule[|schedule| - 1];
      if Starts(After(earlier), s) then Job(s.request.plan, s.request.mem) else Asked(earlier)
  }

  lemma JobStep(m: Machine, s: Step)
    ensures Next(m, s).job == if Starts(m, s) then Job(s.request.plan, s.request.mem) else m.job
  {
  }

  /** Every schedule runs the job it was asked for: nothing but the next request changes it. */
  lemma {:induction false} RunsWhatWasAsked(schedule: seq<Step>)
    ensures After(schedule).job == Asked(schedule)
  {
    if schedule != [] {
      var earlier := schedule[..|schedule| - 1];
      RunsWhatWasAsked(earlier);
      JobStep(After(earlier), schedule[|schedule| - 1]);
    }
  }

  // ---- What the invariant gives, on every reachable state ----

  /**
    The two requests exclude each other, the NOP thread serves one only while INSTR waits at
    the matching spin, and no request is pending during a measured call or after `finish`.
    A kill signal changes none of this.
   */
  lemma RequestsExclusive(schedule: seq<Step>)
    ensures var m := After(schedule);
            && !(m.g.resetCount && m.g.printCount)
            && (m.npc.ClearCount? || m.npc.ClearReset? ==> AtResetSpin(m) && m.g.resetCount)
            && (m.npc.EmitCount? || m.npc.ClearPrint? ==> AtPrintSpin(m) && m.g.printCount)
            && (m.t.pc == Body(Call) || m.g.finish ==> !m.g.resetCount && !m.g.printCount)
  {
    Reachable(schedule);
  }

  /** INSTR leaves a spin in one step only because its own request has been served. */
  lemma SpinsEndWhenServed(schedule: seq<Step>, online: bool)
    ensures var m := After(schedule); var n := NextInstr(m, online);
            && (AtResetSpin(m) && !AtResetSpin(n) ==> !m.g.resetCount && n.t.pc == Body(LoopTest))
            && (AtPrintSpin(m) && !AtPrintSpin(n) ==> !m.g.printCount && (n.t.pc == EntryHead || n.t.pc == Bracket(Restore)))
            && (AtResetSpin(m) || AtPrintSpin(m) ==> !m.g.instrStop && !m.g.finish)
  {
    Reachable(schedule);
  }

  /** A stop is requested of a thread only once `finish` is set and every macro has been executed. */
  lemma StopsFollowFinish(schedule: seq<Step>)
    ensures var m := After(schedule);
            (m.g.nopStop || m.g.instrStop) && !m.cpc.Idle? && !m.cpc.Setup? ==>
              && m.g.finish && (m.t.pc.InstrExit? || m.t.pc.InstrDead?)
              && m.t.k == |m.job.plan.entries|
  {
    Reachable(schedule);
  }

  /** Conversely each thread is told to stop, after `finish`, before the call waits for its end and returns. */
  lemma BothAreStopped(schedule: seq<Step>)
    ensures var m := After(schedule);
            && (m.cpc.JoinNop? || m.cpc.StopInstr? || m.cpc.JoinInstr? ==> m.g.finish && m.g.nopStop)
            && (m.cpc.JoinInstr? ==> m.g.instrStop)
            && (m.cpc.Idle? && m.g.finish ==> m.g.nopStop && m.g.instrStop)
  {
    Reachable(schedule);
  }

  /** Interrupts are off at each call of a suspended entry, on at each plain one, and on between entries. */
  lemma InterruptDiscipline(schedule: seq<Step>)
    ensures var m := After(schedule);
            && (m.t.pc == Body(Call) || m.t.pc == Body(PrintZero) ==> m.irq.on == !Current(m).gate.Suspended?)
            && (m.t.pc.EntryHead? || m.t.pc.SetFinish? || NoThreadLive(m) ==> m.irq.on)
  {
    Reachable(schedule);
  }

  // ---- The other threads, undisturbed ----

  /** `n` steps of INSTR, or of the controller, with nothing in between. */
  function InstrAlone(m: Machine, online: bool, n: nat): Machine
    decreases n
  {
    if n == 0 then m else InstrAlone(NextInstr(m, online), online, n - 1)
  }

  function CtrlAlone(m: Machine, request: Request, created: bool, n: nat): Machine
    decreases n
  {
    if n == 0 then m else CtrlAlone(NextCtrl(m, request, created), request, created, n - 1)
  }

  /** The interrupt bracket takes two statements at either end, and saves what it restores. */
  lemma BracketAlone(m: Machine, online: bool)
    ensures m.t.pc == Bracket(Save) ==>
              && !NextInstr(m, online).irq.on
              && InstrAlone(m, online, 2) == Goto(m, Body(CpuTest)).(irq := Irq(false, m.irq.on))
    ensures m.t.pc == Bracket(Restore) ==>
              && NextInstr(m, online).irq.on == m.irq.flags && NextInstr(m, online).t.pc.Bracket?
              && InstrAlone(m, online, 2) == Advance(m).(irq := m.irq.(on := true))
  {
    var a := NextInstr(m, online);
    assert InstrAlone(m, online, 2) == InstrAlone(a, online, 1) == NextInstr(a, online);
  }

  /** A spin would end if INSTR were told to stop, served or not. */
  lemma SpinObeysStop(m: Machine, online: bool)
    requires m.g.instrStop && (AtResetSpin(m) || AtPrintSpin(m))
    ensures InstrAlone(m, online, 1).t.pc != m.t.pc
    ensures !(AtResetSpin(InstrAlone(m, online, 1)) && AtResetSpin(InstrAlone(m, online, 2)))
    ensures !(AtPrintSpin(InstrAlone(m, online, 1)) && AtPrintSpin(InstrAlone(m, online, 2)))
  {
    var a := NextInstr(m, online);
    assert InstrAlone(m, online, 2) == InstrAlone(a, online, 1) == NextInstr(a, online);
  }

  /** `finish` is visible before INSTR has exited. */
  lemma FinishAlone(m: Machine, online: bool)
    requires m.t.pc.SetFinish?
    ensures NextInstr(m, online).g.finish && NextInstr(m, online).t.pc.InstrExit?
    ensures InstrAlone(m, online, 2) == Goto(m, InstrDead).(g := m.g.(finish := true))
  {
    var a := NextInstr(m, online);
    assert InstrAlone(m, online, 2) == InstrAlone(a, online, 1) == NextInstr(a, online);
  }

  /** Whatever the globals held, four statements of the controller clear them. */
  lemma ReinitAlone(m: Machine, request: Request, created: bool)
    requires m.cpc == Setup(InitCount)
    ensures CtrlAlone(m, request, created, 4) ==
            m.(g := m.g.(count := 0, resetCount := false, printCount := false, finish := false), cpc := Setup(CreateNop))
  {
    var a := NextCtrl(m, request, created);
    var b := NextCtrl(a, request, created);
    var c := NextCtrl(b, request, created);
    assert CtrlAlone(m, request, created, 4) == CtrlAlone(a, request, created, 3) == CtrlAlone(b, request, created, 2)
        == CtrlAlone(c, request, created, 1) == NextCtrl(c, request, created);
  }

  /** And two more create both threads, not told to stop, and wake them only if both exist. */
  lemma CreateAlone(m: Machine, request: Request, created: bool)
    requires m.cpc == Setup(CreateNop)
    ensures CtrlAlone(m, request, created, 2) ==
            Goto(m, InstrOff).(g := m.g.(nopStop := false, instrStop := false), npc := NopOff,
                               cpc := if created then WakeNop else WaitFinish)
  {
    var a := NextCtrl(m, request, created);
    assert CtrlAlone(m, request, created, 2) == CtrlAlone(a, request, created, 1) == NextCtrl(a, request, created);
  }

  // ---- One pass of the NOP thread ----

  /** `n` steps of the NOP thread with nothing in between and no kill signal. */
  function Alone(m: Machine, n: nat): Machine
    decreases n
  {
    if n == 0 then m else Alone(NextNop(m, false), n - 1)
  }

  /** The statements that serve a reset, if one is requested. */
  lemma ResetPhase(m: Machine, n: nat)
    requires m.npc.ResetTest?
    ensures m.g.resetCount ==>
              Alone(m, n + 3) == Alone(m.(g := m.g.(count := 0, resetCount := false), npc := PrintTest), n)
    ensures !m.g.resetCount ==> Alone(m, n + 1) == Alone(m.(npc := PrintTest), n)
  {
    var a := NextNop(m, false);
    assert Alone(m, n + 3) == Alone(a, n + 2) == Alone(NextNop(a, false), n + 1);
  }

  /** The statements that serve a print request. */
  lemma PrintPhase(m: Machine, n: nat)
    requires m.npc.PrintTest?
    ensures m.g.printCount ==>
              Alone(m, n + 3) == Alone(m.(g := m.g.(printCount := false), log := m.log + [Value(m.g.count)], npc := Increment), n)
    ensures !m.g.printCount ==> Alone(m, n + 1) == Alone(m.(npc := Increment), n)
  {
    var a := NextNop(m, false);
    assert Alone(m, n + 3) == Alone(a, n + 2) == Alone(NextNop(a, false), n + 1);
  }

  function PassLength(m: Machine): nat {
    5 + (if m.g.resetCount then 2 else 0) + (if m.g.printCount then 2 else 0)
  }

  /** What one pass of the loop in `nop_f` does as a whole: reset if asked, print if asked, count one. */
  function Pass(m: Machine): Machine {
    var n := if m.g.resetCount then 0 else m.g.count;
    m.(g := m.g.(count := (n + 1) % U64, resetCount := false, printCount := false),
       log := if m.g.printCount then m.log + [Value(n)] else m.log)
  }

  /** The NOP thread's statements, undisturbed, make up one such pass and lead back to its start. */
  lemma UndisturbedPass(m: Machine)
    requires m.npc.StopTest? && !m.g.nopStop
    ensures Alone(m, PassLength(m)) == Pass(m)
  {
    var tail := if m.g.printCount then 4 else 2;
    var head := if m.g.resetCount then 3 else 1;
    var a := m.(npc := ResetTest);
    assert Alone(m, PassLength(m)) == Alone(NextNop(m, false), PassLength(m) - 1) == Alone(a, head + tail);
    ResetPhase(a, tail);
    var b := (if m.g.resetCount then m.(g := m.g.(count := 0, resetCount := false)) else m).(npc := PrintTest);
    assert Alone(a, head + tail) == Alone(b, tail);
    PrintPhase(b, 1);
  }

  /** Steps of a schedule in which the NOP thread enters a pass, or leaves one because of a kill signal. */
  predicate EntersPass(m: Machine, s: Step) { s.Nop? && m.npc.StopTest? && !m.g.nopStop }
  predicate LeavesByKill(m: Machine, s: Step) { s.Nop? && m.npc.SignalTest? && s.kill }

  function Passes(schedule: seq<Step>): nat {
    if schedule == [] then 0
    else
      var earlier := schedule[..|schedule| - 1];
      Passes(earlier) + if EntersPass(After(earlier), schedule[|schedule| - 1]) then 1 else 0
  }

  function Kills(schedule: seq<Step>): nat {
    if schedule == [] then 0
    else
      var earlier := schedule[..|schedule| - 1];
      Kills(earlier) + if LeavesByKill(After(earlier), schedule[|schedule| - 1]) then 1 else 0
  }

  /** How often the NOP thread executes its `count++` in a schedule. */
  function Increments(schedule: seq<Step>): nat {
    if schedule == [] then 0
    else
      var earlier := schedule[..|schedule| - 1];
      Increments(earlier) + if schedule[|schedule| - 1].Nop? && After(earlier).npc.Increment? then 1 else 0
  }

  predicate InPass(n: NopPc) {
    !(n.NopOff? || n.StopTest? || n.NopExit? || n.NopDead?)
  }

  lemma PassNop(m: Machine, kill: bool)
    ensures (if InPass(m.npc) then 1 else 0) + (if EntersPass(m, Nop(kill)) then 1 else 0)
         == (if InPass(NextNop(m, kill).npc) then 1 else 0) + (if LeavesByKill(m, Nop(kill)) then 1 else 0)
            + (if m.npc.Increment? then 1 else 0)
  {
  }

  lemma PassElsewhere(m: Machine, s: Step)
    requires Phase(m) && !s.Nop?
    ensures InPass(Next(m, s).npc) <==> InPass(m.npc)
  {
  }

  lemma PassStep(m: Machine, s: Step)
    requires Phase(m)
    ensures (if InPass(m.npc) then 1 else 0) + (if EntersPass(m, s) then 1 else 0)
         == (if InPass(Next(m, s).npc) then 1 else 0) + (if LeavesByKill(m, s) then 1 else 0)
            + (if s.Nop? && m.npc.Increment? then 1 else 0)
  {
    if s.Nop? {
      PassNop(m, s.kill);
    } else {
      PassElsewhere(m, s);
    }
  }

  /**
    Each pass of the loop counts exactly one NOP, in every schedule: passes entered are
    increments made, passes that a kill signal ended, and the one in progress.
   */
  lemma {:induction false} EachPassCountsOnce(schedule: seq<Step>)
    ensures Passes(schedule) == Increments(schedule) + Kills(schedule) + if InPass(After(schedule).npc) then 1 else 0
  {
    if schedule != [] {
      var earlier := schedule[..|schedule| - 1];
      EachPassCountsOnce(earlier);
      Reachable(earlier);
      PassStep(After(earlier), schedule[|schedule| - 1]);
    }
  }

  // ---- Successive calls of nop_timing_start ----

  /** The records that one step appends to the log. */
  function Appended(m: Machine, s: Step): seq<Record> {
    match s
    case Nop(_) => if m.npc.EmitCount? then [Value(m.g.count)] else []
    case Instr(_) =>
      if m.t.pc.Banner? then [Note(m.job.plan.banner)]
      else if m.t.pc == Body(PrintLabel) then [Label(Current(m).name)]
      else if m.t.pc == Body(PrintZero) then [Zero(Current(m).name)]
      else []
    case Ctrl(request, _) =>
      if m.cpc.Idle? && request.Aside? && Foreign(request.rec) then [request.rec] else []
  }

  lemma NextAppends(m: Machine, s: Step)
    ensures Next(m, s).log == m.log + Appended(m, s)
  {
  }

  /** The globals that `nop_timing_start` has already set at this point of its setup agree. */
  predicate SetUpAlike(a: Machine, b: Machine)
    requires a.cpc.Setup?
  {
    && a.t.k == b.t.k && a.t.i == b.t.i
    && (!a.cpc.s.InitCount? ==> a.g.count == b.g.count)
    && (a.cpc.s.CreateNop? || a.cpc.s.CreateInstr? ==> a.g.finish == b.g.finish)
    && (a.cpc.s.CreateInstr? ==> a.npc == b.npc && a.g.nopStop == b.g.nopStop)
  }

  /** Two machines that can no longer be told apart except by what their logs held before. */
  predicate Alike(a: Machine, b: Machine) {
    && a.cpc == b.cpc && a.job == b.job && a.irq.on == b.irq.on
    && (if a.cpc.Setup? then SetUpAlike(a, b) else a.g == b.g && a.t == b.t && a.npc == b.npc)
  }

  lemma AlikeThread(a: Machine, b: Machine, s: Step)
    requires Inv(a) && Inv(b) && Alike(a, b) && !s.Ctrl? && a.cpc.Setup?
    ensures Next(a, s) == a && Next(b, s) == b
  {
  }

  lemma AlikeNop(a: Machine, b: Machine, kill: bool)
    requires Alike(a, b) && !a.cpc.Setup?
    ensures Alike(NextNop(a, kill), NextNop(b, kill))
  {
  }

  lemma AlikeMeasure(a: Machine, b: Machine, p: BodyPc, online: bool)
    requires Alike(a, b) && !a.cpc.Setup? && BeforeLabel(p)
    ensures Alike(NextBody(a, p, online), NextBody(b, p, online))
  {
  }

  lemma AlikeReport(a: Machine, b: Machine, p: BodyPc, online: bool)
    requires Alike(a, b) && !a.cpc.Setup? && !BeforeLabel(p)
    ensures Alike(NextBody(a, p, online), NextBody(b, p, online))
  {
  }

  lemma AlikeBracket(a: Machine, b: Machine, q: IrqPc)
    requires Interrupts(a) && Interrupts(b) && Alike(a, b) && !a.cpc.Setup? && a.t.pc == Bracket(q)
    ensures Alike(NextBracket(a, q), NextBracket(b, q))
  {
  }

  lemma AlikeInstr(a: Machine, b: Machine, online: bool)
    requires Interrupts(a) && Interrupts(b) && Alike(a, b) && !a.cpc.Setup?
    ensures Alike(NextInstr(a, online), NextInstr(b, online))
  {
    match a.t.pc
    case Body(p) =>
      if BeforeLabel(p) {
        AlikeMeasure(a, b, p, online);
      } else {
        AlikeReport(a, b, p, online);
      }
    case Bracket(q) => AlikeBracket(a, b, q);
    case _ =>
  }

  lemma AlikeCreated(a: Machine, b: Machine, created: bool)
    requires Flags(a) && Flags(b) && NoThreadLive(a) && NoThreadLive(b) && Alike(a, b) && a.cpc == Setup(CreateInstr)
    ensures Alike(NextSetup(a, CreateInstr, created), NextSetup(b, CreateInstr, created))
  {
  }

  lemma AlikeReinit(a: Machine, b: Machine, created: bool)
    requires Alike(a, b) && a.cpc.Setup? && !a.cpc.s.CreateInstr?
    ensures Alike(NextSetup(a, a.cpc.s, created), NextSetup(b, a.cpc.s, created))
  {
  }

  lemma AlikeCtrl(a: Machine, b: Machine, request: Request, created: bool)
    requires Inv(a) && Inv(b) && Alike(a, b)
    ensures Alike(NextCtrl(a, request, created), NextCtrl(b, request, created))
  {
    if a.cpc == Setup(CreateInstr) {
      AlikeCreated(a, b, created);
    } else if a.cpc.Setup? {
      AlikeReinit(a, b, created);
    }
  }

  lemma AlikeStep(a: Machine, b: Machine, s: Step)
    requires Inv(a) && Inv(b) && Alike(a, b)
    ensures Alike(Next(a, s), Next(b, s))
    ensures Appended(a, s) == Appended(b, s)
  {
    if s.Ctrl? {
      AlikeCtrl(a, b, s.request, s.created);
    } else if a.cpc.Setup? {
      AlikeThread(a, b, s);
    } else if s.Nop? {
      AlikeNop(a, b, s.kill);
    } else {
      AlikeInstr(a, b, s.online);
    }
  }

  /** Continuing a machine with more steps, and what they append. */
  function Continue(m: Machine, steps: seq<Step>): Machine
    decreases |steps|
  {
    if steps == [] then m else Continue(Next(m, steps[0]), steps[1..])
  }

  function Output(m: Machine, steps: seq<Step>): seq<Record>
    decreases |steps|
  {
    if steps == [] then [] else Appended(m, steps[0]) + Output(Next(m, steps[0]), steps[1..])
  }

  lemma {:induction false} LogIsOutput(m: Machine, steps: seq<Step>)
    ensures Continue(m, steps).log == m.log + Output(m, steps)
    decreases |steps|
  {
    if steps != [] {
      NextAppends(m, steps[0]);
      LogIsOutput(Next(m, steps[0]), steps[1..]);
    }
  }

  lemma {:induction false} AlikeOutput(a: Machine, b: Machine, steps: seq<Step>)
    requires Inv(a) && Inv(b) && Alike(a, b)
    ensures Output(a, steps) == Output(b, steps)
    decreases |steps|
  {
    if steps != [] {
      AlikeStep(a, b, steps[0]);
      NextKeeps(a, steps[0]);
      NextKeeps(b, steps[0]);
      AlikeOutput(Next(a, steps[0]), Next(b, steps[0]), steps[1..]);
    }
  }

  /** The globals are reinitialised, and the threads recreated, only while no thread of an earlier call is live. */
  lemma ReinitialisedAtRest(schedule: seq<Step>)
    ensures var m := After(schedule); m.cpc.Idle? || m.cpc.Setup? ==> NoThreadLive(m)
  {
    Reachable(schedule);
  }

  /**
    What a call of `nop_timing_start` logs depends on its own steps alone: after any two
    histories that left the module idle, the same call under the same schedule appends
    the same records.
   */
  lemma CallIndependentOfHistory(before: seq<Step>, before': seq<Step>, plan: Plan, mem: bool, created: bool, steps: seq<Step>)
    requires After(before).cpc.Idle? && After(before').cpc.Idle?
    ensures var call := [Ctrl(Start(plan, mem), created)] + steps;
            var a, b := After(before), After(before');
            && Output(a, call) == Output(b, call)
            && Continue(a, call).log == a.log + Output(a, call)
            && Continue(b, call).log == b.log + Output(a, call)
  {
    var start := Ctrl(Start(plan, mem), created);
    var call := [start] + steps;
    var a, b := After(before), After(before');
    Reachable(before);
    Reachable(before');
    NextKeeps(a, start);
    NextKeeps(b, start);
    assert Alike(Next(a, start), Next(b, start));
    AlikeOutput(Next(a, start), Next(b, start), steps);
    assert call[0] == start && call[1..] == steps;
    LogIsOutput(a, call);
    LogIsOutput(b, call);
  }
}
