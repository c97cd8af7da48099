/**
  The NOP timer as three threads over shared globals: the NOP thread (`nop_f`), the INSTR
  thread (`instr_f`, `buffer_flush_instr_f` and the macros they expand), and the
  controller (`nop_timing_start`, called again and again). One step is one read or write
  of a shared variable, one log record, or one measured call; the order of the steps is a
  schedule, and nothing is assumed about it.
 */
module NopMachine {
  import opened Records

  /** Program points of `nop_f`. */
  datatype NopPc =
    | NopOff | StopTest | SignalTest | ResetTest | ClearCount | ClearReset
    | PrintTest | EmitCount | ClearPrint | Increment | NopExit | NopDead

  /** Program points of SUSPEND_INTERRUPTS, before and after the code it brackets. */
  datatype IrqPc = Save | Disable | Restore | Enable

  /** Program points of NOP_TIMING_LOOP. */
  datatype BodyPc =
    | CpuTest | RaiseReset | SpinReset | SpinResetStop | LoopTest | Call
    | PrintLabel | RaisePrint | SpinPrint | SpinPrintStop | PrintZero

  /** NOP_TIMING_LOOP has not reached its label, nor given up measuring. */
  predicate BeforeLabel(p: BodyPc) {
    !(p.PrintLabel? || p.RaisePrint? || p.SpinPrint? || p.SpinPrintStop? || p.PrintZero?)
  }

  /** Program points of the INSTR thread. */
  datatype InstrPc =
    | InstrOff | Banner | EntryHead | Bracket(irq: IrqPc) | Body(p: BodyPc)
    | SetFinish | InstrExit | InstrDead

  /** Program points of the controller before it wakes the threads. */
  datatype SetupPc = InitCount | InitReset | InitPrint | InitFinish | CreateNop | CreateInstr

  /** Program points of the controller; `Idle` is "no call of `nop_timing_start` is active". */
  datatype CtrlPc =
    | Idle | Setup(s: SetupPc) | WakeNop | WakeInstr | WaitFinish
    | StopNop | JoinNop | StopInstr | JoinInstr

  /** The globals of nop_timer.c, and what kthread_should_stop() answers to each thread. */
  datatype Globals = Globals(
    count: nat, resetCount: bool, printCount: bool, finish: bool, nopStop: bool, instrStop: bool)

  /** The INSTR thread: program point, current macro, loop iteration. */
  datatype InstrThread = InstrThread(pc: InstrPc, k: nat, i: nat)

  /** Interrupt state of the INSTR thread's CPU, and the word local_irq_save filled. */
  datatype Irq = Irq(on: bool, flags: bool)

  /** What one run measures, and whether vmem_aligned is non-zero during it. */
  datatype Job = Job(plan: Plan, mem: bool)

  datatype Machine = Machine(
    g: Globals, log: seq<Record>, npc: NopPc, t: InstrThread, irq: Irq, job: Job, cpc: CtrlPc)

  /** What an idle controller is asked next. */
  datatype Request = Start(plan: Plan, mem: bool) | Aside(rec: Record)

  /** A scheduled step together with everything its environment decides. */
  datatype Step =
    | Nop(kill: bool)                          // a SIGKILL is pending
    | Instr(online: bool)                      // at least two CPUs are online
    | Ctrl(request: Request, created: bool)    // both kthread_create calls succeeded

  function NextNop(m: Machine, kill: bool): Machine {
    match m.npc
    case NopOff => m
    case StopTest => m.(npc := if m.g.nopStop then NopExit else SignalTest)
    case SignalTest => m.(npc := if kill then NopExit else ResetTest)
    case ResetTest => m.(npc := if m.g.resetCount then ClearCount else PrintTest)
    case ClearCount => m.(g := m.g.(count := 0), npc := ClearReset)
    case ClearReset => m.(g := m.g.(resetCount := false), npc := PrintTest)
    case PrintTest => m.(npc := if m.g.printCount then EmitCount else Increment)
    case EmitCount => m.(log := m.log + [Value(m.g.count)], npc := ClearPrint)
    case ClearPrint => m.(g := m.g.(printCount := false), npc := Increment)
    case Increment => m.(g := m.g.(count := (m.g.count + 1) % U64), npc := StopTest)
    case NopExit => m.(npc := NopDead)
    case NopDead => m
  }

  /** The macro that the INSTR thread is executing. */
  function Current(m: Machine): Entry {
    if m.t.k < |m.job.plan.entries| then m.job.plan.entries[m.t.k] else Entry("", Plain, 0)
  }

  /** The INSTR thread moves to `pc` within its macro. */
  function Goto(m: Machine, pc: InstrPc): Machine {
    m.(t := m.t.(pc := pc))
  }

  /** The INSTR thread is done with its macro. */
  function Advance(m: Machine): Machine {
    m.(t := m.t.(pc := EntryHead, k := m.t.k + 1))
  }

  /** Leaving NOP_TIMING_LOOP: SUSPEND_INTERRUPTS still has its epilogue to run. */
  function Leave(m: Machine): Machine {
    if Current(m).gate.Suspended? then Goto(m, Bracket(Restore)) else Advance(m)
  }

  /** Where a macro's guards send the INSTR thread. */
  function Enter(m: Machine): Machine {
    if m.t.k >= |m.job.plan.entries| then Goto(m, SetFinish)
    else match Current(m).gate
      case Plain => Goto(m, Body(CpuTest))
      case Suspended => Goto(m, Bracket(Save))
      case Feature(present) => if present then Goto(m, Body(CpuTest)) else Advance(m)
      case Kmalloc => Goto(m, Body(if m.job.mem then CpuTest else PrintZero))
  }

  /** One step of NOP_TIMING_LOOP. */
  function NextBody(m: Machine, p: BodyPc, online: bool): Machine {
    match p
    case CpuTest => Goto(m, Body(if online then RaiseReset else PrintZero))
    case RaiseReset => Goto(m, Body(SpinReset)).(g := m.g.(resetCount := true))
    case SpinReset =>
      if m.g.resetCount then Goto(m, Body(SpinResetStop)) else m.(t := m.t.(pc := Body(LoopTest), i := 0))
    case SpinResetStop =>
      if m.g.instrStop then m.(t := m.t.(pc := Body(LoopTest), i := 0)) else Goto(m, Body(SpinReset))
    case LoopTest => Goto(m, Body(if m.t.i < Current(m).iterations then Call else PrintLabel))
    case Call => m.(t := m.t.(pc := Body(LoopTest), i := m.t.i + 1))
    case PrintLabel => Goto(m, Body(RaisePrint)).(log := m.log + [Label(Current(m).name)])
    case RaisePrint => Goto(m, Body(SpinPrint)).(g := m.g.(printCount := true))
    case SpinPrint => if m.g.printCount then Goto(m, Body(SpinPrintStop)) else Leave(m)
    case SpinPrintStop => if m.g.instrStop then Leave(m) else Goto(m, Body(SpinPrint))
    case PrintZero => Leave(m.(log := m.log + [Zero(Current(m).name)]))
  }

  /** One step of SUSPEND_INTERRUPTS outside the code it brackets. */
  function NextBracket(m: Machine, q: IrqPc): Machine {
    match q
    case Save => Goto(m, Bracket(Disable)).(irq := Irq(false, m.irq.on))
    case Disable => Goto(m, Body(CpuTest)).(irq := m.irq.(on := false))
    case Restore => Goto(m, Bracket(Enable)).(irq := m.irq.(on := m.irq.flags))
    case Enable => Advance(m).(irq := m.irq.(on := true))
  }

  function NextInstr(m: Machine, online: bool): Machine {
    match m.t.pc
    case InstrOff => m
    case Banner => Goto(m, EntryHead).(log := m.log + [Note(m.job.plan.banner)])
    case EntryHead => Enter(m)
    case Bracket(q) => NextBracket(m, q)
    case Body(p) => NextBody(m, p, online)
    case SetFinish => Goto(m, InstrExit).(g := m.g.(finish := true))
    case InstrExit => Goto(m, InstrDead)
    case InstrDead => m
  }

  /** What an idle controller does with a request. */
  function Serve(m: Machine, request: Request): Machine {
    match request
    case Start(plan, mem) => m.(job := Job(plan, mem), t := m.t.(k := 0, i := 0), cpc := Setup(InitCount))
    case Aside(rec) => if Foreign(rec) then m.(log := m.log + [rec]) else m
  }

  function NextSetup(m: Machine, s: SetupPc, created: bool): Machine {
    match s
    case InitCount => m.(g := m.g.(count := 0), cpc := Setup(InitReset))
    case InitReset => m.(g := m.g.(resetCount := false), cpc := Setup(InitPrint))
    case InitPrint => m.(g := m.g.(printCount := false), cpc := Setup(InitFinish))
    case InitFinish => m.(g := m.g.(finish := false), cpc := Setup(CreateNop))
    case CreateNop => m.(g := m.g.(nopStop := false), npc := NopOff, cpc := Setup(CreateInstr))
    case CreateInstr =>
      Goto(m, InstrOff).(g := m.g.(instrStop := false), cpc := if created then WakeNop else WaitFinish)
  }

  function NextCtrl(m: Machine, request: Request, created: bool): Machine {
    match m.cpc
    case Idle => Serve(m, request)
    case Setup(s) => NextSetup(m, s, created)
    case WakeNop => m.(npc := StopTest, cpc := WakeInstr)
    case WakeInstr => Goto(m, Banner).(cpc := WaitFinish)
    case WaitFinish => if m.g.finish then m.(cpc := StopNop) else m
    case StopNop => m.(g := m.g.(nopStop := true), cpc := JoinNop)
    case JoinNop => if m.npc.NopDead? then m.(cpc := StopInstr) else m
    case StopInstr => m.(g := m.g.(instrStop := true), cpc := JoinInstr)
    case JoinInstr => if m.t.pc.InstrDead? then m.(cpc := Idle) else m
  }

  /** One scheduled step of the whole machine. */
  function Next(m: Machine, s: Step): Machine {
    match s
    case Nop(kill) => NextNop(m, kill)
    case Instr(online) => NextInstr(m, online)
    case Ctrl(request, created) => NextCtrl(m, request, created)
  }

  /** The module has just been inserted: globals are zero and no thread exists. */
  const INSERTED := Note("Inserting ECR kernel object")

  function Initial(): Machine {
    Machine(Globals(0, false, false, false, false, false), [INSERTED], NopOff, InstrThread(InstrOff, 0, 0),
            Irq(true, true), Job(Plan("", []), false), Idle)
  }

  /** The machine after a finite schedule. */
  function After(schedule: seq<Step>): Machine {
    if schedule == [] then Initial()
    else Next(After(schedule[..|schedule| - 1]), schedule[|schedule| - 1])
  }

  /**
    The same machine as the source has it: globals and thread positions that the three
    threads update in place, one statement at a time.
   */
  class NopTimer {
    var count: nat
    var resetCount: bool
    var printCount: bool
    var finish: bool
    var nopStop: bool
    var instrStop: bool
    var irqOn: bool
    var flags: bool
    var log: seq<Record>
    var plan: Plan
    var mem: bool
    var k: nat
    var i: nat
    var npc: NopPc
    var ipc: InstrPc
    var cpc: CtrlPc

    function View(): Machine
      reads this
    {
      Machine(Globals(count, resetCount, printCount, finish, nopStop, instrStop), log, npc,
              InstrThread(ipc, k, i), Irq(irqOn, flags), Job(plan, mem), cpc)
    }

    constructor ()
      ensures View() == Initial()
    {
      count, resetCount, printCount, finish := 0, false, false, false;
      nopStop, instrStop, irqOn, flags := false, false, true, true;
      log, plan, mem := [INSERTED], Plan("", []), false;
      k, i, npc, ipc, cpc := 0, 0, NopOff, InstrOff, Idle;
    }

    /** One step of `nop_f`. */
    method NopStep(kill: bool)
      modifies this`count, this`resetCount, this`printCount, this`log, this`npc
      ensures View() == NextNop(old(View()), kill)
    {
      match npc
      case NopOff =>
      case StopTest => npc := if nopStop then NopExit else SignalTest;
      case SignalTest => npc := if kill then NopExit else ResetTest;
      case ResetTest => npc := if resetCount then ClearCount else PrintTest;
      case ClearCount => count, npc := 0, ClearReset;
      case ClearReset => resetCount, npc := false, PrintTest;
      case PrintTest => npc := if printCount then EmitCount else Increment;
      case EmitCount => log, npc := log + [Value(count)], ClearPrint;
      case ClearPrint => printCount, npc := false, Increment;
      case Increment => count, npc := (count + 1) % U64, StopTest;
      case NopExit => npc := NopDead;
      case NopDead =>
    }

    method LeaveMacro()
      modifies this`k, this`ipc
      ensures View() == Leave(old(View()))
    {
      if Current(View()).gate.Suspended? {
        ipc := Bracket(Restore);
      } else {
        k, ipc := k + 1, EntryHead;
      }
    }

    method EnterMacro()
      requires ipc.EntryHead?
      modifies this`k, this`ipc
      ensures View() == Enter(old(View()))
    {
      if k >= |plan.entries| {
        ipc := SetFinish;
      } else {
        match plan.entries[k].gate
        case Plain => ipc := Body(CpuTest);
        case Suspended => ipc := Bracket(Save);
        case Feature(present) => if present { ipc := Body(CpuTest); } else { k := k + 1; }
        case Kmalloc => ipc := Body(if mem then CpuTest else PrintZero);
      }
    }

    /** One step of NOP_TIMING_LOOP before its label is printed. */
    method MeasureStep(online: bool)
      requires ipc.Body? && BeforeLabel(ipc.p)
      modifies this`resetCount, this`i, this`ipc
      ensures View() == NextBody(old(View()), old(ipc).p, online)
    {
      match ipc.p
      case CpuTest => ipc := Body(if online then RaiseReset else PrintZero);
      case RaiseReset => resetCount, ipc := true, Body(SpinReset);
      case SpinReset => if resetCount { ipc := Body(SpinResetStop); } else { i, ipc := 0, Body(LoopTest); }
      case SpinResetStop => if instrStop { i, ipc := 0, Body(LoopTest); } else { ipc := Body(SpinReset); }
      case LoopTest => ipc := Body(if i < Current(View()).iterations then Call else PrintLabel);
      case Call => i, ipc := i + 1, Body(LoopTest);
    }

    /** One step of NOP_TIMING_LOOP from its label on. */
    method ReportStep()
      requires ipc.Body? && !BeforeLabel(ipc.p)
      modifies this`printCount, this`log, this`k, this`ipc
      ensures forall online :: View() == NextBody(old(View()), old(ipc).p, online)
    {
      match ipc.p
      case PrintLabel => log, ipc := log + [Label(Current(View()).name)], Body(RaisePrint);
      case RaisePrint => printCount, ipc := true, Body(SpinPrint);
      case SpinPrint => if printCount { ipc := Body(SpinPrintStop); } else { LeaveMacro(); }
      case SpinPrintStop => if instrStop { LeaveMacro(); } else { ipc := Body(SpinPrint); }
      case PrintZero => log := log + [Zero(Current(View()).name)]; LeaveMacro();
    }

    /** One step of SUSPEND_INTERRUPTS outside the code it brackets. */
    method BracketStep()
      requires ipc.Bracket?
      modifies this`irqOn, this`flags, this`k, this`ipc
      ensures View() == NextBracket(old(View()), old(ipc).irq)
    {
      match ipc.irq
      case Save => flags, irqOn, ipc := irqOn, false, Bracket(Disable);
      case Disable => irqOn, ipc := false, Body(CpuTest);
      case Restore => irqOn, ipc := flags, Bracket(Enable);
      case Enable => irqOn, k, ipc := true, k + 1, EntryHead;
    }

    /** One step of the INSTR thread. */
    method InstrStep(online: bool)
      modifies this`resetCount, this`printCount, this`finish, this`irqOn, this`flags, this`log, this`k, this`i, this`ipc
      ensures View() == NextInstr(old(View()), online)
    {
      match ipc
      case InstrOff =>
      case Banner => log, ipc := log + [Note(plan.banner)], EntryHead;
      case EntryHead => EnterMacro();
      case Bracket(_) => BracketStep();
      case Body(p) =>
        if BeforeLabel(p) {
          MeasureStep(online);
        } else {
          ReportStep();
        }
      case SetFinish => finish, ipc := true, InstrExit;
      case InstrExit => ipc := InstrDead;
      case InstrDead =>
    }

    /** One of the four assignments that open `nop_timing_start`. */
    method ReinitStep()
      requires cpc.Setup? && !cpc.s.CreateNop? && !cpc.s.CreateInstr?
      modifies this`count, this`resetCount, this`printCount, this`finish, this`cpc
      ensures forall created :: View() == NextSetup(old(View()), old(cpc).s, created)
    {
      match cpc.s
      case InitCount => count, cpc := 0, Setup(InitReset);
      case InitReset => resetCount, cpc := false, Setup(InitPrint);
      case InitPrint => printCount, cpc := false, Setup(InitFinish);
      case InitFinish => finish, cpc := false, Setup(CreateNop);
    }

    /** One statement of `nop_timing_start` before the threads are woken. */
    method SetupStep(created: bool)
      requires cpc.Setup?
      modifies this`count, this`resetCount, this`printCount, this`finish, this`nopStop, this`instrStop, this`npc, this`ipc, this`cpc
      ensures View() == NextSetup(old(View()), old(cpc).s, created)
    {
      if cpc.s.CreateNop? {
        nopStop, npc, cpc := false, NopOff, Setup(CreateInstr);
      } else if cpc.s.CreateInstr? {
        instrStop, ipc := false, InstrOff;
        cpc := if created then WakeNop else WaitFinish;
      } else {
        ReinitStep();
      }
    }

    /** The module between two calls of `nop_timing_start`. */
    method IdleStep(request: Request)
      requires cpc.Idle?
      modifies this`log, this`plan, this`mem, this`k, this`i, this`cpc
      ensures View() == Serve(old(View()), request)
    {
      match request
      case Start(p, b) => plan, mem, k, i, cpc := p, b, 0, 0, Setup(InitCount);
      case Aside(rec) => if Foreign(rec) { log := log + [rec]; }
    }

    /** One step of `nop_timing_start`, or of the module between two calls of it. */
    method CtrlStep(request: Request, created: bool)
      modifies this
      ensures View() == NextCtrl(old(View()), request, created)
    {
      match cpc
      case Idle => IdleStep(request);
      case Setup(_) => SetupStep(created);
      case WakeNop => npc, cpc := StopTest, WakeInstr;
      case WakeInstr => ipc, cpc := Banner, WaitFinish;
      case WaitFinish => if finish { cpc := StopNop; }
      case StopNop => nopStop, cpc := true, JoinNop;
      case JoinNop => if npc.NopDead? { cpc := StopInstr; }
      case StopInstr => instrStop, cpc := true, JoinInstr;
      case JoinInstr => if ipc.InstrDead? { cpc := Idle; }
    }

    /** Runs the three threads as `schedule` interleaves them. */
    method Run(schedule: seq<Step>)
      requires View() == Initial()
      modifies this
      ensures View() == After(schedule)
    {
      for n := 0 to |schedule|
        invariant View() == After(schedule[..n])
      {
        assert schedule[..n + 1][..n] == schedule[..n];
        match schedule[n] {
          case Nop(kill) => NopStep(kill);
          case Instr(online) => InstrStep(online);
          case Ctrl(request, created) => CtrlStep(request, created);
        }
      }
      assert schedule[..|schedule|] == schedule;
    }
  }
}
