/**
  When a call of `nop_timing_start` returns. Under fair scheduling it does unless it gets
  stuck: its threads were not created, or its NOP thread was killed with a request to serve.
 */
module Progress {
  import opened Records
  import opened NopMachine
  import opened Handshake

  datatype Actor = Nopper | Instructor | Controller

  predicate By(s: Step, a: Actor) {
    match a
    case Nopper => s.Nop?
    case Instructor => s.Instr?
    case Controller => s.Ctrl?
  }

  /** The environment kills nothing, and thread creation succeeds. */
  predicate Calm(s: Step) {
    (s.Nop? ==> !s.kill) && (s.Ctrl? ==> s.created)
  }

  /** INSTR spins on a request that has not been served. */
  predicate Blocked(m: Machine) {
    (AtResetSpin(m) && m.g.resetCount) || (AtPrintSpin(m) && m.g.printCount)
  }

  /** The NOP thread has left its loop. */
  predicate NopGone(m: Machine) {
    m.npc.NopExit? || m.npc.NopDead?
  }

  /** INSTR waits for a NOP thread that has been killed, or the threads were never woken. */
  predicate Stuck(m: Machine) {
    && m.cpc.WaitFinish? && !m.g.finish
    && (m.t.pc.InstrOff? || (Blocked(m) && NopGone(m)))
  }

  /** A call is in progress and not stuck. */
  predicate Live(m: Machine) {
    Inv(m) && !m.cpc.Idle? && !Stuck(m)
  }

  /** The thread whose next step brings the call closer to its end. */
  function Helpful(m: Machine): Actor {
    if m.cpc.WaitFinish? && !m.g.finish then (if Blocked(m) then Nopper else Instructor)
    else if m.cpc.JoinNop? && !m.npc.NopDead? then Nopper
    else if m.cpc.JoinInstr? && !m.t.pc.InstrDead? then Instructor
    else Controller
  }

  // ---- The measure: controller position, INSTR's remaining work, NOP's distance ----

  function CtrlLeft(c: CtrlPc): nat {
    match c
    case Idle => 0
    case JoinInstr => 1
    case StopInstr => 2
    case JoinNop => 3
    case StopNop => 4
    case WaitFinish => 5
    case WakeInstr => 6
    case WakeNop => 7
    case Setup(s) =>
      match s
      case CreateInstr => 8
      case CreateNop => 9
      case InitFinish => 10
      case InitPrint => 11
      case InitReset => 12
      case InitCount => 13
  }

  /** Steps that INSTR needs for the entries from `k` on, not counting its spins. */
  function EntriesLeft(entries: seq<Entry>, k: nat): nat
    decreases |entries| - k
  {
    if k >= |entries| then 0 else 2 * entries[k].iterations + 20 + EntriesLeft(entries, k + 1)
  }

  function BodyLeft(p: BodyPc, iterations: nat, i: nat): nat {
    var rest := if i <= iterations then iterations - i else 0;
    match p
    case CpuTest => 2 * iterations + 12
    case RaiseReset => 2 * iterations + 11
    case SpinReset => 2 * iterations + 10
    case SpinResetStop => 2 * iterations + 10
    case LoopTest => 2 * rest + 8
    case Call => 2 * rest + 7
    case PrintLabel => 7
    case RaisePrint => 6
    case SpinPrint => 5
    case SpinPrintStop => 5
    case PrintZero => 5
  }

  function IrqLeft(q: IrqPc, iterations: nat): nat {
    match q
    case Save => 2 * iterations + 14
    case Disable => 2 * iterations + 13
    case Restore => 2
    case Enable => 1
  }

  function WorkLeft(m: Machine): nat {
    var entries, k := m.job.plan.entries, m.t.k;
    match m.t.pc
    case InstrOff => 0
    case Banner => EntriesLeft(entries, k) + 5
    case EntryHead => EntriesLeft(entries, k) + 4
    case Bracket(q) => EntriesLeft(entries, k + 1) + 4 + IrqLeft(q, Current(m).iterations)
    case Body(p) => EntriesLeft(entries, k + 1) + 4 + BodyLeft(p, Current(m).iterations, m.t.i)
    case SetFinish => 2
    case InstrExit => 1
    case InstrDead => 0
  }

  /** NOP steps until the reset, the print, or the exit that is being waited for. */
  function ToReset(n: NopPc): nat {
    match n
    case ClearReset => 1
    case ClearCount => 2
    case ResetTest => 3
    case SignalTest => 4
    case StopTest => 5
    case Increment => 6
    case _ => 7
  }

  function ToPrint(n: NopPc): nat {
    match n
    case ClearPrint => 1
    case EmitCount => 2
    case PrintTest => 3
    case ResetTest => 4
    case SignalTest => 5
    case StopTest => 6
    case _ => 7
  }

  function ToExit(n: NopPc): nat {
    match n
    case NopDead => 0
    case NopExit => 1
    case StopTest => 2
    case Increment => 3
    case PrintTest => 4
    case ResetTest => 5
    case SignalTest => 6
    case _ => 7
  }

  function Distance(m: Machine): nat {
    if AtResetSpin(m) && m.g.resetCount then 1 + ToReset(m.npc)
    else if AtPrintSpin(m) && m.g.printCount then 1 + ToPrint(m.npc)
    else if m.t.pc == Body(SpinResetStop) || m.t.pc == Body(SpinPrintStop) then 1
    else if m.cpc.JoinNop? then ToExit(m.npc)
    else 0
  }

  /** The machine has moved down the measure. */
  predicate Closer(m: Machine, n: Machine) {
    || CtrlLeft(n.cpc) < CtrlLeft(m.cpc)
    || (CtrlLeft(n.cpc) == CtrlLeft(m.cpc) && WorkLeft(n) < WorkLeft(m))
    || (CtrlLeft(n.cpc) == CtrlLeft(m.cpc) && WorkLeft(n) == WorkLeft(m) && Distance(n) < Distance(m))
  }

  /** The machine stands where it did, and waits for the same thread. */
  predicate Waits(m: Machine, n: Machine) {
    && CtrlLeft(n.cpc) == CtrlLeft(m.cpc) && WorkLeft(n) == WorkLeft(m) && Distance(n) == Distance(m)
    && Helpful(n) == Helpful(m)
  }

  lemma ResetCloser(m: Machine, kill: bool)
    requires Live(m) && AtResetSpin(m) && m.g.resetCount
    ensures Stuck(NextNop(m, kill)) || Closer(m, NextNop(m, kill))
  {
  }

  lemma PrintCloser(m: Machine, kill: bool)
    requires Live(m) && AtPrintSpin(m) && m.g.printCount
    ensures Stuck(NextNop(m, kill)) || Closer(m, NextNop(m, kill))
  {
  }

  lemma ExitCloser(m: Machine, kill: bool)
    requires Live(m) && m.cpc.JoinNop? && !m.npc.NopDead?
    ensures Closer(m, NextNop(m, kill))
  {
  }

  lemma NopCloser(m: Machine, kill: bool)
    requires Live(m) && Helpful(m).Nopper?
    ensures Stuck(NextNop(m, kill)) || Closer(m, NextNop(m, kill))
  {
    if AtResetSpin(m) && m.g.resetCount {
      ResetCloser(m, kill);
    } else if AtPrintSpin(m) && m.g.printCount {
      PrintCloser(m, kill);
    } else {
      ExitCloser(m, kill);
    }
  }

  /** The NOP thread leaves alone what the measure looks at, other than its own distance. */
  lemma NopFrames(m: Machine, kill: bool)
    requires Inv(m) && !Blocked(m)
    ensures var n := NextNop(m, kill);
            n.cpc == m.cpc && n.t == m.t && n.job == m.job && n.g.finish == m.g.finish && WorkLeft(n) == WorkLeft(m) && !Blocked(n)
  {
  }

  lemma NopWaits(m: Machine, kill: bool)
    requires Live(m) && !Helpful(m).Nopper?
    ensures Waits(m, NextNop(m, kill))
  {
    assert !Blocked(m);
    NopFrames(m, kill);
  }

  lemma MeasureCloser(m: Machine, online: bool)
    requires Inv(m) && m.t.pc.Body? && BeforeLabel(m.t.pc.p) && !Blocked(m)
    ensures Closer(m, NextInstr(m, online))
  {
  }

  lemma ReportCloser(m: Machine, online: bool)
    requires Inv(m) && m.t.pc.Body? && !BeforeLabel(m.t.pc.p) && !Blocked(m)
    ensures Closer(m, NextInstr(m, online))
  {
  }

  lemma ResetSpinWaits(m: Machine, online: bool)
    requires Live(m) && AtResetSpin(m) && m.g.resetCount
    ensures Waits(m, NextInstr(m, online))
  {
  }

  lemma PrintSpinWaits(m: Machine, online: bool)
    requires Live(m) && AtPrintSpin(m) && m.g.printCount
    ensures Waits(m, NextInstr(m, online))
  {
  }

  lemma InstrCloser(m: Machine, online: bool)
    requires Inv(m) && !m.t.pc.InstrOff? && !m.t.pc.InstrDead? && !m.t.pc.Body?
    ensures Closer(m, NextInstr(m, online))
  {
  }

  lemma InstrProgress(m: Machine, online: bool)
    requires Live(m)
    ensures Helpful(m).Instructor? ==> Closer(m, NextInstr(m, online))
    ensures Closer(m, NextInstr(m, online)) || Waits(m, NextInstr(m, online))
  {
    if m.t.pc.InstrOff? || m.t.pc.InstrDead? {
      assert NextInstr(m, online) == m;
    } else if Blocked(m) {
      if AtResetSpin(m) {
        ResetSpinWaits(m, online);
      } else {
        PrintSpinWaits(m, online);
      }
    } else if m.t.pc.Body? {
      if BeforeLabel(m.t.pc.p) {
        MeasureCloser(m, online);
      } else {
        ReportCloser(m, online);
      }
    } else {
      InstrCloser(m, online);
    }
  }

  lemma CtrlProgress(m: Machine, request: Request, created: bool)
    requires Live(m)
    ensures var n := NextCtrl(m, request, created);
            && (Helpful(m).Controller? ==> Stuck(n) || Closer(m, n))
            && (Stuck(n) || Closer(m, n) || Waits(m, n))
  {
  }

  /** Whatever the environment decides, each step makes progress, waits, or gets the call stuck. */
  lemma StepProgress(m: Machine, s: Step)
    requires Live(m)
    ensures By(s, Helpful(m)) ==> Stuck(Next(m, s)) || Closer(m, Next(m, s))
    ensures Stuck(Next(m, s)) || Closer(m, Next(m, s)) || Waits(m, Next(m, s))
  {
    match s
    case Nop(kill) =>
      if Helpful(m).Nopper? {
        NopCloser(m, kill);
      } else {
        NopWaits(m, kill);
      }
    case Instr(online) => InstrProgress(m, online);
    case Ctrl(request, created) => CtrlProgress(m, request, created);
  }

  // ---- Infinite fair runs ----

  ghost predicate IsRun(run: nat -> Machine, schedule: nat -> Step) {
    forall n: nat :: run(n + 1) == Next(run(n), schedule(n))
  }

  /** `m` is a later moment at which thread `a` is scheduled. */
  ghost predicate Scheduled(schedule: nat -> Step, a: Actor, n: nat, m: nat) {
    n <= m && By(schedule(m), a)
  }

  ghost predicate ScheduledFrom(schedule: nat -> Step, a: Actor, n: nat) {
    exists m: nat :: Scheduled(schedule, a, n, m)
  }

  /** Each thread is scheduled again and again. Nothing bounds how long it may have to wait. */
  ghost predicate Fair(schedule: nat -> Step) {
    forall a: Actor, n: nat :: ScheduledFrom(schedule, a, n)
  }

  lemma NextScheduled(schedule: nat -> Step, a: Actor, n: nat) returns (m: nat)
    requires Fair(schedule)
    ensures Scheduled(schedule, a, n, m)
  {
    assert ScheduledFrom(schedule, a, n);
    m :| Scheduled(schedule, a, n, m);
  }

  /** One step of a run in which the awaited thread is next scheduled at `m`. */
  lemma RunStep(run: nat -> Machine, schedule: nat -> Step, n: nat, m: nat)
    requires IsRun(run, schedule) && Live(run(n)) && Scheduled(schedule, Helpful(run(n)), n, m)
    ensures Inv(run(n + 1))
    ensures Stuck(run(n + 1)) || Closer(run(n), run(n + 1))
            || (n < m && Waits(run(n), run(n + 1)) && Scheduled(schedule, Helpful(run(n + 1)), n + 1, m))
  {
    assert run(n + 1) == Next(run(n), schedule(n));
    NextKeeps(run(n), schedule(n));
    StepProgress(run(n), schedule(n));
  }

  /**
    From moment `n`, with the awaited thread next scheduled at `m`, the controller becomes
    idle or the call gets stuck.
   */
  lemma {:induction false} ReturnsOrSticks(run: nat -> Machine, schedule: nat -> Step, n: nat, m: nat) returns (e: nat)
    requires IsRun(run, schedule) && Fair(schedule) && Inv(run(n)) && Scheduled(schedule, Helpful(run(n)), n, m)
    ensures n <= e && (run(e).cpc.Idle? || Stuck(run(e))) && forall i: nat :: n <= i < e ==> !run(i).cpc.Idle?
    decreases CtrlLeft(run(n).cpc), WorkLeft(run(n)), Distance(run(n)), m - n
  {
    if run(n).cpc.Idle? || Stuck(run(n)) {
      e := n;
    } else {
      RunStep(run, schedule, n, m);
      if Stuck(run(n + 1)) {
        e := n + 1;
      } else if Closer(run(n), run(n + 1)) {
        var m' := NextScheduled(schedule, Helpful(run(n + 1)), n + 1);
        e := ReturnsOrSticks(run, schedule, n + 1, m');
      } else {
        e := ReturnsOrSticks(run, schedule, n + 1, m);
      }
    }
  }

  lemma StuckStep(m: Machine, s: Step)
    requires Inv(m) && Stuck(m)
    ensures Stuck(Next(m, s))
  {
  }

  lemma {:induction false} RunKeepsInv(run: nat -> Machine, schedule: nat -> Step, n: nat)
    requires IsRun(run, schedule) && Inv(run(0))
    ensures Inv(run(n))
  {
    if n > 0 {
      RunKeepsInv(run, schedule, n - 1);
      assert run(n - 1 + 1) == Next(run(n - 1), schedule(n - 1));
      NextKeeps(run(n - 1), schedule(n - 1));
    }
  }

  lemma {:induction false} StuckRun(run: nat -> Machine, schedule: nat -> Step, e: nat, n: nat)
    requires IsRun(run, schedule) && Inv(run(0)) && Stuck(run(e)) && e <= n
    ensures Stuck(run(n))
    decreases n
  {
    if e < n {
      StuckRun(run, schedule, e, n - 1);
      RunKeepsInv(run, schedule, n - 1);
      assert run(n - 1 + 1) == Next(run(n - 1), schedule(n - 1));
      StuckStep(run(n - 1), schedule(n - 1));
    }
  }

  /** The call active at the start of the run returns. */
  ghost predicate Returns(run: nat -> Machine) {
    exists e: nat :: run(e).cpc.Idle?
  }

  /** The call active at the start of the run gets stuck before it returns. */
  ghost predicate Sticks(run: nat -> Machine) {
    exists e: nat :: Stuck(run(e)) && forall i: nat :: i <= e ==> !run(i).cpc.Idle?
  }

  lemma FairRunReturnsIff(run: nat -> Machine, schedule: nat -> Step)
    requires IsRun(run, schedule) && Fair(schedule) && Inv(run(0))
    ensures Returns(run) <==> !Sticks(run)
  {
    var m := NextScheduled(schedule, Helpful(run(0)), 0);
    var r := ReturnsOrSticks(run, schedule, 0, m);
    if Sticks(run) {
      var e: nat :| Stuck(run(e)) && forall i: nat :: i <= e ==> !run(i).cpc.Idle?;
      forall i: nat ensures !run(i).cpc.Idle? {
        if e < i {
          StuckRun(run, schedule, e, i);
        }
      }
    }
  }

  /**
    A call of `nop_timing_start` returns exactly if it never gets stuck: after any history,
    for any plan, any results of the CPU tests, any kill signals and any outcome of the
    creation of its threads, as long as all three threads are scheduled fairly.
   */
  lemma CallReturnsIffNeverStuck(before: seq<Step>, plan: Plan, mem: bool, created: bool, run: nat -> Machine, schedule: nat -> Step)
    requires After(before).cpc.Idle?
    requires run(0) == Next(After(before), Ctrl(Start(plan, mem), created))
    requires IsRun(run, schedule) && Fair(schedule)
    ensures Returns(run) <==> !Sticks(run)
  {
    Reachable(before);
    NextKeeps(After(before), Ctrl(Start(plan, mem), created));
    FairRunReturnsIff(run, schedule);
  }

  // ---- Calls that nothing disturbs ----

  /** Both threads were created, and the NOP thread runs until it is asked to stop. */
  predicate Healthy(m: Machine) {
    && Inv(m)
    && !(m.cpc.WaitFinish? && m.t.pc.InstrOff?)
    && (m.cpc.WakeInstr? || m.cpc.WaitFinish? || m.cpc.StopNop? ==> !NopGone(m))
  }

  lemma HealthyKept(m: Machine, s: Step)
    requires Healthy(m) && Calm(s)
    ensures Healthy(Next(m, s))
  {
    NextKeeps(m, s);
  }

  lemma {:induction false} CalmRunIsHealthy(run: nat -> Machine, schedule: nat -> Step, n: nat)
    requires IsRun(run, schedule) && Healthy(run(0)) && forall i: nat :: Calm(schedule(i))
    ensures Healthy(run(n))
  {
    if n > 0 {
      CalmRunIsHealthy(run, schedule, n - 1);
      assert run(n - 1 + 1) == Next(run(n - 1), schedule(n - 1));
      HealthyKept(run(n - 1), schedule(n - 1));
    }
  }

  /** In particular every call returns if its threads are created and no kill signal arrives. */
  lemma CallReturns(before: seq<Step>, plan: Plan, mem: bool, run: nat -> Machine, schedule: nat -> Step)
    requires After(before).cpc.Idle?
    requires run(0) == Next(After(before), Ctrl(Start(plan, mem), true))
    requires IsRun(run, schedule) && Fair(schedule) && forall i: nat :: Calm(schedule(i))
    ensures Returns(run)
  {
    CallReturnsIffNeverStuck(before, plan, mem, true, run, schedule);
    Reachable(before);
    HealthyKept(After(before), Ctrl(Start(plan, mem), true));
    if Sticks(run) {
      var e: nat :| Stuck(run(e)) && forall i: nat :: i <= e ==> !run(i).cpc.Idle?;
      CalmRunIsHealthy(run, schedule, e);
      assert false;
    }
  }

  // ---- How long one spin can last ----

  function NopSteps(steps: seq<Step>): nat {
    if steps == [] then 0 else (if steps[0].Nop? then 1 else 0) + NopSteps(steps[1..])
  }

  /** No kill signal is pending. */
  predicate Unkilled(s: Step) { s.Nop? ==> !s.kill }

  lemma BlockedStep(m: Machine, s: Step)
    requires Inv(m) && Blocked(m) && !NopGone(m) && Unkilled(s)
    ensures var n := Next(m, s);
            !Blocked(n) || (!NopGone(n) && if s.Nop? then Distance(n) < Distance(m) else Distance(n) == Distance(m))
  {
  }

  lemma {:induction false} ServedWithin(m: Machine, steps: seq<Step>) returns (p: nat)
    requires Inv(m) && Blocked(m) && !NopGone(m) && forall i :: 0 <= i < |steps| ==> Unkilled(steps[i])
    requires NopSteps(steps) >= Distance(m) - 1
    ensures p <= |steps| && !Blocked(Continue(m, steps[..p]))
    decreases |steps|
  {
    assert Distance(m) >= 2;
    var n := Next(m, steps[0]);
    NextKeeps(m, steps[0]);
    BlockedStep(m, steps[0]);
    if Blocked(n) {
      p := ServedWithin(n, steps[1..]);
      p := p + 1;
      assert steps[..p][1..] == steps[1..][..p - 1];
    } else {
      p := 1;
      assert Continue(m, steps[..1]) == Continue(n, steps[..1][1..]);
    }
  }

  /**
    A spin ends within seven steps of a NOP thread that is not killed (a pass of its loop
    that serves nothing takes five), whatever the other threads do meanwhile and whatever
    happened before.
   */
  lemma SpinServedWithinTwoPasses(before: seq<Step>, steps: seq<Step>) returns (p: nat)
    requires Blocked(After(before)) && !NopGone(After(before))
    requires forall i :: 0 <= i < |steps| ==> Unkilled(steps[i])
    requires NopSteps(steps) >= 7
    ensures p <= |steps| && !Blocked(Continue(After(before), steps[..p]))
  {
    Reachable(before);
    p := ServedWithin(After(before), steps);
  }

  // ---- What a kill signal does ----

  /** Some entry from `k` on will be measured, unless its CPU test fails. */
  predicate AvailableFrom(job: Job, k: nat) {
    exists j :: k <= j < |job.plan.entries| && Available(job.plan.entries[j], job.mem)
  }

  /** INSTR is on its way to a request, unless a CPU test fails, or waits for one to be served. */
  predicate NeedsNop(m: Machine) {
    match m.t.pc
    case InstrOff => AvailableFrom(m.job, m.t.k)
    case Banner => AvailableFrom(m.job, m.t.k)
    case EntryHead => AvailableFrom(m.job, m.t.k)
    case Bracket(q) => q.Save? || q.Disable? || AvailableFrom(m.job, m.t.k + 1)
    case Body(p) =>
      BeforeLabel(p) || p.PrintLabel? || p.RaisePrint? || (AtPrintSpin(m) && m.g.printCount) || AvailableFrom(m.job, m.t.k + 1)
    case _ => false
  }

  /** The NOP thread has left its loop during the current call. */
  predicate Killed(m: Machine) {
    Inv(m) && NopGone(m) && !m.cpc.Idle? && !m.cpc.Setup? && !m.cpc.WakeNop?
  }

  lemma KilledStep(m: Machine, s: Step)
    requires Killed(m) && !Next(m, s).cpc.Idle?
    ensures Killed(Next(m, s))
  {
    NextKeeps(m, s);
  }

  lemma NeedStepEntry(m: Machine, online: bool)
    requires Inv(m) && m.t.pc.EntryHead?
    ensures NeedsNop(NextInstr(m, online)) <==> NeedsNop(m)
  {
  }

  lemma NeedStepBody(m: Machine, online: bool)
    requires Inv(m) && m.t.pc.Body?
    ensures NeedsNop(NextInstr(m, online)) ==> NeedsNop(m)
    ensures (m.t.pc.p.CpuTest? ==> online) ==> (NeedsNop(NextInstr(m, online)) <==> NeedsNop(m))
  {
  }

  /** The CPUs are online when INSTR counts them. */
  predicate CpusOnline(m: Machine, s: Step) {
    s.Instr? && m.t.pc == Body(CpuTest) ==> s.online
  }

  /** After a kill, only a failed CPU test changes whether INSTR still needs the NOP thread. */
  lemma NeedStep(m: Machine, s: Step)
    requires Killed(m) && !Next(m, s).cpc.Idle?
    ensures NeedsNop(Next(m, s)) ==> NeedsNop(m)
    ensures CpusOnline(m, s) ==> (NeedsNop(Next(m, s)) <==> NeedsNop(m))
  {
    if s.Instr? && m.t.pc.EntryHead? {
      NeedStepEntry(m, s.online);
    } else if s.Instr? && m.t.pc.Body? {
      NeedStepBody(m, s.online);
    }
  }

  lemma NeedyNeverReturns(m: Machine, s: Step)
    requires Killed(m) && NeedsNop(m)
    ensures !Next(m, s).cpc.Idle?
  {
  }

  lemma StuckIsNeedy(m: Machine)
    requires Killed(m) && Stuck(m)
    ensures NeedsNop(m)
  {
  }

  lemma {:induction false} KilledRun(run: nat -> Machine, schedule: nat -> Step, n: nat)
    requires IsRun(run, schedule) && Killed(run(0)) && forall i: nat :: i <= n ==> !run(i).cpc.Idle?
    ensures Killed(run(n)) && (NeedsNop(run(n)) ==> NeedsNop(run(0)))
  {
    if n > 0 {
      KilledRun(run, schedule, n - 1);
      assert run(n - 1 + 1) == Next(run(n - 1), schedule(n - 1));
      KilledStep(run(n - 1), schedule(n - 1));
      NeedStep(run(n - 1), schedule(n - 1));
    }
  }

  lemma {:induction false} NeedyRun(run: nat -> Machine, schedule: nat -> Step, n: nat)
    requires IsRun(run, schedule) && Killed(run(0)) && NeedsNop(run(0))
    requires forall i: nat :: CpusOnline(run(i), schedule(i))
    ensures Killed(run(n)) && NeedsNop(run(n))
  {
    if n > 0 {
      NeedyRun(run, schedule, n - 1);
      assert run(n - 1 + 1) == Next(run(n - 1), schedule(n - 1));
      NeedyNeverReturns(run(n - 1), schedule(n - 1));
      KilledStep(run(n - 1), schedule(n - 1));
      NeedStep(run(n - 1), schedule(n - 1));
    }
  }

  /** A kill signal that the NOP thread sees ends it, in the middle of a call. */
  lemma KillIsSeen(before: seq<Step>)
    requires After(before).npc.SignalTest?
    ensures Killed(Next(After(before), Nop(true)))
    ensures NeedsNop(Next(After(before), Nop(true))) <==> NeedsNop(After(before))
  {
    Reachable(before);
    NextKeeps(After(before), Nop(true));
  }

  /**
    Whether a call survives a kill signal is settled at the moment the NOP thread sees it:
    if INSTR has nothing left to ask of it, the call returns; otherwise it returns only if a
    CPU test fails later.
   */
  lemma KilledCallReturnsIff(before: seq<Step>, run: nat -> Machine, schedule: nat -> Step)
    requires After(before).npc.SignalTest? && run(0) == Next(After(before), Nop(true))
    requires IsRun(run, schedule) && Fair(schedule)
    ensures !NeedsNop(After(before)) ==> Returns(run)
    ensures (forall i: nat :: CpusOnline(run(i), schedule(i))) ==> (Returns(run) <==> !NeedsNop(After(before)))
  {
    KillIsSeen(before);
    if !NeedsNop(After(before)) {
      FairRunReturnsIff(run, schedule);
      if Sticks(run) {
        var e: nat :| Stuck(run(e)) && forall i: nat :: i <= e ==> !run(i).cpc.Idle?;
        KilledRun(run, schedule, e);
        StuckIsNeedy(run(e));
        assert false;
      }
    } else if forall i: nat :: CpusOnline(run(i), schedule(i)) {
      forall n: nat ensures !run(n).cpc.Idle? {
        NeedyRun(run, schedule, n);
      }
    }
  }

  /** No call of `nop_timing_start` has returned before any of the steps is taken. */
  predicate InCall(m: Machine, steps: seq<Step>)
    decreases |steps|
  {
    steps != [] ==> !m.cpc.Idle? && InCall(Next(m, steps[0]), steps[1..])
  }

  lemma MeasureServesNothing(m: Machine, online: bool)
    requires m.t.pc.Body? && BeforeLabel(m.t.pc.p)
    ensures var n := NextInstr(m, online);
            && n.npc == m.npc && n.g.count == m.g.count
            && (m.g.resetCount ==> n.g.resetCount) && n.g.printCount == m.g.printCount
  {
  }

  lemma ReportServesNothing(m: Machine, online: bool)
    requires m.t.pc.Body? && !BeforeLabel(m.t.pc.p)
    ensures var n := NextInstr(m, online);
            && n.npc == m.npc && n.g.count == m.g.count
            && n.g.resetCount == m.g.resetCount && (m.g.printCount ==> n.g.printCount)
  {
  }

  /** INSTR neither counts nor clears a request, whatever it does. */
  lemma InstrServesNothing(m: Machine, online: bool)
    ensures var n := NextInstr(m, online);
            && n.npc == m.npc && n.g.count == m.g.count
            && (m.g.resetCount ==> n.g.resetCount) && (m.g.printCount ==> n.g.printCount)
  {
    if m.t.pc.Body? {
      if BeforeLabel(m.t.pc.p) {
        MeasureServesNothing(m, online);
      } else {
        ReportServesNothing(m, online);
      }
    }
  }

  /** Nor does the controller until the call returns. */
  lemma CtrlServesNothing(m: Machine, request: Request, created: bool)
    requires Killed(m)
    ensures var n := NextCtrl(m, request, created);
            && n.npc == m.npc && n.g.count == m.g.count
            && n.g.resetCount == m.g.resetCount && n.g.printCount == m.g.printCount
  {
  }

  lemma KilledServesNothing(m: Machine, s: Step)
    requires Killed(m)
    ensures var n := Next(m, s);
            && n.g.count == m.g.count
            && (m.g.resetCount ==> n.g.resetCount) && (m.g.printCount ==> n.g.printCount)
            && forall r :: r in Appended(m, s) ==> !r.Value?
  {
    match s
    case Nop(_) =>
    case Instr(online) => InstrServesNothing(m, online);
    case Ctrl(request, created) => CtrlServesNothing(m, request, created);
  }

  lemma {:induction false} KilledIsSilent(m: Machine, steps: seq<Step>)
    requires Killed(m) && InCall(m, steps)
    ensures var n := Continue(m, steps);
            && n.g.count == m.g.count
            && (m.g.resetCount ==> n.g.resetCount) && (m.g.printCount ==> n.g.printCount)
            && forall r :: r in Output(m, steps) ==> !r.Value?
    decreases |steps|
  {
    if steps != [] {
      var n := Next(m, steps[0]);
      KilledServesNothing(m, steps[0]);
      if n.cpc.Idle? {
        assert steps[1..] == [];
      } else {
        KilledStep(m, steps[0]);
        KilledIsSilent(n, steps[1..]);
      }
    }
  }

  /**
    A kill signal that the NOP thread sees is its end: until the call returns, whatever the
    other threads do, nothing is counted, no request is served and no value is printed.
   */
  lemma KillSilencesNop(before: seq<Step>, steps: seq<Step>)
    requires After(before).npc.SignalTest? && InCall(Next(After(before), Nop(true)), steps)
    ensures var m := Next(After(before), Nop(true)); var n := Continue(m, steps);
            && n.g.count == After(before).g.count
            && (m.g.resetCount ==> n.g.resetCount) && (m.g.printCount ==> n.g.printCount)
            && forall r :: r in Output(m, steps) ==> !r.Value?
  {
    KillIsSeen(before);
    KilledIsSilent(Next(After(before), Nop(true)), steps);
  }

  // ---- Calls that do not return ----

  /** Such a call never returns, whatever is scheduled: nobody else clears a request or sets `finish`. */
  lemma {:induction false} StuckForever(m: Machine, steps: seq<Step>)
    requires Inv(m) && Stuck(m)
    ensures Stuck(Continue(m, steps)) && !Continue(m, steps).cpc.Idle?
    decreases |steps|
  {
    if steps != [] {
      NextKeeps(m, steps[0]);
      StuckStep(m, steps[0]);
      StuckForever(Next(m, steps[0]), steps[1..]);
    }
  }

  lemma AfterNext(before: seq<Step>, steps: seq<Step>, i: nat)
    requires i < |steps|
    ensures After(before + steps[..i + 1]) == Next(After(before + steps[..i]), steps[i])
  {
    assert (before + steps[..i + 1])[..|before| + i] == before + steps[..i];
  }

  /** A step of the controller during a call, when it has nothing to decide. */
  const CTRL := Ctrl(Aside(Note("")), true)

  /** Reinitialisation and the creation of both threads; waking them, and INSTR's banner. */
  const SETUP: seq<Step> := [CTRL, CTRL, CTRL, CTRL, CTRL, CTRL]
  const WAKING: seq<Step> := [CTRL, CTRL, Instr(true)]

  /** A kill signal that arrives before INSTR has asked for its first reset. */
  const EARLY_KILL: seq<Step> := [Nop(false), Nop(true), Instr(true), Instr(true), Instr(true)]

  lemma SetupRuns(before: seq<Step>)
    requires After(before).cpc == Setup(InitCount)
    ensures var m := After(before + SETUP);
            m.cpc.WakeNop? && !m.g.nopStop && !m.g.finish && m.t.k == After(before).t.k && m.job == After(before).job
  {
    assert before + SETUP[..0] == before;
    AfterNext(before, SETUP, 0);
    AfterNext(before, SETUP, 1);
    AfterNext(before, SETUP, 2);
    AfterNext(before, SETUP, 3);
    AfterNext(before, SETUP, 4);
    AfterNext(before, SETUP, 5);
    assert SETUP[..6] == SETUP;
  }

  lemma WakingRuns(before: seq<Step>)
    requires After(before).cpc.WakeNop?
    ensures var m := After(before + WAKING);
            && m.cpc.WaitFinish? && m.npc.StopTest? && m.t.pc.EntryHead?
            && m.g == After(before).g && m.t.k == After(before).t.k && m.job == After(before).job
  {
    assert before + WAKING[..0] == before;
    AfterNext(before, WAKING, 0);
    AfterNext(before, WAKING, 1);
    AfterNext(before, WAKING, 2);
    assert WAKING[..3] == WAKING;
  }

  lemma EarlyKillSticks(before: seq<Step>)
    requires var m := After(before);
             && m.cpc.WaitFinish? && m.npc.StopTest? && m.t.pc.EntryHead? && !m.g.nopStop && !m.g.finish
             && m.t.k < |m.job.plan.entries| && Current(m).gate.Plain?
    ensures Stuck(After(before + EARLY_KILL))
  {
    assert before + EARLY_KILL[..0] == before;
    AfterNext(before, EARLY_KILL, 0);
    AfterNext(before, EARLY_KILL, 1);
    AfterNext(before, EARLY_KILL, 2);
    AfterNext(before, EARLY_KILL, 3);
    AfterNext(before, EARLY_KILL, 4);
    assert EARLY_KILL[..5] == EARLY_KILL;
  }

  /**
    Stuck calls do occur: after any history, a call whose first entry is unconditional (as
    XOR is) gets stuck if the kill signal is seen before that entry's reset is requested.
   */
  lemma KillCanStick(before: seq<Step>, plan: Plan, mem: bool, steps: seq<Step>)
    requires After(before).cpc.Idle? && plan.entries != [] && plan.entries[0].gate.Plain?
    ensures var m := After(before + [Ctrl(Start(plan, mem), true)] + SETUP + WAKING + EARLY_KILL);
            Stuck(m) && !Continue(m, steps).cpc.Idle?
  {
    var started := before + [Ctrl(Start(plan, mem), true)];
    assert started[..|before|] == before;
    SetupRuns(started);
    WakingRuns(started + SETUP);
    EarlyKillSticks(started + SETUP + WAKING);
    Reachable(started + SETUP + WAKING + EARLY_KILL);
    StuckForever(After(started + SETUP + WAKING + EARLY_KILL), steps);
  }

  lemma SleepersStaySo(m: Machine, s: Step)
    requires m.cpc.WaitFinish? && !m.g.finish && m.npc.NopOff? && m.t.pc.InstrOff?
    ensures Next(m, s) == m
  {
  }

  lemma {:induction false} SleepersStayForever(m: Machine, steps: seq<Step>)
    requires m.cpc.WaitFinish? && !m.g.finish && m.npc.NopOff? && m.t.pc.InstrOff?
    ensures Continue(m, steps) == m
    decreases |steps|
  {
    if steps != [] {
      SleepersStaySo(m, steps[0]);
      SleepersStayForever(m, steps[1..]);
    }
  }

  /** If a thread could not be created, neither is woken, and the call waits for ever. */
  lemma FailedCreationNeverReturns(schedule: seq<Step>, request: Request, steps: seq<Step>)
    requires After(schedule).cpc == Setup(CreateInstr)
    ensures var m := Next(After(schedule), Ctrl(request, false));
            Continue(m, steps) == m && NoThreadLive(m) && m.cpc.WaitFinish?
  {
    Reachable(schedule);
    SleepersStayForever(Next(After(schedule), Ctrl(request, false)), steps);
  }
}
