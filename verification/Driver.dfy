/** The ioctl dispatcher of main.c and the buffer that gates the measurements needing memory. */
module Driver {
  import opened Records

  /** An address of a 64-bit kernel. */
  type Address = p: nat | p < U64

  datatype Command =
    | Nop | Wall | Thread | Cache | Memory | Kmalloc | WallFlush | ThreadFlush | Unknown

  /** What the handler returns; `Oops` is the dereference of a null buffer. */
  datatype Outcome = Success | EFault | EInval | Oops

  /** A timing run that the dispatcher starts. */
  datatype Run = WallRun | NopRun(standard: bool) | CacheRun | MemoryRun | FlushRun

  /** Bitwise `&` of two words. */
  function And(x: nat, y: nat): nat {
    if x == 0 || y == 0 then 0 else x % 2 * (y % 2) + 2 * And(x / 2, y / 2)
  }

  function Bit(x: nat, k: nat): bool {
    if k == 0 then x % 2 == 1 else Bit(x / 2, k - 1)
  }

  lemma {:induction false} NoBits(k: nat)
    ensures !Bit(0, k)
  {
    if k > 0 {
      NoBits(k - 1);
    }
  }

  /** A bit of the conjunction is set exactly if it is set in both words. */
  lemma {:induction false} AndBits(x: nat, y: nat, k: nat)
    ensures Bit(And(x, y), k) <==> Bit(x, k) && Bit(y, k)
    decreases k
  {
    if x == 0 || y == 0 {
      NoBits(k);
    } else if k > 0 {
      AndBits(x / 2, y / 2, k - 1);
      assert And(x, y) / 2 == And(x / 2, y / 2);
    }
  }

  /** A word of `k` ones. */
  function Ones(k: nat): nat {
    if k == 0 then 0 else 2 * Ones(k - 1) + 1
  }

  /** Masking with ones keeps every word that is no wider. */
  lemma {:induction false} AndOnes(x: nat, k: nat)
    requires x <= Ones(k)
    ensures And(x, Ones(k)) == x
    decreases k
  {
    if x != 0 {
      AndOnes(x / 2, k - 1);
      assert Ones(k) % 2 == 1 && Ones(k) / 2 == Ones(k - 1);
    }
  }

  lemma FourMore(k: nat)
    ensures Ones(k + 4) == 16 * Ones(k) + 15
  {
    assert Ones(k + 2) == 2 * Ones(k + 1) + 1;
    assert Ones(k + 4) == 2 * Ones(k + 3) + 1;
  }

  lemma TwentyMore(k: nat)
    ensures Ones(k + 20) == 0x10_0000 * Ones(k) + 0xF_FFFF
  {
    FourMore(k);
    FourMore(k + 4);
    FourMore(k + 8);
    FourMore(k + 12);
    FourMore(k + 16);
  }

  lemma SixtyMore(k: nat)
    ensures Ones(k + 60) == U64 / 16 * Ones(k) + U64 / 16 - 1
  {
    TwentyMore(k);
    TwentyMore(k + 20);
    TwentyMore(k + 40);
  }

  lemma SixtyOnes() returns (k: nat)
    ensures Ones(k) == U64 / 16 - 1
  {
    k :| k == 0;
    SixtyMore(k);
    k := k + 60;
  }

  lemma AndEven(x: nat, y: nat)
    ensures And(x, 2 * y) == 2 * And(x / 2, y)
  {
  }

  lemma AndSixteen(x: nat, y: nat)
    ensures And(x, 16 * y) == 16 * And(x / 16, y)
  {
    AndEven(x, 8 * y);
    AndEven(x / 2, 4 * y);
    AndEven(x / 2 / 2, 2 * y);
    AndEven(x / 2 / 2 / 2, y);
    assert x / 2 / 2 / 2 / 2 == x / 16;
  }

  /** The complement of 0x0F. */
  const MASK: nat := U64 - 1 - 0x0F

  /** Clearing the low four bits of a word is subtracting its remainder by 16. */
  lemma MaskIsRounding(x: nat)
    requires x < U64
    ensures And(x, MASK) == x - x % 16
  {
    var k := SixtyOnes();
    AndSixteen(x, Ones(k));
    AndOnes(x / 16, k);
  }

  /** vmem + 15, wrapping, with the low four bits cleared. */
  function AlignUp(p: Address): (a: Address)
    ensures a == (p + 15) % U64 - (p + 15) % U64 % 16
  {
    MaskIsRounding((p + 15) % U64);
    And((p + 15) % U64, MASK)
  }

  /** The last address whose rounding up to 16 does not wrap. */
  const LAST_ALIGNABLE: Address := 0xFFFF_FFFF_FFFF_FFF0

  predicate Multiple16(p: Address) { p % 16 == 0 }

  /** `a` is the least multiple of 16 that is not below `p`. */
  ghost predicate LeastMultiple(a: Address, p: Address) {
    Multiple16(a) && p <= a && forall q: Address :: Multiple16(q) && p <= q ==> a <= q
  }

  lemma AlignUpIsMultiple(p: Address)
    ensures Multiple16(AlignUp(p))
    ensures p <= LAST_ALIGNABLE ==> p <= AlignUp(p) < p + 16
    ensures p > LAST_ALIGNABLE ==> AlignUp(p) == 0
  {
    if p > LAST_ALIGNABLE {
      assert (p + 15) % U64 == p + 15 - U64 < 16;
    }
  }

  lemma MultiplesApart(q: Address, a: Address)
    requires Multiple16(q) && Multiple16(a) && q < a
    ensures q + 16 <= a
  {
  }

  /** Rounding gives the least multiple of 16 not below the address, exactly when it does not wrap. */
  lemma AlignUpIsLeastIff(p: Address)
    ensures LeastMultiple(AlignUp(p), p) <==> p <= LAST_ALIGNABLE
  {
    AlignUpIsMultiple(p);
    if p <= LAST_ALIGNABLE {
      forall q: Address | Multiple16(q) && p <= q ensures AlignUp(p) <= q {
        if q < AlignUp(p) {
          MultiplesApart(q, AlignUp(p));
        }
      }
    }
  }

  /** The two guards in the code, on `vmem` and on `vmem_aligned`, agree exactly when rounding does not wrap. */
  lemma GuardsAgreeIff(p: Address)
    ensures (AlignUp(p) == 0 <==> p == 0) <==> p <= LAST_ALIGNABLE
  {
    AlignUpIsMultiple(p);
  }

  /** What one allocation request finds: the address kmalloc returns, and the words the handler then reads. */
  datatype Env = Env(buffer: Address, word: int, alignedWord: int)

  datatype State = State(vmem: Address, aligned: Address, runs: seq<Run>)

  /** The handler as a function of the state. */
  function Next(s: State, cmd: Command, env: Env): (State, Outcome) {
    match cmd
    case Nop => (s, Success)
    case Wall => (s.(runs := s.runs + [WallRun]), Success)
    case Thread => (s.(runs := s.runs + [NopRun(true)]), Success)
    case Cache => if s.vmem == 0 then (s, EFault) else (s.(runs := s.runs + [CacheRun]), Success)
    case Memory => if s.vmem == 0 then (s, EFault) else (s.(runs := s.runs + [MemoryRun]), Success)
    case Kmalloc =>
      var t := if s.vmem == 0 then s.(vmem := env.buffer, aligned := AlignUp(env.buffer)) else s;
      if t.vmem == 0 || (env.word != 0 && t.aligned == 0) then (t, Oops)
      else if env.word == 0 || env.alignedWord == 0 then (t, EFault)
      else (t, Success)
    case WallFlush => (s.(runs := s.runs + [FlushRun]), Success)
    case ThreadFlush => (s.(runs := s.runs + [NopRun(false)]), Success)
    case Unknown => (s, EInval)
  }

  class Device {
    var vmem: Address
    var vmemAligned: Address
    var runs: seq<Run>      // the timing runs started so far

    ghost function View(): State
      reads this
    {
      State(vmem, vmemAligned, runs)
    }

    constructor ()
      ensures View() == Inserted()
    {
      vmem, vmemAligned, runs := 0, 0, [];
    }

    /** timing_unlocked_ioctl */
    method Ioctl(cmd: Command, env: Env) returns (outcome: Outcome)
      modifies this
      ensures (View(), outcome) == Next(old(View()), cmd, env)
    {
      outcome := Success;
      match cmd
      case Nop =>
      case Wall => runs := runs + [WallRun];
      case Thread => runs := runs + [NopRun(true)];
      case Cache => if vmem == 0 { outcome := EFault; } else { runs := runs + [CacheRun]; }
      case Memory => if vmem == 0 { outcome := EFault; } else { runs := runs + [MemoryRun]; }
      case Kmalloc =>
        if vmem == 0 {
          vmem := env.buffer;
          vmemAligned := AlignUp(vmem);
        }
        if vmem == 0 {
          outcome := Oops;
        } else if env.word == 0 {
          outcome := EFault;
        } else if vmemAligned == 0 {
          outcome := Oops;
        } else if env.alignedWord == 0 {
          outcome := EFault;
        }
      case WallFlush => runs := runs + [FlushRun];
      case ThreadFlush => runs := runs + [NopRun(false)];
      case Unknown => outcome := EInval;
    }
  }

  function Inserted(): State { State(0, 0, []) }

  datatype Request = Request(cmd: Command, env: Env)

  /** The device after a sequence of ioctls. */
  function After(requests: seq<Request>): State {
    if requests == [] then Inserted()
    else
      var n := |requests| - 1;
      Next(After(requests[..n]), requests[n].cmd, requests[n].env).0
  }

  /** The first successful allocation's address, or 0. */
  function FirstAllocation(requests: seq<Request>): Address {
    if requests == [] then 0
    else
      var n := |requests| - 1;
      var earlier := FirstAllocation(requests[..n]);
      if earlier != 0 then earlier else if requests[n].cmd.Kmalloc? then requests[n].env.buffer else 0
  }

  /** In every state of every sequence of ioctls, the buffer is the first allocation, aligned. */
  lemma {:induction false} BufferIsFirstAllocation(requests: seq<Request>)
    ensures var s := After(requests);
            s.vmem == FirstAllocation(requests) && s.aligned == (if s.vmem == 0 then 0 else AlignUp(s.vmem))
  {
    if requests != [] {
      BufferIsFirstAllocation(requests[..|requests| - 1]);
    }
  }

  /** A buffer, once allocated, is never moved or lost by any later ioctls. */
  lemma {:induction false} BufferNeverChanges(requests: seq<Request>, i: nat)
    requires i <= |requests| && After(requests[..i]).vmem != 0
    ensures After(requests).vmem == After(requests[..i]).vmem
    ensures After(requests).aligned == After(requests[..i]).aligned
  {
    if i == |requests| {
      assert requests[..i] == requests;
    } else {
      var n := |requests| - 1;
      assert requests[..n][..i] == requests[..i];
      BufferNeverChanges(requests[..n], i);
    }
  }

  /**
    The dispatcher tests `vmem` and the measurement macros test `vmem_aligned`: after any
    ioctls the tests agree, and the aligned address is the least multiple of 16 from the
    buffer on, exactly when the allocation does not lie in the last 15 bytes of the
    address space.
   */
  lemma GuardsAgreeInEveryState(requests: seq<Request>)
    ensures var s, fits := After(requests), FirstAllocation(requests) <= LAST_ALIGNABLE;
            && ((s.vmem == 0 <==> s.aligned == 0) <==> fits)
            && (LeastMultiple(s.aligned, s.vmem) <==> fits)
  {
    BufferIsFirstAllocation(requests);
    GuardsAgreeIff(FirstAllocation(requests));
    AlignUpIsLeastIff(FirstAllocation(requests));
    AlignUpOfNull();
  }

  lemma AlignUpOfNull()
    ensures AlignUp(0) == 0
  {
  }

  /** Cache and memory timing are refused exactly while there is no buffer. */
  lemma GatedRunsNeedBuffer(requests: seq<Request>, env: Env)
    ensures var s := After(requests);
            && (Next(s, Cache, env).1 == EFault <==> FirstAllocation(requests) == 0)
            && (Next(s, Memory, env).1 == EFault <==> FirstAllocation(requests) == 0)
  {
    BufferIsFirstAllocation(requests);
  }

  /**
    What an allocation request returns, from the requests alone. `b` is the buffer that
    there is after it: null is dereferenced, words that read as zero are refused.
   */
  lemma KmallocOutcome(requests: seq<Request>, env: Env)
    ensures var b := FirstAllocation(requests + [Request(Command.Kmalloc, env)]);
            var outcome := Next(After(requests), Command.Kmalloc, env).1;
            && (outcome == Oops <==> b == 0 || (b > LAST_ALIGNABLE && env.word != 0))
            && (outcome == EFault <==> b != 0 && (env.word == 0 || (b <= LAST_ALIGNABLE && env.alignedWord == 0)))
            && (outcome == Success <==> 0 < b <= LAST_ALIGNABLE && env.word != 0 && env.alignedWord != 0)
  {
    assert (requests + [Request(Command.Kmalloc, env)])[..|requests|] == requests;
    BufferIsFirstAllocation(requests);
    AlignUpOfNull();
    AlignUpIsMultiple(FirstAllocation(requests + [Request(Command.Kmalloc, env)]));
  }

  /**
    What every other command returns: unknown ones are refused, cache and memory timing
    succeed exactly if they start a run, which takes a buffer, and all others succeed.
   */
  lemma OtherOutcomes(requests: seq<Request>, cmd: Command, env: Env)
    requires !cmd.Kmalloc?
    ensures var s := After(requests); var n, outcome := Next(s, cmd, env).0, Next(s, cmd, env).1;
            && (outcome == EInval <==> cmd.Unknown?)
            && (outcome == EFault <==> (cmd.Cache? || cmd.Memory?) && FirstAllocation(requests) == 0)
            && outcome != Oops
            && ((cmd.Cache? || cmd.Memory?) ==> (outcome == Success <==> |n.runs| == |s.runs| + 1))
            && n.vmem == s.vmem && n.aligned == s.aligned && (cmd.Nop? || cmd.Unknown? ==> n == s)
  {
    BufferIsFirstAllocation(requests);
  }

  /** The run that a command asks for, if any, and whether it needs the buffer. */
  datatype Demand = NoRun | Demand(run: Run, gated: bool)

  function DemandOf(cmd: Command): Demand {
    match cmd
    case Wall => Demand(WallRun, false)
    case Thread => Demand(NopRun(true), false)
    case Cache => Demand(CacheRun, true)
    case Memory => Demand(MemoryRun, true)
    case WallFlush => Demand(FlushRun, false)
    case ThreadFlush => Demand(NopRun(false), false)
    case _ => NoRun
  }

  /** The runs asked for, in order, without those that needed a buffer before there was one. */
  function RunsOf(requests: seq<Request>): seq<Run> {
    if requests == [] then []
    else
      var n := |requests| - 1;
      var d := DemandOf(requests[n].cmd);
      RunsOf(requests[..n]) + if d.NoRun? || (d.gated && FirstAllocation(requests[..n]) == 0) then [] else [d.run]
  }

  /** Any sequence of ioctls starts exactly the runs it asks for, in order, less the gated ones that came too early. */
  lemma {:induction false} RunsFollowRequests(requests: seq<Request>)
    ensures After(requests).runs == RunsOf(requests)
  {
    if requests != [] {
      RunsFollowRequests(requests[..|requests| - 1]);
      BufferIsFirstAllocation(requests[..|requests| - 1]);
    }
  }
}
