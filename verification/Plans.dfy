/** What the two INSTR threads measure, and the lists of names that the script asks for. */
module Plans {
  import opened Records

  const ITERATIONS := 100

  /** One use of a macro for each name. */
  function Uses(names: seq<string>, gate: Gate): seq<Entry> {
    seq(|names|, i requires 0 <= i < |names| => Entry(names[i], gate, ITERATIONS))
  }

  const PLAIN_NAMES := ["XOR", "CPUID", "RDTSC", "RDTSCP", "INVD", "CLTS", "INB", "OUTB", "INVLPG"]
  const SUSPENDED_NAMES := ["MOV_FROM_CR8", "MOV_TO_CR0", "MOV_TO_CR3", "MOV_TO_CR4", "MOV_TO_CR8",
                            "MOV_DR0", "MOV_DR1", "MOV_DR2", "MOV_DR3", "MOV_DR4", "MOV_DR5", "MOV_DR6", "MOV_DR7"]

  const FLUSH_NAMES := ["CLFLUSH", "SFENCE", "MFENCE"]

  /** `instr_f`, on a CPU with or without RDRAND and RDSEED. */
  function StandardPlan(rdrand: bool, rdseed: bool): Plan {
    Plan("Aggregating NOP based timings",
         Uses(PLAIN_NAMES, Plain) + Uses(SUSPENDED_NAMES, Suspended) + Uses(["RDMSR", "RDPMC"], Plain)
         + Uses(["RDRAND"], Feature(rdrand)) + Uses(["RDSEED"], Feature(rdseed))
         + Uses(["WBINVD", "WRMSR"], Plain) + Uses(["MOVNTDQA", "MOVNTDQ"], Kmalloc))
  }

  /** `buffer_flush_instr_f`. */
  function FlushPlan(): Plan {
    Plan("Aggregating buffer flush NOP based timing",
         Uses(FLUSH_NAMES[..1], Kmalloc) + Uses(FLUSH_NAMES[1..], Plain))
  }

  /** What `nop_timing_start(action)` measures. */
  function PlanOf(action: bool, rdrand: bool, rdseed: bool): Plan {
    if action then StandardPlan(rdrand, rdseed) else FlushPlan()
  }

  /** The name lists of ecr.sh. */
  const STANDARD_INSTRUCTIONS: seq<string> := [
    "XOR", "CPUID", "RDTSC", "RDTSCP", "INVD", "CLTS", "INB", "OUTB", "INVLPG", "INVPCID",
    "MOV_FROM_CR8", "MOV_TO_CR0", "MOV_TO_CR3", "MOV_TO_CR4", "MOV_TO_CR8", "MOV_DR0", "MOV_DR1",
    "MOV_DR2", "MOV_DR3", "MOV_DR4", "MOV_DR5", "MOV_DR6", "MOV_DR7", "RDMSR", "RDPMC", "RDRAND",
    "RDSEED", "WBINVD", "WRMSR", "MOVNTDQA", "MOVNTDQ"
  ]
  const FLUSH_INSTRUCTIONS: seq<string> := ["CLFLUSH", "SFENCE", "MFENCE"]

  const UNMEASURED := "INVPCID"

  function NamesOf(entries: seq<Entry>): (names: seq<string>)
    ensures |names| == |entries| && forall i :: 0 <= i < |names| ==> names[i] == entries[i].name
  {
    seq(|entries|, i requires 0 <= i < |entries| => entries[i].name)
  }

  // ---- No name is listed twice ----

  predicate Distinct(names: seq<string>) {
    forall i, j :: 0 <= i < j < |names| ==> names[i] != names[j]
  }

  /** A number that tells the instructions of the standard list apart. */
  function Signature(s: string): int
    requires |s| >= 3
  {
    |s| + s[0] as int + 3 * s[2] as int + 6 * s[|s| - 1] as int
  }

  const SIGNATURES: seq<int> := [
    829, 735, 741, 820, 743, 821, 670, 731, 763, 746, 683, 633, 651, 657, 681, 630, 636, 642, 648,
    654, 660, 666, 672, 810, 729, 742, 745, 720, 815, 733, 828
  ]

  lemma SignaturesOf(i: nat)
    requires i < |STANDARD_INSTRUCTIONS|
    ensures i < |SIGNATURES| && |STANDARD_INSTRUCTIONS[i]| >= 3 && Signature(STANDARD_INSTRUCTIONS[i]) == SIGNATURES[i]
  {
  }

  lemma SignaturesDiffer(i: nat, j: nat)
    requires i < j < |SIGNATURES|
    ensures SIGNATURES[i] != SIGNATURES[j]
  {
  }

  lemma StandardNamesDistinct()
    ensures Distinct(STANDARD_INSTRUCTIONS)
  {
    forall i, j | 0 <= i < j < |STANDARD_INSTRUCTIONS| ensures STANDARD_INSTRUCTIONS[i] != STANDARD_INSTRUCTIONS[j] {
      SignaturesOf(i);
      SignaturesOf(j);
      SignaturesDiffer(i, j);
    }
  }

  // ---- What the plans measure ----

  /** Where the plan's `k`-th name stands in the script's list. */
  function InScript(k: nat): nat { if k < 9 then k else k + 1 }

  lemma EarlyNames(rdrand: bool, rdseed: bool, k: nat)
    requires k < 22
    ensures StandardPlan(rdrand, rdseed).entries[k].name == (PLAIN_NAMES + SUSPENDED_NAMES)[k]
    ensures (PLAIN_NAMES + SUSPENDED_NAMES)[k] == STANDARD_INSTRUCTIONS[InScript(k)]
  {
  }

  lemma LateNames(rdrand: bool, rdseed: bool, k: nat)
    requires 22 <= k < |StandardPlan(rdrand, rdseed).entries|
    ensures InScript(k) < |STANDARD_INSTRUCTIONS|
    ensures StandardPlan(rdrand, rdseed).entries[k].name == STANDARD_INSTRUCTIONS[InScript(k)]
  {
  }

  lemma NamesListed(rdrand: bool, rdseed: bool, k: nat)
    requires k < |StandardPlan(rdrand, rdseed).entries|
    ensures InScript(k) < |STANDARD_INSTRUCTIONS|
    ensures StandardPlan(rdrand, rdseed).entries[k].name == STANDARD_INSTRUCTIONS[InScript(k)]
  {
    if k < 22 {
      EarlyNames(rdrand, rdseed, k);
    } else {
      LateNames(rdrand, rdseed, k);
    }
  }

  lemma Lengths(rdrand: bool, rdseed: bool)
    ensures |StandardPlan(rdrand, rdseed).entries| == 30 && |STANDARD_INSTRUCTIONS| == 31
    ensures STANDARD_INSTRUCTIONS[9] == UNMEASURED
  {
  }

  lemma NamesAreListed(names: seq<string>, list: seq<string>)
    requires |names| == 30 && |list| == 31 && forall k :: 0 <= k < |names| ==> names[k] == list[InScript(k)]
    ensures names == list[..9] + list[10..]
  {
  }

  lemma StandardNamesAre(rdrand: bool, rdseed: bool)
    ensures STANDARD_INSTRUCTIONS[9] == UNMEASURED
    ensures NamesOf(StandardPlan(rdrand, rdseed).entries) == STANDARD_INSTRUCTIONS[..9] + STANDARD_INSTRUCTIONS[10..]
  {
    Lengths(rdrand, rdseed);
    var names := NamesOf(StandardPlan(rdrand, rdseed).entries);
    forall k | 0 <= k < |names| ensures names[k] == STANDARD_INSTRUCTIONS[InScript(k)] {
      NamesListed(rdrand, rdseed, k);
    }
    NamesAreListed(names, STANDARD_INSTRUCTIONS);
  }

  /** `k` is the only place of the name. */
  predicate OnlyAt(entries: seq<Entry>, x: string, k: nat) {
    k < |entries| && forall i :: 0 <= i < |entries| ==> (entries[i].name == x <==> i == k)
  }

  /** `instr_f` measures each name of the script's standard list once, save INVPCID, and nothing else. */
  lemma StandardPlanCoversScript(rdrand: bool, rdseed: bool, x: string)
    ensures var entries := StandardPlan(rdrand, rdseed).entries;
            && (x in STANDARD_INSTRUCTIONS && x != UNMEASURED <==> x in NamesOf(entries))
            && (x in NamesOf(entries) ==> exists k :: OnlyAt(entries, x, k))
  {
    StandardNamesAre(rdrand, rdseed);
    StandardNamesDistinct();
    var entries := StandardPlan(rdrand, rdseed).entries;
    var names := NamesOf(entries);
    var list := STANDARD_INSTRUCTIONS;
    assert list == list[..9] + [list[9]] + list[10..];
    assert Distinct(names);
    assert UNMEASURED !in names;
    if x in names {
      var k :| 0 <= k < |names| && names[k] == x;
      assert OnlyAt(entries, x, k);
    }
  }

  lemma FlushNamesDistinct()
    ensures Distinct(FLUSH_INSTRUCTIONS)
  {
    assert FLUSH_INSTRUCTIONS[0][0] == 'C' && FLUSH_INSTRUCTIONS[1][0] == 'S' && FLUSH_INSTRUCTIONS[2][0] == 'M';
  }

  /** `buffer_flush_instr_f` measures each name of the script's flush list once, in order. */
  lemma FlushPlanCoversScript()
    ensures NamesOf(FlushPlan().entries) == FLUSH_INSTRUCTIONS && Distinct(FLUSH_INSTRUCTIONS)
  {
    FlushNamesDistinct();
    assert FLUSH_NAMES[..1] + FLUSH_NAMES[1..] == FLUSH_NAMES;
  }

  predicate StartsWith(s: string, prefix: string) {
    |prefix| <= |s| && s[..|prefix|] == prefix
  }

  /** Which macro an instruction is measured with, by its name. */
  predicate GuardedByName(e: Entry) {
    && e.iterations == 100
    && (e.gate.Suspended? <==> StartsWith(e.name, "MOV_"))
    && (e.gate.Feature? <==> e.name == "RDRAND" || e.name == "RDSEED")
    && (e.gate.Kmalloc? <==> StartsWith(e.name, "MOVNT") || e.name == "CLFLUSH")
  }

  lemma PrefixChar(s: string, t: string, k: nat)
    requires StartsWith(s, t) && k < |t|
    ensures s[k] == t[k]
  {
    assert s[..|t|][k] == s[k];
  }

  /** The two prefixes, by the name's place in the script's list. */
  lemma PrefixesOf(i: nat)
    requires i < |STANDARD_INSTRUCTIONS|
    ensures StartsWith(STANDARD_INSTRUCTIONS[i], "MOV_") <==> 10 <= i < 23
    ensures StartsWith(STANDARD_INSTRUCTIONS[i], "MOVNT") <==> 29 <= i
  {
    var s := STANDARD_INSTRUCTIONS[i];
    if StartsWith(s, "MOVNT") {
      PrefixChar(s, "MOVNT", 1);
      PrefixChar(s, "MOVNT", 3);
    }
    if 29 <= i {
      assert s[..5] == "MOVNT";
    }
  }

  lemma RareNames(i: nat)
    requires i < |STANDARD_INSTRUCTIONS|
    ensures STANDARD_INSTRUCTIONS[i] == "RDRAND" <==> i == 25
    ensures STANDARD_INSTRUCTIONS[i] == "RDSEED" <==> i == 26
    ensures STANDARD_INSTRUCTIONS[i] != "CLFLUSH"
  {
    StandardNamesDistinct();
    assert STANDARD_INSTRUCTIONS[25] == "RDRAND" && STANDARD_INSTRUCTIONS[26] == "RDSEED";
    assert |STANDARD_INSTRUCTIONS[i]| != 7 || STANDARD_INSTRUCTIONS[i][0] != 'C';
  }

  lemma GatesOf(rdrand: bool, rdseed: bool, k: nat)
    requires k < |StandardPlan(rdrand, rdseed).entries|
    ensures var e := StandardPlan(rdrand, rdseed).entries[k];
            && e.iterations == 100
            && e.gate == (if 9 <= k < 22 then Suspended
                          else if k == 24 then Feature(rdrand)
                          else if k == 25 then Feature(rdseed)
                          else if k >= 28 then Kmalloc
                          else Plain)
  {
  }

  /** Each instruction of `instr_f` is measured a hundred times, with the macro that its name calls for. */
  lemma StandardPlanGuards(rdrand: bool, rdseed: bool, k: nat)
    requires k < |StandardPlan(rdrand, rdseed).entries|
    ensures GuardedByName(StandardPlan(rdrand, rdseed).entries[k])
  {
    NamesListed(rdrand, rdseed, k);
    GatesOf(rdrand, rdseed, k);
    PrefixesOf(InScript(k));
    RareNames(InScript(k));
  }

  lemma FlushPlanGuards(k: nat)
    requires k < |FlushPlan().entries|
    ensures GuardedByName(FlushPlan().entries[k])
  {
    var e := FlushPlan().entries[k];
    assert e == if k == 0 then Entry(FLUSH_NAMES[0], Kmalloc, 100) else Entry(FLUSH_NAMES[k], Plain, 100);
    if StartsWith(e.name, "MOV_") {
      PrefixChar(e.name, "MOV_", 1);
    }
    if StartsWith(e.name, "MOVNT") {
      PrefixChar(e.name, "MOVNT", 1);
    }
    assert k > 0 ==> e.name[0] != 'C';
    assert e.name[0] != 'R';
  }
}
