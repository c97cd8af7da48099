/** The values shared by the timing threads, the wall-clock timer and the log readers. */
module Records {

  /** Modulus of the kernel's `unsigned long`. */
  const U64: nat := 0x1_0000_0000_0000_0000

  /** How a measurement macro guards its body. */
  datatype Gate = Plain | Suspended | Feature(present: bool) | Kmalloc

  /** One use of a measurement macro: a name, its guard and its loop bound. */
  datatype Entry = Entry(name: string, gate: Gate, iterations: nat)

  /** What one timing thread runs: its opening message and its macros, in order. */
  datatype Plan = Plan(banner: string, entries: seq<Entry>)

  /** One record of the kernel log. */
  datatype Record =
    | Label(name: string)            // "NOP_<name>: ", written by the INSTR thread
    | Value(n: nat)                  // "<n>", written by the NOP thread
    | Zero(name: string)             // "NOP_<name>: 0", an entry that was not measured
    | Wall(name: string, nsec: nat)  // "WALL_<name>: <nsec>"
    | Note(text: string)             // any other message of the module

  /** Records that the module writes outside a NOP timing run. */
  predicate Foreign(r: Record) {
    r.Wall? || r.Note?
  }

  /** The feature test of the macro fails, so the entry leaves no trace. */
  predicate Skipped(e: Entry) {
    e.gate == Feature(false)
  }

  /** The macro's guards (other than the CPU count) let the measurement happen. */
  predicate Available(e: Entry, mem: bool) {
    !Skipped(e) && (e.gate.Kmalloc? ==> mem)
  }
}
