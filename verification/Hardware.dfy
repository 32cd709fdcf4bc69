/** The functional units as they are: every law the refinement asks for holds of them. */
module Hardware {
  import opened Words
  import opened Instructions
  import opened ByteMemory
  import opened Isa
  import Alu

  type Program = u32 -> Inst
  type Syscalls = (Regs, Mem) -> Result<(u32, Mem), Exception>

  /** The real arithmetic unit and memory, for any program and any system calls. */
  function RealCore(program: Program, syscall: Syscalls): Core {
    Core(program, Alu.Eval, Alu.AmoResult, LoadFrom, StoreTo, syscall)
  }

  lemma RealCoreSound(program: Program, syscall: Syscalls)
    ensures Sound(RealCore(program, syscall))
  {
    var c := RealCore(program, syscall);
    forall f, g, m, a, b, v ensures StoreThenLoad(c, f, g, m, a, b, v) {
      if StoreTo(f, m, b, v).Ok? && Disjoint(a, Width(g), b, Width(f)) {
        StoreOtherLoad(f, g, m, a, b, v);
      }
    }
  }
}
