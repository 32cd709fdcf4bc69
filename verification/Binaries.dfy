/** From the words of a program to the runs of the core: the hypotheses of the refinement that are
    about the program, read off its machine code. */
module Binaries {
  import opened Words
  import opened Instructions
  import opened ByteMemory
  import opened Isa
  import opened OutOfOrder
  import opened Fetches
  import opened Decoder
  import opened Hardware
  import opened Simulation
  import opened SimulationCommit
  import opened Panics
  import opened Refinement

  /** The word at each address. */
  type Image = u32 -> u32

  /** The words at `pcs` decode: the source panics when it fetches one that does not. */
  predicate Decodes(image: Image, pcs: set<u32>) {
    forall pc :: pc in pcs ==> Decode(image(pc)).Some?
  }

  function DecodedWord(w: u32): Inst {
    DecodeWellFormed(w);
    if Decode(w).Some? then Decode(w).value else NOP
  }

  function ProgramOf(image: Image): Program {
    pc => DecodedWord(image(pc))
  }

  /** The same, with NOPs outside `pcs`. */
  function ProgramAt(image: Image, pcs: set<u32>): Program {
    pc => if pc in pcs then DecodedWord(image(pc)) else NOP
  }

  /** The words that decode to ECALL: opcode SYSTEM, funct3 0, and not EBREAK's immediate. */
  predicate IsEcallWord(w: u32) {
    w % 0x80 == 0x73 && w / 0x1000 % 8 == 0 && w / 0x10_0000 != 1
  }

  /** Bits 11 to 7. */
  function RdField(w: u32): nat { w / 0x80 % 0x20 }

  lemma EcallWord(w: u32)
    ensures IsEcall(DecodedWord(w)) <==> IsEcallWord(w)
    ensures IsEcallWord(w) ==> Rd(DecodedWord(w)) == RdField(w)
  {
    if OpcodeOf(w).Some? && Decode(w).Some? && Decode(w).value != NOP {
      FunctionClass(w, OpcodeOf(w).value);
    }
  }

  /** ECALLs name no destination in the decoded program exactly when they do not in the words. */
  lemma PlainWords(image: Image, pcs: set<u32>, syscall: Syscalls)
    ensures EcallsPlain(RealCore(ProgramAt(image, pcs), syscall)) <==>
      forall pc :: pc in pcs && IsEcallWord(image(pc)) ==> RdField(image(pc)) == 0
  {
    var c := RealCore(ProgramAt(image, pcs), syscall);
    forall pc: u32 ensures c.program(pc) == if pc in pcs then DecodedWord(image(pc)) else NOP {
    }
    forall pc: u32
      ensures (IsEcall(c.program(pc)) ==> Rd(c.program(pc)) == 0) <==> (pc in pcs && IsEcallWord(image(pc)) ==> RdField(image(pc)) == 0)
    {
      EcallWord(image(pc));
    }
  }

  lemma StoreWord(w: u32)
    requires Decode(w).Some?
    ensures DecodedWord(w).opcode.Store? <==> w % 0x80 == 0x23
  {
  }

  /** A program writes memory only by atomics exactly when no word has the opcode STORE. */
  lemma AtomicWords(image: Image, pcs: set<u32>, syscall: Syscalls)
    requires Decodes(image, pcs)
    ensures OnlyAtomics(RealCore(ProgramAt(image, pcs), syscall)) <==> forall pc :: pc in pcs ==> image(pc) % 0x80 != 0x23
  {
    var c := RealCore(ProgramAt(image, pcs), syscall);
    forall pc: u32 ensures c.program(pc) == if pc in pcs then DecodedWord(image(pc)) else NOP {
    }
    forall pc: u32 ensures c.program(pc).opcode.Store? <==> pc in pcs && image(pc) % 0x80 == 0x23 {
      if pc in pcs { StoreWord(image(pc)); }
    }
  }

  /** The words the run fetches decode, name no destination in an ECALL, and are no STOREs. */
  predicate AtomicCode(image: Image, pcs: set<u32>) {
    && Decodes(image, pcs)
    && forall pc :: pc in pcs ==> image(pc) % 0x80 != 0x23 && (IsEcallWord(image(pc)) ==> RdField(image(pc)) == 0)
  }

  lemma AllRetiredAgree(c: Core, d: Core, a: State, pcs: set<u32>, retired: seq<RobEntry>)
    requires Agree(c, d, pcs) && IsPath(d, a, retired) && Within(retired, pcs)
    ensures IsPath(c, a, retired) && Run(c, a, |retired|) == Run(d, a, |retired|)
  {
    forall j | 0 <= j <= |retired|
      ensures Run(c, a, j) == Run(d, a, j) && (j < |retired| ==> RetiredAs(c, retired[j], Run(c, a, j).value))
    {
      RetiredAgree(c, d, a, pcs, retired, j);
    }
  }

  /** Runs of two programs that agree where one fetches retire the same stretch of both sequential runs. */
  lemma PathAgrees(w: Scope, c: Core, d: Core, s: Machine, a: State, tags: seq<Tags>)
    requires Agree(c, d, FetchedPcs(c, s, tags)) && s.rob == []
    requires Refines(w, d, a, Cycles(d, s, tags), StopOf(d, s, tags))
    ensures var r := Cycles(c, s, tags);
      && r == Cycles(d, s, tags) && IsPath(c, a, r.retired) && Run(c, a, |r.retired|) == Run(d, a, |r.retired|)
      && (r.outcome.Running? ==> CommittedIs(c, r.outcome.s, Run(c, a, |r.retired|).value))
  {
    var pcs := FetchedPcs(c, s, tags);
    RunsAgree(c, d, s, tags);
    RunWithin(c, s, tags, pcs);
    var r := Cycles(c, s, tags);
    AllRetiredAgree(c, d, a, pcs, r.retired);
    if r.outcome.Running? { CommittedAgrees(c, d, r.outcome.s, Run(d, a, |r.retired|).value, pcs); }
  }

  lemma CommittedAgrees(c: Core, d: Core, s: Machine, a: State, pcs: set<u32>)
    requires Agree(c, d, pcs) && Within(s.rob, pcs) && CommittedIs(d, s, a)
    ensures CommittedIs(c, s, a)
  {
    if HeadWritten(s) { StepAgrees(c, d, a, pcs); }
  }

  lemma RetiredAgree(c: Core, d: Core, a: State, pcs: set<u32>, retired: seq<RobEntry>, j: nat)
    requires Agree(c, d, pcs) && IsPath(d, a, retired) && Within(retired, pcs) && j <= |retired|
    ensures Run(c, a, j) == Run(d, a, j) && (j < |retired| ==> RetiredAs(c, retired[j], Run(c, a, j).value))
  {
    forall k: nat {:trigger Run(d, a, k)} | k < j ensures Run(d, a, k).Ok? && Run(d, a, k).value.pc in pcs {
      assert RetiredAs(d, retired[k], Run(d, a, k).value);
    }
    SequentialAgrees(c, d, a, pcs, j);
    if j < |retired| {
      assert RetiredAs(d, retired[j], Run(d, a, j).value);
      assert retired[j].pc in pcs && Fetch(c, retired[j].pc) == Fetch(d, retired[j].pc);
    }
  }

  /** The refinement for machine code, on the real functional units: what is assumed of the program is
      assumed of the words the run fetches. (`d` is the program with NOPs elsewhere.) Without STORE words
      nothing slips past the load gate, so what is left is the allocator's guarantee, no load that overlaps
      a write in flight at another address, and no JALR to 0. */
  lemma BinaryRefinement(w: Scope, image: Image, syscall: Syscalls, pc: u32, m: Mem, sp: u32, tags: seq<Tags>)
    requires var c, s := RealCore(ProgramOf(image), syscall), Initial(pc, m, sp);
      var a, pcs := State(pc, s.gpr, m), FetchedPcs(c, s, tags);
      var d := RealCore(ProgramAt(image, pcs), syscall);
      && AtomicCode(image, pcs) && Allocates(c, s, tags) && OverlapSafeRun(w, d, s, a, tags)
      && JumpsOk(d, a, |Cycles(c, s, tags).retired|)
    ensures var c, s := RealCore(ProgramOf(image), syscall), Initial(pc, m, sp);
      var a, r := State(pc, s.gpr, m), Cycles(c, s, tags);
      && IsPath(c, a, r.retired)
      && (r.outcome.Running? ==> CommittedIs(c, r.outcome.s, Run(c, a, |r.retired|).value))
      && Refines(w, RealCore(ProgramAt(image, FetchedPcs(c, s, tags)), syscall), a, r, StopOf(c, s, tags))
  {
    var c, s := RealCore(ProgramOf(image), syscall), Initial(pc, m, sp);
    var pcs := FetchedPcs(c, s, tags);
    var d := RealCore(ProgramAt(image, pcs), syscall);
    RealCoreSound(ProgramAt(image, pcs), syscall);
    PlainWords(image, pcs, syscall);
    AtomicWords(image, pcs, syscall);
    assert Agree(c, d, pcs);
    RunsAgree(c, d, s, tags);
    StopsAgree(c, d, s, tags);
    AtomicsRefine(w, d, pc, m, sp, tags);
    PathAgrees(w, c, d, s, State(pc, s.gpr, m), tags);
  }
}
