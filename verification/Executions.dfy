/** What the core does in the instructions' own terms: on the real functional units, a run from power-on
    executes what the words of the program mean. */
module Executions {
  import opened Words
  import opened Instructions
  import opened ByteMemory
  import opened Isa
  import opened OutOfOrder
  import opened Decoder
  import opened Hardware
  import opened Accesses
  import opened Simulation
  import opened SimulationCommit
  import opened Panics
  import opened Refinement
  import opened Fetches
  import opened Binaries
  import Alu
  import AtomicReads
  import Steps

  /** Every mnemonic is one of its opcode. */
  ghost predicate Proper(p: Program) {
    forall pc: u32 {:trigger p(pc)} :: Belongs(p(pc).func, p(pc).opcode)
  }

  lemma ImageProper(image: Image)
    ensures Proper(ProgramOf(image))
  {
    forall pc: u32 {:trigger ProgramOf(image)(pc)} ensures Belongs(ProgramOf(image)(pc).func, ProgramOf(image)(pc).opcode) {
      DecodeBelongs(image(pc));
    }
  }

  /** `path` is what executing the program goes through, one instruction after the other. */
  ghost predicate Follows(p: Program, syscall: Syscalls, path: seq<State>) {
    forall k :: 0 <= k < |path| - 1 ==> Steps.Executes(p(path[k].pc), syscall, path[k], path[k + 1])
  }

  /** The instructions that have retired are those executed along `path`, from `a`. */
  ghost predicate Retires(p: Program, syscall: Syscalls, a: State, retired: seq<RobEntry>, path: seq<State>) {
    && |path| == |retired| + 1 && path[0] == a && Follows(p, syscall, path)
    && forall k :: 0 <= k < |retired| ==> retired[k].pc == path[k].pc
  }

  /** The registers of the core are those of state `b`; its memory is, too, unless the instruction to be
      executed there has already written: then it is the one that leads to. */
  ghost predicate Reaches(p: Program, syscall: Syscalls, t: Machine, b: State) {
    && t.gpr == b.regs && b.pc == (if t.rob == [] then t.pc else t.rob[0].pc)
    && if HeadWritten(t) then exists x :: Steps.Executes(p(b.pc), syscall, b, x) && t.mem == x.mem else t.mem == b.mem
  }

  lemma StepExecutes(p: Program, syscall: Syscalls, b: State)
    requires Proper(p)
    ensures Steps.Obeys(p(b.pc), syscall, b, Step(RealCore(p, syscall), b))
  {
    assert Belongs(p(b.pc).func, p(b.pc).opcode);
    Steps.StepObeys(p, syscall, b);
  }

  lemma RetiredExecutes(p: Program, syscall: Syscalls, a: State, retired: seq<RobEntry>, k: nat)
    requires Proper(p) && IsPath(RealCore(p, syscall), a, retired) && k < |retired|
    ensures var c := RealCore(p, syscall);
      && Run(c, a, k).Ok? && Run(c, a, k + 1).Ok? && retired[k].pc == Run(c, a, k).value.pc
      && Steps.Executes(p(Run(c, a, k).value.pc), syscall, Run(c, a, k).value, Run(c, a, k + 1).value)
  {
    var c := RealCore(p, syscall);
    assert Run(c, a, k).Ok? && Run(c, a, k + 1).Ok?;
    assert RetiredAs(c, retired[k], Run(c, a, k).value);
    RunSnoc(c, a, k);
    StepExecutes(p, syscall, Run(c, a, k).value);
  }

  /** `path` is where the sequential run from `a` comes by. */
  ghost predicate Visits(c: Core, a: State, path: seq<State>) {
    forall k :: 0 <= k < |path| ==> Run(c, a, k) == Ok(path[k])
  }

  lemma {:induction false} States(c: Core, a: State, n: nat) returns (path: seq<State>)
    requires Run(c, a, n).Ok?
    ensures |path| == n + 1 && Visits(c, a, path)
    decreases n
  {
    if n == 0 {
      path := [a];
    } else {
      RunPrefix(c, a, n - 1, n);
      var q := States(c, a, n - 1);
      path := q + [Run(c, a, n).value];
    }
  }

  lemma RunFollows(p: Program, syscall: Syscalls, a: State, retired: seq<RobEntry>, path: seq<State>)
    requires Proper(p) && IsPath(RealCore(p, syscall), a, retired)
    requires |path| == |retired| + 1 && Visits(RealCore(p, syscall), a, path)
    ensures Retires(p, syscall, a, retired, path)
  {
    forall k | 0 <= k < |retired|
      ensures Steps.Executes(p(path[k].pc), syscall, path[k], path[k + 1]) && retired[k].pc == path[k].pc
    {
      RetiredExecutes(p, syscall, a, retired, k);
    }
    assert Run(RealCore(p, syscall), a, 0) == Ok(path[0]);
  }

  lemma CommittedReaches(p: Program, syscall: Syscalls, t: Machine, b: State)
    requires Proper(p) && CommittedIs(RealCore(p, syscall), t, b)
    ensures Reaches(p, syscall, t, b)
  {
    if HeadWritten(t) { StepExecutes(p, syscall, b); }
  }

  /** What has retired is a stretch of instructions each of which does what it means, and registers and
      memory are as after the last of them. */
  ghost predicate Realises(p: Program, syscall: Syscalls, a: State, r: Clocked) {
    exists path: seq<State> :: Retires(p, syscall, a, r.retired, path)
      && (r.outcome.Running? ==> Reaches(p, syscall, r.outcome.s, path[|r.retired|]))
  }

  lemma PathRealises(p: Program, syscall: Syscalls, a: State, r: Clocked)
    requires Proper(p) && IsPath(RealCore(p, syscall), a, r.retired)
    requires r.outcome.Running? ==> CommittedIs(RealCore(p, syscall), r.outcome.s, Run(RealCore(p, syscall), a, |r.retired|).value)
    ensures Realises(p, syscall, a, r)
  {
    var path := States(RealCore(p, syscall), a, |r.retired|);
    RunFollows(p, syscall, a, r.retired, path);
    if r.outcome.Running? { CommittedReaches(p, syscall, r.outcome.s, path[|r.retired|]); }
  }

  /** A run from power-on executes the program as its instructions mean, and a panic in retiring is one that
      the next instruction means. */
  lemma CoreExecutes(w: Scope, p: Program, syscall: Syscalls, pc: u32, m: Mem, sp: u32, tags: seq<Tags>)
    requires Proper(p)
    requires Admissible(w, RealCore(p, syscall), Initial(pc, m, sp), State(pc, Initial(pc, m, sp).gpr, m), tags)
    ensures var c, s := RealCore(p, syscall), Initial(pc, m, sp);
      var a, r := State(pc, s.gpr, m), Cycles(c, s, tags);
      && Realises(p, syscall, a, r) && Run(c, a, |r.retired|).Ok?
      && (r.outcome.Panic? && StopOf(c, s, tags).Retiring? ==>
            var b := Run(c, a, |r.retired|).value; Steps.Stops(p(b.pc), syscall, b, r.outcome.fault))
  {
    var c, s := RealCore(p, syscall), Initial(pc, m, sp);
    var a, r := State(pc, s.gpr, m), Cycles(c, s, tags);
    SequentialRefinement(w, c, pc, m, sp, tags);
    PathRealises(p, syscall, a, r);
    if r.outcome.Panic? { StepExecutes(p, syscall, Run(c, a, |r.retired|).value); }
  }

  /** The same for machine code without STOREs, from the words that the run fetches. */
  lemma BinaryExecutes(w: Scope, image: Image, syscall: Syscalls, pc: u32, m: Mem, sp: u32, tags: seq<Tags>)
    requires var c, s := RealCore(ProgramOf(image), syscall), Initial(pc, m, sp);
      var a, pcs := State(pc, s.gpr, m), FetchedPcs(c, s, tags);
      var d := RealCore(ProgramAt(image, pcs), syscall);
      && AtomicCode(image, pcs) && Allocates(c, s, tags) && OverlapSafeRun(w, d, s, a, tags)
      && JumpsOk(d, a, |Cycles(c, s, tags).retired|)
    ensures var c, s := RealCore(ProgramOf(image), syscall), Initial(pc, m, sp);
      Realises(ProgramOf(image), syscall, State(pc, s.gpr, m), Cycles(c, s, tags))
  {
    var c, s := RealCore(ProgramOf(image), syscall), Initial(pc, m, sp);
    BinaryRefinement(w, image, syscall, pc, m, sp, tags);
    ImageProper(image);
    PathRealises(ProgramOf(image), syscall, State(pc, s.gpr, m), Cycles(c, s, tags));
  }

  /** The head, an atomic, returns the word that the four bytes at rs1 make in memory, and memory then is `m`:
      with what it writes there, combined from that word and rs2. */
  ghost predicate HeadExchanges(t: Machine, m: Mem) {
    && t.rob != [] && t.rob[0].inst.opcode.Amo? && t.rob[0].regValue.Some?
    && var i := t.rob[0].inst;
    && var addr, x := t.gpr[i.fields.rs1.value], t.gpr[i.fields.rs2.value];
    && var b := ReadBytes(t.mem, addr, 4);
    && b.Ok? && Loaded(i.func, b.value, t.rob[0].regValue.value) && Steps.Exchanges(i.func, b.value, x, t.mem, addr, Ok(m))
  }

  lemma HeadMeets(t: Machine, m: Mem)
    requires t.rob != [] && t.rob[0].inst.opcode.Amo? && t.rob[0].regValue.Some?
    requires var i, word := t.rob[0].inst, t.rob[0].regValue.value;
      && LoadFrom(i.func, t.mem, t.gpr[Rs1(i)]) == Ok(word)
      && StoreTo(i.func, t.mem, t.gpr[Rs1(i)], Alu.AmoResult(i.func, word, t.gpr[Rs2(i)])) == Ok(m)
    ensures HeadExchanges(t, m)
  {
    var i := t.rob[0].inst;
    LoadMeets(i.func, t.mem, t.gpr[Rs1(i)]);
    Steps.ExchangeMeets(i.func, t.mem, t.gpr[Rs1(i)], t.gpr[Rs2(i)]);
  }

  /** So it is in every clock of every run from power-on in which an atomic writes. */
  lemma AtomicsExchange(w: Scope, p: Program, syscall: Syscalls, s: Machine, a: State, before: seq<Tags>, ids: Tags)
    requires AtomicReads.PoweredOn(s, a) && Admissible(w, RealCore(p, syscall), s, a, before + [ids])
    requires AtomicReads.WritesAfter(RealCore(p, syscall), s, before)
    requires ReadsMem(AtomicReads.WritingState(RealCore(p, syscall), s, before).rob[0].inst)
    ensures var c := RealCore(p, syscall);
      var r := Clock(c, Cycles(c, s, before).outcome.s, ids);
      r.outcome.Running? && HeadExchanges(AtomicReads.WritingState(c, s, before), r.outcome.s.mem)
  {
    var c := RealCore(p, syscall);
    AtomicReads.AtomicWrites(w, c, s, a, before, ids);
    HeadMeets(AtomicReads.WritingState(c, s, before), Clock(c, Cycles(c, s, before).outcome.s, ids).outcome.s.mem);
  }
}
