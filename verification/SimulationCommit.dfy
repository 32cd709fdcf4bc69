/** Retiring the head is one step of the sequential machine. */
module SimulationCommit {
  import opened Words
  import opened Isa
  import opened OutOfOrder
  import opened Invariant
  import opened InvariantCommit
  import opened Simulation
  import opened Path

  /** The completed head holds what the sequential machine computes. */
  lemma HeadExact(w: Scope, c: Core, s: Machine, a: State)
    requires Simulates(w, c, s, a) && s.rob != [] && IsCompleted(s.rob[0])
    ensures SlotExact(c, s, 0, a) && Filed(c, s, 0) && OperandsOk(c, s, 0) && CountdownOk(s, 0)
    ensures s.rob[0].inst == Fetch(c, a.pc) && s.rob[0].pc == a.pc
  {
    SlotsExact(w, c, s, a, 0);
    assert At(c, s.rob, a, 0) == a;
    assert SlotOk(c, s, 0);
  }

  /** Entry `e` retires as the instruction executed in `x`: with its result, and if it writes memory with
      its address and the word written. */
  ghost predicate RetiredAs(c: Core, e: RobEntry, x: State) {
    && e.pc == x.pc && e.inst == Fetch(c, x.pc)
    && (if e.inst.opcode.Store? then e.regValue.None? else e.regValue.Some? && Produced(c, x) == Ok(e.regValue.value))
    && (WritesMem(e.inst) ==>
          e.addr == Value(Address(e.inst, x.regs)) && e.memValue == Value(Stored(c, e.inst, x.regs, ValueOf(c, x))))
  }

  /** What retires is exact. */
  lemma RetiredExact(w: Scope, c: Core, s: Machine, a: State)
    requires Simulates(w, c, s, a) && s.rob != [] && IsCompleted(s.rob[0]) && s.rob[0].memException.None?
    ensures RetiredAs(c, s.rob[0], a)
  {
    HeadExact(w, c, s, a);
  }

  /** A fault at retirement is the sequential machine's fault at the same instruction. */
  lemma FaultExact(w: Scope, c: Core, s: Machine, a: State)
    requires Simulates(w, c, s, a) && s.rob != [] && IsCompleted(s.rob[0])
    requires Retire(c, s.(rob := s.rob[1..]), s.rob[0]).Faulted?
    ensures Step(c, a) == Err(Retire(c, s.(rob := s.rob[1..]), s.rob[0]).fault) && !HeadWritten(s)
  {
    HeadExact(w, c, s, a);
  }

  /** A store that retires has written what the sequential machine writes. */
  lemma RetiredWriter(w: Scope, c: Core, s: Machine, a: State)
    requires Simulates(w, c, s, a) && s.rob != [] && IsCompleted(s.rob[0]) && s.rob[0].memException.None?
    requires WritesMem(s.rob[0].inst)
    ensures HeadWritten(s) && Step(c, a).Ok? && s.mem == Step(c, a).value.mem
  {
    HeadExact(w, c, s, a);
  }

  /** An entry that does not write retires without a fault. */
  lemma RetiredReader(w: Scope, c: Core, s: Machine, a: State)
    requires Simulates(w, c, s, a) && s.rob != [] && IsCompleted(s.rob[0]) && s.rob[0].memException.None?
    requires !WritesMem(s.rob[0].inst) && !IsEcall(s.rob[0].inst)
    ensures !HeadWritten(s) && Step(c, a).Ok? && s.mem == Step(c, a).value.mem
  {
    HeadExact(w, c, s, a);
  }

  /** Registers and memory after the head retires. */
  lemma RetiredState(w: Scope, c: Core, s: Machine, a: State, s': Machine)
    requires Simulates(w, c, s, a) && EcallsPlain(c) && s.rob != [] && IsCompleted(s.rob[0])
    requires Retire(c, s.(rob := s.rob[1..]), s.rob[0]) in {Retired(s'), Cancelled(s')}
    ensures Step(c, a).Ok?
    ensures s'.gpr == Step(c, a).value.regs && s'.mem == Step(c, a).value.mem
  {
    HeadExact(w, c, s, a);
    if WritesMem(s.rob[0].inst) {
      RetiredWriter(w, c, s, a);
    } else if !IsEcall(s.rob[0].inst) {
      RetiredReader(w, c, s, a);
    }
  }

  /** After the head retires, the next instruction of the core is the one the sequential machine
      executes next, exactly when the head is no JALR to address 0 (or is itself at 0). */
  lemma RetiredPcExactly(w: Scope, c: Core, s: Machine, a: State, s': Machine)
    requires Simulates(w, c, s, a) && s.rob != [] && IsCompleted(s.rob[0]) && Step(c, a).Ok?
    requires Retire(c, s.(rob := s.rob[1..]), s.rob[0]) == Retired(s')
    ensures (if s'.rob == [] then s'.pc else s'.rob[0].pc) == Step(c, a).value.pc <==> TargetOk(c, a)
  {
    HeadExact(w, c, s, a);
    RetiredFrame(c, s, s');
    assert (if s'.rob == [] then s'.pc else s'.rob[0].pc) == Followed(s.rob[0]);
  }

  /** Misprediction recovery: fetching resumes at the branch's actual successor, with nothing left
      of the entries behind it. */
  lemma CancelledSimulates(w: Scope, c: Core, s: Machine, a: State, s': Machine)
    requires Simulates(w, c, s, a) && EcallsPlain(c) && s.rob != [] && IsCompleted(s.rob[0])
    requires Retire(c, s.(rob := s.rob[1..]), s.rob[0]) == Cancelled(s')
    ensures Step(c, a).Ok? && Simulates(w, c, s', Step(c, a).value)
    ensures s'.rob == [] && s'.station == map[] && s'.loadBuf == map[] && s'.addressUnit == map[]
    ensures s'.pc == Step(c, a).value.pc && forall r :: 0 <= r < 32 ==> s'.renames[r] == None
  {
    RetiredState(w, c, s, a, s');
    HeadExact(w, c, s, a);
  }

  /** What the entries behind the head have read is exact from where the head has left. */
  lemma ReadsPop(w: Scope, c: Core, s: Machine, s': Machine, a: State)
    requires Simulates(w, c, s, a) && SameBuffers(s, s') && Step(c, a).Ok? && a.pc == s.rob[0].pc
    requires s'.rob != [] ==> s'.rob[0].pc == Step(c, a).value.pc
    ensures LoadsExact(w, c, s', Step(c, a).value)
  {
    var b := Step(c, a).value;
    forall i {:trigger At(c, s'.rob, b, i)} | 0 <= i < |s'.rob| && Covered(w, c, s'.rob, b, i)
      ensures LoadExact(c, s', s'.rob[i], At(c, s'.rob, b, i))
    {
      PathShifts(w, c, s, a, b, i);
      assert LoadExact(c, s, s.rob[i + 1], At(c, s.rob, a, i + 1));
    }
  }

  lemma RetiredSimulates(w: Scope, c: Core, s: Machine, a: State, s': Machine)
    requires Simulates(w, c, s, a) && EcallsPlain(c) && TargetOk(c, a) && s.rob != [] && IsCompleted(s.rob[0])
    requires Retire(c, s.(rob := s.rob[1..]), s.rob[0]) == Retired(s')
    ensures Step(c, a).Ok? && Simulates(w, c, s', Step(c, a).value)
  {
    RetiredState(w, c, s, a, s');
    RetiredPcExactly(w, c, s, a, s');
    RetiredInv(c, s, s');
    RetiredFrame(c, s, s');
    HeadExact(w, c, s, a);
    ReadsPop(w, c, s, s', a);
    assert !HeadWritten(s') by {
      if s'.rob != [] { assert CountdownOk(s, 1) by { assert SlotOk(c, s, 1); } }
    }
  }
}
