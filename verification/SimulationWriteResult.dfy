/** Broadcasting results keeps the simulation. */
module SimulationWriteResult {
  import opened Isa
  import opened OutOfOrder
  import opened Invariant
  import opened InvariantWriteResult
  import opened Simulation
  import opened Path

  /** What a load has read is the same once it is broadcast. */
  lemma ReadWake(c: Core, s: Machine, i: nat, x: State)
    requires Inv(c, s) && i < |s.rob| && LoadExact(c, s, s.rob[i], x)
    ensures LoadExact(c, WriteResult(s), WriteResult(s).rob[i], x)
  {
    WriteResultShape(s);
    assert Filed(c, s, i) && CountdownOk(s, i) by { assert SlotOk(c, s, i); }
    JobsAreFinished(c, s, i);
  }

  lemma ReadsWake(w: Scope, c: Core, s: Machine, a: State)
    requires Inv(c, s) && LoadsExact(w, c, s, a)
    ensures LoadsExact(w, c, WriteResult(s), a)
  {
    var s' := WriteResult(s);
    WriteResultShape(s);
    forall i {:trigger At(c, s'.rob, a, i)} | 0 <= i < |s'.rob| && Covered(w, c, s'.rob, a, i)
      ensures LoadExact(c, s', s'.rob[i], At(c, s'.rob, a, i))
    {
      PathSame(c, s.rob, s'.rob, a, i);
      ReadWake(c, s, i, At(c, s.rob, a, i));
    }
  }

  lemma WriteResultSimulates(w: Scope, c: Core, s: Machine, a: State)
    requires Simulates(w, c, s, a) && Sound(c)
    ensures Simulates(w, c, WriteResult(s), a)
    ensures HeadWritten(WriteResult(s)) == HeadWritten(s)
  {
    WriteResultInv(c, s);
    WriteResultShape(s);
    ReadsWake(w, c, s, a);
    if s.rob != [] { CountdownWake(c, s, 0); }
  }

  /** An operand that is woken receives the register's value at that point of the path. */
  lemma WakeExact(w: Scope, c: Core, s: Machine, a: State, i: nat, src: Source, op: Operand)
    requires Simulates(w, c, s, a) && Sound(c) && i < |s.rob| && Covered(w, c, s.rob, a, i)
    requires Tracked(s.gpr, s.rob, i, src, op)
    ensures Exact(Wake(op, Jobs(s)), Eval(src, At(c, s.rob, a, i).regs))
  {
    TrackedWake(c, s, i, src, op);
    WriteResultSimulates(w, c, s, a);
    WriteResultShape(s);
    PathSame(c, s.rob, WriteResult(s).rob, a, i);
    KnownExact(w, c, WriteResult(s), a, i, src);
  }
}
