/** The predicted path and the path taken: where they part, and how they move with the buffer. */
module Path {
  import opened Words
  import opened Instructions
  import opened Isa
  import opened OutOfOrder
  import opened Invariant
  import opened Simulation

  // ---- The path taken is the sequential run ----

  /** Where an instruction other than ECALL does not fault, its effect is the sequential machine's. */
  lemma StepEffect(c: Core, x: State)
    requires Step(c, x).Ok? && !IsEcall(Fetch(c, x.pc))
    ensures Step(c, x).value == Effect(c, x).(pc := Step(c, x).value.pc)
  {
  }

  /** One more entry of the path is one more step of the run. */
  lemma RunNext(c: Core, rob: seq<RobEntry>, a: State, i: nat)
    requires 0 < i < |rob| && Run(c, a, i - 1) == Ok(At(c, rob, a, i - 1)) && Plain(c, rob, i)
    ensures StaysOn(c, rob, a, i - 1) <==> Run(c, a, i).Ok? && Run(c, a, i).value.pc == rob[i].pc
    ensures StaysOn(c, rob, a, i - 1) ==> Run(c, a, i) == Ok(At(c, rob, a, i))
  {
    RunSnoc(c, a, i - 1);
    assert rob[i - 1].inst == Fetch(c, rob[i - 1].pc) && !IsEcall(rob[i - 1].inst);
    if StaysOn(c, rob, a, i - 1) { StepEffect(c, At(c, rob, a, i - 1)); }
  }

  lemma RunStart(c: Core, rob: seq<RobEntry>, a: State)
    requires rob != [] && rob[0].pc == a.pc
    ensures Run(c, a, 0) == Ok(At(c, rob, a, 0))
  {
  }

  /** An entry on the path executes in the state of the sequential run. */
  lemma {:induction false} RunAt(c: Core, rob: seq<RobEntry>, a: State, i: nat)
    requires i < |rob| && OnPath(c, rob, a, i) && Plain(c, rob, i) && rob[0].pc == a.pc
    ensures Run(c, a, i) == Ok(At(c, rob, a, i))
  {
    RunStart(c, rob, a);
    if i > 0 {
      RunAt(c, rob, a, i - 1);
      assert StaysOn(c, rob, a, i - 1);
      RunNext(c, rob, a, i);
    }
  }

  lemma OnPathIsFetched(c: Core, rob: seq<RobEntry>, a: State, i: nat)
    requires i < |rob| && OnPath(c, rob, a, i) && Plain(c, rob, i) && rob[0].pc == a.pc
    ensures Follows(c, rob, a, i) && rob[i].pc == Run(c, a, i).value.pc
  {
    forall j | 0 <= j <= i ensures Run(c, a, j).Ok? && rob[j].pc == Run(c, a, j).value.pc {
      RunAt(c, rob, a, j);
    }
  }

  lemma OnPathNext(c: Core, rob: seq<RobEntry>, a: State, i: nat)
    requires 0 < i < |rob| && OnPath(c, rob, a, i - 1) && StaysOn(c, rob, a, i - 1)
    ensures OnPath(c, rob, a, i)
  {
  }

  /** Entry `j` is the `j`-th instruction of the sequential run. */
  ghost predicate FetchedAt(c: Core, rob: seq<RobEntry>, a: State, j: nat)
    requires j < |rob|
  {
    Run(c, a, j).Ok? && Run(c, a, j).value.pc == rob[j].pc
  }

  lemma {:induction false} FetchedIsOnPath(c: Core, rob: seq<RobEntry>, a: State, i: nat)
    requires i < |rob| && Plain(c, rob, i) && rob[0].pc == a.pc && forall j :: 0 <= j <= i ==> FetchedAt(c, rob, a, j)
    ensures OnPath(c, rob, a, i)
  {
    if i > 0 {
      FetchedIsOnPath(c, rob, a, i - 1);
      RunAt(c, rob, a, i - 1);
      assert StaysOn(c, rob, a, i - 1) by {
        RunNext(c, rob, a, i);
        assert FetchedAt(c, rob, a, i);
      }
      OnPathNext(c, rob, a, i);
    }
  }

  /** An entry is on the path exactly when the buffer, up to it, is what the sequential run fetches. */
  lemma OnPathFollows(c: Core, rob: seq<RobEntry>, a: State, i: nat)
    requires i < |rob| && Plain(c, rob, i) && rob[0].pc == a.pc
    ensures OnPath(c, rob, a, i) <==> Follows(c, rob, a, i) && rob[i].pc == Run(c, a, i).value.pc
  {
    if OnPath(c, rob, a, i) { OnPathIsFetched(c, rob, a, i); }
    if Follows(c, rob, a, i) && rob[i].pc == Run(c, a, i).value.pc {
      forall j | 0 <= j <= i ensures FetchedAt(c, rob, a, j) {
      }
      FetchedIsOnPath(c, rob, a, i);
    }
  }

  // ---- Where the predicted path leaves it ----

  /** Nothing happens at entry `e`, executing in `x`, that leads off the predicted path: no fault, no
      misprediction (of a branch with two different successors), no JALR to 0. */
  ghost predicate GoesRight(c: Core, x: State, e: RobEntry) {
    && Step(c, x).Ok?
    && (e.inst.opcode.Branch? ==> (ValueOf(c, x) == 1) == e.branchPred || Imm(e.inst) == WORD_SIZE)
    && TargetOk(c, x)
  }

  /** The recorded successor is the real one exactly when the branch is predicted right (or has one
      successor only), and the JALR's target is not dropped. */
  lemma FollowedIs(c: Core, x: State, e: RobEntry)
    requires e.inst == Fetch(c, x.pc) && e.pc == x.pc
    requires e.inst.opcode.Jalr? ==> e.addr == Value(Address(e.inst, x.regs))
    ensures Successor(e.inst, x.pc, x.regs, ValueOf(c, x)) == Followed(e) <==>
      && (e.inst.opcode.Branch? ==> (ValueOf(c, x) == 1) == e.branchPred || Imm(e.inst) == WORD_SIZE)
      && TargetOk(c, x)
  {
  }

  lemma StaysOnExactly(w: Scope, c: Core, s: Machine, a: State, j: nat)
    requires Simulates(w, c, s, a) && j + 1 < |s.rob| && Covered(w, c, s.rob, a, j)
    ensures StaysOn(c, s.rob, a, j) <==> GoesRight(c, At(c, s.rob, a, j), s.rob[j])
  {
    var e, x := s.rob[j], At(c, s.rob, a, j);
    AddrExact(w, c, s, a, j);
    assert Filed(c, s, j) by { assert SlotOk(c, s, j); }
    LinkedTo(c, s, j);
    FollowedIs(c, x, e);
    if Step(c, x).Ok? { SuccessorIs(c, x); }
  }

  lemma LinkedTo(c: Core, s: Machine, j: nat)
    requires Inv(c, s) && j + 1 < |s.rob|
    ensures s.rob[j + 1].pc == Followed(s.rob[j]) && !IsEcall(s.rob[j].inst)
    ensures s.rob[j].inst.opcode.Jalr? ==> s.rob[j].addr.Value?
  {
  }

  lemma SuccessorIs(c: Core, x: State)
    requires Step(c, x).Ok? && !IsEcall(Fetch(c, x.pc))
    ensures Step(c, x).value.pc == Successor(Fetch(c, x.pc), x.pc, x.regs, ValueOf(c, x))
  {
  }

  /** An entry is on the path taken exactly when no older entry faults, is a misprediction or is a
      JALR to 0. */
  lemma {:induction false} OnPathExactly(w: Scope, c: Core, s: Machine, a: State, i: nat)
    requires Simulates(w, c, s, a) && i < |s.rob|
    ensures OnPath(c, s.rob, a, i) <==> forall j :: 0 <= j < i ==> GoesRight(c, At(c, s.rob, a, j), s.rob[j])
  {
    if i > 0 {
      OnPathExactly(w, c, s, a, i - 1);
      if OnPath(c, s.rob, a, i - 1) { StaysOnExactly(w, c, s, a, i - 1); }
    }
  }

  /** The recorded outcome of a branch on the path tells its misprediction. */
  lemma OutcomeTells(w: Scope, c: Core, s: Machine, a: State, j: nat)
    requires Simulates(w, c, s, a) && j < |s.rob| && Covered(w, c, s.rob, a, j)
    requires s.rob[j].inst.opcode.Branch? && s.rob[j].regValue.Some?
    ensures GoesRight(c, At(c, s.rob, a, j), s.rob[j]) <==>
      s.rob[j].regValue.value == (if s.rob[j].branchPred then 1 else 0) || Imm(s.rob[j].inst) == WORD_SIZE
  {
    ResultExact(w, c, s, a, j);
    assert Filed(c, s, j) && CountdownOk(s, j) by { assert SlotOk(c, s, j); }
  }

  // ---- Moving with the buffer ----

  ghost predicate SamePcs(p: seq<RobEntry>, q: seq<RobEntry>, n: nat) {
    n <= |p| && n <= |q| && forall k :: 0 <= k < n ==> p[k].pc == q[k].pc
  }

  lemma {:induction false} EnteringSame(c: Core, p: seq<RobEntry>, q: seq<RobEntry>, a: State, i: nat)
    requires SamePcs(p, q, i)
    ensures Entering(c, p, a, i) == Entering(c, q, a, i)
  {
    if i > 0 { EnteringSame(c, p, q, a, i - 1); }
  }

  /** The path to an entry depends on the pcs up to it only. */
  lemma PathSame(c: Core, p: seq<RobEntry>, q: seq<RobEntry>, a: State, i: nat)
    requires i < |p| && i < |q| && SamePcs(p, q, i + 1)
    ensures At(c, p, a, i) == At(c, q, a, i) && OnPath(c, p, a, i) == OnPath(c, q, a, i)
  {
    EnteringSame(c, p, q, a, i);
    forall j | 0 <= j < i ensures StaysOn(c, p, a, j) == StaysOn(c, q, a, j) {
      EnteringSame(c, p, q, a, j);
    }
  }

  lemma AtNext(c: Core, rob: seq<RobEntry>, a: State, i: nat)
    requires 0 < i < |rob|
    ensures At(c, rob, a, i) == Effect(c, At(c, rob, a, i - 1)).(pc := rob[i].pc)
  {
  }

  /** When the head has executed the path shifts by one. */
  lemma {:induction false} AtPop(c: Core, rob: seq<RobEntry>, a: State, b: State, i: nat)
    requires 0 < i < |rob| && rob[0].pc == a.pc && b.regs == Effect(c, a).regs && b.mem == Effect(c, a).mem
    ensures At(c, rob, a, i) == At(c, rob[1..], b, i - 1)
  {
    AtNext(c, rob, a, i);
    if i == 1 {
      assert At(c, rob, a, 0) == a;
    } else {
      AtPop(c, rob, a, b, i - 1);
      AtNext(c, rob[1..], b, i - 1);
    }
  }

  lemma OnPathPop(c: Core, rob: seq<RobEntry>, a: State, b: State, i: nat)
    requires 0 < i < |rob| && rob[0].pc == a.pc && Step(c, a) == Ok(b) && !IsEcall(Fetch(c, a.pc))
    requires OnPath(c, rob[1..], b, i - 1) && rob[1].pc == b.pc
    ensures OnPath(c, rob, a, i)
  {
    StepEffect(c, a);
    forall j | 0 <= j < i ensures StaysOn(c, rob, a, j) {
      if j > 0 {
        AtPop(c, rob, a, b, j);
        assert StaysOn(c, rob[1..], b, j - 1);
      }
    }
  }

  /** When the head has retired, the entries behind it are at the same points of the path. */
  lemma PathShifts(w: Scope, c: Core, s: Machine, a: State, b: State, i: nat)
    requires Inv(c, s) && i + 1 < |s.rob| && a.pc == s.rob[0].pc && Step(c, a) == Ok(b) && s.rob[1].pc == b.pc
    ensures At(c, s.rob, a, i + 1) == At(c, s.rob[1..], b, i)
    ensures Covered(w, c, s.rob[1..], b, i) ==> Covered(w, c, s.rob, a, i + 1)
  {
    LinkedTo(c, s, 0);
    assert Filed(c, s, 0) by { assert SlotOk(c, s, 0); }
    StepEffect(c, a);
    AtPop(c, s.rob, a, b, i + 1);
    if OnPath(c, s.rob[1..], b, i) { OnPathPop(c, s.rob, a, b, i + 1); }
  }
}
