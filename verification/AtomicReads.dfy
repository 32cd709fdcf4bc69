/** Nobody writes where a load or an atomic on the path has read, until it retires: what an atomic
    reads and what it writes are adjacent in the order of memory. */
module AtomicReads {
  import opened Words
  import opened Instructions
  import opened ByteMemory
  import opened Isa
  import opened OutOfOrder
  import opened Invariant
  import opened InvariantCommit
  import opened InvariantWriteResult
  import opened InvariantExecute
  import opened InvariantIssue
  import opened Simulation
  import opened Path
  import opened SimulationCommit
  import opened SimulationWriteResult
  import opened SimulationExecute
  import opened Refinement
  import opened Runs
  import opened MemoryWrites
  import opened Guarantees

  /** Entry `i` is covered and has read memory. */
  ghost predicate Holds(w: Scope, c: Core, s: Machine, a: State, i: nat)
    requires i < |s.rob|
  {
    Covered(w, c, s.rob, a, i) && ReadsMem(s.rob[i].inst) && HasRead(s, s.rob[i])
  }

  /** Nothing older than an entry that has read will write what it has read. */
  ghost predicate ReadsSafe(w: Scope, c: Core, s: Machine, a: State) {
    forall i, j {:trigger Overlaps(c, At(c, s.rob, a, j), At(c, s.rob, a, i))} ::
      0 <= j < i < |s.rob| && Holds(w, c, s, a, i) ==> !Overlaps(c, At(c, s.rob, a, j), At(c, s.rob, a, i))
  }

  /** What a stage must not do: make an entry that has not read look as if it had. */
  ghost predicate NoNewReads(s: Machine, s': Machine) {
    && SameShape(s.rob, s'.rob)
    && forall i :: 0 <= i < |s.rob| && ReadsMem(s.rob[i].inst) && HasRead(s', s'.rob[i]) ==> HasRead(s, s.rob[i])
  }

  lemma HoldsKept(w: Scope, c: Core, s: Machine, s': Machine, a: State)
    requires ReadsSafe(w, c, s, a) && NoNewReads(s, s')
    ensures ReadsSafe(w, c, s', a)
  {
    forall i, j | 0 <= j < i < |s'.rob| && Holds(w, c, s', a, i) ensures !Overlaps(c, At(c, s'.rob, a, j), At(c, s'.rob, a, i)) {
      PathSame(c, s.rob, s'.rob, a, i);
      PathSame(c, s.rob, s'.rob, a, j);
      assert Holds(w, c, s, a, i);
    }
  }

  lemma WriteKeeps(w: Scope, c: Core, s: Machine, a: State)
    requires Inv(c, s) && ReadsSafe(w, c, s, a)
    ensures ReadsSafe(w, c, WriteResult(s), a)
  {
    WriteResultShape(s);
    forall i | 0 <= i < |s.rob| && ReadsMem(s.rob[i].inst) && HasRead(WriteResult(s), WriteResult(s).rob[i])
      ensures HasRead(s, s.rob[i])
    {
      ProgressWake(c, s, i);
    }
    HoldsKept(w, c, s, WriteResult(s), a);
  }

  lemma AddressKeeps(w: Scope, c: Core, s: Machine, a: State)
    requires ReadsSafe(w, c, s, a)
    ensures ReadsSafe(w, c, AddressPhase(s), a)
  {
    AddressShape(s);
    HoldsKept(w, c, s, AddressPhase(s), a);
  }

  lemma StoreStationKeep(w: Scope, c: Core, s: Machine, a: State)
    requires ReadsSafe(w, c, s, a) && StorePhase(c, s).Running? && StationPhase(c, StorePhase(c, s).s).Running?
    ensures ReadsSafe(w, c, StationPhase(c, StorePhase(c, s).s).s, a)
  {
    StoreShape(c, s);
    HoldsKept(w, c, s, StationPhase(c, StorePhase(c, s).s).s, a);
  }

  lemma NewReads(c: Core, s: Machine, i: nat)
    requires Inv(c, s) && LoadPhase(c, s).Running? && i < |s.rob|
    ensures SameShape(s.rob, LoadPhase(c, s).s.rob)
    ensures HasRead(LoadPhase(c, s).s, LoadPhase(c, s).s.rob[i]) ==> HasRead(s, s.rob[i]) || Reads(s, i)
  {
    LoadShape(c, s);
    LoadFrame(c, s);
    if s.rob[i].id in s.loadBuf {
      LoadSlotIs(c, s, i);
      LoadCases(c, s, i);
    }
  }

  /** A load that reads now reads where nothing older will write. */
  lemma LoadKeeps(w: Scope, c: Core, s: Machine, a: State)
    requires Simulates(w, c, s, a) && GateSafe(w, c, s, a) && ReadsSafe(w, c, s, a) && LoadPhase(c, s).Running?
    ensures ReadsSafe(w, c, LoadPhase(c, s).s, a)
  {
    var s' := LoadPhase(c, s).s;
    LoadShape(c, s);
    forall i, j | 0 <= j < i < |s'.rob| && Holds(w, c, s', a, i) ensures !Overlaps(c, At(c, s'.rob, a, j), At(c, s'.rob, a, i)) {
      PathSame(c, s.rob, s'.rob, a, i);
      PathSame(c, s.rob, s'.rob, a, j);
      NewReads(c, s, i);
      if HasRead(s, s.rob[i]) {
        assert Holds(w, c, s, a, i);
      } else {
        OverlapIsMissed(w, c, s, a, i, j);
      }
    }
  }

  lemma IssueOneKeeps(w: Scope, c: Core, s: Machine, a: State, id: Tag)
    requires Inv(c, s) && Free(s, id) && ReadsSafe(w, c, s, a)
    ensures ReadsSafe(w, c, IssueOne(c, s, id), a)
  {
    var s' := IssueOne(c, s, id);
    FreeIsOut(s, id);
    forall i, j | 0 <= j < i < |s'.rob| && Holds(w, c, s', a, i) ensures !Overlaps(c, At(c, s'.rob, a, j), At(c, s'.rob, a, i)) {
      assert i < |s.rob|;
      PathSame(c, s.rob, s'.rob, a, i);
      PathSame(c, s.rob, s'.rob, a, j);
      assert s.rob[i].id != id;
      assert Holds(w, c, s, a, i);
    }
  }

  lemma IssueKeeps(w: Scope, c: Core, s: Machine, a: State, ids: Tags)
    requires Inv(c, s) && FreeTags(s, ids) && ReadsSafe(w, c, s, a)
    ensures ReadsSafe(w, c, Issue(c, s, ids), a)
  {
    if !Stalled(s) {
      IssueOneKeeps(w, c, s, a, ids.0);
      if !EndsGroup(Fetch(c, s.pc)) {
        IssueOneInv(c, s, ids.0);
        IssueOneKeeps(w, c, IssueOne(c, s, ids.0), a, ids.1);
      }
    }
  }

  lemma PopKeeps(w: Scope, c: Core, s: Machine, s': Machine, a: State)
    requires Simulates(w, c, s, a) && ReadsSafe(w, c, s, a) && SameBuffers(s, s') && Step(c, a).Ok?
    requires s'.rob != [] ==> s'.rob[0].pc == Step(c, a).value.pc
    ensures ReadsSafe(w, c, s', Step(c, a).value)
  {
    var b := Step(c, a).value;
    forall i, j | 0 <= j < i < |s'.rob| && Holds(w, c, s', b, i) ensures !Overlaps(c, At(c, s'.rob, b, j), At(c, s'.rob, b, i)) {
      PathShifts(w, c, s, a, b, i);
      PathShifts(w, c, s, a, b, j);
      assert Holds(w, c, s, a, i + 1);
    }
  }

  // ---- Clocks and runs ----

  /** Reads are safe where `n` instructions after `a` have retired. */
  ghost predicate SafeAfter(w: Scope, c: Core, a: State, n: nat, o: Outcome) {
    o.Running? && Run(c, a, n).Ok? ==> ReadsSafe(w, c, o.s, Run(c, a, n).value)
  }

  lemma SafeAfterStep(w: Scope, c: Core, a: State, n: nat, o: Outcome)
    requires Step(c, a).Ok? && SafeAfter(w, c, Step(c, a).value, n, o)
    ensures SafeAfter(w, c, a, n + 1, o)
  {
  }

  lemma {:induction false} CommitKeeps(w: Scope, c: Core, s: Machine, a: State)
    requires Simulates(w, c, s, a) && ReadsSafe(w, c, s, a) && EcallsPlain(c) && JumpsOk(c, a, |Commit(c, s).retired|)
    ensures SafeAfter(w, c, a, |Commit(c, s).retired|, Commit(c, s).outcome)
    decreases |s.rob|
  {
    assert Run(c, a, 0) == Ok(a);
    if s.rob != [] && IsCompleted(s.rob[0]) {
      var r := Retire(c, s.(rob := s.rob[1..]), s.rob[0]);
      if r.Retired? {
        assert r.s.(rob := s.rob[1..]) == r.s by { RetiredFrame(c, s, r.s); }
        assert TargetOk(c, a);
        RetiredKeeps(w, c, s, a, r.s);
        JumpsNext(c, a, |Commit(c, r.s).retired|);
        CommitKeeps(w, c, r.s, Step(c, a).value);
        SafeAfterStep(w, c, a, |Commit(c, r.s).retired|, Commit(c, r.s).outcome);
      }
    }
  }

  lemma RetiredKeeps(w: Scope, c: Core, s: Machine, a: State, s': Machine)
    requires Simulates(w, c, s, a) && ReadsSafe(w, c, s, a) && EcallsPlain(c) && TargetOk(c, a) && s.rob != [] && IsCompleted(s.rob[0])
    requires Retire(c, s.(rob := s.rob[1..]), s.rob[0]) == Retired(s')
    ensures Step(c, a).Ok? && Simulates(w, c, s', Step(c, a).value) && ReadsSafe(w, c, s', Step(c, a).value)
  {
    RetiredSimulates(w, c, s, a, s');
    RetiredFrame(c, s, s');
    PopKeeps(w, c, s, s', a);
  }

  /** From commit to the store phase: the relation holds, the head has not written, and reads are safe. */
  lemma UpToStore(w: Scope, c: Core, s: Machine, a: State)
    requires Simulates(w, c, s, a) && ReadsSafe(w, c, s, a) && !HeadWritten(s) && Sound(c)
    requires GateSafe(w, c, AddressPhase(WriteResult(s)), a) && LoadPhase(c, AddressPhase(WriteResult(s))).Running?
    ensures var t := LoadPhase(c, AddressPhase(WriteResult(s))).s;
      Simulates(w, c, t, a) && ReadsSafe(w, c, t, a) && !HeadWritten(t)
  {
    WriteKeeps(w, c, s, a);
    WriteResultSimulates(w, c, s, a);
    var s1 := WriteResult(s);
    AddressKeeps(w, c, s1, a);
    AddressSimulates(w, c, s1, a);
    LoadKeeps(w, c, AddressPhase(s1), a);
    LoadSimulates(w, c, AddressPhase(s1), a);
  }

  /** In every clock of a run: how the state in which the head may write relates to the sequential run. */
  lemma ClockUpToStore(w: Scope, c: Core, s: Machine, a: State, tags: seq<Tags>)
    requires Simulates(w, c, s, a) && ReadsSafe(w, c, s, a) && Admissible(w, c, s, a, tags) && tags != [] && GoesOn(c, s)
    ensures JumpsOk(c, a, |Commit(c, s).retired|) && Run(c, a, |Commit(c, s).retired|).Ok?
    ensures var t, b := BeforeStore(c, s), Run(c, a, |Commit(c, s).retired|).value;
      Simulates(w, c, t, b) && ReadsSafe(w, c, t, b) && !HeadWritten(t)
  {
    assert Clock(c, s, tags[0]).retired == Commit(c, s).retired;
    assert JumpsOk(c, a, |Commit(c, s).retired|);
    CommitRefines(w, c, s, a);
    CommitKeeps(w, c, s, a);
    UpToStore(w, c, Commit(c, s).outcome.s, Run(c, a, |Commit(c, s).retired|).value);
  }

  lemma ClockKeeps(w: Scope, c: Core, s: Machine, a: State, tags: seq<Tags>)
    requires Simulates(w, c, s, a) && ReadsSafe(w, c, s, a) && Admissible(w, c, s, a, tags) && tags != [] && Alive(Clock(c, s, tags[0]))
    ensures SafeAfter(w, c, a, |Clock(c, s, tags[0]).retired|, Clock(c, s, tags[0]).outcome)
  {
    GoesOnClock(c, s, tags[0]);
    ClockUpToStore(w, c, s, a, tags);
    var t, b := BeforeStore(c, s), Run(c, a, |Commit(c, s).retired|).value;
    StoreStationKeep(w, c, t, b);
    StoreInv(c, t);
    StationInv(c, StorePhase(c, t).s);
    IssueKeeps(w, c, BeforeIssue(c, s), b, tags[0]);
  }

  /** State `s` is where the sequential run from `a` is after `n` instructions, and reads are safe in it. */
  ghost predicate Tracks(w: Scope, c: Core, s: Machine, a: State, n: nat) {
    Run(c, a, n).Ok? && Simulates(w, c, s, Run(c, a, n).value) && ReadsSafe(w, c, s, Run(c, a, n).value)
  }

  lemma TracksPlus(w: Scope, c: Core, s: Machine, a: State, m: nat, n: nat, k: nat)
    requires Run(c, a, m).Ok? && Tracks(w, c, s, Run(c, a, m).value, n) && k == m + n
    ensures Tracks(w, c, s, a, k)
  {
    RunSplit(c, a, m, n, k);
  }

  lemma NextTracks(w: Scope, c: Core, s: Machine, a: State, tags: seq<Tags>)
    requires Simulates(w, c, s, a) && ReadsSafe(w, c, s, a) && Admissible(w, c, s, a, tags) && tags != [] && Alive(Clock(c, s, tags[0]))
    ensures var first := Clock(c, s, tags[0]);
      Tracks(w, c, first.outcome.s, a, |first.retired|) && Admissible(w, c, first.outcome.s, Run(c, a, |first.retired|).value, tags[1..])
  {
    NextAdmissible(w, c, s, a, tags);
    ClockKeeps(w, c, s, a, tags);
  }

  /** In every state of a run nothing older than an entry that has read will write what it has read. */
  lemma {:induction false} RunReadsSafe(w: Scope, c: Core, s: Machine, a: State, tags: seq<Tags>)
    requires Simulates(w, c, s, a) && ReadsSafe(w, c, s, a) && Admissible(w, c, s, a, tags) && Alive(Cycles(c, s, tags))
    ensures Tracks(w, c, Cycles(c, s, tags).outcome.s, a, |Cycles(c, s, tags).retired|)
    decreases |tags|
  {
    if tags == [] {
      assert Run(c, a, 0) == Ok(a);
    } else {
      var first := Clock(c, s, tags[0]);
      NextTracks(w, c, s, a, tags);
      var rest := Cycles(c, first.outcome.s, tags[1..]);
      RunReadsSafe(w, c, first.outcome.s, Run(c, a, |first.retired|).value, tags[1..]);
      assert Cycles(c, s, tags) == Following(first.retired, rest);
      TracksPlus(w, c, rest.outcome.s, a, |first.retired|, |rest.retired|, |Following(first.retired, rest).retired|);
    }
  }

  /** The core at power-on, and the sequential machine. */
  ghost predicate PoweredOn(s: Machine, a: State) {
    s == Initial(a.pc, a.mem, a.regs[2]) && s.gpr == a.regs
  }

  /** From power-on: what is assumed of the clocks after a run carries over. */
  lemma Reached(w: Scope, c: Core, s: Machine, a: State, p: seq<Tags>, q: seq<Tags>)
    requires PoweredOn(s, a) && Admissible(w, c, s, a, p + q) && Alive(Cycles(c, s, p))
    ensures var r := Cycles(c, s, p);
      Tracks(w, c, r.outcome.s, a, |r.retired|) && Admissible(w, c, r.outcome.s, Run(c, a, |r.retired|).value, q)
  {
    InitialSimulates(w, c, a.pc, a.mem, a.regs[2]);
    AdmissiblePlus(w, c, s, a, p, q);
    RunReadsSafe(w, c, s, a, p);
  }

  // ---- What a write spares ----

  /** In the clock after the run over `p` the head writes. */
  predicate WritesAfter(c: Core, s: Machine, p: seq<Tags>) {
    var r := Cycles(c, s, p);
    Alive(r) && GoesOn(c, r.outcome.s) && CanWrite(BeforeStore(c, r.outcome.s))
  }

  /** The state in which it does, and how many instructions have retired by then. */
  function WritingState(c: Core, s: Machine, p: seq<Tags>): Machine
    requires WritesAfter(c, s, p)
  {
    BeforeStore(c, Cycles(c, s, p).outcome.s)
  }

  function RetiredBefore(c: Core, s: Machine, p: seq<Tags>): nat
    requires WritesAfter(c, s, p)
  {
    |Cycles(c, s, p).retired| + |Commit(c, Cycles(c, s, p).outcome.s).retired|
  }

  lemma AtWrite(w: Scope, c: Core, s: Machine, a: State, p: seq<Tags>, ids: Tags)
    requires PoweredOn(s, a) && Admissible(w, c, s, a, p + [ids]) && WritesAfter(c, s, p)
    ensures Tracks(w, c, WritingState(c, s, p), a, RetiredBefore(c, s, p)) && !HeadWritten(WritingState(c, s, p))
  {
    Reached(w, c, s, a, p, [ids]);
    var r := Cycles(c, s, p);
    ClockUpToStore(w, c, r.outcome.s, Run(c, a, |r.retired|).value, [ids]);
    TracksPlus(w, c, WritingState(c, s, p), a, |r.retired|, |Commit(c, r.outcome.s).retired|, RetiredBefore(c, s, p));
  }

  /** What the head is about to write overlaps nothing that entry `i` has read. */
  ghost predicate Spared(s: Machine, i: nat)
    requires i < |s.rob|
  {
    var e, head := s.rob[i], WriteOf(s.rob[0]);
    e.addr.Value? && Disjoint(e.addr.v, Width(e.inst.func), head.addr, Width(head.func))
  }

  /** In every clock of every run from power-on: what the head writes overlaps nothing that a younger
      load or atomic has read and not yet retired with. */
  lemma WritesSpareReads(w: Scope, c: Core, s: Machine, a: State, p: seq<Tags>, ids: Tags)
    requires PoweredOn(s, a) && Admissible(w, c, s, a, p + [ids]) && WritesAfter(c, s, p)
    ensures Run(c, a, RetiredBefore(c, s, p)).Ok?
    ensures var t, b := WritingState(c, s, p), Run(c, a, RetiredBefore(c, s, p)).value;
      forall i :: 0 < i < |t.rob| && Holds(w, c, t, b, i) ==> Spared(t, i)
  {
    AtWrite(w, c, s, a, p, ids);
    var t, b := WritingState(c, s, p), Run(c, a, RetiredBefore(c, s, p)).value;
    forall i | 0 < i < |t.rob| && Holds(w, c, t, b, i) ensures Spared(t, i) {
      HeadSpares(w, c, t, b, i);
    }
  }

  lemma HeadSpares(w: Scope, c: Core, s: Machine, a: State, i: nat)
    requires Simulates(w, c, s, a) && ReadsSafe(w, c, s, a) && CanWrite(s) && 0 < i < |s.rob| && Holds(w, c, s, a, i)
    ensures Spared(s, i)
  {
    assert CountdownOk(s, i) && Filed(c, s, i) by { assert SlotOk(c, s, i); }
    assert Filed(c, s, 0) by { assert SlotOk(c, s, 0); }
    AddrExact(w, c, s, a, i);
    CoveredBelow(w, c, s.rob, a, i, 0);
    AddrExact(w, c, s, a, 0);
    assert !Overlaps(c, At(c, s.rob, a, 0), At(c, s.rob, a, i));
  }

  /** In every clock of every run from power-on in which an atomic writes: memory still holds the word it
      has read, and returns in rd; what it writes is computed from that word and rs2. */
  lemma AtomicWrites(w: Scope, c: Core, s: Machine, a: State, p: seq<Tags>, ids: Tags)
    requires PoweredOn(s, a) && Admissible(w, c, s, a, p + [ids])
    requires WritesAfter(c, s, p) && ReadsMem(WritingState(c, s, p).rob[0].inst)
    ensures var t, r := WritingState(c, s, p), Clock(c, Cycles(c, s, p).outcome.s, ids);
      var e := t.rob[0];
      && r.outcome.Running? && e.addr == Value(t.gpr[Rs1(e.inst)]) && e.regValue.Some?
      && c.load(e.inst.func, t.mem, e.addr.v) == Ok(e.regValue.value)
      && c.store(e.inst.func, t.mem, e.addr.v, c.amo(e.inst.func, e.regValue.value, t.gpr[Rs2(e.inst)])) == Ok(r.outcome.s.mem)
  {
    AtWrite(w, c, s, a, p, ids);
    AroundStore(c, Cycles(c, s, p).outcome.s, ids);
    AmoAtomic(w, c, WritingState(c, s, p), Run(c, a, RetiredBefore(c, s, p)).value);
  }

  // ---- From the read of an atomic to its write ----

  lemma {:induction false} WriterFrom(retired: seq<RobEntry>, x: Write) returns (j: nat)
    requires x in Writers(retired)
    ensures j < |retired| && WritesMem(retired[j].inst) && x == WriteOf(retired[j])
  {
    if WritesMem(retired[0].inst) && x == WriteOf(retired[0]) {
      j := 0;
    } else {
      var k := WriterFrom(retired[1..], x);
      j := k + 1;
    }
  }

  /** A write is disjoint from the `width` bytes at `a`. */
  ghost predicate Avoids(x: Write, a: u32, width: nat) {
    Disjoint(a, width, x.addr, Width(x.func))
  }

  /** The writes of what retires before an entry that has read avoid what it has read. */
  lemma OlderAvoid(w: Scope, c: Core, s: Machine, a: State, i: nat, retired: seq<RobEntry>)
    requires Simulates(w, c, s, a) && ReadsSafe(w, c, s, a) && i < |s.rob| && OnPath(c, s.rob, a, i) && Holds(w, c, s, a, i)
    requires IsPath(c, a, retired) && i <= |retired|
    ensures forall x :: x in Writers(retired[..i]) ==> Avoids(x, Address(s.rob[i].inst, At(c, s.rob, a, i).regs), Width(s.rob[i].inst.func))
  {
    forall x | x in Writers(retired[..i])
      ensures Avoids(x, Address(s.rob[i].inst, At(c, s.rob, a, i).regs), Width(s.rob[i].inst.func))
    {
      var j := WriterFrom(retired[..i], x);
      OlderPlain(c, s, i);
      RunAt(c, s.rob, a, j);
      assert RetiredAs(c, retired[j], Run(c, a, j).value);
      assert !Overlaps(c, At(c, s.rob, a, j), At(c, s.rob, a, i));
      assert Filed(c, s, i) by { assert SlotOk(c, s, i); }
    }
  }

  lemma SplitWriters(retired: seq<RobEntry>, i: nat)
    requires i < |retired| && WritesMem(retired[i].inst)
    ensures Writers(retired) == Writers(retired[..i]) + [WriteOf(retired[i])] + Writers(retired[i + 1..])
  {
    assert retired == retired[..i] + retired[i..] && retired[i..] == [retired[i]] + retired[i + 1..];
    WritersAppend(retired[..i], retired[i..]);
    WritersCons(retired[i], retired[i + 1..]);
  }

  /** What an atomic has read and returns, and what it writes. */
  ghost predicate Atomically(c: Core, e: RobEntry, x: State, word: u32) {
    && RetiredAs(c, e, x) && e.regValue == Some(word)
    && c.load(e.inst.func, x.mem, Address(e.inst, x.regs)) == Ok(word)
    && WriteOf(e) == Write(x.pc, e.inst.func, Address(e.inst, x.regs), c.amo(e.inst.func, word, x.regs[Rs2(e.inst)]))
  }

  /** Entry `i` is an atomic, and has read the word it will return. */
  ghost predicate AtomicRead(s: Machine, i: nat) {
    i < |s.rob| && ReadsMem(s.rob[i].inst) && WritesMem(s.rob[i].inst) && HasRead(s, s.rob[i]) && !HasTrapped(s, s.rob[i])
  }

  /** Of a run from `s` whose writes are `log` and whose end is `r`, entry `i` retiring in it: before its
      write, only older instructions have written, and nothing of what it has read. */
  ghost predicate WrittenAround(s: Machine, i: nat, log: seq<Write>, r: Clocked)
    requires i < |s.rob|
  {
    && r.outcome.Running? && i < |r.retired|
    && Early(s) + log == Writers(r.retired[..i]) + [WriteOf(r.retired[i])] + (Writers(r.retired[i + 1..]) + Early(r.outcome.s))
    && forall x :: x in Writers(r.retired[..i]) ==> Avoids(x, WriteOf(r.retired[i]).addr, Width(s.rob[i].inst.func))
  }

  lemma AroundIs(s: Machine, i: nat, log: seq<Write>, r: Clocked)
    requires i < |s.rob| && r.outcome.Running? && i < |r.retired| && WritesMem(r.retired[i].inst)
    requires Early(s) + log == Writers(r.retired) + Early(r.outcome.s)
    requires forall x :: x in Writers(r.retired[..i]) ==> Avoids(x, WriteOf(r.retired[i]).addr, Width(s.rob[i].inst.func))
    ensures WrittenAround(s, i, log, r)
  {
    SplitWriters(r.retired, i);
  }

  /** The retiring atomic has returned and written what the sequential machine does. */
  lemma AtomicRetires(w: Scope, c: Core, s: Machine, a: State, i: nat, r: Clocked)
    requires Simulates(w, c, s, a) && ReadsSafe(w, c, s, a) && AtomicRead(s, i) && OnPath(c, s.rob, a, i)
    requires IsPath(c, a, r.retired) && i < |r.retired|
    ensures WritesMem(r.retired[i].inst)
    ensures Run(c, a, i).Ok? && Atomically(c, r.retired[i], Run(c, a, i).value, ReadWord(s, s.rob[i]))
    ensures forall x :: x in Writers(r.retired[..i]) ==> Avoids(x, WriteOf(r.retired[i]).addr, Width(s.rob[i].inst.func))
  {
    OlderPlain(c, s, i);
    RunAt(c, s.rob, a, i);
    assert RetiredAs(c, r.retired[i], Run(c, a, i).value);
    OlderAvoid(w, c, s, a, i, r.retired);
    ReadIsExact(w, c, s, a, i, r.retired[i]);
  }

  lemma AtomicFrom(w: Scope, c: Core, s: Machine, a: State, tags: seq<Tags>, i: nat)
    requires Simulates(w, c, s, a) && ReadsSafe(w, c, s, a) && Admissible(w, c, s, a, tags)
    requires AtomicRead(s, i) && OnPath(c, s.rob, a, i)
    requires var r := Cycles(c, s, tags); r.outcome.Running? && NoTrap(r.outcome.s) && i < |r.retired|
    ensures WrittenAround(s, i, Log(c, s, tags), Cycles(c, s, tags))
    ensures Run(c, a, i).Ok? && Atomically(c, Cycles(c, s, tags).retired[i], Run(c, a, i).value, ReadWord(s, s.rob[i]))
  {
    RunRefines(w, c, s, a, tags);
    AtomicRetires(w, c, s, a, i, Cycles(c, s, tags));
    StoresExactlyOnce(c, s, tags);
    AroundIs(s, i, Log(c, s, tags), Cycles(c, s, tags));
  }

  /** After the run over `p` from power-on, an atomic on the path has read memory as entry `i`, and in the
      run over `q` that follows it retires. */
  ghost predicate ReadsThenRetires(c: Core, s: Machine, a: State, p: seq<Tags>, q: seq<Tags>, i: nat) {
    && Alive(Cycles(c, s, p))
    && var t, n := Cycles(c, s, p).outcome.s, |Cycles(c, s, p).retired|;
    && AtomicRead(t, i) && Run(c, a, n).Ok? && OnPath(c, t.rob, Run(c, a, n).value, i)
    && var r := Cycles(c, t, q);
       r.outcome.Running? && NoTrap(r.outcome.s) && i < |r.retired|
  }

  /** Atomicity over every run from power-on. All that is written from the clock of an atomic's read on
      is, in order: what older instructions write, which overlaps nothing of the word read; the atomic's
      own write, of that word and rs2; and what comes later. The word read is what the sequential machine
      finds in memory there, and goes to rd. */
  lemma AtomicInRun(w: Scope, c: Core, s: Machine, a: State, p: seq<Tags>, q: seq<Tags>, i: nat, k: nat)
    requires PoweredOn(s, a) && Admissible(w, c, s, a, p + q) && ReadsThenRetires(c, s, a, p, q, i)
    requires k == |Cycles(c, s, p).retired| + i
    ensures var t := Cycles(c, s, p).outcome.s;
      && WrittenAround(t, i, Log(c, t, q), Cycles(c, t, q))
      && Run(c, a, k).Ok? && Atomically(c, Cycles(c, t, q).retired[i], Run(c, a, k).value, ReadWord(t, t.rob[i]))
  {
    Reached(w, c, s, a, p, q);
    var t, n := Cycles(c, s, p).outcome.s, |Cycles(c, s, p).retired|;
    AtomicFrom(w, c, t, Run(c, a, n).value, q, i);
    RunSplit(c, a, n, i, k);
  }

  lemma ReadIsExact(w: Scope, c: Core, s: Machine, a: State, i: nat, e: RobEntry)
    requires Simulates(w, c, s, a) && i < |s.rob| && OnPath(c, s.rob, a, i)
    requires ReadsMem(s.rob[i].inst) && WritesMem(s.rob[i].inst) && HasRead(s, s.rob[i]) && !HasTrapped(s, s.rob[i])
    requires RetiredAs(c, e, At(c, s.rob, a, i))
    ensures Atomically(c, e, At(c, s.rob, a, i), ReadWord(s, s.rob[i])) && e.inst == s.rob[i].inst
  {
    assert Filed(c, s, i) && CountdownOk(s, i) by { assert SlotOk(c, s, i); }
    assert LoadExact(c, s, s.rob[i], At(c, s.rob, a, i));
  }
}
