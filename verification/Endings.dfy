/** How runs end, and when: refinement and liveness together. */
module Endings {
  import opened Isa
  import opened OutOfOrder
  import opened Invariant
  import opened Simulation
  import opened SimulationCommit
  import opened Panics
  import opened Refinement
  import opened Runs
  import opened Liveness
  import opened Ledgers

  /** The next instruction is an exit system call: exit or exit_group in a7. */
  ghost predicate ExitCall(c: Core, a: State) {
    IsEcall(Fetch(c, a.pc)) && a.regs[17] in {93, 94}
  }

  /** One of the next `n` instructions of the sequential run is an exit system call. */
  ghost predicate ExitsWithin(c: Core, a: State, n: nat) {
    exists k: nat {:trigger Run(c, a, k)} :: k < n && Run(c, a, k).Ok? && ExitCall(c, Run(c, a, k).value)
  }

  // ---- Exit ----

  /** A system call is the last instruction its commit retires. */
  lemma EcallIsLast(c: Core, s: Machine, j: nat)
    requires Inv(c, s) && j < |Commit(c, s).retired| && IsEcall(Commit(c, s).retired[j].inst)
    ensures j == |Commit(c, s).retired| - 1 && Commit(c, s).outcome.Running?
  {
    CommitConserves(c, s);
    assert Commit(c, s).retired[j] == s.rob[j];
  }

  /** A system call leaves a7 alone. */
  lemma EcallKeepsNumber(c: Core, a: State, n: nat, m: nat)
    requires Run(c, a, n).Ok? && IsEcall(Fetch(c, Run(c, a, n).value.pc)) && m == n + 1 && Run(c, a, m).Ok?
    ensures Run(c, a, m).value.regs[17] == Run(c, a, n).value.regs[17]
  {
    RunSnoc(c, a, n);
  }

  /** How `r` ends: by the exit exactly if an exit system call of the sequential machine has retired, and
      then nothing has retired behind the first. */
  ghost predicate EndsByExit(c: Core, a: State, r: Clocked) {
    && (r.exited <==> ExitsWithin(c, a, |r.retired|))
    && (r.exited ==> r.outcome.Running? && |r.retired| > 0 && !ExitsWithin(c, a, |r.retired| - 1))
  }

  lemma RetiredCall(c: Core, s: Machine, a: State, k: nat)
    requires Inv(c, s) && IsPath(c, a, Commit(c, s).retired) && k < |Commit(c, s).retired|
    ensures Commit(c, s).retired[k].inst == Fetch(c, Run(c, a, k).value.pc)
    ensures IsEcall(Fetch(c, Run(c, a, k).value.pc)) ==> k == |Commit(c, s).retired| - 1 && Commit(c, s).outcome.Running?
  {
    assert RetiredAs(c, Commit(c, s).retired[k], Run(c, a, k).value);
    if IsEcall(Commit(c, s).retired[k].inst) { EcallIsLast(c, s, k); }
  }

  lemma NoEarlyExit(c: Core, s: Machine, a: State, n: nat)
    requires Inv(c, s) && IsPath(c, a, Commit(c, s).retired)
    requires n < |Commit(c, s).retired| || (n == |Commit(c, s).retired| && Commit(c, s).outcome.Panic?)
    ensures !ExitsWithin(c, a, n)
  {
    if ExitsWithin(c, a, n) {
      var k: nat :| k < n && Run(c, a, k).Ok? && ExitCall(c, Run(c, a, k).value);
      RetiredCall(c, s, a, k);
    }
  }

  lemma ExitsAtLast(c: Core, a: State, m: nat, n: nat)
    requires Run(c, a, m).Ok? && n == m + 1 && !ExitsWithin(c, a, m)
    ensures ExitsWithin(c, a, n) <==> ExitCall(c, Run(c, a, m).value)
  {
  }

  lemma FinishedAtLast(t: Machine, retired: seq<RobEntry>, m: nat)
    requires |retired| == m + 1 && forall i :: 0 <= i < m ==> !IsEcall(retired[i].inst)
    ensures IsFinished(t, retired) <==> IsEcall(retired[m].inst) && t.gpr[17] in {93, 94}
  {
  }

  /** The last retired instruction decides, if no other is a system call. */
  lemma LastDecides(c: Core, a: State, t: Machine, retired: seq<RobEntry>, m: nat)
    requires Run(c, a, m).Ok? && Run(c, a, |retired|).Ok? && |retired| == m + 1
    requires retired[m].inst == Fetch(c, Run(c, a, m).value.pc) && t.gpr == Run(c, a, |retired|).value.regs
    requires (forall i :: 0 <= i < m ==> !IsEcall(retired[i].inst)) && !ExitsWithin(c, a, m)
    ensures IsFinished(t, retired) <==> ExitsWithin(c, a, |retired|)
  {
    FinishedAtLast(t, retired, m);
    if IsEcall(retired[m].inst) { EcallKeepsNumber(c, a, m, |retired|); }
    ExitsAtLast(c, a, m, |retired|);
  }

  /** A commit that does not panic finds the program finished exactly when it has retired an exit call. */
  lemma CommitFinishes(w: Scope, c: Core, s: Machine, a: State)
    requires Simulates(w, c, s, a) && RefinesCommit(w, c, a, Commit(c, s), CommitEnd(c, s)) && Commit(c, s).outcome.Running?
    ensures var r := Commit(c, s); IsFinished(r.outcome.s, r.retired) <==> ExitsWithin(c, a, |r.retired|)
  {
    var r := Commit(c, s);
    if r.retired != [] {
      var m := |r.retired| - 1;
      RetiredCall(c, s, a, m);
      NoEarlyExit(c, s, a, m);
      forall i | 0 <= i < m ensures !IsEcall(r.retired[i].inst) {
        if IsEcall(r.retired[i].inst) { EcallIsLast(c, s, i); }
      }
      LastDecides(c, a, r.outcome.s, r.retired, m);
    }
  }

  lemma ExitsSplit(c: Core, a: State, m: nat, k: nat, n: nat)
    requires Run(c, a, m).Ok? && n == m + k && !ExitsWithin(c, a, m)
    ensures ExitsWithin(c, a, n) <==> ExitsWithin(c, Run(c, a, m).value, k)
  {
    var b := Run(c, a, m).value;
    if ExitsWithin(c, a, n) {
      var j: nat :| j < n && Run(c, a, j).Ok? && ExitCall(c, Run(c, a, j).value);
      assert j >= m;
      var i: nat := j - m;
      RunSplit(c, a, m, i, j);
      assert Run(c, b, i).Ok?;
    }
    if ExitsWithin(c, b, k) {
      var i: nat :| i < k && Run(c, b, i).Ok? && ExitCall(c, Run(c, b, i).value);
      var j := m + i;
      RunSplit(c, a, m, i, j);
      assert Run(c, a, j).Ok?;
    }
  }

  lemma ClockExits(w: Scope, c: Core, s: Machine, a: State, tags: seq<Tags>)
    requires Simulates(w, c, s, a) && Admissible(w, c, s, a, tags) && tags != []
    ensures EndsByExit(c, a, Clock(c, s, tags[0]))
  {
    var r := Commit(c, s);
    assert JumpsOk(c, a, |r.retired|);
    CommitRefines(w, c, s, a);
    if r.outcome.Panic? { NoEarlyExit(c, s, a, |r.retired|); } else { CommitFinishes(w, c, s, a); }
    if |r.retired| > 0 { NoEarlyExit(c, s, a, |r.retired| - 1); }
  }

  /** A clock that goes on, and what follows it. */
  lemma ThenExits(c: Core, a: State, first: Clocked, rest: Clocked)
    requires EndsByExit(c, a, first) && !first.exited && Run(c, a, |first.retired|).Ok?
    requires EndsByExit(c, Run(c, a, |first.retired|).value, rest)
    ensures EndsByExit(c, a, Following(first.retired, rest))
  {
    var r := Following(first.retired, rest);
    ExitsSplit(c, a, |first.retired|, |rest.retired|, |r.retired|);
    if rest.exited { ExitsSplit(c, a, |first.retired|, |rest.retired| - 1, |r.retired| - 1); }
  }

  /** A run is left by an exit system call exactly when the sequential machine has executed one among the
      instructions that have retired, whatever else ends the run; and nothing retires behind it. */
  lemma {:induction false} RunExits(w: Scope, c: Core, s: Machine, a: State, tags: seq<Tags>)
    requires Simulates(w, c, s, a) && Admissible(w, c, s, a, tags)
    ensures EndsByExit(c, a, Cycles(c, s, tags))
    decreases |tags|
  {
    if tags != [] {
      ClockExits(w, c, s, a, tags);
      var first := Clock(c, s, tags[0]);
      if Alive(first) {
        NextAdmissible(w, c, s, a, tags);
        var rest := Cycles(c, first.outcome.s, tags[1..]);
        RunExits(w, c, first.outcome.s, Run(c, a, |first.retired|).value, tags[1..]);
        ThenExits(c, a, first, rest);
        assert Cycles(c, s, tags) == Following(first.retired, rest);
      }
    }
  }

  // ---- In time ----

  /** A run of more than k * (MEM_CYCLE + 2) clocks that still goes on has retired at least the first `k`
      instructions of the sequential run, as the sequential machine executes them, and no exit is among
      them. */
  lemma Progress(w: Scope, c: Core, s: Machine, a: State, tags: seq<Tags>, k: nat)
    requires Simulates(w, c, s, a) && Admissible(w, c, s, a, tags) && |tags| > (MEM_CYCLE + 2) * k
    requires Alive(Cycles(c, s, tags))
    ensures |Cycles(c, s, tags).retired| >= k && IsPath(c, a, Cycles(c, s, tags).retired) && !ExitsWithin(c, a, k)
  {
    ThroughputFromAnywhere(c, s, tags, k);
    RunRefines(w, c, s, a, tags);
    RunExits(w, c, s, a, tags);
  }

  lemma IsPathStops(c: Core, a: State, retired: seq<RobEntry>, n: nat)
    requires IsPath(c, a, retired) && Run(c, a, n).Err?
    ensures |retired| < n
  {
  }

  /** A fault is not lost. If the sequential machine faults within its first `n` instructions, every run of
      more than n * (MEM_CYCLE + 2) clocks has ended without retiring them all; and unless the sequential
      machine exits before, it has ended in a panic, which is explained. */
  lemma FaultNotLost(w: Scope, c: Core, s: Machine, a: State, tags: seq<Tags>, n: nat)
    requires Simulates(w, c, s, a) && Admissible(w, c, s, a, tags) && |tags| > (MEM_CYCLE + 2) * n
    requires Run(c, a, n).Err?
    ensures var r := Cycles(c, s, tags);
      && !Alive(r) && |r.retired| < n && Refines(w, c, a, r, StopOf(c, s, tags))
      && (r.outcome.Panic? || ExitsWithin(c, a, n - 1))
  {
    var r := Cycles(c, s, tags);
    RunRefines(w, c, s, a, tags);
    IsPathStops(c, a, r.retired, n);
    if Alive(r) { Progress(w, c, s, a, tags, n); }
    RunExits(w, c, s, a, tags);
  }

  /** An exit is not lost. If instruction `n` of the sequential run is its first exit system call, every run
      of more than (n + 1) * (MEM_CYCLE + 2) clocks has ended: by the exit, with exactly the instructions up
      to the call retired, or in a panic before the call retires. */
  lemma ExitNotLost(w: Scope, c: Core, s: Machine, a: State, tags: seq<Tags>, n: nat)
    requires Simulates(w, c, s, a) && Admissible(w, c, s, a, tags) && |tags| > (MEM_CYCLE + 2) * (n + 1)
    requires Run(c, a, n).Ok? && ExitCall(c, Run(c, a, n).value) && !ExitsWithin(c, a, n)
    ensures var r := Cycles(c, s, tags);
      if r.outcome.Running? then r.exited && |r.retired| == n + 1 else |r.retired| <= n
  {
    var r := Cycles(c, s, tags);
    RunExits(w, c, s, a, tags);
    if Alive(r) { Progress(w, c, s, a, tags, n + 1); }
  }
}
