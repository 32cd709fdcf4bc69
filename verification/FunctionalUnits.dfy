/** The address unit and the load buffer as objects (src/pipeline/functional_units/address.rs,
    src/pipeline/load_buffer.rs). Their hash maps are traversed in an arbitrary order: `:|` picks
    any key left. */
module FunctionalUnits {
  import opened Words
  import opened Instructions
  import opened ByteMemory
  import opened Isa
  import opened OutOfOrder
  import opened Invariant
  import opened InvariantExecute
  import opened Registers
  import opened ReorderBuffers

  class AddressUnit {
    var buf: map<Tag, RsEntry>

    constructor ()
      ensures buf == map[]
    {
      buf := map[];
    }

    method Clear()
      modifies this
      ensures buf == map[]
    {
      buf := map[];
    }

    method Issue(t: Tag, i: Inst, reg: RegisterFile, rob: seq<RobEntry>, ghost s: Machine)
      requires reg.Reflects(s, rob)
      modifies this
      ensures buf == old(buf)[t := NewAddressEntry(s, i, t)]
    {
      var op := reg.GetRegValue(Rs1(i), rob, s);
      buf := buf[t := RsEntry(t, Wait, i, op, Value(Imm(i)), 0, 1)];
    }

    method Propagate(t: Tag, job: Job)
      modifies this
      ensures buf == WokenAddresses(old(buf), map[t := job])
    {
      var todo := buf.Keys;
      while todo != {}
        invariant todo <= buf.Keys == old(buf).Keys
        invariant forall k :: k in buf ==>
          buf[k] == if k in todo then old(buf)[k] else WakeAddress(old(buf)[k], map[t := job])
      {
        var k :| k in todo;
        todo := todo - {k};
        var e := buf[k];
        if e.op1 == Rob(t) { e := e.(op1 := Value(job.value)); }
        buf := buf[k := e];
      }
    }

    /** Compute one address, and the jump target if it is a JALR's (else 0). */
    method ComputeOne(k: Tag, rob: ReorderBuffer, ghost s: Machine, ghost finished: set<Tag>) returns (target: u32)
      requires AddressKeys(s) && s.addressUnit == buf && AddressReady(s, k)
      requires k !in finished && AddressedBy(s, finished, rob.buf)
      modifies rob
      ensures AddressedBy(s, finished + {k}, rob.buf)
      ensures target == if k == JalrTag(s) then Redirect(s) else 0
    {
      var e := buf[k];
      var value := Wrap(e.op1.v + e.op2.v);
      AddressedMore(s, finished, rob.buf, k);
      TargetIs(s, k);
      rob.Put(k, rob.buf[IndexOf(rob.buf, k)].(addr := Value(value)));
      target := if e.inst.opcode.Jalr? then value else 0;
    }

    /** Compute every address whose operand is there, and the pc a JALR redirects to. Whatever the
        order, the effect is that of the address phase, and the redirection is the one of the only
        JALR that can be waiting. */
    method Execute(rob: ReorderBuffer, ghost s: Machine) returns (npc: Option<u32>)
      requires AddressKeys(s) && s.addressUnit == buf && s.rob == rob.buf
      modifies this, rob
      ensures buf == AddressesLeft(s) && rob.buf == AddressedRob(s)
      ensures npc == if Redirect(s) == 0 then None else Some(Redirect(s))
    {
      var todo, finished := buf.Keys, {};
      var target: u32 := 0;
      while todo != {}
        invariant todo <= buf.Keys && buf == s.addressUnit
        invariant forall k :: k in finished <==> AddressReady(s, k) && k !in todo
        invariant AddressedBy(s, finished, rob.buf)
        invariant target == if JalrTag(s) in finished then Redirect(s) else 0
      {
        var k :| k in todo;
        todo := todo - {k};
        if buf[k].op1.Value? && buf[k].op2.Value? {
          var value := ComputeOne(k, rob, s, finished);
          finished := finished + {k};
          if target == 0 {
            target := value;
          }
        }
      }
      AddressedAll(s, finished, rob.buf);
      buf := map k | k in buf && k !in finished :: buf[k];
      npc := if target == 0 then None else Some(target);
      assert !AddressReady(s, JalrTag(s)) ==> Redirect(s) == 0;
    }
  }

  /** The tag of the youngest entry: the only one a JALR without an address can have. */
  ghost function JalrTag(s: Machine): Tag {
    if s.rob == [] then 0 else s.rob[|s.rob| - 1].id
  }

  /** Keys of the address unit belong to live entries, and to a JALR only if it is the youngest. */
  ghost predicate AddressKeys(s: Machine) {
    && Distinct(s.rob)
    && forall k :: k in s.addressUnit ==>
         IndexOf(s.rob, k) < |s.rob| && (s.addressUnit[k].inst.opcode.Jalr? ==> k == JalrTag(s))
  }

  /** The reorder buffer after the addresses in `finished` have been computed. */
  ghost predicate AddressedBy(s: Machine, finished: set<Tag>, rob: seq<RobEntry>)
  {
    && |rob| == |s.rob|
    && forall i :: 0 <= i < |rob| ==>
         rob[i] == if s.rob[i].id in finished then Addressed(s, s.rob[i]) else s.rob[i]
  }

  lemma AddressedMore(s: Machine, finished: set<Tag>, rob: seq<RobEntry>, k: Tag)
    requires AddressKeys(s) && AddressReady(s, k)
    requires AddressedBy(s, finished, rob)
    ensures var i := IndexOf(rob, k);
      i < |rob| && AddressedBy(s, finished + {k}, rob[i := rob[i].(addr := Value(Sum(s.addressUnit[k])))])
  {
    SameIndex(s.rob, rob, k);
  }

  lemma TargetIs(s: Machine, k: Tag)
    requires AddressKeys(s) && AddressReady(s, k)
    ensures if s.addressUnit[k].inst.opcode.Jalr? then k == JalrTag(s) && Sum(s.addressUnit[k]) == Redirect(s)
            else k == JalrTag(s) ==> Redirect(s) == 0
  {
  }

  lemma AddressedAll(s: Machine, finished: set<Tag>, rob: seq<RobEntry>)
    requires forall t :: t in finished <==> AddressReady(s, t)
    requires AddressedBy(s, finished, rob)
    ensures rob == AddressedRob(s)
  {
    AddressShape(s);
  }

  lemma InvAddressKeys(c: Core, s: Machine)
    requires Inv(c, s)
    ensures AddressKeys(s)
  {
    forall k | k in s.addressUnit
      ensures IndexOf(s.rob, k) < |s.rob| && (s.addressUnit[k].inst.opcode.Jalr? ==> k == JalrTag(s))
    {
      assert Live(s, k);
      var i :| 0 <= i < |s.rob| && s.rob[i].id == k;
      IndexIs(s.rob, i);
      assert SlotOk(c, s, i);
    }
  }

  // ---- Loads ----

  /** What `MemoryUnit::execute` does in the last clock of a load's countdown: read memory, and for
      an atomic prepare the word to write. `entry` is the entry after its countdown reached 0. */
  method ReadMemory(c: Core, m: Mem, a: u32, entry: RobEntry) returns (value: Result<u32, Fault>, e: RobEntry)
    ensures value == c.load(entry.inst.func, m, a)
    ensures e == if value.Err? || IsLoad(entry.inst.func) then entry
                 else entry.(memRemCycle := if entry.inst.func.Lrw? then entry.memRemCycle else MEM_CYCLE,
                             memValue := Value(if entry.inst.func.Lrw? then 0
                               else c.amo(entry.inst.func, value.value, if entry.memValue.Value? then entry.memValue.v else 0)))
  {
    value, e := c.load(entry.inst.func, m, a), entry;
    if value.Err? || IsLoad(entry.inst.func) { return; }
    var operand := if entry.memValue.Value? then entry.memValue.v else 0;
    if !entry.inst.func.Lrw? {
      e := e.(memRemCycle := MEM_CYCLE);
    }
    e := e.(memValue := Value(if entry.inst.func.Lrw? then 0 else c.amo(entry.inst.func, value.value, operand)));
  }

  class LoadBuffer {
    var buf: map<Tag, LoadEntry>

    constructor ()
      ensures buf == map[]
    {
      buf := map[];
    }

    method Clear()
      modifies this
      ensures buf == map[]
    {
      buf := map[];
    }

    method Issue(t: Tag)
      modifies this
      ensures buf == old(buf)[t := LoadEntry(t, Wait, Ok(0))]
    {
      buf := buf[t := LoadEntry(t, Wait, Ok(0))];
    }

    /** Take out the finished loads, in any order. */
    method PopFinished() returns (jobs: seq<(Tag, Job)>)
      requires forall t :: t in buf ==> buf[t].robIndex == t
      modifies this
      ensures JobMap(jobs) == LoadJobs(old(buf)) && NoDuplicates(jobs)
      ensures buf == UnfinishedLoads(old(buf))
    {
      var todo, finished := buf.Keys, {};
      jobs := [];
      while todo != {}
        invariant todo <= old(buf).Keys && buf == old(buf)
        invariant finished == set t | t in old(buf).Keys - todo && old(buf)[t].status.Finished?
        invariant NoDuplicates(jobs) && JobMap(jobs) == map t | t in finished :: LoadJob(old(buf)[t])
      {
        var t :| t in todo;
        todo := todo - {t};
        if buf[t].status.Finished? {
          var entry := buf[t];
          JobMapSnoc(jobs, entry.robIndex, LoadJob(entry));
          jobs := jobs + [(entry.robIndex, LoadJob(entry))];
          finished := finished + {t};
        }
      }
      buf := map t | t in buf && t !in finished :: buf[t];
    }

    /** One load's clock. */
    method ExecuteOne(k: Tag, rob: ReorderBuffer, c: Core, m: Mem, ghost s: Machine, ghost g: Goal, ghost done: set<Tag>)
      returns (panicked: bool)
      requires LoadKeys(s) && s.mem == m && IsGoal(c, s, g) && k in s.loadBuf && k !in done
      requires Between(s.rob, g.rob, done, rob.buf) && BetweenLoads(s.loadBuf, g.loads, done, buf)
      modifies this, rob
      ensures panicked <==> k in g.bad
      ensures !panicked ==> Between(s.rob, g.rob, done + {k}, rob.buf) && BetweenLoads(s.loadBuf, g.loads, done + {k}, buf)
    {
      SameGate(s, g.rob, done, rob.buf, k);
      var i := IndexOf(rob.buf, k);
      var e, l;
      panicked, e, l := StepLoad(c, m, rob.buf[i], buf[k], GateOpen(rob.buf, i, buf[k]));
      GoalAt(c, s, g, k);
      if !panicked {
        BetweenMore(s.rob, g.rob, done, rob.buf, k);
        rob.Put(k, e);
        buf := buf[k := l];
      }
    }

    /** The loads, one after the other in any order. */
    method ExecuteAll(rob: ReorderBuffer, c: Core, m: Mem, ghost s: Machine, ghost g: Goal) returns (panicked: bool)
      requires LoadKeys(s) && s.loadBuf == buf && s.rob == rob.buf && s.mem == m && IsGoal(c, s, g)
      requires g.loads.Keys == s.loadBuf.Keys && g.bad <= s.loadBuf.Keys && |g.rob| == |s.rob|
      modifies this, rob
      ensures panicked <==> g.bad != {}
      ensures !panicked ==> Between(s.rob, g.rob, s.loadBuf.Keys, rob.buf) && BetweenLoads(s.loadBuf, g.loads, s.loadBuf.Keys, buf)
    {
      var todo := buf.Keys;
      ghost var done: set<Tag> := {};
      while todo != {}
        invariant todo <= s.loadBuf.Keys && done == s.loadBuf.Keys - todo
        invariant Between(s.rob, g.rob, done, rob.buf) && BetweenLoads(s.loadBuf, g.loads, done, buf)
        invariant g.bad !! done
      {
        var k :| k in todo;
        panicked := ExecuteOne(k, rob, c, m, s, g, done);
        if panicked { return; }
        todo := todo - {k};
        done := done + {k};
      }
      panicked := false;
    }

    /** Every load whose gate is open counts down, and reads when the countdown ends. Whatever the
        order, the effect is that of the load phase. */
    method Execute(rob: ReorderBuffer, c: Core, m: Mem, ghost s: Machine) returns (panicked: bool)
      requires LoadKeys(s) && s.loadBuf == buf && s.rob == rob.buf && s.mem == m
      modifies this, rob
      ensures panicked <==> AnyLoadPanics(c, s)
      ensures !panicked ==> rob.buf == LoadedRob(c, s) && buf == LoadedBuf(c, s)
    {
      ghost var g := Goal(LoadedRob(c, s), LoadedBuf(c, s),
                          set k | k in s.loadBuf && IndexOf(s.rob, k) < |s.rob| && LoadPanics(c, s, IndexOf(s.rob, k)));
      GoalIs(c, s, g);
      panicked := ExecuteAll(rob, c, m, s, g);
      LoadedAll(c, s, g);
    }
  }

  /** Where a clock of the load buffer ends, and the loads that panic on the way. */
  datatype Goal = Goal(rob: seq<RobEntry>, loads: map<Tag, LoadEntry>, bad: set<Tag>)

  ghost predicate GoalFor(c: Core, s: Machine, g: Goal, k: Tag)
    requires k in s.loadBuf && IndexOf(s.rob, k) < |s.rob| == |g.rob| && k in g.loads
  {
    var i := IndexOf(s.rob, k);
    var open := GateOpen(s.rob, i, s.loadBuf[k]);
    && g.rob[i] == SteppedEntry(c, s.mem, s.rob[i], open)
    && g.loads[k] == SteppedLoad(c, s.mem, s.rob[i], s.loadBuf[k], open)
    && (k in g.bad <==> LoadPanics(c, s, i))
  }

  ghost predicate IsGoal(c: Core, s: Machine, g: Goal) {
    && Framed(s.rob, g.rob) && g.loads.Keys == s.loadBuf.Keys
    && forall k {:trigger GoalFor(c, s, g, k)} :: k in s.loadBuf && IndexOf(s.rob, k) < |s.rob| ==> GoalFor(c, s, g, k)
  }

  lemma GoalIs(c: Core, s: Machine, g: Goal)
    requires g.rob == LoadedRob(c, s) && g.loads == LoadedBuf(c, s)
    requires g.bad == set k | k in s.loadBuf && IndexOf(s.rob, k) < |s.rob| && LoadPanics(c, s, IndexOf(s.rob, k))
    ensures IsGoal(c, s, g)
  {
    LoadedRobFrame(c, s);
    forall k | k in s.loadBuf && IndexOf(s.rob, k) < |s.rob| ensures GoalFor(c, s, g, k) {
      LoadRobIs(c, s, IndexOf(s.rob, k));
    }
  }

  lemma GoalAt(c: Core, s: Machine, g: Goal, k: Tag)
    requires LoadKeys(s) && IsGoal(c, s, g) && k in s.loadBuf
    ensures IndexOf(s.rob, k) < |s.rob|
    ensures var i := IndexOf(s.rob, k);
      var open := GateOpen(s.rob, i, s.loadBuf[k]);
      var e := s.rob[i];
      && g.rob[i] == SteppedEntry(c, s.mem, e, open)
      && g.loads[k] == SteppedLoad(c, s.mem, e, s.loadBuf[k], open)
      && (k in g.bad <==> open && e.memRemCycle <= 1 && c.load(e.inst.func, s.mem, e.addr.v).Err?
                          && !c.load(e.inst.func, s.mem, e.addr.v).error.Trap?)
  {
    assert LoadKey(s, k);
    assert GoalFor(c, s, g, k);
  }

  /** The clock of a load whose gate is `open` or not. */
  method StepLoad(c: Core, m: Mem, entry: RobEntry, load: LoadEntry, open: bool)
    returns (panicked: bool, e: RobEntry, l: LoadEntry)
    requires open ==> entry.addr.Value?
    ensures panicked == (open && entry.memRemCycle <= 1 && c.load(entry.inst.func, m, entry.addr.v).Err?
                         && !c.load(entry.inst.func, m, entry.addr.v).error.Trap?)
    ensures !panicked ==> e == SteppedEntry(c, m, entry, open) && l == SteppedLoad(c, m, entry, load, open)
  {
    panicked, e, l := false, entry, load;
    if !open { return; }
    l := l.(status := Status.Execute);
    e := e.(memRemCycle := Decrement(e.memRemCycle));
    if e.memRemCycle == 0 {
      var value;
      value, e := ReadMemory(c, m, e.addr.v, e);
      if value.Err? && !value.error.Trap? { return true, e, l; }
      l := l.(status := Finished, value := if value.Ok? then Ok(value.value) else Err(value.error.exception));
    }
  }

  /** Keys of the load buffer belong to live entries that read memory. */
  ghost predicate LoadKeys(s: Machine) {
    && Distinct(s.rob)
    && forall k {:trigger LoadKey(s, k)} :: k in s.loadBuf ==> LoadKey(s, k)
  }

  ghost predicate LoadKey(s: Machine, k: Tag)
    requires k in s.loadBuf
  {
    s.loadBuf[k].robIndex == k && IndexOf(s.rob, k) < |s.rob| && ReadsMem(s.rob[IndexOf(s.rob, k)].inst)
  }

  /** `now` is `start` with the entries named in `done` replaced by those of `target`. */
  ghost predicate Between(start: seq<RobEntry>, target: seq<RobEntry>, done: set<Tag>, now: seq<RobEntry>) {
    && |now| == |start| == |target|
    && forall i :: 0 <= i < |now| ==> now[i] == if start[i].id in done then target[i] else start[i]
  }

  ghost predicate BetweenLoads(start: map<Tag, LoadEntry>, target: map<Tag, LoadEntry>, done: set<Tag>, now: map<Tag, LoadEntry>) {
    && now.Keys == start.Keys == target.Keys
    && forall k :: k in now ==> now[k] == if k in done then target[k] else start[k]
  }

  /** Only countdown and data operand differ. */
  ghost predicate Framed(start: seq<RobEntry>, target: seq<RobEntry>) {
    && |start| == |target|
    && forall i :: 0 <= i < |start| ==>
         target[i] == start[i].(memRemCycle := target[i].memRemCycle, memValue := target[i].memValue)
  }

  lemma LoadedRobFrame(c: Core, s: Machine)
    ensures Framed(s.rob, LoadedRob(c, s))
  {
    forall i | 0 <= i < |s.rob|
      ensures var e, e' := s.rob[i], LoadedRob(c, s)[i]; e' == e.(memRemCycle := e'.memRemCycle, memValue := e'.memValue)
    {
      assert LoadedRob(c, s)[i] == LoadRob(c, s, i);
    }
  }

  /** Loads do not interfere: the gate of one that is left is as it was. */
  lemma SameGate(s: Machine, target: seq<RobEntry>, done: set<Tag>, rob: seq<RobEntry>, k: Tag)
    requires LoadKeys(s) && k in s.loadBuf && k !in done
    requires Framed(s.rob, target) && Between(s.rob, target, done, rob)
    ensures var i := IndexOf(s.rob, k);
      && i < |s.rob| && IndexOf(rob, k) == i && rob[i] == s.rob[i]
      && (GateOpen(rob, i, s.loadBuf[k]) <==> GateOpen(s.rob, i, s.loadBuf[k]))
  {
    assert LoadKey(s, k);
    SameIndex(s.rob, rob, k);
    var i := IndexOf(s.rob, k);
    if rob[i].addr.Value? {
      forall j | 0 <= j < i ensures Blocks(rob[j], rob[i].addr.v) <==> Blocks(s.rob[j], rob[i].addr.v) {
        assert rob[j].inst == s.rob[j].inst && rob[j].addr == s.rob[j].addr;
      }
    }
  }

  lemma BetweenMore(start: seq<RobEntry>, target: seq<RobEntry>, done: set<Tag>, now: seq<RobEntry>, k: Tag)
    requires Distinct(start) && Between(start, target, done, now) && Framed(start, target)
    requires IndexOf(start, k) < |start| && IndexOf(now, k) == IndexOf(start, k)
    ensures var i := IndexOf(start, k); Between(start, target, done + {k}, now[i := target[i]])
  {
  }

  /** What the load phase makes of the entry at `i`, gate and all. */
  lemma LoadRobIs(c: Core, s: Machine, i: nat)
    requires i < |s.rob| && s.rob[i].id in s.loadBuf && IndexOf(s.rob, s.rob[i].id) == i
    ensures var open := GateOpen(s.rob, i, s.loadBuf[s.rob[i].id]);
      && LoadedRob(c, s)[i] == SteppedEntry(c, s.mem, s.rob[i], open)
      && LoadedBuf(c, s)[s.rob[i].id] == SteppedLoad(c, s.mem, s.rob[i], s.loadBuf[s.rob[i].id], open)
  {
  }

  lemma LoadedAll(c: Core, s: Machine, g: Goal)
    requires LoadKeys(s) && g.rob == LoadedRob(c, s)
    requires g.bad == set k | k in s.loadBuf && IndexOf(s.rob, k) < |s.rob| && LoadPanics(c, s, IndexOf(s.rob, k))
    ensures g.bad != {} <==> AnyLoadPanics(c, s)
    ensures forall rob :: Between(s.rob, g.rob, s.loadBuf.Keys, rob) ==> rob == g.rob
    ensures forall loads :: BetweenLoads(s.loadBuf, g.loads, s.loadBuf.Keys, loads) ==> loads == g.loads
  {
    forall i | 0 <= i < |s.rob|
      ensures s.rob[i].id !in s.loadBuf ==> LoadedRob(c, s)[i] == s.rob[i]
      ensures LoadPanics(c, s, i) <==> s.rob[i].id in g.bad
    {
      IndexIs(s.rob, i);
      assert LoadedRob(c, s)[i] == LoadRob(c, s, i);
    }
  }

  lemma InvLoadKeys(c: Core, s: Machine)
    requires Inv(c, s)
    ensures LoadKeys(s)
  {
    forall k | k in s.loadBuf ensures LoadKey(s, k) {
      assert Live(s, k);
      var i :| 0 <= i < |s.rob| && s.rob[i].id == k;
      IndexIs(s.rob, i);
      assert SlotOk(c, s, i);
    }
  }

  // ---- Lists of jobs ----

  /** The results a list carries. */
  function JobMap(jobs: seq<(Tag, Job)>): map<Tag, Job> {
    if jobs == [] then map[]
    else JobMap(jobs[..|jobs| - 1])[jobs[|jobs| - 1].0 := jobs[|jobs| - 1].1]
  }

  ghost predicate NoDuplicates(jobs: seq<(Tag, Job)>) {
    forall i, j :: 0 <= i < j < |jobs| ==> jobs[i].0 != jobs[j].0
  }

  lemma {:induction false} JobMapKeys(jobs: seq<(Tag, Job)>)
    ensures forall i :: 0 <= i < |jobs| ==> jobs[i].0 in JobMap(jobs)
    ensures forall t :: t in JobMap(jobs) ==> exists i :: 0 <= i < |jobs| && jobs[i].0 == t
  {
    if jobs != [] {
      var n := |jobs| - 1;
      JobMapKeys(jobs[..n]);
      forall i | 0 <= i < |jobs| ensures jobs[i].0 in JobMap(jobs) {
        if i < n { assert jobs[..n][i] == jobs[i]; }
      }
      forall t | t in JobMap(jobs) ensures exists i :: 0 <= i < |jobs| && jobs[i].0 == t {
        if t == jobs[n].0 {
          assert jobs[n].0 == t;
        } else {
          var i :| 0 <= i < n && jobs[..n][i].0 == t;
          assert jobs[i].0 == t;
        }
      }
    }
  }

  lemma JobMapSnoc(jobs: seq<(Tag, Job)>, t: Tag, job: Job)
    ensures JobMap(jobs + [(t, job)]) == JobMap(jobs)[t := job]
    ensures NoDuplicates(jobs) && t !in JobMap(jobs) ==> NoDuplicates(jobs + [(t, job)])
  {
    assert (jobs + [(t, job)])[..|jobs|] == jobs;
    JobMapKeys(jobs);
  }

  lemma {:induction false} JobMapConcat(a: seq<(Tag, Job)>, b: seq<(Tag, Job)>)
    ensures JobMap(a + b) == JobMap(a) + JobMap(b)
  {
    if b == [] {
      assert a + b == a;
    } else {
      var n := |b| - 1;
      JobMapConcat(a, b[..n]);
      assert (a + b)[..|a + b| - 1] == a + b[..n];
    }
  }

  lemma JobMapAppend(a: seq<(Tag, Job)>, b: seq<(Tag, Job)>)
    requires NoDuplicates(a) && NoDuplicates(b) && JobMap(a).Keys !! JobMap(b).Keys
    ensures JobMap(a + b) == JobMap(a) + JobMap(b) && NoDuplicates(a + b)
  {
    JobMapConcat(a, b);
    JobMapKeys(a);
    JobMapKeys(b);
  }

  lemma {:induction false} SameIndex(p: seq<RobEntry>, q: seq<RobEntry>, t: Tag)
    requires |p| == |q| && forall i :: 0 <= i < |p| ==> p[i].id == q[i].id
    ensures IndexOf(p, t) == IndexOf(q, t)
  {
    if p != [] && p[0].id != t {
      SameIndex(p[1..], q[1..], t);
    }
  }
}
