/** The branch predictor (src/pipeline/branch_predictor.rs): one two-bit automaton per branch. */
module BranchPrediction {
  import opened Words

  /** For each branch seen: the direction predicted, and the direction last taken. */
  type Table = map<u32, (bool, bool)>

  function Entered(t: Table, pc: u32): Table {
    if pc in t then t else t[pc := (false, false)]
  }

  function Predicts(t: Table, pc: u32): bool {
    pc in t && t[pc].0
  }

  /** Two equal outcomes in a row set the prediction. */
  function Next(v: (bool, bool), taken: bool): (bool, bool) {
    match (v.1, taken)
    case (true, false) => (v.0, false)
    case (false, false) => (false, false)
    case (true, true) => (true, true)
    case (false, true) => (v.0, true)
  }

  function Updated(t: Table, pc: u32, outcome: u32): Table {
    if pc in t then t[pc := Next(t[pc], outcome == 1)] else t
  }

  class BranchPredictor {
    var branchMap: Table

    constructor ()
      ensures branchMap == map[]
    {
      branchMap := map[];
    }

    /** The prediction for the branch at `pc`, entering it if it is new. */
    method Predict(pc: u32) returns (taken: bool)
      modifies this
      ensures taken == Predicts(old(branchMap), pc)
      ensures branchMap == Entered(old(branchMap), pc)
    {
      if pc !in branchMap {
        branchMap := branchMap[pc := (false, false)];
      }
      taken := branchMap[pc].0;
    }

    /** Record the outcome of the branch at `pc`, which must have been predicted before. */
    method Update(pc: u32, isTaken: u32)
      requires pc in branchMap && isTaken <= 1
      modifies this
      ensures branchMap == Updated(old(branchMap), pc, isTaken)
    {
      var val := branchMap[pc];
      if val.1 && isTaken == 0 {
        val := (val.0, false);
      } else if !val.1 && isTaken == 0 {
        val := (false, false);
      } else if val.1 && isTaken == 1 {
        val := (true, true);
      } else {
        val := (val.0, true);
      }
      branchMap := branchMap[pc := val];
    }
  }

  // ---- What the automaton computes ----

  /** The automaton of one branch after the outcomes `h`, the oldest first. */
  function After(h: seq<bool>): (bool, bool) {
    if h == [] then (false, false) else Next(After(h[..|h| - 1]), h[|h| - 1])
  }

  function Prediction(h: seq<bool>): bool { After(h).0 }

  /** The outcomes, as if the branch had not been taken twice before. */
  function Padded(h: seq<bool>): seq<bool> { [false, false] + h }

  /** `k` ends the most recent two equal consecutive outcomes. */
  ghost predicate LastAgreement(g: seq<bool>, k: nat) {
    && 1 <= k < |g| && g[k - 1] == g[k]
    && forall j :: k < j < |g| ==> g[j - 1] != g[j]
  }

  /** For every history the prediction is the direction of the most recent two equal consecutive
      outcomes, and there always is one. */
  lemma {:induction false} PredictionIsLastAgreement(h: seq<bool>)
    ensures exists k: nat :: LastAgreement(Padded(h), k)
    ensures forall k: nat :: LastAgreement(Padded(h), k) ==> Prediction(h) == Padded(h)[k]
    ensures After(h).1 == Padded(h)[|h| + 1]
  {
    var g := Padded(h);
    if h == [] {
      assert LastAgreement(g, 1);
    } else {
      var h' := h[..|h| - 1];
      PredictionIsLastAgreement(h');
      assert Padded(h') == g[..|g| - 1];
      var n := |g| - 1;
      if g[n - 1] == g[n] {
        assert LastAgreement(g, n);
      } else {
        var k: nat :| LastAgreement(Padded(h'), k);
        assert LastAgreement(g, k);
        forall k: nat | LastAgreement(g, k) ensures Prediction(h) == g[k] {
          assert LastAgreement(Padded(h'), k);
        }
      }
    }
  }

  /** How many outcomes of `h` equal `b`. */
  function Count(h: seq<bool>, b: bool): nat {
    if h == [] then 0 else Count(h[..|h| - 1], b) + if h[|h| - 1] == b then 1 else 0
  }

  /** How many outcomes of `h` differ from the prediction made just before them. */
  function Mistakes(h: seq<bool>): nat {
    if h == [] then 0
    else Mistakes(h[..|h| - 1]) + if Prediction(h[..|h| - 1]) != h[|h| - 1] then 1 else 0
  }

  /** Mistakes the automaton has paid for in advance, in state `v`, counted in outcomes `b`. */
  function Credit(v: (bool, bool), b: bool): nat {
    (if v.0 == b then 1 else 0) + (if v.1 == b then 1 else 0)
  }

  /** Mistakes are at most twice the number of taken outcomes, and at most twice the number of
      outcomes not taken, plus two. */
  lemma {:induction false} MistakeBound(h: seq<bool>)
    ensures Mistakes(h) + Credit(After(h), true) <= 2 * Count(h, true)
    ensures Mistakes(h) + Credit(After(h), false) <= 2 * Count(h, false) + 2
  {
    if h != [] {
      MistakeBound(h[..|h| - 1]);
    }
  }

  /** A branch resolved: its pc and its outcome. */
  datatype Event = Event(pc: u32, taken: bool)

  /** Predict, then update, for each event in turn. */
  function Trained(t: Table, events: seq<Event>): Table {
    if events == [] then t
    else
      var e := events[|events| - 1];
      var before := Trained(t, events[..|events| - 1]);
      Updated(Entered(before, e.pc), e.pc, if e.taken then 1 else 0)
  }

  /** The outcomes of one branch among all. */
  function HistoryOf(events: seq<Event>, pc: u32): seq<bool> {
    if events == [] then []
    else
      var e := events[|events| - 1];
      HistoryOf(events[..|events| - 1], pc) + if e.pc == pc then [e.taken] else []
  }

  /** Branches do not disturb one another: in a run from the empty table the entry of a branch is
      the automaton of its own history. */
  lemma {:induction false} BranchesIndependent(events: seq<Event>, pc: u32)
    ensures Predicts(Trained(map[], events), pc) == Prediction(HistoryOf(events, pc))
    ensures pc in Trained(map[], events) ==> Trained(map[], events)[pc] == After(HistoryOf(events, pc))
    ensures pc !in Trained(map[], events) ==> HistoryOf(events, pc) == []
  {
    if events != [] {
      var e := events[|events| - 1];
      var rest := events[..|events| - 1];
      BranchesIndependent(rest, pc);
      var h := HistoryOf(rest, pc);
      if e.pc == pc {
        assert (h + [e.taken])[..|h|] == h;
      } else {
        assert h + [] == h;
      }
    }
  }
}
