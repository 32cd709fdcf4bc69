/** The reorder buffer as an object (src/pipeline/reorder_buffer/mod.rs). */
module ReorderBuffers {
  import opened Words
  import opened Instructions
  import opened OutOfOrder

  class ReorderBuffer {
    var buf: seq<RobEntry>

    constructor ()
      ensures buf == []
    {
      buf := [];
    }

    method Clear()
      modifies this
      ensures buf == []
    {
      buf := [];
    }

    method Add(e: RobEntry)
      modifies this
      ensures buf == old(buf) + [e]
    {
      buf := buf + [e];
    }

    method PopFront() returns (e: Option<RobEntry>)
      modifies this
      ensures if old(buf) == [] then e == None && buf == [] else old(buf) == [e.GetOr(old(buf)[0])] + buf && e.Some?
    {
      if buf == [] { return None; }
      e := Some(buf[0]);
      buf := buf[1..];
    }

    /** Replace the entry with tag `t`, as a write through `get_mut` does. */
    method Put(t: Tag, e: RobEntry)
      requires IndexOf(buf, t) < |buf|
      modifies this
      ensures buf == old(buf)[IndexOf(old(buf), t) := e]
    {
      buf := buf[IndexOf(buf, t) := e];
    }

    /** One result reaches its entry and the entries that wait for it. */
    method Propagate(t: Tag, job: Job)
      modifies this
      ensures buf == WokenRob(old(buf), map[t := job])
    {
      for i := 0 to |buf|
        invariant |buf| == |old(buf)|
        invariant forall k :: 0 <= k < |buf| ==>
          buf[k] == if k < i then WakeRob(old(buf)[k], map[t := job]) else old(buf)[k]
      {
        var e := buf[i];
        if e.id == t {
          e := e.(regValue := Some(job.value));
          if job.exception.Some? {
            e := e.(memException := job.exception);
          }
        } else {
          if e.addr == Rob(t) { e := e.(addr := Value(job.value)); }
          if e.memValue == Rob(t) { e := e.(memValue := Value(job.value)); }
        }
        assert e == WakeRob(buf[i], map[t := job]);
        buf := buf[i := e];
      }
    }

    /** Pop the completed entries at the front. */
    method CompletedEntries() returns (es: seq<RobEntry>)
      modifies this
      ensures old(buf) == es + buf
      ensures forall e :: e in es ==> IsCompleted(e)
      ensures buf == [] || !IsCompleted(buf[0])
    {
      var n := 0;
      while n < |buf| && IsCompleted(buf[n])
        invariant n <= |buf|
        invariant forall k :: 0 <= k < n ==> IsCompleted(buf[k])
      {
        n := n + 1;
      }
      es := [];
      for k := 0 to n
        invariant es == old(buf)[..k] && buf == old(buf)[k..]
      {
        var e := PopFront();
        es := es + [e.value];
      }
    }
  }
}
