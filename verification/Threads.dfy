/** Announcing threads in a report: `DescribeThread` and the chain of parents it follows. */
module Threads {
  const MAIN_TID: nat := 0
  const INVALID_TID: nat := 0xFFFF_FFFF

  class ThreadContext {
    const tid: nat
    const uniqueId: nat
    const parentTid: nat
    var announced: bool

    constructor (tid: nat, uniqueId: nat, parentTid: nat)
      ensures this.tid == tid && this.uniqueId == uniqueId && this.parentTid == parentTid && !announced
    {
      this.tid, this.uniqueId, this.parentTid, this.announced := tid, uniqueId, parentTid, false;
    }
  }

  /** The registry's slots; a slot may have been reused since a child recorded its parent's tid. */
  type Slots = map<nat, ThreadContext>

  /** The context in the slot of the recorded parent, when it is older and so may be the parent. */
  predicate HasOlderParent(slots: Slots, c: ThreadContext) {
    c.parentTid != INVALID_TID && c.parentTid in slots && slots[c.parentTid].uniqueId < c.uniqueId
  }

  predicate Done(c: ThreadContext)
    reads c
  {
    c.tid == MAIN_TID || c.announced
  }

  /** If the slot of an announced thread's parent holds an older thread, that is announced too, or is the main thread. */
  ghost predicate ParentDone(slots: Slots, c: ThreadContext)
    reads c, slots.Values
  {
    c.announced && c.parentTid != INVALID_TID && c.parentTid in slots && slots[c.parentTid].uniqueId < c.uniqueId ==>
      slots[c.parentTid].announced || slots[c.parentTid].tid == MAIN_TID
  }

  ghost predicate Closed(slots: Slots)
    reads slots.Values
  {
    forall c :: c in slots.Values ==> ParentDone(slots, c)
  }

  /** Distinct threads, none of them main. */
  ghost predicate Announcement(log: seq<ThreadContext>) {
    && (forall i :: 0 <= i < |log| ==> log[i].tid != MAIN_TID)
    && (forall i, j :: 0 <= i < j < |log| ==> log[i] != log[j])
  }

  lemma AnnouncementConcat(log: seq<ThreadContext>, more: seq<ThreadContext>)
    requires Announcement(log) && Announcement(more) && forall c :: c in more ==> c !in log
    ensures Announcement(log + more)
  {
    var all := log + more;
    forall i, j | 0 <= i < j < |all|
      ensures all[i] != all[j]
    {
      assert i < |log| <= j ==> all[i] in log && all[j] in more;
    }
  }

  /** Each thread in the log is followed by its parent, which is older. */
  ghost predicate Chain(slots: Slots, log: seq<ThreadContext>) {
    forall i :: 0 <= i < |log| - 1 ==>
      && log[i].parentTid != INVALID_TID && log[i].parentTid in slots
      && log[i + 1] == slots[log[i].parentTid] && log[i + 1].uniqueId < log[i].uniqueId
  }

  /** Exactly the threads in the log became announced. */
  twostate predicate Announces(slots: Slots, new log: seq<ThreadContext>)
    reads slots.Values
  {
    && (forall c :: c in log ==> c in slots.Values && !old(c.announced))
    && (forall c :: c in slots.Values ==> c.announced == (old(c.announced) || c in log))
  }

  /**
   `DescribeThread`. It terminates whatever the parent links are, because it only moves on to a
   context with a smaller unique id.
   */
  method DescribeThread(slots: Slots, c: ThreadContext, fullHistory: bool) returns (log: seq<ThreadContext>)
    requires c in slots.Values
    modifies slots.Values
    ensures Announces(slots, log) && Announcement(log)
    ensures Done(c) && (if old(Done(c)) then log == [] else log != [] && log[0] == c) && Chain(slots, log)
    ensures fullHistory && old(Closed(slots)) ==> Closed(slots)
    ensures fullHistory ==> forall x :: x in log ==> ParentDone(slots, x)
    ensures !fullHistory ==> |log| <= 1
    decreases c.uniqueId
  {
    log := [];
    if c.tid == MAIN_TID || c.announced {
      return;
    }
    c.announced := true;
    log := [c];
    if !HasOlderParent(slots, c) {
      return;
    }
    if fullHistory {
      var rest := DescribeThread(slots, slots[c.parentTid], fullHistory);
      AnnouncementConcat([c], rest);
      log := [c] + rest;
    }
  }

  /** A run of descriptions, such as the three at the end of a heap report: nobody is announced twice. */
  method DescribeThreads(slots: Slots, cs: seq<ThreadContext>, fullHistory: bool) returns (log: seq<ThreadContext>)
    requires forall i :: 0 <= i < |cs| ==> cs[i] in slots.Values
    modifies slots.Values
    ensures Announces(slots, log) && Announcement(log)
    ensures forall i :: 0 <= i < |cs| ==> Done(cs[i])
    ensures fullHistory && old(Closed(slots)) ==> Closed(slots)
  {
    log := [];
    for i := 0 to |cs|
      invariant Announces(slots, log) && Announcement(log)
      invariant forall k :: 0 <= k < i ==> Done(cs[k])
      invariant fullHistory && old(Closed(slots)) ==> Closed(slots)
    {
      assert forall c :: c in log ==> c.announced;
      var more := DescribeThread(slots, cs[i], fullHistory);
      assert forall c :: c in more ==> c !in log;
      AnnouncementConcat(log, more);
      log := log + more;
    }
  }
}
