/** The statistics counters, summed over threads, account for every chunk in every state. */
module Conservation {
  import opened Chunks
  import opened Machine
  import opened Invariant
  import opened Runs
  import opened Effects

  // ------------------------------------------------------------------------ sums

  ghost function Sum(m: map<nat, nat>): nat
    decreases |m|
  {
    if m == map[] then 0
    else
      var k :| k in m;
      m[k] + Sum(m - {k})
  }

  lemma {:induction false} SumRemove(m: map<nat, nat>, k: nat)
    requires k in m
    ensures Sum(m) == m[k] + Sum(m - {k})
    decreases |m|
  {
    var k0 :| k0 in m && Sum(m) == m[k0] + Sum(m - {k0});
    if k0 != k {
      SumRemove(m - {k0}, k);
      SumRemove(m - {k}, k0);
      assert m - {k0} - {k} == m - {k} - {k0};
    }
  }

  function At(m: map<nat, nat>, k: nat): nat {
    if k in m then m[k] else 0
  }

  /** Two maps that agree away from k differ in their sums by what they hold at k. */
  lemma SumAgree(m: map<nat, nat>, m': map<nat, nat>, k: nat)
    requires m - {k} == m' - {k}
    ensures Sum(m') + At(m, k) == Sum(m) + At(m', k)
  {
    if k in m {
      SumRemove(m, k);
    } else {
      assert m - {k} == m;
    }
    if k in m' {
      SumRemove(m', k);
    } else {
      assert m' - {k} == m';
    }
  }

  // -------------------------------------------------------------------- counters

  datatype Event = Malloced | Freed | ReallyFreed

  /** A counter of one thread: bytes (`malloced`, ...) or calls (`mallocs`, ...). */
  function Counter(st: Stats, e: Event, bytes: bool): nat {
    match e
    case Malloced => if bytes then st.malloced else st.mallocs
    case Freed => if bytes then st.freed else st.frees
    case ReallyFreed => if bytes then st.reallyFreed else st.realFrees
  }

  function Counters(s: State, e: Event, bytes: bool): map<nat, nat> {
    map t | t in s.stats :: Counter(s.stats[t], e, bytes)
  }

  /** The counter summed over all threads. */
  ghost function Total(s: State, e: Event, bytes: bool): nat {
    Sum(Counters(s, e, bytes))
  }

  function Unit(ch: Chunk, bytes: bool): nat {
    if bytes then ch.size else 1
  }

  /** Counted as allocated and not yet as freed (`live`), or as freed and not yet as recycled. */
  predicate Counted(s: State, b: nat, live: bool) {
    && b in s.abs
    && match s.abs[b]
       case AFree => false
       case ALive(_) => live
       case AQuar(_, _) => !live
       case ABusy(t, _) =>
         t in s.threads &&
         match s.threads[t]
         case AllocTask(pc, _, _, _, _, _, _) => live && pc > COUNT_MALLOC
         case FreeTask(pc, _, _, _) => live == (pc <= COUNT_FREE)
         case RecycleTask(pc, _, _) => !live && pc <= COUNT_RECYCLE
  }

  function Weight(s: State, b: nat, live: bool, bytes: bool): nat {
    if Counted(s, b, live) && !s.abs[b].AFree? then Unit(s.abs[b].ch, bytes) else 0
  }

  function Weights(s: State, live: bool, bytes: bool): map<nat, nat> {
    map b | b in s.abs :: Weight(s, b, live, bytes)
  }

  ghost function Held(s: State, live: bool, bytes: bool): nat {
    Sum(Weights(s, live, bytes))
  }

  /** `malloced - freed` is what is live, `freed - really_freed` is what is quarantined. */
  ghost predicate Conserved(s: State, bytes: bool) {
    && Total(s, Malloced, bytes) == Total(s, Freed, bytes) + Held(s, true, bytes)
    && Total(s, Freed, bytes) == Total(s, ReallyFreed, bytes) + Held(s, false, bytes)
  }

  // ----------------------------------------------------------------------- steps

  /** Only block b0 may have changed its weight. */
  ghost predicate OnlyWeight(s: State, s': State, b0: nat) {
    forall b: nat :: b != b0 ==> (b in s.abs <==> b in s'.abs) && SameWeight(s, s', b)
  }

  predicate SameWeight(s: State, s': State, b: nat) {
    (Counted(s', b, true) <==> Counted(s, b, true)) && (Counted(s', b, false) <==> Counted(s, b, false))
    && (b in s.abs && b in s'.abs && !s.abs[b].AFree? && !s'.abs[b].AFree? ==> s'.abs[b].ch == s.abs[b].ch)
  }

  lemma HeldChange(s: State, s': State, b0: nat, live: bool, bytes: bool)
    requires OnlyWeight(s, s', b0)
    ensures Held(s', live, bytes) + Weight(s, b0, live, bytes) == Held(s, live, bytes) + Weight(s', b0, live, bytes)
  {
    var w, w' := Weights(s, live, bytes), Weights(s', live, bytes);
    forall b | b in s.abs && b != b0
      ensures b in s'.abs && Weight(s', b, live, bytes) == Weight(s, b, live, bytes)
    {
      assert SameWeight(s, s', b);
    }
    forall b | b in s'.abs && b != b0
      ensures b in s.abs
    {
      assert SameWeight(s, s', b);
    }
    assert w - {b0} == w' - {b0};
    SumAgree(w, w', b0);
  }

  lemma TotalChange(s: State, s': State, t: nat, st: Stats, e: Event, bytes: bool)
    requires s'.stats == s.stats[t := st]
    ensures Total(s', e, bytes) + Counter(StatsOf(s, t), e, bytes) == Total(s, e, bytes) + Counter(st, e, bytes)
  {
    var c, c' := Counters(s, e, bytes), Counters(s', e, bytes);
    assert c - {t} == c' - {t};
    SumAgree(c, c', t);
  }

  lemma QuietConserves(s: State, s': State, b0: nat, bytes: bool)
    requires Conserved(s, bytes) && OnlyWeight(s, s', b0) && s'.stats == s.stats
    requires forall live :: Weight(s', b0, live, bytes) == Weight(s, b0, live, bytes)
    ensures Conserved(s', bytes)
  {
    HeldChange(s, s', b0, true, bytes);
    HeldChange(s, s', b0, false, bytes);
    assert Counters(s', Malloced, bytes) == Counters(s, Malloced, bytes);
    assert Counters(s', Freed, bytes) == Counters(s, Freed, bytes);
    assert Counters(s', ReallyFreed, bytes) == Counters(s, ReallyFreed, bytes);
  }

  /** Only thread t and block b0 have changed their entries. */
  ghost predicate OthersSame(s: State, s': State, t: nat, b0: nat) {
    && (forall b: nat :: b != b0 ==> (b in s.abs <==> b in s'.abs) && (b in s.abs ==> s'.abs[b] == s.abs[b]))
    && (t in s.threads ==> s.threads[t].b == b0)
    && (forall t' :: t' != t && t' in s.threads ==> t' in s'.threads && s'.threads[t'] == s.threads[t'])
  }

  /** A step of thread t on block b0 changes no other block's weight. */
  lemma LocalWeight(s: State, s': State, t: nat, b0: nat)
    requires AllAnchored(s) && OthersSame(s, s', t, b0)
    ensures OnlyWeight(s, s', b0)
  {
    forall b: nat | b != b0
      ensures (b in s.abs <==> b in s'.abs) && SameWeight(s, s', b)
    {
    }
  }

  // --------------------------------------------------- steps inside an operation

  /** The program point at which the operation counts. */
  predicate CountsAt(task: Task) {
    match task
    case AllocTask(pc, _, _, _, _, _, _) => pc == COUNT_MALLOC
    case FreeTask(pc, _, _, _) => pc == COUNT_FREE
    case RecycleTask(pc, _, _) => pc == COUNT_RECYCLE
  }

  function EventOf(task: Task): Event {
    if task.AllocTask? then Malloced else if task.FreeTask? then Freed else ReallyFreed
  }

  /** There the counter of one event goes up by the chunk's unit, and the chunk's weight moves with it. */
  lemma TaskCounts(s: State, s': State, t: nat, keep: bool, e: Event, bytes: bool)
    requires t in s.threads && TaskRecorded(s, s', t, keep) && CountsAt(s.threads[t])
    ensures var b := s.threads[t].b;
            var unit := Unit(s.abs[b].ch, bytes);
            && t in s'.stats && s'.stats == s.stats[t := s'.stats[t]]
            && Counter(s'.stats[t], e, bytes) == Counter(StatsOf(s, t), e, bytes) + (if e == EventOf(s.threads[t]) then unit else 0)
            && Weight(s, b, true, bytes) == (if s.threads[t].FreeTask? then unit else 0)
            && Weight(s', b, true, bytes) == (if s.threads[t].AllocTask? then unit else 0)
            && Weight(s, b, false, bytes) == (if s.threads[t].RecycleTask? then unit else 0)
            && Weight(s', b, false, bytes) == (if s.threads[t].FreeTask? then unit else 0)
  {
  }

  /** Elsewhere nothing is counted and the chunk weighs what it weighed. */
  lemma TaskQuiet(s: State, s': State, t: nat, keep: bool, live: bool, bytes: bool)
    requires t in s.threads && TaskRecorded(s, s', t, keep) && !CountsAt(s.threads[t])
    ensures s'.stats == s.stats && Weight(s', s.threads[t].b, live, bytes) == Weight(s, s.threads[t].b, live, bytes)
  {
  }

  lemma TaskConserves(s: State, s': State, t: nat, keep: bool, bytes: bool)
    requires AllAnchored(s) && Conserved(s, bytes) && t in s.threads && TaskRecorded(s, s', t, keep)
    ensures Conserved(s', bytes)
  {
    var b := s.threads[t].b;
    LocalWeight(s, s', t, b);
    if CountsAt(s.threads[t]) {
      TaskCounts(s, s', t, keep, Malloced, bytes);
      TaskCounts(s, s', t, keep, Freed, bytes);
      TaskCounts(s, s', t, keep, ReallyFreed, bytes);
      HeldChange(s, s', b, true, bytes);
      HeldChange(s, s', b, false, bytes);
      TotalChange(s, s', t, s'.stats[t], Malloced, bytes);
      TotalChange(s, s', t, s'.stats[t], Freed, bytes);
      TotalChange(s, s', t, s'.stats[t], ReallyFreed, bytes);
    } else {
      TaskQuiet(s, s', t, keep, true, bytes);
      TaskQuiet(s, s', t, keep, false, bytes);
      QuietConserves(s, s', b, bytes);
    }
  }

  /** An operation that starts on a block counts nothing yet. */
  lemma StartConserves(s: State, s': State, t: nat, b: nat, ch: Chunk, bytes: bool)
    requires AllAnchored(s) && Conserved(s, bytes) && Starts(s, s', t, b, ch)
    requires forall live :: Weight(s', b, live, bytes) == Weight(s, b, live, bytes)
    ensures Conserved(s', bytes)
  {
    LocalWeight(s, s', t, b);
    QuietConserves(s, s', b, bytes);
  }

  lemma PickConserves(s: State, s': State, t: nat, m: nat, b: nat, bytes: bool)
    requires AllAnchored(s) && Conserved(s, bytes) && PickRecorded(s, s', t, m, b)
    ensures Conserved(s', bytes)
  {
    StartConserves(s, s', t, b, s.abs[b].ch, bytes);
  }

  /** Steps that touch no counter, no thread and no record of a chunk. */
  lemma SilentConserves(s: State, s': State, bytes: bool)
    requires Conserved(s, bytes) && s'.stats == s.stats && s'.threads == s.threads && s'.abs == s.abs
    ensures Conserved(s', bytes)
  {
    assert forall b, live :: Counted(s', b, live) <==> Counted(s, b, live);
    QuietConserves(s, s', 0, bytes);
  }

  lemma CarveConserves(s: State, s': State, b0: nat, bytes: bool)
    requires Conserved(s, bytes) && s'.stats == s.stats && s'.threads == s.threads
    requires b0 !in s.abs && s'.abs == s.abs[b0 := AFree]
    ensures Conserved(s', bytes)
  {
    assert forall b, live :: Counted(s', b, live) <==> Counted(s, b, live);
    QuietConserves(s, s', b0, bytes);
  }

  /** Records that change as steps change them keep the balance. */
  lemma RecordConserves(s: State, s': State, step: Step, bytes: bool)
    requires AllAnchored(s) && Conserved(s, bytes) && Recorded(s, s', step)
    ensures Conserved(s', bytes)
  {
    if step.Malloc? {
      StartConserves(s, s', step.t, SourceBeg(step.source), s'.abs[SourceBeg(step.source)].ch, bytes);
    } else if step.Free? && s' != s {
      var b: nat :| WinRecorded(s, s', step.t, step.p, b);
      StartConserves(s, s', step.t, b, s.abs[b].ch, bytes);
    } else if step.Recycle? {
      var b: nat :| PickRecorded(s, s', step.t, step.m, b);
      PickConserves(s, s', step.t, step.m, b, bytes);
    } else if step.Run? {
      TaskConserves(s, s', step.t, step.keep, bytes);
    } else if step.Carve? {
      CarveConserves(s, s', step.b, bytes);
    } else {
      SilentConserves(s, s', bytes);
    }
  }

  lemma StepConserves(s: State, step: Step, bytes: bool)
    requires Inv(s) && Conserved(s, bytes) && Enabled(s, step)
    ensures Conserved(Apply(s, step), bytes)
  {
    StepIsRecorded(s, step);
    InvAllAnchored(s);
    RecordConserves(s, Apply(s, step), step, bytes);
  }

  lemma InitConserved(s: State, bytes: bool)
    requires Init(s)
    ensures Conserved(s, bytes)
  {
    assert Weights(s, true, bytes) == map[] && Weights(s, false, bytes) == map[];
    assert Counters(s, Malloced, bytes) == map[] == Counters(s, Freed, bytes);
    assert Counters(s, ReallyFreed, bytes) == map[];
  }

  /** Conservation over every run, in bytes and in calls. */
  lemma {:induction false} RunConserved(states: seq<State>, steps: seq<Step>, i: nat, bytes: bool)
    requires IsRun(states, steps) && i < |states|
    ensures Conserved(states[i], bytes)
    decreases i
  {
    if i == 0 {
      InitConserved(states[0], bytes);
    } else {
      var k := i - 1;
      RunConserved(states, steps, k, bytes);
      RunIsSafe(states, steps, k);
      StepConserves(states[k], steps[k], bytes);
    }
  }
}
