/** Whole operations as one transition: where `Allocate`, `Deallocate` and `Recycle` end when they run undisturbed. */
module Outcomes {
  import opened Words
  import opened Layout
  import opened Memory
  import opened Chunks
  import opened Machine
  import opened Invariant
  import opened Runs
  import opened Separation
  import opened Uninterrupted
  import opened FreeProtocol
  import Allocating
  import Freeing
  import Recycling
  import HeapSteps

  // -------------------------------------------------------------------- Allocate

  /** The state once the underlying allocator has answered. */
  ghost function Provided(s: State, source: Source, needed: u64): State
    requires |s.mem| == 8 * |s.shadow| && SourceOk(s, source, needed)
  {
    s.(mem := SourceMem(s.mem, source, needed), shadow := SourceShadow(s.shadow, s.on, source, needed),
       blocks := SourceBlocks(s.blocks, source, needed), free := SourceFree(s.free, source))
  }

  /** The same, with the thread on its way through `Allocate`. */
  ghost function Begun(s: State, t: nat, b: nat, ch: Chunk, guess: bool, fill: nat): State {
    s.(threads := s.threads[t := AllocTask(PUT_KIND, b, ch, guess, fill, false, false)],
       abs := s.abs[b := ABusy(t, ch)], nextId := s.nextId + 1)
  }

  lemma BegunIsApply(s: State, step: Step, plan: Plan, ch: Chunk)
    requires MallocBounds(s, step)
    requires plan == PlanOf(s, step) && ch == NewChunk(s, step)
    ensures |s.mem| == 8 * |s.shadow| && SourceOk(s, step.source, plan.needed)
    ensures Begun(Provided(s, step.source, plan.needed), step.t, SourceBeg(step.source), ch, plan.fromPrimary, step.fill)
            == ApplyMalloc(s, step)
  {
  }

  lemma MallocInv(s: State, step: Step)
    requires Inv(s) && step.Malloc? && Enabled(s, step)
    ensures Safe(s, step) && MallocBounds(s, step) && Inv(ApplyMalloc(s, step))
  {
    StepKeepsInv(s, step);
  }

  lemma MallocTask(s: State, step: Step)
    requires MallocBounds(s, step) && step.t !in s.threads
    ensures var s1, b, ch := ApplyMalloc(s, step), SourceBeg(step.source), NewChunk(s, step);
            && step.t in s1.threads && s1.threads - {step.t} == s.threads && s1.abs[b := ALive(ch)] == s.abs[b := ALive(ch)]
            && s1.threads[step.t]
               == AllocTask(PUT_KIND, b, ch, PlanOf(s, step).fromPrimary, step.fill,
                         false, false)
            && s1.quarantine == s.quarantine
  {
  }

  /** Every other block keeps its bytes. */
  ghost predicate OthersKept(s: State, s2: State, b: nat) {
    forall b' :: b' in s.blocks && b' != b ==> KeptExcept(s, s2, b', -1)
  }

  lemma AllocDoneLocal(s: State, t: nat, i: int)
    requires Allocating.Allocates(s, t) && AllocBounds(s, t)
    requires 0 <= i < |s.mem| && !(s.threads[t].b <= i < s.threads[t].b + s.blocks[s.threads[t].b].size)
    ensures |AllocDone(s, t).mem| == |s.mem| && AllocDone(s, t).mem[i] == s.mem[i]
  {
    var task := s.threads[t];
    AllocMemFromLocal(s.mem, task.pc, task.b, s.blocks[task.b], task.ch, task.fill, s.flags, i);
  }

  lemma MallocIsProvided(s: State, step: Step)
    requires MallocBounds(s, step)
    ensures var needed := PlanOf(s, step).needed;
            && SourceOk(s, step.source, needed) && |s.mem| == 8 * |s.shadow|
            && ApplyMalloc(s, step).mem == Provided(s, step.source, needed).mem
            && ApplyMalloc(s, step).blocks == Provided(s, step.source, needed).blocks
  {
  }

  lemma MallocApart(s: State, step: Step, b': nat, i: int)
    requires Shape(s) && MallocBounds(s, step)
    requires b' in s.blocks && b' != SourceBeg(step.source) && b' <= i < b' + s.blocks[b'].size
    ensures var s1, b := ApplyMalloc(s, step), SourceBeg(step.source);
            b in s1.blocks && !(b <= i < b + s1.blocks[b].size) && i < |s.mem| == |s1.mem| && s1.mem[i] == s.mem[i]
  {
    MallocIsProvided(s, step);
    if step.source.Primary? {
      assert BlocksApart(s.blocks, SourceBeg(step.source), b');
    }
    assert BlockShape(s, b');
  }

  lemma AllocateKeepsSize(s: State, step: Step)
    requires MallocBounds(s, step) && AllocBounds(ApplyMalloc(s, step), step.t)
    ensures |AllocDone(ApplyMalloc(s, step), step.t).mem| == |s.mem|
  {
    MallocIsProvided(s, step);
  }

  /** The outcome of a successful `Allocate`: the final state in closed form, and what it means. */
  ghost predicate AllocatedAs(s: State, s2: State, step: Step, user: nat) {
    && MallocBounds(s, step) && Inv(s2)
    && AllocBounds(ApplyMalloc(s, step), step.t) && s2 == AllocDone(ApplyMalloc(s, step), step.t)
    && user == NewChunk(s, step).user && NewlyLive(s, s2, SourceBeg(step.source), NewChunk(s, step))
  }

  /** The new chunk lives in block b, nothing else changed hands. */
  ghost predicate NewlyLive(s: State, s2: State, b: nat, ch: Chunk) {
    s2.abs == s.abs[b := ALive(ch)] && s2.threads == s.threads && s2.quarantine == s.quarantine && OthersKept(s, s2, b)
  }

  /** It is a run of the machine's steps. */
  lemma AllocatedIsRun(s: State, s2: State, step: Step, user: nat) returns (path: seq<State>)
    requires Inv(s) && Enabled(s, step) && AllocatedAs(s, s2, step, user)
    ensures Leads(Apply(s, step), path, s2, step.t, true)
  {
    MallocInv(s, step);
    MallocTask(s, step);
    path := AllocRuns(ApplyMalloc(s, step), step.t, true);
  }

  lemma NewChunkFields(s: State, step: Step, plan: Plan)
    requires MallocBounds(s, step) && plan == PlanOf(s, step)
    ensures var ch := NewChunk(s, step);
            && plan.Accept? && ch.user == UserBeg(SourceBeg(step.source), plan) && HEADER <= ch.user && ch.size == plan.size
            && ch.alignLog == AlignmentLog(step.alignment0) && ch.kind == step.kind && ch.tid == step.t && ch.stack == step.stack
  {
  }

  lemma MallocStarts(s: State, step: Step)
    requires Inv(s) && step.Malloc? && Enabled(s, step)
    ensures Safe(s, step) && MallocBounds(s, step) && Inv(ApplyMalloc(s, step))
    ensures Allocating.Allocates(ApplyMalloc(s, step), step.t) && AllocBounds(ApplyMalloc(s, step), step.t)
    ensures Inv(AllocDone(ApplyMalloc(s, step), step.t))
  {
    MallocInv(s, step);
    MallocTask(s, step);
    Allocating.AllocTaskStory(ApplyMalloc(s, step), step.t);
    var path := AllocRuns(ApplyMalloc(s, step), step.t, true);
  }

  lemma AllocateKeepsByte(s: State, step: Step, b': nat, i: int)
    requires Shape(s) && MallocBounds(s, step) && step.t !in s.threads
    requires Allocating.Allocates(ApplyMalloc(s, step), step.t) && AllocBounds(ApplyMalloc(s, step), step.t)
    requires b' in s.blocks && b' != SourceBeg(step.source) && b' <= i < b' + s.blocks[b'].size
    ensures i < |s.mem| == |AllocDone(ApplyMalloc(s, step), step.t).mem| && AllocDone(ApplyMalloc(s, step), step.t).mem[i] == s.mem[i]
  {
    MallocTask(s, step);
    MallocApart(s, step, b', i);
    AllocDoneLocal(ApplyMalloc(s, step), step.t, i);
  }

  lemma AllocateKeepsOthers(s: State, step: Step)
    requires Shape(s) && MallocBounds(s, step) && step.t !in s.threads
    requires Allocating.Allocates(ApplyMalloc(s, step), step.t) && AllocBounds(ApplyMalloc(s, step), step.t)
    ensures OthersKept(s, AllocDone(ApplyMalloc(s, step), step.t), SourceBeg(step.source))
  {
    forall b', i | b' in s.blocks && b' != SourceBeg(step.source) && b' <= i < b' + s.blocks[b'].size
      ensures i < |s.mem| == |AllocDone(ApplyMalloc(s, step), step.t).mem| && AllocDone(ApplyMalloc(s, step), step.t).mem[i] == s.mem[i]
    {
      AllocateKeepsByte(s, step, b', i);
    }
    AllocateKeepsSize(s, step);
  }

  lemma AllocatedFrom(s: State, step: Step)
    requires Shape(s) && MallocBounds(s, step) && step.t !in s.threads
    requires Allocating.Allocates(ApplyMalloc(s, step), step.t) && AllocBounds(ApplyMalloc(s, step), step.t)
    requires Inv(AllocDone(ApplyMalloc(s, step), step.t))
    ensures AllocatedAs(s, AllocDone(ApplyMalloc(s, step), step.t), step, NewChunk(s, step).user)
  {
    AllocateKeepsOthers(s, step);
    MallocTask(s, step);
  }

  /** `Allocate` from request to return: the state after the block was obtained, and the final one. */
  lemma AllocateRuns(s: State, step: Step, plan: Plan) returns (ch: Chunk, s1: State, s2: State)
    requires Inv(s) && step.Malloc? && Enabled(s, step)
    requires plan == PlanOf(s, step)
    ensures |s.mem| == 8 * |s.shadow| && SourceOk(s, step.source, plan.needed)
    ensures ch.user == UserBeg(SourceBeg(step.source), plan) && HEADER <= ch.user && ch.size == plan.size
    ensures ch.alignLog == AlignmentLog(step.alignment0) && ch.kind == step.kind && ch.tid == step.t && ch.stack == step.stack
    ensures s1 == Begun(Provided(s, step.source, plan.needed), step.t, SourceBeg(step.source), ch, plan.fromPrimary, step.fill)
    ensures Ready(s1, SourceBeg(step.source), ch)
    ensures s2 == Finished(s1, PUT_KIND, step.t, SourceBeg(step.source), ch, plan.fromPrimary, step.fill, false, false)
    ensures AllocatedAs(s, s2, step, ch.user)
  {
    MallocStarts(s, step);
    NewChunkFields(s, step, plan);
    ch := NewChunk(s, step);
    BegunIsApply(s, step, plan, ch);
    MallocTask(s, step);
    s1 := ApplyMalloc(s, step);
    s2 := AllocDone(s1, step.t);
    AllocatedFrom(s, step);
  }

  // ------------------------------------------------------------------ Deallocate

  /**
   The outcome of a winning `Deallocate` on the chunk in block b: quarantined, or given back at once.
   `FreeEnds` is the whole final state, `FreedChange` says what it means.
   */
  ghost predicate FreedAs(s: State, s2: State, t: nat, b: nat, stack: nat, keep: bool) {
    Inv(s2) && FreedChange(s, s2, t, b, stack, keep) && FreeEnds(s, s2, t, b, stack, keep)
  }

  ghost predicate FreedChange(s: State, s2: State, t: nat, b: nat, stack: nat, keep: bool) {
    && b in s.blocks && b in s.abs && s.abs[b].ALive? && 0 <= Hdr(s.abs[b].ch) < |s.mem|
    && s2.threads == s.threads && OthersKept(s, s2, b) && s2.won == s.won + multiset{s.abs[b].ch.id}
    && s2.stats == FreedStats(s.stats, t, s.abs[b].ch.size, keep)
    && (if keep then s2.abs == s.abs[b := AQuar(s.abs[b].ch, Pack(t, stack))]
                     && s2.quarantine == s.quarantine + multiset{Hdr(s.abs[b].ch)}
        else GivenBack(s, s2, b) && s2.quarantine == s.quarantine)
  }

  /** The final state in closed form, from the state in which the compare-and-swap has won. */
  ghost predicate FreeEnds(s: State, s2: State, t: nat, b: nat, stack: nat, keep: bool)
    requires b in s.blocks && b in s.abs && s.abs[b].ALive? && 0 <= Hdr(s.abs[b].ch) < |s.mem|
  {
    var s1 := Freeing.Won(s, t, b, stack);
    && FreeBounds(s1, t)
    && if keep then s2 == FreeDone(s1, t)
       else RecycleBounds(FreePassed(s1, t), t) && s2 == RecycleDone(FreePassed(s1, t), t)
  }

  /** A chunk that passes straight through is counted as freed and as recycled. */
  ghost function FreedStats(stats: map<nat, Stats>, t: nat, size: nat, keep: bool): map<nat, Stats> {
    var freed := CountedFree(stats, t, size);
    if keep then freed else CountedRecycle(freed, t, size)
  }

  /** A primary block is free again, a secondary one is gone. */
  ghost predicate GivenBack(s: State, s2: State, b: nat)
    requires b in s.blocks
  {
    s2.abs == if s.blocks[b].primary then s.abs[b := AFree] else s.abs - {b}
  }

  /** Memory may differ only inside the block at b. */
  ghost predicate OnlyInside(m: Mem, m2: Mem, b: nat, bk: Block) {
    |m2| == |m| && forall i :: 0 <= i < |m| && !(b <= i < b + bk.size) ==> m2[i] == m[i]
  }

  lemma InsideKeepsOthers(s: State, s2: State, b: nat)
    requires Shape(s) && b in s.blocks && OnlyInside(s.mem, s2.mem, b, s.blocks[b])
    ensures OthersKept(s, s2, b)
  {
    forall b' | b' in s.blocks && b' != b
      ensures KeptExcept(s, s2, b', -1)
    {
      assert BlocksApart(s.blocks, b, b');
    }
  }

  lemma ContextKeepsSize(mem: Mem, p: nat, context: nat)
    requires HEADER <= p && p + HEADER2 <= |mem|
    ensures UsedSize(Store(mem, p, 8, context), p - HEADER) == UsedSize(mem, p - HEADER)
  {
    UsedSizeFrame(mem, Store(mem, p, 8, context), p - HEADER);
  }

  lemma FreeMemFromInside(mem: Mem, m: nat, size: nat, t: nat, stack: nat, fills: bool, flags: Flags, b: nat, bk: Block)
    requires m + HEADER + Max(HEADER2, size) <= |mem| && b <= m && m + HEADER + Max(HEADER2, size) <= b + bk.size
    ensures OnlyInside(mem, FreeMemFrom(mem, CLEAR_CONTEXT, m, size, t, stack, fills, flags), b, bk)
  {
  }

  lemma StartsAt(s: State, p: nat, b: nat)
    requires b in s.abs && s.abs[b].ALive? && s.abs[b].ch.user == p && GetBlockBegin(s.blocks, Hdr(s.abs[b].ch)) == Some(b)
    ensures GetBlockBegin(s.blocks, p - HEADER) == Some(b)
  {
    assert p - HEADER == Hdr(s.abs[b].ch);
  }

  /** The block of the live chunk that starts at p. */
  lemma ChunkStartingAt(s: State, p: nat) returns (b: nat)
    requires Inv(s) && HEADER <= p < |s.mem| + HEADER && NotForged(s, p) && s.mem[p - HEADER] == CHUNK_ALLOCATED
    ensures b in s.blocks && b in s.abs && s.abs[b].ALive? && s.abs[b].ch.user == p && GetBlockBegin(s.blocks, p - HEADER) == Some(b)
  {
    b := Freeing.FreeHits(s, p);
    StartsAt(s, p, b);
  }

  lemma WonBounds(s: State, t: nat, b: nat, stack: nat)
    requires Inv(s) && b in s.blocks && s.abs[b].ALive? && t !in s.threads && t < U32 && stack < U32
    ensures 0 <= Hdr(s.abs[b].ch) < |s.mem| && (Hdr(s.abs[b].ch) == b || b + LARGE_HEADER <= Hdr(s.abs[b].ch))
    ensures Inv(Freeing.Won(s, t, b, stack)) && FreeBounds(Freeing.Won(s, t, b, stack), t)
  {
    HeaderBlock(s, b);
    var s1 := Freeing.Won(s, t, b, stack);
    Freeing.FreeRaceWon(s, s1, t, b, stack);
    FreeFacts(s1, t, true);
  }

  lemma WonTask(s: State, s1: State, t: nat, b: nat, stack: nat)
    requires b in s.blocks && b in s.abs && s.abs[b].ALive? && 0 <= Hdr(s.abs[b].ch) < |s.mem|
    requires s1 == Freeing.Won(s, t, b, stack) && FreeBounds(s1, t)
    ensures s1.threads[t] == FreeTask(CLEAR_CONTEXT, Hdr(s.abs[b].ch), b, stack) && s1.abs[b].ch == s.abs[b].ch && s1.blocks == s.blocks
  {
  }

  lemma KeptInside(s: State, s1: State, t: nat, b: nat, stack: nat)
    requires b in s.blocks && b in s.abs && s.abs[b].ALive? && 0 <= Hdr(s.abs[b].ch) < |s.mem|
    requires s1 == Freeing.Won(s, t, b, stack) && FreeBounds(s1, t)
    ensures OnlyInside(s.mem, FreeDone(s1, t).mem, b, s.blocks[b])
  {
    WonTask(s, s1, t, b, stack);
    FreeMemFromInside(s1.mem, s1.threads[t].m, s.abs[b].ch.size, t, stack, true, s.flags, b, s.blocks[b]);
  }

  lemma KeptChange(s: State, s1: State, t: nat, b: nat, stack: nat)
    requires b in s.blocks && b in s.abs && s.abs[b].ALive? && 0 <= Hdr(s.abs[b].ch) < |s.mem| && t !in s.threads
    requires s1 == Freeing.Won(s, t, b, stack) && FreeBounds(s1, t)
    ensures var s2 := FreeDone(s1, t);
            && s2.threads == s.threads && s2.won == s.won + multiset{s.abs[b].ch.id}
            && s2.abs == s.abs[b := AQuar(s.abs[b].ch, Pack(t, stack))]
            && s2.quarantine == s.quarantine + multiset{Hdr(s.abs[b].ch)}
  {
    WonTask(s, s1, t, b, stack);
    assert s1.threads - {t} == s.threads;
  }

  /** The free that wins, up to the quarantine. */
  lemma KeptOutcome(s: State, t: nat, b: nat, stack: nat) returns (s1: State, s2: State)
    requires Inv(s) && b in s.blocks && s.abs[b].ALive? && t !in s.threads && t < U32 && stack < U32
    ensures 0 <= Hdr(s.abs[b].ch) < |s.mem|
    ensures s1 == Freeing.Won(s, t, b, stack) && FreeBounds(s1, t) && s2 == FreeDone(s1, t)
    ensures FreedAs(s, s2, t, b, stack, true)
  {
    WonBounds(s, t, b, stack);
    s1 := Freeing.Won(s, t, b, stack);
    var path := KeptRuns(s1, t);
    s2 := FreeDone(s1, t);
    KeptInside(s, s1, t, b, stack);
    InsideKeepsOthers(s, s2, b);
    KeptChange(s, s1, t, b, stack);
    WonTask(s, s1, t, b, stack);
  }

  /**
   It is a run of the machine's steps, once the compare-and-swap has won: to the quarantine, or to
   the call of `Recycle` and from there to its end.
   */
  lemma FreedIsRun(s: State, s2: State, t: nat, b: nat, stack: nat, keep: bool) returns (path: seq<State>, rest: seq<State>)
    requires Inv(s) && t !in s.threads && t < U32 && stack < U32 && FreedAs(s, s2, t, b, stack, keep)
    ensures var s1 := Freeing.Won(s, t, b, stack);
            if keep then Leads(s1, path, s2, t, true)
            else Leads(s1, path, FreePassed(s1, t), t, false) && Leads(FreePassed(s1, t), rest, s2, t, false)
  {
    var s1 := Freeing.Won(s, t, b, stack);
    WonBounds(s, t, b, stack);
    WonTask(s, Freeing.Won(s, t, b, stack), t, b, stack);
    PassedIsRecycle(Freeing.Won(s, t, b, stack), t);
    WonTask(s, s1, t, b, stack);
    if keep {
      path := KeptRuns(s1, t);
      rest := [];
    } else {
      path := PassedRuns(s1, t);
      rest := RecycleRuns(FreePassed(s1, t), t, false);
    }
  }

  // --------------------------------------------------------------------- Recycle

  lemma RecycleInside(s: State, t: nat)
    requires RecycleBounds(s, t) && s.threads[t].pc == CLEAR_MAGIC
    ensures OnlyInside(s.mem, RecycleDone(s, t).mem, s.threads[t].b, s.blocks[s.threads[t].b])
  {
    var task := s.threads[t];
  }

  lemma RecycleChange(s: State, t: nat)
    requires RecycleBounds(s, t)
    ensures GivenBack(s, RecycleDone(s, t), s.threads[t].b)
    ensures s.threads[t].pc == CLEAR_MAGIC ==> RecycleDone(s, t).stats == CountedRecycle(s.stats, t, s.abs[s.threads[t].b].ch.size)
    ensures RecycleDone(s, t).threads == s.threads - {t} && RecycleDone(s, t).won == s.won && RecycleDone(s, t).quarantine == s.quarantine
  {
  }

  /** The outcome of recycling the chunk in block b out of the quarantine. */
  ghost predicate RecycledAs(s: State, s2: State, t: nat, b: nat) {
    && Inv(s2) && b in s.blocks && b in s.abs && s.abs[b].AQuar? && Hdr(s.abs[b].ch) >= 0
    && s2.threads == s.threads && OthersKept(s, s2, b) && s2.won == s.won
    && GivenBack(s, s2, b) && s2.quarantine == s.quarantine - multiset{Hdr(s.abs[b].ch)}
    && s2.stats == CountedRecycle(s.stats, t, s.abs[b].ch.size)
    && RecycleBounds(Recycling.Picked(s, t, b), t) && s2 == RecycleDone(Recycling.Picked(s, t, b), t)
  }

  lemma PickedBounds(s: State, t: nat, b: nat)
    requires Inv(s) && b in s.blocks && s.abs[b].AQuar? && t !in s.threads
    ensures Hdr(s.abs[b].ch) >= 0
    ensures Inv(Recycling.Picked(s, t, b)) && RecycleBounds(Recycling.Picked(s, t, b), t)
  {
    HeaderBlock(s, b);
    Recycling.PickedKeeps(s, t, b);
    RecycleFacts(Recycling.Picked(s, t, b), t, true);
  }

  lemma PickedChange(s: State, s1: State, t: nat, b: nat)
    requires b in s.blocks && b in s.abs && s.abs[b].AQuar? && Hdr(s.abs[b].ch) >= 0 && t !in s.threads
    requires s1 == Recycling.Picked(s, t, b) && RecycleBounds(s1, t)
    ensures s1.threads[t] == RecycleTask(CLEAR_MAGIC, Hdr(s.abs[b].ch), b) && s1.blocks == s.blocks && s1.mem == s.mem
    ensures GivenBack(s, RecycleDone(s1, t), b) && RecycleDone(s1, t).threads == s.threads && RecycleDone(s1, t).won == s.won
    ensures RecycleDone(s1, t).quarantine == s.quarantine - multiset{Hdr(s.abs[b].ch)}
    ensures RecycleDone(s1, t).stats == CountedRecycle(s.stats, t, s.abs[b].ch.size)
  {
    RecycleChange(s1, t);
    assert s1.threads - {t} == s.threads;
    assert s1.abs[b := AFree] == s.abs[b := AFree] && s1.abs - {b} == s.abs - {b};
  }

  lemma RecycleOutcome(s: State, t: nat, b: nat) returns (s1: State, s2: State)
    requires Inv(s) && b in s.blocks && s.abs[b].AQuar? && t !in s.threads
    ensures Hdr(s.abs[b].ch) >= 0
    ensures s1 == Recycling.Picked(s, t, b) && Inv(s1) && RecycleBounds(s1, t) && s2 == RecycleDone(s1, t)
    ensures RecycledAs(s, s2, t, b)
  {
    PickedBounds(s, t, b);
    s1 := Recycling.Picked(s, t, b);
    var path := RecycleRuns(s1, t, true);
    s2 := RecycleDone(s1, t);
    PickedChange(s, s1, t, b);
    RecycleInside(s1, t);
    InsideKeepsOthers(s, s2, b);
  }

  /** It is a run of the machine's steps, once the quarantine has picked the chunk. */
  lemma RecycledIsRun(s: State, s2: State, t: nat, b: nat) returns (path: seq<State>)
    requires Inv(s) && t !in s.threads && RecycledAs(s, s2, t, b)
    ensures Leads(Recycling.Picked(s, t, b), path, s2, t, true)
  {
    PickedBounds(s, t, b);
    path := RecycleRuns(Recycling.Picked(s, t, b), t, true);
  }

  // ------------------------------------------------- Deallocate, passing through

  lemma PassedTask(s: State, s1: State, t: nat, b: nat, stack: nat)
    requires b in s.blocks && b in s.abs && s.abs[b].ALive? && 0 <= Hdr(s.abs[b].ch) < |s.mem| && t !in s.threads
    requires s1 == Freeing.Won(s, t, b, stack) && FreeBounds(s1, t)
    ensures var s2 := FreePassed(s1, t);
            && t in s2.threads && s2.threads[t] == RecycleTask(CLEAR_MAGIC, Hdr(s.abs[b].ch), b) && s2.threads - {t} == s.threads
            && s2.blocks == s.blocks && s2.abs == s.abs[b := ABusy(t, s.abs[b].ch)]
            && s2.won == s.won + multiset{s.abs[b].ch.id} && s2.quarantine == s.quarantine
            && s2.stats == CountedFree(s.stats, t, s.abs[b].ch.size)
  {
    WonTask(s, s1, t, b, stack);
  }

  lemma PassedChange(s: State, s2: State, t: nat, b: nat)
    requires b in s.blocks && b in s.abs && s.abs[b].ALive? && RecycleBounds(s2, t) && s2.threads[t].b == b
    requires s2.threads - {t} == s.threads && s2.blocks == s.blocks && s2.abs == s.abs[b := ABusy(t, s.abs[b].ch)]
    requires s2.won == s.won + multiset{s.abs[b].ch.id} && s2.quarantine == s.quarantine && s2.threads[t].pc == CLEAR_MAGIC
    requires s2.stats == CountedFree(s.stats, t, s.abs[b].ch.size)
    ensures var s3 := RecycleDone(s2, t);
            && s3.threads == s.threads && s3.won == s.won + multiset{s.abs[b].ch.id} && s3.quarantine == s.quarantine
            && GivenBack(s, s3, b) && s3.stats == FreedStats(s.stats, t, s.abs[b].ch.size, false)
  {
    RecycleChange(s2, t);
  }

  lemma PassedIsRecycle(s1: State, t: nat)
    requires Inv(s1) && t in s1.threads && s1.threads[t].FreeTask? && s1.threads[t].pc == CLEAR_CONTEXT
    ensures FreeBounds(s1, t) && Inv(FreePassed(s1, t)) && RecycleBounds(FreePassed(s1, t), t)
    ensures Inv(RecycleDone(FreePassed(s1, t), t))
  {
    var path := PassedRuns(s1, t);
    var s2 := FreePassed(s1, t);
    assert s2.threads[t].RecycleTask?;
    var path' := RecycleRuns(s2, t, false);
  }

  lemma PassedStates(s: State, t: nat, b: nat, stack: nat) returns (s1: State, s2: State, s3: State)
    requires Inv(s) && b in s.blocks && s.abs[b].ALive? && t !in s.threads && t < U32 && stack < U32
    ensures 0 <= Hdr(s.abs[b].ch) < |s.mem| && (Hdr(s.abs[b].ch) == b || b + LARGE_HEADER <= Hdr(s.abs[b].ch))
    ensures s1 == Freeing.Won(s, t, b, stack) && FreeBounds(s1, t)
    ensures s2 == FreePassed(s1, t) && RecycleBounds(s2, t) && s3 == RecycleDone(s2, t) && Inv(s3)
  {
    WonBounds(s, t, b, stack);
    s1 := Freeing.Won(s, t, b, stack);
    WonTask(s, s1, t, b, stack);
    PassedIsRecycle(s1, t);
    s2 := FreePassed(s1, t);
    s3 := RecycleDone(s2, t);
  }

  lemma ThroughInside(s: State, s1: State, s2: State, s3: State, t: nat, b: nat, stack: nat)
    requires b in s.blocks && b in s.abs && s.abs[b].ALive? && 0 <= Hdr(s.abs[b].ch) < |s.mem| && t !in s.threads
    requires s1 == Freeing.Won(s, t, b, stack) && FreeBounds(s1, t)
    requires s2 == FreePassed(s1, t) && RecycleBounds(s2, t) && s3 == RecycleDone(s2, t)
    ensures OnlyInside(s.mem, s3.mem, b, s.blocks[b])
  {
    WonTask(s, s1, t, b, stack);
    FreeMemFromInside(s1.mem, s1.threads[t].m, s.abs[b].ch.size, t, stack, s.blocks[b].primary, s.flags, b, s.blocks[b]);
    PassedTask(s, s1, t, b, stack);
    RecycleInside(s2, t);
  }

  /** The free that wins and passes its chunk straight through. */
  lemma PassedOutcome(s: State, t: nat, b: nat, stack: nat) returns (s1: State, s2: State, s3: State)
    requires Inv(s) && b in s.blocks && s.abs[b].ALive? && t !in s.threads && t < U32 && stack < U32
    ensures 0 <= Hdr(s.abs[b].ch) < |s.mem| && (Hdr(s.abs[b].ch) == b || b + LARGE_HEADER <= Hdr(s.abs[b].ch))
    ensures s1 == Freeing.Won(s, t, b, stack) && FreeBounds(s1, t)
    ensures s2 == FreePassed(s1, t) && RecycleBounds(s2, t) && s3 == RecycleDone(s2, t)
    ensures FreedAs(s, s3, t, b, stack, false)
  {
    s1, s2, s3 := PassedStates(s, t, b, stack);
    PassedTask(s, s1, t, b, stack);
    ThroughInside(s, s1, s2, s3, t, b, stack);
    InsideKeepsOthers(s, s3, b);
    PassedChange(s, s2, t, b);
  }

  // --------------------------------------------------------------------- options

  /** Options, flags, spare memory and what re-activations lost are as before. */
  ghost predicate SameOptions(s: State, s2: State) {
    && s2.on == s.on && s2.rz == s.rz && s2.maxUser == s.maxUser && s2.flags == s.flags
    && s2.spare == s.spare && s2.lost == s.lost
  }

  lemma AllocatedKeepsOptions(s: State, s2: State, step: Step, user: nat)
    requires AllocatedAs(s, s2, step, user)
    ensures SameOptions(s, s2) && s2.stale == s.stale && s2.nextId == s.nextId + 1
  {
  }

  lemma FreedKeepsOptions(s: State, s2: State, t: nat, b: nat, stack: nat, keep: bool)
    requires FreedAs(s, s2, t, b, stack, keep)
    ensures SameOptions(s, s2) && s2.nextId == s.nextId
    ensures keep ==> s2.blocks == s.blocks && s2.free == s.free && s2.stale == s.stale
  {
  }

  lemma RecycledKeepsOptions(s: State, s2: State, t: nat, b: nat)
    requires RecycledAs(s, s2, t, b)
    ensures SameOptions(s, s2) && s2.nextId == s.nextId
  {
  }

  // ------------------------------------------------------------------ Reallocate

  /** A chunk that was allocated and whose block has not been given back. */
  ghost predicate OldChunk(s: State, b: nat, p: nat) {
    b in s.blocks && b in s.abs && (s.abs[b].ALive? || FreedInPlace(s, b)) && s.abs[b].ch.user == p
  }

  /** Memory after `n` bytes were copied from `src` to `dst`. */
  ghost function CopyTo(m: Mem, dst: nat, src: nat, n: nat): (r: Mem)
    requires src + n <= |m|
    ensures |r| == |m|
  {
    seq(|m|, i requires 0 <= i < |m| => if dst <= i < dst + n then m[src + i - dst] else m[i])
  }

  /** The state byte of such a chunk says whether it is live. */
  lemma OldState(s: State, b: nat, p: nat)
    requires Inv(s) && OldChunk(s, b, p)
    ensures HEADER <= p < |s.mem| + HEADER
    ensures FreeReport(s.mem[p - HEADER]) == if s.abs[b].ALive? then Quiet else DoubleFree
  {
    if s.abs[b].ALive? {
      LiveByte(s, b);
    } else {
      FreedByte(s, b);
    }
    OldPointer(s, b, p);
  }

  lemma OldPointer(s: State, b: nat, p: nat)
    requires OldChunk(s, b, p) && 0 <= Hdr(s.abs[b].ch) < |s.mem|
    requires s.mem[Hdr(s.abs[b].ch)] == if s.abs[b].ALive? then CHUNK_ALLOCATED else CHUNK_QUARANTINE
    ensures HEADER <= p < |s.mem| + HEADER
    ensures FreeReport(s.mem[p - HEADER]) == if s.abs[b].ALive? then Quiet else DoubleFree
  {
    assert p - HEADER == Hdr(s.abs[b].ch);
  }

  /** The new chunk is live in block b1 and nothing else changed. */
  ghost predicate OneMore(s: State, s1: State, b1: nat, ch1: Chunk) {
    && Inv(s1) && b1 in s1.blocks && s1.abs == s.abs[b1 := ALive(ch1)] && s1.threads == s.threads
    && forall b :: b in s.blocks && b != b1 ==> SameBlock(s, s1, b)
  }

  ghost predicate SameBlock(s: State, s1: State, b: nat)
    requires b in s.blocks
  {
    b in s1.blocks && s1.blocks[b] == s.blocks[b] && KeptExcept(s, s1, b, -1)
  }

  lemma MallocBlocks(s: State, step: Step, b: nat)
    requires MallocBounds(s, step) && b in s.blocks && b != SourceBeg(step.source)
    ensures b in ApplyMalloc(s, step).blocks && ApplyMalloc(s, step).blocks[b] == s.blocks[b]
  {
  }

  lemma AllocDoneBlocks(s: State, t: nat)
    requires AllocBounds(s, t)
    ensures AllocDone(s, t).blocks == s.blocks
  {
  }

  lemma AllocatedBlocks(s: State, s1: State, step: Step, user: nat, b: nat)
    requires AllocatedAs(s, s1, step, user) && b in s.blocks && b != SourceBeg(step.source)
    ensures SameBlock(s, s1, b)
  {
    MallocBlocks(s, step, b);
    AllocDoneBlocks(ApplyMalloc(s, step), step.t);
  }

  lemma AllocatedTable(s: State, s1: State, step: Step, user: nat)
    requires AllocatedAs(s, s1, step, user)
    ensures SourceBeg(step.source) in s1.blocks && |s1.mem| == |s.mem|
  {
    AllocateKeepsSize(s, step);
  }

  lemma RequestedSize(s: State, step: Step)
    requires MallocBounds(s, step) && step.size0 > 0
    ensures PlanOf(s, step).Accept?
    ensures PlanOf(s, step).size == step.size0
  {
  }

  lemma AllocatedOneMore(s: State, s1: State, step: Step, user: nat) returns (ch1: Chunk)
    requires AllocatedAs(s, s1, step, user) && step.size0 > 0
    ensures OneMore(s, s1, SourceBeg(step.source), ch1) && |s1.mem| == |s.mem|
    ensures ch1.user == user && ch1.size == step.size0 && ch1.kind == step.kind && ch1.tid == step.t && ch1.stack == step.stack
  {
    ch1 := NewChunk(s, step);
    NewChunkFields(s, step, PlanOf(s, step));
    RequestedSize(s, step);
    AllocatedTable(s, s1, step, user);
    forall b | b in s.blocks && b != SourceBeg(step.source)
      ensures SameBlock(s, s1, b)
    {
      AllocatedBlocks(s, s1, step, user, b);
    }
  }

  /** `Allocate` does not touch the old chunk: the new one is somewhere else. */
  lemma AllocateSparesOld(s: State, step: Step, b: nat, p: nat)
    requires Inv(s) && OldChunk(s, b, p) && MallocBounds(s, step)
    ensures b != SourceBeg(step.source)
  {
    HeaderBlock(s, b);
    assert HeaderOk(s.mem, s.abs[b].ch);
    assert BlockShape(s, b);
  }

  lemma StillThere(s: State, s1: State, b1: nat, ch1: Chunk, b: nat)
    requires b in s.blocks && b in s.abs && OneMore(s, s1, b1, ch1) && b != b1
    ensures b in s1.blocks && b in s1.abs && s1.abs[b] == s.abs[b] && b1 in s1.blocks && b1 in s1.abs && s1.abs[b1] == ALive(ch1)
  {
    assert SameBlock(s, s1, b);
  }

  lemma StillOld(s: State, s1: State, b1: nat, ch1: Chunk, b: nat, p: nat)
    requires OldChunk(s, b, p) && OneMore(s, s1, b1, ch1) && b != b1
    ensures OldChunk(s1, b, p) && s1.abs[b] == s.abs[b]
  {
    assert SameBlock(s, s1, b);
  }

  lemma CopyOneMore(m: Mem, dst: nat, src: nat, i: nat, n: nat)
    requires i < n && src + n <= |m| && dst + n <= |m|
    requires src + n <= dst || dst + n <= src
    ensures var m1 := CopyTo(m, dst, src, i); CopyTo(m, dst, src, i + 1) == m1[dst + i := m1[src + i]]
  {
  }

  lemma CopyArrives(m: Mem, dst: nat, src: nat, n: nat)
    requires src + n <= |m| && dst + n <= |m|
    ensures CopyTo(m, dst, src, n)[dst..dst + n] == m[src..src + n]
  {
  }

  lemma CopyNothing(m: Mem, dst: nat, src: nat)
    requires src <= |m|
    ensures CopyTo(m, dst, src, 0) == m
  {
  }

  /** `memcpy` into a live chunk is a client's write. */
  lemma CopyKeeps(s: State, b: nat, ch: Chunk, src: nat, n: nat) returns (s2: State)
    requires Inv(s) && b in s.blocks && b in s.abs && s.abs[b] == ALive(ch) && n <= ch.size && src + n <= |s.mem|
    ensures s2 == s.(mem := CopyTo(s.mem, ch.user, src, n)) && Inv(s2)
  {
    s2 := s.(mem := CopyTo(s.mem, ch.user, src, n));
    HeapSteps.UserBytesKeep(s, s2, b);
  }

  /** The new chunk is live, lies apart from the old one and starts with the old contents. */
  ghost predicate Moved(s: State, s2: State, b0: nat, b1: nat, ch1: Chunk) {
    && b0 in s.abs && s.abs[b0].ALive? && b0 != b1
    && var ch0 := s.abs[b0].ch;
    && b1 in s2.abs && s2.abs[b1] == ALive(ch1)
    && (ch1.user + ch1.size <= ch0.user || ch0.user + ch0.size <= ch1.user)
    && ch0.user + ch0.size <= |s.mem| == |s2.mem| && ch1.user + ch1.size <= |s.mem|
    && var n := Min(ch0.size, ch1.size);
    && s2.mem[ch1.user..ch1.user + n] == s.mem[ch0.user..ch0.user + n]
  }

  /** Blocks other than these two keep their bytes and what they hold. */
  ghost predicate RestKept(s: State, s2: State, b0: nat, b1: nat) {
    forall b :: b in s.blocks && b != b0 && b != b1 && b in s.abs ==>
      KeptExcept(s, s2, b, -1) && b in s2.abs && s2.abs[b] == s.abs[b]
  }

  /**
   The outcome of a successful `Reallocate` of the live chunk in block b0, by way of the state s1 in
   which `Allocate` returned: a copy, then a free, which fixes the final state; and what it means.
   */
  ghost predicate ReallocatedAs(s: State, s1: State, s2: State, t: nat, stack: nat, b0: nat, b1: nat, ch1: Chunk, keep: bool) {
    var holds :=
      && Inv(s2) && b0 in s.blocks && Moved(s, s2, b0, b1, ch1)
      && (if keep then b0 in s2.abs && s2.abs[b0] == AQuar(s.abs[b0].ch, Pack(t, stack))
          else if s.blocks[b0].primary then b0 in s2.abs && s2.abs[b0] == AFree else b0 !in s2.abs)
      && s2.threads == s.threads && RestKept(s, s2, b0, b1)
      && |s1.mem| == |s.mem|
      && FreedAs(s1.(mem := CopyTo(s1.mem, ch1.user, s.abs[b0].ch.user, Min(s.abs[b0].ch.size, ch1.size))), s2, t, b0, stack, keep);
    holds
  }

  lemma SliceKept(s: State, s': State, b: nat, lo: nat, hi: nat)
    requires b in s.blocks && KeptExcept(s, s', b, -1) && b <= lo <= hi <= b + s.blocks[b].size <= |s.mem|
    ensures s'.mem[lo..hi] == s.mem[lo..hi]
  {
    forall i | lo <= i < hi
      ensures s'.mem[i] == s.mem[i]
    {
    }
  }

  lemma CopiedIsMoved(s: State, s1: State, s2: State, s3: State, b0: nat, b1: nat, ch1: Chunk)
    requires b0 in s.blocks && b0 in s.abs && s.abs[b0].ALive? && b0 != b1 && KeptExcept(s, s1, b0, -1)
    requires b1 in s2.blocks && KeptExcept(s2, s3, b1, -1) && b1 in s3.abs && s3.abs[b1] == ALive(ch1)
    requires var ch0 := s.abs[b0].ch;
             && Fits(b0, s.blocks[b0], ch0) && b0 + s.blocks[b0].size <= |s.mem|
             && Fits(b1, s2.blocks[b1], ch1) && b1 + s2.blocks[b1].size <= |s.mem|
             && |s1.mem| == |s.mem| && s2.mem == CopyTo(s1.mem, ch1.user, ch0.user, Min(ch0.size, ch1.size))
             && (ch1.user + ch1.size <= ch0.user || ch0.user + ch0.size <= ch1.user)
    ensures Moved(s, s3, b0, b1, ch1)
  {
    var ch0 := s.abs[b0].ch;
    var n := Min(ch0.size, ch1.size);
    SliceKept(s2, s3, b1, ch1.user, ch1.user + n);
    CopyArrives(s1.mem, ch1.user, ch0.user, n);
    SliceKept(s, s1, b0, ch0.user, ch0.user + n);
  }

  lemma FreedBlocks(s: State, s2: State, t: nat, b: nat, stack: nat, keep: bool, b': nat)
    requires FreedChange(s, s2, t, b, stack, keep) && b' in s.blocks && b' in s.abs && b' != b
    ensures b' in s2.abs && s2.abs[b'] == s.abs[b'] && KeptExcept(s, s2, b', -1)
  {
  }

  /** What `Reallocate` may rely on between `Allocate` and `Deallocate`. */
  ghost predicate TwoChunks(s: State, b0: nat, ch0: Chunk, b1: nat, ch1: Chunk) {
    && b0 in s.blocks && b1 in s.blocks && b0 != b1 && b0 in s.abs && b1 in s.abs
    && s.abs[b0] == ALive(ch0) && s.abs[b1] == ALive(ch1)
    && Fits(b0, s.blocks[b0], ch0) && Fits(b1, s.blocks[b1], ch1)
    && b0 + s.blocks[b0].size <= |s.mem| && b1 + s.blocks[b1].size <= |s.mem|
    && UsedSizeIs(s.mem, ch0.user - HEADER, ch0.size) && GetBlockBegin(s.blocks, ch0.user - HEADER) == Some(b0)
    && (ch1.user + ch1.size <= ch0.user || ch0.user + ch0.size <= ch1.user)
  }

  lemma LiveFacts(s: State, b: nat)
    requires Inv(s) && b in s.blocks && b in s.abs && s.abs[b].ALive?
    ensures var ch := s.abs[b].ch;
            && Fits(b, s.blocks[b], ch) && b + s.blocks[b].size <= |s.mem| && UsedSizeIs(s.mem, ch.user - HEADER, ch.size)
            && GetBlockBegin(s.blocks, ch.user - HEADER) == Some(b) && s.mem[ch.user - HEADER] == CHUNK_ALLOCATED
  {
    HeaderBlock(s, b);
    LiveHeader(s, b);
  }

  lemma LiveHeader(s: State, b: nat)
    requires b in s.blocks && b in s.abs && s.abs[b].ALive? && BlockShape(s, b) && BlockOk(s, b)
    requires GetBlockBegin(s.blocks, Hdr(s.abs[b].ch)) == Some(b)
    ensures var ch := s.abs[b].ch;
            && Fits(b, s.blocks[b], ch) && b + s.blocks[b].size <= |s.mem| && UsedSizeIs(s.mem, ch.user - HEADER, ch.size)
            && GetBlockBegin(s.blocks, ch.user - HEADER) == Some(b) && s.mem[ch.user - HEADER] == CHUNK_ALLOCATED
  {
    assert Hdr(s.abs[b].ch) == s.abs[b].ch.user - HEADER;
  }

  lemma TwoLiveChunks(s: State, b0: nat, b1: nat)
    requires Inv(s) && b0 in s.blocks && b1 in s.blocks && b0 != b1 && b0 in s.abs && b1 in s.abs
    requires s.abs[b0].ALive? && s.abs[b1].ALive?
    ensures TwoChunks(s, b0, s.abs[b0].ch, b1, s.abs[b1].ch)
  {
    LiveFacts(s, b0);
    LiveFacts(s, b1);
    if s.abs[b0].ch.user <= s.abs[b1].ch.user {
      MinimumGap(s, b0, b1);
    } else {
      MinimumGap(s, b1, b0);
    }
  }

  /** The state after the copy, and what the copy and the free need to know. */
  lemma CopyOutcome(s: State, b0: nat, ch0: Chunk, p: nat, b1: nat, ch1: Chunk) returns (s2: State)
    requires Inv(s) && b0 in s.blocks && b1 in s.blocks && b0 != b1 && b0 in s.abs && b1 in s.abs
    requires s.abs[b0] == ALive(ch0) && s.abs[b1] == ALive(ch1) && p == ch0.user
    ensures TwoChunks(s, b0, ch0, b1, ch1) && HEADER <= p && p + ch0.size <= |s.mem| && ch1.user + ch1.size <= |s.mem|
    ensures UsedSizeIs(s.mem, p - HEADER, ch0.size) && GetBlockBegin(s.blocks, p - HEADER) == Some(b0)
    ensures s2 == s.(mem := CopyTo(s.mem, ch1.user, p, Min(ch0.size, ch1.size))) && Inv(s2)
  {
    TwoLiveChunks(s, b0, b1);
    TwoChunksFit(s, b0, ch0, p, b1, ch1);
    s2 := CopyKeeps(s, b1, ch1, p, Min(ch0.size, ch1.size));
  }

  lemma TwoChunksFit(s: State, b0: nat, ch0: Chunk, p: nat, b1: nat, ch1: Chunk)
    requires TwoChunks(s, b0, ch0, b1, ch1) && p == ch0.user
    ensures HEADER <= p && p + ch0.size <= |s.mem| && ch1.user + ch1.size <= |s.mem|
    ensures UsedSizeIs(s.mem, p - HEADER, ch0.size) && GetBlockBegin(s.blocks, p - HEADER) == Some(b0)
  {
  }

  lemma OthersRest(s: State, s1: State, s2: State, s3: State, b1: nat, ch1: Chunk, t: nat, stack: nat, b0: nat, ch0: Chunk, keep: bool, b: nat)
    requires b in s.blocks && b in s.abs && b != b0 && b != b1 && SameBlock(s, s1, b) && s1.abs == s.abs[b1 := ALive(ch1)]
    requires b1 in s1.blocks && BlocksApart(s1.blocks, b1, b) && TwoChunks(s1, b0, ch0, b1, ch1)
    requires s2 == s1.(mem := CopyTo(s1.mem, ch1.user, ch0.user, Min(ch0.size, ch1.size)))
    requires FreedChange(s2, s3, t, b0, stack, keep)
    ensures KeptExcept(s, s3, b, -1) && b in s3.abs && s3.abs[b] == s.abs[b]
  {
    FreedBlocks(s2, s3, t, b0, stack, keep, b);
  }

  lemma ReallocateFrees(s: State, s1: State, s2: State, s3: State, b1: nat, ch1: Chunk, t: nat, stack: nat, b0: nat, ch0: Chunk, keep: bool)
    requires b0 in s.blocks && b0 in s.abs && s.abs[b0] == ALive(ch0)
    requires OneMore(s, s1, b1, ch1) && TwoChunks(s1, b0, ch0, b1, ch1)
    requires s2 == s1.(mem := CopyTo(s1.mem, ch1.user, ch0.user, Min(ch0.size, ch1.size)))
    requires FreedChange(s2, s3, t, b0, stack, keep)
    ensures if keep then b0 in s3.abs && s3.abs[b0] == AQuar(ch0, Pack(t, stack))
            else if s.blocks[b0].primary then b0 in s3.abs && s3.abs[b0] == AFree else b0 !in s3.abs
    ensures s3.threads == s.threads && RestKept(s, s3, b0, b1)
  {
    assert SameBlock(s, s1, b0);
    forall b | b in s.blocks && b != b0 && b != b1 && b in s.abs
      ensures KeptExcept(s, s3, b, -1) && b in s3.abs && s3.abs[b] == s.abs[b]
    {
      assert SameBlock(s, s1, b) && BlocksApart(s1.blocks, b1, b);
      OthersRest(s, s1, s2, s3, b1, ch1, t, stack, b0, ch0, keep, b);
    }
  }

  /** `Allocate`, `memcpy` and `Deallocate` together move the chunk. */
  lemma ReallocateOutcome(s: State, s1: State, s2: State, s3: State, b1: nat, ch1: Chunk, t: nat, stack: nat, b0: nat, ch0: Chunk, keep: bool)
    requires b0 in s.blocks && b0 in s.abs && s.abs[b0] == ALive(ch0) && |s1.mem| == |s.mem|
    requires OneMore(s, s1, b1, ch1) && TwoChunks(s1, b0, ch0, b1, ch1)
    requires s2 == s1.(mem := CopyTo(s1.mem, ch1.user, ch0.user, Min(ch0.size, ch1.size)))
    requires FreedAs(s2, s3, t, b0, stack, keep)
    ensures ReallocatedAs(s, s1, s3, t, stack, b0, b1, ch1, keep)
  {
    assert SameBlock(s, s1, b0);
    FreedBlocks(s2, s3, t, b0, stack, keep, b1);
    CopiedIsMoved(s, s1, s2, s3, b0, b1, ch1);
    ReallocateFrees(s, s1, s2, s3, b1, ch1, t, stack, b0, ch0, keep);
  }
}
