/**
 What one step of the machine changes: the record of at most one block, in a way the step determines,
 and nothing at all in any block the step does not work on.
 */
module Effects {
  import opened Layout
  import opened Memory
  import opened Chunks
  import opened Machine
  import opened Invariant
  import Allocating
  import Freeing
  import Recycling
  import HeapSteps

  // --------------------------------------------------------------------- records

  ghost predicate SameRecords(s: State, s': State) {
    s'.abs == s.abs && s'.threads == s.threads && s'.stats == s.stats && s'.nextId == s.nextId && s'.won == s.won
  }

  /** The poisoning flag, the memory that waits to be carved, and what re-activations lost. */
  ghost predicate SameSetting(s: State, s': State) {
    s'.on == s.on && s'.spare == s.spare && s'.lost == s.lost
  }

  /** Thread t comes to its next program point, still on the same chunk. */
  ghost predicate Advances(s: State, s': State, t: nat)
    requires t in s.threads
  {
    && s'.abs == s.abs && t in s'.threads && s'.threads == s.threads[t := s'.threads[t]]
    && var task, task' := s.threads[t], s'.threads[t];
    && task'.b == task.b && task'.pc == task.pc + 1
    && (task.AllocTask? ==> task'.AllocTask? && task'.ch == task.ch)
    && (task.FreeTask? ==> task'.FreeTask?) && (task.RecycleTask? ==> task'.RecycleTask?)
  }

  /** Thread t is done, and its block is recorded as `a`. */
  ghost predicate Finishes(s: State, s': State, t: nat, a: Abs)
    requires t in s.threads
  {
    s'.threads == s.threads - {t} && s'.abs == s.abs[s.threads[t].b := a]
  }

  ghost predicate AllocRecorded(s: State, s': State, t: nat, b: nat, ch: Chunk, pc: nat)
    requires t in s.threads && s.threads[t].b == b
  {
    && s'.stats == (if pc == COUNT_MALLOC then CountedMalloc(s.stats, t, ch.size) else s.stats)
    && (if PublishesNow(pc, b, ch) then Finishes(s, s', t, ALive(ch)) else Advances(s, s', t))
  }

  ghost predicate DeallocRecorded(s: State, s': State, t: nat, keep: bool, b: nat, ch: Chunk, pc: nat, m: nat, stack: nat)
    requires t in s.threads && s.threads[t].b == b
  {
    && s'.stats == (if pc == COUNT_FREE then CountedFree(s.stats, t, ch.size) else s.stats)
    && (if pc >= ENQUEUE then Finishes(s, s', t, AQuar(ch, Pack(t, stack)))
        else if pc == QUARANTINE_OR_PASS && !keep then
          s'.abs == s.abs && s'.threads == s.threads[t := RecycleTask(CLEAR_MAGIC, m, b)]
        else Advances(s, s', t))
  }

  ghost predicate RecycleRecorded(s: State, s': State, t: nat, b: nat, ch: Chunk, pc: nat)
    requires t in s.threads && s.threads[t].b == b && b in s.blocks
  {
    && s'.stats == (if pc == COUNT_RECYCLE then CountedRecycle(s.stats, t, ch.size) else s.stats)
    && (if pc < RETURN_BLOCK then Advances(s, s', t)
        else if s.blocks[b].primary then Finishes(s, s', t, AFree)
        else s'.threads == s.threads - {t} && s'.abs == s.abs - {b})
  }

  /** What a step inside an operation does to the records. */
  ghost predicate TaskRecorded(s: State, s': State, t: nat, keep: bool)
    requires t in s.threads
  {
    var b := s.threads[t].b;
    && s'.nextId == s.nextId && s'.won == s.won && SameSetting(s, s')
    && b in s.blocks && b in s.abs && s.abs[b].ABusy? && s.abs[b].t == t
    && var ch := s.abs[b].ch;
    match s.threads[t]
    case AllocTask(pc, _, ch', _, _, _, _) => ch' == ch && AllocRecorded(s, s', t, b, ch, pc)
    case FreeTask(pc, m, _, stack) => DeallocRecorded(s, s', t, keep, b, ch, pc, m, stack)
    case RecycleTask(pc, _, _) => RecycleRecorded(s, s', t, b, ch, pc)
  }

  /** A thread starts an operation on the block at b. */
  ghost predicate Starts(s: State, s': State, t: nat, b: nat, ch: Chunk) {
    && t !in s.threads && t in s'.threads && s'.threads == s.threads[t := s'.threads[t]] && s'.threads[t].b == b
    && s'.abs == s.abs[b := ABusy(t, ch)] && s'.stats == s.stats && SameSetting(s, s')
  }

  ghost predicate MallocRecorded(s: State, s': State, t: nat, b: nat) {
    && (b in s.abs ==> s.abs[b].AFree?) && b in s'.abs && s'.abs[b].ABusy?
    && var ch := s'.abs[b].ch;
    && Starts(s, s', t, b, ch) && s'.threads[t].AllocTask? && s'.threads[t].pc == PUT_KIND
    && ch.id == s.nextId && s'.nextId == s.nextId + 1 && s'.won == s.won
  }

  /** A free that won. */
  ghost predicate WinRecorded(s: State, s': State, t: nat, p: nat, b: nat) {
    && b in s.blocks && b in s.abs && s.abs[b].ALive? && s.abs[b].ch.user == p
    && Starts(s, s', t, b, s.abs[b].ch) && s'.threads[t].FreeTask? && s'.threads[t].pc == CLEAR_CONTEXT
    && s'.nextId == s.nextId && s'.won == s.won + multiset{s.abs[b].ch.id}
  }

  ghost predicate PickRecorded(s: State, s': State, t: nat, m: nat, b: nat) {
    && QuarAt(s, b, m)
    && Starts(s, s', t, b, s.abs[b].ch) && s'.threads[t].RecycleTask? && s'.threads[t].pc == CLEAR_MAGIC
    && s'.nextId == s.nextId && s'.won == s.won
  }

  /** What a step does to the records: the abstract map, threads, counters, ids and winners. */
  ghost predicate Recorded(s: State, s': State, step: Step) {
    var recorded :=
      match step
      case Map(p, size) => SameRecords(s, s') && SameSetting(s.(spare := s.spare + NewSpare(p, p + size, s.on)), s')
      case Carve(b, _, _) =>
        b !in s.abs && SameRecords(s.(abs := s.abs[b := AFree]), s') && s'.on == s.on && s'.lost == s.lost
        && forall g :: g in s'.spare ==> g in s.spare && s'.spare[g] == s.spare[g]
      case Malloc(t, _, _, _, _, _, source) => MallocRecorded(s, s', t, SourceBeg(source))
      case Free(t, p, _) => s' == s || exists b: nat :: WinRecorded(s, s', t, p, b)
      case Recycle(t, m) => exists b: nat :: PickRecorded(s, s', t, m, b)
      case Run(t, keep) => t in s.threads && TaskRecorded(s, s', t, keep)
      case UserWrite(_, _) => SameRecords(s, s') && SameSetting(s, s')
      case ReInit(on, _) => SameRecords(s, s') && SameSetting(s.(on := on), s')
      case RePoison(b) => SameRecords(s, s') && SameSetting(s.(lost := s.lost + LostBy(s, {b})), s');
    recorded
  }

  lemma DeallocIsRecorded(s: State, t: nat, keep: bool)
    requires Freeing.Frees(s, t) && FreeBounds(s, t)
    ensures TaskRecorded(s, ApplyDealloc(s, t, keep), t, keep)
  {
  }

  lemma RecycleIsRecorded(s: State, t: nat, keep: bool)
    requires Recycling.Recycles(s, t) && RecycleBounds(s, t)
    ensures TaskRecorded(s, ApplyRecycle(s, t), t, keep)
  {
  }

  lemma AllocIsRecorded(s: State, t: nat, keep: bool)
    requires Allocating.Allocates(s, t) && AllocBounds(s, t)
    ensures TaskRecorded(s, ApplyAlloc(s, t), t, keep)
  {
  }

  lemma RunIsRecorded(s: State, t: nat, keep: bool)
    requires Inv(s) && t in s.threads
    ensures TaskRecorded(s, RunTask(s, t, keep), t, keep)
  {
    match s.threads[t]
    case AllocTask(_, _, _, _, _, _, _) =>
      Allocating.AllocTaskStory(s, t);
      Allocating.AllocSafe(s, t, keep);
      AllocIsRecorded(s, t, keep);
    case FreeTask(_, _, _, _) =>
      Freeing.FreeTaskStory(s, t);
      Freeing.FreeSafe(s, t, keep);
      DeallocIsRecorded(s, t, keep);
    case RecycleTask(_, _, _) =>
      Recycling.RecycleTaskStory(s, t);
      Recycling.RecycleSafe(s, t, keep);
      RecycleIsRecorded(s, t, keep);
  }

  lemma CarvedIsNew(s: State, b: nat, size: nat, leftover: nat)
    requires Shape(s) && CarveEnabled(s, b, size, leftover)
    ensures b !in s.abs
  {
    assert b in s.blocks ==> BlockShape(s, b);
  }

  /** The block a request gets is free or new. */
  lemma SourceIsFree(s: State, step: Step)
    requires Inv(s) && MallocBounds(s, step)
    ensures SourceBeg(step.source) in s.abs ==> s.abs[SourceBeg(step.source)].AFree?
  {
    var b := SourceBeg(step.source);
    if b in s.blocks {
      assert BlockOk(s, b) && BlockShape(s, b);
    }
  }

  lemma MallocIsRecorded(s: State, step: Step)
    requires MallocBounds(s, step) && step.t !in s.threads
    requires SourceBeg(step.source) in s.abs ==> s.abs[SourceBeg(step.source)].AFree?
    ensures MallocRecorded(s, ApplyMalloc(s, step), step.t, SourceBeg(step.source))
  {
  }

  lemma FreeIsRecorded(s: State, t: nat, p: nat, stack: nat)
    requires Inv(s) && Enabled(s, Free(t, p, stack))
    ensures Recorded(s, Apply(s, Free(t, p, stack)), Free(t, p, stack))
  {
    if s.mem[p - HEADER] == CHUNK_ALLOCATED {
      var b := Freeing.FreeHits(s, p);
      Freeing.FreeRaceResult(s, t, p, stack, b);
      assert WinRecorded(s, Freeing.Won(s, t, b, stack), t, p, b);
    } else {
      Freeing.FreeRaceLost(s, t, p, stack);
    }
  }

  lemma PickIsRecorded(s: State, t: nat, m: nat)
    requires Inv(s) && Enabled(s, Recycle(t, m))
    ensures Recorded(s, Apply(s, Recycle(t, m)), Recycle(t, m))
  {
    var b: nat :| QuarAt(s, b, m);
    HeaderBlock(s, b);
    Recycling.PickResult(s, t, m, b);
    assert PickRecorded(s, Recycling.Picked(s, t, b), t, m, b);
  }

  lemma MapIsRecorded(s: State, p: nat, size: nat)
    requires p + size <= |s.mem| == 8 * |s.shadow|
    ensures Recorded(s, Mapped(s, p, size), Map(p, size))
  {
  }

  lemma WriteIsRecorded(s: State, a: nat, v: Byte)
    ensures Recorded(s, Apply(s, UserWrite(a, v)), UserWrite(a, v))
  {
  }

  lemma SwitchIsRecorded(s: State, on: bool, rz: Redzones)
    ensures Recorded(s, Apply(s, ReInit(on, rz)), ReInit(on, rz))
  {
  }

  lemma RePoisonIsRecorded(s: State, b: nat)
    requires BlocksInMemory(s) && b in s.blocks
    ensures Recorded(s, RePoisonedAt(s, b), RePoison(b))
  {
  }

  lemma MallocStepIsRecorded(s: State, step: Step)
    requires Inv(s) && Enabled(s, step) && step.Malloc?
    ensures MallocRecorded(s, Apply(s, step), step.t, SourceBeg(step.source))
  {
    HeapSteps.MallocHasBounds(s, step);
    SourceIsFree(s, step);
    MallocIsRecorded(s, step);
  }

  lemma ThreadStepIsRecorded(s: State, step: Step)
    requires Inv(s) && Enabled(s, step) && (step.Free? || step.Recycle? || step.Run?)
    ensures Recorded(s, Apply(s, step), step)
  {
    if step.Free? {
      FreeIsRecorded(s, step.t, step.p, step.stack);
    } else if step.Recycle? {
      PickIsRecorded(s, step.t, step.m);
    } else {
      RunIsRecorded(s, step.t, step.keep);
    }
  }

  lemma MemoryStepIsRecorded(s: State, step: Step)
    requires Inv(s) && Enabled(s, step) && (step.Map? || step.Carve? || step.Malloc?)
    ensures Recorded(s, Apply(s, step), step)
  {
    if step.Map? {
      MapIsRecorded(s, step.p, step.size);
    } else if step.Carve? {
      CarvedIsNew(s, step.b, step.size, step.leftover);
    } else {
      MallocStepIsRecorded(s, step);
    }
  }

  /** Every step changes the records as it should, whatever state it is taken in. */
  lemma StepIsRecorded(s: State, step: Step)
    requires Inv(s) && Enabled(s, step)
    ensures Recorded(s, Apply(s, step), step)
  {
    if step.Free? || step.Recycle? || step.Run? {
      ThreadStepIsRecorded(s, step);
    } else if step.UserWrite? {
      WriteIsRecorded(s, step.a, step.v);
    } else if step.ReInit? {
      SwitchIsRecorded(s, step.on, step.rz);
    } else if step.RePoison? {
      ShapeInMemory(s);
      RePoisonIsRecorded(s, step.b);
    } else {
      MemoryStepIsRecorded(s, step);
    }
  }

  /** Every block's story refers back to it, in a state whose tables have the same keys. */
  ghost predicate AllAnchored(s: State) {
    s.abs.Keys == s.blocks.Keys && forall b :: b in s.blocks ==> Anchored(s, b)
  }

  lemma InvAllAnchored(s: State)
    requires Inv(s)
    ensures AllAnchored(s)
  {
    forall b | b in s.blocks
      ensures Anchored(s, b)
    {
      InvAnchors(s, b);
    }
  }

  // ------------------------------------------------------------------- elsewhere

  /** The step works on the block at b. */
  ghost predicate Touches(s: State, step: Step, b: nat) {
    match step
    case Map(_, _) => false
    case Carve(b0, _, _) => b == b0
    case Malloc(_, _, _, _, _, _, source) => b == SourceBeg(source)
    case Free(_, p, _) => b in s.abs && s.abs[b].ALive? && s.abs[b].ch.user == p
    case Recycle(_, m) => QuarAt(s, b, m)
    case Run(t, _) => t in s.threads && s.threads[t].b == b
    case UserWrite(a, _) => b in s.abs && s.abs[b].ALive? && s.abs[b].ch.user <= a < s.abs[b].ch.user + s.abs[b].ch.size
    case ReInit(_, _) => false
    case RePoison(b0) => b == b0
  }

  /** A block, its bytes and shadow, its record and the thread at work on it are the same. */
  ghost predicate Elsewhere(s: State, s': State, b: nat) {
    && |s'.mem| == |s.mem| && |s'.shadow| == |s.shadow|
    && (b in s'.blocks <==> b in s.blocks) && (b in s'.abs <==> b in s.abs) && (b in s'.stale <==> b in s.stale)
    && (b in s.blocks ==>
          && s'.blocks[b] == s.blocks[b]
          && SameBytes(s.mem, s'.mem, b, b + s.blocks[b].size) && SameShadow(s.shadow, s'.shadow, b, b + s.blocks[b].size))
    && (b in s.abs ==>
          && s'.abs[b] == s.abs[b]
          && (s.abs[b].ABusy? && s.abs[b].t in s.threads ==>
                s.abs[b].t in s'.threads && s'.threads[s.abs[b].t] == s.threads[s.abs[b].t]))
  }

  lemma LocalElsewhere(s: State, s': State, t: nat, b0: nat, b: nat)
    requires Inv(s) && LocalStep(s, s', t, b0) && (t in s.threads ==> s.threads[t].b == b0) && b != b0
    ensures Elsewhere(s, s', b)
  {
    if b in s.blocks {
      InvAnchors(s, b);
      assert BlocksApart(s.blocks, b0, b);
      LocalStepSame(s, s', t, b0, b);
    }
  }

  lemma AddsElsewhere(s: State, s': State, b0: nat, b: nat)
    requires Inv(s) && HeapSteps.AddsBlock(s, s', b0) && b != b0
    ensures Elsewhere(s, s', b)
  {
    if b in s.blocks {
      InvAnchors(s, b);
      HeapSteps.AddBlockSame(s, s', b0, b);
    }
  }

  lemma RecycleElsewhere(s: State, t: nat, keep: bool, b: nat)
    requires Inv(s) && t in s.threads && s.threads[t].RecycleTask? && s.threads[t].b != b
    ensures Elsewhere(s, RunTask(s, t, keep), b)
  {
    var b0 := s.threads[t].b;
    Recycling.RecycleTaskStory(s, t);
    Recycling.RecycleSafe(s, t, keep);
    if s.threads[t].pc < RETURN_BLOCK || s.blocks[b0].primary {
      Recycling.RecycleLocal(s, t);
      LocalElsewhere(s, ApplyRecycle(s, t), t, b0, b);
    } else {
      Recycling.UnmapResult(s, t);
      if b in s.blocks {
        InvAnchors(s, b);
        assert BlocksApart(s.blocks, b0, b);
        Recycling.UnmapSame(s, Returned(s, t, b0), t, b0, b);
      }
    }
  }

  lemma FreeElsewhere(s: State, t: nat, p: nat, stack: nat, b: nat)
    requires Inv(s) && Enabled(s, Free(t, p, stack)) && !Touches(s, Free(t, p, stack), b)
    ensures Elsewhere(s, Apply(s, Free(t, p, stack)), b)
  {
    if s.mem[p - HEADER] == CHUNK_ALLOCATED {
      var b0 := Freeing.FreeHits(s, p);
      Freeing.FreeRaceResult(s, t, p, stack, b0);
      assert BlockShape(s, b0);
      Freeing.FreeRaceLocal(s, Freeing.Won(s, t, b0, stack), t, b0, stack);
      LocalElsewhere(s, Freeing.Won(s, t, b0, stack), t, b0, b);
    } else {
      Freeing.FreeRaceLost(s, t, p, stack);
    }
  }

  lemma OneByteElsewhere(s: State, a: nat, v: Byte, b0: nat, b: nat)
    requires a < |s.mem| && b0 in s.blocks && b0 <= a < b0 + s.blocks[b0].size
    requires b in s.blocks ==> BlocksApart(s.blocks, b0, b)
    ensures Elsewhere(s, s.(mem := s.mem[a := v]), b)
  {
  }

  lemma MallocElsewhere(s: State, step: Step, b: nat)
    requires Inv(s) && MallocBounds(s, step) && step.t !in s.threads && b != SourceBeg(step.source)
    ensures Elsewhere(s, ApplyMalloc(s, step), b)
  {
    if step.source.Primary? {
      HeapSteps.MallocPrimaryLocal(s, step);
      LocalElsewhere(s, ApplyMalloc(s, step), step.t, step.source.b, b);
    } else {
      HeapSteps.MallocSecondaryAdds(s, step);
      AddsElsewhere(s, ApplyMalloc(s, step), SourceBeg(step.source), b);
    }
  }

  lemma MapElsewhere(s: State, p: nat, size: nat, b: nat)
    requires Inv(s) && MapEnabled(s, p, size)
    ensures Elsewhere(s, Mapped(s, p, size), b)
  {
    if b in s.blocks {
      HeapSteps.MapSame(s, p, size, b);
    }
  }

  lemma CarveElsewhere(s: State, b0: nat, size: nat, leftover: nat, b: nat)
    requires Inv(s) && CarveEnabled(s, b0, size, leftover) && b != b0
    ensures Elsewhere(s, Carved(s, b0, size), b)
  {
    HeapSteps.CarveAdds(s, b0, size, leftover);
    AddsElsewhere(s, Carved(s, b0, size), b0, b);
  }

  lemma MemoryStepIsLocal(s: State, step: Step, b: nat)
    requires Inv(s) && Enabled(s, step) && !Touches(s, step, b) && (step.Map? || step.Carve? || step.Malloc?)
    ensures Elsewhere(s, Apply(s, step), b)
  {
    if step.Map? {
      MapElsewhere(s, step.p, step.size, b);
    } else if step.Carve? {
      CarveElsewhere(s, step.b, step.size, step.leftover, b);
    } else {
      HeapSteps.MallocHasBounds(s, step);
      MallocElsewhere(s, step, b);
    }
  }

  lemma ThreadStepIsLocal(s: State, step: Step, b: nat)
    requires Inv(s) && Enabled(s, step) && !Touches(s, step, b) && (step.Free? || step.Recycle? || step.Run?)
    ensures Elsewhere(s, Apply(s, step), b)
  {
    if step.Free? {
      FreeElsewhere(s, step.t, step.p, step.stack, b);
    } else if step.Recycle? {
      var b0: nat :| QuarAt(s, b0, step.m);
      HeaderBlock(s, b0);
      Recycling.PickResult(s, step.t, step.m, b0);
      assert BlockShape(s, b0);
      Recycling.PickedStory(s, Recycling.Picked(s, step.t, b0), step.t, b0);
      LocalElsewhere(s, Recycling.Picked(s, step.t, b0), step.t, b0, b);
    } else {
      match s.threads[step.t]
      case AllocTask(_, _, _, _, _, _, _) =>
        Allocating.AllocTaskStory(s, step.t);
        Allocating.AllocSafe(s, step.t, step.keep);
        Allocating.AllocLocal(s, step.t);
        LocalElsewhere(s, ApplyAlloc(s, step.t), step.t, s.threads[step.t].b, b);
      case FreeTask(_, _, _, _) =>
        Freeing.FreeTaskStory(s, step.t);
        Freeing.FreeSafe(s, step.t, step.keep);
        Freeing.FreeLocal(s, step.t, step.keep);
        LocalElsewhere(s, ApplyDealloc(s, step.t, step.keep), step.t, s.threads[step.t].b, b);
      case RecycleTask(_, _, _) => RecycleElsewhere(s, step.t, step.keep, b);
    }
  }

  lemma WriteElsewhere(s: State, a: nat, v: Byte, b: nat)
    requires Inv(s) && Enabled(s, UserWrite(a, v)) && !Touches(s, UserWrite(a, v), b)
    ensures Elsewhere(s, s.(mem := s.mem[a := v]), b)
  {
    var b0 :| b0 in s.abs && s.abs[b0].ALive? && s.abs[b0].ch.user <= a < s.abs[b0].ch.user + s.abs[b0].ch.size;
    HeaderBlock(s, b0);
    OneByteElsewhere(s, a, v, b0, b);
  }

  lemma RePoisonElsewhere(s: State, b0: nat, b: nat)
    requires Inv(s) && Enabled(s, RePoison(b0)) && b != b0
    ensures Elsewhere(s, Apply(s, RePoison(b0)), b)
  {
    ShapeInMemory(s);
    assert BlockShape(s, b0);
    SixteenfoldIsEightfold(b0);
    HeapSteps.RePoisonUntouched(s, b0);
    if b in s.blocks {
      assert BlocksApart(s.blocks, b0, b);
      HeapSteps.RePoisonSame(s, b0, b);
    }
  }

  /** Locality: no step changes anything in a block it does not work on; new options concern all blocks. */
  lemma StepIsLocal(s: State, step: Step, b: nat)
    requires Inv(s) && Enabled(s, step) && !Touches(s, step, b) && !step.ReInit?
    ensures Elsewhere(s, Apply(s, step), b)
  {
    if step.Free? || step.Recycle? || step.Run? {
      ThreadStepIsLocal(s, step, b);
    } else if step.UserWrite? {
      WriteElsewhere(s, step.a, step.v, b);
    } else if step.RePoison? {
      RePoisonElsewhere(s, step.b, b);
    } else {
      MemoryStepIsLocal(s, step, b);
    }
  }
}
