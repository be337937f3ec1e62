/**
 What an operation does when its thread runs undisturbed: the final state of `Allocate`,
 `Deallocate` and `Recycle` in closed form, and that it is where the machine's steps lead.
 */
module Uninterrupted {
  import opened Words
  import opened Layout
  import opened Memory
  import opened Chunks
  import opened Machine
  import opened Invariant
  import Allocating
  import Freeing
  import Recycling

  ghost predicate StepTo(s: State, s': State, t: nat, keep: bool) {
    t in s.threads && Safe(s, Run(t, keep)) && s' == Apply(s, Run(t, keep))
  }

  /** Thread t runs, all others stand still, through the states of the path. */
  ghost predicate IsPath(path: seq<State>, t: nat, keep: bool) {
    |path| > 0 && forall i :: 0 <= i < |path| - 1 ==> StepTo(path[i], path[i + 1], t, keep)
  }

  ghost predicate Leads(s: State, path: seq<State>, s': State, t: nat, keep: bool) {
    IsPath(path, t, keep) && path[0] == s && path[|path| - 1] == s'
  }

  lemma PathGrows(s: State, s': State, path: seq<State>, end: State, t: nat, keep: bool)
    requires StepTo(s, s', t, keep) && Leads(s', path, end, t, keep)
    ensures Leads(s, [s] + path, end, t, keep)
  {
    var p := [s] + path;
    forall i | 0 <= i < |p| - 1
      ensures StepTo(p[i], p[i + 1], t, keep)
    {
      if i > 0 {
        assert p[i] == path[i - 1] && p[i + 1] == path[i];
      }
    }
  }

  // -------------------------------------------------------------------- Allocate

  /** Memory after the remaining writes of `Allocate`. */
  function AllocMemFrom(mem: Mem, pc: nat, b: nat, ch: Chunk, fill: nat, flags: Flags): (r: Mem)
    requires b + LARGE_HEADER <= |mem| && 0 <= Hdr(ch) && ch.user + ch.size <= |mem|
    requires ch.kind < 4 && ch.alignLog < 8 && flags.tag < 4 && pc <= PUT_MAGIC
    ensures |r| == |mem|
    decreases PUT_MAGIC - pc, mem, ch
  {
    var mem' := AllocMem(mem, pc, b, ch, fill, flags);
    if PublishesNow(pc, b, ch) then mem' else AllocMemFrom(mem', pc + 1, b, ch, fill, flags)
  }

  lemma AllocMemMoves(mem: Mem, mem': Mem, pc: nat, pc': nat, b: nat, ch: Chunk, fill: nat, flags: Flags)
    requires b + LARGE_HEADER <= |mem| && 0 <= Hdr(ch) && ch.user + ch.size <= |mem|
    requires ch.kind < 4 && ch.alignLog < 8 && flags.tag < 4 && pc <= PUT_MAGIC && !PublishesNow(pc, b, ch)
    requires pc' == pc + 1 && mem' == AllocMem(mem, pc, b, ch, fill, flags)
    ensures |mem'| == |mem| && AllocMemFrom(mem', pc', b, ch, fill, flags) == AllocMemFrom(mem, pc, b, ch, fill, flags)
  {
  }

  lemma AllocMemLast(mem: Mem, pc: nat, b: nat, ch: Chunk, fill: nat, flags: Flags)
    requires b + LARGE_HEADER <= |mem| && 0 <= Hdr(ch) && ch.user + ch.size <= |mem|
    requires ch.kind < 4 && ch.alignLog < 8 && flags.tag < 4 && pc <= PUT_MAGIC && PublishesNow(pc, b, ch)
    ensures AllocMemFrom(mem, pc, b, ch, fill, flags) == AllocMem(mem, pc, b, ch, fill, flags)
  {
  }

  /** While `Allocate` works on the shadow and the counters it writes no memory. */
  lemma {:induction false} AllocMemSkips(mem: Mem, pc: nat, b: nat, ch: Chunk, fill: nat, flags: Flags)
    requires b + LARGE_HEADER <= |mem| && 0 <= Hdr(ch) && ch.user + ch.size <= |mem|
    requires ch.kind < 4 && ch.alignLog < 8 && flags.tag < 4 && TEST_FIRST <= pc <= FILL_USER
    ensures AllocMemFrom(mem, pc, b, ch, fill, flags) == AllocMemFrom(mem, FILL_USER, b, ch, fill, flags)
    decreases FILL_USER - pc
  {
    if pc < FILL_USER {
      AllocMemMoves(mem, AllocMem(mem, pc, b, ch, fill, flags), pc, pc + 1, b, ch, fill, flags);
      AllocMemSkips(mem, pc + 1, b, ch, fill, flags);
    }
  }

  lemma {:induction false} AllocMemFromLocal(mem: Mem, pc: nat, b: nat, bk: Block, ch: Chunk, fill: nat, flags: Flags, i: int)
    requires Fits(b, bk, ch) && b + bk.size <= |mem| && flags.tag < 4 && LARGE_HEADER <= bk.size && pc <= PUT_MAGIC
    requires 0 <= i < |mem| && !(b <= i < b + bk.size)
    ensures AllocMemFrom(mem, pc, b, ch, fill, flags)[i] == mem[i]
    decreases PUT_MAGIC - pc
  {
    Allocating.AllocMemLocal(mem, b, bk, ch, pc, fill, flags, i);
    if PublishesNow(pc, b, ch) {
      AllocMemLast(mem, pc, b, ch, fill, flags);
    } else {
      AllocMemMoves(mem, AllocMem(mem, pc, b, ch, fill, flags), pc, pc + 1, b, ch, fill, flags);
      AllocMemFromLocal(AllocMem(mem, pc, b, ch, fill, flags), pc + 1, b, bk, ch, fill, flags, i);
    }
  }

  /** The shadow after the remaining writes of `Allocate`, whether or not it has made its test of line 617. */
  function AllocShadowLeft(sh: Shadow, on: bool, pc: nat, b: nat, size: nat, u: nat, n: nat, guess: bool, wide: bool, part: bool): (r: Shadow)
    requires b < u && u + n <= b + size <= 8 * |sh| && (part ==> n % 8 != 0)
    ensures |r| == |sh|
  {
    if pc <= TEST_FIRST then AllocShadow(sh, on, b, size, u, n, guess)
    else AllocShadowFrom(sh, on, pc, b, size, u, n, wide, part)
  }

  /** One shadow write or test less to go. */
  lemma AllocShadowLeftStep(sh: Shadow, on: bool, pc: nat, b: nat, size: nat, u: nat, n: nat, guess: bool, wide: bool, part: bool)
    requires b < u && u + n <= b + size <= 8 * |sh| && (part ==> n % 8 != 0)
    ensures AllocShadowLeft(AllocShadowStep(sh, on, pc, b, size, u, n, wide, part), on, pc + 1, b, size, u, n, guess,
                            if pc == TEST_FIRST then WantsRedzones(sh, b, guess) else wide,
                            if pc == TEST_MODE then WantsPartial(on, n) else part)
            == AllocShadowLeft(sh, on, pc, b, size, u, n, guess, wide, part)
  {
  }

  /** The state in which `Allocate` returns, from the state in which it has come to `pc`. */
  ghost function Finished(s: State, pc: nat, t: nat, b: nat, ch: Chunk, guess: bool, fill: nat, wide: bool, part: bool): State
    requires Ready(s, b, ch) && pc <= PUT_MAGIC && (part ==> ch.size % 8 != 0)
  {
    s.(mem := AllocMemFrom(s.mem, pc, b, ch, fill, s.flags),
       shadow := AllocShadowLeft(s.shadow, s.on, pc, b, s.blocks[b].size, ch.user, ch.size, guess, wide, part),
       stats := if pc <= COUNT_MALLOC then CountedMalloc(s.stats, t, ch.size) else s.stats,
       threads := s.threads - {t}, abs := s.abs[b := ALive(ch)])
  }

  ghost function AllocDone(s: State, t: nat): State
    requires AllocBounds(s, t)
  {
    var task := s.threads[t];
    Finished(s, task.pc, t, task.b, task.ch, task.guess, task.fill, task.wide, task.part)
  }

  /** Everything but memory and shadow is the same. */
  ghost predicate SameRest(s: State, s': State) {
    s'.(mem := s.mem, shadow := s.shadow) == s
  }

  lemma AllocDoneShadow(s: State, t: nat)
    requires AllocBounds(s, t) && AllocBounds(ApplyAlloc(s, t), t)
    ensures AllocDone(ApplyAlloc(s, t), t).shadow == AllocDone(s, t).shadow
  {
    var task := s.threads[t];
    AllocShadowLeftStep(s.shadow, s.on, task.pc, task.b, s.blocks[task.b].size, task.ch.user, task.ch.size,
                        task.guess, task.wide, task.part);
  }

  lemma AllocDoneRest(s: State, t: nat)
    requires AllocBounds(s, t) && AllocBounds(ApplyAlloc(s, t), t)
    ensures SameRest(AllocDone(s, t), AllocDone(ApplyAlloc(s, t), t))
  {
    var s', task := ApplyAlloc(s, t), s.threads[t];
    assert s'.threads == s.threads[t := NextAlloc(s, task)];
    assert s'.threads - {t} == s.threads - {t};
  }

  lemma AllocDoneLast(s: State, t: nat)
    requires AllocBounds(s, t) && t !in ApplyAlloc(s, t).threads
    ensures ApplyAlloc(s, t) == AllocDone(s, t)
  {
  }

  /** One write of memory, and the thread is one program point further. */
  ghost predicate AllocMoves(s: State, s': State, t: nat)
    requires AllocBounds(s, t) && AllocBounds(s', t)
  {
    var task, task' := s.threads[t], s'.threads[t];
    && task'.pc == task.pc + 1 && task'.b == task.b && task'.ch == task.ch && task'.fill == task.fill
    && !PublishesNow(task.pc, task.b, task.ch)
    && s'.flags == s.flags && s'.mem == AllocMem(s.mem, task.pc, task.b, task.ch, task.fill, s.flags)
  }

  lemma AllocMovesOn(s: State, t: nat)
    requires AllocBounds(s, t) && AllocBounds(ApplyAlloc(s, t), t)
    ensures AllocMoves(s, ApplyAlloc(s, t), t)
  {
  }

  lemma AllocDoneMem(s: State, s': State, t: nat)
    requires AllocBounds(s, t) && AllocBounds(s', t) && AllocMoves(s, s', t)
    ensures AllocDone(s', t).mem == AllocDone(s, t).mem
  {
    var task, task' := s.threads[t], s'.threads[t];
    AllocMemMoves(s.mem, s'.mem, task.pc, task'.pc, task.b, task.ch, task.fill, s.flags);
  }

  lemma AllocDoneStep(s: State, t: nat)
    requires AllocBounds(s, t) && AllocBounds(ApplyAlloc(s, t), t)
    ensures AllocDone(ApplyAlloc(s, t), t) == AllocDone(s, t)
  {
    AllocMovesOn(s, t);
    AllocDoneMem(s, ApplyAlloc(s, t), t);
    AllocDoneShadow(s, t);
    AllocDoneRest(s, t);
  }

  /** One step closer to the end of `Allocate`; the end stays the same. */
  lemma AllocOnce(s: State, t: nat, keep: bool) returns (s': State)
    requires Inv(s) && t in s.threads && s.threads[t].AllocTask?
    ensures AllocBounds(s, t) && Inv(s') && StepTo(s, s', t, keep)
    ensures t in s'.threads ==> s'.threads[t].AllocTask? && s'.threads[t].pc == s.threads[t].pc + 1
    ensures t in s'.threads ==> AllocBounds(s', t) && AllocDone(s', t) == AllocDone(s, t)
    ensures t !in s'.threads ==> s' == AllocDone(s, t)
  {
    Allocating.AllocTaskStory(s, t);
    Allocating.AllocKeeps(s, t, keep);
    Allocating.AllocSafe(s, t, true);
    s' := ApplyAlloc(s, t);
    if t in s'.threads {
      NextAllocTask(s, t);
      AllocBoundsNext(s, t);
      AllocDoneStep(s, t);
    } else {
      AllocDoneLast(s, t);
    }
  }

  lemma AllocBoundsNext(s: State, t: nat)
    requires AllocBounds(s, t) && t in ApplyAlloc(s, t).threads
    ensures AllocBounds(ApplyAlloc(s, t), t)
  {
  }

  lemma NextAllocTask(s: State, t: nat)
    requires t in s.threads && s.threads[t].AllocTask? && AllocBounds(s, t) && t in ApplyAlloc(s, t).threads
    ensures ApplyAlloc(s, t).threads[t].AllocTask? && ApplyAlloc(s, t).threads[t].pc == s.threads[t].pc + 1
  {
  }

  /** `Allocate`, left alone, runs to that state. */
  lemma {:induction false} AllocRuns(s: State, t: nat, keep: bool) returns (path: seq<State>)
    requires Inv(s) && t in s.threads && s.threads[t].AllocTask?
    ensures AllocBounds(s, t) && Inv(AllocDone(s, t)) && Leads(s, path, AllocDone(s, t), t, keep)
    decreases PUT_MAGIC + 1 - s.threads[t].pc
  {
    Allocating.AllocTaskStory(s, t);
    var s' := AllocOnce(s, t, keep);
    var rest := [s'];
    if t in s'.threads {
      rest := AllocRuns(s', t, keep);
    }
    PathGrows(s, s', rest, AllocDone(s, t), t, keep);
    path := [s] + rest;
  }

  // ------------------------------------------------------------------ Deallocate

  /** Memory after the remaining writes of `Deallocate` to a chunk of `size` bytes. */
  function FreeMemFrom(mem: Mem, pc: nat, m: nat, size: nat, t: nat, stack: nat, fills: bool, flags: Flags): (r: Mem)
    requires m + HEADER + Max(HEADER2, size) <= |mem|
    ensures |r| == |mem|
  {
    var m1 := if pc <= CLEAR_CONTEXT then Store(mem, m + HEADER, 8, Pack(INVALID_TID, 0)) else mem;
    var m2 := if pc <= PUT_FREE_CONTEXT then Store(m1, m + HEADER, 8, Pack(t, stack)) else m1;
    if pc <= QUARANTINE_OR_PASS && fills then Scribble(m2, m, size, flags) else m2
  }

  /** Taking one write off the front. */
  lemma FreeMemFromStep(mem: Mem, pc: nat, m: nat, size: nat, t: nat, stack: nat, fills: bool, flags: Flags)
    requires m + HEADER + Max(HEADER2, size) <= |mem| && UsedSizeIs(mem, m, size)
    ensures FreeMemFrom(FreeMem(mem, pc, m, t, stack, fills, flags), pc + 1, m, size, t, stack, fills, flags)
            == FreeMemFrom(mem, pc, m, size, t, stack, fills, flags)
  {
  }

  /** The state in which a chunk that is kept has reached the quarantine. */
  ghost function Kept(s: State, pc: nat, t: nat, m: nat, b: nat, ch: Chunk, stack: nat): State
    requires m + HEADER + Max(HEADER2, RoundUp8(ch.size)) <= |s.mem| == 8 * |s.shadow|
  {
    s.(mem := FreeMemFrom(s.mem, pc, m, ch.size, t, stack, true, s.flags),
       shadow := if pc <= POISON_FREED then PoisonShadow(s.shadow, s.on, m + HEADER, m + HEADER + RoundUp8(ch.size), HEAP_FREE)
                 else s.shadow,
       stats := if pc <= COUNT_FREE then CountedFree(s.stats, t, ch.size) else s.stats,
       quarantine := s.quarantine + multiset{m}, threads := s.threads - {t}, abs := s.abs[b := AQuar(ch, Pack(t, stack))])
  }

  ghost function FreeDone(s: State, t: nat): State
    requires FreeBounds(s, t)
  {
    var task := s.threads[t];
    Kept(s, task.pc, t, task.m, task.b, s.abs[task.b].ch, task.stack)
  }

  /** The state in which a chunk that is not kept goes on to be recycled. */
  ghost function Passed(s: State, pc: nat, t: nat, m: nat, b: nat, size: nat, stack: nat): State
    requires m + HEADER + Max(HEADER2, size) <= |s.mem| && b in s.blocks
  {
    s.(mem := FreeMemFrom(s.mem, pc, m, size, t, stack, s.blocks[b].primary, s.flags),
       stats := if pc <= COUNT_FREE then CountedFree(s.stats, t, size) else s.stats,
       threads := s.threads[t := RecycleTask(CLEAR_MAGIC, m, b)])
  }

  ghost function FreePassed(s: State, t: nat): State
    requires FreeBounds(s, t)
  {
    var task := s.threads[t];
    Passed(s, task.pc, t, task.m, task.b, s.abs[task.b].ch.size, task.stack)
  }

  lemma FreeFacts(s: State, t: nat, keep: bool)
    requires Inv(s) && t in s.threads && s.threads[t].FreeTask?
    ensures FreeBounds(s, t) && Inv(ApplyDealloc(s, t, keep))
    ensures StepTo(s, ApplyDealloc(s, t, keep), t, keep)
  {
    Freeing.FreeTaskStory(s, t);
    Freeing.FreeKeeps(s, t, keep);
    Freeing.FreeSafe(s, t, keep);
  }

  lemma FreeNext(s: State, t: nat, keep: bool)
    requires FreeBounds(s, t) && t in ApplyDealloc(s, t, keep).threads
    ensures var s' := ApplyDealloc(s, t, keep);
            if s'.threads[t].FreeTask?
            then s'.threads[t].pc == s.threads[t].pc + 1
            else !keep && s.threads[t].pc == QUARANTINE_OR_PASS
    ensures s.threads[t].pc == QUARANTINE_OR_PASS && !keep ==> ApplyDealloc(s, t, keep).threads[t].RecycleTask?
  {
  }

  lemma KeptStepRest(s: State, t: nat)
    requires FreeBounds(s, t) && FreeBounds(ApplyDealloc(s, t, true), t)
    ensures SameRest(FreeDone(s, t), FreeDone(ApplyDealloc(s, t, true), t))
  {
    var s', task := ApplyDealloc(s, t, true), s.threads[t];
    assert s'.threads == s.threads[t := FreeTask(task.pc + 1, task.m, task.b, task.stack)];
    assert s'.threads - {t} == s.threads - {t};
  }

  lemma KeptStep(s: State, t: nat)
    requires FreeBounds(s, t) && FreeBounds(ApplyDealloc(s, t, true), t)
    ensures FreeDone(ApplyDealloc(s, t, true), t) == FreeDone(s, t)
  {
    var task := s.threads[t];
    FreeMemFromStep(s.mem, task.pc, task.m, s.abs[task.b].ch.size, t, task.stack, true, s.flags);
    KeptStepRest(s, t);
  }

  lemma PassedStepRest(s: State, t: nat)
    requires FreeBounds(s, t) && s.threads[t].pc < QUARANTINE_OR_PASS
    requires FreeBounds(ApplyDealloc(s, t, false), t)
    ensures SameRest(FreePassed(s, t), FreePassed(ApplyDealloc(s, t, false), t))
  {
    var s', task := ApplyDealloc(s, t, false), s.threads[t];
    assert s'.threads == s.threads[t := FreeTask(task.pc + 1, task.m, task.b, task.stack)];
    assert s'.threads[t := RecycleTask(CLEAR_MAGIC, task.m, task.b)] == s.threads[t := RecycleTask(CLEAR_MAGIC, task.m, task.b)];
  }

  lemma PassedStep(s: State, t: nat)
    requires FreeBounds(s, t) && s.threads[t].pc < QUARANTINE_OR_PASS
    requires FreeBounds(ApplyDealloc(s, t, false), t)
    ensures FreePassed(ApplyDealloc(s, t, false), t) == FreePassed(s, t)
  {
    var s', task := ApplyDealloc(s, t, false), s.threads[t];
    var primary := s.blocks[task.b].primary;
    FreeMemFromStep(s.mem, task.pc, task.m, s.abs[task.b].ch.size, t, task.stack, primary, s.flags);
    assert s'.threads[t] == FreeTask(task.pc + 1, task.m, task.b, task.stack);
    assert s'.mem == FreeMem(s.mem, task.pc, task.m, t, task.stack, primary, s.flags);
    PassedStepRest(s, t);
  }

  lemma KeptLast(s: State, t: nat)
    requires FreeBounds(s, t) && t !in ApplyDealloc(s, t, true).threads
    ensures ApplyDealloc(s, t, true) == FreeDone(s, t)
  {
  }

  lemma KeptOnce(s: State, t: nat) returns (s': State)
    requires Inv(s) && t in s.threads && s.threads[t].FreeTask?
    ensures FreeBounds(s, t) && Inv(s') && StepTo(s, s', t, true)
    ensures t in s'.threads ==> s'.threads[t].FreeTask? && s'.threads[t].pc == s.threads[t].pc + 1
    ensures t in s'.threads ==> FreeBounds(s', t) && FreeDone(s', t) == FreeDone(s, t)
    ensures t !in s'.threads ==> s' == FreeDone(s, t)
  {
    FreeFacts(s, t, true);
    s' := ApplyDealloc(s, t, true);
    if t in s'.threads {
      FreeNext(s, t, true);
      FreeFacts(s', t, true);
      KeptStep(s, t);
    } else {
      KeptLast(s, t);
    }
  }

  /** `Deallocate`, left alone, brings a chunk that is kept to the quarantine. */
  lemma {:induction false} KeptRuns(s: State, t: nat) returns (path: seq<State>)
    requires Inv(s) && t in s.threads && s.threads[t].FreeTask?
    ensures FreeBounds(s, t) && Inv(FreeDone(s, t)) && Leads(s, path, FreeDone(s, t), t, true)
    decreases ENQUEUE + 1 - s.threads[t].pc
  {
    var s' := KeptOnce(s, t);
    var rest := [s'];
    if t in s'.threads {
      rest := KeptRuns(s', t);
    }
    PathGrows(s, s', rest, FreeDone(s, t), t, true);
    path := [s] + rest;
  }

  lemma PassedOnce(s: State, t: nat) returns (s': State)
    requires Inv(s) && t in s.threads && s.threads[t].FreeTask? && s.threads[t].pc <= QUARANTINE_OR_PASS
    ensures FreeBounds(s, t) && Inv(s') && StepTo(s, s', t, false)
    ensures s.threads[t].pc < QUARANTINE_OR_PASS ==>
              t in s'.threads && s'.threads[t].FreeTask? && s'.threads[t].pc == s.threads[t].pc + 1
              && FreeBounds(s', t) && FreePassed(s', t) == FreePassed(s, t)
    ensures s.threads[t].pc == QUARANTINE_OR_PASS ==> s' == FreePassed(s, t)
  {
    FreeFacts(s, t, false);
    s' := ApplyDealloc(s, t, false);
    if s.threads[t].pc < QUARANTINE_OR_PASS {
      FreeNext(s, t, false);
      FreeFacts(s', t, false);
      PassedStep(s, t);
    }
  }

  /** ... and hands a chunk that is not kept over to `Recycle`. */
  lemma {:induction false} PassedRuns(s: State, t: nat) returns (path: seq<State>)
    requires Inv(s) && t in s.threads && s.threads[t].FreeTask? && s.threads[t].pc <= QUARANTINE_OR_PASS
    ensures FreeBounds(s, t) && Inv(FreePassed(s, t)) && Leads(s, path, FreePassed(s, t), t, false)
    decreases QUARANTINE_OR_PASS - s.threads[t].pc
  {
    var s' := PassedOnce(s, t);
    var rest := [s'];
    if s.threads[t].pc < QUARANTINE_OR_PASS {
      rest := PassedRuns(s', t);
    }
    PathGrows(s, s', rest, FreePassed(s, t), t, false);
    path := [s] + rest;
  }

  // --------------------------------------------------------------------- Recycle

  /** Memory after the remaining writes of `Recycle`. */
  function RecycleMemFrom(mem: Mem, pc: nat, m: nat, b: nat, primary: bool): (r: Mem)
    requires m < |mem| && b + LARGE_HEADER <= |mem|
    ensures |r| == |mem|
  {
    var m1 := if pc <= CLEAR_MAGIC then RecycleMem(mem, CLEAR_MAGIC, m, b, primary) else mem;
    if pc <= CLEAR_STATE then RecycleMem(m1, CLEAR_STATE, m, b, primary) else m1
  }

  /** The state in which the block is back with the underlying allocator. */
  ghost function Recycled(s: State, pc: nat, t: nat, m: nat, b: nat, size: nat): State
    requires m < |s.mem| && b + LARGE_HEADER <= |s.mem| == 8 * |s.shadow| && m + HEADER + RoundUp8(size) <= |s.mem|
    requires b in s.blocks && s.blocks[b].lead <= b && b + s.blocks[b].size <= |s.mem|
  {
    var bk := s.blocks[b];
    s.(mem := RecycleMemFrom(s.mem, pc, m, b, bk.primary),
       shadow := if !bk.primary then PoisonShadow(s.shadow, s.on, b - bk.lead, b + bk.size, 0)
                 else if pc <= POISON_RECYCLED
                 then PoisonShadow(s.shadow, s.on, m + HEADER, m + HEADER + RoundUp8(size), HEAP_LEFT_REDZONE) else s.shadow,
       stats := if pc <= COUNT_RECYCLE then CountedRecycle(s.stats, t, size) else s.stats,
       free := if bk.primary then s.free + {b} else s.free,
       blocks := if bk.primary then s.blocks else s.blocks - {b}, stale := if bk.primary then s.stale else s.stale - {b},
       threads := s.threads - {t}, abs := if bk.primary then s.abs[b := AFree] else s.abs - {b})
  }

  ghost function RecycleDone(s: State, t: nat): State
    requires RecycleBounds(s, t)
  {
    var task := s.threads[t];
    Recycled(s, task.pc, t, task.m, task.b, s.abs[task.b].ch.size)
  }

  lemma RecycleFacts(s: State, t: nat, keep: bool)
    requires Inv(s) && t in s.threads && s.threads[t].RecycleTask?
    ensures RecycleBounds(s, t) && Inv(ApplyRecycle(s, t)) && StepTo(s, ApplyRecycle(s, t), t, keep)
  {
    Recycling.RecycleTaskStory(s, t);
    Recycling.RecycleKeeps(s, t, keep);
    Recycling.RecycleSafe(s, t, true);
  }

  lemma RecycleDoneMem(s: State, t: nat)
    requires RecycleBounds(s, t) && RecycleBounds(ApplyRecycle(s, t), t)
    ensures RecycleDone(ApplyRecycle(s, t), t).mem == RecycleDone(s, t).mem
  {
    var task := s.threads[t];
  }

  lemma RecycleDonePoison(s: State, t: nat)
    requires RecycleBounds(s, t) && RecycleBounds(ApplyRecycle(s, t), t) && s.blocks[s.threads[t].b].primary
    ensures RecycleDone(ApplyRecycle(s, t), t).shadow == RecycleDone(s, t).shadow
  {
  }

  lemma RecycleDoneUnmap(s: State, t: nat)
    requires RecycleBounds(s, t) && RecycleBounds(ApplyRecycle(s, t), t) && !s.blocks[s.threads[t].b].primary
    ensures RecycleDone(ApplyRecycle(s, t), t).shadow == RecycleDone(s, t).shadow
  {
  }

  lemma RecycleDoneRest(s: State, t: nat)
    requires RecycleBounds(s, t) && RecycleBounds(ApplyRecycle(s, t), t)
    ensures SameRest(RecycleDone(s, t), RecycleDone(ApplyRecycle(s, t), t))
  {
    var s', task := ApplyRecycle(s, t), s.threads[t];
    assert s'.threads == s.threads[t := RecycleTask(task.pc + 1, task.m, task.b)];
    assert s'.threads - {t} == s.threads - {t};
  }

  lemma ReturnedBlock(s: State, t: nat)
    requires RecycleBounds(s, t) && t !in ApplyRecycle(s, t).threads && s.blocks[s.threads[t].b].primary
    ensures ApplyRecycle(s, t) == RecycleDone(s, t)
  {
  }

  lemma ReturnedMapping(s: State, t: nat)
    requires RecycleBounds(s, t) && t !in ApplyRecycle(s, t).threads && !s.blocks[s.threads[t].b].primary
    ensures ApplyRecycle(s, t) == RecycleDone(s, t)
  {
  }

  lemma RecycleOnce(s: State, t: nat, keep: bool) returns (s': State)
    requires Inv(s) && t in s.threads && s.threads[t].RecycleTask?
    ensures RecycleBounds(s, t) && Inv(s') && StepTo(s, s', t, keep)
    ensures t in s'.threads ==> s'.threads[t].RecycleTask? && s'.threads[t].pc == s.threads[t].pc + 1
    ensures t in s'.threads ==> RecycleBounds(s', t) && RecycleDone(s', t) == RecycleDone(s, t)
    ensures t !in s'.threads ==> s' == RecycleDone(s, t)
  {
    RecycleFacts(s, t, keep);
    s' := ApplyRecycle(s, t);
    if t in s'.threads {
      RecycleFacts(s', t, keep);
      RecycleDoneMem(s, t);
      if s.blocks[s.threads[t].b].primary {
        RecycleDonePoison(s, t);
      } else {
        RecycleDoneUnmap(s, t);
      }
      RecycleDoneRest(s, t);
    } else {
      if s.blocks[s.threads[t].b].primary {
        ReturnedBlock(s, t);
      } else {
        ReturnedMapping(s, t);
      }
    }
  }

  /** `Recycle`, left alone, gives the block back. */
  lemma {:induction false} RecycleRuns(s: State, t: nat, keep: bool) returns (path: seq<State>)
    requires Inv(s) && t in s.threads && s.threads[t].RecycleTask?
    ensures RecycleBounds(s, t) && Inv(RecycleDone(s, t)) && Leads(s, path, RecycleDone(s, t), t, keep)
    decreases RETURN_BLOCK + 1 - s.threads[t].pc
  {
    var s' := RecycleOnce(s, t, keep);
    var rest := [s'];
    if t in s'.threads {
      rest := RecycleRuns(s', t, keep);
    }
    PathGrows(s, s', rest, RecycleDone(s, t), t, keep);
    path := [s] + rest;
  }
}
