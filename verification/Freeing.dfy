/** The steps of `Deallocate`, from the winning compare-and-swap to the quarantine, keep the invariant. */
module Freeing {
  import opened Words
  import opened Layout
  import opened Memory
  import opened Chunks
  import opened Machine
  import opened Invariant

  /** Thread t won the free of the chunk in its block and is on its way to the quarantine. */
  ghost predicate Frees(s: State, t: nat) {
    && t in s.threads && s.threads[t].FreeTask?
    && var task := s.threads[t];
    && task.b in s.blocks && task.b in s.abs && s.abs[task.b].ABusy? && s.abs[task.b].t == t && task.b !in s.free
    && BlockShape(s, task.b) && |s.mem| == 8 * |s.shadow| && |s.mem| <= SPACE && s.flags.tag < 4
    && var ch := s.abs[task.b].ch;
    && Fits(task.b, s.blocks[task.b], ch) && task.m == Hdr(ch)
    && FreeOk(s, t, task.b, s.blocks[task.b], ch, task.pc, task.stack)
  }

  lemma FreeTaskStory(s: State, t: nat)
    requires Inv(s) && t in s.threads && s.threads[t].FreeTask?
    ensures Frees(s, t)
  {
    assert BlockOk(s, s.threads[t].b);
  }

  lemma FreeSafe(s: State, t: nat, keep: bool)
    requires Frees(s, t)
    ensures Safe(s, Run(t, keep)) && FreeBounds(s, t) && UsedSize(s.mem, s.threads[t].m) == s.abs[s.threads[t].b].ch.size
  {
    var task := s.threads[t];
    UserGranules(task.b, s.blocks[task.b], s.abs[task.b].ch);
  }

  lemma FillLocal(m: Mem, c: nat, flags: Flags, i: int)
    requires c + HEADER <= |m| && c + HEADER + UsedSize(m, c) <= |m|
    requires 0 <= i < |m| && !(c + HEADER + HEADER2 <= i < c + HEADER + UsedSize(m, c))
    ensures FillChunk(m, c, flags)[i] == m[i]
  {
  }

  /** Every write of `Deallocate` goes to the user memory of the chunk it won. */
  lemma FreeMemLocal(m: Mem, pc: nat, b: nat, bk: Block, ch: Chunk, t: nat, stack: nat, fills: bool, flags: Flags, i: int)
    requires Fits(b, bk, ch) && b + bk.size <= |m| && UsedSize(m, Hdr(ch)) == ch.size
    requires 0 <= i < |m| && !(ch.user <= i < b + bk.size)
    ensures FreeMem(m, pc, Hdr(ch), t, stack, fills, flags)[i] == m[i]
  {
    FillLocal(m, Hdr(ch), flags, i);
  }

  /** The free context survives the fill, whatever the size and the fill limit. */
  lemma FillKeepsContext(m: Mem, b: nat, bk: Block, ch: Chunk, flags: Flags)
    requires Fits(b, bk, ch) && b + bk.size <= |m| && UsedSize(m, Hdr(ch)) == ch.size
    ensures Load(FillChunk(m, Hdr(ch), flags), ch.user, 8) == Load(m, ch.user, 8)
  {
    var m' := FillChunk(m, Hdr(ch), flags);
    forall i | 0 <= i < |m| && ch.user <= i < ch.user + 8
      ensures m'[i] == m[i]
    {
      FillLocal(m, Hdr(ch), flags, i);
    }
    LoadFrame(m, m', ch.user, 8);
  }

  lemma FreeUntouched(s: State, t: nat, keep: bool)
    requires Frees(s, t) && FreeBounds(s, t)
    requires UsedSize(s.mem, s.threads[t].m) == s.abs[s.threads[t].b].ch.size
    ensures Untouched(s, ApplyDealloc(s, t, keep), s.threads[t].b, s.threads[t].b + s.blocks[s.threads[t].b].size)
  {
    var task := s.threads[t];
    var b, bk, ch := task.b, s.blocks[task.b], s.abs[task.b].ch;
    var s' := ApplyDealloc(s, t, keep);
    forall i | 0 <= i < |s.mem| && !(b <= i < b + bk.size)
      ensures s'.mem[i] == s.mem[i]
    {
      FreeMemLocal(s.mem, task.pc, b, bk, ch, t, task.stack, keep || bk.primary, s.flags, i);
    }
  }

  /** Only the thread's own entries change. */
  lemma FreeThreads(s: State, t: nat, keep: bool)
    requires Frees(s, t) && FreeBounds(s, t)
    ensures var s', b := ApplyDealloc(s, t, keep), s.threads[t].b;
            && (forall t' :: t' != t ==> (t' in s'.threads <==> t' in s.threads) && (t' in s.threads ==> s'.threads[t'] == s.threads[t']))
            && (t in s'.threads ==> s.threads[t].pc != ENQUEUE && s'.threads[t].b == b)
  {
  }

  lemma FreeOwner(s: State, t: nat, keep: bool)
    requires Frees(s, t) && FreeBounds(s, t)
    ensures var s', b := ApplyDealloc(s, t, keep), s.threads[t].b;
            && s'.free == s.free && s'.abs == s.abs[b := s'.abs[b]] && b in s'.abs
            && s'.quarantine == (if s.threads[t].pc == ENQUEUE then s.quarantine + multiset{s.threads[t].m} else s.quarantine)
            && (s.threads[t].pc != ENQUEUE ==> s'.abs[b].ABusy? && s'.abs[b].t == t)
  {
  }

  lemma FreeLocal(s: State, t: nat, keep: bool)
    requires Frees(s, t) && FreeBounds(s, t)
    requires UsedSize(s.mem, s.threads[t].m) == s.abs[s.threads[t].b].ch.size
    ensures LocalStep(s, ApplyDealloc(s, t, keep), t, s.threads[t].b)
  {
    FreeUntouched(s, t, keep);
    FreeThreads(s, t, keep);
    FreeOwner(s, t, keep);
  }

  /** The header stays published; the context, once written, stays. */
  lemma FreeMemOk(m: Mem, pc: nat, b: nat, bk: Block, ch: Chunk, t: nat, stack: nat, fills: bool, flags: Flags)
    requires Fits(b, bk, ch) && b + bk.size <= |m| && UsedSize(m, Hdr(ch)) == ch.size
    requires Published(m, b, bk, ch, CHUNK_QUARANTINE) && t < U32 && stack < U32
    requires pc > CLEAR_CONTEXT ==> Load(m, ch.user, 8) == FreeContext(pc, t, stack)
    ensures var m' := FreeMem(m, pc, Hdr(ch), t, stack, fills, flags);
            && Published(m', b, bk, ch, CHUNK_QUARANTINE)
            && Load(m', ch.user, 8) == FreeContext(pc + 1, t, stack)
  {
    var m' := FreeMem(m, pc, Hdr(ch), t, stack, fills, flags);
    forall i | 0 <= i < |m| && i < ch.user
      ensures m'[i] == m[i]
    {
      FreeMemLocal(m, pc, b, bk, ch, t, stack, fills, flags, i);
    }
    PublishedFrame(m, m', b, bk, ch, CHUNK_QUARANTINE);
    if pc == CLEAR_CONTEXT {
      PackRoundTrip(INVALID_TID, 0);
      LoadStore8(m, ch.user, Pack(INVALID_TID, 0));
    } else if pc == PUT_FREE_CONTEXT {
      PackRoundTrip(t, stack);
      LoadStore8(m, ch.user, Pack(t, stack));
    } else if pc == QUARANTINE_OR_PASS && fills {
      FillKeepsContext(m, b, bk, ch, flags);
    }
  }

  /** The shadow's part of what a free keeps. */
  lemma FreedShadowNext(s: State, s': State, b: nat, bk: Block, ch: Chunk)
    requires b + bk.size <= 8 * |s.shadow| && ch.user + RoundUp8(ch.size) <= b + bk.size && 0 <= ch.user
    requires s'.on == s.on && s'.stale == s.stale
    requires s'.shadow == PoisonShadow(s.shadow, s.on, ch.user, ch.user + RoundUp8(ch.size), HEAP_FREE)
    requires OnFor(s, b) ==> OutsidePoisoned(s.shadow, b, b + bk.size, ch.user, ch.size)
    ensures OnFor(s', b) ==> AllPoisoned(s'.shadow, b, b + bk.size)
  {
    if OnFor(s, b) {
      PoisonCompletes(s.shadow, b, bk.size, ch.user, ch.size, HEAP_FREE);
    }
  }

  lemma FreeOkNext(s: State, s': State, t: nat, b: nat, bk: Block, ch: Chunk, pc: nat, stack: nat, fills: bool)
    requires Fits(b, bk, ch) && b + bk.size <= |s.mem| == 8 * |s.shadow| && UsedSize(s.mem, Hdr(ch)) == ch.size
    requires FreeOk(s, t, b, bk, ch, pc, stack)
    requires ch.user + RoundUp8(ch.size) <= b + bk.size
    requires s'.on == s.on && s'.stale == s.stale && s'.mem == FreeMem(s.mem, pc, Hdr(ch), t, stack, fills, s.flags)
    requires s'.shadow == if pc == POISON_FREED
                          then PoisonShadow(s.shadow, s.on, ch.user, ch.user + RoundUp8(ch.size), HEAP_FREE)
                          else s.shadow
    ensures pc < ENQUEUE ==> FreeOk(s', t, b, bk, ch, pc + 1, stack)
    ensures pc == ENQUEUE ==> FreeOk(s', t, b, bk, ch, pc, stack)
  {
    FreeMemOk(s.mem, pc, b, bk, ch, t, stack, fills, s.flags);
    if pc == POISON_FREED {
      FreedShadowNext(s, s', b, bk, ch);
    }
  }

  lemma FreeStoryLast(s: State, t: nat, keep: bool)
    requires Frees(s, t) && FreeBounds(s, t) && s.threads[t].pc == ENQUEUE
    requires UsedSize(s.mem, s.threads[t].m) == s.abs[s.threads[t].b].ch.size
    requires s.quarantine[s.threads[t].m] == 0
    ensures BlockShape(ApplyDealloc(s, t, keep), s.threads[t].b) && BlockOk(ApplyDealloc(s, t, keep), s.threads[t].b)
  {
    var task := s.threads[t];
    var b, bk, ch := task.b, s.blocks[task.b], s.abs[task.b].ch;
    FreeOkNext(s, ApplyDealloc(s, t, keep), t, b, bk, ch, task.pc, task.stack, keep || bk.primary);
  }

  lemma FreeStoryPass(s: State, t: nat, keep: bool)
    requires Frees(s, t) && FreeBounds(s, t) && s.threads[t].pc == QUARANTINE_OR_PASS && !keep
    requires UsedSize(s.mem, s.threads[t].m) == s.abs[s.threads[t].b].ch.size
    ensures BlockShape(ApplyDealloc(s, t, keep), s.threads[t].b) && BlockOk(ApplyDealloc(s, t, keep), s.threads[t].b)
  {
    var task := s.threads[t];
    var b, bk, ch := task.b, s.blocks[task.b], s.abs[task.b].ch;
    FreeOkNext(s, ApplyDealloc(s, t, keep), t, b, bk, ch, task.pc, task.stack, keep || bk.primary);
  }

  lemma FreeStoryNext(s: State, t: nat, keep: bool)
    requires Frees(s, t) && FreeBounds(s, t) && s.threads[t].pc < ENQUEUE && (s.threads[t].pc == QUARANTINE_OR_PASS ==> keep)
    requires UsedSize(s.mem, s.threads[t].m) == s.abs[s.threads[t].b].ch.size
    ensures BlockShape(ApplyDealloc(s, t, keep), s.threads[t].b) && BlockOk(ApplyDealloc(s, t, keep), s.threads[t].b)
  {
    var task := s.threads[t];
    var b, bk, ch := task.b, s.blocks[task.b], s.abs[task.b].ch;
    FreeOkNext(s, ApplyDealloc(s, t, keep), t, b, bk, ch, task.pc, task.stack, keep || bk.primary);
  }

  lemma FreeKeepsFrom(s: State, t: nat, keep: bool)
    requires Inv(s) && Frees(s, t) && FreeBounds(s, t)
    requires UsedSize(s.mem, s.threads[t].m) == s.abs[s.threads[t].b].ch.size
    ensures Inv(ApplyDealloc(s, t, keep))
  {
    OwnBlockQuarantine(s, s, s.threads[t].b);
    FreeLocal(s, t, keep);
    FreeThreads(s, t, keep);
    FreeOwner(s, t, keep);
    if s.threads[t].pc == ENQUEUE {
      FreeStoryLast(s, t, keep);
    } else if s.threads[t].pc == QUARANTINE_OR_PASS && !keep {
      FreeStoryPass(s, t, keep);
    } else {
      FreeStoryNext(s, t, keep);
    }
    LocalStepKeeps(s, ApplyDealloc(s, t, keep), t, s.threads[t].b);
  }

  lemma FreeKeeps(s: State, t: nat, keep: bool)
    requires Inv(s) && t in s.threads && s.threads[t].FreeTask?
    ensures Safe(s, Run(t, keep)) && Inv(Apply(s, Run(t, keep)))
  {
    FreeTaskStory(s, t);
    FreeSafe(s, t, keep);
    FreeKeepsFrom(s, t, keep);
  }

  // --------------------------------------------------------------- the race

  /** The block of the live chunk a winning free hits. */
  lemma FreeHits(s: State, p: nat) returns (b: nat)
    requires Inv(s) && HEADER <= p < |s.mem| + HEADER && NotForged(s, p)
    requires s.mem[p - HEADER] == CHUNK_ALLOCATED
    ensures b in s.blocks && s.abs[b].ALive? && s.abs[b].ch.user == p && BlockOk(s, b)
    ensures GetBlockBegin(s.blocks, Hdr(s.abs[b].ch)) == Some(b)
  {
    b :| b in s.abs && s.abs[b].ALive? && s.abs[b].ch.user == p;
    HeaderBlock(s, b);
  }

  /** The state after thread t won the live chunk in the block at b. */
  ghost function Won(s: State, t: nat, b: nat, stack: nat): State
    requires b in s.abs && s.abs[b].ALive? && 0 <= Hdr(s.abs[b].ch) < |s.mem|
  {
    var ch := s.abs[b].ch;
    s.(mem := s.mem[Hdr(ch) := CHUNK_QUARANTINE],
       threads := s.threads[t := FreeTask(CLEAR_CONTEXT, Hdr(ch), b, stack)],
       abs := s.abs[b := ABusy(t, ch)], won := s.won + multiset{ch.id})
  }

  lemma FreeRaceLocal(s: State, s': State, t: nat, b: nat, stack: nat)
    requires b in s.blocks && b in s.abs && s.abs[b].ALive? && Fits(b, s.blocks[b], s.abs[b].ch) && b + s.blocks[b].size <= |s.mem|
    requires s' == Won(s, t, b, stack)
    ensures LocalStep(s, s', t, b)
  {
  }

  lemma FreeRaceWon(s: State, s': State, t: nat, b: nat, stack: nat)
    requires Inv(s) && b in s.blocks && s.abs[b].ALive? && t !in s.threads && t < U32 && stack < U32
    requires BlockOk(s, b) && s' == Won(s, t, b, stack)
    ensures Inv(s')
  {
    var bk, ch := s.blocks[b], s.abs[b].ch;
    FreeRaceLocal(s, s', t, b, stack);
    PublishedState(s.mem, b, bk, ch, CHUNK_ALLOCATED, CHUNK_QUARANTINE);
    if OnFor(s, b) {
      LiveIsOutside(s, b, bk, ch);
    }
    OwnBlockQuarantine(s, s', b);
    LocalStepKeeps(s, s', t, b);
  }

  lemma FreeRaceResult(s: State, t: nat, p: nat, stack: nat, b: nat)
    requires Enabled(s, Free(t, p, stack)) && s.mem[p - HEADER] == CHUNK_ALLOCATED
    requires b in s.abs && s.abs[b].ALive? && s.abs[b].ch.user == p
    requires GetBlockBegin(s.blocks, Hdr(s.abs[b].ch)) == Some(b)
    ensures Safe(s, Free(t, p, stack)) && Apply(s, Free(t, p, stack)) == Won(s, t, b, stack)
  {
    assert p - HEADER == Hdr(s.abs[b].ch);
  }

  lemma FreeRaceLost(s: State, t: nat, p: nat, stack: nat)
    requires Enabled(s, Free(t, p, stack)) && s.mem[p - HEADER] != CHUNK_ALLOCATED
    ensures Safe(s, Free(t, p, stack)) && Apply(s, Free(t, p, stack)) == s
  {
  }

  lemma FreeRaceKeeps(s: State, t: nat, p: nat, stack: nat)
    requires Inv(s) && Enabled(s, Free(t, p, stack))
    ensures Safe(s, Free(t, p, stack)) && Inv(Apply(s, Free(t, p, stack)))
  {
    if s.mem[p - HEADER] == CHUNK_ALLOCATED {
      var b := FreeHits(s, p);
      FreeRaceResult(s, t, p, stack, b);
      FreeRaceWon(s, Won(s, t, b, stack), t, b, stack);
    } else {
      FreeRaceLost(s, t, p, stack);
    }
  }
}
