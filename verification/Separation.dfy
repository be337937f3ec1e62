/** Chunks do not disturb each other: redzone gaps, and which bytes a step may write. */
module Separation {
  import opened Layout
  import opened Memory
  import opened Chunks
  import opened Machine
  import opened Invariant
  import opened Effects
  import Freeing
  import HeapSteps

  ghost predicate Holds(s: State, b: nat) {
    b in s.blocks && b in s.abs && !s.abs[b].AFree?
  }

  lemma FittingGap(blocks: map<nat, Block>, b: nat, ch: Chunk, b': nat, ch': Chunk)
    requires b in blocks && b' in blocks && BlocksApart(blocks, b, b') && Fits(b, blocks[b], ch) && Fits(b', blocks[b'], ch')
    requires ch.user <= ch'.user
    ensures ch.user + ch.size + ch'.rz <= ch'.user && ch'.rz >= 16
  {
  }

  /**
   The user regions of two chunks are apart by at least the redzone chosen for the later one,
   which is at least 16 bytes, in every state and whatever options each was allocated under.
   */
  lemma MinimumGap(s: State, b: nat, b': nat)
    requires Inv(s) && Holds(s, b) && Holds(s, b') && b != b'
    requires s.abs[b].ch.user <= s.abs[b'].ch.user
    ensures s.abs[b].ch.user + s.abs[b].ch.size + s.abs[b'].ch.rz <= s.abs[b'].ch.user
    ensures s.abs[b'].ch.rz >= 16
  {
    HeaderBlock(s, b);
    HeaderBlock(s, b');
    FittingGap(s.blocks, b, s.abs[b].ch, b', s.abs[b'].ch);
  }

  /** Bytes of the block at b, except possibly byte x, are the same. */
  ghost predicate KeptExcept(s: State, s': State, b: nat, x: int)
    requires b in s.blocks
  {
    |s'.mem| == |s.mem| &&
    forall i :: 0 <= i < |s.mem| && b <= i < b + s.blocks[b].size && i != x ==> s'.mem[i] == s.mem[i]
  }

  /** The winning compare-and-swap writes the state byte. */
  lemma FreeKeepsOthers(s: State, t: nat, p: nat, stack: nat, b: nat)
    requires Inv(s) && Enabled(s, Free(t, p, stack)) && b in s.blocks && s.abs[b].ALive? && s.abs[b].ch.user == p
    ensures KeptExcept(s, Apply(s, Free(t, p, stack)), b, Hdr(s.abs[b].ch))
  {
    HeaderBlock(s, b);
    assert p - HEADER == Hdr(s.abs[b].ch);
    if s.mem[p - HEADER] == CHUNK_ALLOCATED {
      Freeing.FreeRaceResult(s, t, p, stack, b);
    } else {
      Freeing.FreeRaceLost(s, t, p, stack);
    }
  }

  /** A live chunk's block is touched by a free, a client or a re-activation only. */
  lemma TouchesLive(s: State, step: Step, b: nat)
    requires Inv(s) && Enabled(s, step) && b in s.blocks && s.abs[b].ALive? && Touches(s, step, b)
    ensures step.Free? || step.UserWrite? || step.RePoison?
  {
    if step.Malloc? {
      HeapSteps.MallocHasBounds(s, step);
      SourceIsFree(s, step);
    } else if step.Carve? {
      CarvedIsNew(s, step.b, step.size, step.leftover);
    }
  }

  lemma ElsewhereKeeps(s: State, s': State, b: nat)
    requires Elsewhere(s, s', b) && b in s.blocks
    ensures KeptExcept(s, s', b, -1)
  {
  }

  /** New options and re-poisoning write no memory. */
  lemma ShadowOnly(s: State, step: Step)
    requires step.ReInit? || step.RePoison?
    ensures Apply(s, step).mem == s.mem
  {
  }

  /**
   Separation. While a chunk is live, the only byte of its whole block that any step of any
   thread may change is its own state byte, and only the compare-and-swap of a free does that;
   user bytes change only by the client's own writes.
   */
  lemma LiveBytesKept(s: State, step: Step, b: nat)
    requires Inv(s) && Enabled(s, step)
    requires b in s.blocks && s.abs[b].ALive? && !step.UserWrite?
    ensures KeptExcept(s, Apply(s, step), b, if step.Free? then Hdr(s.abs[b].ch) else -1)
  {
    if step.ReInit? || step.RePoison? {
      ShadowOnly(s, step);
    } else if !Touches(s, step, b) {
      StepIsLocal(s, step, b);
      ElsewhereKeeps(s, Apply(s, step), b);
    } else {
      TouchesLive(s, step, b);
      FreeKeepsOthers(s, step.t, step.p, step.stack, b);
    }
  }

  // ------------------------------------------------------------------- metadata

  /** The same chunk, or the block was given back. */
  ghost predicate SameChunkOrGone(s: State, s': State, b: nat)
    requires Holds(s, b)
  {
    b !in s'.abs || s'.abs[b].AFree? || s'.abs[b].ch == s.abs[b].ch
  }

  lemma RecordPersists(s: State, s': State, step: Step, b: nat)
    requires Recorded(s, s', step) && Holds(s, b)
    ensures SameChunkOrGone(s, s', b)
  {
  }

  /** A chunk's record, and with it every metadata field in memory, lasts until the block is given back. */
  lemma MetadataPersists(s: State, step: Step, b: nat)
    requires Inv(s) && Enabled(s, step) && Holds(s, b)
    ensures SameChunkOrGone(s, Apply(s, step), b)
  {
    StepIsRecorded(s, step);
    RecordPersists(s, Apply(s, step), step, b);
  }

  /** Everything recorded about the chunk in the block at b reads back from its header. */
  ghost predicate ReadsBack(m: Mem, ch: Chunk) {
    && HEADER <= ch.user && ch.user + HEADER2 <= |m|
    && UsedSize(m, ch.user - HEADER) == ch.size
    && ContextTid(Load(m, ch.user - HEADER + 8, 8)) == ch.tid && ContextStack(Load(m, ch.user - HEADER + 8, 8)) == ch.stack
    && AlignOf(m[ch.user - HEADER + 1]) == ch.alignLog && KindOf(m[ch.user - HEADER + 1]) == ch.kind
  }

  /**
   So it does from the moment the chunk is live until its block is given back, while a free or a
   recycling of it is in progress too. The free context reads back from user memory once written; until
   then, from the first write of the free on, it names no thread.
   */
  lemma MetadataReadsBack(s: State, b: nat)
    requires Inv(s) && Holds(s, b) && (s.abs[b].ABusy? ==> !s.threads[s.abs[b].t].AllocTask?)
    ensures ReadsBack(s.mem, s.abs[b].ch)
    ensures s.abs[b].AQuar? ==> Load(s.mem, s.abs[b].ch.user, 8) == s.abs[b].context
    ensures s.abs[b].ABusy? ==>
              var t, task := s.abs[b].t, s.threads[s.abs[b].t];
              && (task.FreeTask? && task.pc > PUT_FREE_CONTEXT ==> Load(s.mem, s.abs[b].ch.user, 8) == Pack(t, task.stack))
              && (task.FreeTask? && CLEAR_CONTEXT < task.pc <= PUT_FREE_CONTEXT ==>
                    Load(s.mem, s.abs[b].ch.user, 8) == Pack(INVALID_TID, 0))
  {
    HeaderBlock(s, b);
    StoryReadsBack(s, b);
  }

  lemma StoryReadsBack(s: State, b: nat)
    requires Holds(s, b) && BlockShape(s, b) && BlockOk(s, b) && (s.abs[b].ABusy? ==> !s.threads[s.abs[b].t].AllocTask?)
    ensures ReadsBack(s.mem, s.abs[b].ch)
  {
    PackRoundTrip(s.abs[b].ch.tid, s.abs[b].ch.stack);
  }
}
