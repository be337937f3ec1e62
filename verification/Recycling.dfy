/** The steps of `Recycle` keep the invariant: from the quarantine back to the underlying allocator. */
module Recycling {
  import opened Words
  import opened Layout
  import opened Memory
  import opened Chunks
  import opened Machine
  import opened Invariant

  /** Thread t is recycling the chunk in its block. */
  ghost predicate Recycles(s: State, t: nat) {
    && t in s.threads && s.threads[t].RecycleTask?
    && var task := s.threads[t];
    && task.b in s.blocks && task.b in s.abs && s.abs[task.b].ABusy? && s.abs[task.b].t == t && task.b !in s.free
    && BlockShape(s, task.b) && |s.mem| == 8 * |s.shadow| && s.flags.tag < 4
    && var ch := s.abs[task.b].ch;
    && Fits(task.b, s.blocks[task.b], ch) && task.m == Hdr(ch)
    && RecycleOk(s, task.b, s.blocks[task.b], ch, task.pc)
  }

  lemma RecycleTaskStory(s: State, t: nat)
    requires Inv(s) && t in s.threads && s.threads[t].RecycleTask?
    ensures Recycles(s, t)
  {
    assert BlockOk(s, s.threads[t].b);
  }

  lemma RecycleTaskIsSafe(s: State, b: nat, bk: Block, ch: Chunk, pc: nat)
    requires Fits(b, bk, ch) && b + bk.size <= |s.mem| && Multiple(b, 16) && Multiple(bk.size, 8) && LARGE_HEADER <= bk.size
    requires bk.lead <= b && Multiple(bk.lead, 8) && RecycleOk(s, b, bk, ch, pc)
    ensures UsedSize(s.mem, Hdr(ch)) == ch.size && RecycleTaskSafe(s.mem, b, bk, Hdr(ch), ch.size, pc)
    ensures ch.user + RoundUp8(ch.size) <= b + bk.size
  {
    UserGranules(b, bk, ch);
    SixteenfoldIsEightfold(b);
    RemIsMod(bk.lead, 8);
    RemIsMod(b - bk.lead, 8);
  }

  lemma RecycleSafe(s: State, t: nat, keep: bool)
    requires Recycles(s, t)
    ensures Safe(s, Run(t, keep)) && RecycleBounds(s, t) && UsedSize(s.mem, s.threads[t].m) == s.abs[s.threads[t].b].ch.size
  {
    var task := s.threads[t];
    RecycleTaskIsSafe(s, task.b, s.blocks[task.b], s.abs[task.b].ch, task.pc);
  }

  /** Clearing the magic and the state hides the block and keeps the size readable. */
  lemma RecycleMemOk(m: Mem, pc: nat, b: nat, bk: Block, ch: Chunk)
    requires Fits(b, bk, ch) && b + bk.size <= |m| && LARGE_HEADER <= bk.size && HeaderOk(m, ch)
    ensures var m' := RecycleMem(m, pc, Hdr(ch), b, bk.primary);
            && HeaderOk(m', ch)
            && (pc == CLEAR_MAGIC && bk.primary && Hdr(ch) != b ==> m'[b] == CHUNK_INVALID && m'[Hdr(ch)] == m[Hdr(ch)])
            && (pc == CLEAR_STATE && bk.primary ==> m'[Hdr(ch)] == CHUNK_INVALID && (Hdr(ch) != b ==> m'[b] == m[b]))
            && (pc > CLEAR_STATE || !bk.primary ==> m' == m)
            && forall i :: 0 <= i < |m| && !(b <= i < b + bk.size) ==> m'[i] == m[i]
  {
    var m' := RecycleMem(m, pc, Hdr(ch), b, bk.primary);
    HeaderFrame(m, m', ch);
    if pc == CLEAR_MAGIC && bk.primary && Hdr(ch) != b {
      LoadStore8(m, b, 0);
      LowByte(m', b, 8);
    }
  }

  lemma RecycleUntouched(s: State, t: nat)
    requires Recycles(s, t) && RecycleBounds(s, t)
    requires UsedSize(s.mem, s.threads[t].m) == s.abs[s.threads[t].b].ch.size
    requires s.threads[t].pc < RETURN_BLOCK || s.blocks[s.threads[t].b].primary
    ensures Untouched(s, ApplyRecycle(s, t), s.threads[t].b, s.threads[t].b + s.blocks[s.threads[t].b].size)
  {
    var task := s.threads[t];
    RecycleMemOk(s.mem, task.pc, task.b, s.blocks[task.b], s.abs[task.b].ch);
  }

  /** Only the thread's own entries change. */
  lemma RecycleOwner(s: State, t: nat)
    requires Recycles(s, t) && RecycleBounds(s, t)
    requires s.threads[t].pc < RETURN_BLOCK || s.blocks[s.threads[t].b].primary
    ensures var s', b := ApplyRecycle(s, t), s.threads[t].b;
            && s'.blocks == s.blocks && s'.quarantine == s.quarantine && b in s'.abs && s'.abs == s.abs[b := s'.abs[b]]
            && s'.free <= s.free + {b} && s.free <= s'.free
            && (t in s'.threads ==> s'.threads[t].b == b && s'.abs[b].ABusy? && s'.abs[b].t == t)
  {
  }

  lemma RecycleLocal(s: State, t: nat)
    requires Recycles(s, t) && RecycleBounds(s, t)
    requires UsedSize(s.mem, s.threads[t].m) == s.abs[s.threads[t].b].ch.size
    requires s.threads[t].pc < RETURN_BLOCK || s.blocks[s.threads[t].b].primary
    ensures LocalStep(s, ApplyRecycle(s, t), t, s.threads[t].b)
  {
    RecycleUntouched(s, t);
    RecycleOwner(s, t);
  }

  lemma RecycleOkNext(s: State, s': State, b: nat, bk: Block, ch: Chunk, pc: nat)
    requires Fits(b, bk, ch) && b + bk.size <= |s.mem| == 8 * |s.shadow| && LARGE_HEADER <= bk.size
    requires RecycleOk(s, b, bk, ch, pc) && pc < RETURN_BLOCK
    requires ch.user + RoundUp8(ch.size) <= b + bk.size
    requires s'.on == s.on && s'.stale == s.stale && s'.mem == RecycleMem(s.mem, pc, Hdr(ch), b, bk.primary)
    requires s'.shadow == if pc == POISON_RECYCLED && bk.primary
                          then PoisonShadow(s.shadow, s.on, ch.user, ch.user + RoundUp8(ch.size), HEAP_LEFT_REDZONE)
                          else s.shadow
    ensures RecycleOk(s', b, bk, ch, pc + 1)
  {
    RecycleMemOk(s.mem, pc, b, bk, ch);
    if pc == POISON_RECYCLED && bk.primary && OnFor(s, b) {
      PoisonCompletes(s.shadow, b, bk.size, ch.user, ch.size, HEAP_LEFT_REDZONE);
    }
  }

  lemma RecycleStoryNext(s: State, t: nat)
    requires Recycles(s, t) && RecycleBounds(s, t) && s.threads[t].pc < RETURN_BLOCK
    requires UsedSize(s.mem, s.threads[t].m) == s.abs[s.threads[t].b].ch.size
    ensures BlockShape(ApplyRecycle(s, t), s.threads[t].b) && BlockOk(ApplyRecycle(s, t), s.threads[t].b)
  {
    var task := s.threads[t];
    RecycleOkNext(s, ApplyRecycle(s, t), task.b, s.blocks[task.b], s.abs[task.b].ch, task.pc);
  }

  lemma UnmapResult(s: State, t: nat)
    requires Recycles(s, t) && RecycleBounds(s, t)
    requires s.threads[t].pc == RETURN_BLOCK && !s.blocks[s.threads[t].b].primary
    ensures ApplyRecycle(s, t) == Returned(s, t, s.threads[t].b)
  {
  }

  /** Unmapping leaves every other block alone. */
  lemma UnmapSame(s: State, s': State, t: nat, b: nat, b': nat)
    requires t in s.threads && s.threads[t].b == b && b in s.blocks && BlockShape(s, b) && |s.mem| == 8 * |s.shadow|
    requires !s.blocks[b].primary && s' == Returned(s, t, b)
    requires b' in s.blocks && b' != b && b' in s.abs && BlocksApart(s.blocks, b, b') && Anchored(s, b')
    ensures SameFor(s, s', b')
  {
    ApartSame(s, s', b - s.blocks[b].lead, b + s.blocks[b].size, b', s.blocks[b'].size);
  }

  lemma UnmapQuarantine(s: State, s': State, t: nat, b: nat, m: nat)
    requires Owners(s) && b in s.blocks && b in s.abs && s.abs[b].ABusy? && BlockShape(s, b) && b + s.blocks[b].size <= 8 * |s.shadow|
    requires !s.blocks[b].primary && s' == Returned(s, t, b) && m in s.quarantine
    ensures exists b1: nat :: QuarAt(s', b1, m)
  {
    var b1: nat :| QuarAt(s, b1, m);
    assert QuarAt(s', b1, m);
  }

  lemma UnmapOwners(s: State, s': State, t: nat, b: nat)
    requires Owners(s) && b in s.blocks && b in s.abs && s.abs[b].ABusy? && BlockShape(s, b) && b + s.blocks[b].size <= 8 * |s.shadow|
    requires s.abs[b].t == t && !s.blocks[b].primary && s' == Returned(s, t, b)
    ensures Owners(s')
  {
    forall m | m in s'.quarantine
      ensures exists b1: nat :: QuarAt(s', b1, m)
    {
      UnmapQuarantine(s, s', t, b, m);
    }
  }

  lemma UnmapShape(s: State, s': State, t: nat, b: nat)
    requires Shape(s) && b in s.blocks && b !in s.free && BlockShape(s, b)
    requires !s.blocks[b].primary && s' == Returned(s, t, b)
    ensures Shape(s')
  {
    forall b1 | b1 in s'.blocks
      ensures BlockShape(s', b1)
    {
      assert BlockShape(s, b1);
    }
    forall b1, b2 | b1 in s'.blocks && b2 in s'.blocks && b1 != b2
      ensures BlocksApart(s'.blocks, b1, b2)
    {
      assert BlocksApart(s.blocks, b1, b2);
    }
  }

  /** The unmapped range joins what is not mapped, with a clear shadow. */
  lemma UnmapUncarved(s: State, s': State, t: nat, b: nat)
    requires Uncarved(s) && b in s.blocks && BlockShape(s, b) && |s.mem| == 8 * |s.shadow|
    requires !s.blocks[b].primary && s' == Returned(s, t, b)
    ensures Uncarved(s')
  {
    forall g | g in s'.spare
      ensures SpareOk(s', g)
    {
      assert SpareOk(s, g);
    }
    forall g: nat | g < |s'.shadow| && g !in s'.spare && Uncovered(s'.blocks, 8 * g)
      ensures s'.shadow[g] == 0
    {
      if !Uncovered(s.blocks, 8 * g) {
        var b1 :| b1 in s.blocks && b1 - s.blocks[b1].lead <= (8 * g) < b1 + s.blocks[b1].size;
        assert b1 == b || b1 in s'.blocks;
      }
    }
  }

  lemma RecycleKeeps(s: State, t: nat, keep: bool)
    requires Inv(s) && t in s.threads && s.threads[t].RecycleTask?
    ensures Safe(s, Run(t, keep)) && Inv(Apply(s, Run(t, keep)))
  {
    RecycleTaskStory(s, t);
    RecycleSafe(s, t, keep);
    if s.threads[t].pc == RETURN_BLOCK && !s.blocks[s.threads[t].b].primary {
      ReturnMappingKeeps(s, t);
    } else {
      RecycleKeepsFrom(s, t);
    }
  }

  lemma ReturnMappingKeeps(s: State, t: nat)
    requires Inv(s) && Recycles(s, t) && RecycleBounds(s, t)
    requires s.threads[t].pc == RETURN_BLOCK && !s.blocks[s.threads[t].b].primary
    ensures Inv(ApplyRecycle(s, t))
  {
    var b := s.threads[t].b;
    UnmapResult(s, t);
    UnmapOwners(s, Returned(s, t, b), t, b);
    UnmapShape(s, Returned(s, t, b), t, b);
    UnmapUncarved(s, Returned(s, t, b), t, b);
    forall b' | b' in Returned(s, t, b).blocks
      ensures BlockOk(Returned(s, t, b), b')
    {
      InvAnchors(s, b');
      assert BlocksApart(s.blocks, b, b');
      UnmapSame(s, Returned(s, t, b), t, b, b');
      Frame(s, Returned(s, t, b), b');
    }
  }

  lemma RecycleKeepsFrom(s: State, t: nat)
    requires Inv(s) && Recycles(s, t) && RecycleBounds(s, t)
    requires UsedSize(s.mem, s.threads[t].m) == s.abs[s.threads[t].b].ch.size
    requires s.threads[t].pc < RETURN_BLOCK || s.blocks[s.threads[t].b].primary
    ensures Inv(ApplyRecycle(s, t))
  {
    var b := s.threads[t].b;
    RecycleLocal(s, t);
    RecycleOwner(s, t);
    if s.threads[t].pc < RETURN_BLOCK {
      RecycleStoryNext(s, t);
    }
    OwnBlockQuarantine(s, ApplyRecycle(s, t), b);
    LocalStepKeeps(s, ApplyRecycle(s, t), t, b);
  }

  // ------------------------------------------------------------ from quarantine

  /** The state after thread t took the quarantined chunk in the block at b. */
  ghost function Picked(s: State, t: nat, b: nat): State
    requires b in s.abs && s.abs[b].AQuar? && Hdr(s.abs[b].ch) >= 0
  {
    var m := Hdr(s.abs[b].ch);
    s.(quarantine := s.quarantine - multiset{m}, threads := s.threads[t := RecycleTask(CLEAR_MAGIC, m, b)],
       abs := s.abs[b := ABusy(t, s.abs[b].ch)])
  }

  lemma PickResult(s: State, t: nat, m: nat, b: nat)
    requires QuarAt(s, b, m) && GetBlockBegin(s.blocks, Hdr(s.abs[b].ch)) == Some(b)
    ensures Safe(s, Recycle(t, m)) && Apply(s, Recycle(t, m)) == Picked(s, t, b)
  {
  }

  lemma PickedStory(s: State, s': State, t: nat, b: nat)
    requires b in s.blocks && b in s.abs && s.abs[b].AQuar? && BlockShape(s, b) && BlockOk(s, b)
    requires s' == Picked(s, t, b)
    ensures BlockShape(s', b) && BlockOk(s', b) && LocalStep(s, s', t, b)
  {
  }

  lemma PickedKeeps(s: State, t: nat, b: nat)
    requires Inv(s) && t !in s.threads && b in s.blocks && s.abs[b].AQuar? && BlockOk(s, b)
    ensures Inv(Picked(s, t, b))
  {
    var s', m := Picked(s, t, b), Hdr(s.abs[b].ch);
    PickedStory(s, s', t, b);
    forall m': nat | b <= m' < b + s.blocks[b].size
      ensures m' !in s'.quarantine
    {
      if m' in s.quarantine {
        assert BlockOk(s, b);
        var b1: nat :| QuarAt(s, b1, m');
        HeaderBlock(s, b1);
        BlockBeginIs(s, b, Hdr(s.abs[b1].ch));
      }
    }
    LocalStepKeeps(s, s', t, b);
  }

  lemma PickKeeps(s: State, t: nat, m: nat)
    requires Inv(s) && Enabled(s, Recycle(t, m))
    ensures Safe(s, Recycle(t, m)) && Inv(Apply(s, Recycle(t, m)))
  {
    var b: nat :| QuarAt(s, b, m);
    HeaderBlock(s, b);
    PickResult(s, t, m, b);
    PickedKeeps(s, t, b);
  }
}
