/** The steps of `Allocate` keep the invariant. */
module Allocating {
  import opened Words
  import opened Layout
  import opened Memory
  import opened Chunks
  import opened Machine
  import opened Invariant

  lemma HalvesFit(size: nat)
    requires size <= MAX_MALLOC
    ensures size / U32 < 0x1_0000 && size / U32 % 0x1_0000 == size / U32
  {
  }

  lemma WriteSizeLo(m: Mem, b: nat, bk: Block, ch: Chunk)
    requires Fits(b, bk, ch) && b + bk.size <= |m|
    requires Written(m, b, bk, ch, PUT_SIZE_LO)
    ensures Written(PutSizeLo(m, Hdr(ch), ch.size), b, bk, ch, PUT_SIZE_LO + 1)
  {
    HalvesFit(ch.size);
    LoadStore4(m, Hdr(ch) + 4, ch.size % U32);
  }

  lemma WriteSizeHi(m: Mem, b: nat, bk: Block, ch: Chunk)
    requires Fits(b, bk, ch) && b + bk.size <= |m|
    requires Written(m, b, bk, ch, PUT_SIZE_HI)
    ensures Written(PutSizeHi(m, Hdr(ch), ch.size), b, bk, ch, PUT_SIZE_HI + 1)
  {
    var c := Hdr(ch);
    HalvesFit(ch.size);
    LoadStore2(m, c + 2, ch.size / U32);
    LoadFrame(m, PutSizeHi(m, c, ch.size), c + 4, 4);
  }

  lemma WriteContext(m: Mem, b: nat, bk: Block, ch: Chunk)
    requires Fits(b, bk, ch) && b + bk.size <= |m|
    requires Written(m, b, bk, ch, PUT_CONTEXT)
    ensures Written(Store(m, Hdr(ch) + 8, 8, Pack(ch.tid, ch.stack)), b, bk, ch, PUT_CONTEXT + 1)
  {
    var c := Hdr(ch);
    var m' := Store(m, c + 8, 8, Pack(ch.tid, ch.stack));
    PackRoundTrip(ch.tid, ch.stack);
    LoadStore8(m, c + 8, Pack(ch.tid, ch.stack));
    LoadFrame(m, m', c + 4, 4);
    LoadFrame(m, m', c + 2, 2);
  }

  /** Each write of `Allocate` completes one more field and spoils none. */
  lemma WriteField(m: Mem, b: nat, bk: Block, ch: Chunk, pc: nat, fill: nat, flags: Flags)
    requires Fits(b, bk, ch) && b + bk.size <= |m| && flags.tag < 4 && LARGE_HEADER <= bk.size
    requires pc <= PUT_MAGIC && (pc >= PUT_BACK_LINK ==> Hdr(ch) != b)
    requires Written(m, b, bk, ch, pc)
    ensures Written(AllocMem(m, pc, b, ch, fill, flags), b, bk, ch, pc + 1)
  {
    if pc in {PUT_KIND, PUT_ALIGN, PUT_TAG} {
      var c := Hdr(ch);
      LoadFrame(m, AllocMem(m, pc, b, ch, fill, flags), c + 4, 4);
      LoadFrame(m, AllocMem(m, pc, b, ch, fill, flags), c + 2, 2);
      LoadFrame(m, AllocMem(m, pc, b, ch, fill, flags), c + 8, 8);
    } else if pc == PUT_SIZE_LO {
      WriteSizeLo(m, b, bk, ch);
    } else if pc == PUT_SIZE_HI {
      WriteSizeHi(m, b, bk, ch);
    } else if pc == PUT_CONTEXT {
      WriteContext(m, b, bk, ch);
    } else {
      WrittenFrame(m, AllocMem(m, pc, b, ch, fill, flags), b, bk, ch, pc);
    }
  }

  // ------------------------------------------------------------------- shadow

  lemma ShadowStepLocal(sh: Shadow, on: bool, pc: nat, b: nat, size: nat, u: nat, n: nat, wide: bool, part: bool, g: int)
    requires b < u && u + n <= b + size <= 8 * |sh| && (part ==> n % 8 != 0) && u % 8 == 0
    requires 0 <= g < |sh| && !(b <= 8 * g < b + size)
    ensures AllocShadowStep(sh, on, pc, b, size, u, n, wide, part)[g] == sh[g]
  {
  }

  /** The test of line 617: if it finds a set byte the whole block is poisoned, and no redzone needs writing. */
  lemma TestFirst(sh: Shadow, b: nat, size: nat, guess: bool)
    requires b < b + size <= 8 * |sh| && b % 8 == 0 && (guess ==> FreeShadow(sh, b, size))
    ensures !WantsRedzones(sh, b, guess) ==> AllPoisoned(sh, b, b + size)
  {
    var f := b / 8;
    assert 8 * f == b;
  }

  lemma PutLeft(sh: Shadow, b: nat, size: nat, u: nat, n: nat, wide: bool, part: bool)
    requires b < u && u + n <= b + size <= 8 * |sh| && (part ==> n % 8 != 0)
    requires !wide ==> AllPoisoned(sh, b, b + size)
    ensures var sh' := AllocShadowStep(sh, true, PUT_LEFT, b, size, u, n, wide, part);
            if wide then AllPoisoned(sh', b, u) else AllPoisoned(sh', b, b + size)
  {
  }

  lemma PutRight(sh: Shadow, b: nat, size: nat, u: nat, n: nat, wide: bool, part: bool)
    requires b < u && u + n <= b + size <= 8 * |sh| && (part ==> n % 8 != 0) && u % 8 == 0
    requires if wide then AllPoisoned(sh, b, u) else AllPoisoned(sh, b, b + size)
    ensures OutsidePoisoned(AllocShadowStep(sh, true, PUT_RIGHT, b, size, u, n, wide, part), b, b + size, u, n)
  {
  }

  /** Clearing the user granules leaves the redzones alone, in either mode. */
  lemma ClearUser(sh: Shadow, on: bool, b: nat, size: nat, u: nat, n: nat, wide: bool, part: bool)
    requires b < u && u + n <= b + size <= 8 * |sh| && (part ==> n % 8 != 0) && u % 8 == 0
    ensures var sh' := AllocShadowStep(sh, on, CLEAR_USER, b, size, u, n, wide, part);
            && WholeGranulesClear(sh', u, n)
            && (OutsidePoisoned(sh, b, b + size, u, n) ==> OutsidePoisoned(sh', b, b + size, u, n))
  {
  }

  /** The granule the partial byte describes. */
  lemma LastGranule(u: nat, n: nat) returns (g: nat)
    requires u % 8 == 0
    ensures g == (u + n / 8 * 8) / 8 && 8 * g == u + n / 8 * 8 && 8 * g <= u + n < 8 * g + 8
    ensures n % 8 == u + n - 8 * g
  {
    g := (u + n / 8 * 8) / 8;
  }

  /** So does the partial byte ... */
  lemma PartialKeeps(sh: Shadow, on: bool, b: nat, size: nat, u: nat, n: nat, wide: bool, part: bool)
    requires b < u && u + n <= b + size <= 8 * |sh| && (part ==> n % 8 != 0) && u % 8 == 0
    ensures var sh' := AllocShadowStep(sh, on, PUT_PARTIAL, b, size, u, n, wide, part);
            && (WholeGranulesClear(sh, u, n) ==> WholeGranulesClear(sh', u, n))
            && (OutsidePoisoned(sh, b, b + size, u, n) ==> OutsidePoisoned(sh', b, b + size, u, n))
  {
    var g := LastGranule(u, n);
  }

  /** ... and it completes an exact shadow. */
  lemma PartialExact(sh: Shadow, on: bool, b: nat, size: nat, u: nat, n: nat, wide: bool, part: bool)
    requires b < u && u + n <= b + size <= 8 * |sh| && (part <==> n % 8 != 0) && u % 8 == 0
    requires OutsidePoisoned(sh, b, b + size, u, n) && WholeGranulesClear(sh, u, n)
    ensures ExactShadow(AllocShadowStep(sh, on, PUT_PARTIAL, b, size, u, n, wide, part), b, b + size, u, n)
  {
    var g := LastGranule(u, n);
  }

  /** Lines 617-638 with poisoning on: the result is exact for the whole block. */
  lemma AllocShadowExact(sh: Shadow, b: nat, size: nat, u: nat, n: nat, guess: bool)
    requires b < u && u + n <= b + size <= 8 * |sh|
    requires b % 8 == 0 && u % 8 == 0
    requires guess ==> FreeShadow(sh, b, size)
    ensures ExactShadow(AllocShadow(sh, true, b, size, u, n, guess), b, b + size, u, n)
  {
    var wide, part := WantsRedzones(sh, b, guess), WantsPartial(true, n);
    TestFirst(sh, b, size, guess);
    var sh1 := AllocShadowStep(sh, true, PUT_LEFT, b, size, u, n, wide, false);
    PutLeft(sh, b, size, u, n, wide, false);
    var sh2 := AllocShadowStep(sh1, true, PUT_RIGHT, b, size, u, n, wide, false);
    PutRight(sh1, b, size, u, n, wide, false);
    var sh3 := AllocShadowStep(sh2, true, CLEAR_USER, b, size, u, n, wide, false);
    ClearUser(sh2, true, b, size, u, n, wide, false);
    PartialExact(sh3, true, b, size, u, n, wide, part);
  }

  lemma AllocShadowLocal(sh: Shadow, on: bool, b: nat, size: nat, u: nat, n: nat, guess: bool, g: int)
    requires b < u && u + n <= b + size <= 8 * |sh|
    requires u % 8 == 0
    requires 0 <= g < |sh| && !(b <= 8 * g < b + size)
    ensures AllocShadow(sh, on, b, size, u, n, guess)[g] == sh[g]
  {
    var wide, part := WantsRedzones(sh, b, guess), WantsPartial(on, n);
    ShadowStepLocal(sh, on, PUT_LEFT, b, size, u, n, wide, false, g);
    var sh1 := AllocShadowStep(sh, on, PUT_LEFT, b, size, u, n, wide, false);
    ShadowStepLocal(sh1, on, PUT_RIGHT, b, size, u, n, wide, false, g);
    var sh2 := AllocShadowStep(sh1, on, PUT_RIGHT, b, size, u, n, wide, false);
    ShadowStepLocal(sh2, on, CLEAR_USER, b, size, u, n, wide, false, g);
    var sh3 := AllocShadowStep(sh2, on, CLEAR_USER, b, size, u, n, wide, false);
    ShadowStepLocal(sh3, on, PUT_PARTIAL, b, size, u, n, wide, part, g);
  }

  // --------------------------------------------------------------------- steps

  /** Thread t is inside `Allocate`, and its block is in the state its program point promises. */
  ghost predicate Allocates(s: State, t: nat) {
    && t in s.threads && s.threads[t].AllocTask?
    && var task := s.threads[t];
    && task.b in s.blocks && task.b in s.abs && s.abs[task.b] == ABusy(t, task.ch) && task.b !in s.free
    && BlockShape(s, task.b) && |s.mem| == 8 * |s.shadow| && |s.mem| <= SPACE && s.flags.tag < 4
    && Fits(task.b, s.blocks[task.b], task.ch)
    && AllocOk(s, task.b, s.blocks[task.b], task.ch, task.pc, task.guess, task.wide, task.part)
  }

  lemma AllocTaskStory(s: State, t: nat)
    requires Inv(s) && t in s.threads && s.threads[t].AllocTask?
    ensures Allocates(s, t)
  {
    assert BlockOk(s, s.threads[t].b);
  }

  lemma WrittenSize(m: Mem, b: nat, bk: Block, ch: Chunk)
    requires Fits(b, bk, ch) && b + bk.size <= |m|
    requires Written(m, b, bk, ch, PUT_SIZE_HI + 1) || Written(m, b, bk, ch, PUT_STATE + 1) || Written(m, b, bk, ch, PUT_MAGIC + 1)
    ensures UsedSize(m, Hdr(ch)) == ch.size
  {
  }

  lemma AllocSafe(s: State, t: nat, keep: bool)
    requires Allocates(s, t)
    ensures Safe(s, Run(t, keep)) && AllocBounds(s, t)
  {
    var task := s.threads[t];
    UserGranules(task.b, s.blocks[task.b], task.ch);
    RemIsMod(task.ch.size / 8 * 8, 8);
    EightfoldSum(task.ch.user, task.ch.size / 8 * 8);
    if task.pc == PUT_SIZE_HI {
      WriteSizeHi(s.mem, task.b, s.blocks[task.b], task.ch);
      WrittenSize(AllocMem(s.mem, PUT_SIZE_HI, task.b, task.ch, task.fill, s.flags), task.b, s.blocks[task.b], task.ch);
    }
  }

  lemma AllocMemLocal(m: Mem, b: nat, bk: Block, ch: Chunk, pc: nat, fill: nat, flags: Flags, i: int)
    requires Fits(b, bk, ch) && b + bk.size <= |m| && flags.tag < 4 && LARGE_HEADER <= bk.size
    requires 0 <= i < |m| && !(b <= i < b + bk.size)
    ensures AllocMem(m, pc, b, ch, fill, flags)[i] == m[i]
  {
  }

  lemma AllocGranulesLocal(s: State, t: nat, g: int)
    requires Allocates(s, t) && AllocBounds(s, t)
    requires 0 <= g < |s.shadow| && !(s.threads[t].b <= 8 * g < s.threads[t].b + s.blocks[s.threads[t].b].size)
    ensures ApplyAlloc(s, t).shadow[g] == s.shadow[g]
  {
    var task := s.threads[t];
    RemIsMod(task.ch.user, 8);
    ShadowStepLocal(s.shadow, s.on, task.pc, task.b, s.blocks[task.b].size, task.ch.user, task.ch.size, task.wide, task.part, g);
  }

  lemma AllocUntouched(s: State, t: nat)
    requires Allocates(s, t) && AllocBounds(s, t)
    ensures Untouched(s, ApplyAlloc(s, t), s.threads[t].b, s.threads[t].b + s.blocks[s.threads[t].b].size)
  {
    var s', b, size := ApplyAlloc(s, t), s.threads[t].b, s.blocks[s.threads[t].b].size;
    forall i | 0 <= i < |s.mem| && !(b <= i < b + size)
      ensures s'.mem[i] == s.mem[i]
    {
      var task := s.threads[t];
      AllocMemLocal(s.mem, task.b, s.blocks[task.b], task.ch, task.pc, task.fill, s.flags, i);
    }
    forall g | 0 <= g < |s.shadow| && !(b <= 8 * g < b + size)
      ensures s'.shadow[g] == s.shadow[g]
    {
      AllocGranulesLocal(s, t, g);
    }
  }

  /** Every write of `Allocate` stays inside its block. */
  lemma AllocLocal(s: State, t: nat)
    requires Allocates(s, t) && AllocBounds(s, t)
    ensures LocalStep(s, ApplyAlloc(s, t), t, s.threads[t].b)
  {
    AllocUntouched(s, t);
    AllocAbs(s, t);
  }

  lemma AllocAbs(s: State, t: nat)
    requires Allocates(s, t) && AllocBounds(s, t)
    ensures var s', b := ApplyAlloc(s, t), s.threads[t].b; b in s'.abs && s'.abs == s.abs[b := s'.abs[b]]
  {
    var b := s.threads[t].b;
    assert s.abs == s.abs[b := s.abs[b]];
  }

  /** Each write of `Allocate` before the last leaves the block reading as invalid from its start. */
  lemma AllocBytesNext(m: Mem, b: nat, bk: Block, ch: Chunk, pc: nat, fill: nat, flags: Flags)
    requires Fits(b, bk, ch) && b + bk.size <= |m| <= SPACE && flags.tag < 4 && LARGE_HEADER <= bk.size
    requires AllocBytes(m, b, bk, ch, pc) && pc < PUT_MAGIC && (pc == PUT_STATE ==> Hdr(ch) != b)
    ensures AllocBytes(AllocMem(m, pc, b, ch, fill, flags), b, bk, ch, pc + 1)
  {
    WriteField(m, b, bk, ch, pc, fill, flags);
    if pc == PUT_BACK_LINK {
      LoadStore8(m, b + 8, Hdr(ch));
    }
  }

  /** One shadow write or test keeps what is known of the shadow, in whatever mode it finds the allocator. */
  lemma AllocShadowNext(s: State, s': State, b: nat, bk: Block, ch: Chunk, pc: nat, guess: bool, wide: bool, part: bool)
    requires Fits(b, bk, ch) && b + bk.size <= 8 * |s.shadow| && Multiple(b, 16) && guess == bk.primary
    requires pc < PUT_PARTIAL && AllocShadowOk(s, b, bk, ch, pc, wide, part)
    requires s'.shadow == AllocShadowStep(s.shadow, s.on, pc, b, bk.size, ch.user, ch.size, wide, part)
    requires s'.on == s.on && s'.stale == s.stale && s'.lost == s.lost
    ensures AllocShadowOk(s', b, bk, ch, pc + 1, if pc == TEST_FIRST then WantsRedzones(s.shadow, b, guess) else wide,
                          if pc == TEST_MODE then WantsPartial(s.on, ch.size) else part)
  {
    if OnFor(s, b) {
      SixteenfoldIsEightfold(b);
      RemIsMod(ch.user, 8);
      if pc == TEST_FIRST {
        TestFirst(s.shadow, b, bk.size, guess);
      } else if pc == PUT_LEFT {
        PutLeft(s.shadow, b, bk.size, ch.user, ch.size, wide, part);
      } else if pc == PUT_RIGHT {
        PutRight(s.shadow, b, bk.size, ch.user, ch.size, wide, part);
      } else if pc == CLEAR_USER {
        ClearUser(s.shadow, true, b, bk.size, ch.user, ch.size, wide, part);
      }
    }
    if CLEAR_USER <= pc && (pc > CLEAR_USER ==> WholeGranulesClear(s.shadow, ch.user, ch.size)) {
      RemIsMod(ch.user, 8);
      if pc == CLEAR_USER {
        ClearUser(s.shadow, s.on, b, bk.size, ch.user, ch.size, wide, part);
      } else if pc == PUT_PARTIAL {
        PartialKeeps(s.shadow, s.on, b, bk.size, ch.user, ch.size, wide, part);
      }
    }
  }

  lemma AllocStoryLast(s: State, t: nat)
    requires Allocates(s, t) && AllocBounds(s, t)
    requires PublishesNow(s.threads[t].pc, s.threads[t].b, s.threads[t].ch)
    ensures BlockShape(ApplyAlloc(s, t), s.threads[t].b) && BlockOk(ApplyAlloc(s, t), s.threads[t].b)
  {
    var task, s' := s.threads[t], ApplyAlloc(s, t);
    var m' := AllocMem(s.mem, task.pc, task.b, task.ch, task.fill, s.flags);
    WriteField(s.mem, task.b, s.blocks[task.b], task.ch, task.pc, task.fill, s.flags);
    WrittenSize(m', task.b, s.blocks[task.b], task.ch);
    if task.pc == PUT_MAGIC {
      LoadStore8(s.mem, task.b, MAGIC);
      LoadFrame(s.mem, m', task.b + 8, 8);
    }
    FrameLive(s, s', task.b, s.blocks[task.b], task.ch);
  }

  lemma AllocStoryNext(s: State, t: nat)
    requires Allocates(s, t) && AllocBounds(s, t)
    requires !PublishesNow(s.threads[t].pc, s.threads[t].b, s.threads[t].ch)
    ensures BlockShape(ApplyAlloc(s, t), s.threads[t].b) && BlockOk(ApplyAlloc(s, t), s.threads[t].b)
  {
    var task, s' := s.threads[t], ApplyAlloc(s, t);
    AllocBytesNext(s.mem, task.b, s.blocks[task.b], task.ch, task.pc, task.fill, s.flags);
    if task.pc < PUT_PARTIAL {
      AllocShadowNext(s, s', task.b, s.blocks[task.b], task.ch, task.pc, task.guess, task.wide, task.part);
    } else if task.pc == PUT_PARTIAL {
      RemIsMod(task.ch.user, 8);
      PartialKeeps(s.shadow, s.on, task.b, s.blocks[task.b].size, task.ch.user, task.ch.size, task.wide, task.part);
      if OnFor(s, task.b) && task.ch.id !in s.lost {
        PartialExact(s.shadow, s.on, task.b, s.blocks[task.b].size, task.ch.user, task.ch.size, task.wide, task.part);
      }
    }
  }

  lemma AllocKeeps(s: State, t: nat, keep: bool)
    requires Inv(s) && t in s.threads && s.threads[t].AllocTask?
    ensures Safe(s, Run(t, keep)) && Inv(Apply(s, Run(t, keep)))
  {
    AllocTaskStory(s, t);
    AllocSafe(s, t, keep);
    AllocLocal(s, t);
    if PublishesNow(s.threads[t].pc, s.threads[t].b, s.threads[t].ch) {
      AllocStoryLast(s, t);
    } else {
      AllocStoryNext(s, t);
    }
    OwnBlockQuarantine(s, ApplyAlloc(s, t), s.threads[t].b);
    LocalStepKeeps(s, ApplyAlloc(s, t), t, s.threads[t].b);
  }
}
