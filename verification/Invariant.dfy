/** What every reachable state satisfies: bytes, shadow, block table and threads tell one story. */
module Invariant {
  import opened Words
  import opened Layout
  import opened Memory
  import opened Chunks
  import opened Machine

  ghost predicate BlockShape(s: State, b: nat)
    requires b in s.blocks
  {
    var bk := s.blocks[b];
    && 0 < b && Multiple(b, 16) && Multiple(bk.size, 8) && LARGE_HEADER <= bk.size
    && bk.lead <= b && Multiple(bk.lead, 8) && b + bk.size <= |s.mem|
  }

  /** The static shape of memory and the block table. */
  ghost predicate Shape(s: State) {
    && |s.mem| == 8 * |s.shadow| && |s.mem| <= SPACE
    && CheckRedzones(s.rz) && s.flags.tag < 4
    && s.abs.Keys == s.blocks.Keys && s.free <= s.blocks.Keys && s.stale <= s.blocks.Keys
    && (forall b :: b in s.blocks ==> BlockShape(s, b))
    && (forall b, b' :: b in s.blocks && b' in s.blocks && b != b' ==> BlocksApart(s.blocks, b, b'))
  }

  predicate BlocksApart(blocks: map<nat, Block>, b: nat, b': nat)
    requires b in blocks && b' in blocks
  {
    b + blocks[b].size <= b' - blocks[b'].lead || b' + blocks[b'].size <= b - blocks[b].lead
  }

  // ---------------------------------------------------------- shadow by state

  /** A free block whose first shadow byte is set is poisoned throughout: line 617 relies on it. */
  ghost predicate FreeShadow(sh: Shadow, b: nat, size: nat) {
    forall g :: 0 <= g < |sh| && 8 * g == b && sh[g] != 0 ==> AllPoisoned(sh, b, b + size)
  }

  /** Poisoning is on, and the block at b needs no re-poisoning. */
  predicate OnFor(s: State, b: nat) {
    s.on && b !in s.stale
  }

  /**
   A live chunk. With poisoning on the block's shadow is exact; with poisoning off, or while the block
   waits to be re-poisoned, its whole user granules are clear. Of a chunk lost in a re-activation
   only the redzones are known.
   */
  ghost predicate LiveShadow(s: State, b: nat, bk: Block, ch: Chunk) {
    || (if OnFor(s, b) then ExactShadow(s.shadow, b, b + bk.size, ch.user, ch.size)
        else WholeGranulesClear(s.shadow, ch.user, ch.size))
    || (ch.id in s.lost && (OnFor(s, b) ==> OutsidePoisoned(s.shadow, b, b + bk.size, ch.user, ch.size)))
  }

  // ------------------------------------------------------------ tasks in flight

  /** The fields written so far, as far as memory is concerned. */
  ghost predicate Written(m: Mem, b: nat, bk: Block, ch: Chunk, pc: nat)
    requires Fits(b, bk, ch) && b + bk.size <= |m|
  {
    var c := Hdr(ch);
    && (pc > PUT_KIND ==> KindOf(m[c + 1]) == ch.kind)
    && (pc > PUT_SIZE_LO ==> Load(m, c + 4, 4) == ch.size % U32)
    && (pc > PUT_SIZE_HI ==> Load(m, c + 2, 2) == ch.size / U32)
    && (pc > PUT_ALIGN ==> AlignOf(m[c + 1]) == ch.alignLog)
    && (pc > PUT_CONTEXT ==> Load(m, c + 8, 8) == Pack(ch.tid, ch.stack))
  }

  /** The fields `Allocate` has written so far; nothing is visible from the block start yet. */
  ghost predicate AllocBytes(m: Mem, b: nat, bk: Block, ch: Chunk, pc: nat)
    requires Fits(b, bk, ch) && b + bk.size <= |m|
  {
    var c := Hdr(ch);
    && pc <= PUT_MAGIC
    && m[b] == CHUNK_INVALID
    && Written(m, b, bk, ch, pc)
    && (pc > PUT_STATE ==> m[c] == CHUNK_ALLOCATED && c != b)
    && (pc > PUT_BACK_LINK ==> Load(m, b + 8, 8) == c)
  }

  /** What `Allocate` knows of the shadow before its first write to it, and between the two redzones. */
  ghost predicate RedzonesOk(sh: Shadow, b: nat, bk: Block, ch: Chunk, pc: nat, wide: bool) {
    && (pc <= TEST_FIRST && bk.primary ==> FreeShadow(sh, b, bk.size))
    && (pc in {PUT_LEFT, PUT_RIGHT} && !wide ==> AllPoisoned(sh, b, b + bk.size))
    && (pc == PUT_RIGHT && wide ==> AllPoisoned(sh, b, ch.user))
    && (pc >= CLEAR_USER ==> OutsidePoisoned(sh, b, b + bk.size, ch.user, ch.size))
  }

  /** The shadow `Allocate` has set up so far. */
  ghost predicate AllocShadowOk(s: State, b: nat, bk: Block, ch: Chunk, pc: nat, wide: bool, part: bool) {
    && (part ==> ch.size % 8 != 0)
    && (OnFor(s, b) && pc <= PUT_PARTIAL ==> RedzonesOk(s.shadow, b, bk, ch, pc, wide))
    && (pc in {TEST_MODE, PUT_PARTIAL} ==> ch.id in s.lost || WholeGranulesClear(s.shadow, ch.user, ch.size))
    && (pc == PUT_PARTIAL && OnFor(s, b) ==> ch.id in s.lost || (part <==> ch.size % 8 != 0))
    && (pc > PUT_PARTIAL ==> LiveShadow(s, b, bk, ch))
  }

  ghost predicate AllocOk(s: State, b: nat, bk: Block, ch: Chunk, pc: nat, guess: bool, wide: bool, part: bool)
    requires Fits(b, bk, ch) && b + bk.size <= |s.mem|
  {
    guess == bk.primary && AllocBytes(s.mem, b, bk, ch, pc) && AllocShadowOk(s, b, bk, ch, pc, wide, part)
  }

  /** The free context while a free is under way: of no thread at first, then of the one that frees. */
  function FreeContext(pc: nat, t: nat, stack: nat): nat {
    if pc <= PUT_FREE_CONTEXT then Pack(INVALID_TID, 0) else Pack(t, stack)
  }

  ghost predicate FreeOk(s: State, t: nat, b: nat, bk: Block, ch: Chunk, pc: nat, stack: nat)
    requires Fits(b, bk, ch) && b + bk.size <= |s.mem|
  {
    && pc <= ENQUEUE && t < U32 && stack < U32
    && Published(s.mem, b, bk, ch, CHUNK_QUARANTINE)
    && (pc > CLEAR_CONTEXT ==> Load(s.mem, ch.user, 8) == FreeContext(pc, t, stack))
    && (OnFor(s, b) && pc <= POISON_FREED ==> OutsidePoisoned(s.shadow, b, b + bk.size, ch.user, ch.size))
    && (OnFor(s, b) && pc > POISON_FREED ==> AllPoisoned(s.shadow, b, b + bk.size))
  }

  ghost predicate RecycleOk(s: State, b: nat, bk: Block, ch: Chunk, pc: nat)
    requires Fits(b, bk, ch) && b + bk.size <= |s.mem|
  {
    && pc <= RETURN_BLOCK
    && HeaderOk(s.mem, ch)
    && (pc <= CLEAR_STATE || !bk.primary ==> s.mem[Hdr(ch)] == CHUNK_QUARANTINE)
    && (pc <= CLEAR_MAGIC || !bk.primary ==> (Hdr(ch) != b ==> LargeHeaderGet(s.mem, b) == Some(Hdr(ch))))
    && (pc > CLEAR_MAGIC && bk.primary && Hdr(ch) != b ==> s.mem[b] == CHUNK_INVALID)
    && (pc > CLEAR_STATE && bk.primary ==> s.mem[b] == CHUNK_INVALID && s.mem[Hdr(ch)] == CHUNK_INVALID)
    && (OnFor(s, b) ==> OutsidePoisoned(s.shadow, b, b + bk.size, ch.user, ch.size))
    && (OnFor(s, b) && bk.primary && pc > POISON_RECYCLED ==> AllPoisoned(s.shadow, b, b + bk.size))
  }

  ghost predicate TaskOk(s: State, t: nat, b: nat, bk: Block, ch: Chunk, task: Task)
    requires Fits(b, bk, ch) && b + bk.size <= |s.mem|
  {
    && task.b == b
    && match task
       case AllocTask(pc, _, ch', guess, _, wide, part) => ch' == ch && AllocOk(s, b, bk, ch, pc, guess, wide, part)
       case FreeTask(pc, m, _, stack) => m == Hdr(ch) && FreeOk(s, t, b, bk, ch, pc, stack)
       case RecycleTask(pc, m, _) => m == Hdr(ch) && RecycleOk(s, b, bk, ch, pc)
  }

  /** The story of one block. */
  ghost predicate BlockOk(s: State, b: nat)
    requires b in s.blocks && b in s.abs && BlockShape(s, b)
  {
    var bk := s.blocks[b];
    var story :=
      match s.abs[b]
      case AFree =>
        b in s.free && bk.primary && s.mem[b] == CHUNK_INVALID && (OnFor(s, b) ==> FreeShadow(s.shadow, b, bk.size))
      case ALive(ch) =>
        b !in s.free && Fits(b, bk, ch) && Published(s.mem, b, bk, ch, CHUNK_ALLOCATED) && LiveShadow(s, b, bk, ch)
      case AQuar(ch, context) =>
        && b !in s.free && Fits(b, bk, ch) && Published(s.mem, b, bk, ch, CHUNK_QUARANTINE)
        && Load(s.mem, ch.user, 8) == context
        && s.quarantine[Hdr(ch)] == 1
        && (OnFor(s, b) ==> AllPoisoned(s.shadow, b, b + bk.size))
      case ABusy(t, ch) =>
        b !in s.free && Fits(b, bk, ch) && t in s.threads && TaskOk(s, t, b, bk, ch, s.threads[t]);
    story
  }

  ghost predicate BlocksOk(s: State)
    requires Shape(s)
  {
    forall b :: b in s.blocks ==> BlockOk(s, b)
  }

  ghost predicate ThreadOwners(s: State) {
    forall t :: t in s.threads ==> s.threads[t].b in s.abs && s.abs[s.threads[t].b].ABusy? && s.abs[s.threads[t].b].t == t
  }

  ghost predicate QuarantineOwners(s: State) {
    forall m :: m in s.quarantine ==> exists b: nat :: QuarAt(s, b, m)
  }

  /** Every thread in flight works on a block of its own; every quarantined pointer is a chunk. */
  ghost predicate Owners(s: State) {
    ThreadOwners(s) && QuarantineOwners(s)
  }

  ghost predicate QuarAt(s: State, b: nat, m: nat) {
    b in s.abs && s.abs[b].AQuar? && Hdr(s.abs[b].ch) == m
  }

  ghost predicate Uncovered(blocks: map<nat, Block>, a: int) {
    forall b :: b in blocks ==> !(b - blocks[b].lead <= a < b + blocks[b].size)
  }

  /** Mapped memory that waits to be carved: zero, outside every block, poisoned as its mode says. */
  ghost predicate SpareOk(s: State, g: nat) {
    && g in s.spare && g < |s.shadow| && 8 * g < |s.mem| && s.mem[8 * g] == 0 && Uncovered(s.blocks, 8 * g)
    && (if s.spare[g] then Poison(s.shadow[g]) else s.shadow[g] == 0)
  }

  /** ... and where nothing is mapped the shadow is clear. */
  ghost predicate Uncarved(s: State) {
    && (forall g :: g in s.spare ==> SpareOk(s, g))
    && (forall g: nat :: g < |s.shadow| && g !in s.spare && Uncovered(s.blocks, 8 * g) ==> s.shadow[g] == 0)
  }

  ghost predicate Inv(s: State) {
    Shape(s) && BlocksOk(s) && Owners(s) && Uncarved(s)
  }

  // --------------------------------------------------------------------- frame

  /** What the story of block b depends on is the same in both states. */
  ghost predicate SameFor(s: State, s': State, b: nat)
    requires b in s.blocks && b in s.abs
  {
    && b in s'.blocks && s'.blocks[b] == s.blocks[b]
    && b in s'.abs && s'.abs[b] == s.abs[b]
    && (OnFor(s', b) <==> OnFor(s, b)) && s.lost <= s'.lost && (b in s.free <==> b in s'.free)
    && SameBytes(s.mem, s'.mem, b, b + s.blocks[b].size)
    && SameShadow(s.shadow, s'.shadow, b, b + s.blocks[b].size)
    && (s.abs[b].ABusy? && s.abs[b].t in s.threads ==> s.abs[b].t in s'.threads && s'.threads[s.abs[b].t] == s.threads[s.abs[b].t])
    && (s.abs[b].AQuar? ==> forall m :: m == Hdr(s.abs[b].ch) && m >= 0 ==> s'.quarantine[m] == s.quarantine[m])
  }

  lemma FrameFree(sh: Shadow, sh': Shadow, b: nat, size: nat)
    requires SameShadow(sh, sh', b, b + size) && size > 0
    ensures FreeShadow(sh, b, size) ==> FreeShadow(sh', b, size)
  {
  }

  /** What has been lost stays excused. */
  ghost predicate SameMode(s: State, s': State, b: nat, size: nat) {
    SameShadow(s.shadow, s'.shadow, b, b + size) && (OnFor(s', b) <==> OnFor(s, b)) && s.lost <= s'.lost
  }

  lemma FrameLive(s: State, s': State, b: nat, bk: Block, ch: Chunk)
    requires SameMode(s, s', b, bk.size) && Fits(b, bk, ch) && LiveShadow(s, b, bk, ch)
    ensures LiveShadow(s', b, bk, ch)
  {
  }

  /** A write outside header bytes 1..15 keeps what was written. */
  lemma WrittenFrame(m: Mem, m': Mem, b: nat, bk: Block, ch: Chunk, pc: nat)
    requires Fits(b, bk, ch) && b + bk.size <= |m|
    requires Written(m, b, bk, ch, pc) && SameBytes(m, m', Hdr(ch) + 1, ch.user)
    ensures Written(m', b, bk, ch, pc)
  {
    var c := Hdr(ch);
    LoadFrame(m, m', c + 4, 4);
    LoadFrame(m, m', c + 2, 2);
    LoadFrame(m, m', c + 8, 8);
  }

  lemma FrameAllocShadow(s: State, s': State, b: nat, bk: Block, ch: Chunk, pc: nat, wide: bool, part: bool)
    requires SameMode(s, s', b, bk.size) && Fits(b, bk, ch) && bk.size > 0 && AllocShadowOk(s, b, bk, ch, pc, wide, part)
    ensures AllocShadowOk(s', b, bk, ch, pc, wide, part)
  {
    if pc > PUT_PARTIAL {
      FrameLive(s, s', b, bk, ch);
    } else if OnFor(s, b) {
      FrameFree(s.shadow, s'.shadow, b, bk.size);
    }
  }

  lemma FrameAllocBytes(m: Mem, m': Mem, b: nat, bk: Block, ch: Chunk, pc: nat)
    requires Fits(b, bk, ch) && b + bk.size <= |m| && bk.size > 0 && SameBytes(m, m', b, b + bk.size)
    requires AllocBytes(m, b, bk, ch, pc)
    ensures AllocBytes(m', b, bk, ch, pc)
  {
    WrittenFrame(m, m', b, bk, ch, pc);
    LoadFrame(m, m', b + 8, 8);
  }

  lemma FrameRecycle(s: State, s': State, b: nat, bk: Block, ch: Chunk, pc: nat)
    requires Fits(b, bk, ch) && b + bk.size <= |s.mem| && bk.size >= LARGE_HEADER
    requires SameBytes(s.mem, s'.mem, b, b + bk.size)
    requires SameMode(s, s', b, bk.size)
    requires RecycleOk(s, b, bk, ch, pc)
    ensures RecycleOk(s', b, bk, ch, pc)
  {
    HeaderFrame(s.mem, s'.mem, ch);
    LoadFrame(s.mem, s'.mem, b, 8);
    LoadFrame(s.mem, s'.mem, b + 8, 8);
  }

  /** A block's story survives any step that leaves its bytes, shadow and owner alone. */
  lemma Frame(s: State, s': State, b: nat)
    requires b in s.blocks && b in s.abs && BlockShape(s, b) && BlockOk(s, b)
    requires SameFor(s, s', b)
    ensures BlockShape(s', b) && BlockOk(s', b)
  {
    var bk := s.blocks[b];
    match s.abs[b]
    case AFree =>
      FrameFree(s.shadow, s'.shadow, b, bk.size);
    case ALive(ch) =>
      PublishedFrame(s.mem, s'.mem, b, bk, ch, CHUNK_ALLOCATED);
      FrameLive(s, s', b, bk, ch);
    case AQuar(ch, context) =>
      PublishedFrame(s.mem, s'.mem, b, bk, ch, CHUNK_QUARANTINE);
      LoadFrame(s.mem, s'.mem, ch.user, 8);
    case ABusy(t, ch) =>
      match s.threads[t]
      case AllocTask(pc, _, _, _, _, wide, part) =>
        FrameAllocBytes(s.mem, s'.mem, b, bk, ch, pc);
        FrameAllocShadow(s, s', b, bk, ch, pc, wide, part);
      case FreeTask(pc, _, _, _) =>
        PublishedFrame(s.mem, s'.mem, b, bk, ch, CHUNK_QUARANTINE);
        LoadFrame(s.mem, s'.mem, ch.user, 8);
      case RecycleTask(pc, _, _) =>
        FrameRecycle(s, s', b, bk, ch, pc);
  }

  // ------------------------------------------------------ steps on one block

  /** Memory and shadow are the same outside [lo, hi). */
  ghost predicate Untouched(s: State, s': State, lo: int, hi: int) {
    && |s'.mem| == |s.mem| && |s'.shadow| == |s.shadow|
    && (forall i :: 0 <= i < |s.mem| && !(lo <= i < hi) ==> s'.mem[i] == s.mem[i])
    && (forall g :: 0 <= g < |s.shadow| && !(lo <= 8 * g < hi) ==> s'.shadow[g] == s.shadow[g])
  }

  lemma ApartSame(s: State, s': State, lo: int, hi: int, b: nat, size: nat)
    requires Untouched(s, s', lo, hi)
    requires b + size <= lo || hi <= b
    ensures SameBytes(s.mem, s'.mem, b, b + size) && SameShadow(s.shadow, s'.shadow, b, b + size)
  {
  }

  /** Thread t changes nothing but its own task and the block at b. */
  ghost predicate LocalStep(s: State, s': State, t: nat, b: nat) {
    && s'.on == s.on && s'.rz == s.rz && s'.flags == s.flags && s'.blocks == s.blocks
    && s'.spare == s.spare && s'.stale == s.stale && s'.lost == s.lost
    && b in s.blocks && b in s'.abs && s'.abs == s.abs[b := s'.abs[b]]
    && Untouched(s, s', b, b + s.blocks[b].size)
    && (forall t' :: t' != t ==> (t' in s'.threads <==> t' in s.threads) && (t' in s.threads ==> s'.threads[t'] == s.threads[t']))
    && (forall b' :: b' != b ==> (b' in s'.free <==> b' in s.free))
    && (forall m :: !(b <= m < b + s.blocks[b].size) ==> s'.quarantine[m] == s.quarantine[m])
  }

  /** The thread or pointer a block's story refers to refers back to that block. */
  ghost predicate Anchored(s: State, b: nat)
    requires b in s.blocks && b in s.abs
  {
    && (s.abs[b].ABusy? ==> s.abs[b].t in s.threads && s.threads[s.abs[b].t].b == b)
    && (s.abs[b].AQuar? ==> b <= Hdr(s.abs[b].ch) < b + s.blocks[b].size)
  }

  lemma InvAnchors(s: State, b: nat)
    requires Inv(s) && b in s.blocks
    ensures Anchored(s, b)
  {
    assert BlockOk(s, b);
  }

  /** Such a step keeps every other block's story. */
  lemma LocalStepSame(s: State, s': State, t: nat, b: nat, b': nat)
    requires LocalStep(s, s', t, b)
    requires t in s.threads ==> s.threads[t].b == b
    requires b' in s.blocks && b' != b && b' in s.abs && BlocksApart(s.blocks, b, b') && Anchored(s, b')
    ensures SameFor(s, s', b')
  {
    ApartSame(s, s', b, b + s.blocks[b].size, b', s.blocks[b'].size);
  }

  lemma LocalStepQuarantine(s: State, s': State, t: nat, b: nat, m: nat)
    requires Inv(s) && LocalStep(s, s', t, b)
    requires m in s'.quarantine && !(b <= m < b + s.blocks[b].size)
    ensures exists b1: nat :: QuarAt(s', b1, m)
  {
    assert m in s.quarantine;
    var b1: nat :| QuarAt(s, b1, m);
    InvAnchors(s, b1);
    assert QuarAt(s', b1, m);
  }

  /** Changes inside a block do not reach memory that is not in any block. */
  lemma UncarvedSame(s: State, s': State, b: nat)
    requires Uncarved(s) && b in s.blocks && s'.blocks == s.blocks && s'.spare == s.spare
    requires Untouched(s, s', b, b + s.blocks[b].size)
    ensures Uncarved(s')
  {
    forall g | g in s'.spare
      ensures SpareOk(s', g)
    {
      assert SpareOk(s, g);
    }
  }

  lemma LocalStepBlock(s: State, s': State, t: nat, b: nat, b': nat)
    requires Inv(s) && LocalStep(s, s', t, b)
    requires t in s.threads ==> s.threads[t].b == b
    requires b' in s.blocks && b' != b
    ensures BlockShape(s', b') && BlockOk(s', b')
  {
    InvAnchors(s, b');
    assert BlocksApart(s.blocks, b, b');
    LocalStepSame(s, s', t, b, b');
    Frame(s, s', b');
  }

  lemma LocalStepShape(s: State, s': State, t: nat, b: nat)
    requires Shape(s) && LocalStep(s, s', t, b) && BlockShape(s', b) && s'.free <= s.blocks.Keys
    ensures Shape(s')
  {
    assert s'.abs.Keys == s.abs.Keys;
    forall b' | b' in s'.blocks
      ensures BlockShape(s', b')
    {
      assert BlockShape(s, b');
    }
    forall b1, b2 | b1 in s'.blocks && b2 in s'.blocks && b1 != b2
      ensures BlocksApart(s'.blocks, b1, b2)
    {
      assert BlocksApart(s.blocks, b1, b2);
    }
  }

  lemma LocalStepOwners(s: State, s': State, t: nat, b: nat)
    requires Inv(s) && LocalStep(s, s', t, b)
    requires s.abs[b].ABusy? ==> s.abs[b].t == t
    requires t in s'.threads ==> s'.threads[t].b == b && s'.abs[b].ABusy? && s'.abs[b].t == t
    requires forall m :: m in s'.quarantine && b <= m < b + s.blocks[b].size ==> QuarAt(s', b, m)
    ensures Owners(s')
  {
    forall t' | t' in s'.threads && t' != t
      ensures var b' := s'.threads[t'].b; b' in s'.abs && s'.abs[b'].ABusy? && s'.abs[b'].t == t'
    {
      assert t' in s.threads && s'.threads[t'] == s.threads[t'];
      assert s.threads[t'].b != b;
    }
    forall m | m in s'.quarantine
      ensures exists b1: nat :: QuarAt(s', b1, m)
    {
      if !(b <= m < b + s.blocks[b].size) {
        LocalStepQuarantine(s, s', t, b, m);
      }
    }
  }

  /** So it keeps the invariant as soon as the block's own new story is right. */
  lemma LocalStepKeeps(s: State, s': State, t: nat, b: nat)
    requires Inv(s) && LocalStep(s, s', t, b)
    requires t in s.threads ==> s.threads[t].b == b
    requires s.abs[b].ABusy? ==> s.abs[b].t == t
    requires t in s'.threads ==> s'.threads[t].b == b && s'.abs[b].ABusy? && s'.abs[b].t == t
    requires forall m :: m in s'.quarantine && b <= m < b + s.blocks[b].size ==> QuarAt(s', b, m)
    requires s'.free <= s.blocks.Keys
    requires BlockShape(s', b) && BlockOk(s', b)
    ensures Inv(s')
  {
    LocalStepOwners(s, s', t, b);
    UncarvedSame(s, s', b);
    LocalStepShape(s, s', t, b);
    forall b' | b' in s'.blocks
      ensures BlockOk(s', b')
    {
      if b' != b {
        LocalStepBlock(s, s', t, b, b');
      }
    }
  }

  /** A busy block holds no quarantined pointer. */
  lemma OwnBlockQuarantine(s: State, s': State, b: nat)
    requires Inv(s) && b in s.blocks && !s.abs[b].AQuar? && s'.quarantine == s.quarantine
    ensures forall m :: m in s'.quarantine ==> !(b <= m < b + s.blocks[b].size)
  {
    forall m | m in s.quarantine
      ensures !(b <= m < b + s.blocks[b].size)
    {
      var b1: nat :| QuarAt(s, b1, m);
      assert BlockOk(s, b1) && BlocksApart(s.blocks, b, b1);
    }
  }

  /** An address lies in at most one block. */
  lemma BlockBeginIs(s: State, b: nat, a: int)
    requires Shape(s) && InBlock(s.blocks, b, a)
    ensures GetBlockBegin(s.blocks, a) == Some(b)
  {
    var r := GetBlockBegin(s.blocks, a);
    assert r.Some? && (r.value != b ==> BlocksApart(s.blocks, b, r.value));
  }

  lemma ShapeInMemory(s: State)
    requires Shape(s)
    ensures BlocksInMemory(s)
  {
    forall b | b in s.blocks
      ensures LARGE_HEADER <= s.blocks[b].size && b + s.blocks[b].size <= |s.mem|
    {
      assert BlockShape(s, b);
    }
  }

  /** Owners only depend on threads, quarantine and the abstract map. */
  lemma OwnersSame(s: State, s': State)
    requires Owners(s) && s'.threads == s.threads && s'.quarantine == s.quarantine && s'.abs == s.abs
    ensures Owners(s')
  {
    forall m | m in s'.quarantine
      ensures exists b: nat :: QuarAt(s', b, m)
    {
      var b: nat :| QuarAt(s, b, m);
      assert QuarAt(s', b, m);
    }
  }

  /** The header of a chunk lies in the chunk's block. */
  lemma HeaderBlock(s: State, b: nat)
    requires Inv(s) && b in s.blocks && !s.abs[b].AFree?
    ensures BlockOk(s, b) && Fits(b, s.blocks[b], s.abs[b].ch)
    ensures GetBlockBegin(s.blocks, Hdr(s.abs[b].ch)) == Some(b)
  {
    assert BlockOk(s, b);
    BlockBeginIs(s, b, Hdr(s.abs[b].ch));
  }

  // ---------------------------------------------------------- granule arithmetic

  lemma RoundUp8Fits(u: nat, n: nat, end: nat)
    requires u % 8 == 0 && end % 8 == 0 && u + n <= end
    ensures u + RoundUp8(n) <= end && (u + RoundUp8(n)) % 8 == 0
  {
  }

  lemma SixteenfoldIsEightfold(b: nat)
    requires Multiple(b, 16)
    ensures b % 8 == 0 && Multiple(b, 8)
  {
    RemIsMod(b, 16);
    SixteenIsEight(b);
    RemIsMod(b, 8);
  }

  lemma EightfoldSum(a: nat, b: nat)
    requires Multiple(a, 8) && Multiple(b, 8)
    ensures (a + b) % 8 == 0 && Multiple(a + b, 8)
  {
    RemIsMod(a, 8);
    RemIsMod(b, 8);
    SumOfEights(a, b);
    RemIsMod(a + b, 8);
  }

  /** The user memory of a chunk, rounded up to whole granules, stays in its block. */
  lemma UserGranules(b: nat, bk: Block, ch: Chunk)
    requires Fits(b, bk, ch) && Multiple(b, 16) && Multiple(bk.size, 8)
    ensures ch.user + RoundUp8(ch.size) <= b + bk.size
    ensures Granular(ch.user, ch.user + RoundUp8(ch.size))
    ensures Granular(b, b + bk.size)
  {
    SixteenfoldIsEightfold(b);
    EightfoldSum(b, bk.size);
    RemIsMod(ch.user, 8);
    RemIsMod((b + bk.size), 8);
    RoundUp8Fits(ch.user, ch.size, (b + bk.size));
    RemIsMod(ch.user + RoundUp8(ch.size), 8);
  }

  lemma LiveIsOutside(s: State, b: nat, bk: Block, ch: Chunk)
    requires OnFor(s, b) && LiveShadow(s, b, bk, ch)
    ensures OutsidePoisoned(s.shadow, b, b + bk.size, ch.user, ch.size)
  {
  }

  /** Poisoning the user granules completes a block whose redzones are poisoned. */
  lemma PoisonCompletes(sh: Shadow, b: nat, size: nat, u: nat, n: nat, v: Byte)
    requires OutsidePoisoned(sh, b, b + size, u, n)
    requires u + RoundUp8(n) <= b + size <= 8 * |sh| && Poison(v)
    ensures AllPoisoned(PoisonShadow(sh, true, u, u + RoundUp8(n), v), b, b + size)
  {
  }
}
