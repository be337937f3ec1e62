/**
 The allocator object: `Allocate`, `Deallocate`, `Recycle`, `Reallocate` and `ReInitialize` as they
 update memory, shadow and counters in place. Each is an uninterrupted run of the machine's steps,
 so everything proved about the machine's states holds between calls.
 */
module AsanAllocator {
  import opened Words
  import opened Layout
  import opened Memory
  import opened Chunks
  import opened Machine
  import opened Invariant
  import opened Runs
  import opened Uninterrupted
  import opened FreeProtocol
  import opened Outcomes
  import opened Promises
  import opened Sweep
  import opened Attribution
  import Freeing
  import Recycling

  const FROM_MALLOC: nat := 1

  class Allocator {
    var mem: Mem
    var shadow: Shadow
    var canPoison: bool
    var redzones: Redzones
    var maxUser: u64
    var flags: Flags
    var blocks: map<nat, Block>
    var free: set<nat>
    var spare: map<nat, bool>
    var quarantine: multiset<nat>
    var stats: map<nat, Stats>
    /** Other threads may be stopped inside an operation while this one runs. */
    ghost var threads: map<nat, Task>
    ghost var abs: map<nat, Abs>
    ghost var nextId: nat
    ghost var won: multiset<nat>
    /** What a re-activation has still to visit, and what re-activations lost. */
    ghost var stale: set<nat>
    ghost var lost: set<nat>

    constructor (granules: nat, canPoison: bool, redzones: Redzones, maxUser: u64, flags: Flags)
      requires 8 * granules <= SPACE && CheckRedzones(redzones) && flags.tag < 4
      ensures Init(St()) && Inv(St()) && this.canPoison == canPoison && this.redzones == redzones && this.maxUser == maxUser
    {
      this.mem, this.shadow := seq(8 * granules, _ => 0), seq(granules, _ => 0);
      this.canPoison, this.redzones, this.maxUser, this.flags := canPoison, redzones, maxUser, flags;
      blocks, free, spare, quarantine, stats := map[], {}, map[], multiset{}, map[];
      threads, abs, nextId, won, stale, lost := map[], map[], 0, multiset{}, {}, {};
    }

    ghost function St(): State
      reads this
    {
      State(mem, shadow, canPoison, redzones, maxUser, flags, blocks, free, spare, stale,
            threads, quarantine, stats, abs, nextId, won, lost)
    }

    /** The underlying allocator's `GetBlockBegin`. */
    method BlockBegin(a: int) returns (r: Option<nat>)
      requires Shape(St())
      ensures r == GetBlockBegin(blocks, a)
    {
      var rest := blocks.Keys;
      r := None;
      while rest != {}
        invariant rest <= blocks.Keys
        invariant r.None? && forall b: nat :: b in blocks && b !in rest ==> !InBlock(blocks, b, a)
        decreases |rest|
      {
        var b :| b in rest;
        if InBlock(blocks, b, a) {
          BlockBeginIs(St(), b, a);
          r := Some(b);
          return;
        }
        rest := rest - {b};
      }
    }

    /** Kind, size, alignment log and allocation context: lines 608-615. */
    method WriteHeader(ghost b: nat, ghost ch: Chunk, c: nat, size: nat, alignLog: nat, kind: nat, tid: nat, stack: nat, ghost fill: nat)
      requires Planned(b, ch) && c == Hdr(ch) && size == ch.size && alignLog == ch.alignLog && kind == ch.kind
      requires tid == ch.tid && stack == ch.stack
      modifies this`mem
      ensures |mem| == |old(mem)|
      ensures AllocMemFrom(old(mem), PUT_KIND, b, ch, fill, flags) == AllocMemFrom(mem, TEST_FIRST, b, ch, fill, flags)
    {
      SetKind(b, ch, c, kind, fill);
      SetUsedSize(b, ch, c, size, fill);
      SetContext(b, ch, c, alignLog, tid, stack, fill);
    }

    method SetKind(ghost b: nat, ghost ch: Chunk, c: nat, kind: nat, ghost fill: nat)
      requires Planned(b, ch) && c == Hdr(ch) && kind == ch.kind
      modifies this`mem
      ensures |mem| == |old(mem)|
      ensures AllocMemFrom(old(mem), PUT_KIND, b, ch, fill, flags) == AllocMemFrom(mem, PUT_SIZE_LO, b, ch, fill, flags)
    {
      ghost var was := mem;
      mem := mem[c + 1 := PutKind(mem[c + 1], kind)];
      AllocMemMoves(was, mem, PUT_KIND, PUT_SIZE_LO, b, ch, fill, flags);
    }

    /** `SetUsedSize`. */
    method SetUsedSize(ghost b: nat, ghost ch: Chunk, c: nat, size: nat, ghost fill: nat)
      requires Planned(b, ch) && c == Hdr(ch) && size == ch.size
      modifies this`mem
      ensures |mem| == |old(mem)|
      ensures AllocMemFrom(old(mem), PUT_SIZE_LO, b, ch, fill, flags) == AllocMemFrom(mem, PUT_ALIGN, b, ch, fill, flags)
    {
      ghost var was := mem;
      mem := PutSizeLo(mem, c, size);
      AllocMemMoves(was, mem, PUT_SIZE_LO, PUT_SIZE_HI, b, ch, fill, flags);
      was := mem;
      mem := PutSizeHi(mem, c, size);
      AllocMemMoves(was, mem, PUT_SIZE_HI, PUT_ALIGN, b, ch, fill, flags);
    }

    /** The alignment log and `SetAllocContext`. */
    method SetContext(ghost b: nat, ghost ch: Chunk, c: nat, alignLog: nat, tid: nat, stack: nat, ghost fill: nat)
      requires Planned(b, ch) && c == Hdr(ch) && alignLog == ch.alignLog && tid == ch.tid && stack == ch.stack
      modifies this`mem
      ensures |mem| == |old(mem)|
      ensures AllocMemFrom(old(mem), PUT_ALIGN, b, ch, fill, flags) == AllocMemFrom(mem, TEST_FIRST, b, ch, fill, flags)
    {
      ghost var was := mem;
      mem := mem[c + 1 := PutAlign(mem[c + 1], alignLog)];
      AllocMemMoves(was, mem, PUT_ALIGN, PUT_CONTEXT, b, ch, fill, flags);
      was := mem;
      mem := Store(mem, c + 8, 8, Pack(tid, stack));
      AllocMemMoves(was, mem, PUT_CONTEXT, TEST_FIRST, b, ch, fill, flags);
    }

    ghost predicate Planned(b: nat, ch: Chunk)
      reads this
    {
      && b + LARGE_HEADER <= |mem| && 0 <= Hdr(ch) && ch.user + ch.size <= |mem|
      && ch.kind < 4 && ch.alignLog < 8 && flags.tag < 4
    }

    /** Lines 649-663: fill, leak tag, state byte, and the large header when there is room for it. */
    method Publish(b: nat, ghost ch: Chunk, c: nat, size: nat, fill: nat)
      requires Planned(b, ch) && c == Hdr(ch) && size == ch.size
      modifies this`mem
      ensures mem == AllocMemFrom(old(mem), TEST_FIRST, b, ch, fill, flags)
    {
      AllocMemSkips(mem, TEST_FIRST, b, ch, fill, flags);
      FillAndTag(b, ch, c, size, fill);
      PublishHeader(b, ch, c, fill);
    }

    /** Lines 649-657. */
    method FillAndTag(ghost b: nat, ghost ch: Chunk, c: nat, size: nat, fill: nat)
      requires Planned(b, ch) && c == Hdr(ch) && size == ch.size
      modifies this`mem
      ensures |mem| == |old(mem)|
      ensures AllocMemFrom(old(mem), FILL_USER, b, ch, fill, flags) == AllocMemFrom(mem, PUT_STATE, b, ch, fill, flags)
    {
      ghost var was := mem;
      mem := Fill(mem, c + HEADER, Min(size, fill), flags.mallocByte);
      AllocMemMoves(was, mem, FILL_USER, PUT_TAG, b, ch, fill, flags);
      was := mem;
      mem := mem[c + 1 := PutTag(mem[c + 1], flags.tag)];
      AllocMemMoves(was, mem, PUT_TAG, PUT_STATE, b, ch, fill, flags);
    }

    /** Lines 658-663. The state byte is the last metadata write; only then the block start leads to it. */
    method PublishHeader(b: nat, ghost ch: Chunk, c: nat, ghost fill: nat)
      requires Planned(b, ch) && c == Hdr(ch)
      modifies this`mem
      ensures mem == AllocMemFrom(old(mem), PUT_STATE, b, ch, fill, flags)
    {
      if b == c {
        AllocMemLast(mem, PUT_STATE, b, ch, fill, flags);
        mem := mem[c := CHUNK_ALLOCATED];
      } else {
        ghost var was := mem;
        mem := mem[c := CHUNK_ALLOCATED];
        AllocMemMoves(was, mem, PUT_STATE, PUT_BACK_LINK, b, ch, fill, flags);
        PutLargeHeader(b, ch, c, fill);
      }
    }

    /** `LargeChunkHeader::Set`: the pointer first, the magic last. */
    method PutLargeHeader(b: nat, ghost ch: Chunk, c: nat, ghost fill: nat)
      requires Planned(b, ch) && c == Hdr(ch)
      modifies this`mem
      ensures mem == AllocMemFrom(old(mem), PUT_BACK_LINK, b, ch, fill, flags)
    {
      ghost var was := mem;
      mem := Store(mem, b + 8, 8, c);
      AllocMemMoves(was, mem, PUT_BACK_LINK, PUT_MAGIC, b, ch, fill, flags);
      AllocMemLast(mem, PUT_MAGIC, b, ch, fill, flags);
      mem := Store(mem, b, 8, MAGIC);
    }

    /** The underlying allocator hands out a block: a free primary one, or a fresh mapping (line 588). */
    method ObtainBlock(source: Source, needed: u64)
      requires SourceOk(St(), source, needed) && |mem| == 8 * |shadow|
      modifies this`mem, this`shadow, this`blocks, this`free
      ensures mem == SourceMem(old(mem), source, needed)
      ensures shadow == SourceShadow(old(shadow), canPoison, source, needed)
      ensures blocks == SourceBlocks(old(blocks), source, needed) && free == SourceFree(old(free), source)
    {
      match source
      case Primary(b) =>
        free := free - {b};
      case Secondary(mapBeg) =>
        var size := RoundUpPage(needed);
        mem := Fill(mem, mapBeg, PAGE + size, 0);
        shadow := OnMapSecondary(shadow, canPoison, mapBeg, PAGE + size, mapBeg + PAGE, needed);
        blocks := blocks[mapBeg + PAGE := Block(size, PAGE, false)];
    }

    /** Header, shadow, counters and publication of the chunk in a block just obtained: lines 608-663. */
    method SetUpChunk(t: nat, b: nat, ghost ch: Chunk, plan: Plan, c: nat, alignLog: nat, kind: nat, stack: nat, fill: nat)
      requires Planned(b, ch) && b in blocks && b < ch.user && ch.user + ch.size <= b + blocks[b].size <= |mem| == 8 * |shadow|
      requires plan.Accept? && c == Hdr(ch) && plan.size == ch.size && alignLog == ch.alignLog && kind == ch.kind
      requires t == ch.tid && stack == ch.stack
      modifies this`mem, this`shadow, this`stats
      ensures mem == AllocMemFrom(old(mem), PUT_KIND, b, ch, fill, flags)
      ensures shadow == AllocShadow(old(shadow), canPoison, b, blocks[b].size, ch.user, ch.size, plan.fromPrimary)
      ensures stats == CountedMalloc(old(stats), t, ch.size)
    {
      WriteHeader(b, ch, c, plan.size, alignLog, kind, t, stack, fill);
      var userBeg := c + HEADER;
      assert userBeg == ch.user;
      PoisonAround(b, userBeg, plan);
      CountMalloced(t, plan.size);
      Publish(b, ch, c, plan.size, fill);
    }

    /** Lines 617-638. */
    method PoisonAround(b: nat, userBeg: nat, plan: Plan)
      requires plan.Accept? && b in blocks && b < userBeg && userBeg + plan.size <= b + blocks[b].size <= 8 * |shadow|
      modifies this`shadow
      ensures shadow == AllocShadow(old(shadow), canPoison, b, blocks[b].size, userBeg, plan.size, plan.fromPrimary)
    {
      var size, end := plan.size, b + blocks[b].size;
      if !plan.fromPrimary || shadow[b / 8] == 0 {
        shadow := PoisonShadow(shadow, canPoison, b, userBeg, HEAP_LEFT_REDZONE);
        shadow := PoisonShadow(shadow, canPoison, userBeg + RoundUp8(size), end, HEAP_LEFT_REDZONE);
      }
      var whole := size / 8 * 8;
      shadow := PoisonShadow(shadow, canPoison, userBeg, userBeg + whole, 0);
      if size != whole && canPoison {
        shadow := shadow[(userBeg + whole) / 8 := size % 8];
      }
    }

    method CountMalloced(t: nat, size: nat)
      modifies this`stats
      ensures stats == CountedMalloc(old(stats), t, size)
    {
      var st := StatsIn(stats, t);
      stats := stats[t := st.(mallocs := st.mallocs + 1, malloced := st.malloced + size)];
    }

    /**
     `Allocate`. `source` is the underlying allocator's answer, None when it is out of memory;
     returning None stands for a null result or a fatal report, as `may_return_null` says.
     `Delivered` says what the caller gets: place, header, contents, shadow and counters.
     */
    method Allocate(t: nat, size0: u64, alignment0: u64, kind: nat, stack: nat, fill: nat, source: Option<Source>)
      returns (r: Option<nat>)
      requires Inv(St()) && t !in threads && t < U32 && kind < 4 && stack < U32
      requires (alignment0 < GRANULE || IsPowerOfTwo(alignment0)) && alignment0 != TOP_ALIGNMENT
      requires var plan := PlanRequest(size0, alignment0, redzones, maxUser);
               plan.Accept? && source.Some? ==> SourceOk(St(), source.value, plan.needed)
      modifies this
      ensures r.None? <==> PlanRequest(size0, alignment0, old(redzones), old(maxUser)).Reject? || source.None?
      ensures r.None? ==> St() == old(St())
      ensures r.Some? ==> AllocatedAs(old(St()), St(), Malloc(t, size0, alignment0, kind, stack, fill, source.value), r.value)
      ensures r.Some? ==> Delivered(old(St()), St(), Malloc(t, size0, alignment0, kind, stack, fill, source.value), r.value)
      ensures r.Some? ==> Multiple(r.value, Max(alignment0, 8))
    {
      ghost var s := St();
      r := AllocateChunk(t, size0, alignment0, kind, stack, fill, source);
      if r.Some? {
        ghost var step := Malloc(t, size0, alignment0, kind, stack, fill, source.value);
        AllocationIsDelivered(s, St(), step, r.value);
      }
    }

    method AllocateChunk(t: nat, size0: u64, alignment0: u64, kind: nat, stack: nat, fill: nat, source: Option<Source>)
      returns (r: Option<nat>)
      requires Inv(St()) && t !in threads && t < U32 && kind < 4 && stack < U32
      requires (alignment0 < GRANULE || IsPowerOfTwo(alignment0)) && alignment0 != TOP_ALIGNMENT
      requires var plan := PlanRequest(size0, alignment0, redzones, maxUser);
               plan.Accept? && source.Some? ==> SourceOk(St(), source.value, plan.needed)
      modifies this
      ensures r.None? <==> PlanRequest(size0, alignment0, old(redzones), old(maxUser)).Reject? || source.None?
      ensures r.None? ==> St() == old(St())
      ensures r.Some? ==> AllocatedAs(old(St()), St(), Malloc(t, size0, alignment0, kind, stack, fill, source.value), r.value)
    {
      var plan := PlanRequest(size0, alignment0, redzones, maxUser);
      if plan.Reject? || source.None? {
        return None;
      }
      r := AllocateFrom(t, size0, alignment0, kind, stack, fill, source.value, plan);
    }

    /** The request is accepted and there is a block for it. */
    method AllocateFrom(t: nat, ghost size0: u64, alignment0: u64, kind: nat, stack: nat, fill: nat, source: Source, plan: Plan)
      returns (r: Option<nat>)
      requires Inv(St()) && Enabled(St(), Malloc(t, size0, alignment0, kind, stack, fill, source))
      requires plan == PlanOf(St(), Malloc(t, size0, alignment0, kind, stack, fill, source))
      modifies this
      ensures r.Some? && AllocatedAs(old(St()), St(), Malloc(t, size0, alignment0, kind, stack, fill, source), r.value)
    {
      ghost var step := Malloc(t, size0, alignment0, kind, stack, fill, source);
      ghost var ch, s1, s2 := AllocateRuns(St(), step, plan);
      var b := SourceBeg(source);
      var c := UserBeg(b, plan) - HEADER;
      Install(t, b, ch, plan, c, AlignmentLog(alignment0), kind, stack, fill, source, s1, s2);
      r := Some(c + HEADER);
    }

    /** Everything `Allocate` does once its request is planned. */
    method Install(t: nat, b: nat, ghost ch: Chunk, plan: Plan, c: nat, alignLog: nat, kind: nat, stack: nat, fill: nat,
                   source: Source, ghost s1: State, ghost s2: State)
      requires plan.Accept? && |mem| == 8 * |shadow| && SourceOk(St(), source, plan.needed) && b == SourceBeg(source)
      requires c == Hdr(ch) && plan.size == ch.size && alignLog == ch.alignLog && kind == ch.kind
      requires t == ch.tid && stack == ch.stack
      requires s1 == Begun(Provided(St(), source, plan.needed), t, b, ch, plan.fromPrimary, fill) && Ready(s1, b, ch)
      requires s2 == Finished(s1, PUT_KIND, t, b, ch, plan.fromPrimary, fill, false, false)
      modifies this
      ensures St() == s2
    {
      Begin(t, b, ch, plan, fill, source, s1);
      Finish(t, b, ch, plan, c, alignLog, kind, stack, fill);
    }

    /** The underlying allocator answers, and the thread is on its way. */
    method Begin(ghost t: nat, ghost b: nat, ghost ch: Chunk, plan: Plan, ghost fill: nat, source: Source, ghost s1: State)
      requires plan.Accept? && |mem| == 8 * |shadow| && SourceOk(St(), source, plan.needed)
      requires s1 == Begun(Provided(St(), source, plan.needed), t, b, ch, plan.fromPrimary, fill)
      modifies this`mem, this`shadow, this`blocks, this`free, this`threads, this`abs, this`nextId
      ensures St() == s1
    {
      ghost var s := Provided(St(), source, plan.needed);
      ObtainBlock(source, plan.needed);
      assert St() == s;
      Enlist(t, b, ch, plan.fromPrimary, fill);
    }

    ghost method Enlist(t: nat, b: nat, ch: Chunk, guess: bool, fill: nat)
      modifies this`threads, this`abs, this`nextId
      ensures St() == Begun(old(St()), t, b, ch, guess, fill)
    {
      threads := threads[t := AllocTask(PUT_KIND, b, ch, guess, fill, false, false)];
      abs, nextId := abs[b := ABusy(t, ch)], nextId + 1;
    }

    /** Everything `Allocate` does once the underlying allocator has answered. */
    method Finish(t: nat, b: nat, ghost ch: Chunk, plan: Plan, c: nat, alignLog: nat, kind: nat, stack: nat, fill: nat)
      requires Ready(St(), b, ch) && plan.Accept?
      requires c == Hdr(ch) && plan.size == ch.size && alignLog == ch.alignLog && kind == ch.kind
      requires t == ch.tid && stack == ch.stack
      modifies this`mem, this`shadow, this`stats, this`threads, this`abs
      ensures St() == Finished(old(St()), PUT_KIND, t, b, ch, plan.fromPrimary, fill, false, false)
    {
      SetUpChunk(t, b, ch, plan, c, alignLog, kind, stack, fill);
      threads, abs := threads - {t}, abs[b := ALive(ch)];
    }

    // ------------------------------------------------------------------ Deallocate

    /** Both free contexts and the counters: lines 684-685, 693 and 756-758. */
    method MarkFreed(t: nat, p: nat, stack: nat, ghost size: nat)
      requires HEADER <= p && p + HEADER2 <= |mem| && UsedSizeIs(mem, p - HEADER, size)
      modifies this`mem, this`stats
      ensures mem == Store(Store(old(mem), p, 8, Pack(INVALID_TID, 0)), p, 8, Pack(t, stack))
      ensures UsedSizeIs(mem, p - HEADER, size)
      ensures stats == CountedFree(old(stats), t, size)
    {
      ContextKeepsSize(mem, p, Pack(INVALID_TID, 0));
      mem := Store(mem, p, 8, Pack(INVALID_TID, 0));
      var st := StatsIn(stats, t);
      stats := stats[t := st.(frees := st.frees + 1, freed := st.freed + UsedSize(mem, p - HEADER))];
      ContextKeepsSize(mem, p, Pack(t, stack));
      mem := Store(mem, p, 8, Pack(t, stack));
    }

    /** `PreQuarantine`, then the quarantine keeps the chunk. */
    method Quarantine(m: nat, ghost size: nat)
      requires UsedSizeIs(mem, m, size) && m + HEADER + RoundUp8(size) <= |mem| == 8 * |shadow|
      modifies this`mem, this`shadow, this`quarantine
      ensures mem == Scribble(old(mem), m, size, flags)
      ensures shadow == PoisonShadow(old(shadow), canPoison, m + HEADER, m + HEADER + RoundUp8(size), HEAP_FREE)
      ensures quarantine == old(quarantine) + multiset{m}
    {
      ghost var m0 := mem;
      mem := FillChunk(mem, m, flags);
      UsedSizeFrame(m0, mem, m);
      shadow := PoisonShadow(shadow, canPoison, m + HEADER, m + HEADER + RoundUp8(UsedSize(mem, m)), HEAP_FREE);
      quarantine := quarantine + multiset{m};
    }

    method MarkAndQuarantine(t: nat, m: nat, stack: nat, ghost size: nat)
      requires UsedSizeIs(mem, m, size) && m + HEADER + Max(HEADER2, RoundUp8(size)) <= |mem| == 8 * |shadow|
      modifies this`mem, this`shadow, this`stats, this`quarantine
      ensures mem == FreeMemFrom(old(mem), CLEAR_CONTEXT, m, size, t, stack, true, flags)
      ensures shadow == PoisonShadow(old(shadow), canPoison, m + HEADER, m + HEADER + RoundUp8(size), HEAP_FREE)
      ensures quarantine == old(quarantine) + multiset{m}
      ensures stats == CountedFree(old(stats), t, size)
    {
      MarkFreed(t, m + HEADER, stack, size);
      Quarantine(m, size);
    }

    method KeepFreed(t: nat, m: nat, stack: nat, ghost b: nat, ghost ch: Chunk)
      requires UsedSizeIs(mem, m, ch.size) && m + HEADER + Max(HEADER2, RoundUp8(ch.size)) <= |mem| == 8 * |shadow|
      modifies this`mem, this`shadow, this`stats, this`quarantine, this`threads, this`abs
      ensures St() == Kept(old(St()), CLEAR_CONTEXT, t, m, b, ch, stack)
    {
      ghost var s := St();
      MarkAndQuarantine(t, m, stack, ch.size);
      threads, abs := threads - {t}, abs[b := AQuar(ch, Pack(t, stack))];
      assert St().(mem := s.mem, shadow := s.shadow) == Kept(s, CLEAR_CONTEXT, t, m, b, ch, stack).(mem := s.mem, shadow := s.shadow);
    }

    method MarkAndFill(t: nat, m: nat, stack: nat, fills: bool, ghost size: nat)
      requires UsedSizeIs(mem, m, size) && m + HEADER + Max(HEADER2, size) <= |mem|
      modifies this`mem, this`stats
      ensures mem == FreeMemFrom(old(mem), CLEAR_CONTEXT, m, size, t, stack, fills, flags)
      ensures stats == CountedFree(old(stats), t, size)
    {
      MarkFreed(t, m + HEADER, stack, size);
      if fills {
        mem := FillChunk(mem, m, flags);
      }
    }

    /** `RecyclePassThrough` up to the call of `Recycle`. */
    method PassFreed(t: nat, m: nat, stack: nat, b: nat, ghost size: nat)
      requires b in blocks && UsedSizeIs(mem, m, size) && m + HEADER + Max(HEADER2, size) <= |mem|
      modifies this`mem, this`stats, this`threads
      ensures St() == Passed(old(St()), CLEAR_CONTEXT, t, m, b, size, stack)
    {
      MarkAndFill(t, m, stack, blocks[b].primary, size);
      threads := threads[t := RecycleTask(CLEAR_MAGIC, m, b)];
    }

    /** The writes of `Recycle` to a primary chunk: lines 231-244. */
    method HideChunk(m: nat, b: nat, ghost size: nat)
      requires b == m || b + LARGE_HEADER <= m
      requires UsedSizeIs(mem, m, size) && m + HEADER + RoundUp8(size) <= |mem| == 8 * |shadow|
      modifies this`mem, this`shadow
      ensures mem == RecycleMemFrom(old(mem), CLEAR_MAGIC, m, b, true) && UsedSizeIs(mem, m, size)
      ensures shadow == PoisonShadow(old(shadow), canPoison, m + HEADER, m + HEADER + RoundUp8(size), HEAP_LEFT_REDZONE)
    {
      ghost var m0 := mem;
      if b != m {
        mem := Store(mem, b, 8, 0);
      }
      mem := mem[m := CHUNK_INVALID];
      UsedSizeFrame(m0, mem, m);
      shadow := PoisonShadow(shadow, canPoison, m + HEADER, m + HEADER + RoundUp8(UsedSize(mem, m)), HEAP_LEFT_REDZONE);
    }

    method CountRecycled(t: nat, m: nat, ghost size: nat)
      requires UsedSizeIs(mem, m, size)
      modifies this`stats
      ensures stats == CountedRecycle(old(stats), t, size)
    {
      var st := StatsIn(stats, t);
      stats := stats[t := st.(realFrees := st.realFrees + 1, reallyFreed := st.reallyFreed + UsedSize(mem, m))];
    }

    method HideAndCount(t: nat, m: nat, b: nat, ghost size: nat)
      requires b == m || b + LARGE_HEADER <= m
      requires UsedSizeIs(mem, m, size) && m + HEADER + RoundUp8(size) <= |mem| == 8 * |shadow|
      modifies this`mem, this`shadow, this`stats
      ensures mem == RecycleMemFrom(old(mem), CLEAR_MAGIC, m, b, true) && stats == CountedRecycle(old(stats), t, size)
      ensures shadow == PoisonShadow(old(shadow), canPoison, m + HEADER, m + HEADER + RoundUp8(size), HEAP_LEFT_REDZONE)
    {
      HideChunk(m, b, size);
      CountRecycled(t, m, size);
    }

    /** `QuarantineCallback::Recycle`. */
    method RecycleChunk(t: nat, m: nat, b: nat, ghost s2: State)
      requires RecycleBounds(St(), t) && threads[t] == RecycleTask(CLEAR_MAGIC, m, b)
      requires b == m || b + LARGE_HEADER <= m
      requires s2 == RecycleDone(St(), t)
      modifies this
      ensures St() == s2
    {
      if blocks[b].primary {
        ReturnBlock(t, m, b, s2);
      } else {
        Unmap(t, m, b, s2);
      }
    }

    method ReturnBlock(t: nat, m: nat, b: nat, ghost s2: State)
      requires RecycleBounds(St(), t) && threads[t] == RecycleTask(CLEAR_MAGIC, m, b) && blocks[b].primary
      requires (b == m || b + LARGE_HEADER <= m) && s2 == RecycleDone(St(), t)
      modifies this
      ensures St() == s2
    {
      RecyclePrimary(t, m, b, abs[b].ch.size);
    }

    method Unmap(t: nat, m: nat, b: nat, ghost s2: State)
      requires RecycleBounds(St(), t) && threads[t] == RecycleTask(CLEAR_MAGIC, m, b) && !blocks[b].primary
      requires s2 == RecycleDone(St(), t)
      modifies this
      ensures St() == s2
    {
      RecycleSecondary(t, m, b, abs[b].ch.size);
    }

    /** A primary block is hidden from lookup, poisoned and free again. */
    method RecyclePrimary(t: nat, m: nat, b: nat, ghost size: nat)
      requires b == m || b + LARGE_HEADER <= m
      requires UsedSizeIs(mem, m, size) && m + HEADER + RoundUp8(size) <= |mem| == 8 * |shadow|
      modifies this`mem, this`shadow, this`stats, this`free, this`threads, this`abs
      ensures mem == RecycleMemFrom(old(mem), CLEAR_MAGIC, m, b, true) && stats == CountedRecycle(old(stats), t, size)
      ensures shadow == PoisonShadow(old(shadow), canPoison, m + HEADER, m + HEADER + RoundUp8(size), HEAP_LEFT_REDZONE)
      ensures free == old(free) + {b} && threads == old(threads) - {t} && abs == old(abs)[b := AFree]
    {
      HideAndCount(t, m, b, size);
      free := free + {b};
      threads, abs := threads - {t}, abs[b := AFree];
    }

    /** A secondary block is unpoisoned and unmapped at once. */
    method RecycleSecondary(t: nat, m: nat, b: nat, ghost size: nat)
      requires b in blocks && blocks[b].lead <= b && b + blocks[b].size <= 8 * |shadow| && UsedSizeIs(mem, m, size)
      modifies this`shadow, this`stats, this`blocks, this`stale, this`threads, this`abs
      ensures stats == CountedRecycle(old(stats), t, size) && blocks == old(blocks) - {b} && stale == old(stale) - {b}
      ensures shadow == PoisonShadow(old(shadow), canPoison, b - old(blocks)[b].lead, b + old(blocks)[b].size, 0)
      ensures threads == old(threads) - {t} && abs == old(abs) - {b}
    {
      CountRecycled(t, m, size);
      shadow := PoisonShadow(shadow, canPoison, b - blocks[b].lead, b + blocks[b].size, 0);
      blocks, stale := blocks - {b}, stale - {b};
      threads, abs := threads - {t}, abs - {b};
    }

    /** A winning `Deallocate`: `keep` is whether the quarantine keeps the chunk. */
    method FreeWon(t: nat, p: nat, stack: nat, keep: bool, ghost b: nat)
      requires Inv(St()) && t !in threads && t < U32 && stack < U32 && HEADER <= p
      requires b in blocks && abs[b].ALive? && abs[b].ch.user == p && GetBlockBegin(blocks, p - HEADER) == Some(b)
      modifies this
      ensures FreedAs(old(St()), St(), t, b, stack, keep)
    {
      if keep {
        FreeKeeping(t, p, stack, b);
      } else {
        FreePassing(t, p, stack, b);
      }
    }

    method FreeKeeping(t: nat, p: nat, stack: nat, ghost b: nat)
      requires Inv(St()) && t !in threads && t < U32 && stack < U32
      requires b in blocks && abs[b].ALive? && abs[b].ch.user == p
      modifies this
      ensures FreedAs(old(St()), St(), t, b, stack, true)
    {
      ghost var s1, s2 := KeptOutcome(St(), t, b, stack);
      FreeKept(t, p, stack, b, s1, s2);
    }

    method FreePassing(t: nat, p: nat, stack: nat, ghost b: nat)
      requires Inv(St()) && t !in threads && t < U32 && stack < U32 && HEADER <= p
      requires b in blocks && abs[b].ALive? && abs[b].ch.user == p && GetBlockBegin(blocks, p - HEADER) == Some(b)
      modifies this
      ensures FreedAs(old(St()), St(), t, b, stack, false)
    {
      var begin := BlockBegin(p - HEADER);
      FreeInBlock(t, p, stack, begin.value);
    }

    method FreeInBlock(t: nat, p: nat, stack: nat, b: nat)
      requires Inv(St()) && t !in threads && t < U32 && stack < U32
      requires b in blocks && abs[b].ALive? && abs[b].ch.user == p
      modifies this
      ensures FreedAs(old(St()), St(), t, b, stack, false)
    {
      ghost var s1, s2, s3 := PassedOutcome(St(), t, b, stack);
      FreeThrough(t, p, stack, b, s1, s2, s3);
    }

    method FreeKept(t: nat, p: nat, stack: nat, ghost b: nat, ghost s1: State, ghost s2: State)
      requires b in abs && abs[b].ALive? && 0 <= Hdr(abs[b].ch) < |mem| && p == abs[b].ch.user
      requires s1 == Freeing.Won(St(), t, b, stack) && FreeBounds(s1, t) && s2 == FreeDone(s1, t)
      modifies this
      ensures St() == s2
    {
      TakeChunk(t, p, stack, b, s1);
      KeepFreed(t, p - HEADER, stack, b, abs[b].ch);
    }

    method FreeThrough(t: nat, p: nat, stack: nat, b: nat, ghost s1: State, ghost s2: State, ghost s3: State)
      requires b in abs && abs[b].ALive? && 0 <= Hdr(abs[b].ch) < |mem| && p == abs[b].ch.user
      requires b == p - HEADER || b + LARGE_HEADER <= p - HEADER
      requires s1 == Freeing.Won(St(), t, b, stack) && FreeBounds(s1, t) && s2 == FreePassed(s1, t)
      requires RecycleBounds(s2, t) && s3 == RecycleDone(s2, t)
      modifies this
      ensures St() == s3
    {
      TakeChunk(t, p, stack, b, s1);
      PassFreed(t, p - HEADER, stack, b, abs[b].ch.size);
      RecycleChunk(t, p - HEADER, b, s3);
    }

    /** The compare-and-swap of `AtomicallySetQuarantineFlagIfAllocated`, when it succeeds. */
    method TakeChunk(ghost t: nat, p: nat, ghost stack: nat, ghost b: nat, ghost s1: State)
      requires b in abs && abs[b].ALive? && 0 <= Hdr(abs[b].ch) < |mem| && p == abs[b].ch.user
      requires s1 == Freeing.Won(St(), t, b, stack)
      modifies this
      ensures St() == s1
    {
      mem := mem[p - HEADER := CHUNK_QUARANTINE];
      threads := threads[t := FreeTask(CLEAR_CONTEXT, p - HEADER, b, stack)];
      won, abs := won + multiset{abs[b].ch.id}, abs[b := ABusy(t, abs[b].ch)];
    }

    /**
     `Deallocate`. Null is ignored. For any other pointer the byte at its header decides: a freed chunk
     is reported as a double free, anything else that is not a live chunk as not malloced, and nothing
     changes. `Buried` says what is left of a live chunk.
     */
    method Deallocate(t: nat, p: nat, stack: nat, keep: bool) returns (report: Report, ghost b: nat)
      requires Inv(St()) && t !in threads && t < U32 && stack < U32
      requires p == 0 || (HEADER <= p < |mem| + HEADER && NotForged(St(), p))
      modifies this
      ensures p == 0 ==> report == Quiet
      ensures p != 0 ==> (report == Quiet <==> old(mem)[p - HEADER] == CHUNK_ALLOCATED)
      ensures p != 0 ==> (report == DoubleFree <==> old(mem)[p - HEADER] == CHUNK_QUARANTINE)
      ensures p != 0 ==> (report == FreeNotMalloced <==> old(mem)[p - HEADER] !in {CHUNK_ALLOCATED, CHUNK_QUARANTINE})
      ensures p == 0 || report != Quiet ==> St() == old(St())
      ensures p != 0 && report == Quiet ==> FreedAs(old(St()), St(), t, b, stack, keep) && old(abs)[b].ch.user == p
      ensures p != 0 && report == Quiet ==> Buried(old(St()), St(), t, b, old(blocks)[b], old(abs)[b].ch, stack, keep)
    {
      b := 0;
      if p == 0 {
        return Quiet, b;
      }
      report := FreeReport(mem[p - HEADER]);
      if report == Quiet {
        b := ChunkStartingAt(St(), p);
        FreeAndBury(t, p, stack, keep, b);
      }
    }

    method FreeAndBury(t: nat, p: nat, stack: nat, keep: bool, ghost b: nat)
      requires Inv(St()) && t !in threads && t < U32 && stack < U32 && HEADER <= p
      requires b in blocks && abs[b].ALive? && abs[b].ch.user == p && GetBlockBegin(blocks, p - HEADER) == Some(b)
      modifies this
      ensures FreedAs(old(St()), St(), t, b, stack, keep)
      ensures Buried(old(St()), St(), t, b, old(blocks)[b], old(abs)[b].ch, stack, keep)
    {
      ghost var s := St();
      FreeWon(t, p, stack, keep, b);
      FreeIsBuried(s, St(), t, b, s.blocks[b], s.abs[b].ch, stack, keep);
    }

    /** The quarantine recycles one of its chunks; `Reclaimed` says what is left of it. */
    method Recycle(t: nat, m: nat) returns (ghost b: nat)
      requires Inv(St()) && t !in threads && m in quarantine
      modifies this
      ensures RecycledAs(old(St()), St(), t, b) && m == Hdr(old(abs)[b].ch)
      ensures Reclaimed(old(St()), St(), t, b, old(blocks)[b], old(abs)[b].ch)
    {
      ghost var s := St();
      b := RecycleOne(t, m);
      RecycleIsReclaimed(s, St(), t, b, s.blocks[b], s.abs[b].ch);
    }

    method RecycleOne(t: nat, m: nat) returns (ghost b: nat)
      requires Inv(St()) && t !in threads && m in quarantine
      modifies this
      ensures RecycledAs(old(St()), St(), t, b) && m == Hdr(old(abs)[b].ch)
    {
      b :| QuarAt(St(), b, m);
      HeaderBlock(St(), b);
      ghost var s1, s2 := RecycleOutcome(St(), t, b);
      var begin := BlockBegin(m);
      PickAndRecycle(t, m, begin.value, s1, s2);
    }

    method PickAndRecycle(t: nat, m: nat, b: nat, ghost s1: State, ghost s2: State)
      requires QuarAt(St(), b, m) && (b == m || b + LARGE_HEADER <= m)
      requires s1 == Recycling.Picked(St(), t, b) && RecycleBounds(s1, t) && s2 == RecycleDone(s1, t)
      modifies this
      ensures St() == s2
    {
      Pick(t, m, b, s1);
      RecycleChunk(t, m, b, s2);
    }

    method Pick(ghost t: nat, m: nat, ghost b: nat, ghost s1: State)
      requires QuarAt(St(), b, m) && s1 == Recycling.Picked(St(), t, b)
      modifies this`quarantine, this`threads, this`abs
      ensures St() == s1
    {
      quarantine := quarantine - multiset{m};
      threads, abs := threads[t := RecycleTask(CLEAR_MAGIC, m, b)], abs[b := ABusy(t, abs[b].ch)];
    }

    // ------------------------------------------------------------------ Reallocate

    /** `memcpy` of ranges that do not overlap. */
    method CopyBytes(dst: nat, src: nat, n: nat)
      requires src + n <= |mem| && dst + n <= |mem| && (src + n <= dst || dst + n <= src)
      modifies this`mem
      ensures mem == CopyTo(old(mem), dst, src, n)
      ensures |mem| == |old(mem)|
      ensures forall i :: 0 <= i < |mem| ==> mem[i] == if dst <= i < dst + n then old(mem)[src + (i - dst)] else old(mem)[i]
    {
      var i := 0;
      CopyNothing(mem, dst, src);
      while i < n
        invariant 0 <= i <= n
        invariant mem == CopyTo(old(mem), dst, src, i)
      {
        CopyOneMore(old(mem), dst, src, i, n);
        mem := mem[dst + i := mem[src + i]];
        i := i + 1;
      }
    }

    /** `Reallocate` once it has its new chunk: copy what fits, then free the old chunk. */
    method MoveChunk(t: nat, p: nat, newPtr: nat, newSize: nat, stack: nat, keep: bool, ghost size: nat, ghost b0: nat, ghost s2: State)
      requires t !in threads && t < U32 && stack < U32 && HEADER <= p
      requires UsedSizeIs(mem, p - HEADER, size) && p + size <= |mem| && newPtr + newSize <= |mem|
      requires newPtr + newSize <= p || p + size <= newPtr
      requires s2 == St().(mem := CopyTo(mem, newPtr, p, Min(size, newSize))) && Inv(s2)
      requires b0 in s2.blocks && b0 in s2.abs && s2.abs[b0].ALive? && s2.abs[b0].ch.user == p
      requires GetBlockBegin(s2.blocks, p - HEADER) == Some(b0)
      modifies this
      ensures FreedAs(s2, St(), t, b0, stack, keep)
    {
      CopyBytes(newPtr, p, Min(UsedSize(mem, p - HEADER), newSize));
      assert St() == s2;
      FreeWon(t, p, stack, keep, b0);
    }

    /** `Reallocate` after a successful `Allocate`: the old chunk's state byte decides. */
    method ReallocateTo(t: nat, p: nat, newPtr: nat, newSize: nat, stack: nat, keep: bool,
                        ghost s: State, ghost b0: nat, ghost b1: nat, ghost ch1: Chunk)
      returns (report: Report)
      requires t !in threads && t < U32 && stack < U32 && OldChunk(s, b0, p) && b0 != b1
      requires OneMore(s, St(), b1, ch1) && newPtr == ch1.user && newSize == ch1.size
      requires HEADER <= p < |mem| + HEADER && |mem| == |s.mem|
      modifies this
      ensures report == if s.abs[b0].ALive? then Quiet else DoubleFree
      ensures report == Quiet ==> ReallocatedAs(s, old(St()), St(), t, stack, b0, b1, ch1, keep)
      ensures report != Quiet ==> St() == old(St())
    {
      StillOld(s, St(), b1, ch1, b0, p);
      OldState(St(), b0, p);
      report := FreeReport(mem[p - HEADER]);
      if report == Quiet {
        MoveLive(t, p, newPtr, newSize, stack, keep, s, b0, s.abs[b0].ch, b1, ch1);
      }
    }

    method MoveLive(t: nat, p: nat, newPtr: nat, newSize: nat, stack: nat, keep: bool,
                    ghost s: State, ghost b0: nat, ghost ch0: Chunk, ghost b1: nat, ghost ch1: Chunk)
      requires t !in threads && t < U32 && stack < U32 && b0 in s.blocks && b0 in s.abs && s.abs[b0] == ALive(ch0) && b0 != b1
      requires OneMore(s, St(), b1, ch1) && p == ch0.user && newPtr == ch1.user && newSize == ch1.size && |mem| == |s.mem|
      modifies this
      ensures ReallocatedAs(s, old(St()), St(), t, stack, b0, b1, ch1, keep)
    {
      ghost var s1 := St();
      StillThere(s, s1, b1, ch1, b0);
      ghost var s2 := CopyOutcome(s1, b0, ch0, p, b1, ch1);
      MoveChunk(t, p, newPtr, newSize, stack, keep, ch0.size, b0, s2);
      ReallocateOutcome(s, s1, s2, St(), b1, ch1, t, stack, b0, ch0, keep);
    }

    /** `Allocate` as `malloc` and `Reallocate` call it, with alignment 8. */
    method AllocateNew(t: nat, size: u64, stack: nat, fill: nat, source: Option<Source>) returns (r: Option<nat>)
      requires Inv(St()) && t !in threads && t < U32 && stack < U32
      requires var plan := PlanMalloc(size, redzones, maxUser);
               plan.Accept? && source.Some? ==> SourceOk(St(), source.value, plan.needed)
      modifies this
      ensures r.None? <==> PlanMalloc(size, old(redzones), old(maxUser)).Reject? || source.None?
      ensures r.None? ==> St() == old(St())
      ensures r.Some? ==> AllocatedAs(old(St()), St(), Malloc(t, size, 8, FROM_MALLOC, stack, fill, source.value), r.value)
    {
      EightIsPower();
      r := Allocate(t, size, 8, FROM_MALLOC, stack, fill, source);
    }

    /**
     `Reallocate`. On failure nothing changed. On success the old chunk's contents are in a new
     chunk and the old one is freed. If the old one had been freed before, that is reported, and
     `DoubleFree` stands for the abort the report ends in. `s1` is the state in which the call of
     `Allocate` returned.
     */
    method Reallocate(t: nat, p: nat, newSize: u64, stack: nat, fill: nat, source: Option<Source>, keep: bool, ghost b0: nat)
      returns (r: Option<nat>, report: Report, ghost ch1: Chunk, ghost s1: State)
      requires Inv(St()) && t !in threads && t < U32 && stack < U32 && newSize > 0
      requires HEADER <= p < |mem| + HEADER && OldChunk(St(), b0, p)
      requires var plan := PlanMalloc(newSize, redzones, maxUser);
               plan.Accept? && source.Some? ==> SourceOk(St(), source.value, plan.needed)
      modifies this
      ensures r.None? <==> PlanMalloc(newSize, old(redzones), old(maxUser)).Reject? || source.None?
      ensures r.None? ==> report == Quiet && St() == old(St())
      ensures r.Some? ==> ch1.user == r.value && ch1.size == newSize
      ensures r.Some? ==> AllocatedAs(old(St()), s1, Malloc(t, newSize, 8, FROM_MALLOC, stack, fill, source.value), r.value)
      ensures r.Some? ==> report == if old(abs)[b0].ALive? then Quiet else DoubleFree
      ensures r.Some? && report == Quiet ==> ReallocatedAs(old(St()), s1, St(), t, stack, b0, SourceBeg(source.value), ch1, keep)
      ensures r.Some? && report != Quiet ==> St() == s1
    {
      ghost var s := St();
      ch1, report := s.abs[b0].ch, Quiet;
      r := AllocateNew(t, newSize, stack, fill, source);
      s1 := St();
      if r.Some? {
        ch1, report := MoveAfter(t, p, r.value, newSize, stack, fill, source.value, keep, s, b0);
      }
    }

    method MoveAfter(t: nat, p: nat, newPtr: nat, newSize: u64, stack: nat, ghost fill: nat, ghost source: Source, keep: bool,
                     ghost s: State, ghost b0: nat)
      returns (ghost ch1: Chunk, report: Report)
      requires Inv(s) && t !in s.threads && t < U32 && stack < U32 && newSize > 0
      requires HEADER <= p < |s.mem| + HEADER && OldChunk(s, b0, p)
      requires AllocatedAs(s, St(), Malloc(t, newSize, 8, FROM_MALLOC, stack, fill, source), newPtr)
      modifies this
      ensures ch1.user == newPtr && ch1.size == newSize
      ensures report == if s.abs[b0].ALive? then Quiet else DoubleFree
      ensures report == Quiet ==> ReallocatedAs(s, old(St()), St(), t, stack, b0, SourceBeg(source), ch1, keep)
      ensures report != Quiet ==> St() == old(St())
    {
      ghost var step := Malloc(t, newSize, 8, FROM_MALLOC, stack, fill, source);
      ch1 := AllocatedOneMore(s, St(), step, newPtr);
      AllocateSparesOld(s, step, b0, p);
      report := ReallocateTo(t, p, newPtr, newSize, stack, keep, s, b0, SourceBeg(source), ch1);
    }

    // ---------------------------------------------------------------- ReInitialize

    /** `FastPoisonShadowPartialRightRedzone`. */
    method PoisonPartialRightRedzone(a: nat, size: nat, redzone: nat, value: Byte)
      requires a % 8 == 0 && a + redzone <= 8 * |shadow|
      modifies this`shadow
      ensures shadow == PartialShadow(old(shadow), a, size, a + redzone, value)
    {
      var i, g := 0, a / 8;
      while i < redzone
        invariant 8 * g == a + i && i < redzone + 8
        invariant |shadow| == |old(shadow)|
        invariant forall k :: 0 <= k < |shadow| ==>
                    shadow[k] == if a <= 8 * k < a + redzone && k < g then PartialByte(k, a, size, value) else old(shadow)[k]
      {
        if i + 8 <= size {
          shadow := shadow[g := 0];
        } else if i >= size {
          shadow := shadow[g := value];
        } else {
          shadow := shadow[g := size - i];
        }
        i, g := i + 8, g + 1;
      }
    }

    /** `RePoisonChunk`. */
    method RePoisonBlock(b: nat)
      requires b in blocks && b + LARGE_HEADER <= b + blocks[b].size <= |mem| == 8 * |shadow|
      requires canPoison
      modifies this`shadow
      ensures shadow == RePoisonChunk(mem, old(shadow), b, blocks[b])
    {
      var ac, bk := ChunkInUse(mem, b, blocks[b]), blocks[b];
      ghost var target := RePoisonChunk(mem, shadow, b, bk);
      if ac.Some? {
        var userBeg, size := ac.value + HEADER, UsedSize(mem, ac.value);
        assert target == LiveRePoisoned(shadow, b, b + bk.size, userBeg, size);
        PoisonRedzones(b, b + bk.size, userBeg, size);
      } else {
        PoisonWhole(b, b + bk.size);
      }
    }

    method PoisonWhole(b: nat, end: nat)
      requires canPoison && end <= 8 * |shadow|
      modifies this`shadow
      ensures shadow == SetShadow(old(shadow), b, end, HEAP_LEFT_REDZONE)
    {
      shadow := PoisonShadow(shadow, canPoison, b, end, HEAP_LEFT_REDZONE);
    }

    method PoisonRedzones(b: nat, end: nat, userBeg: nat, size: nat)
      requires canPoison && userBeg + size <= end <= 8 * |shadow|
      modifies this`shadow
      ensures shadow == LiveRePoisoned(old(shadow), b, end, userBeg, size)
    {
      shadow := PoisonShadow(shadow, canPoison, b, userBeg, HEAP_LEFT_REDZONE);
      var userEnd := userBeg + size;
      var down := userEnd / 8 * 8;
      PoisonPartialRightRedzone(down, userEnd - down, end - down, HEAP_LEFT_REDZONE);
    }

    /** One visit, as the machine makes it. */
    method VisitBlock(b: nat)
      requires Shape(St()) && BlocksInMemory(St()) && b in blocks && canPoison
      modifies this`shadow, this`stale, this`lost
      ensures St() == RePoisonedAt(old(St()), b)
    {
      stale, lost := stale - {b}, lost + LostBy(St(), {b});
      RePoisonBlock(b);
    }

    /** `ForEachChunk(RePoisonChunk)`: the blocks come in any order. */
    method RePoisonBlocks()
      requires Shape(St()) && BlocksInMemory(St()) && canPoison && stale == blocks.Keys
      modifies this`shadow, this`stale, this`lost
      ensures St() == Swept(old(St()), {})
    {
      var rest := blocks.Keys;
      ghost var s0 := St();
      SweepStarts(s0);
      while rest != {}
        invariant rest <= blocks.Keys && St() == Swept(s0, rest)
        decreases |rest|
      {
        var b :| b in rest;
        VisitNext(b, s0, rest);
        rest := rest - {b};
      }
    }

    method VisitNext(b: nat, ghost s0: State, ghost rest: set<nat>)
      requires Shape(s0) && BlocksInMemory(s0) && s0.on && rest <= s0.blocks.Keys && b in rest && St() == Swept(s0, rest)
      modifies this`shadow, this`stale, this`lost
      ensures St() == Swept(s0, rest - {b})
    {
      SweptShape(s0, rest);
      SweepStep(s0, rest, b);
      VisitBlock(b);
    }

    /** `ReInitialize`, with other threads stopped wherever they are. */
    method ReInitialize(on: bool, rz: Redzones)
      requires Inv(St()) && CheckRedzones(rz)
      modifies this
      ensures BlocksInMemory(old(St())) && St() == ReInitialized(old(St()), on, rz) && Inv(St())
      ensures canPoison == on && redzones == rz && mem == old(mem) && blocks == old(blocks) && (!on ==> shadow == old(shadow))
    {
      ReInitKeeps(St(), on, rz);
      ghost var s := St();
      ApplyOptions(on, rz);
      if canPoison {
        RePoisonBlocks();
      }
    }

    /** `ApplyOptions`, as far as the heap is concerned. */
    method ApplyOptions(on: bool, rz: Redzones)
      modifies this`canPoison, this`redzones, this`stale
      ensures St() == Switched(old(St()), on, rz)
    {
      canPoison, redzones := on, rz;
      stale := if on then blocks.Keys else {};
    }

    // ---------------------------------------------------------------------- lookup

    /** `GetAsanChunkByAddr`. */
    method ChunkByAddr(a: int) returns (r: Option<nat>)
      requires Shape(St())
      ensures r == GetAsanChunkByAddr(St(), a)
    {
      var begin := BlockBegin(a);
      if begin.Some? {
        var b := begin.value;
        r := if b + LARGE_HEADER <= |mem| then GetAsanChunk(mem, b, blocks[b].primary) else None;
      } else {
        r := None;
      }
    }

    /** One lookup of that search. */
    method StepLeft(addr: u64, m1: Option<nat>, a: int, ghost next: int, ghost goal: Option<nat>) returns (m2: Option<nat>)
      requires Shape(St()) && addr - PAGE < a && next == a - 1 && goal == Search(St(), addr, m1, a)
      ensures if m2 == m1 then goal == Search(St(), addr, m1, next) else goal == m2
    {
      ghost var s := St();
      m2 := ChunkByAddr(a);
      SearchStep(s, addr, m1, m2, a, next, goal);
    }

    /** The loop of `FindHeapChunkByAddress`: back through a page to the first other chunk. */
    method SearchLeft(addr: u64, m1: Option<nat>) returns (m2: Option<nat>)
      requires Shape(St())
      ensures m2 == Search(St(), addr, m1, addr - 1)
    {
      var l, a := 1, addr - 1;
      ghost var s := St();
      ghost var goal := Search(s, addr, m1, a);
      m2 := m1;
      while l < PAGE
        invariant 1 <= l <= PAGE && m2 == m1 && a == addr - l
        invariant s == St() && goal == Search(s, addr, m1, a)
      {
        var next := a - 1;
        m2 := StepLeft(addr, m1, a, next, goal);
        if m2 != m1 {
          return;
        }
        l, a := l + 1, next;
      }
      SearchEnd(s, addr, m1, a);
    }

    /** `FindHeapChunkByAddress`. */
    method FindHeapChunkByAddress(addr: u64) returns (r: Option<nat>)
      requires Shape(St()) && LookupsReadable(St())
      ensures r == FindChunk(St(), addr)
    {
      r := ChunkByAddr(addr);
      assert ReadableAt(St(), addr);
      if r.None? || AddrIsAtLeft(Beg(r.value), addr).Some? {
        SearchReadable(St(), addr, r, addr - 1);
        var m2 := SearchLeft(addr, r);
        r := Decide(mem, addr, r, m2);
      }
    }
  }
}
