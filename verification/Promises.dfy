/**
 What `Allocate`, `Deallocate` and `Recycle` promise, said of the request and of bytes, shadow bytes and
 counters, without the functions that compute them.
 */
module Promises {
  import opened Words
  import opened Layout
  import opened Memory
  import opened Chunks
  import opened Machine
  import opened Invariant
  import opened Separation
  import opened Uninterrupted
  import opened Outcomes
  import Allocating
  import FreeProtocol
  import ShadowFacts
  import Freeing
  import Recycling

  // ---------------------------------------------------------- the bytes of Allocate

  /** Bounds of what `Allocate` writes, the chunk's header apart from the large header. */
  ghost predicate Roomy(mem: Mem, b: nat, ch: Chunk, flags: Flags) {
    && b + LARGE_HEADER <= |mem| && (Hdr(ch) == b || b + LARGE_HEADER <= Hdr(ch)) && ch.user + ch.size <= |mem|
    && ch.kind < 4 && ch.alignLog < 8 && flags.tag < 4
  }

  /** The same bytes from `user` on. */
  ghost predicate SameBody(mem: Mem, mem': Mem, user: nat) {
    |mem'| == |mem| && forall i :: user <= i < |mem| ==> mem'[i] == mem[i]
  }

  lemma SizeWrites(mem: Mem, b: nat, ch: Chunk, c: nat, fill: nat, flags: Flags) returns (mem3: Mem)
    requires Roomy(mem, b, ch, flags) && c == Hdr(ch)
    ensures Roomy(mem3, b, ch, flags) && SameBody(mem, mem3, ch.user)
    ensures AllocMemFrom(mem3, PUT_ALIGN, b, ch, fill, flags) == AllocMemFrom(mem, PUT_KIND, b, ch, fill, flags)
  {
    var mem1 := mem[c + 1 := PutKind(mem[c + 1], ch.kind)];
    AllocMemMoves(mem, mem1, PUT_KIND, PUT_SIZE_LO, b, ch, fill, flags);
    var mem2 := PutSizeLo(mem1, c, ch.size);
    AllocMemMoves(mem1, mem2, PUT_SIZE_LO, PUT_SIZE_HI, b, ch, fill, flags);
    mem3 := PutSizeHi(mem2, c, ch.size);
    AllocMemMoves(mem2, mem3, PUT_SIZE_HI, PUT_ALIGN, b, ch, fill, flags);
  }

  lemma ContextWrites(mem: Mem, b: nat, ch: Chunk, c: nat, fill: nat, flags: Flags) returns (mem2: Mem)
    requires Roomy(mem, b, ch, flags) && c == Hdr(ch)
    ensures Roomy(mem2, b, ch, flags) && SameBody(mem, mem2, ch.user)
    ensures AllocMemFrom(mem2, TEST_FIRST, b, ch, fill, flags) == AllocMemFrom(mem, PUT_ALIGN, b, ch, fill, flags)
  {
    var mem1 := mem[c + 1 := PutAlign(mem[c + 1], ch.alignLog)];
    AllocMemMoves(mem, mem1, PUT_ALIGN, PUT_CONTEXT, b, ch, fill, flags);
    mem2 := Store(mem1, c + 8, 8, Pack(ch.tid, ch.stack));
    AllocMemMoves(mem1, mem2, PUT_CONTEXT, TEST_FIRST, b, ch, fill, flags);
  }

  /** Up to the fill only the header is written. */
  lemma HeaderWrites(mem: Mem, b: nat, ch: Chunk, fill: nat, flags: Flags) returns (mem5: Mem)
    requires Roomy(mem, b, ch, flags)
    ensures Roomy(mem5, b, ch, flags) && SameBody(mem, mem5, ch.user)
    ensures AllocMemFrom(mem5, FILL_USER, b, ch, fill, flags) == AllocMemFrom(mem, PUT_KIND, b, ch, fill, flags)
  {
    var mem3 := SizeWrites(mem, b, ch, Hdr(ch), fill, flags);
    mem5 := ContextWrites(mem3, b, ch, Hdr(ch), fill, flags);
    AllocMemSkips(mem5, TEST_FIRST, b, ch, fill, flags);
  }

  /** The first `fill` user bytes carry the fill byte, the others what they did, and the leak tag is in place. */
  ghost predicate Filled(mem: Mem, mem': Mem, user: nat, size: nat, fill: nat, flags: Flags) {
    && |mem'| == |mem| && HEADER <= user && user + size <= |mem|
    && (forall i :: user <= i < user + size ==> mem'[i] == if i < user + fill then flags.mallocByte else mem[i])
    && TagOf(mem'[user - HEADER + 1]) == flags.tag
  }

  lemma FillWrites(mem: Mem, b: nat, ch: Chunk, c: nat, fill: nat, flags: Flags) returns (mem2: Mem)
    requires Roomy(mem, b, ch, flags) && c == Hdr(ch)
    ensures Roomy(mem2, b, ch, flags) && Filled(mem, mem2, ch.user, ch.size, fill, flags)
    ensures AllocMemFrom(mem2, PUT_STATE, b, ch, fill, flags) == AllocMemFrom(mem, FILL_USER, b, ch, fill, flags)
  {
    var mem1 := Fill(mem, ch.user, Min(ch.size, fill), flags.mallocByte);
    AllocMemMoves(mem, mem1, FILL_USER, PUT_TAG, b, ch, fill, flags);
    mem2 := mem1[c + 1 := PutTag(mem1[c + 1], flags.tag)];
    AllocMemMoves(mem1, mem2, PUT_TAG, PUT_STATE, b, ch, fill, flags);
  }

  /** Publishing the chunk changes neither. */
  lemma PublicationWrites(mem: Mem, b: nat, ch: Chunk, c: nat, fill: nat, flags: Flags) returns (mem': Mem)
    requires Roomy(mem, b, ch, flags) && c == Hdr(ch)
    ensures mem' == AllocMemFrom(mem, PUT_STATE, b, ch, fill, flags) && |mem'| == |mem|
    ensures forall i :: Hdr(ch) < i < |mem| ==> mem'[i] == mem[i]
  {
    var mem1 := mem[c := CHUNK_ALLOCATED];
    if c == b {
      AllocMemLast(mem, PUT_STATE, b, ch, fill, flags);
      mem' := mem1;
    } else {
      AllocMemMoves(mem, mem1, PUT_STATE, PUT_BACK_LINK, b, ch, fill, flags);
      var mem2 := Store(mem1, b + 8, 8, c);
      AllocMemMoves(mem1, mem2, PUT_BACK_LINK, PUT_MAGIC, b, ch, fill, flags);
      AllocMemLast(mem2, PUT_MAGIC, b, ch, fill, flags);
      mem' := Store(mem2, b, 8, MAGIC);
    }
  }

  lemma AllocFills(mem: Mem, b: nat, ch: Chunk, fill: nat, flags: Flags) returns (mem': Mem)
    requires Roomy(mem, b, ch, flags)
    ensures mem' == AllocMemFrom(mem, PUT_KIND, b, ch, fill, flags) && Filled(mem, mem', ch.user, ch.size, fill, flags)
  {
    var mem5 := HeaderWrites(mem, b, ch, fill, flags);
    var mem7 := FillWrites(mem5, b, ch, Hdr(ch), fill, flags);
    mem' := PublicationWrites(mem7, b, ch, Hdr(ch), fill, flags);
  }

  // --------------------------------------------------------- the shadow of Allocate

  /**
   The shadow byte that `Allocate` leaves for granule g of the block at b: clear under user memory, how
   much of the last granule is user memory, and the redzone's byte around it. With poisoning off only
   clearing takes effect; a poisoned block from the primary allocator keeps its redzones.
   */
  function DeliveredByte(sh: Shadow, on: bool, mapped: bool, b: nat, u: nat, n: nat, g: nat): Byte
    requires g < |sh| && b < 8 * |sh|
  {
    if u <= 8 * g && 8 * g + 8 <= u + n then 0
    else if !on then sh[g]
    else if u <= 8 * g < u + n then u + n - 8 * g
    else if !mapped && sh[b / 8] != 0 then sh[g]
    else 0xfa
  }

  lemma AllocShadowByte(sh: Shadow, on: bool, b: nat, size: nat, u: nat, n: nat, guess: bool, g: nat)
    requires b < u && u + n <= b + size <= 8 * |sh| && u % 8 == 0 && g < |sh| && b <= 8 * g < b + size
    ensures AllocShadow(sh, on, b, size, u, n, guess)[g] == DeliveredByte(sh, on, !guess, b, u, n, g)
  {
    var e := Allocating.LastGranule(u, n);
  }

  lemma AllocShadowOutside(sh: Shadow, on: bool, b: nat, size: nat, u: nat, n: nat, guess: bool, g: nat)
    requires b < u && u + n <= b + size <= 8 * |sh| && u % 8 == 0 && g < |sh| && !(b <= 8 * g < b + size)
    ensures AllocShadow(sh, on, b, size, u, n, guess)[g] == sh[g]
  {
    Allocating.AllocShadowLocal(sh, on, b, size, u, n, guess, g);
  }

  // -------------------------------------------------------------- what Allocate delivers

  /** The chunk's header, as its readers decode it, says what was asked for. */
  ghost predicate HeaderSays(m: Mem, user: nat, step: Step)
    requires step.Malloc?
  {
    var holds :=
      && HEADER <= user <= |m| && m[user - HEADER] == CHUNK_ALLOCATED
      && UsedSize(m, user - HEADER) == Max(step.size0, 1)
      && KindOf(m[user - HEADER + 1]) == step.kind
      && UserAlignment(AlignOf(m[user - HEADER + 1])) == (if step.alignment0 < 8 then 0 else Min(step.alignment0, 512))
      && ContextTid(Load(m, user - HEADER + 8, 8)) == step.t && ContextStack(Load(m, user - HEADER + 8, 8)) == step.stack;
    holds
  }

  /** User memory: filled as far as the fill goes, then as it was, or zero in a fresh mapping. */
  ghost predicate ContentsSay(s: State, m: Mem, step: Step, user: nat)
    requires step.Malloc?
  {
    var holds :=
      && HEADER <= user && user + Max(step.size0, 1) <= |m| == |s.mem|
      && (forall i :: user <= i < user + Max(step.size0, 1) ==>
            m[i] == if i < user + step.fill then s.flags.mallocByte else if step.source.Primary? then s.mem[i] else 0)
      && TagOf(m[user - HEADER + 1]) == s.flags.tag;
    holds
  }

  /** The shadow of the block, granule by granule; elsewhere only a fresh mapping's own page is poisoned. */
  ghost predicate ShadowSays(s: State, s2: State, step: Step, user: nat)
    requires step.Malloc?
  {
    var b, mapped := SourceBeg(step.source), step.source.Secondary?;
    var holds :=
      && b in s2.blocks && |s2.shadow| == |s.shadow| && b < 8 * |s.shadow|
      && forall g: nat :: g < |s.shadow| ==>
           s2.shadow[g] == if b <= 8 * g < b + s2.blocks[b].size then DeliveredByte(s.shadow, s.on, mapped, b, user, Max(step.size0, 1), g)
                           else if mapped && s.on && b - PAGE <= 8 * g < b then 0xfa
                           else s.shadow[g];
    holds
  }

  /** Where the chunk is: aligned as asked, at the first such address behind the redzone, inside the block. */
  ghost predicate PlaceSays(s: State, s2: State, step: Step, user: nat)
    requires step.Malloc?
  {
    var b, n := SourceBeg(step.source), Max(step.size0, 1);
    var holds :=
      && CheckRedzones(s.rz) && b in s2.blocks && user + n <= b + s2.blocks[b].size
      && FirstMultiple(user, b + RedzoneFor(n, s.rz), Max(step.alignment0, 8))
      && b in s2.abs && s2.abs[b].ALive? && s2.abs[b].ch.user == user && s2.abs[b].ch.size == n;
    holds
  }

  /** What a successful `Allocate` delivers. */
  ghost predicate Delivered(s: State, s2: State, step: Step, user: nat)
    requires step.Malloc?
  {
    var holds :=
      && PlaceSays(s, s2, step, user) && HeaderSays(s2.mem, user, step)
      && ContentsSay(s, s2.mem, step, user) && ShadowSays(s, s2, step, user)
      && s2.stats == s.stats[step.t := CallCounted(StatsOf(s, step.t), Max(step.size0, 1))];
    holds
  }

  /** One more call of so many bytes. */
  function CallCounted(st: Stats, n: nat): Stats {
    st.(mallocs := st.mallocs + 1, malloced := st.malloced + n)
  }

  lemma SourceInSpace(s: State, step: Step)
    requires Shape(s) && MallocBounds(s, step)
    ensures SourceBeg(step.source) + PlanOf(s, step).needed <= SPACE
  {
    if step.source.Primary? {
      assert BlockShape(s, step.source.b);
    }
  }

  lemma PlaceIsAsAsked(s: State, step: Step, plan: Plan, ch: Chunk)
    requires Shape(s) && MallocBounds(s, step) && step.alignment0 != TOP_ALIGNMENT && plan == PlanOf(s, step) && ch == NewChunk(s, step)
    ensures ch.size == Max(step.size0, 1) && ch.alignLog == AlignmentLog(step.alignment0) && plan.fromPrimary == step.source.Primary?
    ensures FirstMultiple(ch.user, SourceBeg(step.source) + RedzoneFor(Max(step.size0, 1), s.rz), Max(step.alignment0, 8))
  {
    SourceInSpace(s, step);
    AcceptedPlanOk(step.size0, step.alignment0, s.rz, s.maxUser);
    PlacedAsRequested(step.size0, step.alignment0, s.rz, s.maxUser, plan, SourceBeg(step.source));
  }

  /** The state from which `Allocate` starts to write, as far as the block it got is concerned. */
  lemma StartsFrom(s: State, step: Step, s1: State)
    requires MallocBounds(s, step) && s1 == ApplyMalloc(s, step)
    ensures |s1.mem| == |s.mem| && |s1.shadow| == |s.shadow| && s1.on == s.on && s1.flags == s.flags && s1.stats == s.stats
    ensures step.source.Primary? ==> s1.mem == s.mem && s1.shadow == s.shadow
    ensures step.source.Secondary? ==>
              && SourceBeg(step.source) in s1.blocks
              && forall i :: 0 <= i < |s.mem| && SourceBeg(step.source) <= i
                             && i < SourceBeg(step.source) + s1.blocks[SourceBeg(step.source)].size
                   ==> s1.mem[i] == 0
    ensures !s.on ==> s1.shadow == s.shadow
  {
  }

  /** The shadow of a fresh mapping outside the block. */
  lemma StartsOutside(s: State, step: Step, s1: State, b: nat, g: nat)
    requires MallocBounds(s, step) && s1 == ApplyMalloc(s, step) && b == SourceBeg(step.source) && b in s1.blocks
    requires g < |s.shadow| && !(b <= 8 * g < b + s1.blocks[b].size)
    ensures |s1.shadow| == |s.shadow|
    ensures s1.shadow[g] == if step.source.Secondary? && s.on && b - PAGE <= 8 * g < b then 0xfa else s.shadow[g]
  {
    if step.source.Secondary? {
      var needed := PlanOf(s, step).needed;
      PageIsEightfold(step.source.mapBeg);
      ShadowFacts.SecondaryByte(s.shadow, s.on, step.source.mapBeg, PAGE + RoundUpPage(needed), b, needed, g);
    }
  }

  lemma PageIsEightfold(a: nat)
    requires a % PAGE == 0
    ensures a % 8 == 0
  {
  }

  /** From there to the end: fill and tag, shadow, counters. */
  lemma FinishedSays(s1: State, s2: State, t: nat, b: nat, ch: Chunk, guess: bool, fill: nat)
    requires Ready(s1, b, ch) && (Hdr(ch) == b || b + LARGE_HEADER <= Hdr(ch))
    requires s2 == Finished(s1, PUT_KIND, t, b, ch, guess, fill, false, false)
    ensures Filled(s1.mem, s2.mem, ch.user, ch.size, fill, s1.flags)
    ensures s2.shadow == AllocShadow(s1.shadow, s1.on, b, s1.blocks[b].size, ch.user, ch.size, guess)
    ensures s2.stats == CountedMalloc(s1.stats, t, ch.size) && s2.blocks == s1.blocks
  {
    var mem' := AllocFills(s1.mem, b, ch, fill, s1.flags);
  }

  lemma ContentsAre(s: State, s1: State, m: Mem, step: Step, ch: Chunk)
    requires MallocBounds(s, step) && s1 == ApplyMalloc(s, step) && ch.size == Max(step.size0, 1)
    requires SourceBeg(step.source) in s1.blocks && SourceBeg(step.source) <= ch.user
    requires ch.user + ch.size <= SourceBeg(step.source) + s1.blocks[SourceBeg(step.source)].size
    requires Filled(s1.mem, m, ch.user, ch.size, step.fill, s.flags)
    ensures ContentsSay(s, m, step, ch.user)
  {
    StartsFrom(s, step, s1);
  }

  lemma ShadowIs(s: State, s1: State, s2: State, step: Step, ch: Chunk, b: nat, size: nat)
    requires MallocBounds(s, step) && s1 == ApplyMalloc(s, step) && ch.size == Max(step.size0, 1) && ch.user % 8 == 0
    requires b == SourceBeg(step.source) && b in s1.blocks && size == s1.blocks[b].size && s2.blocks == s1.blocks
    requires b < ch.user && ch.user + ch.size <= b + size <= 8 * |s1.shadow|
    requires s2.shadow == AllocShadow(s1.shadow, s1.on, b, size, ch.user, ch.size, step.source.Primary?)
    ensures ShadowSays(s, s2, step, ch.user)
  {
    StartsFrom(s, step, s1);
    forall g: nat | g < |s.shadow|
      ensures s2.shadow[g] == if b <= 8 * g < b + size then DeliveredByte(s.shadow, s.on, step.source.Secondary?, b, ch.user, ch.size, g)
                              else if step.source.Secondary? && s.on && b - PAGE <= 8 * g < b then 0xfa
                              else s.shadow[g]
    {
      if b <= 8 * g < b + size {
        AllocShadowByte(s1.shadow, s1.on, b, size, ch.user, ch.size, step.source.Primary?, g);
      } else {
        AllocShadowOutside(s1.shadow, s1.on, b, size, ch.user, ch.size, step.source.Primary?, g);
        StartsOutside(s, step, s1, b, g);
      }
    }
  }

  lemma HeaderDecodes(m: Mem, step: Step, ch: Chunk)
    requires ReadsBack(m, ch) && m[Hdr(ch)] == CHUNK_ALLOCATED && step.Malloc?
    requires step.alignment0 < 8 || IsPowerOfTwo(step.alignment0)
    requires ch.size == Max(step.size0, 1) && ch.alignLog == AlignmentLog(step.alignment0)
    requires ch.kind == step.kind && ch.tid == step.t && ch.stack == step.stack
    ensures HeaderSays(m, ch.user, step)
  {
    AlignmentRoundTrip(step.alignment0);
  }

  lemma LiveReads(s2: State, b: nat, ch: Chunk)
    requires Inv(s2) && b in s2.blocks && s2.abs[b] == ALive(ch)
    ensures ReadsBack(s2.mem, ch)
    ensures s2.mem[Hdr(ch)] == CHUNK_ALLOCATED
  {
    MetadataReadsBack(s2, b);
    FreeProtocol.LiveByte(s2, b);
  }

  lemma LiveFits(s2: State, b: nat, ch: Chunk)
    requires Inv(s2) && b in s2.blocks && s2.abs[b] == ALive(ch)
    ensures Fits(b, s2.blocks[b], ch) && ch.user % 8 == 0 && b + s2.blocks[b].size <= |s2.mem| == 8 * |s2.shadow|
  {
    HeaderBlock(s2, b);
    assert BlockShape(s2, b);
    RemIsMod(ch.user, 8);
  }

  /** The closed form of the final state, with the parts of it named. */
  lemma AllocatedParts(s: State, s2: State, step: Step, user: nat) returns (s1: State, ch: Chunk, plan: Plan)
    requires AllocatedAs(s, s2, step, user) && step.t !in s.threads
    ensures s1 == ApplyMalloc(s, step) && plan == PlanOf(s, step) && ch == NewChunk(s, step) && user == ch.user
    ensures ch.kind == step.kind && ch.tid == step.t && ch.stack == step.stack
    ensures Ready(s1, SourceBeg(step.source), ch)
    ensures s2 == Finished(s1, PUT_KIND, step.t, SourceBeg(step.source), ch, plan.fromPrimary, step.fill, false, false)
    ensures s1.flags == s.flags && s1.stats == s.stats
    ensures SourceBeg(step.source) in s2.abs && s2.abs[SourceBeg(step.source)] == ALive(ch)
  {
    s1, ch, plan := ApplyMalloc(s, step), NewChunk(s, step), PlanOf(s, step);
    NewChunkFields(s, step, plan);
    MallocTask(s, step);
    StartsFrom(s, step, s1);
  }

  lemma PartsAreDelivered(s: State, s1: State, s2: State, step: Step, ch: Chunk, b: nat, size: nat)
    requires MallocBounds(s, step) && s1 == ApplyMalloc(s, step) && b == SourceBeg(step.source) && ch.size == Max(step.size0, 1)
    requires b in s1.blocks && size == s1.blocks[b].size && s2.blocks == s1.blocks && ch.user % 8 == 0
    requires b < ch.user && ch.user + ch.size <= b + size <= |s1.mem| == 8 * |s1.shadow|
    requires Filled(s1.mem, s2.mem, ch.user, ch.size, step.fill, s.flags)
    requires s2.shadow == AllocShadow(s1.shadow, s1.on, b, size, ch.user, ch.size, step.source.Primary?)
    ensures ContentsSay(s, s2.mem, step, ch.user) && ShadowSays(s, s2, step, ch.user)
  {
    ContentsAre(s, s1, s2.mem, step, ch);
    ShadowIs(s, s1, s2, step, ch, b, size);
  }

  lemma AllocatedBytes(s: State, s2: State, step: Step, user: nat) returns (s1: State, ch: Chunk, plan: Plan)
    requires AllocatedAs(s, s2, step, user) && step.t !in s.threads
    requires Hdr(NewChunk(s, step)) == SourceBeg(step.source) || SourceBeg(step.source) + LARGE_HEADER <= Hdr(NewChunk(s, step))
    ensures s1 == ApplyMalloc(s, step) && plan == PlanOf(s, step) && ch == NewChunk(s, step) && user == ch.user
    ensures ch.kind == step.kind && ch.tid == step.t && ch.stack == step.stack && Ready(s1, SourceBeg(step.source), ch)
    ensures SourceBeg(step.source) in s2.abs && s2.abs[SourceBeg(step.source)] == ALive(ch) && s2.blocks == s1.blocks
    ensures Filled(s1.mem, s2.mem, user, ch.size, step.fill, s.flags)
    ensures var b := SourceBeg(step.source);
            s2.shadow == AllocShadow(s1.shadow, s1.on, b, s1.blocks[b].size, user, ch.size, plan.fromPrimary)
    ensures s2.stats == CountedMalloc(s.stats, step.t, ch.size)
  {
    s1, ch, plan := AllocatedParts(s, s2, step, user);
    FinishedSays(s1, s2, step.t, SourceBeg(step.source), ch, plan.fromPrimary, step.fill);
  }

  /** Its place, with what the chunk fits into. */
  lemma PlaceIs(s: State, s2: State, step: Step, user: nat, b: nat)
    requires Inv(s) && AllocatedAs(s, s2, step, user) && step.alignment0 != TOP_ALIGNMENT && b == SourceBeg(step.source)
    ensures PlaceSays(s, s2, step, user) && HeaderSays(s2.mem, user, step) && user == NewChunk(s, step).user
    ensures Multiple(user, Max(step.alignment0, 8))
    ensures PlanOf(s, step).fromPrimary == step.source.Primary? && NewChunk(s, step).size == Max(step.size0, 1)
    ensures Fits(b, s2.blocks[b], NewChunk(s, step)) && user % 8 == 0
    ensures b + s2.blocks[b].size <= |s2.mem| == 8 * |s2.shadow|
  {
    var ch, plan := NewChunk(s, step), PlanOf(s, step);
    NewChunkFields(s, step, plan);
    AllocatedTable(s, s2, step, user);
    PlaceIsAsAsked(s, step, plan, ch);
    LiveFits(s2, b, ch);
    LiveReads(s2, b, ch);
    HeaderDecodes(s2.mem, step, ch);
  }

  lemma Deliver(s: State, s2: State, step: Step, user: nat, n: nat)
    requires step.Malloc? && PlaceSays(s, s2, step, user) && HeaderSays(s2.mem, user, step)
    requires ContentsSay(s, s2.mem, step, user) && ShadowSays(s, s2, step, user)
    requires s2.stats == CountedMalloc(s.stats, step.t, n) && n == Max(step.size0, 1)
    ensures Delivered(s, s2, step, user)
  {
  }

  /** What callers of `Allocate` get, for every request that succeeds. */
  lemma AllocationIsDelivered(s: State, s2: State, step: Step, user: nat)
    requires Inv(s) && AllocatedAs(s, s2, step, user) && step.t !in s.threads && step.alignment0 != TOP_ALIGNMENT
    ensures Delivered(s, s2, step, user) && Multiple(user, Max(step.alignment0, 8))
  {
    var b := SourceBeg(step.source);
    PlaceIs(s, s2, step, user, b);
    var s1, ch, plan := AllocatedBytes(s, s2, step, user);
    PartsAreDelivered(s, s1, s2, step, ch, b, s1.blocks[b].size);
    Deliver(s, s2, step, user, ch.size);
  }

  // ---------------------------------------------------------- the bytes of Deallocate

  /**
   What the body of a freed chunk says: who freed it, in its first 8 bytes, then the fill byte as far as
   the fill goes, then what was there.
   */
  ghost predicate BodySays(mem: Mem, mem': Mem, user: nat, n: nat, t: nat, stack: nat, fill: nat, v: Byte) {
    && |mem'| == |mem| && user + Max(HEADER2, n) <= |mem|
    && ContextTid(Load(mem', user, 8)) == t && ContextStack(Load(mem', user, 8)) == stack
    && forall i :: user + 8 <= i < user + n ==> mem'[i] == if i < user + 8 + fill then v else mem[i]
  }

  lemma ContextStored(mem: Mem, user: nat, t: nat, stack: nat)
    requires user + 8 <= |mem| && t < U32 && stack < U32
    ensures var mem' := Store(mem, user, 8, Pack(t, stack));
            ContextTid(Load(mem', user, 8)) == t && ContextStack(Load(mem', user, 8)) == stack
  {
    PackRoundTrip(t, stack);
    LoadStore8(mem, user, Pack(t, stack));
  }

  lemma FreedBytes(mem: Mem, m: nat, n: nat, t: nat, stack: nat, fills: bool, flags: Flags, mem': Mem)
    requires m + HEADER + Max(HEADER2, n) <= |mem| && t < U32 && stack < U32
    requires mem' == FreeMemFrom(mem, CLEAR_CONTEXT, m, n, t, stack, fills, flags)
    ensures BodySays(mem, mem', m + HEADER, n, t, stack, if fills then flags.freeFill else 0, flags.freeByte)
    ensures forall i :: 0 <= i < |mem| && !(m + HEADER <= i < m + HEADER + Max(HEADER2, n)) ==> mem'[i] == mem[i]
  {
    var user := m + HEADER;
    var mem1 := Store(mem, user, 8, Pack(INVALID_TID, 0));
    var mem2 := Store(mem1, user, 8, Pack(t, stack));
    ContextStored(mem1, user, t, stack);
    ScribbleSpares(mem2, m, n, flags);
    if fills {
      LoadFrame(mem2, mem', user, 8);
    }
  }

  lemma ScribbleSpares(mem: Mem, m: nat, n: nat, flags: Flags)
    requires m + HEADER + n <= |mem|
    ensures var mem' := Scribble(mem, m, n, flags);
            forall i :: 0 <= i < |mem| ==>
              mem'[i] == if m + HEADER + HEADER2 <= i < m + HEADER + n && i < m + HEADER + HEADER2 + flags.freeFill
                         then flags.freeByte else mem[i]
  {
  }

  // ---------------------------------------------------------- the shadow of Deallocate

  lemma KeptShadow(s: State, s1: State, t: nat, b: nat, stack: nat)
    requires b in s.blocks && b in s.abs && s.abs[b].ALive? && 0 <= Hdr(s.abs[b].ch) < |s.mem|
    requires s1 == Freeing.Won(s, t, b, stack) && FreeBounds(s1, t)
    ensures var ch, end := s.abs[b].ch, s.abs[b].ch.user + RoundUp8(s.abs[b].ch.size);
            end <= 8 * |s.shadow| && FreeDone(s1, t).shadow == PoisonShadow(s.shadow, s.on, ch.user, end, HEAP_FREE)
  {
    WonTask(s, s1, t, b, stack);
  }

  lemma PassedShadow(s: State, s1: State, s2: State, t: nat, b: nat, stack: nat)
    requires b in s.blocks && b in s.abs && s.abs[b].ALive? && 0 <= Hdr(s.abs[b].ch) < |s.mem|
    requires s1 == Freeing.Won(s, t, b, stack) && FreeBounds(s1, t) && t !in s.threads
    requires s2 == FreePassed(s1, t) && RecycleBounds(s2, t) && s.blocks[b].primary
    ensures var ch, end := s.abs[b].ch, s.abs[b].ch.user + RoundUp8(s.abs[b].ch.size);
            end <= 8 * |s.shadow| && RecycleDone(s2, t).shadow == PoisonShadow(s.shadow, s.on, ch.user, end, HEAP_LEFT_REDZONE)
  {
    PassedTask(s, s1, t, b, stack);
    assert s2.shadow == s.shadow && s2.on == s.on;
  }

  lemma FreedShadow(s: State, s2: State, t: nat, b: nat, stack: nat, keep: bool) returns (v: Byte)
    requires b in s.blocks && b in s.abs && s.abs[b].ALive? && 0 <= Hdr(s.abs[b].ch) < |s.mem|
    requires FreeEnds(s, s2, t, b, stack, keep) && t !in s.threads && (keep || s.blocks[b].primary)
    ensures var ch, end := s.abs[b].ch, s.abs[b].ch.user + RoundUp8(s.abs[b].ch.size);
            v == (if keep then 0xfd else 0xfa) && end <= 8 * |s.shadow| && s2.shadow == PoisonShadow(s.shadow, s.on, ch.user, end, v)
  {
    var s1 := Freeing.Won(s, t, b, stack);
    if keep {
      v := HEAP_FREE;
      KeptShadow(s, s1, t, b, stack);
    } else {
      v := HEAP_LEFT_REDZONE;
      PassedShadow(s, s1, FreePassed(s1, t), t, b, stack);
    }
  }

  // ------------------------------------------------------------- what Deallocate leaves

  /** A hidden chunk: no state, no magic at the block's start, all other bytes as they were. */
  ghost predicate HiddenBytes(mem: Mem, mem': Mem, b: nat, m: nat) {
    && |mem'| == |mem| && m < |mem| && mem'[m] == CHUNK_INVALID
    && forall i :: 0 <= i < |mem| && i != m ==> mem'[i] == if b != m && b <= i < b + 8 then 0 else mem[i]
  }

  lemma ZeroBytes(mem: Mem, a: nat, n: nat)
    requires a + n <= |mem|
    ensures forall i :: a <= i < a + n ==> Store(mem, a, n, 0)[i] == 0
  {
    ZeroEncoded(n);
  }

  lemma {:induction false} ZeroEncoded(n: nat)
    ensures forall i :: 0 <= i < n ==> Encode(0, n)[i] == 0
  {
    if n > 0 {
      ZeroEncoded(n - 1);
    }
  }

  lemma RecycledBytes(mem: Mem, m: nat, b: nat)
    requires m < |mem| && b + LARGE_HEADER <= |mem| && (b == m || b + LARGE_HEADER <= m)
    ensures HiddenBytes(mem, RecycleMemFrom(mem, CLEAR_MAGIC, m, b, true), b, m)
  {
    ZeroBytes(mem, b, 8);
  }

  /** The granules of user memory carry `v` if poisoning is on; nothing else changes. */
  ghost predicate Painted(sh: Shadow, sh': Shadow, on: bool, user: nat, n: nat, v: Byte) {
    |sh'| == |sh| && forall g :: 0 <= g < |sh| ==> sh'[g] == if on && user <= 8 * g < user + n then v else sh[g]
  }

  lemma PoisonPaints(sh: Shadow, on: bool, user: nat, n: nat, v: Byte)
    requires user % 8 == 0 && user + RoundUp8(n) <= 8 * |sh| && v != 0
    ensures Painted(sh, PoisonShadow(sh, on, user, user + RoundUp8(n), v), on, user, n, v)
  {
  }

  /** The granules of a mapping that is given back are clear. */
  ghost predicate Cleared(sh: Shadow, sh': Shadow, lo: int, hi: int) {
    |sh'| == |sh| && forall g :: 0 <= g < |sh| ==> sh'[g] == if lo <= 8 * g < hi then 0 else sh[g]
  }

  /** Body, state byte and header of a freed chunk. */
  ghost predicate BytesBuried(mem: Mem, mem': Mem, bk: Block, ch: Chunk, t: nat, stack: nat, keep: bool, flags: Flags) {
    var holds :=
      && BodySays(mem, mem', ch.user, ch.size, t, stack, if keep || bk.primary then flags.freeFill else 0, flags.freeByte)
      && HEADER <= ch.user && mem'[ch.user - HEADER] == (if !keep && bk.primary then CHUNK_INVALID else CHUNK_QUARANTINE)
      && forall i :: ch.user - HEADER < i < ch.user ==> mem'[i] == mem[i];
    holds
  }

  /** Its shadow; a secondary block that is not kept is unmapped. */
  ghost predicate ShadowBuried(sh: Shadow, sh': Shadow, on: bool, b: nat, bk: Block, ch: Chunk, keep: bool) {
    var holds :=
      if keep then Painted(sh, sh', on, ch.user, ch.size, 0xfd)
      else if bk.primary then Painted(sh, sh', on, ch.user, ch.size, 0xfa)
      else Cleared(sh, sh', b - bk.lead, b + bk.size);
    holds
  }

  /** What a winning free leaves behind of the chunk in block b. */
  ghost predicate Buried(s: State, s2: State, t: nat, b: nat, bk: Block, ch: Chunk, stack: nat, keep: bool) {
    var holds :=
      && BytesBuried(s.mem, s2.mem, bk, ch, t, stack, keep, s.flags)
      && ShadowBuried(s.shadow, s2.shadow, s.on, b, bk, ch, keep)
      && s2.stats == s.stats[t := FreeCounted(StatsOf(s, t), ch.size, if keep then 0 else 1)];
    holds
  }

  /** One free of so many bytes, and as many recyclings. */
  function FreeCounted(st: Stats, n: nat, recycled: nat): Stats {
    st.(frees := st.frees + 1, freed := st.freed + n,
        realFrees := st.realFrees + recycled, reallyFreed := st.reallyFreed + recycled * n)
  }

  /** Memory when the freed chunk goes to the quarantine, or on to be recycled. */
  lemma FreedMem(mem: Mem, ch: Chunk, t: nat, stack: nat, fills: bool, flags: Flags, mem': Mem)
    requires 0 <= Hdr(ch) && ch.user + Max(HEADER2, ch.size) <= |mem| && t < U32 && stack < U32
    requires mem' == FreeMemFrom(mem[Hdr(ch) := CHUNK_QUARANTINE], CLEAR_CONTEXT, Hdr(ch), ch.size, t, stack, fills, flags)
    ensures BodySays(mem, mem', ch.user, ch.size, t, stack, if fills then flags.freeFill else 0, flags.freeByte)
    ensures mem'[Hdr(ch)] == CHUNK_QUARANTINE && forall i :: Hdr(ch) < i < ch.user ==> mem'[i] == mem[i]
  {
    FreedBytes(mem[Hdr(ch) := CHUNK_QUARANTINE], Hdr(ch), ch.size, t, stack, fills, flags, mem');
  }

  /** Hiding the chunk leaves its body and its header fields alone. */
  lemma HiddenBody(mem: Mem, mem1: Mem, mem2: Mem, b: nat, ch: Chunk, t: nat, stack: nat, fill: nat, v: Byte)
    requires 0 <= Hdr(ch) && (b == Hdr(ch) || b + LARGE_HEADER <= Hdr(ch)) && HiddenBytes(mem1, mem2, b, Hdr(ch))
    requires BodySays(mem, mem1, ch.user, ch.size, t, stack, fill, v) && forall i :: Hdr(ch) < i < ch.user ==> mem1[i] == mem[i]
    ensures BodySays(mem, mem2, ch.user, ch.size, t, stack, fill, v)
    ensures mem2[Hdr(ch)] == CHUNK_INVALID && forall i :: Hdr(ch) < i < ch.user ==> mem2[i] == mem[i]
  {
    LoadFrame(mem1, mem2, ch.user, 8);
  }

  /** The closed form of a free that is kept. */
  lemma KeptParts(s: State, s2: State, t: nat, b: nat, ch: Chunk, stack: nat)
    requires b in s.blocks && b in s.abs && s.abs[b] == ALive(ch) && 0 <= Hdr(ch) < |s.mem|
    requires FreeEnds(s, s2, t, b, stack, true)
    ensures ch.user + Max(HEADER2, ch.size) <= |s.mem|
    ensures s2.mem == FreeMemFrom(s.mem[Hdr(ch) := CHUNK_QUARANTINE], CLEAR_CONTEXT, Hdr(ch), ch.size, t, stack, true, s.flags)
    ensures s2.stats == CountedFree(s.stats, t, ch.size)
  {
    WonTask(s, Freeing.Won(s, t, b, stack), t, b, stack);
  }

  /** ... and of one that passes through. */
  lemma PassedParts(s: State, s2: State, t: nat, b: nat, ch: Chunk, stack: nat, primary: bool) returns (mem1: Mem)
    requires b in s.blocks && b in s.abs && s.abs[b] == ALive(ch) && 0 <= Hdr(ch) < |s.mem| && t !in s.threads
    requires FreeEnds(s, s2, t, b, stack, false) && primary == s.blocks[b].primary
    ensures ch.user + Max(HEADER2, ch.size) <= |s.mem| && b + LARGE_HEADER <= |s.mem| && |mem1| == |s.mem|
    ensures mem1 == FreeMemFrom(s.mem[Hdr(ch) := CHUNK_QUARANTINE], CLEAR_CONTEXT, Hdr(ch), ch.size, t, stack, primary, s.flags)
    ensures s2.mem == RecycleMemFrom(mem1, CLEAR_MAGIC, Hdr(ch), b, primary)
    ensures s2.stats == CountedRecycle(CountedFree(s.stats, t, ch.size), t, ch.size)
    ensures !primary ==>
              && s.blocks[b].lead <= b && b + s.blocks[b].size <= 8 * |s.shadow|
              && s2.shadow == PoisonShadow(s.shadow, s.on, b - s.blocks[b].lead, b + s.blocks[b].size, 0)
  {
    var s1 := Freeing.Won(s, t, b, stack);
    WonTask(s, s1, t, b, stack);
    PassedTask(s, s1, t, b, stack);
    mem1 := FreePassed(s1, t).mem;
  }

  lemma KeptBytesBuried(mem: Mem, mem': Mem, bk: Block, ch: Chunk, t: nat, stack: nat, flags: Flags)
    requires 0 <= Hdr(ch) && ch.user + Max(HEADER2, ch.size) <= |mem| && t < U32 && stack < U32
    requires mem' == FreeMemFrom(mem[Hdr(ch) := CHUNK_QUARANTINE], CLEAR_CONTEXT, Hdr(ch), ch.size, t, stack, true, flags)
    ensures BytesBuried(mem, mem', bk, ch, t, stack, true, flags)
  {
    FreedMem(mem, ch, t, stack, true, flags, mem');
  }

  lemma PassedBytesBuried(mem: Mem, mem1: Mem, mem': Mem, b: nat, bk: Block, ch: Chunk, t: nat, stack: nat, flags: Flags)
    requires 0 <= Hdr(ch) && ch.user + Max(HEADER2, ch.size) <= |mem| && t < U32 && stack < U32
    requires mem1 == FreeMemFrom(mem[Hdr(ch) := CHUNK_QUARANTINE], CLEAR_CONTEXT, Hdr(ch), ch.size, t, stack, bk.primary, flags)
    requires b + LARGE_HEADER <= |mem| && (b == Hdr(ch) || b + LARGE_HEADER <= Hdr(ch))
    requires mem' == RecycleMemFrom(mem1, CLEAR_MAGIC, Hdr(ch), b, bk.primary)
    ensures BytesBuried(mem, mem', bk, ch, t, stack, false, flags)
  {
    FreedMem(mem, ch, t, stack, bk.primary, flags, mem1);
    if bk.primary {
      RecycledBytes(mem1, Hdr(ch), b);
      HiddenBody(mem, mem1, mem', b, ch, t, stack, flags.freeFill, flags.freeByte);
    }
  }

  lemma CountsBoth(stats: map<nat, Stats>, t: nat, n: nat)
    ensures CountedFree(stats, t, n) == stats[t := FreeCounted(StatsIn(stats, t), n, 0)]
    ensures CountedRecycle(CountedFree(stats, t, n), t, n) == stats[t := FreeCounted(StatsIn(stats, t), n, 1)]
  {
  }

  lemma KeptIsBuried(s: State, s2: State, t: nat, b: nat, bk: Block, ch: Chunk, stack: nat)
    requires b in s.blocks && b in s.abs && s.abs[b] == ALive(ch) && 0 <= Hdr(ch) < |s.mem| && bk == s.blocks[b] && ch.user % 8 == 0
    requires FreeEnds(s, s2, t, b, stack, true) && t !in s.threads && t < U32 && stack < U32
    ensures BytesBuried(s.mem, s2.mem, bk, ch, t, stack, true, s.flags)
    ensures s2.stats == s.stats[t := FreeCounted(StatsOf(s, t), ch.size, 0)]
  {
    KeptParts(s, s2, t, b, ch, stack);
    KeptBytesBuried(s.mem, s2.mem, bk, ch, t, stack, s.flags);
    CountsBoth(s.stats, t, ch.size);
  }

  lemma PassedIsBuried(s: State, s2: State, t: nat, b: nat, bk: Block, ch: Chunk, stack: nat)
    requires b in s.blocks && b in s.abs && s.abs[b] == ALive(ch) && 0 <= Hdr(ch) < |s.mem| && bk == s.blocks[b]
    requires (b == Hdr(ch) || b + LARGE_HEADER <= Hdr(ch)) && ch.user % 8 == 0
    requires FreeEnds(s, s2, t, b, stack, false) && t !in s.threads && t < U32 && stack < U32
    ensures BytesBuried(s.mem, s2.mem, bk, ch, t, stack, false, s.flags)
    ensures s2.stats == s.stats[t := FreeCounted(StatsOf(s, t), ch.size, 1)]
    ensures !bk.primary ==> ShadowBuried(s.shadow, s2.shadow, s.on, b, bk, ch, false)
  {
    var mem1 := PassedParts(s, s2, t, b, ch, stack, bk.primary);
    PassedBytesBuried(s.mem, mem1, s2.mem, b, bk, ch, t, stack, s.flags);
    CountsBoth(s.stats, t, ch.size);
  }

  lemma ShadowIsBuried(s: State, s2: State, t: nat, b: nat, bk: Block, ch: Chunk, stack: nat, keep: bool)
    requires b in s.blocks && b in s.abs && s.abs[b] == ALive(ch) && 0 <= Hdr(ch) < |s.mem| && bk == s.blocks[b] && ch.user % 8 == 0
    requires FreeEnds(s, s2, t, b, stack, keep) && t !in s.threads && (keep || bk.primary)
    ensures ShadowBuried(s.shadow, s2.shadow, s.on, b, bk, ch, keep)
  {
    var v := FreedShadow(s, s2, t, b, stack, keep);
    PoisonPaints(s.shadow, s.on, ch.user, ch.size, v);
  }

  /** What a winning `Deallocate` does, for every chunk. */
  lemma FreeIsBuried(s: State, s2: State, t: nat, b: nat, bk: Block, ch: Chunk, stack: nat, keep: bool)
    requires Inv(s) && b in s.blocks && s.abs[b] == ALive(ch) && bk == s.blocks[b]
    requires FreedAs(s, s2, t, b, stack, keep) && t !in s.threads && t < U32 && stack < U32
    ensures Buried(s, s2, t, b, bk, ch, stack, keep)
  {
    LiveFits(s, b, ch);
    if keep {
      KeptIsBuried(s, s2, t, b, bk, ch, stack);
    } else {
      PassedIsBuried(s, s2, t, b, bk, ch, stack);
    }
    if keep || bk.primary {
      ShadowIsBuried(s, s2, t, b, bk, ch, stack, keep);
    }
  }

  // -------------------------------------------------------------- what Recycle leaves

  /** What recycling leaves of the quarantined chunk in block b. */
  ghost predicate Reclaimed(s: State, s2: State, t: nat, b: nat, bk: Block, ch: Chunk) {
    var holds :=
      && Hdr(ch) >= 0
      && (if bk.primary
          then HiddenBytes(s.mem, s2.mem, b, Hdr(ch)) && Painted(s.shadow, s2.shadow, s.on, ch.user, ch.size, 0xfa)
               && b in s2.free && b in s2.blocks
          else s2.mem == s.mem && Cleared(s.shadow, s2.shadow, b - bk.lead, b + bk.size) && b !in s2.blocks)
      && s2.stats == s.stats[t := RecycleCounted(StatsOf(s, t), ch.size)];
    holds
  }

  /** One recycling of so many bytes. */
  function RecycleCounted(st: Stats, n: nat): Stats {
    st.(realFrees := st.realFrees + 1, reallyFreed := st.reallyFreed + n)
  }

  lemma RecycledParts(s: State, s2: State, t: nat, b: nat, bk: Block, ch: Chunk)
    requires b in s.blocks && b in s.abs && s.abs[b].AQuar? && s.abs[b].ch == ch && Hdr(ch) >= 0 && bk == s.blocks[b]
    requires RecycleBounds(Recycling.Picked(s, t, b), t) && s2 == RecycleDone(Recycling.Picked(s, t, b), t) && t !in s.threads
    ensures b + LARGE_HEADER <= |s.mem| && Hdr(ch) < |s.mem| && s2.mem == RecycleMemFrom(s.mem, CLEAR_MAGIC, Hdr(ch), b, bk.primary)
    ensures ch.user + RoundUp8(ch.size) <= 8 * |s.shadow| && bk.lead <= b && b + bk.size <= 8 * |s.shadow|
    ensures bk.primary ==> s2.shadow == PoisonShadow(s.shadow, s.on, ch.user, ch.user + RoundUp8(ch.size), HEAP_LEFT_REDZONE)
    ensures !bk.primary ==> s2.shadow == PoisonShadow(s.shadow, s.on, b - bk.lead, b + bk.size, 0)
    ensures s2.stats == CountedRecycle(s.stats, t, ch.size)
    ensures if bk.primary then b in s2.free && b in s2.blocks else b !in s2.blocks
  {
    PickedChange(s, Recycling.Picked(s, t, b), t, b);
  }

  lemma ReclaimedParts(s: State, s2: State, t: nat, b: nat, bk: Block, ch: Chunk)
    requires b + LARGE_HEADER <= |s.mem| && 0 <= Hdr(ch) < |s.mem| && (b == Hdr(ch) || b + LARGE_HEADER <= Hdr(ch)) && ch.user % 8 == 0
    requires s2.mem == RecycleMemFrom(s.mem, CLEAR_MAGIC, Hdr(ch), b, bk.primary)
    requires ch.user + RoundUp8(ch.size) <= 8 * |s.shadow| && bk.lead <= b && b + bk.size <= 8 * |s.shadow|
    requires bk.primary ==> s2.shadow == PoisonShadow(s.shadow, s.on, ch.user, ch.user + RoundUp8(ch.size), HEAP_LEFT_REDZONE)
    requires !bk.primary ==> s2.shadow == PoisonShadow(s.shadow, s.on, b - bk.lead, b + bk.size, 0)
    requires s2.stats == CountedRecycle(s.stats, t, ch.size)
    requires if bk.primary then b in s2.free && b in s2.blocks else b !in s2.blocks
    ensures Reclaimed(s, s2, t, b, bk, ch)
  {
    if bk.primary {
      RecycledBytes(s.mem, Hdr(ch), b);
      PoisonPaints(s.shadow, s.on, ch.user, ch.size, HEAP_LEFT_REDZONE);
    }
  }

  lemma RecycledIsReclaimed(s: State, s2: State, t: nat, b: nat, bk: Block, ch: Chunk)
    requires b in s.blocks && b in s.abs && s.abs[b].AQuar? && s.abs[b].ch == ch && Hdr(ch) >= 0 && bk == s.blocks[b]
    requires RecycleBounds(Recycling.Picked(s, t, b), t) && s2 == RecycleDone(Recycling.Picked(s, t, b), t) && t !in s.threads
    requires (b == Hdr(ch) || b + LARGE_HEADER <= Hdr(ch)) && ch.user % 8 == 0
    ensures Reclaimed(s, s2, t, b, bk, ch)
  {
    RecycledParts(s, s2, t, b, bk, ch);
    ReclaimedParts(s, s2, t, b, bk, ch);
  }

  /** What `Recycle` does, for every chunk. */
  lemma RecycleIsReclaimed(s: State, s2: State, t: nat, b: nat, bk: Block, ch: Chunk)
    requires Inv(s) && b in s.blocks && s.abs[b].AQuar? && s.abs[b].ch == ch && bk == s.blocks[b]
    requires RecycledAs(s, s2, t, b) && t !in s.threads
    ensures Reclaimed(s, s2, t, b, bk, ch)
  {
    HeaderBlock(s, b);
    RemIsMod(ch.user, 8);
    RecycledIsReclaimed(s, s2, t, b, bk, ch);
  }
}