/** Steps that obtain blocks, client writes, and re-initialisation keep the invariant. */
module HeapSteps {
  import opened Words
  import opened Layout
  import opened Memory
  import opened Chunks
  import opened Machine
  import opened Invariant
  import opened Lookup

  // -------------------------------------------------------------------- mapping

  lemma MapSame(s: State, p: nat, size: nat, b: nat)
    requires Shape(s) && MapEnabled(s, p, size) && |s.mem| == 8 * |s.shadow| && b in s.blocks && b in s.abs
    ensures SameFor(s, Mapped(s, p, size), b)
  {
    assert BlockShape(s, b);
    ApartSame(s, Mapped(s, p, size), p, p + size, b, s.blocks[b].size);
  }

  lemma MapUncarved(s: State, p: nat, size: nat)
    requires Uncarved(s) && MapEnabled(s, p, size) && |s.mem| == 8 * |s.shadow|
    ensures Uncarved(Mapped(s, p, size))
  {
    var s' := Mapped(s, p, size);
    forall g | g in s'.spare
      ensures SpareOk(s', g)
    {
      if p <= 8 * g < p + size {
        assert Uncovered(s.blocks, 8 * g);
      } else {
        assert SpareOk(s, g);
      }
    }
  }

  /** Mapping memory for later blocks concerns no block. */
  lemma MapKeeps(s: State, p: nat, size: nat)
    requires Inv(s) && Enabled(s, Map(p, size))
    ensures Safe(s, Map(p, size)) && Inv(Apply(s, Map(p, size)))
  {
    RemIsMod(p, 8);
    SumOfEights(p, size);
    RemIsMod(p + size, 8);
    MapUncarved(s, p, size);
    var s' := Apply(s, Map(p, size));
    OwnersSame(s, s');
    forall b | b in s.blocks
      ensures BlockShape(s', b) && BlockOk(s', b)
    {
      MapSame(s, p, size, b);
      Frame(s, Mapped(s, p, size), b);
    }
  }

  // ---------------------------------------------------------------- new blocks

  /** A block is added to the table; nothing outside its range changes. */
  ghost predicate AddsBlock(s: State, s': State, b: nat) {
    && AddsEntry(s, s', b) && AddsThread(s, s', b)
    && Apart(s.blocks, b - s'.blocks[b].lead, b + s'.blocks[b].size)
    && Untouched(s, s', b - s'.blocks[b].lead, b + s'.blocks[b].size)
  }

  ghost predicate AddsEntry(s: State, s': State, b: nat) {
    && b in s'.blocks && b in s'.abs && s'.blocks[b].lead <= b && s'.blocks[b].size > 0
    && s'.on == s.on && s'.rz == s.rz && s'.flags == s.flags && s'.quarantine == s.quarantine
    && s'.stale == s.stale && s'.lost == s.lost
    && s'.blocks == s.blocks[b := s'.blocks[b]] && s'.abs == s.abs[b := s'.abs[b]]
    && (forall b' :: b' != b ==> (b' in s'.free <==> b' in s.free))
  }

  ghost predicate AddsThread(s: State, s': State, b: nat) {
    && (forall t :: t in s.threads ==> t in s'.threads && s'.threads[t] == s.threads[t])
    && (forall t :: t in s'.threads && t !in s.threads ==> s'.threads[t].b == b && b in s'.abs && s'.abs[b].ABusy? && s'.abs[b].t == t)
  }

  lemma AddedIsNew(s: State, s': State, b: nat)
    requires Shape(s) && AddsBlock(s, s', b)
    ensures b !in s.blocks && b !in s.abs
  {
    assert b in s.blocks ==> BlockShape(s, b);
  }

  lemma AddBlockSame(s: State, s': State, b: nat, b': nat)
    requires AddsBlock(s, s', b) && b' in s.blocks && b' in s.abs && b' != b && Anchored(s, b')
    ensures SameFor(s, s', b')
  {
    ApartSame(s, s', b - s'.blocks[b].lead, b + s'.blocks[b].size, b', s.blocks[b'].size);
  }

  lemma AddBlockOwners(s: State, s': State, b: nat)
    requires Owners(s) && AddsBlock(s, s', b) && b !in s.abs
    ensures Owners(s')
  {
    forall m | m in s'.quarantine
      ensures exists b1: nat :: QuarAt(s', b1, m)
    {
      var b1: nat :| QuarAt(s, b1, m);
      assert QuarAt(s', b1, m);
    }
  }

  lemma AddBlockKeeps(s: State, s': State, b: nat)
    requires Inv(s) && AddsBlock(s, s', b) && s'.free <= s'.blocks.Keys
    requires BlockShape(s', b) && BlockOk(s', b) && Uncarved(s')
    ensures Inv(s')
  {
    AddedIsNew(s, s', b);
    AddBlockOwners(s, s', b);
    assert s'.abs.Keys == s'.blocks.Keys;
    AddBlockApart(s, s', b);
    forall b' | b' in s'.blocks && b' != b
      ensures BlockShape(s', b')
    {
      assert BlockShape(s, b');
    }
    forall b' | b' in s'.blocks
      ensures BlockOk(s', b')
    {
      if b' != b {
        InvAnchors(s, b');
        AddBlockSame(s, s', b, b');
        Frame(s, s', b');
      }
    }
  }

  lemma AddBlockApart(s: State, s': State, b: nat)
    requires Shape(s) && AddsBlock(s, s', b)
    ensures forall b1, b2 :: b1 in s'.blocks && b2 in s'.blocks && b1 != b2 ==> BlocksApart(s'.blocks, b1, b2)
  {
    forall b1, b2 | b1 in s'.blocks && b2 in s'.blocks && b1 != b2
      ensures BlocksApart(s'.blocks, b1, b2)
    {
      if b1 != b && b2 != b {
        assert BlocksApart(s.blocks, b1, b2);
      }
    }
  }

  /** What is known of spare granules that were all mapped in one mode. */
  lemma SpareShadow(s: State, lo: nat, hi: nat, mode: bool, g: nat)
    requires Uncarved(s) && SpareIn(s.spare, lo, hi, mode) && lo <= 8 * g < hi
    ensures g < |s.shadow| && 8 * g < |s.mem| && s.mem[8 * g] == 0 && if mode then Poison(s.shadow[g]) else s.shadow[g] == 0
  {
    assert SpareOk(s, g);
  }

  /** The granules a block is carved from: a first part mapped in one mode, the rest in another. */
  ghost predicate CarvedFrom(s: State, b: nat, mid: nat, end: nat, first: bool) {
    b % 8 == 0 && b < end && b <= mid <= end && SpareIn(s.spare, b, mid, first) && SpareIn(s.spare, mid, end, s.on)
  }

  lemma CarvedFirst(s: State, b: nat, mid: nat, end: nat, first: bool)
    requires Uncarved(s) && CarvedFrom(s, b, mid, end, first)
    ensures b < |s.mem| && s.mem[b] == 0 && b / 8 < |s.shadow|
    ensures b < mid && !first ==> s.shadow[b / 8] == 0
  {
    var f := b / 8;
    assert 8 * f == b;
    if b < mid {
      SpareShadow(s, b, mid, first, f);
    } else {
      SpareShadow(s, mid, end, s.on, f);
    }
  }

  lemma CarvedPoisoned(s: State, b: nat, mid: nat, end: nat, first: bool)
    requires Uncarved(s) && CarvedFrom(s, b, mid, end, first) && s.on && (b < mid ==> first)
    ensures AllPoisoned(s.shadow, b, end)
  {
    forall g | 0 <= g < |s.shadow| && b <= 8 * g < end
      ensures Poison(s.shadow[g])
    {
      if mid <= 8 * g {
        SpareShadow(s, mid, end, true, g);
      } else {
        SpareShadow(s, b, mid, true, g);
      }
    }
  }

  lemma CarveParts(s: State, b: nat, size: nat, leftover: nat) returns (first: bool)
    requires CarveEnabled(s, b, size, leftover)
    ensures CarvedFrom(s, b, b + leftover, b + size, first)
  {
    if SpareIn(s.spare, b, b + leftover, true) {
      first := true;
    } else {
      first := false;
    }
  }

  lemma CarveUncarved(s: State, b: nat, size: nat, leftover: nat)
    requires Uncarved(s) && Shape(s) && CarveEnabled(s, b, size, leftover) && b !in s.blocks
    ensures Uncarved(Carved(s, b, size))
  {
    var s' := Carved(s, b, size);
    forall g | g in s'.spare
      ensures SpareOk(s', g)
    {
      assert SpareOk(s, g);
    }
    forall g: nat | g < |s'.shadow| && g !in s'.spare && Uncovered(s'.blocks, 8 * g)
      ensures s'.shadow[g] == 0
    {
      assert b in s'.blocks && !(b <= 8 * g < b + size);
      UncoveredBefore(s.blocks, b, Block(size, 0, true), 8 * g);
    }
  }

  lemma UncoveredBefore(blocks: map<nat, Block>, b: nat, bk: Block, a: int)
    requires b !in blocks && Uncovered(blocks[b := bk], a)
    ensures Uncovered(blocks, a) && !(b - bk.lead <= a < b + bk.size)
  {
    forall b' | b' in blocks
      ensures !(b' - blocks[b'].lead <= a < b' + blocks[b'].size)
    {
      assert b' in blocks[b := bk];
    }
    assert b in blocks[b := bk];
  }

  lemma CarveAdds(s: State, b: nat, size: nat, leftover: nat)
    requires Shape(s) && CarveEnabled(s, b, size, leftover)
    ensures AddsBlock(s, Carved(s, b, size), b) && BlockShape(Carved(s, b, size), b)
  {
    RemIsMod(b, 16);
    SixteenIsEight(b);
    SixteenIsEight(size);
    RemIsMod(size, 8);
  }

  lemma CarvedFacts(s: State, b: nat, size: nat, leftover: nat)
    requires Shape(s) && Uncarved(s) && CarveEnabled(s, b, size, leftover)
    ensures var s' := Carved(s, b, size);
            AddsBlock(s, s', b) && BlockShape(s', b) && BlockOk(s', b) && Uncarved(s')
  {
    CarveAdds(s, b, size, leftover);
    AddedIsNew(s, Carved(s, b, size), b);
    var first := CarveParts(s, b, size, leftover);
    CarvedFirst(s, b, b + leftover, b + size, first);
    if s.on && (b < (b + leftover) ==> first) {
      CarvedPoisoned(s, b, b + leftover, b + size, first);
    }
    CarveUncarved(s, b, size, leftover);
  }

  lemma CarveKeeps(s: State, b: nat, size: nat, leftover: nat)
    requires Inv(s) && CarveEnabled(s, b, size, leftover)
    ensures Safe(s, Carve(b, size, leftover)) && Inv(Carved(s, b, size))
  {
    CarvedFacts(s, b, size, leftover);
    AddBlockKeeps(s, Carved(s, b, size), b);
  }

  // -------------------------------------------------------------------- malloc

  /** The ranges `OnMapSecondary` poisons are whole granules. */
  lemma SecondaryIsSafe(mapBeg: nat, needed: nat)
    requires mapBeg % PAGE == 0
    ensures SecondarySafe(mapBeg, needed)
  {
    PageIsGranular(mapBeg);
    PageIsGranular(RoundUpPage(needed));
    EightfoldSum(mapBeg, PAGE);
    EightfoldSum(mapBeg + PAGE, RoundUpPage(needed));
    RemIsMod((mapBeg + PAGE + needed) / 8 * 8, 8);
  }

  lemma PageIsGranular(x: nat)
    requires x % PAGE == 0
    ensures Multiple(x, 8) && Multiple(PAGE, 8)
  {
    assert x % 8 == 0;
    RemIsMod(x, 8);
    RemIsMod(PAGE, 8);
  }

  /** The plan a `Malloc` step works with, and that its CHECKs pass. */
  lemma MallocPlan(s: State, step: Step, bk: Block)
    requires step.Malloc? && Enabled(s, step) && Shape(s)
    requires var plan := PlanOf(s, step);
             var b := SourceBeg(step.source);
             0 < b && Multiple(b, 16) && plan.needed <= bk.size && b + bk.size <= |s.mem|
    ensures var plan := PlanOf(s, step);
            PlanOk(plan) && PlacedOk(SourceBeg(step.source), plan)
    ensures Safe(s, step) && MallocBounds(s, step)
  {
    var plan := PlanOf(s, step);
    AcceptedPlanOk(step.size0, step.alignment0, s.rz, s.maxUser);
    RemIsMod(SourceBeg(step.source), 16);
    PlacementOk(SourceBeg(step.source), plan);
    if step.source.Secondary? {
      SecondaryIsSafe(step.source.mapBeg, plan.needed);
    }
    ShapeInMemory(s);
  }

  lemma MallocFits(s: State, step: Step, bk: Block)
    requires MallocBounds(s, step) && Enabled(s, step) && |s.mem| <= SPACE
    requires var plan := PlanOf(s, step);
             var b := SourceBeg(step.source);
             PlanOk(plan) && 0 < b && Multiple(b, 16) && plan.needed <= bk.size && b + bk.size <= |s.mem|
    ensures Fits(SourceBeg(step.source), bk, NewChunk(s, step))
  {
    RemIsMod(SourceBeg(step.source), 16);
    PlacementOk(SourceBeg(step.source), PlanOf(s, step));
    SixteenIsEight(NewChunk(s, step).user);
    RemIsMod(NewChunk(s, step).user, 8);
  }

  /** A free block is recorded as such. */
  lemma FreeIsFree(s: State, b: nat)
    requires Inv(s) && b in s.free
    ensures b in s.blocks && b in s.abs && s.abs[b].AFree? && BlockShape(s, b) && BlockOk(s, b)
  {
    assert BlockOk(s, b);
  }

  lemma MallocPrimaryLocal(s: State, step: Step)
    requires MallocBounds(s, step) && step.source.Primary? && step.source.b in s.abs && step.t !in s.threads
    ensures LocalStep(s, ApplyMalloc(s, step), step.t, step.source.b)
    ensures ApplyMalloc(s, step).quarantine == s.quarantine && ApplyMalloc(s, step).free <= s.free
    ensures ApplyMalloc(s, step).threads[step.t].b == step.source.b
    ensures ApplyMalloc(s, step).abs[step.source.b].ABusy? && ApplyMalloc(s, step).abs[step.source.b].t == step.t
  {
  }

  lemma MallocPrimaryKeeps(s: State, step: Step)
    requires Inv(s) && step.Malloc? && step.source.Primary? && Enabled(s, step)
    ensures Safe(s, step) && Inv(Apply(s, step))
  {
    var b := step.source.b;
    FreeIsFree(s, b);
    MallocPlan(s, step, s.blocks[b]);
    MallocFits(s, step, s.blocks[b]);
    MallocPrimaryFrom(s, step);
  }

  lemma MallocPrimaryStory(s: State, step: Step)
    requires MallocBounds(s, step) && step.source.Primary? && step.source.b in s.abs
    requires PlanOk(PlanOf(s, step))
    requires BlockShape(s, step.source.b) && BlockOk(s, step.source.b) && s.abs[step.source.b].AFree?
    requires Fits(step.source.b, s.blocks[step.source.b], NewChunk(s, step))
    ensures BlockShape(ApplyMalloc(s, step), step.source.b) && BlockOk(ApplyMalloc(s, step), step.source.b)
  {
    assert PlanOf(s, step).fromPrimary;
  }

  lemma MallocPrimaryFrom(s: State, step: Step)
    requires Inv(s) && MallocBounds(s, step) && step.source.Primary? && step.source.b in s.abs && step.t !in s.threads
    requires PlanOk(PlanOf(s, step))
    requires BlockShape(s, step.source.b) && BlockOk(s, step.source.b) && s.abs[step.source.b].AFree?
    requires Fits(step.source.b, s.blocks[step.source.b], NewChunk(s, step))
    ensures Inv(ApplyMalloc(s, step))
  {
    MallocPrimaryStory(s, step);
    MallocPrimaryLocal(s, step);
    OwnBlockQuarantine(s, ApplyMalloc(s, step), step.source.b);
    LocalStepKeeps(s, ApplyMalloc(s, step), step.t, step.source.b);
  }

  lemma PageFacts(mapBeg: nat, needed: nat)
    requires mapBeg % PAGE == 0
    ensures Multiple(mapBeg + PAGE, 16) && Multiple(RoundUpPage(needed), 8) && Multiple(PAGE, 8)
  {
    assert (mapBeg + PAGE) % 16 == 0;
    RemIsMod(mapBeg + PAGE, 16);
    PageIsGranular(RoundUpPage(needed));
  }

  lemma MallocSecondaryAdds(s: State, step: Step)
    requires MallocBounds(s, step) && step.source.Secondary? && step.t !in s.threads
    ensures AddsBlock(s, ApplyMalloc(s, step), SourceBeg(step.source))
  {
    SecondaryUntouched(s, step);
  }

  lemma SecondaryUntouched(s: State, step: Step)
    requires MallocBounds(s, step) && step.source.Secondary?
    ensures var plan := PlanOf(s, step);
            Untouched(s, ApplyMalloc(s, step), step.source.mapBeg, step.source.mapBeg + PAGE + RoundUpPage(plan.needed))
  {
  }

  /** The mapping is neither spare memory nor, afterwards, uncovered. */
  lemma SecondaryElsewhere(s: State, step: Step, g: nat)
    requires MallocBounds(s, step) && step.source.Secondary? && SourceBeg(step.source) !in s.blocks && g < |s.shadow|
    requires g in s.spare || Uncovered(ApplyMalloc(s, step).blocks, 8 * g)
    ensures ApplyMalloc(s, step).shadow[g] == s.shadow[g]
    ensures Uncovered(ApplyMalloc(s, step).blocks, 8 * g) ==> Uncovered(s.blocks, 8 * g)
  {
    var plan := PlanOf(s, step);
    SecondaryUntouched(s, step);
    if Uncovered(ApplyMalloc(s, step).blocks, 8 * g) {
      UncoveredBefore(s.blocks, SourceBeg(step.source), Block(RoundUpPage(plan.needed), PAGE, false), 8 * g);
    }
  }

  lemma SecondaryUncarved(s: State, step: Step)
    requires Uncarved(s) && MallocBounds(s, step) && step.source.Secondary? && SourceBeg(step.source) !in s.blocks
    ensures Uncarved(ApplyMalloc(s, step))
  {
    var s' := ApplyMalloc(s, step);
    forall g | g in s'.spare
      ensures SpareOk(s', g)
    {
      SecondaryElsewhere(s, step, g);
      SecondaryUntouched(s, step);
    }
    forall g: nat | g < |s'.shadow| && g !in s'.spare && Uncovered(s'.blocks, 8 * g)
      ensures s'.shadow[g] == 0
    {
      SecondaryElsewhere(s, step, g);
    }
  }

  /** What a fresh mapping's record looks like when `Allocate` begins. */
  lemma SecondaryRecord(s: State, step: Step, s1: State, b: nat, bk: Block, ch: Chunk)
    requires Shape(s) && MallocBounds(s, step) && step.source.Secondary? && Enabled(s, step) && s1 == ApplyMalloc(s, step)
    requires PlanOk(PlanOf(s, step)) && b == SourceBeg(step.source) && ch == NewChunk(s, step)
    requires bk == Block(RoundUpPage(PlanOf(s, step).needed), PAGE, false) && bk.size >= LARGE_HEADER
    ensures b in s1.blocks && s1.blocks[b] == bk && b in s1.abs && s1.abs[b] == ABusy(step.t, ch)
    ensures step.t in s1.threads && s1.threads[step.t] == AllocTask(PUT_KIND, b, ch, false, step.fill, false, false)
    ensures b + bk.size <= |s1.mem| && s1.mem[b] == CHUNK_INVALID && s1.free == s.free
  {
  }

  lemma FreshStory(s1: State, t: nat, b: nat, bk: Block, ch: Chunk, fill: nat)
    requires b in s1.blocks && s1.blocks[b] == bk && b in s1.abs && s1.abs[b] == ABusy(t, ch) && b !in s1.free && !bk.primary
    requires t in s1.threads && s1.threads[t] == AllocTask(PUT_KIND, b, ch, false, fill, false, false)
    requires BlockShape(s1, b) && s1.mem[b] == CHUNK_INVALID && Fits(b, bk, ch)
    ensures BlockOk(s1, b)
  {
  }

  lemma MallocSecondaryStory(s: State, step: Step)
    requires Shape(s) && MallocBounds(s, step) && step.source.Secondary? && Enabled(s, step)
    requires PlanOk(PlanOf(s, step)) && SourceBeg(step.source) !in s.free
    requires Fits(SourceBeg(step.source), Block(RoundUpPage(PlanOf(s, step).needed), PAGE, false),
                  NewChunk(s, step))
    ensures BlockShape(ApplyMalloc(s, step), SourceBeg(step.source)) && BlockOk(ApplyMalloc(s, step), SourceBeg(step.source))
  {
    var needed := PlanOf(s, step).needed;
    var s1, b, bk, ch := ApplyMalloc(s, step), SourceBeg(step.source), Block(RoundUpPage(needed), PAGE, false), NewChunk(s, step);
    PageFacts(step.source.mapBeg, needed);
    SecondaryRecord(s, step, s1, b, bk, ch);
    FreshStory(s1, step.t, b, bk, ch, step.fill);
  }

  lemma MallocSecondaryPlan(s: State, step: Step)
    requires Shape(s) && step.Malloc? && step.source.Secondary? && Enabled(s, step)
    ensures Safe(s, step) && MallocBounds(s, step) && PlanOk(PlanOf(s, step))
    ensures Fits(SourceBeg(step.source), Block(RoundUpPage(PlanOf(s, step).needed), PAGE, false),
                 NewChunk(s, step))
  {
    var plan := PlanOf(s, step);
    var bk := Block(RoundUpPage(plan.needed), PAGE, false);
    PageFacts(step.source.mapBeg, plan.needed);
    AcceptedPlanOk(step.size0, step.alignment0, s.rz, s.maxUser);
    MallocPlan(s, step, bk);
    MallocFits(s, step, bk);
  }

  lemma MallocSecondaryKeeps(s: State, step: Step)
    requires Inv(s) && step.Malloc? && step.source.Secondary? && Enabled(s, step)
    ensures Safe(s, step) && Inv(Apply(s, step))
  {
    MallocSecondaryPlan(s, step);
    var b := SourceBeg(step.source);
    MallocSecondaryAdds(s, step);
    AddedIsNew(s, ApplyMalloc(s, step), b);
    SecondaryUncarved(s, step);
    MallocSecondaryStory(s, step);
    AddBlockKeeps(s, ApplyMalloc(s, step), b);
  }

  /** Whatever the underlying allocator answers, there is room for the chunk. */
  lemma MallocHasBounds(s: State, step: Step)
    requires Inv(s) && step.Malloc? && Enabled(s, step)
    ensures MallocBounds(s, step)
  {
    if step.source.Primary? {
      FreeIsFree(s, step.source.b);
      MallocPlan(s, step, s.blocks[step.source.b]);
    } else {
      MallocSecondaryPlan(s, step);
    }
  }

  // -------------------------------------------------------------- client writes

  /** The client wrote to the user bytes of the live chunk in block b, and nowhere else. */
  ghost predicate UserBytesWritten(s: State, s': State, b: nat) {
    && b in s.blocks && b in s.abs && s.abs[b].ALive? && s' == s.(mem := s'.mem) && |s'.mem| == |s.mem|
    && var ch := s.abs[b].ch;
    forall i :: 0 <= i < |s.mem| && !(ch.user <= i < ch.user + ch.size) ==> s'.mem[i] == s.mem[i]
  }

  lemma UserBytesOther(s: State, s': State, b: nat, b': nat)
    requires UserBytesWritten(s, s', b) && Fits(b, s.blocks[b], s.abs[b].ch)
    requires b' in s.blocks && b' in s.abs && BlocksApart(s.blocks, b, b') && BlockShape(s, b') && BlockOk(s, b')
    ensures BlockShape(s', b') && BlockOk(s', b')
  {
    assert SameBytes(s.mem, s'.mem, b', b' + s.blocks[b'].size);
    Frame(s, s', b');
  }

  /** Whatever a client writes to a live chunk of its own, the allocator's invariant stands. */
  lemma UserBytesKeep(s: State, s': State, b: nat)
    requires Inv(s) && UserBytesWritten(s, s', b)
    ensures Inv(s')
  {
    HeaderBlock(s, b);
    PublishedFrame(s.mem, s'.mem, b, s.blocks[b], s.abs[b].ch, CHUNK_ALLOCATED);
    forall b' | b' in s.blocks
      ensures BlockShape(s', b') && BlockOk(s', b')
    {
      if b' != b {
        UserBytesOther(s, s', b, b');
      }
    }
    OwnersSame(s, s');
    UncarvedSame(s, s', b);
  }

  lemma OneByteWritten(s: State, a: nat, v: Byte, b: nat)
    requires a < |s.mem| && b in s.blocks && b in s.abs && s.abs[b].ALive?
    requires s.abs[b].ch.user <= a < s.abs[b].ch.user + s.abs[b].ch.size
    ensures UserBytesWritten(s, s.(mem := s.mem[a := v]), b)
  {
  }

  lemma UserWriteKeeps(s: State, a: nat, v: Byte)
    requires Inv(s) && Enabled(s, UserWrite(a, v))
    ensures Safe(s, UserWrite(a, v)) && Inv(Apply(s, UserWrite(a, v)))
  {
    var b :| b in s.abs && s.abs[b].ALive? && s.abs[b].ch.user <= a < s.abs[b].ch.user + s.abs[b].ch.size;
    OneByteWritten(s, a, v, b);
    UserBytesKeep(s, s.(mem := s.mem[a := v]), b);
  }

  // ----------------------------------------------------------- re-initialisation

  /** A mode in which nothing need be said of the redzones only weakens what the shadow has to say. */
  lemma SwitchedLive(s: State, s': State, b: nat, bk: Block, ch: Chunk)
    requires Fits(b, bk, ch) && !OnFor(s', b) && s'.shadow == s.shadow && s'.lost == s.lost && LiveShadow(s, b, bk, ch)
    ensures LiveShadow(s', b, bk, ch)
  {
    if ch.id !in s.lost {
      LiveClears(s, b, bk, ch);
    }
  }

  lemma SwitchedStory(s: State, s': State, b: nat)
    requires b in s.blocks && b in s.abs && BlockShape(s, b) && BlockOk(s, b)
    requires !OnFor(s', b) && s' == s.(on := s'.on, rz := s'.rz, stale := s'.stale)
    ensures BlockShape(s', b) && BlockOk(s', b)
  {
    match s.abs[b]
    case AFree =>
    case ALive(ch) => SwitchedLive(s, s', b, s.blocks[b], ch);
    case AQuar(ch, _) =>
    case ABusy(t, ch) =>
      if s.threads[t].AllocTask? && s.threads[t].pc > PUT_PARTIAL {
        SwitchedLive(s, s', b, s.blocks[b], ch);
      }
  }

  lemma SwitchUncarved(s: State, on: bool, rz: Redzones)
    requires Uncarved(s)
    ensures Uncarved(Switched(s, on, rz))
  {
    var s' := Switched(s, on, rz);
    forall g | g in s'.spare
      ensures SpareOk(s', g)
    {
      assert SpareOk(s, g);
    }
  }

  /** New options, poisoning on or off: every block waits for re-poisoning, or none matters. */
  lemma SwitchKeeps(s: State, on: bool, rz: Redzones)
    requires Inv(s) && CheckRedzones(rz)
    ensures Inv(Switched(s, on, rz))
  {
    var s' := Switched(s, on, rz);
    OwnersSame(s, s');
    SwitchUncarved(s, on, rz);
    forall b | b in s.blocks
      ensures BlockShape(s', b) && BlockOk(s', b)
    {
      assert BlockShape(s, b) && BlockOk(s, b);
      SwitchedStory(s, s', b);
    }
  }

  /** The shadow of block b has been rewritten and is up to date: poisoning is on, b needs no visit. */
  ghost predicate RePoisoned(s: State, s': State, b: nat) {
    && b in s.blocks && b in s.abs && b + LARGE_HEADER <= b + s.blocks[b].size <= |s.mem| == 8 * |s.shadow|
    && OnFor(s', b) && s'.mem == s.mem && s'.blocks == s.blocks && s'.abs == s.abs && s'.threads == s.threads && s'.free == s.free
    && s'.quarantine == s.quarantine && s.lost <= s'.lost && (Loses(s, b) ==> s.abs[b].ch.id in s'.lost)
    && SameShadow(s'.shadow, RePoisonChunk(s.mem, s.shadow, b, s.blocks[b]), b, b + s.blocks[b].size)
  }

  lemma RePoisonedHidden(s: State, s': State, b: nat)
    requires RePoisoned(s, s', b)
    requires var ac := GetAsanChunk(s.mem, b, s.blocks[b].primary); ac.Some? ==> s.mem[ac.value] != CHUNK_ALLOCATED
    ensures AllPoisoned(s'.shadow, b, b + s.blocks[b].size)
  {
  }

  /** The shadow of a findable live chunk's block after re-poisoning. */
  lemma RePoisonedFound(s: State, s': State, b: nat, ch: Chunk)
    requires RePoisoned(s, s', b) && Fits(b, s.blocks[b], ch) && Findable(b, s.blocks[b], ch)
    requires Published(s.mem, b, s.blocks[b], ch, CHUNK_ALLOCATED)
    ensures SameShadow(s'.shadow, LiveRePoisoned(s.shadow, b, b + s.blocks[b].size, ch.user, ch.size), b, b + s.blocks[b].size)
  {
    PublishedIsFound(s.mem, b, s.blocks[b], ch, CHUNK_ALLOCATED);
  }

  lemma SameExact(sh: Shadow, sh': Shadow, lo: int, hi: int, u: int, n: int)
    requires SameShadow(sh', sh, lo, hi)
    ensures ExactShadow(sh, lo, hi, u, n) ==> ExactShadow(sh', lo, hi, u, n)
    ensures OutsidePoisoned(sh, lo, hi, u, n) ==> OutsidePoisoned(sh', lo, hi, u, n)
  {
  }

  /** That makes the shadow exact when the whole granules were clear. */
  lemma LiveRePoisonedExact(sh: Shadow, b: nat, end: nat, u: nat, n: nat)
    requires b <= u && u + n <= end <= 8 * |sh| && Multiple(u, 8) && WholeGranulesClear(sh, u, n)
    ensures ExactShadow(LiveRePoisoned(sh, b, end, u, n), b, end, u, n)
  {
    RemIsMod(u, 8);
  }

  /** Re-poisoning a chunk in use poisons around its user memory in any case. */
  lemma LiveRePoisonedOutside(sh: Shadow, b: nat, end: nat, u: nat, n: nat)
    requires b <= u && u + n <= end <= 8 * |sh| && Multiple(u, 8)
    ensures OutsidePoisoned(LiveRePoisoned(sh, b, end, u, n), b, end, u, n)
  {
    RemIsMod(u, 8);
  }

  /** What that shadow says: the redzones are poisoned, and all is exact if the whole granules were clear. */
  lemma RePoisonedShadow(sh: Shadow, sh': Shadow, b: nat, end: nat, u: nat, n: nat)
    requires b <= u && u + n <= end <= 8 * |sh| && Multiple(u, 8)
    requires SameShadow(sh', LiveRePoisoned(sh, b, end, u, n), b, end)
    ensures OutsidePoisoned(sh', b, end, u, n)
    ensures WholeGranulesClear(sh, u, n) ==> ExactShadow(sh', b, end, u, n)
  {
    LiveRePoisonedOutside(sh, b, end, u, n);
    if WholeGranulesClear(sh, u, n) {
      LiveRePoisonedExact(sh, b, end, u, n);
    }
    SameExact(LiveRePoisoned(sh, b, end, u, n), sh', b, end, u, n);
  }

  lemma RePoisonedUnfindable(s: State, s': State, b: nat, ch: Chunk)
    requires RePoisoned(s, s', b) && s.abs[b] == ALive(ch) && Fits(b, s.blocks[b], ch) && !Findable(b, s.blocks[b], ch)
    requires Published(s.mem, b, s.blocks[b], ch, CHUNK_ALLOCATED)
    ensures AllPoisoned(s'.shadow, b, b + s.blocks[b].size) && ch.id in s'.lost
  {
    PublishedIsFound(s.mem, b, s.blocks[b], ch, CHUNK_ALLOCATED);
    RePoisonedHidden(s, s', b);
  }

  /** Unless it was lost, a live chunk's whole granules are clear in either mode. */
  lemma LiveClears(s: State, b: nat, bk: Block, ch: Chunk)
    requires Fits(b, bk, ch) && LiveShadow(s, b, bk, ch) && ch.id !in s.lost
    ensures WholeGranulesClear(s.shadow, ch.user, ch.size)
  {
  }

  lemma RePoisonedAlloc(s: State, s': State, b: nat, ch: Chunk, t: nat)
    requires RePoisoned(s, s', b) && s.abs[b] == ABusy(t, ch) && Fits(b, s.blocks[b], ch) && t in s.threads && s.threads[t].AllocTask?
    requires var task := s.threads[t]; task.ch == ch && AllocOk(s, b, s.blocks[b], ch, task.pc, task.guess, task.wide, task.part)
    ensures var task := s.threads[t]; AllocOk(s', b, s.blocks[b], ch, task.pc, task.guess, task.wide, task.part)
  {
    InvalidStartHides(s.mem, b, s.blocks[b].primary);
    RePoisonedHidden(s, s', b);
  }

  lemma RePoisonedFree(s: State, s': State, b: nat, ch: Chunk, t: nat)
    requires RePoisoned(s, s', b) && Fits(b, s.blocks[b], ch) && t in s.threads && s.threads[t].FreeTask?
    requires FreeOk(s, t, b, s.blocks[b], ch, s.threads[t].pc, s.threads[t].stack)
    ensures FreeOk(s', t, b, s.blocks[b], ch, s.threads[t].pc, s.threads[t].stack)
  {
    PublishedIsFound(s.mem, b, s.blocks[b], ch, CHUNK_QUARANTINE);
    RePoisonedHidden(s, s', b);
  }

  lemma RePoisonedRecycle(s: State, s': State, b: nat, ch: Chunk, pc: nat)
    requires RePoisoned(s, s', b) && Fits(b, s.blocks[b], ch) && RecycleOk(s, b, s.blocks[b], ch, pc)
    ensures RecycleOk(s', b, s.blocks[b], ch, pc)
  {
    RecyclingIsSeen(s, b, s.blocks[b], ch, pc);
    RePoisonedHidden(s, s', b);
  }

  lemma RePoisonedLive(s: State, s': State, b: nat, ch: Chunk)
    requires RePoisoned(s, s', b) && s.abs[b] == ALive(ch) && Fits(b, s.blocks[b], ch)
    requires Published(s.mem, b, s.blocks[b], ch, CHUNK_ALLOCATED) && LiveShadow(s, b, s.blocks[b], ch)
    ensures LiveShadow(s', b, s.blocks[b], ch)
  {
    if !Findable(b, s.blocks[b], ch) {
      RePoisonedUnfindable(s, s', b, ch);
    } else {
      RePoisonedFound(s, s', b, ch);
      RePoisonedShadow(s.shadow, s'.shadow, b, b + s.blocks[b].size, ch.user, ch.size);
      if ch.id !in s.lost {
        LiveClears(s, b, s.blocks[b], ch);
      }
    }
  }

  lemma RePoisonedBusy(s: State, s': State, b: nat, ch: Chunk, t: nat)
    requires RePoisoned(s, s', b) && s.abs[b] == ABusy(t, ch) && BlockShape(s, b) && BlockOk(s, b)
    ensures BlockOk(s', b)
  {
    match s.threads[t]
    case AllocTask(_, _, _, _, _, _, _) => RePoisonedAlloc(s, s', b, ch, t);
    case FreeTask(_, _, _, _) => RePoisonedFree(s, s', b, ch, t);
    case RecycleTask(pc, _, _) => RePoisonedRecycle(s, s', b, ch, pc);
  }

  /** The story of block b goes on, whoever is at work on it. */
  lemma RePoisonedStory(s: State, s': State, b: nat)
    requires RePoisoned(s, s', b) && BlockShape(s, b) && BlockOk(s, b)
    ensures BlockShape(s', b) && BlockOk(s', b)
  {
    match s.abs[b]
    case AFree =>
      InvalidStartHides(s.mem, b, s.blocks[b].primary);
      RePoisonedHidden(s, s', b);
    case ALive(ch) =>
      RePoisonedLive(s, s', b, ch);
    case AQuar(ch, _) =>
      PublishedIsFound(s.mem, b, s.blocks[b], ch, CHUNK_QUARANTINE);
      RePoisonedHidden(s, s', b);
    case ABusy(t, ch) =>
      RePoisonedBusy(s, s', b, ch, t);
  }

  lemma BlockRePoisonSafe(s: State, b: nat)
    requires b in s.blocks && b in s.abs && BlockShape(s, b) && BlockOk(s, b)
    ensures RePoisonSafe(s.mem, b, s.blocks[b])
  {
    SixteenfoldIsEightfold(b);
    EightfoldSum(b, s.blocks[b].size);
    if ChunkInUse(s.mem, b, s.blocks[b]).Some? {
      BlockDecodes(s, b);
    }
  }

  /** Re-poisoning a block changes no granule outside it, and looks at no other granule. */
  lemma RePoisonLocal(m: Mem, sh: Shadow, sh': Shadow, b: nat, bk: Block, g: int)
    requires b + LARGE_HEADER <= b + bk.size <= |m| == 8 * |sh| && |sh'| == |sh| && 0 <= g < |sh| && sh'[g] == sh[g]
    requires b % 8 == 0
    ensures !(b <= 8 * g < b + bk.size) ==> RePoisonChunk(m, sh, b, bk)[g] == sh[g]
    ensures RePoisonChunk(m, sh', b, bk)[g] == RePoisonChunk(m, sh, b, bk)[g]
  {
  }

  lemma RePoisonUntouched(s: State, b: nat)
    requires BlocksInMemory(s) && b in s.blocks && b % 8 == 0
    ensures Untouched(s, RePoisonedAt(s, b), b, b + s.blocks[b].size)
  {
    var s' := RePoisonedAt(s, b);
    forall g | 0 <= g < |s.shadow| && !(b <= 8 * g < b + s.blocks[b].size)
      ensures s'.shadow[g] == s.shadow[g]
    {
      RePoisonLocal(s.mem, s.shadow, s.shadow, b, s.blocks[b], g);
    }
  }

  lemma RePoisonSame(s: State, b: nat, b': nat)
    requires BlocksInMemory(s) && b in s.blocks && b' in s.blocks && b' in s.abs && b' != b && BlocksApart(s.blocks, b, b')
    requires Untouched(s, RePoisonedAt(s, b), b, b + s.blocks[b].size)
    ensures SameFor(s, RePoisonedAt(s, b), b')
  {
    ApartSame(s, RePoisonedAt(s, b), b, b + s.blocks[b].size, b', s.blocks[b'].size);
  }

  /** The step rewrites the shadow of its block, and what that loses is recorded. */
  lemma RePoisonRecords(s: State, b: nat)
    requires BlocksInMemory(s) && b in s.blocks && b in s.abs && s.on
    ensures RePoisoned(s, RePoisonedAt(s, b), b)
  {
    assert Loses(s, b) ==> s.abs[b].ch.id in LostBy(s, {b});
  }

  lemma RePoisonBlocks(s: State, b: nat)
    requires Inv(s) && BlocksInMemory(s) && b in s.blocks && s.on && Shape(RePoisonedAt(s, b))
    requires Untouched(s, RePoisonedAt(s, b), b, b + s.blocks[b].size)
    ensures BlocksOk(RePoisonedAt(s, b))
  {
    var s' := RePoisonedAt(s, b);
    RePoisonRecords(s, b);
    forall b' | b' in s.blocks
      ensures BlockOk(s', b')
    {
      assert BlockShape(s, b') && BlockOk(s, b');
      if b' == b {
        RePoisonedStory(s, s', b);
      } else {
        assert BlocksApart(s.blocks, b, b');
        RePoisonSame(s, b, b');
        Frame(s, s', b');
      }
    }
  }

  /** Whatever the threads are doing, re-poisoning a block keeps the invariant; what it loses is recorded. */
  lemma RePoisonKeeps(s: State, b: nat)
    requires Inv(s) && Enabled(s, RePoison(b))
    ensures Safe(s, RePoison(b)) && Inv(Apply(s, RePoison(b)))
  {
    ShapeInMemory(s);
    assert BlockShape(s, b) && BlockOk(s, b);
    BlockRePoisonSafe(s, b);
    SixteenfoldIsEightfold(b);
    RePoisonUntouched(s, b);
    forall b' | b' in s.blocks
      ensures BlockShape(RePoisonedAt(s, b), b')
    {
      assert BlockShape(s, b');
    }
    OwnersSame(s, RePoisonedAt(s, b));
    UncarvedSame(s, RePoisonedAt(s, b), b);
    RePoisonBlocks(s, b);
  }
}
