/**
 Free primary blocks: when the shadow of each is wholly poisoned or wholly clear, and when a block
 that straddles two mappings is neither.
 */
module FreeBlocks {
  import opened Words
  import opened Layout
  import opened Memory
  import opened Chunks
  import opened Machine
  import opened Invariant
  import opened Runs
  import opened Effects
  import Recycling
  import HeapSteps

  ghost predicate AllClear(sh: Shadow, lo: int, hi: int) {
    forall g :: 0 <= g < |sh| && lo <= 8 * g < hi ==> sh[g] == 0
  }

  ghost predicate Uniform(sh: Shadow, b: nat, size: nat) {
    AllPoisoned(sh, b, b + size) || AllClear(sh, b, b + size)
  }

  ghost predicate IsFree(s: State, b: nat) {
    b in s.blocks && b in s.abs && s.abs[b].AFree?
  }

  /** The block begins in memory mapped while poisoning was off and ends in memory mapped since. */
  predicate Straddles(s: State, b: nat, size: nat, leftover: nat) {
    0 < leftover < size && b / 8 in s.spare && !s.spare[b / 8]
  }

  /**
   The free blocks that are neither poisoned nor clear, told from the steps alone. While blocks wait to
   be re-poisoned they are left out.
   */
  ghost function MixedAfter(s: State, step: Step, mixed: set<nat>): set<nat> {
    match step
    case Carve(b, size, leftover) => if Straddles(s, b, size, leftover) then mixed + {b} else mixed - {b}
    case Malloc(_, _, _, _, _, _, source) => mixed - {SourceBeg(source)}
    case ReInit(on, _) => if on then {} else mixed
    case Map(_, _) => mixed
    case Free(_, _, _) => mixed
    case Recycle(_, _) => mixed
    case Run(_, _) => mixed
    case RePoison(b) => mixed - {b}
    case UserWrite(_, _) => mixed
  }

  ghost function MixedAt(states: seq<State>, steps: seq<Step>, i: nat): set<nat>
    requires |states| == |steps| + 1 && i < |states|
    decreases i, states
  {
    if i == 0 then {} else MixedAfter(states[i - 1], steps[i - 1], MixedAt(states, steps, i - 1))
  }

  // ------------------------------------------------------------- blocks that stay

  /** A free block is still free, and its shadow the same. */
  ghost predicate StaysFree(s: State, s': State, b: nat)
    requires b in s.blocks
  {
    IsFree(s', b) && s'.blocks[b] == s.blocks[b] && SameShadow(s.shadow, s'.shadow, b, b + s.blocks[b].size)
  }

  /** The step neither takes the block nor re-poisons it. */
  ghost predicate Spares(step: Step, b: nat) {
    (step.Malloc? ==> SourceBeg(step.source) != b) && (step.RePoison? ==> step.b != b)
  }

  /** Such a step does not work on a free block. */
  lemma FreeIsUntouched(s: State, step: Step, b: nat)
    requires Inv(s) && Enabled(s, step) && IsFree(s, b) && Spares(step, b)
    ensures !Touches(s, step, b)
  {
    if step.Carve? {
      CarvedIsNew(s, step.b, step.size, step.leftover);
    }
  }

  /** Only taking the block, re-poisoning it, or new options concern a free block. */
  lemma StepStaysFree(s: State, step: Step, b: nat)
    requires Inv(s) && Enabled(s, step) && IsFree(s, b) && Spares(step, b) && !step.ReInit?
    ensures StaysFree(s, Apply(s, step), b) && (b in Apply(s, step).stale <==> b in s.stale)
  {
    FreeIsUntouched(s, step, b);
    StepIsLocal(s, step, b);
  }

  // --------------------------------------------------------- blocks that become free

  /** A block is free after a step that works on it if it was carved, given back, or is being re-poisoned. */
  lemma TouchedIsFree(s: State, s': State, step: Step, b: nat)
    requires Recorded(s, s', step) && Touches(s, step, b) && IsFree(s', b)
    ensures step.Carve? || step.RePoison? || step.Run?
    ensures step.Run? ==> Returns(s, step.t) && s.threads[step.t].b == b
  {
  }

  /** The last step of `Recycle` on a primary block. */
  ghost predicate Returns(s: State, t: nat) {
    && t in s.threads && s.threads[t].RecycleTask? && s.threads[t].pc >= RETURN_BLOCK
    && s.threads[t].b in s.blocks && s.blocks[s.threads[t].b].primary
  }

  // -------------------------------------------------------------------- carving

  lemma WholeClear(s: State, b: nat, end: nat)
    requires Uncarved(s) && SpareIn(s.spare, b, end, false)
    ensures AllClear(s.shadow, b, end)
  {
    forall g | 0 <= g < |s.shadow| && b <= 8 * g < end
      ensures s.shadow[g] == 0
    {
      HeapSteps.SpareShadow(s, b, end, false, g);
    }
  }

  lemma PartsUniformIff(s: State, b: nat, mid: nat, end: nat, first: bool)
    requires Uncarved(s) && s.on && HeapSteps.CarvedFrom(s, b, mid, end, first) && mid % 8 == 0
    ensures Uniform(s.shadow, b, end - b) <==> !Straddles(s, b, end - b, mid - b)
  {
    var f, m := b / 8, mid / 8;
    assert 8 * f == b && 8 * m == mid;
    if b < mid && !first {
      HeapSteps.SpareShadow(s, b, mid, false, f);
      if mid < end {
        HeapSteps.SpareShadow(s, mid, end, true, m);
      } else {
        WholeClear(s, b, end);
      }
    } else {
      HeapSteps.CarvedPoisoned(s, b, mid, end, first);
    }
  }

  /** The shadow a block is carved with: uniform unless it straddles. */
  lemma CarvedUniformIff(s: State, b: nat, size: nat, leftover: nat)
    requires Inv(s) && s.on && CarveEnabled(s, b, size, leftover)
    ensures Uniform(s.shadow, b, size) <==> !Straddles(s, b, size, leftover)
  {
    var first := HeapSteps.CarveParts(s, b, size, leftover);
    HeapSteps.CarvedFirst(s, b, b + leftover, b + size, first);
    PartsUniformIff(s, b, b + leftover, b + size, first);
  }

  // -------------------------------------------------------------------- over runs

  /** A free block the shadow has something to say about: it does not wait to be re-poisoned. */
  ghost predicate Settled(s: State, b: nat) {
    IsFree(s, b) && b !in s.stale
  }

  /** `mixed` are exactly those of them that are not uniform. */
  ghost predicate MixedIs(s: State, mixed: set<nat>) {
    && (forall b: nat :: b in mixed ==> Settled(s, b))
    && (forall b: nat :: Settled(s, b) ==> (Uniform(s.shadow, b, s.blocks[b].size) <==> b !in mixed))
  }

  lemma SameUniform(s: State, s': State, b: nat)
    requires IsFree(s, b) && StaysFree(s, s', b)
    ensures Uniform(s'.shadow, b, s'.blocks[b].size) <==> Uniform(s.shadow, b, s.blocks[b].size)
  {
  }

  lemma SameMixed(s: State, step: Step, mixed: set<nat>, b: nat)
    requires !step.ReInit? && Spares(step, b) && (step.Carve? ==> step.b != b)
    ensures b in MixedAfter(s, step, mixed) <==> b in mixed
  {
  }

  lemma StayingBlock(s: State, step: Step, mixed: set<nat>, b: nat)
    requires Inv(s) && Enabled(s, step) && !step.ReInit? && MixedIs(s, mixed)
    requires Settled(s, b) && Spares(step, b)
    ensures IsFree(Apply(s, step), b)
    ensures Uniform(Apply(s, step).shadow, b, Apply(s, step).blocks[b].size) <==> b !in MixedAfter(s, step, mixed)
  {
    StepStaysFree(s, step, b);
    SameUniform(s, Apply(s, step), b);
    if step.Carve? {
      CarvedIsNew(s, step.b, step.size, step.leftover);
    }
    SameMixed(s, step, mixed, b);
  }

  lemma FreeIsHidden(s: State, b: nat)
    requires Inv(s) && IsFree(s, b)
    ensures b + LARGE_HEADER <= |s.mem| && GetAsanChunk(s.mem, b, s.blocks[b].primary) == None
  {
    assert BlockShape(s, b) && BlockOk(s, b);
    InvalidStartHides(s.mem, b, s.blocks[b].primary);
  }

  /** Re-poisoning makes a free block uniform. */
  lemma RePoisonedUniform(s: State, b: nat)
    requires Inv(s) && Enabled(s, RePoison(b)) && IsFree(Apply(s, RePoison(b)), b)
    ensures AllPoisoned(Apply(s, RePoison(b)).shadow, b, b + Apply(s, RePoison(b)).blocks[b].size)
  {
    FreeIsHidden(s, b);
    HeapSteps.RePoisonRecords(s, b);
    HeapSteps.RePoisonedHidden(s, RePoisonedAt(s, b), b);
  }

  lemma ReturnResult(s: State, t: nat)
    requires RecycleBounds(s, t) && Returns(s, t)
    ensures var s' := ApplyRecycle(s, t); s'.shadow == s.shadow && s'.blocks == s.blocks && s'.stale == s.stale
  {
  }

  lemma ReturnedStory(s: State, t: nat)
    requires Recycling.Recycles(s, t) && Returns(s, t) && OnFor(s, s.threads[t].b)
    ensures AllPoisoned(s.shadow, s.threads[t].b, s.threads[t].b + s.blocks[s.threads[t].b].size)
  {
  }

  /** A block comes back from `Recycle` poisoned. */
  lemma ReturnedPoisoned(s: State, t: nat, keep: bool, b: nat)
    requires Inv(s) && Returns(s, t) && s.threads[t].b == b
    ensures var s' := RunTask(s, t, keep);
            s'.stale == s.stale && b in s'.blocks && (OnFor(s, b) ==> AllPoisoned(s'.shadow, b, b + s'.blocks[b].size))
  {
    Recycling.RecycleTaskStory(s, t);
    Recycling.RecycleSafe(s, t, keep);
    ReturnResult(s, t);
    if OnFor(s, b) {
      ReturnedStory(s, t);
    }
  }

  lemma NewlyReturned(s: State, t: nat, keep: bool, mixed: set<nat>, b: nat)
    requires Inv(s) && s.on && MixedIs(s, mixed) && Returns(s, t) && s.threads[t].b == b && Settled(RunTask(s, t, keep), b)
    ensures Uniform(RunTask(s, t, keep).shadow, b, RunTask(s, t, keep).blocks[b].size) && b !in mixed
  {
    ReturnedPoisoned(s, t, keep, b);
  }

  lemma NewlyFree(s: State, step: Step, mixed: set<nat>, b: nat)
    requires Inv(s) && s.on && Enabled(s, step) && !step.ReInit? && MixedIs(s, mixed)
    requires Touches(s, step, b) && Settled(Apply(s, step), b)
    ensures Uniform(Apply(s, step).shadow, b, Apply(s, step).blocks[b].size) <==> b !in MixedAfter(s, step, mixed)
  {
    StepIsRecorded(s, step);
    TouchedIsFree(s, Apply(s, step), step, b);
    if step.Carve? {
      CarvedUniformIff(s, b, step.size, step.leftover);
    } else if step.RePoison? {
      RePoisonedUniform(s, b);
    } else {
      NewlyReturned(s, step.t, step.keep, mixed, b);
    }
  }

  lemma StepKeepsMixed(s: State, step: Step, mixed: set<nat>)
    requires Inv(s) && s.on && Enabled(s, step) && !step.ReInit? && MixedIs(s, mixed)
    ensures MixedIs(Apply(s, step), MixedAfter(s, step, mixed))
  {
    var s', mixed' := Apply(s, step), MixedAfter(s, step, mixed);
    forall b: nat | b in mixed'
      ensures Settled(s', b)
    {
      if b in mixed {
        StepStaysFree(s, step, b);
      } else {
        CarvedIsNew(s, step.b, step.size, step.leftover);
      }
    }
    forall b: nat | Settled(s', b)
      ensures Uniform(s'.shadow, b, s'.blocks[b].size) <==> b !in mixed'
    {
      if Touches(s, step, b) {
        NewlyFree(s, step, mixed, b);
      } else {
        StepIsLocal(s, step, b);
        StayingBlock(s, step, mixed, b);
      }
    }
  }

  /** Right after a re-activation every block waits. */
  lemma ReactivationUnmixes(s: State, rz: Redzones)
    ensures MixedIs(Switched(s, true, rz), {})
  {
  }

  lemma ModeStays(s: State, s': State, step: Step)
    requires Recorded(s, s', step) && !step.ReInit?
    ensures s'.on == s.on
  {
  }

  lemma StepUniformIff(s: State, s': State, step: Step, mixed: set<nat>)
    requires Inv(s) && Enabled(s, step) && s' == Apply(s, step) && s'.on && (s.on ==> MixedIs(s, mixed))
    ensures MixedIs(s', MixedAfter(s, step, mixed))
  {
    if step.ReInit? {
      ReactivationUnmixes(s, step.rz);
    } else {
      StepIsRecorded(s, step);
      ModeStays(s, s', step);
      StepKeepsMixed(s, step, mixed);
    }
  }

  /**
   In every run, in every state with poisoning on: a free block that does not wait to be re-poisoned is
   wholly poisoned or wholly clear if and only if it is not one of those carved across two mappings,
   the first made while poisoning was off, and neither taken nor re-poisoned since.
   */
  lemma {:induction false} UniformIff(states: seq<State>, steps: seq<Step>, i: nat)
    requires IsRun(states, steps) && i < |states| && states[i].on
    ensures MixedIs(states[i], MixedAt(states, steps, i))
    decreases i
  {
    if i > 0 {
      var k := i - 1;
      RunIsSafe(states, steps, k);
      if states[k].on {
        UniformIff(states, steps, k);
      }
      StepUniformIff(states[k], states[i], steps[k], MixedAt(states, steps, k));
    }
  }

  // ------------------------------------------------- runs that never map while off

  ghost predicate NeverMapsOff(states: seq<State>, steps: seq<Step>, i: nat)
    requires |states| == |steps| + 1 && i < |states|
  {
    forall j :: 0 <= j < i && steps[j].Map? ==> states[j].on
  }

  ghost predicate SpareOn(s: State) {
    forall g :: g in s.spare ==> s.spare[g]
  }

  lemma StepSpareOn(s: State, s': State, step: Step)
    requires Recorded(s, s', step) && SpareOn(s) && (step.Map? ==> s.on)
    ensures SpareOn(s')
  {
  }

  lemma StepAddsNothing(s: State, step: Step)
    requires SpareOn(s) && (step.Carve? ==> CarveEnabled(s, step.b, step.size, step.leftover))
    ensures MixedAfter(s, step, {}) == {}
  {
  }

  lemma {:induction false} NothingMixed(states: seq<State>, steps: seq<Step>, i: nat)
    requires IsRun(states, steps) && i < |states| && NeverMapsOff(states, steps, i)
    ensures SpareOn(states[i]) && MixedAt(states, steps, i) == {}
    decreases i
  {
    if i > 0 {
      var k := i - 1;
      NothingMixed(states, steps, k);
      RunIsSafe(states, steps, k);
      StepIsRecorded(states[k], steps[k]);
      StepSpareOn(states[k], states[i], steps[k]);
      StepAddsNothing(states[k], steps[k]);
    }
  }

  /** In a run that never maps memory while poisoning is off, all these blocks are uniform whenever it is on. */
  lemma AlwaysUniform(states: seq<State>, steps: seq<Step>, i: nat, b: nat)
    requires IsRun(states, steps) && i < |states| && NeverMapsOff(states, steps, i) && states[i].on && Settled(states[i], b)
    ensures Uniform(states[i].shadow, b, states[i].blocks[b].size)
  {
    NothingMixed(states, steps, i);
    UniformIff(states, steps, i);
  }

  // ------------------------------------------------------------------ such a run

  /** `kUserMapSize`: the underlying allocator maps this much at a time. */
  const MAP_SIZE: nat := 0x4_0000

  /**
   Map memory while off, re-activate, map what follows, carve the block of size class 48 that lies
   across the boundary: 0x40000 leaves 16 modulo 48.
   */
  function MixingSteps(p: nat, rz: Redzones): seq<Step> {
    [] + [Map(p, MAP_SIZE)] + [ReInit(true, rz)] + [Map(p + MAP_SIZE, MAP_SIZE)] + [Carve(Across(p), 48, 16)]
  }

  function Across(p: nat): nat {
    p + MAP_SIZE - 16
  }

  ghost predicate Fresh(s: State, p: nat) {
    s.blocks == map[] && p > 0 && p % 16 == 0 && p + 2 * MAP_SIZE <= |s.mem| == 8 * |s.shadow|
  }

  lemma EightfoldsAreMultiples(a: nat, b: nat)
    requires a % 8 == 0 && b % 8 == 0
    ensures Granular(a, b)
  {
    RemIsMod(a, 8);
    RemIsMod(b, 8);
  }

  lemma AcrossIsAligned(p: nat)
    requires p % 16 == 0
    ensures p % 8 == 0 && (p + MAP_SIZE) % 8 == 0 && (Across(p) - p) % 48 == 0 && Across(p) % 16 == 0
    ensures Granular(p, p + MAP_SIZE) && Granular(p + MAP_SIZE, p + MAP_SIZE + MAP_SIZE)
  {
    SixteenIsEight(p);
    var q, r := p + MAP_SIZE, p + MAP_SIZE + MAP_SIZE;
    assert q % 8 == 0 && r % 8 == 0;
    EightfoldsAreMultiples(p, q);
    EightfoldsAreMultiples(q, r);
  }

  /** The spare memory of both mappings. */
  function BothMapped(p: nat, mid: nat): map<nat, bool> {
    NewSpare(p, mid, false) + NewSpare(mid, mid + MAP_SIZE, true)
  }

  lemma FirstHalf(s: State, p: nat, rz: Redzones) returns (s1: State, s2: State)
    requires Init(s) && !s.on && Fresh(s, p) && CheckRedzones(rz)
    ensures Enabled(s, Map(p, MAP_SIZE)) && Safe(s, Map(p, MAP_SIZE)) && s1 == Apply(s, Map(p, MAP_SIZE))
    ensures Enabled(s1, ReInit(true, rz)) && Safe(s1, ReInit(true, rz)) && s2 == Apply(s1, ReInit(true, rz)) && Inv(s2)
    ensures Fresh(s2, p) && s2.on && s2.spare == NewSpare(p, p + MAP_SIZE, false) && s2.stale == {}
  {
    AcrossIsAligned(p);
    assert s.spare + NewSpare(p, p + MAP_SIZE, false) == NewSpare(p, p + MAP_SIZE, false);
    s1 := Apply(s, Map(p, MAP_SIZE));
    StepKeepsInv(s, Map(p, MAP_SIZE));
    StepKeepsInv(s1, ReInit(true, rz));
    s2 := Switched(s1, true, rz);
  }

  /** The block is free, needs no visit, and is neither poisoned nor clear. */
  ghost predicate IsMixed(s: State, b: nat) {
    s.on && Settled(s, b) && !Uniform(s.shadow, b, s.blocks[b].size)
  }

  lemma StraddlingCarve(s: State, p: nat)
    requires Fresh(s, p) && s.on && s.spare == BothMapped(p, p + MAP_SIZE)
    ensures CarveEnabled(s, Across(p), 48, 16) && Straddles(s, Across(p), 48, 16)
  {
    var b, mid := Across(p), p + MAP_SIZE;
    AcrossIsAligned(p);
    forall g: nat | b <= 8 * g < mid
      ensures g in s.spare && s.spare[g] == false
    {
      assert StartsIn(g, p, mid) && !StartsIn(g, mid, mid + MAP_SIZE);
    }
    forall g: nat | mid <= 8 * g < b + 48
      ensures g in s.spare && s.spare[g] == true
    {
      assert StartsIn(g, mid, mid + MAP_SIZE);
    }
    SixteenIsEight(b);
    var f := b / 8;
    assert 8 * f == b;
  }

  lemma CarvedIsMixed(s: State, p: nat) returns (s': State)
    requires Inv(s) && Fresh(s, p) && s.on && s.spare == BothMapped(p, p + MAP_SIZE) && s.stale == {}
    ensures CarveEnabled(s, Across(p), 48, 16) && s' == Apply(s, Carve(Across(p), 48, 16)) && IsMixed(s', Across(p))
  {
    StraddlingCarve(s, p);
    s' := Apply(s, Carve(Across(p), 48, 16));
    CarvedUniformIff(s, Across(p), 48, 16);
  }

  lemma SecondHalf(s2: State, p: nat) returns (s3: State, s4: State)
    requires Inv(s2) && Fresh(s2, p) && s2.on && s2.spare == NewSpare(p, p + MAP_SIZE, false) && s2.stale == {}
    ensures var step := Map(p + MAP_SIZE, MAP_SIZE); Enabled(s2, step) && Safe(s2, step) && s3 == Apply(s2, step)
    ensures CarveEnabled(s3, Across(p), 48, 16) && s4 == Apply(s3, Carve(Across(p), 48, 16)) && IsMixed(s4, Across(p))
  {
    AcrossIsAligned(p);
    s3 := Apply(s2, Map(p + MAP_SIZE, MAP_SIZE));
    StepKeepsInv(s2, Map(p + MAP_SIZE, MAP_SIZE));
    s4 := CarvedIsMixed(s3, p);
  }

  /** A run goes on for two steps. */
  lemma RunGrowsTwice(states: seq<State>, steps: seq<Step>, s0: State, s1: State, step: Step, s2: State, step': Step)
    requires IsRun(states, steps) && s0 == states[|steps|]
    requires Enabled(s0, step) && Safe(s0, step) && s1 == Apply(s0, step)
    requires Enabled(s1, step') && Safe(s1, step') && s2 == Apply(s1, step')
    ensures IsRun(states + [s1] + [s2], steps + [step] + [step'])
  {
    RunGrows(states, steps, s1, step);
    RunGrows(states + [s1], steps + [step], s2, step');
  }

  lemma FirstRun(s: State, p: nat, rz: Redzones) returns (states: seq<State>, s2: State)
    requires Init(s) && !s.on && Fresh(s, p) && CheckRedzones(rz)
    ensures |states| == 3 && states[0] == s && states[2] == s2 && IsRun(states, [] + [Map(p, MAP_SIZE)] + [ReInit(true, rz)])
    ensures Inv(s2) && Fresh(s2, p) && s2.on && s2.spare == NewSpare(p, p + MAP_SIZE, false) && s2.stale == {}
  {
    var s1;
    s1, s2 := FirstHalf(s, p, rz);
    RunStarts(s);
    RunGrowsTwice([s], [], s, s1, Map(p, MAP_SIZE), s2, ReInit(true, rz));
    states := [s] + [s1] + [s2];
  }

  /** From every initial state with poisoning off a run reaches a free block that is neither poisoned nor clear. */
  lemma MixedIsReached(s: State, p: nat, rz: Redzones) returns (states: seq<State>)
    requires Init(s) && !s.on && Fresh(s, p) && CheckRedzones(rz)
    ensures |states| == 5 && states[0] == s && IsRun(states, MixingSteps(p, rz)) && IsMixed(states[4], Across(p))
  {
    var run, s2 := FirstRun(s, p, rz);
    var s3, s4 := SecondHalf(s2, p);
    var next := Map(p + MAP_SIZE, MAP_SIZE);
    RunGrowsTwice(run, [] + [Map(p, MAP_SIZE)] + [ReInit(true, rz)], s2, s3, next, s4, Carve(Across(p), 48, 16));
    states := run + [s3] + [s4];
  }
}
