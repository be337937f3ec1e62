/**
 Re-activation at any moment, with threads moving between the re-poisoning of one block and the next:
 which chunks it leaves exact, which it spoils although they are in use, and that nothing else ever
 makes the shadow wrong.
 */
module Reactivation {
  import opened Words
  import opened Layout
  import opened Memory
  import opened Chunks
  import opened Machine
  import opened Invariant
  import opened Runs
  import opened Lookup
  import opened Separation
  import opened Uninterrupted
  import opened Effects
  import opened Sweep
  import Allocating
  import HeapSteps
  import FreeProtocol

  // ------------------------------------------------------------------ one chunk

  /** Re-poisoning a chunk in use leaves its whole granules as they are. */
  lemma WholeGranulesStay(sh: Shadow, b: nat, end: nat, u: nat, n: nat)
    requires b <= u && u + n <= end <= 8 * |sh| && Multiple(u, 8) && ExactShadow(LiveRePoisoned(sh, b, end, u, n), b, end, u, n)
    ensures WholeGranulesClear(sh, u, n)
  {
    RemIsMod(u, 8);
    var sh' := LiveRePoisoned(sh, b, end, u, n);
    forall g | 0 <= g < |sh| && u <= 8 * g && 8 * g + 8 <= u + n
      ensures sh[g] == 0
    {
      assert ExactByte(g, u, n, sh'[g]) && sh'[g] == sh[g];
    }
  }

  lemma FoundIff(sh: Shadow, sh': Shadow, b: nat, end: nat, u: nat, n: nat)
    requires b <= u && u + n <= end <= 8 * |sh| && Multiple(u, 8) && SameShadow(sh', LiveRePoisoned(sh, b, end, u, n), b, end)
    ensures ExactShadow(sh', b, end, u, n) <==> WholeGranulesClear(sh, u, n)
  {
    HeapSteps.RePoisonedShadow(sh, sh', b, end, u, n);
    HeapSteps.SameExact(sh', LiveRePoisoned(sh, b, end, u, n), b, end, u, n);
    if ExactShadow(sh', b, end, u, n) {
      WholeGranulesStay(sh, b, end, u, n);
    }
  }

  lemma BlockStory(s: State, b: nat)
    requires Inv(s) && b in s.blocks
    ensures b in s.abs && BlockShape(s, b) && BlockOk(s, b) && BlocksInMemory(s)
  {
    ShapeInMemory(s);
  }

  /** The shadow of a live chunk's block becomes exact if and only if this holds. */
  ghost predicate Restorable(s: State, b: nat)
    requires b in s.blocks && b in s.abs && s.abs[b].ALive?
  {
    Findable(b, s.blocks[b], s.abs[b].ch) && WholeGranulesClear(s.shadow, s.abs[b].ch.user, s.abs[b].ch.size)
  }

  /** The shadow of a block after a visit of the loop. */
  ghost predicate Reactivated(s: State, sh: Shadow, b: nat)
    requires b in s.blocks && b in s.abs
  {
    if s.abs[b].ALive?
    then ExactShadow(sh, b, b + s.blocks[b].size, s.abs[b].ch.user, s.abs[b].ch.size) <==> Restorable(s, b)
    else AllPoisoned(sh, b, b + s.blocks[b].size)
  }

  lemma RePoisonedIsReactivated(s: State, s': State, b: nat)
    requires HeapSteps.RePoisoned(s, s', b) && BlockShape(s, b) && BlockOk(s, b)
    ensures Reactivated(s, s'.shadow, b)
    ensures s.abs[b].ALive? && s.abs[b].ch.id !in s.lost ==> WholeGranulesClear(s.shadow, s.abs[b].ch.user, s.abs[b].ch.size)
  {
    if s.abs[b].ALive? {
      if Findable(b, s.blocks[b], s.abs[b].ch) {
        HeapSteps.RePoisonedFound(s, s', b, s.abs[b].ch);
        FoundIff(s.shadow, s'.shadow, b, b + s.blocks[b].size, s.abs[b].ch.user, s.abs[b].ch.size);
      } else {
        HeapSteps.RePoisonedUnfindable(s, s', b, s.abs[b].ch);
        RemIsMod(s.abs[b].ch.user, 8);
        var g := s.abs[b].ch.user / 8;
        assert 8 * g == s.abs[b].ch.user;
        assert !ExactByte(g, s.abs[b].ch.user, s.abs[b].ch.size, s'.shadow[g]);
      }
      if s.abs[b].ch.id !in s.lost {
        HeapSteps.LiveClears(s, b, s.blocks[b], s.abs[b].ch);
      }
    } else {
      BlockDecodes(s, b);
      HeapSteps.RePoisonedHidden(s, s', b);
    }
  }

  /**
   One visit, whatever was allocated or freed while poisoning was off and whatever the threads are
   doing: the shadow of a live chunk's block becomes exact if and only if the chunk can be found
   from its block and its whole granules were clear, as they are unless it was lost before.
   */
  lemma ReactivationExactIff(s: State, b: nat)
    requires Inv(s) && s.on && b in s.blocks && s.abs[b].ALive?
    ensures BlocksInMemory(s)
    ensures ExactShadow(RePoisonedAt(s, b).shadow, b, b + s.blocks[b].size, s.abs[b].ch.user, s.abs[b].ch.size)
            <==> Findable(b, s.blocks[b], s.abs[b].ch) && WholeGranulesClear(s.shadow, s.abs[b].ch.user, s.abs[b].ch.size)
    ensures s.abs[b].ch.id !in s.lost ==> WholeGranulesClear(s.shadow, s.abs[b].ch.user, s.abs[b].ch.size)
  {
    BlockStory(s, b);
    HeapSteps.RePoisonRecords(s, b);
    RePoisonedIsReactivated(s, RePoisonedAt(s, b), b);
  }

  /** Every other block comes back poisoned whole: free, quarantined, or with a thread at work on it. */
  lemma ReactivationPoisonsRest(s: State, b: nat)
    requires Inv(s) && s.on && b in s.blocks && !s.abs[b].ALive?
    ensures BlocksInMemory(s) && AllPoisoned(RePoisonedAt(s, b).shadow, b, b + s.blocks[b].size)
  {
    BlockStory(s, b);
    HeapSteps.RePoisonRecords(s, b);
    RePoisonedIsReactivated(s, RePoisonedAt(s, b), b);
  }

  ghost predicate AllReactivated(s: State, sh: Shadow) {
    s.abs.Keys == s.blocks.Keys && forall b :: b in s.blocks ==> Reactivated(s, sh, b)
  }

  /** `ReInitialize` left alone does both, for all blocks at once. */
  lemma ReactivationRestores(s: State, rz: Redzones)
    requires Inv(s) && CheckRedzones(rz)
    ensures BlocksInMemory(s) && AllReactivated(s, ReInitialized(s, true, rz).shadow)
  {
    ShapeInMemory(s);
    forall b | b in s.blocks
      ensures Reactivated(s, ReInitialized(s, true, rz).shadow, b)
    {
      BlockStory(s, b);
      SweptIsRePoisoned(s, b, rz);
      RePoisonedIsReactivated(s, ReInitialized(s, true, rz), b);
    }
  }

  // ----------------------------------------------------------------- what is lost

  /** Spoilt in the middle: the first user granule stays poisoned to the end of `Allocate`. */
  lemma SpoiltEnd(sh: Shadow, on: bool, pc: nat, b: nat, size: nat, u: nat, n: nat, guess: bool, wide: bool, part: bool)
    requires b < u && 0 < n && u + n <= b + size <= 8 * |sh| && (part ==> n % 8 != 0) && u % 8 == 0
    requires AllPoisoned(sh, b, b + size) && Spoilable(pc, n, part)
    ensures !Addressable(AllocShadowLeft(sh, on, pc, b, size, u, n, guess, wide, part), u)
    ensures pc > PUT_PARTIAL ==> AllocShadowLeft(sh, on, pc, b, size, u, n, guess, wide, part) == sh
  {
    var f := u / 8;
    assert 8 * f == u && Poison(sh[f]);
    var g := Allocating.LastGranule(u, n);
  }

  /** Poisoned before the user granules are cleared: the redzones stay poisoned, the rest is made as usual. */
  lemma RedzonesStay(sh: Shadow, pc: nat, b: nat, size: nat, u: nat, n: nat, wide: bool, part: bool) returns (sh2: Shadow)
    requires b < u && u + n <= b + size <= 8 * |sh| && (part ==> n % 8 != 0) && u % 8 == 0
    requires AllPoisoned(sh, b, b + size) && TEST_FIRST < pc <= CLEAR_USER
    ensures |sh2| == |sh| && OutsidePoisoned(sh2, b, b + size, u, n)
    ensures AllocShadowFrom(sh, true, pc, b, size, u, n, wide, part)
            == AllocShadowStep(AllocShadowStep(sh2, true, CLEAR_USER, b, size, u, n, wide, part), true, PUT_PARTIAL, b, size, u, n, wide,
                               WantsPartial(true, n))
  {
    var sh1 := if pc <= PUT_LEFT then AllocShadowStep(sh, true, PUT_LEFT, b, size, u, n, wide, part) else sh;
    sh2 := if pc <= PUT_RIGHT then AllocShadowStep(sh1, true, PUT_RIGHT, b, size, u, n, wide, part) else sh1;
  }

  /**
   The block is poisoned whole while `Allocate` is at `pc`. If nothing else comes between, the chunk
   it returns has an exact shadow if and only if the allocation was not spoilable there.
   */
  lemma SpoilableIff(sh: Shadow, pc: nat, b: nat, size: nat, u: nat, n: nat, guess: bool, wide: bool, part: bool)
    requires b < u && 0 < n && u + n <= b + size <= 8 * |sh| && (part ==> n % 8 != 0) && b % 8 == 0 && u % 8 == 0
    requires AllPoisoned(sh, b, b + size)
    ensures Spoilable(pc, n, part) <==> !ExactShadow(AllocShadowLeft(sh, true, pc, b, size, u, n, guess, wide, part), b, b + size, u, n)
  {
    if Spoilable(pc, n, part) {
      SpoiltEnd(sh, true, pc, b, size, u, n, guess, wide, part);
      if ExactShadow(AllocShadowLeft(sh, true, pc, b, size, u, n, guess, wide, part), b, b + size, u, n) {
        ExactMeansAddressable(AllocShadowLeft(sh, true, pc, b, size, u, n, guess, wide, part), b, b + size, u, n, u);
      }
    } else if pc <= TEST_FIRST {
      Allocating.AllocShadowExact(sh, b, size, u, n, guess);
    } else if pc <= CLEAR_USER {
      var sh2 := RedzonesStay(sh, pc, b, size, u, n, wide, part);
      Allocating.ClearUser(sh2, true, b, size, u, n, wide, part);
      Allocating.PartialExact(AllocShadowStep(sh2, true, CLEAR_USER, b, size, u, n, wide, part), true, b, size, u, n, wide, WantsPartial(true, n));
    } else {
      Allocating.PartialExact(sh, true, b, size, u, n, wide, if pc <= TEST_MODE then WantsPartial(true, n) else part);
    }
  }

  /** The chunk in block b is live, or `Allocate` is making it. */
  ghost predicate InUse(s: State, b: nat) {
    && b in s.blocks && b in s.abs
    && (s.abs[b].ALive? || (s.abs[b].ABusy? && s.abs[b].t in s.threads && s.threads[s.abs[b].t].AllocTask?))
  }

  /** The shadow when the chunk in block b is live, after the undisturbed rest of `Allocate` if need be. */
  ghost function FinalShadow(s: State, b: nat): Shadow
    requires InUse(s, b) && (s.abs[b].ABusy? ==> AllocBounds(s, s.abs[b].t))
  {
    if s.abs[b].ALive? then s.shadow else AllocDone(s, s.abs[b].t).shadow
  }

  /** ... is exact for the block. */
  ghost predicate EndsExact(s: State, b: nat) {
    && InUse(s, b) && (s.abs[b].ABusy? ==> AllocBounds(s, s.abs[b].t))
    && ExactShadow(FinalShadow(s, b), b, b + s.blocks[b].size, s.abs[b].ch.user, s.abs[b].ch.size)
  }

  lemma DoneShadow(s: State, t: nat)
    requires AllocBounds(s, t)
    ensures var task := s.threads[t];
            AllocDone(s, t).shadow
            == AllocShadowLeft(s.shadow, s.on, task.pc, task.b, s.blocks[task.b].size, task.ch.user, task.ch.size, task.guess, task.wide, task.part)
  {
  }

  lemma BusyLosesIff(s: State, s': State, b: nat, t: nat, ch: Chunk)
    requires HeapSteps.RePoisoned(s, s', b) && s'.flags == s.flags && |s'.shadow| == |s.shadow| && s.abs[b] == ABusy(t, ch)
    requires Allocating.Allocates(s, t) && s.threads[t].b == b && AllPoisoned(s'.shadow, b, b + s.blocks[b].size)
    ensures Loses(s, b) <==> !EndsExact(s', b)
  {
    var task := s'.threads[t];
    SixteenfoldIsEightfold(b);
    RemIsMod(ch.user, 8);
    DoneShadow(s', t);
    SpoilableIff(s'.shadow, task.pc, b, s'.blocks[b].size, ch.user, ch.size, task.guess, task.wide, task.part);
  }

  lemma InUseLosesIff(s: State, s': State, b: nat)
    requires Inv(s) && InUse(s, b) && HeapSteps.RePoisoned(s, s', b) && s'.flags == s.flags && |s'.shadow| == |s.shadow|
    requires s.abs[b].ch.id !in s.lost
    ensures Loses(s, b) <==> !EndsExact(s', b)
  {
    BlockStory(s, b);
    if s.abs[b].ALive? {
      RePoisonedIsReactivated(s, s', b);
    } else {
      Allocating.AllocTaskStory(s, s.abs[b].t);
      RePoisonedIsReactivated(s, s', b);
      InvAnchors(s, b);
      BusyLosesIff(s, s', b, s.abs[b].t, s.abs[b].ch);
    }
  }

  /**
   A visit of the loop spoils a chunk that is live, or that `Allocate` is making, exactly when `Loses`
   says so: the chunk is live but cannot be found, or `Allocate` has come too far with its shadow.
   Otherwise its shadow is exact when `Allocate` returns, provided nothing else comes between.
   */
  lemma LosesIff(s: State, b: nat)
    requires Inv(s) && s.on && InUse(s, b) && s.abs[b].ch.id !in s.lost
    ensures BlocksInMemory(s) && (Loses(s, b) <==> !EndsExact(RePoisonedAt(s, b), b))
  {
    BlockStory(s, b);
    HeapSteps.RePoisonRecords(s, b);
    InUseLosesIff(s, RePoisonedAt(s, b), b);
  }

  /** When nothing was lost before, `ReInitialize` left alone spoils no chunk if and only if it loses none. */
  lemma ReactivationAllExactIff(s: State, rz: Redzones)
    requires Inv(s) && CheckRedzones(rz) && s.lost == {}
    ensures BlocksInMemory(s)
    ensures (forall b: nat :: InUse(s, b) ==> EndsExact(ReInitialized(s, true, rz), b)) <==> forall b: nat :: !Loses(s, b)
  {
    ShapeInMemory(s);
    forall b: nat | InUse(s, b)
      ensures Loses(s, b) <==> !EndsExact(ReInitialized(s, true, rz), b)
    {
      SweptIsRePoisoned(s, b, rz);
      InUseLosesIff(s, ReInitialized(s, true, rz), b);
    }
    assert forall b: nat :: Loses(s, b) ==> InUse(s, b);
  }

  // ------------------------------------------------------------- the losing race

  lemma VisitedTask(s: State, t: nat) returns (s': State)
    requires Inv(s) && s.on && t in s.threads && s.threads[t].AllocTask?
    ensures var b := s.threads[t].b;
            && b in s.blocks && Enabled(s, RePoison(b)) && Safe(s, RePoison(b)) && s' == Apply(s, RePoison(b))
    ensures Inv(s') && s'.threads == s.threads && s'.blocks == s.blocks && PoisonedTask(s', t)
  {
    Allocating.AllocTaskStory(s, t);
    HeapSteps.RePoisonKeeps(s, s.threads[t].b);
    ReactivationPoisonsRest(s, s.threads[t].b);
    s' := RePoisonedAt(s, s.threads[t].b);
  }

  /** The block thread t is making a chunk in is poisoned whole. */
  ghost predicate PoisonedTask(s: State, t: nat) {
    && t in s.threads && s.threads[t].AllocTask? && s.threads[t].b in s.blocks
    && AllPoisoned(s.shadow, s.threads[t].b, s.threads[t].b + s.blocks[s.threads[t].b].size)
  }

  /** A live chunk whose first byte is not addressable, in a block that may be poisoned whole. */
  ghost predicate Spoilt(s: State, b: nat, ch: Chunk, whole: bool) {
    && b in s.blocks && b in s.abs && s.abs[b] == ALive(ch)
    && ch.user < 8 * |s.shadow| && !Addressable(s.shadow, ch.user)
    && (whole ==> AllPoisoned(s.shadow, b, b + s.blocks[b].size))
  }

  lemma SpoiltDone(s: State, t: nat)
    requires AllocBounds(s, t) && PoisonedTask(s, t) && Fits(s.threads[t].b, s.blocks[s.threads[t].b], s.threads[t].ch)
    requires Spoilable(s.threads[t].pc, s.threads[t].ch.size, s.threads[t].part)
    ensures Spoilt(AllocDone(s, t), s.threads[t].b, s.threads[t].ch, s.threads[t].pc > PUT_PARTIAL)
  {
    var task := s.threads[t];
    RemIsMod(task.ch.user, 8);
    SpoiltEnd(s.shadow, s.on, task.pc, task.b, s.blocks[task.b].size, task.ch.user, task.ch.size, task.guess, task.wide, task.part);
  }

  lemma SpoiltRuns(s: State, t: nat) returns (path: seq<State>, s': State)
    requires Inv(s) && PoisonedTask(s, t) && Spoilable(s.threads[t].pc, s.threads[t].ch.size, s.threads[t].part)
    ensures Leads(s, path, s', t, true) && Inv(s') && Spoilt(s', s.threads[t].b, s.threads[t].ch, s.threads[t].pc > PUT_PARTIAL)
  {
    Allocating.AllocTaskStory(s, t);
    path := AllocRuns(s, t, true);
    s' := AllocDone(s, t);
    SpoiltDone(s, t);
  }

  /**
   The race, lost: `Allocate` has come too far with the shadow, the loop visits its block, `Allocate`
   runs to its end. It returns a live chunk, however findable, whose first byte is not addressable;
   after the partial byte its whole block is poisoned.
   */
  lemma LosingRace(s: State, t: nat) returns (s1: State, path: seq<State>, s2: State)
    requires Inv(s) && s.on && t in s.threads && s.threads[t].AllocTask?
    requires Spoilable(s.threads[t].pc, s.threads[t].ch.size, s.threads[t].part)
    ensures var b := s.threads[t].b; Enabled(s, RePoison(b)) && Safe(s, RePoison(b)) && s1 == Apply(s, RePoison(b))
    ensures Leads(s1, path, s2, t, true) && Inv(s2)
    ensures Spoilt(s2, s.threads[t].b, s.threads[t].ch, s.threads[t].pc > PUT_PARTIAL)
  {
    s1 := VisitedTask(s, t);
    path, s2 := SpoiltRuns(s1, t);
  }

  /** Every allocation passes through that window on its way. */
  lemma {:induction false} WindowIsReached(s: State, t: nat) returns (path: seq<State>, s': State)
    requires Inv(s) && t in s.threads && s.threads[t].AllocTask? && s.threads[t].pc <= COUNT_MALLOC
    ensures Leads(s, path, s', t, true) && Inv(s') && t in s'.threads && s'.threads[t].AllocTask? && s'.threads[t].pc == COUNT_MALLOC
    ensures Spoilable(s'.threads[t].pc, s'.threads[t].ch.size, s'.threads[t].part)
    decreases COUNT_MALLOC - s.threads[t].pc
  {
    if s.threads[t].pc == COUNT_MALLOC {
      path, s' := [s], s;
    } else {
      var next := AllocOnce(s, t, true);
      StillAllocating(s, next, t);
      var rest;
      rest, s' := WindowIsReached(next, t);
      PathGrows(s, next, rest, s', t, true);
      path := [s] + rest;
    }
  }

  lemma StillAllocating(s: State, s': State, t: nat)
    requires StepTo(s, s', t, true) && s.threads[t].AllocTask? && s.threads[t].pc < COUNT_MALLOC
    ensures t in s'.threads
  {
  }

  // ------------------------------------------------------------------- over runs

  /** The loop visits the block of this allocation at a moment when that spoils it. */
  ghost predicate HitBy(s: State, step: Step, id: nat) {
    step.RePoison? && id in LostBy(s, {step.b})
  }

  /** One of the first i steps was such a visit. */
  ghost predicate HitBefore(states: seq<State>, steps: seq<Step>, i: nat, id: nat)
    requires |states| == |steps| + 1 && i < |states|
  {
    exists j :: 0 <= j < i && HitBy(states[j], steps[j], id)
  }

  lemma LostNext(states: seq<State>, steps: seq<Step>, i: nat, id: nat)
    requires IsRun(states, steps) && 0 < i < |states|
    ensures id in states[i].lost <==> id in states[i - 1].lost || HitBy(states[i - 1], steps[i - 1], id)
    ensures states[i - 1].nextId <= states[i].nextId
  {
    var k := i - 1;
    RunIsSafe(states, steps, k);
    StepIsRecorded(states[k], steps[k]);
    LostByStep(states[k], states[k + 1], steps[k], id);
  }

  /** In every run the lost allocations are exactly those that some visit hit. */
  lemma {:induction false} LostIff(states: seq<State>, steps: seq<Step>, i: nat, id: nat)
    requires IsRun(states, steps) && i < |states|
    ensures id in states[i].lost <==> HitBefore(states, steps, i, id)
    decreases i
  {
    if i > 0 {
      LostIff(states, steps, i - 1, id);
      LostNext(states, steps, i, id);
      if HitBy(states[i - 1], steps[i - 1], id) {
        assert HitBefore(states, steps, i, id);
      }
    }
  }

  lemma LostByStep(s: State, s': State, step: Step, id: nat)
    requires Recorded(s, s', step)
    ensures id in s'.lost <==> id in s.lost || HitBy(s, step, id)
    ensures s.nextId <= s'.nextId
  {
  }

  /**
   In every run, with threads moving between one visit of the loop and the next: once the loop has
   come past the block of a live chunk, the chunk's shadow is exact unless some visit hit it.
   */
  lemma ExactUnlessHit(states: seq<State>, steps: seq<Step>, i: nat, b: nat)
    requires IsRun(states, steps) && i < |states| && OnFor(states[i], b)
    requires b in states[i].blocks && b in states[i].abs && states[i].abs[b].ALive?
    requires !HitBefore(states, steps, i, states[i].abs[b].ch.id)
    ensures var ch := states[i].abs[b].ch;
            ExactShadow(states[i].shadow, b, b + states[i].blocks[b].size, ch.user, ch.size)
  {
    RunIsSafe(states, steps, i);
    LostIff(states, steps, i, states[i].abs[b].ch.id);
    BlockStory(states[i], b);
  }

  /** Without a visit of the loop nothing is ever lost. */
  lemma NothingLost(states: seq<State>, steps: seq<Step>, i: nat)
    requires IsRun(states, steps) && i < |states|
    requires forall j :: 0 <= j < i ==> !steps[j].RePoison?
    ensures states[i].lost == {}
  {
    forall id: nat
      ensures id !in states[i].lost
    {
      LostIff(states, steps, i, id);
    }
  }

  /** Lost ids were given out before: a new allocation starts out unspoilt. */
  lemma {:induction false} LostAreOld(states: seq<State>, steps: seq<Step>, i: nat, id: nat)
    requires IsRun(states, steps) && i < |states| && id in states[i].lost
    ensures id < states[i].nextId
    decreases i
  {
    if i > 0 {
      LostNext(states, steps, i, id);
      if id in states[i - 1].lost {
        LostAreOld(states, steps, i - 1, id);
      } else {
        FreeProtocol.RunKeepsIds(states, steps, i - 1);
        assert Holds(states[i - 1], steps[i - 1].b);
      }
    }
  }
}
