/** Every run of the machine: no CHECK fires, and the invariant holds in every state. */
module Runs {
  import opened Words
  import opened Layout
  import opened Machine
  import opened Invariant
  import Allocating
  import Freeing
  import Recycling
  import HeapSteps

  /** Nothing mapped yet, the shadow clear, no thread inside the allocator. */
  ghost predicate Init(s: State) {
    && |s.mem| == 8 * |s.shadow| && |s.mem| <= SPACE && CheckRedzones(s.rz) && s.flags.tag < 4
    && s.blocks == map[] && s.free == {} && s.threads == map[] && s.quarantine == multiset{}
    && s.stats == map[] && s.abs == map[] && s.nextId == 0 && s.won == multiset{}
    && s.spare == map[] && s.stale == {} && s.lost == {} && forall g :: 0 <= g < |s.shadow| ==> s.shadow[g] == 0
  }

  /** One step from any state that satisfies the invariant: safe, and the invariant again. */
  lemma StepKeepsInv(s: State, step: Step)
    requires Inv(s) && Enabled(s, step)
    ensures Safe(s, step) && Inv(Apply(s, step))
  {
    match step
    case Map(p, size) => HeapSteps.MapKeeps(s, p, size);
    case Carve(b, size, leftover) => HeapSteps.CarveKeeps(s, b, size, leftover);
    case Malloc(_, _, _, _, _, _, source) =>
      if source.Primary? {
        HeapSteps.MallocPrimaryKeeps(s, step);
      } else {
        HeapSteps.MallocSecondaryKeeps(s, step);
      }
    case Free(t, p, stack) => Freeing.FreeRaceKeeps(s, t, p, stack);
    case Recycle(t, m) => Recycling.PickKeeps(s, t, m);
    case Run(t, keep) =>
      match s.threads[t] {
        case AllocTask(_, _, _, _, _, _, _) => Allocating.AllocKeeps(s, t, keep);
        case FreeTask(_, _, _, _) => Freeing.FreeKeeps(s, t, keep);
        case RecycleTask(_, _, _) => Recycling.RecycleKeeps(s, t, keep);
      }
    case UserWrite(a, v) => HeapSteps.UserWriteKeeps(s, a, v);
    case ReInit(on, rz) => HeapSteps.SwitchKeeps(s, on, rz);
    case RePoison(b) => HeapSteps.RePoisonKeeps(s, b);
  }

  /**
   A run: any interleaving of enabled steps. It does not presuppose that steps are safe; where
   one is not, the next state is arbitrary.
   */
  ghost predicate IsRun(states: seq<State>, steps: seq<Step>) {
    && |states| == |steps| + 1
    && Init(states[0])
    && forall i :: 0 <= i < |steps| ==>
         Enabled(states[i], steps[i]) && (Safe(states[i], steps[i]) ==> states[i + 1] == Apply(states[i], steps[i]))
  }

  /** Safety over whole runs: every state satisfies the invariant and every step passes its CHECKs. */
  lemma {:induction false} RunIsSafe(states: seq<State>, steps: seq<Step>, i: nat)
    requires IsRun(states, steps) && i < |states|
    ensures Inv(states[i])
    ensures i < |steps| ==> Safe(states[i], steps[i]) && states[i + 1] == Apply(states[i], steps[i])
    decreases i
  {
    if i > 0 {
      RunIsSafe(states, steps, i - 1);
      StepKeepsInv(states[i - 1], steps[i - 1]);
    }
    if i < |steps| {
      StepKeepsInv(states[i], steps[i]);
    }
  }

  lemma RunStarts(s: State)
    requires Init(s)
    ensures IsRun([s], [])
  {
  }

  /** A run may take any enabled step. */
  lemma RunGrows(states: seq<State>, steps: seq<Step>, s: State, step: Step)
    requires IsRun(states, steps) && Enabled(states[|steps|], step) && Safe(states[|steps|], step)
    requires s == Apply(states[|steps|], step)
    ensures IsRun(states + [s], steps + [step])
  {
    var states', steps' := states + [s], steps + [step];
    forall i | 0 <= i < |steps'|
      ensures Enabled(states'[i], steps'[i]) && (Safe(states'[i], steps'[i]) ==> states'[i + 1] == Apply(states'[i], steps'[i]))
    {
      if i < |steps| {
        assert states'[i] == states[i] && steps'[i] == steps[i] && states'[i + 1] == states[i + 1];
      }
    }
  }
}
