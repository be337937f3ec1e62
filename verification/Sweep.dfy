/** The loop of `ReInitialize` left alone: every block is re-poisoned, one after the other, in any order. */
module Sweep {
  import opened Layout
  import opened Memory
  import opened Chunks
  import opened Machine
  import opened Invariant
  import HeapSteps

  /** The shadow when every block but those in `rest` has been re-poisoned. */
  ghost function RePoisonExcept(s: State, rest: set<nat>): (r: Shadow)
    requires BlocksInMemory(s)
    ensures |r| == |s.shadow|
  {
    seq(|s.shadow|, g requires 0 <= g < |s.shadow| =>
      var b := GetBlockBegin(s.blocks, 8 * g);
      if b.Some? && b.value !in rest then RePoisonChunk(s.mem, s.shadow, b.value, s.blocks[b.value])[g] else s.shadow[g])
  }

  /** The state when the loop has still to visit the blocks in `rest`. */
  ghost function Swept(s: State, rest: set<nat>): State
    requires BlocksInMemory(s)
  {
    s.(shadow := RePoisonExcept(s, rest), stale := rest, lost := s.lost + LostBy(s, s.blocks.Keys - rest))
  }

  /** `ReInitialize` left alone: the options, then all blocks if poisoning is on. */
  ghost function ReInitialized(s: State, on: bool, rz: Redzones): State
    requires BlocksInMemory(s)
  {
    if on then Swept(Switched(s, true, rz), {}) else Switched(s, false, rz)
  }

  // -------------------------------------------------------------------- the loop

  /** Before the first block ... */
  lemma SweepStarts(s: State)
    requires BlocksInMemory(s) && s.stale == s.blocks.Keys
    ensures Swept(s, s.blocks.Keys) == s
  {
    assert LostBy(s, s.blocks.Keys - s.blocks.Keys) == {};
    assert RePoisonExcept(s, s.blocks.Keys) == s.shadow;
  }

  lemma SweepLoses(s: State, rest: set<nat>, b: nat)
    requires BlocksInMemory(s) && b in rest && b in s.blocks
    ensures LostBy(s, s.blocks.Keys - rest) + LostBy(Swept(s, rest), {b}) == LostBy(s, s.blocks.Keys - (rest - {b}))
  {
    assert forall b' :: Loses(Swept(s, rest), b') <==> Loses(s, b');
    assert s.blocks.Keys - (rest - {b}) == (s.blocks.Keys - rest) + {b};
    assert LostBy(Swept(s, rest), {b}) == LostBy(s, {b});
    assert LostBy(s, (s.blocks.Keys - rest) + {b}) == LostBy(s, s.blocks.Keys - rest) + LostBy(s, {b});
  }

  /** ... and from one to the next. */
  lemma SweepStep(s: State, rest: set<nat>, b: nat)
    requires Shape(s) && BlocksInMemory(s) && b in rest && b in s.blocks
    ensures BlocksInMemory(Swept(s, rest)) && RePoisonedAt(Swept(s, rest), b) == Swept(s, rest - {b})
  {
    var sh := RePoisonExcept(s, rest);
    assert BlockShape(s, b);
    SixteenfoldIsEightfold(b);
    forall g | 0 <= g < |s.shadow|
      ensures RePoisonChunk(s.mem, sh, b, s.blocks[b])[g] == RePoisonExcept(s, rest - {b})[g]
    {
      if GetBlockBegin(s.blocks, 8 * g) == Some(b) {
        HeapSteps.RePoisonLocal(s.mem, s.shadow, sh, b, s.blocks[b], g);
      } else {
        if InBlock(s.blocks, b, 8 * g) {
          BlockBeginIs(s, b, 8 * g);
        }
        HeapSteps.RePoisonLocal(s.mem, sh, sh, b, s.blocks[b], g);
      }
    }
    var before, now, after := LostBy(s, s.blocks.Keys - rest), LostBy(Swept(s, rest), {b}), LostBy(s, s.blocks.Keys - (rest - {b}));
    SweepLoses(s, rest, b);
    assert (s.lost + before) + now == s.lost + (before + now);
  }

  /** A sequence of re-poisoning steps, one for each block in `order`. */
  ghost predicate IsSweep(states: seq<State>, order: seq<nat>) {
    && |states| == |order| + 1
    && forall i :: 0 <= i < |order| ==>
         Enabled(states[i], RePoison(order[i])) && Safe(states[i], RePoison(order[i]))
         && states[i + 1] == Apply(states[i], RePoison(order[i]))
  }

  lemma SweepGrows(s: State, b: nat, states: seq<State>, order: seq<nat>)
    requires IsSweep(states, order) && Enabled(s, RePoison(b)) && Safe(s, RePoison(b)) && states[0] == Apply(s, RePoison(b))
    ensures IsSweep([s] + states, [b] + order) && ([s] + states)[|[b] + order|] == states[|order|]
    ensures multiset([b] + order) == multiset{b} + multiset(order)
  {
    var states', order' := [s] + states, [b] + order;
    forall i | 0 <= i < |order'|
      ensures Enabled(states'[i], RePoison(order'[i])) && Safe(states'[i], RePoison(order'[i]))
              && states'[i + 1] == Apply(states'[i], RePoison(order'[i]))
    {
      if i > 0 {
        assert order'[i] == order[i - 1] && states'[i] == states[i - 1] && states'[i + 1] == states[i];
      }
    }
  }

  /** The loop has still to visit the blocks in `rest`. */
  ghost predicate Sweeping(s: State, rest: set<nat>) {
    Shape(s) && BlocksInMemory(s) && s.on && rest <= s.blocks.Keys && Inv(Swept(s, rest))
  }

  /** One block more, by a step of the machine. */
  lemma SweepOne(s: State, rest: set<nat>, b: nat)
    requires Sweeping(s, rest) && b in rest
    ensures var s1 := Swept(s, rest);
            Enabled(s1, RePoison(b)) && Safe(s1, RePoison(b)) && Apply(s1, RePoison(b)) == Swept(s, rest - {b})
    ensures Sweeping(s, rest - {b})
  {
    HeapSteps.RePoisonKeeps(Swept(s, rest), b);
    SweepStep(s, rest, b);
  }

  /** These steps lead from one state to the other and visit each block in `rest` once. */
  ghost predicate Visits(s: State, end: State, rest: set<nat>, states: seq<State>, order: seq<nat>) {
    IsSweep(states, order) && states[0] == s && states[|order|] == end && multiset(order) == multiset(rest)
  }

  lemma VisitsOneMore(s: State, s': State, end: State, rest: set<nat>, b: nat, states: seq<State>, order: seq<nat>)
    requires Visits(s', end, rest - {b}, states, order) && b in rest
    requires Enabled(s, RePoison(b)) && Safe(s, RePoison(b)) && s' == Apply(s, RePoison(b))
    ensures Visits(s, end, rest, [s] + states, [b] + order)
  {
    SweepGrows(s, b, states, order);
    assert multiset(rest) == multiset{b} + multiset(rest - {b});
  }

  /** The rest of the loop is a run of such steps that visits each block once. */
  lemma {:induction false} SweepRuns(s: State, rest: set<nat>) returns (states: seq<State>, order: seq<nat>)
    requires Sweeping(s, rest)
    ensures Visits(Swept(s, rest), Swept(s, {}), rest, states, order) && Sweeping(s, {})
    decreases |rest|
  {
    if rest == {} {
      states, order := [Swept(s, {})], [];
    } else {
      var b :| b in rest;
      SweepOne(s, rest, b);
      var states', order' := SweepRuns(s, rest - {b});
      SweepOne(s, rest, b);
      VisitsOneMore(Swept(s, rest), Swept(s, rest - {b}), Swept(s, {}), rest, b, states', order');
      states, order := [Swept(s, rest)] + states', [b] + order';
    }
  }

  /** `ReInitialize` left alone is a run of the machine: new options, then each block once. */
  lemma ReInitRuns(s: State, rz: Redzones) returns (states: seq<State>, order: seq<nat>)
    requires Inv(s) && CheckRedzones(rz)
    ensures Enabled(s, ReInit(true, rz)) && Safe(s, ReInit(true, rz)) && BlocksInMemory(s)
    ensures Visits(Apply(s, ReInit(true, rz)), ReInitialized(s, true, rz), s.blocks.Keys, states, order)
    ensures Inv(ReInitialized(s, true, rz))
  {
    ShapeInMemory(s);
    HeapSteps.SwitchKeeps(s, true, rz);
    SweepStarts(Switched(s, true, rz));
    states, order := SweepRuns(Switched(s, true, rz), s.blocks.Keys);
  }

  // -------------------------------------------------------------- what it amounts to

  /** Each block ends up as if it had been visited on its own, with poisoning on. */
  lemma SweptIsRePoisoned(s: State, b: nat, rz: Redzones)
    requires Shape(s) && BlocksInMemory(s) && b in s.blocks && CheckRedzones(rz)
    ensures HeapSteps.RePoisoned(s, ReInitialized(s, true, rz), b)
  {
    var s1 := Switched(s, true, rz);
    assert BlockShape(s, b);
    forall b | b in s.blocks
      ensures BlockShape(Switched(s, true, rz), b)
    {
      assert BlockShape(s, b);
    }
    forall g | 0 <= g < |s1.shadow| && b <= 8 * g < b + s1.blocks[b].size
      ensures RePoisonExcept(s1, {})[g] == RePoisonChunk(s1.mem, s1.shadow, b, s1.blocks[b])[g]
    {
      assert BlockShape(s1, b);
      BlockBeginIs(s1, b, 8 * g);
    }
    assert Loses(s1, b) <==> Loses(s, b);
    assert Loses(s1, b) ==> s1.abs[b].ch.id in LostBy(s1, s1.blocks.Keys - {});
  }

  lemma SweptShape(s: State, rest: set<nat>)
    requires Shape(s) && BlocksInMemory(s) && rest <= s.blocks.Keys
    ensures Shape(Swept(s, rest))
  {
    forall b | b in s.blocks
      ensures BlockShape(Swept(s, rest), b)
    {
      assert BlockShape(s, b);
    }
  }

  /** `ReInitialize` left alone keeps the invariant. */
  lemma ReInitKeeps(s: State, on: bool, rz: Redzones)
    requires Inv(s) && CheckRedzones(rz)
    ensures BlocksInMemory(s) && Inv(ReInitialized(s, on, rz)) && Inv(Switched(s, on, rz)) && BlocksInMemory(Switched(s, on, rz))
  {
    ShapeInMemory(s);
    HeapSteps.SwitchKeeps(s, on, rz);
    if on {
      var states, order := ReInitRuns(s, rz);
    }
  }
}
