/** Who frees a chunk: one winner per allocation, one holder per quarantined chunk, losers reported. */
module FreeProtocol {
  import opened Layout
  import opened Memory
  import opened Chunks
  import opened Machine
  import opened Invariant
  import opened Runs
  import opened Separation
  import opened Effects
  import Freeing

  // --------------------------------------------------------------------- reports

  datatype Report = Quiet | DoubleFree | FreeNotMalloced

  /** `ReportInvalidFree` on the state byte the compare-and-swap saw. */
  function FreeReport(state: Byte): Report {
    if state == CHUNK_ALLOCATED then Quiet
    else if state == CHUNK_QUARANTINE then DoubleFree
    else FreeNotMalloced
  }

  /** What a free of the chunk in block b is answered with, from what the chunk's block is being used for. */
  ghost function Answer(s: State, b: nat): Report
    requires b in s.blocks && b in s.abs && (s.abs[b].ABusy? ==> s.abs[b].t in s.threads)
  {
    match s.abs[b]
    case ALive(_) => Quiet
    case AQuar(_, _) => DoubleFree
    case AFree => FreeNotMalloced
    case ABusy(t, _) =>
      match s.threads[t]
      case AllocTask(_, _, _, _, _, _, _) => FreeNotMalloced
      case FreeTask(_, _, _, _) => DoubleFree
      case RecycleTask(pc, _, _) => if s.blocks[b].primary && pc > CLEAR_STATE then FreeNotMalloced else DoubleFree
  }

  /** The chunk was freed and its header still says so. */
  ghost predicate FreedInPlace(s: State, b: nat) {
    b in s.blocks && b in s.abs && (s.abs[b].ABusy? ==> s.abs[b].t in s.threads) && Answer(s, b) == DoubleFree
  }

  lemma FreedByte(s: State, b: nat)
    requires Inv(s) && FreedInPlace(s, b)
    ensures 0 <= Hdr(s.abs[b].ch) < |s.mem| && s.mem[Hdr(s.abs[b].ch)] == CHUNK_QUARANTINE
  {
    assert BlockOk(s, b);
  }

  /** A losing free is reported as a double free and changes nothing at all. */
  lemma LoserIsReported(s: State, b: nat, t: nat, p: nat, stack: nat)
    requires Inv(s) && FreedInPlace(s, b) && p == s.abs[b].ch.user
    requires Enabled(s, Free(t, p, stack))
    ensures FreeReport(s.mem[p - HEADER]) == DoubleFree
    ensures Safe(s, Free(t, p, stack)) && Apply(s, Free(t, p, stack)) == s
  {
    FreedByte(s, b);
    Losing(s, b, t, p, stack);
  }

  lemma ByteAnswers(s: State, b: nat, a: nat)
    requires b in s.blocks && b in s.abs && BlockShape(s, b) && BlockOk(s, b)
    requires if HasChunk(s, b) && !(s.abs[b].ABusy? && s.threads[s.abs[b].t].AllocTask?) then a == Hdr(s.abs[b].ch) else a == b
    ensures s.abs[b].ABusy? ==> s.abs[b].t in s.threads
    ensures a < |s.mem| && FreeReport(s.mem[a]) == Answer(s, b)
  {
  }

  lemma PointerAnswers(s: State, b: nat, p: nat, a: nat)
    requires b in s.blocks && b in s.abs && (s.abs[b].ABusy? ==> s.abs[b].t in s.threads)
    requires a < |s.mem| && FreeReport(s.mem[a]) == Answer(s, b) && a + HEADER == p
    ensures HEADER <= p < |s.mem| + HEADER && FreeReport(s.mem[p - HEADER]) == Answer(s, b)
  {
    assert p - HEADER == a;
  }

  /**
   How a free of any chunk's pointer is answered: quietly if the chunk is live, as a double free while the
   header still says that it was freed, as not malloced once recycling has taken that back.
   */
  lemma ChunkIsAnswered(s: State, b: nat, p: nat)
    requires Inv(s) && b in s.blocks && HasChunk(s, b) && p == s.abs[b].ch.user
    requires s.abs[b].ABusy? ==> !s.threads[s.abs[b].t].AllocTask?
    ensures HEADER <= p < |s.mem| + HEADER && FreeReport(s.mem[p - HEADER]) == Answer(s, b)
  {
    HeaderBlock(s, b);
    var a: nat := p - HEADER;
    ByteAnswers(s, b, a);
    PointerAnswers(s, b, p, a);
  }

  /** So is a pointer whose header would be the start of a free block, or of one that `Allocate` still works on. */
  lemma BlockStartIsAnswered(s: State, b: nat, p: nat)
    requires Inv(s) && b in s.blocks && p == b + HEADER
    requires s.abs[b].AFree? || (s.abs[b].ABusy? && s.threads[s.abs[b].t].AllocTask?)
    ensures p < |s.mem| + HEADER && FreeReport(s.mem[p - HEADER]) == FreeNotMalloced
  {
    assert BlockShape(s, b) && BlockOk(s, b);
    ByteAnswers(s, b, b);
  }

  /** Only a live chunk's pointer is freed quietly. */
  lemma QuietIff(s: State, p: nat)
    requires Inv(s) && HEADER <= p < |s.mem| + HEADER && NotForged(s, p)
    ensures FreeReport(s.mem[p - HEADER]) == Quiet <==> exists b :: b in s.abs && s.abs[b].ALive? && s.abs[b].ch.user == p
  {
    forall b | b in s.abs && s.abs[b].ALive? && s.abs[b].ch.user == p
      ensures FreeReport(s.mem[p - HEADER]) == Quiet
    {
      ChunkIsAnswered(s, b, p);
    }
  }

  lemma Losing(s: State, b: nat, t: nat, p: nat, stack: nat)
    requires FreedInPlace(s, b) && p == s.abs[b].ch.user && Enabled(s, Free(t, p, stack))
    requires s.mem[Hdr(s.abs[b].ch)] == CHUNK_QUARANTINE
    ensures FreeReport(s.mem[p - HEADER]) == DoubleFree
    ensures Safe(s, Free(t, p, stack)) && Apply(s, Free(t, p, stack)) == s
  {
    assert p - HEADER == Hdr(s.abs[b].ch);
    Freeing.FreeRaceLost(s, t, p, stack);
  }

  lemma LiveByte(s: State, b: nat)
    requires Inv(s) && b in s.blocks && s.abs[b].ALive?
    ensures 0 <= Hdr(s.abs[b].ch) < |s.mem| && s.mem[Hdr(s.abs[b].ch)] == CHUNK_ALLOCATED
    ensures GetBlockBegin(s.blocks, Hdr(s.abs[b].ch)) == Some(b)
  {
    HeaderBlock(s, b);
  }

  /** A free of a live chunk wins quietly. */
  lemma WinnerTakesChunk(s: State, b: nat, t: nat, p: nat, stack: nat)
    requires Inv(s) && b in s.blocks && s.abs[b].ALive? && p == s.abs[b].ch.user
    requires Enabled(s, Free(t, p, stack))
    ensures FreeReport(s.mem[p - HEADER]) == Quiet
    ensures Safe(s, Free(t, p, stack)) && Apply(s, Free(t, p, stack)).abs == s.abs[b := ABusy(t, s.abs[b].ch)]
  {
    LiveByte(s, b);
    Winning(s, b, t, p, stack);
  }

  lemma Winning(s: State, b: nat, t: nat, p: nat, stack: nat)
    requires b in s.abs && s.abs[b].ALive? && p == s.abs[b].ch.user && Enabled(s, Free(t, p, stack))
    requires s.mem[Hdr(s.abs[b].ch)] == CHUNK_ALLOCATED && GetBlockBegin(s.blocks, Hdr(s.abs[b].ch)) == Some(b)
    ensures FreeReport(s.mem[p - HEADER]) == Quiet
    ensures Safe(s, Free(t, p, stack)) && Apply(s, Free(t, p, stack)) == Freeing.Won(s, t, b, stack)
  {
    assert p - HEADER == Hdr(s.abs[b].ch);
    Freeing.FreeRaceResult(s, t, p, stack, b);
  }

  // --------------------------------------------------------------------- holders

  /** Some free of this allocation has won. */
  ghost predicate Freed(s: State, b: nat) {
    && b in s.abs
    && (s.abs[b].AQuar? || (s.abs[b].ABusy? && s.abs[b].t in s.threads && !s.threads[s.abs[b].t].AllocTask?))
  }

  ghost predicate HeldBy(s: State, t: nat, b: nat) {
    t in s.threads && s.threads[t].b == b
  }

  /** A freed chunk is in the quarantine exactly once and with no thread, or with exactly one thread. */
  lemma OneHolder(s: State, b: nat)
    requires Inv(s) && b in s.blocks && Freed(s, b)
    ensures s.abs[b].AQuar? ==>
              Hdr(s.abs[b].ch) >= 0 && s.quarantine[Hdr(s.abs[b].ch)] == 1 && forall t :: !HeldBy(s, t, b)
    ensures s.abs[b].ABusy? ==>
              Hdr(s.abs[b].ch) >= 0 && s.quarantine[Hdr(s.abs[b].ch)] == 0 && forall t :: HeldBy(s, t, b) <==> t == s.abs[b].t
  {
    assert BlockOk(s, b);
    if s.abs[b].ABusy? {
      OwnBlockQuarantine(s, s, b);
    }
  }

  // --------------------------------------------------------------------- winners

  /** Allocation ids are distinct, and `won` counts the frees that won each of them. */
  ghost predicate IdsOk(s: State) {
    && (forall b :: Holds(s, b) ==> s.abs[b].ch.id < s.nextId && s.won[s.abs[b].ch.id] == if Freed(s, b) then 1 else 0)
    && (forall b, b' :: Holds(s, b) && Holds(s, b') && b != b' ==> s.abs[b].ch.id != s.abs[b'].ch.id)
    && (forall i: nat :: s.won[i] <= 1 && (i in s.won ==> i < s.nextId))
  }

  /** The story of block b, as far as winners are concerned, is the same. */
  ghost predicate SameWinner(s: State, s': State, b: nat) {
    && (Holds(s', b) ==> Holds(s, b) && s'.abs[b].ch == s.abs[b].ch && (Freed(s', b) <==> Freed(s, b)))
  }

  lemma IdsSame(s: State, s': State)
    requires IdsOk(s) && s'.nextId == s.nextId && s'.won == s.won
    requires forall b: nat :: SameWinner(s, s', b)
    ensures IdsOk(s')
  {
    forall b | Holds(s', b)
      ensures Holds(s, b) && s'.abs[b].ch == s.abs[b].ch && (Freed(s', b) <==> Freed(s, b))
    {
      assert SameWinner(s, s', b);
    }
  }

  /** The block of a thread inside an operation keeps its winner, and so does every other block. */
  lemma TaskSameWinner(s: State, s': State, t: nat, keep: bool, b: nat)
    requires AllAnchored(s) && s'.abs.Keys == s'.blocks.Keys && t in s.threads && TaskRecorded(s, s', t, keep)
    ensures SameWinner(s, s', b)
  {
    if b in s.blocks {
      assert Anchored(s, b);
    }
  }

  lemma StartSameWinner(s: State, s': State, t: nat, b0: nat, ch: Chunk, b: nat)
    requires AllAnchored(s) && s'.abs.Keys == s'.blocks.Keys && Starts(s, s', t, b0, ch) && b != b0
    ensures SameWinner(s, s', b)
  {
    if b in s.blocks {
      assert Anchored(s, b);
    }
  }

  /** A new allocation gets an id nobody has used. */
  lemma MallocIds(s: State, s': State, t: nat, b0: nat)
    requires IdsOk(s) && AllAnchored(s) && s'.abs.Keys == s'.blocks.Keys && MallocRecorded(s, s', t, b0)
    ensures IdsOk(s')
  {
    forall b: nat | b != b0
      ensures SameWinner(s, s', b)
    {
      StartSameWinner(s, s', t, b0, s'.abs[b0].ch, b);
    }
    forall b | Holds(s', b) && b != b0
      ensures Holds(s, b) && s'.abs[b].ch == s.abs[b].ch && (Freed(s', b) <==> Freed(s, b))
    {
      assert SameWinner(s, s', b);
    }
  }

  /** The winning compare-and-swap is the only step that counts. */
  lemma WinIds(s: State, s': State, t: nat, p: nat, b0: nat)
    requires IdsOk(s) && AllAnchored(s) && s'.abs.Keys == s'.blocks.Keys && WinRecorded(s, s', t, p, b0)
    ensures IdsOk(s')
  {
    forall b: nat | b != b0
      ensures SameWinner(s, s', b)
    {
      StartSameWinner(s, s', t, b0, s.abs[b0].ch, b);
    }
    forall b | Holds(s', b) && b != b0
      ensures Holds(s, b) && s'.abs[b].ch == s.abs[b].ch && (Freed(s', b) <==> Freed(s, b))
    {
      assert SameWinner(s, s', b);
    }
  }

  lemma PickIds(s: State, s': State, t: nat, m: nat, b0: nat)
    requires IdsOk(s) && AllAnchored(s) && s'.abs.Keys == s'.blocks.Keys && PickRecorded(s, s', t, m, b0)
    ensures IdsOk(s')
  {
    forall b: nat
      ensures SameWinner(s, s', b)
    {
      if b != b0 {
        StartSameWinner(s, s', t, b0, s.abs[b0].ch, b);
      }
    }
    IdsSame(s, s');
  }

  /** Records that change as steps change them keep the count of winners right. */
  lemma RecordKeepsIds(s: State, s': State, step: Step)
    requires IdsOk(s) && AllAnchored(s) && s'.abs.Keys == s'.blocks.Keys && Recorded(s, s', step)
    ensures IdsOk(s')
  {
    if step.Malloc? {
      MallocIds(s, s', step.t, SourceBeg(step.source));
    } else if step.Free? && s' != s {
      var b: nat :| WinRecorded(s, s', step.t, step.p, b);
      WinIds(s, s', step.t, step.p, b);
    } else if step.Recycle? {
      var b: nat :| PickRecorded(s, s', step.t, step.m, b);
      PickIds(s, s', step.t, step.m, b);
    } else if step.Run? {
      forall b: nat
        ensures SameWinner(s, s', b)
      {
        TaskSameWinner(s, s', step.t, step.keep, b);
      }
      IdsSame(s, s');
    } else {
      forall b: nat
        ensures SameWinner(s, s', b)
      {
      }
      IdsSame(s, s');
    }
  }

  lemma {:induction false} RunKeepsIds(states: seq<State>, steps: seq<Step>, i: nat)
    requires IsRun(states, steps) && i < |states|
    ensures IdsOk(states[i])
    decreases i
  {
    if i > 0 {
      RunKeepsIds(states, steps, i - 1);
      RunIsSafe(states, steps, i - 1);
      StepKeepsInv(states[i - 1], steps[i - 1]);
      StepIsRecorded(states[i - 1], steps[i - 1]);
      InvAllAnchored(states[i - 1]);
      RecordKeepsIds(states[i - 1], Apply(states[i - 1], steps[i - 1]), steps[i - 1]);
    }
  }

  /** The step is a free whose compare-and-swap wins the live allocation `id`. */
  ghost predicate Wins(s: State, step: Step, id: nat) {
    && step.Free? && HEADER <= step.p < |s.mem| + HEADER && s.mem[step.p - HEADER] == CHUNK_ALLOCATED
    && exists b: nat :: LiveAt(s, b, step.p, id)
  }

  ghost predicate LiveAt(s: State, b: nat, p: nat, id: nat) {
    Holds(s, b) && s.abs[b].ALive? && s.abs[b].ch.user == p && s.abs[b].ch.id == id
  }

  lemma NotWonBefore(s: State, step: Step, id: nat)
    requires IdsOk(s) && Wins(s, step, id)
    ensures s.won[id] == 0
  {
    var b: nat :| LiveAt(s, b, step.p, id);
  }

  lemma WonNext(states: seq<State>, steps: seq<Step>, i: nat)
    requires IsRun(states, steps) && i < |steps|
    ensures states[i].won <= states[i + 1].won
  {
    RunIsSafe(states, steps, i);
    StepIsRecorded(states[i], steps[i]);
  }

  lemma {:induction false} WonStays(states: seq<State>, steps: seq<Step>, i: nat, j: nat)
    requires IsRun(states, steps) && i <= j < |states|
    ensures states[i].won <= states[j].won
    decreases j
  {
    if i < j {
      var k := j - 1;
      WonStays(states, steps, i, k);
      WonNext(states, steps, k);
    }
  }

  /** In every run, under every interleaving, at most one free wins any given allocation. */
  lemma OneWinner(states: seq<State>, steps: seq<Step>, i: nat, j: nat, id: nat)
    requires IsRun(states, steps) && i < |steps| && j < |steps|
    requires Wins(states[i], steps[i], id) && Wins(states[j], steps[j], id)
    ensures i == j
  {
    if i < j {
      SecondWinImpossible(states, steps, i, j, id);
    } else if j < i {
      SecondWinImpossible(states, steps, j, i, id);
    }
  }

  /** The winning step puts its allocation's id into `won`. */
  lemma WinIsRecorded(s: State, step: Step, id: nat)
    requires Inv(s) && Enabled(s, step) && Wins(s, step, id)
    ensures Apply(s, step).won[id] >= 1
  {
    var b: nat :| LiveAt(s, b, step.p, id);
    LiveByte(s, b);
    Winning(s, b, step.t, step.p, step.stack);
  }

  lemma SecondWinImpossible(states: seq<State>, steps: seq<Step>, i: nat, j: nat, id: nat)
    requires IsRun(states, steps) && i < j < |steps|
    requires Wins(states[i], steps[i], id)
    ensures !Wins(states[j], steps[j], id)
  {
    RunIsSafe(states, steps, i);
    WinIsRecorded(states[i], steps[i], id);
    WonStays(states, steps, i + 1, j);
    RunKeepsIds(states, steps, j);
    if Wins(states[j], steps[j], id) {
      NotWonBefore(states[j], steps[j], id);
    }
  }
}
