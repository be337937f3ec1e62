/** Decoding headers from memory finds exactly what the abstract block map holds. */
module Lookup {
  import opened Layout
  import opened Chunks
  import opened Machine
  import opened Invariant

  /** What may be found from the start of block b, told without looking at memory. */
  ghost function Visible(s: State, b: nat): Option<nat>
    requires b in s.blocks && b in s.abs
  {
    var bk := s.blocks[b];
    match s.abs[b]
    case AFree => None
    case ALive(ch) => Found(b, bk, ch)
    case AQuar(ch, _) => Found(b, bk, ch)
    case ABusy(t, ch) =>
      if t !in s.threads || s.threads[t].AllocTask? then None
      else if s.threads[t].RecycleTask? && bk.primary
              && s.threads[t].pc > (if Hdr(ch) == b then CLEAR_STATE else CLEAR_MAGIC) then None
      else Found(b, bk, ch)
  }

  function Found(b: nat, bk: Block, ch: Chunk): Option<nat> {
    if Findable(b, bk, ch) && 0 <= Hdr(ch) then Some(Hdr(ch)) else None
  }

  ghost function AbsLookup(s: State, a: int): Option<nat>
    requires s.abs.Keys == s.blocks.Keys
  {
    match GetBlockBegin(s.blocks, a)
    case None => None
    case Some(b) => Visible(s, b)
  }

  lemma RecyclingIsSeen(s: State, b: nat, bk: Block, ch: Chunk, pc: nat)
    requires Fits(b, bk, ch) && b + bk.size <= |s.mem| && LARGE_HEADER <= bk.size
    requires RecycleOk(s, b, bk, ch, pc)
    ensures GetAsanChunk(s.mem, b, bk.primary)
            == if bk.primary && pc > (if Hdr(ch) == b then CLEAR_STATE else CLEAR_MAGIC) then None else Found(b, bk, ch)
  {
    if bk.primary && pc > (if Hdr(ch) == b then CLEAR_STATE else CLEAR_MAGIC) {
      InvalidStartHides(s.mem, b, bk.primary);
    } else {
      PublishedIsFound(s.mem, b, bk, ch, CHUNK_QUARANTINE);
    }
  }

  /** The bytes at a block start decode to what is visible there, at every program point. */
  lemma BlockDecodes(s: State, b: nat)
    requires b in s.blocks && b in s.abs && BlockShape(s, b) && BlockOk(s, b)
    ensures GetAsanChunk(s.mem, b, s.blocks[b].primary) == Visible(s, b)
  {
    var bk := s.blocks[b];
    match s.abs[b]
    case AFree => InvalidStartHides(s.mem, b, bk.primary);
    case ALive(ch) => PublishedIsFound(s.mem, b, bk, ch, CHUNK_ALLOCATED);
    case AQuar(ch, _) => PublishedIsFound(s.mem, b, bk, ch, CHUNK_QUARANTINE);
    case ABusy(t, ch) =>
      match s.threads[t] {
        case AllocTask(_, _, _, _, _, _, _) => InvalidStartHides(s.mem, b, bk.primary);
        case FreeTask(_, _, _, _) => PublishedIsFound(s.mem, b, bk, ch, CHUNK_QUARANTINE);
        case RecycleTask(pc, _, _) => RecyclingIsSeen(s, b, bk, ch, pc);
      }
  }

  /** Lookup refines the abstract map, from any address and in every state the invariant allows. */
  lemma LookupRefines(s: State, a: int)
    requires Inv(s)
    ensures GetAsanChunkByAddr(s, a) == AbsLookup(s, a)
  {
    var r := GetBlockBegin(s.blocks, a);
    if r.Some? {
      assert BlockShape(s, r.value) && BlockOk(s, r.value);
      BlockDecodes(s, r.value);
    }
  }

  /** Memory agrees with everything recorded about a chunk. */
  ghost predicate Complete(s: State, b: nat, c: nat) {
    && b in s.blocks && HasChunk(s, b)
    && var ch := s.abs[b].ch;
    && c == Hdr(ch) && ch.user + ch.size <= |s.mem|
    && HeaderOk(s.mem, ch)
    && s.mem[c] in {CHUNK_ALLOCATED, CHUNK_QUARANTINE}
  }

  /** Publication: a lookup at any moment gives nothing, or a chunk whose metadata is complete. */
  lemma LookupIsComplete(s: State, a: int)
    requires Inv(s) && GetAsanChunkByAddr(s, a).Some?
    ensures exists b: nat :: InBlock(s.blocks, b, a) && Complete(s, b, GetAsanChunkByAddr(s, a).value)
  {
    LookupRefines(s, a);
    var b := GetBlockBegin(s.blocks, a).value;
    assert BlockOk(s, b);
    assert Complete(s, b, GetAsanChunkByAddr(s, a).value);
  }

  // ------------------------------------------------------------- allocation size

  /** `Allocator::AllocationSize`. */
  ghost function AllocationSize(s: State, p: nat): nat {
    match GetAsanChunkByAddr(s, p)
    case None => 0
    case Some(c) =>
      if c + HEADER <= |s.mem| && s.mem[c] == CHUNK_ALLOCATED && c + HEADER == p then UsedSize(s.mem, c) else 0
  }

  ghost predicate StartsLive(s: State, b: nat, p: nat) {
    b in s.blocks && b in s.abs && s.abs[b].ALive? && s.abs[b].ch.user == p && Findable(b, s.blocks[b], s.abs[b].ch)
  }

  lemma SizeHasStart(s: State, p: nat) returns (b: nat)
    requires Inv(s) && AllocationSize(s, p) > 0
    ensures StartsLive(s, b, p)
  {
    LookupRefines(s, p);
    b := GetBlockBegin(s.blocks, p).value;
    assert BlockOk(s, b);
  }

  /** Owned means: the start of a live chunk that can be found; the size is the one requested. */
  lemma AllocationSizeIff(s: State, p: nat)
    requires Inv(s)
    ensures AllocationSize(s, p) > 0 <==> exists b: nat :: StartsLive(s, b, p)
    ensures forall b: nat :: StartsLive(s, b, p) ==> AllocationSize(s, p) == s.abs[b].ch.size
  {
    if AllocationSize(s, p) > 0 {
      var b := SizeHasStart(s, p);
    }
    forall b: nat | StartsLive(s, b, p)
      ensures AllocationSize(s, p) == s.abs[b].ch.size > 0
    {
      assert BlockOk(s, b);
      BlockBeginIs(s, b, p);
      LookupRefines(s, p);
    }
  }
}
