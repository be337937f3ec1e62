/**
 Chunk headers as bytes in memory: `ChunkHeader` (16 bytes in front of user memory),
 the free context (first 8 user bytes), `LargeChunkHeader` (16 bytes at the block start),
 and the lookup that decodes them.

   offset  0  chunk_state     1  alloc_type:2 lsan_tag:2 alignment_log:3
           2  size_hi (u16)   4  size_lo (u32)   8  alloc_context (u64)   16  free_context (u64)
 */
module Chunks {
  import opened Words
  import opened Layout
  import opened Memory

  const CHUNK_INVALID: Byte := 0
  const CHUNK_ALLOCATED: Byte := 2
  const CHUNK_QUARANTINE: Byte := 3
  const MAGIC: nat := 0xCC6E96B9CC6E96B9
  const U32: nat := 0x1_0000_0000

  datatype Option<+T> = None | Some(value: T)

  /** A block of the underlying allocator; `lead` is the mapping's own page in front of it. */
  datatype Block = Block(size: nat, lead: nat, primary: bool)

  /** What an allocation is known to be, independently of how it is laid down in memory. */
  datatype Chunk = Chunk(user: nat, size: nat, rz: nat, alignLog: nat, kind: nat, tid: nat, stack: nat, id: nat)

  function Hdr(ch: Chunk): int {
    ch.user - HEADER
  }

  // ------------------------------------------------------------ packed fields

  function KindOf(v: Byte): nat { v % 16 % 4 }
  function TagOf(v: Byte): nat { v % 16 / 4 }
  function AlignOf(v: Byte): nat { v / 16 % 8 }

  /** A byte is its two halves. */
  lemma Nibbles(low: nat, high: nat)
    requires low < 16
    ensures (low + 16 * high) % 16 == low && (low + 16 * high) / 16 == high
  {
  }

  function PutKind(v: Byte, kind: nat): (r: Byte)
    requires kind < 4
    ensures KindOf(r) == kind && TagOf(r) == TagOf(v) && AlignOf(r) == AlignOf(v)
  {
    Nibbles(kind + 4 * TagOf(v), v / 16);
    kind + 4 * TagOf(v) + 16 * (v / 16)
  }

  function PutTag(v: Byte, tag: nat): (r: Byte)
    requires tag < 4
    ensures KindOf(r) == KindOf(v) && TagOf(r) == tag && AlignOf(r) == AlignOf(v)
  {
    Nibbles(KindOf(v) + 4 * tag, v / 16);
    KindOf(v) + 4 * tag + 16 * (v / 16)
  }

  function PutAlign(v: Byte, log: nat): (r: Byte)
    requires log < 8
    ensures KindOf(r) == KindOf(v) && TagOf(r) == TagOf(v) && AlignOf(r) == log
  {
    Nibbles(v % 16, log + 8 * (v / 128));
    v % 16 + 16 * (log + 8 * (v / 128))
  }

  /** `AtomicContextStore`: thread id in the high half, stack id in the low half. */
  function Pack(tid: nat, stack: nat): nat {
    tid * U32 + stack
  }

  function ContextTid(context: nat): nat { context / U32 }
  function ContextStack(context: nat): nat { context % U32 }

  lemma PackRoundTrip(tid: nat, stack: nat)
    requires tid < U32 && stack < U32
    ensures ContextTid(Pack(tid, stack)) == tid && ContextStack(Pack(tid, stack)) == stack
    ensures Pack(tid, stack) < WORD
  {
  }

  // ------------------------------------------------------------- chunk header

  function UsedSize(m: Mem, c: nat): nat
    requires c + HEADER <= |m|
  {
    Load(m, c + 2, 2) * U32 + Load(m, c + 4, 4)
  }

  lemma UsedSizeFrame(m: Mem, m': Mem, c: nat)
    requires c + HEADER <= |m| && SameBytes(m, m', c + 2, c + 8)
    ensures UsedSize(m', c) == UsedSize(m, c)
  {
    LoadFrame(m, m', c + 2, 2);
    LoadFrame(m, m', c + 4, 4);
  }

  function PutSizeLo(m: Mem, c: nat, size: nat): (r: Mem)
    requires c + HEADER <= |m|
    ensures |r| == |m|
  {
    Store(m, c + 4, 4, size % U32)
  }

  function PutSizeHi(m: Mem, c: nat, size: nat): (r: Mem)
    requires c + HEADER <= |m|
    ensures |r| == |m|
  {
    Store(m, c + 2, 2, size / U32 % 0x1_0000)
  }

  /** The CHECK in `SetUsedSize` holds exactly for sizes that fit the 48 bits of the field. */
  lemma SizeRoundTripIff(m: Mem, c: nat, size: u64)
    requires c + HEADER <= |m|
    ensures UsedSize(PutSizeHi(PutSizeLo(m, c, size), c, size), c) == size <==> size < 0x1_0000_0000_0000
  {
    var lo, hi := size % U32, size / U32 % 0x1_0000;
    var m1 := PutSizeLo(m, c, size);
    var m2 := PutSizeHi(m1, c, size);
    LoadStore4(m, c + 4, lo);
    LoadStore2(m1, c + 2, hi);
    LoadFrame(m1, m2, c + 4, 4);
  }

  /** Every metadata field of the header at `Hdr(ch)` reads back as the allocation stored it. */
  ghost predicate HeaderOk(m: Mem, ch: Chunk)
    requires 0 <= Hdr(ch) && ch.user <= |m|
  {
    var c := Hdr(ch);
    && KindOf(m[c + 1]) == ch.kind
    && AlignOf(m[c + 1]) == ch.alignLog
    && UsedSize(m, c) == ch.size
    && Load(m, c + 8, 8) == Pack(ch.tid, ch.stack)
  }

  lemma HeaderFrame(m: Mem, m': Mem, ch: Chunk)
    requires 0 <= Hdr(ch) && ch.user <= |m|
    requires HeaderOk(m, ch)
    requires SameBytes(m, m', Hdr(ch) + 1, ch.user)
    ensures HeaderOk(m', ch)
  {
    var c := Hdr(ch);
    LoadFrame(m, m', c + 4, 4);
    LoadFrame(m, m', c + 2, 2);
    LoadFrame(m, m', c + 8, 8);
  }

  // ------------------------------------------------------------ block headers

  /** `LargeChunkHeader::Get` on the first two words of the block at `b`. */
  function LargeHeaderGet(m: Mem, b: nat): Option<nat>
    requires b + LARGE_HEADER <= |m|
  {
    if Load(m, b, 8) == MAGIC then Some(Load(m, b + 8, 8)) else None
  }

  /** `Allocator::GetAsanChunk`. */
  function GetAsanChunk(m: Mem, b: nat, primary: bool): Option<nat>
    requires b + LARGE_HEADER <= |m|
  {
    var p := match LargeHeaderGet(m, b) case Some(c) => Some(c) case None => if primary then Some(b) else None;
    if p.Some? && p.value < |m| && m[p.value] in {CHUNK_ALLOCATED, CHUNK_QUARANTINE} then p else None
  }

  /** A chunk state or a cleared magic at the block start never reads as the magic. */
  lemma StateIsNotMagic(m: Mem, b: nat)
    requires b + LARGE_HEADER <= |m|
    requires m[b] in {CHUNK_INVALID, CHUNK_ALLOCATED, CHUNK_QUARANTINE}
    ensures LargeHeaderGet(m, b) == None
  {
    LowByte(m, b, 8);
  }

  /** An invalid byte at the block start hides whatever else the block holds. */
  lemma InvalidStartHides(m: Mem, b: nat, primary: bool)
    requires b + LARGE_HEADER <= |m| && m[b] == CHUNK_INVALID
    ensures GetAsanChunk(m, b, primary) == None
  {
    StateIsNotMagic(m, b);
  }

  // ------------------------------------------------------------------ layout

  /** The chunk lies in its block: redzone, header, large header, user bytes and free context. */
  ghost predicate Fits(b: nat, bk: Block, ch: Chunk) {
    && 16 <= ch.rz <= 2048
    && b + ch.rz <= ch.user
    && (Hdr(ch) == b || b + LARGE_HEADER <= Hdr(ch))
    && 1 <= ch.size <= MAX_MALLOC
    && Multiple(ch.user, 8)
    && ch.user + Max(ch.size, HEADER2) <= b + bk.size
    && ch.alignLog < 8 && ch.kind < 4
    && ch.tid < U32 && ch.stack < U32
  }

  /** The header carries `state`, is complete, and the block start leads to it. */
  ghost predicate Published(m: Mem, b: nat, bk: Block, ch: Chunk, state: Byte)
    requires Fits(b, bk, ch) && b + bk.size <= |m|
  {
    && HeaderOk(m, ch)
    && m[Hdr(ch)] == state
    && (Hdr(ch) != b ==> LargeHeaderGet(m, b) == Some(Hdr(ch)))
  }

  /** A chunk without the large header in a secondary block cannot be found from its block. */
  predicate Findable(b: nat, bk: Block, ch: Chunk) {
    bk.primary || Hdr(ch) != b
  }

  lemma PublishedIsFound(m: Mem, b: nat, bk: Block, ch: Chunk, state: Byte)
    requires Fits(b, bk, ch) && b + bk.size <= |m|
    requires state in {CHUNK_ALLOCATED, CHUNK_QUARANTINE}
    requires Published(m, b, bk, ch, state)
    ensures GetAsanChunk(m, b, bk.primary) == if Findable(b, bk, ch) then Some(Hdr(ch)) else None
  {
    if Hdr(ch) == b {
      StateIsNotMagic(m, b);
    }
  }

  lemma PublishedFrame(m: Mem, m': Mem, b: nat, bk: Block, ch: Chunk, state: Byte)
    requires Fits(b, bk, ch) && b + bk.size <= |m|
    requires Published(m, b, bk, ch, state)
    requires SameBytes(m, m', b, ch.user)
    ensures Published(m', b, bk, ch, state)
  {
    HeaderFrame(m, m', ch);
    LoadFrame(m, m', b, 8);
    LoadFrame(m, m', b + 8, 8);
  }

  /** Replacing the state byte changes nothing else that lookup or the header fields depend on. */
  lemma PublishedState(m: Mem, b: nat, bk: Block, ch: Chunk, from: Byte, to: Byte)
    requires Fits(b, bk, ch) && b + bk.size <= |m|
    requires Published(m, b, bk, ch, from)
    ensures Published(m[Hdr(ch) := to], b, bk, ch, to)
  {
    var m' := m[Hdr(ch) := to];
    HeaderFrame(m, m', ch);
    if Hdr(ch) != b {
      LoadFrame(m, m', b, 8);
      LoadFrame(m, m', b + 8, 8);
    }
  }
}
