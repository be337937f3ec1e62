/**
 The allocator as a state machine: any number of threads inside `Allocate`, `Deallocate` and
 `Recycle`, interleaved at the granularity of one write (or compare-and-swap) of shared memory. A
 word store, a fill and a call of `PoisonShadow` are one write each. The one exception is `RePoison`:
 the visit of a block by `RePoisonChunk` reads the chunk's header and writes the block's shadow in one
 step. What a visit does that is interrupted in between is the subject of the module `Interrupted`.

 Control flow depends only on memory, shadow, the block table, the quarantine and thread-local
 values. `stale` and the last four fields of `State` are auxiliary: they record what the bytes are
 supposed to mean. Only two guards look at them, to say what clients may do (`NotForged`, `IsLiveByte`).
 */
module Machine {
  import opened Words
  import opened Layout
  import opened Memory
  import opened Chunks

  /** Flags that control filling; `tag` is the leak-checker tag written by `Allocate`. */
  datatype Flags = Flags(freeFill: nat, freeByte: Byte, mallocByte: Byte, tag: nat)

  datatype Stats = Stats(mallocs: nat, malloced: nat, frees: nat, freed: nat, realFrees: nat, reallyFreed: nat)

  /** Program points of `Allocate` after it got its block. */
  const PUT_KIND: nat := 0
  const PUT_SIZE_LO: nat := 1
  const PUT_SIZE_HI: nat := 2
  const PUT_ALIGN: nat := 3
  const PUT_CONTEXT: nat := 4
  const TEST_FIRST: nat := 5
  const PUT_LEFT: nat := 6
  const PUT_RIGHT: nat := 7
  const CLEAR_USER: nat := 8
  const TEST_MODE: nat := 9
  const PUT_PARTIAL: nat := 10
  const COUNT_MALLOC: nat := 11
  const FILL_USER: nat := 12
  const PUT_TAG: nat := 13
  const PUT_STATE: nat := 14
  const PUT_BACK_LINK: nat := 15
  const PUT_MAGIC: nat := 16

  /** Program points of `Deallocate` after it won the compare-and-swap. */
  const CLEAR_CONTEXT: nat := 0
  const COUNT_FREE: nat := 1
  const PUT_FREE_CONTEXT: nat := 2
  const QUARANTINE_OR_PASS: nat := 3
  const POISON_FREED: nat := 4
  const ENQUEUE: nat := 5

  /** Program points of `Recycle`. */
  const CLEAR_MAGIC: nat := 0
  const CLEAR_STATE: nat := 1
  const POISON_RECYCLED: nat := 2
  const COUNT_RECYCLE: nat := 3
  const RETURN_BLOCK: nat := 4

  /**
   A thread inside an operation: program point and local variables. `wide` is what the test of the
   first shadow byte said (line 617), `part` whether the last granule gets its partial byte (line 634).
   */
  datatype Task =
    | AllocTask(pc: nat, b: nat, ch: Chunk, guess: bool, fill: nat, wide: bool, part: bool)
    | FreeTask(pc: nat, m: nat, b: nat, stack: nat)
    | RecycleTask(pc: nat, m: nat, b: nat)

  /** What a block is being used for. */
  datatype Abs = AFree | ABusy(t: nat, ch: Chunk) | ALive(ch: Chunk) | AQuar(ch: Chunk, context: nat)

  /**
   `spare` maps granules that are mapped but not carved into blocks yet to whether poisoning was on
   when they were mapped; `stale` are the blocks that a re-activation has still to re-poison; `lost`
   are the allocations whose shadow a re-activation spoilt.
   */
  datatype State = State(
    mem: Mem, shadow: Shadow,
    on: bool, rz: Redzones, maxUser: u64, flags: Flags,
    blocks: map<nat, Block>, free: set<nat>,
    spare: map<nat, bool>, stale: set<nat>,
    threads: map<nat, Task>, quarantine: multiset<nat>, stats: map<nat, Stats>,
    abs: map<nat, Abs>, nextId: nat, won: multiset<nat>, lost: set<nat>)

  /** Where the underlying allocator finds a block. */
  datatype Source = Primary(b: nat) | Secondary(mapBeg: nat)

  datatype Step =
    | Map(p: nat, size: nat)
    | Carve(b: nat, size: nat, leftover: nat)
    | Malloc(t: nat, size0: u64, alignment0: u64, kind: nat, stack: nat, fill: nat, source: Source)
    | Free(t: nat, p: nat, stack: nat)
    | Recycle(t: nat, m: nat)
    | Run(t: nat, keep: bool)
    | UserWrite(a: nat, v: Byte)
    | ReInit(on: bool, rz: Redzones)
    | RePoison(b: nat)

  // ------------------------------------------------------ underlying allocator

  function RoundUp8(n: nat): (r: nat)
    ensures n <= r < n + 8
  {
    (n + 7) / 8 * 8
  }

  function RoundUpPage(n: nat): (r: nat)
    ensures n <= r < n + PAGE
  {
    (n + PAGE - 1) / PAGE * PAGE
  }

  predicate InBlock(blocks: map<nat, Block>, b: nat, a: int) {
    b in blocks && b - blocks[b].lead <= a < b + blocks[b].size
  }

  /** `GetBlockBegin`: the start of the block an address lies in. */
  ghost function GetBlockBegin(blocks: map<nat, Block>, a: int): (r: Option<nat>)
    ensures r.Some? ==> InBlock(blocks, r.value, a)
    ensures r.None? ==> forall b: nat :: !InBlock(blocks, b, a)
  {
    if exists b: nat :: InBlock(blocks, b, a) then
      var b: nat :| InBlock(blocks, b, a);
      Some(b)
    else None
  }

  ghost predicate Apart(blocks: map<nat, Block>, lo: int, hi: int) {
    forall b :: b in blocks ==> b + blocks[b].size <= lo || hi <= b - blocks[b].lead
  }

  /** No granule of [lo, hi) is mapped memory that waits to be carved into blocks. */
  ghost predicate NoSpare(spare: map<nat, bool>, lo: int, hi: int) {
    forall g :: g in spare ==> !(lo <= 8 * g < hi)
  }

  predicate StartsIn(g: nat, lo: nat, hi: nat) {
    lo <= 8 * g < hi
  }

  /** The granules of [lo, hi), mapped in the given mode. */
  function NewSpare(lo: nat, hi: nat, mode: bool): map<nat, bool> {
    map g: nat | g < hi && StartsIn(g, lo, hi) :: mode
  }

  /** The granules of [lo, hi) wait to be carved, and were all mapped in the given mode. */
  ghost predicate SpareIn(spare: map<nat, bool>, lo: nat, hi: nat, mode: bool) {
    forall g: nat :: lo <= 8 * g < hi ==> g in spare && spare[g] == mode
  }

  ghost function GetAsanChunkByAddr(s: State, a: int): Option<nat> {
    match GetBlockBegin(s.blocks, a)
    case None => None
    case Some(b) => if b + LARGE_HEADER <= |s.mem| then GetAsanChunk(s.mem, b, s.blocks[b].primary) else None
  }

  // ------------------------------------------------------------------- shadow

  /** `OnMapSecondary`: poison what `Allocate` will not see. */
  function OnMapSecondary(sh: Shadow, on: bool, p: nat, size: nat, userBegin: nat, userSize: nat): (r: Shadow)
    requires p + size <= 8 * |sh| && userBegin <= 8 * |sh|
    ensures |r| == |sh|
  {
    var userEnd := (userBegin + userSize) / 8 * 8;
    PoisonShadow(PoisonShadow(sh, on, p, userBegin, HEAP_LEFT_REDZONE), on, userEnd, p + size, HEAP_LEFT_REDZONE)
  }

  /** The shadow write of `Allocate` at each program point, for user memory [u, u+n) in the block at b. */
  function AllocShadowStep(sh: Shadow, on: bool, pc: nat, b: nat, size: nat, u: nat, n: nat, wide: bool, part: bool): (r: Shadow)
    requires b < u && u + n <= b + size <= 8 * |sh| && (part ==> n % 8 != 0)
    ensures |r| == |sh|
  {
    if pc == PUT_LEFT && wide then PoisonShadow(sh, on, b, u, HEAP_LEFT_REDZONE)
    else if pc == PUT_RIGHT && wide then PoisonShadow(sh, on, u + RoundUp8(n), b + size, HEAP_LEFT_REDZONE)
    else if pc == CLEAR_USER then PoisonShadow(sh, on, u, u + n / 8 * 8, 0)
    else if pc == PUT_PARTIAL && part then sh[(u + n / 8 * 8) / 8 := n % 8]
    else sh
  }

  /** Line 634, read before the write it decides about. */
  predicate WantsPartial(on: bool, n: nat) {
    n % 8 != 0 && on
  }

  /** The remaining shadow writes of `Allocate` when nothing comes between them. */
  function AllocShadowFrom(sh: Shadow, on: bool, pc: nat, b: nat, size: nat, u: nat, n: nat, wide: bool, part: bool): (r: Shadow)
    requires b < u && u + n <= b + size <= 8 * |sh| && (part ==> n % 8 != 0)
    ensures |r| == |sh|
  {
    var sh1 := if pc <= PUT_LEFT then AllocShadowStep(sh, on, PUT_LEFT, b, size, u, n, wide, part) else sh;
    var sh2 := if pc <= PUT_RIGHT then AllocShadowStep(sh1, on, PUT_RIGHT, b, size, u, n, wide, part) else sh1;
    var sh3 := if pc <= CLEAR_USER then AllocShadowStep(sh2, on, CLEAR_USER, b, size, u, n, wide, part) else sh2;
    var part' := if pc <= TEST_MODE then WantsPartial(on, n) else part;
    if pc <= PUT_PARTIAL then AllocShadowStep(sh3, on, PUT_PARTIAL, b, size, u, n, wide, part') else sh3
  }

  /** Line 617: whether the redzones have to be poisoned. */
  predicate WantsRedzones(sh: Shadow, b: nat, guess: bool)
    requires b < 8 * |sh|
  {
    !guess || sh[b / 8] == 0
  }

  /** All of them (lines 617-638). */
  function AllocShadow(sh: Shadow, on: bool, b: nat, size: nat, u: nat, n: nat, guess: bool): (r: Shadow)
    requires b < u && u + n <= b + size <= 8 * |sh|
    ensures |r| == |sh|
  {
    AllocShadowFrom(sh, on, PUT_LEFT, b, size, u, n, WantsRedzones(sh, b, guess), false)
  }

  /** `FastPoisonShadowPartialRightRedzone`: granule g of a range that starts at `a`. */
  function PartialByte(g: int, a: int, size: int, value: Byte): Byte
    requires a <= 8 * g
  {
    var i := 8 * g - a;
    if i + 8 <= size then 0 else if i >= size then value else size - i
  }

  /** `FastPoisonShadowPartialRightRedzone`, granule by granule. */
  function PartialShadow(sh: Shadow, a: nat, size: int, end: int, value: Byte): (r: Shadow)
    ensures |r| == |sh|
  {
    seq(|sh|, g requires 0 <= g < |sh| => if a <= 8 * g < end then PartialByte(g, a, size, value) else sh[g])
  }

  /** Redzones and tail of a chunk in use: user memory [u, u+n) of a block that ends at `end`. */
  function LiveRePoisoned(sh: Shadow, b: nat, end: nat, u: nat, n: nat): (r: Shadow)
    requires u <= 8 * |sh|
    ensures |r| == |sh|
  {
    var down := (u + n) / 8 * 8;
    PartialShadow(SetShadow(sh, b, u, HEAP_LEFT_REDZONE), down, u + n - down, end, HEAP_LEFT_REDZONE)
  }

  /** Looks like a valid chunk in use, inside its block. */
  predicate LooksInUse(m: Mem, c: nat, b: nat, end: nat) {
    c + HEADER <= |m| && m[c] == CHUNK_ALLOCATED && b < c + HEADER < c + HEADER + UsedSize(m, c) <= end
  }

  /** The chunk in use that re-poisoning sees in the block at b. */
  function ChunkInUse(m: Mem, b: nat, bk: Block): (r: Option<nat>)
    requires b + LARGE_HEADER <= |m|
    ensures r.Some? ==> r.value + HEADER <= |m| && r.value + HEADER + UsedSize(m, r.value) <= b + bk.size
  {
    var ac := GetAsanChunk(m, b, bk.primary);
    if ac.Some? && LooksInUse(m, ac.value, b, b + bk.size) then ac else None
  }

  /** `RePoisonChunk` on the block at b: redzones of a chunk in use, everything otherwise. */
  function RePoisonChunk(m: Mem, sh: Shadow, b: nat, bk: Block): (r: Shadow)
    requires b + LARGE_HEADER <= b + bk.size <= |m| == 8 * |sh|
    ensures |r| == |sh|
  {
    match ChunkInUse(m, b, bk)
    case Some(c) => LiveRePoisoned(sh, b, b + bk.size, c + HEADER, UsedSize(m, c))
    case None => SetShadow(sh, b, b + bk.size, HEAP_LEFT_REDZONE)
  }

  ghost predicate BlocksInMemory(s: State) {
    && |s.mem| == 8 * |s.shadow|
    && forall b :: b in s.blocks ==> LARGE_HEADER <= s.blocks[b].size && b + s.blocks[b].size <= |s.mem|
  }

  // -------------------------------------------------------------- memory writes

  const INVALID_TID: nat := 0xFFFF_FFFF

  /** The write `Allocate` makes at each program point. */
  function AllocMem(mem: Mem, pc: nat, b: nat, ch: Chunk, fill: nat, flags: Flags): (r: Mem)
    requires b + LARGE_HEADER <= |mem| && 0 <= Hdr(ch) && ch.user + ch.size <= |mem|
    requires ch.kind < 4 && ch.alignLog < 8 && flags.tag < 4
    ensures |r| == |mem|
  {
    var c := Hdr(ch);
    if pc == PUT_KIND then mem[c + 1 := PutKind(mem[c + 1], ch.kind)]
    else if pc == PUT_SIZE_LO then PutSizeLo(mem, c, ch.size)
    else if pc == PUT_SIZE_HI then PutSizeHi(mem, c, ch.size)
    else if pc == PUT_ALIGN then mem[c + 1 := PutAlign(mem[c + 1], ch.alignLog)]
    else if pc == PUT_CONTEXT then Store(mem, c + 8, 8, Pack(ch.tid, ch.stack))
    else if pc == FILL_USER then Fill(mem, ch.user, Min(ch.size, fill), flags.mallocByte)
    else if pc == PUT_TAG then mem[c + 1 := PutTag(mem[c + 1], flags.tag)]
    else if pc == PUT_STATE then mem[c := CHUNK_ALLOCATED]
    else if pc == PUT_BACK_LINK then Store(mem, b + 8, 8, c)
    else if pc == PUT_MAGIC then Store(mem, b, 8, MAGIC)
    else mem
  }

  /** Scribble over freed memory of the given size, sparing the free context. */
  function Scribble(mem: Mem, m: nat, size: nat, flags: Flags): (r: Mem)
    requires m + HEADER + size <= |mem|
    ensures |r| == |mem|
  {
    if flags.freeFill > 0 && size >= HEADER2 then
      Fill(mem, m + HEADER + HEADER2, Min(size - HEADER2, flags.freeFill), flags.freeByte)
    else mem
  }

  /** `FillChunk`. */
  function FillChunk(mem: Mem, m: nat, flags: Flags): (r: Mem)
    requires m + HEADER <= |mem| && m + HEADER + UsedSize(mem, m) <= |mem|
    ensures |r| == |mem|
  {
    Scribble(mem, m, UsedSize(mem, m), flags)
  }

  /** The write `Deallocate` makes at each program point. */
  function FreeMem(mem: Mem, pc: nat, m: nat, t: nat, stack: nat, fills: bool, flags: Flags): (r: Mem)
    requires m + HEADER + HEADER2 <= |mem| && m + HEADER + UsedSize(mem, m) <= |mem|
    ensures |r| == |mem|
  {
    if pc == CLEAR_CONTEXT then Store(mem, m + HEADER, 8, Pack(INVALID_TID, 0))
    else if pc == PUT_FREE_CONTEXT then Store(mem, m + HEADER, 8, Pack(t, stack))
    else if pc == QUARANTINE_OR_PASS && fills then FillChunk(mem, m, flags)
    else mem
  }

  /** The write `Recycle` makes at each program point; a secondary block is about to be unmapped. */
  function RecycleMem(mem: Mem, pc: nat, m: nat, b: nat, primary: bool): (r: Mem)
    requires m < |mem| && b + LARGE_HEADER <= |mem|
    ensures |r| == |mem|
  {
    if pc == CLEAR_MAGIC && primary && b != m then Store(mem, b, 8, 0)
    else if pc == CLEAR_STATE && primary then mem[m := CHUNK_INVALID]
    else mem
  }

  // ------------------------------------------------------------------ enabling

  /** A pointer handed to `free` whose header byte says ALLOCATED is the start of a live chunk. */
  ghost predicate NotForged(s: State, p: nat)
    requires HEADER <= p < |s.mem| + HEADER
  {
    s.mem[p - HEADER] == CHUNK_ALLOCATED ==> exists b :: b in s.abs && s.abs[b].ALive? && s.abs[b].ch.user == p
  }

  ghost predicate IsLiveByte(s: State, a: nat) {
    exists b :: b in s.abs && s.abs[b].ALive? && s.abs[b].ch.user <= a < s.abs[b].ch.user + s.abs[b].ch.size
  }

  /** `CombinedAllocator::Allocate(needed, 8)`: a large enough free block, or a fresh mapping. */
  ghost predicate SourceOk(s: State, source: Source, needed: u64) {
    match source
    case Primary(b) =>
      CanAllocate(needed, 8) && b in s.free && b in s.blocks && s.blocks[b].primary && needed <= s.blocks[b].size
    case Secondary(mapBeg) =>
      var end := mapBeg + PAGE + RoundUpPage(needed);
      !CanAllocate(needed, 8) && mapBeg % PAGE == 0 && end <= |s.mem| && Apart(s.blocks, mapBeg, end) && NoSpare(s.spare, mapBeg, end)
  }

  /**
   The underlying allocator carves a block in the call that maps the block's last bytes. So what
   lies beyond the part left over from one earlier mapping was mapped in the present mode.
   */
  ghost predicate CarveEnabled(s: State, b: nat, size: nat, leftover: nat) {
    && b > 0 && b % 16 == 0 && size % 16 == 0 && size > 0 && leftover <= size && leftover % 8 == 0
    && b + size <= |s.mem| && Apart(s.blocks, b, b + size)
    && (SpareIn(s.spare, b, b + leftover, true) || SpareIn(s.spare, b, b + leftover, false))
    && SpareIn(s.spare, b + leftover, b + size, s.on)
  }

  /** The underlying allocator maps memory nobody uses. */
  ghost predicate MapEnabled(s: State, p: nat, size: nat) {
    && p > 0 && p % 8 == 0 && size % 8 == 0 && p + size <= |s.mem|
    && Apart(s.blocks, p, p + size) && NoSpare(s.spare, p, p + size)
  }

  /** A request with an alignment callers may ask for. */
  ghost predicate Requests(s: State, step: Step) {
    step.Malloc? && CheckRedzones(s.rz) && (step.alignment0 < GRANULE || IsPowerOfTwo(step.alignment0))
  }

  ghost function PlanOf(s: State, step: Step): Plan
    requires Requests(s, step)
  {
    PlanRequest(step.size0, step.alignment0, s.rz, s.maxUser)
  }

  /** When a step may be taken: its guard, what callers owe, what the underlying allocator promises. */
  ghost predicate Enabled(s: State, step: Step) {
    var may :=
      match step
      case Map(p, size) => MapEnabled(s, p, size)
      case Carve(b, size, leftover) => CarveEnabled(s, b, size, leftover)
      case Malloc(t, size0, alignment0, kind, stack, fill, source) =>
        && t !in s.threads && t < U32 && kind < 4 && stack < U32 && alignment0 != TOP_ALIGNMENT
        && Requests(s, step) && PlanOf(s, step).Accept? && SourceOk(s, source, PlanOf(s, step).needed)
      case Free(t, p, stack) =>
        t !in s.threads && t < U32 && stack < U32 && HEADER <= p < |s.mem| + HEADER && NotForged(s, p)
      case Recycle(t, m) => t !in s.threads && m in s.quarantine
      case Run(t, keep) => t in s.threads
      case UserWrite(a, v) => a < |s.mem| && IsLiveByte(s, a)
      case ReInit(on, rz) => CheckRedzones(rz)
      case RePoison(b) => s.on && b in s.blocks;
    may
  }

  /** Granularity alignment, the CHECKs inside `PoisonShadow`. */
  predicate Granular(lo: nat, hi: nat) {
    Multiple(lo, 8) && Multiple(hi, 8)
  }

  /** A chunk whose addresses lie inside its block, and the block inside memory. */
  ghost predicate Ready(s: State, b: nat, ch: Chunk) {
    && b in s.blocks && 0 <= Hdr(ch) && b < ch.user && LARGE_HEADER <= s.blocks[b].size
    && ch.user + ch.size <= b + s.blocks[b].size <= |s.mem| == 8 * |s.shadow|
    && ch.kind < 4 && ch.alignLog < 8 && s.flags.tag < 4
  }

  /** What thread t touches next in `Allocate` is inside memory. */
  ghost predicate AllocBounds(s: State, t: nat) {
    && t in s.threads && s.threads[t].AllocTask? && s.threads[t].pc <= PUT_MAGIC
    && Ready(s, s.threads[t].b, s.threads[t].ch) && (s.threads[t].part ==> s.threads[t].ch.size % 8 != 0)
  }

  predicate UsedSizeIs(m: Mem, c: nat, size: nat) {
    c + HEADER <= |m| && UsedSize(m, c) == size
  }

  /** The same in `Deallocate`, where the size comes from the header. */
  ghost predicate FreeBounds(s: State, t: nat) {
    && t in s.threads && s.threads[t].FreeTask? && s.threads[t].pc <= ENQUEUE
    && var task := s.threads[t];
    && task.b in s.blocks && task.b in s.abs && s.abs[task.b].ABusy?
    && var ch := s.abs[task.b].ch;
    && task.m == Hdr(ch) && task.b <= task.m && UsedSizeIs(s.mem, task.m, ch.size)
    && ch.user + Max(HEADER2, RoundUp8(ch.size)) <= task.b + s.blocks[task.b].size <= |s.mem| == 8 * |s.shadow|
  }

  /** ... and in `Recycle`. */
  ghost predicate RecycleBounds(s: State, t: nat) {
    && t in s.threads && s.threads[t].RecycleTask? && s.threads[t].pc <= RETURN_BLOCK
    && var task := s.threads[t];
    && task.b in s.blocks && task.b in s.abs && s.abs[task.b].ABusy?
    && var ch, bk := s.abs[task.b].ch, s.blocks[task.b];
    && task.m == Hdr(ch) && task.b <= task.m && UsedSizeIs(s.mem, task.m, ch.size) && bk.lead <= task.b
    && LARGE_HEADER <= bk.size && ch.user + RoundUp8(ch.size) <= task.b + bk.size <= |s.mem| == 8 * |s.shadow|
  }

  /** The CHECKs of `Allocate` at each program point. */
  ghost predicate AllocTaskSafe(mem: Mem, b: nat, bk: Block, ch: Chunk, pc: nat, fill: nat, flags: Flags)
    requires LARGE_HEADER <= bk.size && b + bk.size <= |mem| && flags.tag < 4
    requires 0 <= Hdr(ch) && ch.user + ch.size <= |mem| && ch.kind < 4 && ch.alignLog < 8
  {
    && (pc == PUT_LEFT ==> Granular(b, ch.user))
    && (pc == PUT_RIGHT ==> Granular(ch.user + RoundUp8(ch.size), b + bk.size))
    && (pc == CLEAR_USER ==> Granular(ch.user, ch.user + ch.size / 8 * 8))
    && (pc == PUT_SIZE_HI ==> UsedSize(AllocMem(mem, pc, b, ch, fill, flags), Hdr(ch)) == ch.size)  // line 119
    && (pc == PUT_BACK_LINK ==> b + LARGE_HEADER <= Hdr(ch))                                         // line 661
  }

  ghost predicate FreeTaskSafe(mem: Mem, m: nat, size: nat, pc: nat)
    requires m < |mem|
  {
    && (pc == PUT_FREE_CONTEXT ==> mem[m] == CHUNK_QUARANTINE)                                     // line 690
    && (pc == POISON_FREED ==> Granular(m + HEADER, m + HEADER + RoundUp8(size)))
  }

  ghost predicate RecycleTaskSafe(mem: Mem, b: nat, bk: Block, m: nat, size: nat, pc: nat)
    requires b + LARGE_HEADER <= |mem| && m < |mem|
  {
    && (pc == CLEAR_MAGIC && bk.primary && b != m ==> Load(mem, b, 8) == MAGIC)                     // line 191
    && (pc == CLEAR_STATE && bk.primary ==> mem[m] == CHUNK_QUARANTINE)                            // line 240
    && (pc == POISON_RECYCLED ==> Granular(m + HEADER, m + HEADER + RoundUp8(size)))
    && (pc == RETURN_BLOCK && !bk.primary ==> bk.lead <= b && Granular(b - bk.lead, b + bk.size))
  }

  /** The ranges `OnMapSecondary` poisons. */
  predicate SecondarySafe(mapBeg: nat, needed: nat) {
    && Granular(mapBeg, mapBeg + PAGE)
    && Granular((mapBeg + PAGE + needed) / 8 * 8, mapBeg + PAGE + RoundUpPage(needed))
  }

  /** The ranges `RePoisonChunk` poisons. */
  predicate RePoisonSafe(m: Mem, b: nat, bk: Block)
    requires b + LARGE_HEADER <= |m|
  {
    Granular(b, b + bk.size) && (ChunkInUse(m, b, bk).Some? ==> Granular(b, ChunkInUse(m, b, bk).value + HEADER))
  }

  /** A thread's next step in its operation: inside memory, and its CHECKs hold. */
  ghost predicate RunSafe(s: State, t: nat)
    requires t in s.threads
  {
    match s.threads[t]
    case AllocTask(pc, b, ch, _, fill, _, _) => AllocBounds(s, t) && AllocTaskSafe(s.mem, b, s.blocks[b], ch, pc, fill, s.flags)
    case FreeTask(pc, m, b, _) => FreeBounds(s, t) && FreeTaskSafe(s.mem, m, UsedSize(s.mem, m), pc)
    case RecycleTask(pc, m, b) => RecycleBounds(s, t) && RecycleTaskSafe(s.mem, b, s.blocks[b], m, UsedSize(s.mem, m), pc)
  }

  /** A request for which the underlying allocator has found a block, with room in it for the chunk. */
  ghost predicate MallocBounds(s: State, step: Step) {
    && Requests(s, step) && |s.mem| == 8 * |s.shadow|
    && var plan, b := PlanOf(s, step), SourceBeg(step.source);
    && plan.Accept? && SourceOk(s, step.source, plan.needed) && b + plan.rz < WORD
    && UserBeg(b, plan) >= HEADER && UserBeg(b, plan) + plan.size <= b + plan.needed              // line 607
  }

  /** Its CHECKs on granularity. */
  ghost predicate MallocSafe(s: State, step: Step)
    requires MallocBounds(s, step)
  {
    && PlanOf(s, step).needed % GRANULE == 0                                                    // line 571
    && (step.source.Secondary? ==> SecondarySafe(step.source.mapBeg, PlanOf(s, step).needed))
  }

  /** The block an address lies in holds a chunk. */
  ghost predicate HitsChunk(s: State, a: int) {
    GetBlockBegin(s.blocks, a).Some? && HasChunk(s, GetBlockBegin(s.blocks, a).value)
  }

  /** The state byte before a freed pointer can be read, and where it says ALLOCATED there is a chunk. */
  ghost predicate RaceBounds(s: State, p: nat) {
    HEADER <= p < |s.mem| + HEADER && (s.mem[p - HEADER] == CHUNK_ALLOCATED ==> HitsChunk(s, p - HEADER))
  }

  /**
   No CHECK fires and every access stays inside memory: `Apply` makes the step. That this holds in
   every reachable state is a theorem. (The result has a name so that users of the predicate see one
   condition, not all of its parts.)
   */
  ghost predicate Safe(s: State, step: Step) {
    var passes :=
      match step
      case Map(p, size) => MapEnabled(s, p, size) && |s.mem| == 8 * |s.shadow| && Granular(p, p + size)
      case Carve(b, size, leftover) => CarveEnabled(s, b, size, leftover)
      case Malloc(t, size0, alignment0, kind, stack, fill, source) =>
        Enabled(s, step) && MallocBounds(s, step) && MallocSafe(s, step)
      case Free(t, p, stack) => RaceBounds(s, p)
      case Recycle(t, m) => HitsChunk(s, m)
      case Run(t, keep) => t in s.threads && RunSafe(s, t)
      case UserWrite(a, v) => a < |s.mem|
      case ReInit(on, rz) => true
      case RePoison(b) => BlocksInMemory(s) && b in s.blocks && RePoisonSafe(s.mem, b, s.blocks[b]);
    passes
  }

  predicate HasChunk(s: State, b: nat) {
    b in s.abs && !s.abs[b].AFree?
  }

  function SourceBeg(source: Source): nat {
    match source
    case Primary(b) => b
    case Secondary(mapBeg) => mapBeg + PAGE
  }

  // --------------------------------------------------------------------- steps

  function StatsIn(stats: map<nat, Stats>, t: nat): Stats {
    if t in stats then stats[t] else Stats(0, 0, 0, 0, 0, 0)
  }

  function StatsOf(s: State, t: nat): Stats {
    StatsIn(s.stats, t)
  }

  function CountedMalloc(stats: map<nat, Stats>, t: nat, size: nat): map<nat, Stats> {
    var st := StatsIn(stats, t);
    stats[t := st.(mallocs := st.mallocs + 1, malloced := st.malloced + size)]
  }

  function CountedFree(stats: map<nat, Stats>, t: nat, size: nat): map<nat, Stats> {
    var st := StatsIn(stats, t);
    stats[t := st.(frees := st.frees + 1, freed := st.freed + size)]
  }

  function CountedRecycle(stats: map<nat, Stats>, t: nat, size: nat): map<nat, Stats> {
    var st := StatsIn(stats, t);
    stats[t := st.(realFrees := st.realFrees + 1, reallyFreed := st.reallyFreed + size)]
  }

  ghost function NewChunk(s: State, step: Step): Chunk
    requires MallocBounds(s, step)
  {
    var plan := PlanOf(s, step);
    Chunk(UserBeg(SourceBeg(step.source), plan), plan.size, plan.rz, AlignmentLog(step.alignment0),
          step.kind, step.t, step.stack, s.nextId)
  }

  /** Memory, shadow, block table and free list once the underlying allocator has answered. */
  function SourceMem(mem: Mem, source: Source, needed: u64): (r: Mem)
    requires source.Secondary? ==> source.mapBeg + PAGE + RoundUpPage(needed) <= |mem|
    ensures |r| == |mem|
  {
    if source.Primary? then mem else Fill(mem, source.mapBeg, PAGE + RoundUpPage(needed), 0)
  }

  function SourceShadow(sh: Shadow, on: bool, source: Source, needed: u64): (r: Shadow)
    requires source.Secondary? ==> source.mapBeg + PAGE + RoundUpPage(needed) <= 8 * |sh|
    ensures |r| == |sh|
  {
    if source.Primary? then sh
    else OnMapSecondary(sh, on, source.mapBeg, PAGE + RoundUpPage(needed), source.mapBeg + PAGE, needed)
  }

  function SourceBlocks(blocks: map<nat, Block>, source: Source, needed: u64): map<nat, Block> {
    if source.Primary? then blocks else blocks[source.mapBeg + PAGE := Block(RoundUpPage(needed), PAGE, false)]
  }

  function SourceFree(free: set<nat>, source: Source): set<nat> {
    if source.Primary? then free - {source.b} else free
  }

  ghost function ApplyMalloc(s: State, step: Step): State
    requires MallocBounds(s, step)
  {
    var plan := PlanOf(s, step);
    var b := SourceBeg(step.source);
    var ch := NewChunk(s, step);
    s.(mem := SourceMem(s.mem, step.source, plan.needed), shadow := SourceShadow(s.shadow, s.on, step.source, plan.needed),
       blocks := SourceBlocks(s.blocks, step.source, plan.needed), free := SourceFree(s.free, step.source),
       threads := s.threads[step.t := AllocTask(PUT_KIND, b, ch, plan.fromPrimary, step.fill, false, false)],
       abs := s.abs[b := ABusy(step.t, ch)], nextId := s.nextId + 1)
  }

  /** `AtomicallySetQuarantineFlagIfAllocated`: one compare-and-swap decides who frees the chunk. */
  ghost function ApplyFree(s: State, t: nat, p: nat, stack: nat): State
    requires RaceBounds(s, p)
  {
    var m := p - HEADER;
    if s.mem[m] == CHUNK_ALLOCATED then
      var b := GetBlockBegin(s.blocks, m).value;
      var ch := s.abs[b].ch;
      s.(mem := s.mem[m := CHUNK_QUARANTINE], threads := s.threads[t := FreeTask(CLEAR_CONTEXT, m, b, stack)],
         abs := s.abs[b := ABusy(t, ch)], won := s.won + multiset{ch.id})
    else s
  }

  /** The thread's next program point, with what a test has found out. */
  function NextAlloc(s: State, task: Task): Task
    requires task.AllocTask? && task.b < 8 * |s.shadow|
  {
    AllocTask(task.pc + 1, task.b, task.ch, task.guess, task.fill,
              if task.pc == TEST_FIRST then WantsRedzones(s.shadow, task.b, task.guess) else task.wide,
              if task.pc == TEST_MODE then WantsPartial(s.on, task.ch.size) else task.part)
  }

  /** The step after which the chunk is published. */
  predicate PublishesNow(pc: nat, b: nat, ch: Chunk) {
    pc == PUT_MAGIC || (pc == PUT_STATE && Hdr(ch) == b)
  }

  ghost function ApplyAlloc(s: State, t: nat): State
    requires AllocBounds(s, t)
  {
    var task := s.threads[t];
    var b, ch, done := task.b, task.ch, PublishesNow(task.pc, task.b, task.ch);
    s.(mem := AllocMem(s.mem, task.pc, b, ch, task.fill, s.flags),
       shadow := AllocShadowStep(s.shadow, s.on, task.pc, b, s.blocks[b].size, ch.user, ch.size, task.wide, task.part),
       stats := if task.pc == COUNT_MALLOC then CountedMalloc(s.stats, t, ch.size) else s.stats,
       threads := if done then s.threads - {t} else s.threads[t := NextAlloc(s, task)],
       abs := if done then s.abs[b := ALive(ch)] else s.abs)
  }

  /** The thread's next program point, or the call of `Recycle` for a chunk that is not kept. */
  function NextDealloc(task: Task, keep: bool): Task
    requires task.FreeTask?
  {
    if task.pc == QUARANTINE_OR_PASS && !keep then RecycleTask(CLEAR_MAGIC, task.m, task.b)
    else FreeTask(task.pc + 1, task.m, task.b, task.stack)
  }

  ghost function ApplyDealloc(s: State, t: nat, keep: bool): State
    requires FreeBounds(s, t)
  {
    var task := s.threads[t];
    var m, b, size, done := task.m, task.b, UsedSize(s.mem, task.m), task.pc >= ENQUEUE;
    s.(mem := FreeMem(s.mem, task.pc, m, t, task.stack, keep || s.blocks[b].primary, s.flags),
       shadow := if task.pc == POISON_FREED
                 then PoisonShadow(s.shadow, s.on, m + HEADER, m + HEADER + RoundUp8(size), HEAP_FREE) else s.shadow,
       stats := if task.pc == COUNT_FREE then CountedFree(s.stats, t, size) else s.stats,
       quarantine := if done then s.quarantine + multiset{m} else s.quarantine,
       threads := if done then s.threads - {t} else s.threads[t := NextDealloc(task, keep)],
       abs := if done then s.abs[b := AQuar(s.abs[b].ch, Pack(t, task.stack))] else s.abs)
  }

  /** The last step of `Recycle`: a primary block is free again, a secondary one is unmapped. */
  ghost function Returned(s: State, t: nat, b: nat): State
    requires b in s.blocks && s.blocks[b].lead <= b && b + s.blocks[b].size <= 8 * |s.shadow|
  {
    if s.blocks[b].primary then
      s.(threads := s.threads - {t}, free := s.free + {b}, abs := s.abs[b := AFree])
    else
      s.(threads := s.threads - {t}, shadow := PoisonShadow(s.shadow, s.on, b - s.blocks[b].lead, b + s.blocks[b].size, 0),
         blocks := s.blocks - {b}, abs := s.abs - {b}, stale := s.stale - {b})
  }

  ghost function ApplyRecycle(s: State, t: nat): State
    requires RecycleBounds(s, t)
  {
    var task := s.threads[t];
    var m, b, size, primary := task.m, task.b, UsedSize(s.mem, task.m), s.blocks[task.b].primary;
    if task.pc >= RETURN_BLOCK then Returned(s, t, b)
    else
      s.(mem := RecycleMem(s.mem, task.pc, m, b, primary),
         shadow := if task.pc == POISON_RECYCLED && primary
                   then PoisonShadow(s.shadow, s.on, m + HEADER, m + HEADER + RoundUp8(size), HEAP_LEFT_REDZONE) else s.shadow,
         stats := if task.pc == COUNT_RECYCLE then CountedRecycle(s.stats, t, size) else s.stats,
         threads := s.threads[t := RecycleTask(task.pc + 1, m, b)])
  }

  /**
   Re-poisoning now poisons the block of an allocation of n bytes whole, and what is left of `Allocate`
   will not repair it: user granules were cleared before, or the partial byte has been written or
   will not be.
   */
  predicate Spoilable(pc: nat, n: nat, part: bool) {
    pc > CLEAR_USER && (n >= 8 || pc > PUT_PARTIAL || (pc == PUT_PARTIAL && !part))
  }

  /**
   Re-poisoning spoils the shadow of the chunk in the block at b: the chunk is live but cannot be
   found, or `Allocate` has come too far with its shadow and not published it yet.
   */
  ghost predicate Loses(s: State, b: nat) {
    && b in s.blocks && b in s.abs
    && match s.abs[b]
       case ALive(ch) => !Findable(b, s.blocks[b], ch)
       case ABusy(t, ch) =>
         t in s.threads && s.threads[t].AllocTask? && Spoilable(s.threads[t].pc, ch.size, s.threads[t].part)
       case AFree => false
       case AQuar(_, _) => false
  }

  /** What re-poisoning the given blocks loses. */
  ghost function LostBy(s: State, bs: set<nat>): set<nat> {
    set b | b in bs && b in s.abs && Loses(s, b) :: s.abs[b].ch.id
  }

  /** Options take effect at once; re-poisoning has then to visit every block there is. */
  ghost function Switched(s: State, on: bool, rz: Redzones): State {
    s.(on := on, rz := rz, stale := if on then s.blocks.Keys else {})
  }

  ghost function RePoisonedAt(s: State, b: nat): State
    requires BlocksInMemory(s) && b in s.blocks
  {
    s.(shadow := RePoisonChunk(s.mem, s.shadow, b, s.blocks[b]), stale := s.stale - {b}, lost := s.lost + LostBy(s, {b}))
  }

  ghost function Mapped(s: State, p: nat, size: nat): State
    requires p + size <= |s.mem| == 8 * |s.shadow|
  {
    s.(mem := Fill(s.mem, p, size, 0), shadow := PoisonShadow(s.shadow, s.on, p, p + size, HEAP_LEFT_REDZONE),
       spare := s.spare + NewSpare(p, p + size, s.on))
  }

  ghost function Carved(s: State, b: nat, size: nat): State {
    s.(blocks := s.blocks[b := Block(size, 0, true)], free := s.free + {b}, abs := s.abs[b := AFree],
       spare := map g | g in s.spare && !(b <= 8 * g < b + size) :: s.spare[g])
  }

  ghost function RunTask(s: State, t: nat, keep: bool): State
    requires t in s.threads
  {
    match s.threads[t]
    case AllocTask(_, _, _, _, _, _, _) => if AllocBounds(s, t) then ApplyAlloc(s, t) else s
    case FreeTask(_, _, _, _) => if FreeBounds(s, t) then ApplyDealloc(s, t, keep) else s
    case RecycleTask(_, _, _) => if RecycleBounds(s, t) then ApplyRecycle(s, t) else s
  }

  /** The quarantine hands over one of its pointers. */
  ghost function ApplyPick(s: State, t: nat, m: nat): State
    requires HitsChunk(s, m)
  {
    var b := GetBlockBegin(s.blocks, m).value;
    s.(quarantine := s.quarantine - multiset{m}, threads := s.threads[t := RecycleTask(CLEAR_MAGIC, m, b)],
       abs := s.abs[b := ABusy(t, s.abs[b].ch)])
  }

  /** A step that would leave memory does nothing; no reachable state allows one. */
  ghost function Apply(s: State, step: Step): State {
    match step
    case Map(p, size) => if p + size <= |s.mem| == 8 * |s.shadow| then Mapped(s, p, size) else s
    case Carve(b, size, leftover) => Carved(s, b, size)
    case Malloc(_, _, _, _, _, _, _) => if MallocBounds(s, step) then ApplyMalloc(s, step) else s
    case Free(t, p, stack) => if RaceBounds(s, p) then ApplyFree(s, t, p, stack) else s
    case Recycle(t, m) => if HitsChunk(s, m) then ApplyPick(s, t, m) else s
    case Run(t, keep) => if t in s.threads then RunTask(s, t, keep) else s
    case UserWrite(a, v) => if a < |s.mem| then s.(mem := s.mem[a := v]) else s
    case ReInit(on, rz) => Switched(s, on, rz)
    case RePoison(b) => if BlocksInMemory(s) && b in s.blocks then RePoisonedAt(s, b) else s
  }
}
