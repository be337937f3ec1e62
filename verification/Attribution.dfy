/** Which heap chunk a bad address is blamed on, and how the access is described. */
module Attribution {
  import opened Words
  import opened Layout
  import opened Memory
  import opened Chunks
  import opened Machine
  import opened Invariant
  import opened Lookup

  // ----------------------------------------------------------------------- views

  function Beg(c: nat): nat {
    c + HEADER
  }

  function End(m: Mem, c: nat): nat
    requires c + HEADER <= |m|
  {
    Beg(c) + UsedSize(m, c)
  }

  const HALF: nat := 0x8000_0000_0000_0000

  /** The difference of two addresses as a signed 64-bit number. */
  function Signed(d: int): (r: int)
    requires d < WORD && -d < WORD
  {
    var w: int := if d < 0 then d + WORD else d;
    if w < HALF then w else w - WORD
  }

  /** `AsanChunkView::AddrIsInside`; the offset is there when the answer is yes. */
  function AddrIsInside(beg: u64, end: u64, addr: u64, size: u64): Option<int> {
    if addr >= beg && Wrap(addr + size) <= end then Some(Signed(addr - beg)) else None
  }

  function AddrIsAtLeft(beg: u64, addr: u64): Option<int> {
    if addr < beg then Some(Signed(beg - addr)) else None
  }

  function AddrIsAtRight(end: u64, addr: u64, size: u64): Option<int> {
    if Wrap(addr + size) > end then Some(Signed(addr - end)) else None
  }

  // ----------------------------------------------------------------- ChooseChunk

  /** A header that may be read: where lookup results point. */
  predicate Readable(m: Mem, c: nat) {
    c + HEADER <= |m| <= SPACE && End(m, c) <= |m|
  }

  predicate AllReadable(m: Mem, left: Option<nat>, right: Option<nat>) {
    (left.Some? ==> Readable(m, left.value)) && (right.Some? ==> Readable(m, right.value))
  }

  /** The two CHECKs of `ChooseChunk`, reached when the states do not decide. */
  predicate ChooseChecks(m: Mem, addr: u64, left: Option<nat>, right: Option<nat>)
    requires AllReadable(m, left, right)
  {
    left.Some? && right.Some? ==>
      AddrIsAtRight(End(m, left.value), addr, 1).Some? && AddrIsAtLeft(Beg(right.value), addr).Some?
  }

  function ChooseChunk(m: Mem, addr: u64, left: Option<nat>, right: Option<nat>): Option<nat>
    requires AllReadable(m, left, right) && ChooseChecks(m, addr, left, right)
  {
    if left.None? then right
    else if right.None? then left
    else
      var leftState, rightState := m[left.value], m[right.value];
      if leftState != rightState && leftState == CHUNK_ALLOCATED then left
      else if leftState != rightState && rightState == CHUNK_ALLOCATED then right
      else if leftState != rightState && leftState == CHUNK_QUARANTINE then left
      else if leftState != rightState && rightState == CHUNK_QUARANTINE then right
      else if AddrIsAtRight(End(m, left.value), addr, 1).value < AddrIsAtLeft(Beg(right.value), addr).value then left
      else right
  }

  /** Allocated before quarantined before anything else. */
  function Rank(state: Byte): nat {
    if state == CHUNK_ALLOCATED then 2 else if state == CHUNK_QUARANTINE then 1 else 0
  }

  /** Better rank wins, then the smaller distance; a tie goes to the right. */
  predicate LeftWins(m: Mem, addr: u64, left: nat, right: nat)
    requires Readable(m, left) && Readable(m, right)
  {
    || Rank(m[left]) > Rank(m[right])
    || (Rank(m[left]) == Rank(m[right]) && addr - End(m, left) < Beg(right) - addr)
  }

  /** `ChooseChunk` decides by rank, then distance, for states that lookup can return. */
  lemma ChooseChunkByRank(m: Mem, addr: u64, left: nat, right: nat)
    requires AllReadable(m, Some(left), Some(right)) && ChooseChecks(m, addr, Some(left), Some(right))
    requires m[left] in {CHUNK_ALLOCATED, CHUNK_QUARANTINE} && m[right] in {CHUNK_ALLOCATED, CHUNK_QUARANTINE}
    ensures ChooseChunk(m, addr, Some(left), Some(right)) == if LeftWins(m, addr, left, right) then Some(left) else Some(right)
  {
  }

  // ------------------------------------------------------ FindHeapChunkByAddress

  /** What the backward search from `a` ends with: the first different lookup result, or the last one. */
  ghost function Search(s: State, addr: u64, m1: Option<nat>, a: int): Option<nat>
    requires addr - PAGE <= a
    decreases a - (addr - PAGE)
  {
    if a == addr - PAGE then m1
    else
      var m2 := GetAsanChunkByAddr(s, a);
      if m2 == m1 then Search(s, addr, m1, a - 1) else m2
  }

  lemma SearchStep(s: State, addr: u64, m1: Option<nat>, m2: Option<nat>, a: int, next: int, goal: Option<nat>)
    requires addr - PAGE < a && next == a - 1 && m2 == GetAsanChunkByAddr(s, a) && goal == Search(s, addr, m1, a)
    ensures if m2 == m1 then goal == Search(s, addr, m1, next) else goal == m2
  {
  }

  lemma SearchEnd(s: State, addr: u64, m1: Option<nat>, a: int)
    requires a == addr - PAGE
    ensures Search(s, addr, m1, a) == m1
  {
  }

  ghost predicate LookupsReadable(s: State) {
    |s.mem| <= SPACE && forall a: int :: ReadableAt(s, a)
  }

  ghost predicate ReadableAt(s: State, a: int) {
    var c := GetAsanChunkByAddr(s, a);
    c.Some? ==> Readable(s.mem, c.value) && s.mem[c.value] in {CHUNK_ALLOCATED, CHUNK_QUARANTINE}
  }

  lemma InvReadable(s: State)
    requires Inv(s)
    ensures LookupsReadable(s)
  {
    forall a: int
      ensures ReadableAt(s, a)
    {
      if GetAsanChunkByAddr(s, a).Some? {
        LookupIsComplete(s, a);
      }
    }
  }

  lemma {:induction false} SearchReadable(s: State, addr: u64, m1: Option<nat>, a: int)
    requires LookupsReadable(s) && addr - PAGE <= a
    requires m1.Some? ==> Readable(s.mem, m1.value)
    ensures var m2 := Search(s, addr, m1, a); m2.Some? ==> Readable(s.mem, m2.value)
    decreases a - (addr - PAGE)
  {
    if a > addr - PAGE {
      assert ReadableAt(s, a);
      if GetAsanChunkByAddr(s, a) == m1 {
        SearchReadable(s, addr, m1, a - 1);
      }
    }
  }

  /** Whether `FindHeapChunkByAddress` searches to the left of the address at all. */
  ghost predicate Searches(s: State, addr: u64)
    requires LookupsReadable(s)
  {
    assert ReadableAt(s, addr);
    var m1 := GetAsanChunkByAddr(s, addr);
    m1.None? || AddrIsAtLeft(Beg(m1.value), addr).Some?
  }

  /** The last lines of `FindHeapChunkByAddress`: own result m1, result of the search m2. */
  function Decide(m: Mem, addr: u64, m1: Option<nat>, m2: Option<nat>): Option<nat>
    requires AllReadable(m, m1, m2) && (m1.Some? ==> AddrIsAtLeft(Beg(m1.value), addr).Some?)
  {
    if m2.Some? && AddrIsAtRight(End(m, m2.value), addr, 1).Some? then ChooseChunk(m, addr, m2, m1) else m1
  }

  /** `FindHeapChunkByAddress`. */
  ghost function FindChunk(s: State, addr: u64): Option<nat>
    requires LookupsReadable(s)
  {
    assert ReadableAt(s, addr);
    var m1 := GetAsanChunkByAddr(s, addr);
    if Searches(s, addr) then
      SearchReadable(s, addr, m1, addr - 1);
      Decide(s.mem, addr, m1, Search(s, addr, m1, addr - 1))
    else m1
  }

  /** From `a`, less than a page to the left, comes the first other lookup result. */
  ghost predicate FirstOther(s: State, addr: u64, a: int) {
    && addr - PAGE < a < addr
    && GetAsanChunkByAddr(s, a) != GetAsanChunkByAddr(s, addr)
    && SameLookup(s, addr, a)
  }

  /** Every address after `a` up to `addr` looks up to the same. */
  ghost predicate SameLookup(s: State, addr: u64, a: int) {
    forall x: int :: a < x < addr ==> GetAsanChunkByAddr(s, x) == GetAsanChunkByAddr(s, addr)
  }

  lemma {:induction false} SearchFinds(s: State, addr: u64, x: int, a: int)
    requires addr - PAGE < a <= x < addr && SameLookup(s, addr, a)
    requires GetAsanChunkByAddr(s, a) != GetAsanChunkByAddr(s, addr)
    ensures Search(s, addr, GetAsanChunkByAddr(s, addr), x) == GetAsanChunkByAddr(s, a)
    decreases x - a
  {
    var m1, y := GetAsanChunkByAddr(s, addr), x - 1;
    SearchStep(s, addr, m1, GetAsanChunkByAddr(s, x), x, y, Search(s, addr, m1, x));
    if a < x {
      SearchFinds(s, addr, y, a);
    }
  }

  lemma {:induction false} SearchFindsNothing(s: State, addr: u64, x: int)
    requires addr - PAGE <= x < addr && SameLookup(s, addr, addr - PAGE)
    ensures Search(s, addr, GetAsanChunkByAddr(s, addr), x) == GetAsanChunkByAddr(s, addr)
    decreases x - (addr - PAGE)
  {
    if addr - PAGE < x {
      SearchFindsNothing(s, addr, x - 1);
    }
  }

  /** What a successful lookup from an address in block b points at. */
  ghost predicate PointsInto(s: State, b: nat, c: nat) {
    && b in s.blocks && HasChunk(s, b) && c == Hdr(s.abs[b].ch) && b <= c && c + HEADER <= |s.mem|
    && UsedSize(s.mem, c) == s.abs[b].ch.size && Beg(c) <= End(s.mem, c) <= b + s.blocks[b].size
  }

  lemma LookupPointsInto(s: State, a: int) returns (b: nat)
    requires Inv(s) && GetAsanChunkByAddr(s, a).Some?
    ensures GetBlockBegin(s.blocks, a) == Some(b) && PointsInto(s, b, GetAsanChunkByAddr(s, a).value)
  {
    LookupIsComplete(s, a);
    b :| InBlock(s.blocks, b, a) && Complete(s, b, GetAsanChunkByAddr(s, a).value);
    BlockBeginIs(s, b, a);
    HeaderBlock(s, b);
  }

  /** A chunk found from a block to the left ends at or before the address. */
  lemma LeftChunkEnds(s: State, addr: u64, a: int, b: nat)
    requires Inv(s) && a < addr && GetBlockBegin(s.blocks, a) == Some(b)
    requires GetAsanChunkByAddr(s, a).Some? && GetAsanChunkByAddr(s, a) != GetAsanChunkByAddr(s, addr)
    ensures PointsInto(s, b, GetAsanChunkByAddr(s, a).value) && b + s.blocks[b].size <= addr
  {
    var b1 := LookupPointsInto(s, a);
    if addr < b + s.blocks[b].size {
      BlockBeginIs(s, b, addr);
    }
  }

  /** The outcome the report promises, without the search: own chunk, left neighbour, rank, distance. */
  ghost function Blame(s: State, addr: u64, m1: Option<nat>, m2: Option<nat>): Option<nat>
    requires AllReadable(s.mem, m1, m2)
  {
    if m2.None? then m1
    else if m1.None? || LeftWins(s.mem, addr, m2.value, m1.value) then m2
    else m1
  }

  /** The address belongs to no chunk, or lies in front of the user memory of its own. */
  ghost predicate InFront(s: State, addr: u64) {
    var m1 := GetAsanChunkByAddr(s, addr);
    m1.None? || addr < m1.value + HEADER
  }

  lemma SearchesIff(s: State, addr: u64)
    requires LookupsReadable(s)
    ensures Searches(s, addr) <==> InFront(s, addr)
  {
  }

  /**
   The address belongs to no chunk or lies left of its own chunk's user memory, and another
   lookup result comes first within a page: the CHECKs of `ChooseChunk` hold, and the blame goes
   by state rank, then distance, ties to the right.
   */
  lemma BlameBetween(s: State, addr: u64, a: int)
    requires Inv(s) && FirstOther(s, addr, a) && InFront(s, addr)
    ensures LookupsReadable(s)
    ensures var m1, m2 := GetAsanChunkByAddr(s, addr), GetAsanChunkByAddr(s, a);
            AllReadable(s.mem, m1, m2) && ChooseChecks(s.mem, addr, m2, m1) && FindChunk(s, addr) == Blame(s, addr, m1, m2)
  {
    InvReadable(s);
    SearchesIff(s, addr);
    if GetAsanChunkByAddr(s, a).Some? {
      var b := LookupPointsInto(s, a);
      LeftChunkEnds(s, addr, a, b);
      assert BlockShape(s, b);
      BlameSomeone(s, addr, a, b);
    } else {
      assert ReadableAt(s, addr);
      SearchFinds(s, addr, addr - 1, a);
    }
  }

  lemma BlameSomeone(s: State, addr: u64, a: int, b: nat)
    requires LookupsReadable(s) && FirstOther(s, addr, a) && GetAsanChunkByAddr(s, a).Some? && Searches(s, addr)
    requires PointsInto(s, b, GetAsanChunkByAddr(s, a).value) && b + s.blocks[b].size <= addr && a < SPACE
    ensures var m1, m2 := GetAsanChunkByAddr(s, addr), GetAsanChunkByAddr(s, a);
            AllReadable(s.mem, m1, m2) && ChooseChecks(s.mem, addr, m2, m1) && FindChunk(s, addr) == Blame(s, addr, m1, m2)
  {
    assert ReadableAt(s, addr) && ReadableAt(s, a);
    SearchFinds(s, addr, addr - 1, a);
    var m1, m2 := GetAsanChunkByAddr(s, addr), GetAsanChunkByAddr(s, a);
    if m1.Some? {
      ChooseChunkByRank(s.mem, addr, m2.value, m1.value);
    }
  }

  /** Any address of a block looks up to what is visible there. */
  lemma LookupIn(s: State, b: nat, a: int)
    requires Inv(s) && InBlock(s.blocks, b, a)
    ensures GetBlockBegin(s.blocks, a) == Some(b) && b in s.abs && GetAsanChunkByAddr(s, a) == Visible(s, b)
  {
    BlockBeginIs(s, b, a);
    LookupRefines(s, a);
  }

  /** A user byte is blamed on its owner, in every state and whatever its neighbours are. */
  lemma OwnerIsBlamed(s: State, addr: u64, b: nat)
    requires Inv(s) && b in s.blocks && HasChunk(s, b) && Visible(s, b).Some?
    requires s.abs[b].ch.user <= addr < s.abs[b].ch.user + s.abs[b].ch.size
    ensures LookupsReadable(s) && FindChunk(s, addr) == Some(s.abs[b].ch.user - HEADER)
  {
    InvReadable(s);
    HeaderBlock(s, b);
    LookupIn(s, b, addr);
    InsideIsNotSearched(s, addr, b);
  }

  lemma InsideIsNotSearched(s: State, addr: u64, b: nat)
    requires LookupsReadable(s) && b in s.blocks && HasChunk(s, b) && Visible(s, b).Some?
    requires s.abs[b].ch.user <= addr && GetAsanChunkByAddr(s, addr) == Visible(s, b)
    ensures FindChunk(s, addr) == Some(s.abs[b].ch.user - HEADER)
  {
  }

  /** The left candidate is the nearest one: no other chunk lies between it and the address. */
  lemma NearestOnTheLeft(s: State, addr: u64, a: int, b: nat, b': nat)
    requires Inv(s) && FirstOther(s, addr, a) && GetAsanChunkByAddr(s, a).Some? && GetBlockBegin(s.blocks, a) == Some(b)
    requires b' in s.blocks && b' != b && HasChunk(s, b') && Visible(s, b').Some? && b' + s.blocks[b'].size <= addr
    ensures HasChunk(s, b) && s.abs[b'].ch.user + s.abs[b'].ch.size <= s.abs[b].ch.user
  {
    LeftChunkEnds(s, addr, a, b);
    HeaderBlock(s, b');
    assert BlocksApart(s.blocks, b, b');
    if b + s.blocks[b].size <= b' - s.blocks[b'].lead {
      NothingBetween(s, addr, a, b');
    }
  }

  /** A block that shows a chunk cannot lie after the first other result. */
  lemma NothingBetween(s: State, addr: u64, a: int, b': nat)
    requires Inv(s) && FirstOther(s, addr, a)
    requires b' in s.blocks && HasChunk(s, b') && Visible(s, b').Some? && b' + s.blocks[b'].size <= addr
    ensures b' + s.blocks[b'].size <= a + 1
  {
    var x := b' + s.blocks[b'].size - 1;
    assert BlockShape(s, b');
    LookupIn(s, b', x);
    if a < x {
      assert GetAsanChunkByAddr(s, x) == GetAsanChunkByAddr(s, addr);
      var b1 := LookupPointsInto(s, addr);
      var b2 := LookupPointsInto(s, x);
      BlockBeginIs(s, b1, GetAsanChunkByAddr(s, x).value);
      BlockBeginIs(s, b2, GetAsanChunkByAddr(s, x).value);
    }
  }

  /** One of the two cases always applies. */
  lemma {:induction false} FirstOtherOrNone(s: State, addr: u64, x: int) returns (a: int)
    requires addr - PAGE <= x < addr && SameLookup(s, addr, x)
    ensures FirstOther(s, addr, a) || (a == addr - PAGE && SameLookup(s, addr, a))
    decreases x - (addr - PAGE)
  {
    if x == addr - PAGE || GetAsanChunkByAddr(s, x) != GetAsanChunkByAddr(s, addr) {
      a := x;
    } else {
      a := FirstOtherOrNone(s, addr, x - 1);
    }
  }

  /**
   `FindHeapChunkByAddress` on every heap and address: `Blame` between its own chunk and the first other
   result, if it lies in front of its chunk's user memory or in no chunk; its own chunk otherwise.
   */
  lemma AttributionSpec(s: State, addr: u64) returns (a: int)
    requires Inv(s)
    ensures LookupsReadable(s)
    ensures FirstOther(s, addr, a) || SameLookup(s, addr, addr - PAGE)
    ensures InFront(s, addr) && FirstOther(s, addr, a) ==>
              && AllReadable(s.mem, GetAsanChunkByAddr(s, addr), GetAsanChunkByAddr(s, a))
              && FindChunk(s, addr) == Blame(s, addr, GetAsanChunkByAddr(s, addr), GetAsanChunkByAddr(s, a))
    ensures !InFront(s, addr) || !FirstOther(s, addr, a) ==> FindChunk(s, addr) == GetAsanChunkByAddr(s, addr)
  {
    a := FirstOtherOrNone(s, addr, addr - 1);
    InvReadable(s);
    SearchesIff(s, addr);
    if FirstOther(s, addr, a) && InFront(s, addr) {
      BlameBetween(s, addr, a);
    } else if !FirstOther(s, addr, a) {
      assert ReadableAt(s, addr);
      SearchFindsNothing(s, addr, addr - 1);
    }
  }

  // ----------------------------------------------------------- the everyday overflow

  /** Live chunks in blocks b0 and b1, the second right behind the first. */
  ghost predicate Neighbours(s: State, b0: nat, b1: nat) {
    && b0 in s.blocks && b1 in s.blocks && b0 in s.abs && b1 in s.abs && s.abs[b0].ALive? && s.abs[b1].ALive?
    && Findable(b0, s.blocks[b0], s.abs[b0].ch) && Findable(b1, s.blocks[b1], s.abs[b1].ch)
    && b0 + s.blocks[b0].size == b1 && s.blocks[b1].lead == 0
  }

  /** Any address of a live chunk's block finds it. */
  lemma LiveIsFound(s: State, b: nat, ch: Chunk, c: nat, x: int)
    requires Inv(s) && b in s.blocks && s.abs[b] == ALive(ch) && Findable(b, s.blocks[b], ch) && InBlock(s.blocks, b, x)
    requires c == Hdr(ch)
    ensures GetAsanChunkByAddr(s, x) == Some(c)
  {
    LookupIn(s, b, x);
  }

  lemma FirstOtherAt(s: State, addr: u64, a: int, c0: nat, c1: nat)
    requires addr - PAGE < a < addr && c0 != c1 && GetAsanChunkByAddr(s, a) == Some(c0)
    requires forall x: int :: a < x <= addr ==> GetAsanChunkByAddr(s, x) == Some(c1)
    ensures FirstOther(s, addr, a) && GetAsanChunkByAddr(s, addr) == Some(c1)
  {
  }

  lemma NeighbourPlaces(s: State, b0: nat, b1: nat, ch0: Chunk, ch1: Chunk)
    requires Inv(s) && Neighbours(s, b0, b1) && s.abs[b0] == ALive(ch0) && s.abs[b1] == ALive(ch1)
    ensures 0 <= Hdr(ch0) < b1 <= Hdr(ch1) && ch1.user <= b1 + s.blocks[b1].size && b0 < b1
    ensures Holds(s.mem, ch0) && Holds(s.mem, ch1)
  {
    HeaderBlock(s, b0);
    HeaderBlock(s, b1);
  }

  /** A live chunk's state byte and size in memory. */
  ghost predicate Holds(m: Mem, ch: Chunk) {
    && 0 <= Hdr(ch) && ch.user <= |m| && m[Hdr(ch)] == CHUNK_ALLOCATED && UsedSize(m, Hdr(ch)) == ch.size
  }

  /** In the second one's left redzone, less than a page behind its start, the first other result is the first chunk. */
  lemma NeighbourIsFirstOther(s: State, addr: u64, b0: nat, b1: nat, a: int, c0: nat, c1: nat)
    requires Inv(s) && Neighbours(s, b0, b1) && b1 <= addr < s.abs[b1].ch.user && a == b1 - 1 && addr - PAGE < a
    requires c0 == Hdr(s.abs[b0].ch) && c1 == Hdr(s.abs[b1].ch)
    ensures FirstOther(s, addr, a) && GetAsanChunkByAddr(s, a) == Some(c0) && GetAsanChunkByAddr(s, addr) == Some(c1)
  {
    NeighbourPlaces(s, b0, b1, s.abs[b0].ch, s.abs[b1].ch);
    LiveIsFound(s, b0, s.abs[b0].ch, c0, a);
    forall x: int | a < x <= addr
      ensures GetAsanChunkByAddr(s, x) == Some(c1)
    {
      LiveIsFound(s, b1, s.abs[b1].ch, c1, x);
    }
    FirstOtherAt(s, addr, a, c0, c1);
  }

  lemma NearerWins(s: State, addr: u64, ch0: Chunk, ch1: Chunk, c0: nat, c1: nat)
    requires c0 == Hdr(ch0) && c1 == Hdr(ch1) && Holds(s.mem, ch0) && Holds(s.mem, ch1) && AllReadable(s.mem, Some(c1), Some(c0))
    ensures Blame(s, addr, Some(c1), Some(c0)) == Some(if addr - (ch0.user + ch0.size) < ch1.user - addr then c0 else c1)
  {
  }

  /**
   The everyday overflow: an address between the user memories of two live neighbours, in the block of
   the second. The nearer chunk is blamed, the second one if both are equally near; so the byte right
   behind a chunk that fills its block is blamed on that chunk.
   */
  lemma NearerNeighbourIsBlamed(s: State, addr: u64, b0: nat, b1: nat, ch0: Chunk, ch1: Chunk)
    requires Inv(s) && Neighbours(s, b0, b1) && s.abs[b0] == ALive(ch0) && s.abs[b1] == ALive(ch1)
    requires b1 <= addr < ch1.user && addr - PAGE < b1 - 1
    ensures LookupsReadable(s)
    ensures FindChunk(s, addr) == Some(if addr - (ch0.user + ch0.size) < ch1.user - addr then Hdr(ch0) else Hdr(ch1))
  {
    NeighbourPlaces(s, b0, b1, ch0, ch1);
    var a, c0: nat, c1: nat := b1 - 1, Hdr(ch0), Hdr(ch1);
    NeighbourIsFirstOther(s, addr, b0, b1, a, c0, c1);
    BlameBetween(s, addr, a);
    NearerWins(s, addr, ch0, ch1, c0, c1);
  }

  // ----------------------------------------------- GetAccessToHeapChunkInformation

  datatype AccessKind = Left | Right | Inside | Unknown

  datatype Access = Access(kind: AccessKind, badAddr: u64, offset: int)

  /** Address x is one of the accessed bytes and does not belong to the chunk. */
  predicate BadByte(beg: nat, end: nat, addr: nat, size: nat, x: nat) {
    addr <= x < addr + size && !(beg <= x < end)
  }

  /**
   The description of an access: `Unknown` never happens, and for an access that does not wrap
   the kind is right, the bad address is the first byte outside the chunk and the offset is its
   distance from the chunk, as long as that distance fits a signed word. Farther out the end of the
   chunk itself is reported.
   */
  method DescribeAccess(beg: u64, end: u64, addr: u64, size: u64) returns (d: Access)
    requires beg <= end < SPACE
    ensures d.kind != Unknown && (d.kind == Left <==> addr < beg)
    ensures addr - end < HALF && addr + size < WORD ==>
              && (d.kind == Inside <==> beg <= addr && addr + size <= end)
              && (d.kind == Inside ==> d.badAddr == addr && d.offset == addr - beg)
              && (d.kind == Left ==> d.badAddr == addr && d.offset == beg - addr)
              && (d.kind == Right ==> d.badAddr >= end && d.offset == d.badAddr - end)
              && (d.kind != Inside && size > 0 ==>
                    BadByte(beg, end, addr, size, d.badAddr) && forall x: nat :: BadByte(beg, end, addr, size, x) ==> d.badAddr <= x)
    ensures addr - end >= HALF && addr + size < WORD ==> d == Access(Right, end, 0)
  {
    var left, right, inside := AddrIsAtLeft(beg, addr), AddrIsAtRight(end, addr, size), AddrIsInside(beg, end, addr, size);
    d := Access(Unknown, addr, 0);
    if left.Some? {
      d := d.(kind := Left, offset := left.value);
    } else if right.Some? {
      d := d.(kind := Right, offset := right.value);
      if d.offset < 0 {
        d := d.(badAddr := Wrap(d.badAddr + -d.offset), offset := 0);
      }
    } else if inside.Some? {
      d := d.(kind := Inside, offset := inside.value);
    }
  }
}
