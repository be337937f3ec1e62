/**
 Sizes and positions: how `Allocate` turns a request into a block size and places the
 chunk inside the block it gets.

   block start            user - 16   user               user + size      block end
   | left redzone         | header    | user memory      | right redzone  |
   | magic, back-pointer  |           |                  |                |
 */
module Layout {
  import opened Words

  const HEADER: nat := 16
  /** The part of `ChunkBase` that overlaps user memory: the free context. */
  const HEADER2: nat := 8
  const LARGE_HEADER: nat := 16
  const MAX_PRIMARY: nat := 0x2_0000
  const MAX_MALLOC: nat := 0x100_0000_0000

  // ---------------------------------------------------------------- redzones

  datatype Redzones = Redzones(min: nat, max: nat)

  ghost predicate CheckRedzones(o: Redzones) {
    && 16 <= o.min <= o.max <= 2048
    && IsPowerOfTwo(o.min)
    && IsPowerOfTwo(o.max)
  }

  function RZLog2Size(rzLog: nat): nat
    requires rzLog < 8
  {
    16 * Pow2(rzLog)
  }

  function RZSize2Log(rzSize: nat): (r: nat)
    requires 16 <= rzSize <= 2048 && IsPowerOfTwo(rzSize)
    ensures r < 8 && RZLog2Size(r) == rzSize
  {
    RedzoneLog(rzSize);
    Log2(rzSize) - 4
  }

  function WantedRZLog(size: u64): (r: nat)
    ensures r < 8
  {
    if size <= 64 - 16 then 0
    else if size <= 128 - 32 then 1
    else if size <= 512 - 64 then 2
    else if size <= 4096 - 128 then 3
    else if size <= 0x4000 - 256 then 4
    else if size <= 0x8000 - 512 then 5
    else if size <= 0x1_0000 - 1024 then 6
    else 7
  }

  function ComputeRZLog(size: u64, o: Redzones): (r: nat)
    requires CheckRedzones(o)
    ensures r < 8
  {
    Min(Max(WantedRZLog(size), RZSize2Log(o.min)), RZSize2Log(o.max))
  }

  /** The redzone chosen for a request of `size` bytes. */
  function RedzoneFor(size: u64, o: Redzones): nat
    requires CheckRedzones(o)
  {
    RZLog2Size(ComputeRZLog(size, o))
  }

  lemma RZLogOrder(a: nat, b: nat)
    requires a < 8 && b < 8 && RZLog2Size(a) <= RZLog2Size(b)
    ensures a <= b
  {
    if b < a {
      Pow2Monotone(b + 1, a);
    }
  }

  /** A chosen redzone lies within the configured bounds. */
  lemma RedzoneWithinBounds(size: u64, o: Redzones)
    requires CheckRedzones(o)
    ensures 16 <= o.min <= RedzoneFor(size, o) <= o.max <= 2048
    ensures RedzoneFor(size, o) % 16 == 0
  {
    var lo, hi, r := RZSize2Log(o.min), RZSize2Log(o.max), ComputeRZLog(size, o);
    RZLogOrder(lo, hi);
    Pow2Monotone(lo, r);
    Pow2Monotone(r, hi);
    RedzoneIs16Fold(r);
  }

  lemma RedzoneIs16Fold(rzLog: nat)
    requires rzLog < 8
    ensures RZLog2Size(rzLog) % 16 == 0
  {
  }

  /** Larger requests never get a smaller redzone. */
  lemma RedzoneMonotone(small: u64, large: u64, o: Redzones)
    requires CheckRedzones(o) && small <= large
    ensures RedzoneFor(small, o) <= RedzoneFor(large, o)
  {
    Pow2Monotone(ComputeRZLog(small, o), ComputeRZLog(large, o));
  }

  /** The redzones of lines 463-470, in bytes, before the configured bounds are applied. */
  function LadderRedzone(size: u64): nat {
    if size <= 48 then 16
    else if size <= 96 then 32
    else if size <= 448 then 64
    else if size <= 3968 then 128
    else if size <= 16128 then 256
    else if size <= 32256 then 512
    else if size <= 64512 then 1024
    else 2048
  }

  /** Which redzone a request gets, in bytes: the ladder's, within the bounds. */
  lemma RedzoneLadder(size: u64, o: Redzones)
    requires CheckRedzones(o)
    ensures RedzoneFor(size, o) == Min(Max(LadderRedzone(size), o.min), o.max)
  {
    var lo, hi, w := RZSize2Log(o.min), RZSize2Log(o.max), WantedRZLog(size);
    assert RZLog2Size(w) == LadderRedzone(size) by {
      assert Pow2(0) == 1 && Pow2(1) == 2 && Pow2(2) == 4 && Pow2(3) == 8;
      assert Pow2(4) == 16 && Pow2(5) == 32 && Pow2(6) == 64 && Pow2(7) == 128;
    }
    ClampLogs(w, lo, hi);
  }

  /** Clamping logarithms clamps sizes. */
  lemma ClampLogs(w: nat, lo: nat, hi: nat)
    requires w < 8 && lo < 8 && hi < 8
    ensures RZLog2Size(Min(Max(w, lo), hi)) == Min(Max(RZLog2Size(w), RZLog2Size(lo)), RZLog2Size(hi))
  {
    RZLogOrders(w, lo);
    RZLogOrders(w, hi);
    RZLogOrders(lo, hi);
  }

  lemma RZLogOrders(a: nat, b: nat)
    requires a < 8 && b < 8
    ensures a <= b <==> RZLog2Size(a) <= RZLog2Size(b)
  {
    if a <= b {
      Pow2Monotone(a, b);
    } else {
      Pow2Monotone(b + 1, a);
    }
  }

  // --------------------------------------------------------------- alignment

  function AlignmentLog(alignment: u64): (r: nat)
    requires alignment < 8 || IsPowerOfTwo(alignment)
    ensures r < 8
  {
    if alignment < 8 then 0
    else if alignment > 512 then
      Log2(512) - 2
    else
      AlignmentLogRange(alignment);
      Log2(alignment) - 2
  }

  function UserAlignment(log: nat): nat {
    if log == 0 then 0 else Pow2(log + 2)
  }

  lemma AlignmentLogRange(alignment: u64)
    requires 8 <= alignment <= 512 && IsPowerOfTwo(alignment)
    ensures 3 <= Log2(alignment) <= 9 && Pow2(Log2(alignment)) == alignment
  {
    var k: nat :| alignment == Pow2(k);
    Log2Pow2(k);
    if k < 3 {
      Pow2Monotone(k, 2);
    } else if k > 9 {
      Pow2Monotone(10, k);
    }
  }

  /** The 3-bit log kept in the header gives back the requested alignment, capped at 512. */
  lemma AlignmentRoundTrip(alignment: u64)
    requires alignment < 8 || IsPowerOfTwo(alignment)
    ensures UserAlignment(AlignmentLog(alignment)) == if alignment < 8 then 0 else Min(alignment, 512)
  {
    if 8 <= alignment <= 512 {
      AlignmentLogRange(alignment);
    } else if alignment > 512 {
      assert Log2(512) == 9 && Pow2(9) == 512;
    }
  }

  // ---------------------------------------------------------------- requests

  datatype Plan =
    | Reject
    | Accept(size: u64, alignment: u64, rz: nat, needed: u64, fromPrimary: bool)

  /** `PrimaryAllocator::CanAllocate`. */
  predicate CanAllocate(size: u64, alignment: u64) {
    size <= MAX_PRIMARY && alignment <= MAX_PRIMARY
  }

  /** The size sum of `Allocate`, wrap-around included, for a normalised size and alignment. */
  function PlanSized(size: u64, alignment: u64, rz: nat, maxUser: u64): (p: Plan)
    requires 16 <= rz <= 2048 && alignment > 0
    ensures p.Accept? ==> p.rz == rz && p.alignment == alignment && p.size == size
  {
    PlanRounded(size, alignment, RoundUpTo(Max(size, HEADER2), alignment), rz, maxUser)
  }

  /** The size sum up to the question whether the primary allocator can serve it: lines 563-566. */
  function GuessedSize(alignment: u64, rounded: u64, rz: nat): u64
    requires rz <= 2048
  {
    var base := Wrap(rounded + rz);
    if alignment > GRANULE then Wrap(base + alignment) else base
  }

  /** ... and after it: lines 567-570. */
  function NeededSize(alignment: u64, rounded: u64, rz: nat): u64
    requires rz <= 2048
  {
    var guess := GuessedSize(alignment, rounded, rz);
    if CanAllocate(guess, alignment) then guess else Wrap(guess + rz)
  }

  function PlanRounded(size: u64, alignment: u64, rounded: u64, rz: nat, maxUser: u64): (p: Plan)
    requires 16 <= rz <= 2048
    ensures p.Accept? ==> p.rz == rz && p.alignment == alignment && p.size == size
  {
    var needed := NeededSize(alignment, rounded, rz);
    if size > MAX_MALLOC || needed > MAX_MALLOC || size > maxUser then Reject
    else Accept(size, alignment, rz, needed, CanAllocate(GuessedSize(alignment, rounded, rz), alignment))
  }

  /** `needed_size` as the CHECK at line 571 sees it, for any request whether or not it is then rejected. */
  function RequestNeeded(size0: u64, alignment0: u64, o: Redzones): u64
    requires CheckRedzones(o)
  {
    var alignment := if alignment0 < GRANULE then GRANULE else alignment0;
    var size := if size0 == 0 then 1 else size0;
    RedzoneWithinBounds(size, o);
    NeededSize(alignment, RoundUpTo(Max(size, HEADER2), alignment), RedzoneFor(size, o))
  }

  /** What `Allocate` decides about a request before it asks the underlying allocator. */
  function PlanRequest(size0: u64, alignment0: u64, o: Redzones, maxUser: u64): (p: Plan)
    requires CheckRedzones(o)
    requires alignment0 < GRANULE || IsPowerOfTwo(alignment0)
    ensures p.Accept? ==> 16 <= p.rz <= 2048 && p.alignment >= GRANULE
  {
    var alignment := if alignment0 < GRANULE then GRANULE else alignment0;
    var size := if size0 == 0 then 1 else size0;
    RedzoneWithinBounds(size, o);
    PlanSized(size, alignment, RedzoneFor(size, o), maxUser)
  }

  lemma EightIsPower()
    ensures IsPowerOfTwo(8)
  {
    assert Pow2(3) == 8;
  }

  /** The plan for `malloc` and `realloc`, which ask for alignment 8. */
  function PlanMalloc(size0: u64, o: Redzones, maxUser: u64): Plan
    requires CheckRedzones(o)
  {
    EightIsPower();
    PlanRequest(size0, 8, o, maxUser)
  }

  /** Where user memory starts in a block that begins at `allocBeg`. */
  function UserBeg(allocBeg: u64, p: Plan): u64
    requires p.Accept? && p.alignment > 0 && p.rz <= 2048
  {
    var u := Wrap(allocBeg + p.rz);
    if IsAligned(u, p.alignment) then u else RoundUpTo(u, p.alignment)
  }

  const TOP_ALIGNMENT: nat := 0x8000_0000_0000_0000

  /** What an accepted plan promises when the sum did not wrap. */
  ghost predicate PlanOk(p: Plan) {
    && p.Accept?
    && 1 <= p.size <= MAX_MALLOC
    && (p.alignment == 8 || (16 <= p.alignment <= MAX_MALLOC && p.alignment % 16 == 0))
    && 16 <= p.rz <= 2048 && p.rz % 16 == 0
    && p.needed % 8 == 0
    && p.needed <= MAX_MALLOC
    && p.needed >= Max(p.size, HEADER2) + p.rz + (if p.alignment > 8 then p.alignment else 0)
                   + (if p.fromPrimary then 0 else p.rz)
    // The guess made with the user's alignment is the placement made with alignment 8.
    && (p.fromPrimary <==> CanAllocate(p.needed, 8))
  }

  lemma RoundUpEights(x: u64, m: u64)
    requires x + m < WORD && 8 <= m && m % 8 == 0
    ensures RoundUpTo(x, m) % 8 == 0
  {
    RoundDown8(x + m - 1, m);
  }

  /** Rounding the request up to its alignment, in every case where the sum cannot wrap. */
  lemma RoundedRequest(size: u64, alignment: u64)
    requires 1 <= size <= MAX_MALLOC
    requires alignment == 8 || (16 <= alignment <= 0x4000_0000_0000_0000 && alignment % 16 == 0)
    ensures var rounded := RoundUpTo(Max(size, HEADER2), alignment);
            && rounded % 8 == 0 && Multiple(rounded, alignment)
            && Max(size, HEADER2) <= rounded && alignment <= rounded < Max(size, HEADER2) + alignment
  {
    var x := Max(size, HEADER2);
    RoundUpProps(x, alignment);
    assert RoundUpTo(x, alignment) % 8 == 0 by {
      SixteenIsEight(alignment);
      RoundUpEights(x, alignment);
    }
  }

  lemma SumsAreGranular(rounded: nat, rz: nat, alignment: nat)
    requires rounded % 8 == 0 && rz % 16 == 0 && (alignment == 8 || alignment % 16 == 0)
    ensures (rounded + rz) % 8 == 0 && (rounded + rz + rz) % 8 == 0
    ensures (rounded + rz + alignment) % 8 == 0 && (rounded + rz + alignment + rz) % 8 == 0
  {
    SixteenIsEight(rz);
    SixteenIsEight(alignment);
    SumOfEights(rounded, rz);
    SumOfEights(rounded + rz, rz);
    SumOfEights(rounded + rz, alignment);
    SumOfEights(rounded + rz + alignment, rz);
  }

  lemma SixteenIsEight(x: nat)
    ensures x % 16 == 0 ==> x % 8 == 0
  {
  }

  lemma PlanRoundedOk(size: u64, alignment: u64, rounded: u64, rz: nat, maxUser: u64)
    requires 1 <= size <= MAX_MALLOC
    requires alignment == 8 || (16 <= alignment <= 0x4000_0000_0000_0000 && alignment % 16 == 0)
    requires 16 <= rz <= 2048 && rz % 16 == 0
    requires rounded % 8 == 0 && Max(size, HEADER2) <= rounded && alignment <= rounded < Max(size, HEADER2) + alignment
    ensures var p := PlanRounded(size, alignment, rounded, rz, maxUser); p.Accept? ==> PlanOk(p)
  {
    SumsAreGranular(rounded, rz, alignment);
  }

  lemma WrapKeepsEights(x: nat)
    requires x < 2 * WORD && x % 8 == 0
    ensures Wrap(x) % 8 == 0
  {
  }

  lemma NeededIsGranular(alignment: u64, rounded: u64, rz: nat)
    requires rounded % 8 == 0 && rz % 8 == 0 && rz <= 2048 && alignment % 8 == 0
    ensures NeededSize(alignment, rounded, rz) % 8 == 0
  {
    SumOfEights(rounded, rz);
    WrapKeepsEights(rounded + rz);
    var base := Wrap(rounded + rz);
    SumOfEights(base, alignment);
    WrapKeepsEights(base + alignment);
    var guess := GuessedSize(alignment, rounded, rz);
    SumOfEights(guess, rz);
    WrapKeepsEights(guess + rz);
  }

  lemma EightfoldAlignment(alignment0: u64)
    requires alignment0 >= GRANULE && IsPowerOfTwo(alignment0)
    ensures alignment0 % 8 == 0
  {
    AlignmentCases(alignment0);
    SixteenIsEight(alignment0);
    TopIsEightfold();
  }

  lemma TopIsEightfold()
    ensures TOP_ALIGNMENT % 8 == 0
  {
  }

  lemma RoundedIsGranular(x: u64, alignment: u64)
    requires alignment > 0 && alignment % 8 == 0
    ensures RoundUpTo(x, alignment) % 8 == 0
  {
    RoundDown8(Wrap(x + alignment - 1), alignment);
  }

  lemma RedzoneIsGranular(size: u64, o: Redzones)
    requires CheckRedzones(o)
    ensures RedzoneFor(size, o) % 8 == 0 && RedzoneFor(size, o) <= 2048
  {
    RedzoneWithinBounds(size, o);
    SixteenIsEight(RedzoneFor(size, o));
  }

  lemma NormalAlignment(alignment0: u64) returns (alignment: u64)
    requires alignment0 < GRANULE || IsPowerOfTwo(alignment0)
    ensures alignment == (if alignment0 < GRANULE then GRANULE else alignment0) && alignment % 8 == 0
  {
    alignment := if alignment0 < GRANULE then GRANULE else alignment0;
    if alignment0 >= GRANULE {
      EightfoldAlignment(alignment0);
    }
  }

  /**
   The CHECK at line 571 comes before the request is rejected, so it has to hold for every 64-bit
   size and every power-of-two alignment, wrapped sums included; and it does.
   */
  lemma RequestIsGranular(size0: u64, alignment0: u64, o: Redzones)
    requires CheckRedzones(o)
    requires alignment0 < GRANULE || IsPowerOfTwo(alignment0)
    ensures RequestNeeded(size0, alignment0, o) % GRANULE == 0
  {
    var alignment := NormalAlignment(alignment0);
    var size := if size0 == 0 then 1 else size0;
    RedzoneIsGranular(size, o);
    RoundedIsGranular(Max(size, HEADER2), alignment);
    NeededIsGranular(alignment, RoundUpTo(Max(size, HEADER2), alignment), RedzoneFor(size, o));
  }

  /** It is the size an accepted request asks the underlying allocator for. */
  lemma AcceptedNeeded(size0: u64, alignment0: u64, o: Redzones, maxUser: u64)
    requires CheckRedzones(o)
    requires alignment0 < GRANULE || IsPowerOfTwo(alignment0)
    ensures var p := PlanRequest(size0, alignment0, o, maxUser); p.Accept? ==> p.needed == RequestNeeded(size0, alignment0, o)
  {
  }

  /** Every accepted request below alignment 2^63 is sound, whatever the 64-bit size. */
  lemma AcceptedPlanOk(size0: u64, alignment0: u64, o: Redzones, maxUser: u64)
    requires CheckRedzones(o)
    requires alignment0 < GRANULE || IsPowerOfTwo(alignment0)
    requires alignment0 != TOP_ALIGNMENT
    ensures var p := PlanRequest(size0, alignment0, o, maxUser); p.Accept? ==> PlanOk(p)
  {
    var alignment := if alignment0 < GRANULE then GRANULE else alignment0;
    var size := if size0 == 0 then 1 else size0;
    AlignmentCases(alignment0);
    RedzoneWithinBounds(size, o);
    if size <= MAX_MALLOC {
      RoundedRequest(size, alignment);
      PlanRoundedOk(size, alignment, RoundUpTo(Max(size, HEADER2), alignment), RedzoneFor(size, o), maxUser);
    }
  }

  lemma AlignmentCases(alignment0: u64)
    requires alignment0 < GRANULE || IsPowerOfTwo(alignment0)
    ensures alignment0 <= 8 || alignment0 == TOP_ALIGNMENT
            || (16 <= alignment0 <= 0x4000_0000_0000_0000 && alignment0 % 16 == 0)
  {
    if alignment0 > 8 {
      LargestPowers(alignment0);
      PowerAbove8(alignment0);
    }
  }

  /** Header, user memory and both redzones of a chunk placed in a block of at least `needed` bytes. */
  ghost predicate PlacedOk(allocBeg: nat, p: Plan)
    requires p.Accept? && p.alignment > 0 && p.rz <= 2048 && allocBeg < WORD
  {
    var u := UserBeg(allocBeg, p);
    && IsAligned(u, p.alignment) && u % 16 == 0
    && allocBeg + p.rz <= u
    && u + Max(p.size, HEADER2) + (if p.fromPrimary then 0 else p.rz) <= allocBeg + p.needed  // line 607
    && (u - HEADER == allocBeg || allocBeg + LARGE_HEADER <= u - HEADER)                     // line 661
  }

  lemma SixteensAreAligned8(x: u64)
    requires x % 16 == 0
    ensures IsAligned(x, 8)
  {
    SixteenIsEight(x);
    RemIsMod(x, 8);
  }

  lemma RoundUpSixteens(x: u64, m: u64)
    requires x + m < WORD && 16 <= m && m % 16 == 0
    ensures RoundUpTo(x, m) % 16 == 0
  {
    RoundDown16(x + m - 1, m);
  }

  /** `user_beg` from a 16-aligned address: already aligned, or rounded up. */
  lemma AlignUp(x: u64, m: u64)
    requires x % 16 == 0 && x + m < WORD
    requires m == 8 || (16 <= m && m % 16 == 0)
    ensures var u := if IsAligned(x, m) then x else RoundUpTo(x, m);
            IsAligned(u, m) && u % 16 == 0 && x <= u <= x + (if m > 8 then m else 0)
  {
    if m == 8 {
      SixteensAreAligned8(x);
    } else if !IsAligned(x, m) {
      RoundUpProps(x, m);
      RoundUpSixteens(x, m);
    }
  }

  /** Placement in any 16-aligned block: aligned, inside, and the two headers do not overlap. */
  lemma PlacementOk(allocBeg: nat, p: Plan)
    requires PlanOk(p)
    requires allocBeg % 16 == 0 && allocBeg + p.needed <= SPACE
    ensures PlacedOk(allocBeg, p)
  {
    AlignUp(allocBeg + p.rz, p.alignment);
  }

  /** The plan in sums that do not wrap. */
  function PlanInFull(size: nat, alignment: nat, rounded: nat, rz: nat, maxUser: u64): Plan {
    var base := rounded + rz + (if alignment > 8 then alignment else 0);
    var primary := base <= 0x2_0000;
    var needed := base + if primary then 0 else rz;
    if size <= 0x100_0000_0000 && size <= maxUser && needed <= 0x100_0000_0000 then Accept(size, alignment, rz, needed, primary)
    else Reject
  }

  lemma PlanRoundedIs(size: u64, alignment: u64, rounded: u64, rz: nat, maxUser: u64)
    requires 16 <= rz <= 2048 && size <= MAX_MALLOC && alignment <= 0x4000_0000_0000_0000
    requires alignment <= rounded <= MAX_MALLOC + HEADER2 + alignment
    ensures PlanRounded(size, alignment, rounded, rz, maxUser) == PlanInFull(size, alignment, rounded, rz, maxUser)
  {
  }

  lemma TooLarge(size: u64, alignment: u64, rounded: u64, rz: nat, maxUser: u64)
    requires 16 <= rz <= 2048 && size > MAX_MALLOC
    ensures PlanRounded(size, alignment, rounded, rz, maxUser) == Reject
  {
  }

  /**
   Acceptance, exactly, for every request whose alignment is not 2^63, in sums that do not wrap: with
   the size rounded up to the alignment, a redzone, room to align and, when that is more than 2^17 bytes,
   a second redzone, the request must stay within 2^40 and the user's own limit. The plan asks for
   exactly that much and keeps the size and alignment of the request.
   */
  lemma AcceptedIff(size0: u64, alignment0: u64, o: Redzones, maxUser: u64) returns (rounded: nat)
    requires CheckRedzones(o) && (alignment0 < GRANULE || IsPowerOfTwo(alignment0)) && alignment0 != TOP_ALIGNMENT
    ensures Max(size0, 1) <= MAX_MALLOC ==> FirstMultiple(rounded, Max(size0, 8), Max(alignment0, 8))
    ensures PlanRequest(size0, alignment0, o, maxUser)
            == PlanInFull(Max(size0, 1), Max(alignment0, 8), rounded, RedzoneFor(Max(size0, 1), o), maxUser)
  {
    var size: u64, alignment: u64 := Max(size0, 1), Max(alignment0, 8);
    var rz := RedzoneFor(size, o);
    AlignmentCases(alignment0);
    RedzoneWithinBounds(size, o);
    rounded := RoundUpTo(Max(size, HEADER2), alignment);
    if size <= MAX_MALLOC {
      RoundedRequest(size, alignment);
      FirstFrom(rounded, Max(size, HEADER2), alignment);
      PlanRoundedIs(size, alignment, rounded, rz, maxUser);
    } else {
      TooLarge(size, alignment, rounded, rz, maxUser);
    }
  }

  lemma FirstAligned(x: u64, m: u64)
    requires 0 < m && x + m < WORD
    ensures FirstMultiple(if IsAligned(x, m) then x else RoundUpTo(x, m), x, m)
  {
    RoundUpProps(x, m);
    FirstFrom(if IsAligned(x, m) then x else RoundUpTo(x, m), x, m);
  }

  lemma UserBegIsFirst(allocBeg: nat, p: Plan)
    requires PlanOk(p) && allocBeg + p.needed <= SPACE
    ensures FirstMultiple(UserBeg(allocBeg, p), allocBeg + p.rz, p.alignment)
  {
    FirstAligned(allocBeg + p.rz, p.alignment);
  }

  lemma PlanKeepsRequest(size0: u64, alignment0: u64, o: Redzones, maxUser: u64)
    requires CheckRedzones(o) && (alignment0 < GRANULE || IsPowerOfTwo(alignment0)) && alignment0 != TOP_ALIGNMENT
    ensures var p := PlanRequest(size0, alignment0, o, maxUser);
            p.Accept? ==> p.size == Max(size0, 1) && p.alignment == Max(alignment0, 8) && p.rz == RedzoneFor(Max(size0, 1), o)
  {
    var rounded := AcceptedIff(size0, alignment0, o, maxUser);
  }

  /**
   A chunk starts at the first multiple of the alignment asked for, at least 8, that leaves room for the
   redzone after the block's start. In particular it is aligned as the caller asked, without a cap.
   */
  lemma PlacedAsRequested(size0: u64, alignment0: u64, o: Redzones, maxUser: u64, p: Plan, allocBeg: nat)
    requires CheckRedzones(o) && (alignment0 < GRANULE || IsPowerOfTwo(alignment0)) && alignment0 != TOP_ALIGNMENT
    requires p == PlanRequest(size0, alignment0, o, maxUser) && p.Accept? && allocBeg + p.needed <= SPACE
    ensures p.size == Max(size0, 1)
    ensures FirstMultiple(UserBeg(allocBeg, p), allocBeg + RedzoneFor(Max(size0, 1), o), Max(alignment0, 8))
  {
    AcceptedPlanOk(size0, alignment0, o, maxUser);
    PlanKeepsRequest(size0, alignment0, o, maxUser);
    UserBegIsFirst(allocBeg, p);
  }

  lemma RoundUpToTop(x: u64)
    requires 0 < x < TOP_ALIGNMENT
    ensures RoundUpTo(x, TOP_ALIGNMENT) == TOP_ALIGNMENT && !IsAligned(x, TOP_ALIGNMENT)
  {
    var y := x + TOP_ALIGNMENT - 1;
    assert Rem(y, TOP_ALIGNMENT) == Rem(y - TOP_ALIGNMENT, TOP_ALIGNMENT) == y - TOP_ALIGNMENT;
  }

  /** With alignment 2^63 the size sum wraps and the request is accepted as a tiny one. */
  lemma TopAlignmentPlan(size: u64, rz: nat, maxUser: u64)
    requires 1 <= size <= MAX_MALLOC && size <= maxUser
    requires 16 <= rz <= 2048
    ensures PlanRounded(size, TOP_ALIGNMENT, TOP_ALIGNMENT, rz, maxUser)
            == Accept(size, TOP_ALIGNMENT, rz, 2 * rz, false)
  {
  }

  /** No block in user space can then satisfy the CHECK at line 607. */
  lemma TopAlignmentNeverFits(p: Plan, allocBeg: nat)
    requires p.Accept? && p.alignment == TOP_ALIGNMENT && 16 <= p.rz <= 2048 && p.needed == 2 * p.rz
    requires allocBeg + p.needed <= SPACE
    ensures UserBeg(allocBeg, p) > allocBeg + p.needed
  {
    RoundUpToTop(allocBeg + p.rz);
  }

  /** A plan is rejected, or places its chunk properly in every block the allocator may hand out. */
  ghost predicate LayoutSound(p: Plan)
    requires p.Accept? ==> p.alignment > 0 && p.rz <= 2048
  {
    p.Accept? ==>
      forall allocBeg: nat :: allocBeg % 16 == 0 && allocBeg + p.needed <= SPACE ==> PlacedOk(allocBeg, p)
  }

  lemma AcceptedPlanSound(p: Plan)
    requires PlanOk(p)
    ensures LayoutSound(p)
  {
    forall allocBeg: nat | allocBeg % 16 == 0 && allocBeg + p.needed <= SPACE
      ensures PlacedOk(allocBeg, p)
    {
      PlacementOk(allocBeg, p);
    }
  }

  lemma TopAlignmentUnsound(size: u64, rz: nat, maxUser: u64)
    requires 1 <= size <= MAX_MALLOC && size <= maxUser
    requires 16 <= rz <= 2048
    ensures !LayoutSound(PlanSized(size, TOP_ALIGNMENT, rz, maxUser))
  {
    var p := PlanSized(size, TOP_ALIGNMENT, rz, maxUser);
    assert p == Accept(size, TOP_ALIGNMENT, rz, 2 * rz, false) by {
      RoundUpToTop(Max(size, HEADER2));
      TopAlignmentPlan(size, rz, maxUser);
    }
    assert !PlacedOk(0, p) by {
      TopAlignmentNeverFits(p, 0);
    }
  }

  /** `Allocate` keeps its promises on a request exactly when it rejects it or the alignment is not 2^63. */
  lemma LayoutSoundIff(size0: u64, alignment0: u64, o: Redzones, maxUser: u64)
    requires CheckRedzones(o)
    requires alignment0 < GRANULE || IsPowerOfTwo(alignment0)
    ensures LayoutSound(PlanRequest(size0, alignment0, o, maxUser))
            <==> (alignment0 != TOP_ALIGNMENT || Max(size0, 1) > MAX_MALLOC || Max(size0, 1) > maxUser)
  {
    var size := if size0 == 0 then 1 else size0;
    var p := PlanRequest(size0, alignment0, o, maxUser);
    if alignment0 != TOP_ALIGNMENT {
      AcceptedPlanOk(size0, alignment0, o, maxUser);
      if p.Accept? {
        AcceptedPlanSound(p);
      }
    } else if size <= MAX_MALLOC && size <= maxUser {
      RedzoneWithinBounds(size, o);
      TopAlignmentUnsound(size, RedzoneFor(size, o), maxUser);
    }
  }
}
