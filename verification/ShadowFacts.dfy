/** What the shadow says in reachable states: exactness, re-activation, and poisoning switched off. */
module ShadowFacts {
  import opened Words
  import opened Layout
  import opened Memory
  import opened Chunks
  import opened Machine
  import opened Invariant
  import Allocating

  ghost predicate UserByte(ch: Chunk, a: int) {
    ch.user <= a < ch.user + ch.size
  }

  /** The block is at rest: no thread is inside an operation on it. */
  ghost predicate AtRest(s: State, b: nat) {
    b in s.blocks && b in s.abs && !s.abs[b].ABusy?
  }

  lemma PoisonedIsOff(sh: Shadow, lo: nat, hi: nat, a: nat)
    requires AllPoisoned(sh, lo, hi) && lo % 8 == 0 && lo <= a < hi <= 8 * |sh|
    ensures !Addressable(sh, a)
  {
    var g := a / 8;
    assert lo <= 8 * g < hi;
  }

  /**
   Exactness. With poisoning on, and once a re-activation has come past the block, a byte of a block
   at rest is addressable exactly when it is a user byte of an allocated chunk, unless a
   re-activation lost the chunk.
   */
  lemma ShadowIsExact(s: State, b: nat, a: nat)
    requires Inv(s) && OnFor(s, b) && AtRest(s, b) && !s.abs[b].AFree?
    requires s.abs[b].ALive? ==> s.abs[b].ch.id !in s.lost
    requires b <= a < b + s.blocks[b].size
    ensures Addressable(s.shadow, a) <==> s.abs[b].ALive? && UserByte(s.abs[b].ch, a)
  {
    HeaderBlock(s, b);
    SixteenfoldIsEightfold(b);
    RestingExact(s, b, a);
  }

  lemma RestingExact(s: State, b: nat, a: nat)
    requires OnFor(s, b) && AtRest(s, b) && !s.abs[b].AFree? && BlockShape(s, b) && BlockOk(s, b) && |s.mem| == 8 * |s.shadow|
    requires s.abs[b].ALive? ==> s.abs[b].ch.id !in s.lost
    requires b % 8 == 0 && b <= a < b + s.blocks[b].size
    ensures Addressable(s.shadow, a) <==> s.abs[b].ALive? && UserByte(s.abs[b].ch, a)
  {
    var size := s.blocks[b].size;
    if s.abs[b].ALive? {
      RemIsMod(s.abs[b].ch.user, 8);
      ExactMeansAddressable(s.shadow, b, b + size, s.abs[b].ch.user, s.abs[b].ch.size, a);
    } else {
      PoisonedIsOff(s.shadow, b, b + size, a);
    }
  }

  /** The test of the first shadow byte at line 617 is sound: if it is set, the free block is poisoned. */
  lemma FirstByteTestSound(s: State, b: nat, a: nat)
    requires Inv(s) && OnFor(s, b) && b in s.blocks && s.abs[b].AFree?
    requires s.shadow[b / 8] != 0
    requires b <= a < b + s.blocks[b].size
    ensures !Addressable(s.shadow, a)
  {
    assert BlockOk(s, b);
    SixteenfoldIsEightfold(b);
    assert 8 * (b / 8) == b;
    PoisonedIsOff(s.shadow, b, b + s.blocks[b].size, a);
  }

  /**
   Which requests give a chunk that cannot be found: in a page-aligned secondary block exactly
   those with the smallest redzone and an alignment of at most 16.
   */
  lemma UnfindableIff(b: nat, p: Plan)
    requires PlanOk(p) && IsPowerOfTwo(p.alignment) && b % PAGE == 0 && b + p.needed <= SPACE
    ensures UserBeg(b, p) - HEADER == b <==> p.rz == 16 && p.alignment <= 16
  {
    assert b % 16 == 0;
    PlacementOk(b, p);
    if p.rz == 16 && p.alignment <= 16 {
      RemIsMod(b + 16, p.alignment);
    } else if p.rz == 16 && UserBeg(b, p) == b + 16 {
      PowerAbove16(p.alignment);
      MultipleOf32(b + 16, p.alignment);
    }
  }

  /**
   An instance: 200000 bytes, default alignment, requested while deactivated (both redzone limits
   are 16). The block comes from the secondary allocator and its chunk cannot be found, so
   re-activation poisons it while it is in use.
   */
  lemma LostWhileDeactivated(b: nat, maxUser: u64)
    requires maxUser >= 200000
    requires b % PAGE == 0 && b + 300000 <= SPACE
    ensures (SmallestOptionsOk();
             var p := PlanRequest(200000, 8, Redzones(16, 16), maxUser);
             p.Accept? && !p.fromPrimary && UserBeg(b, p) - HEADER == b)
  {
    SmallestOptionsOk();
    var o := Redzones(16, 16);
    RedzoneWithinBounds(200000, o);
    RemIsMod(200007, 8);
    var p := PlanRequest(200000, 8, o, maxUser);
    assert p == Accept(200000, 8, 16, 200032, false);
    AcceptedPlanOk(200000, 8, o, maxUser);
    UnfindableIff(b, p);
  }

  lemma SmallestOptionsOk()
    ensures CheckRedzones(Redzones(16, 16)) && IsPowerOfTwo(8)
  {
    assert Pow2(3) == 8 && Pow2(4) == 16;
  }

  // ------------------------------------------------------------- poisoning off

  /** The shadow byte that covers the last, incomplete granule of [u, u+n). */
  function LastByte(sh: Shadow, u: nat, n: nat): Byte
    requires u + n <= 8 * |sh| && n % 8 != 0
  {
    sh[(u + n / 8 * 8) / 8]
  }

  /** The condition under which switching poisoning off does no harm to a new chunk. */
  predicate LastGranuleHarmless(sh: Shadow, u: nat, n: nat)
    requires u + n <= 8 * |sh|
  {
    n % 8 == 0 || LastByte(sh, u, n) == 0 || (LastByte(sh, u, n) < 0x80 && n % 8 <= LastByte(sh, u, n))
  }

  /**
   Poisoning off: `Allocate` returns a chunk all of whose bytes are addressable if and only if
   the size is a multiple of 8 or the shadow byte of the last granule already allowed its bytes.
   */
  lemma OffModeAddressableIff(sh: Shadow, b: nat, size: nat, u: nat, n: nat, guess: bool)
    requires b < u && 1 <= n && u + n <= b + size <= 8 * |sh| && u % 8 == 0
    ensures (forall a :: u <= a < u + n ==> Addressable(AllocShadow(sh, false, b, size, u, n, guess), a))
            <==> LastGranuleHarmless(sh, u, n)
  {
    var sh' := AllocShadow(sh, false, b, size, u, n, guess);
    var g := (u + n / 8 * 8) / 8;
    assert 8 * g == u + n / 8 * 8;
    if LastGranuleHarmless(sh, u, n) {
      forall a | u <= a < u + n
        ensures Addressable(sh', a)
      {
        if a < 8 * g {
          assert u <= 8 * (a / 8) && 8 * (a / 8) + 8 <= u + n;
        } else {
          assert a / 8 == g;
        }
      }
    } else {
      var a := u + n - 1;
      assert a / 8 == g && a % 8 == n % 8 - 1;
      assert !Addressable(sh', a);
    }
  }

  /** An instance: five bytes in a freshly mapped, poisoned block. */
  lemma OffModeFails(sh: Shadow, b: nat, size: nat)
    requires b % 8 == 0 && 32 <= size && b + size <= 8 * |sh| && AllPoisoned(sh, b, b + size)
    ensures !LastGranuleHarmless(sh, b + 16, 5)
  {
    var g := (b + 16) / 8;
    assert 8 * g == b + 16;
    assert Poison(sh[g]);
  }

  // --------------------------------------------------------- secondary coverage

  /** The mapping's own page stays poisoned. */
  lemma LeadPoisoned(sh: Shadow, mapBeg: nat, size: nat, needed: nat, u: nat, n: nat, g: int)
    requires u % 8 == 0 && mapBeg + PAGE < u && u + n <= mapBeg + PAGE + size <= 8 * |sh|
    requires 0 <= g < |sh| && mapBeg <= 8 * g < mapBeg + PAGE
    ensures var sh1 := OnMapSecondary(sh, true, mapBeg, PAGE + size, mapBeg + PAGE, needed);
            Poison(AllocShadow(sh1, true, mapBeg + PAGE, size, u, n, false)[g])
  {
    var sh1 := OnMapSecondary(sh, true, mapBeg, PAGE + size, mapBeg + PAGE, needed);
    Allocating.AllocShadowLocal(sh1, true, mapBeg + PAGE, size, u, n, false, g);
    assert Poison(sh1[g]);
  }

  /** After `OnMapSecondary` and `Allocate` the whole mapping is exact, its own page included. */
  lemma SecondaryCoverage(sh: Shadow, mapBeg: nat, size: nat, needed: nat, u: nat, n: nat)
    requires mapBeg % 8 == 0 && u % 8 == 0
    requires mapBeg + PAGE < u && u + n <= mapBeg + PAGE + size <= 8 * |sh|
    ensures var b := mapBeg + PAGE;
            ExactShadow(AllocShadow(OnMapSecondary(sh, true, mapBeg, PAGE + size, b, needed), true, b, size, u, n, false),
                        mapBeg, b + size, u, n)
  {
    var b := mapBeg + PAGE;
    var sh1 := OnMapSecondary(sh, true, mapBeg, PAGE + size, b, needed);
    var sh2 := AllocShadow(sh1, true, b, size, u, n, false);
    Allocating.AllocShadowExact(sh1, b, size, u, n, false);
    forall g | 0 <= g < |sh| && mapBeg <= 8 * g < b + size
      ensures ExactByte(g, u, n, sh2[g])
    {
      if 8 * g < b {
        LeadPoisoned(sh, mapBeg, size, needed, u, n, g);
      }
    }
  }

  // ----------------------------------------------------------------- which byte

  /** Mapping memory poisons it as a redzone, if poisoning is on. */
  lemma MappedByte(s: State, p: nat, size: nat, g: nat)
    requires p + size <= |s.mem| == 8 * |s.shadow| && g < |s.shadow|
    ensures Mapped(s, p, size).shadow[g] == if s.on && p <= 8 * g < p + size then 0xfa else s.shadow[g]
  {
  }

  /** A fresh secondary mapping: redzone up to the block's start and from the last granule of the request on. */
  lemma SecondaryByte(sh: Shadow, on: bool, p: nat, size: nat, userBegin: nat, userSize: nat, g: nat)
    requires p % 8 == 0 && p + size <= 8 * |sh| && p <= userBegin && userBegin + userSize <= p + size && g < |sh|
    ensures OnMapSecondary(sh, on, p, size, userBegin, userSize)[g]
            == if on && p <= 8 * g < p + size && (8 * g < userBegin || userBegin + userSize < 8 * g + 8) then 0xfa else sh[g]
  {
    var end := (userBegin + userSize) / 8;
    assert 8 * end <= userBegin + userSize < 8 * end + 8;
  }

  /** A visit of the loop: redzones around a chunk in use, in place of the whole block otherwise; nothing elsewhere. */
  lemma VisitedByte(m: Mem, sh: Shadow, b: nat, bk: Block, g: nat)
    requires b + LARGE_HEADER <= b + bk.size <= |m| == 8 * |sh| && g < |sh|
    ensures ChunkInUse(m, b, bk).None? ==>
              RePoisonChunk(m, sh, b, bk)[g] == if b <= 8 * g < b + bk.size then 0xfa else sh[g]
    ensures ChunkInUse(m, b, bk).Some? ==>
              var u := ChunkInUse(m, b, bk).value + HEADER;
              var end := u + UsedSize(m, u - HEADER);
              RePoisonChunk(m, sh, b, bk)[g]
              == if b + bk.size <= 8 * g then sh[g]
                 else if end <= 8 * g then 0xfa
                 else if end < 8 * g + 8 then end - 8 * g
                 else if b <= 8 * g < u then 0xfa
                 else sh[g]
  {
    if ChunkInUse(m, b, bk).Some? {
      var u := ChunkInUse(m, b, bk).value + HEADER;
      UsedByte(sh, b, b + bk.size, u, UsedSize(m, ChunkInUse(m, b, bk).value), g);
    }
  }

  lemma UsedByte(sh: Shadow, b: nat, end: nat, u: nat, n: nat, g: nat)
    requires b <= u && u + n <= end <= 8 * |sh| && g < |sh|
    ensures LiveRePoisoned(sh, b, end, u, n)[g]
            == if end <= 8 * g then sh[g]
               else if u + n <= 8 * g then 0xfa
               else if u + n < 8 * g + 8 then u + n - 8 * g
               else if b <= 8 * g < u then 0xfa
               else sh[g]
  {
    var e := (u + n) / 8;
    assert 8 * e <= u + n < 8 * e + 8;
  }
}
