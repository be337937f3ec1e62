/**
 A visit of `RePoisonChunk` that is interrupted between its test of the state byte and its writes of
 shadow. The machine makes a visit in one step; here is what the writes still to come do to a chunk
 that was freed, or to one that took the block over, in between.
 */
module Interrupted {
  import opened Words
  import opened Memory
  import opened Chunks
  import opened Machine
  import opened Invariant
  import opened Outcomes
  import opened Promises

  /**
   What such a visit still writes when it has seen a chunk in use at [u, u+n) of the block [b, end);
   `left` says whether the left redzone is still to come.
   */
  function LateWrites(sh: Shadow, b: nat, end: nat, u: nat, n: nat, left: bool): (r: Shadow)
    requires u <= 8 * |sh|
    ensures |r| == |sh|
  {
    if left then LiveRePoisoned(sh, b, end, u, n)
    else PartialShadow(sh, (u + n) / 8 * 8, u + n - (u + n) / 8 * 8, end, HEAP_LEFT_REDZONE)
  }

  /** The granule in which user memory ends: the one it fills in part, or the one behind it. */
  function EndGranule(u: nat, n: nat): (g: nat)
    ensures 8 * g <= u + n < 8 * g + 8 && 8 * g == (u + n) / 8 * 8
  {
    (u + n) / 8
  }

  lemma LateWritesAt(sh: Shadow, b: nat, end: nat, u: nat, n: nat, left: bool, g: nat)
    requires b <= u && u + n <= end <= 8 * |sh| && g < |sh| && b <= 8 * g < end
    ensures var e := EndGranule(u, n);
            LateWrites(sh, b, end, u, n, left)[g]
            == if g == e && u + n > 8 * e then u + n - 8 * e
               else if g >= e || (left && 8 * g < u) then HEAP_LEFT_REDZONE
               else sh[g]
  {
  }

  // -------------------------------------------------------------- the chunk was freed

  /**
   In a block whose user memory is poisoned, and whose left redzone is if they do not poison it, the
   late writes open the user bytes in the last, incomplete granule, and nothing else.
   */
  lemma LateWritesOpen(sh: Shadow, b: nat, end: nat, u: nat, n: nat, left: bool, a: nat)
    requires b <= u && u + n <= end <= 8 * |sh| && b % 8 == 0 && u % 8 == 0 && b <= a < end
    requires AllPoisoned(sh, u, u + n) && (left || AllPoisoned(sh, b, u))
    ensures Addressable(LateWrites(sh, b, end, u, n, left), a) <==> 8 * EndGranule(u, n) <= a < u + n
  {
    var g := a / 8;
    LateWritesAt(sh, b, end, u, n, left, g);
  }

  /** After the late writes exactly the user bytes of the last, incomplete granule are addressable. */
  ghost predicate OpensLastGranule(sh: Shadow, b: nat, end: nat, u: nat, n: nat, left: bool)
    requires u <= 8 * |sh| && end <= 8 * |sh|
  {
    var opens :=
      forall a: nat :: b <= a < end ==> (Addressable(LateWrites(sh, b, end, u, n, left), a) <==> u + n / 8 * 8 <= a < u + n);
    opens
  }

  lemma LateWritesAfterFree(sh: Shadow, sh2: Shadow, v: Byte, b: nat, end: nat, u: nat, n: nat, left: bool)
    requires b <= u && u + n <= end <= 8 * |sh| && b % 8 == 0 && u % 8 == 0 && u + RoundUp8(n) <= 8 * |sh|
    requires sh2 == PoisonShadow(sh, true, u, u + RoundUp8(n), v) && Poison(v) && (left || AllPoisoned(sh, b, u))
    ensures OpensLastGranule(sh2, b, end, u, n, left)
  {
    assert 8 * EndGranule(u, n) == u + n / 8 * 8;
    forall a: nat | b <= a < end
      ensures Addressable(LateWrites(sh2, b, end, u, n, left), a) <==> u + n / 8 * 8 <= a < u + n
    {
      LateWritesOpen(sh2, b, end, u, n, left, a);
    }
  }

  lemma PlaceOf(s: State, b: nat)
    requires Inv(s) && b in s.blocks && s.abs[b].ALive?
    ensures b % 8 == 0 && s.abs[b].ch.user % 8 == 0 && b <= s.abs[b].ch.user
    ensures s.abs[b].ch.user + s.abs[b].ch.size <= b + s.blocks[b].size <= |s.mem| == 8 * |s.shadow|
  {
    HeaderBlock(s, b);
    assert BlockShape(s, b);
    SixteenfoldIsEightfold(b);
    RemIsMod(s.abs[b].ch.user, 8);
  }

  lemma FreedLateWrites(s: State, s2: State, t: nat, b: nat, stack: nat, keep: bool, end: nat, u: nat, n: nat, left: bool)
    requires b in s.blocks && b in s.abs && s.abs[b].ALive? && 0 <= Hdr(s.abs[b].ch) < |s.mem| && s.on
    requires FreeEnds(s, s2, t, b, stack, keep) && t !in s.threads && (keep || s.blocks[b].primary)
    requires u == s.abs[b].ch.user && n == s.abs[b].ch.size
    requires b <= u && u + n <= end <= 8 * |s.shadow| && b % 8 == 0 && u % 8 == 0
    requires left || AllPoisoned(s.shadow, b, u)
    ensures |s2.shadow| == |s.shadow| && OpensLastGranule(s2.shadow, b, end, u, n, left)
  {
    var v := FreedShadow(s, s2, t, b, stack, keep);
    LateWritesAfterFree(s.shadow, s2.shadow, v, b, end, u, n, left);
  }

  /**
   A live chunk is freed between the test and the writes of the visit that saw it in use. Of its block,
   quarantined or free again, the user bytes in the last, incomplete granule are addressable afterwards,
   and no others: there are such bytes unless the size is a multiple of 8.
   */
  lemma FreedInVisit(s: State, s2: State, t: nat, b: nat, end: nat, ch: Chunk, stack: nat, keep: bool, left: bool)
    requires Inv(s) && s.on && t !in s.threads && b in s.blocks && s.abs[b] == ALive(ch) && end == b + s.blocks[b].size
    requires FreedAs(s, s2, t, b, stack, keep) && (keep || s.blocks[b].primary) && (left || AllPoisoned(s.shadow, b, ch.user))
    ensures ch.user <= end <= 8 * |s2.shadow| && OpensLastGranule(s2.shadow, b, end, ch.user, ch.size, left)
  {
    PlaceOf(s, b);
    FreedLateWrites(s, s2, t, b, stack, keep, end, ch.user, ch.size, left);
  }

  // ---------------------------------------------------------- the block was reused

  /** The late writes say nothing wrong about the chunk at [u', u'+n'): an end inside a granule must be the same. */
  predicate Agrees(u: nat, n: nat, u': nat, n': nat, left: bool) {
    && (left ==> u <= u')
    && (if n % 8 == 0 then u' + n' <= u + n else u' + n' == u + n)
  }

  lemma AgreesExact(sh: Shadow, b: nat, end: nat, u: nat, n: nat, left: bool, u': nat, n': nat)
    requires b <= u && 0 < n && u + n <= end <= 8 * |sh| && u % 8 == 0 && u' % 8 == 0 && b <= u' && u' + n' <= end
    requires ExactShadow(sh, b, end, u', n') && Agrees(u, n, u', n', left) && 0 < n'
    ensures ExactShadow(LateWrites(sh, b, end, u, n, left), b, end, u', n')
  {
    var sh' := LateWrites(sh, b, end, u, n, left);
    forall g | 0 <= g < |sh'| && b <= 8 * g < end
      ensures ExactByte(g, u', n', sh'[g])
    {
      LateWritesAt(sh, b, end, u, n, left, g);
      assert ExactByte(g, u', n', sh[g]);
    }
  }

  lemma DisagreesAt(sh: Shadow, b: nat, end: nat, u: nat, n: nat, left: bool, u': nat, n': nat) returns (g: nat)
    requires b <= u && 0 < n && u + n <= end <= 8 * |sh| && u % 8 == 0 && u' % 8 == 0 && b <= u' && u' + n' <= end
    requires !Agrees(u, n, u', n', left) && 0 < n'
    ensures g < |sh| && b <= 8 * g < end && !ExactByte(g, u', n', LateWrites(sh, b, end, u, n, left)[g])
  {
    var e := EndGranule(u, n);
    g := if (left && u' < u) || u' >= u + n then u' / 8 else e;
    LateWritesAt(sh, b, end, u, n, left, g);
  }

  /**
   A block is reused between the test and the writes of the visit that saw the old chunk in use at
   [u, u+n). A new chunk at [u', u'+n') whose shadow was exact stays exact if and only if it starts no
   earlier, as far as the left redzone is still to come, and ends where the old one did; it may end
   earlier if the old one filled its last granule.
   */
  lemma ReusedInVisitIff(sh: Shadow, b: nat, end: nat, u: nat, n: nat, left: bool, u': nat, n': nat)
    requires b <= u && 0 < n && u + n <= end <= 8 * |sh| && u % 8 == 0 && u' % 8 == 0 && b <= u' && u' + n' <= end && 0 < n'
    requires ExactShadow(sh, b, end, u', n')
    ensures ExactShadow(LateWrites(sh, b, end, u, n, left), b, end, u', n') <==> Agrees(u, n, u', n', left)
  {
    if Agrees(u, n, u', n', left) {
      AgreesExact(sh, b, end, u, n, left, u', n');
    } else {
      var g := DisagreesAt(sh, b, end, u, n, left, u', n');
    }
  }

  /** A visit that saw no chunk in use still poisons the whole block: a chunk made live in between is lost. */
  lemma LateWholeSpoils(sh: Shadow, b: nat, end: nat, u: nat, n: nat)
    requires b <= u && 0 < n && u + n <= end <= 8 * |sh| && u % 8 == 0
    ensures var sh' := SetShadow(sh, b, end, HEAP_LEFT_REDZONE); !ExactShadow(sh', b, end, u, n) && !Addressable(sh', u)
  {
    var sh' := SetShadow(sh, b, end, HEAP_LEFT_REDZONE);
    assert 8 * (u / 8) == u && !ExactByte(u / 8, u, n, sh'[u / 8]);
  }
}
