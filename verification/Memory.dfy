/** Byte-addressed memory, little-endian words in it, and the shadow that covers it. */
module Memory {
  import opened Words

  type Byte = x: int | 0 <= x < 256
  type Mem = seq<Byte>

  // -------------------------------------------------------------------- bytes

  function Write(m: Mem, a: nat, bytes: seq<Byte>): (r: Mem)
    requires a + |bytes| <= |m|
    ensures |r| == |m|
    ensures forall i :: 0 <= i < |m| ==> r[i] == if a <= i < a + |bytes| then bytes[i - a] else m[i]
  {
    m[..a] + bytes + m[a + |bytes|..]
  }

  /** `memset`. */
  function Fill(m: Mem, lo: nat, n: nat, v: Byte): (r: Mem)
    requires lo + n <= |m|
    ensures |r| == |m|
    ensures forall i :: 0 <= i < |m| ==> r[i] == if lo <= i < lo + n then v else m[i]
  {
    seq(|m|, i requires 0 <= i < |m| => if lo <= i < lo + n then v else m[i])
  }

  function Encode(v: nat, n: nat): (bytes: seq<Byte>)
    ensures |bytes| == n
  {
    if n == 0 then [] else [v % 256] + Encode(v / 256, n - 1)
  }

  function Decode(bytes: seq<Byte>): nat {
    if bytes == [] then 0 else bytes[0] + 256 * Decode(bytes[1..])
  }

  function Load(m: Mem, a: nat, n: nat): nat
    requires a + n <= |m|
  {
    Decode(m[a..a + n])
  }

  function Store(m: Mem, a: nat, n: nat, v: nat): (r: Mem)
    requires a + n <= |m|
    ensures |r| == |m|
    ensures forall i :: 0 <= i < |m| && !(a <= i < a + n) ==> r[i] == m[i]
  {
    Write(m, a, Encode(v, n))
  }

  /** The low n bytes of v come back. */
  lemma {:induction false} DecodeEncode(v: nat, n: nat)
    requires v < Pow2(8 * n)
    ensures Decode(Encode(v, n)) == v
  {
    if n > 0 {
      Pow2Byte(n);
      DecodeEncode(v / 256, n - 1);
      assert Encode(v, n)[1..] == Encode(v / 256, n - 1);
    }
  }

  lemma Pow2Byte(n: nat)
    requires n > 0
    ensures Pow2(8 * n) == 256 * Pow2(8 * (n - 1))
  {
    var k := 8 * n;
    assert Pow2(k) == 4 * Pow2(k - 2);
    assert Pow2(k - 2) == 4 * Pow2(k - 4);
    assert Pow2(k - 4) == 4 * Pow2(k - 6);
    assert Pow2(k - 6) == 4 * Pow2(k - 8);
  }

  lemma LoadStore(m: Mem, a: nat, n: nat, v: nat)
    requires a + n <= |m| && v < Pow2(8 * n)
    ensures Load(Store(m, a, n, v), a, n) == v
  {
    assert Store(m, a, n, v)[a..a + n] == Encode(v, n);
    DecodeEncode(v, n);
  }

  lemma LoadStore2(m: Mem, a: nat, v: nat)
    requires a + 2 <= |m| && v < 0x1_0000
    ensures Load(Store(m, a, 2, v), a, 2) == v
  {
    assert Pow2(8) == 0x100;
    assert Pow2(16) == 0x1_0000;
    LoadStore(m, a, 2, v);
  }

  lemma LoadStore4(m: Mem, a: nat, v: nat)
    requires a + 4 <= |m| && v < 0x1_0000_0000
    ensures Load(Store(m, a, 4, v), a, 4) == v
  {
    assert Pow2(8) == 0x100;
    assert Pow2(16) == 0x1_0000;
    assert Pow2(24) == 0x100_0000;
    LoadStore(m, a, 4, v);
  }

  lemma LoadStore8(m: Mem, a: nat, v: nat)
    requires a + 8 <= |m| && v < WORD
    ensures Load(Store(m, a, 8, v), a, 8) == v
  {
    Pow2TopValues();
    LoadStore(m, a, 8, v);
  }

  ghost predicate SameBytes(m: Mem, m': Mem, lo: int, hi: int) {
    && |m| == |m'|
    && forall i :: 0 <= i < |m| && lo <= i < hi ==> m[i] == m'[i]
  }

  lemma LoadFrame(m: Mem, m': Mem, a: nat, n: nat)
    requires a + n <= |m| && SameBytes(m, m', a, a + n)
    ensures Load(m, a, n) == Load(m', a, n)
  {
    assert m[a..a + n] == m'[a..a + n];
  }

  /** The low byte of a word. */
  lemma LowByte(m: Mem, a: nat, n: nat)
    requires n > 0 && a + n <= |m|
    ensures Load(m, a, n) % 256 == m[a]
  {
    assert m[a..a + n][0] == m[a];
  }

  // ------------------------------------------------------------------- shadow

  /** One shadow byte per granule: byte g describes addresses 8g .. 8g+7. */
  type Shadow = seq<Byte>

  const HEAP_LEFT_REDZONE: Byte := 0xfa
  const HEAP_FREE: Byte := 0xfd

  /** A shadow byte read as signed is negative: no byte of the granule may be touched. */
  predicate Poison(v: Byte) {
    v >= 0x80
  }

  /** The check instrumented code makes before touching the byte at `a`. */
  predicate Addressable(sh: Shadow, a: nat)
    requires a < 8 * |sh|
  {
    var v := sh[a / 8];
    v == 0 || (v < 0x80 && a % 8 < v)
  }

  function SetShadow(sh: Shadow, lo: nat, hi: nat, v: Byte): (r: Shadow)
    requires hi <= 8 * |sh|
    ensures |r| == |sh|
    ensures forall g :: 0 <= g < |sh| ==> r[g] == if lo <= 8 * g < hi then v else sh[g]
  {
    seq(|sh|, g requires 0 <= g < |sh| => if lo <= 8 * g < hi then v else sh[g])
  }

  /** `PoisonShadow`: while poisoning is off only clearing takes effect. */
  function PoisonShadow(sh: Shadow, on: bool, lo: nat, hi: nat, v: Byte): (r: Shadow)
    requires hi <= 8 * |sh|
    ensures |r| == |sh|
  {
    if v != 0 && !on then sh else SetShadow(sh, lo, hi, v)
  }

  ghost predicate SameShadow(sh: Shadow, sh': Shadow, lo: int, hi: int) {
    && |sh| == |sh'|
    && forall g :: 0 <= g < |sh| && lo <= 8 * g < hi ==> sh[g] == sh'[g]
  }

  ghost predicate AllPoisoned(sh: Shadow, lo: int, hi: int) {
    forall g :: 0 <= g < |sh| && lo <= 8 * g < hi ==> Poison(sh[g])
  }

  /** The shadow byte of granule g when exactly [u, u+n) may be touched. */
  function ExactByte(g: int, u: int, n: int, v: Byte): bool {
    if u <= 8 * g && 8 * g + 8 <= u + n then v == 0
    else if u <= 8 * g < u + n then v == u + n - 8 * g
    else Poison(v)
  }

  ghost predicate ExactShadow(sh: Shadow, lo: int, hi: int, u: int, n: int) {
    forall g :: 0 <= g < |sh| && lo <= 8 * g < hi ==> ExactByte(g, u, n, sh[g])
  }

  /** Every granule that lies wholly in [u, u+n) is clear. */
  ghost predicate WholeGranulesClear(sh: Shadow, u: int, n: int) {
    forall g :: 0 <= g < |sh| && u <= 8 * g && 8 * g + 8 <= u + n ==> sh[g] == 0
  }

  /** Every granule of [lo, hi) that starts outside [u, u+n) is poisoned. */
  ghost predicate OutsidePoisoned(sh: Shadow, lo: int, hi: int, u: int, n: int) {
    forall g :: 0 <= g < |sh| && lo <= 8 * g < hi && !(u <= 8 * g < u + n) ==> Poison(sh[g])
  }

  /** An exact shadow lets through precisely the bytes of [u, u+n). */
  lemma ExactMeansAddressable(sh: Shadow, lo: nat, hi: nat, u: nat, n: nat, a: nat)
    requires ExactShadow(sh, lo, hi, u, n)
    requires lo % 8 == 0 && u % 8 == 0 && hi <= 8 * |sh|
    requires lo <= a < hi
    ensures Addressable(sh, a) <==> u <= a < u + n
  {
    var g := a / 8;
    assert lo <= 8 * g < hi;
    assert ExactByte(g, u, n, sh[g]);
  }
}
