/** The address ranges that prefix notation compiles to, on the bits of 32-bit words. */
module Addresses {
  import opened Bits
  import opened Packets

  /** Entry n has its n highest bits set. */
  const IP_PREFIX_MASK: seq<nat> := [
    0x00000000,
    0x80000000, 0xC0000000, 0xE0000000, 0xF0000000, 0xF8000000, 0xFC000000, 0xFE000000, 0xFF000000,
    0xFF800000, 0xFFC00000, 0xFFE00000, 0xFFF00000, 0xFFF80000, 0xFFFC0000, 0xFFFE0000, 0xFFFF0000,
    0xFFFF8000, 0xFFFFC000, 0xFFFFE000, 0xFFFFF000, 0xFFFFF800, 0xFFFFFC00, 0xFFFFFE00, 0xFFFFFF00,
    0xFFFFFF80, 0xFFFFFFC0, 0xFFFFFFE0, 0xFFFFFFF0, 0xFFFFFFF8, 0xFFFFFFFC, 0xFFFFFFFE, 0xFFFFFFFF]

  type Word = x: nat | x < 0x1_0000_0000
  type Prefix = n: nat | n <= 32

  // ----- bits -----

  function BitAnd(a: nat, b: nat): nat
    decreases a
  { if a == 0 then 0 else (if a % 2 == 1 && b % 2 == 1 then 1 else 0) + 2 * BitAnd(a / 2, b / 2) }

  function BitOr(a: nat, b: nat): nat
    decreases a + b
  { if a + b == 0 then 0 else (if a % 2 == 1 || b % 2 == 1 then 1 else 0) + 2 * BitOr(a / 2, b / 2) }

  function Flip(a: Word): Word { 0xFFFF_FFFF - a }

  /** The word without its k lowest bits. */
  function High(a: nat, k: nat): nat { if k == 0 then a else High(a / 2, k - 1) }

  predicate Bit(a: nat, k: nat) { High(a, k) % 2 == 1 }

  /** The k lowest bits cleared, and set. */
  function Cleared(a: nat, k: nat): nat { if k == 0 then a else 2 * Cleared(a / 2, k - 1) }
  function Filled(a: nat, k: nat): nat { if k == 0 then a else 2 * Filled(a / 2, k - 1) + 1 }

  /** Between them lie exactly the numbers that differ in their k lowest bits only. */
  lemma {:induction false} BlockExactly(a: nat, b: nat, k: nat)
    ensures Cleared(a, k) <= a <= Filled(a, k)
    ensures Cleared(a, k) <= b <= Filled(a, k) <==> High(b, k) == High(a, k)
  {
    if k > 0 { BlockExactly(a / 2, b / 2, k - 1); }
  }

  lemma {:induction false} FilledWord(a: nat, k: nat, n: nat)
    requires a < Pow2(n) && k <= n
    ensures Filled(a, k) < Pow2(n)
  {
    if k > 0 { FilledWord(a / 2, k - 1, n - 1); }
  }

  lemma {:induction false} AndOnes(a: nat, n: nat)
    requires a < Pow2(n)
    ensures BitAnd(a, Pow2(n) - 1) == a
  {
    if n > 0 { AndOnes(a / 2, n - 1); }
  }

  /** A mask of high bits clears the low ones. */
  lemma {:induction false} AndHigh(a: nat, n: nat, k: nat)
    requires a < Pow2(n) && k <= n
    ensures Pow2(k) <= Pow2(n) && BitAnd(a, Pow2(n) - Pow2(k)) == Cleared(a, k)
    decreases k
  {
    if k == 0 {
      AndOnes(a, n);
    } else {
      AndHigh(a / 2, n - 1, k - 1);
      if a == 0 { ClearedZero(k); }
    }
  }

  lemma {:induction false} ClearedZero(k: nat)
    ensures Cleared(0, k) == 0
  {
    if k > 0 { ClearedZero(k - 1); }
  }

  lemma {:induction false} OrZero(a: nat)
    ensures BitOr(a, 0) == a
  {
    if a > 0 { OrZero(a / 2); }
  }

  /** A mask of low bits sets them. */
  lemma {:induction false} OrLow(a: nat, k: nat)
    ensures BitOr(a, Pow2(k) - 1) == Filled(a, k)
  {
    if k == 0 { OrZero(a); } else { OrLow(a / 2, k - 1); }
  }

  lemma {:induction false} MaskIs(n: Prefix)
    ensures IP_PREFIX_MASK[n] + Pow2(32 - n) == 0x1_0000_0000
    decreases 32 - n
  {
    if n < 32 {
      MaskIs(n + 1);
      assert IP_PREFIX_MASK[n] + 0x1_0000_0000 == 2 * IP_PREFIX_MASK[n + 1];
    }
  }

  // ----- ip_range -----

  /** The second mask is that of 32 minus the prefix. */
  function IpRange(ip: Word, prefix: Prefix): Range {
    Range(BitAnd(ip, IP_PREFIX_MASK[prefix]), BitOr(ip, Flip(IP_PREFIX_MASK[32 - prefix])))
  }

  lemma LowerEnd(ip: Word, k: Prefix, mask: Word)
    requires mask + Pow2(k) == 0x1_0000_0000
    ensures BitAnd(ip, mask) == Cleared(ip, k)
  {
    Pow2Values();
    AndHigh(ip, 32, k);
  }

  lemma UpperEnd(ip: Word, k: Prefix, mask: Word)
    requires mask + Pow2(k) == 0x1_0000_0000
    ensures BitOr(ip, Flip(mask)) == Filled(ip, k)
  {
    OrLow(ip, k);
  }

  lemma IpRangeIs(ip: Word, prefix: Prefix)
    ensures IpRange(ip, prefix) == Range(Cleared(ip, 32 - prefix), Filled(ip, prefix))
  {
    var low: Prefix := 32 - prefix;
    MaskIs(prefix);
    MaskIs(low);
    LowerEnd(ip, low, IP_PREFIX_MASK[prefix]);
    UpperEnd(ip, prefix, IP_PREFIX_MASK[low]);
  }

  /** The addresses whose first bits, as many as the prefix says, are those of ip. */
  predicate InNetwork(a: Word, ip: Word, prefix: Prefix) { High(a, 32 - prefix) == High(ip, 32 - prefix) }

  ghost predicate HoldsNetwork(ip: Word, prefix: Prefix) {
    forall a: Word :: IpRange(ip, prefix).Contains(a) <==> InNetwork(a, ip, prefix)
  }

  /** All bits of ip from one position up to another are set. */
  predicate OnesBetween(ip: Word, from: nat, to: nat) { forall k :: from <= k < to ==> Bit(ip, k) }

  lemma {:induction false} FilledMore(a: nat, k: nat)
    ensures Filled(a, k) <= Filled(a, k + 1) && (Filled(a, k) == Filled(a, k + 1) <==> Bit(a, k))
  {
    if k > 0 { FilledMore(a / 2, k - 1); }
  }

  lemma {:induction false} FilledEqual(a: Word, j: nat, k: nat)
    requires j <= k
    ensures Filled(a, j) <= Filled(a, k) && (Filled(a, j) == Filled(a, k) <==> OnesBetween(a, j, k))
    decreases k
  {
    if j < k {
      FilledEqual(a, j, k - 1);
      FilledMore(a, k - 1);
      if OnesBetween(a, j, k) { assert OnesBetween(a, j, k - 1); }
    }
  }

  /** The range of a prefix is its network if and only if the bits of the address between
      the prefix and 32 minus the prefix are all set: always for /16, and for /24 only if
      the second and third number are 255. A longer prefix holds at least its network, a
      shorter one at most. */
  lemma NetworkExactly(ip: Word, prefix: Prefix)
    ensures HoldsNetwork(ip, prefix) <==>
            if prefix >= 16 then OnesBetween(ip, 32 - prefix, prefix) else OnesBetween(ip, prefix, 32 - prefix)
    ensures prefix >= 16 ==> forall a: Word :: InNetwork(a, ip, prefix) ==> IpRange(ip, prefix).Contains(a)
    ensures prefix <= 16 ==> forall a: Word :: IpRange(ip, prefix).Contains(a) ==> InNetwork(a, ip, prefix)
  {
    var k := 32 - prefix;
    IpRangeIs(ip, prefix);
    forall a: Word ensures Cleared(ip, k) <= a <= Filled(ip, k) <==> InNetwork(a, ip, prefix) { BlockExactly(ip, a, k); }
    if prefix >= 16 { FilledEqual(ip, k, prefix); } else { FilledEqual(ip, prefix, k); }
    if Filled(ip, k) != Filled(ip, prefix) { NotNetwork(ip, prefix); }
  }

  /** The larger of the two upper ends tells the range from the network. */
  lemma NotNetwork(ip: Word, prefix: Prefix)
    requires Filled(ip, 32 - prefix) != Filled(ip, prefix)
    ensures !HoldsNetwork(ip, prefix)
  {
    var k := 32 - prefix;
    IpRangeIs(ip, prefix);
    Pow2Values();
    FilledWord(ip, k, 32);
    FilledWord(ip, prefix, 32);
    BlockExactly(ip, ip, k);
    BlockExactly(ip, ip, prefix);
    var a: Word := if Filled(ip, k) < Filled(ip, prefix) then Filled(ip, prefix) else Filled(ip, k);
    BlockExactly(ip, a, k);
    assert IpRange(ip, prefix).Contains(a) <==> !InNetwork(a, ip, prefix);
  }

  lemma TwoMore(a: nat, k: nat)
    ensures Filled(a, k + 2) == 4 * Filled(a / 4, k) + 3 && Cleared(a, k + 2) == 4 * Cleared(a / 4, k)
  {
    assert Filled(a / 2, k + 1) == 2 * Filled(a / 2 / 2, k) + 1 && Cleared(a / 2, k + 1) == 2 * Cleared(a / 2 / 2, k);
  }

  lemma ByteMore(a: nat, k: nat)
    ensures Filled(a, k + 8) == 256 * Filled(a / 256, k) + 255 && Cleared(a, k + 8) == 256 * Cleared(a / 256, k)
  {
    TwoMore(a, k + 6);
    TwoMore(a / 4, k + 4);
    TwoMore(a / 4 / 4, k + 2);
    TwoMore(a / 4 / 4 / 4, k);
    assert a / 4 / 4 / 4 / 4 == a / 256;
  }

  /** a.b.c.d/24 holds what shares the number a only, and a.b.c.d/8 what shares a, b and c. */
  lemma ByteNetworks(ip: Word, prefix: Prefix)
    ensures prefix == 24 ==> IpRange(ip, prefix) == Range(ip / 0x100 * 0x100, ip / 0x100_0000 * 0x100_0000 + 0xFF_FFFF)
    ensures prefix == 16 ==> IpRange(ip, prefix) == Range(ip / 0x1_0000 * 0x1_0000, ip / 0x1_0000 * 0x1_0000 + 0xFFFF)
    ensures prefix == 8 ==> IpRange(ip, prefix) == Range(ip / 0x100_0000 * 0x100_0000, ip / 0x100 * 0x100 + 0xFF)
  {
    IpRangeIs(ip, prefix);
    if prefix == 24 || prefix == 8 { OneByte(ip, 8); ThreeBytes(ip, 24); }
    if prefix == 16 { TwoBytes(ip, 16); }
  }

  lemma OneByte(a: nat, k: nat)
    requires k == 8
    ensures Filled(a, k) == a / 0x100 * 0x100 + 0xFF && Cleared(a, k) == a / 0x100 * 0x100
  {
    ByteMore(a, k - 8);
  }

  lemma TwoBytes(a: nat, k: nat)
    requires k == 16
    ensures Filled(a, k) == a / 0x1_0000 * 0x1_0000 + 0xFFFF && Cleared(a, k) == a / 0x1_0000 * 0x1_0000
  {
    ByteMore(a, k - 8);
    OneByte(a / 256, k - 8);
    assert a / 256 / 256 == a / 0x1_0000;
  }

  lemma ThreeBytes(a: nat, k: nat)
    requires k == 24
    ensures Filled(a, k) == a / 0x100_0000 * 0x100_0000 + 0xFF_FFFF && Cleared(a, k) == a / 0x100_0000 * 0x100_0000
  {
    ByteMore(a, k - 8);
    TwoBytes(a / 256, k - 8);
    assert a / 256 / 0x1_0000 == a / 0x100_0000;
  }
}
