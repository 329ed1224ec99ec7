/** Bit arithmetic of the doubling-bucket log. */
module Bits {

  function Pow2(n: nat): (p: nat)
    ensures p >= 1
  { if n == 0 then 1 else 2 * Pow2(n - 1) }

  lemma {:induction false} Pow2Monotone(a: nat, b: nat)
    requires a < b
    ensures 2 * Pow2(a) <= Pow2(b)
    decreases b
  {
    if a < b - 1 { Pow2Monotone(a, b - 1); }
  }

  lemma {:induction false} Pow2Add(a: nat, b: nat)
    ensures Pow2(a + b) == Pow2(a) * Pow2(b)
  {
    if a > 0 { Pow2Add(a - 1, b); }
  }

  /** Pow2 at the widths that occur. */
  lemma Pow2Values()
    ensures Pow2(4) == 16 && Pow2(28) == 0x1000_0000 && Pow2(31) == 0x8000_0000 && Pow2(32) == 0x1_0000_0000
    ensures Pow2(63) == 0x8000_0000_0000_0000 && Pow2(64) == 0x1_0000_0000_0000_0000
  {
    assert Pow2(4) == 16;
    Pow2Add(4, 4); Pow2Add(8, 8); Pow2Add(16, 8); Pow2Add(24, 4); Pow2Add(16, 16);
    assert Pow2(3) == 8;
    Pow2Add(28, 3); Pow2Add(32, 31); Pow2Add(32, 32);
  }

  /** Position of the highest set bit: its specification. */
  ghost predicate IsHighestBit(x: nat, y: nat) { Pow2(y) <= x < Pow2(y + 1) }

  /** Comparing with a power of two is comparing the highest bit. */
  lemma HighestBitBelow(x: nat, h: nat, k: nat)
    requires IsHighestBit(x, h)
    ensures x < Pow2(k) <==> h < k
  {
    if h + 1 < k { Pow2Monotone(h + 1, k); }
    if k < h { Pow2Monotone(k, h); }
  }

  lemma HighestBitUnique(x: nat, y: nat, z: nat)
    requires IsHighestBit(x, y) && IsHighestBit(x, z)
    ensures y == z
  {
    if y < z { Pow2Monotone(y, z); }
    if z < y { Pow2Monotone(z, y); }
  }

  function Hibit(x: nat): nat { if x < 2 then 0 else 1 + Hibit(x / 2) }

  lemma {:induction false} HibitIsHighest(x: nat)
    requires x > 0
    ensures IsHighestBit(x, Hibit(x))
  {
    if x >= 2 { HibitIsHighest(x / 2); }
  }

  /** The shifting loop of highest_bit. */
  method HighestBit(x: nat) returns (y: nat)
    ensures x > 0 ==> IsHighestBit(x, y)
    ensures y == Hibit(x)
  {
    y := 0;
    var z: nat := x / 2;
    while z != 0
      invariant y + (if z == 0 then 0 else 1 + Hibit(z)) == Hibit(x)
      decreases z
    {
      y := y + 1;
      z := z / 2;
    }
    if x > 0 { HibitIsHighest(x); }
  }

  /** Bitwise exclusive or. */
  function Xor(a: nat, b: nat): nat
    decreases a + b
  {
    if a == 0 && b == 0 then 0 else 2 * Xor(a / 2, b / 2) + (a + b) % 2
  }

  lemma {:induction false} XorZero(a: nat)
    ensures Xor(a, 0) == a && Xor(0, a) == a
  {
    if a > 0 { XorZero(a / 2); }
  }

  lemma {:induction false} XorSelf(a: nat)
    ensures Xor(a, a) == 0
  {
    if a > 0 {
      XorSelf(a / 2);
      assert (a + a) % 2 == 0;
    }
  }

  /** One bit of an exclusive or. */
  lemma XorStep(a: nat, b: nat)
    requires a > 0 || b > 0
    ensures Xor(a, b) == 2 * Xor(a / 2, b / 2) + (a + b) % 2
  {
  }

  lemma HalfPower(h: nat)
    requires h > 0
    ensures Pow2(h) == 2 * Pow2(h - 1) && Pow2(h) / 2 == Pow2(h - 1) && Pow2(h) % 2 == 0
  {
  }

  /** Clearing the top bit by xor is subtracting it. */
  lemma {:induction false} XorTopBit(x: nat, h: nat)
    requires IsHighestBit(x, h)
    ensures Xor(x, Pow2(h)) == x - Pow2(h)
    decreases h
  {
    var p := Pow2(h);
    if h == 0 {
      assert x == 1 && p == 1;
      XorSelf(1);
    } else {
      HalfPower(h);
      HalfPower(h + 1);
      XorTopBit(x / 2, h - 1);
      XorStep(x, p);
      Parity(x, p);
    }
  }

  lemma Parity(x: nat, p: nat)
    requires p % 2 == 0
    ensures (x + p) % 2 == x % 2 && x == 2 * (x / 2) + x % 2
  {
  }

  function Shr(x: nat, k: nat): nat
    decreases k
  { if k == 0 then x else Shr(x / 2, k - 1) }

  /** Above bit k the xor depends only on the bits above k. */
  lemma {:induction false} XorShr(a: nat, b: nat, k: nat)
    ensures Shr(Xor(a, b), k) == Xor(Shr(a, k), Shr(b, k))
    decreases k
  {
    if k > 0 { XorShr(a / 2, b / 2, k - 1); }
  }

  lemma {:induction false} ShrZero(x: nat, k: nat)
    ensures Shr(x, k) == 0 <==> x < Pow2(k)
    decreases k
  {
    if k > 0 { ShrZero(x / 2, k - 1); }
  }

  /** When one operand alone reaches past bit k, so does the xor. */
  lemma XorReaches(a: nat, b: nat, k: nat)
    requires a < Pow2(k) <==> b >= Pow2(k)
    ensures Xor(a, b) >= Pow2(k)
  {
    ShrZero(a, k);
    ShrZero(b, k);
    XorShr(a, b, k);
    ShrZero(Xor(a, b), k);
    XorZero(Shr(a, k));
    XorZero(Shr(b, k));
  }
}

/** The doubling-bucket log: bucket b holds 2^(b+4) elements. */
module MonoLog {
  import opened Bits

  const FBS: nat := 16
  const FBS_HIBIT: nat := 4

  datatype Slot = Slot(bucket: int, off: nat)

  /** 1 << hibit as the program computes it: an int shift widened to 64 bits. */
  function Mask(h: nat): nat {
    if h < 31 then Pow2(h) else 0x1_0000_0000_0000_0000 - 0x8000_0000
  }

  /** Where element idx lives; highest_bit sees the low 32 bits only. */
  function SlotOf(idx: nat): Slot {
    var pos := idx + FBS;
    var h := Hibit(pos % 0x1_0000_0000);
    Slot(h - FBS_HIBIT, Xor(pos, Mask(h)))
  }

  function IndexOf(b: nat, o: nat): int { Pow2(b + FBS_HIBIT) + o - FBS }

  predicate InBounds(s: Slot, nbuckets: nat) {
    0 <= s.bucket < nbuckets && s.off < Pow2(s.bucket + FBS_HIBIT)
  }

  lemma SmallBit(pos: nat, h: nat)
    requires FBS <= pos < 0x8000_0000 && IsHighestBit(pos, h)
    ensures 4 <= h < 31 && Hibit(pos) == h
  {
    HibitIsHighest(pos);
    HighestBitUnique(pos, h, Hibit(pos));
    Pow2Values();
    HighestBitBelow(pos, h, 4);
    HighestBitBelow(pos, h, 31);
  }

  lemma SmallSlot(idx: nat, h: nat)
    requires idx + FBS < 0x8000_0000 && IsHighestBit(idx + FBS, h)
    ensures SlotOf(idx) == Slot(h - FBS_HIBIT, idx + FBS - Pow2(h)) && 4 <= h < 31
  {
    var pos := idx + FBS;
    SmallBit(pos, h);
    XorTopBit(pos, h);
    assert pos % 0x1_0000_0000 == pos;
    assert Mask(h) == Pow2(h);
  }

  /** Addressing is inverted by IndexOf on every index below 2^31 - 16. */
  lemma IndexOfSlot(idx: nat)
    requires idx + FBS < 0x8000_0000
    ensures var s := SlotOf(idx);
            InBounds(s, 27) && IndexOf(s.bucket, s.off) == idx
  {
    HibitIsHighest(idx + FBS);
    SmallSlot(idx, Hibit(idx + FBS));
  }

  /** And IndexOf by addressing, on every slot of the first 27 buckets. */
  lemma SlotOfIndex(b: nat, o: nat)
    requires b < 27 && o < Pow2(b + FBS_HIBIT)
    ensures 0 <= IndexOf(b, o) && IndexOf(b, o) + FBS < 0x8000_0000 && SlotOf(IndexOf(b, o)) == Slot(b, o)
  {
    Pow2Values();
    if b > 0 { Pow2Monotone(4, b + 4); }
    Pow2Monotone(b + 4, 31);
    SmallSlot(IndexOf(b, o), b + 4);
  }

  /** Element idx lies inside its bucket exactly when idx + 16 < 2^31. */
  lemma InBoundsExactly(idx: nat)
    requires idx + FBS < 0x8000_0000_0000_0000
    ensures InBounds(SlotOf(idx), 32) <==> idx + FBS < 0x8000_0000
  {
    var pos := idx + FBS;
    if pos < 0x8000_0000 {
      IndexOfSlot(idx);
    } else {
      OffsetTooHigh(pos);
    }
  }

  /** The highest bit of a 32-bit word. */
  lemma WordBit(low: nat)
    requires low < 0x1_0000_0000
    ensures Hibit(low) < 32 && (low < 0x8000_0000 <==> Hibit(low) < 31)
  {
    Pow2Values();
    if low > 0 {
      HibitIsHighest(low);
      HighestBitBelow(low, Hibit(low), 32);
      HighestBitBelow(low, Hibit(low), 31);
    }
  }

  lemma OffsetTooHigh(pos: nat)
    requires 0x8000_0000 <= pos < 0x8000_0000_0000_0000
    ensures var h := Hibit(pos % 0x1_0000_0000);
            h < 32 && Xor(pos, Mask(h)) >= Pow2(h)
  {
    var h := Hibit(pos % 0x1_0000_0000);
    WordBit(pos % 0x1_0000_0000);
    Pow2Values();
    Pow2Monotone(h, 32);
    if h < 31 {
      XorReaches(pos, Mask(h), 32);
    } else {
      XorReaches(pos, Mask(h), 63);
    }
  }

  /** Elements an entry list has room for. */
  const LIST_CAPACITY: nat := 0x1000_0000 - 16

  /** The bucket of an element, counted up from the first. */
  function Bucket(idx: nat): nat { if idx < FBS then 0 else 1 + Bucket((idx - FBS) / 2) }

  lemma {:induction false} BucketIsHighestBit(idx: nat)
    ensures IsHighestBit(idx + FBS, Bucket(idx) + FBS_HIBIT)
  {
    if idx < FBS {
      FirstBucketSize();
    } else {
      BucketIsHighestBit((idx - FBS) / 2);
    }
  }

  lemma BucketIsSlot(idx: nat)
    requires idx + FBS < 0x8000_0000
    ensures SlotOf(idx).bucket == Bucket(idx)
  {
    BucketIsHighestBit(idx);
    SmallSlot(idx, Bucket(idx) + FBS_HIBIT);
  }

  /** The 24 buckets of an entry list are enough exactly below 2^28 - 16. */
  lemma EntryListCapacity(idx: nat)
    requires idx + FBS < 0x8000_0000_0000_0000
    ensures InBounds(SlotOf(idx), 24) <==> idx < LIST_CAPACITY
  {
    Pow2Values();
    InBoundsExactly(idx);
    if idx + FBS < 0x8000_0000 {
      var h := Hibit(idx + FBS);
      HibitIsHighest(idx + FBS);
      SmallSlot(idx, h);
      IndexOfSlot(idx);
      HighestBitBelow(idx + FBS, h, 28);
    }
  }

  /** Distinct indexes never share a slot. */
  lemma SlotsApart(i: nat, j: nat)
    requires i + FBS < 0x8000_0000 && j + FBS < 0x8000_0000 && SlotOf(i) == SlotOf(j)
    ensures i == j
  {
    IndexOfSlot(i);
    IndexOfSlot(j);
  }

  lemma FirstBucketSize()
    ensures Pow2(FBS_HIBIT) == FBS
  {
    assert Pow2(3) == 8;
  }

  /** __monolog_base with lazily allocated buckets. */
  class Log {
    const buckets: array<array?<nat>>
    /** What has been set, by index. */
    ghost var written: map<nat, nat>
    ghost var repr: set<object>

    ghost predicate Valid()
      reads this, repr
    {
      && this in repr && buckets in repr
      && (forall b :: 0 <= b < buckets.Length && buckets[b] != null ==>
            buckets[b] in repr && buckets[b].Length == Pow2(b + FBS_HIBIT))
      && (forall b, c :: 0 <= b < c < buckets.Length && buckets[b] != null ==> buckets[b] != buckets[c])
      && (forall i :: i in written ==> Stored(i))
    }

    /** The cell of index i exists and holds the value last set there. */
    ghost predicate Stored(i: nat)
      requires i in written && buckets in repr
      requires forall b :: 0 <= b < buckets.Length && buckets[b] != null ==>
                 buckets[b] in repr && buckets[b].Length == Pow2(b + FBS_HIBIT)
      reads this, repr
    {
      && i + FBS < 0x8000_0000
      && var s := SlotOf(i);
      && InBounds(s, buckets.Length) && buckets[s.bucket] != null && buckets[s.bucket][s.off] == written[i]
    }

    constructor (nbuckets: nat)
      requires nbuckets >= 1
      ensures Valid() && fresh(repr) && written == map[] && buckets.Length == nbuckets
    {
      var b := new array?<nat>[nbuckets](_ => null);
      var first := new nat[FBS];
      b[0] := first;
      buckets := b;
      written := map[];
      repr := {this, b, first};
      new;
      FirstBucketSize();
    }

    /** Sets element idx, allocating its bucket if need be; no other element changes. */
    method Set(idx: nat, val: nat)
      requires Valid() && InBounds(SlotOf(idx), buckets.Length) && idx + FBS < 0x8000_0000
      modifies repr
      ensures Valid() && fresh(repr - old(repr))
      ensures written == old(written)[idx := val]
    {
      var pos := idx + FBS;
      var hibit := HighestBit(pos);
      HibitIsHighest(pos);
      SmallSlot(idx, hibit);
      XorTopBit(pos, hibit);
      var off := Xor(pos, Pow2(hibit));
      var b := hibit - FBS_HIBIT;
      if buckets[b] == null {
        TryAllocate(b);
      }
      Store(idx, b, off, val);
    }

    method Store(idx: nat, b: nat, off: nat, val: nat)
      requires Valid() && idx + FBS < 0x8000_0000 && SlotOf(idx) == Slot(b, off)
      requires b < buckets.Length && buckets[b] != null && off < buckets[b].Length
      modifies buckets[b], this`written
      ensures Valid() && written == old(written)[idx := val]
    {
      forall i | i in written && i != idx ensures SlotOf(i) != SlotOf(idx) {
        assert Stored(i);
        if SlotOf(i) == SlotOf(idx) { SlotsApart(i, idx); }
      }
      label before: buckets[b][off] := val;
      written := written[idx := val];
      forall i | i in written ensures Stored(i) {
        assert i != idx ==> old@before(i in written && Stored(i));
      }
    }

    method TryAllocate(b: nat)
      requires Valid() && b < buckets.Length && buckets[b] == null
      modifies buckets, this`repr
      ensures Valid() && fresh(repr - old(repr)) && old(repr) <= repr
      ensures buckets[b] != null && fresh(buckets[b]) && written == old(written)
      ensures forall c :: 0 <= c < buckets.Length && c != b ==> buckets[c] == old(buckets[c])
    {
      var bucket := new nat[Pow2(b + FBS_HIBIT)];
      label before: buckets[b] := bucket;
      repr := repr + {bucket};
      forall i | i in written ensures Stored(i) {
        assert old@before(Stored(i));
      }
    }

    /** Reads back the value last set. */
    method Get(idx: nat) returns (val: nat)
      requires Valid() && idx in written
      ensures val == written[idx]
    {
      assert Stored(idx);
      var pos := idx + FBS;
      var hibit := HighestBit(pos);
      HibitIsHighest(pos);
      SmallSlot(idx, hibit);
      XorTopBit(pos, hibit);
      val := buckets[hibit - FBS_HIBIT][Xor(pos, Pow2(hibit))];
    }

    ghost predicate Allocated(b: nat)
      reads this, buckets
    { b < buckets.Length && buckets[b] != null }

    /** Makes room for elements first..last; nothing already set is touched. */
    method EnsureAlloc(first: nat, last: nat)
      requires Valid() && first <= last && last + FBS < 0x8000_0000 && InBounds(SlotOf(last), buckets.Length)
      modifies buckets, this`repr
      ensures Valid() && fresh(repr - old(repr)) && old(repr) <= repr && written == old(written)
      ensures forall i: nat :: first <= i <= last ==> InBounds(SlotOf(i), 27) && Allocated(SlotOf(i).bucket)
    {
      var h1 := HighestBit(first + FBS);
      var h2 := HighestBit(last + FBS);
      SmallSlot(first, h1);
      SmallSlot(last, h2);
      BucketsOrdered(first, last);
      AllocateBuckets(h1 - FBS_HIBIT, h2 - FBS_HIBIT);
      forall i: nat | first <= i <= last ensures InBounds(SlotOf(i), 27) && Allocated(SlotOf(i).bucket) {
        IndexOfSlot(i);
        BucketsOrdered(first, i);
        BucketsOrdered(i, last);
      }
    }

    method AllocateBuckets(b1: nat, b2: nat)
      requires Valid() && b1 <= b2 < buckets.Length
      modifies buckets, this`repr
      ensures Valid() && fresh(repr - old(repr)) && old(repr) <= repr && written == old(written)
      ensures forall b: nat :: b1 <= b <= b2 ==> Allocated(b)
    {
      var b := b1;
      while b <= b2
        invariant b1 <= b <= b2 + 1
        invariant Valid() && fresh(repr - old(repr)) && old(repr) <= repr && written == old(written)
        invariant forall c: nat :: b1 <= c < b ==> Allocated(c)
      {
        label top: if buckets[b] == null {
          TryAllocate(b);
        }
        forall c: nat | b1 <= c <= b ensures Allocated(c) {
          assert c < b ==> old@top(Allocated(c));
          assert c < b ==> buckets[c] == old@top(buckets[c]);
        }
        b := b + 1;
      }
    }
  }

  lemma BucketsOrdered(i: nat, j: nat)
    requires i <= j && j + FBS < 0x8000_0000
    ensures 0 <= SlotOf(i).bucket <= SlotOf(j).bucket
  {
    var h, g := Hibit(i + FBS), Hibit(j + FBS);
    HibitIsHighest(i + FBS);
    HibitIsHighest(j + FBS);
    SmallSlot(i, h);
    SmallSlot(j, g);
    HighestBitBelow(i + FBS, h, g + 1);
  }

  lemma FitsBelow(i: nat, j: nat, nbuckets: nat)
    requires i <= j && j + FBS < 0x8000_0000 && InBounds(SlotOf(j), nbuckets)
    ensures InBounds(SlotOf(i), nbuckets)
  {
    BucketsOrdered(i, j);
    IndexOfSlot(i);
  }

  function Counting(first: nat, n: nat): (s: seq<nat>)
    ensures |s| == n && forall i :: 0 <= i < n ==> s[i] == first + i
  { seq(n, i requires 0 <= i => first + i) }

  /** m is was with first, first + 1, ... stored at n consecutive indexes from idx. */
  ghost predicate Extends(was: map<nat, nat>, m: map<nat, nat>, idx: nat, first: nat, n: nat) {
    && (forall k :: k in m <==> k in was || idx <= k < idx + n)
    && (forall k :: k in m ==> m[k] == if idx <= k < idx + n then first + (k - idx) else was[k])
  }

  lemma ExtendsMore(was: map<nat, nat>, m: map<nat, nat>, idx: nat, first: nat, n: nat)
    requires Extends(was, m, idx, first, n)
    ensures Extends(was, m[idx + n := first + n], idx, first, n + 1)
  {
  }

  ghost predicate HasPrefix(m: map<nat, nat>, n: nat) { forall i: nat :: i < n ==> i in m }

  /** The first n values of a map that has them. */
  ghost function Prefix(m: map<nat, nat>, n: nat): seq<nat>
    requires HasPrefix(m, n)
  { seq(n, i requires 0 <= i < n => m[i]) }

  lemma PrefixExtends(was: map<nat, nat>, m: map<nat, nat>, idx: nat, first: nat, n: nat)
    requires Extends(was, m, idx, first, n) && HasPrefix(was, idx)
    ensures HasPrefix(m, idx + n)
    ensures Prefix(m, idx + n) == Prefix(was, idx) + Counting(first, n)
  {
  }

  lemma PrefixPush(m: map<nat, nat>, n: nat, val: nat)
    requires HasPrefix(m, n)
    ensures HasPrefix(m[n := val], n + 1)
    ensures Prefix(m[n := val], n + 1) == Prefix(m, n) + [val]
  {
  }

  /** monolog_relaxed: a log with one tail. */
  class Relaxed {
    const log: Log
    var tail: nat

    ghost predicate Valid()
      reads this, log, log.repr
    {
      && this !in log.repr && log.Valid()
      && HasPrefix(log.written, tail)
    }

    /** The elements pushed so far, in order. */
    ghost function Contents(): (s: seq<nat>)
      requires Valid()
      reads this, log, log.repr
    { Prefix(log.written, tail) }

    constructor (nbuckets: nat)
      requires nbuckets >= 1
      ensures Valid() && Contents() == [] && fresh(log) && fresh(log.repr) && log.buckets.Length == nbuckets
    {
      log := new Log(nbuckets);
      tail := 0;
    }

    /** Appends and nothing else. */
    method PushBack(val: nat) returns (idx: nat)
      requires Valid() && tail + FBS < 0x8000_0000 && InBounds(SlotOf(tail), log.buckets.Length)
      modifies this, log.repr
      ensures Valid() && fresh(log.repr - old(log.repr))
      ensures Contents() == old(Contents()) + [val] && idx == old(tail)
    {
      idx := tail;
      PrefixPush(log.written, idx, val);
      tail := tail + 1;
      log.Set(idx, val);
    }

    /** Appends first, first + 1, ..., last; nothing when last == first - 1, as for an empty burst. */
    method PushBackRange(first: nat, last: int) returns (idx: nat)
      requires Valid() && first <= last + 1
      requires first <= last ==> tail + (last - first) + FBS < 0x8000_0000
                                 && InBounds(SlotOf(tail + (last - first)), log.buckets.Length)
      modifies this, log.repr
      ensures Valid() && fresh(log.repr - old(log.repr))
      ensures Contents() == old(Contents()) + Counting(first, last - first + 1) && idx == old(tail)
    {
      if first > last { return tail; }
      idx := PushSome(first, last - first + 1);
    }

    method PushSome(first: nat, cnt: nat) returns (idx: nat)
      requires Valid() && cnt > 0 && tail + cnt - 1 + FBS < 0x8000_0000
      requires InBounds(SlotOf(tail + cnt - 1), log.buckets.Length)
      modifies this, log.repr
      ensures Valid() && fresh(log.repr - old(log.repr))
      ensures Contents() == old(Contents()) + Counting(first, cnt) && idx == old(tail)
    {
      idx := tail;
      ghost var was := log.written;
      tail := tail + cnt;
      Fill(idx, first, cnt);
      PrefixExtends(was, log.written, idx, first, cnt);
    }

    method Fill(idx: nat, first: nat, cnt: nat)
      requires log.Valid() && this !in log.repr && cnt > 0 && idx + cnt - 1 + FBS < 0x8000_0000
      requires InBounds(SlotOf(idx + cnt - 1), log.buckets.Length)
      modifies log.repr
      ensures log.Valid() && this !in log.repr && fresh(log.repr - old(log.repr))
      ensures Extends(old(log.written), log.written, idx, first, cnt)
    {
      ghost var was := log.written;
      var i := 0;
      while i < cnt
        invariant 0 <= i <= cnt
        invariant log.Valid() && this !in log.repr && fresh(log.repr - old(log.repr))
        invariant Extends(was, log.written, idx, first, i)
      {
        FitsBelow(idx + i, idx + cnt - 1, log.buckets.Length);
        ExtendsMore(was, log.written, idx, first, i);
        log.Set(idx + i, first + i);
        i := i + 1;
      }
    }

    method At(idx: nat) returns (val: nat)
      requires Valid() && idx < tail
      ensures val == Contents()[idx]
    {
      val := log.Get(idx);
    }
  }
}
