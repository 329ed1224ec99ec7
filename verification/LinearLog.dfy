/** The fixed-block byte log whose blocks carry a spill buffer. */
module LinearLog {
  import opened Packets
  import opened PublishProtocol
  import opened PublishInvariant

  type Cells = map<(nat, nat), Byte>

  /** Cells after the first n bytes of data have been copied to offset o. */
  ghost function Put(cells: Cells, o: nat, data: seq<Byte>, n: nat): Cells
    requires n <= |data|
  {
    if n == 0 then cells else Put(cells, o, data, n - 1)[Address(o, n - 1) := data[n - 1]]
  }

  /** What a reader of n bytes at offset o finds. */
  ghost predicate ReadsAs(cells: Cells, o: nat, data: seq<Byte>) {
    forall k :: 0 <= k < |data| ==> Address(o, k) in cells && cells[Address(o, k)] == data[k]
  }

  lemma {:induction false} PutHolds(cells: Cells, o: nat, data: seq<Byte>, n: nat)
    requires n <= |data|
    ensures ReadsAs(Put(cells, o, data, n), o, data[..n])
    decreases n
  {
    if n > 0 { PutHolds(cells, o, data, n - 1); }
  }

  ghost predicate Disjoint(o: nat, n: nat, o': nat, n': nat) { o + n <= o' || o' + n' <= o }

  lemma AddressesApart(o: nat, k: nat, o': nat, k': nat)
    ensures o + k != o' + k' ==> Address(o, k) != Address(o', k')
  {
    if Address(o, k) == Address(o', k') { AddressInjective(o, k, o', k'); }
  }

  /** A copy leaves every logically disjoint record as it was, straddling blocks or not. */
  lemma {:induction false} PutKeeps(cells: Cells, o: nat, data: seq<Byte>, n: nat, o': nat, kept: seq<Byte>)
    requires n <= |data| && Disjoint(o, |data|, o', |kept|) && ReadsAs(cells, o', kept)
    ensures ReadsAs(Put(cells, o, data, n), o', kept)
    decreases n
  {
    if n > 0 {
      PutKeeps(cells, o, data, n - 1, o', kept);
      forall k | 0 <= k < |kept| ensures Address(o', k) != Address(o, n - 1) {
        AddressesApart(o', k, o, n - 1);
      }
    }
  }

  datatype Copy = Copy(offset: nat, data: seq<Byte>)

  ghost function Replay(ws: seq<Copy>): Cells {
    if ws == [] then map[]
    else var w := ws[|ws| - 1]; Put(Replay(ws[..|ws| - 1]), w.offset, w.data, |w.data|)
  }

  ghost predicate CopiesApart(ws: seq<Copy>) {
    forall i, j :: 0 <= i < j < |ws| ==>
      Disjoint(ws[i].offset, |ws[i].data|, ws[j].offset, |ws[j].data|)
  }

  /** After any sequence of copies to reserved ranges, each one reads back. */
  lemma {:induction false} EveryCopyReadsBack(ws: seq<Copy>, i: nat)
    requires CopiesApart(ws) && i < |ws|
    ensures ReadsAs(Replay(ws), ws[i].offset, ws[i].data)
    decreases |ws|
  {
    var n := |ws| - 1;
    var w := ws[n];
    if i == n {
      PutHolds(Replay(ws[..n]), w.offset, w.data, |w.data|);
      assert w.data[..|w.data|] == w.data;
    } else {
      EveryCopyReadsBack(ws[..n], i);
      assert ws[..n][i] == ws[i];
      PutKeeps(Replay(ws[..n]), w.offset, w.data, |w.data|, ws[i].offset, ws[i].data);
    }
  }

  /** Byte k of a record is where a single-byte read at its offset looks exactly when it has not spilled. */
  lemma ByteAddressExactly(o: nat, k: nat)
    ensures Address(o, k) == Address(o + k, 0) <==> o % BLOCK + k < BLOCK
  {
    var q, r := o / BLOCK, o % BLOCK;
    assert o + k == q * BLOCK + (r + k);
  }

  /** __monolog_linear_base. */
  class Log {
    const buckets: array<array?<Byte>>
    ghost var cells: Cells
    ghost var repr: set<object>

    ghost predicate Valid()
      reads this, repr
    {
      && this in repr && buckets in repr
      && (forall b :: 0 <= b < buckets.Length && buckets[b] != null ==>
            buckets[b] in repr && buckets[b].Length == BLOCK + BUFFER)
      && (forall b, c :: 0 <= b < c < buckets.Length && buckets[b] != null ==> buckets[b] != buckets[c])
      && (forall a :: a in cells ==>
            && a.0 < buckets.Length && a.1 < BLOCK + BUFFER
            && buckets[a.0] != null && buckets[a.0][a.1] == cells[a])
    }

    constructor (nbuckets: nat)
      requires nbuckets >= 1
      ensures Valid() && fresh(repr) && cells == map[] && buckets.Length == nbuckets
    {
      var b := new array?<Byte>[nbuckets](_ => null);
      var first := new Byte[BLOCK + BUFFER];
      b[0] := first;
      buckets := b;
      cells := map[];
      repr := {this, b, first};
    }

    method TryAllocate(b: nat)
      requires Valid() && b < buckets.Length && buckets[b] == null
      modifies buckets, this`repr
      ensures Valid() && fresh(repr - old(repr)) && old(repr) <= repr
      ensures buckets[b] != null && cells == old(cells)
    {
      var bucket := new Byte[BLOCK + BUFFER];
      buckets[b] := bucket;
      repr := repr + {bucket};
    }

    /** Copies data to offset o, which must leave it inside the block and its spill buffer. */
    method Write(o: nat, data: seq<Byte>)
      requires Valid() && o / BLOCK < buckets.Length && o % BLOCK + |data| <= BLOCK + BUFFER
      modifies repr
      ensures Valid() && fresh(repr - old(repr)) && buckets[o / BLOCK] != null
      ensures cells == Put(old(cells), o, data, |data|)
    {
      if buckets[o / BLOCK] == null {
        TryAllocate(o / BLOCK);
      }
      WriteUnsafe(o, data);
    }

    method Store(b: nat, off: nat, val: Byte)
      requires Valid() && b < buckets.Length && buckets[b] != null && off < BLOCK + BUFFER
      modifies buckets[b], this`cells
      ensures Valid() && cells == old(cells)[(b, off) := val]
    {
      buckets[b][off] := val;
      cells := cells[(b, off) := val];
    }

    method WriteUnsafe(o: nat, data: seq<Byte>)
      requires Valid() && o / BLOCK < buckets.Length && o % BLOCK + |data| <= BLOCK + BUFFER
      requires buckets[o / BLOCK] != null
      modifies buckets[o / BLOCK], this`cells
      ensures Valid()
      ensures cells == Put(old(cells), o, data, |data|)
    {
      var b, off := o / BLOCK, o % BLOCK;
      var k := 0;
      while k < |data|
        invariant 0 <= k <= |data|
        invariant Valid()
        invariant cells == Put(old(cells), o, data, k)
      {
        assert Address(o, k) == (b, off + k);
        Store(b, off + k, data[k]);
        k := k + 1;
      }
    }

    /** Reads back any record the log holds. */
    method Read(o: nat, len: nat) returns (r: seq<Byte>)
      requires Valid() && o / BLOCK < buckets.Length && o % BLOCK + len <= BLOCK + BUFFER
      requires buckets[o / BLOCK] != null
      ensures |r| == len && forall data :: |data| == len && ReadsAs(cells, o, data) ==> r == data
    {
      var off := o % BLOCK;
      r := buckets[o / BLOCK][off..off + len];
      forall data | |data| == len && ReadsAs(cells, o, data) ensures r == data {
        forall k | 0 <= k < len ensures r[k] == data[k] {
          assert Address(o, k) in cells;
        }
      }
    }
  }
}
