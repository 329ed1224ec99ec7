/** The iterator over one index and a token range (filter_result::filter_iterator). */
module FilterIterators {
  import opened Packets
  import opened Cursors

  class FilterIterator {
    const index: Lists
    /** Number of keys the index can hold; at() may only be asked below it. */
    const space: nat
    const tokMin: nat
    const tokMax: nat
    const maxRid: nat
    var curTok: nat
    var curIdx: int
    var curList: Option<seq<nat>>
    /** The last key handed to at(). */
    var probed: nat

    function CurPos(): Pos reads this { Pos(curTok, curIdx) }

    ghost predicate Cursor() reads this {
      && tokMin <= tokMax && tokMax + 1 < space
      && tokMin <= curTok <= tokMax + 1
      && curList == Lookup(index, curTok)
      && -1 <= curIdx
      && probed == curTok
    }

    ghost predicate Valid() reads this {
      && Cursor()
      && NoEmpty(index, tokMin + 1, tokMax)
      && OnEntry(index, tokMax, CurPos())
      && (curTok == tokMax + 1 ==> curIdx == 0)
    }

    ghost function Remaining(): seq<nat>
      requires Valid()
      reads this
    { Rest(index, tokMax, CurPos()) }

    constructor (index: Lists, space: nat, tokMin: nat, tokMax: nat, maxRid: nat)
      requires tokMin <= tokMax && tokMax + 1 < space && NoEmpty(index, tokMin + 1, tokMax)
      ensures Valid()
      ensures this.index == index && this.space == space && this.tokMin == tokMin
      ensures this.tokMax == tokMax && this.maxRid == maxRid
      ensures Remaining() == Flat(index, tokMin, tokMax)
    {
      this.index, this.space, this.tokMin, this.tokMax, this.maxRid := index, space, tokMin, tokMax, maxRid;
      curTok, probed := tokMin, tokMin;
      curList := Lookup(index, tokMin);
      curIdx := -1;
      new;
      Advance();
      BeginRest(index, tokMin, tokMax);
    }

    method At(tok: nat) returns (list: Option<seq<nat>>)
      requires tok < space
      modifies this`probed
      ensures probed == tok && list == Lookup(index, tok)
    {
      probed := tok;
      list := if tok in index then Some(index[tok]) else None;
    }

    /** Moves as AdvancePos says, whatever the lists look like. */
    method Advance()
      requires Cursor()
      modifies this
      ensures Cursor() && CurPos() == AdvancePos(index, tokMax, old(CurPos()))
    {
      if curTok == tokMax + 1 { return; }
      curIdx := curIdx + 1;
      if curList.None? || curIdx == |curList.value| {
        curIdx := 0;
        ghost var t0 := curTok;
        curTok := curTok + 1;
        curList := At(curTok);
        while curList.None? && curTok <= tokMax
          invariant t0 < curTok <= tokMax + 1 && curIdx == 0
          invariant probed == curTok && curList == Lookup(index, curTok)
          invariant NextTok(index, t0, tokMax) ==
                    if curList.Some? || curTok == tokMax + 1 then curTok else NextTok(index, curTok, tokMax)
          decreases tokMax + 1 - curTok
        {
          curTok := curTok + 1;
          curList := At(curTok);
        }
      }
    }

    method Current() returns (id: nat)
      requires Valid() && curTok <= tokMax
      ensures Remaining() != [] && id == Remaining()[0]
    {
      id := curList.value[curIdx];
    }

    predicate Finished() reads this { curTok == tokMax + 1 }

    /** operator++ */
    method Next()
      requires Valid() && curTok <= tokMax
      modifies this
      ensures Valid()
      ensures old(Remaining()) != [] && Remaining() == SkipHigh(old(Remaining())[1..], maxRid)
    {
      Step();
      while curTok != tokMax + 1 && curList.value[curIdx] >= maxRid
        invariant Valid()
        invariant SkipHigh(Remaining(), maxRid) == SkipHigh(old(Remaining())[1..], maxRid)
        decreases |Remaining()|
      {
        Step();
      }
    }

    /** *it++ */
    method Take() returns (id: nat)
      requires Valid() && curTok <= tokMax
      modifies this
      ensures Valid() && old(Remaining()) != [] && id == old(Remaining())[0]
      ensures Remaining() == SkipHigh(old(Remaining())[1..], maxRid)
    {
      id := Current();
      Next();
    }

    /** advance() seen from an entry. */
    method Step()
      requires Valid() && curTok <= tokMax
      modifies this
      ensures Valid()
      ensures old(Remaining()) != [] && Remaining() == old(Remaining())[1..]
    {
      RestIsEntryThenAfter(index, tokMax, CurPos());
      AdvanceRest(index, tokMax, CurPos());
      Advance();
    }
  }

  /** A loop from begin() to end() terminates, yields the lists in token then position
      order, keeps the first entry and drops each later entry not below maxRid; it has
      then asked at() for the key after the range. */
  method Collect(index: Lists, space: nat, tokMin: nat, tokMax: nat, maxRid: nat)
    returns (out: seq<nat>, lastProbe: nat)
    requires tokMin <= tokMax && tokMax + 1 < space && NoEmpty(index, tokMin + 1, tokMax)
    ensures out == Yield(Flat(index, tokMin, tokMax), maxRid)
    ensures lastProbe == tokMax + 1
  {
    var it := new FilterIterator(index, space, tokMin, tokMax, maxRid);
    out := [];
    ghost var rest := it.Remaining();
    ghost var all := Yield(rest, maxRid);
    while it.curTok != tokMax + 1 || it.curIdx != 0
      invariant it.Valid() && it.tokMax == tokMax && it.maxRid == maxRid
      invariant it.Remaining() == rest
      invariant out + ToSee(out == [], rest, maxRid) == all
      invariant out != [] && rest != [] ==> rest[0] < maxRid
      decreases |rest|
    {
      ToSeeStep(out, out == [], rest, maxRid);
      var id := it.Take();
      rest := SkipHigh(rest[1..], maxRid);
      out := out + [id];
    }
    lastProbe := it.probed;
  }

  /** filter_count: the number of entries, not restricted by any bound. It asks at() for
      every key of the range, so a range past the last key leaves the index. */
  method FilterCount(index: Lists, space: nat, tokMin: nat, tokMax: nat) returns (count: nat)
    requires tokMin <= tokMax ==> tokMax < space
    ensures count == |Flat(index, tokMin, tokMax)|
  {
    count := 0;
    var i := tokMin;
    while i <= tokMax
      invariant tokMin <= i && (tokMin <= tokMax ==> i <= tokMax + 1)
      invariant count + |Flat(index, i, tokMax)| == |Flat(index, tokMin, tokMax)|
      decreases tokMax + 1 - i
    {
      assert i < space;
      if i in index { count := count + |index[i]|; }
      i := i + 1;
    }
  }

  /** With the bound above every id, the iteration length is the count. */
  lemma IterationLengthIsCount(index: Lists, tokMin: nat, tokMax: nat, maxRid: nat)
    requires AllBelow(Flat(index, tokMin, tokMax), maxRid)
    ensures |Yield(Flat(index, tokMin, tokMax), maxRid)| == |Flat(index, tokMin, tokMax)|
  {
    YieldAll(Flat(index, tokMin, tokMax), maxRid);
  }

  // ----- the iterator that re-checks stored packets -----

  /** Keep the accepted entries. */
  function KeepAccepted(f: seq<nat>, stored: seq<Record>, filter: PacketFilter): seq<nat> {
    if f == [] then []
    else (if Accepts(stored, filter, f[0]) then [f[0]] else []) + KeepAccepted(f[1..], stored, filter)
  }

  /** lookup, ptr, apply on the stored packet of an id. */
  predicate Accepts(stored: seq<Record>, filter: PacketFilter, id: nat) {
    id < |stored| && filter.ApplyAt(stored[id].pkt, stored[id].now)
  }

  /** The first entry of the walk is never shown to the filter. */
  function FilteredYield(f: seq<nat>, max: nat, stored: seq<Record>, filter: PacketFilter): seq<nat> {
    if f == [] then [] else [f[0]] + KeepAccepted(Below(f[1..], max), stored, filter)
  }

  /** What is left to yield after leaving the current entry. */
  function SkipRejected(f: seq<nat>, max: nat, stored: seq<Record>, filter: PacketFilter): (r: seq<nat>)
    ensures |r| <= |f|
    ensures KeepAccepted(Below(r, max), stored, filter) == KeepAccepted(Below(f, max), stored, filter)
    ensures r != [] ==> r[0] < max && Accepts(stored, filter, r[0])
    decreases |f|
  {
    var g := SkipHigh(f, max);
    if g == [] || Accepts(stored, filter, g[0]) then g else SkipRejected(g[1..], max, stored, filter)
  }

  /** Every entry below the bound has a stored record. */
  predicate Readable(f: seq<nat>, max: nat, n: nat) { forall i :: 0 <= i < |f| && f[i] < max ==> f[i] < n }

  lemma {:induction false} SkipHighReadable(f: seq<nat>, max: nat, n: nat)
    requires Readable(f, max, n)
    ensures Readable(SkipHigh(f, max), max, n)
  {
    if f != [] && f[0] >= max { SkipHighReadable(f[1..], max, n); }
  }

  /** packet_filter_iterator */
  class PacketFilterIterator {
    const filter: PacketFilter
    const stored: seq<Record>
    const it: FilterIterator

    constructor (filter: PacketFilter, it: FilterIterator, stored: seq<Record>)
      ensures this.filter == filter && this.it == it && this.stored == stored
    {
      this.filter, this.it, this.stored := filter, it, stored;
    }

    /** operator++ */
    method Next()
      requires it.Valid() && it.curTok <= it.tokMax
      requires Readable(it.Remaining(), it.maxRid, |stored|)
      modifies it
      ensures it.Valid() && old(it.Remaining()) != []
      ensures it.Remaining() == SkipRejected(old(it.Remaining())[1..], it.maxRid, stored, filter)
    {
      ghost var f := it.Remaining()[1..];
      ghost var g := f;
      var again := true;
      while again
        invariant it.Valid()
        invariant again ==> (it.curTok <= it.tokMax && it.Remaining()[1..] == g)
        invariant !again ==> it.Remaining() == g
        invariant Readable(g, it.maxRid, |stored|)
        invariant SkipRejected(f, it.maxRid, stored, filter) ==
                  if again then SkipRejected(g, it.maxRid, stored, filter) else g
        decreases again, |g|
      {
        it.Next();
        SkipHighReadable(g, it.maxRid, |stored|);
        g := SkipHigh(g, it.maxRid);
        if it.Finished() {
          again := false;
        } else {
          var id := it.Current();
          again := !filter.ApplyAt(stored[id].pkt, stored[id].now);
          if again { g := g[1..]; }
        }
      }
    }
  }

  /** What is still to be yielded by a filtered walk. */
  function ToSeeFiltered(
    first: bool, rest: seq<nat>, max: nat, stored: seq<Record>, filter: PacketFilter): seq<nat>
  {
    if first then FilteredYield(rest, max, stored, filter) else KeepAccepted(Below(rest, max), stored, filter)
  }

  lemma ToSeeFilteredStep(
    out: seq<nat>, first: bool, rest: seq<nat>, max: nat, stored: seq<Record>, filter: PacketFilter)
    requires rest != [] && (first || (rest[0] < max && Accepts(stored, filter, rest[0])))
    ensures out + [rest[0]] + ToSeeFiltered(false, SkipRejected(rest[1..], max, stored, filter), max, stored, filter)
            == out + ToSeeFiltered(first, rest, max, stored, filter)
  {
    if !first {
      assert Below(rest, max) == [rest[0]] + Below(rest[1..], max);
    }
    assert ToSeeFiltered(first, rest, max, stored, filter)
        == [rest[0]] + KeepAccepted(Below(rest[1..], max), stored, filter);
  }

  lemma {:induction false} SkipRejectedReadable(
    f: seq<nat>, max: nat, n: nat, stored: seq<Record>, filter: PacketFilter)
    requires Readable(f, max, n)
    ensures Readable(SkipRejected(f, max, stored, filter), max, n)
    decreases |f|
  {
    SkipHighReadable(f, max, n);
    var g := SkipHigh(f, max);
    if g != [] && !Accepts(stored, filter, g[0]) { SkipRejectedReadable(g[1..], max, n, stored, filter); }
  }

  /** A loop over packet_filter_result: the first index hit unconditionally, then the
      later hits below the bound whose stored packet the filter accepts. */
  method CollectFiltered(index: Lists, space: nat, tokMin: nat, tokMax: nat, maxRid: nat,
                         filter: PacketFilter, stored: seq<Record>)
    returns (out: seq<nat>)
    requires tokMin <= tokMax && tokMax + 1 < space && NoEmpty(index, tokMin + 1, tokMax)
    requires Readable(Flat(index, tokMin, tokMax), maxRid, |stored|)
    ensures out == FilteredYield(Flat(index, tokMin, tokMax), maxRid, stored, filter)
  {
    var inner := new FilterIterator(index, space, tokMin, tokMax, maxRid);
    var it := new PacketFilterIterator(filter, inner, stored);
    out := [];
    ghost var rest := inner.Remaining();
    ghost var all := FilteredYield(rest, maxRid, stored, filter);
    while inner.curTok != tokMax + 1 || inner.curIdx != 0
      invariant inner.Valid() && inner.tokMax == tokMax && inner.maxRid == maxRid
      invariant inner.Remaining() == rest && Readable(rest, maxRid, |stored|)
      invariant out + ToSeeFiltered(out == [], rest, maxRid, stored, filter) == all
      invariant out != [] && rest != [] ==> rest[0] < maxRid && Accepts(stored, filter, rest[0])
      decreases |rest|
    {
      ToSeeFilteredStep(out, out == [], rest, maxRid, stored, filter);
      SkipRejectedReadable(rest[1..], maxRid, |stored|, stored, filter);
      var id := inner.Current();
      it.Next();
      rest := SkipRejected(rest[1..], maxRid, stored, filter);
      out := out + [id];
    }
  }
}
