/**
 The per-second lists of a complex character, the iterator over them and the two
 ways of counting a window.
 */
module Characters {
  import opened Packets
  import opened Cursors

  /** Per second, per character: an entry list. */
  type CharLists = map<nat, map<nat, seq<nat>>>

  /** The lists of one character by second. */
  function OfCharacter(index: CharLists, c: nat): Lists {
    map t | t in index && c in index[t] :: index[t][c]
  }

  class CharacterIterator {
    const index: CharLists
    const charId: nat
    const first: nat
    const second: nat
    const maxRid: nat
    var curTs: nat
    var curIdx: int
    var curList: Option<seq<nat>>
    /** The last second the index was asked for. */
    var probed: nat

    ghost function MyLists(): Lists { OfCharacter(index, charId) }

    function CurPos(): Pos reads this { Pos(curTs, curIdx) }

    ghost predicate Cursor() reads this {
      && first <= second && second + 1 < SECONDS && first <= curTs <= second + 1 && -1 <= curIdx
      && probed == curTs
      && curList == Lookup(MyLists(), curTs)
    }

    ghost predicate Valid() reads this {
      && Cursor() && NoEmpty(MyLists(), first + 1, second) && OnEntry(MyLists(), second, CurPos())
      && (curTs == second + 1 ==> curIdx == 0)
    }

    ghost function Remaining(): seq<nat>
      requires Valid()
      reads this
    { Rest(MyLists(), second, CurPos()) }

    constructor (index: CharLists, charId: nat, first: nat, second: nat, maxRid: nat)
      requires first <= second && second + 1 < SECONDS && NoEmpty(OfCharacter(index, charId), first + 1, second)
      ensures Valid() && this.second == second && this.maxRid == maxRid
      ensures Remaining() == Flat(OfCharacter(index, charId), first, second)
    {
      this.index, this.charId, this.first, this.second, this.maxRid := index, charId, first, second, maxRid;
      curIdx := -1;
      curTs := first;
      probed := first;
      curList := None;
      new;
      curList := At(first);
      Advance();
      BeginRest(MyLists(), first, second);
    }

    /** index_->at(ts), then at(char_id); only the 2^32 seconds have a cell. */
    method At(ts: nat) returns (list: Option<seq<nat>>)
      requires ts < SECONDS
      modifies this`probed
      ensures probed == ts && list == Lookup(MyLists(), ts)
    {
      probed := ts;
      list := if ts in index && charId in index[ts] then Some(index[ts][charId]) else None;
    }

    /** Moves as AdvancePos says, whatever the lists look like. */
    method Advance()
      requires Cursor()
      modifies this
      ensures Cursor() && CurPos() == AdvancePos(MyLists(), second, old(CurPos()))
    {
      if curTs == second + 1 { return; }
      curIdx := curIdx + 1;
      if curList.None? || curIdx == |curList.value| {
        curIdx := 0;
        curList := None;
        ghost var t0 := curTs;
        while curList.None? && curTs <= second
          invariant t0 <= curTs <= second + 1 && curIdx == 0 && probed == curTs
          invariant curTs > t0 ==> curList == Lookup(MyLists(), curTs)
          invariant curTs == t0 ==> curList.None?
          invariant NextTok(MyLists(), t0, second) ==
                    if curList.Some? || curTs == second + 1 then curTs else NextTok(MyLists(), curTs, second)
          decreases second + 1 - curTs
        {
          curTs := curTs + 1;
          curList := At(curTs);
        }
      }
    }

    /** advance() seen from an entry. */
    method Step()
      requires Valid() && curTs <= second
      modifies this
      ensures Valid() && old(Remaining()) != [] && Remaining() == old(Remaining())[1..]
    {
      RestIsEntryThenAfter(MyLists(), second, CurPos());
      AdvanceRest(MyLists(), second, CurPos());
      Advance();
    }

    /** operator++ */
    method Next()
      requires Valid() && curTs <= second
      modifies this
      ensures Valid() && old(Remaining()) != []
      ensures Remaining() == SkipHigh(old(Remaining())[1..], maxRid)
    {
      Step();
      while curTs <= second && curList.value[curIdx] >= maxRid
        invariant Valid()
        invariant SkipHigh(Remaining(), maxRid) == SkipHigh(old(Remaining())[1..], maxRid)
        decreases |Remaining()|
      {
        Step();
      }
    }

    method Current() returns (id: nat)
      requires Valid() && curTs <= second
      ensures Remaining() != [] && id == Remaining()[0]
    {
      id := curList.value[curIdx];
    }
  }

  /** A loop over complex_character_lookup, and its size(). */
  method CollectCharacter(index: CharLists, charId: nat, first: nat, second: nat, maxRid: nat)
    returns (out: seq<nat>, size: nat, lastProbe: nat)
    requires first <= second && second + 1 < SECONDS && NoEmpty(OfCharacter(index, charId), first + 1, second)
    ensures out == Yield(Flat(OfCharacter(index, charId), first, second), maxRid)
    ensures size == |out| && lastProbe == second + 1
  {
    var it := new CharacterIterator(index, charId, first, second, maxRid);
    out, size := [], 0;
    ghost var rest := it.Remaining();
    ghost var all := Yield(rest, maxRid);
    while it.curTs != second + 1 || it.curIdx != 0
      invariant it.Valid() && it.second == second && it.maxRid == maxRid
      invariant it.Remaining() == rest && size == |out|
      invariant out + ToSee(out == [], rest, maxRid) == all
      invariant out != [] && rest != [] ==> rest[0] < maxRid
      decreases |rest|
    {
      ToSeeStep(out, out == [], rest, maxRid);
      var id := it.Current();
      it.Next();
      rest := SkipHigh(rest[1..], maxRid);
      out := out + [id];
      size := size + 1;
    }
    lastProbe := it.probed;
  }

  /** get() all the way down: creates an empty list for a missing one. */
  function WithList(index: CharLists, ts: nat, c: nat): CharLists {
    var row: map<nat, seq<nat>> := if ts in index then index[ts] else map[];
    index[ts := if c in row then row else row[c := []]]
  }

  class CharacterIndex {
    var lists: CharLists

    constructor ()
      ensures lists == map[]
    {
      lists := map[];
    }

    method Get(ts: nat, c: nat) returns (list: seq<nat>)
      modifies this
      ensures lists == WithList(old(lists), ts, c)
      ensures ts in lists && c in lists[ts] && list == lists[ts][c]
    {
      lists := WithList(lists, ts, c);
      list := lists[ts][c];
    }

    /** The packet_counter query: sums list sizes, creating the lists it asks for. Its
        32-bit loop counter must be able to pass the window. */
    method PacketCounter(c: nat, first: nat, last: nat) returns (res: nat)
      requires first < SECONDS && last + 1 < SECONDS
      modifies this
      ensures res == |Flat(OfCharacter(old(lists), c), first, last)|
      ensures OfCharacter(lists, c) == Touched(OfCharacter(old(lists), c), first, last)
      ensures forall c' :: c' != c ==> OfCharacter(lists, c') == OfCharacter(old(lists), c')
    {
      res := 0;
      var ts := first;
      ghost var was := OfCharacter(lists, c);
      while ts <= last
        invariant first <= ts && (first <= last ==> ts <= last + 1) && (first > last ==> ts == first)
        invariant res + |Flat(was, ts, last)| == |Flat(was, first, last)|
        invariant OfCharacter(lists, c) == TouchedTo(was, first, ts)
        invariant forall c' :: c' != c ==> OfCharacter(lists, c') == OfCharacter(old(lists), c')
        decreases last + 1 - ts
      {
        TouchedAt(was, first, ts, ts);
        WithListTouches(lists, ts, c);
        var list := Get(ts, c);
        assert list == OfCharacter(lists, c)[ts];
        res := res + |list|;
        ts := Tick(ts);
      }
    }
  }

  /** ++ on a 32-bit counter. */
  function Tick(ts: nat): nat
    requires ts < SECONDS
  { if ts + 1 == SECONDS then 0 else ts + 1 }

  function Ticks(ts: nat, n: nat): (t: nat)
    requires ts < SECONDS
    ensures t < SECONDS
  { if n == 0 then ts else Tick(Ticks(ts, n - 1)) }

  lemma {:induction false} TicksAdd(ts: nat, n: nat)
    requires ts + n < SECONDS
    ensures Ticks(ts, n) == ts + n
  {
    if n > 0 { TicksAdd(ts, n - 1); }
  }

  /** The counting loop leaves its window exactly when the window does not end at the last second. */
  lemma CounterEndsExactly(first: nat, last: nat)
    requires first < SECONDS && last < SECONDS
    ensures (exists n: nat :: Ticks(first, n) > last) <==> last + 1 < SECONDS
  {
    if last + 1 < SECONDS {
      var n := if first <= last then last + 1 - first else 0;
      TicksAdd(first, n);
    }
  }

  function TouchOne(index: Lists, t: nat): Lists { if t in index then index else index[t := []] }

  /** Lists after every second in [first, to) has been asked for. */
  function TouchedTo(index: Lists, first: nat, to: nat): Lists {
    if to <= first then index else TouchOne(TouchedTo(index, first, to - 1), to - 1)
  }

  function Touched(index: Lists, first: nat, last: nat): Lists {
    TouchedTo(index, first, if first <= last then last + 1 else first)
  }

  lemma {:induction false} TouchedAt(index: Lists, first: nat, to: nat, t: nat)
    ensures t in TouchedTo(index, first, to) <==> t in index || first <= t < to
    ensures t in TouchedTo(index, first, to) ==>
              TouchedTo(index, first, to)[t] == if t in index then index[t] else []
  {
    if to > first { TouchedAt(index, first, to - 1, t); }
  }

  lemma WithListTouches(index: CharLists, ts: nat, c: nat)
    ensures OfCharacter(WithList(index, ts, c), c) == TouchOne(OfCharacter(index, c), ts)
    ensures forall c' :: c' != c ==> OfCharacter(WithList(index, ts, c), c') == OfCharacter(index, c')
  {
  }

  /** Counting first spoils iterating: after packet_counter has asked about a window,
      the iterator over that window ends exactly when every second after the first had
      at least one entry. */
  lemma CountThenIterate(index: Lists, first: nat, last: nat)
    requires first <= last
    ensures (exists n: nat :: EndsAfter(Touched(index, first, last), first, last, n))
            <==> (forall t :: first < t <= last ==> t in index && index[t] != [])
  {
    var after := Touched(index, first, last);
    WalkEndsExactly(after, first, last);
    forall t | first < t <= last ensures t in after && (after[t] != [] <==> t in index && index[t] != []) {
      TouchedAt(index, first, last + 1, t);
    }
  }
}
