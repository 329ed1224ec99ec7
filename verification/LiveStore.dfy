/**
 Reading the lists that the publish protocol leaves behind: a walk over any reachable
 state, bursts in flight or not. A slot that is reserved and not yet set reads as whatever
 stands there, if its bucket exists; if not, the reader follows a null pointer.
 */
module LiveStore {
  import opened Packets
  import opened PublishProtocol
  import opened PublishInvariant
  import opened PublishTheorems
  import opened Cursors
  import MonoLog

  /** What stands in a slot that has not been set. */
  type Junk = (Key, nat) -> nat

  function SlotNow(l: EntryList, key: Key, n: nat, junk: Junk): nat {
    if n in l.vals then l.vals[n] else junk(key, n)
  }

  /** A list as its readers see it: size() counts reserved slots. */
  function ListNow(l: EntryList, key: Key, junk: Junk): (c: seq<nat>)
    ensures |c| == |l.owners|
  { seq(|l.owners|, n requires 0 <= n => SlotNow(l, key, n, junk)) }

  function ListsNow(s: State, ix: Index, junk: Junk): Lists {
    map key | key in s.lists && key.index == ix :: key.token := ListNow(s.lists[key], key, junk)
  }

  lemma ListsNowAt(s: State, ix: Index, t: nat, junk: Junk)
    ensures t in ListsNow(s, ix, junk) <==> Key(ix, t) in s.lists
    ensures t in ListsNow(s, ix, junk) ==>
              ListsNow(s, ix, junk)[t] == ListNow(s.lists[Key(ix, t)], Key(ix, t), junk)
  {
    if Key(ix, t) in s.lists { assert Key(ix, t).index == ix; }
  }

  /** id stands in an unset slot of the list for token t. */
  ghost predicate UnsetAt(s: State, ix: Index, t: nat, junk: Junk, id: nat) {
    var key := Key(ix, t);
    key in s.lists && exists n: nat :: n < |s.lists[key].owners| && n !in s.lists[key].vals && junk(key, n) == id
  }

  ghost predicate Unset(s: State, ix: Index, lo: nat, hi: nat, junk: Junk, id: nat) {
    exists t: nat :: lo <= t <= hi && UnsetAt(s, ix, t, junk, id)
  }

  ghost predicate InListNow(s: State, ix: Index, t: nat, junk: Junk, id: nat) {
    t in ListsNow(s, ix, junk) && id in ListsNow(s, ix, junk)[t]
  }

  ghost predicate HasToken(s: State, ix: Index, t: nat, id: nat) {
    TokenOf(s.filters, ix, RecordAt(s, id)) == Some(t)
  }

  /** Of the published ids a list holds exactly those with its token, and unset slots. */
  lemma ListNowExact(s: State, ix: Index, t: nat, junk: Junk, id: nat)
    requires Inv(s) && id < s.readId
    ensures InListNow(s, ix, t, junk, id) <==> HasToken(s, ix, t, id) || UnsetAt(s, ix, t, junk, id)
  {
    ListsNowAt(s, ix, t, junk);
    var key := Key(ix, t);
    if InListNow(s, ix, t, junk, id) {
      var l := s.lists[key];
      var n :| 0 <= n < |l.owners| && ListNow(l, key, junk)[n] == id;
      if n in l.vals { EntrySound(s, key, n, id); }
    }
    if HasToken(s, ix, t, id) {
      var n := EntryComplete(s, ix, id);
      assert SlotBelow(s, key, n);
      assert ListNow(s.lists[key], key, junk)[n] == id;
    }
    if UnsetAt(s, ix, t, junk, id) {
      var l := s.lists[key];
      var n: nat :| n < |l.owners| && n !in l.vals && junk(key, n) == id;
      assert ListNow(l, key, junk)[n] == id;
    }
  }

  ghost predicate SlotBelow(s: State, key: Key, n: nat) { key in s.lists && n < |s.lists[key].owners| }

  lemma YieldMembers(f: seq<nat>, max: nat, id: nat)
    ensures id in Yield(f, max) <==> (id in f && id < max) || (f != [] && id == f[0])
  {
    if f != [] {
      BelowMembers(f[1..], max, id);
      assert f == [f[0]] + f[1..];
    }
  }

  /** The bucket of a slot exists, so that get() follows no null pointer. */
  ghost predicate SlotExists(s: State, ix: Index, p: Pos) {
    p.idx >= 0 && Key(ix, p.tok) in s.lists && MonoLog.Bucket(p.idx) in s.lists[Key(ix, p.tok)].buckets
  }

  ghost function ReadableIn(s: State, ix: Index): Pos -> bool { (p: Pos) => SlotExists(s, ix, p) }

  /** No list of the tokens is installed and still without a reservation. */
  ghost predicate NoneNew(s: State, ix: Index, lo: nat, hi: nat) {
    forall t: nat :: lo <= t <= hi && Key(ix, t) in s.lists ==> s.lists[Key(ix, t)].owners != []
  }

  /** Every reserved slot of the tokens has its bucket. */
  ghost predicate BucketsThere(s: State, ix: Index, lo: nat, hi: nat) {
    forall t: nat, n: nat :: lo <= t <= hi && Key(ix, t) in s.lists && n < |s.lists[Key(ix, t)].owners| ==>
      SlotExists(s, ix, Pos(t, n))
  }

  /** A walk of the lists as they stand ends without following a null pointer exactly when
      there is no new list after the first token and every reserved slot has its bucket. */
  lemma WalkSafeExactly(s: State, ix: Index, lo: nat, hi: nat, junk: Junk)
    requires lo <= hi
    ensures WalkReads(ListsNow(s, ix, junk), lo, hi, ReadableIn(s, ix)) <==>
            NoneNew(s, ix, lo + 1, hi) && BucketsThere(s, ix, lo, hi)
  {
    var index := ListsNow(s, ix, junk);
    WalkReadsExactly(index, lo, hi, ReadableIn(s, ix));
    forall t: nat
      ensures t in index <==> Key(ix, t) in s.lists
      ensures t in index ==> |index[t]| == |s.lists[Key(ix, t)].owners|
    {
      ListsNowAt(s, ix, t, junk);
    }
    if AllReadable(index, lo, hi, ReadableIn(s, ix)) {
      forall t: nat, n: nat | lo <= t <= hi && Key(ix, t) in s.lists && n < |s.lists[Key(ix, t)].owners|
        ensures SlotExists(s, ix, Pos(t, n))
      {
        assert t in index && n < |index[t]|;
        assert ReadableIn(s, ix)(Pos(t, n));
      }
    }
    if BucketsThere(s, ix, lo, hi) {
      forall t: nat, n: nat | lo <= t <= hi && t in index && n < |index[t]| ensures ReadableIn(s, ix)(Pos(t, n)) {
        assert SlotExists(s, ix, Pos(t, n));
      }
    }
  }

  /** Job j is inside a push onto a list of the tokens. */
  ghost predicate Pushing(s: State, j: nat, ix: Index, lo: nat, hi: nat) {
    && j < |s.jobs| && ValidPoint(|s.filters|, s.jobs[j].burst, s.jobs[j].i, s.jobs[j].st) && s.jobs[j].sub > INSTALL
    && var op := OpAt(s.filters, s.jobs[j].burst, s.jobs[j].i, s.jobs[j].st);
    && op.Push? && op.key.index == ix && lo <= op.key.token <= hi
  }

  /** With non-empty bursts it is only a push in progress that can make a walk unsafe. */
  lemma UnsafeNeedsPusher(s: State, ix: Index, lo: nat, hi: nat)
    requires Inv(s) && NoEmptyBursts(s) && !(NoneNew(s, ix, lo, hi) && BucketsThere(s, ix, lo, hi))
    ensures exists j: nat :: Pushing(s, j, ix, lo, hi)
  {
    if t: nat :| lo <= t <= hi && Key(ix, t) in s.lists && s.lists[Key(ix, t)].owners == [] {
      var j: nat :| Installing(s, j, Key(ix, t));
      assert Pushing(s, j, ix, lo, hi);
    } else {
      var t: nat, n: nat :| lo <= t <= hi && Key(ix, t) in s.lists && n < |s.lists[Key(ix, t)].owners|
                            && !SlotExists(s, ix, Pos(t, n));
      assert SlotOk(s, Key(ix, t), n);
      var o := s.lists[Key(ix, t)].owners[n];
      assert PcOk(s.filters, s.jobs[o.job]);
      assert Pushing(s, o.job, ix, lo, hi);
    }
  }

  /**
   With the bound taken from num_ids() in any reachable state: when a walk ends without
   following a null pointer, and what it then yields, namely the published packets with a
   token in the range, what stands below the bound in unset slots of the range, and its
   first entry, and nothing else.
   */
  lemma LiveWalk(fs: seq<FilterList>, steps: seq<Step>, ix: Index, lo: nat, hi: nat, junk: Junk, id: nat)
    requires RunOk(Init(fs), steps) && lo <= hi
    ensures var s := Run(Init(fs), steps);
            var f := Flat(ListsNow(s, ix, junk), lo, hi);
            && (WalkReads(ListsNow(s, ix, junk), lo, hi, ReadableIn(s, ix)) <==>
                NoneNew(s, ix, lo + 1, hi) && BucketsThere(s, ix, lo, hi))
            && (id in Yield(f, s.readId) <==>
                || (id < s.readId && InRange(s.filters, ix, RecordAt(s, id), lo, hi))
                || (id < s.readId && Unset(s, ix, lo, hi, junk, id))
                || (f != [] && id == f[0]))
  {
    var s := Run(Init(fs), steps);
    InitInv(fs);
    RunInv(Init(fs), steps);
    WalkSafeExactly(s, ix, lo, hi, junk);
    LiveFlat(s, ix, lo, hi, junk, id);
    YieldMembers(Flat(ListsNow(s, ix, junk), lo, hi), s.readId, id);
  }

  // ----- a reachable state for each way to go wrong -----

  /** A burst whose first job has come as far as its time list. */
  lemma ToTimeList(fs: seq<FilterList>, now: nat, pkts: seq<Packet>) returns (steps: seq<Step>)
    requires Enabled(Init(fs), Start(now, pkts))
    ensures RunOk(Init(fs), steps)
    ensures var s := Run(Init(fs), steps);
            && |s.jobs| == 1 && s.filters == fs && s.lists == map[]
            && s.jobs[0].burst == Burst(0, now, pkts) && s.jobs[0].i == -1 && s.jobs[0].st == 3 && s.jobs[0].sub == 0
  {
    var s0 := Apply(Init(fs), Start(now, pkts));
    assert s0.jobs == [Job(Burst(0, now, pkts), 0, -1, 0, 0, map[], false)];
    var s1 := Apply(s0, Work(0));
    var s2 := Apply(s1, Work(0));
    var s3 := Apply(s2, Work(0));
    RunCons(s2, Work(0), []);
    RunCons(s1, Work(0), [Work(0)] + []);
    RunCons(s0, Work(0), [Work(0)] + ([Work(0)] + []));
    RunCons(Init(fs), Start(now, pkts), [Work(0)] + ([Work(0)] + ([Work(0)] + [])));
    steps := [Start(now, pkts)] + ([Work(0)] + ([Work(0)] + ([Work(0)] + [])));
  }

  lemma OneMore(fs: seq<FilterList>, steps: seq<Step>, step: Step)
    requires RunOk(Init(fs), steps) && Enabled(Run(Init(fs), steps), step)
    ensures RunOk(Init(fs), steps + [step]) && Run(Init(fs), steps + [step]) == Apply(Run(Init(fs), steps), step)
  {
    RunCons(Run(Init(fs), steps), step, []);
    RunConcat(Init(fs), steps, [step] + []);
    assert [step] + [] == [step];
  }

  /** A list that is installed and not yet reserved in keeps a walk from ending, although no
      burst is empty. */
  lemma NewListTraps(fs: seq<FilterList>) returns (steps: seq<Step>)
    ensures RunOk(Init(fs), steps)
    ensures var s := Run(Init(fs), steps);
            NoEmptyBursts(s) && forall junk :: !exists n: nat :: EndsAfter(ListsNow(s, Timestamp, junk), 0, 1, n)
  {
    steps := ToTimeList(fs, 1, [[]]);
    OneMore(fs, steps, Work(0));
    steps := steps + [Work(0)];
    var s := Run(Init(fs), steps);
    forall junk ensures !exists n: nat :: EndsAfter(ListsNow(s, Timestamp, junk), 0, 1, n) {
      ListsNowAt(s, Timestamp, 1, junk);
      WalkEndsExactly(ListsNow(s, Timestamp, junk), 0, 1);
    }
  }

  lemma OneBucket(s: State)
    requires s.lists == map[Key(Timestamp, 1) := NEW_LIST.(owners := Tickets(0, -1, 3, 17))]
    ensures NoneNew(s, Timestamp, 0, 1) && !BucketsThere(s, Timestamp, 0, 1)
  {
    assert MonoLog.Bucket(16) == 1 + MonoLog.Bucket(0);
    assert !SlotExists(s, Timestamp, Pos(1, 16));
  }

  /** A list with seventeen reservations and one bucket: the walk ends, but not inside the memory there is. */
  lemma MissingBucket(fs: seq<FilterList>) returns (steps: seq<Step>)
    ensures RunOk(Init(fs), steps)
    ensures var s := Run(Init(fs), steps);
            && NoEmptyBursts(s) && NoneNew(s, Timestamp, 0, 1)
            && forall junk :: !WalkReads(ListsNow(s, Timestamp, junk), 0, 1, ReadableIn(s, Timestamp))
  {
    var pkts: seq<Packet> := seq(17, _ => []);
    steps := ToTimeList(fs, 1, pkts);
    OneMore(fs, steps, Work(0));
    steps := steps + [Work(0)];
    var s1 := Run(Init(fs), steps);
    assert s1.lists == map[Key(Timestamp, 1) := NEW_LIST] && s1.jobs[0].sub == RESERVE && s1.jobs[0].st == 3;
    OneMore(fs, steps, Work(0));
    steps := steps + [Work(0)];
    var s := Run(Init(fs), steps);
    assert Pc(s1, 0) == Push(Key(Timestamp, 1), 0, 17);
    assert NEW_LIST.owners + Tickets(0, -1, 3, 17) == Tickets(0, -1, 3, 17);
    OneBucket(s);
    forall junk ensures !WalkReads(ListsNow(s, Timestamp, junk), 0, 1, ReadableIn(s, Timestamp)) {
      WalkSafeExactly(s, Timestamp, 0, 1, junk);
    }
  }

  lemma LiveFlat(s: State, ix: Index, lo: nat, hi: nat, junk: Junk, id: nat)
    requires Inv(s)
    ensures id < s.readId ==>
              (id in Flat(ListsNow(s, ix, junk), lo, hi) <==>
               InRange(s.filters, ix, RecordAt(s, id), lo, hi) || Unset(s, ix, lo, hi, junk, id))
  {
    if id < s.readId {
      FlatMembers(ListsNow(s, ix, junk), lo, hi, id);
      if Listed(ListsNow(s, ix, junk), lo, hi, id) { ListedMeans(s, ix, lo, hi, junk, id); }
      if InRange(s.filters, ix, RecordAt(s, id), lo, hi) { RangeListed(s, ix, lo, hi, junk, id); }
      if Unset(s, ix, lo, hi, junk, id) { UnsetListed(s, ix, lo, hi, junk, id); }
    }
  }

  lemma ListedMeans(s: State, ix: Index, lo: nat, hi: nat, junk: Junk, id: nat)
    requires Inv(s) && id < s.readId && Listed(ListsNow(s, ix, junk), lo, hi, id)
    ensures InRange(s.filters, ix, RecordAt(s, id), lo, hi) || Unset(s, ix, lo, hi, junk, id)
  {
    var index := ListsNow(s, ix, junk);
    var t :| lo <= t <= hi && t in index && id in index[t];
    assert InListNow(s, ix, t, junk, id);
    ListNowExact(s, ix, t, junk, id);
  }

  lemma RangeListed(s: State, ix: Index, lo: nat, hi: nat, junk: Junk, id: nat)
    requires Inv(s) && id < s.readId && InRange(s.filters, ix, RecordAt(s, id), lo, hi)
    ensures Listed(ListsNow(s, ix, junk), lo, hi, id)
  {
    ListNowExact(s, ix, TokenOf(s.filters, ix, RecordAt(s, id)).value, junk, id);
  }

  lemma UnsetListed(s: State, ix: Index, lo: nat, hi: nat, junk: Junk, id: nat)
    requires Inv(s) && id < s.readId && Unset(s, ix, lo, hi, junk, id)
    ensures Listed(ListsNow(s, ix, junk), lo, hi, id)
  {
    var t: nat :| lo <= t <= hi && UnsetAt(s, ix, t, junk, id);
    ListNowExact(s, ix, t, junk, id);
  }
}

/** The same with nothing in flight: the walks are exact. */
module IdleStore {
  import opened Packets
  import opened PublishProtocol
  import opened PublishInvariant
  import opened PublishTheorems
  import opened Cursors
  import opened LiveStore

  /** A reachable state with every burst published and none of them empty. */
  ghost predicate Settled(s: State) { Inv(s) && Idle(s) && NoEmptyBursts(s) }

  lemma ReachableSettled(fs: seq<FilterList>, steps: seq<Step>)
    requires RunOk(Init(fs), steps)
    requires Idle(Run(Init(fs), steps)) && NoEmptyBursts(Run(Init(fs), steps))
    ensures Settled(Run(Init(fs), steps)) && Run(Init(fs), steps).filters == fs
  {
    InitInv(fs);
    RunInv(Init(fs), steps);
    RunGrows(Init(fs), steps);
  }

  /** With nothing in flight there is no unset slot. */
  const ZERO: Junk := (key: Key, n: nat) => 0

  /** The lists of one index by token. */
  function ListsOf(s: State, ix: Index): Lists { ListsNow(s, ix, ZERO) }

  /** No list is empty, and a slot of a list is an entry of the index. */
  lemma SettledLists(s: State, ix: Index, t: nat)
    requires Settled(s) && t in ListsOf(s, ix)
    ensures ListsOf(s, ix)[t] != []
    ensures forall n :: 0 <= n < |ListsOf(s, ix)[t]| ==> Holds(s, Key(ix, t), n, ListsOf(s, ix)[t][n])
  {
    ListsNowAt(s, ix, t, ZERO);
    IdleComplete(s);
    SettledNoneNew(s, Key(ix, t));
  }

  lemma SettledNoneNew(s: State, key: Key)
    requires Settled(s) && key in s.lists
    ensures s.lists[key].owners != []
  {
    forall j: nat ensures !Installing(s, j, key) {
      if j < |s.jobs| { assert PcOk(s.filters, s.jobs[j]); }
    }
  }

  /** A walk of a settled index stays inside the memory there is. */
  lemma SettledWalkReads(s: State, ix: Index, lo: nat, hi: nat)
    requires Settled(s) && lo <= hi
    ensures WalkReads(ListsOf(s, ix), lo, hi, ReadableIn(s, ix))
  {
    WalkSafeExactly(s, ix, lo, hi, ZERO);
    forall t: nat, n: nat | Key(ix, t) in s.lists && n < |s.lists[Key(ix, t)].owners| ensures SlotExists(s, ix, Pos(t, n)) {
      assert SlotOk(s, Key(ix, t), n);
      assert PcOk(s.filters, s.jobs[s.lists[Key(ix, t)].owners[n].job]);
    }
    forall t: nat | Key(ix, t) in s.lists ensures s.lists[Key(ix, t)].owners != [] { SettledNoneNew(s, Key(ix, t)); }
  }

  lemma SettledNoEmpty(s: State, ix: Index, lo: nat, hi: nat)
    requires Settled(s)
    ensures NoEmpty(ListsOf(s, ix), lo, hi)
  {
    forall t | lo <= t <= hi && t in ListsOf(s, ix) ensures ListsOf(s, ix)[t] != [] { SettledLists(s, ix, t); }
  }

  lemma SettledBelow(s: State, ix: Index, lo: nat, hi: nat, id: nat)
    requires Settled(s) && Listed(ListsOf(s, ix), lo, hi, id)
    ensures id < s.readId
  {
    var index := ListsOf(s, ix);
    var t :| lo <= t <= hi && t in index && id in index[t];
    SettledLists(s, ix, t);
    IdleComplete(s);
    var n :| 0 <= n < |index[t]| && index[t][n] == id;
    EntrySound(s, Key(ix, t), n, id);
  }

  lemma SettledAllSet(s: State, ix: Index, lo: nat, hi: nat, id: nat)
    requires Settled(s)
    ensures !Unset(s, ix, lo, hi, ZERO, id)
  {
    IdleComplete(s);
  }

  /** The entries an index holds for a token range are the packets in that range. */
  lemma SettledFlat(s: State, ix: Index, lo: nat, hi: nat, id: nat)
    requires Settled(s)
    ensures id in Flat(ListsOf(s, ix), lo, hi) <==>
            id < s.readId && InRange(s.filters, ix, RecordAt(s, id), lo, hi)
  {
    FlatMembers(ListsOf(s, ix), lo, hi, id);
    if Listed(ListsOf(s, ix), lo, hi, id) { SettledBelow(s, ix, lo, hi, id); }
    LiveFlat(s, ix, lo, hi, ZERO, id);
    SettledAllSet(s, ix, lo, hi, id);
  }

  /** Different positions of an index hold different ids. */
  ghost predicate UniqueEntries(index: Lists) {
    forall t, u, i, j ::
      t in index && u in index && 0 <= i < |index[t]| && 0 <= j < |index[u]| && index[t][i] == index[u][j]
      ==> t == u && i == j
  }

  predicate NoDuplicates(f: seq<nat>) { forall i, j :: 0 <= i < j < |f| ==> f[i] != f[j] }

  lemma SettledUnique(s: State, ix: Index)
    requires Settled(s)
    ensures UniqueEntries(ListsOf(s, ix))
  {
    var index := ListsOf(s, ix);
    forall t, u, i, j | t in index && u in index && 0 <= i < |index[t]| && 0 <= j < |index[u]|
      && index[t][i] == index[u][j]
      ensures t == u && i == j
    {
      SettledLists(s, ix, t);
      SettledLists(s, ix, u);
      EntryUnique(s, Key(ix, t), i, Key(ix, u), j, index[t][i]);
    }
  }

  lemma {:induction false} FlatNoDuplicates(index: Lists, lo: nat, hi: nat)
    requires UniqueEntries(index)
    ensures NoDuplicates(Flat(index, lo, hi))
    decreases hi + 1 - lo
  {
    if lo <= hi {
      FlatNoDuplicates(index, lo + 1, hi);
      if lo in index {
        var f := Flat(index, lo + 1, hi);
        forall i | 0 <= i < |index[lo]| ensures index[lo][i] !in f {
          FlatMembers(index, lo + 1, hi, index[lo][i]);
        }
      }
    }
  }

  /** Walking a settled index yields every packet of the range, each exactly once. */
  lemma SettledWalk(s: State, ix: Index, lo: nat, hi: nat)
    requires Settled(s)
    ensures var f := Flat(ListsOf(s, ix), lo, hi);
            && Yield(f, s.readId) == f && AllBelow(f, s.readId) && NoDuplicates(f)
            && forall id: nat :: id in f <==> id < s.readId && InRange(s.filters, ix, RecordAt(s, id), lo, hi)
  {
    var f := Flat(ListsOf(s, ix), lo, hi);
    forall id: nat ensures id in f <==> id < s.readId && InRange(s.filters, ix, RecordAt(s, id), lo, hi) {
      SettledFlat(s, ix, lo, hi, id);
    }
    forall i | 0 <= i < |f| ensures f[i] < s.readId { assert f[i] in f; }
    YieldAll(f, s.readId);
    SettledUnique(s, ix);
    FlatNoDuplicates(ListsOf(s, ix), lo, hi);
  }
}
