/**
 A reader as one more process beside the writers: the walk of filter_result from begin() to
 end(), one load of shared memory per step, its steps interleaved with theirs in any way.
 */
module LiveReader {
  import opened Packets
  import opened PublishProtocol
  import opened PublishInvariant
  import opened PublishTheorems
  import opened Cursors
  import opened LiveStore

  /** Tokens lo to hi of an index, with max_rid taken from num_ids(). */
  datatype Query = Query(ix: Index, lo: nat, hi: nat, max: nat)

  /** The load that comes next: at() for the first token, size(), at() for the next token,
      get() for the comparison with max_rid, get() for the result. */
  datatype ReadPc = Begin | Size | Seek | Check | Fetch | Ended | Crashed

  /** An id handed out; settled says that its slot had been set when it was first looked at. */
  datatype Handed = Handed(tok: nat, idx: nat, val: nat, settled: bool)

  datatype Reader = Reader(tok: nat, idx: nat, pc: ReadPc, settled: bool, out: seq<Handed>)

  function AtStart(q: Query): Reader { Reader(q.lo, 0, Begin, false, []) }

  function ListNowAt(s: State, q: Query, tok: nat): EntryList { ListAt(s, Key(q.ix, tok)) }

  predicate IsSet(s: State, q: Query, tok: nat, idx: nat) { idx in ListNowAt(s, q, tok).vals }

  function Loaded(s: State, q: Query, tok: nat, idx: nat, junk: nat): nat {
    if IsSet(s, q, tok, idx) then ListNowAt(s, q, tok).vals[idx] else junk
  }

  /** The first entry is handed out without a comparison. */
  function OnEntryPc(r: Reader): ReadPc { if r.out == [] then Fetch else Check }

  ghost function ReadStep(s: State, q: Query, r: Reader, junk: nat): Reader {
    match r.pc
    case Begin => r.(pc := if Key(q.ix, r.tok) in s.lists then Size else Seek)
    case Size => r.(pc := if r.idx == |ListNowAt(s, q, r.tok).owners| then Seek else OnEntryPc(r))
    case Seek =>
      if r.tok + 1 > q.hi then r.(tok := r.tok + 1, idx := 0, pc := Ended)
      else r.(tok := r.tok + 1, idx := 0, pc := if Key(q.ix, r.tok + 1) in s.lists then OnEntryPc(r) else Seek)
    case Check =>
      if !SlotExists(s, q.ix, Pos(r.tok, r.idx)) then r.(pc := Crashed)
      else if Loaded(s, q, r.tok, r.idx, junk) >= q.max then r.(idx := r.idx + 1, pc := Size)
      else r.(pc := Fetch, settled := IsSet(s, q, r.tok, r.idx))
    case Fetch =>
      if !SlotExists(s, q.ix, Pos(r.tok, r.idx)) then r.(pc := Crashed)
      else
        var settled := if r.out == [] then IsSet(s, q, r.tok, r.idx) else r.settled;
        r.(idx := r.idx + 1, pc := Size,
           out := r.out + [Handed(r.tok, r.idx, Loaded(s, q, r.tok, r.idx, junk), settled)])
    case Ended => r
    case Crashed => r
  }

  /** A step of a writer, or one of the reader with what stands in an unset slot. */
  datatype Event = Write(step: Step) | Read(junk: nat)

  ghost predicate EventsOk(s: State, q: Query, r: Reader, events: seq<Event>)
    decreases |events|
  {
    events != [] ==>
      match events[0]
      case Write(step) => Enabled(s, step) && EventsOk(Apply(s, step), q, r, events[1..])
      case Read(junk) => EventsOk(s, q, ReadStep(s, q, r, junk), events[1..])
  }

  ghost function Play(s: State, q: Query, r: Reader, events: seq<Event>): (State, Reader)
    requires EventsOk(s, q, r, events)
    decreases |events|
  {
    if events == [] then (s, r)
    else match events[0]
         case Write(step) => Play(Apply(s, step), q, r, events[1..])
         case Read(junk) => Play(s, q, ReadStep(s, q, r, junk), events[1..])
  }

  // ----- lists only grow -----

  ghost predicate ListGrew(l: EntryList, l': EntryList) {
    |l.owners| <= |l'.owners| && forall n :: n in l.vals ==> n in l'.vals && l'.vals[n] == l.vals[n]
  }

  ghost predicate ListsGrew(s: State, s': State) {
    forall key :: key in s.lists ==> key in s'.lists && ListGrew(s.lists[key], s'.lists[key])
  }

  lemma StepListsGrew(s: State, step: Step)
    requires Inv(s) && Enabled(s, step)
    ensures ListsGrew(s, Apply(s, step))
  {
    if step.Work? && Pc(s, step.job).Push? && s.jobs[step.job].sub > RESERVE { FreshSlot(s, step.job); }
  }

  /** The slot a push is about to store in has not been set. */
  lemma FreshSlot(s: State, j: nat)
    requires JobsOk(s) && ListsOk(s) && PushesOk(s) && Enabled(s, Work(j))
    requires Pc(s, j).Push? && s.jobs[j].sub > RESERVE
    ensures var job := s.jobs[j];
            var k := SlotOfSub(job.sub);
            && Pc(s, j).key in s.lists
            && (job.sub == StoreSub(k) ==> BaseOf(job, job.i, job.st) + k !in s.lists[Pc(s, j).key].vals)
  {
    CurrentPush(s, j);
    var job := s.jobs[j];
    assert SlotOk(s, Pc(s, j).key, BaseOf(job, job.i, job.st) + SlotOfSub(job.sub));
  }

  lemma GrewTransitive(s: State, s1: State, s2: State)
    requires ListsGrew(s, s1) && ListsGrew(s1, s2)
    ensures ListsGrew(s, s2)
  {
    forall key | key in s.lists ensures key in s2.lists && ListGrew(s.lists[key], s2.lists[key]) {
      assert ListGrew(s.lists[key], s1.lists[key]) && ListGrew(s1.lists[key], s2.lists[key]);
    }
  }

  // ----- the invariant of the reader -----

  /** Position (t, n) lies behind the reader. */
  predicate Behind(r: Reader, t: nat, n: nat) {
    t < r.tok || (t == r.tok && (n < r.idx || r.pc == Seek))
  }

  ghost predicate ShapeOk(s: State, q: Query, r: Reader) {
    && q.lo <= r.tok <= q.hi + 1 && (r.tok == q.hi + 1 <==> r.pc == Ended)
    && (r.pc == Begin ==> r.tok == q.lo && r.idx == 0 && r.out == [])
    && (r.pc == Size || r.pc == Check || r.pc == Fetch ==> Key(q.ix, r.tok) in s.lists)
    && (r.pc == Check ==> r.out != [])
  }

  /** What has been seen of the slot about to be handed out still holds. */
  ghost predicate SeenOk(s0: State, s: State, q: Query, r: Reader) {
    r.pc == Fetch && r.out != [] ==>
      && (r.settled ==> IsSet(s, q, r.tok, r.idx) && ListNowAt(s, q, r.tok).vals[r.idx] < q.max)
      && (IsSet(s0, q, r.tok, r.idx) ==> r.settled)
  }

  ghost predicate HandedOk(s: State, q: Query, r: Reader, i: nat)
    requires i < |r.out|
  {
    var h := r.out[i];
    && q.lo <= h.tok <= q.hi && (h.tok < r.tok || (h.tok == r.tok && h.idx < r.idx))
    && (h.settled ==> Holds(s, Key(q.ix, h.tok), h.idx, h.val) && (i > 0 ==> h.val < q.max))
  }

  predicate Earlier(a: Handed, b: Handed) { a.tok < b.tok || (a.tok == b.tok && a.idx < b.idx) }

  ghost predicate OutOk(s: State, q: Query, r: Reader) {
    && (forall i :: 0 <= i < |r.out| ==> HandedOk(s, q, r, i))
    && (forall i, j :: 0 <= i < j < |r.out| ==> Earlier(r.out[i], r.out[j]))
  }

  /** What the snapshot held at (t, n) and the reader has passed, it has handed out. */
  ghost predicate Given(s0: State, q: Query, r: Reader, t: nat, n: nat) {
    IsSet(s0, q, t, n) && ListNowAt(s0, q, t).vals[n] < q.max && q.lo <= t <= q.hi && Behind(r, t, n) ==>
      Handed(t, n, ListNowAt(s0, q, t).vals[n], true) in r.out
  }

  ghost predicate CoverOk(s0: State, q: Query, r: Reader) { forall t: nat, n: nat :: Given(s0, q, r, t, n) }

  ghost predicate ReaderOk(s0: State, s: State, q: Query, r: Reader) {
    r.pc == Crashed || (ShapeOk(s, q, r) && SeenOk(s0, s, q, r) && OutOk(s, q, r) && CoverOk(s0, q, r))
  }

  lemma AtStartOk(s: State, q: Query)
    requires q.lo <= q.hi
    ensures ReaderOk(s, s, q, AtStart(q))
  {
    forall t: nat, n: nat ensures Given(s, q, AtStart(q), t, n) {}
  }

  /** Writers do not disturb a reader. */
  lemma WriterKeeps(s0: State, s: State, s': State, q: Query, r: Reader)
    requires ReaderOk(s0, s, q, r) && ListsGrew(s, s')
    ensures ReaderOk(s0, s', q, r)
  {
    if r.pc != Crashed {
      forall i | 0 <= i < |r.out| ensures HandedOk(s', q, r, i) { assert HandedOk(s, q, r, i); }
    }
  }

  /** The snapshot's slots are in the lists the reader sees. */
  lemma SnapshotSeen(s0: State, s: State, q: Query, t: nat, n: nat)
    requires ListsGrew(s0, s) && ListsOk(s0) && IsSet(s0, q, t, n)
    ensures Key(q.ix, t) in s.lists && IsSet(s, q, t, n) && ListNowAt(s, q, t).vals[n] == ListNowAt(s0, q, t).vals[n]
    ensures n < |ListNowAt(s, q, t).owners|
  {
    assert ListGrew(s0.lists[Key(q.ix, t)], s.lists[Key(q.ix, t)]);
  }

  lemma ReadShape(s: State, q: Query, r: Reader, junk: nat)
    requires ShapeOk(s, q, r)
    ensures ReadStep(s, q, r, junk).pc == Crashed || ShapeOk(s, q, ReadStep(s, q, r, junk))
  {
  }

  lemma ReadSeen(s0: State, s: State, q: Query, r: Reader, junk: nat)
    requires ListsOk(s0) && ListsGrew(s0, s) && ShapeOk(s, q, r)
    ensures SeenOk(s0, s, q, ReadStep(s, q, r, junk))
  {
    var r' := ReadStep(s, q, r, junk);
    if r'.pc == Fetch && r'.out != [] && IsSet(s0, q, r'.tok, r'.idx) { SnapshotSeen(s0, s, q, r'.tok, r'.idx); }
  }

  lemma ReadOut(s0: State, s: State, q: Query, r: Reader, junk: nat)
    requires ShapeOk(s, q, r) && SeenOk(s0, s, q, r) && OutOk(s, q, r)
    ensures ReadStep(s, q, r, junk).pc == Crashed || OutOk(s, q, ReadStep(s, q, r, junk))
  {
    var r' := ReadStep(s, q, r, junk);
    if r'.pc != Crashed {
      forall i | 0 <= i < |r'.out| ensures HandedOk(s, q, r', i) {
        if i < |r.out| { assert HandedOk(s, q, r, i); }
      }
      forall i, j | 0 <= i < j < |r'.out| ensures Earlier(r'.out[i], r'.out[j]) {
        assert HandedOk(s, q, r, i);
      }
    }
  }

  lemma ReadCover(s0: State, s: State, q: Query, r: Reader, junk: nat)
    requires ListsOk(s0) && ListsGrew(s0, s) && ShapeOk(s, q, r) && SeenOk(s0, s, q, r) && CoverOk(s0, q, r)
    ensures ReadStep(s, q, r, junk).pc == Crashed || CoverOk(s0, q, ReadStep(s, q, r, junk))
  {
    var r' := ReadStep(s, q, r, junk);
    if r'.pc != Crashed {
      forall t: nat, n: nat ensures Given(s0, q, r', t, n) {
        assert Given(s0, q, r, t, n);
        if IsSet(s0, q, t, n) { SnapshotSeen(s0, s, q, t, n); }
      }
    }
  }

  lemma ReadKeeps(s0: State, s: State, q: Query, r: Reader, junk: nat)
    requires ListsOk(s0) && ListsGrew(s0, s) && ReaderOk(s0, s, q, r)
    ensures ReaderOk(s0, s, q, ReadStep(s, q, r, junk))
  {
    if r.pc != Crashed {
      ReadShape(s, q, r, junk);
      ReadSeen(s0, s, q, r, junk);
      ReadOut(s0, s, q, r, junk);
      ReadCover(s0, s, q, r, junk);
    }
  }

  lemma {:induction false} PlayKeeps(s0: State, s: State, q: Query, r: Reader, events: seq<Event>)
    requires ListsOk(s0) && Inv(s) && Grows(s0, s) && ListsGrew(s0, s) && ReaderOk(s0, s, q, r)
    requires EventsOk(s, q, r, events)
    ensures var (s', r') := Play(s, q, r, events);
            Inv(s') && Grows(s0, s') && ListsGrew(s0, s') && ReaderOk(s0, s', q, r')
    decreases |events|
  {
    if events != [] {
      match events[0]
      case Write(step) =>
        var s1 := Apply(s, step);
        StepInv(s, step);
        StepGrows(s, step);
        StepListsGrew(s, step);
        GrewTransitive(s0, s, s1);
        GrowsTransitive(s0, s, s1);
        WriterKeeps(s0, s, s1, q, r);
        PlayKeeps(s0, s1, q, r, events[1..]);
      case Read(junk) =>
        ReadKeeps(s0, s, q, r, junk);
        PlayKeeps(s0, s, q, ReadStep(s, q, r, junk), events[1..]);
    }
  }

  lemma GrowsTransitive(s: State, s1: State, s2: State)
    requires Grows(s, s1) && Grows(s1, s2)
    ensures Grows(s, s2)
  {
    forall j | 0 <= j < |s.jobs| ensures s2.jobs[j].burst == s.jobs[j].burst { assert s1.jobs[j].burst == s.jobs[j].burst; }
  }

  // ----- what a reader gets -----

  /** Everything the query asks for is handed out, from a slot that had been set. */
  ghost predicate Complete(s0: State, q: Query, r: Reader) {
    forall id: nat :: id < q.max && InRange(s0.filters, q.ix, RecordAt(s0, id), q.lo, q.hi) ==> HandsOut(r, id)
  }

  ghost predicate HandsOut(r: Reader, id: nat) { exists i :: 0 <= i < |r.out| && r.out[i].settled && r.out[i].val == id }

  /** Except for the first entry and for slots that were not set when looked at, nothing else is. */
  ghost predicate Sound(s0: State, q: Query, r: Reader) {
    forall i :: 0 < i < |r.out| && r.out[i].settled ==>
      r.out[i].val < q.max && InRange(s0.filters, q.ix, RecordAt(s0, r.out[i].val), q.lo, q.hi)
  }

  /** Each id once. */
  ghost predicate Once(r: Reader) {
    forall i, j :: 0 <= i < j < |r.out| && r.out[i].settled && r.out[j].settled ==> r.out[i].val != r.out[j].val
  }

  /**
   Whatever the writers do meanwhile: a reader that took its bound from num_ids() and comes
   to its end has handed out every packet published by then whose token is in the range, each
   once, and nothing else but its first entry and what it found in slots not yet set.
   */
  lemma ReaderExact(fs: seq<FilterList>, before: seq<Step>, q: Query, events: seq<Event>)
    requires RunOk(Init(fs), before) && q.lo <= q.hi && q.max == Run(Init(fs), before).readId
    requires EventsOk(Run(Init(fs), before), q, AtStart(q), events)
    requires Play(Run(Init(fs), before), q, AtStart(q), events).1.pc == Ended
    ensures var s0 := Run(Init(fs), before);
            var r := Play(s0, q, AtStart(q), events).1;
            Complete(s0, q, r) && Sound(s0, q, r) && Once(r)
  {
    var s0 := Run(Init(fs), before);
    InitInv(fs);
    RunInv(Init(fs), before);
    AtStartOk(s0, q);
    PlayKeeps(s0, s0, q, AtStart(q), events);
    var (s, r) := Play(s0, q, AtStart(q), events);
    EndComplete(s0, q, r);
    EndSound(s0, s, q, r);
    EndOnce(s, q, r);
  }

  lemma EndComplete(s0: State, q: Query, r: Reader)
    requires Inv(s0) && q.max <= s0.readId && r.pc == Ended && r.tok == q.hi + 1 && CoverOk(s0, q, r)
    ensures Complete(s0, q, r)
  {
    forall id: nat | id < q.max && InRange(s0.filters, q.ix, RecordAt(s0, id), q.lo, q.hi) ensures HandsOut(r, id) {
      var t := TokenOf(s0.filters, q.ix, RecordAt(s0, id)).value;
      var n := EntryComplete(s0, q.ix, id);
      assert Given(s0, q, r, t, n);
      var i :| 0 <= i < |r.out| && r.out[i] == Handed(t, n, id, true);
    }
  }

  lemma EndSound(s0: State, s: State, q: Query, r: Reader)
    requires Inv(s) && JobsOk(s0) && Grows(s0, s) && q.max <= s0.writeId && OutOk(s, q, r)
    ensures Sound(s0, q, r)
  {
    forall i | 0 < i < |r.out| && r.out[i].settled
      ensures r.out[i].val < q.max && InRange(s0.filters, q.ix, RecordAt(s0, r.out[i].val), q.lo, q.hi)
    {
      var h := r.out[i];
      assert HandedOk(s, q, r, i);
      EntrySound(s, Key(q.ix, h.tok), h.idx, h.val);
      RecordStable(s0, s, h.val);
    }
  }

  lemma EndOnce(s: State, q: Query, r: Reader)
    requires Inv(s) && OutOk(s, q, r)
    ensures Once(r)
  {
    forall i, j | 0 <= i < j < |r.out| && r.out[i].settled && r.out[j].settled ensures r.out[i].val != r.out[j].val {
      assert HandedOk(s, q, r, i) && HandedOk(s, q, r, j) && Earlier(r.out[i], r.out[j]);
      DifferentIds(s, q, r.out[i], r.out[j]);
    }
  }

  lemma DifferentIds(s: State, q: Query, a: Handed, b: Handed)
    requires Inv(s) && Earlier(a, b)
    requires Holds(s, Key(q.ix, a.tok), a.idx, a.val) && Holds(s, Key(q.ix, b.tok), b.idx, b.val)
    ensures a.val != b.val
  {
    if a.val == b.val { EntryUnique(s, Key(q.ix, a.tok), a.idx, Key(q.ix, b.tok), b.idx, a.val); }
  }

  // ----- and that it gets there -----

  /** Where a reader that nobody disturbs stands: on an entry when it is about to load one. */
  ghost predicate OnTrack(s: State, q: Query, r: Reader) {
    && ShapeOk(s, q, r) && r.pc != Crashed
    && (r.pc == Size ==> r.idx <= |ListNowAt(s, q, r.tok).owners|)
    && (r.pc == Check || r.pc == Fetch ==> r.idx < |ListNowAt(s, q, r.tok).owners|)
  }

  /** Loads left on the current token. */
  ghost function Left(s: State, q: Query, r: Reader): nat
    requires OnTrack(s, q, r)
  {
    match r.pc
    case Begin => 3 * |ListNowAt(s, q, r.tok).owners| + 2
    case Size => 3 * (|ListNowAt(s, q, r.tok).owners| - r.idx) + 1
    case Check => 3 * (|ListNowAt(s, q, r.tok).owners| - r.idx)
    case Fetch => 3 * (|ListNowAt(s, q, r.tok).owners| - r.idx) - 1
    case _ => 0
  }

  lemma ReadOnTrack(s: State, q: Query, r: Reader, junk: nat)
    requires OnTrack(s, q, r) && r.pc != Ended && NoneNew(s, q.ix, q.lo + 1, q.hi) && BucketsThere(s, q.ix, q.lo, q.hi)
    ensures var r' := ReadStep(s, q, r, junk);
            OnTrack(s, q, r') && (r'.tok > r.tok || (r'.tok == r.tok && Left(s, q, r') < Left(s, q, r)))
  {
    if r.pc == Check || r.pc == Fetch { assert SlotExists(s, q.ix, Pos(r.tok, r.idx)); }
    ReadShape(s, q, r, junk);
    var r' := ReadStep(s, q, r, junk);
    if r'.tok > r.tok && r'.pc != Ended && r'.pc != Seek { assert s.lists[Key(q.ix, r'.tok)].owners != []; }
  }

  /** On a state that a walk can read, a reader that nobody disturbs comes to its end. */
  lemma {:induction false} ReaderEnds(s: State, q: Query, r: Reader, junk: nat) returns (events: seq<Event>)
    requires OnTrack(s, q, r) && NoneNew(s, q.ix, q.lo + 1, q.hi) && BucketsThere(s, q.ix, q.lo, q.hi)
    ensures EventsOk(s, q, r, events) && forall i :: 0 <= i < |events| ==> events[i] == Read(junk)
    ensures Play(s, q, r, events).0 == s && Play(s, q, r, events).1.pc == Ended
    decreases q.hi + 1 - r.tok, Left(s, q, r)
  {
    if r.pc == Ended {
      events := [];
    } else {
      ReadOnTrack(s, q, r, junk);
      var rest := ReaderEnds(s, q, ReadStep(s, q, r, junk), junk);
      events := [Read(junk)] + rest;
      assert events[1..] == rest;
    }
  }

  /** So in every reachable state without a push in progress a query can be answered to its end. */
  lemma SoloReader(fs: seq<FilterList>, before: seq<Step>, q: Query, junk: nat) returns (events: seq<Event>)
    requires RunOk(Init(fs), before) && NoEmptyBursts(Run(Init(fs), before)) && q.lo <= q.hi
    requires forall j: nat :: !Pushing(Run(Init(fs), before), j, q.ix, q.lo, q.hi)
    ensures var s := Run(Init(fs), before);
            EventsOk(s, q, AtStart(q), events) && Play(s, q, AtStart(q), events).1.pc == Ended
  {
    var s := Run(Init(fs), before);
    InitInv(fs);
    RunInv(Init(fs), before);
    if !(NoneNew(s, q.ix, q.lo, q.hi) && BucketsThere(s, q.ix, q.lo, q.hi)) { UnsafeNeedsPusher(s, q.ix, q.lo, q.hi); }
    events := ReaderEnds(s, q, AtStart(q), junk);
  }
}
