/**
 What the publish protocol guarantees in every reachable state: publication
 safety, exact and stable snapshots, each entry exactly once, read-back.
 */
module PublishTheorems {
  import opened Packets
  import opened PublishProtocol
  import opened PublishInvariant
  import opened PublishLimits
  import MonoLog

  // ----- what a run never undoes -----

  ghost predicate Grows(s: State, s': State) {
    && s'.filters == s.filters && s.owner <= s'.owner && |s.jobs| <= |s'.jobs|
    && s.readId <= s'.readId && s.writeId <= s'.writeId && s.dtail <= s'.dtail
    && (forall j :: 0 <= j < |s.jobs| ==> s'.jobs[j].burst == s.jobs[j].burst)
    && (forall j :: 0 <= j < |s.jobs| && s.jobs[j].done ==> s'.jobs[j] == s.jobs[j])
  }

  lemma StepGrows(s: State, step: Step)
    requires Inv(s) && Enabled(s, step)
    ensures Grows(s, Apply(s, step))
  {
    if step.Work? {
      assert PcOk(s.filters, s.jobs[step.job]);
    }
  }

  /** The read and write ids only grow, blocks and records are never reassigned. */
  lemma {:induction false} RunGrows(s: State, steps: seq<Step>)
    requires Inv(s) && RunOk(s, steps)
    ensures Grows(s, Run(s, steps))
    decreases |steps|
  {
    if steps != [] {
      var s1 := Apply(s, steps[0]);
      StepGrows(s, steps[0]);
      StepInv(s, steps[0]);
      RunGrows(s1, steps[1..]);
      var s2 := Run(s1, steps[1..]);
      forall j | 0 <= j < |s.jobs| ensures s2.jobs[j].burst == s.jobs[j].burst {
        assert s1.jobs[j].burst == s.jobs[j].burst;
      }
    }
  }

  /** The read id moves by whole blocks, in allocation order. */
  lemma ReadIdMovesByBlocks(fs: seq<FilterList>, steps: seq<Step>, step: Step)
    requires RunOk(Init(fs), steps) && Enabled(Run(Init(fs), steps), step)
    ensures var s := Run(Init(fs), steps);
            var s' := Apply(s, step);
            && s.readId <= s'.readId <= s'.writeId
            && (s'.readId != s.readId ==>
                  && step.Publish?
                  && s.readId == s.jobs[step.job].burst.start && s'.readId == s.jobs[step.job].burst.End())
            && (forall a, b :: 0 <= a < b < |s'.jobs| && s'.jobs[b].done && s'.jobs[b].burst.pkts != [] ==>
                  s'.jobs[a].done || s'.jobs[a].burst.pkts == [])
  {
    InitInv(fs);
    RunInv(Init(fs), steps);
    var s := Run(Init(fs), steps);
    StepInv(s, step);
    StepGrows(s, step);
    if Apply(s, step).readId != s.readId { StepPublishes(s, step); }
    DoneInOrder(Apply(s, step));
  }

  lemma StepPublishes(s: State, step: Step)
    requires Enabled(s, step) && Apply(s, step).readId != s.readId
    ensures step.Publish? && s.readId == s.jobs[step.job].burst.start
    ensures Apply(s, step).readId == s.jobs[step.job].burst.End()
  {
  }

  /** A block is published only after all non-empty blocks before it. */
  lemma DoneInOrder(s: State)
    requires JobsOk(s) && ReadOk(s)
    ensures forall a, b :: 0 <= a < b < |s.jobs| && s.jobs[b].done && s.jobs[b].burst.pkts != [] ==>
              s.jobs[a].done || s.jobs[a].burst.pkts == []
  {
    forall a, b | 0 <= a < b < |s.jobs| && s.jobs[b].done && s.jobs[b].burst.pkts != []
      ensures s.jobs[a].done || s.jobs[a].burst.pkts == []
    {
      assert s.jobs[a].burst.End() <= s.jobs[b].burst.start;
      assert s.jobs[b].burst.End() <= s.readId;
    }
  }

  // ----- the packet behind an id -----

  /** The record an id was reserved for. */
  function RecordAt(s: State, id: nat): Record {
    if id < |s.owner| && s.owner[id] < |s.jobs| && s.jobs[s.owner[id]].burst.Owns(id)
    then var b := s.jobs[s.owner[id]].burst; b.Rec(id - b.start)
    else Record(0, [])
  }

  lemma RecordStable(s: State, s': State, id: nat)
    requires JobsOk(s) && Grows(s, s') && id < s.writeId
    ensures RecordAt(s', id) == RecordAt(s, id)
  {
    assert s'.owner[id] == s.owner[id];
  }

  lemma OwnerUnique(s: State, j: nat, id: nat)
    requires JobsOk(s) && j < |s.jobs| && s.jobs[j].burst.Owns(id)
    ensures id < |s.owner| && s.owner[id] == j
  {
    var a := s.owner[id];
    assert s.jobs[a].burst.Owns(id);
    JobOrder(s, a, j);
  }

  lemma PublishedDone(s: State, id: nat)
    requires Inv(s) && id < s.readId
    ensures id < |s.owner| && s.jobs[s.owner[id]].done && AtEnd(s.jobs[s.owner[id]])
  {
    var j := s.owner[id];
    assert s.jobs[j].burst.Owns(id);
    assert PcOk(s.filters, s.jobs[j]);
  }

  // ----- index entries -----

  /** Slot n of the list for key holds id. */
  ghost predicate Holds(s: State, key: Key, n: nat, id: nat) {
    key in s.lists && n in s.lists[key].vals && s.lists[key].vals[n] == id
  }

  /** The only push that may enter id in an index. */
  function PusherOf(s: State, ix: Index, id: nat): Owner
    requires id < |s.owner| && s.owner[id] < |s.jobs| && s.jobs[s.owner[id]].burst.Owns(id)
  {
    var j := s.owner[id];
    var k := id - s.jobs[j].burst.start;
    match ix
    case Timestamp => Owner(j, -1, 3, k)
    case SrcIp => Owner(j, k, 0, 0)
    case DstIp => Owner(j, k, 1, 0)
    case SrcPrt => Owner(j, k, 2, 0)
    case DstPrt => Owner(j, k, 3, 0)
    case Character(c) => Owner(j, k, FIXED + c, 0)
  }

  /** Nothing wrong is ever entered in an index, published or not. */
  lemma EntrySound(s: State, key: Key, n: nat, id: nat)
    requires Inv(s) && Holds(s, key, n, id)
    ensures id < s.writeId && n < |s.lists[key].owners|
    ensures s.jobs[s.owner[id]].burst.Owns(id)
    ensures TokenOf(s.filters, key.index, RecordAt(s, id)) == Some(key.token)
    ensures s.lists[key].owners[n] == PusherOf(s, key.index, id)
  {
    assert SlotOk(s, key, n);
    var o := s.lists[key].owners[n];
    OwnerUnique(s, o.job, id);
  }

  /** A push that has stored its k-th value still holds it. */
  lemma PushedSlot(s: State, j: nat, i: int, st: nat, k: nat)
    requires Inv(s) && j < |s.jobs| && ValidPoint(|s.filters|, s.jobs[j].burst, i, st)
    requires OpAt(s.filters, s.jobs[j].burst, i, st).Push? && k < OpAt(s.filters, s.jobs[j].burst, i, st).count
    requires Passed(s.jobs[j], i, st, RESERVE) && Passed(s.jobs[j], i, st, StoreSub(k))
    ensures var op := OpAt(s.filters, s.jobs[j].burst, i, st);
            Holds(s, op.key, BaseOf(s.jobs[j], i, st) + k, op.first + k)
  {
    assert PushOk(s, j, i, st);
    var op := OpAt(s.filters, s.jobs[j].burst, i, st);
    var n := BaseOf(s.jobs[j], i, st) + k;
    assert s.lists[op.key].owners[n] == Owner(j, i, st, k);
    assert SlotOk(s, op.key, n);
  }

  /** Every entry of a published packet is in place. */
  lemma EntryComplete(s: State, ix: Index, id: nat) returns (n: nat)
    requires Inv(s) && id < s.readId
    requires TokenOf(s.filters, ix, RecordAt(s, id)).Some?
    ensures Holds(s, Key(ix, TokenOf(s.filters, ix, RecordAt(s, id)).value), n, id)
  {
    PublishedDone(s, id);
    assert s.jobs[s.owner[id]].burst.Owns(id);
    var o := PusherOf(s, ix, id);
    var job := s.jobs[o.job];
    n := BaseOf(job, o.i, o.st) + o.k;
    PushedSlot(s, o.job, o.i, o.st, o.k);
  }

  lemma EntryUnique(s: State, key: Key, n: nat, key': Key, n': nat, id: nat)
    requires Inv(s) && Holds(s, key, n, id) && Holds(s, key', n', id) && key.index == key'.index
    ensures key == key' && n == n'
  {
    EntrySound(s, key, n, id);
    EntrySound(s, key', n', id);
    assert SlotOk(s, key, n) && SlotOk(s, key', n');
  }

  /** Where an id occurs in an index, over all its tokens. */
  ghost function Occurrences(s: State, ix: Index, id: nat): set<(nat, nat)> {
    set key, n | key in s.lists && key.index == ix && n in s.lists[key].vals && s.lists[key].vals[n] == id
      :: (key.token, n)
  }

  /** In every reachable state a published id occurs in an index exactly once if its
      record belongs there, under the record's token, and never otherwise. */
  lemma EachEntryOnce(fs: seq<FilterList>, steps: seq<Step>, ix: Index, id: nat)
    requires RunOk(Init(fs), steps) && id < Run(Init(fs), steps).readId
    ensures var s := Run(Init(fs), steps);
            var tok := TokenOf(fs, ix, RecordAt(s, id));
            if tok.Some? then exists n :: Occurrences(s, ix, id) == {(tok.value, n)}
            else Occurrences(s, ix, id) == {}
  {
    InitInv(fs);
    RunInv(Init(fs), steps);
    RunGrows(Init(fs), steps);
    OccurrencesExact(Run(Init(fs), steps), ix, id);
  }

  lemma OccurrencesExact(s: State, ix: Index, id: nat)
    requires Inv(s) && id < s.readId
    ensures var tok := TokenOf(s.filters, ix, RecordAt(s, id));
            if tok.Some? then exists n :: Occurrences(s, ix, id) == {(tok.value, n)}
            else Occurrences(s, ix, id) == {}
  {
    var tok := TokenOf(s.filters, ix, RecordAt(s, id));
    forall key, n | Holds(s, key, n, id) && key.index == ix ensures tok == Some(key.token) {
      EntrySound(s, key, n, id);
    }
    if tok.Some? {
      var n := EntryComplete(s, ix, id);
      forall key, m | Holds(s, key, m, id) && key.index == ix ensures key == Key(ix, tok.value) && m == n {
        EntryUnique(s, key, m, Key(ix, tok.value), n, id);
      }
      assert (tok.value, n) in Occurrences(s, ix, id) by {
        var key := Key(ix, tok.value);
        assert key in s.lists && key.index == ix && n in s.lists[key].vals;
      }
      forall p | p in Occurrences(s, ix, id) ensures p == (tok.value, n) {
        var key, m :| key in s.lists && key.index == ix && m in s.lists[key].vals
                      && s.lists[key].vals[m] == id && p == (key.token, m);
        assert Holds(s, key, m, id);
      }
      assert Occurrences(s, ix, id) == {(tok.value, n)};
    } else {
      forall p | p in Occurrences(s, ix, id) ensures false {
        var key, m :| key in s.lists && key.index == ix && m in s.lists[key].vals
                      && s.lists[key].vals[m] == id && p == (key.token, m);
        assert Holds(s, key, m, id);
      }
    }
  }

  // ----- snapshots -----

  /** The ids below max in an index's lists for tokens lo to hi. */
  ghost function SnapshotIds(s: State, ix: Index, lo: nat, hi: nat, max: nat): set<nat> {
    set key, n | key in s.lists && key.index == ix && lo <= key.token <= hi
                 && n in s.lists[key].vals && s.lists[key].vals[n] < max :: s.lists[key].vals[n]
  }

  predicate InRange(fs: seq<FilterList>, ix: Index, r: Record, lo: nat, hi: nat) {
    TokenOf(fs, ix, r).Some? && lo <= TokenOf(fs, ix, r).value <= hi
  }

  /** The same question answered by scanning the packets. */
  ghost function ScanIds(s: State, ix: Index, lo: nat, hi: nat, max: nat): set<nat> {
    set id | 0 <= id < max && InRange(s.filters, ix, RecordAt(s, id), lo, hi)
  }

  lemma SnapshotIsScan(s: State, ix: Index, lo: nat, hi: nat, max: nat)
    requires Inv(s) && max <= s.readId
    ensures SnapshotIds(s, ix, lo, hi, max) == ScanIds(s, ix, lo, hi, max)
  {
    forall id | id in SnapshotIds(s, ix, lo, hi, max) ensures id in ScanIds(s, ix, lo, hi, max) {
      var key, n :| key in s.lists && key.index == ix && lo <= key.token <= hi
                    && n in s.lists[key].vals && s.lists[key].vals[n] == id && id < max;
      EntrySound(s, key, n, id);
    }
    forall id | id in ScanIds(s, ix, lo, hi, max) ensures id in SnapshotIds(s, ix, lo, hi, max) {
      var n := EntryComplete(s, ix, id);
      var key := Key(ix, TokenOf(s.filters, ix, RecordAt(s, id)).value);
      assert key in s.lists && n in s.lists[key].vals && s.lists[key].vals[n] == id;
    }
  }

  /** Snapshot exactness: with max taken from the read id at some state, the index
      answer is the scan answer in that state and in every later one, so no later
      step of any writer changes it. */
  lemma SnapshotExactAndStable(
    fs: seq<FilterList>, before: seq<Step>, after: seq<Step>, ix: Index, lo: nat, hi: nat)
    requires RunOk(Init(fs), before) && RunOk(Run(Init(fs), before), after)
    ensures var s := Run(Init(fs), before);
            var s' := Run(s, after);
            && SnapshotIds(s, ix, lo, hi, s.readId) == ScanIds(s, ix, lo, hi, s.readId)
            && SnapshotIds(s', ix, lo, hi, s.readId) == SnapshotIds(s, ix, lo, hi, s.readId)
  {
    InitInv(fs);
    var s := Run(Init(fs), before);
    RunInv(Init(fs), before);
    var s' := Run(s, after);
    RunInv(s, after);
    RunGrows(s, after);
    SnapshotIsScan(s, ix, lo, hi, s.readId);
    SnapshotIsScan(s', ix, lo, hi, s.readId);
    ScanStable(s, s', ix, lo, hi, s.readId);
  }

  lemma ScanStable(s: State, s': State, ix: Index, lo: nat, hi: nat, max: nat)
    requires JobsOk(s) && Grows(s, s') && max <= s.writeId
    ensures ScanIds(s', ix, lo, hi, max) == ScanIds(s, ix, lo, hi, max)
  {
    forall id | 0 <= id < max ensures RecordAt(s', id) == RecordAt(s, id) {
      RecordStable(s, s', id);
    }
  }

  // ----- conservation -----

  /** All filled slots of an index holding an id below max. */
  ghost function EntriesBelow(s: State, ix: Index, max: nat): set<(nat, nat)> {
    set key, n | key in s.lists && key.index == ix && n in s.lists[key].vals && s.lists[key].vals[n] < max
      :: (key.token, n)
  }

  /** How many of the first max packets belong in an index. */
  function CountIn(s: State, ix: Index, max: nat): nat {
    if max == 0 then 0
    else CountIn(s, ix, max - 1) + if TokenOf(s.filters, ix, RecordAt(s, max - 1)).Some? then 1 else 0
  }

  lemma EntriesSplit(s: State, ix: Index, max: nat)
    requires Inv(s) && max < s.readId
    ensures EntriesBelow(s, ix, max + 1) == EntriesBelow(s, ix, max) + Occurrences(s, ix, max)
    ensures EntriesBelow(s, ix, max) !! Occurrences(s, ix, max)
  {
    forall p | p in EntriesBelow(s, ix, max)
      ensures Key(ix, p.0) in s.lists && p.1 in s.lists[Key(ix, p.0)].vals && s.lists[Key(ix, p.0)].vals[p.1] < max
    {
      var key, n :| key in s.lists && key.index == ix && n in s.lists[key].vals
                    && s.lists[key].vals[n] < max && p == (key.token, n);
      assert key == Key(ix, p.0);
    }
    forall p | p in Occurrences(s, ix, max)
      ensures Key(ix, p.0) in s.lists && p.1 in s.lists[Key(ix, p.0)].vals && s.lists[Key(ix, p.0)].vals[p.1] == max
    {
      var key, n :| key in s.lists && key.index == ix && n in s.lists[key].vals
                    && s.lists[key].vals[n] == max && p == (key.token, n);
      assert key == Key(ix, p.0);
    }
  }

  /** Packet number max adds one entry to an index, or none. */
  ghost predicate AddsEntry(s: State, ix: Index, max: nat) {
    |EntriesBelow(s, ix, max + 1)| ==
    |EntriesBelow(s, ix, max)| + if TokenOf(s.filters, ix, RecordAt(s, max)).Some? then 1 else 0
  }

  lemma EntriesStep(s: State, ix: Index, max: nat)
    requires Inv(s) && max < s.readId
    ensures AddsEntry(s, ix, max)
  {
    EntriesSplit(s, ix, max);
    OccurrencesExact(s, ix, max);
  }

  lemma {:induction false} EntriesCount(s: State, ix: Index, max: nat)
    requires forall m :: 0 <= m < max ==> AddsEntry(s, ix, m)
    ensures |EntriesBelow(s, ix, max)| == CountIn(s, ix, max)
  {
    if max == 0 {
      assert EntriesBelow(s, ix, 0) == {};
    } else {
      EntriesCount(s, ix, max - 1);
      assert AddsEntry(s, ix, max - 1);
    }
  }

  ghost function AllEntries(s: State, ix: Index): set<(nat, nat)> {
    set key, n | key in s.lists && key.index == ix && n in s.lists[key].vals :: (key.token, n)
  }

  lemma {:induction false} CountAll(s: State, ix: Index, max: nat)
    requires ix == SrcIp || ix == DstIp || ix == Timestamp
    ensures CountIn(s, ix, max) == max
  {
    if max > 0 { CountAll(s, ix, max - 1); }
  }

  /** Conservation: with nothing in flight, the entries of the address and time
      indexes number exactly num_pkts(), the write id has been reached, and every
      reserved slot has been filled. */
  lemma Conservation(fs: seq<FilterList>, steps: seq<Step>, ix: Index)
    requires RunOk(Init(fs), steps) && Idle(Run(Init(fs), steps))
    ensures var s := Run(Init(fs), steps);
            && s.readId == s.writeId
            && |AllEntries(s, ix)| == CountIn(s, ix, s.readId)
            && (ix == SrcIp || ix == DstIp || ix == Timestamp ==> |AllEntries(s, ix)| == s.readId)
            && forall key, n :: key in s.lists && 0 <= n < |s.lists[key].owners| ==> n in s.lists[key].vals
  {
    InitInv(fs);
    RunInv(Init(fs), steps);
    var s := Run(Init(fs), steps);
    IdleComplete(s);
    AllEntriesCount(s, ix);
    if ix == SrcIp || ix == DstIp || ix == Timestamp { CountAll(s, ix, s.readId); }
  }

  lemma AllEntriesCount(s: State, ix: Index)
    requires Inv(s) && s.readId == s.writeId
    ensures |AllEntries(s, ix)| == CountIn(s, ix, s.readId)
  {
    forall m | 0 <= m < s.readId ensures AddsEntry(s, ix, m) { EntriesStep(s, ix, m); }
    EntriesCount(s, ix, s.readId);
    AllAreBelow(s, ix);
  }

  lemma AllAreBelow(s: State, ix: Index)
    requires Inv(s) && s.readId == s.writeId
    ensures AllEntries(s, ix) == EntriesBelow(s, ix, s.readId)
  {
    forall key, n | key in s.lists && n in s.lists[key].vals ensures s.lists[key].vals[n] < s.readId {
      EntrySound(s, key, n, s.lists[key].vals[n]);
    }
  }

  lemma IdleComplete(s: State)
    requires Inv(s) && Idle(s)
    ensures s.readId == s.writeId
    ensures forall key, n :: key in s.lists && 0 <= n < |s.lists[key].owners| ==> n in s.lists[key].vals
  {
    if s.writeId > 0 {
      assert s.jobs[s.owner[s.writeId - 1]].burst.Owns(s.writeId - 1);
    }
    forall key, n | key in s.lists && 0 <= n < |s.lists[key].owners| ensures n in s.lists[key].vals {
      assert SlotOk(s, key, n);
      var job := s.jobs[s.lists[key].owners[n].job];
      assert PcOk(s.filters, job) && AtEnd(job);
    }
  }

  // ----- read-back -----

  /** The packed word gives back the offset exactly when it fits in 48 bits. */
  lemma UnpackPack(offset: nat, length: nat)
    ensures LengthOf(Pack(offset, length)) == length
    ensures OffsetOf(Pack(offset, length)) == offset <==> offset < OFFSET_SPAN
  {
    Low48Range(offset);
    var low := Low48(offset);
    assert (length * OFFSET_SPAN + low) / OFFSET_SPAN == length;
    assert (length * OFFSET_SPAN + low) % OFFSET_SPAN == low;
  }

  lemma Low48Range(x: nat)
    ensures Low48(x) < OFFSET_SPAN
    ensures x < OFFSET_SPAN ==> Low48(x) == x
  {
  }

  function ByteIn(s: State, a: (nat, nat)): Byte { if a in s.mem then s.mem[a] else 0 }

  /** Copy n bytes from behind the pointer for a data-log offset. */
  function ReadBytes(s: State, offset: nat, n: nat): (bytes: seq<Byte>)
    ensures |bytes| == n
  { seq(n, k requires 0 <= k => ByteIn(s, Address(offset, k))) }

  function WordOf(s: State, id: nat): nat { if id in s.offlens then s.offlens[id] else 0 }

  function WordOffset(s: State, id: nat): nat { OffsetOf(WordOf(s, id)) }

  /** lookup, then ptr: the stored timestamp and packet of an id. */
  function ReadRecord(s: State, id: nat): Record {
    var bytes := ReadBytes(s, WordOffset(s, id), STAMP + LengthOf(WordOf(s, id)));
    Record(DecodeWord(bytes[..STAMP]), bytes[STAMP..])
  }

  lemma StoredBytes(s: State, id: nat)
    requires Inv(s) && id < s.readId
    ensures var j := s.owner[id];
            && s.jobs[j].burst.Owns(id) && s.jobs[j].done
            && var k := id - s.jobs[j].burst.start;
            && id in s.offlens && s.offlens[id] == WordFor(s.jobs[j], k)
            && RecordOffset(s.jobs[j], k) <= s.dtail
            && ReadBytes(s, RecordOffset(s.jobs[j], k), STAMP + |s.jobs[j].burst.pkts[k]|)
               == RecordBytes(s.jobs[j].burst, k)
  {
    PublishedDone(s, id);
    var j := s.owner[id];
    var job := s.jobs[j];
    assert job.burst.Owns(id);
    var k := id - job.burst.start;
    assert Passed(job, k, 4, 0) && HasBytes(job);
    assert OfflenOk(s, job, k);
    RelOffMonotone(job.burst.pkts, k, |job.burst.pkts|);
    var bytes := ReadBytes(s, RecordOffset(job, k), STAMP + |job.burst.pkts[k]|);
    var want := RecordBytes(job.burst, k);
    forall m | 0 <= m < |want| ensures bytes[m] == want[m] {
      assert Passed(job, k, 5, m);
      assert ByteOk(s, job, k, m);
    }
  }

  /** The record of a published id lies in memory that exists, and its numbers fit their words. */
  lemma StoredInMemory(s: State, id: nat)
    requires Inv(s) && id < s.readId && Tame(s)
    ensures var j := s.owner[id];
            && s.jobs[j].burst.Owns(id)
            && var i := id - s.jobs[j].burst.start;
            && id < ID_CAPACITY && RecordFits(s.jobs[j], i) && RecordOffset(s.jobs[j], i) < LOG_CAPACITY
            && s.jobs[j].burst.now < SECONDS
  {
    PublishedDone(s, id);
    var j := s.owner[id];
    assert s.jobs[j].burst.Owns(id);
    TameJob(s, j);
    RelOffMonotone(s.jobs[j].burst.pkts, id - s.jobs[j].burst.start, |s.jobs[j].burst.pkts|);
  }

  lemma SecondsFit()
    ensures SECONDS <= Pow256(STAMP)
  {
    assert Pow256(1) == 256 && Pow256(2) == 0x1_0000 && Pow256(4) == SECONDS;
    assert Pow256(5) >= SECONDS && Pow256(6) >= SECONDS && Pow256(7) >= SECONDS;
  }

  /** While no access has left its memory, a published id reads back as its record: the
      2^40 bytes of the data log keep its offset within the 48 bits of the word. */
  lemma ReadBackNow(s: State, id: nat)
    requires Inv(s) && id < s.readId && Tame(s)
    ensures ReadRecord(s, id) == RecordAt(s, id)
  {
    StoredBytes(s, id);
    StoredInMemory(s, id);
    SecondsFit();
    var j := s.owner[id];
    var b := s.jobs[j].burst;
    var k := id - b.start;
    UnpackPack(RecordOffset(s.jobs[j], k), |b.pkts[k]|);
    var bytes := RecordBytes(b, k);
    assert bytes[..STAMP] == EncodeWord(b.now, STAMP) && bytes[STAMP..] == b.pkts[k];
    DecodeEncode(b.now, STAMP);
  }

  /** Read-back in every later state: a published record reads back unchanged as long as
      no access leaves its memory. */
  lemma ReadBackForever(fs: seq<FilterList>, before: seq<Step>, after: seq<Step>, id: nat)
    requires RunOk(Init(fs), before) && RunOk(Run(Init(fs), before), after)
    requires id < Run(Init(fs), before).readId && Tame(Run(Run(Init(fs), before), after))
    ensures var s := Run(Init(fs), before);
            var s' := Run(s, after);
            Tame(s) && ReadRecord(s', id) == ReadRecord(s, id) == RecordAt(s, id)
  {
    InitInv(fs);
    var s := Run(Init(fs), before);
    RunInv(Init(fs), before);
    var s' := Run(s, after);
    RunInv(s, after);
    RunGrows(s, after);
    TameBefore(s, after);
    RecordStable(s, s', id);
    ReadBackNow(s, id);
    ReadBackNow(s', id);
  }

  // ----- publication safety -----

  /** Everything a reader may rely on for an id. */
  ghost predicate Published(s: State, id: nat) {
    && ReadRecord(s, id) == RecordAt(s, id)
    && (forall k: nat :: k < STAMP + |RecordAt(s, id).pkt| ==> InMemory(Address(WordOffset(s, id), k)))
    && forall ix :: TokenOf(s.filters, ix, RecordAt(s, id)).Some? ==>
         Entered(s, ix, TokenOf(s.filters, ix, RecordAt(s, id)).value, id)
  }

  /** In a slot and under a key that the index has room for. */
  ghost predicate Entered(s: State, ix: Index, token: nat, id: nat) {
    KeyExists(Key(ix, token)) && exists n: nat :: Holds(s, Key(ix, token), n, id) && n < MonoLog.LIST_CAPACITY
  }

  lemma EntryInMemory(s: State, ix: Index, id: nat)
    requires Inv(s) && Tame(s) && id < s.readId && TokenOf(s.filters, ix, RecordAt(s, id)).Some?
    ensures Entered(s, ix, TokenOf(s.filters, ix, RecordAt(s, id)).value, id)
  {
    var n := EntryComplete(s, ix, id);
    SlotInMemory(s, Key(ix, TokenOf(s.filters, ix, RecordAt(s, id)).value), n);
  }

  lemma SlotInMemory(s: State, key: Key, n: nat)
    requires ListsOk(s) && Tame(s) && key in s.lists && n in s.lists[key].vals
    ensures KeyExists(key) && n < MonoLog.LIST_CAPACITY
  {
    assert SlotOk(s, key, n);
    var o := s.lists[key].owners[n];
    var job := s.jobs[o.job];
    assert JobTame(s.filters, job);
    assert Access(s.filters, job, o.i, o.st, INSTALL) && AccessFits(s.filters, job, o.i, o.st, INSTALL);
    assert Access(s.filters, job, o.i, o.st, StoreSub(o.k)) && AccessFits(s.filters, job, o.i, o.st, StoreSub(o.k));
  }

  lemma BytesInMemory(s: State, id: nat, k: nat)
    requires Inv(s) && Tame(s) && id < s.readId && k < STAMP + |RecordAt(s, id).pkt|
    ensures InMemory(Address(WordOffset(s, id), k))
  {
    StoredBytes(s, id);
    StoredInMemory(s, id);
    var j := s.owner[id];
    var i := id - s.jobs[j].burst.start;
    UnpackPack(RecordOffset(s.jobs[j], i), |s.jobs[j].burst.pkts[i]|);
    RecordInMemory(s.jobs[j], i, k);
  }

  /** In every interleaving of any number of writers in which no access has left its memory,
      every id below the read id has its offset word, its bytes and all its index
      entries in place, in memory that exists. */
  lemma PublicationSafety(fs: seq<FilterList>, steps: seq<Step>, id: nat)
    requires RunOk(Init(fs), steps) && id < Run(Init(fs), steps).readId && Tame(Run(Init(fs), steps))
    ensures Published(Run(Init(fs), steps), id)
  {
    InitInv(fs);
    RunInv(Init(fs), steps);
    var s := Run(Init(fs), steps);
    ReadBackNow(s, id);
    forall k: nat | k < STAMP + |RecordAt(s, id).pkt| ensures InMemory(Address(WordOffset(s, id), k)) {
      BytesInMemory(s, id, k);
    }
    forall ix | TokenOf(s.filters, ix, RecordAt(s, id)).Some?
      ensures Entered(s, ix, TokenOf(s.filters, ix, RecordAt(s, id)).value, id)
    {
      EntryInMemory(s, ix, id);
    }
  }

  // ----- allocation and block boundaries -----

  lemma MulCancel(x: int, y: int, d: nat)
    requires x * d < y * d
    ensures x < y
  {
  }

  lemma DivMonotone(a: nat, b: nat, d: nat)
    requires a <= b && d > 0
    ensures a / d <= b / d
  {
    assert a == a / d * d + a % d && b == b / d * d + b % d;
    assert (b / d + 1) * d == b / d * d + d;
    MulCancel(a / d, b / d + 1, d);
  }

  lemma InBlocks(first: nat, x: nat, last: nat, size: nat)
    requires first <= x <= last && size > 0
    ensures x / size in Blocks(first, last, size)
  {
    DivMonotone(first, x, size);
    DivMonotone(x, last, size);
    assert InSpan(first, x / size, size);
  }

  /** No write of the protocol ever goes through a null block pointer; a record
      write stays inside its block and slack exactly when the record fits there. */
  lemma WritesAreAllocated(fs: seq<FilterList>, steps: seq<Step>, j: nat)
    requires RunOk(Init(fs), steps) && Enabled(Run(Init(fs), steps), Work(j))
    ensures var s := Run(Init(fs), steps);
            var job := s.jobs[j];
            && (Pc(s, j).SetOfflen? ==> (job.burst.start + job.i) / ID_BLOCK in s.idBlocks)
            && (Pc(s, j).Store? ==>
                  var o := RecordOffset(job, job.i);
                  && Address(o, job.sub).0 in s.dataBlocks
                  && ((forall k :: 0 <= k < |Pc(s, j).data| ==> Address(o, k).1 < BLOCK + BUFFER) <==>
                      RecordFits(job, job.i)))
  {
    InitInv(fs);
    RunInv(Init(fs), steps);
    var s := Run(Init(fs), steps);
    if Pc(s, j).SetOfflen? { WordAllocated(s, j); }
    if Pc(s, j).Store? { RecordAllocated(s, j); StoreFits(s, j); }
  }

  lemma StoreFits(s: State, j: nat)
    requires Enabled(s, Work(j)) && Pc(s, j).Store?
    ensures var job := s.jobs[j];
            (forall k :: 0 <= k < |Pc(s, j).data| ==> Address(RecordOffset(job, job.i), k).1 < BLOCK + BUFFER) <==>
            RecordFits(job, job.i)
  {
    RecordFitsExactly(RecordOffset(s.jobs[j], s.jobs[j].i), |Pc(s, j).data|);
  }

  lemma WordAllocated(s: State, j: nat)
    requires Inv(s) && Enabled(s, Work(j)) && Pc(s, j).SetOfflen?
    ensures (s.jobs[j].burst.start + s.jobs[j].i) / ID_BLOCK in s.idBlocks
  {
    var b := s.jobs[j].burst;
    assert Passed(s.jobs[j], -1, 0, 0);
    InBlocks(b.start, b.start + s.jobs[j].i, b.End(), ID_BLOCK);
  }

  lemma RecordAllocated(s: State, j: nat)
    requires Inv(s) && Enabled(s, Work(j)) && Pc(s, j).Store?
    ensures RecordOffset(s.jobs[j], s.jobs[j].i) / BLOCK in s.dataBlocks
  {
    var job := s.jobs[j];
    assert Passed(job, -1, 2, 0);
    RelOffMonotone(job.burst.pkts, job.i, |job.burst.pkts|);
    InBlocks(job.off, RecordOffset(job, job.i), job.off + Bytes(job.burst), BLOCK);
  }

  lemma RecordFitsExactly(o: nat, len: nat)
    requires len > 0
    ensures (forall k :: 0 <= k < len ==> Address(o, k).1 < BLOCK + BUFFER) <==> o % BLOCK + len <= BLOCK + BUFFER
  {
    assert Address(o, len - 1).1 == o % BLOCK + len - 1;
  }

  /** A record length is safe at every offset exactly up to 1025 bytes. */
  lemma StraddleExact(n: nat)
    ensures (forall o: nat :: Address(o, n).1 <= BLOCK + BUFFER) <==> n <= BUFFER + 1
  {
    if n > BUFFER + 1 {
      var o := BLOCK - 1;
      assert Address(o, n).1 > BLOCK + BUFFER;
    }
  }
}
