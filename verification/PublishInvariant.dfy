/**
 The inductive invariant of the publish protocol: what every step of every job
 keeps, whatever the interleaving.
 */
module PublishInvariant {
  import opened Packets
  import opened PublishProtocol
  import MonoLog

  /** Access k of the statement at point (i, st) has been executed. */
  predicate Passed(job: Job, i: int, st: nat, k: nat) {
    i < job.i || (i == job.i && (st < job.st || (st == job.st && k < job.sub)))
  }

  predicate PcOk(fs: seq<FilterList>, job: Job) {
    && (if AtEnd(job) then job.i == |job.burst.pkts| && job.st == 0 && job.sub == 0
        else ValidPoint(|fs|, job.burst, job.i, job.st)
             && job.sub < Steps(OpAt(fs, job.burst, job.i, job.st)))
    && (job.done ==> AtEnd(job))
    && forall k :: 0 <= k < |job.burst.pkts| ==> |job.burst.pkts[k]| < 0x1_0000
  }

  /** Ids are handed out to jobs in contiguous blocks, in order. */
  ghost predicate JobsOk(s: State) {
    && |s.owner| == s.writeId
    && (forall id :: 0 <= id < |s.owner| ==> s.owner[id] < |s.jobs| && s.jobs[s.owner[id]].burst.Owns(id))
    && (forall a, b :: 0 <= a < b < |s.jobs| ==> s.jobs[a].burst.End() <= s.jobs[b].burst.start)
    && (forall a :: 0 <= a < |s.jobs| ==> s.jobs[a].burst.End() <= s.writeId && PcOk(s.filters, s.jobs[a]))
  }

  /** The read id is a block boundary: published blocks lie below it, the others above. */
  ghost predicate ReadOk(s: State) {
    && s.readId <= s.writeId
    && (forall j :: 0 <= j < |s.jobs| && s.jobs[j].done ==> s.jobs[j].burst.End() <= s.readId)
    && (forall j :: 0 <= j < |s.jobs| && !s.jobs[j].done && s.jobs[j].burst.pkts != [] ==>
          s.readId <= s.jobs[j].burst.start)
  }

  /** Slot n of the list for key belongs to the push that reserved it, and holds
      that push's value exactly when the push has stored it. */
  ghost predicate SlotOk(s: State, key: Key, n: nat)
    requires key in s.lists && n < |s.lists[key].owners|
  {
    var l := s.lists[key];
    var o := l.owners[n];
    && o.job < |s.jobs|
    && var job := s.jobs[o.job];
    && ValidPoint(|s.filters|, job.burst, o.i, o.st)
    && var op := OpAt(s.filters, job.burst, o.i, o.st);
    && op.Push? && op.key == key && o.k < op.count
    && Passed(job, o.i, o.st, RESERVE)
    && BaseOf(job, o.i, o.st) + o.k == n
    && (Passed(job, o.i, o.st, AllocSub(o.k)) ==> MonoLog.Bucket(n) in l.buckets)
    && (n in l.vals <==> Passed(job, o.i, o.st, StoreSub(o.k)))
    && (n in l.vals ==> l.vals[n] == op.first + o.k)
  }

  ghost predicate ListsOk(s: State) {
    && (forall key, n :: key in s.lists && n in s.lists[key].vals ==> n < |s.lists[key].owners|)
    && (forall key, n :: key in s.lists && 0 <= n < |s.lists[key].owners| ==> SlotOk(s, key, n))
  }

  /** The list of a push that has started exists. */
  ghost predicate InstallsOk(s: State) {
    forall j, i, st ::
      0 <= j < |s.jobs| && ValidPoint(|s.filters|, s.jobs[j].burst, i, st) && Passed(s.jobs[j], i, st, INSTALL)
      && OpAt(s.filters, s.jobs[j].burst, i, st).Push?
      ==> OpAt(s.filters, s.jobs[j].burst, i, st).key in s.lists
  }

  /** A push that has made its reservation owns count consecutive slots of its list. */
  ghost predicate PushOk(s: State, j: nat, i: int, st: nat)
    requires j < |s.jobs| && ValidPoint(|s.filters|, s.jobs[j].burst, i, st)
  {
    var job := s.jobs[j];
    var op := OpAt(s.filters, job.burst, i, st);
    op.Push? ==>
      && op.key in s.lists
      && var base := BaseOf(job, i, st);
      && base + op.count <= |s.lists[op.key].owners|
      && forall n :: base <= n < base + op.count ==> s.lists[op.key].owners[n] == Owner(j, i, st, n - base)
  }

  ghost predicate PushesOk(s: State) {
    forall j, i, st ::
      0 <= j < |s.jobs| && ValidPoint(|s.filters|, s.jobs[j].burst, i, st) && Passed(s.jobs[j], i, st, RESERVE)
      ==> PushOk(s, j, i, st)
  }

  ghost predicate OfflenOk(s: State, job: Job, i: nat)
    requires i < |job.burst.pkts|
  {
    var id := job.burst.start + i;
    id in s.offlens && s.offlens[id] == WordFor(job, i)
  }

  ghost predicate OfflensOk(s: State) {
    forall j, i ::
      0 <= j < |s.jobs| && 0 <= i < |s.jobs[j].burst.pkts| && Passed(s.jobs[j], i, 4, 0) ==>
        OfflenOk(s, s.jobs[j], i)
  }

  predicate HasBytes(job: Job) { Passed(job, -1, 1, 0) }

  /** Byte regions of different jobs are disjoint. */
  ghost predicate SpaceOk(s: State) {
    && (forall a :: 0 <= a < |s.jobs| && HasBytes(s.jobs[a]) ==>
          s.jobs[a].off + Bytes(s.jobs[a].burst) <= s.dtail)
    && (forall a, b :: 0 <= a < b < |s.jobs| && HasBytes(s.jobs[a]) && HasBytes(s.jobs[b]) ==>
          || s.jobs[a].off + Bytes(s.jobs[a].burst) <= s.jobs[b].off
          || s.jobs[b].off + Bytes(s.jobs[b].burst) <= s.jobs[a].off)
  }

  function RecordBytes(b: Burst, i: nat): seq<Byte>
    requires i < |b.pkts|
  { EncodeWord(b.now, STAMP) + b.pkts[i] }

  ghost predicate ByteOk(s: State, job: Job, i: nat, k: nat)
    requires i < |job.burst.pkts| && k < |RecordBytes(job.burst, i)|
  {
    var a := Address(RecordOffset(job, i), k);
    a in s.mem && s.mem[a] == RecordBytes(job.burst, i)[k]
  }

  ghost predicate MemOk(s: State) {
    forall j, i, k ::
      (0 <= j < |s.jobs| && 0 <= i < |s.jobs[j].burst.pkts| && 0 <= k < |RecordBytes(s.jobs[j].burst, i)|
       && Passed(s.jobs[j], i, 5, k)) ==> ByteOk(s, s.jobs[j], i, k)
  }

  /** Blocks are allocated before the job that needs them uses them. */
  ghost predicate AllocOk(s: State) {
    && (forall j :: 0 <= j < |s.jobs| && Passed(s.jobs[j], -1, 0, 0) ==>
          Blocks(s.jobs[j].burst.start, s.jobs[j].burst.End(), ID_BLOCK) <= s.idBlocks)
    && (forall j :: 0 <= j < |s.jobs| && Passed(s.jobs[j], -1, 2, 0) ==>
          Blocks(s.jobs[j].off, s.jobs[j].off + Bytes(s.jobs[j].burst), BLOCK) <= s.dataBlocks)
  }

  ghost predicate NoEmptyBursts(s: State) {
    forall j :: 0 <= j < |s.jobs| ==> s.jobs[j].burst.pkts != []
  }

  /** Nothing is in flight. */
  ghost predicate Idle(s: State) { forall j :: 0 <= j < |s.jobs| ==> s.jobs[j].done }

  /** Job j has installed the list for key, or found it installed, and not yet reserved a slot. */
  ghost predicate Installing(s: State, j: nat, key: Key) {
    && j < |s.jobs| && ValidPoint(|s.filters|, s.jobs[j].burst, s.jobs[j].i, s.jobs[j].st)
    && OpAt(s.filters, s.jobs[j].burst, s.jobs[j].i, s.jobs[j].st).Push?
    && OpAt(s.filters, s.jobs[j].burst, s.jobs[j].i, s.jobs[j].st).key == key
    && s.jobs[j].sub == RESERVE
  }

  /** A list is empty only while somebody stands between installing and reserving. */
  ghost predicate FilledOk(s: State) {
    NoEmptyBursts(s) ==>
      forall key :: key in s.lists ==> s.lists[key].owners != [] || exists j: nat :: Installing(s, j, key)
  }

  ghost predicate Inv(s: State) {
    && JobsOk(s) && ReadOk(s) && ListsOk(s) && InstallsOk(s) && PushesOk(s)
    && OfflensOk(s) && SpaceOk(s) && MemOk(s) && AllocOk(s) && FilledOk(s)
  }

  lemma JobOrder(s: State, a: nat, b: nat)
    requires JobsOk(s) && a < |s.jobs| && b < |s.jobs|
    ensures || a == b
            || (a < b && s.jobs[a].burst.End() <= s.jobs[b].burst.start)
            || (b < a && s.jobs[b].burst.End() <= s.jobs[a].burst.start)
  {
  }

  // ----- one job makes one access -----

  /** After an access, exactly that access has been added to those passed. */
  lemma PassedAdvance(fs: seq<FilterList>, job: Job, i: int, st: nat, k: nat)
    requires PcOk(fs, job) && !AtEnd(job)
    requires ValidPoint(|fs|, job.burst, i, st) && k < Steps(OpAt(fs, job.burst, i, st))
    ensures Passed(Advance(fs, job), i, st, k) <==>
            Passed(job, i, st, k) || (i == job.i && st == job.st && k == job.sub)
  {
  }

  lemma AdvancePcOk(fs: seq<FilterList>, job: Job)
    requires PcOk(fs, job) && !AtEnd(job)
    ensures PcOk(fs, Advance(fs, job))
  {
    var next := Advance(fs, job);
    if !AtEnd(next) && next.sub == 0 {
      assert Steps(OpAt(fs, next.burst, next.i, next.st)) >= 1;
    }
  }

  lemma {:induction false} RelOffMonotone(pkts: seq<Packet>, a: nat, b: nat)
    requires a < b <= |pkts|
    ensures RelOff(pkts, a) + STAMP + |pkts[a]| <= RelOff(pkts, b)
    decreases b
  {
    if a < b - 1 { RelOffMonotone(pkts, a, b - 1); }
  }

  /** What a working step of job j does to the jobs. */
  ghost predicate Moves(s: State, s': State, j: nat)
    requires Enabled(s, Work(j))
  {
    && s'.filters == s.filters && s'.writeId == s.writeId && s'.readId == s.readId && s'.owner == s.owner
    && s'.dtail == DtailAfter(s, j)
    && s'.jobs == s.jobs[j := JobAfter(s, j)]
  }

  lemma WorkPassed(s: State, s': State, j: nat, a: nat, i: int, st: nat, k: nat)
    requires Enabled(s, Work(j)) && PcOk(s.filters, s.jobs[j]) && Moves(s, s', j) && a < |s.jobs|
    requires ValidPoint(|s.filters|, s.jobs[a].burst, i, st)
    requires k < Steps(OpAt(s.filters, s.jobs[a].burst, i, st))
    ensures Passed(s'.jobs[a], i, st, k) <==>
            Passed(s.jobs[a], i, st, k)
            || (a == j && i == s.jobs[j].i && st == s.jobs[j].st && k == s.jobs[j].sub)
  {
    if a == j { PassedAdvance(s.filters, s.jobs[j], i, st, k); }
  }

  lemma WorkJobs(s: State, s': State, j: nat)
    requires Enabled(s, Work(j)) && JobsOk(s) && ReadOk(s) && Moves(s, s', j)
    ensures JobsOk(s') && ReadOk(s')
  {
    forall a | 0 <= a < |s.jobs| ensures s'.jobs[a].burst == s.jobs[a].burst && s'.jobs[a].done == s.jobs[a].done {}
    AdvancePcOk(s.filters, s.jobs[j]);
    assert PcOk(s.filters, s'.jobs[j]);
    forall a, b | 0 <= a < b < |s'.jobs| ensures s'.jobs[a].burst.End() <= s'.jobs[b].burst.start {
      assert s.jobs[a].burst.End() <= s.jobs[b].burst.start;
    }
  }

  // ----- index lists -----

  /** The slot of the push in progress is reserved for it. */
  lemma CurrentPush(s: State, j: nat)
    requires Enabled(s, Work(j)) && JobsOk(s) && PushesOk(s)
    requires Pc(s, j).Push? && s.jobs[j].sub > RESERVE
    ensures var job := s.jobs[j];
            var k := SlotOfSub(job.sub);
            var slot := BaseOf(job, job.i, job.st) + k;
            && Pc(s, j).key in s.lists && k < Pc(s, j).count
            && (job.sub == AllocSub(k) || job.sub == StoreSub(k))
            && slot < |s.lists[Pc(s, j).key].owners|
            && s.lists[Pc(s, j).key].owners[slot] == Owner(j, job.i, job.st, k)
  {
    var job := s.jobs[j];
    assert PcOk(s.filters, job);
    assert Passed(job, job.i, job.st, RESERVE);
    assert PushOk(s, j, job.i, job.st);
  }

  /** A slot reserved earlier stays as it should be across any working step. */
  lemma OldSlot(s: State, s': State, j: nat, key: Key, n: nat)
    requires Enabled(s, Work(j)) && JobsOk(s) && ListsOk(s) && PushesOk(s) && Moves(s, s', j) && s'.lists == ListsAfter(s, j)
    requires key in s.lists && n < |s.lists[key].owners|
    ensures key in s'.lists && n < |s'.lists[key].owners|
    ensures SlotOk(s', key, n)
  {
    OldOwner(s, s', j, key, n);
    assert SlotOk(s, key, n);
    var o := s.lists[key].owners[n];
    WorkPassed(s, s', j, o.job, o.i, o.st, RESERVE);
    WorkPassed(s, s', j, o.job, o.i, o.st, AllocSub(o.k));
    WorkPassed(s, s', j, o.job, o.i, o.st, StoreSub(o.k));
    OldValue(s, s', j, key, n);
  }

  /** A working step fills slot n or makes sure of its bucket exactly when it is the push that
      owns the slot that is due to. */
  lemma OldValue(s: State, s': State, j: nat, key: Key, n: nat)
    requires Enabled(s, Work(j)) && JobsOk(s) && PushesOk(s) && s'.lists == ListsAfter(s, j)
    requires key in s.lists && n < |s.lists[key].owners| && key in s'.lists
    ensures s.lists[key].buckets <= s'.lists[key].buckets
    ensures var o := s.lists[key].owners[n];
            var job := s.jobs[j];
            var due := o.job == j && o.i == job.i && o.st == job.st && Pc(s, j).Push? && Pc(s, j).key == key;
            && (due && job.sub == AllocSub(o.k) && n == BaseOf(job, o.i, o.st) + o.k ==>
                  MonoLog.Bucket(n) in s'.lists[key].buckets)
            && (due && job.sub == StoreSub(o.k) && n == BaseOf(job, o.i, o.st) + o.k ==>
                  n in s'.lists[key].vals && s'.lists[key].vals[n] == Pc(s, j).first + o.k)
            && (!(due && job.sub == StoreSub(o.k)) ==>
                  (n in s'.lists[key].vals <==> n in s.lists[key].vals)
                  && (n in s.lists[key].vals ==> s'.lists[key].vals[n] == s.lists[key].vals[n]))
  {
    if Pc(s, j).Push? && Pc(s, j).key == key && s.jobs[j].sub > RESERVE { CurrentPush(s, j); }
  }

  lemma OldOwner(s: State, s': State, j: nat, key: Key, n: nat)
    requires Enabled(s, Work(j)) && JobsOk(s) && ListsOk(s) && Moves(s, s', j) && s'.lists == ListsAfter(s, j)
    requires key in s.lists && n < |s.lists[key].owners|
    ensures key in s'.lists && n < |s'.lists[key].owners|
    ensures var o := s.lists[key].owners[n];
            && s'.lists[key].owners[n] == o && o.job < |s.jobs| && s'.jobs[o.job].burst == s.jobs[o.job].burst
            && BaseOf(s'.jobs[o.job], o.i, o.st) == BaseOf(s.jobs[o.job], o.i, o.st)
  {
    assert SlotOk(s, key, n);
  }

  lemma NewSlot(s: State, s': State, j: nat, key: Key, n: nat)
    requires Enabled(s, Work(j)) && JobsOk(s) && ListsOk(s) && Moves(s, s', j) && s'.lists == ListsAfter(s, j)
    requires Pc(s, j).Push? && s.jobs[j].sub == RESERVE && key == Pc(s, j).key
    requires |ListAt(s, key).owners| <= n < |s'.lists[key].owners|
    ensures SlotOk(s', key, n)
  {
    var job := s.jobs[j];
    var k := n - |ListAt(s, key).owners|;
    assert s'.lists[key].owners[n] == Owner(j, job.i, job.st, k);
    WorkPassed(s, s', j, j, job.i, job.st, RESERVE);
    WorkPassed(s, s', j, j, job.i, job.st, AllocSub(k));
    WorkPassed(s, s', j, j, job.i, job.st, StoreSub(k));
    assert n !in ListAt(s, key).vals;
  }

  lemma WorkLists(s: State, s': State, j: nat)
    requires Enabled(s, Work(j)) && JobsOk(s) && ListsOk(s) && PushesOk(s) && Moves(s, s', j) && s'.lists == ListsAfter(s, j)
    ensures ListsOk(s')
  {
    if Pc(s, j).Push? && s.jobs[j].sub > RESERVE { CurrentPush(s, j); }
    forall key, n | key in s'.lists && n in s'.lists[key].vals ensures n < |s'.lists[key].owners| {
      assert key in s.lists;
    }
    forall key, n | key in s'.lists && 0 <= n < |s'.lists[key].owners| ensures SlotOk(s', key, n) {
      if key in s.lists && n < |s.lists[key].owners| {
        OldSlot(s, s', j, key, n);
      } else {
        NewSlot(s, s', j, key, n);
      }
    }
  }

  lemma WorkInstalls(s: State, s': State, j: nat)
    requires Enabled(s, Work(j)) && JobsOk(s) && InstallsOk(s) && Moves(s, s', j) && s'.lists == ListsAfter(s, j)
    ensures InstallsOk(s')
  {
    assert s.lists.Keys <= s'.lists.Keys;
    forall a, i, st | 0 <= a < |s'.jobs| && ValidPoint(|s'.filters|, s'.jobs[a].burst, i, st)
      && Passed(s'.jobs[a], i, st, INSTALL) && OpAt(s'.filters, s'.jobs[a].burst, i, st).Push?
      ensures OpAt(s'.filters, s'.jobs[a].burst, i, st).key in s'.lists
    {
      assert s'.jobs[a].burst == s.jobs[a].burst;
      WorkPassed(s, s', j, a, i, st, INSTALL);
    }
  }

  lemma NewPush(s: State, s': State, j: nat)
    requires Enabled(s, Work(j)) && Moves(s, s', j) && s'.lists == ListsAfter(s, j)
    requires s.jobs[j].sub == RESERVE
    ensures PushOk(s', j, s.jobs[j].i, s.jobs[j].st)
  {
    if Pc(s, j).Push? {
      var l := ListAt(s, Pc(s, j).key);
      assert s'.lists[Pc(s, j).key].owners == l.owners + Tickets(j, s.jobs[j].i, s.jobs[j].st, Pc(s, j).count);
    }
  }

  lemma OldPush(s: State, s': State, j: nat, a: nat, i: int, st: nat)
    requires Enabled(s, Work(j)) && JobsOk(s) && PushesOk(s) && Moves(s, s', j) && s'.lists == ListsAfter(s, j)
    requires a < |s.jobs| && ValidPoint(|s.filters|, s.jobs[a].burst, i, st) && Passed(s.jobs[a], i, st, RESERVE)
    ensures PushOk(s', a, i, st)
  {
    assert PushOk(s, a, i, st);
    assert BaseOf(s'.jobs[a], i, st) == BaseOf(s.jobs[a], i, st);
    var op := OpAt(s.filters, s.jobs[a].burst, i, st);
    if op.Push? {
      assert op.key in s'.lists && s.lists[op.key].owners <= s'.lists[op.key].owners;
    }
  }

  lemma WorkPushes(s: State, s': State, j: nat)
    requires Enabled(s, Work(j)) && JobsOk(s) && PushesOk(s) && Moves(s, s', j) && s'.lists == ListsAfter(s, j)
    ensures PushesOk(s')
  {
    forall a, i, st | 0 <= a < |s'.jobs| && ValidPoint(|s'.filters|, s'.jobs[a].burst, i, st)
      && Passed(s'.jobs[a], i, st, RESERVE)
      ensures PushOk(s', a, i, st)
    {
      assert s'.jobs[a].burst == s.jobs[a].burst;
      if OpAt(s.filters, s.jobs[a].burst, i, st).Push? {
        WorkPassed(s, s', j, a, i, st, RESERVE);
        if Passed(s.jobs[a], i, st, RESERVE) { OldPush(s, s', j, a, i, st); } else { NewPush(s, s', j); }
      }
    }
  }

  /** A push of a non-empty burst has something to push. */
  lemma PushesSomething(fs: seq<FilterList>, b: Burst, i: int, st: nat)
    requires ValidPoint(|fs|, b, i, st) && b.pkts != [] && OpAt(fs, b, i, st).Push?
    ensures OpAt(fs, b, i, st).count > 0
  {
  }

  lemma WorkFilled(s: State, s': State, j: nat)
    requires Enabled(s, Work(j)) && JobsOk(s) && InstallsOk(s) && FilledOk(s) && Moves(s, s', j)
    requires s'.lists == ListsAfter(s, j)
    ensures FilledOk(s')
  {
    if NoEmptyBursts(s') {
      forall a | 0 <= a < |s.jobs| ensures s.jobs[a].burst.pkts != [] {
        assert s'.jobs[a].burst == s.jobs[a].burst;
      }
      forall key | key in s'.lists && s'.lists[key].owners == [] ensures exists a: nat :: Installing(s', a, key) {
        FilledKey(s, s', j, key);
      }
    }
  }

  lemma FilledKey(s: State, s': State, j: nat, key: Key)
    requires Enabled(s, Work(j)) && JobsOk(s) && InstallsOk(s) && FilledOk(s) && NoEmptyBursts(s) && Moves(s, s', j)
    requires s'.lists == ListsAfter(s, j) && key in s'.lists && s'.lists[key].owners == []
    ensures exists a: nat :: Installing(s', a, key)
  {
    var job := s.jobs[j];
    assert PcOk(s.filters, job);
    if Pc(s, j).Push? && Pc(s, j).key == key && job.sub == INSTALL {
      assert Installing(s', j, key);
    } else {
      assert job.sub > INSTALL ==> Passed(job, job.i, job.st, INSTALL);
      assert key in s.lists && s.lists[key].owners == [];
      var a: nat :| Installing(s, a, key);
      PushesSomething(s.filters, s.jobs[a].burst, s.jobs[a].i, s.jobs[a].st);
      assert a != j;
      assert Installing(s', a, key);
    }
  }

  // ----- offset log and data log -----

  lemma DistinctIds(s: State, a: nat, i: nat, j: nat, k: nat)
    requires JobsOk(s) && a < |s.jobs| && j < |s.jobs|
    requires i < |s.jobs[a].burst.pkts| && k < |s.jobs[j].burst.pkts|
    requires s.jobs[a].burst.start + i == s.jobs[j].burst.start + k
    ensures a == j && i == k
  {
  }

  lemma WorkOfflens(s: State, s': State, j: nat)
    requires Enabled(s, Work(j)) && JobsOk(s) && OfflensOk(s) && Moves(s, s', j)
    requires s'.offlens == OfflensAfter(s, j)
    ensures OfflensOk(s')
  {
    var job := s.jobs[j];
    forall a, i | 0 <= a < |s'.jobs| && 0 <= i < |s'.jobs[a].burst.pkts| && Passed(s'.jobs[a], i, 4, 0)
      ensures OfflenOk(s', s'.jobs[a], i)
    {
      assert s'.jobs[a].burst == s.jobs[a].burst;
      WorkPassed(s, s', j, a, i, 4, 0);
      assert s'.jobs[a].off == s.jobs[a].off;
      assert WordFor(s'.jobs[a], i) == WordFor(s.jobs[a], i);
      if Pc(s, j).SetOfflen? && s.jobs[a].burst.start + i == job.burst.start + job.i {
        DistinctIds(s, a, i, j, job.i);
      }
    }
  }

  lemma WorkSpace(s: State, s': State, j: nat)
    requires Enabled(s, Work(j)) && JobsOk(s) && SpaceOk(s) && Moves(s, s', j)
    ensures SpaceOk(s')
  {
    forall a | 0 <= a < |s.jobs|
      ensures s'.jobs[a].burst == s.jobs[a].burst
      ensures HasBytes(s'.jobs[a]) <==> HasBytes(s.jobs[a]) || (a == j && Pc(s, j).ReserveBytes?)
    {
      WorkPassed(s, s', j, a, -1, 1, 0);
    }
    if Pc(s, j).ReserveBytes? { assert !HasBytes(s.jobs[j]); }
  }

  /** Addresses coincide only where the logical offsets do. */
  lemma AddressInjective(o: nat, k: nat, o': nat, k': nat)
    requires Address(o, k) == Address(o', k')
    ensures o + k == o' + k'
  {
    assert o == o / BLOCK * BLOCK + o % BLOCK;
    assert o' == o' / BLOCK * BLOCK + o' % BLOCK;
  }

  /** Byte k of packet i of job a never shares an address with another record byte. */
  lemma RecordsApart(s: State, a: nat, i: nat, k: nat, a': nat, i': nat, k': nat)
    requires SpaceOk(s) && a < |s.jobs| && a' < |s.jobs| && HasBytes(s.jobs[a]) && HasBytes(s.jobs[a'])
    requires i < |s.jobs[a].burst.pkts| && i' < |s.jobs[a'].burst.pkts|
    requires k < |RecordBytes(s.jobs[a].burst, i)| && k' < |RecordBytes(s.jobs[a'].burst, i')|
    requires Address(RecordOffset(s.jobs[a], i), k) == Address(RecordOffset(s.jobs[a'], i'), k')
    ensures a == a' && i == i' && k == k'
  {
    AddressInjective(RecordOffset(s.jobs[a], i), k, RecordOffset(s.jobs[a'], i'), k');
    RelOffMonotone(s.jobs[a].burst.pkts, i, |s.jobs[a].burst.pkts|);
    RelOffMonotone(s.jobs[a'].burst.pkts, i', |s.jobs[a'].burst.pkts|);
    if a == a' {
      if i < i' { RelOffMonotone(s.jobs[a].burst.pkts, i, i'); }
      if i' < i { RelOffMonotone(s.jobs[a].burst.pkts, i', i); }
    }
  }

  lemma WorkMem(s: State, s': State, j: nat)
    requires Enabled(s, Work(j)) && JobsOk(s) && SpaceOk(s) && MemOk(s) && Moves(s, s', j)
    requires s'.mem == MemAfter(s, j)
    ensures MemOk(s')
  {
    var job := s.jobs[j];
    forall a, i, k | 0 <= a < |s'.jobs| && 0 <= i < |s'.jobs[a].burst.pkts|
      && 0 <= k < |RecordBytes(s'.jobs[a].burst, i)| && Passed(s'.jobs[a], i, 5, k)
      ensures ByteOk(s', s'.jobs[a], i, k)
    {
      assert s'.jobs[a].burst == s.jobs[a].burst;
      WorkPassed(s, s', j, a, i, 5, k);
      assert s'.jobs[a].off == s.jobs[a].off;
      if Pc(s, j).Store? && Address(RecordOffset(s.jobs[a], i), k) == Address(RecordOffset(job, job.i), job.sub) {
        RecordsApart(s, a, i, k, j, job.i, job.sub);
      }
    }
  }

  lemma WorkAlloc(s: State, s': State, j: nat)
    requires Enabled(s, Work(j)) && JobsOk(s) && AllocOk(s) && Moves(s, s', j)
    requires s'.idBlocks == IdBlocksAfter(s, j) && s'.dataBlocks == DataBlocksAfter(s, j)
    ensures AllocOk(s')
  {
    forall a | 0 <= a < |s.jobs|
      ensures Passed(s'.jobs[a], -1, 0, 0) ==>
                Blocks(s'.jobs[a].burst.start, s'.jobs[a].burst.End(), ID_BLOCK) <= s'.idBlocks
      ensures Passed(s'.jobs[a], -1, 2, 0) ==>
                Blocks(s'.jobs[a].off, s'.jobs[a].off + Bytes(s'.jobs[a].burst), BLOCK) <= s'.dataBlocks
    {
      assert s'.jobs[a].burst == s.jobs[a].burst;
      WorkPassed(s, s', j, a, -1, 0, 0);
      WorkPassed(s, s', j, a, -1, 2, 0);
    }
  }

  // ----- the invariant is inductive -----

  lemma InitInv(fs: seq<FilterList>)
    ensures Inv(Init(fs))
  {
  }

  lemma WorkInv(s: State, j: nat)
    requires Enabled(s, Work(j)) && Inv(s)
    ensures Inv(DoWork(s, j))
  {
    var s' := DoWork(s, j);
    WorkJobs(s, s', j); WorkLists(s, s', j); WorkInstalls(s, s', j); WorkPushes(s, s', j); WorkFilled(s, s', j);
    WorkOfflens(s, s', j); WorkSpace(s, s', j); WorkMem(s, s', j); WorkAlloc(s, s', j);
  }

  lemma StartJobs(s: State, now: nat, pkts: seq<Packet>)
    requires Enabled(s, Start(now, pkts)) && Inv(s)
    ensures JobsOk(Apply(s, Start(now, pkts))) && ReadOk(Apply(s, Start(now, pkts)))
  {
    var s' := Apply(s, Start(now, pkts));
    forall id | 0 <= id < |s'.owner| ensures s'.owner[id] < |s'.jobs| && s'.jobs[s'.owner[id]].burst.Owns(id) {
      if id < |s.owner| {
        assert s'.owner[id] == s.owner[id];
        assert s'.jobs[s.owner[id]] == s.jobs[s.owner[id]];
      } else {
        assert s'.owner[id] == |s.jobs|;
      }
    }
  }

  /** A step that changes no shared memory except the two counters. */
  ghost predicate Quiet(s: State, s': State) {
    && s'.filters == s.filters && s'.dtail == s.dtail
    && s'.idBlocks == s.idBlocks && s'.dataBlocks == s.dataBlocks
    && s'.offlens == s.offlens && s'.mem == s.mem && s'.lists == s.lists
    && |s.jobs| <= |s'.jobs|
    && (forall a :: 0 <= a < |s.jobs| ==> s'.jobs[a] == s.jobs[a].(done := s'.jobs[a].done))
    && (forall a :: |s.jobs| <= a < |s'.jobs| ==> s'.jobs[a].i == -1 && s'.jobs[a].st == 0 && s'.jobs[a].sub == 0)
  }

  lemma QuietPassed(s: State, s': State, a: nat, i: int, st: nat, k: nat)
    requires Quiet(s, s') && a < |s'.jobs| && -1 <= i
    ensures Passed(s'.jobs[a], i, st, k) <==> a < |s.jobs| && Passed(s.jobs[a], i, st, k)
  {
  }

  lemma QuietLists(s: State, s': State)
    requires Quiet(s, s') && ListsOk(s) && InstallsOk(s) && PushesOk(s)
    ensures ListsOk(s') && InstallsOk(s') && PushesOk(s')
  {
    forall key, n | key in s'.lists && 0 <= n < |s'.lists[key].owners| ensures SlotOk(s', key, n) {
      assert SlotOk(s, key, n);
      var o := s.lists[key].owners[n];
      QuietPassed(s, s', o.job, o.i, o.st, RESERVE);
      QuietPassed(s, s', o.job, o.i, o.st, AllocSub(o.k));
      QuietPassed(s, s', o.job, o.i, o.st, StoreSub(o.k));
    }
    forall a, i, st | 0 <= a < |s'.jobs| && ValidPoint(|s'.filters|, s'.jobs[a].burst, i, st)
      && Passed(s'.jobs[a], i, st, RESERVE)
      ensures PushOk(s', a, i, st)
    {
      QuietPassed(s, s', a, i, st, RESERVE);
      assert PushOk(s, a, i, st);
    }
    forall a, i, st | 0 <= a < |s'.jobs| && ValidPoint(|s'.filters|, s'.jobs[a].burst, i, st)
      && Passed(s'.jobs[a], i, st, INSTALL)
      ensures a < |s.jobs| && Passed(s.jobs[a], i, st, INSTALL)
    {
      QuietPassed(s, s', a, i, st, INSTALL);
    }
  }

  lemma QuietFilled(s: State, s': State)
    requires Quiet(s, s') && FilledOk(s)
    ensures FilledOk(s')
  {
    if NoEmptyBursts(s') {
      forall a | 0 <= a < |s.jobs| ensures s.jobs[a].burst.pkts != [] { assert s'.jobs[a].burst == s.jobs[a].burst; }
      forall key | key in s'.lists && s'.lists[key].owners == [] ensures exists a: nat :: Installing(s', a, key) {
        var a: nat :| Installing(s, a, key);
        assert Installing(s', a, key);
      }
    }
  }

  lemma QuietLogs(s: State, s': State)
    requires Quiet(s, s') && OfflensOk(s) && SpaceOk(s) && AllocOk(s)
    ensures OfflensOk(s') && SpaceOk(s') && AllocOk(s')
  {
    forall a, i | 0 <= a < |s'.jobs| && 0 <= i < |s'.jobs[a].burst.pkts| && Passed(s'.jobs[a], i, 4, 0)
      ensures OfflenOk(s', s'.jobs[a], i)
    {
      QuietPassed(s, s', a, i, 4, 0);
      assert WordFor(s'.jobs[a], i) == WordFor(s.jobs[a], i);
    }
    forall a | 0 <= a < |s'.jobs|
      ensures HasBytes(s'.jobs[a]) <==> a < |s.jobs| && HasBytes(s.jobs[a])
    { QuietPassed(s, s', a, -1, 1, 0); }
  }

  lemma QuietMem(s: State, s': State)
    requires Quiet(s, s') && MemOk(s)
    ensures MemOk(s')
  {
    forall a, i, k | 0 <= a < |s'.jobs| && 0 <= i < |s'.jobs[a].burst.pkts|
      && 0 <= k < |RecordBytes(s'.jobs[a].burst, i)| && Passed(s'.jobs[a], i, 5, k)
      ensures ByteOk(s', s'.jobs[a], i, k)
    {
      QuietPassed(s, s', a, i, 5, k);
      assert RecordBytes(s'.jobs[a].burst, i) == RecordBytes(s.jobs[a].burst, i);
    }
  }

  lemma PublishJobs(s: State, j: nat)
    requires Enabled(s, Publish(j)) && JobsOk(s) && ReadOk(s)
    ensures JobsOk(Apply(s, Publish(j))) && ReadOk(Apply(s, Publish(j)))
  {
    var s' := Apply(s, Publish(j));
    forall a | 0 <= a < |s'.jobs| ensures s'.jobs[a].burst == s.jobs[a].burst {}
    forall a, b | 0 <= a < b < |s'.jobs| ensures s'.jobs[a].burst.End() <= s'.jobs[b].burst.start {
      assert s.jobs[a].burst.End() <= s.jobs[b].burst.start;
    }
    forall a | 0 <= a < |s'.jobs| ensures PcOk(s'.filters, s'.jobs[a]) { assert PcOk(s.filters, s.jobs[a]); }
    forall id | 0 <= id < |s'.owner| ensures s'.owner[id] < |s'.jobs| && s'.jobs[s'.owner[id]].burst.Owns(id) {
      assert s.jobs[s.owner[id]].burst.Owns(id);
    }
    PublishRead(s, j);
  }

  lemma PublishRead(s: State, j: nat)
    requires Enabled(s, Publish(j)) && JobsOk(s) && ReadOk(s)
    ensures ReadOk(Apply(s, Publish(j)))
  {
    forall a | 0 <= a < |s.jobs| && a != j ensures Apply(s, Publish(j)).jobs[a] == s.jobs[a] {
      JobOrder(s, a, j);
    }
  }

  lemma StartInv(s: State, now: nat, pkts: seq<Packet>)
    requires Inv(s) && Enabled(s, Start(now, pkts))
    ensures Inv(Apply(s, Start(now, pkts)))
  {
    var s' := Apply(s, Start(now, pkts));
    StartJobs(s, now, pkts);
    QuietLists(s, s'); QuietFilled(s, s'); QuietLogs(s, s'); QuietMem(s, s');
  }

  lemma PublishInv(s: State, j: nat)
    requires Inv(s) && Enabled(s, Publish(j))
    ensures Inv(Apply(s, Publish(j)))
  {
    var s' := Apply(s, Publish(j));
    PublishJobs(s, j);
    QuietLists(s, s'); QuietFilled(s, s'); QuietLogs(s, s'); QuietMem(s, s');
  }

  lemma StepInv(s: State, step: Step)
    requires Inv(s) && Enabled(s, step)
    ensures Inv(Apply(s, step))
  {
    match step
    case Start(now, pkts) => StartInv(s, now, pkts);
    case Work(j) => WorkInv(s, j);
    case Publish(j) => PublishInv(s, j);
    case Spin(_) =>
  }

  /** The invariant holds in every state of every run. */
  lemma {:induction false} RunInv(s: State, steps: seq<Step>)
    requires Inv(s) && RunOk(s, steps)
    ensures Inv(Run(s, steps))
    decreases |steps|
  {
    if steps != [] {
      StepInv(s, steps[0]);
      RunInv(Apply(s, steps[0]), steps[1..]);
    }
  }
}
