/**
 The memory behind the publish protocol is finite: blocks with a spill buffer, block
 tables, entry lists and key spaces. A state is tame while every access made so far
 lay inside that memory; nothing is promised of the program after one that did not.
 */
module PublishLimits {
  import opened Packets
  import opened PublishProtocol
  import opened PublishInvariant
  import MonoLog

  /** Entries of a block table, of the data log and of the offset log. */
  const TABLE: nat := 1024
  /** Bytes the data log and ids the offset log can address. */
  const LOG_CAPACITY: nat := 0x100_0000_0000
  const ID_CAPACITY: nat := 0x4_0000_0000
  const MAX_FILTERS: nat := 0x1_0000

  /** Both are what a full table of blocks holds. */
  lemma CapacityIsTable()
    ensures LOG_CAPACITY == TABLE * BLOCK && ID_CAPACITY == TABLE * ID_BLOCK
  {
  }

  /** Inside a block or its spill buffer. */
  predicate InMemory(a: (nat, nat)) { a.0 < TABLE && a.1 < BLOCK + BUFFER }

  /** A key of its index: 16-bit ports, 32-bit addresses and seconds. */
  predicate KeyExists(key: Key) {
    match key.index
    case SrcPrt => key.token < 0x1_0000
    case DstPrt => key.token < 0x1_0000
    case Character(c) => c < MAX_FILTERS && key.token < SECONDS
    case _ => key.token < SECONDS
  }

  /** Access k of the statement at (i, st) goes to memory that exists. */
  predicate AccessFits(fs: seq<FilterList>, job: Job, i: int, st: nat, k: nat)
    requires ValidPoint(|fs|, job.burst, i, st)
  {
    match OpAt(fs, job.burst, i, st)
    case AllocIds => job.burst.End() < ID_CAPACITY
    case ReserveBytes => true
    case AllocBytes => job.off + Bytes(job.burst) < LOG_CAPACITY
    case Push(key, _, _) =>
      if k == INSTALL then KeyExists(key)
      else k > RESERVE ==> BaseOf(job, i, st) + SlotOfSub(k) < MonoLog.LIST_CAPACITY
    case SetOfflen => job.burst.start + i < ID_CAPACITY
    case Store(data) => k < |data| ==> InMemory(Address(RecordOffset(job, i), k))
    case Skip => true
  }

  predicate Access(fs: seq<FilterList>, job: Job, i: int, st: nat, k: nat) {
    ValidPoint(|fs|, job.burst, i, st) && k < Steps(OpAt(fs, job.burst, i, st))
  }

  ghost predicate JobTame(fs: seq<FilterList>, job: Job) {
    forall i: int, st: nat, k: nat ::
      Access(fs, job, i, st, k) && Passed(job, i, st, k) ==> AccessFits(fs, job, i, st, k)
  }

  ghost predicate Tame(s: State) { forall j :: 0 <= j < |s.jobs| ==> JobTame(s.filters, s.jobs[j]) }

  // ----- tameness is a history: one access at a time -----

  /** What a passed access touched does not depend on later accesses. */
  lemma FitsStays(s: State, j: nat, i: int, st: nat, k: nat)
    requires Enabled(s, Work(j)) && PcOk(s.filters, s.jobs[j])
    requires Access(s.filters, s.jobs[j], i, st, k) && Passed(s.jobs[j], i, st, k)
    ensures AccessFits(s.filters, JobAfter(s, j), i, st, k) <==> AccessFits(s.filters, s.jobs[j], i, st, k)
  {
  }

  lemma WorkTame(s: State, j: nat)
    requires Enabled(s, Work(j)) && PcOk(s.filters, s.jobs[j])
    ensures JobTame(s.filters, JobAfter(s, j)) <==>
            && JobTame(s.filters, s.jobs[j])
            && AccessFits(s.filters, JobAfter(s, j), s.jobs[j].i, s.jobs[j].st, s.jobs[j].sub)
  {
    var fs, job, next := s.filters, s.jobs[j], JobAfter(s, j);
    forall i: int, st: nat, k: nat | Access(fs, job, i, st, k)
      ensures Passed(next, i, st, k) <==> Passed(job, i, st, k) || (i == job.i && st == job.st && k == job.sub)
      ensures Passed(job, i, st, k) ==> (AccessFits(fs, next, i, st, k) <==> AccessFits(fs, job, i, st, k))
    {
      PassedAdvance(fs, job, i, st, k);
      if Passed(job, i, st, k) { FitsStays(s, j, i, st, k); }
    }
    assert Access(fs, job, job.i, job.st, job.sub);
    assert forall i: int, st: nat, k: nat :: Access(fs, next, i, st, k) <==> Access(fs, job, i, st, k);
  }

  /** A step keeps a state tame exactly when the access it makes fits. */
  lemma StepTame(s: State, step: Step)
    requires Inv(s) && Enabled(s, step)
    ensures Tame(Apply(s, step)) <==>
            Tame(s) && (step.Work? ==>
                          AccessFits(s.filters, JobAfter(s, step.job), s.jobs[step.job].i, s.jobs[step.job].st,
                                     s.jobs[step.job].sub))
  {
    var s' := Apply(s, step);
    match step
    case Work(j) =>
      assert PcOk(s.filters, s.jobs[j]);
      WorkTame(s, j);
      TameUpdate(s, s', j);
    case Start(_, _) =>
      FreshTame(s.filters, s'.jobs[|s.jobs|]);
      assert forall a :: 0 <= a < |s.jobs| ==> s'.jobs[a] == s.jobs[a];
    case Publish(j) =>
      DoneIrrelevant(s.filters, s.jobs[j], s'.jobs[j]);
      TameUpdate(s, s', j);
    case Spin(_) =>
  }

  lemma TameUpdate(s: State, s': State, j: nat)
    requires j < |s.jobs| && s'.filters == s.filters && |s'.jobs| == |s.jobs| && s'.jobs == s.jobs[j := s'.jobs[j]]
    requires JobTame(s.filters, s'.jobs[j]) ==> JobTame(s.filters, s.jobs[j])
    ensures Tame(s') <==> Tame(s) && JobTame(s.filters, s'.jobs[j])
  {
    assert forall a :: 0 <= a < |s.jobs| && a != j ==> s'.jobs[a] == s.jobs[a];
  }

  lemma FreshTame(fs: seq<FilterList>, job: Job)
    requires job.i == -1 && job.st == 0 && job.sub == 0
    ensures JobTame(fs, job)
  {
  }

  lemma DoneIrrelevant(fs: seq<FilterList>, job: Job, job': Job)
    requires job' == job.(done := job'.done)
    ensures JobTame(fs, job') <==> JobTame(fs, job)
  {
    forall i: int, st: nat, k: nat
      ensures Access(fs, job', i, st, k) <==> Access(fs, job, i, st, k)
      ensures Access(fs, job, i, st, k) ==> (AccessFits(fs, job', i, st, k) <==> AccessFits(fs, job, i, st, k))
    {
    }
  }

  /** Once lost, tameness never comes back. */
  lemma {:induction false} TameBefore(s: State, steps: seq<Step>)
    requires Inv(s) && RunOk(s, steps) && Tame(Run(s, steps))
    ensures Tame(s)
    decreases |steps|
  {
    if steps != [] {
      StepInv(s, steps[0]);
      TameBefore(Apply(s, steps[0]), steps[1..]);
      StepTame(s, steps[0]);
    }
  }

  // ----- the same in terms of what is inserted -----

  predicate EndsAt(job: Job, t: nat) { HasBytes(job) && job.off + Bytes(job.burst) == t }

  /** The data tail is the end of some burst's bytes. */
  ghost predicate TailOk(s: State) {
    s.dtail == 0 || exists j :: 0 <= j < |s.jobs| && EndsAt(s.jobs[j], s.dtail)
  }

  lemma StepTail(s: State, step: Step)
    requires Inv(s) && Enabled(s, step) && TailOk(s)
    ensures TailOk(Apply(s, step))
  {
    var s' := Apply(s, step);
    if step.Work? { assert PcOk(s.filters, s.jobs[step.job]); }
    if step.Work? && Pc(s, step.job).ReserveBytes? {
      assert EndsAt(s'.jobs[step.job], s'.dtail);
    } else if a :| 0 <= a < |s.jobs| && EndsAt(s.jobs[a], s.dtail) {
      if step == Work(a) { BytesStay(s, a); }
      assert EndsAt(s'.jobs[a], s'.dtail);
    }
  }

  /** A reserved byte range stays where it is. */
  lemma BytesStay(s: State, j: nat)
    requires Enabled(s, Work(j)) && PcOk(s.filters, s.jobs[j]) && HasBytes(s.jobs[j])
    ensures HasBytes(JobAfter(s, j)) && JobAfter(s, j).off == s.jobs[j].off && JobAfter(s, j).burst == s.jobs[j].burst
  {
    PassedAdvance(s.filters, s.jobs[j], -1, 1, 0);
  }

  lemma {:induction false} RunTail(s: State, steps: seq<Step>)
    requires Inv(s) && RunOk(s, steps) && TailOk(s)
    ensures TailOk(Run(s, steps))
    decreases |steps|
  {
    if steps != [] {
      StepTail(s, steps[0]);
      StepInv(s, steps[0]);
      RunTail(Apply(s, steps[0]), steps[1..]);
    }
  }

  /** A record that ends inside its block and spill buffer. */
  predicate RecordFits(job: Job, i: nat)
    requires i < |job.burst.pkts|
  { RecordOffset(job, i) % BLOCK + STAMP + |job.burst.pkts[i]| <= BLOCK + BUFFER }

  ghost predicate BurstLimits(job: Job) {
    job.burst.now < SECONDS && forall i :: 0 <= i < |job.burst.pkts| ==> RecordFits(job, i)
  }

  /** What the callers have to stay within: 2^40 bytes, 2^34 ids, 32-bit seconds, records
      that fit where they fall, and at most 2^28 - 16 entries per list. */
  ghost predicate Limits(s: State) {
    && |s.filters| <= MAX_FILTERS && s.dtail < LOG_CAPACITY && s.writeId < ID_CAPACITY
    && (forall j :: 0 <= j < |s.jobs| ==> BurstLimits(s.jobs[j]))
    && (forall key :: key in s.lists ==> |s.lists[key].owners| <= MonoLog.LIST_CAPACITY)
  }

  lemma KeysExist(fs: seq<FilterList>, b: Burst, i: int, st: nat)
    requires ValidPoint(|fs|, b, i, st) && OpAt(fs, b, i, st).Push? && |fs| <= MAX_FILTERS
    ensures KeyExists(OpAt(fs, b, i, st).key) <==>
            OpAt(fs, b, i, st).key.index in {SrcIp, DstIp, SrcPrt, DstPrt} || b.now < SECONDS
  {
  }

  lemma RecordInMemory(job: Job, i: nat, k: nat)
    requires i < |job.burst.pkts| && RecordFits(job, i) && RecordOffset(job, i) < LOG_CAPACITY
    requires k < STAMP + |job.burst.pkts[i]|
    ensures InMemory(Address(RecordOffset(job, i), k))
  {
  }

  lemma SlotWithinLimits(s: State, j: nat, i: int, st: nat, k: nat)
    requires PushesOk(s) && Limits(s) && j < |s.jobs| && k > RESERVE
    requires Access(s.filters, s.jobs[j], i, st, k) && Passed(s.jobs[j], i, st, k)
    requires OpAt(s.filters, s.jobs[j].burst, i, st).Push?
    ensures BaseOf(s.jobs[j], i, st) + SlotOfSub(k) < MonoLog.LIST_CAPACITY
  {
    assert Passed(s.jobs[j], i, st, RESERVE);
    assert PushOk(s, j, i, st);
  }

  lemma AccessWithinLimits(s: State, j: nat, i: int, st: nat, k: nat)
    requires Inv(s) && Limits(s) && j < |s.jobs|
    requires Access(s.filters, s.jobs[j], i, st, k) && Passed(s.jobs[j], i, st, k)
    ensures AccessFits(s.filters, s.jobs[j], i, st, k)
  {
    var job := s.jobs[j];
    assert BurstLimits(job) && job.burst.End() <= s.writeId;
    match OpAt(s.filters, job.burst, i, st)
    case Push(key, _, _) =>
      KeysExist(s.filters, job.burst, i, st);
      if k > RESERVE { SlotWithinLimits(s, j, i, st, k); }
    case Store(data) =>
      assert HasBytes(job) && RecordFits(job, i);
      RelOffMonotone(job.burst.pkts, i, |job.burst.pkts|);
      if k < |data| { RecordInMemory(job, i, k); }
    case AllocBytes => assert HasBytes(job);
    case _ =>
  }

  /** Within the limits every state is tame, whatever is in flight. */
  lemma LimitsSuffice(s: State)
    requires Inv(s) && Limits(s)
    ensures Tame(s)
  {
    forall j, i: int, st: nat, k: nat | 0 <= j < |s.jobs| && Access(s.filters, s.jobs[j], i, st, k)
      && Passed(s.jobs[j], i, st, k)
      ensures AccessFits(s.filters, s.jobs[j], i, st, k)
    {
      AccessWithinLimits(s, j, i, st, k);
    }
  }

  /** A finished tame job has used the limits only as far as they go. */
  lemma TameJob(s: State, j: nat)
    requires Inv(s) && j < |s.jobs| && AtEnd(s.jobs[j]) && JobTame(s.filters, s.jobs[j])
    ensures BurstLimits(s.jobs[j]) && HasBytes(s.jobs[j])
    ensures s.jobs[j].off + Bytes(s.jobs[j].burst) < LOG_CAPACITY && s.jobs[j].burst.End() < ID_CAPACITY
  {
    var fs, job := s.filters, s.jobs[j];
    assert PcOk(fs, job);
    assert Access(fs, job, -1, 0, 0) && AccessFits(fs, job, -1, 0, 0);
    assert Access(fs, job, -1, 2, 0) && AccessFits(fs, job, -1, 2, 0);
    assert Access(fs, job, -1, 3, 0) && AccessFits(fs, job, -1, 3, 0);
    forall i | 0 <= i < |job.burst.pkts| ensures RecordFits(job, i) {
      var k := STAMP + |job.burst.pkts[i]| - 1;
      assert Access(fs, job, i, 5, k) && AccessFits(fs, job, i, 5, k);
    }
  }

  lemma TameList(s: State, key: Key)
    requires Inv(s) && Idle(s) && Tame(s) && key in s.lists
    ensures |s.lists[key].owners| <= MonoLog.LIST_CAPACITY
  {
    if s.lists[key].owners != [] {
      var n := |s.lists[key].owners| - 1;
      assert SlotOk(s, key, n);
      var o := s.lists[key].owners[n];
      var job := s.jobs[o.job];
      assert PcOk(s.filters, job) && JobTame(s.filters, job);
      assert Access(s.filters, job, o.i, o.st, StoreSub(o.k));
      assert AccessFits(s.filters, job, o.i, o.st, StoreSub(o.k));
    }
  }

  lemma TameNeeds(s: State)
    requires Inv(s) && TailOk(s) && Idle(s) && Tame(s) && |s.filters| <= MAX_FILTERS
    ensures Limits(s)
  {
    forall j | 0 <= j < |s.jobs|
      ensures BurstLimits(s.jobs[j]) && s.jobs[j].off + Bytes(s.jobs[j].burst) < LOG_CAPACITY
              && s.jobs[j].burst.End() < ID_CAPACITY
    {
      assert PcOk(s.filters, s.jobs[j]);
      TameJob(s, j);
    }
    if s.writeId > 0 { assert s.jobs[s.owner[s.writeId - 1]].burst.Owns(s.writeId - 1); }
    forall key | key in s.lists ensures |s.lists[key].owners| <= MonoLog.LIST_CAPACITY { TameList(s, key); }
  }

  /** With nothing in flight, no access of the run left its memory if and only if what was
      inserted stayed within the limits. */
  lemma TameExactly(fs: seq<FilterList>, steps: seq<Step>)
    requires RunOk(Init(fs), steps) && Idle(Run(Init(fs), steps)) && |fs| <= MAX_FILTERS
    ensures Tame(Run(Init(fs), steps)) <==> Limits(Run(Init(fs), steps))
  {
    var s := Run(Init(fs), steps);
    InitInv(fs);
    RunInv(Init(fs), steps);
    RunTail(Init(fs), steps);
    SameFilters(Init(fs), steps);
    if Limits(s) { LimitsSuffice(s); }
    if Tame(s) { TameNeeds(s); }
  }

  lemma {:induction false} SameFilters(s: State, steps: seq<Step>)
    requires RunOk(s, steps)
    ensures Run(s, steps).filters == s.filters
    decreases |steps|
  {
    if steps != [] { SameFilters(Apply(s, steps[0]), steps[1..]); }
  }
}
