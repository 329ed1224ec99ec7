/**
 Which packets a caller may insert: a copy can leave the block and its spill buffer
 exactly when records of more than 1025 bytes are inserted.
 */
module PublishOverrun {
  import opened Packets
  import opened PublishProtocol
  import opened PublishInvariant
  import opened PublishLimits
  import opened PublishProgress

  /** Every packet inserted so far has at most max bytes. */
  ghost predicate AllShort(s: State, max: nat) {
    forall j, i :: 0 <= j < |s.jobs| && 0 <= i < |s.jobs[j].burst.pkts| ==> |s.jobs[j].burst.pkts[i]| <= max
  }

  /** A byte has been copied past the end of the spill buffer. */
  ghost predicate Overrun(s: State) {
    exists j, i: nat, k: nat :: 0 <= j < |s.jobs| && i < |s.jobs[j].burst.pkts| && OverrunAt(s.jobs[j], i, k)
  }

  predicate OverrunAt(job: Job, i: nat, k: nat)
    requires i < |job.burst.pkts|
  {
    k < STAMP + |job.burst.pkts[i]| && Passed(job, i, 5, k) && Address(RecordOffset(job, i), k).1 >= BLOCK + BUFFER
  }

  /** Such a state is not tame. */
  lemma OverrunIsWild(s: State)
    requires Overrun(s)
    ensures !Tame(s)
  {
    var j, i: nat, k: nat :| 0 <= j < |s.jobs| && i < |s.jobs[j].burst.pkts| && OverrunAt(s.jobs[j], i, k);
    assert Access(s.filters, s.jobs[j], i, 5, k) && !AccessFits(s.filters, s.jobs[j], i, 5, k);
  }

  ghost predicate NeverOverruns(fs: seq<FilterList>, max: nat) {
    forall steps :: RunOk(Init(fs), steps) && AllShort(Run(Init(fs), steps), max) ==> !Overrun(Run(Init(fs), steps))
  }

  /** The exact condition on callers: no run of packets of at most max bytes overruns a
      spill buffer iff a record of max bytes and its timestamp has at most 1025. */
  lemma LengthSafeExactly(fs: seq<FilterList>, max: nat)
    requires max < 0x1_0000
    ensures NeverOverruns(fs, max) <==> STAMP + max <= BUFFER + 1
  {
    if STAMP + max > BUFFER + 1 {
      var steps := OverrunningRun(fs, max);
    }
  }

  // ----- a run that overruns -----

  /** s' is s with one more burst, which has reserved its bytes. */
  ghost predicate Added(s: State, s': State, pkts: seq<Packet>) {
    && Inv(s') && s'.readId == s.readId && s'.dtail == s.dtail + RelOff(pkts, |pkts|)
    && |s'.jobs| == |s.jobs| + 1 && s'.jobs[..|s.jobs|] == s.jobs
    && var job := s'.jobs[|s.jobs|];
    && HasBytes(job) && job.off == s.dtail && job.burst == Burst(s.writeId, 0, pkts)
  }

  lemma AddBurst(s: State, pkts: seq<Packet>) returns (steps: seq<Step>)
    requires Inv(s) && Enabled(s, Start(0, pkts))
    ensures RunOk(s, steps) && Added(s, Run(s, steps), pkts)
  {
    var j := |s.jobs|;
    var s1 := Apply(s, Start(0, pkts));
    StepInv(s, Start(0, pkts));
    Reserve(s1, j);
    TwoSteps(s1, j);
    RunCons(s, Start(0, pkts), [Work(j)] + [Work(j)]);
    steps := [Start(0, pkts)] + ([Work(j)] + [Work(j)]);
  }

  lemma TwoSteps(s: State, j: nat)
    requires Enabled(s, Work(j)) && Enabled(Apply(s, Work(j)), Work(j))
    ensures RunOk(s, [Work(j)] + [Work(j)]) && Run(s, [Work(j)] + [Work(j)]) == Apply(Apply(s, Work(j)), Work(j))
  {
    RunCons(Apply(s, Work(j)), Work(j), []);
    RunCons(s, Work(j), [Work(j)]);
  }

  /** The first two accesses of a burst allocate its ids and reserve its bytes. */
  lemma Reserve(s: State, j: nat)
    requires Inv(s) && j < |s.jobs| && s.jobs[j].i == -1 && s.jobs[j].st == 0 && s.jobs[j].sub == 0
    ensures Enabled(s, Work(j)) && Enabled(Apply(s, Work(j)), Work(j))
    ensures var s' := Apply(Apply(s, Work(j)), Work(j));
            && Inv(s') && s'.readId == s.readId && s'.dtail == s.dtail + Bytes(s.jobs[j].burst)
            && s'.jobs == s.jobs[j := s'.jobs[j]]
            && HasBytes(s'.jobs[j]) && s'.jobs[j].off == s.dtail && s'.jobs[j].burst == s.jobs[j].burst
  {
    StepInv(s, Work(j));
    StepInv(Apply(s, Work(j)), Work(j));
  }

  /** good stands for the invariant and short packets. */
  ghost predicate Judges(good: State -> bool, max: nat) {
    forall s {:trigger Inv(s)} :: good(s) <==> Inv(s) && AllShort(s, max)
  }

  ghost function Good(max: nat): State -> bool { (s: State) => Inv(s) && AllShort(s, max) }

  ghost predicate Filled(s: State, s': State, bytes: nat, good: State -> bool) {
    good(s') && s'.readId == s.readId && s'.dtail == s.dtail + bytes
  }

  /** n bursts of one packet of len bytes each. */
  lemma {:induction false} AddMany(s: State, len: nat, n: nat, max: nat, good: State -> bool) returns (steps: seq<Step>)
    requires Judges(good, max) && good(s) && len <= max < 0x1_0000
    ensures RunOk(s, steps) && Filled(s, Run(s, steps), Times(n, STAMP + len), good)
    decreases n
  {
    if n == 0 {
      steps := [];
    } else {
      var first := AddOne(s, len, max, good);
      var rest := AddMany(Run(s, first), len, n - 1, max, good);
      RunConcat(s, first, rest);
      steps := first + rest;
    }
  }

  function Times(n: nat, bytes: nat): nat { if n == 0 then 0 else bytes + Times(n - 1, bytes) }

  lemma {:induction false} TimesIs(n: nat, bytes: nat)
    ensures Times(n, bytes) == n * bytes
  {
    if n > 0 { TimesIs(n - 1, bytes); }
  }

  lemma AddOne(s: State, len: nat, max: nat, good: State -> bool) returns (steps: seq<Step>)
    requires Judges(good, max) && good(s) && len <= max < 0x1_0000
    ensures RunOk(s, steps) && Filled(s, Run(s, steps), STAMP + len, good)
  {
    assert Inv(s);
    var pkts: seq<Packet> := [seq(len, _ => 0)];
    steps := AddBurst(s, pkts);
    assert RelOff(pkts, 1) == RelOff(pkts, 0) + STAMP + len;
    ShortAfter(s, Run(s, steps), pkts, max);
  }

  /** A block filled up to its last byte. */
  lemma FillBlock(fs: seq<FilterList>, max: nat) returns (steps: seq<Step>)
    requires 0 < max < 0x1_0000
    ensures RunOk(Init(fs), steps)
    ensures var s := Run(Init(fs), steps);
            Inv(s) && AllShort(s, max) && s.readId == 0 && s.dtail == BLOCK - 1
  {
    InitInv(fs);
    steps := FillFrom(Init(fs), max, Good(max));
  }

  lemma FillFrom(s: State, max: nat, good: State -> bool) returns (steps: seq<Step>)
    requires Judges(good, max) && good(s) && 0 < max < 0x1_0000
    ensures RunOk(s, steps) && Filled(s, Run(s, steps), BLOCK - 1, good)
  {
    var n := 0x7FF_FFF8;
    var a := AddMany(s, 0, n, max, good);
    var b := AddMany(Run(s, a), 1, 7, max, good);
    RunConcat(s, a, b);
    TimesIs(n, 8);
    TimesIs(7, 9);
    steps := a + b;
  }

  lemma ShortAfter(s: State, s': State, pkts: seq<Packet>, max: nat)
    requires AllShort(s, max) && forall i :: 0 <= i < |pkts| ==> |pkts[i]| <= max
    requires |s'.jobs| == |s.jobs| + 1 && s'.jobs[..|s.jobs|] == s.jobs && s'.jobs[|s.jobs|].burst.pkts == pkts
    ensures AllShort(s', max)
  {
    forall j | 0 <= j < |s.jobs| ensures s'.jobs[j] == s.jobs[j] { assert s'.jobs[..|s.jobs|][j] == s.jobs[j]; }
  }

  /** Moving on starts no burst and keeps every reservation. */
  lemma {:induction false} MovingKeeps(s: State, steps: seq<Step>)
    requires Inv(s) && RunOk(s, steps) && AllMoving(steps)
    ensures |Run(s, steps).jobs| == |s.jobs|
    ensures forall j :: 0 <= j < |s.jobs| ==> StillReserved(s.jobs[j], Run(s, steps).jobs[j])
    decreases |steps|
  {
    if steps != [] {
      var s1 := Apply(s, steps[0]);
      StepInv(s, steps[0]);
      StepKeeps(s, steps[0]);
      MovingKeeps(s1, steps[1..]);
      forall j | 0 <= j < |s.jobs| ensures StillReserved(s.jobs[j], Run(s1, steps[1..]).jobs[j]) {
        assert StillReserved(s.jobs[j], s1.jobs[j]) && StillReserved(s1.jobs[j], Run(s1, steps[1..]).jobs[j]);
      }
    }
  }

  predicate StillReserved(job: Job, job': Job) {
    job'.burst == job.burst && (HasBytes(job) ==> HasBytes(job') && job'.off == job.off)
  }

  lemma StepKeeps(s: State, step: Step)
    requires Inv(s) && Enabled(s, step) && Moving(step)
    ensures |Apply(s, step).jobs| == |s.jobs|
    ensures forall j :: 0 <= j < |s.jobs| ==> StillReserved(s.jobs[j], Apply(s, step).jobs[j])
  {
    var j := step.job;
    assert PcOk(s.filters, s.jobs[j]);
    if step.Work? && HasBytes(s.jobs[j]) { BytesStay(s, j); }
  }

  /** Records of 8 and 9 bytes fill a block up to its last byte; the next record is the
      longest allowed. */
  lemma OverrunningRun(fs: seq<FilterList>, max: nat) returns (steps: seq<Step>)
    requires BUFFER + 1 < STAMP + max && max < 0x1_0000
    ensures RunOk(Init(fs), steps)
    ensures AllShort(Run(Init(fs), steps), max) && Overrun(Run(Init(fs), steps)) && !Tame(Run(Init(fs), steps))
  {
    var fill := FillBlock(fs, max);
    var rest := LastRecordOverruns(Run(Init(fs), fill), max);
    RunConcat(Init(fs), fill, rest);
    steps := fill + rest;
    OverrunIsWild(Run(Init(fs), steps));
  }

  lemma LastRecordOverruns(s: State, max: nat) returns (steps: seq<Step>)
    requires Inv(s) && AllShort(s, max) && s.readId == 0 && s.dtail == BLOCK - 1
    requires BUFFER + 1 < STAMP + max && max < 0x1_0000
    ensures RunOk(s, steps) && AllShort(Run(s, steps), max) && Overrun(Run(s, steps))
  {
    var pkts: seq<Packet> := [seq(max, _ => 0)];
    var first := AddBurst(s, pkts);
    var s1 := Run(s, first);
    ShortAfter(s, s1, pkts, max);
    var rest := DrainUpTo(s1, |s.jobs|);
    DrainedOverruns(s1, |s.jobs|, rest, max);
    RunConcat(s, first, rest);
    steps := first + rest;
  }

  lemma DrainedOverruns(s: State, j: nat, steps: seq<Step>, max: nat)
    requires Inv(s) && AllShort(s, max) && j < |s.jobs| && BUFFER + 1 < STAMP + max
    requires HasBytes(s.jobs[j]) && s.jobs[j].off == BLOCK - 1
    requires |s.jobs[j].burst.pkts| == 1 && |s.jobs[j].burst.pkts[0]| == max
    requires RunOk(s, steps) && AllMoving(steps)
    requires j < |Run(s, steps).jobs| && Run(s, steps).jobs[j].done
    ensures AllShort(Run(s, steps), max) && Overrun(Run(s, steps))
  {
    var s' := Run(s, steps);
    MovingKeeps(s, steps);
    RunInv(s, steps);
    assert StillReserved(s.jobs[j], s'.jobs[j]) && PcOk(s'.filters, s'.jobs[j]);
    JobOverruns(s'.filters, s'.jobs[j], max);
    StillShort(s, s', max);
  }

  lemma JobOverruns(fs: seq<FilterList>, job: Job, max: nat)
    requires PcOk(fs, job) && job.done && job.off == BLOCK - 1 && BUFFER + 1 < STAMP + max
    requires |job.burst.pkts| == 1 && |job.burst.pkts[0]| == max
    ensures OverrunAt(job, 0, STAMP + max - 1)
  {
    assert RecordOffset(job, 0) == BLOCK - 1;
  }

  lemma StillShort(s: State, s': State, max: nat)
    requires AllShort(s, max) && |s'.jobs| == |s.jobs| && forall j :: 0 <= j < |s.jobs| ==> StillReserved(s.jobs[j], s'.jobs[j])
    ensures AllShort(s', max)
  {
    forall a, i | 0 <= a < |s'.jobs| && 0 <= i < |s'.jobs[a].burst.pkts| ensures |s'.jobs[a].burst.pkts[i]| <= max {
      assert StillReserved(s.jobs[a], s'.jobs[a]);
    }
  }
}
