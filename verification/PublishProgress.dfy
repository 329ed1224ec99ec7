/**
 Deadlock freedom of publishing: while ids are unpublished somebody can move, every
 move brings the end closer, and a burst can be left waiting for ever only if it
 is empty.
 */
module PublishProgress {
  import opened Packets
  import opened PublishProtocol
  import opened PublishInvariant
  import opened PublishTheorems

  // ----- remaining work -----

  /** Accesses from the start of point (i, st) to the end of the burst. */
  function StepsFrom(fs: seq<FilterList>, b: Burst, i: int, st: nat): nat
    decreases |b.pkts| - i, Width(|fs|, i) - st
  {
    if !ValidPoint(|fs|, b, i, st) then 0
    else
      Steps(OpAt(fs, b, i, st)) +
      if st + 1 < Width(|fs|, i) then StepsFrom(fs, b, i, st + 1) else StepsFrom(fs, b, i + 1, 0)
  }

  /** Non-spinning steps a job still has to make, counting its publication. */
  function Left(fs: seq<FilterList>, job: Job): int {
    if job.done then 0 else StepsFrom(fs, job.burst, job.i, job.st) - job.sub + 1
  }

  function TotalLeft(fs: seq<FilterList>, jobs: seq<Job>): int {
    if jobs == [] then 0 else TotalLeft(fs, jobs[..|jobs| - 1]) + Left(fs, jobs[|jobs| - 1])
  }

  lemma LeftBounds(fs: seq<FilterList>, job: Job)
    requires PcOk(fs, job)
    ensures Left(fs, job) >= 0
    ensures Left(fs, job) == 0 <==> job.done
  {
  }

  lemma {:induction false} TotalNonNegative(fs: seq<FilterList>, jobs: seq<Job>)
    requires forall j :: 0 <= j < |jobs| ==> PcOk(fs, jobs[j])
    ensures TotalLeft(fs, jobs) >= 0
  {
    if jobs != [] {
      TotalNonNegative(fs, jobs[..|jobs| - 1]);
      LeftBounds(fs, jobs[|jobs| - 1]);
    }
  }

  lemma {:induction false} TotalUpdate(fs: seq<FilterList>, jobs: seq<Job>, j: nat, job: Job)
    requires j < |jobs|
    ensures TotalLeft(fs, jobs[j := job]) == TotalLeft(fs, jobs) - Left(fs, jobs[j]) + Left(fs, job)
  {
    var n := |jobs| - 1;
    if j == n {
      assert jobs[j := job][..n] == jobs[..n];
    } else {
      TotalUpdate(fs, jobs[..n], j, job);
      assert jobs[j := job][..n] == jobs[..n][j := job];
    }
  }

  function Measure(s: State): int { TotalLeft(s.filters, s.jobs) }

  /** A step by which a burst in progress gets further. */
  predicate Moving(step: Step) { step.Work? || step.Publish? }

  predicate AllMoving(steps: seq<Step>) { forall k :: 0 <= k < |steps| ==> Moving(steps[k]) }

  /** Each such step uses up exactly one unit of the remaining work. */
  lemma MeasureFalls(s: State, step: Step)
    requires Inv(s) && Moving(step) && Enabled(s, step)
    ensures Measure(Apply(s, step)) == Measure(s) - 1
    ensures Measure(s) >= 1
  {
    var j := step.job;
    var s' := Apply(s, step);
    assert PcOk(s.filters, s.jobs[j]);
    assert s'.jobs == s.jobs[j := s'.jobs[j]];
    TotalUpdate(s.filters, s.jobs, j, s'.jobs[j]);
    if step.Work? {
      LeftAfterWork(s, j);
    }
    StepInv(s, step);
    TotalNonNegative(s'.filters, s'.jobs);
  }

  lemma LeftAfterWork(s: State, j: nat)
    requires Inv(s) && Enabled(s, Work(j))
    ensures Left(s.filters, JobAfter(s, j)) == Left(s.filters, s.jobs[j]) - 1
  {
    var job := s.jobs[j];
    assert PcOk(s.filters, job);
    var next := Advance(s.filters, job);
    assert Left(s.filters, JobAfter(s, j)) == Left(s.filters, next);
  }

  // ----- somebody can move -----

  /** The burst that starts at the read id and has yet to be published. */
  ghost predicate Pending(s: State, j: nat) {
    j < |s.jobs| && !s.jobs[j].done && s.jobs[j].burst.pkts != [] && s.jobs[j].burst.start == s.readId
  }

  lemma PendingExists(s: State) returns (j: nat)
    requires Inv(s) && s.readId < s.writeId
    ensures Pending(s, j)
  {
    j := s.owner[s.readId];
    assert s.jobs[j].burst.Owns(s.readId);
  }

  /** While ids are unpublished exactly one non-empty unpublished block starts at the
      read id, and its writer can take a step that is not a spin. */
  lemma NoDeadlock(fs: seq<FilterList>, steps: seq<Step>)
    requires RunOk(Init(fs), steps)
    requires Run(Init(fs), steps).readId < Run(Init(fs), steps).writeId
    ensures var s := Run(Init(fs), steps);
            exists j ::
              && Pending(s, j)
              && (forall a :: Pending(s, a) ==> a == j)
              && (Enabled(s, Work(j)) || Enabled(s, Publish(j)))
  {
    InitInv(fs);
    RunInv(Init(fs), steps);
    var s := Run(Init(fs), steps);
    var j := PendingExists(s);
    forall a | Pending(s, a) ensures a == j { JobOrder(s, a, j); }
    assert PcOk(s.filters, s.jobs[j]);
  }

  /** From any reachable state, every schedule of moving steps is at most as long as
      the remaining work; if no burst was empty, the state in which no moving step is
      left has everything published, and such a schedule exists. */
  lemma EveryScheduleDrains(fs: seq<FilterList>, before: seq<Step>, steps: seq<Step>)
    requires RunOk(Init(fs), before) && RunOk(Run(Init(fs), before), steps)
    requires AllMoving(steps)
    ensures var s := Run(Init(fs), before);
            var s' := Run(s, steps);
            && |steps| <= Measure(s)
            && (Stopped(s') && NoEmptyBursts(s') ==> s'.readId == s'.writeId && Idle(s'))
            && exists rest :: RunOk(s', rest) && Stopped(Run(s', rest))
                              && forall k :: 0 <= k < |rest| ==> Moving(rest[k])
  {
    InitInv(fs);
    var s := Run(Init(fs), before);
    RunInv(Init(fs), before);
    ScheduleDrains(s, steps);
    RunInv(s, steps);
    var rest := RunToStop(Run(s, steps));
  }

  ghost predicate Stopped(s: State) { forall step :: Moving(step) ==> !Enabled(s, step) }

  lemma {:induction false} RunToStop(s: State) returns (steps: seq<Step>)
    requires Inv(s)
    ensures RunOk(s, steps) && Stopped(Run(s, steps))
    ensures AllMoving(steps)
    decreases Measure(s)
  {
    if step :| Moving(step) && Enabled(s, step) {
      MoveOn(s, step);
      var rest := RunToStop(Apply(s, step));
      steps := Prepend(s, step, rest);
    } else {
      steps := [];
    }
  }

  lemma Prepend(s: State, step: Step, rest: seq<Step>) returns (steps: seq<Step>)
    requires Enabled(s, step) && Moving(step) && RunOk(Apply(s, step), rest) && AllMoving(rest)
    ensures RunOk(s, steps) && Run(s, steps) == Run(Apply(s, step), rest) && AllMoving(steps)
  {
    RunCons(s, step, rest);
    steps := [step] + rest;
  }

  lemma MoveOn(s: State, step: Step)
    requires Inv(s) && Moving(step) && Enabled(s, step)
    ensures Inv(Apply(s, step)) && 0 <= Measure(Apply(s, step)) < Measure(s)
  {
    StepInv(s, step);
    MeasureFalls(s, step);
  }

  lemma {:induction false} ScheduleDrains(s: State, steps: seq<Step>)
    requires Inv(s) && RunOk(s, steps)
    requires AllMoving(steps)
    ensures |steps| <= Measure(s)
    ensures var s' := Run(s, steps);
            Stopped(s') && NoEmptyBursts(s') ==> s'.readId == s'.writeId && Idle(s')
    decreases |steps|
  {
    if steps == [] {
      TotalNonNegative(s.filters, s.jobs);
      if Stopped(s) && NoEmptyBursts(s) { StoppedMeansIdle(s); }
    } else {
      MeasureFalls(s, steps[0]);
      StepInv(s, steps[0]);
      ScheduleDrains(Apply(s, steps[0]), steps[1..]);
    }
  }

  lemma StoppedMeansIdle(s: State)
    requires Inv(s) && NoEmptyBursts(s) && Stopped(s)
    ensures s.readId == s.writeId && Idle(s)
  {
    if s.readId < s.writeId {
      var j := PendingExists(s);
      assert PcOk(s.filters, s.jobs[j]);
      assert Moving(Work(j)) && Moving(Publish(j));
    }
    forall j | 0 <= j < |s.jobs| ensures s.jobs[j].done {
      assert s.jobs[j].burst.End() <= s.writeId && s.jobs[j].burst.pkts != [];
    }
  }

  // ----- which bursts can always finish -----

  ghost predicate CanFinish(s: State, j: nat) {
    exists steps :: RunOk(s, steps) && j < |Run(s, steps).jobs| && Run(s, steps).jobs[j].done
  }

  /** While the read id has not passed it, a burst can be brought to its end:
      let everybody finish working, then publish in order up to it. */
  lemma {:induction false} DrainUpTo(s: State, j: nat) returns (steps: seq<Step>)
    requires Inv(s) && j < |s.jobs| && (s.jobs[j].done || s.readId <= s.jobs[j].burst.start)
    ensures RunOk(s, steps) && j < |Run(s, steps).jobs| && Run(s, steps).jobs[j].done
    ensures AllMoving(steps)
    decreases Measure(s)
  {
    if s.jobs[j].done {
      steps := [];
    } else {
      var step := NextMove(s, j);
      MoveOn(s, step);
      var rest := DrainUpTo(Apply(s, step), j);
      steps := Prepend(s, step, rest);
    }
  }

  lemma NextMove(s: State, j: nat) returns (step: Step)
    requires Inv(s) && j < |s.jobs| && !s.jobs[j].done && s.readId <= s.jobs[j].burst.start
    ensures Enabled(s, step) && Moving(step)
    ensures var s' := Apply(s, step);
            j < |s'.jobs| && (s'.jobs[j].done || s'.readId <= s'.jobs[j].burst.start)
  {
    if a :| 0 <= a < |s.jobs| && !AtEnd(s.jobs[a]) {
      assert PcOk(s.filters, s.jobs[a]);
      step := Work(a);
    } else if s.readId == s.jobs[j].burst.start {
      step := Publish(j);
    } else {
      assert s.jobs[j].burst.End() <= s.writeId;
      var a := PendingExists(s);
      step := Publish(a);
      JobOrder(s, a, j);
    }
  }

  /** A waiting burst is lost exactly when the read id has moved past its start. */
  lemma FinishExactly(s: State, j: nat)
    requires Inv(s) && j < |s.jobs|
    ensures CanFinish(s, j) <==> s.jobs[j].done || s.readId <= s.jobs[j].burst.start
  {
    if s.jobs[j].done || s.readId <= s.jobs[j].burst.start {
      var steps := DrainUpTo(s, j);
    } else {
      forall steps | RunOk(s, steps) ensures j < |Run(s, steps).jobs| && !Run(s, steps).jobs[j].done {
        NeverFinishes(s, j, steps);
      }
    }
  }

  lemma {:induction false} NeverFinishes(s: State, j: nat, steps: seq<Step>)
    requires Inv(s) && j < |s.jobs| && !s.jobs[j].done && s.jobs[j].burst.start < s.readId && RunOk(s, steps)
    ensures j < |Run(s, steps).jobs| && !Run(s, steps).jobs[j].done
    decreases |steps|
  {
    if steps != [] {
      StaysStuck(s, j, steps[0]);
      NeverFinishes(Apply(s, steps[0]), j, steps[1..]);
    }
  }

  lemma StaysStuck(s: State, j: nat, step: Step)
    requires Inv(s) && j < |s.jobs| && !s.jobs[j].done && s.jobs[j].burst.start < s.readId && Enabled(s, step)
    ensures var s' := Apply(s, step);
            Inv(s') && j < |s'.jobs| && !s'.jobs[j].done && s'.jobs[j].burst.start < s'.readId
  {
    StepInv(s, step);
    StepGrows(s, step);
    NotPublished(s, j, step);
  }

  lemma NotPublished(s: State, j: nat, step: Step)
    requires j < |s.jobs| && !s.jobs[j].done && s.jobs[j].burst.start < s.readId && Enabled(s, step)
    ensures j < |Apply(s, step).jobs| && !Apply(s, step).jobs[j].done
    ensures Apply(s, step).jobs[j].burst == s.jobs[j].burst
  {
  }

  /** In every reachable state, every burst of n packets can be brought to its end. */
  ghost predicate AlwaysFinishes(fs: seq<FilterList>, n: nat) {
    forall steps, j ::
      RunOk(Init(fs), steps) && 0 <= j < |Run(Init(fs), steps).jobs|
      && |Run(Init(fs), steps).jobs[j].burst.pkts| == n
      ==> CanFinish(Run(Init(fs), steps), j)
  }

  /** The exact condition on a caller: bursts of n packets never get stuck iff n > 0. */
  lemma NonEmptyExactly(fs: seq<FilterList>, n: nat)
    ensures AlwaysFinishes(fs, n) <==> n > 0
  {
    if n > 0 {
      forall steps, j | RunOk(Init(fs), steps) && 0 <= j < |Run(Init(fs), steps).jobs|
        && |Run(Init(fs), steps).jobs[j].burst.pkts| == n
        ensures CanFinish(Run(Init(fs), steps), j)
      {
        InitInv(fs);
        RunInv(Init(fs), steps);
        FinishExactly(Run(Init(fs), steps), j);
      }
    } else {
      var steps := EmptyBurstStuck(fs);
    }
  }

  /** An empty burst reserves id 0; a later burst with the same start publishes first;
      the empty one then waits for a read id that never comes back. */
  lemma EmptyBurstStuck(fs: seq<FilterList>) returns (steps: seq<Step>)
    ensures RunOk(Init(fs), steps)
    ensures var s := Run(Init(fs), steps);
            |s.jobs| == 2 && s.jobs[0].burst.pkts == [] && !CanFinish(s, 0)
  {
    var two, s2 := EmptyThenFull(fs);
    var rest := FinishSecond(s2);
    RunConcat(Init(fs), two, rest);
    steps := two + rest;
    RunInv(s2, rest);
    RunGrows(s2, rest);
    assert Run(s2, rest).jobs[1].burst.End() == 1;
    FinishExactly(Run(s2, rest), 0);
  }

  lemma EmptyThenFull(fs: seq<FilterList>) returns (two: seq<Step>, s: State)
    ensures RunOk(Init(fs), two) && Run(Init(fs), two) == s && Inv(s)
    ensures |s.jobs| == 2 && s.readId == 0 && !s.jobs[0].done && !s.jobs[1].done
    ensures s.jobs[0].burst == Burst(0, 0, []) && s.jobs[1].burst == Burst(0, 0, [[]])
  {
    var first, second := Start(0, []), Start(0, [[]]);
    InitInv(fs);
    StepInv(Init(fs), first);
    var s1 := Apply(Init(fs), first);
    StepInv(s1, second);
    s := Apply(s1, second);
    RunCons(s1, second, []);
    RunCons(Init(fs), first, [second] + []);
    two := [first] + ([second] + []);
    assert s.jobs[0] == s1.jobs[0];
  }

  /** Run the second job alone to its end. */
  lemma {:induction false} FinishSecond(s: State) returns (steps: seq<Step>)
    requires Inv(s) && |s.jobs| == 2 && s.readId == 0 && !s.jobs[0].done && !s.jobs[1].done
    requires s.jobs[0].burst.pkts == [] && s.jobs[1].burst.start == 0 && |s.jobs[1].burst.pkts| == 1
    ensures RunOk(s, steps)
    ensures var s' := Run(s, steps);
            |s'.jobs| == 2 && !s'.jobs[0].done && s'.jobs[1].done
    decreases Measure(s)
  {
    assert PcOk(s.filters, s.jobs[1]);
    if AtEnd(s.jobs[1]) {
      RunCons(s, Publish(1), []);
      steps := [Publish(1)] + [];
    } else {
      MoveOn(s, Work(1));
      var rest := FinishSecond(Apply(s, Work(1)));
      RunCons(s, Work(1), rest);
      steps := [Work(1)] + rest;
    }
  }
}
