/** Queries over the store when nothing is in flight: plan, walk the indexes, collect. */
module Cast {
  import opened Packets
  import opened Expressions
  import opened Clauses
  import opened Planner
  import opened PublishProtocol
  import opened PublishInvariant
  import opened PublishLimits
  import opened PublishTheorems
  import opened Cursors
  import opened FilterIterators
  import opened IdleStore

  /** Which index an id names: its class is the quotient by 1024, its number the rest. */
  function Dispatch(id: nat): Option<Index> {
    var class_, number := id / 1024, id % 1024;
    if class_ == 8 then
      if number == 0 then Some(SrcIp) else if number == 1 then Some(DstIp)
      else if number == 2 then Some(Timestamp) else None
    else if class_ == 2 then
      if number == 0 then Some(SrcPrt) else if number == 1 then Some(DstPrt) else None
    else None
  }

  function ListsFor(s: State, id: nat): Lists {
    match Dispatch(id)
    case Some(ix) => ListsOf(s, ix)
    case None => map[]
  }

  /** What lookup and ptr give for each readable id. */
  function StoredRecords(s: State): (r: seq<Record>)
    ensures |r| == s.readId
  { seq(s.readId, id requires 0 <= id => ReadRecord(s, id)) }

  function Hits(s: State, p: ClausePlan): seq<nat> {
    Flat(ListsFor(s, p.idx.index), p.idx.range.first, p.idx.range.second)
  }

  /** The ids one clause plan contributes. */
  function ClauseIds(s: State, p: ClausePlan): seq<nat> {
    if p.perform then FilteredYield(Hits(s, p), s.readId, StoredRecords(s), p.filter)
    else Yield(Hits(s, p), s.readId)
  }

  function AsSet(f: seq<nat>): set<nat> { set x | x in f }

  function IdsOf(s: State): ClausePlan -> seq<nat> { (p: ClausePlan) => ClauseIds(s, p) }

  /** Everything the first n clause plans insert into the result set. */
  function Gathered(ids: ClausePlan -> seq<nat>, plan: seq<ClausePlan>, n: nat): set<nat>
    requires n <= |plan|
  {
    if n == 0 then {} else Gathered(ids, plan, n - 1) + AsSet(ids(plan[n - 1]))
  }

  function PlanIds(s: State, plan: seq<ClausePlan>): set<nat> { Gathered(IdsOf(s), plan, |plan|) }

  predicate Runnable(p: ClausePlan) { KnownIndex(p.idx.index) && InSpace(p.idx) }

  lemma SettledHits(s: State, p: ClausePlan)
    requires Settled(s) && Runnable(p)
    ensures AllBelow(Hits(s, p), s.readId) && Yield(Hits(s, p), s.readId) == Hits(s, p)
  {
    var ix := Dispatch(p.idx.index).value;
    SettledWalk(s, ix, p.idx.range.first, p.idx.range.second);
  }

  /** No list that the walk of p enters is empty. */
  ghost predicate NoneEmpty(s: State, p: ClausePlan) {
    NoEmpty(ListsFor(s, p.idx.index), p.idx.range.first + 1, p.idx.range.second)
  }

  lemma SettledNoneEmpty(s: State, p: ClausePlan)
    requires Settled(s)
    ensures NoneEmpty(s, p)
  {
    if Dispatch(p.idx.index).Some? {
      SettledNoEmpty(s, Dispatch(p.idx.index).value, p.idx.range.first + 1, p.idx.range.second);
    }
  }

  /** The ids of clause plan p; its range must be walkable. */
  method RunClause(s: State, p: ClausePlan) returns (ids: seq<nat>)
    requires InSpace(p.idx) && NoneEmpty(s, p)
    ensures ids == ClauseIds(s, p)
  {
    var index := ListsFor(s, p.idx.index);
    var space := Space(p.idx.index);
    if p.perform {
      ids := CollectFiltered(index, space, p.idx.range.first, p.idx.range.second, s.readId, p.filter, StoredRecords(s));
    } else {
      var probe;
      ids, probe := Collect(index, space, p.idx.range.first, p.idx.range.second, s.readId);
    }
  }

  /** filter_pkts: runs each clause plan on its index and collects the ids; None when a
      range cannot be walked inside its index. */
  method FilterPkts(s: State, plan: seq<ClausePlan>) returns (results: Option<set<nat>>)
    requires forall i :: 0 <= i < |plan| ==> NoneEmpty(s, plan[i])
    ensures results.Some? <==> AllInSpace(plan)
    ensures results.Some? ==> results.value == PlanIds(s, plan)
  {
    results := Gather(s, plan, IdsOf(s));
  }

  ghost predicate IdsLinked(s: State, ids: ClausePlan -> seq<nat>) {
    forall p {:trigger ClauseIds(s, p)} :: ids(p) == ClauseIds(s, p)
  }

  method Gather(s: State, plan: seq<ClausePlan>, ghost ids: ClausePlan -> seq<nat>) returns (results: Option<set<nat>>)
    requires IdsLinked(s, ids) && forall i :: 0 <= i < |plan| ==> NoneEmpty(s, plan[i])
    ensures results.Some? <==> AllInSpace(plan)
    ensures results.Some? ==> results.value == Gathered(ids, plan, |plan|)
  {
    var found := {};
    for i := 0 to |plan|
      invariant found == Gathered(ids, plan, i) && forall k :: 0 <= k < i ==> InSpace(plan[k].idx)
    {
      if !InSpace(plan[i].idx) { return None; }
      found := AddClause(s, plan[i], ids, found);
    }
    results := Some(found);
  }

  /** results.insert(begin, end) for one clause plan. */
  method AddClause(s: State, p: ClausePlan, ghost ids: ClausePlan -> seq<nat>, found: set<nat>) returns (more: set<nat>)
    requires InSpace(p.idx) && NoneEmpty(s, p) && IdsLinked(s, ids)
    ensures more == found + AsSet(ids(p))
  {
    var hits := RunClause(s, p);
    more := found + AsSet(hits);
  }

  lemma StoredIsRecord(s: State, id: nat)
    requires Inv(s) && Tame(s) && id < s.readId
    ensures StoredRecords(s)[id] == RecordAt(s, id) && RecordAt(s, id).now < SECONDS
  {
    ReadBackNow(s, id);
    StoredInMemory(s, id);
  }

  /** An index id names an index, and a record is entered there under its token if it has one. */
  lemma TokenAgrees(fs: seq<FilterList>, id: nat, r: Record)
    ensures Dispatch(id).Some? <==> KnownIndex(id)
    ensures KnownIndex(id) ==>
              TokenOf(fs, Dispatch(id).value, r) == if Reaches(r, id) then Some(TokenFor(r, id)) else None
  {
  }

  /** The index hits of a clause plan are the packets with a token in its range. */
  lemma HitsAre(s: State, p: ClausePlan, id: nat)
    requires Settled(s) && Runnable(p)
    ensures id in Hits(s, p) <==> id < s.readId && LeafAnswers(p.idx, RecordAt(s, id))
  {
    TokenAgrees(s.filters, p.idx.index, RecordAt(s, id));
    SettledFlat(s, Dispatch(p.idx.index).value, p.idx.range.first, p.idx.range.second, id);
    if id < s.readId {
      RangeAgrees(s.filters, p, RecordAt(s, id));
    }
  }

  lemma RangeAgrees(fs: seq<FilterList>, p: ClausePlan, r: Record)
    requires KnownIndex(p.idx.index)
    ensures Dispatch(p.idx.index).Some?
    ensures InRange(fs, Dispatch(p.idx.index).value, r, p.idx.range.first, p.idx.range.second) <==> LeafAnswers(p.idx, r)
  {
    TokenAgrees(fs, p.idx.index, r);
  }

  lemma {:induction false} KeepAcceptedMembers(f: seq<nat>, stored: seq<Record>, filter: PacketFilter, x: nat)
    ensures x in KeepAccepted(f, stored, filter) <==> x in f && Accepts(stored, filter, x)
  {
    if f != [] { KeepAcceptedMembers(f[1..], stored, filter, x); }
  }

  ghost predicate FirstHit(s: State, p: ClausePlan, id: nat) {
    p.perform && Hits(s, p) != [] && id == Hits(s, p)[0]
  }

  /** A clause plan yields exactly the packets it accepts, except that the first hit
      of a plan with a packet filter is yielded unchecked. */
  lemma ClauseIdsAre(s: State, p: ClausePlan, id: nat)
    requires Settled(s) && Tame(s) && Runnable(p)
    ensures id in ClauseIds(s, p) <==>
            id < s.readId && (p.Accepts(RecordAt(s, id)) || FirstHit(s, p, id))
  {
    HitsAre(s, p, id);
    SettledHits(s, p);
    var f := Hits(s, p);
    if p.perform && f != [] {
      assert f[0] in f;
      BelowMembers(f[1..], s.readId, id);
      KeepAcceptedMembers(Below(f[1..], s.readId), StoredRecords(s), p.filter, id);
      if id < s.readId { StoredIsRecord(s, id); }
      assert id in f <==> id == f[0] || id in f[1..];
      assert id == f[0] ==> id < s.readId;
    }
  }

  lemma {:induction false} GatheredMembers(ids: ClausePlan -> seq<nat>, plan: seq<ClausePlan>, n: nat, id: nat)
    requires n <= |plan|
    ensures id in Gathered(ids, plan, n) <==> exists i :: 0 <= i < n && id in ids(plan[i])
    decreases n
  {
    if n > 0 { GatheredMembers(ids, plan, n - 1, id); }
  }

  /** The first index hit of a range. */
  ghost predicate FirstOf(s: State, f: IndexFilter, id: nat) {
    var hits := Flat(ListsFor(s, f.index), f.range.first, f.range.second);
    hits != [] && id == hits[0]
  }

  /** The one id that a clause may return without checking it: the first hit of the range
      it is run on, if the clause restricts another index too. */
  ghost predicate ClauseExtra(s: State, c: Clause, count: IndexFilter -> nat, id: nat) {
    !Unsat(c) && MultiIndex(c) && exists f :: Chosen(f, c, count) && FirstOf(s, f, id)
  }

  ghost predicate Extra(s: State, e: Expr, resolve: Resolver, count: IndexFilter -> nat, id: nat)
    requires Plannable(e, resolve)
  {
    exists k :: 0 <= k < |ClausesOf(e, resolve)| && ClauseExtra(s, ClausesOf(e, resolve)[k], count, id)
  }

  /** At most one extra id per clause. */
  lemma ExtraUnique(s: State, c: Clause, count: IndexFilter -> nat, id: nat, id': nat)
    requires ClauseExtra(s, c, count, id) && ClauseExtra(s, c, count, id')
    ensures id == id'
  {
    var f :| Chosen(f, c, count) && FirstOf(s, f, id);
    var g :| Chosen(g, c, count) && FirstOf(s, g, id');
    ChosenUnique(f, g, c, count);
  }

  /** What a cast returns: every packet that the expression answers, and beyond those exactly
      the extra ids of its clauses. */
  ghost predicate CastAnswer(s: State, e: Expr, resolve: Resolver, count: IndexFilter -> nat, ids: set<nat>)
    requires Plannable(e, resolve)
  {
    forall id: nat ::
      id in ids <==>
      id < s.readId && (Answers(e, resolve, count, RecordAt(s, id)) || Extra(s, e, resolve, count, id))
  }

  ghost predicate AnyFirstHit(s: State, plan: seq<ClausePlan>, id: nat) {
    exists i :: 0 <= i < |plan| && FirstHit(s, plan[i], id)
  }

  /** The unchecked first hits of the plans are the extra ids of the clauses. */
  lemma ExtraIs(s: State, e: Expr, resolve: Resolver, count: IndexFilter -> nat, plan: seq<ClausePlan>, id: nat)
    requires Plannable(e, resolve) && !e.Not? && GoodPlan(plan, e, resolve, count)
    ensures AnyFirstHit(s, plan, id) <==> Extra(s, e, resolve, count, id)
  {
    if !e.Pred? {
      var clauses := ClausesOf(e, resolve);
      if i :| 0 <= i < |plan| && FirstHit(s, plan[i], id) {
        PlanHasClause(plan, clauses, count, i);
        var k :| 0 <= k < |clauses| && !Unsat(clauses[k]) && PlanOf(plan[i], clauses[k], count);
        assert Chosen(plan[i].idx, clauses[k], count) && FirstOf(s, plan[i].idx, id);
        assert ClauseExtra(s, clauses[k], count, id);
      }
      if k :| 0 <= k < |clauses| && ClauseExtra(s, clauses[k], count, id) {
        ClauseHasPlan(plan, clauses, count, k);
        var i :| 0 <= i < |plan| && PlanOf(plan[i], clauses[k], count);
        var f :| Chosen(f, clauses[k], count) && FirstOf(s, f, id);
        ChosenUnique(f, plan[i].idx, clauses[k], count);
        assert FirstHit(s, plan[i], id);
      }
    }
  }

  lemma PlanAnswers(s: State, e: Expr, resolve: Resolver, count: IndexFilter -> nat, plan: seq<ClausePlan>)
    requires Settled(s) && Tame(s) && Plannable(e, resolve) && !e.Not? && GoodPlan(plan, e, resolve, count)
    requires forall i :: 0 <= i < |plan| ==> Runnable(plan[i])
    ensures CastAnswer(s, e, resolve, count, PlanIds(s, plan))
  {
    forall id: nat ensures
      id in PlanIds(s, plan) <==>
      id < s.readId && (Answers(e, resolve, count, RecordAt(s, id)) || Extra(s, e, resolve, count, id))
    {
      PlanGives(s, plan, id);
      ExtraIs(s, e, resolve, count, plan, id);
      if id < s.readId {
        StoredIsRecord(s, id);
        PlanSelects(plan, e, resolve, count, RecordAt(s, id));
      }
    }
  }

  lemma PlanGives(s: State, plan: seq<ClausePlan>, id: nat)
    requires Settled(s) && Tame(s) && forall i :: 0 <= i < |plan| ==> Runnable(plan[i])
    ensures id in PlanIds(s, plan) <==>
            id < s.readId && (Selects(plan, RecordAt(s, id)) || AnyFirstHit(s, plan, id))
  {
    var r := RecordAt(s, id);
    GatheredMembers(IdsOf(s), plan, |plan|, id);
    forall i | 0 <= i < |plan|
      ensures id in IdsOf(s)(plan[i]) <==> id < s.readId && (plan[i].Accepts(r) || FirstHit(s, plan[i], id))
    {
      ClauseIdsAre(s, plan[i], id);
    }
  }

  /** How a cast ends: with ids, with an exception, or reading outside an index. */
  datatype Outcome = Answered(ids: set<nat>) | Refused(error: Error) | Astray

  /** Which it is, in terms of the expression and the counts the planner saw. */
  ghost predicate CastOutcome(s: State, e: Expr, resolve: Resolver, count: IndexFilter -> nat, out: Outcome) {
    && (out.Answered? <==> Plannable(e, resolve) && Countable(e, resolve) && Runs(e, resolve, count))
    && (out.Answered? ==> CastAnswer(s, e, resolve, count, out.ids))
    && (out.Refused? ==> !Plannable(e, resolve))
    && (Countable(e, resolve) && !Plannable(e, resolve) ==> out.Refused?)
    && (Plannable(e, resolve) && Walkable(e, resolve) ==> out.Answered?)
  }

  /** Walking asks for more room than counting. */
  lemma WalkableCountable(e: Expr, resolve: Resolver)
    requires Walkable(e, resolve)
    ensures Countable(e, resolve)
  {
    forall c: Clause | EndsBy(c, 1) ensures EndsBy(c, 0) {
      forall i | 0 <= i < |c| ensures HasFit(c, c[i].index, 0) {
        assert HasFit(c, c[i].index, 1);
        var j :| 0 <= j < |c| && c[j].index == c[i].index && Fits(c[j], 1);
        assert Fits(c[j], 0);
      }
    }
  }

  /** Cast correctness end to end: plan, then run, over any reachable settled store,
      whatever the packets, and whatever counts guided the choice of indexes. */
  method ExecuteCast(fs: seq<FilterList>, ghost steps: seq<Step>, s: State,
                     e: Expr, resolve: Resolver, count: IndexFilter -> nat)
    returns (out: Outcome)
    requires RunOk(Init(fs), steps) && s == Run(Init(fs), steps)
    requires Idle(s) && NoEmptyBursts(s) && Tame(s)
    requires NoBareNode(e) && Resolves(resolve) && forall f :: count(f) < UINT64_MAX
    ensures !e.Not? ==> CastOutcome(s, e, resolve, count, out)
    ensures e.Not? ==> out == Answered({})
  {
    ReachableSettled(fs, steps);
    if Walkable(e, resolve) { WalkableCountable(e, resolve); }
    var p := Plan(e, resolve, count);
    if p.Err? {
      return if p.error == OutsideIndex then Astray else Refused(p.error);
    }
    out := RunPlan(s, p.value);
    if !e.Not? { Concluded(s, e, resolve, count, p.value, out); }
  }

  method RunPlan(s: State, plan: seq<ClausePlan>) returns (out: Outcome)
    requires Settled(s)
    ensures out == if AllInSpace(plan) then Answered(PlanIds(s, plan)) else Astray
  {
    forall i | 0 <= i < |plan| ensures NoneEmpty(s, plan[i]) { SettledNoneEmpty(s, plan[i]); }
    var ids := FilterPkts(s, plan);
    out := if ids.Some? then Answered(ids.value) else Astray;
  }

  lemma Concluded(s: State, e: Expr, resolve: Resolver, count: IndexFilter -> nat, plan: seq<ClausePlan>, out: Outcome)
    requires Settled(s) && Tame(s) && !e.Not? && Resolves(resolve)
    requires Plannable(e, resolve) && Countable(e, resolve) && GoodPlan(plan, e, resolve, count)
    requires out == if AllInSpace(plan) then Answered(PlanIds(s, plan)) else Astray
    ensures CastOutcome(s, e, resolve, count, out)
  {
    RunsExactly(plan, e, resolve, count);
    PlanKnown(plan, e, resolve, count);
    if AllInSpace(plan) { PlanAnswers(s, e, resolve, count, plan); }
    if Walkable(e, resolve) { WalkableRuns(plan, e, resolve, count); }
  }
}
