/** From an expression in disjunctive normal form to a query plan. */
module Planner {
  import opened Packets
  import opened Expressions
  import opened Clauses

  datatype ClausePlan = ClausePlan(idx: IndexFilter, filter: PacketFilter, perform: bool) {
    /** What running the plan is meant to select: entries of its index that pass its filter. */
    predicate Accepts(r: Record) {
      && Reaches(r, idx.index) && idx.range.Contains(TokenFor(r, idx.index))
      && (perform ==> filter.ApplyAt(r.pkt, r.now))
    }
  }

  /** build_index_filter for a fixed handle and time: the range of a predicate, or an error. */
  type Resolver = (string, string, string) -> Result<IndexFilter>

  /** It knows the five indexes and fails by throwing. */
  ghost predicate Resolves(resolve: Resolver) {
    forall a, op, x ::
      match resolve(a, op, x) case Ok(f) => KnownIndex(f.index) case Err(error) => error != OutsideIndex
  }

  function EnvFor(resolve: Resolver, r: Record): Env {
    (a: string, op: string, x: string) => InFilter(resolve(a, op, x), r)
  }

  predicate InFilter(f: Result<IndexFilter>, r: Record) {
    f.Ok? && f.value.range.Contains(TokenFor(r, f.value.index))
  }

  // ----- accepted shapes -----

  predicate LeafOk(e: Expr, resolve: Resolver) { e.Pred? && resolve(e.attr, e.op, e.value).Ok? }

  predicate LeavesOk(cs: seq<Expr>, resolve: Resolver) {
    forall i :: 0 <= i < |cs| ==> LeafOk(cs[i], resolve)
  }

  /** The shapes plan() does not reject: a predicate, an AND of predicates, an OR of
      ANDs of predicates, and (with an empty plan) a NOT. */
  predicate Plannable(e: Expr, resolve: Resolver) {
    match e
    case Pred(_, _, _) => LeafOk(e, resolve)
    case And(cs) => LeavesOk(cs, resolve)
    case Or(ds) => forall i :: 0 <= i < |ds| ==> ds[i].And? && LeavesOk(ds[i].children, resolve)
    case Not(_) => true
  }

  function LeafFilter(e: Expr, resolve: Resolver): IndexFilter
    requires LeafOk(e, resolve)
  { resolve(e.attr, e.op, e.value).value }

  /** The ranges of a list of predicates. */
  function ClauseFor(cs: seq<Expr>, resolve: Resolver): (c: Clause)
    requires LeavesOk(cs, resolve)
    ensures |c| == |cs| && forall i :: 0 <= i < |cs| ==> c[i] == LeafFilter(cs[i], resolve)
  { seq(|cs|, i requires 0 <= i < |cs| => LeafFilter(cs[i], resolve)) }

  // ----- plans that stay inside the indexes -----

  /** A non-empty range whose successor token is still a key: one that can be walked. */
  predicate InSpace(f: IndexFilter) { f.range.first <= f.range.second && Fits(f, 1) }

  /** A clause that nothing satisfies is never looked up; of any other, each index needs
      one range with slack more keys after it. */
  ghost predicate ClauseStays(cs: seq<Expr>, resolve: Resolver, slack: nat) {
    LeavesOk(cs, resolve) ==> Unsat(ClauseFor(cs, resolve)) || EndsBy(ClauseFor(cs, resolve), slack)
  }

  ghost predicate ClausesStay(e: Expr, resolve: Resolver, slack: nat) {
    match e
    case Pred(_, _, _) => true
    case And(cs) => ClauseStays(cs, resolve, slack)
    case Or(ds) => forall i :: 0 <= i < |ds| && ds[i].And? ==> ClauseStays(ds[i].children, resolve, slack)
    case Not(_) => true
  }

  /** The planner can count every range it compares. */
  ghost predicate Countable(e: Expr, resolve: Resolver) { ClausesStay(e, resolve, 0) }

  /** Whatever the planner picks can be walked. */
  ghost predicate Walkable(e: Expr, resolve: Resolver) {
    ClausesStay(e, resolve, 1) && (LeafOk(e, resolve) ==> InSpace(LeafFilter(e, resolve)))
  }

  // ----- one clause -----

  /** p runs the chosen range of c, filters packets exactly when c restricts another index
      too, and selects the packets with a token on the index it runs that c suits. */
  ghost predicate PlanOf(p: ClausePlan, c: Clause, count: IndexFilter -> nat) {
    && KnownIndex(p.idx.index) && Chosen(p.idx, c, count) && (p.perform <==> MultiIndex(c))
    && forall r: Record :: r.now < SECONDS ==> (p.Accepts(r) <==> Reaches(r, p.idx.index) && Suits(c, r))
  }

  /** build_clause_plan; None stands for an invalid plan. */
  method BuildClausePlan(c: Clause, count: IndexFilter -> nat) returns (res: Result<Option<ClausePlan>>)
    requires c != [] && AllKnown(c) && forall f :: count(f) < UINT64_MAX
    ensures res.Ok? <==> Unsat(c) || EndsBy(c, 0)
    ensures res.Err? ==> res.error == OutsideIndex
    ensures res.Ok? ==> (res.value.None? <==> Unsat(c))
    ensures res.Ok? && res.value.Some? ==> PlanOf(res.value.value, c, count)
  {
    var ok, d := ReduceClause(c);
    if !ok { return Ok(None); }
    FitExactly(c, d, 0);
    if !AllFit(d, 0) { return Err(OutsideIndex); }   // filter_count runs past the keys
    StillKnown(c, d);
    var k, f, rest := ExtractMinFilter(d, count);
    EraseKeeps(d, k);
    var pf := BuildPacketFilter(rest);
    var p := ClausePlan(f, pf.value, rest != []);
    MinimumIsChosen(c, d, k, count);
    RestExactly(c, d);
    PlanMeansClause(p, c, d, k);
    res := Ok(Some(p));
  }

  lemma StillKnown(c: Clause, d: Clause)
    requires Distinct(d) && RangesNonEmpty(d) && SameMeaning(c, d) && AllKnown(c)
    ensures AllKnown(d)
  {
    forall k | 0 <= k < |d| ensures KnownIndex(d[k].index) {
      ReducedIntersects(c, d, k);
      var j :| 0 <= j < |c| && c[j].index == d[k].index;
      assert KnownIndex(c[j].index);
    }
  }

  lemma PlanMeansClause(p: ClausePlan, c: Clause, d: Clause, k: nat)
    requires Distinct(d) && RangesNonEmpty(d) && AllKnown(d) && SameMeaning(c, d) && k < |d|
    requires p == ClausePlan(d[k], FilterOf(Erase(d, k)), Erase(d, k) != [])
    ensures forall r: Record :: r.now < SECONDS ==> (p.Accepts(r) <==> Reaches(r, p.idx.index) && Suits(c, r))
  {
    forall r: Record | r.now < SECONDS ensures p.Accepts(r) <==> Reaches(r, p.idx.index) && Suits(c, r) {
      RunSelects(d, k, r);
      ReducedSuits(c, d, r);
      if Erase(d, k) == [] { FilterMeansClause([], r); }
    }
  }

  // ----- plan() -----

  /** The clause of a list of predicates. */
  method ClauseFrom(cs: seq<Expr>, resolve: Resolver) returns (res: Result<Clause>)
    ensures res.Ok? <==> LeavesOk(cs, resolve)
    ensures res.Ok? ==> res.value == ClauseFor(cs, resolve)
    ensures res.Err? ==> Refusal(res.error, resolve)
  {
    var c: Clause := [];
    for i := 0 to |cs|
      invariant LeavesOk(cs[..i], resolve) && c == ClauseFor(cs[..i], resolve)
    {
      if !cs[i].Pred? { return Err(NotDnf); }
      var f := resolve(cs[i].attr, cs[i].op, cs[i].value);
      if f.Err? { return Err(f.error); }
      c := c + [f.value];
    }
    assert cs[..|cs|] == cs;
    res := Ok(c);
  }

  /** An exception of the planner: a shape that is not normal, or a predicate without a range. */
  ghost predicate Refusal(error: Error, resolve: Resolver) {
    error == NotDnf || exists a, op, x :: resolve(a, op, x) == Err(error)
  }

  lemma ClauseMeaning(cs: seq<Expr>, resolve: Resolver, r: Record)
    requires LeavesOk(cs, resolve)
    ensures Sat(ClauseFor(cs, resolve), TokensOf(r)) <==> Eval(And(cs), EnvFor(resolve, r))
  {
    var v := EnvFor(resolve, r);
    var c := ClauseFor(cs, resolve);
    forall i | 0 <= i < |cs| ensures Eval(cs[i], v) <==> c[i].range.Contains(TokensOf(r)(c[i].index)) {
      assert c[i] == LeafFilter(cs[i], resolve);
    }
    if Sat(c, TokensOf(r)) { assert Eval(And(cs), v); }
    if Eval(And(cs), v) {
      forall i | 0 <= i < |c| ensures c[i].range.Contains(TokensOf(r)(c[i].index)) { assert Eval(cs[i], v); }
    }
  }

  /** Some plan of the sequence selects the record. */
  predicate Selects(plan: seq<ClausePlan>, r: Record) {
    exists i :: 0 <= i < |plan| && plan[i].Accepts(r)
  }

  type PlanRelation = (ClausePlan, Clause) -> bool

  /** One plan in rel for each clause that is not dead, in order. */
  ghost predicate Aligned(plan: seq<ClausePlan>, clauses: seq<Clause>, rel: PlanRelation, dead: Clause -> bool)
    decreases |clauses|
  {
    if clauses == [] then plan == []
    else
      var n := |clauses| - 1;
      if dead(clauses[n]) then Aligned(plan, clauses[..n], rel, dead)
      else
        && plan != [] && rel(plan[|plan| - 1], clauses[n])
        && Aligned(plan[..|plan| - 1], clauses[..n], rel, dead)
  }

  ghost predicate Served(plan: seq<ClausePlan>, c: Clause, rel: PlanRelation) {
    exists i :: 0 <= i < |plan| && rel(plan[i], c)
  }

  ghost predicate Serves(p: ClausePlan, clauses: seq<Clause>, rel: PlanRelation, dead: Clause -> bool) {
    exists k :: 0 <= k < |clauses| && !dead(clauses[k]) && rel(p, clauses[k])
  }

  /** Every live clause has a plan. */
  lemma {:induction false} LiveServed(
    plan: seq<ClausePlan>, clauses: seq<Clause>, rel: PlanRelation, dead: Clause -> bool, k: nat)
    requires Aligned(plan, clauses, rel, dead) && k < |clauses| && !dead(clauses[k])
    ensures Served(plan, clauses[k], rel)
    decreases |clauses|
  {
    var n := |clauses| - 1;
    if k == n {
      assert rel(plan[|plan| - 1], clauses[k]);
    } else {
      var before := if dead(clauses[n]) then plan else plan[..|plan| - 1];
      LiveServed(before, clauses[..n], rel, dead, k);
      var i :| 0 <= i < |before| && rel(before[i], clauses[..n][k]);
      assert plan[i] == before[i];
    }
  }

  /** And every plan a live clause. */
  lemma {:induction false} PlanServes(
    plan: seq<ClausePlan>, clauses: seq<Clause>, rel: PlanRelation, dead: Clause -> bool, i: nat)
    requires Aligned(plan, clauses, rel, dead) && i < |plan|
    ensures |plan| <= |clauses| && Serves(plan[i], clauses, rel, dead)
    decreases |clauses|
  {
    if clauses != [] {
      var n := |clauses| - 1;
      var before := if dead(clauses[n]) then plan else plan[..|plan| - 1];
      if i < |before| {
        PlanServes(before, clauses[..n], rel, dead, i);
        var k :| 0 <= k < n && !dead(clauses[..n][k]) && rel(before[i], clauses[..n][k]);
        assert plan[i] == before[i] && clauses[..n][k] == clauses[k];
      } else {
        assert rel(plan[i], clauses[n]) && !dead(clauses[n]);
        if before != [] { PlanServes(before, clauses[..n], rel, dead, 0); }
      }
    }
  }

  lemma AlignedOne(more: seq<ClausePlan>, c: Clause, rel: PlanRelation, dead: Clause -> bool)
    ensures Aligned(more, [c], rel, dead) <==> if dead(c) then more == [] else |more| == 1 && rel(more[0], c)
  {
    assert [c][..0] == [];
  }

  lemma AlignedMore(plan: seq<ClausePlan>, clauses: seq<Clause>, more: seq<ClausePlan>, c: Clause,
                    rel: PlanRelation, dead: Clause -> bool)
    requires Aligned(plan, clauses, rel, dead) && Aligned(more, [c], rel, dead)
    ensures Aligned(plan + more, clauses + [c], rel, dead)
  {
    AlignedOne(more, c, rel, dead);
    assert (clauses + [c])[..|clauses|] == clauses;
    if dead(c) {
      assert plan + more == plan;
    } else {
      assert (plan + more)[..|plan|] == plan;
    }
  }

  ghost function PlanRel(count: IndexFilter -> nat): PlanRelation { (p: ClausePlan, c: Clause) => PlanOf(p, c, count) }
  ghost function Dead(): Clause -> bool { (c: Clause) => Unsat(c) }

  /** The plans of the satisfiable clauses, in order. */
  ghost predicate PlansOf(plan: seq<ClausePlan>, clauses: seq<Clause>, count: IndexFilter -> nat) {
    Aligned(plan, clauses, PlanRel(count), Dead())
  }

  /** The clauses of an accepted conjunction or disjunction. */
  function ClausesOf(e: Expr, resolve: Resolver): (cs: seq<Clause>)
    requires Plannable(e, resolve)
    ensures e.Or? ==> |cs| == |e.children| && forall i :: 0 <= i < |cs| ==> cs[i] == ClauseFor(e.children[i].children, resolve)
  {
    match e
    case And(cs) => [ClauseFor(cs, resolve)]
    case Or(ds) =>
      seq(|ds|, i requires 0 <= i < |ds| && ds[i].And? && LeavesOk(ds[i].children, resolve) =>
            ClauseFor(ds[i].children, resolve))
    case _ => []
  }

  /** What plan() makes of an expression. */
  ghost predicate GoodPlan(plan: seq<ClausePlan>, e: Expr, resolve: Resolver, count: IndexFilter -> nat)
    requires Plannable(e, resolve)
  {
    if e.Pred? then plan == [ClausePlan(LeafFilter(e, resolve), ANY, false)]
    else PlansOf(plan, ClausesOf(e, resolve), count)
  }

  /** Every satisfiable clause has a plan. */
  lemma ClauseHasPlan(plan: seq<ClausePlan>, clauses: seq<Clause>, count: IndexFilter -> nat, k: nat)
    requires PlansOf(plan, clauses, count) && k < |clauses| && !Unsat(clauses[k])
    ensures HasPlan(plan, clauses[k], count)
  {
    LiveServed(plan, clauses, PlanRel(count), Dead(), k);
    ServedIs(plan, clauses[k], count);
  }

  /** And every plan a satisfiable clause. */
  lemma PlanHasClause(plan: seq<ClausePlan>, clauses: seq<Clause>, count: IndexFilter -> nat, i: nat)
    requires PlansOf(plan, clauses, count) && i < |plan|
    ensures |plan| <= |clauses| && HasClause(plan[i], clauses, count)
  {
    PlanServes(plan, clauses, PlanRel(count), Dead(), i);
    ServesIs(plan[i], clauses, count);
  }

  lemma ServedIs(plan: seq<ClausePlan>, c: Clause, count: IndexFilter -> nat)
    requires Served(plan, c, PlanRel(count))
    ensures HasPlan(plan, c, count)
  {
    var i :| 0 <= i < |plan| && PlanRel(count)(plan[i], c);
    assert PlanOf(plan[i], c, count);
  }

  lemma ServesIs(p: ClausePlan, clauses: seq<Clause>, count: IndexFilter -> nat)
    requires Serves(p, clauses, PlanRel(count), Dead())
    ensures HasClause(p, clauses, count)
  {
    var k :| 0 <= k < |clauses| && !Dead()(clauses[k]) && PlanRel(count)(p, clauses[k]);
    assert PlanOf(p, clauses[k], count) && !Unsat(clauses[k]);
  }

  ghost predicate HasPlan(plan: seq<ClausePlan>, c: Clause, count: IndexFilter -> nat) {
    exists i :: 0 <= i < |plan| && PlanOf(plan[i], c, count)
  }

  ghost predicate HasClause(p: ClausePlan, clauses: seq<Clause>, count: IndexFilter -> nat) {
    exists k :: 0 <= k < |clauses| && !Unsat(clauses[k]) && PlanOf(p, clauses[k], count)
  }

  /** Some clause holds of the record. */
  ghost predicate AnyClause(clauses: seq<Clause>, r: Record) {
    exists k :: 0 <= k < |clauses| && Sat(clauses[k], TokensOf(r))
  }

  /** The clauses say what the expression says. */
  lemma ClausesMean(e: Expr, resolve: Resolver, r: Record)
    requires Plannable(e, resolve) && (e.And? || e.Or?)
    ensures AnyClause(ClausesOf(e, resolve), r) <==> Eval(e, EnvFor(resolve, r))
  {
    var clauses := ClausesOf(e, resolve);
    match e
    case And(cs) =>
      ClauseMeaning(cs, resolve, r);
      assert Sat(clauses[0], TokensOf(r)) <==> Eval(e, EnvFor(resolve, r));
    case Or(ds) =>
      forall i | 0 <= i < |ds| ensures Sat(clauses[i], TokensOf(r)) <==> Eval(ds[i], EnvFor(resolve, r)) {
        ClauseMeaning(ds[i].children, resolve, r);
        assert ds[i] == And(ds[i].children);
      }
  }

  /** What a clause answers of any packets: it is run on the index of its choice, which a packet
      without ports may not be in, and its ranges on ports pass such a packet by. */
  ghost predicate ClauseAnswers(c: Clause, count: IndexFilter -> nat, r: Record) {
    !Unsat(c) && Suits(c, r) && exists f :: Chosen(f, c, count) && Reaches(r, f.index)
  }

  predicate LeafAnswers(f: IndexFilter, r: Record) { Reaches(r, f.index) && f.range.Contains(TokenFor(r, f.index)) }

  /** TCP and UDP packets are answered as the expression says, others clause by clause. */
  ghost predicate Answers(e: Expr, resolve: Resolver, count: IndexFilter -> nat, r: Record)
    requires Plannable(e, resolve)
  {
    if HasPorts(r.pkt) then Eval(e, EnvFor(resolve, r))
    else if e.Pred? then LeafAnswers(LeafFilter(e, resolve), r)
    else AnyAnswers(ClausesOf(e, resolve), count, r)
  }

  ghost predicate AnyAnswers(clauses: seq<Clause>, count: IndexFilter -> nat, r: Record) {
    exists k :: 0 <= k < |clauses| && ClauseAnswers(clauses[k], count, r)
  }

  /** A plan selects exactly the packets that the expression answers, through known indexes. */
  lemma PlanSelects(plan: seq<ClausePlan>, e: Expr, resolve: Resolver, count: IndexFilter -> nat, r: Record)
    requires Plannable(e, resolve) && !e.Not? && GoodPlan(plan, e, resolve, count) && r.now < SECONDS
    ensures Selects(plan, r) <==> Answers(e, resolve, count, r)
  {
    if e.Pred? {
      assert plan[0].Accepts(r) <==> LeafAnswers(LeafFilter(e, resolve), r);
      assert HasPorts(r.pkt) ==> (plan[0].Accepts(r) <==> Eval(e, EnvFor(resolve, r)));
    } else {
      ClausesMean(e, resolve, r);
      PlansSelect(plan, ClausesOf(e, resolve), count, r);
    }
  }

  lemma PlansSelect(plan: seq<ClausePlan>, clauses: seq<Clause>, count: IndexFilter -> nat, r: Record)
    requires PlansOf(plan, clauses, count) && r.now < SECONDS
    ensures Selects(plan, r) <==> AnyAnswers(clauses, count, r)
    ensures HasPorts(r.pkt) ==> (Selects(plan, r) <==> AnyClause(clauses, r))
  {
    forall k | 0 <= k < |clauses| && (ClauseAnswers(clauses[k], count, r) || (HasPorts(r.pkt) && Sat(clauses[k], TokensOf(r))))
      ensures Selects(plan, r)
    {
      SuitsPorted(clauses[k], r);
      ClauseHasPlan(plan, clauses, count, k);
      var i :| 0 <= i < |plan| && PlanOf(plan[i], clauses[k], count);
      OnlyChoice(plan[i].idx, clauses[k], count, r);
      assert plan[i].Accepts(r);
    }
    if i :| 0 <= i < |plan| && plan[i].Accepts(r) {
      PlanHasClause(plan, clauses, count, i);
      var k :| 0 <= k < |clauses| && !Unsat(clauses[k]) && PlanOf(plan[i], clauses[k], count);
      assert ClauseAnswers(clauses[k], count, r);
      SuitsPorted(clauses[k], r);
    }
  }

  /** The choice being unique, some choice reaches the packet exactly when this one does. */
  lemma OnlyChoice(f: IndexFilter, c: Clause, count: IndexFilter -> nat, r: Record)
    requires Chosen(f, c, count)
    ensures (exists g :: Chosen(g, c, count) && Reaches(r, g.index)) <==> Reaches(r, f.index)
  {
    forall g | Chosen(g, c, count) ensures g == f { ChosenUnique(f, g, c, count); }
  }

  lemma PlanKnown(plan: seq<ClausePlan>, e: Expr, resolve: Resolver, count: IndexFilter -> nat)
    requires Plannable(e, resolve) && GoodPlan(plan, e, resolve, count) && Resolves(resolve)
    ensures forall i :: 0 <= i < |plan| ==> KnownIndex(plan[i].idx.index)
    ensures |plan| <= if e.Or? then |e.children| else 1
  {
    if e.Pred? {
      assert resolve(e.attr, e.op, e.value).Ok?;
    } else {
      forall i | 0 <= i < |plan| ensures KnownIndex(plan[i].idx.index) {
        PlanHasClause(plan, ClausesOf(e, resolve), count, i);
      }
      if plan != [] { PlanHasClause(plan, ClausesOf(e, resolve), count, 0); }
    }
  }

  // ----- when every chosen range can be walked -----

  ghost predicate ClauseRuns(c: Clause, count: IndexFilter -> nat) {
    Unsat(c) || exists f :: Chosen(f, c, count) && InSpace(f)
  }

  /** In terms of the expression and the counts: every satisfiable clause is run on a range
      that can be walked. */
  ghost predicate Runs(e: Expr, resolve: Resolver, count: IndexFilter -> nat)
    requires Plannable(e, resolve)
  {
    && (e.Pred? ==> InSpace(LeafFilter(e, resolve)))
    && forall k :: 0 <= k < |ClausesOf(e, resolve)| ==> ClauseRuns(ClausesOf(e, resolve)[k], count)
  }

  lemma RunsExactly(plan: seq<ClausePlan>, e: Expr, resolve: Resolver, count: IndexFilter -> nat)
    requires Plannable(e, resolve) && GoodPlan(plan, e, resolve, count)
    ensures AllInSpace(plan) <==> Runs(e, resolve, count)
  {
    var clauses := ClausesOf(e, resolve);
    if e.Pred? {
      assert plan[0].idx == LeafFilter(e, resolve);
    } else {
      if AllInSpace(plan) {
        forall k | 0 <= k < |clauses| ensures ClauseRuns(clauses[k], count) {
          if !Unsat(clauses[k]) {
            ClauseHasPlan(plan, clauses, count, k);
            var i :| 0 <= i < |plan| && PlanOf(plan[i], clauses[k], count);
            assert Chosen(plan[i].idx, clauses[k], count) && InSpace(plan[i].idx);
          }
        }
      }
      if Runs(e, resolve, count) {
        forall i | 0 <= i < |plan| ensures InSpace(plan[i].idx) {
          PlanHasClause(plan, clauses, count, i);
          var k :| 0 <= k < |clauses| && !Unsat(clauses[k]) && PlanOf(plan[i], clauses[k], count);
          assert ClauseRuns(clauses[k], count);
          var f :| Chosen(f, clauses[k], count) && InSpace(f);
          ChosenUnique(f, plan[i].idx, clauses[k], count);
        }
      }
    }
  }

  /** Every chosen range can be walked. */
  predicate AllInSpace(plan: seq<ClausePlan>) { forall i :: 0 <= i < |plan| ==> InSpace(plan[i].idx) }

  /** Whatever the counts, a walkable expression runs. */
  lemma WalkableRuns(plan: seq<ClausePlan>, e: Expr, resolve: Resolver, count: IndexFilter -> nat)
    requires Plannable(e, resolve) && GoodPlan(plan, e, resolve, count) && Walkable(e, resolve)
    ensures AllInSpace(plan)
  {
    if !e.Pred? {
      var clauses := ClausesOf(e, resolve);
      forall i | 0 <= i < |plan| ensures InSpace(plan[i].idx) {
        PlanHasClause(plan, clauses, count, i);
        var k :| 0 <= k < |clauses| && !Unsat(clauses[k]) && PlanOf(plan[i], clauses[k], count);
        ClauseOfStays(e, resolve, k, 1);
        IntersectionFits(plan[i].idx, clauses[k], 1);
        var j :| 0 <= j < |clauses[k]| && clauses[k][j].index == plan[i].idx.index;
        assert HasFit(clauses[k], clauses[k][j].index, 1);
      }
    }
  }

  lemma ClauseOfStays(e: Expr, resolve: Resolver, k: nat, slack: nat)
    requires Plannable(e, resolve) && k < |ClausesOf(e, resolve)| && ClausesStay(e, resolve, slack)
    ensures Unsat(ClausesOf(e, resolve)[k]) || EndsBy(ClausesOf(e, resolve)[k], slack)
  {
    if e.Or? { assert ClauseStays(e.children[k].children, resolve, slack); }
  }

  /** A disjunction stays inside the indexes exactly when all its clauses do. */
  lemma StaysMore(ds: seq<Expr>, d: Expr, resolve: Resolver, slack: nat)
    requires d.And?
    ensures ClausesStay(Or(ds + [d]), resolve, slack) <==>
            ClausesStay(Or(ds), resolve, slack) && ClausesStay(d, resolve, slack)
  {
    var es := ds + [d];
    assert es[|ds|] == d && forall i :: 0 <= i < |ds| ==> es[i] == ds[i];
  }

  /** One more clause, with its plan if it has one. */
  lemma MoreClauses(plan: seq<ClausePlan>, ds: seq<Expr>, more: seq<ClausePlan>, d: Expr, resolve: Resolver,
                    count: IndexFilter -> nat)
    requires Plannable(Or(ds), resolve) && d.And? && LeavesOk(d.children, resolve)
    requires GoodPlan(plan, Or(ds), resolve, count) && GoodPlan(more, d, resolve, count)
    ensures Plannable(Or(ds + [d]), resolve) && GoodPlan(plan + more, Or(ds + [d]), resolve, count)
  {
    var c := ClauseFor(d.children, resolve);
    assert ClausesOf(Or(ds + [d]), resolve) == ClausesOf(Or(ds), resolve) + [c];
    assert ClausesOf(d, resolve) == [c];
    AlignedMore(plan, ClausesOf(Or(ds), resolve), more, c, PlanRel(count), Dead());
  }

  /** How planning an expression ends: with its plan, refused, or outside an index. */
  ghost predicate Planned(res: Result<seq<ClausePlan>>, e: Expr, resolve: Resolver, count: IndexFilter -> nat) {
    match res
    case Ok(plan) => Plannable(e, resolve) && Countable(e, resolve) && GoodPlan(plan, e, resolve, count)
    case Err(error) =>
      || (error == OutsideIndex && !Countable(e, resolve))
      || (Refusal(error, resolve) && !Plannable(e, resolve))
  }

  method PlanConjunction(cs: seq<Expr>, resolve: Resolver, count: IndexFilter -> nat)
    returns (res: Result<seq<ClausePlan>>)
    requires cs != [] && Resolves(resolve) && forall f :: count(f) < UINT64_MAX
    ensures Planned(res, And(cs), resolve, count)
  {
    var c := ClauseFrom(cs, resolve);
    if c.Err? { return Err(c.error); }
    var p := BuildClausePlan(c.value, count);
    if p.Err? { return Err(p.error); }
    assert ClausesOf(And(cs), resolve) == [c.value];
    res := Ok(if p.value.Some? then [p.value.value] else []);
    AlignedOne(res.value, c.value, PlanRel(count), Dead());
  }

  type Verdict = (Result<seq<ClausePlan>>, Expr) -> bool

  /** fine stands for Planned. */
  ghost predicate Judges(fine: Verdict, resolve: Resolver, count: IndexFilter -> nat) {
    forall res, e {:trigger Planned(res, e, resolve, count)} :: fine(res, e) <==> Planned(res, e, resolve, count)
  }

  ghost function PlannedAs(resolve: Resolver, count: IndexFilter -> nat): Verdict {
    (res: Result<seq<ClausePlan>>, e: Expr) => Planned(res, e, resolve, count)
  }

  lemma PlannedNone(fine: Verdict, resolve: Resolver, count: IndexFilter -> nat)
    requires Judges(fine, resolve, count)
    ensures fine(Ok([]), Or([]))
  {
    assert Planned(Ok([]), Or([]), resolve, count);
  }

  lemma PlannedMore(fine: Verdict, plan: seq<ClausePlan>, ds: seq<Expr>, more: seq<ClausePlan>, d: Expr,
                    resolve: Resolver, count: IndexFilter -> nat)
    requires Judges(fine, resolve, count) && d.And? && fine(Ok(plan), Or(ds)) && fine(Ok(more), d)
    ensures fine(Ok(plan + more), Or(ds + [d]))
  {
    assert Planned(Ok(plan), Or(ds), resolve, count) && Planned(Ok(more), d, resolve, count);
    MoreClauses(plan, ds, more, d, resolve, count);
    StaysMore(ds, d, resolve, 0);
    assert Planned(Ok(plan + more), Or(ds + [d]), resolve, count);
  }

  lemma PlannedStop(fine: Verdict, ds: seq<Expr>, i: nat, res: Result<seq<ClausePlan>>,
                    resolve: Resolver, count: IndexFilter -> nat)
    requires Judges(fine, resolve, count) && i < |ds| && res.Err?
    requires if ds[i].And? then fine(res, ds[i]) else res.error == NotDnf
    ensures fine(res, Or(ds))
  {
    assert Planned(res, Or(ds), resolve, count) by {
      if ds[i].And? {
        assert Planned(res, ds[i], resolve, count);
        assert ds[i] == And(ds[i].children);
      }
    }
  }

  method PlanClause(d: Expr, ghost fine: Verdict, resolve: Resolver, count: IndexFilter -> nat)
    returns (res: Result<seq<ClausePlan>>)
    requires NoBareNode(d) && Resolves(resolve) && Judges(fine, resolve, count) && forall f :: count(f) < UINT64_MAX
    ensures if d.And? then fine(res, d) else res == Err(NotDnf)
  {
    if !d.And? { return Err(NotDnf); }
    res := PlanConjunction(d.children, resolve, count);
    assert d == And(d.children);
  }

  method PlanClauses(ds: seq<Expr>, ghost fine: Verdict, resolve: Resolver, count: IndexFilter -> nat)
    returns (res: Result<seq<ClausePlan>>)
    requires forall i :: 0 <= i < |ds| ==> NoBareNode(ds[i])
    requires Resolves(resolve) && Judges(fine, resolve, count) && forall f :: count(f) < UINT64_MAX
    ensures fine(res, Or(ds))
  {
    var plan: seq<ClausePlan> := [];
    PlannedNone(fine, resolve, count);
    for i := 0 to |ds|
      invariant fine(Ok(plan), Or(ds[..i]))
    {
      var more := PlanClause(ds[i], fine, resolve, count);
      if more.Err? {
        PlannedStop(fine, ds, i, more, resolve, count);
        return more;
      }
      PlannedMore(fine, plan, ds[..i], more.value, ds[i], resolve, count);
      assert ds[..i] + [ds[i]] == ds[..i + 1];
      plan := plan + more.value;
    }
    assert ds[..|ds|] == ds;
    res := Ok(plan);
  }

  method PlanDisjunction(ds: seq<Expr>, resolve: Resolver, count: IndexFilter -> nat)
    returns (res: Result<seq<ClausePlan>>)
    requires forall i :: 0 <= i < |ds| ==> NoBareNode(ds[i])
    requires Resolves(resolve) && forall f :: count(f) < UINT64_MAX
    ensures Planned(res, Or(ds), resolve, count)
  {
    res := PlanClauses(ds, PlannedAs(resolve, count), resolve, count);
  }

  /** plan(): rejects exactly the other shapes, goes outside an index only where counting
      does, and otherwise gives the plans of the satisfiable clauses in order, or the lone
      predicate's range. */
  method Plan(e: Expr, resolve: Resolver, count: IndexFilter -> nat) returns (res: Result<seq<ClausePlan>>)
    requires NoBareNode(e) && Resolves(resolve) && forall f :: count(f) < UINT64_MAX
    ensures !e.Not? ==> Planned(res, e, resolve, count)
    ensures e.Not? ==> res == Ok([])
  {
    match e
    case Pred(a, op, x) =>
      var f := resolve(a, op, x);
      if f.Err? { return Err(f.error); }
      res := Ok([ClausePlan(f.value, ANY, false)]);
    case And(cs) =>
      res := PlanConjunction(cs, resolve, count);
    case Or(ds) =>
      res := PlanDisjunction(ds, resolve, count);
    case Not(_) =>
      res := Ok([]);
  }
}
