/**
 Standing queries: a character registered before any insert answers a window with
 the packets that its expression selects, as a retrospective query would.
 */
module Standing {
  import opened Packets
  import opened Expressions
  import opened Clauses
  import opened Planner
  import opened PublishProtocol
  import opened PublishInvariant
  import opened PublishLimits
  import opened PublishTheorems
  import opened Cursors
  import opened Characters
  import opened LiveStore
  import opened IdleStore
  import opened Cast

  // ----- build_filter_list -----

  /** The filters of an expression: one per clause. */
  function FiltersFor(e: Expr, resolve: Resolver): (list: FilterList)
    requires Plannable(e, resolve)
  {
    match e
    case Pred(_, _, _) => [FilterOf([LeafFilter(e, resolve)])]
    case And(cs) => [FilterOf(ClauseFor(cs, resolve))]
    case Or(ds) =>
      seq(|ds|, i requires 0 <= i < |ds| && ds[i].And? && LeavesOk(ds[i].children, resolve) =>
            FilterOf(ClauseFor(ds[i].children, resolve)))
    case Not(_) => []
  }

  method FilterFrom(cs: seq<Expr>, resolve: Resolver) returns (res: Result<PacketFilter>)
    requires Resolves(resolve)
    ensures res.Ok? <==> LeavesOk(cs, resolve)
    ensures res.Ok? ==> res.value == FilterOf(ClauseFor(cs, resolve))
  {
    var c := ClauseFrom(cs, resolve);
    if c.Err? { return Err(c.error); }
    ClauseKnown(cs, resolve);
    res := BuildPacketFilter(c.value);
  }

  lemma ClauseKnown(cs: seq<Expr>, resolve: Resolver)
    requires Resolves(resolve) && LeavesOk(cs, resolve)
    ensures AllKnown(ClauseFor(cs, resolve))
  {
    var c := ClauseFor(cs, resolve);
    forall i | 0 <= i < |c| ensures KnownIndex(c[i].index) {
      assert resolve(cs[i].attr, cs[i].op, cs[i].value) == Ok(c[i]);
    }
  }

  /** build_filter_list: accepts the same shapes as plan(), with one filter per clause. */
  method BuildFilterList(e: Expr, resolve: Resolver) returns (res: Result<FilterList>)
    requires Resolves(resolve)
    ensures res.Ok? <==> Plannable(e, resolve)
    ensures res.Ok? ==> res.value == FiltersFor(e, resolve)
    ensures res.Ok? ==> forall r: Record :: Matches(res.value, r.pkt) <==> Kept(e, resolve, r)
  {
    match e {
    case Pred(_, _, _) =>
      assert LeavesOk([e], resolve) <==> LeafOk([e][0], resolve);
      var pf := FilterFrom([e], resolve);
      if pf.Err? { return Err(pf.error); }
      assert ClauseFor([e], resolve) == [LeafFilter(e, resolve)];
      res := Ok([pf.value]);
    case And(cs) =>
      var pf := FilterFrom(cs, resolve);
      if pf.Err? { return Err(pf.error); }
      res := Ok([pf.value]);
    case Or(ds) =>
      var list: FilterList := [];
      for i := 0 to |ds|
        invariant |list| == i
        invariant forall k :: 0 <= k < i ==> ds[k].And? && LeavesOk(ds[k].children, resolve)
        invariant forall k :: 0 <= k < i ==> list[k] == FilterOf(ClauseFor(ds[k].children, resolve))
      {
        if !ds[i].And? { return Err(NotDnf); }
        var pf := FilterFrom(ds[i].children, resolve);
        if pf.Err? { return Err(pf.error); }
        list := list + [pf.value];
      }
      assert list == FiltersFor(e, resolve);
      res := Ok(list);
    case Not(_) =>
      res := Ok([]);
    }
    forall r: Record ensures Matches(res.value, r.pkt) <==> Kept(e, resolve, r) {
      FiltersSelect(e, resolve, r);
    }
  }

  // ----- what the filters select -----

  /** A clause as insertion sees it: the last predicate on each attribute the packet has, time left out. */
  predicate ClauseKept(cs: seq<Expr>, resolve: Resolver, r: Record) {
    LeavesOk(cs, resolve) && LastHolds(ClauseFor(cs, resolve), r)
  }

  predicate Kept(e: Expr, resolve: Resolver, r: Record) {
    match e
    case Pred(_, _, _) => ClauseKept([e], resolve, r)
    case And(cs) => ClauseKept(cs, resolve, r)
    case Or(ds) => exists i :: 0 <= i < |ds| && ds[i].And? && ClauseKept(ds[i].children, resolve, r)
    case Not(_) => false
  }

  /** The filters of any accepted expression select exactly that, of packets of any kind. */
  lemma FiltersSelect(e: Expr, resolve: Resolver, r: Record)
    requires Plannable(e, resolve) && Resolves(resolve)
    ensures Matches(FiltersFor(e, resolve), r.pkt) <==> Kept(e, resolve, r)
  {
    var list := FiltersFor(e, resolve);
    match e
    case Pred(_, _, _) =>
      assert ClauseFor([e], resolve) == [LeafFilter(e, resolve)];
      ClauseSelects([e], resolve, r);
      assert list[0].Apply(r.pkt) <==> Kept(e, resolve, r);
    case And(cs) =>
      ClauseSelects(cs, resolve, r);
      assert list[0].Apply(r.pkt) <==> Kept(e, resolve, r);
    case Or(ds) =>
      forall i | 0 <= i < |ds| ensures list[i].Apply(r.pkt) <==> ClauseKept(ds[i].children, resolve, r) {
        ClauseSelects(ds[i].children, resolve, r);
      }
    case Not(_) =>
  }

  lemma ClauseSelects(cs: seq<Expr>, resolve: Resolver, r: Record)
    requires LeavesOk(cs, resolve) && Resolves(resolve)
    ensures FilterOf(ClauseFor(cs, resolve)).Apply(r.pkt) <==> ClauseKept(cs, resolve, r)
  {
    ClauseKnown(cs, resolve);
    InsertFilterMeans(ClauseFor(cs, resolve), r);
  }

  /** One predicate per attribute and none on the timestamp. */
  ghost predicate SimpleLeaves(cs: seq<Expr>, resolve: Resolver) {
    LeavesOk(cs, resolve) && Distinct(ClauseFor(cs, resolve))
    && forall i :: 0 <= i < |cs| ==> LeafFilter(cs[i], resolve).index != TIME_IDX
  }

  ghost predicate SimpleExpr(e: Expr, resolve: Resolver) {
    match e
    case Pred(_, _, _) => SimpleLeaves([e], resolve)
    case And(cs) => SimpleLeaves(cs, resolve)
    case Or(ds) => forall i :: 0 <= i < |ds| ==> ds[i].And? && SimpleLeaves(ds[i].children, resolve)
    case Not(_) => false
  }

  lemma SimpleClause(cs: seq<Expr>, resolve: Resolver, r: Record)
    requires SimpleLeaves(cs, resolve)
    ensures ClauseKept(cs, resolve, r) <==> Suits(ClauseFor(cs, resolve), r)
    ensures HasPorts(r.pkt) ==> (ClauseKept(cs, resolve, r) <==> Eval(And(cs), EnvFor(resolve, r)))
  {
    var c := ClauseFor(cs, resolve);
    ClauseMeaning(cs, resolve, r);
    SuitsPorted(c, r);
    forall i | 0 <= i < |c| ensures LastOn(c, i) && c[i].index != TIME_IDX {
      assert c[i] == LeafFilter(cs[i], resolve);
    }
  }

  /** For simple expressions that is what the expression says of TCP and UDP packets. */
  lemma SimpleMeans(e: Expr, resolve: Resolver, r: Record)
    requires SimpleExpr(e, resolve)
    ensures Plannable(e, resolve) && (HasPorts(r.pkt) ==> (Kept(e, resolve, r) <==> Eval(e, EnvFor(resolve, r))))
  {
    var v := EnvFor(resolve, r);
    match e
    case Pred(_, _, _) =>
      SimpleClause([e], resolve, r);
      assert LeafOk([e][0], resolve) && (Eval([e][0], v) <==> Eval(e, v));
    case And(cs) => SimpleClause(cs, resolve, r);
    case Or(ds) =>
      forall i | 0 <= i < |ds| && HasPorts(r.pkt) ensures ClauseKept(ds[i].children, resolve, r) <==> Eval(ds[i], v) {
        SimpleClause(ds[i].children, resolve, r);
        assert ds[i] == And(ds[i].children);
      }
  }

  // ----- the character's window -----

  function Seconds(s: State): set<nat> { set key | key in s.lists && key.index.Character? :: key.token }

  function Row(s: State, t: nat): map<nat, seq<nat>> {
    map key | key in s.lists && key.index.Character? && key.token == t :: key.index.id := ListNow(s.lists[key], key, ZERO)
  }

  /** The character lists of a store by second and character. */
  function CharListsOf(s: State): CharLists { map t | t in Seconds(s) :: Row(s, t) }

  lemma RowAt(s: State, t: nat, c: nat)
    ensures c in Row(s, t) <==> Key(Character(c), t) in s.lists
    ensures c in Row(s, t) ==> t in Seconds(s) && Row(s, t)[c] == ListNow(s.lists[Key(Character(c), t)], Key(Character(c), t), ZERO)
  {
    var key := Key(Character(c), t);
    if key in s.lists { assert key.index.Character? && key.token == t && key.index.id == c; }
  }

  lemma CharListsAgree(s: State, c: nat)
    ensures OfCharacter(CharListsOf(s), c) == ListsOf(s, Character(c))
  {
    var a, b := OfCharacter(CharListsOf(s), c), ListsOf(s, Character(c));
    forall t: nat ensures (t in a <==> t in b) && (t in a ==> a[t] == b[t]) {
      RowAt(s, t, c);
      ListsNowAt(s, Character(c), t, ZERO);
    }
  }

  /** The packets a window of a character reports. */
  ghost predicate InWindow(s: State, e: Expr, resolve: Resolver, t1: nat, t2: nat, id: nat) {
    && id < s.readId
    && t1 <= RecordAt(s, id).now <= t2
    && Kept(e, resolve, RecordAt(s, id))
  }

  /** Character c registered for an expression: its ids for seconds t1 to t2 are exactly the
      packets inserted then that its filters keep, each once, and both counts give
      their number. */
  method QueryCharacter(fs: seq<FilterList>, ghost steps: seq<Step>, s: State, c: nat,
                        ghost e: Expr, ghost resolve: Resolver, t1: nat, t2: nat)
    returns (ids: seq<nat>, size: nat, counted: nat)
    requires RunOk(Init(fs), steps) && s == Run(Init(fs), steps)
    requires Idle(s) && NoEmptyBursts(s) && Tame(s)
    requires Plannable(e, resolve) && Resolves(resolve) && c < |fs| && fs[c] == FiltersFor(e, resolve)
    requires t1 <= t2 && t2 + 1 < SECONDS
    ensures NoDuplicates(ids)
    ensures forall id: nat :: id in ids <==> InWindow(s, e, resolve, t1, t2, id)
    ensures size == counted == |ids|
  {
    ReachableSettled(fs, steps);
    var lists := CharListsOf(s);
    CharListsAgree(s, c);
    SettledNoEmpty(s, Character(c), t1 + 1, t2);
    WindowExact(s, c, e, resolve, t1, t2);
    var probe;
    ids, size, probe := CollectCharacter(lists, c, t1, t2, s.readId);
    counted := CountCharacter(lists, c, t1, t2);
  }

  /** query_character for the packet counter. */
  method CountCharacter(lists: CharLists, c: nat, t1: nat, t2: nat) returns (counted: nat)
    requires t1 < SECONDS && t2 + 1 < SECONDS
    ensures counted == |Flat(OfCharacter(lists, c), t1, t2)|
  {
    var index := new CharacterIndex();
    index.lists := lists;
    counted := index.PacketCounter(c, t1, t2);
  }

  lemma WindowExact(s: State, c: nat, e: Expr, resolve: Resolver, t1: nat, t2: nat)
    requires Settled(s) && c < |s.filters|
    requires Plannable(e, resolve) && Resolves(resolve) && s.filters[c] == FiltersFor(e, resolve)
    ensures var f := Flat(ListsOf(s, Character(c)), t1, t2);
            && Yield(f, s.readId) == f && NoDuplicates(f)
            && forall id: nat :: id in f <==> InWindow(s, e, resolve, t1, t2, id)
  {
    SettledWalk(s, Character(c), t1, t2);
    forall id: nat | id < s.readId
      ensures InRange(s.filters, Character(c), RecordAt(s, id), t1, t2) <==> InWindow(s, e, resolve, t1, t2, id)
    {
      InWindowIs(s.filters, c, e, resolve, t1, t2, RecordAt(s, id));
    }
  }

  lemma InWindowIs(fs: seq<FilterList>, c: nat, e: Expr, resolve: Resolver, t1: nat, t2: nat, r: Record)
    requires c < |fs| && Plannable(e, resolve) && Resolves(resolve) && fs[c] == FiltersFor(e, resolve)
    ensures InRange(fs, Character(c), r, t1, t2) <==> t1 <= r.now <= t2 && Kept(e, resolve, r)
  {
    FiltersSelect(e, resolve, r);
  }

  /** Whatever a cast of a simple expression answers, its filters keep. */
  lemma AnswersKept(e: Expr, resolve: Resolver, count: IndexFilter -> nat, r: Record)
    requires SimpleExpr(e, resolve) && Plannable(e, resolve) && Answers(e, resolve, count, r)
    ensures Kept(e, resolve, r)
  {
    if HasPorts(r.pkt) {
      SimpleMeans(e, resolve, r);
    } else {
      match e
      case Pred(_, _, _) =>
        SimpleClause([e], resolve, r);
        assert ClauseFor([e], resolve) == [LeafFilter(e, resolve)];
      case And(cs) =>
        SimpleClause(cs, resolve, r);
      case Or(ds) =>
        var k :| 0 <= k < |ds| && ClauseAnswers(ClausesOf(e, resolve)[k], count, r);
        SimpleClause(ds[k].children, resolve, r);
        assert ClauseKept(ds[k].children, resolve, r);
    }
  }

  /** Standing and retrospective queries agree on simple expressions: of TCP and UDP packets
      the window holds exactly those of its seconds that the expression accepts, and a cast of
      the same expression returns all of these. Of packets of any kind, a cast returns for
      those seconds nothing but what the window holds and unchecked first hits. */
  lemma WindowIsCast(s: State, e: Expr, resolve: Resolver, count: IndexFilter -> nat, cast: set<nat>,
                     t1: nat, t2: nat, id: nat)
    requires SimpleExpr(e, resolve) && Plannable(e, resolve) && CastAnswer(s, e, resolve, count, cast)
    ensures HasPorts(RecordAt(s, id).pkt) ==>
              (InWindow(s, e, resolve, t1, t2, id) <==>
               id < s.readId && t1 <= RecordAt(s, id).now <= t2 && Eval(e, EnvFor(resolve, RecordAt(s, id))))
    ensures HasPorts(RecordAt(s, id).pkt) && InWindow(s, e, resolve, t1, t2, id) ==> id in cast
    ensures id in cast && t1 <= RecordAt(s, id).now <= t2 ==>
              InWindow(s, e, resolve, t1, t2, id) || Extra(s, e, resolve, count, id)
  {
    SimpleMeans(e, resolve, RecordAt(s, id));
    if Answers(e, resolve, count, RecordAt(s, id)) { AnswersKept(e, resolve, count, RecordAt(s, id)); }
  }
}
