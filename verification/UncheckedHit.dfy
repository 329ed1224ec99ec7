/** A store and a query whose answer holds a packet that the query does not accept. */
module UncheckedHit {
  import opened Packets
  import opened Expressions
  import opened Clauses
  import opened Planner
  import opened PublishProtocol
  import opened PublishInvariant
  import opened PublishLimits
  import opened PublishTheorems
  import opened PublishProgress
  import opened PublishOverrun
  import opened IdleStore
  import opened Cast
  import opened Frames

  /** A TCP packet from address 0 to address 0. */
  predicate Plain(p: Packet) { |p| == 38 && HasPorts(p) && SrcAddr(p) == 0 && DstAddr(p) == 0 }

  lemma PlainPacket() returns (p: Packet)
    ensures Plain(p)
  {
    p := SomePacket(IPPROTO_TCP, 0, 0, 0, 0);
  }

  /** A store that holds exactly that packet, with nothing in flight. */
  ghost predicate HoldsIt(s: State, pkt: Packet) {
    Settled(s) && Tame(s) && s.readId == 1 && RecordAt(s, 0) == Record(0, pkt)
  }

  lemma OnePacketStore(fs: seq<FilterList>, pkt: Packet) returns (steps: seq<Step>)
    requires |fs| <= MAX_FILTERS && Plain(pkt)
    ensures RunOk(Init(fs), steps) && HoldsIt(Run(Init(fs), steps), pkt) && Run(Init(fs), steps).filters == fs
  {
    InitInv(fs);
    var first := AddBurst(Init(fs), [pkt]);
    var s1 := Run(Init(fs), first);
    RunTail(Init(fs), first);
    SameFilters(Init(fs), first);
    var rest := RunToStop(s1);
    Drained(s1, rest, pkt);
    RunConcat(Init(fs), first, rest);
    steps := first + rest;
  }

  lemma Drained(s: State, rest: seq<Step>, pkt: Packet)
    requires Plain(pkt) && Inv(s) && TailOk(s) && |s.filters| <= MAX_FILTERS && |s.jobs| == 1 && HasBytes(s.jobs[0])
    requires s.jobs[0].burst == Burst(0, 0, [pkt]) && s.jobs[0].off == 0
    requires RunOk(s, rest) && AllMoving(rest) && Stopped(Run(s, rest))
    ensures HoldsIt(Run(s, rest), pkt) && Run(s, rest).filters == s.filters
  {
    MovingKeeps(s, rest);
    RunInv(s, rest);
    RunTail(s, rest);
    SameFilters(s, rest);
    var s' := Run(s, rest);
    assert StillReserved(s.jobs[0], s'.jobs[0]);
    AtRest(s', pkt);
  }

  lemma AtRest(s: State, pkt: Packet)
    requires Plain(pkt) && Inv(s) && TailOk(s) && |s.filters| <= MAX_FILTERS && Stopped(s)
    requires |s.jobs| == 1 && s.jobs[0].burst == Burst(0, 0, [pkt]) && s.jobs[0].off == 0
    ensures HoldsIt(s, pkt)
  {
    StoppedMeansIdle(s);
    OneJob(s, pkt);
  }

  lemma OneJob(s: State, pkt: Packet)
    requires Plain(pkt) && Inv(s) && TailOk(s) && Idle(s) && s.readId == s.writeId && |s.filters| <= MAX_FILTERS
    requires |s.jobs| == 1 && s.jobs[0].burst == Burst(0, 0, [pkt]) && s.jobs[0].off == 0
    ensures HoldsIt(s, pkt)
  {
    OneId(s, pkt);
    forall key | key in s.lists ensures |s.lists[key].owners| <= 1 { ShortList(s, key); }
    OneLimits(s, pkt);
    LimitsSuffice(s);
  }

  lemma OneId(s: State, pkt: Packet)
    requires JobsOk(s) && |s.jobs| == 1 && s.jobs[0].burst == Burst(0, 0, [pkt])
    ensures s.writeId == 1 && RecordAt(s, 0) == Record(0, pkt)
  {
    assert s.jobs[0].burst.End() == 1;
    var last := |s.owner| - 1;
    assert s.jobs[s.owner[last]].burst.Owns(last);
  }

  lemma OneLimits(s: State, pkt: Packet)
    requires Plain(pkt) && TailOk(s) && s.writeId == 1 && |s.filters| <= MAX_FILTERS
    requires |s.jobs| == 1 && s.jobs[0].burst == Burst(0, 0, [pkt]) && s.jobs[0].off == 0
    requires forall key :: key in s.lists ==> |s.lists[key].owners| <= 1
    ensures Limits(s)
  {
    assert RelOff([pkt], 1) == RelOff([pkt], 0) + STAMP + 38;
  }

  lemma ShortList(s: State, key: Key)
    requires Inv(s) && Idle(s) && s.writeId == 1 && key in s.lists
    ensures |s.lists[key].owners| <= 1
  {
    IdleComplete(s);
    forall n | 0 <= n < |s.lists[key].owners| ensures Holds(s, key, n, 0) { OnlyZero(s, key, n); }
    if |s.lists[key].owners| > 1 { EntryUnique(s, key, 0, key, 1, 0); }
  }

  lemma OnlyZero(s: State, key: Key, n: nat)
    requires Inv(s) && s.writeId == 1 && key in s.lists && n in s.lists[key].vals
    ensures Holds(s, key, n, 0)
  {
    EntrySound(s, key, n, s.lists[key].vals[n]);
  }

  // ----- src_ip == 0 && dst_ip == 1 -----

  const SRC: IndexFilter := IndexFilter(SRC_IP_IDX, Range(0, 0))
  const DST: IndexFilter := IndexFilter(DST_IP_IDX, Range(1, 1))

  function Resolve(): Resolver {
    (a: string, op: string, x: string) =>
      if a == "src_ip" then Ok(SRC) else if a == "dst_ip" then Ok(DST) else Err(BadPredicate)
  }

  function NoCount(): IndexFilter -> nat { (f: IndexFilter) => 0 }

  const QUERY: Expr := And([Pred("src_ip", "==", "0"), Pred("dst_ip", "==", "1")])

  lemma QueryClause()
    ensures Plannable(QUERY, Resolve()) && ClausesOf(QUERY, Resolve()) == [[SRC, DST]]
  {
    assert LeafOk(QUERY.children[0], Resolve()) && LeafOk(QUERY.children[1], Resolve());
    assert ClauseFor(QUERY.children, Resolve()) == [SRC, DST];
  }

  lemma SrcChosen()
    ensures Chosen(SRC, [SRC, DST], NoCount()) && MultiIndex([SRC, DST]) && !Unsat([SRC, DST])
  {
    var c := [SRC, DST];
    assert c[0].index != c[1].index;
    forall t: nat ensures SRC.range.Contains(t) <==> AllHold(c, SRC.index, t) { assert c[0] == SRC && c[1] == DST; }
    assert c[0].index == SRC.index;
    assert Intersects(SRC, c);
    assert FirstUse(c, SRC_IP_IDX, DST_IP_IDX, 0);
    forall g: IndexFilter | Intersects(g, c) && g.range.first <= g.range.second && g != SRC
      ensures Preferred(SRC, g, c, NoCount())
    {
      if g.index == SRC.index { IntersectionUnique(SRC, g, c); }
      assert g.index == DST_IP_IDX;
    }
    assert Sat(c, (x: nat) => if x == SRC_IP_IDX then 0 else 1);
  }

  /** The query rejects the packet, and its cast is answered and returns it. */
  lemma FirstHitUnchecked(s: State, pkt: Packet)
    requires Plain(pkt) && HoldsIt(s, pkt)
    ensures Plannable(QUERY, Resolve()) && Walkable(QUERY, Resolve())
    ensures !Eval(QUERY, EnvFor(Resolve(), RecordAt(s, 0)))
    ensures forall ids :: CastAnswer(s, QUERY, Resolve(), NoCount(), ids) ==> 0 in ids
  {
    QueryClause();
    SrcChosen();
    QueryWalks();
    Rejected(RecordAt(s, 0));
    FirstIsZero(s, pkt);
    assert ClauseExtra(s, ClausesOf(QUERY, Resolve())[0], NoCount(), 0);
    assert Extra(s, QUERY, Resolve(), NoCount(), 0);
  }

  lemma Rejected(r: Record)
    requires Plain(r.pkt)
    ensures !Eval(QUERY, EnvFor(Resolve(), r))
  {
    var v := EnvFor(Resolve(), r);
    assert "dst_ip"[0] != "src_ip"[0];
    assert Resolve()("dst_ip", "==", "1") == Ok(DST);
    assert TokenFor(r, DST.index) == 0;
    assert !Eval(QUERY.children[1], v);
  }

  lemma QueryWalks()
    ensures Plannable(QUERY, Resolve()) && Walkable(QUERY, Resolve())
  {
    QueryClause();
    var c := [SRC, DST];
    assert ClauseFor(QUERY.children, Resolve()) == c;
    forall i | 0 <= i < |c| ensures HasFit(c, c[i].index, 1) { assert Fits(c[i], 1); }
  }

  lemma FirstIsZero(s: State, pkt: Packet)
    requires Plain(pkt) && HoldsIt(s, pkt)
    ensures FirstOf(s, SRC, 0)
  {
    var p := ClausePlan(SRC, ANY, false);
    HitsAre(s, p, 0);
    SettledHits(s, p);
    assert Hits(s, p)[0] < 1;
  }

  /** So a reachable store and a query exist whose cast returns a packet the query rejects. */
  lemma RejectedPacketReturned() returns (steps: seq<Step>, s: State)
    ensures RunOk(Init([]), steps) && s == Run(Init([]), steps) && Idle(s) && NoEmptyBursts(s) && Tame(s)
    ensures Plannable(QUERY, Resolve()) && Walkable(QUERY, Resolve()) && 0 < s.readId
    ensures !Eval(QUERY, EnvFor(Resolve(), RecordAt(s, 0)))
    ensures forall ids :: CastAnswer(s, QUERY, Resolve(), NoCount(), ids) ==> 0 in ids
  {
    var pkt := PlainPacket();
    steps := OnePacketStore([], pkt);
    s := Run(Init([]), steps);
    FirstHitUnchecked(s, pkt);
  }
}
