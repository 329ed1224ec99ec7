/**
 Clauses of index ranges: intersecting them in place, turning them into packet
 filters, and picking the cheapest one to run on an index.
 */
module Clauses {
  import opened Packets
  import opened Expressions

  datatype IndexFilter = IndexFilter(index: nat, range: Range)

  type Clause = seq<IndexFilter>

  /** A token for every index id. */
  type Tokens = nat -> nat

  predicate Sat(c: Clause, a: Tokens) {
    forall i :: 0 <= i < |c| ==> c[i].range.Contains(a(c[i].index))
  }

  // Index ids as handed out by the store's constructor: a class offset for the
  // token length plus a sequence number.
  const SRC_IP_IDX: nat := 8192
  const DST_IP_IDX: nat := 8193
  const TIME_IDX: nat := 8194
  const SRC_PORT_IDX: nat := 2048
  const DST_PORT_IDX: nat := 2049

  predicate KnownIndex(id: nat) {
    id == SRC_IP_IDX || id == DST_IP_IDX || id == SRC_PORT_IDX || id == DST_PORT_IDX || id == TIME_IDX
  }

  /** The record has a token on index x: only TCP and UDP packets have ports. */
  predicate Reaches(r: Record, x: nat) { HasPorts(r.pkt) || (x != SRC_PORT_IDX && x != DST_PORT_IDX) }

  /** Every range on an index where the record has a token holds it. */
  predicate Suits(c: Clause, r: Record) {
    forall i :: 0 <= i < |c| && Reaches(r, c[i].index) ==> c[i].range.Contains(TokenFor(r, c[i].index))
  }

  /** The tokens of a stored TCP or UDP packet. */
  function TokensOf(r: Record): Tokens { (id: nat) => TokenFor(r, id) }

  function TokenFor(r: Record, id: nat): nat {
    if id == SRC_IP_IDX then SrcAddr(r.pkt)
    else if id == DST_IP_IDX then DstAddr(r.pkt)
    else if id == SRC_PORT_IDX then SrcPort(r.pkt)
    else if id == DST_PORT_IDX then DstPort(r.pkt)
    else r.now
  }

  // ----- reduce_clause -----

  predicate Distinct(c: Clause) {
    forall i, j :: 0 <= i < j < |c| ==> c[i].index != c[j].index
  }

  predicate RangesNonEmpty(c: Clause) {
    forall i :: 0 <= i < |c| ==> c[i].range.first <= c[i].range.second
  }

  function Meet(r: Range, q: Range): Range {
    Range(if r.first < q.first then q.first else r.first, if q.second < r.second then q.second else r.second)
  }

  ghost predicate SameMeaning(c: Clause, d: Clause) {
    forall a: Tokens :: Sat(c, a) <==> Sat(d, a)
  }

  function Erase(c: Clause, j: nat): Clause
    requires j < |c|
  { c[..j] + c[j + 1..] }

  /** Merging filter j into filter i on the same index keeps the meaning. */
  lemma MergeKeepsMeaning(c: Clause, i: nat, j: nat, r: Range)
    requires i < j < |c| && c[i].index == c[j].index
    ensures SameMeaning(c[i := c[i].(range := r)],
                        Erase(c, j)[i := c[i].(range := Meet(r, c[j].range))])
  {
    var p := c[i := c[i].(range := r)];
    var q := Erase(c, j)[i := c[i].(range := Meet(r, c[j].range))];
    forall a: Tokens ensures Sat(p, a) <==> Sat(q, a) {
      if Sat(p, a) {
        assert p[i].range.Contains(a(p[i].index)) && p[j].range.Contains(a(p[j].index));
        forall k | 0 <= k < |q| ensures q[k].range.Contains(a(q[k].index)) {
          assert k != i ==> q[k] == p[if k < j then k else k + 1];
        }
      }
      if Sat(q, a) {
        assert q[i].range.Contains(a(q[i].index));
        forall k | 0 <= k < |p| ensures p[k].range.Contains(a(p[k].index)) {
          assert k != i && k != j ==> p[k] == q[if k < j then k else k - 1];
        }
      }
    }
  }

  /** No filter from position i on is for index x. */
  predicate Avoids(c: Clause, i: nat, x: nat) { forall l :: i <= l < |c| ==> c[l].index != x }

  lemma MergeRest(c: Clause, i: nat, j: nat)
    requires i < j < |c|
    ensures forall x :: Avoids(c, i, x) ==> Avoids(Erase(c, j), i, x)
  {
  }

  /** Index x is used before any use of index y. */
  ghost predicate UsedBefore(c: Clause, x: nat, y: nat) {
    exists i :: 0 <= i < |c| && FirstUse(c, x, y, i)
  }

  predicate FirstUse(c: Clause, x: nat, y: nat, i: nat)
    requires i < |c|
  { c[i].index == x && forall j :: 0 <= j <= i ==> c[j].index != y }

  ghost predicate SameOrder(c: Clause, d: Clause) { forall x: nat, y: nat :: UsedBefore(c, x, y) <==> UsedBefore(d, x, y) }

  /** Dropping a later filter on an index that an earlier one uses keeps the order. */
  lemma EraseKeepsOrder(c: Clause, i: nat, j: nat)
    requires i < j < |c| && c[i].index == c[j].index
    ensures SameOrder(c, Erase(c, j))
  {
    var d := Erase(c, j);
    forall x: nat, y: nat ensures UsedBefore(c, x, y) <==> UsedBefore(d, x, y) {
      if m :| 0 <= m < |c| && FirstUse(c, x, y, m) {
        var n := if m == j then i else if m < j then m else m - 1;
        assert forall k :: 0 <= k <= n ==> d[k] == c[if k < j then k else k + 1];
        assert FirstUse(d, x, y, n);
      }
      if m :| 0 <= m < |d| && FirstUse(d, x, y, m) {
        var n := if m < j then m else m + 1;
        assert d[i] == c[i] && (m >= j ==> c[i].index != y);
        forall k | 0 <= k <= n ensures c[k].index != y {
          assert k != j ==> c[k] == d[if k < j then k else k - 1];
        }
        assert FirstUse(c, x, y, n);
      }
    }
  }

  lemma RangeKeepsOrder(c: Clause, i: nat, r: Range)
    requires i < |c|
    ensures SameOrder(c, c[i := c[i].(range := r)])
  {
    var d := c[i := c[i].(range := r)];
    assert forall k :: 0 <= k < |c| ==> d[k].index == c[k].index;
    forall x: nat, y: nat ensures UsedBefore(c, x, y) <==> UsedBefore(d, x, y) {
      if m :| 0 <= m < |c| && FirstUse(c, x, y, m) { assert FirstUse(d, x, y, m); }
      if m :| 0 <= m < |d| && FirstUse(d, x, y, m) { assert FirstUse(c, x, y, m); }
    }
  }

  /** No two indexes come before each other. */
  lemma BeforeOneWay(c: Clause, x: nat, y: nat)
    requires UsedBefore(c, x, y)
    ensures !UsedBefore(c, y, x)
  {
    var i :| 0 <= i < |c| && FirstUse(c, x, y, i);
    forall j | 0 <= j < |c| ensures !FirstUse(c, y, x, j) { assert j >= i ==> c[i].index == x; }
  }

  /** Filters between i and j are on other indexes; with r as its range, filter i
      makes c mean what c0 means. */
  ghost predicate Absorbing(c0: Clause, c: Clause, i: nat, j: nat, r: Range) {
    && i < j <= |c| <= |c0| && c[..i] == c0[..i] && c[i].index == c0[i].index
    && SameMeaning(c0, c[i := c[i].(range := r)])
    && SameOrder(c0, c)
    && (forall k :: i < k < j ==> c[k].index != c[i].index)
    && forall x :: Avoids(c0, i, x) ==> Avoids(c, i, x)
  }

  lemma AbsorbMerge(c0: Clause, c: Clause, i: nat, j: nat, r: Range)
    requires Absorbing(c0, c, i, j, r) && j < |c| && c[j].index == c[i].index
    ensures Absorbing(c0, Erase(c, j), i, j, Meet(r, c[j].range))
  {
    MergeKeepsMeaning(c, i, j, r);
    MergeRest(c, i, j);
    EraseKeepsOrder(c, i, j);
    var d := Erase(c, j);
    SameTransitive(c0, c[i := c[i].(range := r)], d[i := d[i].(range := Meet(r, c[j].range))]);
    assert d[..i] == c[..i];
  }

  /** The inner loop: fold every later filter on the same index into filter i. */
  method Absorb(c0: Clause, i: nat) returns (c: Clause)
    requires i < |c0|
    ensures SameMeaning(c0, c) && SameOrder(c0, c)
    ensures i < |c| && |c| <= |c0| && c[..i] == c0[..i] && c[i].index == c0[i].index
    ensures Avoids(c, i + 1, c[i].index)
    ensures forall x :: Avoids(c0, i, x) ==> Avoids(c, i, x)
  {
    c := c0;
    var r := c[i].range;
    var j := i + 1;
    assert c[i := c[i].(range := r)] == c0;
    while j < |c|
      invariant Absorbing(c0, c, i, j, r)
      decreases |c| - j
    {
      if c[j].index == c[i].index {
        AbsorbMerge(c0, c, i, j, r);
        r := Meet(r, c[j].range);
        c := Erase(c, j);
      } else {
        j := j + 1;
      }
    }
    AbsorbDone(c0, c, i, r);
    RangeKeepsOrder(c, i, r);
    c := c[i := c[i].(range := r)];
  }

  lemma AbsorbDone(c0: Clause, d: Clause, i: nat, r: Range)
    requires Absorbing(c0, d, i, |d|, r)
    ensures var c := d[i := d[i].(range := r)];
            && c[..i] == c0[..i] && Avoids(c, i + 1, c[i].index)
            && forall x :: Avoids(c0, i, x) ==> Avoids(c, i, x)
  {
    var c := d[i := d[i].(range := r)];
    assert c[..i] == d[..i];
    assert forall l :: 0 <= l < |c| ==> c[l].index == d[l].index;
    forall x | Avoids(d, i, x) ensures Avoids(c, i, x) {}
  }

  /** An empty range can never be satisfied. */
  lemma EmptyRangeUnsat(clause: Clause, c: Clause, i: nat)
    requires SameMeaning(clause, c) && i < |c| && c[i].range.first > c[i].range.second
    ensures Unsat(clause)
  {
    forall a: Tokens ensures !Sat(clause, a) {
      assert !c[i].range.Contains(a(c[i].index));
    }
  }

  ghost predicate Unsat(c: Clause) { forall a: Tokens :: !Sat(c, a) }

  lemma SameTransitive(c: Clause, d: Clause, e: Clause)
    requires SameMeaning(c, d) && SameMeaning(d, e)
    ensures SameMeaning(c, e)
  {
  }

  predicate DistinctFrom(c: Clause, n: nat) {
    forall k, l :: 0 <= k < n && k < l < |c| ==> c[k].index != c[l].index
  }

  /** The first n filters of c are final and c still means the original clause. */
  ghost predicate Reduced(clause: Clause, c: Clause, n: nat) {
    && n <= |c| && (clause != [] ==> c != [])
    && SameMeaning(clause, c) && SameOrder(clause, c)
    && DistinctFrom(c, n)
    && forall k :: 0 <= k < n ==> c[k].range.first <= c[k].range.second
  }

  lemma ReducedStep(clause: Clause, c: Clause, d: Clause, i: nat)
    requires Reduced(clause, c, i) && i < |c| && SameMeaning(c, d) && SameOrder(c, d)
    requires i < |d| && d[..i] == c[..i]
    requires Avoids(d, i + 1, d[i].index) && forall x :: Avoids(c, i, x) ==> Avoids(d, i, x)
    ensures if d[i].range.first <= d[i].range.second then Reduced(clause, d, i + 1) else Unsat(clause)
  {
    SameTransitive(clause, c, d);
    ReduceStep(c, d, i);
    if d[i].range.first > d[i].range.second { EmptyRangeUnsat(clause, d, i); }
  }

  /** reduce_clause: true leaves pairwise distinct indexes with non-empty ranges and
      the same meaning; false means that nothing satisfied the clause. */
  method ReduceClause(clause: Clause) returns (ok: bool, c: Clause)
    ensures ok ==> Distinct(c) && RangesNonEmpty(c) && SameMeaning(clause, c) && SameOrder(clause, c)
    ensures ok && clause != [] ==> c != []
    ensures ok <==> !Unsat(clause)
  {
    c := clause;
    var i := 0;
    while i < |c|
      invariant i <= |c| && Reduced(clause, c, i)
      decreases |c| - i
    {
      var d := Absorb(c, i);
      ReducedStep(clause, c, d, i);
      c := d;
      if c[i].range.first <= c[i].range.second {
        i := i + 1;
      } else {
        return false, c;
      }
    }
    ReducedIsSatisfiable(clause, c);
    ok := true;
  }

  lemma ReduceStep(c: Clause, d: Clause, i: nat)
    requires i < |c| && i < |d| && d[..i] == c[..i]
    requires Avoids(d, i + 1, d[i].index) && forall x :: Avoids(c, i, x) ==> Avoids(d, i, x)
    requires DistinctFrom(c, i)
    ensures DistinctFrom(d, i + 1)
    ensures forall k :: 0 <= k < i ==> d[k] == c[k]
  {
    forall k | 0 <= k < i ensures d[k] == c[k] { assert d[..i][k] == c[..i][k]; }
    forall k | 0 <= k < i ensures Avoids(d, i, d[k].index) { assert Avoids(c, i, c[k].index); }
  }

  /** A reduced clause can be satisfied: take the low end of every range. */
  lemma ReducedIsSatisfiable(clause: Clause, c: Clause)
    requires Distinct(c) && RangesNonEmpty(c) && SameMeaning(clause, c)
    ensures !Unsat(clause)
  {
    forall i | 0 <= i < |c| ensures c[i].range.Contains(LowFor(c, c[i].index)) { LowForIs(c, i); }
    assert Sat(c, (x: nat) => LowFor(c, x));
  }

  /** f holds exactly the tokens that all filters of c on its index hold, and there is one. */
  ghost predicate Intersects(f: IndexFilter, c: Clause) {
    && (exists j :: 0 <= j < |c| && c[j].index == f.index)
    && forall t: nat :: f.range.Contains(t) <==> AllHold(c, f.index, t)
  }

  predicate AllHold(c: Clause, x: nat, t: nat) {
    forall j :: 0 <= j < |c| && c[j].index == x ==> c[j].range.Contains(t)
  }

  /** Tokens at the low ends of a clause, except t on index x. */
  function Probe(c: Clause, x: nat, t: nat): Tokens { (y: nat) => if y == x then t else LowFor(c, y) }

  lemma ProbeReduced(c: Clause, k: nat, t: nat)
    requires Distinct(c) && RangesNonEmpty(c) && k < |c|
    ensures Sat(c, Probe(c, c[k].index, t)) <==> c[k].range.Contains(t)
  {
    var a := Probe(c, c[k].index, t);
    forall i | 0 <= i < |c| && i != k ensures c[i].range.Contains(a(c[i].index)) { LowForIs(c, i); }
  }

  /** Each range that reduction leaves is the intersection of the given ones on its index. */
  lemma ReducedIntersects(clause: Clause, c: Clause, k: nat)
    requires Distinct(c) && RangesNonEmpty(c) && SameMeaning(clause, c) && k < |c|
    ensures Intersects(c[k], clause)
  {
    var x := c[k].index;
    ProbeReduced(c, k, c[k].range.first);
    forall t: nat ensures c[k].range.Contains(t) <==> AllHold(clause, x, t) {
      ProbeReduced(c, k, t);
      assert Sat(clause, Probe(c, x, t)) <==> Sat(c, Probe(c, x, t));
      ProbeOriginal(clause, Probe(c, x, c[k].range.first), Probe(c, x, t), x);
    }
    assert !AllHold(clause, x, c[k].range.second + 1);
  }

  /** Moving one token of a satisfying assignment only matters to the filters on its index. */
  lemma ProbeOriginal(c: Clause, a: Tokens, b: Tokens, x: nat)
    requires Sat(c, a) && forall y: nat :: y != x ==> b(y) == a(y)
    ensures Sat(c, b) <==> AllHold(c, x, b(x))
  {
    if AllHold(c, x, b(x)) {
      forall i | 0 <= i < |c| ensures c[i].range.Contains(b(c[i].index)) {
        assert c[i].range.Contains(a(c[i].index));
      }
    }
  }

  /** Reduction loses no index. */
  lemma IndexKept(clause: Clause, c: Clause, i: nat)
    requires Distinct(c) && RangesNonEmpty(c) && SameMeaning(clause, c) && i < |clause|
    ensures exists k :: 0 <= k < |c| && c[k].index == clause[i].index
  {
    var x := clause[i].index;
    var a: Tokens := (y: nat) => LowFor(c, y);
    var b := Probe(c, x, clause[i].range.second + 1);
    assert !Sat(clause, b);
    assert !Sat(c, b);
    forall k | 0 <= k < |c| && c[k].index != x ensures c[k].range.Contains(b(c[k].index)) { LowForIs(c, k); }
  }

  /** There is only one non-empty intersection per index. */
  lemma IntersectionUnique(f: IndexFilter, g: IndexFilter, c: Clause)
    requires Intersects(f, c) && Intersects(g, c) && f.index == g.index
    requires f.range.first <= f.range.second && g.range.first <= g.range.second
    ensures f == g
  {
    forall t: nat ensures f.range.Contains(t) <==> g.range.Contains(t) {
      assert f.range.Contains(t) <==> AllHold(c, f.index, t);
    }
    assert g.range.Contains(f.range.first) && f.range.Contains(g.range.first);
    assert g.range.Contains(f.range.second) && f.range.Contains(g.range.second);
  }

  // ----- which ranges stay inside their index -----

  /** Number of keys of an index: 16-bit ports, 32-bit addresses and seconds. */
  function Space(index: nat): nat {
    if index == SRC_PORT_IDX || index == DST_PORT_IDX then 0x1_0000 else 0x1_0000_0000
  }

  /** slack more keys follow the range. Counting it needs none, walking it one. */
  predicate Fits(f: IndexFilter, slack: nat) { f.range.second + slack < Space(f.index) }

  predicate AllFit(c: Clause, slack: nat) { forall k :: 0 <= k < |c| ==> Fits(c[k], slack) }

  predicate HasFit(c: Clause, x: nat, slack: nat) {
    exists j :: 0 <= j < |c| && c[j].index == x && Fits(c[j], slack)
  }

  /** On every index that a clause uses, one of its ranges does. */
  predicate EndsBy(c: Clause, slack: nat) { forall i :: 0 <= i < |c| ==> HasFit(c, c[i].index, slack) }

  lemma IntersectionFits(f: IndexFilter, c: Clause, slack: nat)
    requires Intersects(f, c) && f.range.first <= f.range.second
    ensures Fits(f, slack) <==> HasFit(c, f.index, slack)
  {
    assert AllHold(c, f.index, f.range.second) && !AllHold(c, f.index, f.range.second + 1);
  }

  /** The reduced ranges stay inside their indexes exactly when each index has one given
      range that does. */
  lemma FitExactly(clause: Clause, c: Clause, slack: nat)
    requires Distinct(c) && RangesNonEmpty(c) && SameMeaning(clause, c)
    ensures AllFit(c, slack) <==> EndsBy(clause, slack)
  {
    forall k | 0 <= k < |c| ensures Fits(c[k], slack) <==> HasFit(clause, c[k].index, slack) {
      ReducedIntersects(clause, c, k);
      IntersectionFits(c[k], clause, slack);
    }
    if AllFit(c, slack) {
      forall i | 0 <= i < |clause| ensures HasFit(clause, clause[i].index, slack) {
        IndexKept(clause, c, i);
        var k :| 0 <= k < |c| && c[k].index == clause[i].index;
        assert Fits(c[k], slack);
      }
    }
    if EndsBy(clause, slack) {
      forall k | 0 <= k < |c| ensures Fits(c[k], slack) {
        ReducedIntersects(clause, c, k);
        var j :| 0 <= j < |clause| && clause[j].index == c[k].index;
        assert HasFit(clause, clause[j].index, slack);
      }
    }
  }

  function LowFor(c: Clause, x: nat): nat {
    if c == [] then 0 else if c[0].index == x then c[0].range.first else LowFor(c[1..], x)
  }

  lemma {:induction false} LowForIs(c: Clause, i: nat)
    requires i < |c| && Distinct(c)
    ensures LowFor(c, c[i].index) == c[i].range.first
  {
    if i > 0 { LowForIs(c[1..], i - 1); }
  }

  // ----- build_packet_filter -----

  function SetField(pf: PacketFilter, f: IndexFilter): PacketFilter {
    if f.index == SRC_IP_IDX then pf.(srcAddr := f.range)
    else if f.index == DST_IP_IDX then pf.(dstAddr := f.range)
    else if f.index == SRC_PORT_IDX then pf.(srcPort := f.range)
    else if f.index == DST_PORT_IDX then pf.(dstPort := f.range)
    else pf.(timestamp := f.range)
  }

  const ANY := PacketFilter(FULL, FULL, FULL, FULL, FULL)

  /** The filter built from a clause: later ranges on an attribute replace earlier ones. */
  function FilterOf(c: Clause): PacketFilter {
    if c == [] then ANY else SetField(FilterOf(c[..|c| - 1]), c[|c| - 1])
  }

  method BuildPacketFilter(c: Clause) returns (res: Result<PacketFilter>)
    ensures res.Ok? <==> forall i :: 0 <= i < |c| ==> KnownIndex(c[i].index)
    ensures res.Ok? ==> res.value == FilterOf(c)
  {
    var pf := ANY;
    for i := 0 to |c|
      invariant pf == FilterOf(c[..i])
      invariant forall k :: 0 <= k < i ==> KnownIndex(c[k].index)
    {
      assert c[..i + 1][..i] == c[..i];
      var f := c[i];
      if f.index == SRC_IP_IDX { pf := pf.(srcAddr := f.range); }
      else if f.index == DST_IP_IDX { pf := pf.(dstAddr := f.range); }
      else if f.index == SRC_PORT_IDX { pf := pf.(srcPort := f.range); }
      else if f.index == DST_PORT_IDX { pf := pf.(dstPort := f.range); }
      else if f.index == TIME_IDX { pf := pf.(timestamp := f.range); }
      else { return Err(InvalidIndex); }
    }
    assert c[..|c|] == c;
    res := Ok(pf);
  }

  predicate AllKnown(c: Clause) { forall i :: 0 <= i < |c| ==> KnownIndex(c[i].index) }

  function FieldFor(pf: PacketFilter, id: nat): Range {
    if id == SRC_IP_IDX then pf.srcAddr
    else if id == DST_IP_IDX then pf.dstAddr
    else if id == SRC_PORT_IDX then pf.srcPort
    else if id == DST_PORT_IDX then pf.dstPort
    else pf.timestamp
  }

  /** No later filter is on the same index. */
  predicate LastOn(c: Clause, i: nat)
    requires i < |c|
  { forall j :: i < j < |c| ==> c[j].index != c[i].index }

  /** The built filter holds the last range given on each index, and full ranges elsewhere. */
  lemma {:induction false} LastFieldIs(c: Clause, i: nat)
    requires AllKnown(c) && i < |c| && LastOn(c, i)
    ensures FieldFor(FilterOf(c), c[i].index) == c[i].range
    decreases |c|
  {
    var n := |c| - 1;
    if i < n {
      var d := c[..n];
      assert d[i] == c[i] && forall j :: 0 <= j < n ==> d[j] == c[j];
      LastFieldIs(d, i);
      assert c[n].index != c[i].index;
    }
  }

  lemma {:induction false} FieldUntouched(c: Clause, id: nat)
    requires AllKnown(c) && KnownIndex(id) && forall i :: 0 <= i < |c| ==> c[i].index != id
    ensures FieldFor(FilterOf(c), id) == FULL
  {
    if c != [] {
      assert forall i :: 0 <= i < |c| - 1 ==> c[..|c| - 1][i] == c[i];
      FieldUntouched(c[..|c| - 1], id);
    }
  }

  lemma FieldsOfFilter(c: Clause, id: nat)
    requires AllKnown(c) && KnownIndex(id)
    ensures forall i :: 0 <= i < |c| && c[i].index == id && LastOn(c, i) ==> FieldFor(FilterOf(c), id) == c[i].range
    ensures (forall i :: 0 <= i < |c| ==> c[i].index != id) ==> FieldFor(FilterOf(c), id) == FULL
  {
    forall i | 0 <= i < |c| && c[i].index == id && LastOn(c, i) ensures FieldFor(FilterOf(c), id) == c[i].range {
      LastFieldIs(c, i);
    }
    if forall i :: 0 <= i < |c| ==> c[i].index != id { FieldUntouched(c, id); }
  }

  lemma {:induction false} FindLast(c: Clause, id: nat) returns (i: nat)
    requires exists j :: 0 <= j < |c| && c[j].index == id
    ensures i < |c| && c[i].index == id && LastOn(c, i)
  {
    var n := |c| - 1;
    if c[n].index == id {
      i := n;
    } else {
      var j :| 0 <= j < |c| && c[j].index == id;
      assert c[..n][j].index == id;
      i := FindLast(c[..n], id);
      assert forall k :: i < k < n ==> c[..n][k] == c[k];
    }
  }

  /** Except on time, the last range given on each index where the packet has a token holds it. */
  predicate LastHolds(c: Clause, r: Record) {
    forall i :: 0 <= i < |c| && LastOn(c, i) && c[i].index != TIME_IDX && Reaches(r, c[i].index) ==>
      c[i].range.Contains(TokenFor(r, c[i].index))
  }

  /** The last range given on time holds t. */
  predicate LastTimeHolds(c: Clause, t: nat) {
    forall i :: 0 <= i < |c| && LastOn(c, i) && c[i].index == TIME_IDX ==> c[i].range.Contains(t)
  }

  lemma LastField(c: Clause, r: Record, id: nat)
    requires AllKnown(c) && KnownIndex(id) && id != TIME_IDX && Reaches(r, id) && LastHolds(c, r)
    ensures FieldFor(FilterOf(c), id).Contains(TokenFor(r, id))
  {
    FieldsOfFilter(c, id);
    if exists j :: 0 <= j < |c| && c[j].index == id {
      var i := FindLast(c, id);
    }
  }

  /** What a filter built at registration selects, whatever the clause and the packet: later
      ranges replace earlier ones, time is ignored, and so are ports of packets without them. */
  lemma InsertFilterMeans(c: Clause, r: Record)
    requires AllKnown(c)
    ensures FilterOf(c).Apply(r.pkt) <==> LastHolds(c, r)
  {
    if LastHolds(c, r) {
      LastField(c, r, SRC_IP_IDX); LastField(c, r, DST_IP_IDX);
      if HasPorts(r.pkt) { LastField(c, r, SRC_PORT_IDX); LastField(c, r, DST_PORT_IDX); }
    }
    if FilterOf(c).Apply(r.pkt) {
      forall i | 0 <= i < |c| && LastOn(c, i) && c[i].index != TIME_IDX && Reaches(r, c[i].index)
        ensures c[i].range.Contains(TokenFor(r, c[i].index))
      {
        FieldsOfFilter(c, c[i].index);
      }
    }
  }

  lemma TimeField(c: Clause, t: nat)
    requires AllKnown(c) && t <= UINT64_MAX
    ensures FilterOf(c).timestamp.Contains(t) <==> LastTimeHolds(c, t)
  {
    FieldsOfFilter(c, TIME_IDX);
    if exists j :: 0 <= j < |c| && c[j].index == TIME_IDX {
      var i := FindLast(c, TIME_IDX);
    }
  }

  lemma SecondsCut(t: nat)
    ensures Seconds32(t) == t % 0x1_0000_0000 < SECONDS
  {
  }

  /** A stored packet is judged likewise, and by its second, cut to 32 bits. */
  lemma StoredFilterMeans(c: Clause, r: Record)
    requires AllKnown(c)
    ensures FilterOf(c).ApplyAt(r.pkt, r.now) <==> LastHolds(c, r) && LastTimeHolds(c, r.now % 0x1_0000_0000)
  {
    InsertFilterMeans(c, r);
    SecondsCut(r.now);
    TimeField(c, Seconds32(r.now));
  }

  /** With one range per index the built filter accepts a packet exactly when the clause suits it. */
  lemma FilterMeansClause(c: Clause, r: Record)
    requires Distinct(c) && AllKnown(c) && r.now < SECONDS
    ensures FilterOf(c).ApplyAt(r.pkt, r.now) <==> Suits(c, r)
  {
    StoredFilterMeans(c, r);
    forall i | 0 <= i < |c| ensures LastOn(c, i) {}
  }

  /** For a TCP or UDP packet that is what the clause says of its tokens. */
  lemma SuitsPorted(c: Clause, r: Record)
    ensures HasPorts(r.pkt) ==> (Suits(c, r) <==> Sat(c, TokensOf(r)))
  {
  }

  /** Reduction does not change which packets a clause suits. */
  lemma ReducedSuits(clause: Clause, c: Clause, r: Record)
    requires Distinct(c) && RangesNonEmpty(c) && SameMeaning(clause, c)
    ensures Suits(clause, r) <==> Suits(c, r)
  {
    var a: Tokens := (x: nat) => if Reaches(r, x) then TokenFor(r, x) else LowFor(c, x);
    forall i | 0 <= i < |c| && !Reaches(r, c[i].index) ensures c[i].range.Contains(a(c[i].index)) { LowForIs(c, i); }
    forall i | 0 <= i < |clause| && !Reaches(r, clause[i].index) ensures clause[i].range.Contains(a(clause[i].index)) {
      LowSuits(clause, c, i);
    }
    assert Sat(c, a) <==> Suits(c, r);
    assert Sat(clause, a) <==> Suits(clause, r);
  }

  lemma LowSuits(clause: Clause, c: Clause, i: nat)
    requires Distinct(c) && RangesNonEmpty(c) && SameMeaning(clause, c) && i < |clause|
    ensures clause[i].range.Contains(LowFor(c, clause[i].index))
  {
    IndexKept(clause, c, i);
    var k :| 0 <= k < |c| && c[k].index == clause[i].index;
    LowForIs(c, k);
    ReducedIntersects(clause, c, k);
    assert AllHold(clause, c[k].index, c[k].range.first);
  }

  // ----- extract_min_filter -----

  /** The first filter with the smallest count, and the clause without it. */
  method ExtractMinFilter(c: Clause, count: IndexFilter -> nat) returns (k: nat, f: IndexFilter, rest: Clause)
    requires c != [] && forall i :: 0 <= i < |c| ==> count(c[i]) < UINT64_MAX
    ensures k < |c| && f == c[k] && rest == Erase(c, k)
    ensures forall i :: 0 <= i < |c| ==> count(f) <= count(c[i])
    ensures forall i :: 0 <= i < k ==> count(f) < count(c[i])
  {
    k := 0;
    var minCount := UINT64_MAX;
    for i := 0 to |c|
      invariant i > 0 ==> k < i && minCount == count(c[k])
      invariant i == 0 ==> minCount == UINT64_MAX
      invariant forall m :: 0 <= m < i ==> minCount <= count(c[m])
      invariant i > 0 ==> forall m :: 0 <= m < k ==> minCount < count(c[m])
    {
      if count(c[i]) < minCount {
        minCount := count(c[i]);
        k := i;
      }
    }
    f := c[k];
    rest := Erase(c, k);
  }

  /** f is cheaper than g, or as cheap and first. */
  ghost predicate Preferred(f: IndexFilter, g: IndexFilter, c: Clause, count: IndexFilter -> nat) {
    count(f) < count(g) || (count(f) == count(g) && UsedBefore(c, f.index, g.index))
  }

  /** The range that a clause is run on: the cheapest of the intersections of its ranges,
      one per index; of equally cheap ones the first. */
  ghost predicate Chosen(f: IndexFilter, c: Clause, count: IndexFilter -> nat) {
    && Intersects(f, c) && f.range.first <= f.range.second
    && forall g: IndexFilter :: Intersects(g, c) && g.range.first <= g.range.second && g != f ==> Preferred(f, g, c, count)
  }

  lemma ChosenUnique(f: IndexFilter, g: IndexFilter, c: Clause, count: IndexFilter -> nat)
    requires Chosen(f, c, count) && Chosen(g, c, count)
    ensures f == g
  {
    if f != g && UsedBefore(c, f.index, g.index) { BeforeOneWay(c, f.index, g.index); }
  }

  /** What extract_min_filter takes from the reduced clause is the choice. */
  lemma MinimumIsChosen(c: Clause, d: Clause, k: nat, count: IndexFilter -> nat)
    requires Distinct(d) && RangesNonEmpty(d) && SameMeaning(c, d) && SameOrder(c, d) && k < |d|
    requires forall i :: 0 <= i < |d| ==> count(d[k]) <= count(d[i])
    requires forall i :: 0 <= i < k ==> count(d[k]) < count(d[i])
    ensures Chosen(d[k], c, count)
  {
    ReducedIntersects(c, d, k);
    forall g: IndexFilter | Intersects(g, c) && g.range.first <= g.range.second && g != d[k]
      ensures Preferred(d[k], g, c, count)
    {
      var l := ReducedHas(c, d, g);
      if k < l {
        assert FirstUse(d, d[k].index, d[l].index, k);
        assert UsedBefore(d, d[k].index, d[l].index);
      }
    }
  }

  lemma ReducedHas(c: Clause, d: Clause, g: IndexFilter) returns (l: nat)
    requires Distinct(d) && RangesNonEmpty(d) && SameMeaning(c, d)
    requires Intersects(g, c) && g.range.first <= g.range.second
    ensures l < |d| && d[l] == g
  {
    var i :| 0 <= i < |c| && c[i].index == g.index;
    IndexKept(c, d, i);
    l :| 0 <= l < |d| && d[l].index == c[i].index;
    ReducedIntersects(c, d, l);
    IntersectionUnique(d[l], g, c);
  }

  /** The clause restricts more than one index. */
  ghost predicate MultiIndex(c: Clause) {
    exists i, j :: 0 <= i < |c| && 0 <= j < |c| && c[i].index != c[j].index
  }

  lemma RestExactly(c: Clause, d: Clause)
    requires Distinct(d) && RangesNonEmpty(d) && SameMeaning(c, d) && d != []
    ensures |d| > 1 <==> MultiIndex(c)
  {
    if |d| > 1 {
      ReducedIntersects(c, d, 0);
      ReducedIntersects(c, d, 1);
      var i :| 0 <= i < |c| && c[i].index == d[0].index;
      var j :| 0 <= j < |c| && c[j].index == d[1].index;
      assert c[i].index != c[j].index;
    }
    if i, j :| 0 <= i < |c| && 0 <= j < |c| && c[i].index != c[j].index {
      IndexKept(c, d, i);
      IndexKept(c, d, j);
    }
  }

  lemma EraseKeeps(c: Clause, k: nat)
    requires k < |c| && Distinct(c) && AllKnown(c)
    ensures Distinct(Erase(c, k)) && AllKnown(Erase(c, k))
  {
  }

  /** Running filter k on its index and the others as a packet filter selects the packets that
      have a token on that index and suit the clause. */
  lemma RunSelects(c: Clause, k: nat, r: Record)
    requires k < |c| && Distinct(c) && AllKnown(c) && r.now < SECONDS
    ensures Reaches(r, c[k].index) ==>
              (c[k].range.Contains(TokenFor(r, c[k].index)) && FilterOf(Erase(c, k)).ApplyAt(r.pkt, r.now) <==> Suits(c, r))
  {
    EraseKeeps(c, k);
    FilterMeansClause(Erase(c, k), r);
    SuitsSplit(c, k, r);
  }

  lemma SuitsSplit(c: Clause, k: nat, r: Record)
    requires k < |c|
    ensures Suits(c, r) <==> Suits([c[k]], r) && Suits(Erase(c, k), r)
  {
    var d := Erase(c, k);
    if Suits(c, r) {
      forall i | 0 <= i < |d| && Reaches(r, d[i].index) ensures d[i].range.Contains(TokenFor(r, d[i].index)) {
        assert d[i] == c[if i < k then i else i + 1];
      }
    }
    if Suits([c[k]], r) && Suits(d, r) {
      forall i | 0 <= i < |c| && Reaches(r, c[i].index) ensures c[i].range.Contains(TokenFor(r, c[i].index)) {
        assert if i == k then c[i] == [c[k]][0] else c[i] == d[if i < k then i else i - 1];
      }
    }
  }

  /** Plan choice does not change the answer on TCP and UDP packets: whichever filter is run on
      an index, "token in its range and the rest accepted by the packet filter" is the clause. */
  lemma PlanChoiceIrrelevant(c: Clause, k: nat, r: Record)
    requires k < |c| && Distinct(c) && AllKnown(c) && HasPorts(r.pkt) && r.now < SECONDS
    ensures (c[k].range.Contains(TokensOf(r)(c[k].index)) && FilterOf(Erase(c, k)).ApplyAt(r.pkt, r.now))
            <==> Sat(c, TokensOf(r))
  {
    RunSelects(c, k, r);
    SuitsPorted(c, r);
  }
}
