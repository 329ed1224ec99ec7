/** When a registered clause keeps exactly the packets it describes. */
module StandingExact {
  import opened Packets
  import opened Clauses
  import opened Frames

  /** The packets with ports, or those without. */
  predicate Kind(r: Record, ported: bool) { (HasPorts(r.pkt) <==> ported) && r.now < SECONDS }

  /** The indexes on which such packets have tokens. */
  predicate Has(ported: bool, x: nat) { KnownIndex(x) && (ported || (x != SRC_PORT_IDX && x != DST_PORT_IDX)) }

  /** Every assignment of tokens within the key spaces is that of some packet. */
  lemma RecordWith(ported: bool, a: Tokens) returns (r: Record)
    requires forall x :: Has(ported, x) ==> a(x) < Space(x)
    ensures Kind(r, ported) && forall x :: Has(ported, x) ==> TokenFor(r, x) == a(x)
  {
    assert Has(ported, SRC_IP_IDX) && Has(ported, DST_IP_IDX) && Has(ported, TIME_IDX);
    assert ported ==> Has(ported, SRC_PORT_IDX) && Has(ported, DST_PORT_IDX);
    var sport, dport := if ported then a(SRC_PORT_IDX) else 0, if ported then a(DST_PORT_IDX) else 0;
    var p := SomePacket(if ported then 6 else 1, a(SRC_IP_IDX), a(DST_IP_IDX), sport, dport);
    r := Record(a(TIME_IDX), p);
  }

  lemma TokensInSpace(r: Record, x: nat)
    requires KnownIndex(x) && r.now < SECONDS
    ensures TokenFor(r, x) < Space(x)
  {
  }

  // ----- the exact condition -----

  /** What insertion asks of a token: the last range given on its index, nothing on time. */
  predicate Allowed(c: Clause, x: nat, t: nat) {
    forall i :: 0 <= i < |c| && LastOn(c, i) && c[i].index == x && x != TIME_IDX ==> c[i].range.Contains(t)
  }

  /** Some index allows no token at all. */
  ghost predicate KeepsNothing(c: Clause, ported: bool) {
    exists x :: Has(ported, x) && forall t: nat :: t < Space(x) ==> !Allowed(c, x, t)
  }

  /** On every index, what the last range allows all ranges hold; time ranges are full. */
  ghost predicate LastDecides(c: Clause, ported: bool) {
    forall i, t: nat :: 0 <= i < |c| && Has(ported, c[i].index) && t < Space(c[i].index) && Allowed(c, c[i].index, t) ==>
      c[i].range.Contains(t)
  }

  ghost predicate Faithful(c: Clause, ported: bool) {
    forall r :: Kind(r, ported) ==> (FilterOf(c).Apply(r.pkt) <==> Suits(c, r))
  }

  lemma HoldsIsAllowed(c: Clause, r: Record, ported: bool)
    requires AllKnown(c) && Kind(r, ported)
    ensures LastHolds(c, r) <==> forall x :: Has(ported, x) ==> Allowed(c, x, TokenFor(r, x))
  {
    if LastHolds(c, r) {
      forall x | Has(ported, x) ensures Allowed(c, x, TokenFor(r, x)) {}
    }
    if forall x :: Has(ported, x) ==> Allowed(c, x, TokenFor(r, x)) {
      forall i | 0 <= i < |c| && LastOn(c, i) && c[i].index != TIME_IDX && Reaches(r, c[i].index)
        ensures c[i].range.Contains(TokenFor(r, c[i].index))
      {
        assert Has(ported, c[i].index);
        assert Allowed(c, c[i].index, TokenFor(r, c[i].index));
      }
    }
  }

  /** Of the packets with ports, and likewise of those without, the filter of a clause keeps
      exactly the ones that suit the clause if and only if it keeps none, or the last range on
      each of their indexes lies inside the others and time is unrestricted. */
  lemma FaithfulExactly(c: Clause, ported: bool)
    requires AllKnown(c)
    ensures Faithful(c, ported) <==> KeepsNothing(c, ported) || LastDecides(c, ported)
  {
    if KeepsNothing(c, ported) { NothingFaithful(c, ported); }
    if LastDecides(c, ported) { DecidesFaithful(c, ported); }
    if Faithful(c, ported) && !KeepsNothing(c, ported) { FaithfulDecides(c, ported); }
  }

  lemma NothingFaithful(c: Clause, ported: bool)
    requires AllKnown(c) && KeepsNothing(c, ported)
    ensures Faithful(c, ported)
  {
    var x :| Has(ported, x) && forall t: nat :: t < Space(x) ==> !Allowed(c, x, t);
    forall r | Kind(r, ported) ensures FilterOf(c).Apply(r.pkt) <==> Suits(c, r) {
      InsertFilterMeans(c, r);
      HoldsIsAllowed(c, r, ported);
      TokensInSpace(r, x);
      assert !Allowed(c, x, TokenFor(r, x));
      SuitsAllowed(c, r, x);
    }
  }

  lemma SuitsAllowed(c: Clause, r: Record, x: nat)
    requires Reaches(r, x)
    ensures Suits(c, r) ==> Allowed(c, x, TokenFor(r, x))
  {
  }

  lemma DecidesFaithful(c: Clause, ported: bool)
    requires AllKnown(c) && LastDecides(c, ported)
    ensures Faithful(c, ported)
  {
    forall r | Kind(r, ported) ensures FilterOf(c).Apply(r.pkt) <==> Suits(c, r) {
      InsertFilterMeans(c, r);
      HoldsIsAllowed(c, r, ported);
      if LastHolds(c, r) {
        forall i | 0 <= i < |c| && Reaches(r, c[i].index) ensures c[i].range.Contains(TokenFor(r, c[i].index)) {
          assert Has(ported, c[i].index);
          TokensInSpace(r, c[i].index);
          assert Allowed(c, c[i].index, TokenFor(r, c[i].index));
        }
      }
      if Suits(c, r) {
        forall x | Has(ported, x) ensures Allowed(c, x, TokenFor(r, x)) { SuitsAllowed(c, r, x); }
      }
    }
  }

  /** A token each index allows. */
  ghost function Pick(c: Clause, ported: bool, x: nat): (t: nat)
    requires !KeepsNothing(c, ported) && Has(ported, x)
    ensures t < Space(x) && Allowed(c, x, t)
  {
    assert exists t: nat :: t < Space(x) && Allowed(c, x, t);
    var t: nat :| t < Space(x) && Allowed(c, x, t);
    t
  }

  lemma FaithfulDecides(c: Clause, ported: bool)
    requires AllKnown(c) && Faithful(c, ported) && !KeepsNothing(c, ported)
    ensures LastDecides(c, ported)
  {
    forall i, t: nat | 0 <= i < |c| && Has(ported, c[i].index) && t < Space(c[i].index) && Allowed(c, c[i].index, t)
      ensures c[i].range.Contains(t)
    {
      var a: Tokens := (x: nat) => if x == c[i].index then t else if Has(ported, x) then Pick(c, ported, x) else 0;
      var r := RecordWith(ported, a);
      InsertFilterMeans(c, r);
      HoldsIsAllowed(c, r, ported);
      assert TokenFor(r, c[i].index) == t;
    }
  }

  /** A window of ports is not: the upper bound, given last, keeps the lower ports too. */
  lemma WindowUnfaithful(lo: nat, hi: nat)
    requires 0 < lo <= hi <= 0xFFFF
    ensures !Faithful([IndexFilter(SRC_PORT_IDX, Range(lo, 0xFFFF)), IndexFilter(SRC_PORT_IDX, Range(0, hi))], true)
  {
    var c := [IndexFilter(SRC_PORT_IDX, Range(lo, 0xFFFF)), IndexFilter(SRC_PORT_IDX, Range(0, hi))];
    FaithfulExactly(c, true);
    assert c[0].index == c[1].index;
    assert Allowed(c, SRC_PORT_IDX, 0) && !c[0].range.Contains(0);
    forall x | Has(true, x) ensures Allowed(c, x, 0) {}
  }
}
