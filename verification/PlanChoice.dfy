/** When the choice of the index a clause is run on changes its answer. */
module PlanChoice {
  import opened Packets
  import opened Clauses
  import opened Frames

  predicate OnPort(f: IndexFilter) { f.index == SRC_PORT_IDX || f.index == DST_PORT_IDX }

  /** Filter k is run on its index and the others check the packets found. */
  predicate Selected(c: Clause, k: nat, r: Record)
    requires k < |c|
  {
    && Reaches(r, c[k].index) && c[k].range.Contains(TokenFor(r, c[k].index))
    && FilterOf(Erase(c, k)).ApplyAt(r.pkt, r.now)
  }

  /** Some packet is found by running filter k and not by running filter l. */
  ghost predicate Differ(c: Clause, k: nat, l: nat)
    requires k < |c| && l < |c|
  { exists r: Record :: r.now < SECONDS && Selected(c, k, r) && !Selected(c, l, r) }

  /** Some address and second lie in the ranges that are not on ports. */
  predicate HeaderInSpace(c: Clause) {
    forall i :: 0 <= i < |c| && !OnPort(c[i]) ==> c[i].range.first < Space(c[i].index)
  }

  /** The choice matters exactly between a port index and another one: only the other one holds
      the packets without ports. */
  lemma ChoiceMattersExactly(c: Clause, k: nat, l: nat)
    requires Distinct(c) && RangesNonEmpty(c) && AllKnown(c) && k < |c| && l < |c|
    ensures Differ(c, k, l) <==> !OnPort(c[k]) && OnPort(c[l]) && HeaderInSpace(c)
  {
    if Differ(c, k, l) {
      var r: Record :| r.now < SECONDS && Selected(c, k, r) && !Selected(c, l, r);
      RunSelects(c, k, r);
      RunSelects(c, l, r);
      forall i | 0 <= i < |c| && !OnPort(c[i]) ensures c[i].range.first < Space(c[i].index) {
        assert c[i].range.Contains(TokenFor(r, c[i].index));
      }
    }
    if !OnPort(c[k]) && OnPort(c[l]) && HeaderInSpace(c) {
      var r := Portless(c);
      RunSelects(c, k, r);
      assert Selected(c, k, r) && !Selected(c, l, r);
    }
  }

  /** A packet without ports at the low ends of the other ranges. */
  lemma Portless(c: Clause) returns (r: Record)
    requires Distinct(c) && RangesNonEmpty(c) && AllKnown(c) && HeaderInSpace(c)
    ensures !HasPorts(r.pkt) && r.now < SECONDS && Suits(c, r)
  {
    forall x | x == SRC_IP_IDX || x == DST_IP_IDX || x == TIME_IDX ensures LowFor(c, x) < SECONDS { LowInSpace(c, x); }
    var src, dst := LowFor(c, SRC_IP_IDX), LowFor(c, DST_IP_IDX);
    var icmp := SomePacket(1, src, dst, 0, 0);
    r := Record(LowFor(c, TIME_IDX), icmp);
    forall i | 0 <= i < |c| && !OnPort(c[i]) ensures c[i].range.Contains(TokenFor(r, c[i].index)) { LowForIs(c, i); }
  }

  lemma {:induction false} LowInSpace(c: Clause, x: nat)
    requires HeaderInSpace(c) && x != SRC_PORT_IDX && x != DST_PORT_IDX
    ensures LowFor(c, x) < SECONDS
  {
    if c != [] && c[0].index != x { LowInSpace(c[1..], x); }
  }
}
