/** The token ranges that port and time predicates compile to. */
module Ranges {
  import opened Packets
  import opened Expressions
  import opened QueryParser
  import opened Clauses

  const UINT16_MAX: nat := 0xFFFF
  const UINT32_MAX: nat := 0xFFFF_FFFF

  predicate Relational(op: string) { op in ["==", "!=", "<", ">", "<=", ">="] }

  function SideOf(x: nat, y: nat): Side { if x < y then Below else if x == y then Equal else Above }

  /** What the operators say of numbers. */
  predicate Compare(op: string, x: nat, y: nat)
    requires Relational(op)
  { Means(op, Reading(SideOf(x, y), false)) }

  /** Ports are 16-bit, but port - 1 is computed in int and stored in 64 bits unsigned. */
  function PortRange(op: string, port: nat): Result<Range>
    requires port <= UINT16_MAX
  {
    if op == "==" then Ok(Range(port, port))
    else if op == "!=" then Ok(Range(port, port))
    else if op == "<" then Ok(Range(0, if port == 0 then UINT64_MAX else port - 1))
    else if op == "<=" then Ok(Range(0, port))
    else if op == ">" then Ok(Range(port + 1, UINT16_MAX))
    else if op == ">=" then Ok(Range(port, UINT16_MAX))
    else Err(BadPredicate)
  }

  /** Times are 32-bit and wrap in 32 bits; an open end is the time of the query. */
  function TimeRange(op: string, time: nat, now: nat): Result<Range>
    requires time <= UINT32_MAX && now <= UINT32_MAX
  {
    if op == "==" then Ok(Range(time, time))
    else if op == "!=" then Ok(Range(time, time))
    else if op == "<" then Ok(Range(0, if time == 0 then UINT32_MAX else time - 1))
    else if op == "<=" then Ok(Range(0, time))
    else if op == ">" then Ok(Range(if time == UINT32_MAX then 0 else time + 1, now))
    else if op == ">=" then Ok(Range(time, now))
    else Err(BadPredicate)
  }

  /** Only comparisons are accepted. The range of != is that of ==, and that of "< 0" holds
      every port and more; the others hold what their operator says, and nothing but ports. */
  lemma PortHolds(op: string, port: nat)
    requires port <= UINT16_MAX
    ensures PortRange(op, port).Ok? <==> Relational(op)
    ensures Relational(op) ==> forall p: nat :: p <= UINT16_MAX ==>
              (PortRange(op, port).value.Contains(p) <==>
               if op == "!=" then p == port else Compare(op, p, port) || (op == "<" && port == 0))
    ensures Relational(op) ==> (PortRange(op, port).value.second > UINT16_MAX <==> op == "<" && port == 0)
  {
  }

  /** For times likewise; "> UINT32_MAX" holds every time, and the upper end is the time of the query. */
  lemma TimeHolds(op: string, time: nat, now: nat)
    requires time <= UINT32_MAX && now <= UINT32_MAX
    ensures TimeRange(op, time, now).Ok? <==> Relational(op)
    ensures Relational(op) ==> forall t: nat :: t <= UINT32_MAX ==>
              (TimeRange(op, time, now).value.Contains(t) <==>
               if op == "!=" then t == time
               else if op == ">" || op == ">=" then t <= now && (Compare(op, t, time) || (op == ">" && time == UINT32_MAX))
               else Compare(op, t, time) || (op == "<" && time == 0))
  {
  }

  ghost predicate PortMeans(op: string, port: nat)
    requires Relational(op) && port <= UINT16_MAX
  {
    forall p: nat :: p <= UINT16_MAX ==> (PortRange(op, port).value.Contains(p) <==> Compare(op, p, port))
  }

  /** A port range means its operator exactly for operators other than != and except for "< 0". */
  lemma PortMeansExactly(op: string, port: nat)
    requires Relational(op) && port <= UINT16_MAX
    ensures PortMeans(op, port) <==> op != "!=" && !(op == "<" && port == 0)
  {
    var range := PortRange(op, port).value;
    if op == "!=" { assert range.Contains(port) && !Compare(op, port, port); }
    if op == "<" && port == 0 { assert range.Contains(0) && !Compare(op, 0, 0); }
  }

  ghost predicate TimeMeans(op: string, time: nat, now: nat)
    requires Relational(op) && time <= UINT32_MAX && now <= UINT32_MAX
  {
    forall t: nat :: t <= now ==> (TimeRange(op, time, now).value.Contains(t) <==> Compare(op, t, time))
  }

  /** Over the packets received so far, likewise, and ">" fails at the last second too. */
  lemma TimeMeansExactly(op: string, time: nat, now: nat)
    requires Relational(op) && time <= UINT32_MAX && now <= UINT32_MAX
    ensures TimeMeans(op, time, now) <==>
            op != "!=" && !(op == "<" && time == 0) && !(op == ">" && time == UINT32_MAX)
  {
    var range := TimeRange(op, time, now).value;
    if op == "!=" || (op == "<" && time == 0) || (op == ">" && time == UINT32_MAX) {
      assert range.Contains(0) <==> !Compare(op, 0, time);
    }
  }

  ghost predicate PortNegates(op: string, port: nat)
    requires Relational(op) && port <= UINT16_MAX
  {
    forall p: nat :: p <= UINT16_MAX ==>
      (PortRange(NegateOp(op).value, port).value.Contains(p) <==> !PortRange(op, port).value.Contains(p))
  }

  /** Flipping a port operator complements its range exactly for the orderings, "< 0" and ">= 0" apart. */
  lemma PortNegatesExactly(op: string, port: nat)
    requires Relational(op) && port <= UINT16_MAX
    ensures PortNegates(op, port) <==> op in ["<=", ">"] || (op in ["<", ">="] && port > 0)
  {
    var range, flipped := PortRange(op, port).value, PortRange(NegateOp(op).value, port).value;
    if op in ["==", "!="] || port == 0 {
      assert op in ["==", "!="] ==> range.Contains(port) && flipped.Contains(port);
      assert op in ["<", ">="] ==> range.Contains(0) && flipped.Contains(0);
    }
  }

  /** A port range can be walked inside its index (its last token has a successor key)
      exactly when it is not empty and not open above. */
  lemma PortWalkableExactly(op: string, port: nat)
    requires Relational(op) && port <= UINT16_MAX
    ensures var r := PortRange(op, port).value;
            (r.first <= r.second && r.second + 1 <= UINT16_MAX) <==>
            (op == "<" && port > 0) || (op in ["==", "!=", "<="] && port < UINT16_MAX)
  {
  }

  /** A window of ports can be walked although its lower bound alone is open above. */
  lemma PortWindowWalkable(x: nat, lo: nat, hi: nat)
    requires x == SRC_PORT_IDX || x == DST_PORT_IDX
    requires lo <= UINT16_MAX && hi < UINT16_MAX
    ensures var c := [IndexFilter(x, PortRange(">=", lo).value), IndexFilter(x, PortRange("<=", hi).value)];
            EndsBy(c, 1) && !AllFit(c, 1)
  {
    var c := [IndexFilter(x, PortRange(">=", lo).value), IndexFilter(x, PortRange("<=", hi).value)];
    assert c[1].index == x && Fits(c[1], 1) && !Fits(c[0], 1);
  }
}
