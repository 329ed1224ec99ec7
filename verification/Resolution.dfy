/** From the attribute, operator and value of a predicate to the range it is looked up by. */
module Resolution {
  import opened Packets
  import opened Expressions
  import opened QueryParser
  import opened Grammar
  import opened Clauses
  import opened Planner
  import opened Ranges
  import opened Addresses
  import opened Frames
  import opened Cast
  import opened CastQuery
  import PP = PublishProtocol
  import PT = PublishTheorems

  /** What the conversions from text to numbers make of a value. */
  datatype AddressText = AddressText(ip: Word, prefix: Option<Prefix>)
  datatype TimeText = Now | Ago(seconds: int) | Moment(time: Word) | BadTime

  datatype Values = Values(address: string -> AddressText, port: string -> Option<nat>, time: string -> TimeText)

  ghost predicate PortsFit(values: Values) {
    forall x :: values.port(x).Some? ==> values.port(x).value <= UINT16_MAX
  }

  function IpFilter(index: nat, op: string, x: AddressText): Result<IndexFilter> {
    if op == "in" || op == "!in" then
      if x.prefix.None? then Err(BadPredicate) else Ok(IndexFilter(index, IpRange(x.ip, x.prefix.value)))
    else if op == "==" || op == "!=" then Ok(IndexFilter(index, Range(x.ip, x.ip)))
    else Err(BadPredicate)
  }

  function On(index: nat, range: Result<Range>): Result<IndexFilter> {
    if range.Ok? then Ok(IndexFilter(index, range.value)) else Err(range.error)
  }

  function PortFilter(index: nat, op: string, port: Option<nat>): Result<IndexFilter> {
    if port.Some? && port.value <= UINT16_MAX then On(index, PortRange(op, port.value)) else Err(BadPredicate)
  }

  /** The second a time value names; a time in the past wraps at 32 bits. */
  function SecondOf(x: TimeText, now: Word): Option<Word> {
    match x
    case Now => Some(now)
    case Ago(n) => Some((now - n) % SECONDS)
    case Moment(t) => Some(t)
    case BadTime => None
  }

  function TimeFilter(op: string, x: TimeText, now: Word): Result<IndexFilter> {
    var t := SecondOf(x, now);
    if t.None? || (x.Now? && '>' in op) then Err(BadPredicate) else On(TIME_IDX, TimeRange(op, t.value, now))
  }

  function BuildIndexFilter(values: Values, now: Word, a: string, op: string, x: string): Result<IndexFilter> {
    if a == "src_ip" then IpFilter(SRC_IP_IDX, op, values.address(x))
    else if a == "dst_ip" then IpFilter(DST_IP_IDX, op, values.address(x))
    else if a == "src_port" then PortFilter(SRC_PORT_IDX, op, values.port(x))
    else if a == "dst_port" then PortFilter(DST_PORT_IDX, op, values.port(x))
    else if a == "timestamp" then TimeFilter(op, values.time(x), now)
    else Err(BadPredicate)
  }

  function Resolving(values: Values, now: Word): Resolver {
    (a: string, op: string, x: string) => BuildIndexFilter(values, now, a, op, x)
  }

  /** It knows the five indexes and fails by throwing. */
  lemma ResolvingResolves(values: Values, now: Word)
    ensures Resolves(Resolving(values, now))
  {
  }

  // ----- what predicates say of a packet -----

  predicate IpSays(op: string, a: Word, x: AddressText) {
    if op == "in" || op == "!in" then x.prefix.Some? && Cleared(x.ip, 32 - x.prefix.value) <= a <= Filled(x.ip, x.prefix.value)
    else (op == "==" || op == "!=") && a == x.ip
  }

  predicate PortSays(op: string, p: nat, port: Option<nat>) {
    && port.Some? && port.value <= UINT16_MAX && Relational(op)
    && if op == "!=" then p == port.value else Compare(op, p, port.value) || (op == "<" && port.value == 0)
  }

  predicate TimeSays(op: string, t: nat, x: TimeText, now: Word) {
    && SecondOf(x, now).Some? && Relational(op) && !(x.Now? && (op == ">" || op == ">="))
    && var s := SecondOf(x, now).value;
    if op == "!=" then t == s
    else if op == ">" || op == ">=" then t <= now && (Compare(op, t, s) || (op == ">" && s == UINT32_MAX))
    else Compare(op, t, s) || (op == "<" && s == 0)
  }

  /** Negated operators say what their positive ones say, of addresses and of equality. */
  predicate Says(values: Values, now: Word, r: Record, a: string, op: string, x: string) {
    if a == "src_ip" then IpSays(op, SrcAddr(r.pkt), values.address(x))
    else if a == "dst_ip" then IpSays(op, DstAddr(r.pkt), values.address(x))
    else if a == "src_port" then PortSays(op, SrcPort(r.pkt), values.port(x))
    else if a == "dst_port" then PortSays(op, DstPort(r.pkt), values.port(x))
    else a == "timestamp" && TimeSays(op, r.now, values.time(x), now)
  }

  lemma IpSaid(index: nat, op: string, a: Word, x: AddressText)
    ensures IpSays(op, a, x) <==> IpFilter(index, op, x).Ok? && IpFilter(index, op, x).value.range.Contains(a)
  {
    if x.prefix.Some? { IpRangeIs(x.ip, x.prefix.value); }
  }

  lemma PortSaid(index: nat, op: string, p: nat, port: Option<nat>)
    requires p <= UINT16_MAX
    ensures PortSays(op, p, port) <==> PortFilter(index, op, port).Ok? && PortFilter(index, op, port).value.range.Contains(p)
  {
    if port.Some? && port.value <= UINT16_MAX { PortHolds(op, port.value); }
  }

  lemma GreaterIn(op: string)
    ensures Relational(op) ==> ('>' in op <==> op == ">" || op == ">=")
  {
    if Relational(op) {
      assert |op| <= 2 && (|op| == 2 ==> op[1] == '=') && (op[0] == '>' <==> op == ">" || op == ">=");
    }
  }

  lemma TimeSaid(op: string, t: nat, x: TimeText, now: Word)
    requires t <= UINT32_MAX
    ensures TimeSays(op, t, x, now) <==> TimeFilter(op, x, now).Ok? && TimeFilter(op, x, now).value.range.Contains(t)
  {
    if SecondOf(x, now).Some? { TimeHolds(op, SecondOf(x, now).value, now); }
    GreaterIn(op);
  }

  /** The truth value that the ranges give a predicate. */
  lemma SaysExactly(values: Values, now: Word, r: Record, a: string, op: string, x: string)
    requires r.now <= UINT32_MAX
    ensures EnvFor(Resolving(values, now), r)(a, op, x) <==> Says(values, now, r, a, op, x)
  {
    var f := BuildIndexFilter(values, now, a, op, x);
    assert Resolving(values, now)(a, op, x) == f;
    assert EnvFor(Resolving(values, now), r)(a, op, x) <==> InFilter(f, r);
    assert f.Ok? && a == "src_port" ==> f.value.index == SRC_PORT_IDX;
    assert f.Ok? && a == "dst_port" ==> f.value.index == DST_PORT_IDX;
    assert f.Ok? && a == "timestamp" ==> f.value.index == TIME_IDX;
    IpSaid(SRC_IP_IDX, op, SrcAddr(r.pkt), values.address(x));
    IpSaid(DST_IP_IDX, op, DstAddr(r.pkt), values.address(x));
    PortSaid(SRC_PORT_IDX, op, SrcPort(r.pkt), values.port(x));
    PortSaid(DST_PORT_IDX, op, DstPort(r.pkt), values.port(x));
    TimeSaid(op, r.now, values.time(x), now);
  }

  // ----- where a '!' can be pushed into the operator -----

  /** An ordering whose bound is not at the end of the ports or times. */
  predicate Splits(op: string, bound: nat, max: nat) {
    ((op == "<=" || op == ">") && bound < max) || ((op == "<" || op == ">=") && bound > 0)
  }

  predicate Flippable(values: Values, now: Word, a: string, op: string, x: string) {
    if a == "src_port" || a == "dst_port" then
      values.port(x).Some? && (op == "<=" || op == ">" || Splits(op, values.port(x).value, UINT16_MAX))
    else
      a == "timestamp" &&
      match SecondOf(values.time(x), now)
      case None => false
      case Some(t) =>
        if values.time(x).Now? then op == "<=" || op == ">" || (now == 0 && (op == "<" || op == ">="))
        else Splits(op, t, UINT32_MAX)
  }

  /** A TCP or UDP packet received by the time of the query. */
  predicate Seen(r: Record, now: Word) { HasPorts(r.pkt) && r.now <= now }

  ghost predicate AlwaysFlips(values: Values, now: Word, a: string, op: string, x: string) {
    forall r: Record :: Seen(r, now) ==> FlipsAt(EnvFor(Resolving(values, now), r), a, op, x)
  }

  lemma FlippableFlips(values: Values, now: Word, a: string, op: string, x: string, r: Record)
    requires PortsFit(values) && ValidOp(op) && Flippable(values, now, a, op, x) && Seen(r, now)
    ensures FlipsAt(EnvFor(Resolving(values, now), r), a, op, x)
  {
    NegateOpMeans(op);
    SaysExactly(values, now, r, a, op, x);
    SaysExactly(values, now, r, a, NegateOp(op).value, x);
  }

  /** A packet on which a predicate that is not flippable and its flip agree. */
  lemma Unflipped(values: Values, now: Word, a: string, op: string, x: string) returns (r: Record)
    requires PortsFit(values) && ValidOp(op) && !Flippable(values, now, a, op, x)
    ensures Seen(r, now) && !FlipsAt(EnvFor(Resolving(values, now), r), a, op, x)
  {
    var ip := values.address(x).ip;
    var port: nat := if values.port(x).Some? then values.port(x).value else 0;
    var second := SecondOf(values.time(x), now);
    var t: nat := if second.Some? && second.value <= now then second.value else now;
    var p := SomePacket(6, ip, ip, port, port);
    r := Record(t, p);
    NegateOpMeans(op);
    SaysExactly(values, now, r, a, op, x);
    SaysExactly(values, now, r, a, NegateOp(op).value, x);
    if a == "src_ip" || a == "dst_ip" { IpAgrees(op, values.address(x)); }
    else if a == "src_port" || a == "dst_port" { PortAgrees(op, port, values.port(x)); }
    else if a == "timestamp" { TimeAgrees(op, t, values.time(x), now); }
  }

  lemma IpAgrees(op: string, x: AddressText)
    requires ValidOp(op)
    ensures IpSays(op, x.ip, x) <==> IpSays(NegateOp(op).value, x.ip, x)
  {
    if x.prefix.Some? {
      BlockExactly(x.ip, x.ip, 32 - x.prefix.value);
      BlockExactly(x.ip, x.ip, x.prefix.value);
    }
  }

  lemma PortAgrees(op: string, p: nat, port: Option<nat>)
    requires ValidOp(op) && (port.Some? ==> p == port.value <= UINT16_MAX)
    requires port.Some? ==> op != "<=" && op != ">" && !Splits(op, p, UINT16_MAX)
    ensures PortSays(op, p, port) <==> PortSays(NegateOp(op).value, p, port)
  {
  }

  lemma TimeAgrees(op: string, t: nat, x: TimeText, now: Word)
    requires ValidOp(op)
    requires var s := SecondOf(x, now);
             && t == (if s.Some? && s.value <= now then s.value else now)
             && (s.Some? && x.Now? ==> op != "<=" && op != ">" && (now == 0 ==> op != "<" && op != ">="))
             && (s.Some? && !x.Now? ==> !Splits(op, s.value, UINT32_MAX))
    ensures TimeSays(op, t, x, now) <==> TimeSays(NegateOp(op).value, t, x, now)
  {
  }

  /** Flipping the operator of a predicate negates it on all packets received so far if and only
      if it is an ordering on a port or a time, and its bound is not at the end where it wraps. */
  lemma FlipsExactly(values: Values, now: Word, a: string, op: string, x: string)
    requires PortsFit(values) && ValidOp(op)
    ensures AlwaysFlips(values, now, a, op, x) <==> Flippable(values, now, a, op, x)
  {
    if Flippable(values, now, a, op, x) {
      forall r: Record | Seen(r, now) ensures FlipsAt(EnvFor(Resolving(values, now), r), a, op, x) {
        FlippableFlips(values, now, a, op, x, r);
      }
    } else {
      var r := Unflipped(values, now, a, op, x);
    }
  }

  // ----- whole queries -----

  // Every predicate under a '!' is flippable; neg says whether one has been passed.

  predicate SafeE(e: ETree, neg: bool, values: Values, now: Word) {
    match e
    case LastT(t) => SafeT(t, neg, values, now)
    case OrT(t, more) => SafeT(t, neg, values, now) && SafeE(more, neg, values, now)
  }

  predicate SafeT(t: TTree, neg: bool, values: Values, now: Word) {
    match t
    case LastF(f) => SafeF(f, neg, values, now)
    case AndF(f, rest) => SafeF(f, neg, values, now) && SafeT(rest, neg, values, now)
  }

  predicate SafeF(f: FTree, neg: bool, values: Values, now: Word) {
    match f
    case PredF(a, op, x) => neg ==> Flippable(values, now, a, op, x)
    case NotF(g) => SafeF(g, true, values, now)
    case ParenF(e) => SafeE(e, neg, values, now)
  }

  /** Pushing the negations inward is sound on every packet received so far. */
  ghost predicate AlwaysSound(e: ETree, neg: bool, values: Values, now: Word) {
    forall r: Record :: Seen(r, now) ==> SoundFlipsE(e, neg, EnvFor(Resolving(values, now), r))
  }

  ghost predicate AlwaysSoundT(t: TTree, neg: bool, values: Values, now: Word) {
    forall r: Record :: Seen(r, now) ==> SoundFlipsT(t, neg, EnvFor(Resolving(values, now), r))
  }

  ghost predicate AlwaysSoundF(f: FTree, neg: bool, values: Values, now: Word) {
    forall r: Record :: Seen(r, now) ==> SoundFlipsF(f, neg, EnvFor(Resolving(values, now), r))
  }

  /** It is if and only if every predicate under a '!' is flippable. */
  lemma {:induction false} SoundExactly(e: ETree, neg: bool, values: Values, now: Word)
    requires PortsFit(values) && ValidE(e)
    ensures AlwaysSound(e, neg, values, now) <==> SafeE(e, neg, values, now)
  {
    match e
    case LastT(t) => SoundExactlyT(t, neg, values, now);
    case OrT(t, more) =>
      SoundExactlyT(t, neg, values, now);
      SoundExactly(more, neg, values, now);
  }

  lemma {:induction false} SoundExactlyT(t: TTree, neg: bool, values: Values, now: Word)
    requires PortsFit(values) && ValidT(t)
    ensures AlwaysSoundT(t, neg, values, now) <==> SafeT(t, neg, values, now)
  {
    match t
    case LastF(f) => SoundExactlyF(f, neg, values, now);
    case AndF(f, rest) =>
      SoundExactlyF(f, neg, values, now);
      SoundExactlyT(rest, neg, values, now);
  }

  lemma {:induction false} SoundExactlyF(f: FTree, neg: bool, values: Values, now: Word)
    requires PortsFit(values) && ValidF(f)
    ensures AlwaysSoundF(f, neg, values, now) <==> SafeF(f, neg, values, now)
  {
    match f
    case PredF(a, op, x) =>
      FlipsExactly(values, now, a, op, x);
      assert AlwaysSoundF(f, neg, values, now) <==> (neg ==> AlwaysFlips(values, now, a, op, x)) by {
        var r := SomeSeen(now);
      }
    case NotF(g) => SoundExactlyF(g, true, values, now);
    case ParenF(e) => SoundExactly(e, neg, values, now);
  }

  lemma SomeSeen(now: Word) returns (r: Record)
    ensures Seen(r, now)
  {
    var p := SomePacket(6, 0, 0, 0, 0);
    r := Record(now, p);
  }

  function SaysEnv(values: Values, now: Word, r: Record): Env {
    (a: string, op: string, x: string) => Says(values, now, r, a, op, x)
  }

  ghost predicate SameEnv(v: Env, w: Env) { forall a, op, x :: v(a, op, x) <==> w(a, op, x) }

  lemma {:induction false} MeanSame(e: ETree, v: Env, w: Env)
    requires SameEnv(v, w)
    ensures MeanE(e, v) <==> MeanE(e, w)
  {
    match e
    case LastT(t) => MeanSameT(t, v, w);
    case OrT(t, more) => MeanSameT(t, v, w); MeanSame(more, v, w);
  }

  lemma {:induction false} MeanSameT(t: TTree, v: Env, w: Env)
    requires SameEnv(v, w)
    ensures MeanT(t, v) <==> MeanT(t, w)
  {
    match t
    case LastF(f) => MeanSameF(f, v, w);
    case AndF(f, rest) => MeanSameF(f, v, w); MeanSameT(rest, v, w);
  }

  lemma {:induction false} MeanSameF(f: FTree, v: Env, w: Env)
    requires SameEnv(v, w)
    ensures MeanF(f, v) <==> MeanF(f, w)
  {
    match f
    case PredF(_, _, _) =>
    case NotF(g) => MeanSameF(g, v, w);
    case ParenF(e) => MeanSame(e, v, w);
  }

  /** The answer to a text whose predicates under a '!' are flippable: of the TCP and UDP packets
      received by the time of the query, those of which the text holds, and the extra ids. */
  lemma AnswerSays(s: PP.State, e: ETree, values: Values, now: Word, count: IndexFilter -> nat, ids: set<nat>, id: nat)
    requires PortsFit(values) && ValidE(e) && SafeE(e, false, values, now)
    requires Plannable(AstE(e), Resolving(values, now)) && TextAnswer(s, e, Resolving(values, now), count, ids)
    requires id < s.readId && Seen(PT.RecordAt(s, id), now)
    ensures id in ids <==>
            MeanE(e, SaysEnv(values, now, PT.RecordAt(s, id))) || Extra(s, AstE(e), Resolving(values, now), count, id)
  {
    var r := PT.RecordAt(s, id);
    var v, w := EnvFor(Resolving(values, now), r), SaysEnv(values, now, r);
    SoundExactly(e, false, values, now);
    assert Sound(s, e, Resolving(values, now), id);
    forall a, op, x ensures v(a, op, x) <==> w(a, op, x) { SaysExactly(values, now, r, a, op, x); }
    MeanSame(e, v, w);
  }
}
