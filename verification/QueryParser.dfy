/**
 The query grammar and the recursive-descent parser that pushes negation inward
 while it parses:

   expression ::= term { '||' term }
   term       ::= factor { '&&' factor }
   factor     ::= predicate | '!' factor | '(' expression ')'
   predicate  ::= attribute op value
 */
module QueryParser {
  import opened Expressions

  datatype Token =
    | OrTok | AndTok | NotTok | Left | Right
    | Operator(text: string)
    | Operand(text: string)
    | End
    | Broken   // where the lexer throws

  /** The operators the lexer can produce. */
  predicate ValidOp(op: string) {
    op in ["==", "!=", "<", ">", "<=", ">=", "in", "!in"]
  }

  predicate ValidTokens(toks: seq<Token>) {
    forall i :: 0 <= i < |toks| && toks[i].Operator? ==> ValidOp(toks[i].text)
  }

  // ----- negation -----

  function NegateOp(op: string): Result<string> {
    if op == "==" then Ok("!=")
    else if op == "!=" then Ok("==")
    else if op == "<" then Ok(">=")
    else if op == ">" then Ok("<=")
    else if op == "<=" then Ok(">")
    else if op == ">=" then Ok("<")
    else if op == "in" then Ok("!in")
    else if op == "!in" then Ok("in")
    else Err(InvalidOperator)
  }

  /** How an attribute compares with a value: where it lies, and whether the value lists it. */
  datatype Side = Below | Equal | Above
  datatype Reading = Reading(side: Side, member: bool)

  /** What each operator says of it. */
  predicate Means(op: string, r: Reading)
    requires ValidOp(op)
  {
    match op
    case "==" => r.side.Equal?
    case "!=" => r.side.Below? || r.side.Above?
    case "<" => r.side.Below?
    case ">" => r.side.Above?
    case "<=" => r.side.Below? || r.side.Equal?
    case ">=" => r.side.Above? || r.side.Equal?
    case "in" => r.member
    case _ => !r.member
  }

  /** The negation of an operator is the one operator that says the opposite of every attribute. */
  lemma NegateOpExactly(op: string, other: string)
    requires ValidOp(op) && ValidOp(other)
    ensures NegateOp(op) == Ok(other) <==> forall r :: Means(other, r) <==> !Means(op, r)
  {
    var some := [Reading(Below, false), Reading(Equal, false), Reading(Above, false), Reading(Below, true), Reading(Equal, true)];
    if NegateOp(op) != Ok(other) {
      assert exists i :: 0 <= i < |some| && (Means(other, some[i]) <==> Means(op, some[i])) by {
        assert (Means(other, some[0]) <==> Means(op, some[0])) || (Means(other, some[1]) <==> Means(op, some[1]))
            || (Means(other, some[2]) <==> Means(op, some[2])) || (Means(other, some[3]) <==> Means(op, some[3]))
            || (Means(other, some[4]) <==> Means(op, some[4]));
      }
    }
  }

  lemma NegateOpMeans(op: string)
    ensures NegateOp(op).Ok? <==> ValidOp(op)
    ensures ValidOp(op) ==> ValidOp(NegateOp(op).value) && forall r :: Means(NegateOp(op).value, r) <==> !Means(op, r)
  {
    if ValidOp(op) { NegateOpExactly(op, NegateOp(op).value); }
  }

  /** negate(): De Morgan on AND and OR, drop a NOT, flip a predicate's operator. */
  function Negate(e: Expr): Result<Expr> {
    match e
    case And(cs) => var r := NegateAll(cs); if r.Ok? then Ok(Or(r.value)) else Err(r.error)
    case Or(cs) => var r := NegateAll(cs); if r.Ok? then Ok(And(r.value)) else Err(r.error)
    case Not(c) => Ok(c)
    case Pred(a, op, x) => var r := NegateOp(op); if r.Ok? then Ok(Pred(a, r.value, x)) else Err(r.error)
  }

  function NegateAll(cs: seq<Expr>): Result<seq<Expr>> {
    if cs == [] then Ok([])
    else
      var first := Negate(cs[0]);
      if first.Err? then Err(first.error)
      else
        var rest := NegateAll(cs[1..]);
        if rest.Err? then Err(rest.error) else Ok([first.value] + rest.value)
  }

  predicate OpsValid(e: Expr) {
    match e
    case Pred(_, op, _) => ValidOp(op)
    case And(cs) => forall i :: 0 <= i < |cs| ==> OpsValid(cs[i])
    case Or(cs) => forall i :: 0 <= i < |cs| ==> OpsValid(cs[i])
    case Not(c) => OpsValid(c)
  }

  /** Trees the parser builds. */
  predicate Built(e: Expr) { OpsValid(e) && NoNot(e) && NoBareNode(e) }

  /** Flipping the operator of a predicate flips its truth value. */
  predicate FlipsAt(v: Env, a: string, op: string, x: string) {
    ValidOp(op) ==> (v(a, NegateOp(op).value, x) <==> !v(a, op, x))
  }

  /** Every operator says of an attribute and a value what it says of their reading. */
  ghost predicate ReadsOperators(v: Env, reading: (string, string) -> Reading) {
    forall a, op, x :: ValidOp(op) ==> (v(a, op, x) <==> Means(op, reading(a, x)))
  }

  lemma ReadingFlips(v: Env, reading: (string, string) -> Reading, a: string, op: string, x: string)
    requires ReadsOperators(v, reading)
    ensures FlipsAt(v, a, op, x)
  {
    NegateOpMeans(op);
  }

  /** So it does at every predicate of an expression. */
  predicate Flips(e: Expr, v: Env) {
    match e
    case Pred(a, op, x) => FlipsAt(v, a, op, x)
    case And(cs) => forall i :: 0 <= i < |cs| ==> Flips(cs[i], v)
    case Or(cs) => forall i :: 0 <= i < |cs| ==> Flips(cs[i], v)
    case Not(c) => Flips(c, v)
  }

  /** b is the negation of a, and can be negated in turn. */
  ghost predicate Opposite(a: Expr, b: Expr, v: Env) {
    Flips(a, v) ==> Flips(b, v) && (Eval(b, v) <==> !Eval(a, v))
  }

  ghost predicate Negated(a: Expr, b: Expr, v: Env) {
    OpsValid(b) && Opposite(a, b, v) && (Built(a) ==> Built(b))
  }

  /** Negating a tree of valid operators never throws and means its negation; a built
      tree gives a built tree. */
  lemma {:induction false} NegateBuilt(e: Expr, v: Env)
    requires OpsValid(e)
    ensures Negate(e).Ok? && Negated(e, Negate(e).value, v)
    decreases e, 1
  {
    match e
    case Pred(a, op, x) =>
    case And(cs) =>
      NegateAllBuilt(cs, v);
      AndOrBuilt(cs, NegateAll(cs).value, v);
      AndOrOpposite(cs, NegateAll(cs).value, v);
    case Or(cs) =>
      NegateAllBuilt(cs, v);
      AndOrBuilt(cs, NegateAll(cs).value, v);
      AndOrOpposite(cs, NegateAll(cs).value, v);
    case Not(c) =>
  }

  lemma AndOrBuilt(cs: seq<Expr>, ds: seq<Expr>, v: Env)
    requires |cs| == |ds| && forall i :: 0 <= i < |cs| ==> Negated(cs[i], ds[i], v)
    ensures OpsValid(And(ds)) && OpsValid(Or(ds))
    ensures Built(And(cs)) || Built(Or(cs)) ==> Built(And(ds)) && Built(Or(ds))
  {
    forall i | 0 <= i < |cs| ensures OpsValid(ds[i]) && (Built(cs[i]) ==> Built(ds[i])) {
      assert Negated(cs[i], ds[i], v);
    }
  }

  lemma AndOrOpposite(cs: seq<Expr>, ds: seq<Expr>, v: Env)
    requires |cs| == |ds| && forall i :: 0 <= i < |cs| ==> Negated(cs[i], ds[i], v)
    ensures Opposite(And(cs), Or(ds), v) && Opposite(Or(cs), And(ds), v)
  {
    if forall i :: 0 <= i < |cs| ==> Flips(cs[i], v) {
      forall i | 0 <= i < |cs| ensures Flips(ds[i], v) && (Eval(ds[i], v) <==> !Eval(cs[i], v)) {
        assert Negated(cs[i], ds[i], v);
      }
    }
  }

  lemma {:induction false} NegateAllBuilt(cs: seq<Expr>, v: Env)
    requires forall i :: 0 <= i < |cs| ==> OpsValid(cs[i])
    ensures NegateAll(cs).Ok? && |NegateAll(cs).value| == |cs|
    ensures forall i :: 0 <= i < |cs| ==> Negated(cs[i], NegateAll(cs).value[i], v)
    decreases cs, 0
  {
    if cs != [] {
      NegateBuilt(cs[0], v);
      NegateAllBuilt(cs[1..], v);
    }
  }

  // ----- the parser as a function of the token position -----

  function At(toks: seq<Token>, p: nat): Token { if p < |toks| then toks[p] else End }

  function ParseExp(toks: seq<Token>, p: nat): (r: Result<(Expr, nat)>)
    requires p <= |toks|
    ensures r.Ok? ==> p < r.value.1 <= |toks|
    decreases |toks| - p, 2
  {
    var t := ParseTerm(toks, p);
    if t.Err? || At(toks, t.value.1) != OrTok then t else ExpRest(toks, t.value.1, [t.value.0])
  }

  /** The loop of exp(). */
  function ExpRest(toks: seq<Token>, p: nat, acc: seq<Expr>): (r: Result<(Expr, nat)>)
    requires p <= |toks|
    ensures r.Ok? ==> p <= r.value.1 <= |toks|
    decreases |toks| - p, 0
  {
    if At(toks, p) != OrTok then Ok((Or(acc), p))
    else
      var t := ParseTerm(toks, p + 1);
      if t.Err? then t else ExpRest(toks, t.value.1, acc + [t.value.0])
  }

  function ParseTerm(toks: seq<Token>, p: nat): (r: Result<(Expr, nat)>)
    requires p <= |toks|
    ensures r.Ok? ==> p < r.value.1 <= |toks|
    decreases |toks| - p, 1
  {
    var f := ParseFactor(toks, p);
    if f.Err? || At(toks, f.value.1) != AndTok then f else TermRest(toks, f.value.1, [f.value.0])
  }

  /** The loop of term(). */
  function TermRest(toks: seq<Token>, p: nat, acc: seq<Expr>): (r: Result<(Expr, nat)>)
    requires p <= |toks|
    ensures r.Ok? ==> p <= r.value.1 <= |toks|
    decreases |toks| - p, 0
  {
    if At(toks, p) != AndTok then Ok((And(acc), p))
    else
      var f := ParseFactor(toks, p + 1);
      if f.Err? then f else TermRest(toks, f.value.1, acc + [f.value.0])
  }

  function ParseFactor(toks: seq<Token>, p: nat): (r: Result<(Expr, nat)>)
    requires p <= |toks|
    ensures r.Ok? ==> p < r.value.1 <= |toks|
    decreases |toks| - p, 0
  {
    match At(toks, p)
    case NotTok =>
      var f := ParseFactor(toks, p + 1);
      if f.Err? then f
      else var n := Negate(f.value.0); if n.Ok? then Ok((n.value, f.value.1)) else Err(n.error)
    case Left =>
      var e := ParseExp(toks, p + 1);
      if e.Err? then e
      else if At(toks, e.value.1) != Right then Err(MissingRight)
      else Ok((e.value.0, e.value.1 + 1))
    case Operand(a) =>
      var op := At(toks, p + 1);
      var x := At(toks, p + 2);
      var end: nat := p + 3;
      if !op.Operator? then Err(MissingOperator)
      else if !x.Operand? then Err(MissingOperand)
      else Ok((Pred(a, op.text, x.text), end))
    case _ => Err(UnexpectedToken)
  }

  /** parse(): an expression and nothing after it. */
  function Parse(toks: seq<Token>): Result<Expr> {
    var e := ParseExp(toks, 0);
    if e.Err? then Err(e.error)
    else if At(toks, e.value.1) != End then Err(TrailingInput)
    else Ok(e.value.0)
  }
}
