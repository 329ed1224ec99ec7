/** The grammar itself, and what the parser does on its sentences. */
module Grammar {
  import opened Expressions
  import opened QueryParser

  /** Derivation trees: they keep every '!' and every parenthesis. */
  datatype ETree = LastT(t: TTree) | OrT(t: TTree, more: ETree)
  datatype TTree = LastF(f: FTree) | AndF(f: FTree, rest: TTree)
  datatype FTree = PredF(attr: string, op: string, value: string) | NotF(sub: FTree) | ParenF(e: ETree)

  // ----- sentences -----

  function YieldE(e: ETree): seq<Token> {
    match e
    case LastT(t) => YieldT(t)
    case OrT(t, more) => YieldT(t) + [OrTok] + YieldE(more)
  }

  function YieldT(t: TTree): seq<Token> {
    match t
    case LastF(f) => YieldF(f)
    case AndF(f, rest) => YieldF(f) + [AndTok] + YieldT(rest)
  }

  function YieldF(f: FTree): seq<Token> {
    match f
    case PredF(a, op, x) => [Operand(a), Operator(op), Operand(x)]
    case NotF(g) => [NotTok] + YieldF(g)
    case ParenF(e) => [Left] + YieldE(e) + [Right]
  }

  // ----- meaning of the tree that keeps '!' -----

  predicate MeanE(e: ETree, v: Env) {
    match e
    case LastT(t) => MeanT(t, v)
    case OrT(t, more) => MeanT(t, v) || MeanE(more, v)
  }

  predicate MeanT(t: TTree, v: Env) {
    match t
    case LastF(f) => MeanF(f, v)
    case AndF(f, rest) => MeanF(f, v) && MeanT(rest, v)
  }

  predicate MeanF(f: FTree, v: Env) {
    match f
    case PredF(a, op, x) => v(a, op, x)
    case NotF(g) => !MeanF(g, v)
    case ParenF(e) => MeanE(e, v)
  }

  // Assignments for which flipping the operator of a predicate under a '!' flips its
  // truth value; neg says whether a '!' has been passed on the way down.

  predicate SoundFlipsE(e: ETree, neg: bool, v: Env) {
    match e
    case LastT(t) => SoundFlipsT(t, neg, v)
    case OrT(t, more) => SoundFlipsT(t, neg, v) && SoundFlipsE(more, neg, v)
  }

  predicate SoundFlipsT(t: TTree, neg: bool, v: Env) {
    match t
    case LastF(f) => SoundFlipsF(f, neg, v)
    case AndF(f, rest) => SoundFlipsF(f, neg, v) && SoundFlipsT(rest, neg, v)
  }

  predicate SoundFlipsF(f: FTree, neg: bool, v: Env) {
    match f
    case PredF(a, op, x) => neg ==> FlipsAt(v, a, op, x)
    case NotF(g) => SoundFlipsF(g, true, v)
    case ParenF(e) => SoundFlipsE(e, neg, v)
  }

  lemma {:induction false} ReadingSoundE(e: ETree, neg: bool, v: Env, reading: (string, string) -> Reading)
    requires ReadsOperators(v, reading)
    ensures SoundFlipsE(e, neg, v)
  {
    match e
    case LastT(t) => ReadingSoundT(t, neg, v, reading);
    case OrT(t, more) => ReadingSoundT(t, neg, v, reading); ReadingSoundE(more, neg, v, reading);
  }

  lemma {:induction false} ReadingSoundT(t: TTree, neg: bool, v: Env, reading: (string, string) -> Reading)
    requires ReadsOperators(v, reading)
    ensures SoundFlipsT(t, neg, v)
  {
    match t
    case LastF(f) => ReadingSoundF(f, neg, v, reading);
    case AndF(f, rest) => ReadingSoundF(f, neg, v, reading); ReadingSoundT(rest, neg, v, reading);
  }

  lemma {:induction false} ReadingSoundF(f: FTree, neg: bool, v: Env, reading: (string, string) -> Reading)
    requires ReadsOperators(v, reading)
    ensures SoundFlipsF(f, neg, v)
  {
    match f
    case PredF(a, op, x) => ReadingFlips(v, reading, a, op, x);
    case NotF(g) => ReadingSoundF(g, true, v, reading);
    case ParenF(e) => ReadingSoundE(e, neg, v, reading);
  }

  predicate ValidE(e: ETree) { match e case LastT(t) => ValidT(t) case OrT(t, more) => ValidT(t) && ValidE(more) }
  predicate ValidT(t: TTree) { match t case LastF(f) => ValidF(f) case AndF(f, rest) => ValidF(f) && ValidT(rest) }
  predicate ValidF(f: FTree) {
    match f
    case PredF(_, op, _) => ValidOp(op)
    case NotF(g) => ValidF(g)
    case ParenF(e) => ValidE(e)
  }

  // ----- the tree the parser should build -----

  function AstE(e: ETree): Expr {
    match e
    case LastT(t) => AstT(t)
    case OrT(t, more) => Or([AstT(t)] + Terms(more))
  }

  function Terms(e: ETree): seq<Expr> {
    match e
    case LastT(t) => [AstT(t)]
    case OrT(t, more) => [AstT(t)] + Terms(more)
  }

  function AstT(t: TTree): Expr {
    match t
    case LastF(f) => AstF(f)
    case AndF(f, rest) => And([AstF(f)] + Factors(rest))
  }

  function Factors(t: TTree): seq<Expr> {
    match t
    case LastF(f) => [AstF(f)]
    case AndF(f, rest) => [AstF(f)] + Factors(rest)
  }

  function AstF(f: FTree): Expr {
    match f
    case PredF(a, op, x) => Pred(a, op, x)
    case NotF(g) => var n := Negate(AstF(g)); if n.Ok? then n.value else Not(AstF(g))
    case ParenF(e) => AstE(e)
  }

  // ----- the built tree means what the derivation tree means -----

  const NoPredicate: Env := (a: string, op: string, x: string) => false

  /** Same truth value, and safe to negate if a '!' has been passed. */
  ghost predicate Agree(x: Expr, mean: bool, neg: bool, v: Env) {
    (Eval(x, v) <==> mean) && (neg ==> Flips(x, v))
  }

  lemma {:induction false} AstMeansE(e: ETree, neg: bool, v: Env)
    requires ValidE(e)
    ensures Built(AstE(e)) && (SoundFlipsE(e, neg, v) ==> Agree(AstE(e), MeanE(e, v), neg, v))
    decreases e, 1
  {
    match e
    case LastT(t) => AstMeansT(t, neg, v);
    case OrT(t, more) =>
      AstMeansT(t, neg, v);
      TermsMean(more, neg, v);
      OrCons(AstT(t), Terms(more), v);
  }

  lemma {:induction false} TermsMean(e: ETree, neg: bool, v: Env)
    requires ValidE(e)
    ensures Terms(e) != [] && forall i :: 0 <= i < |Terms(e)| ==> Built(Terms(e)[i])
    ensures SoundFlipsE(e, neg, v) ==> Agree(Or(Terms(e)), MeanE(e, v), neg, v)
    decreases e, 0
  {
    match e
    case LastT(t) =>
      AstMeansT(t, neg, v);
      OrCons(AstT(t), [], v);
    case OrT(t, more) =>
      AstMeansT(t, neg, v);
      TermsMean(more, neg, v);
      OrCons(AstT(t), Terms(more), v);
  }

  lemma {:induction false} AstMeansT(t: TTree, neg: bool, v: Env)
    requires ValidT(t)
    ensures Built(AstT(t)) && (SoundFlipsT(t, neg, v) ==> Agree(AstT(t), MeanT(t, v), neg, v))
    decreases t, 1
  {
    match t
    case LastF(f) => AstMeansF(f, neg, v);
    case AndF(f, rest) =>
      AstMeansF(f, neg, v);
      FactorsMean(rest, neg, v);
      AndCons(AstF(f), Factors(rest), v);
  }

  lemma {:induction false} FactorsMean(t: TTree, neg: bool, v: Env)
    requires ValidT(t)
    ensures Factors(t) != [] && forall i :: 0 <= i < |Factors(t)| ==> Built(Factors(t)[i])
    ensures SoundFlipsT(t, neg, v) ==> Agree(And(Factors(t)), MeanT(t, v), neg, v)
    decreases t, 0
  {
    match t
    case LastF(f) =>
      AstMeansF(f, neg, v);
      AndCons(AstF(f), [], v);
    case AndF(f, rest) =>
      AstMeansF(f, neg, v);
      FactorsMean(rest, neg, v);
      AndCons(AstF(f), Factors(rest), v);
  }

  lemma {:induction false} AstMeansF(f: FTree, neg: bool, v: Env)
    requires ValidF(f)
    ensures Built(AstF(f)) && (SoundFlipsF(f, neg, v) ==> Agree(AstF(f), MeanF(f, v), neg, v))
    decreases f, 2
  {
    match f
    case PredF(_, _, _) =>
    case NotF(g) =>
      AstMeansF(g, true, v);
      NegateBuilt(AstF(g), v);
    case ParenF(e) => AstMeansE(e, neg, v);
  }

  lemma OrCons(e: Expr, es: seq<Expr>, v: Env)
    ensures Eval(Or([e] + es), v) <==> Eval(e, v) || Eval(Or(es), v)
    ensures Flips(e, v) && Flips(Or(es), v) ==> Flips(Or([e] + es), v)
  {
    var cs := [e] + es;
    if Eval(e, v) { assert Eval(cs[0], v); }
    if Eval(Or(es), v) {
      var i :| 0 <= i < |es| && Eval(es[i], v);
      assert Eval(cs[i + 1], v);
    }
    if Eval(Or(cs), v) {
      var i :| 0 <= i < |cs| && Eval(cs[i], v);
      assert i > 0 ==> Eval(es[i - 1], v);
    }
  }

  lemma AndCons(e: Expr, es: seq<Expr>, v: Env)
    ensures Eval(And([e] + es), v) <==> Eval(e, v) && Eval(And(es), v)
    ensures Flips(e, v) && Flips(And(es), v) ==> Flips(And([e] + es), v)
  {
    var cs := [e] + es;
    if Eval(And(cs), v) {
      assert Eval(cs[0], v);
      forall i | 0 <= i < |es| ensures Eval(es[i], v) { assert Eval(cs[i + 1], v); }
    }
    if Eval(e, v) && Eval(And(es), v) {
      forall i | 0 <= i < |cs| ensures Eval(cs[i], v) { assert i > 0 ==> cs[i] == es[i - 1]; }
    }
  }

  // ----- completeness: every sentence is parsed to that tree -----

  /** The sentence sits in the token sequence at position p. */
  predicate Sits(toks: seq<Token>, p: nat, w: seq<Token>) { p + |w| <= |toks| && toks[p..p + |w|] == w }

  lemma SitsSplit(toks: seq<Token>, p: nat, a: seq<Token>, b: seq<Token>)
    requires Sits(toks, p, a + b)
    ensures Sits(toks, p, a) && Sits(toks, p + |a|, b)
  {
    assert toks[p..p + |a|] == (a + b)[..|a|];
    assert toks[p + |a|..p + |a| + |b|] == (a + b)[|a|..];
  }

  lemma SitsOne(toks: seq<Token>, p: nat, t: Token)
    requires Sits(toks, p, [t])
    ensures p < |toks| && At(toks, p) == t
  {
    assert toks[p] == toks[p..p + 1][0];
  }

  lemma SitsOr(toks: seq<Token>, p: nat, t: TTree, more: ETree)
    requires Sits(toks, p, YieldE(OrT(t, more)))
    ensures Sits(toks, p, YieldT(t)) && At(toks, p + |YieldT(t)|) == OrTok
    ensures Sits(toks, p + |YieldT(t)| + 1, YieldE(more))
    ensures |YieldE(OrT(t, more))| == |YieldT(t)| + 1 + |YieldE(more)|
  {
    SitsSplit(toks, p, YieldT(t) + [OrTok], YieldE(more));
    SitsSplit(toks, p, YieldT(t), [OrTok]);
    SitsOne(toks, p + |YieldT(t)|, OrTok);
  }

  lemma SitsAnd(toks: seq<Token>, p: nat, f: FTree, rest: TTree)
    requires Sits(toks, p, YieldT(AndF(f, rest)))
    ensures Sits(toks, p, YieldF(f)) && At(toks, p + |YieldF(f)|) == AndTok
    ensures Sits(toks, p + |YieldF(f)| + 1, YieldT(rest))
    ensures |YieldT(AndF(f, rest))| == |YieldF(f)| + 1 + |YieldT(rest)|
  {
    SitsSplit(toks, p, YieldF(f) + [AndTok], YieldT(rest));
    SitsSplit(toks, p, YieldF(f), [AndTok]);
    SitsOne(toks, p + |YieldF(f)|, AndTok);
  }

  /** One round of the loop of exp(), and of term(). */
  lemma ExpRound(toks: seq<Token>, p: nat, acc: seq<Expr>, x: Expr, q: nat)
    requires At(toks, p) == OrTok && p < |toks| && ParseTerm(toks, p + 1) == Ok((x, q))
    ensures q <= |toks| && ExpRest(toks, p, acc) == ExpRest(toks, q, acc + [x])
  {
  }

  lemma TermRound(toks: seq<Token>, p: nat, acc: seq<Expr>, x: Expr, q: nat)
    requires At(toks, p) == AndTok && p < |toks| && ParseFactor(toks, p + 1) == Ok((x, q))
    ensures q <= |toks| && TermRest(toks, p, acc) == TermRest(toks, q, acc + [x])
  {
  }

  /** And the rounds that follow. */
  lemma ExpRounds(toks: seq<Token>, p: nat, acc: seq<Expr>, x: Expr, q: nat, xs: seq<Expr>, end: nat)
    requires At(toks, p) == OrTok && p < |toks| && ParseTerm(toks, p + 1) == Ok((x, q))
    requires q <= |toks| && ExpRest(toks, q, acc + [x]) == Ok((Or(acc + [x] + xs), end))
    ensures ExpRest(toks, p, acc) == Ok((Or(acc + ([x] + xs)), end))
  {
    ExpRound(toks, p, acc, x, q);
    assert acc + [x] + xs == acc + ([x] + xs);
  }

  lemma TermRounds(toks: seq<Token>, p: nat, acc: seq<Expr>, x: Expr, q: nat, xs: seq<Expr>, end: nat)
    requires At(toks, p) == AndTok && p < |toks| && ParseFactor(toks, p + 1) == Ok((x, q))
    requires q <= |toks| && TermRest(toks, q, acc + [x]) == Ok((And(acc + [x] + xs), end))
    ensures TermRest(toks, p, acc) == Ok((And(acc + ([x] + xs)), end))
  {
    TermRound(toks, p, acc, x, q);
    assert acc + [x] + xs == acc + ([x] + xs);
  }

  lemma ExpOpen(toks: seq<Token>, p: nat, x: Expr, q: nat)
    requires p <= |toks| && ParseTerm(toks, p) == Ok((x, q))
    ensures q <= |toks|
    ensures ParseExp(toks, p) == if At(toks, q) != OrTok then Ok((x, q)) else ExpRest(toks, q, [x])
  {
  }

  lemma TermStop(toks: seq<Token>, p: nat, acc: seq<Expr>)
    requires p <= |toks| && At(toks, p) != AndTok
    ensures TermRest(toks, p, acc) == Ok((And(acc), p))
  {
  }

  lemma TermOpen(toks: seq<Token>, p: nat, x: Expr, q: nat)
    requires p <= |toks| && ParseFactor(toks, p) == Ok((x, q))
    ensures q <= |toks|
    ensures ParseTerm(toks, p) == if At(toks, q) != AndTok then Ok((x, q)) else TermRest(toks, q, [x])
  {
  }

  lemma {:induction false} CompleteE(toks: seq<Token>, p: nat, e: ETree)
    requires ValidE(e) && Sits(toks, p, YieldE(e))
    requires At(toks, p + |YieldE(e)|) != OrTok && At(toks, p + |YieldE(e)|) != AndTok
    ensures p < |toks| && ParseExp(toks, p) == Ok((AstE(e), p + |YieldE(e)|))
    decreases e, 3
  {
    match e
    case LastT(t) =>
      CompleteT(toks, p, t);
      ExpOpen(toks, p, AstT(t), p + |YieldT(t)|);
    case OrT(t, more) =>
      SitsOr(toks, p, t, more);
      CompleteT(toks, p, t);
      ExpOpen(toks, p, AstT(t), p + |YieldT(t)|);
      CompleteMoreE(toks, p + |YieldT(t)|, more, [AstT(t)]);
  }

  /** The loop of exp() standing on '||' in front of the remaining terms. */
  lemma {:induction false} CompleteMoreE(toks: seq<Token>, p: nat, e: ETree, acc: seq<Expr>)
    requires ValidE(e) && At(toks, p) == OrTok && Sits(toks, p + 1, YieldE(e))
    requires At(toks, p + 1 + |YieldE(e)|) != OrTok && At(toks, p + 1 + |YieldE(e)|) != AndTok
    ensures p <= |toks| && ExpRest(toks, p, acc) == Ok((Or(acc + Terms(e)), p + 1 + |YieldE(e)|))
    decreases e, 2
  {
    match e
    case LastT(t) =>
      CompleteT(toks, p + 1, t);
      ExpRound(toks, p, acc, AstT(t), p + 1 + |YieldE(e)|);
    case OrT(t, more) =>
      CompleteMoreOr(toks, p, t, more, acc);
  }

  lemma {:induction false} CompleteMoreOr(toks: seq<Token>, p: nat, t: TTree, more: ETree, acc: seq<Expr>)
    requires ValidT(t) && ValidE(more) && At(toks, p) == OrTok && Sits(toks, p + 1, YieldE(OrT(t, more)))
    requires At(toks, p + 1 + |YieldE(OrT(t, more))|) != OrTok && At(toks, p + 1 + |YieldE(OrT(t, more))|) != AndTok
    ensures p <= |toks|
    ensures ExpRest(toks, p, acc) == Ok((Or(acc + Terms(OrT(t, more))), p + 1 + |YieldE(OrT(t, more))|))
    decreases OrT(t, more), 1
  {
    SitsOr(toks, p + 1, t, more);
    var q := p + 1 + |YieldT(t)|;
    CompleteT(toks, p + 1, t);
    CompleteMoreE(toks, q, more, acc + [AstT(t)]);
    ExpRounds(toks, p, acc, AstT(t), q, Terms(more), q + 1 + |YieldE(more)|);
  }

  lemma {:induction false} CompleteT(toks: seq<Token>, p: nat, t: TTree)
    requires ValidT(t) && Sits(toks, p, YieldT(t)) && At(toks, p + |YieldT(t)|) != AndTok
    ensures p < |toks| && ParseTerm(toks, p) == Ok((AstT(t), p + |YieldT(t)|))
    decreases t, 3
  {
    match t
    case LastF(f) =>
      CompleteF(toks, p, f);
      TermOpen(toks, p, AstF(f), p + |YieldF(f)|);
    case AndF(f, rest) =>
      CompleteAnd(toks, p, f, rest);
  }

  lemma {:induction false} CompleteAnd(toks: seq<Token>, p: nat, f: FTree, rest: TTree)
    requires ValidF(f) && ValidT(rest) && Sits(toks, p, YieldT(AndF(f, rest)))
    requires At(toks, p + |YieldT(AndF(f, rest))|) != AndTok
    ensures p < |toks|
    ensures ParseTerm(toks, p) == Ok((And([AstF(f)] + Factors(rest)), p + |YieldT(AndF(f, rest))|))
    decreases AndF(f, rest), 2
  {
    SitsAnd(toks, p, f, rest);
    CompleteF(toks, p, f);
    TermOpen(toks, p, AstF(f), p + |YieldF(f)|);
    CompleteMoreT(toks, p + |YieldF(f)|, rest, [AstF(f)]);
  }

  lemma {:induction false} CompleteMoreT(toks: seq<Token>, p: nat, t: TTree, acc: seq<Expr>)
    requires ValidT(t) && At(toks, p) == AndTok && Sits(toks, p + 1, YieldT(t))
    requires At(toks, p + 1 + |YieldT(t)|) != AndTok
    ensures p <= |toks| && TermRest(toks, p, acc) == Ok((And(acc + Factors(t)), p + 1 + |YieldT(t)|))
    decreases t, 2
  {
    match t
    case LastF(f) =>
      CompleteF(toks, p + 1, f);
      TermRound(toks, p, acc, AstF(f), p + 1 + |YieldF(f)|);
      TermStop(toks, p + 1 + |YieldF(f)|, acc + [AstF(f)]);
    case AndF(f, rest) =>
      SitsAnd(toks, p + 1, f, rest);
      CompleteMoreAnd(toks, p, f, rest, acc);
  }

  /** The loop of term() standing on '&&' in front of a factor and the remaining ones. */
  lemma {:induction false} CompleteMoreAnd(toks: seq<Token>, p: nat, f: FTree, rest: TTree, acc: seq<Expr>)
    requires ValidF(f) && ValidT(rest) && At(toks, p) == AndTok
    requires Sits(toks, p + 1, YieldF(f)) && At(toks, p + 1 + |YieldF(f)|) == AndTok
    requires Sits(toks, p + 2 + |YieldF(f)|, YieldT(rest)) && At(toks, p + 2 + |YieldF(f)| + |YieldT(rest)|) != AndTok
    ensures p <= |toks|
    ensures TermRest(toks, p, acc) == Ok((And(acc + ([AstF(f)] + Factors(rest))), p + 2 + |YieldF(f)| + |YieldT(rest)|))
    decreases AndF(f, rest), 1
  {
    var q := p + 1 + |YieldF(f)|;
    CompleteF(toks, p + 1, f);
    CompleteMoreT(toks, q, rest, acc + [AstF(f)]);
    TermRounds(toks, p, acc, AstF(f), q, Factors(rest), q + 1 + |YieldT(rest)|);
  }

  lemma SitsParen(toks: seq<Token>, p: nat, e: ETree)
    requires Sits(toks, p, YieldF(ParenF(e)))
    ensures p < |toks| && At(toks, p) == Left && Sits(toks, p + 1, YieldE(e))
    ensures At(toks, p + 1 + |YieldE(e)|) == Right
    ensures |YieldF(ParenF(e))| == |YieldE(e)| + 2
  {
    SitsSplit(toks, p, [Left] + YieldE(e), [Right]);
    SitsSplit(toks, p, [Left], YieldE(e));
    SitsOne(toks, p, Left);
    SitsOne(toks, p + 1 + |YieldE(e)|, Right);
  }

  lemma SitsNot(toks: seq<Token>, p: nat, f: FTree)
    requires Sits(toks, p, YieldF(NotF(f)))
    ensures p < |toks| && At(toks, p) == NotTok && Sits(toks, p + 1, YieldF(f))
    ensures |YieldF(NotF(f))| == |YieldF(f)| + 1
  {
    SitsSplit(toks, p, [NotTok], YieldF(f));
    SitsOne(toks, p, NotTok);
  }

  lemma AstNegatable(f: FTree)
    requires ValidF(f)
    ensures Negate(AstF(f)).Ok? && AstF(NotF(f)) == Negate(AstF(f)).value
  {
    AstMeansF(f, false, NoPredicate);
    NegateBuilt(AstF(f), NoPredicate);
  }

  lemma CompletePred(toks: seq<Token>, p: nat, f: FTree)
    requires f.PredF? && Sits(toks, p, YieldF(f))
    ensures p < |toks| && ParseFactor(toks, p) == Ok((AstF(f), p + |YieldF(f)|))
  {
    assert toks[p..p + 3] == YieldF(f);
    assert toks[p] == YieldF(f)[0] && toks[p + 1] == YieldF(f)[1] && toks[p + 2] == YieldF(f)[2];
  }

  lemma FactorNot(toks: seq<Token>, p: nat, x: Expr, q: nat)
    requires p < |toks| && At(toks, p) == NotTok && ParseFactor(toks, p + 1) == Ok((x, q)) && Negate(x).Ok?
    ensures ParseFactor(toks, p) == Ok((Negate(x).value, q))
  {
  }

  lemma FactorParen(toks: seq<Token>, p: nat, x: Expr, q: nat)
    requires p < |toks| && At(toks, p) == Left && ParseExp(toks, p + 1) == Ok((x, q)) && At(toks, q) == Right
    ensures ParseFactor(toks, p) == Ok((x, q + 1))
  {
  }

  lemma {:induction false} CompleteF(toks: seq<Token>, p: nat, f: FTree)
    requires ValidF(f) && Sits(toks, p, YieldF(f))
    ensures p < |toks| && ParseFactor(toks, p) == Ok((AstF(f), p + |YieldF(f)|))
    decreases f, 4
  {
    match f
    case PredF(_, _, _) =>
      CompletePred(toks, p, f);
    case NotF(g) =>
      SitsNot(toks, p, g);
      CompleteF(toks, p + 1, g);
      AstNegatable(g);
      FactorNot(toks, p, AstF(g), p + 1 + |YieldF(g)|);
    case ParenF(e) =>
      SitsParen(toks, p, e);
      CompleteE(toks, p + 1, e);
      FactorParen(toks, p, AstE(e), p + 1 + |YieldE(e)|);
  }

  // ----- soundness: everything accepted is a sentence -----

  lemma Join(toks: seq<Token>, p: nat, q: nat, end: nat)
    requires p <= q < end <= |toks|
    ensures toks[p..end] == toks[p..q] + [toks[q]] + toks[q + 1..end]
  {
  }

  lemma {:induction false} SoundE(toks: seq<Token>, p: nat) returns (e: ETree)
    requires ValidTokens(toks) && p <= |toks| && ParseExp(toks, p).Ok?
    ensures ValidE(e) && toks[p..ParseExp(toks, p).value.1] == YieldE(e)
    decreases |toks| - p, 2
  {
    var t := SoundT(toks, p);
    var q := ParseTerm(toks, p).value.1;
    if At(toks, q) != OrTok {
      e := LastT(t);
    } else {
      var more := SoundMoreE(toks, q, [ParseTerm(toks, p).value.0]);
      e := OrT(t, more);
      var end := ParseExp(toks, p).value.1;
      Join(toks, p, q, end);
    }
  }

  lemma {:induction false} SoundMoreE(toks: seq<Token>, p: nat, acc: seq<Expr>) returns (e: ETree)
    requires ValidTokens(toks) && At(toks, p) == OrTok && p < |toks| && ExpRest(toks, p, acc).Ok?
    ensures ValidE(e) && p < ExpRest(toks, p, acc).value.1
    ensures toks[p + 1..ExpRest(toks, p, acc).value.1] == YieldE(e)
    decreases |toks| - p, 0
  {
    var t := SoundT(toks, p + 1);
    var pair := ParseTerm(toks, p + 1).value;
    var q := pair.1;
    ExpRound(toks, p, acc, pair.0, q);
    if At(toks, q) != OrTok {
      e := LastT(t);
    } else {
      var more := SoundMoreE(toks, q, acc + [pair.0]);
      e := OrT(t, more);
      var end := ExpRest(toks, p, acc).value.1;
      Join(toks, p + 1, q, end);
    }
  }

  lemma {:induction false} SoundT(toks: seq<Token>, p: nat) returns (t: TTree)
    requires ValidTokens(toks) && p <= |toks| && ParseTerm(toks, p).Ok?
    ensures ValidT(t) && toks[p..ParseTerm(toks, p).value.1] == YieldT(t)
    decreases |toks| - p, 1
  {
    var f := SoundF(toks, p);
    var q := ParseFactor(toks, p).value.1;
    if At(toks, q) != AndTok {
      t := LastF(f);
    } else {
      var rest := SoundMoreT(toks, q, [ParseFactor(toks, p).value.0]);
      t := AndF(f, rest);
      var end := ParseTerm(toks, p).value.1;
      Join(toks, p, q, end);
    }
  }

  lemma {:induction false} SoundMoreT(toks: seq<Token>, p: nat, acc: seq<Expr>) returns (t: TTree)
    requires ValidTokens(toks) && At(toks, p) == AndTok && p < |toks| && TermRest(toks, p, acc).Ok?
    ensures ValidT(t) && p < TermRest(toks, p, acc).value.1
    ensures toks[p + 1..TermRest(toks, p, acc).value.1] == YieldT(t)
    decreases |toks| - p, 0
  {
    var f := SoundF(toks, p + 1);
    var pair := ParseFactor(toks, p + 1).value;
    var q := pair.1;
    TermRound(toks, p, acc, pair.0, q);
    if At(toks, q) != AndTok {
      t := LastF(f);
    } else {
      var rest := SoundMoreT(toks, q, acc + [pair.0]);
      t := AndF(f, rest);
      var end := TermRest(toks, p, acc).value.1;
      Join(toks, p + 1, q, end);
    }
  }

  lemma {:induction false} SoundF(toks: seq<Token>, p: nat) returns (f: FTree)
    requires ValidTokens(toks) && p <= |toks| && ParseFactor(toks, p).Ok?
    ensures ValidF(f) && p < |toks| && toks[p..ParseFactor(toks, p).value.1] == YieldF(f)
    decreases |toks| - p, 0
  {
    var end := ParseFactor(toks, p).value.1;
    match At(toks, p)
    case NotTok =>
      var g := SoundF(toks, p + 1);
      f := NotF(g);
      assert toks[p..end] == [toks[p]] + toks[p + 1..end];
    case Left =>
      var e := SoundE(toks, p + 1);
      f := ParenF(e);
      assert toks[p..end] == [toks[p]] + toks[p + 1..end - 1] + [toks[end - 1]];
    case Operand(a) =>
      f := PredF(a, toks[p + 1].text, toks[p + 2].text);
      assert toks[p..end] == [toks[p], toks[p + 1], toks[p + 2]];
  }

  // ----- the parser on token sequences -----

  ghost predicate Sentence(toks: seq<Token>) { exists e :: ValidE(e) && YieldE(e) == toks }

  /** The parser accepts exactly the sentences of the grammar. */
  lemma AcceptsExactly(toks: seq<Token>)
    requires ValidTokens(toks) && End !in toks
    ensures Parse(toks).Ok? <==> Sentence(toks)
  {
    if Parse(toks).Ok? {
      var e := SoundE(toks, 0);
      assert toks[0..|toks|] == toks;
    }
    if Sentence(toks) {
      var e :| ValidE(e) && YieldE(e) == toks;
      ParsePreservesMeaning(toks, e);
    }
  }

  lemma {:induction false} NoBrokenE(e: ETree)
    ensures Broken !in YieldE(e)
    decreases e, 0
  {
    match e
    case LastT(t) => NoBrokenT(t);
    case OrT(t, more) => NoBrokenT(t); NoBrokenE(more);
  }

  lemma {:induction false} NoBrokenT(t: TTree)
    ensures Broken !in YieldT(t)
    decreases t, 0
  {
    match t
    case LastF(f) => NoBrokenF(f);
    case AndF(f, rest) => NoBrokenF(f); NoBrokenT(rest);
  }

  lemma {:induction false} NoBrokenF(f: FTree)
    ensures Broken !in YieldF(f)
    decreases f, 0
  {
    match f
    case PredF(_, _, _) =>
    case NotF(g) => NoBrokenF(g);
    case ParenF(e) => NoBrokenE(e);
  }

  /** Parsing preserves meaning: for every derivation tree of the grammar the parser
      accepts its sentence, throws nothing, returns a tree without NOT nodes, and that
      tree has the truth value of the derivation tree under every assignment that gives the
      operators their meaning, and more locally wherever the flips under a '!' are sound. */
  lemma ParsePreservesMeaning(toks: seq<Token>, e: ETree)
    requires ValidE(e) && YieldE(e) == toks
    ensures Parse(toks) == Ok(AstE(e))
    ensures NoNot(AstE(e)) && NoBareNode(AstE(e))
    ensures forall v, reading :: ReadsOperators(v, reading) ==> (Eval(AstE(e), v) <==> MeanE(e, v))
    ensures forall v :: SoundFlipsE(e, false, v) ==> (Eval(AstE(e), v) <==> MeanE(e, v))
  {
    assert toks[0..|toks|] == toks;
    CompleteE(toks, 0, e);
    AstMeansE(e, false, NoPredicate);
    forall v | SoundFlipsE(e, false, v) ensures Eval(AstE(e), v) <==> MeanE(e, v) { AstMeansE(e, false, v); }
    forall v, reading | ReadsOperators(v, reading) ensures Eval(AstE(e), v) <==> MeanE(e, v) {
      ReadingSoundE(e, false, v, reading);
      AstMeansE(e, false, v);
    }
  }
}
