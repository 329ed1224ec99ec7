/** The parser on the lexer: from the text of a query to its expression. */
module TextParser {
  import opened Packets
  import opened Expressions
  import opened QueryParser
  import opened Grammar
  import opened QueryLexer

  /** From stream s the lexer delivers toks[p..] and then END for ever. Looking ahead
      before reading changes nothing, except that a fading last token is then lost. */
  ghost predicate Feeds(s: Stream, toks: seq<Token>, fading: bool, p: nat)
    requires p <= |toks|
    decreases |toks| - p
  {
    s.Valid() &&
    match Lex(s)
    case Err(_) => p + 1 == |toks| && toks[p] == Broken
    case Ok(pair) =>
      if pair.0 == End then p == |toks| && pair.1.fail
      else
        && p < |toks| && toks[p] == pair.0 && pair.0 != Broken
        && var back := PutBack(pair.1, TokenLength(pair.0));
        && back.Valid()
        && (if fading && p + 1 == |toks| then back.fail && FadingToken(pair.0) else Lex(back) == Lex(s))
        && Feeds(pair.1, toks, fading, p + 1)
  }

  lemma FailedFeeds(s: Stream, toks: seq<Token>, fading: bool)
    requires s.Valid() && s.fail
    ensures Lex(s) == Ok((End, s)) && Feeds(s, toks, fading, |toks|)
  {
  }

  /** A text feeds the tokens it consists of. */
  lemma {:induction false} TextFeeds(s: Stream, toks: seq<Token>, fading: bool, p: nat)
    requires s.Valid() && EOF_BYTE !in s.text && p <= |toks| && toks[p..] == LexAll(s)
    requires toks[p..] != [] ==> fading == LastFades(s)
    ensures Feeds(s, toks, fading, p)
    decreases !s.fail, |s.text| - s.pos
  {
    if Lex(s).Err? {
      assert toks[p] == toks[p..][0];
    } else if Lex(s).value.0 == End {
      if BadSpot(s) { BadSpotFades(s); }
      EndFails(s);
    } else {
      var (t, s') := Lex(s).value;
      LexAdvances(s);
      assert toks[p] == toks[p..][0] && toks[p + 1..] == toks[p..][1..];
      LexAllStep(s);
      if BadSpot(s) {
        FadeFeeds(s, toks, fading, p);
      } else {
        FadesStep(s);
        TextFeeds(s', toks, fading, p + 1);
        TokenReturns(s);
      }
    }
  }

  /** A token that fades is the last one. */
  lemma FadeFeeds(s: Stream, toks: seq<Token>, fading: bool, p: nat)
    requires s.Valid() && BadSpot(s) && EOF_BYTE !in s.text && fading && p < |toks|
    requires Lex(s).Ok? && toks[p] == Lex(s).value.0 && Lex(s).value.1.Valid() && toks[p + 1..] == LexAll(Lex(s).value.1)
    ensures Feeds(s, toks, fading, p)
  {
    BadSpotFades(s);
    var (t, s') := Lex(s).value;
    FailedFeeds(s', toks, fading);
    assert LexAll(s') == [];
    PutBackFailed(s', TokenLength(t));
    PutBackValid(s', TokenLength(t));
  }

  /** Away from a bad spot the last token is that of what follows, if anything does. */
  lemma FadesStep(s: Stream)
    requires s.Valid() && !BadSpot(s) && Lex(s).Ok? && Lex(s).value.0 != End && Lex(s).value.1.Valid()
    ensures LastFades(s) <==> LastFades(Lex(s).value.1)
    ensures LexAll(Lex(s).value.1) == [] ==> !LastFades(s)
  {
    LexAdvances(s);
  }

  lemma LexAllStep(s: Stream)
    requires s.Valid() && Lex(s).Ok? && Lex(s).value.0 != End
    ensures Lex(s).value.1.Valid() && LexAll(s) == [Lex(s).value.0] + LexAll(Lex(s).value.1)
  {
    LexAdvances(s);
  }

  lemma TokenReturns(s: Stream)
    requires s.Valid() && !BadSpot(s) && Lex(s).Ok? && Lex(s).value.0 != End
    ensures var (t, s') := Lex(s).value;
            t != Broken && Lex(PutBack(s', TokenLength(t))) == Lex(s) && PutBack(s', TokenLength(t)).Valid()
  {
    LexAdvances(s);
    PeekTransparentExactly(s);
    PutBackValid(Lex(s).value.1, TokenLength(Lex(s).value.0));
  }

  lemma EndFails(s: Stream)
    requires s.Valid() && !BadSpot(s) && Lex(s).Ok? && Lex(s).value.0 == End
    ensures Lex(s).value.1.fail
  {
    if s.Good() {
      SkipBlanksGood(s);
      if NonBlank(s.text, s.pos) < |s.text| { TokenTextIsConsumed(s); }
    }
  }

  lemma {:induction false} PutBackValid(s: Stream, n: nat)
    requires s.Valid()
    ensures PutBack(s, n).Valid()
    decreases n
  {
    if n > 0 { PutBackValid(Unget(s), n - 1); }
  }

  lemma EndValid(s: Stream)
    requires s.Valid() && Lex(s).Ok? && Lex(s).value.0 == End
    ensures Lex(s).value.1.Valid()
  {
    if s.Good() { SkipBlanksGood(s); }
  }

  class Parser {
    const lex: Lexer
    /** The tokens of the text, and which streams deliver them from which position. */
    ghost const toks: seq<Token>
    ghost const feeds: (Stream, nat) -> bool
    /** Whether the last token is lost when it is peeked at. */
    ghost const fading: bool

    constructor (text: string, ghost toks: seq<Token>, ghost fading: bool)
      ensures fresh(lex) && lex.stream == Opened(text)
      ensures this.toks == toks && this.fading == fading && Linked()
    {
      lex := new Lexer(text);
      this.toks := toks;
      this.fading := fading;
      feeds := (s: Stream, p: nat) => p <= |toks| && Feeds(s, toks, fading, p);
    }

    ghost predicate Linked() {
      forall s: Stream, p: nat {:trigger Feeds(s, toks, fading, p)} ::
        p <= |toks| ==> (feeds(s, p) <==> Feeds(s, toks, fading, p))
    }

    /** The lexer stands in front of token p. */
    ghost predicate Before(p: nat) reads lex { Linked() && p <= |toks| && feeds(lex.stream, p) }

    ghost predicate Fades(p: nat) { fading && p + 1 == |toks| }

    /** The lexer stands in front of token p and has looked at it. */
    ghost predicate Seen(p: nat) reads lex {
      Before(if Fades(p) then |toks| else p) && (Fades(p) ==> FadingToken(toks[p]))
    }

    /** What a reader gets who has looked at token p. */
    ghost function SeenToken(p: nat): Token { if Fades(p) then End else At(toks, p) }

    method Next(ghost p: nat) returns (t: Result<Token>)
      requires Before(p)
      modifies lex
      ensures t.Ok? ==> t.value == At(toks, p) && t.value != Broken
      ensures t.Ok? ==> Before(if p < |toks| then p + 1 else p)
      ensures t.Err? ==> p < |toks| && toks[p] == Broken
    {
      assert Feeds(lex.stream, toks, fading, p);
      ghost var s := lex.stream;
      t := lex.NextToken();
      if t.Ok? && t.value == End {
        EndValid(s);
        FailedFeeds(lex.stream, toks, fading);
      } else if t.Ok? {
        assert Feeds(lex.stream, toks, fading, p + 1);
      }
    }

    method NextSeen(ghost p: nat) returns (t: Result<Token>)
      requires Seen(p)
      modifies lex
      ensures t.Ok? ==> t.value == SeenToken(p) && t.value != Broken
      ensures t.Ok? && t.value != End ==> Before(p + 1)
      ensures t.Err? ==> p < |toks| && toks[p] == Broken
    {
      t := Next(if Fades(p) then |toks| else p);
    }

    /** peek_token() in front of token p, for the first time. */
    method Peek(ghost p: nat) returns (t: Result<Token>)
      requires Before(p)
      modifies lex
      ensures t.Ok? ==> t.value == At(toks, p) && Seen(p)
      ensures t.Err? ==> p < |toks| && toks[p] == Broken
    {
      assert Feeds(lex.stream, toks, fading, p);
      ghost var s := lex.stream;
      t := lex.PeekToken();
      if t.Ok? && t.value == End {
        EndValid(s);
        FailedFeeds(lex.stream, toks, fading);
      } else if t.Ok? && Fades(p) {
        FailedFeeds(lex.stream, toks, fading);
      } else if t.Ok? {
        assert Feeds(lex.stream, toks, fading, p);
      }
    }

    /** peek_token() again. */
    method PeekSeen(ghost p: nat) returns (t: Result<Token>)
      requires Seen(p)
      modifies lex
      ensures t.Ok? ==> t.value == SeenToken(p) && Seen(p)
      ensures t.Err? ==> p < |toks| && toks[p] == Broken
    {
      t := Peek(if Fades(p) then |toks| else p);
    }

    /** The outcome is that of the token-level parser, and the stream stands behind
        what was parsed; where the lexer throws, the parse fails. */
    ghost predicate Agrees(r: Result<Expr>, spec: Result<(Expr, nat)>)
      reads lex
    {
      && (r.Ok? ==> spec.Ok? && r.value == spec.value.0 && Before(spec.value.1))
      && (r.Err? ==> spec.Err? || Broken in toks)
    }

    /** The same after looking at the token behind what was parsed. */
    ghost predicate AgreesSeen(r: Result<Expr>, spec: Result<(Expr, nat)>)
      reads lex
    {
      && (r.Ok? ==> spec.Ok? && r.value == spec.value.0 && Seen(spec.value.1))
      && (r.Err? ==> spec.Err? || Broken in toks)
    }

    method Exp(ghost p: nat) returns (r: Result<Expr>)
      requires Before(p)
      modifies lex
      ensures AgreesSeen(r, ParseExp(toks, p))
      decreases |toks| - p, 2
    {
      r := Term(p);
      if r.Err? { return; }
      ghost var q := ParseTerm(toks, p).value.1;
      var t := PeekSeen(q);
      if t.Err? { return Err(t.error); }
      if t.value != OrTok { return; }
      var children := [r.value];
      while t.value == OrTok
        invariant t.Ok? && p < q <= |toks| && t.value == SeenToken(q) && Seen(q)
        invariant ParseExp(toks, p) == ExpRest(toks, q, children)
        decreases |toks| - q
      {
        t := NextSeen(q);
        assert t.Ok?;
        var u := Term(q + 1);
        if u.Err? { return u; }
        children := children + [u.value];
        q := ParseTerm(toks, q + 1).value.1;
        t := PeekSeen(q);
        if t.Err? { return Err(t.error); }
      }
      r := Ok(Or(children));
    }

    method Term(ghost p: nat) returns (r: Result<Expr>)
      requires Before(p)
      modifies lex
      ensures AgreesSeen(r, ParseTerm(toks, p))
      decreases |toks| - p, 1
    {
      r := Factor(p);
      if r.Err? { return; }
      ghost var q := ParseFactor(toks, p).value.1;
      var t := Peek(q);
      if t.Err? { return Err(t.error); }
      if t.value != AndTok { return; }
      var children := [r.value];
      while t.value == AndTok
        invariant t.Ok? && p < q <= |toks| && t.value == At(toks, q) && Seen(q)
        invariant ParseTerm(toks, p) == TermRest(toks, q, children)
        decreases |toks| - q
      {
        t := NextSeen(q);
        assert t.Ok?;
        var u := Factor(q + 1);
        if u.Err? { return u; }
        children := children + [u.value];
        q := ParseFactor(toks, q + 1).value.1;
        t := Peek(q);
        if t.Err? { return Err(t.error); }
      }
      r := Ok(And(children));
    }

    method Factor(ghost p: nat) returns (r: Result<Expr>)
      requires Before(p)
      modifies lex
      ensures Agrees(r, ParseFactor(toks, p))
      decreases |toks| - p, 0
    {
      var tok := Next(p);
      if tok.Err? { return Err(tok.error); }
      match tok.value
      case NotTok =>
        var f := Factor(p + 1);
        if f.Err? { return f; }
        r := Negate(f.value);
      case Left =>
        var e := Exp(p + 1);
        if e.Err? { return e; }
        var right := NextSeen(ParseExp(toks, p + 1).value.1);
        if right.Err? { return Err(right.error); }
        if right.value != Right { return Err(MissingRight); }
        r := e;
      case Operand(a) =>
        r := Predicate(p, a);
      case _ =>
        r := Err(UnexpectedToken);
    }

    method Predicate(ghost p: nat, a: string) returns (r: Result<Expr>)
      requires p < |toks| && toks[p] == Operand(a) && Before(p + 1)
      modifies lex
      ensures Agrees(r, ParseFactor(toks, p))
    {
      var op := Next(p + 1);
      if op.Err? { return Err(op.error); }
      if !op.value.Operator? { return Err(MissingOperator); }
      var x := Next(p + 2);
      if x.Err? { return Err(x.error); }
      if !x.value.Operand? { return Err(MissingOperand); }
      r := Ok(Pred(a, op.value.text, x.value.text));
    }

    /** Accepts when the expression ends with the tokens, or with a faded one left over. */
    method ParseAll() returns (r: Result<Expr>)
      requires Before(0) && ValidTokens(toks) && End !in toks && (fading ==> Broken !in toks)
      modifies lex
      ensures r.Ok? ==> ParseExp(toks, 0).Ok? && r.value == ParseExp(toks, 0).value.0
      ensures r.Ok? <==> ParseExp(toks, 0).Ok?
                         && (ParseExp(toks, 0).value.1 == |toks| || Fades(ParseExp(toks, 0).value.1))
    {
      if Broken in toks { BrokenFails(toks); }
      r := Exp(0);
      if r.Err? { return; }
      var t := NextSeen(ParseExp(toks, 0).value.1);
      if t.Err? { return Err(t.error); }
      if t.value != End { return Err(TrailingInput); }
    }
  }

  lemma BrokenFails(toks: seq<Token>)
    requires ValidTokens(toks) && End !in toks && Broken in toks
    ensures Parse(toks).Err?
  {
    AcceptsExactly(toks);
    if Sentence(toks) {
      var e :| ValidE(e) && YieldE(e) == toks;
      NoBrokenE(e);
    }
  }

  /** The tokens of a text. */
  function TokensOfText(text: string): seq<Token> { LexAll(Opened(text)) }

  predicate FadingText(text: string) { LastFades(Opened(text)) }

  /** e is a parse of the text that keeps its negations. A last token that fades may be left over. */
  ghost predicate Denotes(text: string, e: ETree) {
    var toks := TokensOfText(text);
    && ValidE(e)
    && (YieldE(e) == toks || (FadingText(text) && toks != [] && YieldE(e) == toks[..|toks| - 1]))
  }

  /** From text to expression: accepted exactly when it denotes one, and then the result
      is the tree of that sentence, without NOT nodes. */
  method ParseText(text: string) returns (r: Result<Expr>)
    requires EOF_BYTE !in text
    ensures r.Ok? <==> exists e :: Denotes(text, e)
    ensures r.Ok? ==> NoNot(r.value) && NoBareNode(r.value)
    ensures r.Ok? ==> forall e :: Denotes(text, e) ==> r.value == AstE(e) && SameTruth(r.value, e)
  {
    ghost var toks := TokensOfText(text);
    TokensFeed(text);
    var p := new Parser(text, toks, FadingText(text));
    r := p.ParseAll();
    if r.Ok? { ghost var e := Parsed(text); }
    forall e | Denotes(text, e)
      ensures ParseExp(toks, 0) == Ok((AstE(e), |YieldE(e)|)) && |YieldE(e)| <= |toks|
      ensures NoNot(AstE(e)) && NoBareNode(AstE(e)) && SameTruth(AstE(e), e)
    {
      DenotedParses(text, e);
    }
  }

  lemma Parsed(text: string) returns (e: ETree)
    requires ValidTokens(TokensOfText(text)) && ParseExp(TokensOfText(text), 0).Ok?
    requires var toks := TokensOfText(text);
             var q := ParseExp(toks, 0).value.1;
             q == |toks| || (FadingText(text) && q + 1 == |toks|)
    ensures Denotes(text, e)
  {
    var toks := TokensOfText(text);
    e := SoundE(toks, 0);
    assert toks[0..|toks|] == toks && (toks != [] ==> toks[0..|toks| - 1] == toks[..|toks| - 1]);
  }

  lemma DenotedParses(text: string, e: ETree)
    requires EOF_BYTE !in text && Denotes(text, e)
    ensures ParseExp(TokensOfText(text), 0) == Ok((AstE(e), |YieldE(e)|)) && |YieldE(e)| <= |TokensOfText(text)|
    ensures NoNot(AstE(e)) && NoBareNode(AstE(e)) && SameTruth(AstE(e), e)
  {
    var toks := TokensOfText(text);
    var n := |YieldE(e)|;
    assert toks[0..n] == YieldE(e);
    if n < |toks| { LastTokenFades(Opened(text)); }
    CompleteE(toks, 0, e);
    ParsePreservesMeaning(YieldE(e), e);
  }

  lemma {:induction false} LastTokenFades(s: Stream)
    requires s.Valid() && EOF_BYTE !in s.text && LastFades(s)
    ensures LexAll(s) != [] && FadingToken(LexAll(s)[|LexAll(s)| - 1]) && Broken !in LexAll(s)
    decreases !s.fail, |s.text| - s.pos
  {
    LexAdvances(s);
    LexAllStep(s);
    LexNotBroken(s);
    var s' := Lex(s).value.1;
    if BadSpot(s) {
      BadSpotFades(s);
      FailedFeeds(s', [], false);
    } else {
      LastTokenFades(s');
    }
  }

  lemma LexNotBroken(s: Stream)
    requires Lex(s).Ok?
    ensures Lex(s).value.0 != Broken
  {
  }

  ghost predicate SameTruth(x: Expr, e: ETree) {
    && (forall v, reading :: ReadsOperators(v, reading) ==> (Eval(x, v) <==> MeanE(e, v)))
    && (forall v :: SoundFlipsE(e, false, v) ==> (Eval(x, v) <==> MeanE(e, v)))
  }

  lemma TokensFeed(text: string)
    requires EOF_BYTE !in text
    ensures Feeds(Opened(text), TokensOfText(text), FadingText(text), 0)
    ensures ValidTokens(TokensOfText(text)) && End !in TokensOfText(text)
    ensures FadingText(text) ==> Broken !in TokensOfText(text)
  {
    var start := Opened(text);
    assert TokensOfText(text)[0..] == LexAll(start);
    TextFeeds(start, TokensOfText(text), FadingText(text), 0);
    if FadingText(text) { LastTokenFades(start); }
    LexAllValid(start);
  }
}
