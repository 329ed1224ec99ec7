/**
 Queries as characters: which token stands at a place of a text, said without the lexer,
 and the text of a query.
 */
module Spelling {
  import opened Packets
  import opened Expressions
  import opened QueryParser
  import opened Grammar
  import opened QueryLexer
  import TextParser

  // ----- the alphabets, spelled out -----

  /** Letters, digits, '-', '.', '/' and '_'. */
  lemma OperandAlphabet(c: char)
    ensures OperandChar(c) <==>
            var n := c as int; 45 <= n <= 57 || 65 <= n <= 90 || n == 95 || 97 <= n <= 122
  {
  }

  /** Tab, line feed, vertical tab, form feed, carriage return and space. */
  lemma BlankAlphabet(c: char)
    ensures Blank(c) <==> 9 <= c as int <= 13 || c as int == 32
  {
    assert Blank(c) <==> c == ' ' || c == '\t' || c == '\n' || c == '\r' || c == '\U{000B}' || c == '\U{000C}';
  }

  // ----- which token stands at a place -----

  predicate OperandText(x: string) { x != "" && forall i :: 0 <= i < |x| ==> OperandChar(x[i]) }

  predicate BlankAt(text: string, n: nat) { n < |text| && Blank(text[n]) }

  predicate CharAt(text: string, n: nat, c: char) { n < |text| && text[n] == c }

  /** "in" and a blank. */
  predicate InAt(text: string, n: nat) { CharAt(text, n, 'i') && CharAt(text, n + 1, 'n') && BlankAt(text, n + 2) }

  /** What follows token t at n does not belong to it, and the lexer can tell. */
  predicate Delimited(t: Token, text: string, n: nat) {
    match t
    case NotTok =>
      n < |text| && text[n] != '=' && !InAt(text, n) && !(text[n] == 'i' && n + 1 == |text|)
    case Operator(op) =>
      && (op == "<" || op == ">" ==> n < |text| && text[n] != '=')
      && (op == "in" || op == "!in" ==> BlankAt(text, n))
    case Operand(x) =>
      && (n < |text| ==> !OperandChar(text[n]))
      && (x == "in" ==> !BlankAt(text, n)) && (x == "i" ==> n < |text|)
    case _ => true
  }

  predicate Proper(t: Token) {
    match t
    case Operator(op) => ValidOp(op)
    case Operand(x) => OperandText(x)
    case End => false
    case Broken => false
    case _ => true
  }

  /** The characters of token t stand at q, and nothing that follows joins them. */
  predicate Spells(t: Token, text: string, q: nat) {
    && Proper(t) && q + |TextOf(t)| <= |text| && text[q..q + |TextOf(t)|] == TextOf(t)
    && Delimited(t, text, q + |TextOf(t)|)
  }

  predicate HealthyAt(s: Stream, q: nat) { s.Valid() && s.Good() && q == NonBlank(s.text, s.pos) && q < |s.text| }

  // ----- a spelled token is read -----

  lemma TakesNone(s: Stream)
    requires s.Valid() && s.Good() && (s.pos < |s.text| ==> !OperandChar(s.text[s.pos]))
    ensures TakeOperand(s) == ("", s.(eof := s.pos == |s.text|))
  {
  }

  lemma {:induction false} TakesAll(text: string, p: nat, n: nat)
    requires p <= n <= |text| && (forall i :: p <= i < n ==> OperandChar(text[i])) && (n < |text| ==> !OperandChar(text[n]))
    ensures TakeOperand(Stream(text, p, false, false)) == (text[p..n], Stream(text, n, n == |text|, false))
    decreases n - p
  {
    if p < n {
      TakesAll(text, p + 1, n);
      assert Get(Stream(text, p, false, false)).1 == Stream(text, p + 1, false, false);
      assert text[p..n] == [text[p]] + text[p + 1..n];
    } else {
      assert text[p..n] == "";
      TakesNone(Stream(text, p, false, false));
    }
  }

  /** The operand characters from q go to n. */
  predicate OperandSpan(text: string, q: nat, n: nat) {
    && q < n <= |text| && (forall i :: q <= i < n ==> OperandChar(text[i])) && (n < |text| ==> !OperandChar(text[n]))
    && (text[q] == 'i' ==> q + 1 < |text|)
  }

  lemma OtherOperandRead(s: Stream, q: nat, n: nat)
    requires HealthyAt(s, q) && OperandSpan(s.text, q, n) && s.text[q] != 'i'
    ensures Lex(s).Ok? && Lex(s).value.0 == Operand(s.text[q..n])
  {
    SkipBlanksGood(s);
    TakesAll(s.text, q, n);
    assert Unget(Stream(s.text, q + 1, false, false)) == Stream(s.text, q, false, false);
  }

  lemma InRead(s: Stream, q: nat)
    requires HealthyAt(s, q) && InAt(s.text, q)
    ensures Lex(s).Ok? && Lex(s).value.0 == Operator("in")
  {
    SkipBlanksGood(s);
    TryInGood(Stream(s.text, q + 1, false, false));
  }

  lemma IOperandRead(s: Stream, q: nat, n: nat)
    requires HealthyAt(s, q) && OperandSpan(s.text, q, n) && s.text[q] == 'i' && !InAt(s.text, q)
    ensures Lex(s).Ok? && Lex(s).value.0 == Operand(s.text[q..n])
  {
    SkipBlanksGood(s);
    var start, next := Stream(s.text, q, false, false), Stream(s.text, q + 1, false, false);
    assert TryIn(next) == (false, next) by { TryInGood(next); }
    assert TakeOperand(start).0 == s.text[q..n] by { TakesAll(s.text, q, n); }
    assert Unget(next) == start;
    assert Get(SkipBlanks(s)) == (Some('i'), next);
  }

  /** From an operand character the lexer reads "in" where "in" and a blank stand, and elsewhere an operand. */
  lemma OperandRead(s: Stream, q: nat, n: nat)
    requires HealthyAt(s, q) && OperandSpan(s.text, q, n)
    ensures Lex(s).Ok?
    ensures Lex(s).value.0 == if InAt(s.text, q) then Operator("in") else Operand(s.text[q..n])
  {
    if InAt(s.text, q) { InRead(s, q); }
    else if s.text[q] == 'i' { IOperandRead(s, q, n); }
    else { OtherOperandRead(s, q, n); }
  }

  lemma OperandLexed(s: Stream, q: nat, x: string)
    requires HealthyAt(s, q) && Spells(Operand(x), s.text, q)
    ensures Lex(s).Ok? && Lex(s).value.0 == Operand(x)
  {
    var n := q + |x|;
    forall i | q <= i < n ensures OperandChar(s.text[i]) { assert s.text[i] == x[i - q]; }
    assert s.text[q] == 'i' && |x| == 1 ==> x == "i";
    NotIn(s.text, q, x);
    OperandRead(s, q, n);
  }

  /** An operand that starts with "in" and a blank would be the operand "in". */
  lemma NotIn(text: string, q: nat, x: string)
    requires Spells(Operand(x), text, q)
    ensures !InAt(text, q)
  {
    assert x == text[q..q + |x|];
    if |x| == 1 {
      assert !CharAt(text, q + 1, 'n');
    } else if |x| == 2 {
      assert x[0] == text[q] && x[1] == text[q + 1];
      assert CharAt(text, q, 'i') && CharAt(text, q + 1, 'n') ==> x == "in";
    } else {
      assert x[2] == text[q + 2];
      BlankAlphabet(x[2]);
    }
  }

  lemma BracketLexed(s: Stream, q: nat, t: Token)
    requires HealthyAt(s, q) && Spells(t, s.text, q) && (t == Left || t == Right)
    ensures Lex(s).Ok? && Lex(s).value.0 == t
  {
    SkipBlanksGood(s);
    assert s.text[q] == TextOf(t)[0];
  }

  lemma OrderLexed(s: Stream, q: nat, op: string)
    requires HealthyAt(s, q) && Spells(Operator(op), s.text, q) && (op == "<" || op == ">")
    ensures Lex(s).Ok? && Lex(s).value.0 == Operator(op)
  {
    SkipBlanksGood(s);
    assert s.text[q] == op[0];
  }

  /** The symbols of two characters. */
  lemma PairLexed(s: Stream, q: nat, t: Token)
    requires HealthyAt(s, q) && Spells(t, s.text, q) && |TextOf(t)| == 2 && !t.Operand? && t != Operator("in")
    ensures Lex(s).Ok? && Lex(s).value.0 == t
  {
    SkipBlanksGood(s);
    assert s.text[q] == TextOf(t)[0] && s.text[q + 1] == TextOf(t)[1];
    assert Get(SkipBlanks(s)) == (Some(s.text[q]), Stream(s.text, q + 1, false, false));
  }

  lemma NotLexed(s: Stream, q: nat)
    requires HealthyAt(s, q) && Spells(NotTok, s.text, q)
    ensures Lex(s).Ok? && Lex(s).value.0 == NotTok
  {
    SkipBlanksGood(s);
    assert s.text[q] == TextOf(NotTok)[0];
    if s.text[q + 1] == 'i' { TryInGood(Stream(s.text, q + 2, false, false)); }
  }

  lemma InLexed(s: Stream, q: nat)
    requires HealthyAt(s, q) && Spells(Operator("in"), s.text, q)
    ensures Lex(s).Ok? && Lex(s).value.0 == Operator("in")
  {
    var w := s.text[q..q + 2];
    assert w == "in";
    assert s.text[q] == w[0] && s.text[q + 1] == w[1];
    InRead(s, q);
  }

  lemma NotInLexed(s: Stream, q: nat)
    requires HealthyAt(s, q) && Spells(Operator("!in"), s.text, q)
    ensures Lex(s).Ok? && Lex(s).value.0 == Operator("!in")
  {
    SkipBlanksGood(s);
    var w := s.text[q..q + 3];
    assert w == "!in";
    assert s.text[q] == w[0] && s.text[q + 1] == w[1] && s.text[q + 2] == w[2];
    TryInGood(Stream(s.text, q + 2, false, false));
  }

  lemma SpelledLexed(s: Stream, q: nat, t: Token)
    requires HealthyAt(s, q) && Spells(t, s.text, q)
    ensures Lex(s).Ok? && Lex(s).value.0 == t
  {
    match t
    case Operand(x) => OperandLexed(s, q, x);
    case NotTok => NotLexed(s, q);
    case Operator(op) =>
      if op == "in" { InLexed(s, q); }
      else if op == "!in" { NotInLexed(s, q); }
      else if op == "<" || op == ">" { OrderLexed(s, q, op); }
      else { PairLexed(s, q, t); }
    case OrTok => PairLexed(s, q, t);
    case AndTok => PairLexed(s, q, t);
    case _ => BracketLexed(s, q, t);
  }

  // ----- and nothing else is read -----

  /** Away from the bad spots the token read is the one that is spelled there. */
  lemma LexedSpells(s: Stream, q: nat)
    requires HealthyAt(s, q) && !BadSpot(s) && Lex(s).Ok?
    ensures Spells(Lex(s).value.0, s.text, q)
  {
    TokenTextIsConsumed(s);
    SkipBlanksGood(s);
    var rest := s.text[q..];
    assert rest[0] == s.text[q];
    if q + 1 == |s.text| { assert rest == [s.text[q]]; }
    if q + 2 == |s.text| { assert rest == [s.text[q], s.text[q + 1]]; }
    if OperandChar(s.text[q]) {
      OperandSpells(s, q);
    } else if s.text[q] == '!' {
      NotSpells(s, q);
    } else {
      SymbolSpells(s, q);
    }
  }

  lemma SymbolSpells(s: Stream, q: nat)
    requires HealthyAt(s, q) && Lex(s).Ok? && Consumed(Lex(s).value.0, Lex(s).value.1, s.text, q)
    requires s.text[q] != '!' && !OperandChar(s.text[q])
    requires s.text[q] == '<' || s.text[q] == '>' ==> q + 1 < |s.text|
    ensures Spells(Lex(s).value.0, s.text, q)
  {
    SkipBlanksGood(s);
  }

  lemma NotSpells(s: Stream, q: nat)
    requires HealthyAt(s, q) && Lex(s).Ok? && Consumed(Lex(s).value.0, Lex(s).value.1, s.text, q)
    requires s.text[q] == '!' && q + 1 < |s.text| && (s.text[q + 1] == 'i' ==> q + 2 < |s.text|)
    ensures Spells(Lex(s).value.0, s.text, q)
  {
    SkipBlanksGood(s);
    if s.text[q + 1] == 'i' { TryInGood(Stream(s.text, q + 2, false, false)); }
  }

  lemma OperandSpells(s: Stream, q: nat)
    requires HealthyAt(s, q) && OperandChar(s.text[q]) && (s.text[q] == 'i' ==> q + 1 < |s.text|)
    ensures Lex(s).Ok? && Spells(Lex(s).value.0, s.text, q)
  {
    var n := TakenTo(s.text, q);
    OperandRead(s, q, n);
    if InAt(s.text, q) {
      assert s.text[q..q + 2] == "in";
    } else {
      OperandStands(s.text, q, n);
    }
  }

  lemma OperandStands(text: string, q: nat, n: nat)
    requires OperandSpan(text, q, n) && !InAt(text, q)
    ensures Spells(Operand(text[q..n]), text, q)
  {
    var x := text[q..n];
    assert x[0] == text[q];
    assert forall i :: 0 <= i < |x| ==> x[i] == text[q + i];
    if |x| == 2 { assert x == "in" ==> text[q] == 'i' && text[q + 1] == 'n'; }
  }

  lemma {:induction false} TakenTo(text: string, p: nat) returns (n: nat)
    requires p <= |text|
    ensures p <= n <= |text| && (forall i :: p <= i < n ==> OperandChar(text[i])) && (n < |text| ==> !OperandChar(text[n]))
    ensures p < |text| && OperandChar(text[p]) ==> p < n
    decreases |text| - p
  {
    if p < |text| && OperandChar(text[p]) { n := TakenTo(text, p + 1); } else { n := p; }
  }

  /** At most one token is spelled at a place, and it is the one the lexer reads. */
  lemma LexExactly(s: Stream, q: nat, t: Token)
    requires HealthyAt(s, q) && !BadSpot(s)
    ensures Spells(t, s.text, q) <==> Lex(s).Ok? && Lex(s).value.0 == t
  {
    if Spells(t, s.text, q) { SpelledLexed(s, q, t); }
    if Lex(s).Ok? { LexedSpells(s, q); }
  }

  // ----- whole texts -----

  /** Where a token that stands at q ends, if one does. */
  type Standing = (Token, string, nat) -> Option<nat>

  ghost function Stands(): Standing {
    (t: Token, text: string, q: nat) => if Spells(t, text, q) then Some(q + |TextOf(t)|) else None
  }

  ghost predicate IsSpells(stands: Standing) {
    forall t, text, q: nat {:trigger Spells(t, text, q)} ::
      stands(t, text, q) == if Spells(t, text, q) then Some(q + |TextOf(t)|) else None
  }

  ghost predicate ConsistsOf(stands: Standing, text: string, p: nat, toks: seq<Token>)
    requires p <= |text|
    decreases |toks|
  {
    var q := NonBlank(text, p);
    if toks == [] then q == |text|
    else
      var n := stands(toks[0], text, q);
      n.Some? && q < n.value <= |text| && ConsistsOf(stands, text, n.value, toks[1..])
  }

  /** From p on the text consists of the given tokens, with blanks where one likes. */
  ghost predicate SpelledFrom(text: string, p: nat, toks: seq<Token>)
    requires p <= |text|
  { ConsistsOf(Stands(), text, p, toks) }

  /** No token is spelled at a bad spot. */
  lemma SpelledNotBad(s: Stream, q: nat, t: Token)
    requires HealthyAt(s, q) && Spells(t, s.text, q)
    ensures !BadSpot(s)
  {
    var rest := s.text[q..];
    assert rest[0] == s.text[q] == TextOf(t)[0];
    if |rest| == 2 { assert rest[1] == s.text[q + 1]; }
    match t
    case Operand(x) =>
      if |rest| == 1 { assert x == rest; }
    case Operator(op) =>
      if |rest| == 2 && |op| == 2 { assert op == rest; }
    case _ =>
  }

  /** What the lexer makes of a stream: its tokens, and whether the last one fades. */
  type Tokens = Stream -> (seq<Token>, bool)

  ghost function Lexed(): Tokens { (s: Stream) => if s.Valid() then (LexAll(s), LastFades(s)) else ([], false) }

  ghost predicate IsLexed(all: Tokens) {
    forall s: Stream {:trigger LexAll(s)} {:trigger LastFades(s)} :: s.Valid() ==> all(s) == (LexAll(s), LastFades(s))
  }

  /** s' is s behind token t, which ends at n. */
  ghost predicate Behind(all: Tokens, s: Stream, t: Token, n: nat, s': Stream) {
    && Resting(s') && s'.text == s.text && s'.pos == n && all(s) == ([t] + all(s').0, all(s').1)
  }

  predicate Resting(s: Stream) { s.Valid() && !s.fail && (s.eof ==> s.pos == |s.text|) }

  lemma TokenBehind(all: Tokens, s: Stream, q: nat)
    requires IsLexed(all) && HealthyAt(s, q) && !BadSpot(s) && Lex(s).Ok? && Lex(s).value.0 != End
    ensures Behind(all, s, Lex(s).value.0, q + |TextOf(Lex(s).value.0)|, Lex(s).value.1)
  {
    TokenTextIsConsumed(s);
    LexAdvances(s);
    TextParser.LexAllStep(s);
    TextParser.FadesStep(s);
  }

  lemma ReadSpelled(all: Tokens, stands: Standing, s: Stream, q: nat, t: Token) returns (s': Stream)
    requires IsLexed(all) && IsSpells(stands) && HealthyAt(s, q) && stands(t, s.text, q).Some?
    ensures Behind(all, s, t, stands(t, s.text, q).value, s')
  {
    assert Spells(t, s.text, q);
    SpelledLexed(s, q, t);
    SpelledNotBad(s, q, t);
    TokenBehind(all, s, q);
    s' := Lex(s).value.1;
  }

  lemma NoneLeft(all: Tokens, s: Stream)
    requires IsLexed(all) && s.Valid() && (!s.Good() || NonBlank(s.text, s.pos) == |s.text|)
    ensures all(s) == ([], false)
  {
    NothingLeft(s);
    assert LexAll(s) == [];
  }

  /** The lexer finds the tokens that a text consists of, and none of them fades. */
  lemma {:induction false} SpelledTokens(all: Tokens, stands: Standing, s: Stream, toks: seq<Token>)
    requires IsLexed(all) && IsSpells(stands) && Resting(s) && ConsistsOf(stands, s.text, s.pos, toks)
    ensures all(s) == (toks, false)
    decreases |toks|
  {
    if toks == [] {
      NoneLeft(all, s);
    } else {
      var s' := ReadSpelled(all, stands, s, NonBlank(s.text, s.pos), toks[0]);
      SpelledTokens(all, stands, s', toks[1..]);
      assert [toks[0]] + toks[1..] == toks;
    }
  }

  lemma ReadToken(all: Tokens, stands: Standing, s: Stream, q: nat) returns (t: Token, s': Stream)
    requires IsLexed(all) && IsSpells(stands) && HealthyAt(s, q)
    requires EOF_BYTE !in s.text && Broken !in all(s).0 && !all(s).1
    ensures stands(t, s.text, q).Some? && q < stands(t, s.text, q).value <= |s.text|
    ensures Behind(all, s, t, stands(t, s.text, q).value, s')
  {
    assert all(s) == (LexAll(s), LastFades(s));
    TokenThere(s, q);
    LexedSpells(s, q);
    TokenTextIsConsumed(s);
    TokenBehind(all, s, q);
    t, s' := Lex(s).value.0, Lex(s).value.1;
    assert Spells(t, s.text, q);
  }

  /** And a text in which it finds tokens without throwing or fading consists of them. */
  lemma {:induction false} TokensSpelled(all: Tokens, stands: Standing, s: Stream, toks: seq<Token>)
    requires IsLexed(all) && IsSpells(stands) && Resting(s)
    requires EOF_BYTE !in s.text && all(s) == (toks, false) && Broken !in toks
    ensures ConsistsOf(stands, s.text, s.pos, toks)
    decreases |toks|
  {
    var q := NonBlank(s.text, s.pos);
    if q < |s.text| {
      var t, s' := ReadToken(all, stands, s, q);
      assert toks[1..] == all(s').0;
      TokensSpelled(all, stands, s', toks[1..]);
    } else {
      NoneLeft(all, s);
    }
  }

  lemma TokenThere(s: Stream, q: nat)
    requires HealthyAt(s, q) && EOF_BYTE !in s.text && Broken !in LexAll(s) && !LastFades(s)
    ensures Lex(s).Ok? && Lex(s).value.0 != End && !BadSpot(s)
  {
    if BadSpot(s) { BadSpotFades(s); } else if Lex(s).Ok? { TokenTextIsConsumed(s); }
  }

  /** So a text without a fading token denotes a tree exactly when it consists of the tree's tokens. */
  lemma DenotesExactly(text: string, e: ETree)
    requires EOF_BYTE !in text && !TextParser.FadingText(text)
    ensures TextParser.Denotes(text, e) <==> ValidE(e) && SpelledFrom(text, 0, YieldE(e))
  {
    NoBrokenE(e);
    LexedNow(text);
    TokensExactly(Lexed(), Stands(), Opened(text), TextParser.TokensOfText(text), YieldE(e));
  }

  lemma TokensExactly(all: Tokens, stands: Standing, s: Stream, toks: seq<Token>, want: seq<Token>)
    requires IsLexed(all) && IsSpells(stands) && Resting(s) && EOF_BYTE !in s.text && all(s) == (toks, false)
    requires Broken !in want
    ensures ConsistsOf(stands, s.text, s.pos, want) <==> toks == want
  {
    if ConsistsOf(stands, s.text, s.pos, want) { SpelledTokens(all, stands, s, want); }
    if toks == want { TokensSpelled(all, stands, s, want); }
  }

  lemma LexedNow(text: string)
    ensures Lexed()(Opened(text)) == (TextParser.TokensOfText(text), TextParser.FadingText(text))
  {
  }

  // ----- texts whose last token fades -----

  /** The texts that make the lexer read past the end. */
  predicate FadingRest(rest: string) { rest == "i" || rest == "<" || rest == ">" || rest == "!" || rest == "!i" }

  /** What it reads there; of a lone i nothing is left. */
  function Faded(rest: string): Token {
    if rest == "i" then Operand("") else if rest == "<" || rest == ">" then Operator(rest) else NotTok
  }

  ghost predicate FadesAfter(stands: Standing, text: string, p: nat, toks: seq<Token>, rest: string)
    requires p <= |text|
    decreases |toks|
  {
    var q := NonBlank(text, p);
    if toks == [] then text[q..] == rest && FadingRest(rest)
    else
      var n := stands(toks[0], text, q);
      n.Some? && q < n.value <= |text| && FadesAfter(stands, text, n.value, toks[1..], rest)
  }

  lemma FadedRead(s: Stream, q: nat, rest: string)
    requires HealthyAt(s, q) && s.text[q..] == rest && FadingRest(rest)
    ensures BadSpot(s) && Lex(s).Ok? && Lex(s).value.0 == Faded(rest) && Lex(s).value.1.fail
  {
    SkipBlanksGood(s);
    assert rest[0] == s.text[q];
    if |rest| == 2 { assert rest[1] == s.text[q + 1]; }
    assert Get(SkipBlanks(s)) == (Some(rest[0]), Stream(s.text, q + 1, false, false));
  }

  lemma FadedLast(all: Tokens, s: Stream, q: nat, rest: string)
    requires IsLexed(all) && HealthyAt(s, q) && s.text[q..] == rest && FadingRest(rest)
    ensures all(s) == ([Faded(rest)], true)
  {
    FadedRead(s, q, rest);
    BadSpotAdvances(s);
    TextParser.LexAllStep(s);
    NothingLeft(Lex(s).value.1);
    assert [Faded(rest)] + LexAll(Lex(s).value.1) == [Faded(rest)];
    assert LastFades(s) && all(s) == (LexAll(s), LastFades(s));
  }

  lemma {:induction false} FadingTokens(all: Tokens, stands: Standing, s: Stream, toks: seq<Token>, rest: string)
    requires IsLexed(all) && IsSpells(stands) && Resting(s) && FadesAfter(stands, s.text, s.pos, toks, rest)
    ensures all(s) == (toks + [Faded(rest)], true)
    decreases |toks|
  {
    var q := NonBlank(s.text, s.pos);
    if toks == [] {
      FadedLast(all, s, q, rest);
      assert toks + [Faded(rest)] == [Faded(rest)];
    } else {
      var s' := ReadSpelled(all, stands, s, q, toks[0]);
      FadingTokens(all, stands, s', toks[1..], rest);
      assert [toks[0]] + (toks[1..] + [Faded(rest)]) == toks + [Faded(rest)];
    }
  }

  lemma BeforeFaded(all: Tokens, stands: Standing, s: Stream, q: nat) returns (t: Token, s': Stream)
    requires IsLexed(all) && IsSpells(stands) && HealthyAt(s, q) && all(s).1 && !BadSpot(s)
    ensures stands(t, s.text, q).Some? && q < stands(t, s.text, q).value <= |s.text|
    ensures Behind(all, s, t, stands(t, s.text, q).value, s')
  {
    assert all(s) == (LexAll(s), LastFades(s));
    assert LastFades(s);
    LexedSpells(s, q);
    TokenTextIsConsumed(s);
    TokenBehind(all, s, q);
    t, s' := Lex(s).value.0, Lex(s).value.1;
    assert Spells(t, s.text, q);
  }

  lemma {:induction false} TokensFade(all: Tokens, stands: Standing, s: Stream) returns (toks: seq<Token>, rest: string)
    requires IsLexed(all) && IsSpells(stands) && Resting(s) && EOF_BYTE !in s.text && all(s).1
    ensures FadesAfter(stands, s.text, s.pos, toks, rest)
    decreases |s.text| - s.pos
  {
    var q := NonBlank(s.text, s.pos);
    if !s.Good() || q == |s.text| { NoneLeft(all, s); }
    if BadSpot(s) {
      toks, rest := [], s.text[q..];
      assert rest[0] == s.text[q];
    } else {
      var t, s' := BeforeFaded(all, stands, s, q);
      var more;
      more, rest := TokensFade(all, stands, s');
      toks := [t] + more;
      assert toks[1..] == more;
    }
  }

  ghost predicate FadesIn(stands: Standing, s: Stream, toks: seq<Token>, rest: string)
    requires s.Valid()
  { FadesAfter(stands, s.text, s.pos, toks, rest) }

  /** The text consists of the given tokens and a rest whose token fades. */
  ghost predicate FadingSpelled(text: string, toks: seq<Token>, rest: string) { FadesIn(Stands(), Opened(text), toks, rest) }

  lemma FadesIf(all: Tokens, stands: Standing, s: Stream)
    requires IsLexed(all) && IsSpells(stands) && Resting(s) && EOF_BYTE !in s.text
    ensures all(s).1 <==> exists toks, rest :: FadesIn(stands, s, toks, rest)
  {
    if all(s).1 {
      var toks, rest := TokensFade(all, stands, s);
      assert FadesIn(stands, s, toks, rest);
    }
    if toks, rest :| FadesIn(stands, s, toks, rest) { FadingTokens(all, stands, s, toks, rest); }
  }

  /** The texts with a fading token are those. */
  lemma FadingExactly(text: string)
    requires EOF_BYTE !in text
    ensures TextParser.FadingText(text) <==> exists toks, rest :: FadingSpelled(text, toks, rest)
  {
    LexedNow(text);
    FadesIf(Lexed(), Stands(), Opened(text));
    forall toks, rest ensures FadingSpelled(text, toks, rest) <==> FadesIn(Stands(), Opened(text), toks, rest) {}
  }

  /** Such a text denotes a tree exactly when it consists of the tree's tokens, the fading one
      being the last of them or one too many. */
  lemma FadingDenotesExactly(text: string, e: ETree, toks: seq<Token>, rest: string)
    requires FadingSpelled(text, toks, rest)
    ensures TextParser.Denotes(text, e) <==> ValidE(e) && (YieldE(e) == toks + [Faded(rest)] || YieldE(e) == toks)
  {
    FadingTextIs(text, toks, rest);
    assert (toks + [Faded(rest)])[..|toks|] == toks;
  }

  lemma FadingTextIs(text: string, toks: seq<Token>, rest: string)
    requires FadingSpelled(text, toks, rest)
    ensures TextParser.TokensOfText(text) == toks + [Faded(rest)] && TextParser.FadingText(text)
  {
    LexedNow(text);
    FadingTokens(Lexed(), Stands(), Opened(text), toks, rest);
  }

  // ----- printing -----

  function Word(t: Token): string { TextOf(t) + " " }

  /** The words of a sequence of tokens, for any choice of words. */
  function SpellBy(word: Token -> string, toks: seq<Token>): string {
    if toks == [] then "" else word(toks[0]) + SpellBy(word, toks[1..])
  }

  function Words(): Token -> string { (t: Token) => Word(t) }

  ghost predicate IsWord(word: Token -> string) { forall t {:trigger Word(t)} :: word(t) == Word(t) }

  function Spell(toks: seq<Token>): string { SpellBy(Words(), toks) }

  lemma Regroup(a: string, b: string, c: string)
    ensures a + b + c == a + (b + c)
  {
  }

  lemma {:induction false} SpellConcat(word: Token -> string, a: seq<Token>, b: seq<Token>)
    ensures SpellBy(word, a + b) == SpellBy(word, a) + SpellBy(word, b)
  {
    if a == [] {
      assert a + b == b;
    } else {
      SpellConcat(word, a[1..], b);
      assert (a + b)[1..] == a[1..] + b && (a + b)[0] == a[0];
      Regroup(word(a[0]), SpellBy(word, a[1..]), SpellBy(word, b));
    }
  }

  lemma SpellAround(a: seq<Token>, t: Token, b: seq<Token>)
    ensures Spell(a + [t] + b) == Spell(a) + Word(t) + Spell(b)
  {
    SpellConcat(Words(), a, [t]);
    SpellConcat(Words(), a + [t], b);
    assert SpellBy(Words(), [t]) == Words()(t) + "";
  }

  /** A token that a blank ends. */
  predicate Plain(t: Token) { Proper(t) && t != Operand("in") }

  lemma BlankDelimits(t: Token, text: string, n: nat)
    requires Plain(t) && CharAt(text, n, ' ')
    ensures Delimited(t, text, n)
  {
  }

  lemma PlainStarts(t: Token)
    requires Plain(t)
    ensures TextOf(t) != "" && !Blank(TextOf(t)[0])
  {
    BlankAlphabet(TextOf(t)[0]);
  }

  lemma PlainStands(stands: Standing, word: Token -> string, pre: string, t: Token, post: string)
    requires IsSpells(stands) && IsWord(word) && Plain(t)
    ensures var text := pre + (word(t) + post);
            var n := |pre| + |word(t)| - 1;
            && NonBlank(text, |pre|) == |pre| < n < |text| && text[n] == ' ' && stands(t, text, |pre|) == Some(n)
  {
    assert word(t) == Word(t);
    var text, x := pre + (Word(t) + post), TextOf(t);
    PlainStarts(t);
    WordStands(pre, x, post);
    BlankDelimits(t, text, |pre| + |x|);
    assert Spells(t, text, |pre|);
  }

  lemma WordStands(pre: string, x: string, post: string)
    requires x != ""
    ensures var text := pre + (x + " " + post);
            var n := |pre| + |x|;
            n < |text| && text[|pre|..n] == x && text[n] == ' ' && text[|pre|] == x[0]
  {
  }

  lemma {:induction false} SpellSpelled(stands: Standing, word: Token -> string, pre: string, toks: seq<Token>)
    requires IsSpells(stands) && IsWord(word) && AllPlain(toks)
    ensures ConsistsOf(stands, pre + SpellBy(word, toks), |pre|, toks)
    decreases |toks|
  {
    if toks != [] {
      var w, rest := word(toks[0]), SpellBy(word, toks[1..]);
      SpellSpelled(stands, word, pre + w, toks[1..]);
      PlainStands(stands, word, pre, toks[0], rest);
      Regroup(pre, w, rest);
      OneMoreWord(stands, pre + (w + rest), |pre|, |pre + w| - 1, toks);
    }
  }

  lemma OneMoreWord(stands: Standing, text: string, p: nat, n: nat, toks: seq<Token>)
    requires p < n < |text| && toks != [] && NonBlank(text, p) == p && stands(toks[0], text, p) == Some(n)
    requires text[n] == ' ' && ConsistsOf(stands, text, n + 1, toks[1..])
    ensures ConsistsOf(stands, text, p, toks)
  {
    SkipOne(stands, text, n, toks[1..]);
  }

  lemma SkipOne(stands: Standing, text: string, p: nat, toks: seq<Token>)
    requires p < |text| && text[p] == ' ' && ConsistsOf(stands, text, p + 1, toks)
    ensures ConsistsOf(stands, text, p, toks)
  {
    assert NonBlank(text, p) == NonBlank(text, p + 1);
  }

  function PrintE(e: ETree): string {
    match e
    case LastT(t) => PrintT(t)
    case OrT(t, more) => PrintT(t) + "|| " + PrintE(more)
  }

  function PrintT(t: TTree): string {
    match t
    case LastF(f) => PrintF(f)
    case AndF(f, rest) => PrintF(f) + "&& " + PrintT(rest)
  }

  function PrintF(f: FTree): string {
    match f
    case PredF(a, op, x) => a + " " + op + " " + x + " "
    case NotF(g) => "! " + PrintF(g)
    case ParenF(e) => "( " + PrintE(e) + ") "
  }

  predicate Name(x: string) { OperandText(x) && x != "in" }

  predicate NamedE(e: ETree) { match e case LastT(t) => NamedT(t) case OrT(t, more) => NamedT(t) && NamedE(more) }
  predicate NamedT(t: TTree) { match t case LastF(f) => NamedF(f) case AndF(f, rest) => NamedF(f) && NamedT(rest) }
  predicate NamedF(f: FTree) {
    match f
    case PredF(a, op, x) => Name(a) && Name(x)
    case NotF(g) => NamedF(g)
    case ParenF(e) => NamedE(e)
  }

  predicate AllPlain(toks: seq<Token>) { forall i :: 0 <= i < |toks| ==> Plain(toks[i]) }

  lemma {:induction false} PrintIsSpellE(e: ETree)
    requires ValidE(e) && NamedE(e)
    ensures PrintE(e) == Spell(YieldE(e)) && AllPlain(YieldE(e))
  {
    match e
    case LastT(t) => PrintIsSpellT(t);
    case OrT(t, more) =>
      PrintIsSpellT(t);
      PrintIsSpellE(more);
      assert Word(OrTok) == "|| ";
      SpellAround(YieldT(t), OrTok, YieldE(more));
  }

  lemma {:induction false} PrintIsSpellT(t: TTree)
    requires ValidT(t) && NamedT(t)
    ensures PrintT(t) == Spell(YieldT(t)) && AllPlain(YieldT(t))
  {
    match t
    case LastF(f) => PrintIsSpellF(f);
    case AndF(f, rest) =>
      PrintIsSpellF(f);
      PrintIsSpellT(rest);
      assert Word(AndTok) == "&& ";
      SpellAround(YieldF(f), AndTok, YieldT(rest));
  }

  lemma {:induction false} PrintIsSpellF(f: FTree)
    requires ValidF(f) && NamedF(f)
    ensures PrintF(f) == Spell(YieldF(f)) && AllPlain(YieldF(f))
  {
    match f
    case PredF(a, op, x) => PredicateSpells(a, op, x);
    case NotF(g) =>
      PrintIsSpellF(g);
      assert Word(NotTok) == "! ";
      SpellAround([], NotTok, YieldF(g));
      assert [] + [NotTok] + YieldF(g) == YieldF(f);
    case ParenF(e) =>
      PrintIsSpellE(e);
      assert Word(Left) == "( " && Word(Right) == ") ";
      SpellAround([], Left, YieldE(e));
      assert [] + [Left] + YieldE(e) == [Left] + YieldE(e);
      SpellAround([Left] + YieldE(e), Right, []);
      assert [Left] + YieldE(e) + [Right] + [] == YieldF(f);
  }

  lemma PredicateSpells(a: string, op: string, x: string)
    ensures Spell([Operand(a), Operator(op), Operand(x)]) == a + " " + op + " " + x + " "
  {
    SpellAround([Operand(a)], Operator(op), [Operand(x)]);
    SpellAround([], Operand(a), []);
    SpellAround([], Operand(x), []);
    assert [Operand(a)] + [Operator(op)] + [Operand(x)] == [Operand(a), Operator(op), Operand(x)];
    assert [] + [Operand(a)] + [] == [Operand(a)] && [] + [Operand(x)] + [] == [Operand(x)];
  }

  lemma {:induction false} PrintHasNoEof(toks: seq<Token>)
    requires AllPlain(toks)
    ensures EOF_BYTE !in Spell(toks)
  {
    if toks != [] {
      PrintHasNoEof(toks[1..]);
      assert EOF_BYTE !in TextOf(toks[0]);
      assert Spell(toks) == Word(toks[0]) + Spell(toks[1..]);
    }
  }

  /** The text of a query denotes the query. */
  lemma PrintDenotes(e: ETree)
    requires ValidE(e) && NamedE(e)
    ensures EOF_BYTE !in PrintE(e) && !TextParser.FadingText(PrintE(e)) && TextParser.Denotes(PrintE(e), e)
  {
    PrintIsSpellE(e);
    PrintHasNoEof(YieldE(e));
    SpellSpelled(Stands(), Words(), "", YieldE(e));
    assert "" + Spell(YieldE(e)) == PrintE(e);
    SpelledTokens(Lexed(), Stands(), Opened(PrintE(e)), YieldE(e));
  }

  /** And parsing it gives the query's expression. */
  method ParsePrinted(e: ETree) returns (r: Result<Expr>)
    requires ValidE(e) && NamedE(e)
    ensures r == Ok(AstE(e))
  {
    PrintDenotes(e);
    r := TextParser.ParseText(PrintE(e));
  }
}
