/**
 The lexer over a character stream with the state bits of std::stringstream:
 reading past the end fails the stream for good, and unget() cannot undo that.
 */
module QueryLexer {
  import opened Packets
  import opened Expressions
  import opened QueryParser

  datatype Stream = Stream(text: string, pos: nat, eof: bool, fail: bool) {
    predicate Good() { !eof && !fail }
    predicate Valid() { pos <= |text| }
  }

  /** peek(): looking past the end sets eofbit; an unhealthy stream fails. */
  function Peek(s: Stream): (Option<char>, Stream) {
    if !s.Good() then (None, s.(fail := true))
    else if s.pos >= |s.text| then (None, s.(eof := true))
    else (Some(s.text[s.pos]), s)
  }

  /** get(): reading past the end sets eofbit and failbit. */
  function Get(s: Stream): (Option<char>, Stream) {
    if !s.Good() then (None, s.(fail := true))
    else if s.pos >= |s.text| then (None, s.(eof := true, fail := true))
    else (Some(s.text[s.pos]), s.(pos := s.pos + 1))
  }

  /** unget(): clears eofbit, then steps back unless the stream has failed. */
  function Unget(s: Stream): Stream {
    if s.fail then s.(eof := false)
    else if s.pos == 0 then s.(eof := false, fail := true)
    else s.(eof := false, pos := s.pos - 1)
  }

  predicate Blank(c: char) { c in " \t\n\r\U{000B}\U{000C}" }

  predicate OperandChar(c: char) {
    'a' <= c <= 'z' || 'A' <= c <= 'Z' || '0' <= c <= '9' || c == '.' || c == '_' || c == '/' || c == '-'
  }

  /** As a signed char this byte equals EOF. */
  const EOF_BYTE: char := '\U{00FF}'

  /** The characters of a token. */
  function TextOf(t: Token): string {
    match t
    case OrTok => "||"
    case AndTok => "&&"
    case NotTok => "!"
    case Left => "("
    case Right => ")"
    case Operator(text) => text
    case Operand(text) => text
    case End => ""
    case Broken => ""
  }

  function TokenLength(t: Token): nat { |TextOf(t)| }

  // ----- next_token as a function of the stream -----

  function SkipBlanks(s: Stream): Stream
    decreases |s.text| - s.pos
  {
    var (c, s1) := Peek(s);
    if c.Some? && Blank(c.value) then SkipBlanks(Get(s1).1) else s1
  }

  function TakeOperand(s: Stream): (string, Stream)
    decreases |s.text| - s.pos
  {
    var (c, s1) := Peek(s);
    if c.Some? && OperandChar(c.value) then
      var (rest, s2) := TakeOperand(Get(s1).1);
      ([c.value] + rest, s2)
    else ("", s1)
  }

  /** After an 'i': is it followed by "n" and a blank? If not, what was read is put back. */
  function TryIn(s: Stream): (bool, Stream) {
    var (n, s1) := Get(s);
    if n == Some('n') then
      var (b, s2) := Peek(s1);
      if b.Some? && Blank(b.value) then (true, s2) else (false, Unget(s2))
    else (false, Unget(s1))
  }

  function Lex(s: Stream): Result<(Token, Stream)> {
    var (c, s1) := Get(SkipBlanks(s));
    if c.None? || c.value == EOF_BYTE then Ok((End, s1))
    else match c.value
      case '|' => var (d, s2) := Get(s1); if d == Some('|') then Ok((OrTok, s2)) else Err(BadCharacter)
      case '&' => var (d, s2) := Get(s1); if d == Some('&') then Ok((AndTok, s2)) else Err(BadCharacter)
      case '!' =>
        var (d, s2) := Get(s1);
        if d == Some('=') then Ok((Operator("!="), s2))
        else if d == Some('i') then
          var (isIn, s3) := TryIn(s2);
          if isIn then Ok((Operator("!in"), s3)) else Ok((NotTok, Unget(s3)))
        else Ok((NotTok, Unget(s2)))
      case '(' => Ok((Left, s1))
      case ')' => Ok((Right, s1))
      case '=' => var (d, s2) := Get(s1); if d == Some('=') then Ok((Operator("=="), s2)) else Err(BadCharacter)
      case '<' =>
        var (d, s2) := Get(s1); if d == Some('=') then Ok((Operator("<="), s2)) else Ok((Operator("<"), Unget(s2)))
      case '>' =>
        var (d, s2) := Get(s1); if d == Some('=') then Ok((Operator(">="), s2)) else Ok((Operator(">"), Unget(s2)))
      case other =>
        if !OperandChar(other) then Err(BadCharacter)
        else if other == 'i' then
          var (isIn, s2) := TryIn(s1);
          if isIn then Ok((Operator("in"), s2))
          else var (text, s3) := TakeOperand(Unget(s2)); Ok((Operand(text), s3))
        else
          var (text, s2) := TakeOperand(Unget(s1)); Ok((Operand(text), s2))
  }

  function PutBack(s: Stream, n: nat): Stream
    decreases n
  {
    if n == 0 then s else PutBack(Unget(s), n - 1)
  }

  // ----- the lexer as the program runs it -----

  class Lexer {
    var stream: Stream

    constructor (text: string)
      ensures stream == Stream(text, 0, false, false)
    {
      stream := Stream(text, 0, false, false);
    }

    method PeekChar() returns (c: Option<char>)
      modifies this
      ensures (c, stream) == Peek(old(stream))
    {
      var (d, s) := Peek(stream);
      c, stream := d, s;
    }

    method GetChar() returns (c: Option<char>)
      modifies this
      ensures (c, stream) == Get(old(stream))
    {
      var (d, s) := Get(stream);
      c, stream := d, s;
    }

    method NextToken() returns (r: Result<Token>)
      modifies this
      ensures match Lex(old(stream))
              case Ok(pair) => r == Ok(pair.0) && stream == pair.1
              case Err(e) => r == Err(e)
    {
      var c := PeekChar();
      while c.Some? && Blank(c.value)
        invariant (c.Some? && Blank(c.value)) ==>
                    Peek(stream) == (c, stream) && SkipBlanks(stream) == SkipBlanks(old(stream))
        invariant !(c.Some? && Blank(c.value)) ==> stream == SkipBlanks(old(stream))
        decreases c.Some?, |stream.text| - stream.pos
      {
        var _ := GetChar();
        c := PeekChar();
      }
      c := GetChar();
      if c.None? || c.value == EOF_BYTE { return Ok(End); }
      match c.value
      case '|' => var d := GetChar(); return if d == Some('|') then Ok(OrTok) else Err(BadCharacter);
      case '&' => var d := GetChar(); return if d == Some('&') then Ok(AndTok) else Err(BadCharacter);
      case '!' =>
        var d := GetChar();
        if d == Some('=') { return Ok(Operator("!=")); }
        if d == Some('i') {
          var isIn := CheckIn();
          if isIn { return Ok(Operator("!in")); }
        }
        stream := Unget(stream);
        return Ok(NotTok);
      case '(' => return Ok(Left);
      case ')' => return Ok(Right);
      case '=' => var d := GetChar(); return if d == Some('=') then Ok(Operator("==")) else Err(BadCharacter);
      case '<' =>
        var d := GetChar();
        if d == Some('=') { return Ok(Operator("<=")); }
        stream := Unget(stream);
        return Ok(Operator("<"));
      case '>' =>
        var d := GetChar();
        if d == Some('=') { return Ok(Operator(">=")); }
        stream := Unget(stream);
        return Ok(Operator(">"));
      case other =>
        if !OperandChar(other) { return Err(BadCharacter); }
        if other == 'i' {
          var isIn := CheckIn();
          if isIn { return Ok(Operator("in")); }
        }
        stream := Unget(stream);
        var text := ReadOperand();
        return Ok(Operand(text));
    }

    method CheckIn() returns (isIn: bool)
      modifies this
      ensures (isIn, stream) == TryIn(old(stream))
    {
      var n := GetChar();
      isIn := false;
      if n == Some('n') {
        var b := PeekChar();
        isIn := b.Some? && Blank(b.value);
      }
      if !isIn { stream := Unget(stream); }
    }

    method ReadOperand() returns (text: string)
      modifies this
      ensures (text, stream) == TakeOperand(old(stream))
    {
      text := "";
      var more := true;
      assert text + TakeOperand(stream).0 == TakeOperand(stream).0;
      while more
        invariant more ==> TakeOperand(old(stream)) == (text + TakeOperand(stream).0, TakeOperand(stream).1)
        invariant !more ==> TakeOperand(old(stream)) == (text, stream)
        decreases more, |stream.text| - stream.pos
      {
        ghost var s := stream;
        var c := PeekChar();
        if c.Some? && OperandChar(c.value) {
          var _ := GetChar();
          assert text + TakeOperand(s).0 == text + [c.value] + TakeOperand(stream).0;
          text := text + [c.value];
        } else {
          assert text + TakeOperand(s).0 == text;
          more := false;
        }
      }
    }

    /** peek_token(): read a token, then put its characters back. */
    method PeekToken() returns (r: Result<Token>)
      modifies this
      ensures match Lex(old(stream))
              case Ok(pair) => r == Ok(pair.0) && stream == PutBack(pair.1, TokenLength(pair.0))
              case Err(e) => r == Err(e)
    {
      r := NextToken();
      if r.Ok? { Restore(TokenLength(r.value)); }
    }

    /** put_back: one unget per character. */
    method Restore(n: nat)
      modifies this
      ensures stream == PutBack(old(stream), n)
    {
      for i := 0 to n
        invariant PutBack(old(stream), n) == PutBack(stream, n - i)
      {
        stream := Unget(stream);
      }
    }
  }

  // ----- peeking is transparent, except at the end of the text -----

  /** Position of the next non-blank character. */
  function NonBlank(text: string, p: nat): (q: nat)
    requires p <= |text|
    ensures p <= q <= |text| && (q < |text| ==> !Blank(text[q]))
    decreases |text| - p
  {
    if p < |text| && Blank(text[p]) then NonBlank(text, p + 1) else p
  }

  /** Where put_back cannot restore the stream: the text that is left is a lone
      character that made the lexer read past the end, or starts with the EOF byte. */
  predicate BadSpot(s: Stream)
    requires s.Valid()
  {
    s.Good() &&
    var q := NonBlank(s.text, s.pos);
    var rest := s.text[q..];
    rest == "i" || rest == "<" || rest == ">" || rest == "!" || rest == "!i"
    || (rest != "" && rest[0] == EOF_BYTE)
  }

  lemma {:induction false} SkipBlanksGood(s: Stream)
    requires s.Valid() && s.Good()
    ensures var q := NonBlank(s.text, s.pos);
            SkipBlanks(s) == s.(pos := q, eof := q == |s.text|)
    decreases |s.text| - s.pos
  {
    if s.pos < |s.text| && Blank(s.text[s.pos]) { SkipBlanksGood(Get(s).1); }
  }

  lemma {:induction false} TakeOperandGood(s: Stream)
    requires s.Valid() && s.Good()
    ensures var (text, s') := TakeOperand(s);
            && s'.text == s.text && !s'.fail && s'.pos == s.pos + |text| <= |s.text|
            && text == s.text[s.pos..s'.pos] && (s'.eof ==> s'.pos == |s.text|)
    ensures s.pos < |s.text| && OperandChar(s.text[s.pos]) ==> TakeOperand(s).0 != ""
    decreases |s.text| - s.pos
  {
    if s.pos < |s.text| && OperandChar(s.text[s.pos]) {
      TakeOperandGood(Get(s).1);
      var s' := TakeOperand(s).1;
      assert s.text[s.pos..s'.pos] == [s.text[s.pos]] + s.text[s.pos + 1..s'.pos];
    }
  }

  lemma {:induction false} PutBackGood(s: Stream, n: nat)
    requires !s.fail && 1 <= n <= s.pos
    ensures PutBack(s, n) == Stream(s.text, s.pos - n, false, false)
    decreases n
  {
    if n > 1 { PutBackGood(Unget(s), n - 1); }
  }

  /** TryIn on text that goes on: it consumes "n" or nothing. */
  lemma TryInGood(s: Stream)
    requires s.Good() && s.pos < |s.text|
    ensures var (isIn, s') := TryIn(s);
            && s' == Stream(s.text, if isIn then s.pos + 1 else s.pos, false, false)
            && (isIn <==> s.text[s.pos] == 'n' && s.pos + 1 < |s.text| && Blank(s.text[s.pos + 1]))
  {
  }

  predicate Consumed(t: Token, s': Stream, text: string, q: nat) {
    && t != End && TokenLength(t) >= 1
    && !s'.fail && s'.text == text && s'.pos == q + TokenLength(t) <= |text|
    && text[q..s'.pos] == TextOf(t) && (s'.eof ==> s'.pos == |text|)
  }

  /** The first two and three characters at q. */
  lemma Slices(text: string, q: nat)
    ensures q < |text| ==> text[q..q + 1] == [text[q]]
    ensures q + 1 < |text| ==> text[q..q + 2] == [text[q], text[q + 1]]
    ensures q + 2 < |text| ==> text[q..q + 3] == [text[q], text[q + 1], text[q + 2]]
  {
  }

  lemma NotIsConsumed(s: Stream, q: nat)
    requires s.Valid() && s.Good() && q == NonBlank(s.text, s.pos) < |s.text|
    requires s.text[q] == '!' && q + 1 < |s.text| && (s.text[q + 1] == 'i' ==> q + 2 < |s.text|)
    ensures Lex(s).Ok? && Consumed(Lex(s).value.0, Lex(s).value.1, s.text, q)
  {
    SkipBlanksGood(s);
    Slices(s.text, q);
    assert Get(SkipBlanks(s)) == (Some('!'), Stream(s.text, q + 1, false, false));
    if s.text[q + 1] == 'i' { NotInIsConsumed(s, q); }
  }

  lemma NotInIsConsumed(s: Stream, q: nat)
    requires s.Valid() && s.Good() && q == NonBlank(s.text, s.pos) < |s.text|
    requires q + 2 < |s.text| && s.text[q] == '!' && s.text[q + 1] == 'i'
    ensures Lex(s).Ok? && Consumed(Lex(s).value.0, Lex(s).value.1, s.text, q)
  {
    SkipBlanksGood(s);
    Slices(s.text, q);
    TryInGood(Stream(s.text, q + 2, false, false));
  }

  lemma OperandIsConsumed(s: Stream, q: nat)
    requires s.Valid() && s.Good() && q == NonBlank(s.text, s.pos) < |s.text|
    requires OperandChar(s.text[q]) && (s.text[q] == 'i' ==> q + 1 < |s.text|)
    ensures Lex(s).Ok? && Consumed(Lex(s).value.0, Lex(s).value.1, s.text, q)
  {
    SkipBlanksGood(s);
    var start := Stream(s.text, q, false, false);
    var next := Stream(s.text, q + 1, false, false);
    assert Get(start) == (Some(s.text[q]), next) && Unget(next) == start;
    TakeOperandGood(start);
    if s.text[q] == 'i' { TryInGood(next); }
  }

  lemma SymbolIsConsumed(s: Stream, q: nat)
    requires s.Valid() && s.Good() && q == NonBlank(s.text, s.pos) < |s.text| && Lex(s).Ok?
    requires s.text[q] != '!' && !OperandChar(s.text[q]) && s.text[q] != EOF_BYTE
    requires s.text[q] == '<' || s.text[q] == '>' ==> q + 1 < |s.text|
    ensures Consumed(Lex(s).value.0, Lex(s).value.1, s.text, q)
  {
    SkipBlanksGood(s);
    Slices(s.text, q);
    assert Get(SkipBlanks(s)) == (Some(s.text[q]), Stream(s.text, q + 1, false, false));
    if q + 1 < |s.text| {
      assert Get(Stream(s.text, q + 1, false, false)) == (Some(s.text[q + 1]), Stream(s.text, q + 2, false, false));
      assert Unget(Stream(s.text, q + 2, false, false)) == Stream(s.text, q + 1, false, false);
    }
  }

  /** Away from a bad spot a token's text is exactly the non-blank characters consumed,
      and the stream stays healthy. */
  lemma TokenTextIsConsumed(s: Stream)
    requires s.Valid() && s.Good() && !BadSpot(s) && NonBlank(s.text, s.pos) < |s.text| && Lex(s).Ok?
    ensures Consumed(Lex(s).value.0, Lex(s).value.1, s.text, NonBlank(s.text, s.pos))
  {
    var q := NonBlank(s.text, s.pos);
    var rest := s.text[q..];
    assert rest[0] == s.text[q];
    if q + 1 == |s.text| { assert rest == [s.text[q]]; }
    if q + 2 == |s.text| { assert rest == [s.text[q], s.text[q + 1]]; }
    if s.text[q] == '!' {
      NotIsConsumed(s, q);
    } else if OperandChar(s.text[q]) {
      OperandIsConsumed(s, q);
    } else {
      SymbolIsConsumed(s, q);
    }
  }

  /** Reading a token depends only on where the next non-blank character is. */
  lemma LexFromNonBlank(s: Stream)
    requires s.Valid() && s.Good()
    ensures Lex(s) == Lex(s.(pos := NonBlank(s.text, s.pos)))
  {
    SkipBlanksGood(s);
    SkipBlanksGood(s.(pos := NonBlank(s.text, s.pos)));
  }

  /** Lexer peek is transparent exactly away from the bad spots: peeking and then
      reading gives the token and stream that reading alone gives. */
  lemma PeekTransparentExactly(s: Stream)
    requires s.Valid() && Lex(s).Ok?
    ensures var (t, s') := Lex(s).value;
            Lex(PutBack(s', TokenLength(t))) == Lex(s) <==> !BadSpot(s)
  {
    var (t, s') := Lex(s).value;
    if s.Good() {
      var q := NonBlank(s.text, s.pos);
      SkipBlanksGood(s);
      if BadSpot(s) {
        BadSpotLoses(s);
      } else if q < |s.text| {
        TokenTextIsConsumed(s);
        PutBackGood(s', TokenLength(t));
        LexFromNonBlank(s);
      }
    }
  }

  lemma {:induction false} PutBackFailed(s: Stream, n: nat)
    requires s.fail
    ensures PutBack(s, n).fail && Lex(PutBack(s, n)).Ok? && Lex(PutBack(s, n)).value.0 == End
    decreases n
  {
    if n > 0 { PutBackFailed(Unget(s), n - 1); }
  }

  lemma BadSpotLoses(s: Stream)
    requires s.Valid() && Lex(s).Ok? && BadSpot(s)
    ensures var (t, s') := Lex(s).value;
            Lex(PutBack(s', TokenLength(t))) != Lex(s)
  {
    var q := NonBlank(s.text, s.pos);
    var (t, s') := Lex(s).value;
    SkipBlanksGood(s);
    var rest := s.text[q..];
    assert rest[0] == s.text[q];
    if rest[0] == EOF_BYTE {
      assert s' == Stream(s.text, q + 1, false, false) && t == End;
      SkipBlanksGood(s');
      NeverStays(s');
    } else {
      if |rest| == 2 { assert rest[1] == s.text[q + 1]; }
      assert s'.fail && t != End;
      PutBackFailed(s', TokenLength(t));
    }
  }

  /** Reading an END token always changes a healthy stream. */
  lemma NeverStays(s: Stream)
    requires s.Valid() && s.Good()
    ensures Lex(s) != Ok((End, s))
  {
    SkipBlanksGood(s);
  }

  /** Whatever the text, the only operators produced are the eight negatable ones. */
  lemma OperatorsAreValid(s: Stream)
    requires Lex(s).Ok? && Lex(s).value.0.Operator?
    ensures ValidOp(Lex(s).value.0.text)
  {
  }

  // ----- the tokens of a text -----

  /** Nothing but END comes from an unhealthy stream or from blanks. */
  lemma NothingLeft(s: Stream)
    requires s.Valid() && (!s.Good() || NonBlank(s.text, s.pos) == |s.text|)
    ensures Lex(s).Ok? && Lex(s).value.0 == End
  {
    if s.Good() { SkipBlanksGood(s); }
  }

  lemma BadSpotAdvances(s: Stream)
    requires s.Valid() && BadSpot(s) && Lex(s).Ok? && Lex(s).value.0 != End
    ensures var s' := Lex(s).value.1;
            s'.Valid() && s'.text == s.text && s'.fail
  {
    var q := NonBlank(s.text, s.pos);
    var rest := s.text[q..];
    SkipBlanksGood(s);
    assert rest[0] == s.text[q];
    if |rest| == 2 { assert rest[1] == s.text[q + 1]; }
  }

  lemma LexAdvances(s: Stream)
    requires s.Valid() && Lex(s).Ok? && Lex(s).value.0 != End
    ensures var s' := Lex(s).value.1;
            s'.Valid() && s'.text == s.text && !s.fail && (s'.fail || s'.pos > s.pos)
  {
    if !s.Good() || NonBlank(s.text, s.pos) == |s.text| {
      NothingLeft(s);
    } else if BadSpot(s) {
      BadSpotAdvances(s);
    } else {
      TokenTextIsConsumed(s);
    }
  }

  /** All tokens from a stream position, ending in Broken if the lexer throws. */
  function LexAll(s: Stream): (toks: seq<Token>)
    requires s.Valid()
    ensures End !in toks
    decreases !s.fail, |s.text| - s.pos
  {
    if Lex(s).Err? then [Broken]
    else if Lex(s).value.0 == End then []
    else
      assert Lex(s).value.1.Valid() && !s.fail && (Lex(s).value.1.fail || Lex(s).value.1.pos > s.pos)
             && Lex(s).value.1.text == s.text by { LexAdvances(s); }
      [Lex(s).value.0] + LexAll(Lex(s).value.1)
  }

  lemma {:induction false} LexAllValid(s: Stream)
    requires s.Valid()
    ensures ValidTokens(LexAll(s))
    decreases !s.fail, |s.text| - s.pos
  {
    if Lex(s).Ok? && Lex(s).value.0 != End {
      LexAdvances(s);
      if Lex(s).value.0.Operator? { OperatorsAreValid(s); }
      LexAllValid(Lex(s).value.1);
    }
  }

  /** The last token from here on starts at a bad spot: it fades when it is peeked at. */
  predicate LastFades(s: Stream)
    requires s.Valid()
    decreases !s.fail, |s.text| - s.pos
  {
    Lex(s).Ok? && Lex(s).value.0 != End &&
    (BadSpot(s) ||
     assert Lex(s).value.1.Valid() && !s.fail && (Lex(s).value.1.fail || Lex(s).value.1.pos > s.pos)
            && Lex(s).value.1.text == s.text by { LexAdvances(s); }
     LastFades(Lex(s).value.1))
  }

  /** The tokens that can. */
  predicate FadingToken(t: Token) { t.Operand? || t.Operator? || t == NotTok }

  lemma BadSpotFades(s: Stream)
    requires s.Valid() && BadSpot(s) && EOF_BYTE !in s.text
    ensures Lex(s).Ok? && FadingToken(Lex(s).value.0) && Lex(s).value.1.fail
  {
    var q := NonBlank(s.text, s.pos);
    var rest := s.text[q..];
    SkipBlanksGood(s);
    assert rest[0] == s.text[q] && s.text[q] in s.text;
    if |rest| == 2 { assert rest[1] == s.text[q + 1]; }
  }

  /** A stream at the start of a text. */
  function Opened(text: string): (s: Stream)
    ensures s.Valid()
  { Stream(text, 0, false, false) }

  /** No text with an ordinary last character, and no EOF byte, has a bad spot. */
  predicate CleanText(text: string) {
    EOF_BYTE !in text && (text != "" ==> text[|text| - 1] !in "i<>!")
  }

  lemma CleanHasNoBadSpot(s: Stream)
    requires s.Valid() && CleanText(s.text)
    ensures !BadSpot(s)
  {
    if s.Good() {
      var q := NonBlank(s.text, s.pos);
      var rest := s.text[q..];
      if rest != "" {
        assert rest[0] == s.text[q] && s.text[q] in s.text;
        assert rest[|rest| - 1] == s.text[|s.text| - 1];
      }
    }
  }

  lemma {:induction false} CleanNeverFades(s: Stream)
    requires s.Valid() && CleanText(s.text)
    ensures !LastFades(s)
    decreases !s.fail, |s.text| - s.pos
  {
    CleanHasNoBadSpot(s);
    if Lex(s).Ok? && Lex(s).value.0 != End {
      LexAdvances(s);
      CleanNeverFades(Lex(s).value.1);
    }
  }
}
