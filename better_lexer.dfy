/** The byte tokenizer of Sources/BetterLexer.swift: a position-tracking byte cursor, a
    lookahead buffer and a fixed next() dispatch on the first byte of a token. */
module BetterLexer {
  import opened Wrappers
  import opened Locations
  import opened Scanning
  import opened ByteScanning
  import opened Skipping
  import opened Stream

  const TAB: byte := 9
  const SPACE: byte := 32
  const QUOTE: byte := 34
  const HASH: byte := 35
  const LPAREN: byte := 40
  const RPAREN: byte := 41
  const COMMA: byte := 44
  const DOT: byte := 46
  const COLON: byte := 58
  const LBRACK: byte := 91
  const RBRACK: byte := 93
  const LBRACE: byte := 123
  const RBRACE: byte := 125
  const STAR: byte := 42
  const SLASH: byte := 47
  const EQUALS: byte := 61
  const UNDERSCORE: byte := 95

  /** The whitespace of Sources/Lexer.swift:2, as bytes. */
  const Whitespace: set<byte> := {SPACE, TAB, NEWLINE}

  /** The skipper of Sources/Lexer.swift:110-156 over bytes. */
  const ByteDelims: Delims<byte> := Delims(SLASH, STAR, NEWLINE, Whitespace)

  datatype Token<K, D> =
    | Keyword(keyword: K)
    | Underscore
    | Identifier(text: seq<byte>)
    | Equals
    | Operator(text: seq<byte>)
    | Integer(text: seq<byte>)
    | String(text: seq<byte>)
    | LParen | RParen | LBrack | RBrack | LBrace | RBrace | Colon | Comma | Dot
    | Directive(directive: D)

  datatype Output<K, D> = Output(kind: Token<K, D>, location: SourceLocation)

  datatype ErrorKind = UnterminatedString | UnknownDirective | InvalidToken(suspect: seq<byte>) | UnmatchedBlockComment

  datatype LexError = LexError(kind: ErrorKind, location: SourceLocation)

  /** The vocabulary the tokenizer is instantiated with: identifier, digit and operator
      bytes, and the keyword and directive tables keyed by their spelling. */
  datatype Vocabulary<K, D> = Vocabulary(
    identChars: set<byte>,
    digits: set<byte>,
    opChars: set<byte>,
    keywords: map<seq<byte>, K>,
    directives: map<seq<byte>, D>)

  /** The bytes of the single-byte punctuation tokens. */
  const PunctuationBytes: set<byte> := {LPAREN, RPAREN, LBRACK, RBRACK, LBRACE, RBRACE, COLON, COMMA, DOT}

  /** The single-byte punctuation tokens. */
  function Punctuator<K, D>(c: byte): Option<Token<K, D>>
  {
    if c == LPAREN then Some(LParen)
    else if c == RPAREN then Some(RParen)
    else if c == LBRACK then Some(LBrack)
    else if c == RBRACK then Some(RBrack)
    else if c == LBRACE then Some(LBrace)
    else if c == RBRACE then Some(RBrace)
    else if c == COLON then Some(Colon)
    else if c == COMMA then Some(Comma)
    else if c == DOT then Some(Dot)
    else None
  }

  /** The token of an identifier-like run: a keyword, `_`, or an identifier. */
  function WordToken<K, D>(voc: Vocabulary<K, D>, symbol: seq<byte>): Token<K, D>
  {
    if symbol in voc.keywords then Keyword(voc.keywords[symbol])
    else if symbol == [UNDERSCORE] then Underscore
    else Identifier(symbol)
  }

  /** The token of an operator run: a keyword, `=`, or an operator. */
  function OperatorToken<K, D>(voc: Vocabulary<K, D>, symbol: seq<byte>): Token<K, D>
  {
    if symbol in voc.keywords then Keyword(voc.keywords[symbol])
    else if symbol == [EQUALS] then Equals
    else Operator(symbol)
  }

  /** What the dispatch does at index k, the first byte after skipping. */
  function Dispatch<K, D>(voc: Vocabulary<K, D>, s: seq<byte>, k: nat): (r: Step<Output<K, D>, LexError>)
    requires k < |s|
    ensures !r.Hangs? && !r.Exhausted? && k <= r.rest <= |s|
    ensures r.Produced? ==> k < r.rest && r.out.location == LocationAt(s, k)
    ensures r.Failed? ==> r.error.location == LocationAt(s, k)
  {
    var c := s[k];
    var loc := LocationAt(s, k);
    if c in voc.identChars then
      var e := RunEnd(s, k, Member(voc.identChars + voc.digits));
      Produced(Output(WordToken(voc, s[k..e]), loc), e)
    else if c in voc.opChars then
      var e := RunEnd(s, k, Member(voc.opChars));
      Produced(Output(OperatorToken(voc, s[k..e]), loc), e)
    else if c in voc.digits then
      var e := RunEnd(s, k, Member(voc.digits));
      Produced(Output(Integer(s[k..e]), loc), e)
    else if c == QUOTE then
      var e := RunEnd(s, k + 1, Other(QUOTE));
      if e == |s| then Failed(LexError(UnterminatedString, loc), e)
      else Produced(Output(String(s[k + 1..e]), loc), e + 1)
    else if Punctuator<K, D>(c).Some? then
      Produced(Output(Punctuator<K, D>(c).value, loc), k + 1)
    else if c == HASH then
      var e := RunEnd(s, k + 1, Outside(Whitespace));
      if s[k + 1..e] in voc.directives then Produced(Output(Directive(voc.directives[s[k + 1..e]]), loc), e)
      else Failed(LexError(UnknownDirective, loc), e)
    else
      var e := RunEnd(s, k, Member(Whitespace));
      Failed(LexError(InvalidToken(s[k..e]), loc), e)
  }

  /** One call of next() from cursor i; `last` is lastLocation, which an unmatched block
      comment reports. */
  function NextSpec<K, D>(voc: Vocabulary<K, D>, s: seq<byte>, i: nat, last: SourceLocation): (r: Step<Output<K, D>, LexError>)
    requires i <= |s|
    ensures Fits(r, i, |s|)
  {
    match SkipEnd(ByteDelims, s, i)
    case Diverges => Hangs
    case Unmatched => Failed(LexError(UnmatchedBlockComment, last), |s|)
    case Skipped(k) => if k == |s| then Exhausted(k) else Dispatch(voc, s, k)
  }

  class Lexer<K, D> {
    const vocabulary: Vocabulary<K, D>
    const scanner: ByteScanner
    var buffer: seq<Output<K, D>>
    var lastLocation: SourceLocation

    /** What one call of next() does, as a function of the cursor and of lastLocation. */
    ghost const tokenize: (nat, SourceLocation) -> Step<Output<K, D>, LexError>

    function Input(): seq<byte>
    {
      scanner.scanner.elements
    }

    /** next() over this lexer's input with the current lastLocation. */
    ghost function StepOf(): nat -> Step<Output<K, D>, LexError>
      reads this
    {
      var last := lastLocation;
      (i: nat) => tokenize(i, last)
    }

    /** `tokenize` is the skipper followed by the dispatch, NextSpec, on this lexer's input. */
    ghost predicate Tokenizes()
    {
      forall i: nat, last: SourceLocation {:trigger NextSpec(vocabulary, Input(), i, last)} ::
        i <= |Input()| ==> tokenize(i, last) == NextSpec(vocabulary, Input(), i, last)
    }

    ghost predicate Valid()
      reads this, scanner, scanner.scanner
    {
      scanner.Valid() && Tokenizes()
    }

    constructor (file: seq<byte>, voc: Vocabulary<K, D>)
      ensures Valid() && fresh(scanner) && fresh(scanner.scanner)
      ensures Input() == file && scanner.scanner.idx == 0 && vocabulary == voc
      ensures buffer == [] && lastLocation == Start && lastLocation == scanner.position
      ensures forall i: nat, last: SourceLocation :: i <= |file| ==> tokenize(i, last) == NextSpec(voc, file, i, last)
    {
      vocabulary := voc;
      scanner := new ByteScanner(file);
      buffer := [];
      lastLocation := SourceLocation(1, 1);
      tokenize := (i: nat, last: SourceLocation) => if i <= |file| then NextSpec(voc, file, i, last) else Exhausted(i);
    }

    method Peek(n: nat) returns (r: Result<Option<Output<K, D>>, LexError>)
      requires Valid() && LookaheadReturns(StepOf(), buffer, scanner.scanner.idx, n)
      modifies this, scanner, scanner.scanner
      ensures Valid()
      ensures Peeked(r, buffer, scanner.scanner.idx) == Lookahead(old(StepOf()), old(buffer), old(scanner.scanner.idx), n)
      ensures lastLocation == old(lastLocation)
    {
      if n < |buffer| {
        return Ok(Some(buffer[n]));
      }
      ghost var step, b0, i0 := StepOf(), buffer, scanner.scanner.idx;
      var c := |buffer|;
      for k := c to n + 1
        invariant Valid() && lastLocation == old(lastLocation)
        invariant Pull(step, i0, k - c).stop.Filled?
        invariant buffer == b0 + Pull(step, i0, k - c).outs
        invariant scanner.scanner.idx == Pull(step, i0, k - c).rest
      {
        LookaheadLoopStep(step, b0, i0, n, k - c);
        ghost var p := Pull(step, i0, k - c);
        ghost var st := step(p.rest);
        var token := Next();
        assert token == Reply(st) && scanner.scanner.idx == st.rest;
        match token {
          case Err(e) => return Err(e);
          case Ok(None) => return Ok(None);
          case Ok(Some(o)) =>
            assert st.Produced? && o == st.out;
            buffer := buffer + [o];
            assert buffer == b0 + (p.outs + [o]);
        }
      }
      LookaheadLoopDone(step, b0, i0, n);
      return Ok(Some(buffer[|buffer| - 1]));
    }

    /** The front of the buffer, or a fresh next() result when it is empty; lastLocation
        becomes the location of the token returned. */
    method Pop() returns (r: Result<Output<K, D>, LexError>)
      requires Valid() && CanConsume(StepOf(), buffer, scanner.scanner.idx)
      modifies this, scanner, scanner.scanner
      ensures Valid()
      ensures Consumed(r, buffer, scanner.scanner.idx) == Consume(old(StepOf()), old(buffer), old(scanner.scanner.idx))
      ensures r.Ok? ==> lastLocation == r.value.location
      ensures r.Err? ==> lastLocation == old(lastLocation)
    {
      if buffer == [] {
        var token := Next();
        match token {
          case Err(e) => return Err(e);
          case Ok(Some(o)) =>
            lastLocation := o.location;
            return Ok(o);
        }
      } else {
        var token := buffer[0];
        buffer := buffer[1..];
        lastLocation := token.location;
        return Ok(token);
      }
    }

    /** Skip whitespace and comments, then dispatch on the first byte. */
    method Next() returns (r: Result<Option<Output<K, D>>, LexError>)
      requires Valid() && !tokenize(scanner.scanner.idx, lastLocation).Hangs?
      modifies scanner, scanner.scanner
      ensures Valid()
      ensures r == Reply(tokenize(old(scanner.scanner.idx), lastLocation))
      ensures scanner.scanner.idx == tokenize(old(scanner.scanner.idx), lastLocation).rest
    {
      assert tokenize(scanner.scanner.idx, lastLocation) == NextSpec(vocabulary, Input(), scanner.scanner.idx, lastLocation);
      var o := SkipWhitespace();
      if o.Fail? {
        return Err(o.error);
      }
      var next := scanner.Peek(0);
      if next.None? {
        return Ok(None);
      }
      r := NextToken();
    }

    /** skipWhitespace() over bytes: the skipper of the generic lexer, popping through the
        byte cursor so that the position follows every byte passed. */
    method SkipWhitespace() returns (o: Outcome<LexError>)
      requires Valid() && !SkipEnd(ByteDelims, Input(), scanner.scanner.idx).Diverges?
      modifies scanner, scanner.scanner
      ensures Valid()
      ensures SkipEnd(ByteDelims, Input(), old(scanner.scanner.idx)).Skipped? ==>
                o == Pass && scanner.scanner.idx == SkipEnd(ByteDelims, Input(), old(scanner.scanner.idx)).end
      ensures SkipEnd(ByteDelims, Input(), old(scanner.scanner.idx)).Unmatched? ==>
                o == Fail(LexError(UnmatchedBlockComment, lastLocation)) && scanner.scanner.idx == |Input()|
    {
      match SkipEnd(ByteDelims, Input(), scanner.scanner.idx) {
        case Unmatched =>
          scanner.PopN(|Input()| - scanner.scanner.idx);
          return Fail(LexError(UnmatchedBlockComment, lastLocation));
        case Skipped(k) =>
          scanner.PopN(k - scanner.scanner.idx);
          return Pass;
      }
    }

    /** The dispatch of next() once the cursor is on the first byte of a token. */
    method NextToken() returns (r: Result<Option<Output<K, D>>, LexError>)
      requires Valid() && scanner.scanner.idx < |Input()|
      modifies scanner, scanner.scanner
      ensures Valid()
      ensures r == Reply(Dispatch(vocabulary, Input(), old(scanner.scanner.idx)))
      ensures scanner.scanner.idx == Dispatch(vocabulary, Input(), old(scanner.scanner.idx)).rest
    {
      ghost var s, k := Input(), scanner.scanner.idx;
      var next := scanner.Peek(0);
      var ch := next.value;
      var location := scanner.position;
      if ch in vocabulary.identChars {
        var symbol := ConsumeWith(vocabulary.identChars + vocabulary.digits);
        if symbol in vocabulary.keywords {
          return Ok(Some(Output(Keyword(vocabulary.keywords[symbol]), location)));
        } else if symbol == [UNDERSCORE] {
          return Ok(Some(Output(Underscore, location)));
        } else {
          return Ok(Some(Output(Identifier(symbol), location)));
        }
      } else if ch in vocabulary.opChars {
        var symbol := ConsumeWith(vocabulary.opChars);
        if symbol in vocabulary.keywords {
          return Ok(Some(Output(Keyword(vocabulary.keywords[symbol]), location)));
        } else if symbol == [EQUALS] {
          return Ok(Some(Output(Equals, location)));
        } else {
          return Ok(Some(Output(Operator(symbol), location)));
        }
      } else if ch in vocabulary.digits {
        var number := ConsumeWith(vocabulary.digits);
        return Ok(Some(Output(Integer(number), location)));
      } else if ch == QUOTE {
        var _ := scanner.Pop();
        var text := ConsumeUpTo(QUOTE);
        if scanner.Peek(0) != Some(QUOTE) {
          return Err(LexError(UnterminatedString, location));
        }
        var _ := scanner.Pop();
        return Ok(Some(Output(String(text), location)));
      } else if Punctuator<K, D>(ch).Some? {
        var _ := scanner.Pop();
        return Ok(Some(Output(Punctuator<K, D>(ch).value, location)));
      } else if ch == HASH {
        var _ := scanner.Pop();
        var identifier := ConsumeWhile(Outside(Whitespace));
        if identifier !in vocabulary.directives {
          return Err(LexError(UnknownDirective, location));
        }
        return Ok(Some(Output(Directive(vocabulary.directives[identifier]), location)));
      } else {
        var suspect := ConsumeWhile(Member(Whitespace));
        return Err(LexError(InvalidToken(suspect), location));
      }
    }

    /** Pops the maximal run of bytes satisfying p through the position-tracking cursor. */
    method ConsumeWhile(p: byte -> bool) returns (text: seq<byte>)
      requires Valid()
      modifies scanner, scanner.scanner
      ensures Valid() && scanner.scanner.idx == RunEnd(Input(), old(scanner.scanner.idx), p)
      ensures text == Input()[old(scanner.scanner.idx)..scanner.scanner.idx]
    {
      ghost var s, i0 := Input(), scanner.scanner.idx;
      text := [];
      while scanner.Peek(0).Some? && p(scanner.Peek(0).value)
        invariant Valid() && i0 <= scanner.scanner.idx
        invariant RunEnd(s, scanner.scanner.idx, p) == RunEnd(s, i0, p)
        invariant text == s[i0..scanner.scanner.idx]
        decreases |s| - scanner.scanner.idx
      {
        var c := scanner.Pop();
        text := text + [c];
      }
    }

    /** consume(with:), for an array or a byte string of accepted bytes. */
    method ConsumeWith(chars: set<byte>) returns (text: seq<byte>)
      requires Valid()
      modifies scanner, scanner.scanner
      ensures Valid() && scanner.scanner.idx == RunEnd(Input(), old(scanner.scanner.idx), Member(chars))
      ensures text == Input()[old(scanner.scanner.idx)..scanner.scanner.idx]
      ensures forall c :: c in text ==> c in chars
      ensures scanner.Peek(0).None? || scanner.Peek(0).value !in chars
    {
      text := ConsumeWhile(Member(chars));
    }

    /** consume(upTo: target): stops before the first target, or at the end. */
    method ConsumeUpTo(target: byte) returns (text: seq<byte>)
      requires Valid()
      modifies scanner, scanner.scanner
      ensures Valid() && scanner.scanner.idx == RunEnd(Input(), old(scanner.scanner.idx), Other(target))
      ensures text == Input()[old(scanner.scanner.idx)..scanner.scanner.idx] && target !in text
      ensures scanner.Peek(0).None? || scanner.Peek(0).value == target
    {
      text := ConsumeWhile(Other(target));
    }
  }
}
