/** What one call of the byte tokenizer's next() (Sources/BetterLexer.swift:39-120) does,
    stated over the step function NextSpec: skipping first, then one token per dispatch case. */
module BetterLexerLaws {
  import opened Wrappers
  import opened Locations
  import opened ByteScanning
  import opened Skipping
  import opened Stream
  import opened BetterLexer

  /** After skipping from i the cursor is at k, on the first byte of a token. */
  predicate TokenStart(s: seq<byte>, i: nat, k: nat)
  {
    i <= |s| && SkipEnd(ByteDelims, s, i) == Skipped(k) && k < |s|
  }

  /** Skipping passes only whitespace and comments and stops on a byte that is neither
      whitespace nor a slash. */
  lemma {:induction false} TokenStartByte(s: seq<byte>, i: nat, k: nat)
    requires TokenStart(s, i, k)
    ensures i <= k && s[k] !in Whitespace && s[k] != SLASH
    ensures Trivia(ByteDelims, s, i, k)
  {
    SkipEndTrivia(ByteDelims, s, i, k);
  }

  /** Every token and every dispatch error carries the position of the first byte after
      skipping, i.e. the location reached by walking all the bytes before it; a token consumes
      at least that byte. */
  lemma NextLocation<K, D>(voc: Vocabulary<K, D>, s: seq<byte>, i: nat, last: SourceLocation, k: nat)
    requires TokenStart(s, i, k)
    ensures var st := NextSpec(voc, s, i, last);
      && (st.Produced? ==> st.out.location == LocationAt(s, k) && k < st.rest)
      && (st.Failed? ==> st.error.location == LocationAt(s, k) && k <= st.rest)
      && !st.Exhausted? && !st.Hangs?
  {
  }

  /** An identifier-start byte: the maximal run of identifier and digit bytes, classified as
      a keyword, `_` or an identifier. */
  lemma NextIdentifier<K, D>(voc: Vocabulary<K, D>, s: seq<byte>, i: nat, last: SourceLocation, k: nat)
    requires TokenStart(s, i, k) && s[k] in voc.identChars
    ensures var st := NextSpec(voc, s, i, last);
      && st.Produced? && k < st.rest <= |s|
      && (forall t :: k <= t < st.rest ==> s[t] in voc.identChars || s[t] in voc.digits)
      && (st.rest == |s| || (s[st.rest] !in voc.identChars && s[st.rest] !in voc.digits))
      && var word := s[k..st.rest];
      && (word in voc.keywords ==> st.out.kind == Keyword(voc.keywords[word]))
      && (word !in voc.keywords && word == [UNDERSCORE] ==> st.out.kind == Underscore)
      && (word !in voc.keywords && word != [UNDERSCORE] ==> st.out.kind == Identifier(word))
  {
  }

  /** An operator byte (that is not an identifier start): the maximal operator run,
      classified as a keyword, `=` or an operator. */
  lemma NextOperator<K, D>(voc: Vocabulary<K, D>, s: seq<byte>, i: nat, last: SourceLocation, k: nat)
    requires TokenStart(s, i, k) && s[k] !in voc.identChars && s[k] in voc.opChars
    ensures var st := NextSpec(voc, s, i, last);
      && st.Produced? && k < st.rest <= |s|
      && (forall t :: k <= t < st.rest ==> s[t] in voc.opChars)
      && (st.rest == |s| || s[st.rest] !in voc.opChars)
      && var op := s[k..st.rest];
      && (op in voc.keywords ==> st.out.kind == Keyword(voc.keywords[op]))
      && (op !in voc.keywords && op == [EQUALS] ==> st.out.kind == Equals)
      && (op !in voc.keywords && op != [EQUALS] ==> st.out.kind == Operator(op))
  {
  }

  /** A digit (that starts neither an identifier nor an operator): the maximal digit run,
      verbatim. */
  lemma NextInteger<K, D>(voc: Vocabulary<K, D>, s: seq<byte>, i: nat, last: SourceLocation, k: nat)
    requires TokenStart(s, i, k) && s[k] !in voc.identChars && s[k] !in voc.opChars && s[k] in voc.digits
    ensures var st := NextSpec(voc, s, i, last);
      && st.Produced? && k < st.rest <= |s|
      && st.out.kind == Integer(s[k..st.rest])
      && (forall t :: k <= t < st.rest ==> s[t] in voc.digits)
      && (st.rest == |s| || s[st.rest] !in voc.digits)
  {
  }

  /** A quote: the text up to the next quote, both quotes excluded and consumed; with no
      closing quote the call fails with UnterminatedString at the opening quote, at the end. */
  lemma NextString<K, D>(voc: Vocabulary<K, D>, s: seq<byte>, i: nat, last: SourceLocation, k: nat)
    requires TokenStart(s, i, k) && s[k] !in voc.identChars && s[k] !in voc.opChars && s[k] !in voc.digits
    requires s[k] == QUOTE
    ensures var st := NextSpec(voc, s, i, last);
      && (QUOTE in s[k + 1..] ==>
            && st.Produced? && k + 2 <= st.rest <= |s| && s[st.rest - 1] == QUOTE
            && st.out.kind == String(s[k + 1..st.rest - 1]) && QUOTE !in s[k + 1..st.rest - 1])
      && (QUOTE !in s[k + 1..] ==> st == Failed(LexError(UnterminatedString, LocationAt(s, k)), |s|))
  {
    var e := RunEnd(s, k + 1, Other(QUOTE));
    if QUOTE in s[k + 1..] {
      var q :| k + 1 <= q < |s| && s[q] == QUOTE;
      assert s[q] == s[k + 1..][q - (k + 1)];
      assert e <= q;
    } else {
      forall t | k + 1 <= t < |s|
        ensures s[t] != QUOTE
      {
        assert s[t] == s[k + 1..][t - (k + 1)];
      }
    }
    assert forall t :: k + 1 <= t < e ==> s[t] == s[k + 1..e][t - (k + 1)];
  }

  /** Each punctuation byte is one token of exactly one byte. */
  lemma NextPunctuation<K, D>(voc: Vocabulary<K, D>, s: seq<byte>, i: nat, last: SourceLocation, k: nat)
    requires TokenStart(s, i, k) && s[k] !in voc.identChars && s[k] !in voc.opChars && s[k] !in voc.digits
    requires s[k] in PunctuationBytes
    ensures var st := NextSpec(voc, s, i, last);
      && st.Produced? && st.rest == k + 1
      && st.out.kind in {LParen, RParen, LBrack, RBrack, LBrace, RBrace, Colon, Comma, Dot}
      && (s[k] == LPAREN <==> st.out.kind == LParen) && (s[k] == RPAREN <==> st.out.kind == RParen)
      && (s[k] == LBRACK <==> st.out.kind == LBrack) && (s[k] == RBRACK <==> st.out.kind == RBrack)
      && (s[k] == LBRACE <==> st.out.kind == LBrace) && (s[k] == RBRACE <==> st.out.kind == RBrace)
      && (s[k] == COLON <==> st.out.kind == Colon) && (s[k] == COMMA <==> st.out.kind == Comma)
      && (s[k] == DOT <==> st.out.kind == Dot)
  {
  }

  /** The end of the name after a `#`: the maximal run of non-whitespace bytes. */
  function NameEnd(s: seq<byte>, k: nat): (e: nat)
    requires k < |s|
    ensures k + 1 <= e <= |s|
    ensures forall t :: k + 1 <= t < e ==> s[t] !in Whitespace
    ensures e == |s| || s[e] in Whitespace
  {
    RunEnd(s, k + 1, Outside(Whitespace))
  }

  /** A `#`: the following non-whitespace run is looked up in the directive table; a hit is
      a directive token, a miss fails with UnknownDirective; either way the run is consumed. */
  lemma NextDirective<K, D>(voc: Vocabulary<K, D>, s: seq<byte>, i: nat, last: SourceLocation, k: nat)
    requires TokenStart(s, i, k) && s[k] !in voc.identChars && s[k] !in voc.opChars && s[k] !in voc.digits
    requires s[k] == HASH
    ensures var st := NextSpec(voc, s, i, last); var name := s[k + 1..NameEnd(s, k)];
      && st.rest == NameEnd(s, k)
      && (name in voc.directives ==> st.Produced? && st.out.kind == Directive(voc.directives[name]))
      && (name !in voc.directives ==> st.Failed? && st.error == LexError(UnknownDirective, LocationAt(s, k)))
  {
  }

  /** Any other byte fails with InvalidToken.  The source consumes the run of whitespace at
      the cursor, and right after skipping that run is empty: the suspect text is empty and
      the cursor does not move. */
  lemma NextInvalid<K, D>(voc: Vocabulary<K, D>, s: seq<byte>, i: nat, last: SourceLocation, k: nat)
    requires TokenStart(s, i, k) && s[k] !in voc.identChars && s[k] !in voc.opChars && s[k] !in voc.digits
    requires s[k] != QUOTE && s[k] != HASH && s[k] !in PunctuationBytes
    ensures NextSpec(voc, s, i, last) == Failed(LexError(InvalidToken([]), LocationAt(s, k)), k)
  {
    TokenStartByte(s, i, k);
    assert Punctuator<K, D>(s[k]).None?;
    assert RunEnd(s, k, Member(Whitespace)) == k;
    assert s[k..k] == [];
    assert NextSpec(voc, s, i, last) == Dispatch(voc, s, k);
  }

  /** next() yields nil exactly when everything from the cursor is whitespace and comments. */
  lemma NextExhausted<K, D>(voc: Vocabulary<K, D>, s: seq<byte>, i: nat, last: SourceLocation)
    requires i <= |s|
    ensures NextSpec(voc, s, i, last).Exhausted? <==> Trivia(ByteDelims, s, i, |s|)
    ensures NextSpec(voc, s, i, last).Exhausted? ==> NextSpec(voc, s, i, last).rest == |s|
  {
    SkipEndTrivia(ByteDelims, s, i, |s|);
  }

  /** An unclosed block comment fails at the end of the input with lastLocation. */
  lemma NextUnmatched<K, D>(voc: Vocabulary<K, D>, s: seq<byte>, i: nat, last: SourceLocation)
    requires i <= |s| && SkipEnd(ByteDelims, s, i).Unmatched?
    ensures NextSpec(voc, s, i, last) == Failed(LexError(UnmatchedBlockComment, last), |s|)
  {
  }
}
