/** Worked inputs for the byte tokenizer, over a small vocabulary in the style of
    Sources/main.swift:83-84. */
module BetterLexerExamples {
  import opened Locations
  import opened ByteScanning
  import opened Skipping
  import opened Stream
  import opened BetterLexer

  datatype Word = If
  datatype Pragma = Define

  const Letters: set<byte> := set c: byte | (65 <= c <= 90 || 97 <= c <= 122 || c == 95)
  const Decimal: set<byte> := set c: byte | 48 <= c <= 57

  const Example: Vocabulary<Word, Pragma> := Vocabulary(
    Letters, Decimal, {43, 45, 60, 61, 62},
    map[[105, 102] := If],
    map[[100, 101, 102, 105, 110, 101] := Define])

  /** "ab\ncd": `ab` at (1,1), then `cd` at (2,1). */
  lemma LinesAndColumns()
    ensures var s: seq<byte> := [97, 98, 10, 99, 100];
      && NextSpec(Example, s, 0, Start) == Produced(Output(Identifier([97, 98]), SourceLocation(1, 1)), 2)
      && NextSpec(Example, s, 2, SourceLocation(1, 1)) == Produced(Output(Identifier([99, 100]), SourceLocation(2, 1)), 5)
      && NextSpec(Example, s, 5, SourceLocation(2, 1)) == Exhausted(5)
  {
    var s: seq<byte> := [97, 98, 10, 99, 100];
    var word := Member(Letters + Decimal);
    assert 97 in Letters && 98 in Letters && 99 in Letters && 100 in Letters && 10 !in Letters + Decimal;
    assert SkipEnd(ByteDelims, s, 0) == Skipped(0);
    assert RunEnd(s, 2, word) == 2;
    assert RunEnd(s, 0, word) == 2;
    assert s[0..2] == [97, 98] && s[..0] == [];
    assert SkipEnd(ByteDelims, s, 3) == Skipped(3);
    assert SkipEnd(ByteDelims, s, 2) == Skipped(3);
    assert RunEnd(s, 3, word) == 5;
    assert s[3..5] == [99, 100];
    assert s[..3][..2][..1] == [97] && s[..3][..2] == [97, 98] && s[..3] == [97, 98, 10];
    assert Walk(Start, [97], NEWLINE) == SourceLocation(1, 2) by {
      assert [97][..0] == [];
    }
    assert Walk(Start, [97, 98], NEWLINE) == SourceLocation(1, 3) by {
      assert [97, 98][..1] == [97];
    }
    assert Walk(Start, [97, 98, 10], NEWLINE) == SourceLocation(2, 1) by {
      assert [97, 98, 10][..2] == [97, 98];
    }
    assert LocationAt(s, 3) == SourceLocation(2, 1);
    assert SkipEnd(ByteDelims, s, 5) == Skipped(5);
  }

  /** "if x": the keyword `if` at (1,1), then the identifier `x` at (1,4). */
  lemma KeywordThenIdentifier()
    ensures var s: seq<byte> := [105, 102, 32, 120];
      && NextSpec(Example, s, 0, Start) == Produced(Output(Keyword(If), SourceLocation(1, 1)), 2)
      && NextSpec(Example, s, 2, SourceLocation(1, 1)) == Produced(Output(Identifier([120]), SourceLocation(1, 4)), 4)
  {
    var s: seq<byte> := [105, 102, 32, 120];
    var word := Member(Letters + Decimal);
    assert 105 in Letters && 102 in Letters && 120 in Letters && 32 !in Letters + Decimal;
    assert SkipEnd(ByteDelims, s, 0) == Skipped(0);
    assert RunEnd(s, 0, word) == 2;
    assert s[0..2] == [105, 102] && s[..0] == [];
    assert SkipEnd(ByteDelims, s, 2) == Skipped(3);
    assert RunEnd(s, 3, word) == 4;
    assert s[3..4] == [120];
    assert Walk(Start, [105], NEWLINE) == SourceLocation(1, 2) by {
      assert [105][..0] == [];
    }
    assert Walk(Start, [105, 102], NEWLINE) == SourceLocation(1, 3) by {
      assert [105, 102][..1] == [105];
    }
    assert Walk(Start, [105, 102, 32], NEWLINE) == SourceLocation(1, 4) by {
      assert [105, 102, 32][..2] == [105, 102];
    }
    assert s[..3] == [105, 102, 32];
  }

  /** A quoted string yields its text without the quotes; without the closing quote the call
      fails with UnterminatedString at the opening quote. */
  lemma StringLiterals()
    ensures NextSpec(Example, [34, 97, 98, 99, 34], 0, Start) == Produced(Output(String([97, 98, 99]), Start), 5)
    ensures NextSpec(Example, [34, 97, 98, 99], 0, Start) == Failed(LexError(UnterminatedString, Start), 4)
  {
    var s: seq<byte> := [34, 97, 98, 99, 34];
    var u: seq<byte> := [34, 97, 98, 99];
    assert 34 !in Letters && 34 !in Decimal;
    assert SkipEnd(ByteDelims, s, 0) == Skipped(0);
    assert RunEnd(s, 1, Other(QUOTE)) == 4;
    assert s[1..4] == [97, 98, 99] && s[..0] == [];
    assert SkipEnd(ByteDelims, u, 0) == Skipped(0);
    assert RunEnd(u, 1, Other(QUOTE)) == 4;
    assert u[..0] == [];
  }

  /** "#define" is a directive of the table. */
  lemma KnownDirective()
    ensures NextSpec(Example, [35, 100, 101, 102, 105, 110, 101], 0, Start) == Produced(Output(Directive(Define), Start), 7)
  {
    var s: seq<byte> := [35, 100, 101, 102, 105, 110, 101];
    assert 35 !in Letters && 35 !in Decimal;
    assert SkipEnd(ByteDelims, s, 0) == Skipped(0);
    assert RunEnd(s, 1, Outside(Whitespace)) == 7;
    assert s[1..7] == [100, 101, 102, 105, 110, 101] && s[..0] == [];
  }

  /** "#bogus" is not in the table: the call fails with UnknownDirective. */
  lemma UnknownDirectiveFails()
    ensures NextSpec(Example, [35, 98, 111, 103, 117, 115], 0, Start) == Failed(LexError(UnknownDirective, Start), 6)
  {
    var u: seq<byte> := [35, 98, 111, 103, 117, 115];
    assert 35 !in Letters && 35 !in Decimal;
    assert SkipEnd(ByteDelims, u, 0) == Skipped(0);
    assert RunEnd(u, 1, Outside(Whitespace)) == 6;
    assert u[1..6] == [98, 111, 103, 117, 115] && u[..0] == [];
  }

  // The input of NestedComment: a comment holding a nested comment, then ` x`.
  const Nested: seq<byte> := [47, 42, 32, 97, 32, 47, 42, 32, 98, 32, 42, 47, 32, 99, 32, 42, 47, 32, 120]

  /** The inner opener raises the depth to 2, the first closer lowers it to 1, and the
      second closer ends the comment just before the blank. */
  lemma NestedCommentCloses()
    ensures BlockEnd(ByteDelims, Nested, 2, 1) == Closed(17)
  {
    var s := Nested;
    var d := ByteDelims;
    InnerCommentCloses();
    assert BlockEnd(d, s, 7, 2) == Closed(17);
    assert BlockEnd(d, s, 5, 1) == Closed(17);
  }

  /** Inside the inner comment, at depth 2, two closers bring the depth back to 0. */
  lemma InnerCommentCloses()
    ensures BlockEnd(ByteDelims, Nested, 10, 2) == Closed(17)
  {
    var s := Nested;
    var d := ByteDelims;
    assert BlockEnd(d, s, 15, 1) == Closed(17);
    assert BlockEnd(d, s, 12, 1) == Closed(17);
  }

  /** The skipper passes both levels of the comment and the blank after it. */
  lemma NestedCommentSkipped()
    ensures SkipEnd(ByteDelims, Nested, 0) == Skipped(18)
  {
    var s := Nested;
    var d := ByteDelims;
    NestedCommentCloses();
    assert SkipEnd(d, s, 18) == Skipped(18);
    assert SkipEnd(d, s, 17) == Skipped(18);
  }

  /** After the nested comment the only token is `x`, at (1,19). */
  lemma NestedComment()
    ensures NextSpec(Example, Nested, 0, Start) == Produced(Output(Identifier([120]), SourceLocation(1, 19)), 19)
  {
    var s := Nested;
    NestedCommentSkipped();
    assert RunEnd(s, 18, Member(Letters + Decimal)) == 19 by {
      assert 120 in Letters;
    }
    assert s[18..19] == [120];
    NestedCommentColumn();
  }

  /** The comment and the blank after it lie on one line: `x` is on column 19. */
  lemma NestedCommentColumn()
    ensures LocationAt(Nested, 18) == SourceLocation(1, 19)
  {
    var run := Nested[..18];
    assert run == [47, 42, 32, 97, 32, 47, 42, 32, 98, 32, 42, 47, 32, 99, 32, 42, 47, 32];
    assert NEWLINE !in run;
    WalkWithinLine(Start, run, NEWLINE);
  }

  /** An unclosed comment fails with UnmatchedBlockComment at lastLocation, here the start. */
  lemma UnterminatedComment()
    ensures NextSpec(Example, [47, 42, 32, 117, 110, 116, 101, 114, 109], 0, Start)
         == Failed(LexError(UnmatchedBlockComment, Start), 9)
  {
    var s: seq<byte> := [47, 42, 32, 117, 110, 116, 101, 114, 109];
    assert BlockEnd(ByteDelims, s, 2, 1) == Unclosed;
  }

  // The block-comment loop pops one byte per step.  In the input below (slash star, space,
  // slash star slash, space, star slash) the star of the inner opener also closes it, so
  // the comment ends at the final star slash; popping two bytes per delimiter would leave it open.
  lemma OverlapCloses()
    ensures BlockEnd(ByteDelims, [47, 42, 32, 47, 42, 47, 32, 42, 47], 2, 1) == Closed(9)
  {
    var s: seq<byte> := [47, 42, 32, 47, 42, 47, 32, 42, 47];
    assert BlockEnd(ByteDelims, s, 7, 1) == Closed(9);
    assert BlockEnd(ByteDelims, s, 4, 2) == Closed(9);
    assert BlockEnd(ByteDelims, s, 3, 1) == Closed(9);
  }
}
