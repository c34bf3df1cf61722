/** The whitespace and comment skipper of Sources/Lexer.swift:110-156, as pure functions on
    an input and an index.  Both lexers are stated against these. */
module Skipping {

  // The elements the skipper looks at: slash, star, the newline, and the blanks it pops.
  datatype Delims<E(==)> = Delims(slash: E, star: E, newline: E, blanks: set<E>)

  function Member<E(==)>(chars: set<E>): E -> bool
  {
    x => x in chars
  }

  function Outside<E(==)>(chars: set<E>): E -> bool
  {
    x => x !in chars
  }

  function Other<E(==)>(target: E): E -> bool
  {
    x => x != target
  }

  /** The end of the maximal run, starting at i, of elements satisfying p. */
  function RunEnd<E>(s: seq<E>, i: nat, p: E -> bool): (j: nat)
    requires i <= |s|
    ensures i <= j <= |s|
    ensures forall m :: i <= m < j ==> p(s[m])
    ensures j < |s| ==> !p(s[j])
    decreases |s| - i
  {
    if i < |s| && p(s[i]) then RunEnd(s, i + 1, p) else i
  }

  /** Whether s[i], s[i+1] are a, b. */
  predicate Pair<E(==)>(s: seq<E>, i: nat, a: E, b: E)
  {
    i + 1 < |s| && s[i] == a && s[i + 1] == b
  }

  datatype Block = Closed(end: nat) | Unclosed

  // The scan of a block comment body from index i at nesting depth `depth`.
  // One element is popped per step; a star-slash at the cursor lowers the depth and a
  // slash-star raises it; when the depth reaches 0 the slash of the closing pair is popped too.
  function BlockEnd<E(==)>(d: Delims<E>, s: seq<E>, i: nat, depth: nat): (r: Block)
    requires i <= |s| && depth >= 1
    ensures r.Closed? ==> i + 2 <= r.end <= |s| && Pair(s, r.end - 2, d.star, d.slash)
    decreases |s| - i
  {
    if i == |s| then Unclosed
    else if Pair(s, i, d.star, d.slash) then
      if depth == 1 then Closed(i + 2) else BlockEnd(d, s, i + 1, depth - 1)
    else if Pair(s, i, d.slash, d.star) then BlockEnd(d, s, i + 1, depth + 1)
    else BlockEnd(d, s, i + 1, depth)
  }

  /** The depth after one step at i: a star-slash pair lowers it, otherwise a slash-star
      pair raises it. */
  function NextDepth<E(==)>(d: Delims<E>, s: seq<E>, i: nat, depth: nat): int
  {
    if Pair(s, i, d.star, d.slash) then depth - 1
    else if Pair(s, i, d.slash, d.star) then depth + 1
    else depth
  }

  /** One step of the block-comment scan: the comment closes at this step exactly when the
      depth falls to 0, and otherwise the scan goes on from i + 1 at the new depth. */
  lemma BlockStep<E>(d: Delims<E>, s: seq<E>, i: nat, depth: nat)
    requires i < |s| && depth >= 1
    ensures NextDepth(d, s, i, depth) >= 0
    ensures NextDepth(d, s, i, depth) == 0 ==> BlockEnd(d, s, i, depth) == Closed(i + 2)
    ensures NextDepth(d, s, i, depth) > 0 ==> BlockEnd(d, s, i, depth) == BlockEnd(d, s, i + 1, NextDepth(d, s, i, depth))
  {
  }

  /** Where a line comment starting at i ends: at the next newline or at the end. */
  function LineEnd<E(==)>(d: Delims<E>, s: seq<E>, i: nat): (j: nat)
    requires i <= |s|
    ensures i <= j <= |s| && (j < |s| ==> s[j] == d.newline)
    ensures forall m :: i <= m < j ==> s[m] != d.newline
  {
    RunEnd(s, i, Other(d.newline))
  }

  // Skipped(j): the skipper returns with the cursor at j.  Unmatched: a block comment
  // runs into the end of input.  Diverges: the skipper reaches a slash followed by neither
  // a star nor a slash, where it calls itself again without progress.
  datatype Skip = Skipped(end: nat) | Unmatched | Diverges

  function SkipEnd<E(==)>(d: Delims<E>, s: seq<E>, i: nat): (r: Skip)
    requires i <= |s| && d.slash != d.newline
    ensures r.Skipped? ==> i <= r.end <= |s|
    ensures r.Skipped? && r.end < |s| ==> s[r.end] !in d.blanks && s[r.end] != d.slash
    decreases |s| - i
  {
    if i == |s| then Skipped(i)
    else if s[i] == d.slash then
      if i + 1 < |s| && s[i + 1] == d.star then
        match BlockEnd(d, s, i + 2, 1)
        case Closed(j) => SkipEnd(d, s, j)
        case Unclosed => Unmatched
      else if i + 1 < |s| && s[i + 1] == d.slash then
        SkipEnd(d, s, LineEnd(d, s, i))
      else Diverges
    else if s[i] in d.blanks then SkipEnd(d, s, i + 1)
    else Skipped(i)
  }

  /** Skipping again where the skipper stopped changes nothing. */
  lemma SkipIdempotent<E>(d: Delims<E>, s: seq<E>, i: nat)
    requires i <= |s| && d.slash != d.newline && SkipEnd(d, s, i).Skipped?
    ensures SkipEnd(d, s, SkipEnd(d, s, i).end) == SkipEnd(d, s, i)
  {
  }

  /** One piece the skipper passes over, from i to j: a blank that is not a slash, a line
      comment up to (not including) its newline, or a block comment through its closing
      delimiter.  A slash followed by a star always starts a block comment. */
  predicate TriviaPiece<E(==)>(d: Delims<E>, s: seq<E>, i: nat, j: nat)
    requires i <= j <= |s|
  {
    || (i < |s| && s[i] != d.slash && s[i] in d.blanks && j == i + 1)
    || (Pair(s, i, d.slash, d.slash) && s[i + 1] != d.star && j == LineEnd(d, s, i))
    || (Pair(s, i, d.slash, d.star) && BlockEnd(d, s, i + 2, 1) == Closed(j))
  }

  /** s[i..j] is a succession of blanks, line comments and closed block comments. */
  ghost predicate Trivia<E>(d: Delims<E>, s: seq<E>, i: nat, j: nat)
    requires i <= j <= |s|
    decreases j - i
  {
    i == j || exists k :: i < k <= j && TriviaPiece(d, s, i, k) && Trivia(d, s, k, j)
  }

  /** Index j is where a token (or the end of input) begins: no blank and no slash. */
  predicate Stops<E(==)>(d: Delims<E>, s: seq<E>, j: nat)
  {
    j == |s| || (j < |s| && s[j] !in d.blanks && s[j] != d.slash)
  }

  /** Passing one piece does not change where skipping stops. */
  lemma PieceSkips<E>(d: Delims<E>, s: seq<E>, i: nat, k: nat)
    requires i <= k <= |s| && d.slash != d.newline && TriviaPiece(d, s, i, k)
    ensures SkipEnd(d, s, i) == SkipEnd(d, s, k)
  {
  }

  /** Passing any run of trivia does not change where skipping stops. */
  lemma {:induction false} TriviaSkips<E>(d: Delims<E>, s: seq<E>, i: nat, j: nat)
    requires i <= j <= |s| && d.slash != d.newline && Trivia(d, s, i, j)
    ensures SkipEnd(d, s, i) == SkipEnd(d, s, j)
    decreases j - i
  {
    if i < j {
      var k :| i < k <= j && TriviaPiece(d, s, i, k) && Trivia(d, s, k, j);
      PieceSkips(d, s, i, k);
      TriviaSkips(d, s, k, j);
    }
  }

  /** What skipping passes over is exactly trivia, and it stops where a token or the end
      of input begins.  As the right side pins j down, no other end of trivia begins a token. */
  lemma {:induction false} SkipEndTrivia<E>(d: Delims<E>, s: seq<E>, i: nat, j: nat)
    requires i <= j <= |s| && d.slash != d.newline
    ensures SkipEnd(d, s, i) == Skipped(j) <==> Trivia(d, s, i, j) && Stops(d, s, j)
    decreases |s| - i
  {
    if Trivia(d, s, i, j) && Stops(d, s, j) {
      TriviaSkips(d, s, i, j);
    }
    if SkipEnd(d, s, i) == Skipped(j) && i < |s| {
      var k: nat;
      if s[i] == d.slash && i + 1 < |s| && s[i + 1] == d.star {
        k := BlockEnd(d, s, i + 2, 1).end;
      } else if s[i] == d.slash {
        k := LineEnd(d, s, i);
      } else if s[i] in d.blanks {
        k := i + 1;
      } else {
        return;
      }
      assert TriviaPiece(d, s, i, k) && i < k;
      PieceSkips(d, s, i, k);
      SkipEndTrivia(d, s, k, j);
      assert k <= j;
    }
  }

  // Nesting: one more open level makes the scan go on past the point where the
  // shallower comment closed, resuming at the slash of that closing pair.  So a comment
  // at depth k + 1 closes only after, and only if, the comment at depth k closes.
  lemma {:induction false} BlockDeeper<E>(d: Delims<E>, s: seq<E>, i: nat, depth: nat)
    requires i <= |s| && depth >= 1
    ensures BlockEnd(d, s, i, depth).Unclosed? ==> BlockEnd(d, s, i, depth + 1).Unclosed?
    ensures BlockEnd(d, s, i, depth).Closed? ==>
              BlockEnd(d, s, i, depth + 1) == BlockEnd(d, s, BlockEnd(d, s, i, depth).end - 1, 1)
    decreases |s| - i
  {
    if i == |s| {
    } else if Pair(s, i, d.star, d.slash) {
      if depth > 1 {
        BlockDeeper(d, s, i + 1, depth - 1);
      }
    } else if Pair(s, i, d.slash, d.star) {
      BlockDeeper(d, s, i + 1, depth + 1);
    } else {
      BlockDeeper(d, s, i + 1, depth);
    }
  }

  /** The end of a comment is decided by the text up to its closing delimiter: whatever
      follows it in the input does not change where it ends. */
  lemma {:induction false} BlockEndLocal<E>(d: Delims<E>, s: seq<E>, t: seq<E>, i: nat, depth: nat)
    requires i <= |s| && depth >= 1 && BlockEnd(d, s, i, depth).Closed?
    ensures BlockEnd(d, s + t, i, depth) == BlockEnd(d, s, i, depth)
    decreases |s| - i
  {
    var u := s + t;
    assert i + 1 < |s| ==> u[i] == s[i] && u[i + 1] == s[i + 1];
    if Pair(s, i, d.star, d.slash) {
      if depth > 1 {
        BlockEndLocal(d, s, t, i + 1, depth - 1);
      }
    } else if Pair(s, i, d.slash, d.star) {
      BlockEndLocal(d, s, t, i + 1, depth + 1);
    } else {
      BlockEndLocal(d, s, t, i + 1, depth);
    }
  }
}
