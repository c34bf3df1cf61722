/** The generic lexer of Sources/Lexer.swift: a cursor over Unicode scalars, a lookahead
    buffer of (token, location) pairs, an injected next() strategy, the consume helpers, the
    whitespace/comment skipper and a position-tracking pop. */
module Lexer {
  import opened Wrappers
  import opened Locations
  import opened Scanning
  import opened Skipping
  import opened Stream

  /** The whitespace the skipper pops. */
  const Whitespace: set<char> := {' ', '\t', '\n'}

  const CharDelims: Delims<char> := Delims('/', '*', '\n', Whitespace)

  datatype LexerError = LexerError(message: Option<string>, location: SourceLocation)

  const UnmatchedMessage: string := "Unmatched block comment"

  datatype Output<T> = Output(token: T, location: SourceLocation)

  /** The injected next(): what one call does, as a function of the input and the cursor. */
  type Strategy<T> = (seq<char>, nat) -> Step<Output<T>, LexerError>

  function StepFor<T>(next: Strategy<T>, s: seq<char>): nat -> Step<Output<T>, LexerError>
  {
    (i: nat) => next(s, i)
  }

  /** `hasPrefix` of a two-element literal tests the pair at the cursor. */
  lemma PairPrefix(sc: Scanner<char>, a: char, b: char)
    requires sc.Valid()
    ensures (forall i :: 0 <= i < |[a, b]| ==> sc.Peek(i) == Some([a, b][i])) <==> Pair(sc.elements, sc.idx, a, b)
  {
    if sc.Peek(0) == Some(a) && sc.Peek(1) == Some(b) {
      assert forall i :: 0 <= i < 2 ==> sc.Peek(i) == Some([a, b][i]);
    }
  }

  class Lexer<T> {
    const scanner: Scanner<char>
    var position: SourceLocation
    var buffer: seq<Output<T>>
    const nextInternal: Strategy<T>
    var lastLocation: SourceLocation

    /** The strategy applied to this lexer's input. */
    function StepOf(): nat -> Step<Output<T>, LexerError>
    {
      StepFor(nextInternal, scanner.elements)
    }

    ghost predicate Valid()
      reads this, scanner
    {
      scanner.Valid()
    }

    /** The strategy only moves the cursor forward and keeps it within the input.  It
        depends on constants only, so no state change can break it. */
    ghost predicate Forwards()
    {
      Forward(StepOf(), |scanner.elements|)
    }

    constructor (file: seq<char>, next: Strategy<T>)
      requires Forward(StepFor(next, file), |file|)
      ensures Valid() && Forwards() && fresh(scanner)
      ensures scanner.elements == file && scanner.idx == 0 && nextInternal == next
      ensures position == Start && lastLocation == Start && buffer == []
    {
      scanner := new Scanner(file);
      position := SourceLocation(1, 1);
      buffer := [];
      nextInternal := next;
      lastLocation := SourceLocation(1, 1);
    }

    /** One call of the injected strategy; it moves only the cursor. */
    method Next() returns (r: Result<Option<Output<T>>, LexerError>)
      requires Valid() && Forwards() && !StepOf()(scanner.idx).Hangs?
      modifies scanner
      ensures Valid()
      ensures r == Reply(StepOf()(old(scanner.idx))) && scanner.idx == StepOf()(old(scanner.idx)).rest
    {
      var st := nextInternal(scanner.elements, scanner.idx);
      assert Fits(StepOf()(scanner.idx), scanner.idx, |scanner.elements|);
      scanner.idx := st.rest;
      r := Reply(st);
    }

    method Lookahead(n: nat) returns (r: Result<Option<Output<T>>, LexerError>)
      requires Valid() && Forwards() && LookaheadReturns(StepOf(), buffer, scanner.idx, n)
      modifies this, scanner
      ensures Valid()
      ensures Peeked(r, buffer, scanner.idx) == Stream.Lookahead(StepOf(), old(buffer), old(scanner.idx), n)
      ensures position == old(position) && lastLocation == old(lastLocation)
    {
      if n < |buffer| {
        return Ok(Some(buffer[n]));
      }
      ghost var b0, i0 := buffer, scanner.idx;
      var c := |buffer|;
      for k := c to n + 1
        invariant Valid()
        invariant Pull(StepOf(), i0, k - c).stop.Filled?
        invariant buffer == b0 + Pull(StepOf(), i0, k - c).outs
        invariant scanner.idx == Pull(StepOf(), i0, k - c).rest
        invariant position == old(position) && lastLocation == old(lastLocation)
      {
        LookaheadLoopStep(StepOf(), b0, i0, n, k - c);
        var token := Next();
        match token {
          case Err(e) => return Err(e);
          case Ok(None) => return Ok(None);
          case Ok(Some(o)) => buffer := buffer + [o];
        }
      }
      LookaheadLoopDone(StepOf(), b0, i0, n);
      return Ok(Some(buffer[|buffer| - 1]));
    }

    /** consume(): the front of the buffer, or a fresh next() result when it is empty;
        lastLocation becomes the location of the token returned. */
    method Consume() returns (r: Result<Output<T>, LexerError>)
      requires Valid() && Forwards() && CanConsume(StepOf(), buffer, scanner.idx)
      modifies this, scanner
      ensures Valid()
      ensures Consumed(r, buffer, scanner.idx) == Stream.Consume(StepOf(), old(buffer), old(scanner.idx))
      ensures r.Ok? ==> lastLocation == r.value.location
      ensures r.Err? ==> lastLocation == old(lastLocation)
      ensures position == old(position)
    {
      if buffer == [] {
        var token := Next();
        match token {
          case Err(e) => return Err(e);
          case Ok(Some(o)) =>
            lastLocation := o.location;
            return Ok(o);
        }
      } else {
        var token := buffer[0];
        buffer := buffer[1..];
        lastLocation := token.location;
        return Ok(token);
      }
    }

    /** consume(_ n:): pops exactly n elements and returns them; the position does not move. */
    method ConsumeCount(n: nat) returns (text: seq<char>)
      requires Valid() && scanner.idx + n <= |scanner.elements|
      modifies scanner
      ensures Valid() && scanner.idx == old(scanner.idx) + n
      ensures text == scanner.elements[old(scanner.idx)..scanner.idx]
      ensures position == old(position)
    {
      ghost var i0 := scanner.idx;
      text := [];
      for k := 0 to n
        invariant Valid() && scanner.idx == i0 + k
        invariant text == scanner.elements[i0..scanner.idx]
      {
        var c := scanner.Pop();
        text := text + [c];
      }
    }

    /** Pops the maximal run of elements satisfying p and returns it. */
    method ConsumeRun(p: char -> bool) returns (text: seq<char>)
      requires Valid()
      modifies scanner
      ensures Valid() && scanner.idx == RunEnd(scanner.elements, old(scanner.idx), p)
      ensures text == scanner.elements[old(scanner.idx)..scanner.idx]
      ensures position == old(position)
    {
      ghost var s, i0 := scanner.elements, scanner.idx;
      text := [];
      while scanner.Peek(0).Some? && p(scanner.Peek(0).value)
        invariant Valid() && i0 <= scanner.idx
        invariant RunEnd(s, scanner.idx, p) == RunEnd(s, i0, p)
        invariant text == s[i0..scanner.idx]
        decreases |s| - scanner.idx
      {
        var c := scanner.Pop();
        text := text + [c];
      }
    }

    /** consume(with:): the maximal run of elements in chars; afterwards the next element
        is absent or not in chars. */
    method ConsumeWith(chars: set<char>) returns (text: seq<char>)
      requires Valid()
      modifies scanner
      ensures Valid() && scanner.idx == RunEnd(scanner.elements, old(scanner.idx), Member(chars))
      ensures text == scanner.elements[old(scanner.idx)..scanner.idx]
      ensures forall c :: c in text ==> c in chars
      ensures scanner.Peek(0).None? || scanner.Peek(0).value !in chars
      ensures position == old(position)
    {
      text := ConsumeRun(Member(chars));
    }

    /** consume(upTo: predicate): despite its name, the maximal run of elements that
        satisfy the predicate. */
    method ConsumeWhile(predicate_: char -> bool) returns (text: seq<char>)
      requires Valid()
      modifies scanner
      ensures Valid() && scanner.idx == RunEnd(scanner.elements, old(scanner.idx), predicate_)
      ensures text == scanner.elements[old(scanner.idx)..scanner.idx]
      ensures forall j :: 0 <= j < |text| ==> predicate_(text[j])
      ensures scanner.Peek(0).None? || !predicate_(scanner.Peek(0).value)
      ensures position == old(position)
    {
      text := ConsumeRun(predicate_);
    }

    /** consume(upTo: target): stops before the first target, or at the end. */
    method ConsumeUpTo(target: char) returns (text: seq<char>)
      requires Valid()
      modifies scanner
      ensures Valid() && scanner.idx == RunEnd(scanner.elements, old(scanner.idx), Other(target))
      ensures text == scanner.elements[old(scanner.idx)..scanner.idx] && target !in text
      ensures scanner.Peek(0).None? || scanner.Peek(0).value == target
      ensures position == old(position)
    {
      text := ConsumeRun(Other(target));
    }

    /** Pops runs of whitespace and comments; a block comment left open fails with
        lastLocation (not the location of its opening) and leaves the cursor at the end. */
    method SkipWhitespace() returns (o: Outcome<LexerError>)
      requires Valid() && !SkipEnd(CharDelims, scanner.elements, scanner.idx).Diverges?
      modifies scanner
      ensures Valid() && position == old(position)
      ensures SkipEnd(CharDelims, scanner.elements, old(scanner.idx)).Skipped? ==>
                o == Pass && scanner.idx == SkipEnd(CharDelims, scanner.elements, old(scanner.idx)).end
      ensures SkipEnd(CharDelims, scanner.elements, old(scanner.idx)).Unmatched? ==>
                o == Fail(LexerError(Some(UnmatchedMessage), lastLocation)) && scanner.idx == |scanner.elements|
      decreases |scanner.elements| - scanner.idx
    {
      ghost var s, i0 := scanner.elements, scanner.idx;
      while scanner.Peek(0).Some?
        invariant Valid() && i0 <= scanner.idx
        invariant SkipEnd(CharDelims, s, scanner.idx) == SkipEnd(CharDelims, s, i0)
        decreases |s| - scanner.idx
      {
        var c := scanner.Peek(0).value;
        if c == '/' {
          if scanner.Peek(1) == Some('*') {
            o := SkipBlockComment();
            if o.Fail? {
              return;
            }
          } else if scanner.Peek(1) == Some('/') {
            SkipLineComment();
          } else {
            assert false;
          }
          o := SkipWhitespace();
          return;
        } else if c in Whitespace {
          var _ := scanner.Pop();
        } else {
          return Pass;
        }
      }
      return Pass;
    }

    // From an opening slash-star: a depth counter starting at 1, one element popped per step.
    method SkipBlockComment() returns (o: Outcome<LexerError>)
      requires Valid() && Pair(scanner.elements, scanner.idx, '/', '*')
      modifies scanner
      ensures Valid() && position == old(position)
      ensures BlockEnd(CharDelims, scanner.elements, old(scanner.idx) + 2, 1).Closed? ==>
                o == Pass && scanner.idx == BlockEnd(CharDelims, scanner.elements, old(scanner.idx) + 2, 1).end
      ensures BlockEnd(CharDelims, scanner.elements, old(scanner.idx) + 2, 1).Unclosed? ==>
                o == Fail(LexerError(Some(UnmatchedMessage), lastLocation)) && scanner.idx == |scanner.elements|
    {
      ghost var s, i0 := scanner.elements, scanner.idx;
      ghost var goal := BlockEnd(CharDelims, s, i0 + 2, 1);
      scanner.PopN(2);
      var depth: nat := 1;
      while true
        invariant scanner.Valid() && scanner.elements == s && i0 + 2 <= scanner.idx && depth >= 1
        invariant BlockEnd(CharDelims, s, scanner.idx, depth) == goal
        decreases |s| - scanner.idx
      {
        if scanner.Peek(0).None? {
          return Fail(LexerError(Some(UnmatchedMessage), lastLocation));
        }
        ghost var i, before := scanner.idx, depth;
        BlockStep(CharDelims, s, i, before);
        depth := StepDepth(depth);
        ghost var next := NextDepth(CharDelims, s, i, before);
        assert depth == next;
        var _ := scanner.Pop();
        if depth == 0 {
          break;
        }
        assert scanner.idx == i + 1;
        assert BlockEnd(CharDelims, s, i + 1, next) == goal;
        assert BlockEnd(CharDelims, s, scanner.idx, depth) == goal;
      }
      var _ := scanner.Pop();
      return Pass;
    }

    /** The depth counter after looking at the cursor: a star-slash closes one level,
        otherwise a slash-star opens one; nothing moves. */
    method StepDepth(depth: nat) returns (d: nat)
      requires scanner.Valid() && depth >= 1
      ensures d == NextDepth(CharDelims, scanner.elements, scanner.idx, depth)
      ensures d == depth - 1 <==> Pair(scanner.elements, scanner.idx, '*', '/')
    {
      var closing := scanner.HasPrefix("*/");
      PairPrefix(scanner, '*', '/');
      if closing {
        return depth - 1;
      }
      var opening := scanner.HasPrefix("/*");
      PairPrefix(scanner, '/', '*');
      if opening {
        return depth + 1;
      }
      return depth;
    }

    /** From a double slash: pops up to the next newline (not consumed) or the end. */
    method SkipLineComment()
      requires Valid() && Pair(scanner.elements, scanner.idx, '/', '/')
      modifies scanner
      ensures Valid() && position == old(position)
      ensures scanner.idx == LineEnd(CharDelims, scanner.elements, old(scanner.idx))
    {
      var _ := ConsumeUpTo('\n');
    }

    /** lookahead(aheadBy:) over raw elements: reads the cursor, moves nothing. */
    function LookaheadChar(n: nat): (r: Option<char>)
      reads this, scanner
      requires Valid()
      ensures r.Some? <==> scanner.idx + n < |scanner.elements|
      ensures r.Some? ==> r.value == scanner.elements[scanner.idx + n]
    {
      scanner.Peek(n)
    }

    /** The position-tracking pop: the only operation that moves `position`. */
    method Pop() returns (c: char)
      requires Valid() && scanner.idx < |scanner.elements|
      modifies this, scanner
      ensures Valid() && scanner.idx == old(scanner.idx) + 1 && c == scanner.elements[old(scanner.idx)]
      ensures c == '\n' ==> position == SourceLocation(old(position).line + 1, 1)
      ensures c != '\n' ==> position == SourceLocation(old(position).line, old(position).column + 1)
      ensures position == Advance(old(position), c, '\n')
      ensures buffer == old(buffer) && lastLocation == old(lastLocation)
    {
      c := scanner.Pop();
      if c == '\n' {
        position := SourceLocation(position.line + 1, 1);
      } else {
        position := SourceLocation(position.line, position.column + 1);
      }
    }
  }
}
