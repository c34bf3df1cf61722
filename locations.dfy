/** Source coordinates and the newline/column rule shared by every position-tracking pop. */
module Locations {

  /** A 1-based (line, column) pair. */
  datatype SourceLocation = SourceLocation(line: nat, column: nat)

  /** The position of a fresh cursor. */
  const Start: SourceLocation := SourceLocation(1, 1)

  /** Whether a comes strictly before b in reading order. */
  predicate Precedes(a: SourceLocation, b: SourceLocation)
  {
    a.line < b.line || (a.line == b.line && a.column < b.column)
  }

  /** The coordinate after popping `e` at `loc`: a newline starts the next line,
      any other element moves one column to the right. */
  function Advance<E(==)>(loc: SourceLocation, e: E, newline: E): (r: SourceLocation)
    ensures Precedes(loc, r)
    ensures r.line == loc.line <==> e != newline
    ensures e == newline ==> r.line == loc.line + 1 && r.column == 1
    ensures e != newline ==> r.column == loc.column + 1
  {
    if e == newline then SourceLocation(loc.line + 1, 1)
    else SourceLocation(loc.line, loc.column + 1)
  }

  /** The coordinate after popping every element of `run`, one at a time, from `loc`. */
  function Walk<E(==)>(loc: SourceLocation, run: seq<E>, newline: E): (r: SourceLocation)
    ensures run != [] ==> Precedes(loc, r)
    ensures loc.column >= 1 ==> r.column >= 1
    decreases |run|
  {
    if run == [] then loc
    else Advance(Walk(loc, run[..|run| - 1], newline), run[|run| - 1], newline)
  }

  /** The number of occurrences of `e` in `s`. */
  function Count<E(==)>(s: seq<E>, e: E): nat
    decreases |s|
  {
    if s == [] then 0
    else Count(s[..|s| - 1], e) + (if s[|s| - 1] == e then 1 else 0)
  }

  /** Popping a + b is popping a, then popping b. */
  lemma {:induction false} WalkAppend<E>(loc: SourceLocation, a: seq<E>, b: seq<E>, newline: E)
    ensures Walk(loc, a + b, newline) == Walk(Walk(loc, a, newline), b, newline)
    decreases |b|
  {
    if b == [] {
      assert a + b == a;
    } else {
      var b' := b[..|b| - 1];
      assert (a + b)[..|a + b| - 1] == a + b';
      assert (a + b)[|a + b| - 1] == b[|b| - 1];
      WalkAppend(loc, a, b', newline);
    }
  }

  /** The line grows by exactly the number of newlines popped, so it never decreases. */
  lemma {:induction false} WalkLines<E>(loc: SourceLocation, run: seq<E>, newline: E)
    ensures Walk(loc, run, newline).line == loc.line + Count(run, newline)
    ensures Walk(loc, run, newline).line >= loc.line
    decreases |run|
  {
    if run != [] {
      WalkLines(loc, run[..|run| - 1], newline);
    }
  }

  /** Within a line the column grows by one per element popped. */
  lemma {:induction false} WalkWithinLine<E>(loc: SourceLocation, run: seq<E>, newline: E)
    requires newline !in run
    ensures Walk(loc, run, newline) == SourceLocation(loc.line, loc.column + |run|)
    decreases |run|
  {
    if run != [] {
      var r' := run[..|run| - 1];
      assert forall x :: x in r' ==> x in run;
      WalkWithinLine(loc, r', newline);
    }
  }

  /** After the last newline of a run the column counts from 1 again. */
  lemma {:induction false} WalkAfterNewline<E>(loc: SourceLocation, before: seq<E>, after: seq<E>, newline: E)
    requires newline !in after
    ensures Walk(loc, before + [newline] + after, newline)
         == SourceLocation(Walk(loc, before, newline).line + 1, 1 + |after|)
  {
    WalkAppend(loc, before + [newline], after, newline);
    WalkAppend(loc, before, [newline], newline);
    var mid := Walk(loc, before, newline);
    assert [newline][..0] == [];
    assert Walk(mid, [newline], newline) == SourceLocation(mid.line + 1, 1);
    WalkWithinLine(SourceLocation(mid.line + 1, 1), after, newline);
  }
}
