/** The position-tracking byte cursor of Sources/ByteScanner.swift. */
module ByteScanning {
  import opened Wrappers
  import opened Locations
  import opened Scanning

  /** A UTF-8 code unit. */
  newtype byte = x: int | 0 <= x < 256

  const NEWLINE: byte := 10

  /** The coordinate of index k of input s when counting starts at (1,1). */
  function LocationAt(s: seq<byte>, k: nat): (r: SourceLocation)
    requires k <= |s|
    ensures r.line >= 1 && r.column >= 1
  {
    Walk(Start, s[..k], NEWLINE)
  }

  /** A later byte has a later coordinate, so no two bytes share one. */
  lemma LocationMonotone(s: seq<byte>, j: nat, k: nat)
    requires j < k <= |s|
    ensures Precedes(LocationAt(s, j), LocationAt(s, k))
  {
    assert s[..k] == s[..j] + s[j..k];
    WalkAppend(Start, s[..j], s[j..k], NEWLINE);
  }

  class ByteScanner {
    const scanner: Scanner<byte>
    var position: SourceLocation

    /** The position is always the coordinate of the cursor: every byte popped so
        far went through the newline/column rule exactly once. */
    ghost predicate Valid()
      reads this, scanner
    {
      scanner.Valid() && position == LocationAt(scanner.elements, scanner.idx)
    }

    constructor (input: seq<byte>)
      ensures Valid() && fresh(scanner)
      ensures scanner.elements == input && scanner.idx == 0 && position == Start
    {
      scanner := new Scanner(input);
      position := SourceLocation(1, 1);
      assert input[..0] == [];
    }

    /** Forwards to the cursor: the byte n places ahead, if any. */
    function Peek(n: nat): (r: Option<byte>)
      reads this, scanner
      requires Valid()
      ensures r.Some? <==> scanner.idx + n < |scanner.elements|
      ensures r.Some? ==> r.value == scanner.elements[scanner.idx + n]
    {
      scanner.Peek(n)
    }

    /** Pops one byte and applies the newline/column rule to the position. */
    method Pop() returns (b: byte)
      requires Valid() && scanner.idx < |scanner.elements|
      modifies this, scanner
      ensures Valid()
      ensures scanner.idx == old(scanner.idx) + 1 && b == scanner.elements[old(scanner.idx)]
      ensures b == NEWLINE ==> position == SourceLocation(old(position).line + 1, 1)
      ensures b != NEWLINE ==> position == SourceLocation(old(position).line, old(position).column + 1)
    {
      b := scanner.Pop();
      if b == NEWLINE {
        position := SourceLocation(position.line + 1, 1);
      } else {
        position := SourceLocation(position.line, position.column + 1);
      }
      ghost var s := scanner.elements;
      assert s[..scanner.idx][..scanner.idx - 1] == s[..scanner.idx - 1];
    }

    /** n single pops: every newline in the run is counted. */
    method PopN(n: nat)
      requires Valid() && scanner.idx + n <= |scanner.elements|
      modifies this, scanner
      ensures Valid() && scanner.idx == old(scanner.idx) + n
      ensures position == Walk(old(position), scanner.elements[old(scanner.idx)..scanner.idx], NEWLINE)
    {
      ghost var s, i0 := scanner.elements, scanner.idx;
      for k := 0 to n
        invariant Valid() && scanner.idx == i0 + k
      {
        var _ := Pop();
      }
      assert s[..i0] + s[i0..scanner.idx] == s[..scanner.idx];
      WalkAppend(Start, s[..i0], s[i0..scanner.idx], NEWLINE);
    }

    /** Whether the upcoming bytes are p; neither cursor nor position moves. */
    method HasPrefix(p: seq<byte>) returns (b: bool)
      requires Valid()
      ensures b <==> (forall i :: 0 <= i < |p| ==> Peek(i) == Some(p[i]))
    {
      var i := 0;
      while i < |p|
        invariant 0 <= i <= |p|
        invariant forall j :: 0 <= j < i ==> Peek(j) == Some(p[j])
      {
        if Peek(i) != Some(p[i]) {
          return false;
        }
        i := i + 1;
      }
      return true;
    }

    /** Up to n upcoming bytes, in order; neither cursor nor position moves. */
    method Prefix(n: nat) returns (r: seq<byte>)
      requires Valid()
      ensures r == scanner.Remaining()[..Min(n, |scanner.Remaining()|)]
    {
      r := [];
      var i := 0;
      while i < n && Peek(i).Some?
        invariant i <= n && i <= |scanner.Remaining()|
        invariant r == scanner.Remaining()[..i]
      {
        r := r + [Peek(i).value];
        i := i + 1;
      }
    }
  }
}
