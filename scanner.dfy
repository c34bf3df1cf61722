/** The forward-only cursor of Sources/Scanner.swift: an index into an immutable sequence. */
module Scanning {
  import opened Wrappers

  /** Why a checked pop failed. */
  datatype Reason = EndOfStream

  function Min(a: nat, b: nat): nat
  {
    if a <= b then a else b
  }

  class Scanner<E(==)> {
    const elements: seq<E>
    var idx: nat

    /** The cursor never leaves the input; idx == |elements| is end of stream. */
    ghost predicate Valid()
      reads this
    {
      idx <= |elements|
    }

    /** The elements not yet popped. */
    ghost function Remaining(): seq<E>
      reads this
      requires Valid()
    {
      elements[idx..]
    }

    constructor (data: seq<E>)
      ensures Valid() && elements == data && idx == 0
      ensures Remaining() == data
    {
      elements := data;
      idx := 0;
    }

    /** The element n places ahead, if there is one. */
    function Peek(n: nat): (r: Option<E>)
      reads this
      requires Valid()
      ensures r.Some? <==> n < |Remaining()|
      ensures r.Some? ==> r.value == Remaining()[n]
    {
      if idx + n < |elements| then Some(elements[idx + n]) else None
    }

    /** Unchecked pop: the caller must have peeked first. */
    method Pop() returns (e: E)
      requires Valid() && idx < |elements|
      modifies this
      ensures Valid() && idx == old(idx) + 1
      ensures e == old(Remaining())[0] && Remaining() == old(Remaining())[1..]
    {
      e := elements[idx];
      idx := idx + 1;
    }

    /** Checked pop: fails with EndOfStream, without moving, at the end. */
    method AttemptPop() returns (r: Result<E, Reason>)
      requires Valid()
      modifies this
      ensures Valid()
      ensures old(idx) == |elements| ==> r == Err(EndOfStream) && idx == old(idx)
      ensures old(idx) < |elements| ==> r == Ok(elements[old(idx)]) && idx == old(idx) + 1
    {
      if idx >= |elements| {
        return Err(EndOfStream);
      }
      var e := elements[idx];
      idx := idx + 1;
      return Ok(e);
    }

    /** Skips n elements without returning them. */
    method PopN(n: nat)
      requires Valid() && idx + n <= |elements|
      modifies this
      ensures Valid() && idx == old(idx) + n
      ensures Remaining() == old(Remaining())[n..]
    {
      idx := idx + n;
    }

    /** Whether the upcoming elements spell p; nothing moves. */
    method HasPrefix(p: seq<E>) returns (b: bool)
      requires Valid()
      ensures b <==> (forall i :: 0 <= i < |p| ==> Peek(i) == Some(p[i]))
    {
      var i := 0;
      while i < |p|
        invariant 0 <= i <= |p|
        invariant forall j :: 0 <= j < i ==> Peek(j) == Some(p[j])
      {
        if Peek(i) != Some(p[i]) {
          return false;
        }
        i := i + 1;
      }
      return true;
    }

    /** The next min(n, remaining) elements, in order; nothing moves. */
    method Prefix(n: nat) returns (r: seq<E>)
      requires Valid()
      ensures r == Remaining()[..Min(n, |Remaining()|)]
    {
      r := [];
      var i := 0;
      while i < n && Peek(i).Some?
        invariant i <= n && i <= |Remaining()|
        invariant r == Remaining()[..i]
      {
        r := r + [Peek(i).value];
        i := i + 1;
      }
    }

    function IsEmpty(): (b: bool)
      reads this
      requires Valid()
      ensures b <==> Remaining() == []
    {
      idx >= |elements|
    }
  }

  /** The upcoming elements spell p exactly when every p[i] is what peek(aheadBy: i) gives. */
  lemma PeeksSpellPrefix<E>(sc: Scanner<E>, p: seq<E>)
    requires sc.Valid()
    ensures (forall i :: 0 <= i < |p| ==> sc.Peek(i) == Some(p[i]))
        <==> (|p| <= |sc.Remaining()| && sc.Remaining()[..|p|] == p)
  {
    if forall i :: 0 <= i < |p| ==> sc.Peek(i) == Some(p[i]) {
      if |p| > 0 { assert sc.Peek(|p| - 1).Some?; }
      forall j | 0 <= j < |p| ensures sc.Remaining()[..|p|][j] == p[j] {
        assert sc.Peek(j) == Some(p[j]);
      }
    }
  }
}
