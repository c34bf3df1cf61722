/** The lookahead buffer shared by both lexers (Sources/Lexer.swift:26-51 and
    Sources/BetterLexer.swift:15-37), stated over an abstract `next()` step: a function from
    the cursor index to what one call of `next()` does there. */
module Stream {
  import opened Wrappers

  /** One call of next(): a token and the cursor after it, end of stream, an error, or a
      call that never returns.  `rest` is the cursor the call leaves behind. */
  datatype Step<O, Er> = Produced(out: O, rest: nat) | Exhausted(rest: nat) | Failed(error: Er, rest: nat) | Hangs

  /** next() moves the cursor forward and stays within an input of length n. */
  predicate Fits<O, Er>(st: Step<O, Er>, i: nat, n: nat)
  {
    st.Hangs? || i <= st.rest <= n
  }

  ghost predicate Forward<O, Er>(step: nat -> Step<O, Er>, n: nat)
  {
    forall i :: 0 <= i <= n ==> Fits(step(i), i, n)
  }

  /** What the caller of next() sees. */
  function Reply<O, Er>(st: Step<O, Er>): Result<Option<O>, Er>
    requires !st.Hangs?
  {
    match st
    case Produced(o, _) => Ok(Some(o))
    case Exhausted(_) => Ok(None)
    case Failed(e, _) => Err(e)
  }

  /** How a run of calls stopped: all done, the stream ended, an error, or a hang. */
  datatype Stop<Er> = Filled | Dry | Broke(error: Er) | Stuck

  /** The tokens of up to m calls of next() from cursor i, the cursor after them, and how they stopped. */
  datatype Pulled<O, Er> = Pulled(outs: seq<O>, rest: nat, stop: Stop<Er>)

  function Pull<O, Er>(step: nat -> Step<O, Er>, i: nat, m: nat): (p: Pulled<O, Er>)
    ensures |p.outs| <= m
    ensures p.stop.Filled? <==> |p.outs| == m
    decreases m
  {
    if m == 0 then Pulled([], i, Filled)
    else match step(i)
      case Produced(o, r) =>
        var p := Pull(step, r, m - 1);
        Pulled([o] + p.outs, p.rest, p.stop)
      case Exhausted(r) => Pulled([], r, Dry)
      case Failed(e, r) => Pulled([], r, Broke(e))
      case Hangs => Pulled([], i, Stuck)
  }

  /** One more call after a run that has not stopped. */
  function Extend<O, Er>(p: Pulled<O, Er>, st: Step<O, Er>): Pulled<O, Er>
  {
    match st
    case Produced(o, r) => Pulled(p.outs + [o], r, Filled)
    case Exhausted(r) => Pulled(p.outs, r, Dry)
    case Failed(e, r) => Pulled(p.outs, r, Broke(e))
    case Hangs => Pulled(p.outs, p.rest, Stuck)
  }

  /** m + 1 calls are m calls and then one call at the cursor they leave. */
  lemma {:induction false} PullSnoc<O, Er>(step: nat -> Step<O, Er>, i: nat, m: nat)
    requires Pull(step, i, m).stop.Filled?
    ensures Pull(step, i, m + 1) == Extend(Pull(step, i, m), step(Pull(step, i, m).rest))
    decreases m
  {
    if m == 0 {
      match step(i)
      case Produced(o, r) => assert [] + [o] == [o];
      case Exhausted(_) =>
      case Failed(_, _) =>
      case Hangs =>
    } else {
      var o, r := step(i).out, step(i).rest;
      var q := Pull(step, r, m - 1);
      PullSnoc(step, r, m - 1);
      match step(q.rest)
      case Produced(x, _) => assert [o] + (q.outs + [x]) == ([o] + q.outs) + [x];
      case Exhausted(_) =>
      case Failed(_, _) =>
      case Hangs =>
    }
  }

  /** A run that has stopped stays stopped: asking for more calls gives the same outcome. */
  lemma {:induction false} PullStable<O, Er>(step: nat -> Step<O, Er>, i: nat, j: nat, m: nat)
    requires j <= m && !Pull(step, i, j).stop.Filled?
    ensures Pull(step, i, m) == Pull(step, i, j)
    decreases j
  {
    if step(i).Produced? {
      PullStable(step, step(i).rest, j - 1, m - 1);
    }
  }

  /** The result of lookahead(aheadBy: n), and the buffer and cursor it leaves. */
  datatype Peeked<O, Er> = Peeked(result: Result<Option<O>, Er>, buffer: seq<O>, rest: nat)

  /** lookahead(aheadBy: n) returns, i.e. none of the calls it makes hangs. */
  predicate LookaheadReturns<O, Er>(step: nat -> Step<O, Er>, buffer: seq<O>, i: nat, n: nat)
  {
    n < |buffer| || !Pull(step, i, n + 1 - |buffer|).stop.Stuck?
  }

  function Max(a: nat, b: nat): nat
  {
    if a >= b then a else b
  }

  /** An entry already buffered is returned as it is; otherwise next() results are appended
      until the buffer holds n + 1 entries, and the last is returned, or none at the end. */
  function Lookahead<O, Er>(step: nat -> Step<O, Er>, buffer: seq<O>, i: nat, n: nat): (r: Peeked<O, Er>)
    requires LookaheadReturns(step, buffer, i, n)
    ensures n < |buffer| ==> r == Peeked(Ok(Some(buffer[n])), buffer, i)
    ensures buffer <= r.buffer && |r.buffer| <= Max(|buffer|, n + 1)
    ensures r.result.Ok? && r.result.value.Some? <==> n < |r.buffer|
    ensures n < |r.buffer| ==> r.result == Ok(Some(r.buffer[n]))
  {
    if n < |buffer| then Peeked(Ok(Some(buffer[n])), buffer, i)
    else
      var p := Pull(step, i, n + 1 - |buffer|);
      var b := buffer + p.outs;
      match p.stop
      case Filled => Peeked(Ok(Some(b[|b| - 1])), b, p.rest)
      case Dry => Peeked(Ok(None), b, p.rest)
      case Broke(e) => Peeked(Err(e), b, p.rest)
  }

  /** One call of the lookahead loop: after j successful calls the next call does not hang,
      and either extends the run or decides the whole lookahead. */
  lemma LookaheadLoopStep<O, Er>(step: nat -> Step<O, Er>, buffer: seq<O>, i: nat, n: nat, j: nat)
    requires |buffer| <= n && j < n + 1 - |buffer|
    requires LookaheadReturns(step, buffer, i, n) && Pull(step, i, j).stop.Filled?
    ensures var p := Pull(step, i, j); var st := step(p.rest);
      && !st.Hangs?
      && (st.Produced? ==> Pull(step, i, j + 1) == Pulled(p.outs + [st.out], st.rest, Filled))
      && (st.Exhausted? ==> Lookahead(step, buffer, i, n) == Peeked(Ok(None), buffer + p.outs, st.rest))
      && (st.Failed? ==> Lookahead(step, buffer, i, n) == Peeked(Err(st.error), buffer + p.outs, st.rest))
  {
    var m := n + 1 - |buffer|;
    PullSnoc(step, i, j);
    if !step(Pull(step, i, j).rest).Produced? {
      PullStable(step, i, j + 1, m);
    }
  }

  /** The lookahead loop ran to completion: the entry returned is the last one buffered. */
  lemma LookaheadLoopDone<O, Er>(step: nat -> Step<O, Er>, buffer: seq<O>, i: nat, n: nat)
    requires |buffer| <= n && Pull(step, i, n + 1 - |buffer|).stop.Filled?
    ensures LookaheadReturns(step, buffer, i, n)
    ensures var p := Pull(step, i, n + 1 - |buffer|);
      Lookahead(step, buffer, i, n) == Peeked(Ok(Some((buffer + p.outs)[n])), buffer + p.outs, p.rest)
  {
  }

  /** consume()/pop() can run: something is buffered, or next() yields a token or an error
      (the source force-unwraps next() when the buffer is empty). */
  predicate CanConsume<O, Er>(step: nat -> Step<O, Er>, buffer: seq<O>, i: nat)
  {
    buffer != [] || step(i).Produced? || step(i).Failed?
  }

  datatype Consumed<O, Er> = Consumed(result: Result<O, Er>, buffer: seq<O>, rest: nat)

  /** consume()/pop(): the front of the buffer, or else one fresh next() result. */
  function Consume<O, Er>(step: nat -> Step<O, Er>, buffer: seq<O>, i: nat): (r: Consumed<O, Er>)
    requires CanConsume(step, buffer, i)
    ensures buffer != [] ==> r.result.Ok? && [r.result.value] + r.buffer == buffer && r.rest == i
    ensures buffer == [] ==> r.buffer == [] && r.rest == step(i).rest
    ensures buffer == [] && r.result.Ok? ==> Reply(step(i)) == Ok(Some(r.result.value))
    ensures buffer == [] && r.result.Err? ==> Reply(step(i)) == Err(r.result.error)
  {
    if buffer != [] then Consumed(Ok(buffer[0]), buffer[1..], i)
    else match step(i)
      case Produced(o, r) => Consumed(Ok(o), [], r)
      case Failed(e, r) => Consumed(Err(e), [], r)
  }

  /** The tokens delivered by k consume() calls in a row, and why they stopped early. */
  datatype Drained<O, Er> = Drained(outs: seq<O>, stop: Stop<Er>)

  function Drain<O, Er>(step: nat -> Step<O, Er>, buffer: seq<O>, i: nat, k: nat): (d: Drained<O, Er>)
    ensures |d.outs| <= k
    decreases k
  {
    if k == 0 then Drained([], Filled)
    else if !CanConsume(step, buffer, i) then Drained([], if step(i).Hangs? then Stuck else Dry)
    else
      var c := Consume(step, buffer, i);
      match c.result
      case Err(e) => Drained([], Broke(e))
      case Ok(o) =>
        var d := Drain(step, c.buffer, c.rest, k - 1);
        Drained([o] + d.outs, d.stop)
  }

  /** FIFO: the first k consume() calls deliver the first k buffered entries, in order. */
  lemma {:induction false} DrainBuffered<O, Er>(step: nat -> Step<O, Er>, buffer: seq<O>, i: nat, k: nat)
    requires k <= |buffer|
    ensures Drain(step, buffer, i, k) == Drained(buffer[..k], Filled)
    decreases k
  {
    if k > 0 {
      DrainBuffered(step, buffer[1..], i, k - 1);
      assert [buffer[0]] + buffer[1..][..k - 1] == buffer[..k];
    }
  }

  /** Once next() reports the end, it keeps reporting it. */
  ghost predicate EndPersists<O, Er>(step: nat -> Step<O, Er>)
  {
    forall j, r :: step(j) == Exhausted(r) ==> step(r).Exhausted?
  }

  /** Consuming what a run of next() calls produced, then going on, is the same as calling
      next() directly. */
  lemma {:induction false} PullThenDrain<O, Er>(step: nat -> Step<O, Er>, i: nat, m: nat, k: nat)
    requires EndPersists(step)
    requires Pull(step, i, m).stop.Filled? || Pull(step, i, m).stop.Dry?
    ensures Drain(step, Pull(step, i, m).outs, Pull(step, i, m).rest, k) == Drain(step, [], i, k)
    decreases m
  {
    if m > 0 && k > 0 {
      match step(i)
      case Produced(o, r) =>
        var q := Pull(step, r, m - 1);
        assert ([o] + q.outs)[1..] == q.outs;
        PullThenDrain(step, r, m - 1, k - 1);
      case Exhausted(r) =>
        assert step(r).Exhausted?;
    }
  }

  lemma {:induction false} BufferedThenPulled<O, Er>(step: nat -> Step<O, Er>, buffer: seq<O>, i: nat, m: nat, k: nat)
    requires EndPersists(step)
    requires Pull(step, i, m).stop.Filled? || Pull(step, i, m).stop.Dry?
    ensures Drain(step, buffer + Pull(step, i, m).outs, Pull(step, i, m).rest, k) == Drain(step, buffer, i, k)
    decreases |buffer|
  {
    var p := Pull(step, i, m);
    if buffer == [] {
      assert buffer + p.outs == p.outs;
      PullThenDrain(step, i, m, k);
    } else if k > 0 {
      assert (buffer + p.outs)[0] == buffer[0];
      assert (buffer + p.outs)[1..] == buffer[1..] + p.outs;
      BufferedThenPulled(step, buffer[1..], i, m, k - 1);
    }
  }

  /** Lookahead is transparent: when lookahead(aheadBy: n) returns without an error, any
      number k of consume() calls afterwards deliver exactly what k consume() calls
      deliver without it, and stop the same way. */
  lemma {:induction false} LookaheadTransparent<O, Er>(step: nat -> Step<O, Er>, buffer: seq<O>, i: nat, n: nat, k: nat)
    requires EndPersists(step)
    requires LookaheadReturns(step, buffer, i, n) && !Lookahead(step, buffer, i, n).result.Err?
    ensures Drain(step, Lookahead(step, buffer, i, n).buffer, Lookahead(step, buffer, i, n).rest, k)
         == Drain(step, buffer, i, k)
  {
    if n >= |buffer| {
      BufferedThenPulled(step, buffer, i, n + 1 - |buffer|, k);
    }
  }

  /** A next() that throws after moving the cursor past a bad token, and then yields 7. */
  function ThrowThenToken(j: nat): Step<int, string>
  {
    if j == 0 then Failed("bad", 1) else if j == 1 then Produced(7, 2) else Exhausted(j)
  }

  /** Without its no-error condition LookaheadTransparent fails: a lookahead that throws
      leaves the cursor where next() moved it, so a later consume() delivers the token after
      the bad one, whereas consume() alone throws. */
  lemma ThrowingLookaheadNotTransparent()
    ensures EndPersists(ThrowThenToken) && LookaheadReturns(ThrowThenToken, [], 0, 0)
    ensures Lookahead(ThrowThenToken, [], 0, 0) == Peeked(Err("bad"), [], 1)
    ensures Drain(ThrowThenToken, [], 1, 1) == Drained([7], Filled)
    ensures Drain(ThrowThenToken, [], 0, 1) == Drained([], Broke("bad"))
  {
    assert Pull(ThrowThenToken, 0, 1) == Pulled([], 1, Broke("bad"));
    assert Drain(ThrowThenToken, [], 2, 0) == Drained([], Filled);
  }

  /** Repeating a lookahead that found an entry returns the same entry and changes nothing. */
  lemma LookaheadIdempotent<O, Er>(step: nat -> Step<O, Er>, buffer: seq<O>, i: nat, n: nat)
    requires LookaheadReturns(step, buffer, i, n)
    requires Lookahead(step, buffer, i, n).result.Ok? && Lookahead(step, buffer, i, n).result.value.Some?
    ensures var la := Lookahead(step, buffer, i, n);
            LookaheadReturns(step, la.buffer, la.rest, n) && Lookahead(step, la.buffer, la.rest, n) == la
  {
  }
}
