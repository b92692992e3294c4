/** Go's `defer` discipline for kernel resources, shared by `main` and
    `runTc`: every successful acquisition schedules its release, and on
    return the scheduled releases run last-in first-out. A trace records the
    foreign calls made, the acquisitions and the releases in order. */
module Defer {
  import opened Base

  datatype Event<R, C> = Call(call: C) | Acquire(res: R) | Release(res: R)

  /** A running function: what it has done so far, and the resources whose
      deferred release is still pending, oldest first. */
  datatype Scope<R, C> = Scope(trace: seq<Event<R, C>>, held: seq<R>)

  function Calls<R, C>(t: seq<Event<R, C>>): seq<C> {
    if |t| == 0 then []
    else (if t[0].Call? then [t[0].call] else []) + Calls(t[1..])
  }

  function Acquired<R, C>(t: seq<Event<R, C>>): seq<R> {
    if |t| == 0 then []
    else (if t[0].Acquire? then [t[0].res] else []) + Acquired(t[1..])
  }

  function Released<R, C>(t: seq<Event<R, C>>): seq<R> {
    if |t| == 0 then []
    else (if t[0].Release? then [t[0].res] else []) + Released(t[1..])
  }

  /** The reference meaning of "released in reverse order": replay the trace
      on a stack, pushing on every acquisition and popping on every release.
      A release of anything but the most recently acquired live resource
      (including one never acquired, or one already released) fails. */
  ghost function Replay<R, C>(stack: seq<R>, t: seq<Event<R, C>>): Option<seq<R>>
    decreases |t|
  {
    if |t| == 0 then Some(stack)
    else match t[0]
      case Call(_) => Replay(stack, t[1..])
      case Acquire(r) => Replay(stack + [r], t[1..])
      case Release(r) =>
        if |stack| > 0 && stack[|stack| - 1] == r then Replay(stack[..|stack| - 1], t[1..])
        else None
  }

  /** The pending releases are exactly the resources the trace left live. */
  ghost predicate Wf<R, C>(s: Scope<R, C>) {
    Replay([], s.trace) == Some(s.held)
  }

  /** A trace that leaves nothing live and never releases out of order. */
  ghost predicate Balanced<R, C>(t: seq<Event<R, C>>) {
    Replay([], t) == Some([])
  }

  lemma {:induction false} CallsAppend<R, C>(a: seq<Event<R, C>>, b: seq<Event<R, C>>)
    ensures Calls(a + b) == Calls(a) + Calls(b)
  {
    if |a| > 0 {
      CallsAppend(a[1..], b);
      assert (a + b)[1..] == a[1..] + b;
    } else {
      assert a + b == b;
    }
  }

  lemma {:induction false} AcquiredAppend<R, C>(a: seq<Event<R, C>>, b: seq<Event<R, C>>)
    ensures Acquired(a + b) == Acquired(a) + Acquired(b)
  {
    if |a| > 0 {
      AcquiredAppend(a[1..], b);
      assert (a + b)[1..] == a[1..] + b;
    } else {
      assert a + b == b;
    }
  }

  lemma {:induction false} ReleasedAppend<R, C>(a: seq<Event<R, C>>, b: seq<Event<R, C>>)
    ensures Released(a + b) == Released(a) + Released(b)
  {
    if |a| > 0 {
      ReleasedAppend(a[1..], b);
      assert (a + b)[1..] == a[1..] + b;
    } else {
      assert a + b == b;
    }
  }

  lemma ProjectionsAppend<R, C>(a: seq<Event<R, C>>, b: seq<Event<R, C>>)
    ensures Calls(a + b) == Calls(a) + Calls(b)
    ensures Acquired(a + b) == Acquired(a) + Acquired(b)
    ensures Released(a + b) == Released(a) + Released(b)
  {
    CallsAppend(a, b);
    AcquiredAppend(a, b);
    ReleasedAppend(a, b);
  }

  lemma {:induction false} ReplayAppend<R, C>(stack: seq<R>, a: seq<Event<R, C>>, b: seq<Event<R, C>>)
    decreases |a|
    ensures Replay(stack, a + b) ==
      (match Replay(stack, a) case None => None case Some(m) => Replay(m, b))
  {
    if |a| == 0 {
      assert a + b == b;
    } else {
      assert (a + b)[1..] == a[1..] + b;
      match a[0]
      case Call(_) => ReplayAppend(stack, a[1..], b);
      case Acquire(r) => ReplayAppend(stack + [r], a[1..], b);
      case Release(r) =>
        if |stack| > 0 && stack[|stack| - 1] == r {
          ReplayAppend(stack[..|stack| - 1], a[1..], b);
        }
    }
  }

  function Empty<R, C>(): (s: Scope<R, C>)
    ensures Wf(s)
  {
    Scope([], [])
  }

  /** A foreign call that acquires nothing (or whose failure is handled). */
  function Do<R, C>(s: Scope<R, C>, c: C): (s': Scope<R, C>)
    ensures Wf(s) ==> Wf(s')
    ensures s'.held == s.held
    ensures Calls(s'.trace) == Calls(s.trace) + [c]
    ensures Acquired(s'.trace) == Acquired(s.trace)
    ensures Released(s'.trace) == Released(s.trace)
  {
    var e: Event<R, C> := Call(c);
    ProjectionsAppend(s.trace, [e]);
    ReplayAppend([], s.trace, [e]);
    Scope(s.trace + [e], s.held)
  }

  /** A successful acquisition followed by `defer x.Close()`. */
  function Push<R, C>(s: Scope<R, C>, r: R): (s': Scope<R, C>)
    ensures Wf(s) ==> Wf(s')
    ensures s'.held == s.held + [r]
    ensures Calls(s'.trace) == Calls(s.trace)
    ensures Acquired(s'.trace) == Acquired(s.trace) + [r]
    ensures Released(s'.trace) == Released(s.trace)
  {
    var e: Event<R, C> := Acquire(r);
    ProjectionsAppend(s.trace, [e]);
    ReplayAppend([], s.trace, [e]);
    Scope(s.trace + [e], s.held + [r])
  }

  /** An explicit, non-deferred release of the most recent acquisition. */
  function Drop<R, C>(s: Scope<R, C>): (s': Scope<R, C>)
    requires |s.held| > 0
    ensures Wf(s) ==> Wf(s')
    ensures s'.held == s.held[..|s.held| - 1]
    ensures Calls(s'.trace) == Calls(s.trace)
    ensures Acquired(s'.trace) == Acquired(s.trace)
    ensures Released(s'.trace) == Released(s.trace) + [s.held[|s.held| - 1]]
  {
    var e: Event<R, C> := Release(s.held[|s.held| - 1]);
    ProjectionsAppend(s.trace, [e]);
    ReplayAppend([], s.trace, [e]);
    Scope(s.trace + [e], s.held[..|s.held| - 1])
  }

  /** The deferred releases, run in reverse order of acquisition. */
  function Unwind<R, C>(held: seq<R>): (t: seq<Event<R, C>>)
    ensures |t| == |held|
    ensures forall i :: 0 <= i < |t| ==> t[i] == Release(held[|held| - 1 - i])
  {
    if |held| == 0 then [] else [Release(held[|held| - 1])] + Unwind(held[..|held| - 1])
  }

  lemma {:induction false} UnwindFacts<R, C>(held: seq<R>)
    ensures Replay(held, Unwind<R, C>(held)) == Some([])
    ensures Calls(Unwind<R, C>(held)) == []
    ensures Acquired(Unwind<R, C>(held)) == []
    ensures Released(Unwind<R, C>(held)) == Reverse(held)
  {
    if |held| > 0 {
      var t := Unwind<R, C>(held);
      UnwindFacts<R, C>(held[..|held| - 1]);
      assert t[1..] == Unwind<R, C>(held[..|held| - 1]);
    }
  }

  /** Returning from the function: the trace so far, then the deferred releases. */
  function Close<R, C>(s: Scope<R, C>): (t: seq<Event<R, C>>)
    ensures Wf(s) ==> Balanced(t)
    ensures Calls(t) == Calls(s.trace)
    ensures Acquired(t) == Acquired(s.trace)
    ensures Released(t) == Released(s.trace) + Reverse(s.held)
    ensures |t| == |s.trace| + |s.held|
    ensures t[..|s.trace|] == s.trace
    ensures forall i :: |s.trace| <= i < |t| ==> t[i].Release?
  {
    var u := Unwind<R, C>(s.held);
    UnwindFacts<R, C>(s.held);
    ProjectionsAppend(s.trace, u);
    ReplayAppend([], s.trace, u);
    s.trace + u
  }

  /** Moving one element between the stack and the released side keeps
      the multiset balance. */
  lemma MoveOne<R>(stack: seq<R>, popped: seq<R>, r: R, acquired: seq<R>, released: seq<R>, final: seq<R>)
    requires stack == popped + [r]
    requires multiset(popped) + multiset(acquired) == multiset(final) + multiset(released)
    ensures multiset(stack) + multiset(acquired) == multiset(final) + multiset([r] + released)
  {
    calc {
      multiset(stack) + multiset(acquired);
      multiset(popped) + multiset{r} + multiset(acquired);
      (multiset(popped) + multiset(acquired)) + multiset{r};
      multiset(final) + multiset(released) + multiset{r};
      multiset(final) + multiset([r] + released);
    }
  }

  /** Likewise for an element moving from the stack to the acquired side. */
  lemma ShiftOne<R>(stack: seq<R>, r: R, acquired: seq<R>, released: seq<R>, final: seq<R>)
    requires multiset(stack + [r]) + multiset(acquired) == multiset(final) + multiset(released)
    ensures multiset(stack) + multiset([r] + acquired) == multiset(final) + multiset(released)
  {
    calc {
      multiset(stack) + multiset([r] + acquired);
      multiset(stack) + multiset{r} + multiset(acquired);
      multiset(stack + [r]) + multiset(acquired);
    }
  }

  /** In a balanced trace every acquired resource is released, and nothing
      else is: the releases are a permutation of the acquisitions. */
  lemma {:induction false} BalancedReleasesAll<R, C>(stack: seq<R>, t: seq<Event<R, C>>, final: seq<R>)
    requires Replay(stack, t) == Some(final)
    decreases |t|
    ensures multiset(stack) + multiset(Acquired(t)) == multiset(final) + multiset(Released(t))
  {
    if |t| == 0 {
      return;
    }
    var e, rest := t[0], t[1..];
    if e.Call? {
      assert Replay(stack, rest) == Some(final);
      BalancedReleasesAll(stack, rest, final);
      assert Acquired(t) == Acquired(rest) && Released(t) == Released(rest);
    } else if e.Acquire? {
      assert Replay(stack + [e.res], rest) == Some(final);
      BalancedReleasesAll(stack + [e.res], rest, final);
      assert Acquired(t) == [e.res] + Acquired(rest) && Released(t) == Released(rest);
      ShiftOne(stack, e.res, Acquired(rest), Released(rest), final);
    } else {
      var popped := stack[..|stack| - 1];
      assert stack == popped + [e.res] && Replay(popped, rest) == Some(final) by {
        assert |stack| > 0 && stack[|stack| - 1] == e.res;
      }
      BalancedReleasesAll(popped, rest, final);
      assert Acquired(t) == Acquired(rest) && Released(t) == [e.res] + Released(rest);
      MoveOne(stack, popped, e.res, Acquired(rest), Released(rest), final);
    }
  }
}
