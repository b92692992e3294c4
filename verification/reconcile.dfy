/** `openTc` and `runTc` (main.go:264-320): set up a placeholder program and
    a netlink connection, then re-install the same filter on every tick until
    the context is cancelled. The program loader, the netlink client and the
    ticker are replaced by the outcomes they report. */
module Reconcile {
  import opened Base
  import D = Defer
  import opened TcFilter

  /** Resources `runTc` releases with `defer`. */
  datatype TcResource = TcProg | Conn | Ticker

  /** Foreign calls, each with the outcome it reported where one matters. */
  datatype TcCall =
    | NewProg                          // newTcProg: ebpf.NewProgram
    | Open                             // tc.Open
    | SetExtAck                        // rtnl.SetOption(nl.ExtendedAcknowledge, true)
    | Replace(obj: TcObject, ok: bool) // rtnl.Filter().Replace(obj), via setTcFilter

  datatype TcError = NewProgError | OpenError | SetOptionError

  /** What the setup calls report: the new program's descriptor or a
      failure, then whether `tc.Open` and `SetOption` succeed. */
  datatype Setup = Setup(prog: Option<int>, open: bool, setOption: bool)

  /** What the `select` sees: a tick together with the outcome of the replace
      it triggers, or the context being done. */
  datatype TcEvent = Tick(replaceOk: bool) | Cancel

  /** `runTc` returned (with or without an error), or is still looping when
      the events run out. */
  datatype Status = Returned(err: Option<TcError>) | Looping

  type Trace = seq<D.Event<TcResource, TcCall>>
  type Scope = D.Scope<TcResource, TcCall>

  datatype TcRun = TcRun(trace: Trace, status: Status)

  predicate SetupOk(setup: Setup) {
    setup.prog.Some? && setup.open && setup.setOption
  }

  /** `openTc`: a connection whose `SetOption` fails is closed before the
      error is returned; on success the caller owns the connection and
      defers its close. */
  function OpenTc(s: Scope, setup: Setup): (r: (Scope, Option<TcError>))
    ensures D.Wf(s) ==> D.Wf(r.0)
    ensures r.1 == (if !setup.open then Some(OpenError)
                    else if !setup.setOption then Some(SetOptionError) else None)
    ensures r.1.None? ==> r.0.held == s.held + [Conn]
    ensures r.1.Some? ==> r.0.held == s.held
    ensures D.Acquired(r.0.trace) == D.Acquired(s.trace) + (if setup.open then [Conn] else [])
    ensures D.Released(r.0.trace) == D.Released(s.trace) + (if setup.open && !setup.setOption then [Conn] else [])
    ensures D.Calls(r.0.trace) == D.Calls(s.trace) + (if setup.open then [Open, SetExtAck] else [Open])
  {
    var s := D.Do(s, Open);
    if !setup.open then (s, Some(OpenError))
    else
      var s := D.Do(D.Push(s, Conn), SetExtAck);
      if !setup.setOption then (D.Drop(s), Some(SetOptionError))
      else (s, None)
  }

  /** The `for { select { ... } }` loop: one replace per tick with the same
      descriptor; a failed replace is only logged. */
  function Loop(s: Scope, obj: TcObject, events: seq<TcEvent>): TcRun
    decreases |events|
  {
    if |events| == 0 then TcRun(s.trace, Looping)
    else match events[0]
      case Cancel => TcRun(D.Close(s), Returned(None))
      case Tick(ok) => Loop(D.Do(s, Replace(obj, ok)), obj, events[1..])
  }

  /** The error a failing setup returns. */
  function SetupError(setup: Setup): TcError {
    if setup.prog.None? then NewProgError
    else if !setup.open then OpenError else SetOptionError
  }

  /** The setup half of `runTc`: `newTcProg` (deferring the program's close)
      and `openTc` (whose connection close is deferred on success). It fails
      exactly when one of its three calls fails, and stops at that call. */
  function StartTc(setup: Setup): (r: (Scope, Option<TcError>))
    ensures D.Wf(r.0)
    ensures r.1 == (if SetupOk(setup) then None else Some(SetupError(setup)))
    ensures D.Calls(r.0.trace) ==
      [NewProg] + (if setup.prog.None? then [] else if !setup.open then [Open] else [Open, SetExtAck])
  {
    var s := D.Do(D.Empty(), NewProg);
    if setup.prog.None? then (s, Some(NewProgError))
    else OpenTc(D.Push(s, TcProg), setup)
  }

  /** The setup makes no replace attempt. */
  lemma SetupMakesNoAttempts(setup: Setup)
    ensures Attempts(D.Calls(StartTc(setup).0.trace)) == []
  {
    NoAttemptsInSetup();
  }

  /** A successful setup holds the program and the connection, acquired in
      that order. */
  lemma StartTcHolds(setup: Setup)
    requires SetupOk(setup)
    ensures StartTc(setup).0.held == [TcProg, Conn]
    ensures D.Acquired(StartTc(setup).0.trace) == [TcProg, Conn]
  {
    var s1 := D.Push(D.Do(D.Empty<TcResource, TcCall>(), NewProg), TcProg);
    assert D.Acquired(s1.trace) == [TcProg] && s1.held == [TcProg];
  }

  /** When the setup fails, whatever it has released by then and what is
      still pending are, together, the acquisitions in reverse order. */
  lemma StartTcUnwinds(setup: Setup)
    requires !SetupOk(setup)
    ensures var (s, _) := StartTc(setup);
      D.Released(s.trace) + Reverse(s.held) == Reverse(D.Acquired(s.trace))
  {
    var s := StartTc(setup).0;
    if setup.prog.Some? && setup.open {
      assert D.Acquired(s.trace) == [TcProg] + [Conn];
      assert D.Released(s.trace) == [Conn] && s.held == [TcProg];
      ReverseSnoc([TcProg], Conn);
    } else if setup.prog.Some? {
      assert D.Released(s.trace) == [] && s.held == D.Acquired(s.trace);
    } else {
      assert D.Released(s.trace) == [] && s.held == [] && D.Acquired(s.trace) == [];
    }
  }

  /** `runTc`, with the library constants of the descriptor as `k`. */
  function RunTc(setup: Setup, k: TcConsts, events: seq<TcEvent>): TcRun {
    var (s, err) := StartTc(setup);
    if err.Some? then TcRun(D.Close(s), Returned(err))
    else Loop(D.Push(s, Ticker), NewTcBpfObj(1, setup.prog.value, k), events)
  }

  /** Outcomes of the ticks the loop sees before the context is done. */
  function TickOutcomes(events: seq<TcEvent>): seq<bool> {
    if |events| == 0 || events[0].Cancel? then [] else [events[0].replaceOk] + TickOutcomes(events[1..])
  }

  /** The outcomes of the replace calls in a sequence of calls, in order. */
  function Attempts(calls: seq<TcCall>): seq<bool> {
    if |calls| == 0 then []
    else (if calls[0].Replace? then [calls[0].ok] else []) + Attempts(calls[1..])
  }

  /** Every replace call in `calls` sends `obj`. */
  predicate AllSend(calls: seq<TcCall>, obj: TcObject) {
    forall i :: 0 <= i < |calls| && calls[i].Replace? ==> calls[i].obj == obj
  }

  lemma {:induction false} AttemptsAppend(a: seq<TcCall>, b: seq<TcCall>)
    ensures Attempts(a + b) == Attempts(a) + Attempts(b)
  {
    if |a| == 0 {
      assert a + b == b;
    } else {
      assert (a + b)[0] == a[0];
      assert (a + b)[1..] == a[1..] + b;
      AttemptsAppend(a[1..], b);
    }
  }

  /** The replace calls made for a sequence of tick outcomes, all sending `obj`. */
  function Replaces(obj: TcObject, outcomes: seq<bool>): seq<TcCall> {
    if |outcomes| == 0 then [] else [Replace(obj, outcomes[0])] + Replaces(obj, outcomes[1..])
  }

  lemma {:induction false} AttemptsOfReplaces(obj: TcObject, outcomes: seq<bool>)
    ensures Attempts(Replaces(obj, outcomes)) == outcomes
    ensures AllSend(Replaces(obj, outcomes), obj)
  {
    if |outcomes| > 0 {
      AttemptsOfReplaces(obj, outcomes[1..]);
      assert Replaces(obj, outcomes)[1..] == Replaces(obj, outcomes[1..]);
    }
  }

  /** The loop makes exactly one replace call per tick before the
      cancellation, always with `obj`; it returns nil exactly when it sees the
      cancellation, and then releases everything still held in reverse order. */
  lemma {:induction false} LoopFacts(s: Scope, obj: TcObject, events: seq<TcEvent>)
    requires D.Wf(s)
    decreases |events|
    ensures var r := Loop(s, obj, events);
      && D.Calls(r.trace) == D.Calls(s.trace) + Replaces(obj, TickOutcomes(events))
      && D.Acquired(r.trace) == D.Acquired(s.trace)
      && r.status == (if Cancel in events then Returned(None) else Looping)
      && (r.status.Returned? ==> D.Balanced(r.trace))
  {
    if |events| == 0 || events[0].Cancel? {
      assert TickOutcomes(events) == [];
      assert D.Calls(s.trace) + Replaces(obj, []) == D.Calls(s.trace);
    } else {
      var c := Replace(obj, events[0].replaceOk);
      var s' := D.Do(s, c);
      var tail := TickOutcomes(events[1..]);
      LoopFacts(s', obj, events[1..]);
      assert Loop(s, obj, events) == Loop(s', obj, events[1..]);
      assert TickOutcomes(events) == [events[0].replaceOk] + tail;
      assert Replaces(obj, TickOutcomes(events)) == [c] + Replaces(obj, tail);
      calc {
        D.Calls(Loop(s', obj, events[1..]).trace);
        D.Calls(s'.trace) + Replaces(obj, tail);
        (D.Calls(s.trace) + [c]) + Replaces(obj, tail);
        D.Calls(s.trace) + ([c] + Replaces(obj, tail));
      }
      assert Cancel in events <==> Cancel in events[1..] by {
        assert events == [events[0]] + events[1..];
      }
    }
  }

  /** A failing setup returns its error before any replace attempt, with the
      connection (if opened) and the program released in reverse order. */
  lemma RunTcSetupFailure(setup: Setup, k: TcConsts, events: seq<TcEvent>)
    requires !SetupOk(setup)
    ensures var r := RunTc(setup, k, events);
      && r.status == Returned(Some(SetupError(setup)))
      && Attempts(D.Calls(r.trace)) == []
      && D.Balanced(r.trace)
      && D.Released(r.trace) == Reverse(D.Acquired(r.trace))
  {
    StartTcUnwinds(setup);
    SetupMakesNoAttempts(setup);
  }

  lemma NoAttemptsInSetup()
    ensures Attempts([NewProg, Open, SetExtAck]) == []
  {
    assert [NewProg, Open, SetExtAck][1..] == [Open, SetExtAck];
    assert [Open, SetExtAck][1..] == [SetExtAck];
  }

  /** After a successful setup `runTc` never returns an error: the replace
      attempts are exactly the ticks before the cancellation, each sending
      the one descriptor built for interface 1, and a cancellation returns nil
      with every resource released in reverse order. */
  lemma RunTcAfterSetup(setup: Setup, k: TcConsts, events: seq<TcEvent>)
    requires SetupOk(setup)
    ensures var r := RunTc(setup, k, events);
      && [NewProg, Open, SetExtAck] <= D.Calls(r.trace)
      && Attempts(D.Calls(r.trace)) == TickOutcomes(events)
      && AllSend(D.Calls(r.trace), NewTcBpfObj(1, setup.prog.value, k))
      && r.status == (if Cancel in events then Returned(None) else Looping)
      && D.Acquired(r.trace) == [TcProg, Conn, Ticker]
      && (r.status.Returned? ==> D.Balanced(r.trace))
  {
    var obj := NewTcBpfObj(1, setup.prog.value, k);
    var s2 := StartTc(setup).0;
    StartTcHolds(setup);
    SetupMakesNoAttempts(setup);
    var s3 := D.Push(s2, Ticker);
    assert D.Calls(s3.trace) == [NewProg, Open, SetExtAck];
    LoopFacts(s3, obj, events);
    var more := Replaces(obj, TickOutcomes(events));
    AttemptsOfReplaces(obj, TickOutcomes(events));
    AttemptsAppend(D.Calls(s3.trace), more);
  }

  /** Without a cancellation every event is a tick the loop acts on. */
  lemma {:induction false} TicksWithoutCancel(events: seq<TcEvent>)
    requires Cancel !in events
    ensures |TickOutcomes(events)| == |events|
  {
    if |events| > 0 {
      assert events[0] != Cancel;
      assert Cancel !in events[1..] by {
        assert events == [events[0]] + events[1..];
      }
      TicksWithoutCancel(events[1..]);
    }
  }

  /** Five ticks against a client that always fails: five attempts, and
      `runTc` is still running. */
  lemma FiveFailingTicks(fd: int, k: TcConsts)
    ensures var r := RunTc(Setup(Some(fd), true, true), k, seq(5, _ => Tick(false)));
      |Attempts(D.Calls(r.trace))| == 5 && r.status == Looping
  {
    var events := seq(5, _ => Tick(false));
    RunTcAfterSetup(Setup(Some(fd), true, true), k, events);
    TicksWithoutCancel(events);
  }
}
