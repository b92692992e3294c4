/** The start-up sequence of `main` (main.go:38-146): choose a strategy from
    the `-tp_btf` and `-T` flags, load and attach the programs step by step,
    return at the first failure, and release every acquired object through
    `defer`, last acquired first. Each foreign call is replaced by the
    outcome it reports. */
module Attach {
  import opened Base
  import D = Defer

  /** Objects released with `defer`. `SignalScope` is the signal context
      whose `stop` is deferred first. */
  datatype Resource =
    | SignalScope
    | TpbtfObjects | RawTpLink
    | TpObjects | FfObjects | FentryLink | FexitLink | TracepointLink

  /** Outcome of loading a program object: the verifier rejection is told
      apart from every other load error when it is logged. */
  datatype LoadOutcome = Loaded | VerifierRejected | LoadFailed

  /** The foreign calls `main` makes, with the arguments that matter. */
  datatype Step =
    | LoadTpbtf                        // loadTpbtfObjects
    | AttachRawTp                      // link.AttachTracing, AttachTraceRawTp
    | LoadTp                           // loadTpObjects
    | LoadFfSpec                       // loadFf
    | ResolveFuncName                  // bpf.GetProgEntryFuncName
    | LoadFf(fentryTo: string, fexitTo: string, fentryTarget: Resource, fexitTarget: Resource,
             sharedMap: string, mapOwner: Resource)
                                       // spec.LoadAndAssign with MapReplacements: the entry
                                       // and exit programs' AttachTo names and AttachTarget
                                       // objects, and the map replaced with the one owned by
                                       // `mapOwner`
    | AttachFentry                     // link.AttachTracing(fentry)
    | AttachFexit                      // link.AttachTracing(fexit)
    | AttachTracepoint(group: string, event: string)  // link.Tracepoint
    | Run                              // running(ctx, obj.ErrmsgPb)

  /** What each foreign call reports. `funcName` is `None` when the name
      lookup fails. */
  datatype Oracle = Oracle(
    loadTpbtf: LoadOutcome, attachRawTp: bool,
    loadTp: LoadOutcome, loadFfSpec: bool, funcName: Option<string>,
    loadFf: LoadOutcome, attachFentry: bool, attachFexit: bool, attachTp: bool)

  /** The `-tp_btf` and `-T` command-line flags. */
  datatype Flags = Flags(tpBtf: bool, withoutTracing: bool)

  /** Log lines that carry a decision. */
  datatype Note =
    | LoadError(verifier: bool)   // "Failed to load bpf obj", with the verifier log when `verifier`
    | NameFallback(name: string)  // "Failed to get func name ... Use %s instead"
    | AttachError(step: Step)     // "Failed to attach ..."

  type Trace = seq<D.Event<Resource, Step>>
  type Scope = D.Scope<Resource, Step>

  /** How `main` ended: its trace, whether `running` was reached, and whether
      it was a fatal exit from the assertion helpers, which ends the process
      without running deferred calls. */
  datatype Exit = Exit(trace: Trace, ran: bool, fatal: bool, notes: seq<Note>)

  /** Name used when the tracepoint program's entry function cannot be resolved. */
  const FallbackName: string := "tp__netlink_extack"

  /** The map of the tracepoint object shared with the entry/exit programs. */
  const SharedMap: string := "errmsg_pb"

  const TracepointStep: Step := AttachTracepoint("netlink", "netlink_extack")

  // ---------------------------------------------------------------------
  // Reference definitions: the plan of calls and its first failure.

  function Name(o: Oracle): string {
    if o.funcName.Some? then o.funcName.value else FallbackName
  }

  /** Every call `main` would make if nothing failed, in order; `running`
      is the last of them and is called nowhere else. */
  function Plan(f: Flags, name: string): (p: seq<Step>)
    ensures |p| > 0 && p[|p| - 1] == Run
    ensures forall i :: 0 <= i < |p| - 1 ==> p[i] != Run
  {
    if f.tpBtf then [LoadTpbtf, AttachRawTp, Run]
    else
      [LoadTp, LoadFfSpec, ResolveFuncName, FfLoad(name)]
        + LinkPlan(f.withoutTracing) + [TracepointStep, Run]
  }

  /** The load of the entry/exit object: both programs attach to the
      tracepoint object's program under `name`, and share its map. */
  function FfLoad(name: string): Step {
    LoadFf(name, name, TpObjects, TpObjects, SharedMap, TpObjects)
  }

  function LinkPlan(withoutTracing: bool): seq<Step> {
    if withoutTracing then [] else [AttachFentry, AttachFexit]
  }

  /** Whether a call fails fatally for the start-up. A failed name lookup
      does not: it falls back to `FallbackName`. */
  predicate Fails(o: Oracle, step: Step) {
    match step
    case LoadTpbtf => o.loadTpbtf != Loaded
    case AttachRawTp => !o.attachRawTp
    case LoadTp => o.loadTp != Loaded
    case LoadFfSpec => !o.loadFfSpec
    case ResolveFuncName => false
    case LoadFf(_, _, _, _, _, _) => o.loadFf != Loaded
    case AttachFentry => !o.attachFentry
    case AttachFexit => !o.attachFexit
    case AttachTracepoint(_, _) => !o.attachTp
    case Run => false
  }

  /** The object a successful call hands over for release. */
  function Gain(step: Step): seq<Resource> {
    match step
    case LoadTpbtf => [TpbtfObjects]
    case AttachRawTp => [RawTpLink]
    case LoadTp => [TpObjects]
    case LoadFf(_, _, _, _, _, _) => [FfObjects]
    case AttachFentry => [FentryLink]
    case AttachFexit => [FexitLink]
    case AttachTracepoint(_, _) => [TracepointLink]
    case _ => []
  }

  /** The calls made: the plan up to and including its first failing call. */
  function Executed(plan: seq<Step>, o: Oracle): seq<Step> {
    if |plan| == 0 then []
    else if Fails(o, plan[0]) then [plan[0]]
    else [plan[0]] + Executed(plan[1..], o)
  }

  /** No call of the plan fails. */
  predicate Survives(plan: seq<Step>, o: Oracle) {
    |plan| == 0 || (!Fails(o, plan[0]) && Survives(plan[1..], o))
  }

  /** The objects acquired by the calls made, in order. */
  function Gained(plan: seq<Step>, o: Oracle): seq<Resource> {
    if |plan| == 0 || Fails(o, plan[0]) then []
    else Gain(plan[0]) + Gained(plan[1..], o)
  }

  /** Everything the calls of a plan would hand over if none failed. */
  function Gains(plan: seq<Step>): seq<Resource> {
    if |plan| == 0 then [] else Gain(plan[0]) + Gains(plan[1..])
  }

  lemma {:induction false} GainsAppend(a: seq<Step>, b: seq<Step>)
    decreases |a|
    ensures Gains(a + b) == Gains(a) + Gains(b)
  {
    if |a| > 0 {
      assert (a + b)[0] == a[0];
      assert (a + b)[1..] == a[1..] + b;
      GainsAppend(a[1..], b);
    } else {
      assert a + b == b;
    }
  }

  lemma GainsOne(step: Step)
    ensures Gains([step]) == Gain(step)
  {
    assert [step][1..] == [];
  }

  lemma GainsCons(step: Step, rest: seq<Step>)
    ensures Gains([step] + rest) == Gain(step) + Gains(rest)
  {
    assert ([step] + rest)[0] == step && ([step] + rest)[1..] == rest;
  }

  /** A plan that survives acquires everything its calls hand over. */
  lemma {:induction false} GainedAll(plan: seq<Step>, o: Oracle)
    requires Survives(plan, o)
    ensures Gained(plan, o) == Gains(plan)
  {
    if |plan| > 0 {
      GainedAll(plan[1..], o);
    }
  }

  /** The calls made are a prefix of the plan: all of it when no call fails,
      and otherwise ending with the first call that fails, every earlier one
      having succeeded. */
  lemma {:induction false} ExecutedPrefix(plan: seq<Step>, o: Oracle)
    ensures Executed(plan, o) <= plan
    ensures Survives(plan, o) ==> Executed(plan, o) == plan
    ensures !Survives(plan, o) ==> |Executed(plan, o)| > 0 && Fails(o, Executed(plan, o)[|Executed(plan, o)| - 1])
    ensures forall i :: 0 <= i < |Executed(plan, o)| - 1 ==> !Fails(o, Executed(plan, o)[i])
  {
    if |plan| > 0 && !Fails(o, plan[0]) {
      ExecutedPrefix(plan[1..], o);
      assert plan == [plan[0]] + plan[1..];
    }
  }

  /** Survival of a plan is survival of every call in it. */
  lemma {:induction false} SurvivesEvery(plan: seq<Step>, o: Oracle)
    ensures Survives(plan, o) <==> forall i :: 0 <= i < |plan| ==> !Fails(o, plan[i])
  {
    if |plan| > 0 {
      SurvivesEvery(plan[1..], o);
      assert forall i :: 1 <= i < |plan| ==> plan[i] == plan[1..][i - 1];
    }
  }

  // ---------------------------------------------------------------------
  // The model of `main`.

  /** Nothing released yet, and every acquisition still pending release. */
  ghost predicate Clean(s: Scope) {
    D.Wf(s) && D.Released(s.trace) == [] && D.Acquired(s.trace) == s.held
  }

  /** A non-fatal exit released every acquisition exactly once, in reverse order. */
  ghost predicate Lifo(x: Exit) {
    !x.fatal ==> D.Balanced(x.trace) && D.Released(x.trace) == Reverse(D.Acquired(x.trace))
  }

  /** `return` from `main`: the deferred releases run. */
  function Return(s: Scope, ran: bool, notes: seq<Note>): (x: Exit)
    ensures Clean(s) ==> Lifo(x)
    ensures !x.fatal && x.ran == ran
    ensures D.Calls(x.trace) == D.Calls(s.trace)
    ensures D.Acquired(x.trace) == D.Acquired(s.trace)
  {
    Exit(D.Close(s), ran, false, notes)
  }

  /** A failed assertion helper: the process ends, deferred calls do not run. */
  function Abort(s: Scope, notes: seq<Note>): (x: Exit)
    ensures x.fatal && !x.ran
    ensures D.Calls(x.trace) == D.Calls(s.trace)
    ensures D.Acquired(x.trace) == D.Acquired(s.trace)
    ensures D.Released(x.trace) == D.Released(s.trace)
  {
    Exit(s.trace, false, true, notes)
  }

  /** Make `step`; on success take over what it acquired. */
  function Attempt(s: Scope, step: Step, o: Oracle): (s': Scope)
    ensures Clean(s) ==> Clean(s')
    ensures D.Calls(s'.trace) == D.Calls(s.trace) + [step]
    ensures D.Acquired(s'.trace) == D.Acquired(s.trace) + (if Fails(o, step) then [] else Gain(step))
  {
    var s1 := D.Do(s, step);
    if Fails(o, step) || Gain(step) == [] then s1
    else D.Push(s1, Gain(step)[0])
  }

  /** Whether a call is checked through the assertion helpers, so that its
      failure ends the process instead of returning from `main`. */
  predicate Fatal(step: Step) {
    step.LoadTpbtf? || step.AttachRawTp?
  }

  /** No call of the plan is checked through the assertion helpers. */
  predicate NoneFatal(plan: seq<Step>) {
    |plan| == 0 || (!Fatal(plan[0]) && NoneFatal(plan[1..]))
  }

  /** The line logged when `step` fails. */
  function FailNote(step: Step, o: Oracle): Note {
    match step
    case LoadTpbtf => LoadError(o.loadTpbtf == VerifierRejected)
    case LoadTp => LoadError(o.loadTp == VerifierRejected)
    case LoadFfSpec => LoadError(false)
    case LoadFf(_, _, _, _, _, _) => LoadError(o.loadFf == VerifierRejected)
    case _ => AttachError(step)
  }

  /** The line logged when `step` succeeds with a decision worth noting. */
  function PassNote(step: Step, o: Oracle): seq<Note> {
    if step == ResolveFuncName && o.funcName.None? then [NameFallback(FallbackName)] else []
  }

  /** Make the calls of `plan` in order. The first failing call is logged and
      ends `main`: by `return`, which runs the deferred releases, or by a
      fatal exit when the call is checked by an assertion helper. When every
      call succeeds `main` returns after the last one. */
  function Exec(s: Scope, plan: seq<Step>, o: Oracle, notes: seq<Note>): (x: Exit)
    decreases |plan|
    ensures x.ran == Survives(plan, o)
    ensures x.fatal ==> !x.ran
    ensures NoneFatal(plan) ==> !x.fatal
  {
    if |plan| == 0 then Return(s, true, notes)
    else
      var step := plan[0];
      var s1 := Attempt(s, step, o);
      if Fails(o, step) then
        if Fatal(step) then Abort(s1, notes + [FailNote(step, o)])
        else Return(s1, false, notes + [FailNote(step, o)])
      else Exec(s1, plan[1..], o, notes + PassNote(step, o))
  }

  /** The calls `Exec` makes are the plan up to its first failure. */
  lemma {:induction false} ExecCalls(s: Scope, plan: seq<Step>, o: Oracle, notes: seq<Note>)
    decreases |plan|
    ensures D.Calls(Exec(s, plan, o, notes).trace) == D.Calls(s.trace) + Executed(plan, o)
  {
    if |plan| > 0 && !Fails(o, plan[0]) {
      var s1 := Attempt(s, plan[0], o);
      ExecCalls(s1, plan[1..], o, notes + PassNote(plan[0], o));
    }
  }

  /** The objects `Exec` acquires are those handed over by the successful calls. */
  lemma {:induction false} ExecAcquired(s: Scope, plan: seq<Step>, o: Oracle, notes: seq<Note>)
    decreases |plan|
    ensures D.Acquired(Exec(s, plan, o, notes).trace) == D.Acquired(s.trace) + Gained(plan, o)
  {
    if |plan| > 0 && !Fails(o, plan[0]) {
      var s1 := Attempt(s, plan[0], o);
      ExecAcquired(s1, plan[1..], o, notes + PassNote(plan[0], o));
    }
  }

  /** From a clean scope, `Exec` either returns having released everything in
      reverse order, or exits fatally having released nothing more. */
  lemma {:induction false} ExecLifo(s: Scope, plan: seq<Step>, o: Oracle, notes: seq<Note>)
    requires Clean(s)
    decreases |plan|
    ensures Lifo(Exec(s, plan, o, notes))
    ensures Exec(s, plan, o, notes).fatal ==> D.Released(Exec(s, plan, o, notes).trace) == []
  {
    if |plan| > 0 && !Fails(o, plan[0]) {
      var s1 := Attempt(s, plan[0], o);
      ExecLifo(s1, plan[1..], o, notes + PassNote(plan[0], o));
    }
  }

  /** `Exec` exits fatally exactly when the call that ends the plan early
      is one checked by an assertion helper. */
  lemma {:induction false} ExecFatal(s: Scope, plan: seq<Step>, o: Oracle, notes: seq<Note>)
    decreases |plan|
    ensures Exec(s, plan, o, notes).fatal <==>
      !Survives(plan, o) && |Executed(plan, o)| > 0 && Fatal(Executed(plan, o)[|Executed(plan, o)| - 1])
  {
    if |plan| > 0 && !Fails(o, plan[0]) {
      var rest := plan[1..];
      ExecFatal(Attempt(s, plan[0], o), rest, o, notes + PassNote(plan[0], o));
      ExecutedPrefix(rest, o);
      var e := Executed(rest, o);
      assert |e| > 0 ==> Executed(plan, o)[|Executed(plan, o)| - 1] == e[|e| - 1];
    }
  }

  /** The lines logged by the calls made: the notice of each successful
      call, then the error of the failing one. */
  function Notes(plan: seq<Step>, o: Oracle): seq<Note> {
    if |plan| == 0 then []
    else if Fails(o, plan[0]) then [FailNote(plan[0], o)]
    else PassNote(plan[0], o) + Notes(plan[1..], o)
  }

  /** `Exec` logs exactly the lines of the calls it makes. */
  lemma {:induction false} ExecNotes(s: Scope, plan: seq<Step>, o: Oracle, notes: seq<Note>)
    decreases |plan|
    ensures Exec(s, plan, o, notes).notes == notes + Notes(plan, o)
  {
    if |plan| > 0 && !Fails(o, plan[0]) {
      var more := PassNote(plan[0], o);
      assert Exec(s, plan, o, notes) == Exec(Attempt(s, plan[0], o), plan[1..], o, notes + more);
      ExecNotes(Attempt(s, plan[0], o), plan[1..], o, notes + more);
      assert (notes + more) + Notes(plan[1..], o) == notes + (more + Notes(plan[1..], o));
    }
  }

  /** `main` from the signal context on. The calls made are the plan for the
      chosen strategy up to its first failure; `running` is reached exactly
      when no call fails; the objects acquired are those the successful calls
      hand over; on every non-fatal exit each of them is released exactly
      once, last acquired first; a fatal exit (only possible with `-tp_btf`)
      releases nothing. */
  function Main(f: Flags, o: Oracle): (x: Exit)
    ensures D.Calls(x.trace) == Executed(Plan(f, Name(o)), o)
    ensures D.Acquired(x.trace) == [SignalScope] + Gained(Plan(f, Name(o)), o)
    ensures x.ran <==> Survives(Plan(f, Name(o)), o)
    ensures Lifo(x)
    ensures x.fatal ==> f.tpBtf && !x.ran && D.Released(x.trace) == []
    ensures x.notes == Notes(Plan(f, Name(o)), o)
  {
    var s := D.Push(D.Empty(), SignalScope);
    assert D.Calls(s.trace) == [] && D.Acquired(s.trace) == [SignalScope] && D.Released(s.trace) == [];
    assert !f.tpBtf ==> NoneFatal(Plan(f, Name(o))) by {
      if !f.tpBtf { DefaultNoneFatal(f.withoutTracing, Name(o)); }
    }
    ExecCalls(s, Plan(f, Name(o)), o, []);
    ExecAcquired(s, Plan(f, Name(o)), o, []);
    ExecLifo(s, Plan(f, Name(o)), o, []);
    ExecNotes(s, Plan(f, Name(o)), o, []);
    Exec(s, Plan(f, Name(o)), o, [])
  }

  /** The default strategy checks every call itself. */
  lemma DefaultNoneFatal(withoutTracing: bool, name: string)
    ensures NoneFatal(Plan(Flags(false, withoutTracing), name))
  {
    var p := Plan(Flags(false, withoutTracing), name);
    assert forall i :: 0 <= i < |p| ==> !Fatal(p[i]);
    NoneFatalEvery(p);
  }

  lemma {:induction false} NoneFatalEvery(plan: seq<Step>)
    requires forall i :: 0 <= i < |plan| ==> !Fatal(plan[i])
    ensures NoneFatal(plan)
  {
    if |plan| > 0 {
      assert forall i :: 0 <= i < |plan| - 1 ==> plan[1..][i] == plan[i + 1];
      NoneFatalEvery(plan[1..]);
    }
  }

  /** The default plan from the load of the entry/exit object on. */
  function AfterLookup(withoutTracing: bool, name: string): seq<Step> {
    [FfLoad(name)] + LinkPlan(withoutTracing) + [TracepointStep, Run]
  }

  lemma DefaultPlanShape(withoutTracing: bool, name: string)
    ensures Plan(Flags(false, withoutTracing), name)
         == [LoadTp] + ([LoadFfSpec] + ([ResolveFuncName] + AfterLookup(withoutTracing, name)))
  {
  }

  /** A successful first call is made, logs its notice, and hands over to
      the rest of the plan. */
  lemma PlanCons(step: Step, rest: seq<Step>, o: Oracle)
    requires !Fails(o, step)
    ensures Executed([step] + rest, o) == [step] + Executed(rest, o)
    ensures Notes([step] + rest, o) == PassNote(step, o) + Notes(rest, o)
  {
    assert ([step] + rest)[0] == step && ([step] + rest)[1..] == rest;
  }

  /** Once the tracepoint object and the entry/exit spec are loaded, the
      calls and lines of the default strategy are those of the name lookup
      followed by those of the rest of the plan. */
  lemma PastLookup(withoutTracing: bool, o: Oracle)
    requires o.loadTp == Loaded && o.loadFfSpec
    ensures var p := Plan(Flags(false, withoutTracing), Name(o));
      var rest := AfterLookup(withoutTracing, Name(o));
      && Executed(p, o) == [LoadTp, LoadFfSpec, ResolveFuncName] + Executed(rest, o)
      && Notes(p, o) == PassNote(ResolveFuncName, o) + Notes(rest, o)
  {
    var rest := AfterLookup(withoutTracing, Name(o));
    DefaultPlanShape(withoutTracing, Name(o));
    PlanCons(LoadTp, [LoadFfSpec] + ([ResolveFuncName] + rest), o);
    PlanCons(LoadFfSpec, [ResolveFuncName] + rest, o);
    PlanCons(ResolveFuncName, rest, o);
  }

  /** Only a failed name lookup logs the fallback notice. */
  lemma {:induction false} NoFallbackNotes(plan: seq<Step>, o: Oracle)
    requires o.funcName.Some?
    ensures forall i :: 0 <= i < |Notes(plan, o)| ==> !Notes(plan, o)[i].NameFallback?
  {
    if |plan| > 0 && !Fails(o, plan[0]) {
      NoFallbackNotes(plan[1..], o);
    }
  }

  /** Once the default strategy reaches the name lookup, the first line it
      logs is the fallback notice exactly when the lookup failed. */
  lemma NameFallbackLogged(withoutTracing: bool, o: Oracle)
    requires o.loadTp == Loaded && o.loadFfSpec
    ensures var x := Main(Flags(false, withoutTracing), o);
      |x.notes| > 0 && x.notes[0] == NameFallback(FallbackName) <==> o.funcName.None?
  {
    PastLookup(withoutTracing, o);
    if o.funcName.Some? {
      NoFallbackNotes(AfterLookup(withoutTracing, Name(o)), o);
    }
  }

  /** Once the default strategy reaches the load of the entry/exit object,
      it binds both programs to the resolved (or fallback) name and to the
      program of the object acquired by the first load, and replaces their
      shared map with that object's map. */
  lemma LoadFfBinding(withoutTracing: bool, o: Oracle)
    requires o.loadTp == Loaded && o.loadFfSpec
    ensures var x := Main(Flags(false, withoutTracing), o);
      var calls, acquired := D.Calls(x.trace), D.Acquired(x.trace);
      && |calls| > 3 && |acquired| > 1 && acquired[1] == TpObjects
      && calls[3].LoadFf?
      && calls[3].fentryTo == Name(o) && calls[3].fexitTo == Name(o)
      && calls[3].fentryTarget == acquired[1] && calls[3].fexitTarget == acquired[1]
      && calls[3].sharedMap == SharedMap && calls[3].mapOwner == acquired[1]
  {
    FourthCall(withoutTracing, o);
    FirstObject(withoutTracing, o);
  }

  /** The fourth call of the default strategy, once both loads succeed. */
  lemma FourthCall(withoutTracing: bool, o: Oracle)
    requires o.loadTp == Loaded && o.loadFfSpec
    ensures var calls := D.Calls(Main(Flags(false, withoutTracing), o).trace);
      |calls| > 3 && calls[3] == FfLoad(Name(o))
  {
    PastLookup(withoutTracing, o);
    var rest := AfterLookup(withoutTracing, Name(o));
    assert Executed(rest, o)[0] == rest[0];
  }

  /** The first object the default strategy acquires after the signal
      context is the tracepoint object. */
  lemma FirstObject(withoutTracing: bool, o: Oracle)
    requires o.loadTp == Loaded
    ensures var acquired := D.Acquired(Main(Flags(false, withoutTracing), o).trace);
      |acquired| > 1 && acquired[1] == TpObjects
  {
    var p := Plan(Flags(false, withoutTracing), Name(o));
    assert p == [LoadTp] + p[1..];
    GainedCons(LoadTp, p[1..], o);
  }

  /** A successful first call hands over its object before the rest's. */
  lemma GainedCons(step: Step, rest: seq<Step>, o: Oracle)
    requires !Fails(o, step)
    ensures Gained([step] + rest, o) == Gain(step) + Gained(rest, o)
  {
    assert ([step] + rest)[0] == step && ([step] + rest)[1..] == rest;
  }

  /** `-T` only matters to the default strategy. */
  lemma TpBtfIgnoresT(o: Oracle)
    ensures Main(Flags(true, false), o) == Main(Flags(true, true), o)
  {
    assert Plan(Flags(true, false), Name(o)) == Plan(Flags(true, true), Name(o));
  }

  /** On every non-fatal exit the objects released are exactly the objects
      acquired, each once. */
  lemma ReleasedPermutesAcquired(f: Flags, o: Oracle)
    ensures var x := Main(f, o);
      !x.fatal ==> multiset(D.Released(x.trace)) == multiset(D.Acquired(x.trace))
  {
    ReversePermutes(D.Acquired(Main(f, o).trace));
  }

  lemma GainsPair(a: Step, b: Step)
    ensures Gains([a, b]) == Gain(a) + Gain(b)
  {
    assert [a, b] == [a] + [b];
    GainsAppend([a], [b]);
    GainsOne(a);
    GainsOne(b);
  }

  lemma LinkGains(withoutTracing: bool)
    ensures Gains(LinkPlan(withoutTracing)) == if withoutTracing then [] else [FentryLink, FexitLink]
  {
    GainsPair(AttachFentry, AttachFexit);
  }

  lemma AfterLookupGains(withoutTracing: bool, name: string)
    ensures Gains(AfterLookup(withoutTracing, name))
         == [FfObjects] + (Gains(LinkPlan(withoutTracing)) + [TracepointLink])
  {
    var links := LinkPlan(withoutTracing);
    var tail := [TracepointStep, Run];
    assert AfterLookup(withoutTracing, name) == [FfLoad(name)] + (links + tail);
    GainsCons(FfLoad(name), links + tail);
    GainsAppend(links, tail);
    GainsPair(TracepointStep, Run);
  }

  /** What the default strategy's calls hand over, in order. */
  lemma DefaultGains(withoutTracing: bool, name: string)
    ensures Gains(Plan(Flags(false, withoutTracing), name))
         == [TpObjects, FfObjects] + (if withoutTracing then [] else [FentryLink, FexitLink]) + [TracepointLink]
  {
    var rest := AfterLookup(withoutTracing, name);
    DefaultPlanShape(withoutTracing, name);
    GainsCons(LoadTp, [LoadFfSpec] + ([ResolveFuncName] + rest));
    GainsCons(LoadFfSpec, [ResolveFuncName] + rest);
    GainsCons(ResolveFuncName, rest);
    AfterLookupGains(withoutTracing, name);
    LinkGains(withoutTracing);
  }

  /** With every load and attach succeeding, the default strategy survives. */
  lemma DefaultSurvives(withoutTracing: bool, o: Oracle)
    requires o.loadTp == Loaded && o.loadFfSpec && o.loadFf == Loaded
    requires o.attachFentry && o.attachFexit && o.attachTp
    ensures Survives(Plan(Flags(false, withoutTracing), Name(o)), o)
  {
    var p := Plan(Flags(false, withoutTracing), Name(o));
    assert forall i :: 0 <= i < |p| ==> !Fails(o, p[i]);
    SurvivesEvery(p, o);
  }

  lemma ReverseFour(a: Resource, b: Resource, c: Resource, d: Resource)
    ensures Reverse([a, b, c, d]) == [d, c, b, a]
  {
  }

  lemma ReverseSix(a: Resource, b: Resource, c: Resource, d: Resource, e: Resource, f: Resource)
    ensures Reverse([a, b, c, d, e, f]) == [f, e, d, c, b, a]
  {
  }

  /** When every call succeeds in the default strategy, the links are closed
      first, then the entry/exit object, then the tracepoint object, and the
      signal context last. */
  lemma AllAttached(withoutTracing: bool, o: Oracle)
    requires o.loadTp == Loaded && o.loadFfSpec && o.loadFf == Loaded
    requires o.attachFentry && o.attachFexit && o.attachTp
    ensures var x := Main(Flags(false, withoutTracing), o);
      && x.ran && !x.fatal
      && D.Released(x.trace)
         == if withoutTracing then [TracepointLink, FfObjects, TpObjects, SignalScope]
            else [TracepointLink, FexitLink, FentryLink, FfObjects, TpObjects, SignalScope]
  {
    var x := Main(Flags(false, withoutTracing), o);
    DefaultSurvives(withoutTracing, o);
    AllAcquired(withoutTracing, o);
    if withoutTracing {
      ReverseFour(SignalScope, TpObjects, FfObjects, TracepointLink);
    } else {
      ReverseSix(SignalScope, TpObjects, FfObjects, FentryLink, FexitLink, TracepointLink);
    }
  }

  /** When every call succeeds in the default strategy, every object it
      hands over is acquired, in call order, after the signal context. */
  lemma AllAcquired(withoutTracing: bool, o: Oracle)
    requires o.loadTp == Loaded && o.loadFfSpec && o.loadFf == Loaded
    requires o.attachFentry && o.attachFexit && o.attachTp
    ensures D.Acquired(Main(Flags(false, withoutTracing), o).trace)
         == if withoutTracing then [SignalScope, TpObjects, FfObjects, TracepointLink]
            else [SignalScope, TpObjects, FfObjects, FentryLink, FexitLink, TracepointLink]
  {
    var p := Plan(Flags(false, withoutTracing), Name(o));
    DefaultSurvives(withoutTracing, o);
    GainedAll(p, o);
    DefaultGains(withoutTracing, Name(o));
  }


  /** A plan that calls `running` only at its end never calls it when one
      of its calls fails. */
  lemma RunOnlyLast(plan: seq<Step>, o: Oracle)
    requires forall i :: 0 <= i < |plan| - 1 ==> plan[i] != Run
    requires !Survives(plan, o)
    ensures Run !in Executed(plan, o)
  {
    var e := Executed(plan, o);
    ExecutedPrefix(plan, o);
    assert forall i :: 0 <= i < |e| ==> e[i] == plan[i];
    assert e[|e| - 1] != Run;
  }

  /** `running` is the last call of either strategy: a start-up that fails
      returns (or exits) without calling it. */
  lemma StopsBeforeRunning(f: Flags, o: Oracle)
    ensures var x := Main(f, o);
      !x.ran ==> Run !in D.Calls(x.trace)
  {
    var p := Plan(f, Name(o));
    if !Survives(p, o) {
      RunOnlyLast(p, o);
    }
  }

  /** Only the `-tp_btf` strategy can end the process from an assertion
      helper, and under it every failed start-up does so. */
  lemma MainFatal(f: Flags, o: Oracle)
    ensures Main(f, o).fatal <==> f.tpBtf && !Main(f, o).ran
  {
    var s := D.Push(D.Empty(), SignalScope);
    var p := Plan(f, Name(o));
    ExecFatal(s, p, o, []);
    assert Main(f, o).fatal == Exec(s, p, o, []).fatal;
    if f.tpBtf && !Survives(p, o) {
      var e := Executed(p, o);
      ExecutedPrefix(p, o);
      assert e[|e| - 1] == p[|e| - 1];
      assert Fails(o, e[|e| - 1]);
    }
  }

  /** With `-tp_btf`, a failed load or attach ends the process through the
      assertion helpers: `running` is not reached and none of the deferred
      closes runs. */
  lemma TpBtfFailureFatal(withoutTracing: bool, o: Oracle)
    requires o.loadTpbtf != Loaded || !o.attachRawTp
    ensures var x := Main(Flags(true, withoutTracing), o);
      x.fatal && !x.ran && D.Released(x.trace) == []
  {
    var p := Plan(Flags(true, withoutTracing), Name(o));
    SurvivesEvery(p, o);
    assert Fails(o, p[0]) || Fails(o, p[1]);
    MainFatal(Flags(true, withoutTracing), o);
  }

  /** With `-tp_btf` and both calls succeeding: one object load, one tracing
      link, then `running`; `-T` plays no part. */
  lemma TpBtfAllOk(withoutTracing: bool, o: Oracle)
    requires o.loadTpbtf == Loaded && o.attachRawTp
    ensures var x := Main(Flags(true, withoutTracing), o);
      && D.Calls(x.trace) == [LoadTpbtf, AttachRawTp, Run]
      && D.Acquired(x.trace) == [SignalScope, TpbtfObjects, RawTpLink]
      && x.ran && !x.fatal
      && D.Released(x.trace) == [RawTpLink, TpbtfObjects, SignalScope]
  {
    var p := Plan(Flags(true, withoutTracing), Name(o));
    TpBtfSurvives(withoutTracing, o);
    ExecutedPrefix(p, o);
    GainedAll(p, o);
    GainsAppend([LoadTpbtf], [AttachRawTp, Run]);
    GainsOne(LoadTpbtf);
    GainsPair(AttachRawTp, Run);
    assert p == [LoadTpbtf] + [AttachRawTp, Run];
    ReverseThree(SignalScope, TpbtfObjects, RawTpLink);
  }

  lemma TpBtfSurvives(withoutTracing: bool, o: Oracle)
    requires o.loadTpbtf == Loaded && o.attachRawTp
    ensures Survives(Plan(Flags(true, withoutTracing), Name(o)), o)
  {
    var p := Plan(Flags(true, withoutTracing), Name(o));
    assert forall i :: 0 <= i < |p| ==> !Fails(o, p[i]);
    SurvivesEvery(p, o);
  }


  lemma ReverseThree(a: Resource, b: Resource, c: Resource)
    ensures Reverse([a, b, c]) == [c, b, a]
  {
  }
}
