# fentry_fexit-tracepoint, modelled in Dafny

The example program `ebpf/fentry_fexit-tracepoint` catches the extended
acknowledgement messages ("extack") that the kernel attaches to netlink
replies. It does this in one of two ways:

- **With `-tp_btf`**, it loads a BTF-enabled raw tracepoint program and
  attaches it.
- **By default**, it loads a classic `netlink:netlink_extack` tracepoint
  program. It then loads an `fentry`/`fexit` pair bound to that program's
  entry function, which shares the tracepoint's perf map `errmsg_pb`. `-T`
  skips the `fentry`/`fexit` links.

Either way, it then reads events from the perf map and prints each message
with a label naming the probe that saw it. Alongside, it provokes extack
messages: a reconciliation loop re-installs the same `bpf` classifier filter
once a second.

This project models the core of `main.go` in four parts:

- **Event decoding and printing (`EventRecord`, `PerfLoop`, `Decimal`).**
  - The 68-byte little-endian record `{Msg [64]byte; Len uint16;
    ProbeType uint8; Retval uint8}` and its decoding by `binary.Read`.
  - A short sample leaves the previous event in place.
  - The message is clamped to `min(64, Len)`.
  - The label is chosen from the probe type, and `%d` renders the return
    value.
  - The read loop of `handlePerfEvent` is modelled as a fold over the
    results of successive reads.
- **The filter request (`TcFilter`).**
  - `htons` as a byte swap on the little-endian x86 target.
  - The `tc.Object` that `newTcBpfObj` builds.
- **The reconciliation loop (`Reconcile`).**
  - `openTc`, which closes the connection itself when `SetOption` fails.
  - `runTc`: the setup with its deferred closes, then one `Replace` of the
    same descriptor per tick until cancellation.
- **The start-up strategy of `main` (`Attach`, over `Defer`).**
  - The plan of foreign calls for each flag combination.
  - A return at the first failure.
  - The fatal exits of the assertion helpers, which skip deferred calls.
  - The name-lookup fallback to `tp__netlink_extack`.
  - `Defer` is a generic model of Go's `defer`: a trace of calls,
    acquisitions and releases. The reference meaning of "released in
    reverse order" is a stack replay of that trace.

Every foreign call is replaced by the outcome it reports: the loaders, the
kernel verifier, the link library, the netlink client, the perf reader and
the ticker. The model follows the code branch by branch.

## Model

| member | source | states |
|---|---|---|
| EventRecord.Encode | ebpf/fentry_fexit-tracepoint/main.go:180-185 | the wire form of the event struct is exactly 68 bytes |
| EventRecord.Decode | ebpf/fentry_fexit-tracepoint/main.go:200 | a sample shorter than 68 bytes leaves the previous event unchanged; otherwise the decoded event re-encodes to the first 68 bytes of the sample |
| EventRecord.DecodeEncode | ebpf/fentry_fexit-tracepoint/main.go:180-200 | decoding the encoding of any event (with any trailing bytes) gives that event back, whatever the previous event was |
| EventRecord.DecodeLayout | ebpf/fentry_fexit-tracepoint/main.go:180-200 | field offsets: Msg is bytes 0-63, Len is bytes 64-65 little-endian, ProbeType is byte 66, Retval is byte 67 |
| EventRecord.Clamp | ebpf/fentry_fexit-tracepoint/main.go:204-208 | the printed length is at most 64 and at most Len, and equals one of them |
| EventRecord.Shown | ebpf/fentry_fexit-tracepoint/main.go:204-208 | the printed message is a prefix of Msg, of length Len when Len is at most 64 and of length 64 otherwise |
| EventRecord.ShownFromSample | ebpf/fentry_fexit-tracepoint/main.go:200-208 | for every full sample the printed message is the first min(64, Len) bytes of the sample, Len being read little-endian from bytes 64-65; no bound on Len is assumed |
| EventRecord.Classify | ebpf/fentry_fexit-tracepoint/main.go:202-209 | probe type 1 is fentry, 2 is fexit carrying Retval, and every other value is the tracepoint default, each as an if-and-only-if |
| EventRecord.Label | ebpf/fentry_fexit-tracepoint/main.go:202-209 | the label is "(fentry)" exactly for type 1 and "(tracepoint)" exactly for types other than 1 and 2; for type 2 the return value reads back from it in `%d` form, which with FexitValueCanonical fixes the text to "(fexit: " + `%d` of Retval + ")" |
| EventRecord.LabelText | ebpf/fentry_fexit-tracepoint/main.go:202-209 | no contract of its own: the text for each origin is characterised by LabelFacts, and the exact fexit form by FexitValueCanonical |
| EventRecord.LabelFacts | ebpf/fentry_fexit-tracepoint/main.go:204-208 | the label text identifies the probe: "(fentry)" only for fentry, "(tracepoint)" only for the tracepoint, and a return value reads back only from a fexit label |
| EventRecord.FexitLabelInjective | ebpf/fentry_fexit-tracepoint/main.go:208 | two fexit labels are equal only when the return values are equal |
| EventRecord.FexitValueCanonical | ebpf/fentry_fexit-tracepoint/main.go:208 | any text from which a return value reads back in `%d` form is exactly "(fexit: " + the decimal rendering of that value + ")" |
| Decimal.Show | ebpf/fentry_fexit-tracepoint/main.go:208 | `%d` of a natural number is a non-empty string of decimal digits with no leading zero unless it is "0", a single digit exactly for numbers below 10 |
| Decimal.ParseShow | ebpf/fentry_fexit-tracepoint/main.go:208 | parsing the decimal rendering gives the number back |
| Decimal.ShowInjective | ebpf/fentry_fexit-tracepoint/main.go:208 | distinct numbers render differently |
| Decimal.ShowParse | ebpf/fentry_fexit-tracepoint/main.go:208 | every digit string `%d` can print (no leading zero unless it is "0") is the rendering of its own value, so the decimal form is unique |
| PerfLoop.IterationCounts | ebpf/fentry_fexit-tracepoint/main.go:187-209 | a read that is not a close prints exactly one message line, one "Reading perf-event" line exactly when the read failed, and one "Lost" line carrying the record's count exactly when samples were lost |
| PerfLoop.Render | ebpf/fentry_fexit-tracepoint/main.go:204-208 | no contract of its own: the message line carries Shown and Label of the current event, whose contracts state its content |
| PerfLoop.Iteration | ebpf/fentry_fexit-tracepoint/main.go:187-209 | no contract of its own: IterationCounts states its error, "Lost" and message lines, IterationMessage the content of the message line, and FailedReadFallsThrough that a failed read still decodes |
| PerfLoop.IterationMessage | ebpf/fentry_fexit-tracepoint/main.go:204-208 | the only message line of a read prints the event the read leaves in `ev` |
| PerfLoop.Consume | ebpf/fentry_fexit-tracepoint/main.go:186-216 | no contract of its own: ConsumeStop, ConsumeLines and ConsumeReadErrors state how the loop ends and how many lines it prints; ConsumeMessages and ConsumeEvent state that each message line prints the event left by all samples so far, `ev` carrying from one read to the next |
| PerfLoop.HandlePerfEvent | ebpf/fentry_fexit-tracepoint/main.go:166-217 | no contract of its own: HandlePerfEventStart states the reader failure and the zero starting event; the Consume lemmas state the loop |
| PerfLoop.FirstStop | ebpf/fentry_fexit-tracepoint/main.go:186-216 | the index of the first close or observed cancellation: no step before it stops the loop, and the step there does |
| PerfLoop.ConsumeStop | ebpf/fentry_fexit-tracepoint/main.go:186-216 | the loop returns because of a close exactly when the first stopping step is a close, returns on cancellation exactly when it is a cancellation, and is still reading otherwise |
| PerfLoop.ConsumeLines | ebpf/fentry_fexit-tracepoint/main.go:186-216 | one message line for each read up to and including the stopping read, except a close |
| PerfLoop.ConsumeReadErrors | ebpf/fentry_fexit-tracepoint/main.go:187-194 | one "Reading perf-event" line per failed read before the stop; the closing error is not logged |
| PerfLoop.ConsumeMessages | ebpf/fentry_fexit-tracepoint/main.go:180-216 | the loop prints one message line per read up to the stop (a close excepted), and the i-th prints the event left by decoding the first i + 1 samples in turn, starting from the event held before the loop |
| PerfLoop.ConsumeEvent | ebpf/fentry_fexit-tracepoint/main.go:180-216 | the loop ends holding the event left by decoding, in turn, every sample it read |
| PerfLoop.ShortSampleKeeps | ebpf/fentry_fexit-tracepoint/main.go:180-200 | decoding a short sample after earlier ones leaves the event the earlier ones left |
| PerfLoop.ShortSampleRepeatsAnywhere | ebpf/fentry_fexit-tracepoint/main.go:180-208 | a short sample at any read before the stop prints the same event as the read before it |
| PerfLoop.ShortSampleAfterFull | ebpf/fentry_fexit-tracepoint/main.go:180-208 | a short sample right after a full one prints the full sample's event again, and the loop stopping there holds that event |
| PerfLoop.FailedReadFallsThrough | ebpf/fentry_fexit-tracepoint/main.go:188-208 | a failed read is logged and its record is then decoded and printed like a good one |
| PerfLoop.ShortSampleRepeats | ebpf/fentry_fexit-tracepoint/main.go:196-208 | a short first sample prints the event held before it, and a loop that stops there still holds that event; ShortSampleAfterFull and ShortSampleRepeatsAnywhere state the same for later reads |
| PerfLoop.HandlePerfEventStart | ebpf/fentry_fexit-tracepoint/main.go:166-208 | nothing is read when the reader cannot be created; otherwise a short first sample prints the zero event as an empty tracepoint message |
| PerfLoop.BoomRecord | ebpf/fentry_fexit-tracepoint/main.go:180-208 | a concrete 68-byte fexit record prints "boom" with the label "(fexit: 7)" |
| TcFilter.Htons | ebpf/fentry_fexit-tracepoint/main.go:258-262 | the low byte of the result is the high byte of the input, and the reverse |
| TcFilter.NativeUint16 | ebpf/fentry_fexit-tracepoint/main.go:261 | reading two bytes through a `*uint16` on x86 is little-endian: the first byte becomes the low half, the second the high half |
| TcFilter.HtonsInvolution | ebpf/fentry_fexit-tracepoint/main.go:258-262 | applying htons twice gives the input back |
| TcFilter.HtonsEthPAll | ebpf/fentry_fexit-tracepoint/main.go:234 | ETH_P_ALL (3) in network order is 0x0300 |
| TcFilter.PackInfoRoundTrip | ebpf/fentry_fexit-tracepoint/main.go:245 | the priority and protocol packed into Info read back unchanged when the priority fits in 16 bits |
| TcFilter.PackInfo | ebpf/fentry_fexit-tracepoint/main.go:245 | no contract of its own: PackInfoRoundTrip and NewTcBpfObjInfo state that the priority and protocol read back from Info |
| TcFilter.NewTcBpfObj | ebpf/fentry_fexit-tracepoint/main.go:230-256 | every field of the filter object: family, interface, handle 0xfffffff1, ingress parent, packed Info, kind "bpf", name "fake", the descriptor truncated to 32 bits, and the direct-action flag |
| TcFilter.NewTcBpfObjInfo | ebpf/fentry_fexit-tracepoint/main.go:234-245 | the Info field unpacks to priority 100 and protocol 0x0300 |
| TcFilter.NewTcBpfObjDeterministic | ebpf/fentry_fexit-tracepoint/main.go:230-256 | the only part of the program that reaches the request is its descriptor truncated to 32 bits: descriptors equal modulo 2^32 give the same filter object |
| Defer.Do | ebpf/fentry_fexit-tracepoint/main.go:86-90 | a call that acquires nothing adds one call and leaves the pending releases alone |
| Defer.Push | ebpf/fentry_fexit-tracepoint/main.go:76-78 | a successful acquisition followed by its `defer` adds the resource to the pending releases and keeps the trace well formed |
| Defer.Drop | ebpf/fentry_fexit-tracepoint/main.go:270-273 | an explicit close releases the most recent acquisition and removes it from the pending releases |
| Defer.Close | ebpf/fentry_fexit-tracepoint/main.go:291-297 | on return the pending releases run in reverse order: the trace becomes balanced, and the releases are those made so far followed by the pending ones reversed |
| Defer.BalancedReleasesAll | ebpf/fentry_fexit-tracepoint/main.go:291-302 | in a replayable trace the resources released are exactly those acquired, less those left live, counted with multiplicity |
| Reconcile.OpenTc | ebpf/fentry_fexit-tracepoint/main.go:264-276 | the error is the open error or the SetOption error, in that order; a connection whose SetOption fails is closed before returning; on success the connection is held by the caller |
| Reconcile.StartTc | ebpf/fentry_fexit-tracepoint/main.go:287-297 | the setup fails exactly when one of its three calls fails, with that call's error, and makes no call after it |
| Reconcile.StartTcHolds | ebpf/fentry_fexit-tracepoint/main.go:287-297 | after a successful setup the program and the connection are held, acquired in that order |
| Reconcile.StartTcUnwinds | ebpf/fentry_fexit-tracepoint/main.go:287-297 | after a failed setup, the releases made plus the pending ones in reverse order are the acquisitions reversed |
| Reconcile.SetupMakesNoAttempts | ebpf/fentry_fexit-tracepoint/main.go:287-297 | the setup makes no filter replace |
| Reconcile.LoopFacts | ebpf/fentry_fexit-tracepoint/main.go:306-319 | one replace per tick before the cancellation, each sending the same object, a failed replace changing nothing; returns nil exactly on cancellation, with a balanced trace |
| Reconcile.Loop | ebpf/fentry_fexit-tracepoint/main.go:306-319 | no contract of its own: LoopFacts and TicksWithoutCancel state its calls, status and releases |
| Reconcile.RunTcSetupFailure | ebpf/fentry_fexit-tracepoint/main.go:286-297 | a failed setup returns its error before any replace attempt, with everything acquired released in reverse order |
| Reconcile.RunTcAfterSetup | ebpf/fentry_fexit-tracepoint/main.go:286-320 | after a successful setup runTc never returns an error: the replace outcomes are the ticks before cancellation, every replace sends the descriptor built for interface 1, and on cancellation the program, connection and ticker are all released |
| Reconcile.RunTc | ebpf/fentry_fexit-tracepoint/main.go:286-320 | no contract of its own: RunTcSetupFailure, RunTcAfterSetup and FiveFailingTicks state its outcome for every setup and event sequence |
| Reconcile.TicksWithoutCancel | ebpf/fentry_fexit-tracepoint/main.go:306-319 | without a cancellation every event is a tick that triggers a replace |
| Reconcile.FiveFailingTicks | ebpf/fentry_fexit-tracepoint/main.go:306-319 | five ticks against a failing client make five attempts and the loop keeps running |
| Attach.Return | ebpf/fentry_fexit-tracepoint/main.go:83 | a `return` from main runs the deferred closes, so from a clean scope everything acquired is released in reverse order |
| Attach.Abort | ebpf/fentry_fexit-tracepoint/main.go:54 | a failed assertion helper ends the process without running the deferred closes |
| Attach.Attempt | ebpf/fentry_fexit-tracepoint/main.go:68-78 | a call is recorded, and what it acquires is taken over only when it succeeds |
| Attach.Plan | ebpf/fentry_fexit-tracepoint/main.go:52-145 | running is the last call of the plan for either strategy and appears nowhere else; its shape per strategy is stated by DefaultPlanShape, DefaultGains and TpBtfAllOk |
| Attach.ExecutedPrefix | ebpf/fentry_fexit-tracepoint/main.go:68-145 | the calls made are a prefix of the plan: all of it when no call fails, otherwise ending at the first failing call, every earlier call having succeeded |
| Attach.Exec | ebpf/fentry_fexit-tracepoint/main.go:52-145 | `running` is reached exactly when no call of the plan fails; a fatal exit never reaches it, and a plan without checked calls never exits fatally; ExecFatal gives the converse |
| Attach.ExecCalls | ebpf/fentry_fexit-tracepoint/main.go:52-145 | the calls made are the plan up to and including its first failing call |
| Attach.ExecAcquired | ebpf/fentry_fexit-tracepoint/main.go:52-145 | the objects acquired are those handed over by the calls that succeeded, in order |
| Attach.ExecLifo | ebpf/fentry_fexit-tracepoint/main.go:52-145 | every non-fatal exit releases each acquisition once in reverse order, and a fatal exit releases nothing |
| Attach.ExecFatal | ebpf/fentry_fexit-tracepoint/main.go:52-66 | the start-up exits fatally exactly when the call that ends the plan early is one checked by an assertion helper |
| Attach.ExecNotes | ebpf/fentry_fexit-tracepoint/main.go:68-143 | the decision lines logged are those of the calls made: the notices of successful calls, then the error of the failing one |
| Attach.Main | ebpf/fentry_fexit-tracepoint/main.go:38-146 | calls made, objects acquired, running reached iff nothing fails, LIFO release, fatal exits only under -tp_btf and releasing nothing, and the lines logged, each against the plan for the flags; MainFatal and TpBtfFailureFatal give the converse for -tp_btf |
| Attach.DefaultNoneFatal | ebpf/fentry_fexit-tracepoint/main.go:68-145 | the default strategy checks every error itself, so it never exits through the assertion helpers |
| Attach.PastLookup | ebpf/fentry_fexit-tracepoint/main.go:68-90 | once both loads succeed the name lookup is made, and a failed lookup does not stop the start-up |
| Attach.NoFallbackNotes | ebpf/fentry_fexit-tracepoint/main.go:86-90 | when the name lookup succeeds no fallback line is logged |
| Attach.NameFallbackLogged | ebpf/fentry_fexit-tracepoint/main.go:86-90 | the first line logged is the fallback notice exactly when the lookup failed, and it names tp__netlink_extack |
| Attach.LoadFfBinding | ebpf/fentry_fexit-tracepoint/main.go:86-103 | the entry/exit object is loaded with both AttachTo names set to the resolved name (or the fallback), both AttachTarget programs taken from the object the first load acquired, and errmsg_pb replaced by that same object's map |
| Attach.TpBtfIgnoresT | ebpf/fentry_fexit-tracepoint/main.go:52-66 | under -tp_btf the -T flag changes nothing |
| Attach.ReleasedPermutesAcquired | ebpf/fentry_fexit-tracepoint/main.go:49-145 | on every non-fatal exit the objects released are exactly the objects acquired, each once |
| Attach.DefaultGains | ebpf/fentry_fexit-tracepoint/main.go:68-142 | the default strategy acquires the tracepoint objects, the entry/exit objects, the two links unless -T, and the tracepoint link |
| Attach.AllAttached | ebpf/fentry_fexit-tracepoint/main.go:68-145 | when every call of the default strategy succeeds, running is reached and the closes run in exactly the reverse order of the defers, with and without -T |
| Attach.AllAcquired | ebpf/fentry_fexit-tracepoint/main.go:68-145 | when every call of the default strategy succeeds, the acquisitions are exactly the listed objects in order |
| Attach.StopsBeforeRunning | ebpf/fentry_fexit-tracepoint/main.go:68-145 | when running is not reached, it is not called |
| Attach.TpBtfAllOk | ebpf/fentry_fexit-tracepoint/main.go:52-66 | a successful -tp_btf start makes exactly the load, attach and run calls, acquires the signal scope, the objects and the link in that order, and releases them in the opposite order |
| Attach.MainFatal | ebpf/fentry_fexit-tracepoint/main.go:52-66 | the process ends through an assertion helper exactly when -tp_btf is set and running is not reached |
| Attach.TpBtfFailureFatal | ebpf/fentry_fexit-tracepoint/main.go:54-61 | under -tp_btf a failed load or attach exits fatally: running is not reached and no deferred close runs |

## Left out

- `running` (main.go:148-164) starts `handlePerfEvent` and `runTc` in an errgroup and logs the error returned by `Wait`. This is concurrency. Each of the two goroutines is modelled separately.
- The goroutine that closes the perf reader on cancellation (main.go:175-178) is not modelled. Neither is the context itself. Both appear as the `Closed` and `cancelled` parts of each read step.
- The ticker's timing is reduced to a sequence of tick and cancel events. The signal context becomes the `SignalScope` resource.
- Flag parsing and `rlimit.RemoveMemlock` (main.go:39-47) are left out. The flags are a parameter. A failure to remove the memlock rlimit exits before any resource is acquired.
- The kernel programs, the generated `bpf2go` loaders and the kernel verifier are replaced by the outcomes they report. The entry-function-name lookup and the netlink and link libraries are replaced the same way.
- Informational log lines ("Listening events...", "Attached ...", "Keep setting tc filter...", "set tc filter") are not modelled, and neither is the text of error values.
- Two error lines are not modelled: "Failed to create perf-event reader" (main.go:169), whose failure is only the `ReaderFailed` outcome, and "set tc filter: %v" (main.go:311), of which the model keeps only the `ok` flag of each `Replace` call. `Note` keeps only the decision lines of `main`. `Log` keeps every line of the read loop.
- `newTcProg` (main.go:219-228) builds a two-instruction program. Its instructions are not modelled; only its success or descriptor number is.
- `tc.BpfActDirect` and `core.BuildHandle(tc.HandleRoot, tc.HandleMinIngress)` are library constants whose values are outside this model. They are the `TcConsts` parameter.
- The behaviour of `internal/assert` (`NoErr`, `NoVerifierErr`) is not part of this model. It is taken to be a fatal exit that does not run deferred calls, after logging the failure; the logged line (`LoadError` for the load, `AttachError` for the attach) is assumed too.
- TcFilter.Uint32 carries no contract of its own. The truncation of the descriptor is stated in `NewTcBpfObj`'s ensures.
- The record returned beside a read error is an arbitrary record in the model, whatever the reader actually hands back.
- PerfLoop.Consume stops when the steps run out. It does not model the infinite loop beyond the last step observed.
