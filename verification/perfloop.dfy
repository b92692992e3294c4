/** The read loop of `handlePerfEvent` (main.go:166-217) as a fold over the
    results of successive `eventReader.Read()` calls. The reader, the
    goroutine that closes it on cancellation and the context are replaced by
    the sequence of steps they produce. */
module PerfLoop {
  import opened Base
  import opened EventRecord

  /** The part of a `perf.Record` the loop looks at. */
  datatype Record = Record(rawSample: seq<u8>, lostSamples: nat)

  /** What one `eventReader.Read()` returned. */
  datatype Read =
    | Closed                   // an error matching perf.ErrClosed
    | ReadFailed(rec: Record)  // any other error, with the record returned beside it
    | Delivered(rec: Record)   // no error

  /** One iteration: the read, and whether the non-blocking select after the
      log line finds the context done. */
  datatype Step = Step(read: Read, cancelled: bool)

  /** The log lines the loop emits. */
  datatype Log =
    | ReadError                            // "Reading perf-event: %v"
    | Lost(count: nat)                     // "Lost %d events"
    | Errmsg(msg: seq<u8>, text: string)   // "Errmsg: %s <label>"

  /** How the loop ended: `return nil` after a closed reader or an observed
      cancellation, or still blocked in `Read` when the steps ran out. */
  datatype Stop = ReaderClosed | ContextDone | Waiting

  datatype Loop = Loop(ev: Event, logs: seq<Log>, stop: Stop)

  /** `handlePerfEvent` as a whole: reader creation can fail before anything is read. */
  datatype Handled = ReaderFailed | Listening(loop: Loop)

  predicate IsMessageLine(l: Log) { l.Errmsg? }
  predicate IsReadError(l: Log) { l.ReadError? }
  predicate IsFailedRead(s: Step) { s.read.ReadFailed? }
  predicate IsLost(l: Log) { l.Lost? }

  /** The line printed for the current contents of `ev`. */
  function Render(e: Event): Log {
    Errmsg(Shown(e), Label(e))
  }

  function LostLog(rec: Record): seq<Log> {
    if rec.lostSamples != 0 then [Lost(rec.lostSamples)] else []
  }

  /** The lines one non-closing read produces: the error line for a failed
      read, the lost-samples line, then the message line for `ev` after
      decoding the record. A failed read falls through to the decode like a
      successful one. */
  function Iteration(ev: Event, read: Read): seq<Log>
    requires !read.Closed?
  {
    (if read.ReadFailed? then [ReadError] else []) + LostLog(read.rec)
      + [Render(Decode(ev, read.rec.rawSample))]
  }

  /** The `for` loop starting from the event `ev` left by earlier iterations. */
  function Consume(ev: Event, steps: seq<Step>): Loop
    decreases |steps|
  {
    if |steps| == 0 then Loop(ev, [], Waiting)
    else if steps[0].read.Closed? then Loop(ev, [], ReaderClosed)
    else
      var ev' := Decode(ev, steps[0].read.rec.rawSample);
      var here := Iteration(ev, steps[0].read);
      if steps[0].cancelled then Loop(ev', here, ContextDone)
      else
        var rest := Consume(ev', steps[1..]);
        Loop(rest.ev, here + rest.logs, rest.stop)
  }

  /** Each non-closing read prints one message line, one error line exactly
      when the read failed, and one "Lost" line, with the record's count,
      exactly when the record reports lost samples. */
  lemma IterationCounts(ev: Event, read: Read)
    requires !read.Closed?
    ensures Count(Iteration(ev, read), IsMessageLine) == 1
    ensures Count(Iteration(ev, read), IsReadError) == (if read.ReadFailed? then 1 else 0)
    ensures Count(Iteration(ev, read), IsLost) == (if read.rec.lostSamples != 0 then 1 else 0)
    ensures read.rec.lostSamples != 0 ==> Lost(read.rec.lostSamples) in Iteration(ev, read)
  {
    var first: seq<Log> := if read.ReadFailed? then [ReadError] else [];
    var last := [Render(Decode(ev, read.rec.rawSample))];
    CountAppend(first + LostLog(read.rec), last, IsMessageLine);
    CountAppend(first, LostLog(read.rec), IsMessageLine);
    CountAppend(first + LostLog(read.rec), last, IsReadError);
    CountAppend(first, LostLog(read.rec), IsReadError);
    CountAppend(first + LostLog(read.rec), last, IsLost);
    CountAppend(first, LostLog(read.rec), IsLost);
    if read.rec.lostSamples != 0 {
      assert Iteration(ev, read)[|first|] == Lost(read.rec.lostSamples);
    }
  }

  /** The message lines of a log, in order. */
  function Messages(logs: seq<Log>): seq<Log> {
    if |logs| == 0 then [] else (if logs[0].Errmsg? then [logs[0]] else []) + Messages(logs[1..])
  }

  lemma {:induction false} MessagesAppend(a: seq<Log>, b: seq<Log>)
    ensures Messages(a + b) == Messages(a) + Messages(b)
  {
    if |a| == 0 {
      assert a + b == b;
    } else {
      MessagesAppend(a[1..], b);
      assert (a + b)[1..] == a[1..] + b;
    }
  }

  /** The only message line of a read is the one for the event it leaves. */
  lemma IterationMessage(ev: Event, read: Read)
    requires !read.Closed?
    ensures Messages(Iteration(ev, read)) == [Render(Decode(ev, read.rec.rawSample))]
  {
    var first: seq<Log> := if read.ReadFailed? then [ReadError] else [];
    var last := [Render(Decode(ev, read.rec.rawSample))];
    MessagesAppend(first + LostLog(read.rec), last);
    MessagesAppend(first, LostLog(read.rec));
    assert Messages(last) == last by {
      assert last[1..] == [];
    }
  }

  /** The sample a step hands to `binary.Read`; a close hands none. */
  function Sample(s: Step): seq<u8> {
    if s.read.Closed? then [] else s.read.rec.rawSample
  }

  /** The contents of `ev` after decoding the samples of `steps` one after
      the other, starting from `ev`: the variable outlives every iteration. */
  function After(ev: Event, steps: seq<Step>): Event
    decreases |steps|
  {
    if |steps| == 0 then ev else After(Decode(ev, Sample(steps[0])), steps[1..])
  }

  /** Decoding one more sample acts on the event the earlier ones left. */
  lemma {:induction false} AfterSnoc(ev: Event, steps: seq<Step>, s: Step)
    decreases |steps|
    ensures After(ev, steps + [s]) == Decode(After(ev, steps), Sample(s))
  {
    var all := steps + [s];
    if |steps| == 0 {
      assert all[1..] == [];
    } else {
      assert all[0] == steps[0] && all[1..] == steps[1..] + [s];
      AfterSnoc(Decode(ev, Sample(steps[0])), steps[1..], s);
    }
  }

  /** `handlePerfEvent`: the reader is created first; `ev` starts as the zero
      value. */
  function HandlePerfEvent(readerOk: bool, steps: seq<Step>): Handled {
    if readerOk then Listening(Consume(ZeroEvent, steps)) else ReaderFailed
  }

  /** Nothing is read when the reader cannot be created; otherwise a short
      first sample prints the zero event: an empty message labelled as a
      tracepoint. */
  lemma HandlePerfEventStart(readerOk: bool, rec: Record, cancelled: bool, rest: seq<Step>)
    requires |rec.rawSample| < RecordSize
    ensures var h := HandlePerfEvent(readerOk, [Step(Delivered(rec), cancelled)] + rest);
      && (h.ReaderFailed? <==> !readerOk)
      && (readerOk ==> h.loop.logs[|LostLog(rec)|] == Errmsg([], "(tracepoint)"))
  {
    var steps := [Step(Delivered(rec), cancelled)] + rest;
    assert steps[1..] == rest;
    assert Shown(ZeroEvent) == [];
    LabelFacts(Tracepoint);
  }

  /** Index of the first step that ends the loop: a closed reader or an
      observed cancellation; `|steps|` if there is none. */
  function FirstStop(steps: seq<Step>): (k: nat)
    ensures k <= |steps|
    ensures forall i :: 0 <= i < k ==> !steps[i].read.Closed? && !steps[i].cancelled
    ensures k < |steps| ==> steps[k].read.Closed? || steps[k].cancelled
  {
    if |steps| == 0 then 0
    else if steps[0].read.Closed? || steps[0].cancelled then 0
    else 1 + FirstStop(steps[1..])
  }

  /** Number of reads that reach the decode and the log line: every step up to
      the first stop, plus the stopping step itself unless it was a close. */
  function Printed(steps: seq<Step>): nat {
    var k := FirstStop(steps);
    if k == |steps| then k else if steps[k].read.Closed? then k else k + 1
  }

  /** The loop returns because of a close exactly when the first stopping
      step is a close, because of cancellation exactly when it is a
      cancellation observed after a read, and is still waiting otherwise. */
  lemma {:induction false} ConsumeStop(ev: Event, steps: seq<Step>)
    ensures Consume(ev, steps).stop ==
      (if FirstStop(steps) == |steps| then Waiting
       else if steps[FirstStop(steps)].read.Closed? then ReaderClosed
       else ContextDone)
    decreases |steps|
  {
    if |steps| > 0 && !steps[0].read.Closed? && !steps[0].cancelled {
      ConsumeStop(Decode(ev, steps[0].read.rec.rawSample), steps[1..]);
    }
  }

  /** One message line per read that is not a close, up to the stop. */
  lemma {:induction false} ConsumeLines(ev: Event, steps: seq<Step>)
    decreases |steps|
    ensures Count(Consume(ev, steps).logs, IsMessageLine) == Printed(steps)
  {
    if |steps| > 0 && !steps[0].read.Closed? {
      var ev' := Decode(ev, steps[0].read.rec.rawSample);
      IterationCounts(ev, steps[0].read);
      if !steps[0].cancelled {
        ConsumeLines(ev', steps[1..]);
        CountAppend(Iteration(ev, steps[0].read), Consume(ev', steps[1..]).logs, IsMessageLine);
      }
    }
  }

  /** One "Reading perf-event" line per failed read before the stop; the close
      that ends the loop is not reported as an error. */
  lemma {:induction false} ConsumeReadErrors(ev: Event, steps: seq<Step>)
    decreases |steps|
    ensures Count(Consume(ev, steps).logs, IsReadError) == Count(steps[..Printed(steps)], IsFailedRead)
  {
    if |steps| == 0 {
    } else if steps[0].read.Closed? {
      assert steps[..Printed(steps)] == [];
    } else {
      var ev' := Decode(ev, steps[0].read.rec.rawSample);
      IterationCounts(ev, steps[0].read);
      if steps[0].cancelled {
        assert steps[..Printed(steps)] == [steps[0]];
      } else {
        var tail := steps[1..];
        ConsumeReadErrors(ev', tail);
        CountAppend(Iteration(ev, steps[0].read), Consume(ev', tail).logs, IsReadError);
        assert Printed(steps) == 1 + Printed(tail);
        assert steps[..Printed(steps)] == [steps[0]] + tail[..Printed(tail)];
        CountAppend([steps[0]], tail[..Printed(tail)], IsFailedRead);
      }
    }
  }

  /** A read that neither closes nor stops the loop is followed by the rest
      of the loop, from the event it leaves. */
  lemma ConsumeStep(ev: Event, steps: seq<Step>)
    requires |steps| > 0 && !steps[0].read.Closed? && !steps[0].cancelled
    ensures var rest := Consume(Decode(ev, steps[0].read.rec.rawSample), steps[1..]);
      && Consume(ev, steps).ev == rest.ev
      && Messages(Consume(ev, steps).logs)
         == [Render(Decode(ev, steps[0].read.rec.rawSample))] + Messages(rest.logs)
      && Printed(steps) == 1 + Printed(steps[1..])
  {
    var rest := Consume(Decode(ev, steps[0].read.rec.rawSample), steps[1..]);
    IterationMessage(ev, steps[0].read);
    MessagesAppend(Iteration(ev, steps[0].read), rest.logs);
  }

  /** Decoding the samples of a sequence that starts with `s`. */
  lemma AfterCons(ev: Event, steps: seq<Step>, n: nat)
    requires 0 < n <= |steps|
    ensures After(ev, steps[..n]) == After(Decode(ev, Sample(steps[0])), steps[1..][..n - 1])
  {
    assert steps[..n][0] == steps[0] && steps[..n][1..] == steps[1..][..n - 1];
  }

  /** What every message line says: the `i`-th one prints the event left by
      the first `i + 1` samples. */
  lemma {:induction false} ConsumeMessages(ev: Event, steps: seq<Step>)
    decreases |steps|
    ensures var m := Messages(Consume(ev, steps).logs);
      && |m| == Printed(steps)
      && (forall i :: 0 <= i < |m| ==> m[i] == Render(After(ev, steps[..i + 1])))
  {
    if |steps| == 0 || steps[0].read.Closed? {
    } else if steps[0].cancelled {
      IterationMessage(ev, steps[0].read);
      AfterCons(ev, steps, 1);
    } else {
      var ev' := Decode(ev, steps[0].read.rec.rawSample);
      var tail := steps[1..];
      ConsumeStep(ev, steps);
      ConsumeMessages(ev', tail);
      var m := Messages(Consume(ev, steps).logs);
      forall i | 0 <= i < |m|
        ensures m[i] == Render(After(ev, steps[..i + 1]))
      {
        AfterCons(ev, steps, i + 1);
      }
    }
  }

  /** The loop ends holding the event left by all the samples it decoded. */
  lemma {:induction false} ConsumeEvent(ev: Event, steps: seq<Step>)
    decreases |steps|
    ensures Consume(ev, steps).ev == After(ev, steps[..Printed(steps)])
  {
    if |steps| == 0 || steps[0].read.Closed? {
      assert steps[..Printed(steps)] == [];
    } else if steps[0].cancelled {
      AfterCons(ev, steps, 1);
    } else {
      ConsumeStep(ev, steps);
      ConsumeEvent(Decode(ev, steps[0].read.rec.rawSample), steps[1..]);
      AfterCons(ev, steps, Printed(steps));
    }
  }

  /** A short sample leaves the event the earlier samples left. */
  lemma ShortSampleKeeps(ev: Event, steps: seq<Step>, i: nat)
    requires i < |steps| && |Sample(steps[i])| < RecordSize
    ensures After(ev, steps[..i + 1]) == After(ev, steps[..i])
  {
    assert steps[..i + 1] == steps[..i] + [steps[i]];
    AfterSnoc(ev, steps[..i], steps[i]);
  }

  /** A short sample anywhere before the stop prints the same event as the
      read before it: `ev` is kept from one iteration to the next. */
  lemma ShortSampleRepeatsAnywhere(ev: Event, steps: seq<Step>, i: nat)
    requires 0 < i < Printed(steps)
    requires |Sample(steps[i])| < RecordSize
    ensures var m := Messages(Consume(ev, steps).logs);
      i < |m| && m[i] == m[i - 1]
  {
    ConsumeMessages(ev, steps);
    ShortSampleKeeps(ev, steps, i);
    assert steps[..(i - 1) + 1] == steps[..i];
  }

  /** After a full sample, a short one prints that sample's event again;
      when the loop stops there, it ends holding that event. */
  lemma ShortSampleAfterFull(ev: Event, full: Record, short: Record, c: bool, rest: seq<Step>)
    requires |full.rawSample| >= RecordSize && |short.rawSample| < RecordSize
    ensures var r := Consume(ev, [Step(Delivered(full), false), Step(Delivered(short), c)] + rest);
      var k := |LostLog(full)| + 1 + |LostLog(short)|;
      && k < |r.logs| && r.logs[k] == Render(Decode(ev, full.rawSample))
      && (c ==> r.ev == Decode(ev, full.rawSample))
  {
    var steps := [Step(Delivered(full), false), Step(Delivered(short), c)] + rest;
    assert steps[1..] == [Step(Delivered(short), c)] + rest;
    assert steps[1..][1..] == rest;
  }

  /** A failed read is not skipped: its record is decoded and a message line
      follows the error line. */
  lemma FailedReadFallsThrough(ev: Event, rec: Record, cancelled: bool, rest: seq<Step>)
    ensures Consume(ev, [Step(ReadFailed(rec), cancelled)] + rest).logs[0] == ReadError
    ensures Render(Decode(ev, rec.rawSample)) in Consume(ev, [Step(ReadFailed(rec), cancelled)] + rest).logs
  {
    var steps := [Step(ReadFailed(rec), cancelled)] + rest;
    assert steps[1..] == rest;
    var here := [ReadError] + LostLog(rec) + [Render(Decode(ev, rec.rawSample))];
    assert here[|here| - 1] in here;
  }

  /** A short or missing sample leaves `ev` as it was, so the previous event is
      printed again. */
  lemma ShortSampleRepeats(ev: Event, rec: Record, rest: seq<Step>)
    requires |rec.rawSample| < RecordSize
    ensures Consume(ev, [Step(Delivered(rec), false)] + rest).logs[|LostLog(rec)|] == Render(ev)
    ensures Consume(ev, [Step(Delivered(rec), true)] + rest).ev == ev
  {
    var steps := [Step(Delivered(rec), false)] + rest;
    assert steps[1..] == rest;
  }

  /** A 68-byte record with message "boom", length 4, tag 2 and return value
      7 prints "boom" with the label "(fexit: 7)". */
  lemma BoomRecord(prev: Event)
    ensures var raw := [98, 111, 111, 109] + Zeros(60) + [4, 0, 2, 7];
      Consume(prev, [Step(Delivered(Record(raw, 0)), true)]).logs == [Errmsg([98, 111, 111, 109], "(fexit: 7)")]
  {
    var raw: seq<u8> := [98, 111, 111, 109] + Zeros(60) + [4, 0, 2, 7];
    var e := Decode(prev, raw);
    DecodeLayout(prev, raw);
    assert e.len == 4 && e.probeType == 2 && e.retval == 7;
    assert Shown(e) == raw[..4];
    assert LabelText(Classify(e)) == "(fexit: 7)";
  }
}
