/** The diagnostic record the kernel programs write into the perf event
    array, how `handlePerfEvent` decodes it with `binary.Read`, and how it
    prints the message and the probe label (main.go:180-209). */
module EventRecord {
  import opened Base
  import Decimal

  /** Capacity of the message buffer (`Msg [64]byte`). */
  const MsgCap: nat := 64

  /** Wire size of the record: 64 + 2 + 1 + 1 bytes, no padding. */
  const RecordSize: nat := 68

  type MsgBuf = s: seq<u8> | |s| == MsgCap witness Zeros(MsgCap)

  /** The Go struct `ev`: `Msg [64]byte; Len uint16; ProbeType uint8; Retval uint8`. */
  datatype Event = Event(msg: MsgBuf, len: u16, probeType: u8, retval: u8)

  /** The zero value `ev` holds before the first successful decode. */
  const ZeroEvent: Event := Event(Zeros(MsgCap), 0, 0, 0)

  function Zeros(n: nat): (s: seq<u8>)
    ensures |s| == n
  {
    if n == 0 then [] else Zeros(n - 1) + [0]
  }

  /** `binary.LittleEndian` layout of a `uint16`. */
  function LeU16(lo: u8, hi: u8): u16 {
    lo + hi * 0x100
  }

  /** The bytes `binary.Read` consumes for `ev`, in wire order. The inverse
      of `Decode` on full records. */
  function Encode(e: Event): (b: seq<u8>)
    ensures |b| == RecordSize
  {
    e.msg + [e.len % 0x100, e.len / 0x100, e.probeType, e.retval]
  }

  /** `binary.Read(bytes.NewBuffer(raw), binary.LittleEndian, &ev)` with its
      error ignored. `binary.Read` first reads the whole 68-byte image with
      `io.ReadFull`; when the sample is shorter (or nil) it returns an error
      before touching `ev`, so the previous event survives. Bytes after the
      first 68 are never read. */
  function Decode(prev: Event, raw: seq<u8>): (e: Event)
    ensures |raw| < RecordSize ==> e == prev
    ensures |raw| >= RecordSize ==> Encode(e) == raw[..RecordSize]
  {
    if |raw| < RecordSize then prev
    else Event(raw[..MsgCap], LeU16(raw[64], raw[65]), raw[66], raw[67])
  }

  /** Decoding what `Encode` wrote, followed by any trailing bytes, gives back
      the event, whatever the previous one was. */
  lemma DecodeEncode(prev: Event, e: Event, rest: seq<u8>)
    ensures Decode(prev, Encode(e) + rest) == e
  {
    var raw := Encode(e) + rest;
    assert raw[..MsgCap] == e.msg;
  }

  /** A full record decodes field by field at the fixed offsets. */
  lemma DecodeLayout(prev: Event, raw: seq<u8>)
    requires |raw| >= RecordSize
    ensures Decode(prev, raw).msg == raw[..64]
    ensures Decode(prev, raw).len == raw[64] as int + 0x100 * raw[65] as int
    ensures Decode(prev, raw).probeType == raw[66]
    ensures Decode(prev, raw).retval == raw[67]
  {
    var e := Decode(prev, raw);
    assert Encode(e)[..64] == e.msg;
    assert raw[..RecordSize][..64] == raw[..64];
  }

  /** `min(64, ev.Len)`: how many message bytes are printed. */
  function Clamp(len: u16): (n: nat)
    ensures n <= MsgCap && n <= len
    ensures n == len || n == MsgCap
  {
    if len < MsgCap then len else MsgCap
  }

  /** `ev.Msg[:min(64, ev.Len)]`: the printed part of the message. */
  function Shown(e: Event): (m: seq<u8>)
    ensures e.len <= MsgCap ==> |m| == e.len
    ensures e.len > MsgCap ==> |m| == MsgCap
    ensures m <= e.msg
  {
    e.msg[..Clamp(e.len)]
  }

  /** For a full record, exactly the first `min(64, Len)` bytes of the
      sample are printed, `Len` being read from bytes 64 and 65. */
  lemma ShownFromSample(prev: Event, raw: seq<u8>)
    requires |raw| >= RecordSize
    ensures Shown(Decode(prev, raw)) == raw[..Clamp(LeU16(raw[64], raw[65]))]
  {
    DecodeLayout(prev, raw);
  }

  /** Origin of a record, from the `switch ev.ProbeType`. */
  datatype Origin = Tracepoint | Fentry | Fexit(retval: u8)

  /** Classification: 1 is fentry, 2 is fexit, every other tag (0 and 3..255)
      falls to the `default` branch, the tracepoint. */
  function Classify(e: Event): (o: Origin)
    ensures o == Fentry <==> e.probeType == 1
    ensures o.Fexit? <==> e.probeType == 2
    ensures o.Fexit? ==> o.retval == e.retval
    ensures o == Tracepoint <==> e.probeType != 1 && e.probeType != 2
  {
    match e.probeType
    case 1 => Fentry
    case 2 => Fexit(e.retval)
    case _ => Tracepoint
  }

  /** The label text printed after the message. */
  function LabelText(o: Origin): string {
    match o
    case Tracepoint => "(tracepoint)"
    case Fentry => "(fentry)"
    case Fexit(rv) => "(fexit: " + Decimal.Show(rv) + ")"
  }

  const FexitPrefix: string := "(fexit: "

  /** Reads the return value back out of a label; `None` for labels that do
      not carry one in the form `%d` prints. */
  function FexitValue(text: string): Option<nat> {
    if |text| > |FexitPrefix| + 1 && text[..|FexitPrefix|] == FexitPrefix
       && text[|text| - 1] == ')'
       && Decimal.Canonical(text[|FexitPrefix|..|text| - 1])
    then Some(Decimal.Parse(text[|FexitPrefix|..|text| - 1]))
    else None
  }

  /** The label of an event: "(fentry)" exactly for tag 1, "(tracepoint)"
      exactly for tags other than 1 and 2, and for tag 2 a label from which the
      return value reads back. */
  function Label(e: Event): (l: string)
    ensures l == "(fentry)" <==> e.probeType == 1
    ensures l == "(tracepoint)" <==> e.probeType != 1 && e.probeType != 2
    ensures FexitValue(l) == (if e.probeType == 2 then Some(e.retval) else None)
  {
    var o := Classify(e);
    var l := LabelText(o);
    LabelFacts(o);
    l
  }

  lemma LabelFacts(o: Origin)
    ensures LabelText(o) == "(fentry)" <==> o == Fentry
    ensures LabelText(o) == "(tracepoint)" <==> o == Tracepoint
    ensures FexitValue(LabelText(o)) == (if o.Fexit? then Some(o.retval) else None)
  {
    var l := LabelText(o);
    match o
    case Tracepoint =>
      assert l[1] == 't';
    case Fentry =>
      assert l[3] == 'n';
    case Fexit(rv) =>
      var d := Decimal.Show(rv);
      Decimal.ParseShow(rv);
      assert l[3] == 'x';
      assert l[..|FexitPrefix|] == FexitPrefix;
      assert l[|FexitPrefix|..|l| - 1] == d;
  }

  /** Two exit records print the same label only if they carry the same
      return value. */
  lemma FexitLabelInjective(a: Event, b: Event)
    requires a.probeType == 2 && b.probeType == 2
    requires Label(a) == Label(b)
    ensures a.retval == b.retval
  {
  }

  /** A label from which a return value reads back is exactly the label
      printed for that value: together with `Label`'s contract this fixes
      the fexit text to "(fexit: " followed by `%d` of the value and ")". */
  lemma FexitValueCanonical(text: string)
    requires FexitValue(text).Some?
    ensures text == FexitPrefix + Decimal.Show(FexitValue(text).value) + ")"
  {
    var digits := text[|FexitPrefix|..|text| - 1];
    Decimal.ShowParse(digits);
    assert text == text[..|FexitPrefix|] + digits + [text[|text| - 1]];
  }
}
