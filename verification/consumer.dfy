/** The userspace reader of try1/main.go: each raw perf sample is decoded
    little-endian into `Event`, the process name is cut at the first NUL of
    `Comm`, and the destination is repacked big-endian by `intToIP` before
    it is logged. The log line is modelled as the values it prints. */
module Consumer {
  import opened Machine
  import opened Wrappers
  import Text
  import ConnectProbe

  /** `Event`: the Go mirror of the C `struct event`. */
  datatype Event = Event(pid: u32, comm: Comm, daddr: u32)

  /** `binary.Size(Event{})`. */
  const EVENT_SIZE: nat := 24

  /** What the loop prints for one event: pid, process name and the four
      octets handed to `net.IP.String`. */
  datatype Line = Line(pid: u32, process: string, ip: seq<byte>)

  /** The fate of one sample: skipped after a parse error, printed, or the
      slice expression of line 89 panicking. */
  datatype Step = Skipped | Printed(line: Line) | Panicked

  /** `binary.Read(bytes.NewBuffer(raw), binary.LittleEndian, &event)`:
      reads the first 24 bytes; a shorter sample is an error. */
  function DecodeEvent(raw: seq<byte>): (r: Option<Event>)
    ensures r.Some? <==> |raw| >= EVENT_SIZE
  {
    if |raw| < EVENT_SIZE then None
    else Some(Event(LE32(raw[0..4]), raw[4..20], LE32(raw[20..24])))
  }

  /** The field-for-field correspondence between the C record and `Event`. */
  function Mirror(rec: ConnectProbe.Record): Event
  {
    Event(rec.pid, rec.comm, rec.daddr)
  }

  /** Whatever the probe sends, with whatever trailing bytes the transport
      adds, decodes to the record's mirror. */
  lemma DecodeSerialized(rec: ConnectProbe.Record, trailer: seq<byte>)
    ensures DecodeEvent(ConnectProbe.Serialize(rec) + trailer) == Some(Mirror(rec))
  {
    var raw := ConnectProbe.Serialize(rec) + trailer;
    assert raw[..24] == ConnectProbe.Serialize(rec);
    assert raw[0..4] == raw[..24][0..4] && raw[4..20] == raw[..24][4..20] && raw[20..24] == raw[..24][20..24];
    ConnectProbe.DeserializeSerialize(rec);
  }

  /** Decoding looks at the first 24 bytes only, and loses none of them. */
  lemma DecodeIsPrefixBijection(raw: seq<byte>)
    requires |raw| >= EVENT_SIZE
    ensures DecodeEvent(raw).Some?
    ensures var e := DecodeEvent(raw).value;
            ConnectProbe.Serialize(ConnectProbe.Record(e.pid, e.comm, e.daddr)) == raw[..24]
  {
    var b := raw[..24];
    assert b[0..4] == raw[0..4] && b[4..20] == raw[4..20] && b[20..24] == raw[20..24];
    ConnectProbe.SerializeDeserialize(b);
  }

  /** `string(event.Comm[:bytes.IndexByte(event.Comm[:], 0)])`: the name
      before the first NUL; with no NUL the index is -1 and the slice panics. */
  function ProcessName(comm: Comm): (r: Option<string>)
    ensures r.None? <==> 0 !in comm
    ensures r.Some? ==> r.value == Text.CleanString(comm)
  {
    var n := Text.IndexOf(comm, 0);
    if n < 0 then None
    else
      Text.CleanStringUnique(comm, n);
      Some(Text.FromBytes(comm[..n]))
  }

  /** `intToIP`: `binary.BigEndian.PutUint32`, most significant byte first. */
  function IntToIP(n: u32): (ip: seq<byte>)
    ensures |ip| == 4
    ensures forall i :: 0 <= i < 4 ==> ip[i] == ByteOf(n, 3 - i)
    ensures BE32(ip) == n
  {
    BE32OfPutBE32(n);
    PutBE32(n)
  }

  /** One pass of the read loop over a sample that arrived. */
  function HandleSample(raw: seq<byte>): (s: Step)
    ensures s.Skipped? <==> |raw| < EVENT_SIZE
  {
    match DecodeEvent(raw)
    case None => Skipped
    case Some(e) =>
      match ProcessName(e.comm)
      case None => Panicked
      case Some(name) => Printed(Line(e.pid, name, IntToIP(e.daddr)))
  }

  /** The loop over a stream of samples: the lines printed, in order, and
      whether the program died on a panic (which ends the stream). */
  function Consume(samples: seq<seq<byte>>): (out: (seq<Line>, bool))
    ensures |out.0| <= |samples|
  {
    if |samples| == 0 then ([], false)
    else
      assert forall k :: 1 <= k < |samples| ==> samples[k] == samples[1..][k - 1];
      Combine(HandleSample(samples[0]), Consume(samples[1..]))
  }

  /** What one pass of the loop does to the outcome of the passes after it:
      a skipped sample adds nothing, a printed one adds its line in front,
      a panic discards everything after it. */
  function Combine(step: Step, rest: (seq<Line>, bool)): (out: (seq<Line>, bool))
    ensures |out.0| <= |rest.0| + 1
  {
    match step
    case Skipped => rest
    case Printed(l) => ([l] + rest.0, rest.1)
    case Panicked => ([], true)
  }

  /** The program dies exactly when some sample decodes to a name without a NUL. */
  lemma {:induction false} ConsumePanicsIff(samples: seq<seq<byte>>)
    ensures Consume(samples).1 <==>
            exists k :: 0 <= k < |samples| && |samples[k]| >= EVENT_SIZE && 0 !in samples[k][4..20]
    decreases |samples|
  {
    if |samples| > 0 {
      ConsumePanicsIff(samples[1..]);
      var rest := samples[1..];
      if Consume(samples).1 {
        if !(|samples[0]| >= EVENT_SIZE && 0 !in samples[0][4..20]) {
          assert Consume(rest).1;
          var k :| 0 <= k < |rest| && |rest[k]| >= EVENT_SIZE && 0 !in rest[k][4..20];
          assert samples[k + 1] == rest[k];
        }
      } else {
        forall k | 0 <= k < |samples| && |samples[k]| >= EVENT_SIZE
          ensures 0 in samples[k][4..20]
        {
          if k > 0 {
            assert samples[k] == rest[k - 1];
          }
        }
      }
    }
  }

  /** A sample too short to decode is skipped and the loop goes on with the next one. */
  lemma ConsumeSkipsShort(raw: seq<byte>, rest: seq<seq<byte>>)
    requires |raw| < EVENT_SIZE
    ensures Consume([raw] + rest) == Consume(rest)
  {
    assert ([raw] + rest)[1..] == rest;
  }

  /** A step that does not panic puts its lines in front of whatever follows. */
  lemma CombineAppend(step: Step, y: seq<Line>, rest: (seq<Line>, bool))
    requires !step.Panicked?
    ensures Combine(step, (y + rest.0, rest.1)) == (Combine(step, (y, false)).0 + rest.0, rest.1)
  {
    if step.Printed? {
      assert [step.line] + (y + rest.0) == ([step.line] + y) + rest.0;
    }
  }

  /** Samples are handled one at a time: a stream that does not panic
      contributes its lines ahead of whatever follows. */
  lemma {:induction false} ConsumeAppend(a: seq<seq<byte>>, b: seq<seq<byte>>)
    requires !Consume(a).1
    ensures Consume(a + b) == (Consume(a).0 + Consume(b).0, Consume(b).1)
    decreases |a|
  {
    if |a| == 0 {
      assert a + b == b;
      assert Consume(a).0 == [];
      assert [] + Consume(b).0 == Consume(b).0;
    } else {
      var ab := a + b;
      assert ab[0] == a[0];
      assert ab[1..] == a[1..] + b;
      var step := HandleSample(a[0]);
      assert Consume(a) == Combine(step, Consume(a[1..]));
      assert Consume(ab) == Combine(step, Consume(a[1..] + b));
      assert !step.Panicked?;
      ConsumeAppend(a[1..], b);
      CombineAppend(step, Consume(a[1..]).0, Consume(b));
    }
  }

  /** A sample whose name has no NUL kills the program: the lines printed
      before it stay, and nothing after it is printed. */
  lemma PanicStops(a: seq<seq<byte>>, raw: seq<byte>, c: seq<seq<byte>>)
    requires !Consume(a).1
    requires |raw| >= EVENT_SIZE && 0 !in raw[4..20]
    ensures Consume(a + [raw] + c) == (Consume(a).0, true)
  {
    var tail := [raw] + c;
    assert a + [raw] + c == a + tail;
    assert tail[0] == raw && tail[1..] == c;
    assert HandleSample(raw).Panicked?;
    assert Consume(tail) == ([], true);
    ConsumeAppend(a, tail);
    assert Consume(a).0 + [] == Consume(a).0;
  }

  /** The line printed for a record the probe sent. */
  function LineOf(rec: ConnectProbe.Record): Line
  {
    Line(rec.pid, Text.CleanString(rec.comm), Reverse4(PutLE32(rec.daddr)))
  }

  /** A stream of samples, each a serialized record whose name is
      NUL-terminated (plus any trailing bytes), is printed in full: one
      line per record, in order, without a panic. */
  lemma {:induction false} ConsumeRecords(recs: seq<ConnectProbe.Record>, samples: seq<seq<byte>>)
    requires |samples| == |recs|
    requires forall k :: 0 <= k < |recs| ==> ConnectProbe.Serialize(recs[k]) <= samples[k]
    requires forall k :: 0 <= k < |recs| ==> 0 in recs[k].comm
    ensures !Consume(samples).1
    ensures |Consume(samples).0| == |recs|
    ensures forall k :: 0 <= k < |recs| ==> Consume(samples).0[k] == LineOf(recs[k])
    decreases |recs|
  {
    if |recs| > 0 {
      var rec := recs[0];
      var raw := samples[0];
      var ser := ConnectProbe.Serialize(rec);
      assert raw == ser + raw[|ser|..];
      DecodeSerialized(rec, raw[|ser|..]);
      PutBE32IsReversedLE(rec.daddr);
      assert HandleSample(raw) == Printed(LineOf(rec));
      ConsumeRecords(recs[1..], samples[1..]);
      var out := Consume(samples);
      assert out.0 == [LineOf(rec)] + Consume(samples[1..]).0;
      forall k | 0 <= k < |recs|
        ensures out.0[k] == LineOf(recs[k])
      {
        if k > 0 {
          assert recs[k] == recs[1..][k - 1];
        }
      }
    }
  }

  /** End to end, for one connect call the probe reports: the consumer
      prints the calling process's tgid and its name as the probe truncated
      it, and never panics on it. The address it prints is the four wire
      octets in REVERSED order: the sample is read little-endian and
      repacked big-endian, whatever the comment on `intToIP` says. */
  lemma EmittedCallIsPrinted(ctx: ConnectProbe.ConnectArgs, mem: ConnectProbe.UserMemory,
                             task: ConnectProbe.Task, trailer: seq<byte>)
    requires ConnectProbe.Probe(ctx, mem, task).emitted.Some?
    ensures var raw := ConnectProbe.Serialize(ConnectProbe.Probe(ctx, mem, task).emitted.value) + trailer;
            && HandleSample(raw).Printed?
            && HandleSample(raw).line.pid == Hi32(task.pidTgid)
            && HandleSample(raw).line.process == Text.FromBytes(task.name[..ConnectProbe.CommLength(task.name)])
    ensures var raw := ConnectProbe.Serialize(ConnectProbe.Probe(ctx, mem, task).emitted.value) + trailer;
            var wire := ConnectProbe.ReadUser(mem, ctx.uaddr + ConnectProbe.SIN_ADDR_OFFSET, 4);
            wire.Some? ==> HandleSample(raw).line.ip == Reverse4(wire.value)
  {
    var rec := ConnectProbe.Probe(ctx, mem, task).emitted.value;
    DecodeSerialized(rec, trailer);
    ConnectProbe.CurrentCommTerminated(task.name);
    ConnectProbe.CommTruncation(task.name);
    PutBE32IsReversedLE(rec.daddr);
  }

  /** The reversal made concrete: a connect to 93.184.216.34 is printed as 34.216.184.93. */
  lemma DisplayedAddressReversed(rec: ConnectProbe.Record)
    requires ConnectProbe.Serialize(rec)[20..24] == [93, 184, 216, 34]
    requires 0 in rec.comm
    ensures HandleSample(ConnectProbe.Serialize(rec)).line.ip == [34, 216, 184, 93]
  {
    DecodeSerialized(rec, []);
    assert ConnectProbe.Serialize(rec) + [] == ConnectProbe.Serialize(rec);
    assert ConnectProbe.Serialize(rec)[20..24] == PutLE32(rec.daddr);
    PutBE32IsReversedLE(rec.daddr);
  }
}
