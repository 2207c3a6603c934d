/** What is written frame by frame is read back as the same frames. */
module FrameRoundTrip {
  import opened Bytes
  import opened AckFrames
  import AckCodec
  import AckRoundTrip
  import Float16
  import StreamFrames
  import opened Frames

  /** The frame as the peer reads it: an ACK is truncated and its delay rounded, so are the round-trip
      times of a PATHS frame. */
  ghost function Seen(f: Frame): Frame
    requires f.Ack? ==> AckCodec.Writable(f.ack)
  {
    match f
    case Ack(a) => Ack(AckRoundTrip.Received(a))
    case Paths(most, n, ids, rtts) => Paths(most, n, ids, Rounded(rtts))
    case _ => f
  }

  function Rounded(rtts: seq<nat>): (r: seq<nat>)
    ensures |r| == |rtts|
  {
    if rtts == [] then []
    else
      Float16.RoundTrip(rtts[0]);
      [Float16.ReadUfloat16(Float16.Ufloat16(rtts[0]))] + Rounded(rtts[1..])
  }

  /** Every field fits its place on the wire, and what the parser demands holds. */
  ghost predicate Sendable(f: Frame, p: Packet) {
    match f
    case Stream(s) => StreamFrames.Sendable(s) && (s.id == 1 || p.encrypted)
    case Ack(a) => AckCodec.Writable(a) && |a.ranges| != 1
    case StopWaiting(least) => 1 <= least <= p.number && p.numberLength in {1, 2, 4, 6}
        && p.number - least < Pow256(p.numberLength)
    case RstStream(id, code, offset) => id < 0x1_0000_0000 && code < 0x1_0000_0000 && offset < StreamFrames.UINT64
    case Goaway(code, last, reason) => code < 0x1_0000_0000 && last < 0x1_0000_0000
        && |reason| <= StreamFrames.MAX_PACKET_SIZE
    case WindowUpdate(id, offset) => id < 0x1_0000_0000 && offset < StreamFrames.UINT64
    case Blocked(id) => id < 0x1_0000_0000
    case Ping => true
    case AddAddress(v, ip, port) => port < 0x1_0000
    case Paths(most, n, ids, rtts) => n <= most < 256 && forall i :: 0 <= i < |ids| ==> ids[i] < 256
  }

  predicate NeedsRest(f: Frame) { f.Stream? && !f.stream.dataLenPresent }

  lemma {:induction false} PathsReadBack(ids: seq<nat>, rtts: seq<nat>, order: ByteOrder, rest: seq<byte>)
    requires |ids| == |rtts| && forall i :: 0 <= i < |ids| ==> ids[i] < 256
    ensures ParsePaths(PathBytes(ids, rtts, order) + rest, |ids|, order) == Ok((ids, Rounded(rtts), rest))
  {
    hide Encode, Read, Float16.Ufloat16, Float16.ReadUfloat16;
    if ids != [] {
      var w := Float16.Ufloat16(rtts[0]);
      Float16.RoundTrip(rtts[0]);
      Powers();
      var s2 := PathBytes(ids[1..], rtts[1..], order) + rest;
      var s1 := Encode(w, 2, order) + s2;
      assert PathBytes(ids, rtts, order) + rest == Encode(ids[0], 1, order) + s1;
      ReadEncoded(ids[0], 1, order, s1);
      ReadEncoded(w, 2, order, s2);
      PathsReadBack(ids[1..], rtts[1..], order, rest);
      assert ids == [ids[0]] + ids[1..];
    } else {
      assert PathBytes(ids, rtts, order) + rest == rest;
    }
  }

  lemma {:induction false} ReadBytesBack(a: seq<byte>, rest: seq<byte>)
    ensures ReadBytes(a + rest, |a|) == Ok((a, rest))
  {
    assert (a + rest)[..|a|] == a && (a + rest)[|a|..] == rest;
  }

  /** The body of a control frame, after its type byte: frames of integers and a phrase. */
  lemma {:induction false} FieldsReadBack(f: Frame, p: Packet, rest: seq<byte>)
    requires Sendable(f, p) && Write(f, p).Ok? && (f.RstStream? || f.WindowUpdate? || f.Blocked? || f.Goaway?)
    ensures var w := Write(f, p).value;
            w != [] && 0 < w[0] < 0x20 && ParseControl(w[0], w[1..] + rest, p) == Ok((Seen(f), rest))
  {
    hide Encode, Read, ReadBytes, ParsePaths, PathBytes, AckRoundTrip.Received, Rounded;
    var w, o := Write(f, p).value, p.order;
    Powers();
    match f
    case RstStream(id, code, offset) =>
      var s2 := Encode(code, 4, o) + rest;
      var s1 := Encode(offset, 8, o) + s2;
      assert w[1..] + rest == Encode(id, 4, o) + s1;
      ReadEncoded(id, 4, o, s1);
      ReadEncoded(offset, 8, o, s2);
      ReadEncoded(code, 4, o, rest);
    case WindowUpdate(id, offset) =>
      var s1 := Encode(offset, 8, o) + rest;
      assert w[1..] + rest == Encode(id, 4, o) + s1;
      ReadEncoded(id, 4, o, s1);
      ReadEncoded(offset, 8, o, rest);
    case Blocked(id) =>
      assert w[1..] + rest == Encode(id, 4, o) + rest;
      ReadEncoded(id, 4, o, rest);
    case Goaway(code, last, reason) =>
      var s3 := reason + rest;
      var s2 := Encode(|reason|, 2, o) + s3;
      var s1 := Encode(last, 4, o) + s2;
      assert w[1..] + rest == Encode(code, 4, o) + s1;
      ReadEncoded(code, 4, o, s1);
      ReadEncoded(last, 4, o, s2);
      ReadEncoded(|reason|, 2, o, s3);
      ReadBytesBack(reason, rest);
  }

  /** The remaining control frames. */
  lemma {:induction false} OthersReadBack(f: Frame, p: Packet, rest: seq<byte>)
    requires Sendable(f, p) && Write(f, p).Ok? && (f.StopWaiting? || f.Ping? || f.AddAddress? || f.Paths?)
    ensures var w := Write(f, p).value;
            w != [] && 0 < w[0] < 0x20 && ParseControl(w[0], w[1..] + rest, p) == Ok((Seen(f), rest))
  {
    hide Encode, Read, ReadBytes, ParsePaths, PathBytes, AckRoundTrip.Received, Rounded;
    var w, o := Write(f, p).value, p.order;
    Powers();
    match f
    case StopWaiting(least) =>
      assert w[1..] + rest == Encode(p.number - least, p.numberLength, o) + rest;
      ReadEncoded(p.number - least, p.numberLength, o, rest);
    case Ping =>
      assert w[1..] + rest == rest;
    case AddAddress(v, ip, port) =>
      var s2 := Encode(port, 2, o) + rest;
      var s1 := ip + s2;
      StreamFrames.ByteEncoded(v, o);
      assert w[1..] + rest == Encode(v, 1, o) + s1;
      ReadEncoded(v, 1, o, s1);
      ReadBytesBack(ip, s2);
      ReadEncoded(port, 2, o, rest);
    case Paths(most, n, ids, rtts) =>
      var s2 := PathBytes(ids, rtts, o) + rest;
      var s1 := Encode(n, 1, o) + s2;
      assert w[1..] + rest == Encode(most, 1, o) + s1;
      ReadEncoded(most, 1, o, s1);
      ReadEncoded(n, 1, o, s2);
      PathsReadBack(ids, rtts, o, rest);
  }

  lemma {:induction false} WrittenAckStarts(a: AckFrame, order: ByteOrder)
    requires AckCodec.Writable(a) && AckCodec.WriteAck(a, order).Ok?
    ensures var w := AckCodec.WriteAck(a, order).value; w != [] && w[0] / 0x40 == 1
  {
    hide AckCodec.TypeByte, AckCodec.NumberLength, AckCodec.DeltaLength, AckCodec.RangeBytes, AckCodec.Blocks;
    AckRoundTrip.TypeBits(a, AckCodec.NumberLength(a.largestAcked), AckCodec.DeltaLength(a));
    assert AckCodec.Header(a, order)[0]
        == AckCodec.TypeByte(a, AckCodec.NumberLength(a.largestAcked), AckCodec.DeltaLength(a));
  }

  lemma {:induction false} StreamReadBack(f: Frame, p: Packet, rest: seq<byte>)
    requires f.Stream? && Sendable(f, p) && (NeedsRest(f) ==> rest == [])
    ensures Write(f, p).Ok?
    ensures var w := Write(f, p).value; w != [] && w[0] != 0 && ParseFrame(w + rest, p) == Ok((f, rest))
  {
    hide StreamFrames.Parse, StreamFrames.TypeByte, ParseControl;
    var s := f.stream;
    StreamFrames.TypeBits(s);
    assert s.data + [] == s.data;
    StreamFrames.RoundTrip(s, p.order, rest);
    TypeIsFirst(s, p.order);
  }

  lemma {:induction false} AckReadBack(f: Frame, p: Packet, rest: seq<byte>)
    requires f.Ack? && Sendable(f, p) && Write(f, p).Ok?
    ensures var w := Write(f, p).value; w != [] && w[0] != 0 && ParseFrame(w + rest, p) == Ok((Seen(f), rest))
  {
    hide AckCodec.WriteAck, AckCodec.ParseAck, StreamFrames.Parse, ParseControl, AckRoundTrip.Received;
    WrittenAckStarts(f.ack, p.order);
    AckRoundTrip.RoundTrip(f.ack, p.order, rest);
  }

  lemma {:induction false} ControlReadBack(f: Frame, p: Packet, rest: seq<byte>)
    requires !f.Stream? && !f.Ack? && Sendable(f, p) && Write(f, p).Ok?
    ensures var w := Write(f, p).value; w != [] && w[0] != 0 && ParseFrame(w + rest, p) == Ok((Seen(f), rest))
  {
    hide AckCodec.ParseAck, StreamFrames.Parse, ParseControl, Write, Seen;
    if f.RstStream? || f.WindowUpdate? || f.Blocked? || f.Goaway? {
      FieldsReadBack(f, p, rest);
    } else {
      OthersReadBack(f, p, rest);
    }
    var w := Write(f, p).value;
    assert (w + rest)[1..] == w[1..] + rest;
  }

  /** One frame, followed by anything; a stream frame without its length must come last. */
  lemma {:induction false} FrameReadBack(f: Frame, p: Packet, rest: seq<byte>)
    requires Sendable(f, p) && Write(f, p).Ok? && (NeedsRest(f) ==> rest == [])
    ensures var w := Write(f, p).value;
            w != [] && w[0] != 0 && ParseFrame(w + rest, p) == Ok((Seen(f), rest))
  {
    hide Write, ParseFrame, AckRoundTrip.Received;
    match f
    case Stream(_) => StreamReadBack(f, p, rest);
    case Ack(_) => AckReadBack(f, p, rest);
    case _ => ControlReadBack(f, p, rest);
  }

  // ----- whole payloads -----

  ghost predicate AllSendable(fs: seq<Frame>, p: Packet) {
    forall i :: 0 <= i < |fs| ==> Sendable(fs[i], p) && Write(fs[i], p).Ok?
  }

  ghost function WriteAll(fs: seq<Frame>, p: Packet): seq<byte>
    requires AllSendable(fs, p)
  {
    if fs == [] then [] else Write(fs[0], p).value + WriteAll(fs[1..], p)
  }

  ghost function SeenAll(fs: seq<Frame>): (r: seq<Frame>)
    requires forall i :: 0 <= i < |fs| ==> fs[i].Ack? ==> AckCodec.Writable(fs[i].ack)
  {
    if fs == [] then [] else [Seen(fs[0])] + SeenAll(fs[1..])
  }

  /** The frames of a payload are read back, in order, if only the last omits its length. */
  lemma {:induction false} PayloadReadBack(fs: seq<Frame>, p: Packet)
    requires AllSendable(fs, p) && forall i :: 0 <= i < |fs| - 1 ==> !NeedsRest(fs[i])
    ensures ParseAll(WriteAll(fs, p), p) == Ok(SeenAll(fs))
  {
    hide Write, ParseFrame, Seen;
    if fs != [] {
      var rest := WriteAll(fs[1..], p);
      FrameReadBack(fs[0], p, rest);
      PayloadReadBack(fs[1..], p);
      assert (Write(fs[0], p).value + rest)[0] == Write(fs[0], p).value[0];
    }
  }

  lemma {:induction false} SeenAllLength(fs: seq<Frame>)
    requires forall i :: 0 <= i < |fs| ==> fs[i].Ack? ==> AckCodec.Writable(fs[i].ack)
    ensures |SeenAll(fs)| == |fs|
  {
    if fs != [] { SeenAllLength(fs[1..]); }
  }

  lemma {:induction false} Swallowed(fs: seq<Frame>, p: Packet)
    requires AllSendable(fs, p) && |fs| >= 2 && NeedsRest(fs[0]) && |WriteAll(fs, p)| < 0x1_0000
    ensures ParseAll(WriteAll(fs, p), p) != Ok(SeenAll(fs))
  {
    hide StreamFrames.Parse, StreamFrames.TypeByte, StreamFrames.Header, Seen, ParseControl;
    var s, rest := fs[0].stream, WriteAll(fs[1..], p);
    var w := StreamFrames.Write(s, p.order).value;
    FrameReadBack(fs[0], p, []);
    assert w + [] == w;
    StreamFrames.TypeBits(s);
    StreamFrames.TakesAll(s, p.order, rest);
    TypeIsFirst(s, p.order);
    assert (w + rest)[0] == w[0];
    SeenAllLength(fs);
  }

  lemma {:induction false} TypeIsFirst(s: StreamFrames.StreamFrame, order: ByteOrder)
    requires StreamFrames.Write(s, order).Ok?
    ensures var w := StreamFrames.Write(s, order).value; w != [] && w[0] == StreamFrames.TypeByte(s)
  {
    hide StreamFrames.TypeByte;
  }

  /** And not otherwise: a stream frame that omits its length swallows whatever follows it. */
  lemma {:induction false} LengthIsNeeded(fs: seq<Frame>, p: Packet, k: nat)
    requires AllSendable(fs, p) && k < |fs| - 1 && NeedsRest(fs[k]) && forall i :: 0 <= i < k ==> !NeedsRest(fs[i])
    requires |WriteAll(fs, p)| < 0x1_0000
    ensures ParseAll(WriteAll(fs, p), p) != Ok(SeenAll(fs))
    decreases k
  {
    hide Write, ParseFrame, Seen;
    if k == 0 {
      Swallowed(fs, p);
    } else {
      var rest := WriteAll(fs[1..], p);
      FrameReadBack(fs[0], p, rest);
      LengthIsNeeded(fs[1..], p, k - 1);
      assert (Write(fs[0], p).value + rest)[0] == Write(fs[0], p).value[0];
      var t, head := ParseAll(rest, p), [Seen(fs[0])];
      assert t.Ok? ==> (head + t.value)[1..] == t.value;
      assert (head + SeenAll(fs[1..]))[1..] == SeenAll(fs[1..]);
    }
  }
}
