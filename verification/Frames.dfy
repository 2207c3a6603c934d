/** All frames a packet may carry, as written one after the other by the packer and as read by the
    loop of `Unpack`: mpquic_trans/internal/wire and mpquic_trans/packet_unpacker.go. */
module Frames {
  import opened Bytes
  import opened AckFrames
  import AckCodec
  import Float16
  import opened StreamFrames

  datatype Frame =
    | Stream(stream: StreamFrame)
    | Ack(ack: AckFrame)
    | StopWaiting(leastUnacked: nat)
    | RstStream(id: nat, errorCode: nat, offset: nat)
    | Goaway(code: nat, lastGoodStream: nat, reason: seq<byte>)
    | WindowUpdate(streamID: nat, byteOffset: nat)
    | Blocked(blocked: nat)
    | Ping
    | AddAddress(ipVersion: nat, ip: seq<byte>, port: nat)
    | Paths(maxNumPaths: nat, numPaths: nat, pathIDs: seq<nat>, remoteRTTs: seq<nat>)

  /** The packet a frame travels in: its number and the length of that number in the header. */
  datatype Packet = Packet(number: nat, numberLength: nat, order: ByteOrder, encrypted: bool)

  // ----- writing -----

  function PathBytes(ids: seq<nat>, rtts: seq<nat>, order: ByteOrder): (s: seq<byte>)
    requires |ids| == |rtts|
    ensures |s| == 3 * |ids|
  {
    if ids == [] then []
    else Encode(ids[0], 1, order) + Encode(Float16.Ufloat16(rtts[0]), 2, order) + PathBytes(ids[1..], rtts[1..], order)
  }

  function Write(f: Frame, p: Packet): (r: Result<seq<byte>>)
    requires f.Ack? ==> AckCodec.Writable(f.ack)
  {
    match f
    case Stream(s) => StreamFrames.Write(s, p.order)
    case Ack(a) => AckCodec.WriteAck(a, p.order)
    case StopWaiting(least) =>
      if p.number == 0 then Err("PacketNumber not set")
      else if least > p.number then Err("LeastUnacked can't be greater than the packet number")
      else if p.numberLength !in {1, 2, 4, 6} then Err("PacketNumberLen not set")
      else Ok([0x06] + Encode(p.number - least, p.numberLength, p.order))
    case RstStream(id, code, offset) => Ok([0x01] + Encode(id, 4, p.order) + Encode(offset, 8, p.order)
                                           + Encode(code, 4, p.order))
    case Goaway(code, last, reason) =>
      Ok([0x03] + Encode(code, 4, p.order) + Encode(last, 4, p.order) + Encode(|reason|, 2, p.order) + reason)
    case WindowUpdate(id, offset) => Ok([0x04] + Encode(id, 4, p.order) + Encode(offset, 8, p.order))
    case Blocked(id) => Ok([0x05] + Encode(id, 4, p.order))
    case Ping => Ok([0x07])
    case AddAddress(v, ip, port) =>
      if v == 4 && |ip| == 4 then Ok([0x10] + [4] + ip + Encode(port, 2, p.order))
      else if v == 6 && |ip| == 16 then Ok([0x10] + [6] + ip + Encode(port, 2, p.order))
      else Err("unknown IP version, or no such address")
    case Paths(most, n, ids, rtts) =>
      if n != |ids| then Err("number of paths advertised and # of paths do not match")
      else if |ids| != |rtts| then Err("number of paths IDs and number of remote RTTs do not match")
      else Ok([0x12] + Encode(most, 1, p.order) + Encode(n, 1, p.order) + PathBytes(ids, rtts, p.order))
  }

  /** The length the packer reckons with.  For a stream frame its data is to be added; the length of a
      PATHS frame is computed in eight bits. */
  function MinLength(f: Frame, p: Packet): (r: Result<nat>)
    requires f.Ack? ==> AckCodec.Writable(f.ack)
  {
    match f
    case Stream(s) => Ok(StreamFrames.MinLength(s))
    case Ack(a) => Ok(AckCodec.MinLength(a))
    case StopWaiting(_) => if p.numberLength == 0 then Err("PacketNumberLen not set") else Ok(1 + p.numberLength)
    case RstStream(_, _, _) => Ok(17)
    case Goaway(_, _, reason) => Ok(11 + |reason|)
    case WindowUpdate(_, _) => Ok(13)
    case Blocked(_) => Ok(5)
    case Ping => Ok(1)
    case AddAddress(v, _, _) => if v == 4 then Ok(8) else if v == 6 then Ok(20) else Err("unknown IP version")
    case Paths(_, n, _, _) => Ok((3 + 3 * n) % 256)
  }

  // ----- reading -----

  function ParsePaths(s: seq<byte>, n: nat, order: ByteOrder): (r: Result<(seq<nat>, seq<nat>, seq<byte>)>)
    ensures r.Ok? ==> |r.value.2| <= |s|
    decreases n
  {
    if n == 0 then Ok(([], [], s))
    else
      var (id, s1) :- Read(s, 1, order);
      var (w, s2) :- Read(s1, 2, order);
      Powers();
      var (ids, rtts, rest) :- ParsePaths(s2, n - 1, order);
      Ok(([id] + ids, [Float16.ReadUfloat16(w)] + rtts, rest))
  }

  function ReadBytes(s: seq<byte>, n: nat): (r: Result<(seq<byte>, seq<byte>)>) {
    if |s| < n then Err("EOF") else Ok((s[..n], s[n..]))
  }

  /** Frames other than stream frames and ACKs; `s` is what follows the type byte. */
  function ParseControl(t: byte, s: seq<byte>, p: Packet): (r: Result<(Frame, seq<byte>)>)
    ensures r.Ok? ==> |r.value.1| <= |s|
  {
    match t
    case 0x01 =>
      var (id, s1) :- Read(s, 4, p.order);
      var (offset, s2) :- Read(s1, 8, p.order);
      var (code, rest) :- Read(s2, 4, p.order);
      Ok((RstStream(id, code, offset), rest))
    case 0x03 =>
      var (code, s1) :- Read(s, 4, p.order);
      var (last, s2) :- Read(s1, 4, p.order);
      var (n, s3) :- Read(s2, 2, p.order);
      if n > MAX_PACKET_SIZE then Err("reason phrase too long")
      else
        var (reason, rest) :- ReadBytes(s3, n);
        Ok((Goaway(code, last, reason), rest))
    case 0x04 =>
      var (id, s1) :- Read(s, 4, p.order);
      var (offset, rest) :- Read(s1, 8, p.order);
      Ok((WindowUpdate(id, offset), rest))
    case 0x05 =>
      var (id, rest) :- Read(s, 4, p.order);
      Ok((Blocked(id), rest))
    case 0x06 =>
      var (delta, rest) :- Read(s, p.numberLength, p.order);
      if delta >= p.number then Err("invalid LeastUnackedDelta") else Ok((StopWaiting(p.number - delta), rest))
    case 0x07 => Ok((Ping, s))
    case 0x10 =>
      var (v, s1) :- Read(s, 1, p.order);
      if v != 4 && v != 6 then Err("unknown IP version")
      else
        var (ip, s2) :- ReadBytes(s1, if v == 4 then 4 else 16);
        var (port, rest) :- Read(s2, 2, p.order);
        Ok((AddAddress(v, ip, port), rest))
    case 0x12 =>
      var (most, s1) :- Read(s, 1, p.order);
      var (n, s2) :- Read(s1, 1, p.order);
      if n > most then Err("more paths than the maximum enabled")
      else
        var (ids, rtts, rest) :- ParsePaths(s2, n, p.order);
        Ok((Paths(most, n, ids, rtts), rest))
    case _ => Err("unknown type byte")
  }

  /** The packet number a STOP_WAITING frame names is at least one and not above its own packet's. */
  lemma {:induction false} StopWaitingInRange(t: byte, s: seq<byte>, p: Packet)
    requires ParseControl(t, s, p).Ok? && ParseControl(t, s, p).value.0.StopWaiting?
    ensures 1 <= ParseControl(t, s, p).value.0.leastUnacked <= p.number
  {
    hide Decode;
  }

  function ParseFrame(s: seq<byte>, p: Packet): (r: Result<(Frame, seq<byte>)>)
    requires s != []
    ensures r.Ok? ==> |r.value.1| < |s|
  {
    var t := s[0];
    if t / 0x80 == 1 then
      var (f, rest) :- StreamFrames.Parse(s, p.order);
      if f.id != 1 && !p.encrypted then Err("received unencrypted stream data") else Ok((Stream(f), rest))
    else if t / 0x40 == 1 then
      AckConsumes(s, p.order);
      var (f, rest) :- AckCodec.ParseAck(s, p.order);
      Ok((Ack(f), rest))
    else if t / 0x20 == 1 then Err("unimplemented: CONGESTION_FEEDBACK")
    else ParseControl(t, s[1..], p)
  }

  /** All frames of a payload; zero bytes are padding. */
  function ParseAll(s: seq<byte>, p: Packet): (r: Result<seq<Frame>>)
    decreases |s|
  {
    if s == [] then Ok([])
    else if s[0] == 0 then ParseAll(s[1..], p)
    else
      var (f, rest) :- ParseFrame(s, p);
      var fs :- ParseAll(rest, p);
      Ok([f] + fs)
  }

  lemma {:induction false} BlocksConsume(s: seq<byte>, n: nat, dl: nat, order: ByteOrder)
    ensures AckCodec.ReadBlocks(s, n, dl, order).Ok? ==> |AckCodec.ReadBlocks(s, n, dl, order).value.1| <= |s|
  {
    if n > 0 { BlocksConsume(s, n - 1, dl, order); }
  }

  lemma {:induction false} AckConsumes(s: seq<byte>, order: ByteOrder)
    ensures AckCodec.ParseAck(s, order).Ok? ==> |AckCodec.ParseAck(s, order).value.1| < |s|
  {
    hide AckCodec.ReadBlocks, AckCodec.Assemble, Float16.ReadUfloat16, Decode;
    var r := AckCodec.ParseHead(s, order);
    if r.Ok? && r.value.0.hasMissingRanges {
      var (h, s4) := r.value;
      var n := Read(s4, 1, order);
      if n.Ok? {
        var length := Read(n.value.1, h.dl, order);
        if length.Ok? { BlocksConsume(length.value.1, n.value.0, h.dl, order); }
      }
    }
  }

  /** The loop of `Unpack`. */
  method Unpack(payload: seq<byte>, p: Packet) returns (r: Result<seq<Frame>>)
    ensures r == if payload == [] then Err("MissingPayload") else ParseAll(payload, p)
  {
    hide ParseFrame;
    if payload == [] { return Err("MissingPayload"); }
    var rest, fs: seq<Frame> := payload, [];
    ghost var all := ParseAll(payload, p);
    if all.Ok? { assert [] + all.value == all.value; }
    while rest != []
      invariant ParseAll(payload, p) == (var t := ParseAll(rest, p); if t.Ok? then Ok(fs + t.value) else t)
      decreases |rest|
    {
      if rest[0] == 0 {
        rest := rest[1..];
      } else {
        var f := ParseFrame(rest, p);
        if f.Err? { return Err(f.error); }
        ghost var tail := ParseAll(f.value.1, p);
        if tail.Ok? { assert fs + ([f.value.0] + tail.value) == fs + [f.value.0] + tail.value; }
        fs, rest := fs + [f.value.0], f.value.1;
      }
    }
    assert fs + [] == fs;
    return Ok(fs);
  }
}
