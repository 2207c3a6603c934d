/** RTMP chunking: mpquic_trans/liveproxy/protocol/rtmp/core/chunk_stream.go and conn.go, compare sections
    5.3.1 and 5.4.1 of the Adobe RTMP specification 1.0.  The class is in RtmpConn.dfy. */
module RtmpChunks {
  import opened Bytes

  const MAX_POOL_SIZE: nat := 500 * 1024
  const EXTENDED: nat := 0xFFFFFF
  const UINT32: nat := 0x1_0000_0000
  const SET_CHUNK_SIZE: nat := 1
  const ACKNOWLEDGEMENT: nat := 3
  const WINDOW_ACK_SIZE: nat := 5
  const DEFAULT_CHUNK_SIZE: nat := 128
  const DEFAULT_WINDOW: nat := 2500000

  datatype Message = Message(csid: nat, timestamp: nat, typeID: nat, streamID: nat, data: seq<byte>)

  function Min(a: nat, b: nat): nat { if a < b then a else b }

  // ----- writing -----

  /** Audio, and video and script data, have chunk streams of their own. */
  function OutCsid(m: Message): nat {
    if m.typeID == 8 then 4 else if m.typeID in {9, 18, 15} then 6 else m.csid
  }

  function BasicHeader(format: nat, csid: nat): (s: seq<byte>)
    requires format <= 3
  {
    if csid < 64 then [format * 64 + csid]
    else if csid - 64 < 256 then [format * 64] + Encode(csid - 64, 1, LittleEndian)
    else if csid - 64 < 65536 then [format * 64 + 1] + Encode(csid - 64, 2, LittleEndian)
    else []
  }

  /** The first chunk of a message has the full header, the others none but the extended timestamp. */
  function Header(m: Message, first: bool): seq<byte> {
    var extended := if m.timestamp >= EXTENDED then Encode(m.timestamp, 4, BigEndian) else [];
    if first then
      BasicHeader(0, OutCsid(m)) + Encode(Min(m.timestamp, EXTENDED), 3, BigEndian) + Encode(|m.data|, 3, BigEndian)
      + Encode(m.typeID, 1, BigEndian) + Encode(m.streamID, 4, LittleEndian) + extended
    else BasicHeader(3, OutCsid(m)) + extended
  }

  /** The chunks of a message from byte `start` on. */
  function Chunks(m: Message, size: nat, start: nat): (s: seq<byte>)
    requires size > 0 && start <= |m.data|
    decreases |m.data| - start
  {
    if start == |m.data| then []
    else
      var end := start + Min(size, |m.data| - start);
      Header(m, start == 0) + m.data[start..end] + Chunks(m, size, end)
  }

  /** The size the writer cuts the message with: the one it announces holds for itself already.  A
      message without a size makes the source panic, and so does a size of zero. */
  function SizeFor(size: nat, m: Message): (r: Result<nat>)
    ensures r.Ok? ==> r.value > 0
  {
    if m.typeID == SET_CHUNK_SIZE && |m.data| < 4 then Err("index out of range")
    else
      var n := if m.typeID == SET_CHUNK_SIZE then Decode(m.data[..4], BigEndian) else size;
      if n == 0 then Err("integer divide by zero") else Ok(n)
  }

  // ----- reading -----

  /** `data` is what has been received of the message in progress, `remain` what is missing. */
  datatype ChunkStream = ChunkStream(
    format: nat, csid: nat, timestamp: nat, length: nat, typeID: nat, streamID: nat,
    timeDelta: nat, exted: bool, remain: nat, got: bool, data: seq<byte>)

  const Idle: ChunkStream := ChunkStream(0, 0, 0, 0, 0, 0, 0, false, 0, false, [])

  function New(cs: ChunkStream): (r: Result<ChunkStream>) {
    if cs.length > MAX_POOL_SIZE then Err("slice bounds out of range")
    else Ok(cs.(got := false, remain := cs.length, data := []))
  }

  function ReadTimestamp(t: nat, s: seq<byte>): (r: Result<(nat, bool, seq<byte>)>) {
    if t != EXTENDED then Ok((t, false, s))
    else
      var (u, rest) :- Read(s, 4, BigEndian);
      Ok((u, true, rest))
  }

  function ReadCsid(csid: nat, s: seq<byte>): (r: Result<(nat, seq<byte>)>) {
    if csid > 1 then Ok((csid, s))
    else
      var (id, rest) :- Read(s, csid + 1, LittleEndian);
      Ok((id + 64, rest))
  }

  /** The message header; after it the chunk stream says how much is missing. */
  function ReadHeader(cs: ChunkStream, format: nat, s: seq<byte>): (r: Result<(ChunkStream, seq<byte>)>) {
    match format
    case 0 =>
      var (t, s1) :- Read(s, 3, BigEndian);
      var (length, s2) :- Read(s1, 3, BigEndian);
      var (typeID, s3) :- Read(s2, 1, BigEndian);
      var (streamID, s4) :- Read(s3, 4, LittleEndian);
      var (timestamp, exted, rest) :- ReadTimestamp(t, s4);
      var n :- New(cs.(format := 0, timestamp := timestamp, length := length, typeID := typeID, streamID := streamID,
                       exted := exted));
      Ok((n, rest))
    case 1 =>
      var (t, s1) :- Read(s, 3, BigEndian);
      var (length, s2) :- Read(s1, 3, BigEndian);
      var (typeID, s3) :- Read(s2, 1, BigEndian);
      var (delta, exted, rest) :- ReadTimestamp(t, s3);
      var n :- New(cs.(format := 1, timestamp := (cs.timestamp + delta) % UINT32, timeDelta := delta, length := length,
                       typeID := typeID, exted := exted));
      Ok((n, rest))
    case 2 =>
      var (t, s1) :- Read(s, 3, BigEndian);
      var (delta, exted, rest) :- ReadTimestamp(t, s1);
      var n :- New(cs.(format := 2, timestamp := (cs.timestamp + delta) % UINT32, timeDelta := delta, exted := exted));
      Ok((n, rest))
    case 3 =>
      if cs.remain != 0 then
        if !cs.exted then Ok((cs, s))
        else
          var (t, rest) :- Read(s, 4, BigEndian);
          Ok((cs, if t == cs.timestamp then rest else s))
      else
        var (t, rest) :- if cs.exted then Read(s, 4, BigEndian) else Ok((cs.timeDelta, s));
        var timestamp := if cs.format != 0 then (cs.timestamp + t) % UINT32 else if cs.exted then t else cs.timestamp;
        var n :- New(cs.(timestamp := timestamp));
        Ok((n, rest))
    case _ => Err("invalid format")
  }

  function ReadChunk(cs: ChunkStream, format: nat, s: seq<byte>, size: nat): (r: Result<(ChunkStream, seq<byte>)>)
    ensures r.Ok? ==> |r.value.1| <= |s|
  {
    if cs.remain != 0 && format != 3 then Err("invalid remain")
    else
      var (csid, s1) :- ReadCsid(cs.csid, s);
      var (h, s2) :- ReadHeader(cs.(csid := csid), format, s1);
      var n := Min(h.remain, size);
      if |s2| < n then Err("EOF")
      else Ok((h.(data := h.data + s2[..n], remain := h.remain - n, got := h.got || h.remain == n), s2[n..]))
  }

  datatype Received = Received(message: ChunkStream, chunks: map<nat, ChunkStream>, rest: seq<byte>)

  /** Chunks are read until one completes a message. */
  function ReadMessage(chunks: map<nat, ChunkStream>, s: seq<byte>, size: nat): (r: Result<Received>)
    decreases |s|
  {
    if s == [] then Err("EOF")
    else
      var format, csid := s[0] / 64, s[0] % 64;
      var before := if csid in chunks then chunks[csid] else Idle;
      var (cs, rest) :- ReadChunk(before.(csid := csid), format, s[1..], size);
      var after := chunks[csid := cs];
      if cs.got then Ok(Received(cs, after, rest)) else ReadMessage(after, rest, size)
  }

  function MessageOf(cs: ChunkStream): Message { Message(cs.csid, cs.timestamp, cs.typeID, cs.streamID, cs.data) }

  // ----- control messages -----

  /** What the peer has announced, and how much was read since the last acknowledgement. */
  datatype Limits = Limits(size: nat, window: nat, unacked: nat)

  /** `handleControlMsg`: a chunk size or a window that is too short makes the source panic. */
  function Heed(l: Limits, typeID: nat, data: seq<byte>): (r: Result<Limits>) {
    if typeID !in {SET_CHUNK_SIZE, WINDOW_ACK_SIZE} then Ok(l)
    else if |data| < 4 then Err("index out of range")
    else if typeID == SET_CHUNK_SIZE then Ok(l.(size := Decode(data[..4], BigEndian)))
    else Ok(l.(window := Decode(data[..4], BigEndian)))
  }

  function AckMessage(n: nat): Message { Message(2, 0, ACKNOWLEDGEMENT, 0, Encode(n, 4, BigEndian)) }

  /** `ack`: counts a message, and says which acknowledgement is due. */
  function Counted(l: Limits, length: nat): (Limits, seq<Message>) {
    var n := (l.unacked + length) % UINT32;
    if n >= l.window then (l.(unacked := 0), [AckMessage(n)]) else (l.(unacked := n), [])
  }
}
