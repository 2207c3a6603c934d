/** Messages that are cut into chunks come out whole, in order, and with chunk sizes in lockstep. */
module RtmpRoundTrip {
  import opened Bytes
  import opened RtmpChunks

  const CHUNK_STREAMS: nat := 64 + 65536

  /** Messages with fields in range. */
  ghost predicate Writable(m: Message) {
    && 2 <= m.csid < CHUNK_STREAMS && m.timestamp < UINT32 && m.typeID < 256 && m.streamID < UINT32
    && 1 <= |m.data| <= MAX_POOL_SIZE
  }

  // ----- chunk stream IDs -----

  /** What the first byte of a chunk says about its chunk stream.  The reader keeps the chunk streams by
      this number, so all IDs from 64 on share two entries. */
  function Key(csid: nat): nat { if csid < 64 then csid else if csid - 64 < 256 then 0 else 1 }

  /** The bytes that follow. */
  function CsidBytes(csid: nat): seq<byte> {
    if csid < 64 then [] else Encode(csid - 64, if csid - 64 < 256 then 1 else 2, LittleEndian)
  }

  lemma {:induction false} BasicHeaderIs(format: nat, csid: nat)
    requires format <= 3 && csid < CHUNK_STREAMS
    ensures Key(csid) < 64 && BasicHeader(format, csid) == [format * 64 + Key(csid)] + CsidBytes(csid)
  {
    hide Encode;
  }

  lemma {:induction false} CsidReads(csid: nat, rest: seq<byte>)
    requires 2 <= csid < CHUNK_STREAMS
    ensures ReadCsid(Key(csid), CsidBytes(csid) + rest) == Ok((csid, rest))
  {
    hide Encode, Read;
    Powers();
    assert [] + rest == rest;
    if csid >= 64 { ReadEncoded(csid - 64, Key(csid) + 1, LittleEndian, rest); }
  }

  // ----- the first chunk -----

  /** The chunk stream once the header of a new message is read. */
  function Opened(cs: ChunkStream, m: Message): ChunkStream {
    cs.(format := 0, timestamp := m.timestamp, length := |m.data|, typeID := m.typeID, streamID := m.streamID,
        exted := m.timestamp >= EXTENDED, got := false, remain := |m.data|, data := [])
  }

  function Extended(m: Message): seq<byte> { if m.timestamp >= EXTENDED then Encode(m.timestamp, 4, BigEndian) else [] }

  lemma {:induction false} TimestampReads(m: Message, rest: seq<byte>)
    requires m.timestamp < UINT32
    ensures ReadTimestamp(Min(m.timestamp, EXTENDED), Extended(m) + rest)
            == Ok((m.timestamp, m.timestamp >= EXTENDED, rest))
  {
    hide Encode, Read;
    Powers();
    assert [] + rest == rest;
    ReadEncoded(m.timestamp, 4, BigEndian, rest);
  }

  lemma {:induction false} FullHeaderReads(cs: ChunkStream, m: Message, rest: seq<byte>)
    requires Writable(m)
    ensures var s := Encode(Min(m.timestamp, EXTENDED), 3, BigEndian) + (Encode(|m.data|, 3, BigEndian)
              + (Encode(m.typeID, 1, BigEndian) + (Encode(m.streamID, 4, LittleEndian) + (Extended(m) + rest))));
            ReadHeader(cs, 0, s) == Ok((Opened(cs, m), rest))
  {
    hide Encode, Read, ReadTimestamp, Extended;
    Powers();
    var s4 := Extended(m) + rest;
    var s3 := Encode(m.streamID, 4, LittleEndian) + s4;
    var s2 := Encode(m.typeID, 1, BigEndian) + s3;
    var s1 := Encode(|m.data|, 3, BigEndian) + s2;
    ReadEncoded(Min(m.timestamp, EXTENDED), 3, BigEndian, s1);
    ReadEncoded(|m.data|, 3, BigEndian, s2);
    ReadEncoded(m.typeID, 1, BigEndian, s3);
    ReadEncoded(m.streamID, 4, LittleEndian, s4);
    TimestampReads(m, rest);
  }

  lemma {:induction false} Grouped<T>(a: seq<T>, b: seq<T>, c: seq<T>, d: seq<T>, e: seq<T>, f: seq<T>, r: seq<T>)
    ensures a + b + c + d + e + f + r == a + (b + (c + (d + (e + (f + r)))))
  {}

  /** How the first header is laid out. */
  lemma {:induction false} FirstHeader(m: Message, rest: seq<byte>)
    requires Writable(m)
    ensures var s := Encode(Min(m.timestamp, EXTENDED), 3, BigEndian) + (Encode(|m.data|, 3, BigEndian)
              + (Encode(m.typeID, 1, BigEndian) + (Encode(m.streamID, 4, LittleEndian) + (Extended(m) + rest))));
            Header(m, true) + rest == [Key(OutCsid(m)) as byte] + (CsidBytes(OutCsid(m)) + s)
  {
    hide Encode, BasicHeader, Key, CsidBytes;
    var id := OutCsid(m);
    BasicHeaderIs(0, id);
    Grouped([Key(id) as byte] + CsidBytes(id), Encode(Min(m.timestamp, EXTENDED), 3, BigEndian),
            Encode(|m.data|, 3, BigEndian),
            Encode(m.typeID, 1, BigEndian), Encode(m.streamID, 4, LittleEndian), Extended(m), rest);
  }

  // ----- all chunks -----

  /** After `start` bytes. */
  function Progress(cs: ChunkStream, m: Message, start: nat): ChunkStream
    requires start <= |m.data|
  {
    Opened(cs, m).(data := m.data[..start], remain := |m.data| - start, got := start == |m.data|)
  }

  /** The body of a chunk. */
  lemma {:induction false} BodyReads(cs: ChunkStream, m: Message, start: nat, size: nat, rest: seq<byte>,
                                     h: ChunkStream, s2: seq<byte>)
    requires start < |m.data| && h == Progress(cs, m, start).(data := m.data[..start], remain := |m.data| - start,
                                                              got := false)
    requires s2 == m.data[start..start + Min(|m.data| - start, size)] + rest
    ensures var n := Min(h.remain, size);
            && n <= |s2| && s2[n..] == rest
            && h.(data := h.data + s2[..n], remain := h.remain - n, got := h.got || h.remain == n)
                == Progress(cs, m, start + n)
  {
    var n := Min(h.remain, size);
    assert s2[..n] == m.data[start..start + n];
    assert m.data[..start] + m.data[start..start + n] == m.data[..start + n];
  }

  lemma {:induction false} FirstChunkReads(cs: ChunkStream, m: Message, size: nat, rest: seq<byte>)
    requires Writable(m) && cs.remain == 0 && cs.csid == OutCsid(m)
    ensures var n := Min(|m.data|, size);
            var s := Header(m, true) + m.data[0..n] + rest;
            && s != [] && s[0] == Key(OutCsid(m))
            && ReadChunk(cs.(csid := Key(OutCsid(m))), 0, s[1..], size) == Ok((Progress(cs, m, n), rest))
  {
    hide Header, ReadHeader, Progress, Opened, ReadCsid, Key, CsidBytes, Extended, Encode;
    var n := Min(|m.data|, size);
    var body := m.data[0..n] + rest;
    var s := Header(m, true) + m.data[0..n] + rest;
    FirstHeader(m, body);
    assert s == Header(m, true) + body;
    FullHeaderReads(cs, m, body);
    CsidReads(cs.csid, Encode(Min(m.timestamp, EXTENDED), 3, BigEndian) + (Encode(|m.data|, 3, BigEndian)
              + (Encode(m.typeID, 1, BigEndian) + (Encode(m.streamID, 4, LittleEndian) + (Extended(m) + body)))));
    OpenedIs(cs, m);
    BodyReads(cs, m, 0, size, rest, Opened(cs, m), body);
  }

  lemma {:induction false} OpenedIs(cs: ChunkStream, m: Message)
    requires Writable(m)
    ensures Opened(cs, m) == Progress(cs, m, 0).(data := m.data[..0], remain := |m.data| - 0, got := false)
    ensures Opened(cs, m).remain == |m.data| && !Opened(cs, m).got
  {}

  lemma {:induction false} NextHeaderReads(cs: ChunkStream, m: Message, rest: seq<byte>)
    requires Writable(m) && cs.remain != 0 && cs.timestamp == m.timestamp && cs.exted == (m.timestamp >= EXTENDED)
    ensures ReadHeader(cs, 3, Extended(m) + rest) == Ok((cs, rest))
  {
    hide Encode, Read;
    Powers();
    assert [] + rest == rest;
    ReadEncoded(m.timestamp, 4, BigEndian, rest);
  }

  lemma {:induction false} NextChunkReads(cs: ChunkStream, m: Message, start: nat, size: nat, rest: seq<byte>)
    requires Writable(m) && cs.csid == OutCsid(m) && 0 < start < |m.data|
    ensures var n := Min(|m.data| - start, size);
            var s := Header(m, false) + m.data[start..start + n] + rest;
            && s != [] && s[0] == 3 * 64 + Key(OutCsid(m))
            && ReadChunk(Progress(cs, m, start).(csid := Key(OutCsid(m))), 3, s[1..], size)
                == Ok((Progress(cs, m, start + n), rest))
  {
    hide Header, ReadHeader, Progress, ReadCsid, Key, CsidBytes, Extended;
    var n := Min(|m.data| - start, size);
    var body := m.data[start..start + n] + rest;
    var s := Header(m, false) + m.data[start..start + n] + rest;
    NextHeader(m, m.data[start..start + n], rest);
    var p := Progress(cs, m, start);
    ProgressIs(cs, m, start);
    CsidReads(cs.csid, Extended(m) + body);
    NextHeaderReads(p, m, body);
    BodyReads(cs, m, start, size, rest, p, body);
  }

  lemma {:induction false} ProgressIs(cs: ChunkStream, m: Message, start: nat)
    requires 0 < start < |m.data|
    ensures var p := Progress(cs, m, start);
            && p == p.(data := m.data[..start], remain := |m.data| - start, got := false, csid := cs.csid)
            && p.timestamp == m.timestamp && p.exted == (m.timestamp >= EXTENDED)
  {}

  lemma {:induction false} NextHeader(m: Message, body: seq<byte>, rest: seq<byte>)
    requires Writable(m)
    ensures var s := Header(m, false) + body + rest;
            s != [] && s[0] == 3 * 64 + Key(OutCsid(m)) && s[1..] == CsidBytes(OutCsid(m))
                + (Extended(m) + (body + rest))
  {
    hide Encode, BasicHeader, Key, CsidBytes;
    BasicHeaderIs(3, OutCsid(m));
    assert Header(m, false) == BasicHeader(3, OutCsid(m)) + Extended(m);
  }

  lemma {:induction false} Split(b: byte, format: nat, csid: nat)
    requires csid < 64 && b == format * 64 + csid
    ensures b / 64 == format && b % 64 == csid
  {}

  /** Reader and writer cut a message at the same places. */
  predicate SameCuts(m: Message, w: nat, r: nat) { w > 0 && (w == r || (|m.data| <= w && |m.data| <= r)) }

  lemma {:induction false} ReadOneChunk(chunks: map<nat, ChunkStream>, s: seq<byte>, size: nat, format: nat, csid: nat,
                                        cs: ChunkStream, rest: seq<byte>)
    requires s != [] && format <= 3 && csid < 64 && s[0] == format * 64 + csid
    requires var before := if csid in chunks then chunks[csid] else Idle;
             ReadChunk(before.(csid := csid), format, s[1..], size) == Ok((cs, rest))
    ensures |rest| < |s|
    ensures ReadMessage(chunks, s, size) == if cs.got then Ok(Received(cs, chunks[csid := cs], rest))
            else ReadMessage(chunks[csid := cs], rest, size)
  {
    hide ReadChunk;
    Split(s[0], format, csid);
  }

  /** The rest of a message that has begun. */
  lemma {:induction false} RestReads(chunks: map<nat, ChunkStream>, cs: ChunkStream, m: Message, w: nat, r: nat,
                                     start: nat, rest: seq<byte>)
    requires Writable(m) && SameCuts(m, w, r) && cs.csid == OutCsid(m) && 0 < start < |m.data|
    requires Key(OutCsid(m)) in chunks && chunks[Key(OutCsid(m))] == Progress(cs, m, start)
    ensures var f := Progress(cs, m, |m.data|);
            ReadMessage(chunks, Chunks(m, w, start) + rest, r) == Ok(Received(f, chunks[Key(OutCsid(m)) := f], rest))
    decreases |m.data| - start
  {
    hide Header, ReadChunk, ReadMessage, Key;
    BasicHeaderIs(3, OutCsid(m));
    var id, n := Key(OutCsid(m)), Min(|m.data| - start, r);
    var end := start + n;
    var tail := Chunks(m, w, end) + rest;
    var s := Chunks(m, w, start) + rest;
    assert s == Header(m, false) + m.data[start..end] + tail;
    NextChunkReads(cs, m, start, r, tail);
    var p := Progress(cs, m, end);
    ReadOneChunk(chunks, s, r, 3, id, p, tail);
    if end == |m.data| {
      assert tail == rest;
    } else {
      RestReads(chunks[id := p], cs, m, w, r, end, rest);
      assert chunks[id := p][id := Progress(cs, m, |m.data|)] == chunks[id := Progress(cs, m, |m.data|)];
    }
  }

  /** A whole message, read by a reader that has no message of its chunk stream in progress. */
  lemma {:induction false} MessageReads(chunks: map<nat, ChunkStream>, m: Message, w: nat, r: nat, rest: seq<byte>)
    requires Writable(m) && SameCuts(m, w, r) && (Key(OutCsid(m)) in chunks ==> chunks[Key(OutCsid(m))].remain == 0)
    ensures var id := Key(OutCsid(m));
            var f := Progress((if id in chunks then chunks[id] else Idle).(csid := OutCsid(m)), m, |m.data|);
            && ReadMessage(chunks, Chunks(m, w, 0) + rest, r) == Ok(Received(f, chunks[id := f], rest))
            && MessageOf(f) == m.(csid := OutCsid(m)) && f.remain == 0
  {
    hide Header, ReadChunk, ReadMessage, Key;
    BasicHeaderIs(0, OutCsid(m));
    var id, n := Key(OutCsid(m)), Min(|m.data|, r);
    var cs := (if id in chunks then chunks[id] else Idle).(csid := OutCsid(m));
    var tail := Chunks(m, w, n) + rest;
    var s := Chunks(m, w, 0) + rest;
    assert s == Header(m, true) + m.data[0..n] + tail;
    FirstChunkReads(cs, m, r, tail);
    var p := Progress(cs, m, n);
    ReadOneChunk(chunks, s, r, 0, id, p, tail);
    assert m.data[..|m.data|] == m.data;
    if n == |m.data| {
      assert tail == rest;
    } else {
      RestReads(chunks[id := p], cs, m, w, r, n, rest);
      assert chunks[id := p][id := Progress(cs, m, |m.data|)] == chunks[id := Progress(cs, m, |m.data|)];
    }
  }

  // ----- sequences of messages -----

  /** The messages can be written and read: a control message holds the number it is there for, and a Set
      Chunk Size message is not cut otherwise than the reader expects; it is short, or changes nothing. */
  ghost predicate Readable(ms: seq<Message>, size: nat) {
    ms != [] ==>
      && SizeFor(size, ms[0]).Ok?
      && (ms[0].data != [] ==>
            && Writable(ms[0]) && (ms[0].typeID in {SET_CHUNK_SIZE, WINDOW_ACK_SIZE} ==> |ms[0].data| >= 4)
            && SameCuts(ms[0], SizeFor(size, ms[0]).value, size))
      && Readable(ms[1..], SizeFor(size, ms[0]).value)
  }

  /** The writer changes its chunk size before it writes the message that announces it. */
  ghost function WriteMessages(ms: seq<Message>, size: nat): seq<byte>
    requires Readable(ms, size)
  {
    if ms == [] then []
    else
      var n := SizeFor(size, ms[0]).value;
      Chunks(ms[0], n, 0) + WriteMessages(ms[1..], n)
  }

  ghost function FinalSize(ms: seq<Message>, size: nat): nat
    requires Readable(ms, size)
  {
    if ms == [] then size else FinalSize(ms[1..], SizeFor(size, ms[0]).value)
  }

  datatype Reader = Reader(chunks: map<nat, ChunkStream>, limits: Limits)

  /** One message, with what is done about it. */
  function ReadStep(r: Reader, s: seq<byte>): (res: Result<(Message, Reader, seq<byte>)>) {
    var got :- ReadMessage(r.chunks, s, r.limits.size);
    var limits :- Heed(r.limits, got.message.typeID, got.message.data);
    Ok((MessageOf(got.message), Reader(got.chunks, Counted(limits, got.message.length).0), got.rest))
  }

  /** Reads `n` messages. */
  function ReadMessages(r: Reader, s: seq<byte>, n: nat): (res: Result<(seq<Message>, Reader, seq<byte>)>)
    decreases n
  {
    if n == 0 then Ok(([], r, s))
    else
      var (m, r1, s1) :- ReadStep(r, s);
      var (ms, r', rest) :- ReadMessages(r1, s1, n - 1);
      Ok(([m] + ms, r', rest))
  }

  ghost predicate AllIdle(chunks: map<nat, ChunkStream>) { forall id :: id in chunks ==> chunks[id].remain == 0 }

  /** What arrives: an empty message has no chunk, and so does not. */
  ghost function Seen(ms: seq<Message>): seq<Message> {
    if ms == [] then []
    else if ms[0].data == [] then Seen(ms[1..])
    else [ms[0].(csid := OutCsid(ms[0]))] + Seen(ms[1..])
  }

  /** One message arrives, and reader and writer agree on the chunk size. */
  lemma {:induction false} StepArrives(m: Message, r: Reader, rest: seq<byte>)
    requires Readable([m], r.limits.size) && m.data != [] && AllIdle(r.chunks)
    ensures var w := SizeFor(r.limits.size, m).value;
            var res := ReadStep(r, Chunks(m, w, 0) + rest);
            && res.Ok? && res.value.0 == m.(csid := OutCsid(m)) && res.value.2 == rest
            && res.value.1.limits.size == w && AllIdle(res.value.1.chunks)
  {
    hide ReadMessage, Chunks, Progress, Key;
    assert Readable([m], r.limits.size) && [m][0] == m;
    MessageReads(r.chunks, m, SizeFor(r.limits.size, m).value, r.limits.size, rest);
  }

  /** Whatever sequence of messages is written, the reader gets the same messages but empty ones, in order
      and whole, on the chunk streams their types call for; and both sides end with the same chunk size. */
  lemma {:induction false} MessagesArrive(ms: seq<Message>, r: Reader, rest: seq<byte>)
    requires Readable(ms, r.limits.size) && AllIdle(r.chunks)
    ensures var res := ReadMessages(r, WriteMessages(ms, r.limits.size) + rest, |Seen(ms)|);
            && res.Ok? && res.value.0 == Seen(ms) && res.value.2 == rest
            && res.value.1.limits.size == FinalSize(ms, r.limits.size) && AllIdle(res.value.1.chunks)
    decreases |ms|
  {
    hide ReadStep, Chunks, SizeFor, AllIdle;
    if ms == [] {
      assert [] + rest == rest;
    } else {
      var m, w := ms[0], SizeFor(r.limits.size, ms[0]).value;
      var tail := WriteMessages(ms[1..], w) + rest;
      assert WriteMessages(ms, r.limits.size) + rest == Chunks(m, w, 0) + tail;
      if m.data == [] {
        NothingWritten(m, r.limits.size);
        assert [] + tail == tail;
        MessagesArrive(ms[1..], r, rest);
      } else {
        OneReadable(ms, r.limits.size);
        StepArrives(m, r, tail);
        var r1 := ReadStep(r, Chunks(m, w, 0) + tail).value.1;
        MessagesArrive(ms[1..], r1, rest);
      }
    }
  }

  lemma {:induction false} NothingWritten(m: Message, size: nat)
    requires m.data == [] && SizeFor(size, m).Ok?
    ensures SizeFor(size, m) == Ok(size) && Chunks(m, size, 0) == []
  {}

  lemma {:induction false} OneReadable(ms: seq<Message>, size: nat)
    requires ms != [] && Readable(ms, size)
    ensures Readable([ms[0]], size)
  {
    hide SizeFor, SameCuts, Writable;
    assert [ms[0]][1..] == [];
  }

  /** With chunk sizes of at least four all along, four-byte announcements are no obstacle. */
  lemma {:induction false} FourIsEnough(ms: seq<Message>, size: nat)
    requires size >= 4 && forall i :: 0 <= i < |ms| ==>
               && (ms[i].data != [] ==> Writable(ms[i]))
               && (ms[i].typeID == WINDOW_ACK_SIZE && ms[i].data != [] ==> |ms[i].data| >= 4)
               && (ms[i].typeID == SET_CHUNK_SIZE ==> |ms[i].data| == 4 && Decode(ms[i].data, BigEndian) >= 4)
    ensures Readable(ms, size)
    decreases |ms|
  {
    hide Writable;
    if ms != [] {
      if ms[0].typeID == SET_CHUNK_SIZE { assert ms[0].data[..4] == ms[0].data; }
      FourIsEnough(ms[1..], SizeFor(size, ms[0]).value);
    }
  }

  // ----- control messages that are too short -----

  /** A Window Ack Size message is read if and only if it has at least four bytes. */
  lemma {:induction false} WindowIsReadIff(m: Message, r: Reader, rest: seq<byte>)
    requires Writable(m) && m.typeID == WINDOW_ACK_SIZE && r.limits.size > 0 && AllIdle(r.chunks)
    ensures ReadStep(r, Chunks(m, r.limits.size, 0) + rest).Ok? <==> |m.data| >= 4
  {
    hide ReadMessage, Chunks, Progress, Key;
    MessageReads(r.chunks, m, r.limits.size, r.limits.size, rest);
  }

  lemma {:induction false} ShortWindow(rest: seq<byte>)
    ensures var m := Message(3, 0, WINDOW_ACK_SIZE, 0, [1]);
            var r := Reader(map[], Limits(DEFAULT_CHUNK_SIZE, DEFAULT_WINDOW, 0));
            Writable(m) && ReadStep(r, Chunks(m, DEFAULT_CHUNK_SIZE, 0) + rest).Err?
  {
    hide ReadStep, Chunks;
    WindowIsReadIff(Message(3, 0, WINDOW_ACK_SIZE, 0, [1]),
                    Reader(map[], Limits(DEFAULT_CHUNK_SIZE, DEFAULT_WINDOW, 0)), rest);
  }

  // ----- why announced chunk sizes must be at least four -----

  lemma {:induction false} DecodeAtLeast(s: seq<byte>, k: nat)
    requires k < |s|
    ensures Decode(s, BigEndian) >= s[k]
    decreases |s|
  {
    if k < |s| - 1 { DecodeAtLeast(s[..|s| - 1], k); }
  }

  lemma {:induction false} ChunksHoldData(m: Message, size: nat, start: nat)
    requires size > 0 && start <= |m.data|
    ensures |Chunks(m, size, start)| >= |m.data| - start
    decreases |m.data| - start
  {
    hide Header;
    if start < |m.data| { ChunksHoldData(m, size, start + Min(size, |m.data| - start)); }
  }

  /** What the reader takes for the message when its own chunk size is larger than the announced one: the
      header of the second chunk becomes data. */
  lemma {:induction false} SecondHeaderIsRead(m: Message, v: nat, rest: seq<byte>)
      returns (garbled: Message, left: seq<byte>)
    requires Writable(m) && 0 < v < |m.data|
    ensures Writable(garbled) && garbled == m.(data := garbled.data) && |garbled.data| == |m.data|
    ensures Chunks(m, v, 0) + rest == Header(garbled, true) + garbled.data[0..|m.data|] + left
    ensures |left| > |rest| && garbled.data[v] >= 3 * 64
  {
    hide Header;
    var n := |m.data|;
    var tail := Chunks(m, v, v) + rest;
    SecondStarts(m, v);
    garbled := m.(data := m.data[0..v] + tail[..n - v]);
    left := tail[n - v..];
    assert Chunks(m, v, 0) + rest == Header(m, true) + m.data[0..v] + tail;
    assert m.data[0..v] + tail == garbled.data[0..n] + left;
    SameHeader(m, garbled);
    assert garbled.data[v] == tail[0];
  }

  lemma {:induction false} SameHeader(m: Message, n: Message)
    requires n == m.(data := n.data) && |n.data| == |m.data|
    ensures Header(m, true) == Header(n, true)
  {}

  lemma {:induction false} SecondStarts(m: Message, v: nat)
    requires Writable(m) && 0 < v < |m.data|
    ensures |Chunks(m, v, v)| > |m.data| - v && Chunks(m, v, v)[0] >= 3 * 64
  {
    hide Encode, BasicHeader, Key, CsidBytes;
    BasicHeaderIs(3, OutCsid(m));
    assert Header(m, false)[0] == BasicHeader(3, OutCsid(m))[0];
    var end := v + Min(v, |m.data| - v);
    ChunksHoldData(m, v, end);
    assert Chunks(m, v, v) == Header(m, false) + m.data[v..end] + Chunks(m, v, end);
  }

  /** A Set Chunk Size message is itself cut by the size it announces.  For a reader that expects it in
      one chunk it arrives, with nothing of it left over, if and only if that size is no less than its own
      length; and four bytes that do not arrive are not read as the same four bytes either. */
  lemma {:induction false} AnnouncementArrives(chunks: map<nat, ChunkStream>, m: Message, r: nat, rest: seq<byte>)
    requires Writable(m) && m.typeID == SET_CHUNK_SIZE && 4 <= |m.data| <= r && SizeFor(r, m).Ok?
    requires Key(m.csid) in chunks ==> chunks[Key(m.csid)].remain == 0
    ensures var v := SizeFor(r, m).value;
            var got := ReadMessage(chunks, Chunks(m, v, 0) + rest, r);
            && got.Ok?
            && (MessageOf(got.value.message) == m && got.value.rest == rest <==> v >= |m.data|)
            && (|m.data| == 4 ==> (MessageOf(got.value.message) == m <==> v >= 4))
  {
    hide Header, ReadMessage, Chunks;
    var v, n := SizeFor(r, m).value, |m.data|;
    if v >= n {
      MessageReads(chunks, m, v, r, rest);
    } else {
      var garbled, left := SecondHeaderIsRead(m, v, rest);
      OneChunk(garbled);
      MessageReads(chunks, garbled, n, r, left);
      if n == 4 {
        assert m.data[..4] == m.data;
        DecodeAtLeast(m.data, v);
      }
    }
  }

  lemma {:induction false} OneChunk(m: Message)
    requires |m.data| > 0
    ensures forall rest :: Chunks(m, |m.data|, 0) + rest == Header(m, true) + m.data[0..|m.data|] + rest
  {
    hide Header;
    assert Chunks(m, |m.data|, |m.data|) == [];
  }

  /** Announcing a chunk size of one. */
  lemma {:induction false} GarbledAnnouncement(rest: seq<byte>)
    ensures var m := Message(2, 0, SET_CHUNK_SIZE, 0, [0, 0, 0, 1]);
            && Writable(m) && SizeFor(DEFAULT_CHUNK_SIZE, m) == Ok(1)
            && var got := ReadMessage(map[], Chunks(m, 1, 0) + rest, DEFAULT_CHUNK_SIZE);
               got.Ok? && MessageOf(got.value.message) != m
  {
    hide ReadMessage, Chunks, Decode;
    var m := Message(2, 0, SET_CHUNK_SIZE, 0, [0, 0, 0, 1]);
    OneAsBytes();
    assert m.data[..4] == m.data;
    AnnouncementArrives(map[], m, DEFAULT_CHUNK_SIZE, rest);
  }

  lemma {:induction false} OneAsBytes()
    ensures Decode([0, 0, 0, 1], BigEndian) == 1
  {
    Powers();
    DecodeEncode(1, 4, BigEndian);
    assert Encode(1, 4, BigEndian) == [0, 0, 0, 1];
  }
}
