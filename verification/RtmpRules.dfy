/** RTMP beyond what the writer produces: messages whose chunks are interleaved, headers with time deltas,
    the bytes of a header, and acknowledgements.
    mpquic_trans/liveproxy/protocol/rtmp/core/chunk_stream.go and conn.go. */
module RtmpRules {
  import opened Bytes
  import opened RtmpChunks
  import opened RtmpRoundTrip

  // ----- interleaved messages -----

  /** While one message is in progress, with `start` bytes of it read, another one comes.  It is read if and
      only if the reader tells the two chunk streams apart; all IDs from 64 to 319 are one to it, and so
      are all above. */
  lemma {:induction false} OtherMessageReadsIff(chunks: map<nat, ChunkStream>, cs: ChunkStream, a: Message,
                                                start: nat, b: Message, w: nat, r: nat, rest: seq<byte>)
    requires Writable(a) && Writable(b) && SameCuts(b, w, r) && 0 < start < |a.data|
    requires var i, j := Key(OutCsid(a)), Key(OutCsid(b));
             && i in chunks && chunks[i] == Progress(cs, a, start)
             && (i != j && j in chunks ==> chunks[j].remain == 0)
    ensures ReadMessage(chunks, Chunks(b, w, 0) + rest, r).Ok? <==> Key(OutCsid(a)) != Key(OutCsid(b))
  {
    hide Header, ReadChunk, ReadMessage, Key;
    if Key(OutCsid(a)) != Key(OutCsid(b)) {
      MessageReads(chunks, b, w, r, rest);
    } else {
      Refused(chunks, b, w, r, rest);
    }
  }

  /** Another message may not begin where one is in progress. */
  lemma {:induction false} Refused(chunks: map<nat, ChunkStream>, b: Message, w: nat, r: nat, rest: seq<byte>)
    requires Writable(b) && w > 0 && Key(OutCsid(b)) in chunks && chunks[Key(OutCsid(b))].remain > 0
    ensures ReadMessage(chunks, Chunks(b, w, 0) + rest, r).Err?
  {
    hide Header, Key, ReadHeader, ReadCsid;
    BasicHeaderIs(0, OutCsid(b));
    FirstByte(b);
    var s := Chunks(b, w, 0) + rest;
    assert s[0] == Header(b, true)[0] == Key(OutCsid(b));
  }

  lemma {:induction false} FirstByte(m: Message)
    requires Writable(m)
    ensures |Header(m, true)| > 0 && Header(m, true)[0] == Key(OutCsid(m)) < 64
  {
    hide Encode, Key;
    BasicHeaderIs(0, OutCsid(m));
  }

  /** Then both messages arrive whole: the other one first, and the one that was in progress after it. */
  lemma {:induction false} InterleavedArrive(chunks: map<nat, ChunkStream>, cs: ChunkStream, a: Message, start: nat,
                                             b: Message, w: nat, r: nat, rest: seq<byte>)
    requires Writable(a) && Writable(b) && SameCuts(a, w, r) && SameCuts(b, w, r) && 0 < start < |a.data|
    requires cs.csid == OutCsid(a) && Key(OutCsid(a)) != Key(OutCsid(b))
    requires Key(OutCsid(a)) in chunks && chunks[Key(OutCsid(a))] == Progress(cs, a, start)
    requires Key(OutCsid(b)) in chunks ==> chunks[Key(OutCsid(b))].remain == 0
    ensures var first := ReadMessage(chunks, Chunks(b, w, 0) + (Chunks(a, w, start) + rest), r);
            && first.Ok? && MessageOf(first.value.message) == b.(csid := OutCsid(b))
            && first.value.rest == Chunks(a, w, start) + rest
            && var second := ReadMessage(first.value.chunks, first.value.rest, r);
               && second.Ok? && MessageOf(second.value.message) == a.(csid := OutCsid(a))
               && second.value.rest == rest
  {
    hide Header, ReadChunk, ReadMessage, Key, Chunks;
    MessageReads(chunks, b, w, r, Chunks(a, w, start) + rest);
    var first := ReadMessage(chunks, Chunks(b, w, 0) + (Chunks(a, w, start) + rest), r).value;
    RestReads(first.chunks, cs, a, w, r, start, rest);
    assert a.data[..|a.data|] == a.data;
  }

  /** Chunk streams 64 and 65 are not told apart. */
  lemma {:induction false} SharedEntry()
    ensures Key(64) == Key(65) && BasicHeader(0, 64) != BasicHeader(0, 65)
  {
    assert Encode(0, 1, LittleEndian)[0] == 0 && Encode(1, 1, LittleEndian)[0] == 1;
    assert BasicHeader(0, 64)[1] == 0 && BasicHeader(0, 65)[1] == 1;
  }

  // ----- headers with a time delta -----

  /** A three-byte time field, and the four bytes that follow if it is not enough. */
  function TimeField(t: nat): seq<byte> { Encode(Min(t, EXTENDED), 3, BigEndian) }

  function TimeMore(t: nat): seq<byte> { if t >= EXTENDED then Encode(t, 4, BigEndian) else [] }

  lemma {:induction false} TimeReads(t: nat, rest: seq<byte>)
    requires t < UINT32
    ensures ReadTimestamp(Min(t, EXTENDED), TimeMore(t) + rest) == Ok((t, t >= EXTENDED, rest))
    ensures forall s :: Read(TimeField(t) + s, 3, BigEndian) == Ok((Min(t, EXTENDED), s))
  {
    hide Encode, Read;
    Powers();
    assert [] + rest == rest;
    ReadEncoded(t, 4, BigEndian, rest);
    forall s ensures Read(TimeField(t) + s, 3, BigEndian) == Ok((Min(t, EXTENDED), s)) {
      ReadEncoded(Min(t, EXTENDED), 3, BigEndian, s);
    }
  }

  /** Format 1: the time is counted from the message before, and the message stream is the same. */
  lemma {:induction false} DeltaHeaderReads(cs: ChunkStream, delta: nat, length: nat, typeID: byte, rest: seq<byte>)
    requires delta < UINT32 && length <= MAX_POOL_SIZE
    ensures var s := TimeField(delta) + (Encode(length, 3, BigEndian) + ([typeID] + (TimeMore(delta) + rest)));
            ReadHeader(cs, 1, s) ==
            Ok((cs.(format := 1, timestamp := (cs.timestamp + delta) % UINT32, timeDelta := delta, length := length,
                    typeID := typeID, exted := delta >= EXTENDED, remain := length, got := false, data := []), rest))
  {
    hide Encode, Read, TimeField, TimeMore, ReadTimestamp;
    Powers();
    TimeReads(delta, rest);
    ReadEncoded(length, 3, BigEndian, [typeID] + (TimeMore(delta) + rest));
    OneByteReads(typeID, TimeMore(delta) + rest);
  }

  /** A message that is longer than a block of the pool is not read: the source panics. */
  lemma {:induction false} LongMessageFails(cs: ChunkStream, delta: nat, length: nat, typeID: byte, rest: seq<byte>)
    requires delta < UINT32 && MAX_POOL_SIZE < length < 0x100_0000
    ensures var s := TimeField(delta) + (Encode(length, 3, BigEndian) + ([typeID] + (TimeMore(delta) + rest)));
            ReadHeader(cs, 1, s).Err?
  {
    hide Encode, Read, TimeField, TimeMore, ReadTimestamp;
    Powers();
    TimeReads(delta, rest);
    ReadEncoded(length, 3, BigEndian, [typeID] + (TimeMore(delta) + rest));
    OneByteReads(typeID, TimeMore(delta) + rest);
  }

  lemma {:induction false} OneByteReads(b: byte, rest: seq<byte>)
    ensures Read([b] + rest, 1, BigEndian) == Ok((b, rest))
  {
    assert Encode(b, 1, BigEndian) == [b] by { assert Encode(b / 256, 0, BigEndian) == []; }
    Powers();
    hide Encode, Read;
    ReadEncoded(b, 1, BigEndian, rest);
  }

  /** Format 2: length and type are the same as well. */
  lemma {:induction false} ShortHeaderReads(cs: ChunkStream, delta: nat, rest: seq<byte>)
    requires delta < UINT32 && cs.length <= MAX_POOL_SIZE
    ensures ReadHeader(cs, 2, TimeField(delta) + (TimeMore(delta) + rest)) ==
            Ok((cs.(format := 2, timestamp := (cs.timestamp + delta) % UINT32, timeDelta := delta,
                    exted := delta >= EXTENDED, remain := cs.length, got := false, data := []), rest))
  {
    hide Encode, Read, TimeField, TimeMore, ReadTimestamp;
    TimeReads(delta, rest);
  }

  /** Format 3, where no message is in progress, repeats the header: the time goes on by the same delta, or
      stays if the last header gave it whole. */
  lemma {:induction false} RepeatedHeaderReads(cs: ChunkStream, s: seq<byte>)
    requires cs.remain == 0 && !cs.exted && cs.length <= MAX_POOL_SIZE
    ensures var t := if cs.format == 0 then cs.timestamp else (cs.timestamp + cs.timeDelta) % UINT32;
            ReadHeader(cs, 3, s) ==
            Ok((cs.(timestamp := t, remain := cs.length, got := false, data := []), s))
  {}

  /** Within a message a peer may leave the extended timestamp out: four bytes that are not the timestamp are
      data. */
  lemma {:induction false} TimestampMayBeMissing(cs: ChunkStream, s: seq<byte>)
    requires cs.remain > 0 && cs.timestamp < UINT32 && |s| >= 4
    ensures ReadHeader(cs, 3, s) ==
            Ok((cs, if cs.exted && s[..4] == Encode(cs.timestamp, 4, BigEndian) then s[4..] else s))
  {
    hide Encode;
    Powers();
    DecodeEncode(cs.timestamp, 4, BigEndian);
    EncodeDecode(s[..4]);
  }

  lemma {:induction false} EncodeDecode(b: seq<byte>)
    ensures Encode(Decode(b, BigEndian), |b|, BigEndian) == b
    decreases |b|
  {
    if b != [] {
      var n := |b| - 1;
      var v := Decode(b[..n], BigEndian);
      EncodeDecode(b[..n]);
      assert Decode(b, BigEndian) == 256 * v + b[n];
      assert (256 * v + b[n]) / 256 == v && (256 * v + b[n]) % 256 == b[n];
    }
  }

  // ----- the bytes of a header -----

  /** A video message: chunk stream 6, a timestamp and a length of three bytes in big-endian order, the type,
      and the message stream in little-endian order.  Later chunks have one byte. */
  lemma {:induction false} VideoHeader(data: seq<byte>)
    requires |data| == 5
    ensures var m := Message(3, 0x010203, 9, 1, data);
            && Header(m, true) == [6, 1, 2, 3, 0, 0, 5, 9, 1, 0, 0, 0]
            && Header(m, false) == [0xC6]
  {
    assert Encode(0x010203, 3, BigEndian) == [1, 2, 3] && Encode(5, 3, BigEndian) == [0, 0, 5];
    assert Encode(9, 1, BigEndian) == [9] && Encode(1, 4, LittleEndian) == [1, 0, 0, 0];
  }

  /** Audio goes on chunk stream 4, video and data messages on 6, everything else on its own; the two bits above
      tell the first chunk of a message from the others. */
  lemma {:induction false} MediaHaveStreams(m: Message)
    requires m.csid < 64
    ensures var id: nat := match m.typeID case 8 => 4 case 9 => 6 case 15 => 6 case 18 => 6 case _ => m.csid;
            && |Header(m, true)| > 0 && Header(m, true)[0] == id
            && |Header(m, false)| > 0 && Header(m, false)[0] == 0xC0 + id
  {
    hide Encode;
  }

  /** A timestamp that does not fit three bytes is written behind every header. */
  lemma {:induction false} LateHeader(data: seq<byte>)
    requires |data| == 5
    ensures var m := Message(3, 0x01020304, 8, 1, data);
            && Header(m, true) == [4, 255, 255, 255, 0, 0, 5, 8, 1, 0, 0, 0, 1, 2, 3, 4]
            && Header(m, false) == [0xC4, 1, 2, 3, 4]
  {
    hide Encode;
    LateBytes();
  }

  lemma {:induction false} LateBytes()
    ensures Encode(0xFFFFFF, 3, BigEndian) == [255, 255, 255] && Encode(5, 3, BigEndian) == [0, 0, 5]
    ensures Encode(8, 1, BigEndian) == [8] && Encode(1, 4, LittleEndian) == [1, 0, 0, 0]
    ensures Encode(0x01020304, 4, BigEndian) == [1, 2, 3, 4]
  {}

  // ----- announcements -----

  /** The peer's chunk size and window are the numbers that its last announcements begin with; other messages
      announce nothing. */
  lemma {:induction false} AnnouncementIsHeeded(l: Limits, typeID: nat, v: nat, more: seq<byte>)
    requires v < UINT32
    ensures Heed(l, typeID, Encode(v, 4, BigEndian) + more) ==
            Ok(if typeID == 1 then l.(size := v) else if typeID == 5 then l.(window := v) else l)
  {
    hide Encode, Decode;
    Powers();
    DecodeEncode(v, 4, BigEndian);
    assert (Encode(v, 4, BigEndian) + more)[..4] == Encode(v, 4, BigEndian);
  }

  // ----- acknowledgements -----

  /** The messages of the given lengths are counted; `acks` are the numbers acknowledged. */
  function CountAll(l: Limits, lengths: seq<nat>): (r: (Limits, seq<nat>)) {
    if lengths == [] then (l, [])
    else
      var (before, acks) := CountAll(l, lengths[..|lengths| - 1]);
      var (after, messages) := Counted(before, lengths[|lengths| - 1]);
      (after, if messages == [] then acks else acks + [Decode(messages[0].data, BigEndian)])
  }

  function Sum(ns: seq<nat>): nat { if ns == [] then 0 else Sum(ns[..|ns| - 1]) + ns[|ns| - 1] }

  /** What was acknowledged and what is still to be is all that was read, as long as it is below 2^32; each
      acknowledgement is of at least a window, and less than a window is outstanding. */
  lemma {:induction false} AcksAddUp(l: Limits, lengths: seq<nat>)
    requires l.unacked + Sum(lengths) < UINT32 && 0 < l.window && l.unacked < l.window
    ensures var (after, acks) := CountAll(l, lengths);
            && after == l.(unacked := after.unacked) && after.unacked < l.window
            && Sum(acks) + after.unacked == l.unacked + Sum(lengths)
            && forall i :: 0 <= i < |acks| ==> acks[i] >= l.window
    decreases |lengths|
  {
    if lengths != [] {
      var init, n := lengths[..|lengths| - 1], lengths[|lengths| - 1];
      AcksAddUp(l, init);
      var (before, acks) := CountAll(l, init);
      OneMoreCounted(l, before, acks, n, l.unacked + Sum(init));
    }
  }

  lemma {:induction false} OneMoreCounted(l: Limits, before: Limits, acks: seq<nat>, n: nat, total: nat)
    requires before == l.(unacked := before.unacked) && before.unacked < l.window && total + n < UINT32
    requires Sum(acks) + before.unacked == total && forall i :: 0 <= i < |acks| ==> acks[i] >= l.window
    ensures var (after, messages) := Counted(before, n);
            var more := if messages == [] then acks else acks + [Decode(messages[0].data, BigEndian)];
            && after == l.(unacked := after.unacked) && after.unacked < l.window
            && Sum(more) + after.unacked == total + n
            && forall i :: 0 <= i < |more| ==> more[i] >= l.window
  {
    hide Encode, Decode;
    var k := before.unacked + n;
    assert k % UINT32 == k;
    if k >= l.window {
      Powers();
      DecodeEncode(k, 4, BigEndian);
      var more := acks + [k];
      assert more[..|acks|] == acks;
    }
  }
}
