/** What the bytes on the wire are, at concrete frames: every bit of the type bytes and the place of every
    field.  mpquic_trans/internal/wire. */
module WireLayout {
  import opened Bytes
  import opened AckFrames
  import AckCodec
  import Float16
  import Frames
  import PublicHeaders
  import StreamFrames

  predicate IsBytes(r: Result<seq<byte>>, bytes: seq<byte>) { r.Ok? && r.value == bytes }

  // ----- ACK -----

  /** The type byte of an ACK: 01, missing ranges, path, two bits for the length of the largest number and
      two for the length of the ranges; 0 to 3 stand for 1, 2, 4 and 6 bytes. */
  lemma {:induction false} AckTypeByte(f: AckFrame)
    requires AckCodec.Writable(f)
    ensures var ll, dl := AckCodec.NumberLength(f.largestAcked), AckCodec.DeltaLength(f);
            var t := AckCodec.TypeByte(f, ll, dl);
            && t / 0x40 == 1 && (t / 0x20 % 2 == 1 <==> f.ranges != []) && (t / 0x10 % 2 == 1 <==> f.pathID != 0)
            && ll == [1, 2, 4, 6][t / 4 % 4] && dl == [1, 2, 4, 6][t % 4]
  {
    hide AckCodec.NumberLength, AckCodec.DeltaLength;
    var ll, dl := AckCodec.NumberLength(f.largestAcked), AckCodec.DeltaLength(f);
    var a, b := if ll == 1 then 0 else ll / 2, if dl == 1 then 0 else dl / 2;
    AckBits(if f.ranges != [] then 1 else 0, if f.pathID != 0 then 1 else 0, a, b);
  }

  lemma {:induction false} AckBits(missing: nat, path: nat, a: nat, b: nat)
    requires missing < 2 && path < 2 && a < 4 && b < 4
    ensures var t := 0x40 + a * 4 + b + missing * 0x20 + path * 0x10;
            t / 0x40 == 1 && t / 0x20 % 2 == missing && t / 0x10 % 2 == path && t / 4 % 4 == a && t % 4 == b
  {}

  const ONE_RANGE: AckFrame := AckFrame(0, 0x1234, 0x1233, [], 0)

  /** An ACK of two packets on the first path: type, largest number, delay, length, no timestamps. */
  lemma {:induction false} PlainAck()
    ensures AckCodec.Writable(ONE_RANGE)
    ensures IsBytes(AckCodec.WriteAck(ONE_RANGE, BigEndian), [0x44, 0x12, 0x34, 0, 0, 2, 0])
    ensures IsBytes(AckCodec.WriteAck(ONE_RANGE, LittleEndian), [0x44, 0x34, 0x12, 0, 0, 2, 0])
  {
    var f := ONE_RANGE;
    assert AckCodec.DeltaLength(f) == 1 && AckCodec.NumberLength(f.largestAcked) == 2;
    assert Float16.Ufloat16(0) == 0;
    assert Encode(0x1234, 2, BigEndian) == [0x12, 0x34] && Encode(0x1234, 2, LittleEndian) == [0x34, 0x12];
    assert Encode(0, 2, BigEndian) == [0, 0] && Encode(0, 2, LittleEndian) == [0, 0];
    assert Encode(2, 1, BigEndian) == [2] && Encode(2, 1, LittleEndian) == [2];
  }

  const TWO_RANGES: AckFrame := AckFrame(7, 600, 1, [AckRange(598, 600), AckRange(1, 300)], 0)

  /** Packets 301 to 597 are missing on path 7: the number of blocks follows the delay, then the length of
      the topmost range; the gap of 297 packets takes a block of 255 without a range, and one of 42. */
  lemma {:induction false} LongGapAck()
    ensures AckCodec.Writable(TWO_RANGES)
    ensures IsBytes(AckCodec.WriteAck(TWO_RANGES, BigEndian),
                    [0x75, 7, 2, 88, 0, 0, 2, 0, 3, 255, 0, 0, 42, 1, 44, 0])
  {
    hide AckCodec.Header, AckCodec.RangeBytes, AckCodec.Blocks, AckCodec.WritableRanges, AckCodec.DeltaLength;
    TwoRanges();
    GapBlocks();
    HeaderOfTwo();
    BytesOfTwo();
  }

  lemma {:induction false} HeaderOfTwo()
    ensures AckCodec.Writable(TWO_RANGES)
    ensures AckCodec.Header(TWO_RANGES, BigEndian) == [0x75, 7, 2, 88, 0, 0]
  {
    TwoRanges();
    assert Encode(600, 2, BigEndian) == [2, 88] && Encode(0, 2, BigEndian) == [0, 0];
    ShortDelay(0);
    hide Encode, AckCodec.DeltaLength, AckCodec.NumberLength, Float16.Ufloat16;
  }

  lemma {:induction false} BytesOfTwo()
    ensures var x, y := AckCodec.Block(255, 0), AckCodec.Block(42, 300);
            AckCodec.RangeBytes(3, [x, y], 2, BigEndian) == [2, 0, 3, 255, 0, 0, 42, 1, 44]
  {
    assert Encode(3, 2, BigEndian) == [0, 3] && Encode(0, 2, BigEndian) == [0, 0];
    assert Encode(300, 2, BigEndian) == [1, 44];
    hide Encode, AckCodec.AllBlockBytes;
    TwoBlocks(AckCodec.Block(255, 0), AckCodec.Block(42, 300));
  }

  lemma {:induction false} TwoRanges()
    ensures AckCodec.Writable(TWO_RANGES)
    ensures AckCodec.DeltaLength(TWO_RANGES) == 2 && AckCodec.NumberLength(600) == 2
  {
    var r := TWO_RANGES.ranges;
    assert r[..1] == [AckRange(598, 600)] && r[..1][..0] == [];
    assert AckCodec.LongestRange(r[..1]) == 3 && AckCodec.LongestRange(r) == 300;
  }

  lemma {:induction false} GapBlocks()
    ensures Descending(TWO_RANGES.ranges)
    ensures AckCodec.Blocks(TWO_RANGES.ranges, 1) == []
    ensures AckCodec.Blocks(TWO_RANGES.ranges, 2) == [AckCodec.Block(255, 0), AckCodec.Block(42, 300)]
    ensures AckCodec.WritableRanges(TWO_RANGES.ranges, 1) == 2
  {
    var r, x, y := TWO_RANGES.ranges, AckCodec.Block(255, 0), AckCodec.Block(42, 300);
    assert AckCodec.GapAbove(r, 1) == 297;
    assert AckCodec.Split(42, 300) == [y];
    assert AckCodec.Split(297, 300) == [x] + [y];
    assert AckCodec.Blocks(r, 1) == [];
    assert AckCodec.Blocks(r, 2) == [x, y];
  }

  lemma {:induction false} TwoBlocks(x: AckCodec.Block, y: AckCodec.Block)
    requires x.gap < 256 && y.gap < 256
    ensures AckCodec.AllBlockBytes([x, y], 2, BigEndian) ==
            [x.gap] + Encode(x.length, 2, BigEndian) + [y.gap] + Encode(y.length, 2, BigEndian)
  {
    assert [x, y][..1] == [x] && [x][..0] == [];
    assert AckCodec.AllBlockBytes([], 2, BigEndian) == [];
    assert AckCodec.AllBlockBytes([x], 2, BigEndian) == AckCodec.BlockBytes(x, 2, BigEndian);
  }

  // ----- delays -----

  /** A delay below 4096 microseconds is written as it is. */
  lemma {:induction false} ShortDelay(v: nat)
    requires v < 0x1000
    ensures Float16.Ufloat16(v) == v
  {}

  /** A longer one is rounded down to eleven bits behind its highest, and the exponent comes on top. */
  lemma {:induction false} LongDelay()
    ensures Float16.Ufloat16(8195) == 6144 && Float16.Ufloat16(Float16.MAX_VALUE) == 0xFFFF
  {
    assert Float16.Pow2(2) == 4;
    Float16.IsUfloat16(8195, 2048, 2);
  }

  // ----- stream frames -----

  /** A stream frame with all its fields: 1, FIN, length present, three bits for the offset's length less
      one, two for the ID's length less one. */
  lemma {:induction false} FullStreamFrame()
    ensures var f := StreamFrames.StreamFrame(0x105, true, true, 0x10, [9, 8]);
            IsBytes(StreamFrames.Write(f, BigEndian), [0xE5, 1, 5, 0, 0x10, 0, 2, 9, 8])
  {
    assert Encode(0x105, 2, BigEndian) == [1, 5] && Encode(0x10, 2, BigEndian) == [0, 0x10];
    assert Encode(2, 2, BigEndian) == [0, 2];
  }

  /** The first frame of a stream has no offset, and the last of a packet no length. */
  lemma {:induction false} ShortStreamFrame()
    ensures var f := StreamFrames.StreamFrame(5, false, false, 0, [9]);
            IsBytes(StreamFrames.Write(f, BigEndian), [0x80, 5, 9])
  {
    assert Encode(5, 1, BigEndian) == [5] && Encode(0, 0, BigEndian) == [];
  }

  // ----- control frames -----

  const PACKET: Frames.Packet := Frames.Packet(9, 1, BigEndian, true)

  lemma {:induction false} StreamControlFrames()
    ensures IsBytes(Frames.Write(Frames.RstStream(5, 6, 7), PACKET),
                    [0x01, 0, 0, 0, 5, 0, 0, 0, 0, 0, 0, 0, 7, 0, 0, 0, 6])
    ensures IsBytes(Frames.Write(Frames.WindowUpdate(5, 7), PACKET), [0x04, 0, 0, 0, 5, 0, 0, 0, 0, 0, 0, 0, 7])
    ensures IsBytes(Frames.Write(Frames.Blocked(5), PACKET), [0x05, 0, 0, 0, 5])
  {
    hide Encode;
    Four(5);
    Four(6);
    Eight(7);
  }

  /** The least unacknowledged packet is written as its distance from the packet it travels in. */
  lemma {:induction false} StopWaitingFrame()
    ensures IsBytes(Frames.Write(Frames.StopWaiting(4), PACKET), [0x06, 5])
    ensures IsBytes(Frames.Write(Frames.Ping, PACKET), [0x07])
  {
    assert Encode(5, 1, BigEndian) == [5];
  }

  lemma {:induction false} GoawayFrame()
    ensures IsBytes(Frames.Write(Frames.Goaway(6, 5, [9]), PACKET), [0x03, 0, 0, 0, 6, 0, 0, 0, 5, 0, 1, 9])
  {
    assert Encode(1, 2, BigEndian) == [0, 1];
    hide Encode;
    Four(5);
    Four(6);
  }

  lemma {:induction false} AddressFrame()
    ensures IsBytes(Frames.Write(Frames.AddAddress(4, [10, 0, 0, 1], 443), PACKET), [0x10, 4, 10, 0, 0, 1, 1, 187])
  {
    assert Encode(443, 2, BigEndian) == [1, 187];
  }

  lemma {:induction false} PathsFrame()
    ensures IsBytes(Frames.Write(Frames.Paths(3, 2, [0, 1], [0, 7]), PACKET), [0x12, 3, 2, 0, 0, 0, 1, 0, 7])
  {
    assert Encode(3, 1, BigEndian) == [3] && Encode(2, 1, BigEndian) == [2];
    hide Encode, Float16.Ufloat16, Frames.PathBytes;
    assert [0, 1][1..] == [1] && [0, 7][1..] == [7] && [1][1..] == [] && [7][1..] == [];
    OnePath(0, 0, [0, 1], [0, 7]);
    OnePath(1, 7, [1], [7]);
    NoPaths();
  }

  lemma {:induction false} OnePath(id: byte, rtt: byte, ids: seq<nat>, rtts: seq<nat>)
    requires ids != [] && |ids| == |rtts| && ids[0] == id && rtts[0] == rtt
    ensures Frames.PathBytes(ids, rtts, BigEndian) ==
            [id, 0, rtt] + Frames.PathBytes(ids[1..], rtts[1..], BigEndian)
  {
    ShortDelay(rtt);
    OneAndTwo(id, rtt);
    hide Encode, Float16.Ufloat16;
  }

  lemma {:induction false} OneAndTwo(a: byte, b: byte)
    ensures Encode(a, 1, BigEndian) == [a] && Encode(b, 2, BigEndian) == [0, b]
  {
    assert b / 256 == 0;
    assert Encode(0, 1, BigEndian) == [0];
  }

  lemma {:induction false} NoPaths()
    ensures Frames.PathBytes([], [], BigEndian) == []
  {}

  lemma {:induction false} Four(v: byte)
    ensures Encode(v, 4, BigEndian) == [0, 0, 0, v]
  {
    assert v / 256 == 0;
    assert Encode(0, 1, BigEndian) == [0];
    assert Encode(0, 2, BigEndian) == [0, 0];
    assert Encode(0, 3, BigEndian) == [0, 0, 0];
  }

  lemma {:induction false} Eight(v: byte)
    ensures Encode(v, 8, BigEndian) == [0, 0, 0, 0, 0, 0, 0, v]
  {
    Four(0);
    assert v / 256 == 0;
    assert Encode(0, 5, BigEndian) == [0, 0, 0, 0, 0];
    assert Encode(0, 6, BigEndian) == [0, 0, 0, 0, 0, 0];
    assert Encode(0, 7, BigEndian) == [0, 0, 0, 0, 0, 0, 0];
  }

  // ----- public headers -----

  /** A multipath packet: flags 0x58 for a full connection ID, a two-byte packet number and a path; the
      connection ID is in little-endian order whatever the version says. */
  lemma {:induction false} MultipathHeader()
    ensures var h := PublicHeaders.PublicHeader(1, 3, false, false, false, true, 2, 0x1234, 0, [], []);
            IsBytes(PublicHeaders.Write(h, true, BigEndian), [0x58, 1, 0, 0, 0, 0, 0, 0, 0, 3, 0x12, 0x34])
  {
    LittleOne();
    assert Encode(3, 1, BigEndian) == [3] && Encode(0x1234, 2, BigEndian) == [0x12, 0x34];
  }

  lemma {:induction false} LittleOne()
    ensures Encode(1, 8, LittleEndian) == [1, 0, 0, 0, 0, 0, 0, 0]
  {
    assert Encode(0, 2, LittleEndian) == [0, 0];
    assert Encode(0, 4, LittleEndian) == [0, 0, 0, 0];
    assert Encode(0, 6, LittleEndian) == [0, 0, 0, 0, 0, 0];
    assert Encode(0, 7, LittleEndian) == [0, 0, 0, 0, 0, 0, 0];
  }
}
