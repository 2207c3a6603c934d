/** What is parsed from a written ACK frame, and how long it is. */
module AckRoundTrip {
  import opened Bytes
  import opened AckFrames
  import opened AckCodec
  import Float16

  // ----- blocks -----

  lemma {:induction false} BlocksReadBack(blocks: seq<Block>, dl: nat, order: ByteOrder, rest: seq<byte>)
    requires forall i :: 0 <= i < |blocks| ==> blocks[i].gap < 256 && blocks[i].length < Pow256(dl)
    ensures ReadBlocks(AllBlockBytes(blocks, dl, order) + rest, |blocks|, dl, order) == Ok((blocks, rest))
    decreases |blocks|
  {
    hide Encode, Decode, Pow256, BlockArea, Read;
    if blocks == [] {
      assert AllBlockBytes(blocks, dl, order) + rest == rest;
    } else {
      var init, b := blocks[..|blocks| - 1], blocks[|blocks| - 1];
      var tail := [b.gap] + (Encode(b.length, dl, order) + rest);
      assert AllBlockBytes(blocks, dl, order) + rest == AllBlockBytes(init, dl, order) + tail;
      BlocksReadBack(init, dl, order, tail);
      ReadByte(b.gap, Encode(b.length, dl, order) + rest, order);
      ReadEncoded(b.length, dl, order, rest);
      assert init + [b] == blocks;
    }
  }

  lemma {:induction false} ReadByte(b: byte, rest: seq<byte>, order: ByteOrder)
    ensures Read([b] + rest, 1, order) == Ok((b, rest))
  {
    var s := [b] + rest;
    assert s[..1] == [b] && s[1..] == rest;
    assert [b][1..] == [] && [b][..0] == [];
  }

  lemma {:induction false} AssembleAppend(a: Assembly, x: seq<Block>, y: seq<Block>)
    requires a.ranges != []
    ensures Assemble(a, x + y) == Assemble(Assemble(a, x), y)
    decreases |y|
  {
    if y == [] {
      assert x + y == x;
    } else {
      var z := x + y;
      assert z[..|z| - 1] == x + y[..|y| - 1];
      AssembleAppend(a, x, y[..|y| - 1]);
    }
  }

  lemma {:induction false} AssembleOne(a: Assembly, b: Block)
    requires a.ranges != []
    ensures Assemble(a, [b]) == AddBlock(a, b)
  {
    assert [b][..0] == [];
  }

  lemma {:induction false} NoWrap(a: int, b: int)
    requires 0 <= a - b <= MAX_UINT64
    ensures Sub(a, b) == a - b
  {}

  lemma {:induction false} AddContinued(a: Assembly, top: seq<AckRange>, last: nat, b: Block)
    requires a.ranges == top + [AckRange(last + 1, last)] && a.inLong
    requires b.gap + b.length <= last < MAX_UINT64
    ensures AddBlock(a, b) == Assembly(top + [AckRange(last - b.gap - b.length + 1, last - b.gap)], b.length == 0,
                                       a.complete || b.length > 0)
  {
    NoWrap(last + 1, b.gap + b.length);
    NoWrap(last, b.gap);
    hide Sub;
  }

  lemma {:induction false} AddNew(a: Assembly, first: nat, b: Block)
    requires a.ranges != [] && a.ranges[|a.ranges| - 1].first == first && !a.inLong
    requires b.gap + b.length < first <= MAX_UINT64
    ensures AddBlock(a, b) == Assembly(a.ranges + [AckRange(first - b.gap - b.length, first - b.gap - 1)], b.length
                                       == 0, b.length > 0)
  {
    NoWrap(first, b.gap);
    NoWrap(first - b.gap, 1);
    NoWrap(first - b.gap, b.length);
    hide Sub;
  }

  /** The remaining blocks of a gap move the unfinished range down and give it its length. */
  lemma {:induction false} AssembleLong(a: Assembly, top: seq<AckRange>, last: nat, gap: nat, length: nat)
    requires a.ranges == top + [AckRange(last + 1, last)] && a.inLong
    requires gap >= 1 && length >= 1 && gap + length <= last < MAX_UINT64
    ensures Assemble(a, Split(gap, length))
            == Assembly(top + [AckRange(last - gap - length + 1, last - gap)], false, true)
    decreases gap
  {
    hide AddBlock, Assemble;
    if gap <= 255 {
      AssembleOne(a, Block(gap, length));
      AddContinued(a, top, last, Block(gap, length));
    } else {
      var b := Block(255, 0);
      AssembleAppend(a, [b], Split(gap - 255, length));
      AssembleOne(a, b);
      AddContinued(a, top, last, b);
      AssembleLong(AddBlock(a, b), top, last - 255, gap - 255, length);
    }
  }

  lemma {:induction false} AssembleSplit(a: Assembly, first: nat, gap: nat, length: nat)
    requires a.ranges != [] && a.ranges[|a.ranges| - 1].first == first && !a.inLong
    requires gap >= 1 && length >= 1 && gap + length < first <= MAX_UINT64
    ensures Assemble(a, Split(gap, length))
            == Assembly(a.ranges + [AckRange(first - gap - length, first - gap - 1)], false, true)
  {
    hide AddBlock, Assemble;
    if gap <= 255 {
      AssembleOne(a, Block(gap, length));
      AddNew(a, first, Block(gap, length));
    } else {
      var b := Block(255, 0);
      AssembleAppend(a, [b], Split(gap - 255, length));
      AssembleOne(a, b);
      AddNew(a, first, b);
      AssembleLong(AddBlock(a, b), a.ranges, first - 256, gap - 255, length);
    }
  }

  lemma {:induction false} AssembleBlocks(ranges: seq<AckRange>, n: nat)
    requires Descending(ranges) && 0 < n <= |ranges| && ranges[0].last < MAX_PACKET_NUMBER
    requires forall i :: 0 <= i < |ranges| ==> 1 <= ranges[i].first
    ensures Assemble(Assembly([ranges[0]], false, false), Blocks(ranges, n)) == Assembly(ranges[..n], false, n > 1)
  {
    hide Assemble, Split;
    var a := Assembly([ranges[0]], false, false);
    if n == 1 {
      assert ranges[..1] == [ranges[0]];
      AssembleNone(a);
    } else {
      AssembleBlocks(ranges, n - 1);
      var gap, length := GapAbove(ranges, n - 1), RangeLength(ranges[n - 1]);
      AssembleAppend(a, Blocks(ranges, n - 1), Split(gap, length));
      assert ranges[n - 2].first <= MAX_UINT64 by { assert n > 2 ==> ranges[n - 2].last + 1 < ranges[0].first; }
      AssembleSplit(Assembly(ranges[..n - 1], false, n - 1 > 1), ranges[n - 2].first, gap, length);
      assert ranges[..n] == ranges[..n - 1] + [ranges[n - 1]];
    }
  }

  lemma {:induction false} AssembleNone(a: Assembly)
    requires a.ranges != []
    ensures Assemble(a, []) == a
  {}

  lemma {:induction false} BlockLengths(ranges: seq<AckRange>, n: nat, bound: nat)
    requires Descending(ranges) && n <= |ranges| && forall i :: 0 <= i < |ranges| ==> RangeLength(ranges[i]) < bound
    ensures forall i :: 0 <= i < |Blocks(ranges, n)| ==>
              Blocks(ranges, n)[i].gap < 256 && Blocks(ranges, n)[i].length < bound
  {
    if n > 1 {
      BlockLengths(ranges, n - 1, bound);
      SplitGaps(GapAbove(ranges, n - 1), RangeLength(ranges[n - 1]));
    }
  }

  // ----- header -----

  lemma {:induction false} Bits(missing: nat, path: nat, l: nat, d: nat)
    requires missing <= 1 && path <= 1 && l <= 3 && d <= 3
    ensures var t := 0x40 + l * 4 + d + missing * 0x20 + path * 0x10;
            t / 0x40 == 1 && t / 0x20 % 2 == missing && t / 0x10 % 2 == path && t / 4 % 4 == l && t % 4 == d
  {
    var t := 0x40 + l * 4 + d + missing * 0x20 + path * 0x10;
    assert t / 4 == 16 + l + missing * 8 + path * 4;
    assert t / 0x10 == 4 + missing * 2 + path;
    assert t / 0x20 == 2 + missing;
  }

  lemma {:induction false} TypeBits(f: AckFrame, ll: nat, dl: nat)
    requires ll in {1, 2, 4, 6} && dl in {1, 2, 4, 6}
    ensures var t := TypeByte(f, ll, dl);
            && (t / 0x20 % 2 == 1 <==> f.ranges != [])
            && (t / 0x10 % 2 == 1 <==> f.pathID != 0)
            && FieldLength(t / 4 % 4) == ll && FieldLength(t % 4) == dl
            && t / 0x40 == 1
  {
    Bits(if f.ranges != [] then 1 else 0, if f.pathID != 0 then 1 else 0, if ll == 1 then 0 else ll / 2, if dl == 1
         then 0 else dl / 2);
  }

  lemma {:induction false} HeadReadBack(f: AckFrame, order: ByteOrder, rest: seq<byte>)
    requires Writable(f)
    ensures Float16.Ufloat16(f.delay) < 0x1_0000
    ensures ParseHead(Header(f, order) + rest, order) ==
            Ok((AckHead(f.ranges != [], DeltaLength(f), f.pathID, f.largestAcked,
                        Float16.ReadUfloat16(Float16.Ufloat16(f.delay))), rest))
  {
    hide Float16.Ufloat16, Float16.ReadUfloat16;
    hide Encode, Decode, Read, Pow256, NumberLength, DeltaLength, TypeByte, FieldLength;
    var ll, dl := NumberLength(f.largestAcked), DeltaLength(f);
    var t, w := TypeByte(f, ll, dl), Float16.Ufloat16(f.delay);
    Float16.RoundTrip(f.delay);
    var d := Encode(w, 2, order) + rest;
    var l := Encode(f.largestAcked, ll, order) + d;
    var p := (if f.pathID != 0 then [f.pathID] else []) + l;
    assert Header(f, order) + rest == [t] + p;
    ReadByte(t, p, order);
    TypeBits(f, ll, dl);
    if f.pathID != 0 { ReadByte(f.pathID, l, order); } else { assert p == l; }
    ReadEncoded(f.largestAcked, ll, order, d);
    Powers();
    ReadEncoded(w, 2, order, rest);
  }

  lemma {:induction false} FinishPlain(f: AckFrame, rest: seq<byte>)
    requires Validated(f)
    ensures Finish(f, [0] + rest) == Ok((f, rest))
  {
    assert ([0] + rest)[1..] == rest;
  }

  /** How many ranges survive being written. */
  function Survivors(f: AckFrame): nat
    requires Writable(f)
  {
    if f.ranges == [] then 0 else
    assert Blocks(f.ranges, 1) == [];
    WritableRanges(f.ranges, 1)
  }

  /** The frame as the peer sees it: truncated, and with the delay rounded. */
  function Received(f: AckFrame): (r: AckFrame)
    requires Writable(f)
  {
    Float16.RoundTrip(f.delay);
    Truncate(f, Survivors(f)).(delay := Float16.ReadUfloat16(Float16.Ufloat16(f.delay)))
  }

  lemma {:induction false} RoundTripPlain(f: AckFrame, order: ByteOrder, rest: seq<byte>)
    requires Writable(f) && f.ranges == []
    ensures WriteAck(f, order).Ok? && ParseAck(WriteAck(f, order).value + rest, order) == Ok((Received(f), rest))
  {
    hide Float16.Ufloat16, Float16.ReadUfloat16;
    hide Encode, Decode, Read, Pow256, ParseHead, Header, DeltaLength, Finish;
    var dl, length := DeltaLength(f), f.largestAcked - f.lowestAcked + 1;
    var tail := Encode(length, dl, order) + ([0] + rest);
    assert WriteAck(f, order).value + rest == Header(f, order) + tail;
    HeadReadBack(f, order, tail);
    ReadEncoded(length, dl, order, [0] + rest);
    FinishPlain(Received(f), rest);
  }

  lemma {:induction false} WriteOkMeans(f: AckFrame, order: ByteOrder)
    requires Writable(f) && |f.ranges| >= 2 && WriteAck(f, order).Ok?
    ensures Validated(f) && 2 <= Survivors(f) <= |f.ranges| && |Blocks(f.ranges, Survivors(f))| < 255
    ensures f.ranges[0].first <= f.ranges[0].last == f.largestAcked
    ensures var blocks := Blocks(f.ranges, Survivors(f));
            && (forall i :: 0 <= i < |blocks| ==> blocks[i].gap < 256)
            && WriteAck(f, order).value == Header(f, order)
                + RangeBytes(RangeLength(f.ranges[0]), blocks, DeltaLength(f), order) + [0]
  {
    BlockGaps(f.ranges, Survivors(f));
  }

  /** With two ranges or more, a well-formed frame has at least two survivors, or is not written. */
  lemma {:induction false} ReceivedAcksLess(f: AckFrame)
    requires Writable(f) && Validated(f) && (f.ranges != [] ==> Survivors(f) >= 2)
    ensures Validated(Received(f)) && Received(f).largestAcked == f.largestAcked
    ensures forall p: nat :: AcksPacket(Received(f), p) ==> AcksPacket(f, p)
  {
    hide Float16.Ufloat16, Float16.ReadUfloat16, WritableRanges, Descending;
    var n := Survivors(f);
    TruncateAcksLess(f, n);
    var t := Truncate(f, n);
    assert Received(f) == t.(delay := Received(f).delay);
  }

  /** Parsing, once the head is known and the rest is known to read as `blocks`. */
  lemma {:induction false} ParseWithRanges(s: seq<byte>, order: ByteOrder, h: AckHead, s4: seq<byte>, s5: seq<byte>,
                                           s6: seq<byte>, s7: seq<byte>,
                                           length: nat, blocks: seq<Block>, ranges: seq<AckRange>)
    requires ParseHead(s, order) == Ok((h, s4)) && h.hasMissingRanges && 0 < |blocks| && 0 < length <= h.largest
    requires Read(s4, 1, order) == Ok((|blocks|, s5)) && Read(s5, h.dl, order) == Ok((length, s6))
    requires ReadBlocks(s6, |blocks|, h.dl, order) == Ok((blocks, s7)) && ranges != []
    requires Assemble(Assembly([AckRange(h.largest - length + 1, h.largest)], false, false), blocks)
             == Assembly(ranges, false, true)
    ensures ParseAck(s, order) == Finish(AckFrame(h.path, h.largest, ranges[|ranges| - 1].first, ranges, h.delay), s7)
  {
    hide ParseHead, Read, ReadBlocks, Assemble, Finish;
  }

  lemma {:induction false} BlocksNotEmpty(ranges: seq<AckRange>, n: nat)
    requires Descending(ranges) && 2 <= n <= |ranges|
    ensures Blocks(ranges, n) != []
  {}

  /** The pieces of a written frame with ranges, and what they assemble to. */
  lemma {:induction false} WrittenBlocks(f: AckFrame, order: ByteOrder, rest: seq<byte>)
      returns (count: byte, length: nat, blocks: seq<Block>, bytes: seq<byte>)
    requires Writable(f) && |f.ranges| >= 2 && WriteAck(f, order).Ok?
    ensures 0 < |blocks| == count && 0 < length <= f.largestAcked && length < Pow256(DeltaLength(f))
    ensures forall i :: 0 <= i < |blocks| ==> blocks[i].gap < 256 && blocks[i].length < Pow256(DeltaLength(f))
    ensures bytes == AllBlockBytes(blocks, DeltaLength(f), order)
    ensures WriteAck(f, order).value + rest == Header(f, order)
            + ([count] + (Encode(length, DeltaLength(f), order) + (bytes + ([0] + rest))))
    ensures Assemble(Assembly([AckRange(f.largestAcked - length + 1, f.largestAcked)], false, false), blocks)
            == Assembly(Received(f).ranges, false, true)
  {
    hide *;
    WriteOkMeans(f, order);
    WrittenFacts(f, order);
    var dl, n := DeltaLength(f), Survivors(f);
    count, length, blocks := |Blocks(f.ranges, n)|, RangeLength(f.ranges[0]), Blocks(f.ranges, n);
    bytes := AllBlockBytes(blocks, dl, order);
    RangeBytesAre(length, blocks, dl, order, count);
    Regroup(Header(f, order), [count], Encode(length, dl, order), bytes, [0], rest);
    BlockLengths(f.ranges, n, Pow256(dl));
    AssembleBlocks(f.ranges, n);
    BlocksNotEmpty(f.ranges, n);
  }

  lemma {:induction false} WrittenFacts(f: AckFrame, order: ByteOrder)
    requires Writable(f) && |f.ranges| >= 2 && WriteAck(f, order).Ok?
    ensures Descending(f.ranges) && Received(f).ranges == f.ranges[..Survivors(f)]
    ensures f.ranges[0].last < MAX_PACKET_NUMBER && forall i :: 0 <= i < |f.ranges| ==> 1 <= f.ranges[i].first
    ensures f.largestAcked - RangeLength(f.ranges[0]) + 1 == f.ranges[0].first && 0 < RangeLength(f.ranges[0])
            <= f.largestAcked
    ensures AckRange(f.ranges[0].first, f.largestAcked) == f.ranges[0]
  {
    hide Float16.Ufloat16, Float16.ReadUfloat16;
  }

  lemma {:induction false} RangeBytesAre(length: nat, blocks: seq<Block>, dl: nat, order: ByteOrder, count: byte)
    requires |blocks| == count < 255 && forall i :: 0 <= i < |blocks| ==> blocks[i].gap < 256
    ensures RangeBytes(length, blocks, dl, order) == [count] + Encode(length, dl, order)
            + AllBlockBytes(blocks, dl, order)
  {}

  lemma {:induction false} Regroup<T>(a: seq<T>, b: seq<T>, c: seq<T>, d: seq<T>, e: seq<T>, f: seq<T>)
    ensures a + (b + c + d) + e + f == a + (b + (c + (d + (e + f))))
  {}

  lemma {:induction false} RoundTripRanges(f: AckFrame, order: ByteOrder, rest: seq<byte>)
    requires Writable(f) && |f.ranges| >= 2 && WriteAck(f, order).Ok?
    ensures ParseAck(WriteAck(f, order).value + rest, order) == Ok((Received(f), rest))
  {
    hide *;
    var count, length, blocks, bytes := WrittenBlocks(f, order, rest);
    ReceivedShape(f, order);
    var dl, s7 := DeltaLength(f), [0] + rest;
    var s6 := bytes + s7;
    var s5 := Encode(length, dl, order) + s6;
    var s4 := [count] + s5;
    var s := Header(f, order) + s4;
    HeadReadBack(f, order, s4);
    ReadByte(count, s5, order);
    ReadEncoded(length, dl, order, s6);
    BlocksReadBack(blocks, dl, order, s7);
    var h := ParseHead(s, order).value.0;
    ParseWithRanges(s, order, h, s4, s5, s6, s7, length, blocks, Received(f).ranges);
    FinishPlain(Received(f), rest);
  }

  lemma {:induction false} ReceivedShape(f: AckFrame, order: ByteOrder)
    requires Writable(f) && |f.ranges| >= 2 && WriteAck(f, order).Ok?
    ensures Validated(Received(f)) && Received(f).ranges != [] && f.ranges != []
    ensures Float16.Ufloat16(f.delay) < 0x1_0000
    ensures var r := Received(f).ranges;
            Received(f) == AckFrame(f.pathID, f.largestAcked, r[|r| - 1].first, r,
                                    Float16.ReadUfloat16(Float16.Ufloat16(f.delay)))
  {
    WriteOkMeans(f, order);
    hide Float16.Ufloat16, Float16.ReadUfloat16, WritableRanges, Descending;
    ReceivedAcksLess(f);
    Float16.RoundTrip(f.delay);
  }

  lemma {:induction false} WrittenLength(f: AckFrame, order: ByteOrder)
    requires Writable(f) && WriteAck(f, order).Ok?
    ensures |WriteAck(f, order).value| == MinLength(f)
  {
    hide Encode, Blocks, WritableRanges, AllBlockBytes, DeltaLength, Descending;
    assert |Header(f, order)| == 3 + NumberLength(f.largestAcked) + (if f.pathID != 0 then 1 else 0);
  }

  /** ACK frame round trip: from what is written the peer parses the path, the largest acked packet,
      the ranges that fit, and the rounded delay; and exactly `MinLength` bytes are written. */
  lemma {:induction false} RoundTrip(f: AckFrame, order: ByteOrder, rest: seq<byte>)
    requires Writable(f) && |f.ranges| != 1 && WriteAck(f, order).Ok?
    ensures ParseAck(WriteAck(f, order).value + rest, order) == Ok((Received(f), rest))
    ensures |WriteAck(f, order).value| == MinLength(f)
    ensures Validated(f) && Validated(Received(f)) && Received(f).largestAcked == f.largestAcked && Received(f).pathID
            == f.pathID
    ensures Received(f).ranges <= f.ranges
    ensures forall p: nat :: AcksPacket(Received(f), p) ==> AcksPacket(f, p)
    ensures var d := Received(f).delay;
            if f.delay >= Float16.MAX_VALUE then d == Float16.MAX_VALUE
            else d <= f.delay && (f.delay > 0 ==> (f.delay - d) * 0x800 < f.delay)
  {
    hide Float16.Ufloat16, Float16.ReadUfloat16, WriteAck, ParseAck, MinLength;
    Float16.RoundTrip(f.delay);
    WrittenLength(f, order);
    if f.ranges == [] {
      RoundTripPlain(f, order, rest);
    } else {
      WriteOkMeans(f, order);
      RoundTripRanges(f, order, rest);
    }
    ReceivedAcksLess(f);
  }

  lemma {:induction false} AssembleGrows(a: Assembly, blocks: seq<Block>)
    requires |a.ranges| == 1 && !a.inLong && blocks != []
    ensures |Assemble(a, blocks).ranges| >= 2
    decreases |blocks|
  {
    var init := blocks[..|blocks| - 1];
    if init == [] {
      assert Assemble(a, init) == a;
    } else {
      AssembleGrows(a, init);
    }
  }

  /** Whatever bytes are parsed, the frame acknowledges nothing above its largest packet, and names as lowest
      one that is not above it; without missing ranges it is not packet 0 unless that is all there is. */
  lemma {:induction false} ParsedIsOrdered(s: seq<byte>, order: ByteOrder)
    requires ParseAck(s, order).Ok?
    ensures var f := ParseAck(s, order).value.0;
            && f.lowestAcked <= f.largestAcked
            && (f.ranges == [] && f.largestAcked > 0 ==> f.lowestAcked >= 1)
            && (forall i :: 0 <= i < |f.ranges| ==> f.lowestAcked <= f.ranges[i].first <= f.ranges[i].last)
            && forall i :: 0 <= i < |f.ranges| ==> f.ranges[i].last <= f.largestAcked
  {
    hide ParseHead, Read, ReadBlocks, Assemble, SkipTimestamps;
    forall a: Assembly, blocks | |a.ranges| == 1 && !a.inLong && blocks != []
      ensures |Assemble(a, blocks).ranges| >= 2 {
      AssembleGrows(a, blocks);
    }
    var f := ParseAck(s, order).value.0;
    if f.ranges != [] {
      var n := |f.ranges| - 1;
      assert forall i :: 0 <= i < n ==> f.ranges[n].last + 1 < f.ranges[i].first;
      assert forall i :: 0 < i <= n ==> f.ranges[i].last + 1 < f.ranges[0].first;
    }
  }

  /** Writing a consistent frame fails exactly when the gap below the topmost range alone needs
      255 blocks. */
  lemma {:induction false} WriteFailsIff(f: AckFrame, order: ByteOrder)
    requires Writable(f) && Validated(f)
    ensures WriteAck(f, order).Err? <==> f.ranges != [] && GapAbove(f.ranges, 1) > 254 * 255
  {
    if f.ranges != [] {
      var gap := GapAbove(f.ranges, 1);
      assert Blocks(f.ranges, 1) == [];
      assert Blocks(f.ranges, 2) == Split(gap, RangeLength(f.ranges[1]));
      SplitCount(gap, RangeLength(f.ranges[1]));
    }
  }

  /** Packet 1 and packet 65000 received, nothing between: the ACK cannot be written. */
  lemma {:induction false} LongFirstGapIsNotWritten(order: ByteOrder)
    ensures var f := AckFrame(0, 65000, 1, [AckRange(65000, 65000), AckRange(1, 1)], 0);
            Writable(f) && Validated(f) && WriteAck(f, order).Err?
  {
    var f := AckFrame(0, 65000, 1, [AckRange(65000, 65000), AckRange(1, 1)], 0);
    assert GapAbove(f.ranges, 1) == 64998;
    WriteFailsIff(f, order);
  }
}
