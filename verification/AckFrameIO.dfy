/** `Write`, `ParseAckFrame` and their helpers as the source runs them, loop by loop. */
module AckFrameIO {
  import opened Bytes
  import opened AckFrames
  import opened AckCodec
  import Float16

  method GetMissingSequenceNumberDeltaLen(f: AckFrame) returns (n: nat)
    requires Writable(f)
    ensures n == DeltaLength(f)
  {
    var maxRangeLength := 0;
    if f.ranges != [] {
      for i := 0 to |f.ranges|
        invariant maxRangeLength == LongestRange(f.ranges[..i])
      {
        var rangeLength := f.ranges[i].last - f.ranges[i].first + 1;
        assert f.ranges[..i + 1][..i] == f.ranges[..i];
        if rangeLength > maxRangeLength {
          maxRangeLength := rangeLength;
        }
      }
      assert f.ranges[..|f.ranges|] == f.ranges;
    } else {
      maxRangeLength := f.largestAcked - f.lowestAcked + 1;
    }
    n := if maxRangeLength <= 0xFF then 1 else if maxRangeLength <= 0xFFFF then 2 else if maxRangeLength <= 0xFFFF_FFFF
        then 4 else 6;
  }

  method NumWritableNackRanges(f: AckFrame) returns (numRanges: nat)
    requires Writable(f)
    ensures f.ranges == [] ==> numRanges == 0
    ensures f.ranges != [] ==> 1 <= numRanges <= 0xFF && numRanges == |Blocks(f.ranges, Writes(f.ranges))| + 1
  {
    hide *;
    if |f.ranges| == 0 {
      return 0;
    }
    WritableDescends(f);
    StartsEmpty(f.ranges);
    numRanges := 0;
    var i := 1;
    while i < |f.ranges|
      invariant 1 <= i <= |f.ranges| && numRanges == |Blocks(f.ranges, i)| < 0xFF
      invariant Writes(f.ranges) == WritableRanges(f.ranges, i)
    {
      Neighbours(f.ranges, i);
      var gap := f.ranges[i - 1].first - f.ranges[i].last - 1;
      var rangeLength := BlocksNeeded(gap, RangeLength(f.ranges[i]));
      OneMore(f.ranges, i);
      if numRanges + rangeLength < 0xFF {
        numRanges := numRanges + rangeLength;
      } else {
        break;
      }
      i := i + 1;
    }
    numRanges := numRanges + 1;
  }

  lemma {:induction false} WritableDescends(f: AckFrame)
    requires Writable(f)
    ensures Descending(f.ranges)
  {}

  lemma {:induction false} Neighbours(ranges: seq<AckRange>, i: nat)
    requires Descending(ranges) && 1 <= i < |ranges|
    ensures ranges[i].first <= ranges[i].last && ranges[i].last + 1 < ranges[i - 1].first
    ensures GapAbove(ranges, i) == ranges[i - 1].first - ranges[i].last - 1
  {}

  lemma {:induction false} StartsEmpty(ranges: seq<AckRange>)
    requires Descending(ranges) && ranges != []
    ensures Blocks(ranges, 1) == [] && Writes(ranges) == WritableRanges(ranges, 1)
    ensures |Blocks(ranges, |ranges|)| < 255 ==> WritableRanges(ranges, |ranges|) == |ranges|
  {}

  lemma {:induction false} OneMore(ranges: seq<AckRange>, i: nat)
    requires Descending(ranges) && 1 <= i < |ranges| && |Blocks(ranges, i)| < 255
    ensures |Blocks(ranges, i + 1)| == |Blocks(ranges, i)| + |Split(GapAbove(ranges, i), RangeLength(ranges[i]))|
    ensures WritableRanges(ranges, i) == if |Blocks(ranges, i + 1)| < 255 then WritableRanges(ranges, i + 1) else i
  {}

  method BlocksNeeded(gap: nat, ghost length: nat) returns (num: nat)
    requires gap >= 1
    ensures num == |Split(gap, length)| && num >= 1 && (num == 1 <==> gap <= 255)
  {
    num := gap / 0xFF + 1;
    if gap % 0xFF == 0 {
      num := num - 1;
    }
    SplitCount(gap, length);
  }

  function Writes(ranges: seq<AckRange>): (n: nat)
    requires Descending(ranges) && ranges != []
    ensures 1 <= n <= |ranges| && |Blocks(ranges, n)| < 255
  {
    assert Blocks(ranges, 1) == [];
    WritableRanges(ranges, 1)
  }

  /** One gap and the range below it: one block, or blocks of 255 with length zero and a last one. */
  method WriteGap(gap: nat, length: nat, dl: nat, order: ByteOrder) returns (b: seq<byte>, written: nat)
    requires gap >= 1
    ensures forall i :: 0 <= i < |Split(gap, length)| ==> Split(gap, length)[i].gap < 256
    ensures b == AllBlockBytes(Split(gap, length), dl, order) && written == |Split(gap, length)|
  {
    SplitGaps(gap, length);
    var num := BlocksNeeded(gap, length);
    if num == 1 {
      OneBlock(Block(gap, length), dl, order);
      b, written := [gap] + Encode(length, dl, order), 1;
    } else {
      b, written := [], 0;
      var i := 0;
      assert Split(gap, length)[..0] == [];
      while i < num
        invariant i <= num && written == i
        invariant b == AllBlockBytes(Split(gap, length)[..i], dl, order)
      {
        var lengthWritten, gapWritten: byte := 0, 0xFF;
        if i == num - 1 {
          lengthWritten, gapWritten := length, 1 + (gap - 1) % 255;
        }
        SplitAt(gap, length, i);
        NextBlock(Split(gap, length), i, dl, order);
        b := b + [gapWritten] + Encode(lengthWritten, dl, order);
        written := written + 1;
        i := i + 1;
      }
      assert Split(gap, length)[..num] == Split(gap, length);
    }
  }

  lemma {:induction false} OneBlock(x: Block, dl: nat, order: ByteOrder)
    requires x.gap < 256
    ensures AllBlockBytes([x], dl, order) == [x.gap] + Encode(x.length, dl, order)
  {
    assert [x][..0] == [] && [] + BlockBytes(x, dl, order) == BlockBytes(x, dl, order);
  }

  lemma {:induction false} NextBlock(blocks: seq<Block>, i: nat, dl: nat, order: ByteOrder)
    requires i < |blocks| && forall k :: 0 <= k < |blocks| ==> blocks[k].gap < 256
    ensures AllBlockBytes(blocks[..i + 1], dl, order) == AllBlockBytes(blocks[..i], dl, order) + [blocks[i].gap]
            + Encode(blocks[i].length, dl, order)
  {
    assert blocks[..i + 1][..i] == blocks[..i];
  }

  lemma {:induction false} SplitAt(gap: nat, length: nat, i: nat)
    requires gap >= 1 && i < |Split(gap, length)|
    ensures Split(gap, length)[i] == if i == |Split(gap, length)| - 1 then Block(1 + (gap - 1) % 255, length)
            else Block(255, 0)
    decreases gap
  {
    if gap > 255 {
      if i > 0 { SplitAt(gap - 255, length, i - 1); }
      assert (gap - 256) % 255 == (gap - 1) % 255;
    }
  }

  lemma {:induction false} BlockBytesAppend(x: seq<Block>, y: seq<Block>, dl: nat, order: ByteOrder)
    requires forall k :: 0 <= k < |x| ==> x[k].gap < 256
    requires forall k :: 0 <= k < |y| ==> y[k].gap < 256
    ensures AllBlockBytes(x + y, dl, order) == AllBlockBytes(x, dl, order) + AllBlockBytes(y, dl, order)
    decreases |y|
  {
    hide Encode, BlockArea, BlockBytes;
    if y == [] {
      assert x + y == x;
    } else {
      var z := x + y;
      assert z[..|z| - 1] == x + y[..|y| - 1] && z[|z| - 1] == y[|y| - 1];
      BlockBytesAppend(x, y[..|y| - 1], dl, order);
    }
  }

  /** All ranges but the topmost, until `numRanges` blocks are written. */
  method WriteLowerRanges(ranges: seq<AckRange>, numRanges: nat, dl: nat, order: ByteOrder)
      returns (b: seq<byte>, written: nat)
    requires Descending(ranges) && |ranges| >= 1 && numRanges == |Blocks(ranges, Writes(ranges))| + 1
    ensures written == numRanges <==> !(Writes(ranges) == 1 < |ranges|)
    ensures forall k :: 0 <= k < |Blocks(ranges, Writes(ranges))| ==> Blocks(ranges, Writes(ranges))[k].gap < 256
    ensures written == numRanges ==> b == AllBlockBytes(Blocks(ranges, Writes(ranges)), dl, order)
  {
    hide Split, AllBlockBytes, BlockBytes, WritableRanges;
    ghost var n := Writes(ranges);
    BlockGaps(ranges, n);
    b, written := [], 1;
    NoBytes(dl, order);
    var i := 1;
    while i < |ranges|
      invariant 1 <= i <= |ranges| && i <= n
      invariant written == |Blocks(ranges, i)| + 1
      invariant forall k :: 0 <= k < |Blocks(ranges, i)| ==> Blocks(ranges, i)[k].gap < 256
      invariant b == AllBlockBytes(Blocks(ranges, i), dl, order)
      invariant i > 1 ==> i < n
    {
      var length := ranges[i].last - ranges[i].first + 1;
      var gap := ranges[i - 1].first - ranges[i].last - 1;
      var gapBytes, blocks := WriteGap(gap, length, dl, order);
      BlockBytesAppend(Blocks(ranges, i), Split(gap, length), dl, order);
      b, written := b + gapBytes, written + blocks;
      BlocksGrow(ranges, i + 1, n);
      i := i + 1;
      if written >= numRanges {
        break;
      }
    }
    BlocksGrow(ranges, i, n);
  }

  lemma {:induction false} NoBytes(dl: nat, order: ByteOrder)
    ensures AllBlockBytes([], dl, order) == []
  {}

  lemma {:induction false} BlocksGrow(ranges: seq<AckRange>, i: nat, n: nat)
    requires Descending(ranges) && 1 <= i <= |ranges| && 1 <= n <= |ranges|
    ensures i < n ==> |Blocks(ranges, i)| < |Blocks(ranges, n)|
    ensures i > n ==> |Blocks(ranges, i)| > |Blocks(ranges, n)|
    decreases i + n
  {
    if i < n {
      BlocksGrow(ranges, i, n - 1);
      SplitCount(GapAbove(ranges, n - 1), RangeLength(ranges[n - 1]));
    } else if i > n {
      BlocksGrow(ranges, i - 1, n);
      SplitCount(GapAbove(ranges, i - 1), RangeLength(ranges[i - 1]));
    }
  }

  method WriteHeader(f: AckFrame, ll: nat, dl: nat, order: ByteOrder) returns (b: seq<byte>)
    requires Writable(f) && ll == NumberLength(f.largestAcked) && dl == DeltaLength(f)
    ensures b == Header(f, order)
  {
    hide Encode, NumberLength, DeltaLength, Float16.Ufloat16, Descending;
    var typeByte: int := 0x40;
    if ll != 1 {
      typeByte := typeByte + ll / 2 * 4;
    }
    if dl != 1 {
      typeByte := typeByte + dl / 2;
    }
    if f.ranges != [] {
      typeByte := typeByte + 0x20;
    }
    if f.pathID != 0 {
      typeByte := typeByte + 0x10;
    }
    assert typeByte == TypeByte(f, ll, dl);
    b := [typeByte];
    if f.pathID != 0 {
      b := b + [f.pathID];
    }
    b := b + Encode(f.largestAcked, ll, order);
    var delay := Float16.WriteUfloat16(f.delay);
    b := b + Encode(delay, 2, order);
  }

  method Write(f: AckFrame, order: ByteOrder) returns (r: Result<seq<byte>>)
    requires Writable(f)
    ensures r == WriteAck(f, order)
  {
    hide Header, Encode, AllBlockBytes, BlockArea, Blocks, WritableRanges, DeltaLength, NumberLength;
    var ll := NumberLength(f.largestAcked);
    var dl := GetMissingSequenceNumberDeltaLen(f);
    var b := WriteHeader(f, ll, dl, order);
    if f.ranges == [] {
      b := b + Encode(f.largestAcked - f.lowestAcked + 1, dl, order);
      return Ok(b + [0]);
    }
    var numRanges := NumWritableNackRanges(f);  // never more than 255, so the source's panic is not reached
    var count: byte := numRanges - 1;
    b := b + [count];
    if f.largestAcked != f.ranges[0].last {
      return Err("LargestAcked does not match ACK ranges");
    }
    if f.lowestAcked != f.ranges[|f.ranges| - 1].first {
      return Err("LowestAcked does not match ACK ranges");
    }
    b := b + Encode(f.largestAcked - f.ranges[0].first + 1, dl, order);
    var lower, written := WriteLowerRanges(f.ranges, numRanges, dl, order);
    if numRanges != written {
      return Err("BUG: Inconsistent number of ACK ranges written");
    }
    ghost var e := Encode(f.largestAcked - f.ranges[0].first + 1, dl, order);
    assert b + lower == Header(f, order) + ([count] + e + lower);
    b := b + lower;
    return Ok(b + [0]);
  }

  /** The block loop: ranges grow downwards, a range stays open while its gap goes on, and a range
      that never got its length is dropped at the end. */
  method ReadRanges(s: seq<byte>, n: nat, dl: nat, order: ByteOrder, top: AckRange)
      returns (r: Result<(seq<AckRange>, seq<byte>)>)
    requires n > 0
    ensures var blocks := ReadBlocks(s, n, dl, order);
            if blocks.Err? then r == Err(blocks.error)
            else
              var a := Assemble(Assembly([top], false, false), blocks.value.0);
              var ranges := if a.complete then a.ranges else a.ranges[..|a.ranges| - 1];
              ranges != [] && r == Ok((ranges, blocks.value.1))
  {
    hide Read, Sub, ReadBlocks, Assemble;
    FoldStarts(s, dl, order, Assembly([top], false, false));
    var ranges, inLongBlock, lastRangeComplete, cur := [top], false, false, s;
    ghost var blocks: seq<Block> := [];
    ghost var start := Assembly([top], false, false);
    for i := 0 to n
      invariant ReadBlocks(s, i, dl, order) == Ok((blocks, cur))
      invariant Assemble(start, blocks) == Assembly(ranges, inLongBlock, lastRangeComplete)
      invariant |ranges| >= 1 && (i > 0 ==> |ranges| >= 2)
    {
      ghost var before := Assembly(ranges, inLongBlock, lastRangeComplete);
      ReadStep(s, i, dl, order, blocks, cur);
      var g := Read(cur, 1, order);
      if g.Err? {
        ShortReadFails(s, i + 1, n, dl, order);
        return Err(g.error);
      }
      var gap := g.value.0;
      var l := Read(g.value.1, dl, order);
      if l.Err? {
        ShortReadFails(s, i + 1, n, dl, order);
        return Err(l.error);
      }
      var length := l.value.0;
      cur := l.value.1;
      var lowest := ranges[|ranges| - 1];
      if inLongBlock {
        ranges := ranges[|ranges| - 1 := AckRange(Sub(lowest.first, gap + length), Sub(lowest.last, gap))];
      } else {
        lastRangeComplete := false;
        var last := Sub(Sub(lowest.first, gap), 1);
        ranges := ranges + [AckRange(Sub(last + 1, length), last)];
      }
      if length > 0 {
        lastRangeComplete := true;
      }
      inLongBlock := length == 0;
      ghost var b := Block(gap, length);
      assert Assembly(ranges, inLongBlock, lastRangeComplete) == AddBlock(before, b);
      AssembleStep(start, blocks, b);
      blocks := blocks + [b];
    }
    if !lastRangeComplete {
      ranges := ranges[..|ranges| - 1];
    }
    return Ok((ranges, cur));
  }

  lemma {:induction false} FoldStarts(s: seq<byte>, dl: nat, order: ByteOrder, a: Assembly)
    requires a.ranges != []
    ensures ReadBlocks(s, 0, dl, order) == Ok(([], s)) && Assemble(a, []) == a
  {}

  lemma {:induction false} ReadStep(s: seq<byte>, i: nat, dl: nat, order: ByteOrder, blocks: seq<Block>, cur: seq<byte>)
    requires ReadBlocks(s, i, dl, order) == Ok((blocks, cur))
    ensures var r, g := ReadBlocks(s, i + 1, dl, order), Read(cur, 1, order);
            if g.Err? then r == Err(g.error)
            else
              var l := Read(g.value.1, dl, order);
              if l.Err? then r == Err(l.error) else r == Ok((blocks + [Block(g.value.0, l.value.0)], l.value.1))
  {
    hide Read;
  }

  lemma {:induction false} AssembleStep(a: Assembly, blocks: seq<Block>, b: Block)
    requires a.ranges != []
    ensures Assemble(a, blocks + [b]) == AddBlock(Assemble(a, blocks), b)
  {
    assert (blocks + [b])[..|blocks|] == blocks;
  }

  lemma {:induction false} ShortReadFails(s: seq<byte>, i: nat, n: nat, dl: nat, order: ByteOrder)
    requires i <= n && ReadBlocks(s, i, dl, order).Err?
    ensures ReadBlocks(s, n, dl, order) == Err(ReadBlocks(s, i, dl, order).error)
    decreases n - i
  {
    hide Read;
    if i < n { ShortReadFails(s, i + 1, n, dl, order); }
  }

  method ParseAckFrame(s: seq<byte>, order: ByteOrder) returns (r: Result<(AckFrame, seq<byte>)>)
    ensures r == ParseAck(s, order)
  {
    hide ParseHead, Read, ReadBlocks, Assemble, Finish;
    var head := ParseHead(s, order);
    if head.Err? {
      return Err(head.error);
    }
    var h, cur := head.value.0, head.value.1;
    var numAckBlocks := 0;
    if h.hasMissingRanges {
      var n := Read(cur, 1, order);
      if n.Err? {
        return Err(n.error);
      }
      numAckBlocks, cur := n.value.0, n.value.1;
      if numAckBlocks == 0 {
        return Err("invalid ACK ranges");
      }
    }
    var first := Read(cur, h.dl, order);
    if first.Err? {
      return Err(first.error);
    }
    var length := first.value.0;
    cur := first.value.1;
    if h.largest > 0 && length < 1 {
      return Err("invalid first ACK range");
    }
    if length > h.largest {
      return Err("invalid ACK ranges");
    }
    if h.hasMissingRanges {
      var read := ReadRanges(cur, numAckBlocks, h.dl, order, AckRange(h.largest - length + 1, h.largest));
      if read.Err? {
        return Err(read.error);
      }
      var (ranges, rest) := read.value;
      r := CheckAndFinish(AckFrame(h.path, h.largest, ranges[|ranges| - 1].first, ranges, h.delay), rest);
    } else {
      r := CheckAndFinish(AckFrame(h.path, h.largest, if h.largest == 0 then 0 else h.largest + 1 - length, [],
                                   h.delay), cur);
    }
  }

  /** The end of `ParseAckFrame`: the check of the ranges, and the timestamps, which are skipped. */
  method CheckAndFinish(f: AckFrame, s: seq<byte>) returns (r: Result<(AckFrame, seq<byte>)>)
    requires f.ranges != [] ==> f.ranges[|f.ranges| - 1].first == f.lowestAcked
    ensures r == Finish(f, s)
  {
    hide SkipTimestamps, Descending;
    var ok := ValidateAckRanges(f);
    if !ok {
      return Err("invalid ACK ranges");
    }
    var rest := SkipTimestamps(s);
    if rest.Err? {
      return Err(rest.error);
    }
    return Ok((f, rest.value));
  }
}
