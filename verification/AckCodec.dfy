/** ACK frames on the wire: `Write`, `ParseAckFrame` and `MinLength` of
    mpquic_trans/internal/wire/ack_frame.go.  A gap of more than 255 packets is split into blocks
    of 255 with length zero; at most 255 blocks fit, and what does not fit is dropped. */
module AckCodec {
  import opened Bytes
  import opened AckFrames
  import Float16

  const MAX_PACKET_NUMBER: nat := 0x1_0000_0000_0000
  const MAX_UINT64: nat := 0xFFFF_FFFF_FFFF_FFFF

  /** The fewest bytes, out of 1, 2, 4 and 6, that hold `p`. */
  function NumberLength(p: nat): (n: nat)
    ensures n in {1, 2, 4, 6}
    ensures p < MAX_PACKET_NUMBER ==> p < Pow256(n)
  {
    Powers();
    if p < 0x100 then 1 else if p < 0x1_0000 then 2 else if p < 0x1_0000_0000 then 4 else 6
  }

  // ----- what is written -----

  function RangeLength(r: AckRange): nat
    requires r.first <= r.last
  { r.last - r.first + 1 }

  function LongestRange(ranges: seq<AckRange>): (m: nat)
    requires forall i :: 0 <= i < |ranges| ==> ranges[i].first <= ranges[i].last
    ensures forall i :: 0 <= i < |ranges| ==> RangeLength(ranges[i]) <= m
  {
    if ranges == [] then 0
    else
      var m, n := LongestRange(ranges[..|ranges| - 1]), RangeLength(ranges[|ranges| - 1]);
      if n > m then n else m
  }

  /** Frames that `Write` is called with: ordered ranges, packet numbers of at most 48 bits. */
  ghost predicate Writable(f: AckFrame) {
    && f.pathID < 256 && 1 <= f.lowestAcked <= f.largestAcked < MAX_PACKET_NUMBER
    && Descending(f.ranges)
    && forall i :: 0 <= i < |f.ranges| ==> 1 <= f.ranges[i].first && f.ranges[i].last < MAX_PACKET_NUMBER
  }

  function DeltaLength(f: AckFrame): (n: nat)
    requires Writable(f)
    ensures n in {1, 2, 4, 6}
    ensures f.ranges == [] ==> f.largestAcked - f.lowestAcked + 1 < Pow256(n)
    ensures forall i :: 0 <= i < |f.ranges| ==> RangeLength(f.ranges[i]) < Pow256(n)
  {
    LongestFits(f);
    NumberLength(if f.ranges != [] then LongestRange(f.ranges) else f.largestAcked - f.lowestAcked + 1)
  }

  lemma {:induction false} LongestFits(f: AckFrame)
    requires Writable(f)
    ensures LongestRange(f.ranges) < MAX_PACKET_NUMBER
  {
    LongestBound(f.ranges);
  }

  lemma {:induction false} LongestBound(ranges: seq<AckRange>)
    requires forall i :: 0 <= i < |ranges| ==> 1 <= ranges[i].first <= ranges[i].last < MAX_PACKET_NUMBER
    ensures LongestRange(ranges) < MAX_PACKET_NUMBER
  {
    if ranges != [] { LongestBound(ranges[..|ranges| - 1]); }
  }

  datatype Block = Block(gap: nat, length: nat)

  /** Packets missing between range `i` and the one above it. */
  function GapAbove(ranges: seq<AckRange>, i: nat): nat
    requires Descending(ranges) && 0 < i < |ranges|
  { ranges[i - 1].first - ranges[i].last - 1 }

  /** Blocks needed for a gap. */
  function BlockCount(gap: nat): nat { gap / 255 + (if gap % 255 == 0 then 0 else 1) }

  function Split(gap: nat, length: nat): seq<Block> {
    if gap <= 255 then [Block(gap, length)] else [Block(255, 0)] + Split(gap - 255, length)
  }

  lemma {:induction false} SplitCount(gap: nat, length: nat)
    requires gap >= 1
    ensures |Split(gap, length)| == BlockCount(gap)
  {
    if gap > 255 { SplitCount(gap - 255, length); }
  }

  /** The blocks for the ranges below `n`, the topmost range excepted. */
  function Blocks(ranges: seq<AckRange>, n: nat): (b: seq<Block>)
    requires Descending(ranges) && n <= |ranges|
  {
    if n <= 1 then []
    else Blocks(ranges, n - 1) + Split(GapAbove(ranges, n - 1), RangeLength(ranges[n - 1]))
  }

  /** How many ranges are written: from range `i` on, as long as fewer than 255 blocks are needed. */
  function WritableRanges(ranges: seq<AckRange>, i: nat): (n: nat)
    requires Descending(ranges) && 0 < i <= |ranges| && |Blocks(ranges, i)| < 255
    ensures i <= n <= |ranges| && |Blocks(ranges, n)| < 255
    ensures n < |ranges| ==> |Blocks(ranges, n + 1)| >= 255
    decreases |ranges| - i
  {
    if i < |ranges| && |Blocks(ranges, i + 1)| < 255 then WritableRanges(ranges, i + 1) else i
  }

  function BlockBytes(b: Block, dl: nat, order: ByteOrder): seq<byte>
    requires b.gap < 256
  { [b.gap] + Encode(b.length, dl, order) }

  /** Bytes taken by `n` blocks. */
  function BlockArea(dl: nat, n: nat): nat { if n == 0 then 0 else BlockArea(dl, n - 1) + (1 + dl) }

  function AllBlockBytes(blocks: seq<Block>, dl: nat, order: ByteOrder): (s: seq<byte>)
    requires forall i :: 0 <= i < |blocks| ==> blocks[i].gap < 256
    ensures |s| == BlockArea(dl, |blocks|)
  {
    if blocks == [] then []
    else AllBlockBytes(blocks[..|blocks| - 1], dl, order) + BlockBytes(blocks[|blocks| - 1], dl, order)
  }

  function TypeByte(f: AckFrame, ll: nat, dl: nat): (b: byte)
    requires ll in {1, 2, 4, 6} && dl in {1, 2, 4, 6}
  {
    0x40 + (if ll == 1 then 0 else ll / 2 * 4) + (if dl == 1 then 0 else dl / 2)
    + (if f.ranges != [] then 0x20 else 0) + (if f.pathID != 0 then 0x10 else 0)
  }

  function Header(f: AckFrame, order: ByteOrder): seq<byte>
    requires Writable(f)
  {
    [TypeByte(f, NumberLength(f.largestAcked), DeltaLength(f))]
    + (if f.pathID != 0 then [f.pathID] else [])
    + Encode(f.largestAcked, NumberLength(f.largestAcked), order)
    + Encode(Float16.Ufloat16(f.delay), 2, order)
  }

  function WriteAck(f: AckFrame, order: ByteOrder): (r: Result<seq<byte>>)
    requires Writable(f)
  {
    var dl := DeltaLength(f);
    assert f.ranges != [] ==> Blocks(f.ranges, 1) == [];
    if f.ranges == [] then
      Ok(Header(f, order) + Encode(f.largestAcked - f.lowestAcked + 1, dl, order) + [0])
    else if f.largestAcked != f.ranges[0].last then Err("LargestAcked does not match ACK ranges")
    else if f.lowestAcked != f.ranges[|f.ranges| - 1].first then Err("LowestAcked does not match ACK ranges")
    else
      var n := WritableRanges(f.ranges, 1);
      if n == 1 < |f.ranges| then Err("BUG: Inconsistent number of ACK ranges written")
      else
        BlockGaps(f.ranges, n);
        Ok(Header(f, order) + RangeBytes(RangeLength(f.ranges[0]), Blocks(f.ranges, n), dl, order) + [0])
  }

  /** Number of blocks, length of the topmost range, blocks. */
  function RangeBytes(firstLength: nat, blocks: seq<Block>, dl: nat, order: ByteOrder): (s: seq<byte>)
    requires |blocks| < 255 && forall i :: 0 <= i < |blocks| ==> blocks[i].gap < 256
    ensures |s| == BlockArea(dl, |blocks| + 1)
  {
    var count: byte := |blocks|;
    [count] + Encode(firstLength, dl, order) + AllBlockBytes(blocks, dl, order)
  }

  function MinLength(f: AckFrame): nat
    requires Writable(f)
  {
    var dl := DeltaLength(f);
    4 + NumberLength(f.largestAcked) + (if f.pathID != 0 then 1 else 0)
    + (if f.ranges == [] then dl
       else
         assert Blocks(f.ranges, 1) == [];
         BlockArea(dl, |Blocks(f.ranges, WritableRanges(f.ranges, 1))| + 1))
  }

  lemma {:induction false} SplitGaps(gap: nat, length: nat)
    ensures forall i :: 0 <= i < |Split(gap, length)| ==>
              Split(gap, length)[i].gap < 256 && Split(gap, length)[i].length <= length
  {
    if gap > 255 { SplitGaps(gap - 255, length); }
  }

  lemma {:induction false} BlockGaps(ranges: seq<AckRange>, n: nat)
    requires Descending(ranges) && n <= |ranges|
    ensures forall i :: 0 <= i < |Blocks(ranges, n)| ==> Blocks(ranges, n)[i].gap < 256
  {
    if n > 1 {
      BlockGaps(ranges, n - 1);
      SplitGaps(GapAbove(ranges, n - 1), RangeLength(ranges[n - 1]));
    }
  }

  // ----- what is parsed -----

  function Sub(a: int, b: int): nat { (a - b) % (MAX_UINT64 + 1) }

  /** Ranges put together so far; `inLong` while a gap continues in the next block, `complete` once
      the lowest range has received its length. */
  datatype Assembly = Assembly(ranges: seq<AckRange>, inLong: bool, complete: bool)

  function AddBlock(a: Assembly, b: Block): (r: Assembly)
    requires a.ranges != []
    ensures r.ranges != [] && |r.ranges| >= |a.ranges|
  {
    var n := |a.ranges| - 1;
    var lowest := a.ranges[n];
    if a.inLong then
      Assembly(a.ranges[n := AckRange(Sub(lowest.first, b.gap + b.length), Sub(lowest.last, b.gap))],
               b.length == 0, a.complete || b.length > 0)
    else
      var last := Sub(Sub(lowest.first, b.gap), 1);
      Assembly(a.ranges + [AckRange(Sub(last + 1, b.length), last)], b.length == 0, b.length > 0)
  }

  function Assemble(a: Assembly, blocks: seq<Block>): (r: Assembly)
    requires a.ranges != []
    ensures r.ranges != [] && |r.ranges| >= |a.ranges|
    decreases |blocks|
  {
    if blocks == [] then a else AddBlock(Assemble(a, blocks[..|blocks| - 1]), blocks[|blocks| - 1])
  }

  function ReadBlocks(s: seq<byte>, n: nat, dl: nat, order: ByteOrder): (r: Result<(seq<Block>, seq<byte>)>)
    ensures r.Ok? ==> |r.value.0| == n
    decreases n
  {
    if n == 0 then Ok(([], s))
    else
      var (blocks, s1) :- ReadBlocks(s, n - 1, dl, order);
      var (gap, s2) :- Read(s1, 1, order);
      var (length, s3) :- Read(s2, dl, order);
      Ok((blocks + [Block(gap, length)], s3))
  }

  function FieldLength(bits: nat): (n: nat) { if bits == 0 then 1 else 2 * bits }

  /** The timestamps that may follow are skipped. */
  function SkipTimestamps(s: seq<byte>): (r: Result<seq<byte>>) {
    if |s| < 1 then Err("EOF")
    else
      var n: int := if s[0] == 0 then 1 else 3 + 3 * (s[0] as int);
      if |s| < n then Err("EOF") else Ok(s[n..])
  }

  /** Everything before the first block length. */
  datatype AckHead = AckHead(hasMissingRanges: bool, dl: nat, path: nat, largest: nat, delay: nat)

  function ParseHead(s: seq<byte>, order: ByteOrder): (r: Result<(AckHead, seq<byte>)>) {
    var (t, s1) :- Read(s, 1, order);
    var (path, s2) :- if t / 0x10 % 2 == 1 then Read(s1, 1, order) else Ok((0, s1));
    var (largest, s3) :- Read(s2, FieldLength(t / 4 % 4), order);
    var (delay, s4) :- Read(s3, 2, order);
    Powers();
    Ok((AckHead(t / 0x20 % 2 == 1, FieldLength(t % 4), path, largest, Float16.ReadUfloat16(delay)), s4))
  }

  function ParseAck(s: seq<byte>, order: ByteOrder): (r: Result<(AckFrame, seq<byte>)>)
    ensures r.Ok? ==> Validated(r.value.0)
  {
    var (h, s4) :- ParseHead(s, order);
    if h.hasMissingRanges then
      var (n, s5) :- Read(s4, 1, order);
      if n == 0 then Err("invalid ACK ranges")
      else
        var (length, s6) :- Read(s5, h.dl, order);
        if h.largest > 0 && length < 1 then Err("invalid first ACK range")
        else if length > h.largest then Err("invalid ACK ranges")
        else
          var (blocks, s7) :- ReadBlocks(s6, n, h.dl, order);
          var a := Assemble(Assembly([AckRange(h.largest - length + 1, h.largest)], false, false), blocks);
          var ranges := if a.complete then a.ranges else a.ranges[..|a.ranges| - 1];
          Finish(AckFrame(h.path, h.largest, if ranges == [] then 0 else ranges[|ranges| - 1].first, ranges, h.delay),
                 s7)
    else
      var (length, s6) :- Read(s4, h.dl, order);
      if h.largest > 0 && length < 1 then Err("invalid first ACK range")
      else if length > h.largest then Err("invalid ACK ranges")
      else Finish(AckFrame(h.path, h.largest, if h.largest == 0 then 0 else h.largest + 1 - length, [], h.delay), s6)
  }

  function Finish(f: AckFrame, s: seq<byte>): (r: Result<(AckFrame, seq<byte>)>)
    ensures r.Ok? ==> Validated(f) && r.value.0 == f
  {
    if f.ranges == [] || (|f.ranges| >= 2 && f.ranges[0].last == f.largestAcked && Descending(f.ranges)
                          && f.ranges[|f.ranges| - 1].first == f.lowestAcked) then
      var rest :- SkipTimestamps(s);
      Ok((f, rest))
    else Err("invalid ACK ranges")
  }
}
