/** Stream frames on the wire: mpquic_trans/internal/wire/stream_frame.go. */
module StreamFrames {
  import opened Bytes

  const MAX_PACKET_SIZE: nat := 1350
  const UINT64: nat := 0x1_0000_0000_0000_0000

  datatype StreamFrame = StreamFrame(id: nat, fin: bool, dataLenPresent: bool, offset: nat, data: seq<byte>)

  function IdLength(id: nat): (n: nat)
    ensures 1 <= n <= 4 && (id < 0x1_0000_0000 ==> id < Pow256(n))
  {
    Powers();
    if id < 0x100 then 1 else if id < 0x1_0000 then 2 else if id < 0x100_0000 then 3 else 4
  }

  function OffsetLength(offset: nat): (n: nat)
    ensures n != 1 && n <= 8 && (offset < UINT64 ==> offset < Pow256(n))
  {
    Powers();
    if offset == 0 then 0
    else if offset < 0x1_0000 then 2
    else if offset < 0x100_0000 then 3
    else if offset < 0x1_0000_0000 then 4
    else if offset < 0x100_0000_0000 then 5
    else if offset < 0x1_0000_0000_0000 then 6
    else if offset < 0x100_0000_0000_0000 then 7
    else 8
  }

  /** The length of the frame without its data. */
  function MinLength(f: StreamFrame): (n: nat)
    ensures 2 <= n <= 15
  {
    1 + IdLength(f.id) + OffsetLength(f.offset) + if f.dataLenPresent then 2 else 0
  }

  function TypeByte(f: StreamFrame): (b: byte) {
    0x80 + (if f.fin then 0x40 else 0) + (if f.dataLenPresent then 0x20 else 0)
    + (if f.offset == 0 then 0 else (OffsetLength(f.offset) - 1) * 4) + (IdLength(f.id) - 1)
  }

  function Header(f: StreamFrame, order: ByteOrder): seq<byte> {
    [TypeByte(f)] + Encode(f.id, IdLength(f.id), order) + Encode(f.offset, OffsetLength(f.offset), order)
    + if f.dataLenPresent then Encode(|f.data|, 2, order) else []
  }

  predicate Empty(f: StreamFrame) { f.data == [] && !f.fin }

  function Write(f: StreamFrame, order: ByteOrder): (r: Result<seq<byte>>)
    ensures r.Ok? ==> |r.value| == MinLength(f) + |f.data|
    ensures r.Err? <==> Empty(f)
  {
    if Empty(f) then Err("attempting to write empty frame without FIN")
    else Ok(Header(f, order) + f.data)
  }

  datatype Head = Head(id: nat, fin: bool, dataLenPresent: bool, offset: nat)

  function ParseHead(s: seq<byte>, order: ByteOrder): (r: Result<(Head, seq<byte>)>) {
    var (t, s1) :- Read(s, 1, order);
    var ol := t / 4 % 8;
    var (id, s2) :- Read(s1, t % 4 + 1, order);
    var (offset, s3) :- Read(s2, if ol != 0 then ol + 1 else 0, order);
    Ok((Head(id, t / 0x40 % 2 == 1, t / 0x20 % 2 == 1, offset), s3))
  }

  function Parse(s: seq<byte>, order: ByteOrder): (r: Result<(StreamFrame, seq<byte>)>)
    ensures r.Ok? ==> !Empty(r.value.0) && |r.value.1| < |s|
  {
    var (h, s1) :- ParseHead(s, order);
    var (length, s2) :- if h.dataLenPresent then Read(s1, 2, order) else Ok((|s1| % 0x1_0000, s1));
    if h.dataLenPresent && length > MAX_PACKET_SIZE then Err("data len too large")
    else if |s2| < length then Err("EOF")
    else if h.offset + length >= UINT64 then Err("data overflows maximum offset")
    else if length == 0 && !h.fin then Err("empty frame without FIN")
    else Ok((StreamFrame(h.id, h.fin, h.dataLenPresent, h.offset, s2[..length]), s2[length..]))
  }

  // ----- reading back what was written -----

  lemma {:induction false} TypeBits(f: StreamFrame)
    ensures var t := TypeByte(f);
            && t / 0x80 == 1
            && (t / 0x40 % 2 == 1 <==> f.fin)
            && (t / 0x20 % 2 == 1 <==> f.dataLenPresent)
            && t % 4 + 1 == IdLength(f.id)
            && (if t / 4 % 8 != 0 then t / 4 % 8 + 1 else 0) == OffsetLength(f.offset)
  {
    hide IdLength;
    var il := IdLength(f.id) - 1;
    var ol := if f.offset == 0 then 0 else OffsetLength(f.offset) - 1;
    var fin, dl := if f.fin then 1 else 0, if f.dataLenPresent then 1 else 0;
    Bits(fin, dl, ol, il);
    assert OffsetLength(f.offset) == 0 <==> f.offset == 0;
  }

  lemma {:induction false} Bits(fin: nat, dl: nat, ol: nat, il: nat)
    requires fin < 2 && dl < 2 && ol < 8 && il < 4
    ensures var t := 0x80 + fin * 0x40 + dl * 0x20 + ol * 4 + il;
            t / 0x80 == 1 && t / 0x40 % 2 == fin && t / 0x20 % 2 == dl && t / 4 % 8 == ol && t % 4 == il
  {}

  /** Frames that are sent: fields in range, and something to say. */
  ghost predicate Sendable(f: StreamFrame) {
    f.id < 0x1_0000_0000 && f.offset + |f.data| < UINT64 && |f.data| <= MAX_PACKET_SIZE && !Empty(f)
  }

  lemma {:induction false} ByteEncoded(b: byte, order: ByteOrder)
    ensures Encode(b, 1, order) == [b]
  {
    assert Encode(b / 256, 0, order) == [];
  }

  lemma {:induction false} ParseHeadOfWritten(f: StreamFrame, order: ByteOrder, rest: seq<byte>)
    requires Sendable(f)
    ensures var length := if f.dataLenPresent then Encode(|f.data|, 2, order) else [];
            ParseHead(Header(f, order) + rest, order)
                == Ok((Head(f.id, f.fin, f.dataLenPresent, f.offset), length + rest))
  {
    hide Encode, Read, IdLength, OffsetLength, TypeByte;
    var length := if f.dataLenPresent then Encode(|f.data|, 2, order) else [];
    var s3 := length + rest;
    var s2 := Encode(f.offset, OffsetLength(f.offset), order) + s3;
    var s1 := Encode(f.id, IdLength(f.id), order) + s2;
    assert Header(f, order) + rest == [TypeByte(f)] + s1;
    ByteEncoded(TypeByte(f), order);
    Powers();
    ReadEncoded(TypeByte(f), 1, order, s1);
    TypeBits(f);
    ReadEncoded(f.id, IdLength(f.id), order, s2);
    ReadEncoded(f.offset, OffsetLength(f.offset), order, s3);
  }

  /** A frame with its length reads back as it was written; one without takes in all that follows. */
  lemma {:induction false} RoundTrip(f: StreamFrame, order: ByteOrder, rest: seq<byte>)
    requires Sendable(f)
    requires !f.dataLenPresent ==> |f.data| + |rest| < 0x1_0000 && f.offset + |f.data| + |rest| < UINT64
    ensures Write(f, order).Ok?
    ensures Parse(Write(f, order).value + rest, order) ==
            Ok(if f.dataLenPresent then (f, rest) else (f.(data := f.data + rest), []))
  {
    hide Encode, Read, ParseHead, Header;
    var s := f.data + rest;
    assert Header(f, order) + f.data + rest == Header(f, order) + s;
    ParseHeadOfWritten(f, order, s);
    if f.dataLenPresent {
      Powers();
      ReadEncoded(|f.data|, 2, order, s);
      assert s[..|f.data|] == f.data && s[|f.data|..] == rest;
    } else {
      assert [] + s == s && s[..|s|] == s && s[|s|..] == [];
      assert f.data + rest == [] ==> f.data == [];
    }
  }

  /** Without its length a frame leaves nothing to read. */
  lemma {:induction false} TakesAll(f: StreamFrame, order: ByteOrder, rest: seq<byte>)
    requires Sendable(f) && !f.dataLenPresent && |f.data| + |rest| < 0x1_0000
    ensures var r := Parse(Write(f, order).value + rest, order); r.Ok? ==> r.value.1 == []
  {
    hide Encode, Read, ParseHead, Header;
    var s := f.data + rest;
    assert Header(f, order) + f.data + rest == Header(f, order) + s && [] + s == s;
    ParseHeadOfWritten(f, order, s);
  }
}
