/** Bytes and the fixed-width integers written to a packet, in either byte order:
    mpquic_trans/internal/utils/byteorder_little_endian.go and byteorder_big_endian.go. */
module Bytes {
  type byte = b: int | 0 <= b < 256

  datatype ByteOrder = LittleEndian | BigEndian

  datatype Result<+T> = Ok(value: T) | Err(error: string) {
    predicate IsFailure() { Err? }
    function PropagateFailure<U>(): Result<U>
      requires Err?
    { Err(error) }
    function Extract(): T
      requires Ok?
    { value }
  }

  function Pow256(n: nat): (p: nat)
    ensures p > 0
  {
    if n == 0 then 1 else 256 * Pow256(n - 1)
  }

  /** The low `n` bytes of `v`. */
  function Encode(v: nat, n: nat, order: ByteOrder): (s: seq<byte>)
    ensures |s| == n
    decreases n
  {
    if n == 0 then []
    else match order
      case LittleEndian => [v % 256] + Encode(v / 256, n - 1, order)
      case BigEndian => Encode(v / 256, n - 1, order) + [v % 256]
  }

  function Decode(s: seq<byte>, order: ByteOrder): (v: nat)
    ensures v < Pow256(|s|)
    decreases |s|
  {
    if s == [] then 0
    else match order
      case LittleEndian => s[0] + 256 * Decode(s[1..], order)
      case BigEndian => 256 * Decode(s[..|s| - 1], order) + s[|s| - 1]
  }

  lemma {:induction false} DecodeEncode(v: nat, n: nat, order: ByteOrder)
    requires v < Pow256(n)
    ensures Decode(Encode(v, n, order), order) == v
    decreases n
  {
    if n > 0 {
      DecodeEncode(v / 256, n - 1, order);
      var s := Encode(v, n, order);
      match order
      case LittleEndian => assert s[1..] == Encode(v / 256, n - 1, order);
      case BigEndian => assert s[..n - 1] == Encode(v / 256, n - 1, order);
    }
  }

  lemma {:induction false} Powers()
    ensures Pow256(1) == 0x100 && Pow256(2) == 0x1_0000 && Pow256(3) == 0x100_0000 && Pow256(4) == 0x1_0000_0000
    ensures Pow256(5) == 0x100_0000_0000 && Pow256(6) == 0x1_0000_0000_0000
    ensures Pow256(7) == 0x100_0000_0000_0000 && Pow256(8) == 0x1_0000_0000_0000_0000
  {
    assert Pow256(4) == 256 * (256 * (256 * (256 * Pow256(0))));
    assert Pow256(8) == 256 * (256 * (256 * (256 * Pow256(4))));
  }

  /** Reads an `n`-byte integer off the front of `s`. */
  function Read(s: seq<byte>, n: nat, order: ByteOrder): (r: Result<(nat, seq<byte>)>) {
    if |s| < n then Err("EOF") else Ok((Decode(s[..n], order), s[n..]))
  }

  lemma {:induction false} ReadEncoded(v: nat, n: nat, order: ByteOrder, rest: seq<byte>)
    requires v < Pow256(n)
    ensures Read(Encode(v, n, order) + rest, n, order) == Ok((v, rest))
  {
    var s := Encode(v, n, order) + rest;
    assert s[..n] == Encode(v, n, order) && s[n..] == rest;
    DecodeEncode(v, n, order);
  }
}
