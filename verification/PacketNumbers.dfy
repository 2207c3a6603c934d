/** Packet numbers are sent truncated and inferred by the receiver:
    mpquic_trans/internal/protocol/packet_number.go. */
module PacketNumbers {
  const UINT64: nat := 0x1_0000_0000_0000_0000

  function Wrap(a: int): nat { a % UINT64 }

  /** Two to the power of 8 times the length. */
  function Epoch(length: nat): (d: nat)
    requires length in {1, 2, 4, 6}
    ensures 0x100 <= d <= 0x1_0000_0000_0000
  {
    if length == 1 then 0x100 else if length == 2 then 0x1_0000 else if length == 4 then 0x1_0000_0000
        else 0x1_0000_0000_0000
  }

  function Delta(a: nat, b: nat): nat { if a < b then b - a else a - b }

  function ClosestTo(target: nat, a: nat, b: nat): nat { if Delta(target, a) < Delta(target, b) then a else b }

  /** Sums and differences are those of unsigned 64-bit numbers. */
  function InferPacketNumber(length: nat, last: nat, wire: nat): nat
    requires length in {1, 2, 4, 6}
  {
    Infer(Epoch(length), last, wire)
  }

  function Infer(d: nat, last: nat, wire: nat): nat
    requires d > 0
  {
    InferFrom(d, last - last % d, last, wire)
  }

  /** `epoch` is where the epoch of the last packet begins. */
  function InferFrom(d: nat, epoch: nat, last: nat, wire: nat): nat {
    var previous, next := Wrap(epoch - d), Wrap(epoch + d);
    var target := Wrap(last + 1);
    ClosestTo(target, Wrap(epoch + wire), ClosestTo(target, Wrap(previous + wire), Wrap(next + wire)))
  }

  /** At least two bytes, and at most half an epoch to the least unacked packet. */
  function LengthForPublicHeader(number: nat, leastUnacked: nat): (length: nat)
    ensures length in {2, 4, 6}
  {
    var diff := Wrap(number - leastUnacked);
    if diff < 0x8000 then 2 else if diff < 0x8000_0000 then 4 else 6
  }

  /** No shorter one is left out: two bytes, unless half of their epoch does not cover the distance, and then
      four, unless half of theirs does not. */
  lemma {:induction false} LengthIsShortest(number: nat, leastUnacked: nat)
    requires leastUnacked <= number < 0x8000_0000_0000_0000
    ensures var n, distance := LengthForPublicHeader(number, leastUnacked), number - leastUnacked;
            && (n == 2 <==> distance * 2 < Epoch(2))
            && (n == 4 <==> Epoch(2) <= distance * 2 < Epoch(4))
            && (n == 6 <==> Epoch(4) <= distance * 2)
  {
    Small(number - leastUnacked);
  }

  // ----- recovery -----

  lemma {:induction false} Multiples(k: int, m: int, d: nat)
    requires d > 0 && -2 * d < k * d - m * d < 2 * d
    ensures -1 <= k - m <= 1
  {
    assert (k - m) * d == k * d - m * d;
    assert k - m >= 2 ==> (k - m - 2) * d >= 0;
    assert k - m <= -2 ==> (m - k - 2) * d >= 0;
  }

  lemma {:induction false} Divide(a: nat, d: nat) returns (q: nat)
    requires d > 0
    ensures a == q * d + a % d && a % d < d
  {
    q := a / d;
  }

  /** The number is in the epoch of the last one, or in a neighbouring one. */
  lemma {:induction false} Nearby(d: nat, last: nat, number: nat) returns (step: int)
    requires d > 0 && Delta(last + 1, number) * 2 < d
    ensures -1 <= step <= 1 && number == (last - last % d) + step * d + number % d
  {
    var k: int := Divide(number, d);
    var m: int := Divide(last, d);
    Multiples(k, m, d);
    step := k - m;
    Product(k, m, d);
  }

  lemma {:induction false} Product(k: int, m: int, d: int)
    ensures (k - m) * d == k * d - m * d
  {}

  /** A number less than half an epoch away from the one expected is recovered from what is sent of it,
      also in the first epoch, where the previous one wraps around. */
  lemma {:induction false} Recovers(d: nat, last: nat, number: nat)
    requires 0 < d <= 0x1_0000_0000_0000 && last < 0x8000_0000_0000_0000
    requires Delta(last + 1, number) * 2 < d
    ensures Infer(d, last, number % d) == number
  {
    hide InferFrom;
    var step := Nearby(d, last, number);
    var q := Divide(last, d);
    var _ := Divide(number, d);
    AtLeastOne(q, d);
    Chosen(d, last, last - last % d, number % d, number, step);
  }

  lemma {:induction false} AtLeastOne(q: nat, d: nat)
    ensures q * d == 0 || q * d >= d
  {
    assert q >= 1 ==> (q - 1) * d >= 0;
  }

  lemma {:induction false} Chosen(d: nat, last: nat, epoch: nat, wire: nat, number: nat, step: int)
    requires 0 < d <= 0x1_0000_0000_0000 && last < 0x8000_0000_0000_0000 && wire < d && epoch <= last < epoch + d
             && (epoch == 0 || epoch >= d)
    requires Delta(last + 1, number) * 2 < d && -1 <= step <= 1 && number == epoch + step * d + wire
    ensures InferFrom(d, epoch, last, wire) == number
  {
    hide Wrap, ClosestTo;
    Small(last + 1);
    Small(epoch + wire);
    Small(epoch + d);
    Small(epoch + d + wire);
    if epoch >= d {
      Small(epoch - d);
      Small(epoch - d + wire);
      Pick(d, last + 1, epoch - d + wire, epoch + wire, number, step);
    } else {
      Below(epoch - d);
      Small(UINT64 - d + wire);
      PickFirst(d, last + 1, UINT64 - d + wire, wire, number, step);
    }
  }

  lemma {:induction false} Pick(d: nat, target: nat, a: nat, b: nat, number: nat, step: int)
    requires a + d == b && Delta(target, number) * 2 < d && -1 <= step <= 1 && number == b + step * d
    ensures ClosestTo(target, b, ClosestTo(target, a, b + d)) == number
  {}

  lemma {:induction false} PickFirst(d: nat, target: nat, a: nat, b: nat, number: nat, step: int)
    requires b < d <= 0x1_0000_0000_0000 && a == UINT64 - d + b && 0 < target <= d
    requires Delta(target, number) * 2 < d && -1 <= step <= 1 && number == b + step * d
    ensures ClosestTo(target, b, ClosestTo(target, a, b + d)) == number
  {}

  lemma {:induction false} Small(a: nat)
    requires a < UINT64
    ensures Wrap(a) == a
  {}

  lemma {:induction false} Below(a: int)
    requires 0 <= a + UINT64 < UINT64
    ensures Wrap(a) == a + UINT64
  {}

  /** The length the sender picks is enough: with the packet's least unacked number at or below what the
      receiver expects next, and the receiver less than half an epoch ahead. */
  lemma {:induction false} NumberIsRecovered(number: nat, leastUnacked: nat, last: nat)
    requires number < 0x8000_0000_0000_0000 && last < 0x8000_0000_0000_0000
    requires leastUnacked <= last + 1 && (number as int) - leastUnacked < 0x8000_0000_0000
    requires var length := LengthForPublicHeader(number, leastUnacked); (last + 1 - number) * 2 < Epoch(length)
    ensures var length := LengthForPublicHeader(number, leastUnacked);
            InferPacketNumber(length, last, number % Epoch(length)) == number
  {
    if leastUnacked <= number { Small(number - leastUnacked); } else { Below(number - leastUnacked); }
    Recovers(Epoch(LengthForPublicHeader(number, leastUnacked)), last, number);
  }
}
