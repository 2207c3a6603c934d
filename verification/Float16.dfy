/** The 16-bit floating point format of ACK delays: mpquic_trans/internal/utils/float16.go. */
module Float16 {
  const MAX_VALUE: nat := 0x3FFC000_0000

  function Pow2(n: nat): (p: nat)
    ensures p > 0
  {
    if n == 0 then 1 else 2 * Pow2(n - 1)
  }

  /** `w` as read from the wire: five bits of exponent, eleven of mantissa. */
  function ReadUfloat16(w: nat): (v: nat)
    requires w < 0x1_0000
  {
    if w < 0x1000 then w
    else
      var exponent := w / 0x800 - 1;
      (w - exponent * 0x800) * Pow2(exponent)
  }

  /** `m`, with its highest bit at position 11, is `value` shifted right by `e`. */
  ghost predicate Normalised(value: nat, m: nat, e: nat) {
    0x800 <= m < 0x1000 && m * Pow2(e) <= value < (m + 1) * Pow2(e)
  }

  lemma {:induction false} PowSum(a: nat, b: nat)
    ensures Pow2(a + b) == Pow2(a) * Pow2(b)
    decreases b
  {
    if b > 0 { PowSum(a, b - 1); }
  }

  lemma {:induction false} SmallPowers()
    ensures Pow2(1) == 2 && Pow2(2) == 4 && Pow2(4) == 16 && Pow2(8) == 256 && Pow2(16) == 0x1_0000
    ensures Pow2(30) == 0x4000_0000 && Pow2(31) == 0x8000_0000
  {
    assert Pow2(4) == 2 * (2 * (2 * (2 * Pow2(0))));
    PowSum(4, 4);
    PowSum(8, 8);
    PowSum(16, 8);
    PowSum(24, 4);
    PowSum(28, 2);
  }

  lemma {:induction false} ShiftStep(v0: nat, value: nat, p: nat, q: nat)
    requires p > 0 && q > 0 && value * p <= v0 < (value + 1) * p
    ensures (value / q) * (p * q) <= v0 < (value / q + 1) * (p * q)
  {
    var w := value / q;
    assert w * q <= value < (w + 1) * q by { assert value == w * q + value % q; }
    assert (w * q) * p <= value * p;
    assert (value + 1) * p <= ((w + 1) * q) * p;
    assert (w * q) * p == w * (p * q) && ((w + 1) * q) * p == (w + 1) * (p * q);
  }

  /** The shifting loop of `writeUfloat16`, for values with a bit above position 11. */
  method Normalise(v0: nat) returns (value: nat, exponent: nat)
    requires 0x1000 <= v0 < MAX_VALUE
    ensures Normalised(v0, value, exponent) && 1 <= exponent <= 30
  {
    SmallPowers();
    value, exponent := v0, 0;
    var offset := 16;
    assert value * Pow2(0) <= v0 < (value + 1) * Pow2(0);
    while offset > 0
      invariant offset in {0, 1, 2, 4, 8, 16}
      invariant value * Pow2(exponent) <= v0 < (value + 1) * Pow2(exponent)
      invariant 0x800 <= value < 0x800 * (if offset == 0 then 2 else Pow2(offset) * Pow2(offset))
      invariant exponent + 2 * offset <= 32 && (offset == 0 ==> exponent <= 31)
      decreases offset
    {
      if value >= 0x800 * Pow2(offset) {
        ShiftStep(v0, value, Pow2(exponent), Pow2(offset));
        PowSum(exponent, offset);
        value := Shifted(value, offset);
        exponent := exponent + offset;
      }
      HalveOffset(offset);
      offset := offset / 2;
    }
    ExponentBounds(v0, value, exponent);
  }

  method Shifted(value: nat, offset: nat) returns (w: nat)
    requires offset in {1, 2, 4, 8, 16} && 0x800 * Pow2(offset) <= value < 0x800 * (Pow2(offset) * Pow2(offset))
    ensures w == value / Pow2(offset) && 0x800 <= w < 0x800 * Pow2(offset)
  {
    SmallPowers();
    w := value / Pow2(offset);
  }

  lemma {:induction false} HalveOffset(offset: nat)
    requires offset in {1, 2, 4, 8, 16}
    ensures if offset == 1 then Pow2(1) == 2 else Pow2(offset / 2) * Pow2(offset / 2) == Pow2(offset)
  {
    SmallPowers();
  }

  lemma {:induction false} ExponentBounds(v0: nat, m: nat, e: nat)
    requires Normalised(v0, m, e) && e <= 31 && 0x1000 <= v0 < MAX_VALUE
    ensures 1 <= e <= 30
  {
    SmallPowers();
  }

  /** How often a value has to be halved until it fits in twelve bits, and what is left then. */
  function Shift(v: nat): nat { if v < 0x1000 then 0 else 1 + Shift(v / 2) }
  function Mantissa(v: nat): nat { if v < 0x1000 then v else Mantissa(v / 2) }

  function Ufloat16(v: nat): (w: nat) {
    if v < 0x1000 then v else if v >= MAX_VALUE then 0xFFFF else Mantissa(v) + Shift(v) * 0x800
  }

  lemma {:induction false} ShiftNormalises(v: nat)
    requires v >= 0x1000
    ensures Normalised(v, Mantissa(v), Shift(v)) && Shift(v) > 0
  {
    if v / 2 < 0x1000 {
      assert Pow2(1) == 2;
    } else {
      ShiftNormalises(v / 2);
      var m, p := Mantissa(v), Pow2(Shift(v) - 1);
      assert m * (2 * p) == 2 * (m * p) && (m + 1) * (2 * p) == 2 * ((m + 1) * p);
    }
  }

  lemma {:induction false} NormalFormIsUnique(v: nat, m: nat, e: nat, m': nat, e': nat)
    requires Normalised(v, m, e) && Normalised(v, m', e') && e <= e'
    ensures m == m' && e == e'
  {
    var p := Pow2(e);
    MulMono(m + 1, 0x1000, p);
    if e < e' { LargerShift(v, m', e', e); }
    if m < m' { MulMono(m + 1, m', p); }
    if m' < m { MulMono(m' + 1, m, p); }
  }

  lemma {:induction false} LargerShift(v: nat, m: nat, e: nat, d: nat)
    requires Normalised(v, m, e) && d < e
    ensures v >= 0x1000 * Pow2(d)
  {
    var p, t := Pow2(d), Pow2(e);
    assert 2 * p <= t by {
      PowSum(d, e - d);
      MulMono(2, Pow2(e - d), p);
    }
    MulMono(0x800, m, t);
  }

  lemma {:induction false} MulMono(a: nat, b: nat, c: nat)
    requires a <= b
    ensures a * c <= b * c
  {}

  /** `writeUfloat16`, up to the byte order of the two bytes. */
  method WriteUfloat16(v0: nat) returns (w: nat)
    ensures w == Ufloat16(v0) < 0x1_0000
  {
    if v0 < 0x1000 {
      w := v0;
    } else if v0 >= MAX_VALUE {
      w := 0xFFFF;
    } else {
      var value, exponent := Normalise(v0);
      w := value + exponent * 0x800;
      IsUfloat16(v0, value, exponent);
    }
  }

  lemma {:induction false} IsUfloat16(v: nat, m: nat, e: nat)
    requires 0x1000 <= v < MAX_VALUE && Normalised(v, m, e)
    ensures Ufloat16(v) == m + e * 0x800
  {
    ShiftNormalises(v);
    var m', e' := Mantissa(v), Shift(v);
    if e <= e' { NormalFormIsUnique(v, m, e, m', e'); } else { NormalFormIsUnique(v, m', e', m, e); }
  }

  /** Reading back rounds down by less than one part in 2^11, or clamps at the maximum. */
  lemma {:induction false} RoundTrip(v: nat)
    ensures Ufloat16(v) < 0x1_0000
    ensures var r := ReadUfloat16(Ufloat16(v));
            if v >= MAX_VALUE then r == MAX_VALUE else r <= v && (v > 0 ==> (v - r) * 0x800 < v)
  {
    if v >= MAX_VALUE {
      SmallPowers();
    } else if v >= 0x1000 {
      ShiftNormalises(v);
      ShiftBound(v);
      var m, e := Mantissa(v), Shift(v);
      ReadNormalised(m, e);
      RoundingError(v, m, Pow2(e));
    }
  }

  lemma {:induction false} ReadNormalised(m: nat, e: nat)
    requires 0x800 <= m < 0x1000 && 1 <= e <= 30
    ensures m + e * 0x800 < 0x1_0000 && ReadUfloat16(m + e * 0x800) == m * Pow2(e)
  {
    hide Pow2;
    TopBits(m, e);
  }

  lemma {:induction false} TopBits(m: nat, e: nat)
    requires 0x800 <= m < 0x1000
    ensures (m + e * 0x800) / 0x800 == e + 1
  {}

  lemma {:induction false} RoundingError(v: nat, m: nat, p: nat)
    requires m * p <= v < (m + 1) * p && 0x800 <= m
    ensures (v - m * p) * 0x800 < v
  {
    var t := m * p;
    assert (m + 1) * p == t + p;
    assert 0x800 * p <= t by { MulMono(0x800, m, p); }
  }

  lemma {:induction false} ShiftBound(v: nat)
    requires 0x1000 <= v < MAX_VALUE
    ensures Shift(v) <= 30
  {
    ShiftNormalises(v);
    SmallPowers();
    if Shift(v) > 30 { LargerShift(v, Mantissa(v), Shift(v), 30); }
  }
}
