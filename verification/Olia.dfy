/** OLIA, the coupled congestion control: mpquic_trans/congestion/olia.go and olia_sender.go.  The class
    is in OliaSender.dfy.  Products and sums have the widths of the source; the back-off factor, single
    precision there, is a real number here. */
module Olia {
  const DEFAULT_TCP_MSS: nat := 1460
  const MAX_BURST_BYTES: nat := 3 * DEFAULT_TCP_MSS
  const MIN_WINDOW: nat := 2
  const SCALE: nat := 0x400
  const INT64: nat := 0x8000_0000_0000_0000
  const UINT64: nat := 0x1_0000_0000_0000_0000
  const RENO_BETA: real := 0.7

  function W64(x: int): nat { x % UINT64 }

  function Int64(x: int): int {
    var w := W64(x);
    if w < INT64 then w else w - UINT64
  }

  /** The bytes acked two losses ago, at the last loss, and now; the path's share; and the part of a
      packet that the window is about to grow or shrink by. */
  datatype Counters = Counters(loss1: nat, loss2: nat, loss3: nat, num: int, den: nat, count: int)

  const NO_COUNTS: Counters := Counters(0, 0, 0, 0, 1, 0)

  /** One path, with windows in packets. */
  datatype Sender = Sender(
    window: nat, threshold: nat, largestSent: nat, largestAcked: nat, largestSentAtCutback: nat,
    exitedSlowStart: bool, largeReduction: bool, packetsLost: nat, bytesLost: nat, connections: nat, olia: Counters)

  datatype Limits = Limits(initial: nat, max: nat)

  function Initial(c: Limits): Sender {
    Sender(c.initial, c.max, 0, 0, 0, false, false, 0, 0, 2, NO_COUNTS)
  }

  predicate InSlowStart(s: Sender) { s.window * DEFAULT_TCP_MSS < s.threshold * DEFAULT_TCP_MSS }

  predicate InRecovery(s: Sender) { s.largestAcked <= s.largestSentAtCutback && s.largestAcked != 0 }

  predicate IsCwndLimited(s: Sender, inFlight: nat) {
    var window := s.window * DEFAULT_TCP_MSS;
    inFlight >= window || (InSlowStart(s) && inFlight > window / 2) || window - inFlight <= MAX_BURST_BYTES
  }

  function Max(a: nat, b: nat): nat { if a < b then b else a }

  function Min(a: nat, b: nat): nat { if a < b then a else b }

  /** Unsigned differences; with the counters in order they are the distances between losses. */
  function SmoothedBytesBetweenLosses(o: Counters): nat { Max(W64(o.loss3 - o.loss2), W64(o.loss2 - o.loss1)) }

  // ----- acknowledgements -----

  /** What an ACK adds to the scaled count; `rate` comes from all paths. */
  function Increase(o: Counters, window: nat, rate: nat): int {
    var scaled := W64(window * SCALE);
    var square := W64(W64(o.den * scaled) * scaled);
    var den := W64(W64(o.den * window) * rate);
    var incDen := if den == 0 then 1 else den;
    if o.num == -1 then
      if square < rate then -Int64(W64((rate - square) * SCALE) / incDen)
      else Int64(W64((square - rate) * SCALE) / incDen)
    else Int64(W64(W64(W64(o.num) * rate + square) * SCALE) / incDen)
  }

  /** A full count moves the window by one packet. */
  function WindowForCount(window: nat, count: int): (nat, int) {
    if count >= SCALE - 1 then (window + 1, 0)
    else if count + SCALE <= 1 then (Max(1, W64(window - 1)), 0)
    else (window, count)
  }

  function WindowAfterAck(o: Counters, window: nat, rate: nat): (nat, int) {
    WindowForCount(window, Int64(o.count + Increase(o, window, rate)))
  }

  /** The share is one that `getEpsilon` hands out, and the products that an ACK computes all fit. */
  predicate NoOverflow(o: Counters, window: nat, rate: nat) {
    && window > 0 && rate > 0 && o.den > 0 && o.num in {-1, 0, 1}
    && o.den * window * rate < UINT64
    && (rate + o.den * (window * SCALE * (window * SCALE))) * SCALE < INT64
  }

  /** The increase that OLIA prescribes, scaled: the path's part of the rate of all paths, and its share.
      `rate` is the square of the scaled rate of all paths in terms of this one. */
  function Prescribed(o: Counters, window: nat, rate: nat): real
    requires window > 0 && rate > 0 && o.den > 0
  {
    var scaled := (window * SCALE) as real;
    SCALE as real * (scaled * scaled / (window as real * rate as real)
                     + (o.num as real / o.den as real) / window as real)
  }

  function Truncated(x: real): int { if x >= 0.0 then x.Floor else -(-x).Floor }

  /** The integer arithmetic computes the prescribed increase, rounded towards zero. */
  lemma {:induction false} IncreaseIsPrescribed(o: Counters, window: nat, rate: nat)
    requires NoOverflow(o, window, rate)
    ensures Increase(o, window, rate) == Truncated(Prescribed(o, window, rate))
  {
    hide W64, Int64, Increase, Prescribed;
    var square := o.den * (window * SCALE * (window * SCALE));
    var num, den := (o.num * rate + square) * SCALE, o.den * window * rate;
    Positive(o.den, window, rate);
    IncreaseIs(o, window, rate);
    PrescribedIs(o, window, rate);
    var x := Prescribed(o, window, rate);
    SignIs(x, den, num);
    if num >= 0 { FloorIs(num, den, x); } else { FloorIs(-num, den, -x); }
  }

  lemma {:induction false} Positive(a: nat, b: nat, c: nat)
    requires a > 0 && b > 0 && c > 0
    ensures a * b * c > 0
  {
    assert a * b > 0;
  }

  lemma {:induction false} SignIs(x: real, d: nat, n: int)
    requires d > 0 && x * d as real == n as real
    ensures x >= 0.0 <==> n >= 0
  {
    if x < 0.0 { assert x * d as real < 0.0; } else { assert x * d as real >= 0.0; }
  }

  lemma {:induction false} FloorIs(n: nat, d: nat, x: real)
    requires d > 0 && x * d as real == n as real
    ensures x.Floor == n / d
  {
    var q, r := n / d, n % d;
    assert n == q * d + r;
    assert n as real == q as real * d as real + r as real;
    Part(x - q as real, d as real, r as real);
  }

  lemma {:induction false} Part(y: real, d: real, r: real)
    requires d > 0.0 && 0.0 <= r < d && y * d == r
    ensures 0.0 <= y < 1.0
  {
    Sign(y, d, r);
    assert (1.0 - y) * d == d - r;
    Sign(1.0 - y, d, d - r);
  }

  lemma {:induction false} Sign(y: real, d: real, r: real)
    requires d > 0.0 && y * d == r
    ensures (r >= 0.0 ==> y >= 0.0) && (r > 0.0 ==> y > 0.0)
  {
    assert y == r / d;
  }

  lemma {:induction false} Small(n: int)
    requires 0 <= n < INT64
    ensures W64(n) == n == Int64(n)
  {}

  lemma {:induction false} Fits(n: int)
    requires 0 <= n < UINT64
    ensures W64(n) == n
  {}

  /** Without the wrap-around. */
  lemma {:induction false} IncreaseIs(o: Counters, window: nat, rate: nat)
    requires NoOverflow(o, window, rate)
    ensures var square := o.den * (window * SCALE * (window * SCALE));
            var num, den := (o.num * rate + square) * SCALE, o.den * window * rate;
            den > 0 && Increase(o, window, rate) == if num >= 0 then num / den else -(-num / den)
  {
    hide W64, Int64, NoOverflow;
    var square, den := o.den * (window * SCALE * (window * SCALE)), o.den * window * rate;
    ProductsFit(o, window, rate);
    var num := (o.num * rate + square) * SCALE;
    assert o.num == -1 ==> o.num * rate == 0 - rate;
    assert o.num == 1 ==> o.num * rate == rate;
    Quotient64(if num >= 0 then num else -num, den);
    if o.num >= 0 {
      Fits(o.num);
      Fits(o.num * rate + square);
    }
  }

  lemma {:induction false} Quotient64(n: nat, d: nat)
    requires n < INT64 && d > 0
    ensures W64(n) == n && Int64(n / d) == n / d
  {
    hide W64, Int64;
    Small(n);
    Smaller(n, d);
    Small(n / d);
  }

  /** No product of an ACK wraps around. */
  lemma {:induction false} ProductsFit(o: Counters, window: nat, rate: nat)
    requires NoOverflow(o, window, rate)
    ensures var scaled, den := window * SCALE, o.den * window * rate;
            && W64(scaled) == scaled && W64(W64(o.den * scaled) * scaled) == o.den * (scaled * scaled)
            && W64(W64(o.den * window) * rate) == den > 0
            && (rate + o.den * (scaled * scaled)) * SCALE < INT64
            && window > 0 && rate > 0 && o.den > 0 && o.num in {-1, 0, 1}
  {
    hide W64;
    var scaled, den := window * SCALE, o.den * window * rate;
    var square := o.den * (scaled * scaled);
    Positive(o.den, window, rate);
    Parts(o.den, scaled);
    Fits(scaled);
    Fits(o.den * scaled);
    Regroup(o.den, scaled);
    Fits(square);
    Parts(o.den * window, rate);
    Fits(o.den * window);
    Fits(den);
  }

  lemma {:induction false} Parts(a: nat, b: nat)
    requires b > 0
    ensures a <= a * b && (a > 0 ==> b <= a * b <= a * (b * b)) && a * b <= a * (b * b)
  {
    assert a * b - a == a * (b - 1);
    assert a * (b - 1) >= 0;
    assert a * (b * b) - a * b == a * b * (b - 1);
    assert a * b * (b - 1) >= 0;
    if a > 0 { assert (a - 1) * b >= 0; }
  }

  lemma {:induction false} Regroup(a: nat, b: nat)
    ensures a * b * b == a * (b * b)
  {}

  lemma {:induction false} Smaller(n: nat, d: nat)
    requires d > 0
    ensures 0 <= n / d <= n
  {
    AtMost(n, d, n / d, n % d);
  }

  lemma {:induction false} AtMost(n: nat, d: nat, q: nat, r: nat)
    requires d > 0 && n == q * d + r
    ensures q <= n
  {
    assert q * (d - 1) >= 0;
    assert q * d == q * (d - 1) + q;
  }

  lemma {:induction false} PrescribedIs(o: Counters, window: nat, rate: nat)
    requires window > 0 && rate > 0 && o.den > 0
    ensures var square := o.den * (window * SCALE * (window * SCALE));
            Prescribed(o, window, rate) * (o.den * window * rate) as real == ((o.num * rate + square) * SCALE) as real
  {
    var s, d, w, r, e := (window * SCALE) as real, o.den as real, window as real, rate as real, o.num as real;
    var all := d * w * r;
    Fraction(s * s, w * r, d);
    Fraction(e / d, w, d * r);
    Fraction(e, d, r);
    assert (s * s / (w * r)) * all == s * s * d;
    assert (e / d / w) * all == e * r;
    var k := SCALE as real;
    assert k * (s * s / (w * r) + e / d / w) * all == k * (s * s * d + e * r);
  }

  /** Multiplying a fraction by a multiple of its denominator. */
  lemma {:induction false} Fraction(a: real, b: real, c: real)
    requires b != 0.0
    ensures (a / b) * (b * c) == a * c
  {
    assert (a / b) * b == a;
    assert (a / b) * (b * c) == ((a / b) * b) * c;
  }

  /** An ACK moves the window by at most one packet, never to zero, and only when the count reaches a
      whole packet, which uses the count up. */
  lemma {:induction false} WindowMovesByOne(o: Counters, window: nat, rate: nat)
    requires 1 <= window < UINT64
    ensures var (w, count) := WindowAfterAck(o, window, rate);
            var reached := Int64(o.count + Increase(o, window, rate));
            && 1 <= w && window - 1 <= w <= window + 1
            && (w == window + 1 <==> reached >= SCALE - 1)
            && (w == window - 1 <==> reached <= 1 - SCALE && window > 1)
            && (w != window ==> count == 0)
            && (1 - SCALE < reached < SCALE - 1 ==> w == window && count == reached)
            && 1 - SCALE < count < SCALE - 1
  {
    hide Increase, Int64;
    Fits(window - 1);
  }

  /** `num` and `den` are the path's share as computed for all paths; a path that is not limited by its
      window, or has reached the maximum, does not compute it. */
  function AfterAcked(c: Limits, s: Sender, number: nat, bytes: nat, inFlight: nat, num: int, den: nat,
                      rate: nat): Sender {
    var s1 := s.(largestAcked := Max(number, s.largestAcked));
    if InRecovery(s1) then s1
    else
      var s2 := s1.(olia := s1.olia.(loss3 := s1.olia.loss3 + bytes));
      if !IsCwndLimited(s2, inFlight) || s2.window >= c.max then s2
      else if InSlowStart(s2) then s2.(window := s2.window + 1)
      else
        var o := s2.olia.(num := num, den := den);
        var (window, count) := WindowAfterAck(o, s2.window, rate);
        s2.(window := Min(c.max, window), olia := o.(count := count))
  }

  // ----- losses and timeouts -----

  function RenoBeta(connections: nat): real
    requires connections > 0
  {
    (connections as real - 1.0 + RENO_BETA) / connections as real
  }

  function Backoff(window: nat, connections: nat): (w: int)
    requires connections > 0
  {
    (window as real * RenoBeta(connections)).Floor
  }

  function AfterLost(s: Sender, number: nat, bytes: nat): Sender
    requires s.connections > 0
  {
    if number <= s.largestSentAtCutback then
      if !s.exitedSlowStart then s
      else
        var s1 := s.(packetsLost := s.packetsLost + 1, bytesLost := s.bytesLost + bytes);
        if !s.largeReduction then s1
        else
          var reduce := s1.packetsLost == 1 || s1.bytesLost / DEFAULT_TCP_MSS > s.bytesLost / DEFAULT_TCP_MSS;
          var window := if reduce then Max(W64(s.window - 1), MIN_WINDOW) else s.window;
          s1.(window := window, threshold := window)
    else
      var slow := InSlowStart(s);
      var reduced: int := if s.largeReduction && slow then W64(s.window - 1) else Backoff(s.window, s.connections);
      var window := if reduced < MIN_WINDOW then MIN_WINDOW else reduced;
      s.(exitedSlowStart := slow, packetsLost := if slow then s.packetsLost + 1 else s.packetsLost,
         olia := s.olia.(loss1 := s.olia.loss2, loss2 := s.olia.loss3), window := window, threshold := window,
             largestSentAtCutback := s.largestSent)
  }

  function AfterTimeout(s: Sender, packetsRetransmitted: bool): Sender {
    var s1 := s.(largestSentAtCutback := 0);
    if !packetsRetransmitted then s1
    else s1.(olia := NO_COUNTS,
             threshold := s.window / 2, window := MIN_WINDOW)
  }

  function AfterMigration(c: Limits, s: Sender): Sender {
    s.(largestSent := 0, largestAcked := 0, largestSentAtCutback := 0, exitedSlowStart := false,
       olia := NO_COUNTS, window := c.initial, threshold := c.max)
  }

  // ----- runs -----

  datatype Action =
    | Sent(number: nat)
    | Acked(number: nat, bytes: nat, inFlight: nat, num: int, den: nat, rate: nat)
    | Lost(number: nat, bytes: nat)
    | Timeout(packetsRetransmitted: bool)
    | Migration
    | ExitSlowStart
    | Share(num: int, den: nat)
    | LargeReduction(enabled: bool)
    | EmulateConnections(n: nat)

  ghost predicate Inv(c: Limits, s: Sender) {
    1 <= s.window <= c.max && s.olia.loss1 <= s.olia.loss2 <= s.olia.loss3 && s.connections > 0
  }

  function Act(c: Limits, s: Sender, a: Action): Sender
    requires s.connections > 0
  {
    match a
    case Sent(n) => s.(largestSent := n)
    case Acked(n, bytes, inFlight, num, den, rate) => AfterAcked(c, s, n, bytes, inFlight, num, den, rate)
    case Lost(n, bytes) => AfterLost(s, n, bytes)
    case Timeout(retransmitted) => AfterTimeout(s, retransmitted)
    case Migration => AfterMigration(c, s)
    case ExitSlowStart => s.(threshold := s.window)
    case Share(num, den) => s.(olia := s.olia.(num := num, den := den))
    case LargeReduction(enabled) => s.(largeReduction := enabled)
    case EmulateConnections(n) => s.(connections := Max(n, 1))
  }

  lemma {:induction false} BackoffShrinks(window: nat, n: nat)
    requires n > 0
    ensures Backoff(window, n) <= window
  {
    var b := RenoBeta(n);
    assert b <= 1.0 by { Quotient(n as real - 1.0 + RENO_BETA, n as real); }
    assert window as real * b <= window as real by { Scaled(window as real, b); }
  }

  /** Nor does it in single precision: for any rounding that keeps the order of numbers, and the window
      as it is, which holds below 2^24, and any factor up to one. */
  lemma {:induction false} RoundedBackoffShrinks(window: nat, beta: real, round: real -> real)
    requires 0.0 <= beta <= 1.0 && round(window as real) == window as real
    requires KeepsOrder(round)
    ensures round(round(window as real) * beta).Floor <= window
  {
    Scaled(window as real, beta);
    InOrder(round, window as real * beta, window as real);
  }

  ghost predicate KeepsOrder(round: real -> real) { forall x: real, y: real :: x <= y ==> round(x) <= round(y) }

  lemma {:induction false} InOrder(round: real -> real, x: real, y: real)
    requires KeepsOrder(round) && x <= y
    ensures round(x) <= round(y)
  {}

  lemma {:induction false} Quotient(a: real, b: real)
    requires b > 0.0 && a <= b
    ensures a / b <= 1.0
  {}

  lemma {:induction false} Scaled(a: real, b: real)
    requires a >= 0.0 && b <= 1.0
    ensures a * b <= a
  {
    assert a * (1.0 - b) >= 0.0;
  }

  lemma {:induction false} Previous(w: nat, max: nat)
    requires 1 <= w <= max < UINT64
    ensures W64(w - 1) == w - 1
  {}

  lemma {:induction false} ActKeepsInv(c: Limits, s: Sender, a: Action)
    requires 1 <= c.initial <= c.max && MIN_WINDOW <= c.max < UINT64 && Inv(c, s)
    ensures Inv(c, Act(c, s, a))
  {
    hide Increase, Backoff, W64, Int64;
    Previous(s.window, c.max);
    if a.Lost? { BackoffShrinks(s.window, s.connections); }
  }

  ghost function Run(c: Limits, actions: seq<Action>): (s: Sender)
    requires 1 <= c.initial <= c.max && MIN_WINDOW <= c.max < UINT64
    ensures Inv(c, s)
  {
    if actions == [] then Initial(c)
    else
      ActKeepsInv(c, Run(c, actions[..|actions| - 1]), actions[|actions| - 1]);
      Act(c, Run(c, actions[..|actions| - 1]), actions[|actions| - 1])
  }

  /** In every run the window stays between one packet and the maximum, whatever the shares and rates,
      and the loss counters stay in order, so that their differences never wrap around. */
  lemma {:induction false} WindowStaysInBounds(c: Limits, actions: seq<Action>)
    requires 1 <= c.initial <= c.max && MIN_WINDOW <= c.max < UINT64
    ensures var s := Run(c, actions);
            && 1 <= s.window <= c.max && s.olia.loss1 <= s.olia.loss2 <= s.olia.loss3
            && (s.olia.loss3 < UINT64 ==>
                  SmoothedBytesBetweenLosses(s.olia) == Max(s.olia.loss3 - s.olia.loss2, s.olia.loss2 - s.olia.loss1))
  {
    hide Act, Initial;
    var s := Run(c, actions);
    assert Inv(c, s);
  }
}
