/** When and by how much OLIA moves a path's window, in numbers: mpquic_trans/congestion/olia_sender.go. */
module OliaRules {
  import opened Olia
  import opened OliaCoupling

  // ----- losses -----

  /** The back-off factor of `n` emulated connections is (n - 0.3) / n, which is 0.85 for the two that are
      emulated by default. */
  lemma {:induction false} BackoffIs(window: nat, n: nat)
    requires n > 0
    ensures Backoff(window, n) == window * (10 * n - 3) / (10 * n)
  {
    var x := window as real * RenoBeta(n);
    var num, den := window * (10 * n - 3), 10 * n;
    var a, b := (10 * n - 3) as real, den as real;
    assert RenoBeta(n) * b == a by {
      var top := n as real - 1.0 + RENO_BETA;
      assert top / (n as real) * (n as real) == top;
      assert RenoBeta(n) * (n as real) * 10.0 == top * 10.0;
    }
    assert x * b == num as real by {
      assert x * b == window as real * (RenoBeta(n) * b);
      assert window as real * a == num as real;
    }
    FloorOf(num, den, x);
  }

  lemma {:induction false} FloorOf(num: nat, den: nat, x: real)
    requires den > 0 && x * den as real == num as real
    ensures x.Floor == num / den
  {
    var q, r := num / den, num % den;
    assert num == q * den + r;
    assert x * den as real == q as real * den as real + r as real;
    assert (x - q as real) * den as real == r as real;
    Between(x - q as real, den as real, r as real);
  }

  lemma {:induction false} Between(y: real, d: real, r: real)
    requires d > 0.0 && y * d == r && 0.0 <= r < d
    ensures 0.0 <= y < 1.0
  {
    if y < 0.0 { Negative(y, d); }
    if y >= 1.0 { AtLeast(y, d); }
  }

  lemma {:induction false} Negative(y: real, d: real)
    requires y < 0.0 && d > 0.0
    ensures y * d < 0.0
  {}

  lemma {:induction false} AtLeast(y: real, d: real)
    requires y >= 1.0 && d > 0.0
    ensures y * d >= d
  {
    assert (y - 1.0) * d >= 0.0;
  }

  /** A loss of a packet sent after the last back-off backs off: the window shrinks to its back-off value,
      or in slow start with large reductions by one, but not below two packets, slow start ends there, and
      a new interval between losses begins. */
  lemma {:induction false} LossBacksOff(s: Sender, number: nat, bytes: nat)
    requires s.connections > 0 && number > s.largestSentAtCutback && 1 <= s.window < UINT64
    ensures var t, n := AfterLost(s, number, bytes), s.connections;
            var w := if s.largeReduction && s.window < s.threshold then s.window - 1
                     else s.window * (10 * n - 3) / (10 * n);
            && t.window == t.threshold == (if w < 2 then 2 else w)
            && t.largestSentAtCutback == s.largestSent
            && t.exitedSlowStart == (s.window < s.threshold) && !InSlowStart(t)
            && t.olia == s.olia.(loss1 := s.olia.loss2, loss2 := s.olia.loss3)
  {
    hide Backoff;
    BackoffIs(s.window, s.connections);
    assert W64(s.window - 1) == s.window - 1;
  }

  /** Any other loss belongs to the same event.  It leaves the window alone, unless large reductions are
      enabled and the back-off came in slow start; then the first one, and each that completes another
      segment of lost bytes, takes one packet off, down to two. */
  lemma {:induction false} LossIsKnown(s: Sender, number: nat, bytes: nat)
    requires s.connections > 0 && number <= s.largestSentAtCutback && 1 <= s.window < UINT64
    ensures var t := AfterLost(s, number, bytes);
            && t.largestSentAtCutback == s.largestSentAtCutback && t.largestSent == s.largestSent
            && t.olia == s.olia && t.exitedSlowStart == s.exitedSlowStart && t.largeReduction == s.largeReduction
            && t.connections == s.connections
            && (!s.largeReduction || !s.exitedSlowStart ==> t.window == s.window && t.threshold == s.threshold)
            && (s.exitedSlowStart ==> t.packetsLost == s.packetsLost + 1 && t.bytesLost == s.bytesLost + bytes)
            && (s.largeReduction && s.exitedSlowStart ==>
                  && t.window == t.threshold
                  && t.window == if s.packetsLost == 0 || (s.bytesLost + bytes) / 1460 > s.bytesLost / 1460
                                 then Max(s.window - 1, 2) else s.window)
  {
    assert W64(s.window - 1) == s.window - 1;
  }

  ghost function Acts(c: Limits, s: Sender, actions: seq<Action>): Sender
    requires s.connections > 0
    decreases |actions|
  {
    if actions == [] then s else Acts(c, ActOk(c, s, actions[0]), actions[1..])
  }

  ghost function ActOk(c: Limits, s: Sender, a: Action): (t: Sender)
    requires s.connections > 0
    ensures t.connections > 0
  {
    Act(c, s, a)
  }

  /** Losses of packets sent up to the last back-off, and packets that are sent. */
  ghost predicate OfOneEvent(last: nat, actions: seq<Action>) {
    forall i :: 0 <= i < |actions| ==> actions[i].Sent? || (actions[i].Lost? && actions[i].number <= last)
  }

  /** Once per window: of all losses of packets that were sent before a back-off, in whatever order and
      number, only the first one backs off. */
  lemma {:induction false} BacksOffOnce(c: Limits, s: Sender, number: nat, bytes: nat, more: seq<Action>)
    requires s.connections > 0 && number > s.largestSentAtCutback && 1 <= s.window < UINT64 && !s.largeReduction
    requires OfOneEvent(s.largestSent, more)
    ensures var t := AfterLost(s, number, bytes);
            && t.connections > 0
            && Acts(c, t, more).window == t.window && Acts(c, t, more).threshold == t.threshold
  {
    hide Backoff;
    LossBacksOff(s, number, bytes);
    var t := AfterLost(s, number, bytes);
    BackoffShrinks(s.window, s.connections);
    SameEvent(c, t, more);
  }

  lemma {:induction false} SameEvent(c: Limits, t: Sender, more: seq<Action>)
    requires t.connections > 0 && !t.largeReduction && 1 <= t.window < UINT64
    requires OfOneEvent(t.largestSentAtCutback, more)
    ensures Acts(c, t, more).window == t.window && Acts(c, t, more).threshold == t.threshold
    decreases |more|
  {
    hide AfterLost, AfterAcked;
    if more != [] {
      var a := more[0];
      if a.Lost? { LossIsKnown(t, a.number, a.bytes); }
      SameEvent(c, ActOk(c, t, a), more[1..]);
    }
  }

  // ----- acknowledgements -----

  /** What an acknowledgement does: nothing to the window while the losses of a back-off are being repaired,
      while the path does not use up its window, or at the maximum; one packet more in slow start; and
      at most one packet otherwise. */
  lemma {:induction false} AckMoves(c: Limits, s: Sender, number: nat, bytes: nat, inFlight: nat, num: int, den: nat,
                                    rate: nat)
    requires 1 <= s.window < UINT64
    ensures var t := AfterAcked(c, s, number, bytes, inFlight, num, den, rate);
            var largest := if number > s.largestAcked then number else s.largestAcked;
            var repairing := 0 < largest <= s.largestSentAtCutback;
            var full := s.window * 1460;
            var limited := inFlight >= full || full - inFlight <= 3 * 1460
                           || (s.window < s.threshold && inFlight > full / 2);
            && t.largestAcked == largest && t.threshold == s.threshold
            && t.olia.loss3 == s.olia.loss3 + (if repairing then 0 else bytes)
            && t.olia.loss1 == s.olia.loss1 && t.olia.loss2 == s.olia.loss2
            && (repairing || !limited || s.window >= c.max ==> t.window == s.window && t.olia.count == s.olia.count)
            && (!repairing && limited && s.window < c.max ==>
                  if s.window < s.threshold then t.window == s.window + 1
                  else
                    && s.window - 1 <= t.window <= s.window + 1 && t.window <= c.max
                    && t.olia.num == num && t.olia.den == den)
  {
    hide Increase, Int64;
    var o := s.olia.(loss3 := s.olia.loss3 + bytes, num := num, den := den);
    WindowMovesByOne(o, s.window, rate);
  }

  /** A timeout that retransmits starts over with two packets and half the window as threshold; either kind
      ends the repair of the last losses. */
  lemma {:induction false} TimeoutStartsOver(s: Sender, retransmitted: bool)
    ensures var t := AfterTimeout(s, retransmitted);
            && t.largestSentAtCutback == 0 && !InRecovery(t)
            && (retransmitted ==> t.window == 2 && t.threshold == s.window / 2 && t.olia == NO_COUNTS)
            && (!retransmitted ==> t == s.(largestSentAtCutback := 0))
  {}

  // ----- who gives and who takes -----

  /** A path gains exactly if it is best and has less than the largest window, and a path loses exactly if it
      has the largest window and some path gains. */
  lemma {:induction false} WhoGains(paths: Paths, max: nat, b: Best, eps: map<nat, Epsilon>, i: nat)
    requires IsMax(paths, max) && Shares(paths, max, b, eps) && i in paths
    ensures i in eps && eps[i].den > 0
    ensures eps[i].num > 0 <==> paths[i].window < max && IsBest(paths[i], b)
    ensures eps[i].num < 0 <==>
              paths[i].window == max && exists k :: k in paths && paths[k].window < max && IsBest(paths[k], b)
    ensures -1 <= eps[i].num <= 1
  {
    hide IsBest;
    var m, k := InM(paths, max), InBNotM(paths, max, b);
    if j :| j in k { NotEmpty(k, j); }
    if paths[i].window == max {
      assert i in m;
      NotEmpty(m, i);
    } else if IsBest(paths[i], b) {
      assert i in k;
    }
    NotEmpty(paths.Keys, i);
    forall j | j in paths && paths[j].window < max && IsBest(paths[j], b) ensures j in k {}
    Products(|paths|, |m|, |k|);
  }

  lemma {:induction false} Products(n: nat, m: nat, k: nat)
    requires n > 0
    ensures (m > 0 ==> n * m > 0) && (k > 0 ==> n * k > 0)
  {}

  /** The rate for paths with equal round-trip times: up to one, the scaled sum of all windows, squared. */
  lemma {:induction false} RateIsSumOfWindows(windows: map<nat, nat>, rtt: nat)
    requires 0 < rtt && forall i :: i in windows ==> windows[i] * SCALE * rtt < UINT64
    requires var sum := 1 + SCALE * TermsBelow(windows, windows.Keys, PATH_IDS); sum * sum < UINT64
    ensures var sum := 1 + SCALE * TermsBelow(windows, windows.Keys, PATH_IDS);
            Rate(map i | i in windows :: RateTerm(windows[i], rtt, rtt)) == sum * sum
  {
    hide W64, RateTerm, TermsBelow;
    var terms := map i | i in windows :: RateTerm(windows[i], rtt, rtt);
    assert terms.Keys == windows.Keys;
    forall i | i in windows ensures terms[i] == SCALE * windows[i] { OneWindow(windows[i], rtt); }
    ScaledTerms(windows, terms, windows.Keys, PATH_IDS);
    Squared(1 + SCALE * TermsBelow(windows, windows.Keys, PATH_IDS));
  }

  lemma {:induction false} Squared(sum: nat)
    requires sum > 0 && sum * sum < UINT64
    ensures W64(W64(sum) * W64(sum)) == sum * sum
  {
    AtMostProduct(sum, sum);
    assert W64(sum) == sum;
  }

  /** What a path adds to the rate: its scaled window times the ratio of the round-trip times, rounded down, and
      nothing if its own is not known. */
  lemma {:induction false} RateTermIs(window: nat, rtt: nat, own: nat)
    requires rtt < UINT64 && own < UINT64 && window * SCALE < UINT64 && window * SCALE * own < UINT64
    ensures var t := RateTerm(window, rtt, own);
            if rtt == 0 then t == 0 else t * rtt <= window * SCALE * own < (t + 1) * rtt
  {
    var n := window * SCALE * own;
    assert W64(rtt) == rtt && W64(own) == own && W64(window * SCALE) == window * SCALE && W64(n) == n;
    if rtt > 0 { DivisionIs(n, rtt); }
  }

  lemma {:induction false} DivisionIs(n: nat, d: nat)
    requires d > 0
    ensures (n / d) * d <= n < (n / d + 1) * d
  {
    var q, r := n / d, n % d;
    assert n == d * q + r;
    assert (q + 1) * d == q * d + d;
  }

  lemma {:induction false} OneWindow(window: nat, rtt: nat)
    requires 0 < rtt && window * SCALE * rtt < UINT64
    ensures RateTerm(window, rtt, rtt) == SCALE * window
  {
    var x := window * SCALE;
    if x > 0 { AtMostProduct(rtt, x); } else { assert W64(0) == 0; }
    if x > 0 { AtMostProduct(x, rtt); }
    if window > 0 {
      assert W64(rtt) == rtt && W64(x) == x && W64(x * rtt) == x * rtt;
      DivideAgain(x, rtt);
    } else {
      assert W64(x) == 0;
      NothingOver(W64(rtt));
    }
  }

  lemma {:induction false} AtMostProduct(a: nat, b: nat)
    requires b > 0
    ensures a <= a * b
  {
    assert a * (b - 1) >= 0;
  }

  lemma {:induction false} DivideAgain(a: nat, b: nat)
    requires b > 0
    ensures a * b / b == a
  {
    var q, r := a * b / b, a * b % b;
    assert a * b == b * q + r;
    assert (a - q) * b == r;
    Nothing(a - q, b, r);
  }

  lemma {:induction false} Nothing(d: int, b: nat, r: nat)
    requires d * b == r < b
    ensures d == 0
  {
    if d >= 1 { AtMostProduct(b, d); }
    if d <= -1 { AtMostProduct(b, -d); }
  }

  lemma {:induction false} NothingOver(b: nat)
    ensures W64(0 * b) == 0 && (b > 0 ==> 0 / b == 0)
  {}

  lemma {:induction false} ScaledTerms(windows: map<nat, nat>, terms: map<nat, nat>, s: set<nat>, n: nat)
    requires terms.Keys == windows.Keys && forall i :: i in windows ==> terms[i] == SCALE * windows[i]
    ensures TermsBelow(terms, s, n) == SCALE * TermsBelow(windows, s, n)
  {
    if n > 0 { ScaledTerms(windows, terms, s, n - 1); }
  }
}
