/** The class of mpquic_trans/congestion/olia_sender.go, with the counters of olia.go, proved to do what
    Olia and OliaCoupling say. */
module OliaSenders {
  import opened O = Olia
  import opened OliaCoupling

  class Olia {
    const id: nat
    var loss1: nat
    var loss2: nat
    var loss3: nat
    var epsilonNum: int
    var epsilonDen: nat
    var sndCwndCnt: int

    function Value(): Counters
      reads this
    {
      Counters(loss1, loss2, loss3, epsilonNum, epsilonDen, sndCwndCnt)
    }

    constructor (id: nat)
      ensures this.id == id && Value() == NO_COUNTS
    {
      this.id := id;
      loss1, loss2, loss3, epsilonNum, epsilonDen, sndCwndCnt := 0, 0, 0, 0, 1, 0;
    }

    method Reset()
      modifies this
      ensures Value() == NO_COUNTS
    {
      loss1, loss2, loss3 := 0, 0, 0;
      epsilonNum, epsilonDen, sndCwndCnt := 0, 1, 0;
    }

    method UpdateAckedSinceLastLoss(bytes: nat)
      modifies this
      ensures Value() == old(Value()).(loss3 := old(loss3) + bytes)
    {
      loss3 := loss3 + bytes;
    }

    method OnPacketLost()
      modifies this
      ensures Value() == old(Value()).(loss1 := old(loss2), loss2 := old(loss3))
    {
      loss1 := loss2;
      loss2 := loss3;
    }

    method SetEpsilon(e: Epsilon)
      modifies this`epsilonNum, this`epsilonDen
      ensures Value() == old(Value()).(num := e.num, den := e.den)
    {
      epsilonNum, epsilonDen := e.num, e.den;
    }

    /** The window after an acknowledged packet, in congestion avoidance. */
    method CongestionWindowAfterAck(current: nat, rate: nat, cwndScaled: nat) returns (window: nat)
      requires cwndScaled == W64(current * SCALE)
      modifies this`sndCwndCnt
      ensures (window, sndCwndCnt) == WindowAfterAck(old(Value()), current, rate)
      ensures NoOverflow(old(Value()), current, rate) ==>
                (window, sndCwndCnt) ==
                WindowForCount(current, Int64(old(sndCwndCnt) + Truncated(Prescribed(old(Value()), current, rate))))
      ensures 1 <= current < UINT64 ==>
                && 1 <= window && current - 1 <= window <= current + 1 && (window != current ==> sndCwndCnt == 0)
                && 1 - SCALE < sndCwndCnt < SCALE - 1
    {
      hide W64, Int64, NoOverflow, Prescribed, Truncated;
      if NoOverflow(Value(), current, rate) { IncreaseIsPrescribed(Value(), current, rate); }
      if 1 <= current < UINT64 { WindowMovesByOne(Value(), current, rate); }
      window := current;
      var incDen := W64(W64(epsilonDen * current) * rate);
      if incDen == 0 { incDen := 1; }
      var square := W64(W64(epsilonDen * cwndScaled) * cwndScaled);
      if epsilonNum == -1 {
        if square < rate {
          sndCwndCnt := Int64(sndCwndCnt - Int64(W64((rate - square) * SCALE) / incDen));
        } else {
          sndCwndCnt := Int64(sndCwndCnt + Int64(W64((square - rate) * SCALE) / incDen));
        }
      } else {
        var incNum := W64(W64(epsilonNum) * rate + square);
        sndCwndCnt := Int64(sndCwndCnt + Int64(W64(incNum * SCALE) / incDen));
      }
      if sndCwndCnt >= SCALE - 1 {
        window := window + 1;
        sndCwndCnt := 0;
      } else if sndCwndCnt + SCALE <= 1 {
        window := Max(1, W64(current - 1));
        sndCwndCnt := 0;
      }
    }
  }

  class OliaSender {
    const id: nat
    const limits: Limits
    const olia: Olia
    var congestionWindow: nat
    var slowstartThreshold: nat
    var largestSentPacketNumber: nat
    var largestAckedPacketNumber: nat
    var largestSentAtLastCutback: nat
    var lastCutbackExitedSlowstart: bool
    var slowStartLargeReduction: bool
    var slowstartPacketsLost: nat
    var slowstartBytesLost: nat
    var numConnections: nat
    /** The smoothed round-trip time, in nanoseconds. */
    var smoothedRTT: int

    function Value(): Sender
      reads this, olia
    {
      Sender(congestionWindow, slowstartThreshold, largestSentPacketNumber, largestAckedPacketNumber,
             largestSentAtLastCutback,
             lastCutbackExitedSlowstart, slowStartLargeReduction, slowstartPacketsLost, slowstartBytesLost,
                 numConnections, olia.Value())
    }

    /** What the coupling looks at. */
    function AsPath(): Path
      reads `congestionWindow, `smoothedRTT, olia`loss1, olia`loss2, olia`loss3
    {
      Path(congestionWindow, Int64(smoothedRTT * smoothedRTT),
           SmoothedBytesBetweenLosses(Counters(olia.loss1, olia.loss2, olia.loss3, 0, 1, 0)))
    }

    constructor (id: nat, limits: Limits)
      ensures this.id == id && this.limits == limits && olia.id == id && Value() == Initial(limits)
    {
      this.id, this.limits, smoothedRTT := id, limits, 0;
      olia := new Olia(id);
      congestionWindow, slowstartThreshold := limits.initial, limits.max;
      largestSentPacketNumber, largestAckedPacketNumber, largestSentAtLastCutback := 0, 0, 0;
      lastCutbackExitedSlowstart, slowStartLargeReduction, slowstartPacketsLost, slowstartBytesLost := false, false, 0,
          0;
      numConnections := 2;
    }

    /** `senders` are all paths, this one included. */
    method OnPacketAcked(number: nat, bytes: nat, inFlight: nat, senders: map<nat, OliaSender>)
      requires Coupled(senders) && id in senders && senders[id] == this
      modifies this, olia, Shared(senders)`epsilonNum, Shared(senders)`epsilonDen
      ensures Value() == AfterAcked(limits, old(Value()), number, bytes, inFlight, olia.epsilonNum, olia.epsilonDen,
                                    old(Rate(TermsOf(senders, smoothedRTT))))
    {
      hide WindowAfterAck, IsCwndLimited, InSlowStart, PathsOf, EpsilonsOf, Shares, IsMax, Sum, Rate, TermsOf;
      largestAckedPacketNumber := Max(number, largestAckedPacketNumber);
      if InRecovery(Value()) { return; }
      olia.UpdateAckedSinceLastLoss(bytes);
      if !IsCwndLimited(Value(), inFlight) || congestionWindow >= limits.max { return; }
      if InSlowStart(Value()) {
        congestionWindow := congestionWindow + 1;
      } else {
        assert TermsOf(senders, smoothedRTT) == old(TermsOf(senders, smoothedRTT));
        AvoidCongestion(senders);
      }
    }

    method AvoidCongestion(senders: map<nat, OliaSender>)
      requires Coupled(senders) && id in senders && senders[id] == this
      modifies this`congestionWindow, olia`sndCwndCnt, Shared(senders)`epsilonNum, Shared(senders)`epsilonDen
      ensures var o := old(olia.Value()).(num := olia.epsilonNum, den := olia.epsilonDen);
              var (window, count) := WindowAfterAck(o, old(congestionWindow), old(Rate(TermsOf(senders, smoothedRTT))));
              Value() == old(Value()).(window := Min(limits.max, window), olia := o.(count := count))
    {
      hide WindowAfterAck, PathsOf, EpsilonsOf, Shares, IsMax, Sum, Rate, TermsOf, W64;
      GetEpsilon(senders);
      assert TermsOf(senders, smoothedRTT) == old(TermsOf(senders, smoothedRTT));
      var rate := GetRate(senders, smoothedRTT);
      var window := olia.CongestionWindowAfterAck(congestionWindow, rate, W64(congestionWindow * SCALE));
      congestionWindow := Min(limits.max, window);
    }

    method OnPacketLost(number: nat, bytes: nat)
      requires numConnections > 0
      modifies this, olia
      ensures Value() == AfterLost(old(Value()), number, bytes)
    {
      hide InSlowStart, W64, Backoff;
      if number <= largestSentAtLastCutback {
        if lastCutbackExitedSlowstart {
          var before := slowstartBytesLost;
          slowstartPacketsLost := slowstartPacketsLost + 1;
          slowstartBytesLost := slowstartBytesLost + bytes;
          if slowStartLargeReduction {
            if slowstartPacketsLost == 1 || slowstartBytesLost / DEFAULT_TCP_MSS > before / DEFAULT_TCP_MSS {
              congestionWindow := Max(W64(congestionWindow - 1), MIN_WINDOW);
            }
            slowstartThreshold := congestionWindow;
          }
        }
        return;
      }
      var slow := InSlowStart(Value());
      lastCutbackExitedSlowstart := slow;
      if slow { slowstartPacketsLost := slowstartPacketsLost + 1; }
      olia.OnPacketLost();
      var reduced: int;
      if slowStartLargeReduction && slow {
        reduced := W64(congestionWindow - 1);
      } else {
        reduced := Backoff(congestionWindow, numConnections);
      }
      congestionWindow := if reduced < MIN_WINDOW then MIN_WINDOW else reduced;
      slowstartThreshold := congestionWindow;
      largestSentAtLastCutback := largestSentPacketNumber;
    }

    method OnRetransmissionTimeout(packetsRetransmitted: bool)
      modifies this, olia
      ensures Value() == AfterTimeout(old(Value()), packetsRetransmitted)
    {
      largestSentAtLastCutback := 0;
      if !packetsRetransmitted { return; }
      olia.Reset();
      slowstartThreshold := congestionWindow / 2;
      congestionWindow := MIN_WINDOW;
    }
  }

  /** The paths are known by their IDs, and there are fewer than 256. */
  ghost predicate Coupled(senders: map<nat, OliaSender>) {
    |senders| <= 255 && forall i :: i in senders ==> senders[i].id == i < PATH_IDS && senders[i].olia.id == i
  }

  ghost function Shared(senders: map<nat, OliaSender>): set<Olia> { set i | i in senders :: senders[i].olia }

  ghost function PathsOf(senders: map<nat, OliaSender>): Paths
    reads senders.Values`congestionWindow, senders.Values`smoothedRTT
    reads Shared(senders)`loss1, Shared(senders)`loss2, Shared(senders)`loss3
  {
    map i | i in senders :: senders[i].AsPath()
  }

  ghost function EpsilonsOf(senders: map<nat, OliaSender>): map<nat, Epsilon>
    reads Shared(senders)
  {
    map i | i in senders :: Epsilon(senders[i].olia.epsilonNum, senders[i].olia.epsilonDen)
  }

  lemma {:induction false} PathLookup(senders: map<nat, OliaSender>)
    ensures PathsOf(senders).Keys == senders.Keys
    ensures forall i :: i in senders ==> PathsOf(senders)[i] == senders[i].AsPath()
  {
    hide OliaSender.AsPath;
  }

  method GetMaxCwnd(senders: map<nat, OliaSender>) returns (best: nat)
    ensures IsMax(PathsOf(senders), best)
  {
    hide Int64, SmoothedBytesBetweenLosses;
    best := 0;
    var todo := senders.Keys;
    ghost var paths := PathsOf(senders);
    while todo != {}
      invariant todo <= senders.Keys
      invariant forall i :: i in senders && i !in todo ==> paths[i].window <= best
      invariant best == 0 || exists i :: i in senders && paths[i].window == best
      decreases todo
    {
      var i :| i in todo;
      best := Max(best, senders[i].congestionWindow);
      todo := todo - {i};
    }
    if paths != map[] && best == 0 {
      var i :| i in paths;
      assert paths[i].window == best;
    }
  }

  ghost function TermsOf(senders: map<nat, OliaSender>, own: int): map<nat, nat>
    reads senders.Values`congestionWindow, senders.Values`smoothedRTT
  {
    map i | i in senders :: RateTerm(senders[i].congestionWindow, senders[i].smoothedRTT, own)
  }

  method GetRate(senders: map<nat, OliaSender>, own: int) returns (rate: nat)
    requires forall i :: i in senders ==> i < PATH_IDS
    ensures rate == Rate(TermsOf(senders, own))
  {
    hide W64, TermsBelow;
    rate := 1;
    var todo := senders.Keys;
    ghost var terms, sum: nat := TermsOf(senders, own), 0;
    NoTerms(terms, PATH_IDS);
    assert W64(1 + 0) == rate by { One(); }
    assert senders.Keys - todo == {};
    while todo != {}
      invariant todo <= senders.Keys && TermsOf(senders, own) == terms
      invariant sum == TermsBelow(terms, senders.Keys - todo, PATH_IDS) && rate == W64(1 + sum)
      decreases todo
    {
      var i :| i in todo;
      var scaledNum := W64(W64(senders[i].congestionWindow * SCALE) * W64(own));
      OneTerm(terms, senders.Keys - todo, i, PATH_IDS);
      assert senders.Keys - (todo - {i}) == senders.Keys - todo + {i};
      var rtt := W64(senders[i].smoothedRTT);
      if rtt != 0 {
        AddWraps(1 + sum, scaledNum / rtt);
        rate := W64(rate + scaledNum / rtt);
      }
      sum := sum + terms[i];
      todo := todo - {i};
    }
    assert senders.Keys - todo == terms.Keys;
    rate := W64(rate * rate);
  }

  lemma {:induction false} One()
    ensures W64(1) == 1
  {}

  /** The best path so far, in the order in which the map yields them, which is any order. */
  method FindBest(senders: map<nat, OliaSender>) returns (b: Best, ghost order: seq<nat>)
    ensures |order| == |senders| && forall i :: i in order <==> i in senders
    ensures (forall i :: i in order ==> i in PathsOf(senders)) && b == BestAlong(PathsOf(senders), order)
    ensures Exact(PathsOf(senders)) ==> IsGreatest(PathsOf(senders), b)
  {
    hide IsBest, Int64, OliaSender.AsPath, PathsOf, Exact;
    b, order := Best(0, 0), [];
    var todo := senders.Keys;
    ghost var paths := PathsOf(senders);
    PathLookup(senders);
    while todo != {}
      invariant todo <= senders.Keys && PathsOf(senders) == paths
      invariant |order| + |todo| == |senders| && (forall i :: i in order <==> i in senders && i !in todo)
      invariant b == BestAlong(paths, order)
      decreases todo
    {
      var i :| i in todo;
      var p := senders[i].AsPath();
      assert (order + [i])[..|order|] == order;
      PathLookup(senders);
      if IsBest(p, b) {
        b := Best(p.rtt2, p.bytes);
      }
      order := order + [i];
      todo := todo - {i};
    }
    if Exact(paths) && senders != map[] {
      ghost var k := AlongIsGreatest(paths, order);
    }
  }

  /** Eight-bit counters, which fewer than 256 paths do not overflow. */
  method CountSets(senders: map<nat, OliaSender>, max: nat, b: Best) returns (m: nat, bNotM: nat)
    requires |senders| <= 255
    ensures m == |InM(PathsOf(senders), max)| && bNotM == |InBNotM(PathsOf(senders), max, b)|
  {
    hide IsBest, OliaSender.AsPath, PathsOf, InM, InBNotM;
    m, bNotM := 0, 0;
    var todo := senders.Keys;
    ghost var paths, inM: set<nat>, inB: set<nat> := PathsOf(senders), {}, {};
    PathLookup(senders);
    SetsWithin(paths, max, b);
    while todo != {}
      invariant todo <= senders.Keys && PathsOf(senders) == paths && m == |inM| && bNotM == |inB|
      invariant inM == InM(paths, max) - todo && inB == InBNotM(paths, max, b) - todo
      decreases todo
    {
      var i :| i in todo;
      SetsStep(paths, max, b, todo, i);
      PathLookup(senders);
      var p := senders[i].AsPath();
      todo := todo - {i};
      if p.window == max {
        Next(inM, i, senders.Keys);
        m, inM := (m + 1) % 256, inM + {i};
      } else if IsBest(p, b) {
        Next(inB, i, senders.Keys);
        bNotM, inB := (bNotM + 1) % 256, inB + {i};
      }
    }
    assert inM == InM(paths, max);
    assert inB == InBNotM(paths, max, b);
  }

  lemma {:induction false} SetsWithin(paths: Paths, max: nat, b: Best)
    ensures InM(paths, max) <= paths.Keys && InBNotM(paths, max, b) <= paths.Keys
    ensures InM(paths, max) - paths.Keys == {} && InBNotM(paths, max, b) - paths.Keys == {}
  {
    hide IsBest;
  }

  lemma {:induction false} SetsStep(paths: Paths, max: nat, b: Best, todo: set<nat>, i: nat)
    requires i in todo && i in paths
    ensures InM(paths, max) - (todo - {i}) == if paths[i].window == max then InM(paths, max) - todo + {i}
            else InM(paths, max) - todo
    ensures InBNotM(paths, max, b) - (todo - {i}) ==
            if paths[i].window != max && IsBest(paths[i], b) then InBNotM(paths, max, b) - todo + {i}
                else InBNotM(paths, max, b) - todo
    ensures i !in InM(paths, max) - todo && i !in InBNotM(paths, max, b) - todo
  {
    hide IsBest;
  }

  lemma {:induction false} Next(s: set<nat>, i: nat, all: set<nat>)
    requires s <= all && i in all && i !in s && |all| <= 255
    ensures (|s| + 1) % 256 == |s + {i}|
  {
    Subset(s + {i}, all);
  }

  lemma {:induction false} Subset(a: set<nat>, b: set<nat>)
    requires a <= b
    ensures |a| <= |b|
  {
    if a != {} {
      var x :| x in a;
      Subset(a - {x}, b - {x});
    }
  }

  method SetEpsilons(senders: map<nat, OliaSender>, max: nat, b: Best, m: nat, bNotM: nat)
    requires Coupled(senders)
    modifies Shared(senders)`epsilonNum, Shared(senders)`epsilonDen
    ensures PathsOf(senders) == old(PathsOf(senders))
    ensures forall i :: i in senders ==>
              Epsilon(senders[i].olia.epsilonNum, senders[i].olia.epsilonDen)
                  == EpsilonOf(|senders|, senders[i].AsPath(), max, b, m, bNotM)
  {
    hide EpsilonOf, OliaSender.AsPath, PathsOf;
    var todo := senders.Keys;
    while todo != {}
      invariant todo <= senders.Keys
      invariant forall i :: i in senders ==> senders[i].AsPath() == old(senders[i].AsPath())
      invariant PathsOf(senders) == old(PathsOf(senders))
      invariant forall i :: i in senders && i !in todo ==>
                  Epsilon(senders[i].olia.epsilonNum, senders[i].olia.epsilonDen)
                      == EpsilonOf(|senders|, senders[i].AsPath(), max, b, m, bNotM)
      decreases todo
    {
      var i :| i in todo;
      var os := senders[i];
      var e := EpsilonOf(|senders|, os.AsPath(), max, b, m, bNotM);
      os.olia.SetEpsilon(e);
      todo := todo - {i};
    }
  }

  /** The shares of all paths; they add up to zero. */
  method GetEpsilon(senders: map<nat, OliaSender>)
    requires Coupled(senders)
    modifies Shared(senders)`epsilonNum, Shared(senders)`epsilonDen
    ensures PathsOf(senders) == old(PathsOf(senders))
    ensures exists max, b ::
              && IsMax(PathsOf(senders), max) && (Exact(PathsOf(senders)) ==> IsGreatest(PathsOf(senders), b))
              && Shares(PathsOf(senders), max, b, EpsilonsOf(senders))
    ensures forall i :: i in EpsilonsOf(senders) ==> EpsilonsOf(senders)[i].den > 0
    ensures Sum(EpsilonsOf(senders), PATH_IDS) == 0.0
  {
    hide EpsilonOf, OliaSender.AsPath, PathsOf, EpsilonsOf, IsMax, Sum, InM, InBNotM, Shares, Exact, IsGreatest,
        BestAlong;
    var max := GetMaxCwnd(senders);
    var b, order := FindBest(senders);
    var m, bNotM := CountSets(senders, max, b);
    SetEpsilons(senders, max, b, m, bNotM);
    ghost var paths := PathsOf(senders);
    SharesAre(senders, max, b);
    BelowPathIds(senders);
    SharesCancel(paths, max, b, EpsilonsOf(senders));
  }

  lemma {:induction false} SharesAre(senders: map<nat, OliaSender>, max: nat, b: Best)
    requires forall i :: i in senders ==>
               Epsilon(senders[i].olia.epsilonNum, senders[i].olia.epsilonDen) ==
               EpsilonOf(|senders|, senders[i].AsPath(), max, b, |InM(PathsOf(senders), max)|,
                         |InBNotM(PathsOf(senders), max, b)|)
    ensures Shares(PathsOf(senders), max, b, EpsilonsOf(senders))
  {
    hide EpsilonOf, OliaSender.AsPath, PathsOf, InM, InBNotM;
    PathLookup(senders);
    assert |PathsOf(senders).Keys| == |senders.Keys|;
  }

  lemma {:induction false} BelowPathIds(senders: map<nat, OliaSender>)
    requires Coupled(senders)
    ensures forall i :: i in PathsOf(senders) ==> i < PATH_IDS
  {
    hide OliaSender.AsPath;
  }
}
