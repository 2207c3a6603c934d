/** The sent-packet handler as the source runs it: mpquic_trans/ackhandler/sent_packet_handler.go. */
module SentPacketHandlers {
  import opened AckFrames
  import opened SentPackets

  // ----- packet lists -----

  ghost function Numbers(h: seq<Packet>): set<nat> { set i | 0 <= i < |h| :: h[i].number }

  lemma {:induction false} WithoutTwice(h: seq<Packet>, s: set<nat>, t: set<nat>)
    ensures Without(Without(h, s), t) == Without(h, s + t)
  {
    if h != [] {
      WithoutTwice(h[..|h| - 1], s, t);
      var w, p := Without(h[..|h| - 1], s), h[|h| - 1];
      assert (w + [p])[..|w|] == w;
    }
  }

  lemma {:induction false} WithoutSame(h: seq<Packet>, s: set<nat>, t: set<nat>)
    requires forall i :: 0 <= i < |h| ==> (h[i].number in s <==> h[i].number in t)
    ensures Without(h, s) == Without(h, t) && Only(h, s) == Only(h, t)
  {
    if h != [] { WithoutSame(h[..|h| - 1], s, t); }
  }

  lemma {:induction false} OnlyPrefix(h: seq<Packet>, i: nat, s: set<nat>)
    requires i <= |h| && forall j :: i <= j < |h| ==> h[j].number !in s
    ensures Only(h[..i], s) == Only(h, s)
    decreases |h| - i
  {
    if i < |h| {
      OnlyPrefix(h, i + 1, s);
      assert h[..i + 1][..i] == h[..i];
    } else {
      assert h[..i] == h;
    }
  }

  lemma {:induction false} OnlyNext(h: seq<Packet>, i: nat, s: set<nat>)
    requires i < |h|
    ensures Only(h[..i + 1], s) == if h[i].number in s then Only(h[..i], s) + [h[i]] else Only(h[..i], s)
  {
    assert h[..i + 1][..i] == h[..i];
  }

  lemma {:induction false} SumNext(h: seq<Packet>, i: nat)
    requires i < |h|
    ensures Sum(h[..i + 1]) == Sum(h[..i]) + h[i].length && Numbers(h[..i + 1]) == Numbers(h[..i]) + {h[i].number}
    ensures Highest(h[..i + 1]) == Max(Highest(h[..i]), h[i].number)
  {
    assert h[..i + 1][..i] == h[..i];
    forall n | n in Numbers(h[..i]) ensures n in Numbers(h[..i + 1]) {
      var k :| 0 <= k < i && h[..i][k].number == n;
      assert h[..i + 1][k].number == n;
    }
    assert h[..i + 1][i].number == h[i].number;
  }

  /** Removing the selected packets one by one removes the selected numbers. */
  lemma {:induction false} OnlyNumbers(h: seq<Packet>, s: set<nat>)
    ensures Without(h, Numbers(Only(h, s))) == Without(h, s)
  {
    hide Without, Only;
    var o := Only(h, s);
    Members(h, s);
    forall p | p in h ensures p.number in Numbers(o) <==> p.number in s {
      if p.number in s {
        assert p in o;
        var k :| 0 <= k < |o| && o[k] == p;
        assert o[k].number in Numbers(o);
      }
      if p.number in Numbers(o) {
        var k :| 0 <= k < |o| && o[k].number == p.number;
        assert o[k] in o;
      }
    }
    WithoutSame(h, Numbers(o), s);
  }

  // ----- the scan along history and ranges -----

  /** The ranges above index `top` lie below `p`. */
  ghost predicate Passed(ack: AckFrame, top: int, p: nat) {
    forall i :: top < i < |ack.ranges| && 0 <= i ==> ack.ranges[i].last < p
  }

  /** With the ranges above index `top` passed, range `top` decides about `p`. */
  lemma {:induction false} ScanDecides(ack: AckFrame, top: nat, p: nat)
    requires Validated(ack) && top < |ack.ranges| && ack.lowestAcked <= p <= ack.largestAcked
    requires Passed(ack, top, p) && p <= ack.ranges[top].last
    ensures AcksPacket(ack, p) <==> ack.ranges[top].first <= p
  {
    if ack.ranges[top].first <= p { assert ack.ranges[top].first <= p <= ack.ranges[top].last; }
    assert forall i :: 0 <= i < top ==> ack.ranges[top].last + 1 < ack.ranges[i].first;
  }

  /** `determineNewlyAckedPackets`: walks history and ranges upwards together.  Its BUG branch is
      unreachable for a validated ACK. */
  method DetermineNewlyAckedPackets(history: seq<Packet>, ack: AckFrame) returns (acked: seq<Packet>)
    requires Increasing(history) && Validated(ack)
    ensures acked == Only(history, AckedBy(history, ack))
  {
    hide Only, Descending, AcksPacket, AckedBy, Increasing, Passed, Validated;
    ghost var s := AckedBy(history, ack);
    acked := [];
    OnlyNone(history, s);
    var ackRangeIndex: nat := 0;
    ghost var floor: nat := 0;  // the packet at which the index was last advanced
    NothingPassed(ack);
    var i := 0;
    while i < |history|
      invariant i <= |history| && acked == Only(history[..i], s)
      invariant ack.ranges != [] ==>
                  ackRangeIndex < |ack.ranges| && Passed(ack, |ack.ranges| - 1 - ackRangeIndex, floor)
      invariant i < |history| ==> floor <= history[i].number
    {
      var packetNumber := history[i].number;
      OnlyNext(history, i, s);
      InAckedBy(history, i, ack);
      Rises(history, i);
      // not covered by the ACK at all
      if packetNumber < ack.lowestAcked {
        OutsideIsNotAcked(ack, packetNumber);
        i := i + 1;
        continue;
      }
      // neither is anything that follows
      if packetNumber > ack.largestAcked {
        AboveIsNotAcked(history, i, ack);
        OnlyPrefix(history, i, s);
        return;
      }
      if ack.ranges != [] {
        PassedFurther(ack, |ack.ranges| - 1 - ackRangeIndex, floor, packetNumber);
        ackRangeIndex := AdvanceRange(ack, ackRangeIndex, packetNumber);
        floor := packetNumber;
        var ackRange := ack.ranges[|ack.ranges| - 1 - ackRangeIndex];
        ScanDecides(ack, |ack.ranges| - 1 - ackRangeIndex, packetNumber);
        if packetNumber >= ackRange.first {
          assert packetNumber <= ackRange.last;
          acked := acked + [history[i]];
        }
      } else {
        PlainIsAcked(ack, packetNumber);
        acked := acked + [history[i]];
      }
      i := i + 1;
    }
    assert history[..|history|] == history;
  }

  method AdvanceRange(ack: AckFrame, index: nat, packetNumber: nat) returns (r: nat)
    requires Validated(ack) && index < |ack.ranges| && packetNumber <= ack.largestAcked
    requires Passed(ack, |ack.ranges| - 1 - index, packetNumber)
    ensures r < |ack.ranges| && packetNumber <= ack.ranges[|ack.ranges| - 1 - r].last
    ensures Passed(ack, |ack.ranges| - 1 - r, packetNumber)
  {
    hide Descending;
    r := index;
    while packetNumber > ack.ranges[|ack.ranges| - 1 - r].last && r < |ack.ranges| - 1
      invariant r < |ack.ranges| && Passed(ack, |ack.ranges| - 1 - r, packetNumber)
      decreases |ack.ranges| - r
    {
      r := r + 1;
    }
  }

  lemma {:induction false} NothingPassed(ack: AckFrame)
    ensures Passed(ack, |ack.ranges| - 1, 0)
  {}

  lemma {:induction false} PassedFurther(ack: AckFrame, top: int, p: nat, q: nat)
    requires Passed(ack, top, p) && p <= q
    ensures Passed(ack, top, q)
  {}

  lemma {:induction false} Rises(h: seq<Packet>, i: nat)
    requires Increasing(h) && i < |h|
    ensures i + 1 < |h| ==> h[i].number < h[i + 1].number
  {}

  lemma {:induction false} OnlyNone(h: seq<Packet>, s: set<nat>)
    ensures Only(h[..0], s) == []
  {}

  lemma {:induction false} InAckedBy(h: seq<Packet>, i: nat, ack: AckFrame)
    requires i < |h|
    ensures h[i].number in AckedBy(h, ack) <==> AcksPacket(ack, h[i].number)
  {}

  lemma {:induction false} OutsideIsNotAcked(ack: AckFrame, p: nat)
    requires p < ack.lowestAcked || p > ack.largestAcked
    ensures !AcksPacket(ack, p)
  {}

  lemma {:induction false} PlainIsAcked(ack: AckFrame, p: nat)
    requires ack.ranges == [] && ack.lowestAcked <= p <= ack.largestAcked
    ensures AcksPacket(ack, p)
  {}

  lemma {:induction false} AboveIsNotAcked(h: seq<Packet>, i: nat, ack: AckFrame)
    requires Increasing(h) && i < |h| && h[i].number > ack.largestAcked
    ensures forall j :: i <= j < |h| ==> h[j].number !in AckedBy(h, ack)
  {}

  lemma {:induction false} BelowBound(h: seq<Packet>, i: nat, bound: nat, late: nat -> bool)
    requires Increasing(h) && i < |h| && h[i].number > bound
    ensures forall j :: i <= j < |h| ==> h[j].number > bound && h[j].number !in Overdue(h, bound, late)
  {}

  lemma {:induction false} InOverdue(h: seq<Packet>, i: nat, bound: nat, late: nat -> bool)
    requires i < |h|
    ensures h[i].number in Overdue(h, bound, late) <==> h[i].number <= bound && late(h[i].number)
  {}

  /** The collecting loop of `detectLostPackets` (and, with nothing spared, of `SetInflightAsLost`). */
  method CollectLostPackets(history: seq<Packet>, largestAcked: nat, late: nat -> bool)
      returns (lost: seq<Packet>, spared: bool)
    requires Increasing(history)
    ensures lost == Only(history, Overdue(history, largestAcked, late))
    ensures spared == exists i :: 0 <= i < |history| && history[i].number <= largestAcked && !late(history[i].number)
  {
    hide Only, Increasing, Overdue;
    ghost var s := Overdue(history, largestAcked, late);
    lost, spared := [], false;
    OnlyNone(history, s);
    for i := 0 to |history|
      invariant lost == Only(history[..i], s)
      invariant spared == exists k :: 0 <= k < i && history[k].number <= largestAcked && !late(history[k].number)
    {
      if history[i].number > largestAcked {
        BelowBound(history, i, largestAcked, late);
        OnlyPrefix(history, i, s);
        return;
      }
      OnlyNext(history, i, s);
      InOverdue(history, i, largestAcked, late);
      if late(history[i].number) {
        lost := lost + [history[i]];
      } else {
        spared := true;
      }
    }
    assert history[..|history|] == history;
  }

  class SentPacketHandler {
    var lastSentPacketNumber: nat
    var skippedPackets: seq<nat>
    var numNonRetransmittablePackets: nat
    var LargestAcked: nat
    var largestReceivedPacketWithAck: nat
    var packetHistory: seq<Packet>
    var retransmissionQueue: seq<Packet>
    var bytesInFlight: int
    var rtoCount: nat
    var tlpCount: nat
    var lossTimeSet: bool
    var nextLeastUnacked: nat

    ghost function View(): Sender
      reads this
    {
      Sender(lastSentPacketNumber, skippedPackets, LargestAcked, largestReceivedPacketWithAck, packetHistory,
             retransmissionQueue,
             bytesInFlight, numNonRetransmittablePackets, rtoCount, tlpCount, lossTimeSet, nextLeastUnacked)
    }

    constructor ()
      ensures View() == Initial
    {
      lastSentPacketNumber, skippedPackets, LargestAcked, largestReceivedPacketWithAck := 0, [], 0, 0;
      packetHistory, retransmissionQueue, bytesInFlight, numNonRetransmittablePackets := [], [], 0, 0;
      rtoCount, tlpCount, lossTimeSet, nextLeastUnacked := 0, 0, false, 0;
    }

    method SentPacket(packet: Packet) returns (r: SendResult)
      requires Inv(View())
      modifies this
      ensures (View(), r) == AfterSentPacket(old(View()), packet) && Inv(View())
    {
      hide Strip, Increasing, Sum;
      SentKeepsInv(View(), packet);
      if packet.number <= lastSentPacketNumber {
        return NotIncreasing;
      }
      if |retransmissionQueue| + |packetHistory| + 1 > MAX_TRACKED_SENT_PACKETS {
        return TooManyTracked;
      }
      var p := lastSentPacketNumber + 1;
      while p < packet.number
        invariant old(lastSentPacketNumber) + 1 <= p <= packet.number
        invariant skippedPackets == Skip(old(skippedPackets), old(lastSentPacketNumber) + 1, p)
        invariant View() == old(View()).(skipped := skippedPackets)
      {
        skippedPackets := skippedPackets + [p];
        if |skippedPackets| > MAX_TRACKED_SKIPPED_PACKETS {
          skippedPackets := skippedPackets[1..];
        }
        p := p + 1;
      }
      lastSentPacketNumber := packet.number;
      var frames := Strip(packet.frames);
      if |frames| != 0 {
        bytesInFlight := bytesInFlight + packet.length;
        packetHistory := packetHistory + [packet.(frames := frames)];
        numNonRetransmittablePackets := 0;
      } else {
        numNonRetransmittablePackets := numNonRetransmittablePackets + 1;
      }
      return Sent;
    }

    method OnPacketAcked(packet: Packet)
      modifies this
      ensures View() == old(View()).(history := Without(old(packetHistory), {packet.number}),
                                     bytesInFlight := old(bytesInFlight) - packet.length, rtoCount := 0, tlpCount := 0)
    {
      bytesInFlight := bytesInFlight - packet.length;
      rtoCount, tlpCount := 0, 0;
      packetHistory := Without(packetHistory, {packet.number});
    }

    method QueuePacketForRetransmission(packet: Packet)
      modifies this
      ensures View() == old(View()).(history := Without(old(packetHistory), {packet.number}),
                                     bytesInFlight := old(bytesInFlight) - packet.length,
                                     queue := old(retransmissionQueue) + [packet],
                                     nextLeastUnacked := Max(old(nextLeastUnacked), packet.number + 1))
    {
      bytesInFlight := bytesInFlight - packet.length;
      retransmissionQueue := retransmissionQueue + [packet];
      packetHistory := Without(packetHistory, {packet.number});
      if packet.number >= nextLeastUnacked {
        nextLeastUnacked := packet.number + 1;
      }
    }

    /** The loops that hand collected packets to `queuePacketForRetransmission` one by one. */
    method QueueAll(lost: seq<Packet>, ghost numbers: set<nat>)
      requires lost == Only(packetHistory, numbers)
      modifies this
      ensures View() == Requeue(old(View()), numbers)
    {
      hide Only, Without, Sum, Highest, Numbers;
      ListStart(lost, packetHistory);
      for i := 0 to |lost|
        invariant View() == old(View()).(history := Without(old(packetHistory), Numbers(lost[..i])),
                                         bytesInFlight := old(bytesInFlight) - Sum(lost[..i]),
                                         queue := old(retransmissionQueue) + lost[..i],
                                         nextLeastUnacked := if i == 0 then old(nextLeastUnacked)
                                             else Max(old(nextLeastUnacked), Highest(lost[..i]) + 1))
      {
        QueuePacketForRetransmission(lost[i]);
        SumNext(lost, i);
        WithoutTwice(old(packetHistory), Numbers(lost[..i]), {lost[i].number});
        assert lost[..i + 1] == lost[..i] + [lost[i]];
      }
      OnlyNumbers(old(packetHistory), numbers);
      assert lost[..|lost|] == lost;
    }

    method DetectLostPackets(late: nat -> bool)
      requires Inv(View())
      modifies this
      ensures View() == DetectLost(old(View()), late) && Inv(View())
    {
      hide Only, Without, Sum, Highest, Overdue, Increasing;
      DetectKeepsInv(View(), late);
      var lost, spared := CollectLostPackets(packetHistory, LargestAcked, late);
      lossTimeSet := spared;
      QueueAll(lost, Overdue(packetHistory, LargestAcked, late));
    }

    method SetInflightAsLost()
      requires Inv(View())
      modifies this
      ensures View() == AfterInflightLost(old(View())) && Inv(View())
    {
      hide Only, Without, Sum, Highest, Overdue, Increasing;
      InflightLostKeepsInv(View());
      var lost, spared := CollectLostPackets(packetHistory, LargestAcked, _ => true);
      QueueAll(lost, Overdue(packetHistory, LargestAcked, _ => true));
    }

    /** Removes the acknowledged packets one by one. */
    method RemoveAcked(acked: seq<Packet>, ghost numbers: set<nat>)
      requires acked == Only(packetHistory, numbers)
      modifies this
      ensures View() == Acknowledge(old(View()), numbers)
    {
      hide Only, Without, Sum, Highest, Numbers;
      ListStart(acked, packetHistory);
      for i := 0 to |acked|
        invariant View() == old(View()).(history := Without(old(packetHistory), Numbers(acked[..i])),
                                         bytesInFlight := old(bytesInFlight) - Sum(acked[..i]),
                                         rtoCount := if i == 0 then old(rtoCount) else 0,
                                         tlpCount := if i == 0 then old(tlpCount) else 0)
      {
        OnPacketAcked(acked[i]);
        SumNext(acked, i);
        WithoutTwice(old(packetHistory), Numbers(acked[..i]), {acked[i].number});
      }
      OnlyNumbers(old(packetHistory), numbers);
      assert acked[..|acked|] == acked;
    }

    function largestInOrderAcked(): int
      reads this
    {
      if packetHistory != [] then packetHistory[0].number - 1 else LargestAcked
    }

    method GarbageCollectSkippedPackets()
      modifies this`skippedPackets
      ensures skippedPackets == Collect(old(skippedPackets), LargestInOrderAcked(View()))
    {
      var lioa := largestInOrderAcked();
      var deleteIndex := 0;
      for i := 0 to |skippedPackets|
        invariant deleteIndex <= i && (deleteIndex > 0 ==> skippedPackets[deleteIndex - 1] <= lioa)
        invariant forall k :: deleteIndex <= k < i ==> skippedPackets[k] > lioa
      {
        if skippedPackets[i] <= lioa {
          deleteIndex := i + 1;
        }
      }
      CollectsFrom(skippedPackets, deleteIndex, lioa);
      skippedPackets := skippedPackets[deleteIndex..];
    }

    method ReceivedAck(ack: AckFrame, withPacketNumber: nat, late: nat -> bool) returns (r: AckResult)
      requires Inv(View()) && Validated(ack)
      modifies this
      ensures (View(), r) == AfterReceivedAck(old(View()), ack, withPacketNumber, late) && Inv(View())
    {
      hide Only, Without, Sum, Highest, Overdue, Increasing, AckedBy, DetectLost, Collect, AcksPacket, Validated;
      AckKeepsInv(View(), ack, withPacketNumber, late);
      if ack.largestAcked > lastSentPacketNumber {
        return AckForUnsentPacket;
      }
      // an older ACK came late
      if withPacketNumber <= largestReceivedPacketWithAck {
        return DuplicateOrOutOfOrder;
      }
      largestReceivedPacketWithAck := withPacketNumber;
      // ignore repeated ACKs
      if ack.largestAcked <= largestInOrderAcked() {
        return Processed;
      }
      LargestAcked := ack.largestAcked;
      for i := 0 to |skippedPackets|
        invariant forall k :: 0 <= k < i ==> !AcksPacket(ack, skippedPackets[k])
      {
        if AcksPacket(ack, skippedPackets[i]) {
          return AckForSkippedPacket;
        }
      }
      ghost var s2 := View();
      var acked := DetermineNewlyAckedPackets(packetHistory, ack);
      RemoveAcked(acked, AckedBy(packetHistory, ack));
      RemoveKeepsInv(s2, View(), AckedBy(s2.history, ack));
      DetectLostPackets(late);
      GarbageCollectSkippedPackets();
      if ack.largestAcked >= nextLeastUnacked {
        nextLeastUnacked := ack.largestAcked + 1;
      }
      return Processed;
    }

    method OnAlarm(late: nat -> bool, potentiallyFailed: bool)
      requires Inv(View())
      modifies this
      ensures View() == AfterAlarm(old(View()), late, potentiallyFailed) && Inv(View())
    {
      hide Only, Without, Sum, Highest, Overdue, Increasing, DetectLost, FirstNumbers;
      AlarmKeepsInv(View(), late, potentiallyFailed);
      var outstanding := HasOutstanding();
      if !outstanding {
        return;
      }
      if lossTimeSet {
        DetectLostPackets(late);
      } else if tlpCount < MAX_TAIL_LOSS_PROBES {
        RetransmitTLP();
        tlpCount := tlpCount + 1;
      } else {
        if potentiallyFailed {
          RetransmitAllPackets();
        } else {
          RetransmitOldestTwoPackets();
        }
        rtoCount := rtoCount + 1;
      }
    }

    method HasOutstanding() returns (r: bool)
      ensures r == HasOutstandingRetransmittablePacket(View())
    {
      for i := 0 to |packetHistory|
        invariant forall k :: 0 <= k < i ==> !packetHistory[k].IsRetransmittable()
      {
        if packetHistory[i].IsRetransmittable() {
          return true;
        }
      }
      return false;
    }

    method RetransmitTLP()
      requires Increasing(packetHistory)
      modifies this
      ensures |old(packetHistory)| == 0 ==> View() == old(View())
      ensures |old(packetHistory)| > 0
              ==> View() == Requeue(old(View()), {old(packetHistory)[|old(packetHistory)| - 1].number})
    {
      hide Only, Without, Sum, Highest;
      if |packetHistory| == 0 {
        return;
      }
      var p := packetHistory[|packetHistory| - 1];
      QueuePacketForRetransmission(p);
      LastOnly(old(packetHistory));
    }

    method RetransmitAllPackets()
      requires Increasing(packetHistory)
      modifies this
      ensures View() == Requeue(old(View()), FirstNumbers(old(packetHistory), |old(packetHistory)|))
    {
      hide Only, Without, Sum, Highest, FirstNumbers, Increasing;
      ghost var n := 0;
      FirstNone(packetHistory, View());
      while |packetHistory| > 0
        invariant n <= |old(packetHistory)| && packetHistory == old(packetHistory)[n..]
        invariant View() == Requeue(old(View()), FirstNumbers(old(packetHistory), n))
        decreases |packetHistory|
      {
        QueueRTO(old(View()), n);
        n := n + 1;
      }
    }

    method RetransmitOldestTwoPackets()
      requires Increasing(packetHistory)
      modifies this
      ensures View() == Requeue(old(View()), FirstNumbers(old(packetHistory), 2))
    {
      hide Only, Without, Sum, Highest, FirstNumbers, Increasing, Requeue;
      FirstNone(packetHistory, View());
      if |packetHistory| > 0 {
        QueueRTO(old(View()), 0);
      }
      if |packetHistory| > 0 {
        QueueRTO(old(View()), 1);
      }
      if |old(packetHistory)| < 2 {
        FirstOfFew(old(packetHistory), 2);
      }
    }

    /** Queues the oldest packet of the history, `n` older ones having been queued already. */
    method QueueRTO(ghost before: Sender, ghost n: nat)
      requires Increasing(before.history) && n < |before.history| && |packetHistory| > 0
      requires View() == Requeue(before, FirstNumbers(before.history, n)) && packetHistory == before.history[n..]
      modifies this
      ensures View() == Requeue(before, FirstNumbers(before.history, n + 1)) && packetHistory == before.history[n + 1..]
    {
      hide Only, Without, Sum, Highest, FirstNumbers, Increasing;
      FirstOnly(before.history, n);
      FirstOnly(before.history, n + 1);
      SumNext(before.history, n);
      WithoutFront(before.history, n);
      assert before.history[..n + 1] == before.history[..n] + [before.history[n]];
      QueuePacketForRetransmission(packetHistory[0]);
      HighestStart(before.history);
    }

    method DequeuePacketForRetransmission() returns (packet: Option<Packet>)
      modifies this
      ensures (View(), packet) == AfterDequeue(old(View()))
    {
      if |retransmissionQueue| == 0 {
        return None;
      }
      packet := Some(retransmissionQueue[0]);
      retransmissionQueue := retransmissionQueue[1..];
    }

    method DuplicatePacket(packet: Packet)
      modifies this
      ensures View() == AfterDuplicate(old(View()), packet)
    {
      retransmissionQueue := retransmissionQueue + [packet];
    }
  }

  lemma {:induction false} OnlyAppend(x: seq<Packet>, y: seq<Packet>, s: set<nat>)
    ensures Only(x + y, s) == Only(x, s) + Only(y, s) && Without(x + y, s) == Without(x, s) + Without(y, s)
    decreases |y|
  {
    if y == [] {
      assert x + y == x;
    } else {
      var z := x + y;
      assert z[..|z| - 1] == x + y[..|y| - 1] && z[|z| - 1] == y[|y| - 1];
      OnlyAppend(x, y[..|y| - 1], s);
    }
  }

  lemma {:induction false} OnlyAll(h: seq<Packet>, s: set<nat>)
    requires forall i :: 0 <= i < |h| ==> h[i].number in s
    ensures Only(h, s) == h && Without(h, s) == []
  {
    if h != [] {
      OnlyAll(h[..|h| - 1], s);
      assert h == h[..|h| - 1] + [h[|h| - 1]];
    }
  }

  lemma {:induction false} OnlyNothing(h: seq<Packet>, s: set<nat>)
    requires forall i :: 0 <= i < |h| ==> h[i].number !in s
    ensures Only(h, s) == [] && Without(h, s) == h
  {
    if h != [] {
      OnlyNothing(h[..|h| - 1], s);
      assert h == h[..|h| - 1] + [h[|h| - 1]];
    }
  }

  lemma {:induction false} FirstOnly(h: seq<Packet>, n: nat)
    requires Increasing(h) && n <= |h|
    ensures Only(h, FirstNumbers(h, n)) == h[..n] && Without(h, FirstNumbers(h, n)) == h[n..]
  {
    hide Only, Without;
    var s := FirstNumbers(h, n);
    assert h == h[..n] + h[n..];
    OnlyAppend(h[..n], h[n..], s);
    OnlyAll(h[..n], s);
    OnlyNothing(h[n..], s);
  }

  lemma {:induction false} FirstNone(h: seq<Packet>, s: Sender)
    requires s.history == h && Increasing(h)
    ensures Requeue(s, FirstNumbers(h, 0)) == s && h[0..] == h
  {
    FirstOnly(h, 0);
  }

  lemma {:induction false} LastOnly(h: seq<Packet>)
    requires Increasing(h) && h != []
    ensures var p := h[|h| - 1];
            Only(h, {p.number}) == [p] && Sum([p]) == p.length && Highest([p]) == p.number
  {
    var p := h[|h| - 1];
    OnlyLast(h, p);
    assert [p][..0] == [];
  }

  lemma {:induction false} OnlyLast(h: seq<Packet>, p: Packet)
    requires Increasing(h) && h != [] && p == h[|h| - 1]
    ensures Only(h, {p.number}) == [p]
  {
    hide Without;
    OnlyNothing(h[..|h| - 1], {p.number});
  }

  lemma {:induction false} HighestStart(h: seq<Packet>)
    ensures Highest(h[..0]) == 0 && h[..0] == []
  {}

  lemma {:induction false} FirstOfFew(h: seq<Packet>, n: nat)
    requires |h| <= n
    ensures FirstNumbers(h, n) == FirstNumbers(h, |h|)
  {}

  lemma {:induction false} WithoutFront(h: seq<Packet>, n: nat)
    requires Increasing(h) && n < |h|
    ensures Without(h[n..], {h[n].number}) == h[n + 1..] && h[n..][0] == h[n]
  {
    hide Only, Without;
    assert h[n..] == [h[n]] + h[n + 1..];
    OnlyAppend([h[n]], h[n + 1..], {h[n].number});
    OnlyAll([h[n]], {h[n].number});
    OnlyNothing(h[n + 1..], {h[n].number});
  }

  lemma {:induction false} CollectsFrom(skipped: seq<nat>, n: nat, bound: int)
    requires n <= |skipped| && (n > 0 ==> skipped[n - 1] <= bound)
    requires forall i :: n <= i < |skipped| ==> skipped[i] > bound
    ensures Collect(skipped, bound) == skipped[n..]
    decreases |skipped|
  {
    if n < |skipped| {
      var init := skipped[..|skipped| - 1];
      CollectsFrom(init, n, bound);
      assert init[n..] + [skipped[|skipped| - 1]] == skipped[n..];
    }
  }

  lemma {:induction false} ListStart(lost: seq<Packet>, h: seq<Packet>)
    ensures lost[..0] == [] && Sum(lost[..0]) == 0 && Highest(lost[..0]) == 0 && Without(h, Numbers(lost[..0])) == h
  {
    assert Numbers(lost[..0]) == {};
    WithoutNone(h);
  }

  lemma {:induction false} WithoutNone(h: seq<Packet>)
    ensures Without(h, {}) == h
  {
    if h != [] {
      WithoutNone(h[..|h| - 1]);
      assert h == h[..|h| - 1] + [h[|h| - 1]];
    }
  }
}
