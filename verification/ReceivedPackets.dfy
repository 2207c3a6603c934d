/** The receiver's side of acknowledgements: mpquic_trans/ackhandler/received_packet_handler.go. */
module ReceivedPackets {
  import opened AckFrames
  import opened ReceivedHistory

  const MAX_PACKETS_RECEIVED_BEFORE_ACK_SEND: nat := 20
  const RETRANSMITTABLE_PACKETS_BEFORE_ACK: nat := 2

  datatype Option<T> = None | Some(value: T)

  datatype Receiver = Receiver(
    largestObserved: nat, lowerLimit: nat, ranges: seq<Range>,
    sinceLastAck: nat, retransmittableSinceLastAck: nat,
    ackQueued: bool, alarmSet: bool, lastAckLargest: Option<nat>)

  const Initial: Receiver := Receiver(0, 0, [], 0, 0, false, false, None)

  /** `maybeQueueAck`, once packet `n` is in the history; versions before 39 acknowledge every
      twentieth packet. */
  function QueueAck(r: Receiver, n: nat, instigate: bool, before39: bool): (q: Receiver)
    ensures q.ranges == r.ranges && q.largestObserved == r.largestObserved && q.lowerLimit == r.lowerLimit
  {
    var since, retransmittable := r.sinceLastAck + 1, r.retransmittableSinceLastAck + if instigate then 1 else 0;
    var queued :=
      || r.ackQueued
      || r.lastAckLargest == None
      || (before39 && since >= MAX_PACKETS_RECEIVED_BEFORE_ACK_SEND)
      || n < r.lastAckLargest.value
      || (r.ranges != [] && r.ranges[|r.ranges| - 1].start > r.lastAckLargest.value)
      || (instigate && retransmittable >= RETRANSMITTABLE_PACKETS_BEFORE_ACK);
    r.(sinceLastAck := since, retransmittableSinceLastAck := retransmittable,
       ackQueued := queued, alarmSet := !queued && (r.alarmSet || instigate))
  }

  /** What `ReceivedPacket` does; `ok` is false for an invalid number and for too many ranges. */
  ghost predicate Receives(r: Receiver, n: nat, instigate: bool, before39: bool, r': Receiver, ok: bool) {
    if n == 0 then !ok && r' == r
    else
      var r1 := r.(largestObserved := if n > r.largestObserved then n else r.largestObserved);
      if n <= r.lowerLimit then ok && r' == r1
      else if |r.ranges| >= MAX_TRACKED_RECEIVED_ACK_RANGES then !ok && r' == r1
      else
        && ok && Added(r.ranges, n, r'.ranges)
        && r' == QueueAck(r1.(ranges := r'.ranges), n, instigate, before39)
  }

  ghost predicate LimitsTo(r: Receiver, p: nat, r': Receiver) {
    DeletedUpTo(r.ranges, p, r'.ranges) && r' == r.(lowerLimit := p, ranges := r'.ranges)
  }

  function AckOf(r: Receiver, pathID: nat, delay: nat): AckFrame
    requires r.ranges != []
  {
    AckFrame(pathID, r.largestObserved, r.ranges[0].start, if |r.ranges| > 1 then Reversed(r.ranges) else [], delay)
  }

  predicate AckIsDue(r: Receiver, expired: bool) { r.ackQueued || (r.alarmSet && expired) }

  function AfterAck(r: Receiver): Receiver {
    r.(lastAckLargest := Some(r.largestObserved), alarmSet := false, ackQueued := false, sinceLastAck := 0,
       retransmittableSinceLastAck := 0)
  }

  // ----- what every run keeps -----

  /** The largest observed packet is tracked and nothing above it is; an ACK that is due has
      something to report. */
  ghost predicate Consistent(r: Receiver) {
    && Canonical(r.ranges)
    && (r.lowerLimit < r.largestObserved || (r.lowerLimit == 0 && r.largestObserved == 0))
    && (r.largestObserved > 0 ==> Contains(r.ranges, r.largestObserved))
    && (forall p: nat :: Contains(r.ranges, p) ==> 1 <= p <= r.largestObserved)
    && (r.ackQueued || r.alarmSet ==> r.largestObserved > 0)
  }

  lemma {:induction false} ReceivesKeepsConsistent(r: Receiver, n: nat, instigate: bool, before39: bool, r': Receiver)
    requires Consistent(r) && Receives(r, n, instigate, before39, r', true)
    ensures Consistent(r') && n <= r'.largestObserved && r'.lowerLimit == r.lowerLimit
  {
    hide Canonical, Contains;
  }

  /** A lower limit taken from a packet that was received before does not lose the largest packet. */
  lemma {:induction false} LimitKeepsConsistent(r: Receiver, p: nat, r': Receiver)
    requires Consistent(r) && p < r.largestObserved && LimitsTo(r, p, r')
    ensures Consistent(r')
  {
    hide Canonical, Contains;
  }

  lemma {:induction false} AckKeepsConsistent(r: Receiver)
    requires Consistent(r)
    ensures Consistent(AfterAck(r))
  {}

  lemma {:induction false} NotEmpty(r: Receiver)
    requires Consistent(r) && r.largestObserved > 0
    ensures r.ranges != [] && r.ranges[|r.ranges| - 1].end == r.largestObserved && 1 <= r.ranges[0].start
  {
    hide Canonical;
    var i :| 0 <= i < |r.ranges| && r.ranges[i].start <= r.largestObserved <= r.ranges[i].end;
    var n := |r.ranges| - 1;
    Within(r.ranges, 0);
    Within(r.ranges, n);
    Ends(r.ranges, i);
  }

  lemma {:induction false} Within(ranges: seq<Range>, i: nat)
    requires Canonical(ranges) && i < |ranges|
    ensures Contains(ranges, ranges[i].start) && Contains(ranges, ranges[i].end)
  {}

  lemma {:induction false} Ends(ranges: seq<Range>, i: nat)
    requires Canonical(ranges) && i < |ranges|
    ensures ranges[i].end <= ranges[|ranges| - 1].end && ranges[0].start <= ranges[i].start
  {
    assert i > 0 ==> ranges[0].end + 1 < ranges[i].start;
    assert i < |ranges| - 1 ==> ranges[i].end + 1 < ranges[|ranges| - 1].start;
  }

  /** The ACK that is built when one is due passes all consistency checks, and acknowledges exactly
      the tracked packets. */
  lemma {:induction false} AckIsExact(r: Receiver, pathID: nat, delay: nat)
    requires Consistent(r) && r.largestObserved > 0
    ensures r.ranges != []
    ensures var f := AckOf(r, pathID, delay);
            && f.pathID == pathID && f.delay == delay && f.largestAcked == r.largestObserved
            && Validated(f) && 1 <= f.lowestAcked <= f.largestAcked
            && (forall i :: 0 <= i < |f.ranges| ==> 1 <= f.ranges[i].first && f.ranges[i].last <= f.largestAcked)
            && forall p: nat :: AcksPacket(f, p) <==> Contains(r.ranges, p)
  {
    NotEmpty(r);
    ReversedDescends(r.ranges);
    var f := AckOf(r, pathID, delay);
    forall p: nat ensures AcksPacket(f, p) <==> Contains(r.ranges, p) {
      if |r.ranges| == 1 { OneRangeAcks(r, f, p); } else { ReversedAcks(r.ranges, f, p); }
    }
  }

  lemma {:induction false} ReversedDescends(ranges: seq<Range>)
    requires Canonical(ranges) && ranges != []
    ensures Descending(Reversed(ranges)) && ranges[0].start <= ranges[|ranges| - 1].end
    ensures forall i :: 0 <= i < |ranges| ==>
              ranges[0].start <= Reversed(ranges)[i].first && Reversed(ranges)[i].last <= ranges[|ranges| - 1].end
  {
    var n, r := |ranges| - 1, Reversed(ranges);
    forall i | 0 <= i < |r| ensures r[i].first <= r[i].last && ranges[0].start <= r[i].first
        && r[i].last <= ranges[n].end {
      Ends(ranges, n - i);
    }
    forall i, j | 0 <= i < j < |r| ensures r[j].last + 1 < r[i].first {
      assert ranges[n - j].end + 1 < ranges[n - i].start;
    }
  }

  lemma {:induction false} OneRangeAcks(r: Receiver, f: AckFrame, p: nat)
    requires |r.ranges| == 1 && f.ranges == [] && f.lowestAcked == r.ranges[0].start && f.largestAcked
             == r.ranges[0].end
    ensures AcksPacket(f, p) <==> Contains(r.ranges, p)
  {
    if r.ranges[0].start <= p <= r.ranges[0].end { assert Contains(r.ranges, p); }
  }

  lemma {:induction false} ReversedAcks(ranges: seq<Range>, f: AckFrame, p: nat)
    requires Canonical(ranges) && ranges != [] && f.ranges == Reversed(ranges)
    requires f.lowestAcked == ranges[0].start && f.largestAcked == ranges[|ranges| - 1].end
    ensures AcksPacket(f, p) <==> Contains(ranges, p)
  {
    hide Canonical, Descending;
    var n := |ranges| - 1;
    if AcksPacket(f, p) {
      var i :| 0 <= i < |f.ranges| && f.ranges[i].first <= p <= f.ranges[i].last;
      assert ranges[n - i].start <= p <= ranges[n - i].end;
    }
    if Contains(ranges, p) {
      var i :| 0 <= i < |ranges| && ranges[i].start <= p <= ranges[i].end;
      Ends(ranges, i);
      assert f.ranges[n - i].first <= p <= f.ranges[n - i].last;
    }
  }

  // ----- as the source runs it -----

  class ReceivedPacketHandler {
    var largestObserved: nat
    var lowerLimit: nat
    const packetHistory: ReceivedPacketHistory
    var packetsReceivedSinceLastAck: nat
    var retransmittablePacketsReceivedSinceLastAck: nat
    var ackQueued: bool
    var alarmSet: bool
    var lastAckLargest: Option<nat>
    const before39: bool

    ghost function View(): Receiver
      reads this, packetHistory
    {
      Receiver(largestObserved, lowerLimit, packetHistory.ranges, packetsReceivedSinceLastAck,
               retransmittablePacketsReceivedSinceLastAck, ackQueued, alarmSet, lastAckLargest)
    }

    constructor (before39: bool)
      ensures View() == Initial && fresh(packetHistory) && this.before39 == before39
    {
      this.before39 := before39;
      packetHistory := new ReceivedPacketHistory();
      largestObserved, lowerLimit, packetsReceivedSinceLastAck, retransmittablePacketsReceivedSinceLastAck := 0, 0, 0,
          0;
      ackQueued, alarmSet, lastAckLargest := false, false, None;
    }

    method ReceivedPacket(packetNumber: nat, shouldInstigateAck: bool) returns (ok: bool)
      requires Canonical(packetHistory.ranges)
      modifies this, packetHistory
      ensures Receives(old(View()), packetNumber, shouldInstigateAck, before39, View(), ok)
      ensures Canonical(packetHistory.ranges)
    {
      hide Canonical, Contains;
      if packetNumber == 0 {
        return false;
      }
      if packetNumber > largestObserved {
        largestObserved := packetNumber;
      }
      if packetNumber <= lowerLimit {
        return true;
      }
      ok := packetHistory.ReceivedPacket(packetNumber);
      if !ok {
        return;
      }
      AddedIsNotEmpty(old(packetHistory.ranges), packetNumber, packetHistory.ranges);
      MaybeQueueAck(packetNumber, shouldInstigateAck);
    }

    method SetLowerLimit(p: nat)
      requires Canonical(packetHistory.ranges)
      modifies this, packetHistory
      ensures LimitsTo(old(View()), p, View()) && Canonical(packetHistory.ranges)
    {
      hide Canonical, Contains;
      lowerLimit := p;
      packetHistory.DeleteUpTo(p);
    }

    method MaybeQueueAck(packetNumber: nat, shouldInstigateAck: bool)
      modifies this
      ensures View() == QueueAck(old(View()), packetNumber, shouldInstigateAck, before39)
    {
      packetsReceivedSinceLastAck := packetsReceivedSinceLastAck + 1;
      if shouldInstigateAck {
        retransmittablePacketsReceivedSinceLastAck := retransmittablePacketsReceivedSinceLastAck + 1;
      }
      // so far none was sent
      if lastAckLargest == None {
        ackQueued := true;
      }
      if before39 {
        if packetsReceivedSinceLastAck >= MAX_PACKETS_RECEIVED_BEFORE_ACK_SEND {
          ackQueued := true;
        }
      }
      // the packet must have been reported missing with the last ACK
      if lastAckLargest.Some? && packetNumber < lastAckLargest.value {
        ackQueued := true;
      }
      // a new missing range was created
      if lastAckLargest.Some? && packetHistory.ranges != []
         && packetHistory.ranges[|packetHistory.ranges| - 1].start > lastAckLargest.value {
        ackQueued := true;
      }
      if !ackQueued && shouldInstigateAck {
        if retransmittablePacketsReceivedSinceLastAck >= RETRANSMITTABLE_PACKETS_BEFORE_ACK {
          ackQueued := true;
        } else if !alarmSet {
          alarmSet := true;
        }
      }
      if ackQueued {
        alarmSet := false;
      }
    }

    /** `expired` says whether the ACK alarm, if set, has fired. */
    method GetAckFrame(pathID: nat, delay: nat, expired: bool) returns (ack: Option<AckFrame>)
      requires Consistent(View())
      modifies this
      ensures if AckIsDue(old(View()), expired)
              then old(View()).ranges != [] && ack == Some(AckOf(old(View()), pathID, delay))
                  && View() == AfterAck(old(View()))
              else ack == None && View() == old(View())
      ensures Consistent(View())
    {
      hide Canonical, Contains;
      if !ackQueued && (!alarmSet || !expired) {
        return None;
      }
      NotEmpty(View());
      var ackRanges := packetHistory.GetAckRanges();
      var frame := AckFrame(pathID, largestObserved, ackRanges[|ackRanges| - 1].first, [], delay);
      if |ackRanges| > 1 {
        frame := frame.(ranges := ackRanges);
      }
      lastAckLargest := Some(frame.largestAcked);
      alarmSet, ackQueued := false, false;
      packetsReceivedSinceLastAck, retransmittablePacketsReceivedSinceLastAck := 0, 0;
      AckKeepsConsistent(old(View()));
      return Some(frame);
    }
  }

  lemma {:induction false} AddedIsNotEmpty(before: seq<Range>, p: nat, after: seq<Range>)
    requires Added(before, p, after)
    ensures after != []
  {
    assert Contains(after, p);
  }
}
