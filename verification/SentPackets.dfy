/** What the sender's packet bookkeeping does: mpquic_trans/ackhandler/sent_packet_handler.go and
    stop_waiting_manager.go.  The class that does it step by step is in SentPacketHandler.dfy. */
module SentPackets {
  import opened AckFrames

  const MAX_TRACKED_SENT_PACKETS: nat := 5000
  const MAX_TRACKED_SKIPPED_PACKETS: nat := 10
  const MAX_TAIL_LOSS_PROBES: nat := 2

  /** Frames as the handler tells them apart.  A stream frame is a reference to a mutable object,
      which several packets may share. */
  datatype Frame = Stream(ref: nat) | Control(tag: nat) | ClosePath | Ack | StopWaiting

  predicate IsFrameRetransmittable(f: Frame) { f != Ack && f != StopWaiting }

  datatype Packet = Packet(number: nat, length: nat, frames: seq<Frame>) {
    predicate IsRetransmittable() { exists i :: 0 <= i < |frames| && (frames[i].Stream? || frames[i].Control?) }
  }

  datatype Sender = Sender(
    lastSent: nat, skipped: seq<nat>, largestAcked: nat, largestReceivedWithAck: nat,
    history: seq<Packet>, queue: seq<Packet>, bytesInFlight: int,
    numNonRetransmittable: nat, rtoCount: nat, tlpCount: nat, lossTimeSet: bool, nextLeastUnacked: nat)

  const Initial: Sender := Sender(0, [], 0, 0, [], [], 0, 0, 0, 0, false, 0)

  // ----- packet lists -----

  ghost predicate Increasing(h: seq<Packet>) {
    forall i, j :: 0 <= i < j < |h| ==> h[i].number < h[j].number
  }

  function Sum(h: seq<Packet>): nat { if h == [] then 0 else Sum(h[..|h| - 1]) + h[|h| - 1].length }

  /** The packets of `h` whose numbers are in `s`, and those whose numbers are not, in order. */
  function Only(h: seq<Packet>, s: set<nat>): (r: seq<Packet>) {
    if h == [] then []
    else
      var p, rest := h[|h| - 1], Only(h[..|h| - 1], s);
      if p.number in s then rest + [p] else rest
  }

  function Without(h: seq<Packet>, s: set<nat>): (r: seq<Packet>) {
    if h == [] then []
    else
      var p, rest := h[|h| - 1], Without(h[..|h| - 1], s);
      if p.number in s then rest else rest + [p]
  }

  lemma {:induction false} Members(h: seq<Packet>, s: set<nat>)
    ensures forall p :: p in Only(h, s) <==> p in h && p.number in s
    ensures forall p :: p in Without(h, s) <==> p in h && p.number !in s
  {
    if h != [] {
      Members(h[..|h| - 1], s);
      assert h == h[..|h| - 1] + [h[|h| - 1]];
    }
  }

  /** Numbers of the packets in `h` that `ack` acknowledges. */
  function AckedBy(h: seq<Packet>, ack: AckFrame): (s: set<nat>) {
    set i | 0 <= i < |h| && AcksPacket(ack, h[i].number) :: h[i].number
  }

  /** Numbers of the packets up to the largest acknowledged one that have been in flight too long;
      `late` stands for the clock and the round-trip time. */
  function Overdue(h: seq<Packet>, largestAcked: nat, late: nat -> bool): (s: set<nat>) {
    set i | 0 <= i < |h| && h[i].number <= largestAcked && late(h[i].number) :: h[i].number
  }

  // ----- sending -----

  function Strip(frames: seq<Frame>): (r: seq<Frame>)
    ensures forall f :: f in r <==> f in frames && IsFrameRetransmittable(f)
  {
    if frames == [] then []
    else
      var f := frames[|frames| - 1];
      assert forall q :: q in frames <==> q in frames[..|frames| - 1] || q == f;
      if IsFrameRetransmittable(f) then Strip(frames[..|frames| - 1]) + [f] else Strip(frames[..|frames| - 1])
  }

  /** The numbers from `a` up to but not including `b` were skipped; the last ten are remembered. */
  function Skip(skipped: seq<nat>, a: nat, b: nat): (r: seq<nat>)
    requires |skipped| <= MAX_TRACKED_SKIPPED_PACKETS
    ensures |r| <= MAX_TRACKED_SKIPPED_PACKETS
    ensures forall p :: p in r ==> p in skipped || a <= p < b
  {
    if b <= a then skipped
    else
      var s := Skip(skipped, a, b - 1) + [b - 1];
      if |s| > MAX_TRACKED_SKIPPED_PACKETS then s[1..] else s
  }

  datatype SendResult = Sent | NotIncreasing | TooManyTracked

  function AfterSentPacket(s: Sender, p: Packet): (r: (Sender, SendResult))
    requires |s.skipped| <= MAX_TRACKED_SKIPPED_PACKETS
  {
    if p.number <= s.lastSent then (s, NotIncreasing)
    else if |s.queue| + |s.history| + 1 > MAX_TRACKED_SENT_PACKETS then (s, TooManyTracked)
    else
      var s1 := s.(skipped := Skip(s.skipped, s.lastSent + 1, p.number), lastSent := p.number);
      var stripped := p.(frames := Strip(p.frames));
      if stripped.frames != [] then
        (s1.(bytesInFlight := s.bytesInFlight + p.length, history := s.history + [stripped], numNonRetransmittable :=
             0), Sent)
      else (s1.(numNonRetransmittable := s.numNonRetransmittable + 1), Sent)
  }

  // ----- acknowledgements and losses -----

  function LargestInOrderAcked(s: Sender): int {
    if s.history != [] then s.history[0].number - 1 else s.largestAcked
  }

  function Max(a: nat, b: nat): nat { if a < b then b else a }

  function Acknowledge(s: Sender, acked: set<nat>): Sender {
    var any := Only(s.history, acked) != [];
    s.(history := Without(s.history, acked), bytesInFlight := s.bytesInFlight - Sum(Only(s.history, acked)),
       rtoCount := if any then 0 else s.rtoCount, tlpCount := if any then 0 else s.tlpCount)
  }

  /** `lost` leaves the history for the retransmission queue. */
  function Requeue(s: Sender, lost: set<nat>): Sender {
    var packets := Only(s.history, lost);
    s.(history := Without(s.history, lost), queue := s.queue + packets, bytesInFlight := s.bytesInFlight - Sum(packets),
       nextLeastUnacked := if packets == [] then s.nextLeastUnacked else Max(s.nextLeastUnacked, Highest(packets) + 1))
  }

  function Highest(h: seq<Packet>): nat { if h == [] then 0 else Max(Highest(h[..|h| - 1]), h[|h| - 1].number) }

  function DetectLost(s: Sender, late: nat -> bool): Sender {
    var lost := Overdue(s.history, s.largestAcked, late);
    var h := s.history;
    var spared := exists i :: 0 <= i < |h| && h[i].number <= s.largestAcked && !late(h[i].number);
    Requeue(s, lost).(lossTimeSet := spared)
  }

  /** Forgets the skipped numbers up to the last one at or below `bound`. */
  function Collect(skipped: seq<nat>, bound: int): (r: seq<nat>)
    ensures |r| <= |skipped| && forall p :: p in r ==> p in skipped
  {
    if skipped == [] then []
    else if skipped[|skipped| - 1] <= bound then []
    else
      Collect(skipped[..|skipped| - 1], bound) + [skipped[|skipped| - 1]]
  }

  datatype AckResult = Processed | AckForUnsentPacket | DuplicateOrOutOfOrder | AckForSkippedPacket

  predicate SkippedPacketsAcked(s: Sender, ack: AckFrame) {
    exists i :: 0 <= i < |s.skipped| && AcksPacket(ack, s.skipped[i])
  }

  function AfterReceivedAck(s: Sender, ack: AckFrame, withPacketNumber: nat,
                            late: nat -> bool): (r: (Sender, AckResult)) {
    if ack.largestAcked > s.lastSent then (s, AckForUnsentPacket)
    else if withPacketNumber <= s.largestReceivedWithAck then (s, DuplicateOrOutOfOrder)
    else
      var s1 := s.(largestReceivedWithAck := withPacketNumber);
      if ack.largestAcked <= LargestInOrderAcked(s1) then (s1, Processed)
      else
        var s2 := s1.(largestAcked := ack.largestAcked);
        if SkippedPacketsAcked(s2, ack) then (s2, AckForSkippedPacket)
        else
          var s3 := DetectLost(Acknowledge(s2, AckedBy(s2.history, ack)), late);
          (s3.(skipped := Collect(s3.skipped, LargestInOrderAcked(s3)),
               nextLeastUnacked := Max(s3.nextLeastUnacked, ack.largestAcked + 1)), Processed)
  }

  /** What is acknowledged by an ACK that is taken into account. */
  ghost function NewlyAcked(s: Sender, ack: AckFrame, n: nat): set<nat> {
    if ack.largestAcked <= s.lastSent && n > s.largestReceivedWithAck && ack.largestAcked > LargestInOrderAcked(s)
       && !SkippedPacketsAcked(s, ack)
    then AckedBy(s.history, ack) else {}
  }

  // ----- timers and the retransmission queue -----

  predicate HasOutstandingRetransmittablePacket(s: Sender) {
    exists i :: 0 <= i < |s.history| && s.history[i].IsRetransmittable()
  }

  function FirstNumbers(h: seq<Packet>, n: nat): set<nat> {
    set i | 0 <= i < |h| && i < n :: h[i].number
  }

  function AfterAlarm(s: Sender, late: nat -> bool, potentiallyFailed: bool): Sender {
    if !HasOutstandingRetransmittablePacket(s) then s
    else if s.lossTimeSet then DetectLost(s, late)
    else if s.tlpCount < MAX_TAIL_LOSS_PROBES then
      Requeue(s, {s.history[|s.history| - 1].number}).(tlpCount := s.tlpCount + 1)
    else
      Requeue(s, FirstNumbers(s.history, if potentiallyFailed then |s.history| else 2)).(rtoCount := s.rtoCount + 1)
  }

  function AfterInflightLost(s: Sender): Sender {
    Requeue(s, Overdue(s.history, s.largestAcked, _ => true))
  }

  datatype Option<T> = None | Some(value: T)

  function AfterDequeue(s: Sender): (Sender, Option<Packet>) {
    if s.queue == [] then (s, None) else (s.(queue := s.queue[1..]), Some(s.queue[0]))
  }

  function AfterDuplicate(s: Sender, p: Packet): Sender { s.(queue := s.queue + [p]) }

  // ----- invariants of every run -----

  /** History strictly increasing, nothing unsent in it, and the bytes in flight are its bytes;
      the counter is an integer here, so an underflow in the source would show as a negative value. */
  ghost predicate Inv(s: Sender) {
    && Increasing(s.history)
    && (forall p :: p in s.history ==> 0 < p.number <= s.lastSent)
    && s.bytesInFlight == Sum(s.history)
    && |s.skipped| <= MAX_TRACKED_SKIPPED_PACKETS
    && s.largestAcked <= s.lastSent
  }

  lemma {:induction false} SplitSum(h: seq<Packet>, s: set<nat>)
    ensures Sum(Only(h, s)) + Sum(Without(h, s)) == Sum(h)
  {
    if h != [] {
      var p, init := h[|h| - 1], h[..|h| - 1];
      SplitSum(init, s);
      var o, w := Only(init, s), Without(init, s);
      assert (o + [p])[..|o|] == o && (w + [p])[..|w|] == w;
    }
  }

  lemma {:induction false} IncreasingAppend(h: seq<Packet>, p: Packet)
    requires Increasing(h) && forall q :: q in h ==> q.number < p.number
    ensures Increasing(h + [p])
  {
    var r := h + [p];
    forall i, j | 0 <= i < j < |r| ensures r[i].number < r[j].number { assert r[i] in h; }
  }

  lemma {:induction false} IncreasingInit(h: seq<Packet>)
    requires Increasing(h) && h != []
    ensures Increasing(h[..|h| - 1]) && forall q :: q in h[..|h| - 1] ==> q.number < h[|h| - 1].number
  {}

  lemma {:induction false} WithoutIncreasing(h: seq<Packet>, s: set<nat>)
    requires Increasing(h)
    ensures Increasing(Without(h, s)) && |Without(h, s)| <= |h|
  {
    hide Increasing;
    if h != [] {
      IncreasingInit(h);
      WithoutIncreasing(h[..|h| - 1], s);
      Members(h[..|h| - 1], s);
      IncreasingAppend(Without(h[..|h| - 1], s), h[|h| - 1]);
    } else {
      assert Without(h, s) == h;
    }
  }

  lemma {:induction false} RemoveKeepsInv(s: Sender, t: Sender, gone: set<nat>)
    requires Inv(s) && t.history == Without(s.history, gone) && t.bytesInFlight
             == s.bytesInFlight - Sum(Only(s.history, gone))
    requires t.skipped == s.skipped && t.largestAcked == s.largestAcked && t.lastSent == s.lastSent
    ensures Inv(t) && t.bytesInFlight >= 0
  {
    hide Without, Only, Sum, Increasing;
    SplitSum(s.history, gone);
    WithoutIncreasing(s.history, gone);
    Members(s.history, gone);
  }

  lemma {:induction false} SentKeepsInv(s: Sender, p: Packet)
    requires Inv(s)
    ensures Inv(AfterSentPacket(s, p).0)
  {
    hide Increasing, Strip, Skip, Sum;
    var q := p.(frames := Strip(p.frames));
    SumAppend(s.history, q);
    if s.lastSent < p.number { IncreasingAppend(s.history, q); }
  }

  lemma {:induction false} SumAppend(h: seq<Packet>, p: Packet)
    ensures Sum(h + [p]) == Sum(h) + p.length
  {
    assert (h + [p])[..|h|] == h;
  }

  lemma {:induction false} AckKeepsInv(s: Sender, ack: AckFrame, n: nat, late: nat -> bool)
    requires Inv(s)
    ensures Inv(AfterReceivedAck(s, ack, n, late).0)
  {
    hide Without, Only, AckedBy, Overdue, Sum, Increasing, Highest;
    var (t, r) := AfterReceivedAck(s, ack, n, late);
    if n > s.largestReceivedWithAck && s.lastSent >= ack.largestAcked > LargestInOrderAcked(s) {
      var s2 := s.(largestReceivedWithAck := n, largestAcked := ack.largestAcked);
      var s3 := Acknowledge(s2, AckedBy(s2.history, ack));
      RemoveKeepsInv(s2, s3, AckedBy(s2.history, ack));
      DetectKeepsInv(s3, late);
    }
  }

  lemma {:induction false} DetectKeepsInv(s: Sender, late: nat -> bool)
    requires Inv(s)
    ensures Inv(DetectLost(s, late))
  {
    hide Without, Only, Overdue, Sum, Increasing, Highest;
    RemoveKeepsInv(s, DetectLost(s, late), Overdue(s.history, s.largestAcked, late));
  }

  lemma {:induction false} AlarmKeepsInv(s: Sender, late: nat -> bool, failed: bool)
    requires Inv(s)
    ensures Inv(AfterAlarm(s, late, failed))
  {
    hide Without, Only, Overdue, Sum, Increasing, DetectLost, Highest, FirstNumbers;
    DetectKeepsInv(s, late);
    if HasOutstandingRetransmittablePacket(s) {
      RemoveKeepsInv(s, Requeue(s, {s.history[|s.history| - 1].number}), {s.history[|s.history| - 1].number});
      RemoveKeepsInv(s, Requeue(s, FirstNumbers(s.history, |s.history|)), FirstNumbers(s.history, |s.history|));
      RemoveKeepsInv(s, Requeue(s, FirstNumbers(s.history, 2)), FirstNumbers(s.history, 2));
    }
  }

  lemma {:induction false} InflightLostKeepsInv(s: Sender)
    requires Inv(s)
    ensures Inv(AfterInflightLost(s))
  {
    RemoveKeepsInv(s, AfterInflightLost(s), Overdue(s.history, s.largestAcked, _ => true));
  }

  // ----- whole runs -----

  datatype Action =
    | SendPacket(packet: Packet)
    | ReceiveAck(ack: AckFrame, withPacketNumber: nat, late: nat -> bool)
    | Alarm(late: nat -> bool, potentiallyFailed: bool)
    | InflightLost
    | Dequeue
    | DuplicatePacket(packet: Packet)

  ghost function Act(s: Sender, a: Action): Sender
    requires |s.skipped| <= MAX_TRACKED_SKIPPED_PACKETS
  {
    match a
    case SendPacket(p) => AfterSentPacket(s, p).0
    case ReceiveAck(ack, n, late) => AfterReceivedAck(s, ack, n, late).0
    case Alarm(late, failed) => AfterAlarm(s, late, failed)
    case InflightLost => AfterInflightLost(s)
    case Dequeue => AfterDequeue(s).0
    case DuplicatePacket(p) => AfterDuplicate(s, p)
  }

  lemma {:induction false} ActKeepsInv(s: Sender, a: Action)
    requires Inv(s)
    ensures Inv(Act(s, a))
  {
    hide Sum, Increasing;
    match a
    case SendPacket(p) => SentKeepsInv(s, p);
    case ReceiveAck(ack, n, late) => AckKeepsInv(s, ack, n, late);
    case Alarm(late, failed) => AlarmKeepsInv(s, late, failed);
    case InflightLost => InflightLostKeepsInv(s);
    case Dequeue =>
    case DuplicatePacket(p) =>
  }

  ghost function Run(actions: seq<Action>): (s: Sender)
    ensures Inv(s)
  {
    if actions == [] then Initial
    else
      ActKeepsInv(Run(actions[..|actions| - 1]), actions[|actions| - 1]);
      Act(Run(actions[..|actions| - 1]), actions[|actions| - 1])
  }

  /** In every run the history is strictly increasing, contains only sent packets, and the bytes in
      flight are exactly the bytes of its packets, hence never negative. */
  lemma {:induction false} BytesInFlightAreExact(actions: seq<Action>)
    ensures var s := Run(actions);
            && s.bytesInFlight == Sum(s.history) >= 0
            && (forall i, j :: 0 <= i < j < |s.history| ==> s.history[i].number < s.history[j].number)
            && (forall p :: p in s.history ==> 0 < p.number <= s.lastSent)
  {
    assert Inv(Run(actions));
  }
}
