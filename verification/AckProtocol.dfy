/** Sender, receiver and a network that loses, repeats and reorders: acknowledgements from end to
    end, with ACK frames travelling as bytes.  One path, one direction. */
module AckProtocol {
  import opened Bytes
  import opened AckFrames
  import opened AckCodec
  import AckRoundTrip
  import opened ReceivedHistory
  import R = ReceivedPackets
  import S = SentPackets
  import SentPacketRules

  /** `sent` and `received` are the packet numbers the sender has sent and the peer has received;
      `acks` are the ACK frames the peer has written, any of which may arrive at any time, any
      number of times; `acknowledged` is what the sender has taken as acknowledged so far. */
  datatype World = World(sender: S.Sender, receiver: R.Receiver, sent: set<nat>, received: set<nat>,
                         acks: set<seq<byte>>, acknowledged: set<nat>)

  const Start: World := World(S.Initial, R.Initial, {}, {}, {}, {})

  datatype Config = Config(order: ByteOrder, before39: bool)

  datatype Action =
    | Send(packet: S.Packet)
    | Deliver(n: nat, instigate: bool, leastUnacked: R.Option<nat>)
    | EmitAck(pathID: nat, delay: nat, expired: bool)
    | DeliverAck(bytes: seq<byte>, withPacketNumber: nat, late: nat -> bool)
    | SenderTimer(late: nat -> bool, potentiallyFailed: bool)
    | SenderGivesUp
    | Retransmit
    | Duplicate(packet: S.Packet)

  ghost predicate ReceiverStep(c: Config, r: R.Receiver, n: nat, instigate: bool, leastUnacked: R.Option<nat>,
                               r': R.Receiver) {
    match leastUnacked
    case None => R.Receives(r, n, instigate, c.before39, r', true)
    case Some(least) =>
      // a parsed STOP_WAITING frame names a packet number in 1..n
      1 <= least <= n && exists r1 :: R.Receives(r, n, instigate, c.before39, r1, true) && R.LimitsTo(r1, least - 1, r')
  }

  /** One step.  Steps in which the receiver reports too many ranges, or cannot write its ACK, end
      the session and are not steps here. */
  ghost predicate Next(c: Config, w: World, a: Action, w': World) {
    match a
    case Send(p) =>
      && p.number < MAX_PACKET_NUMBER && |w.sender.skipped| <= S.MAX_TRACKED_SKIPPED_PACKETS
      && var (s, r) := S.AfterSentPacket(w.sender, p);
         w' == w.(sender := s, sent := if r == S.Sent then w.sent + {p.number} else w.sent)
    case Deliver(n, instigate, least) =>
      && n in w.sent && ReceiverStep(c, w.receiver, n, instigate, least, w'.receiver)
      && w' == w.(receiver := w'.receiver, received := w.received + {n})
    case EmitAck(pathID, delay, expired) =>
      && R.AckIsDue(w.receiver, expired) && w.receiver.ranges != [] && pathID < 256
      && var f := R.AckOf(w.receiver, pathID, delay);
         && Writable(f) && WriteAck(f, c.order).Ok?
         && w' == w.(receiver := R.AfterAck(w.receiver), acks := w.acks + {WriteAck(f, c.order).value})
    case DeliverAck(bytes, n, late) =>
      && bytes in w.acks
      && w' == if ParseAck(bytes, c.order).Err? then w else
                 var f := ParseAck(bytes, c.order).value.0;
                 w.(sender := S.AfterReceivedAck(w.sender, f, n, late).0,
                    acknowledged := w.acknowledged + S.NewlyAcked(w.sender, f, n))
    case SenderTimer(late, failed) => w' == w.(sender := S.AfterAlarm(w.sender, late, failed))
    case SenderGivesUp => w' == w.(sender := S.AfterInflightLost(w.sender))
    case Retransmit => w' == w.(sender := S.AfterDequeue(w.sender).0)
    case Duplicate(p) => w' == w.(sender := S.AfterDuplicate(w.sender, p))
  }

  ghost predicate SenderOk(s: S.Sender, sent: set<nat>) {
    && S.Inv(s) && s.lastSent < MAX_PACKET_NUMBER
    && (forall n :: n in sent ==> 1 <= n <= s.lastSent)
    && (forall i :: 0 <= i < |s.skipped| ==> s.skipped[i] <= s.lastSent && s.skipped[i] !in sent)
  }

  ghost predicate ReceiverOk(r: R.Receiver, received: set<nat>) {
    R.Consistent(r) && forall p: nat :: Contains(r.ranges, p) ==> p in received
  }

  /** An ACK that parses and speaks only of received packets. */
  ghost predicate AckOk(c: Config, bytes: seq<byte>, received: set<nat>) {
    && ParseAck(bytes, c.order).Ok?
    && var f := ParseAck(bytes, c.order).value.0;
       f.largestAcked in received && forall p: nat :: AcksPacket(f, p) ==> p in received
  }

  ghost predicate Inv(c: Config, w: World) {
    && SenderOk(w.sender, w.sent)
    && ReceiverOk(w.receiver, w.received)
    && w.received <= w.sent
    && (forall b :: b in w.acks ==> AckOk(c, b, w.received))
    && w.acknowledged <= w.received
  }

  // ----- every step keeps the invariant -----

  lemma {:induction false} SendOk(s: S.Sender, sent: set<nat>, p: S.Packet)
    requires SenderOk(s, sent) && p.number < MAX_PACKET_NUMBER
    ensures var (t, r) := S.AfterSentPacket(s, p); SenderOk(t, if r == S.Sent then sent + {p.number} else sent)
  {
    hide S.Increasing, S.Sum, S.Strip, S.Skip;
    S.SentKeepsInv(s, p);
    var (t, r) := S.AfterSentPacket(s, p);
    if r == S.Sent {
      SkippedAreUnsent(s, sent, p, t.skipped);
    }
  }

  lemma {:induction false} SkippedAreUnsent(s: S.Sender, sent: set<nat>, p: S.Packet, k: seq<nat>)
    requires SenderOk(s, sent) && s.lastSent < p.number && k == S.Skip(s.skipped, s.lastSent + 1, p.number)
    ensures forall i :: 0 <= i < |k| ==> k[i] < p.number && k[i] !in sent
  {
    hide S.Skip, S.Increasing, S.Sum;
    forall i | 0 <= i < |k| ensures k[i] < p.number && k[i] !in sent {
      assert k[i] in k;
    }
  }

  lemma {:induction false} AckStepOk(s: S.Sender, sent: set<nat>, f: AckFrame, n: nat, late: nat -> bool)
    requires SenderOk(s, sent)
    ensures SenderOk(S.AfterReceivedAck(s, f, n, late).0, sent)
  {
    hide S.Increasing, S.Sum, S.Collect, S.Without, S.Only, S.AckedBy, S.Overdue, S.Highest;
    S.AckKeepsInv(s, f, n, late);
    var t := S.AfterReceivedAck(s, f, n, late).0;
    forall i | 0 <= i < |t.skipped| ensures t.skipped[i] <= s.lastSent && t.skipped[i] !in sent {
      assert t.skipped[i] in t.skipped;
      assert t.skipped[i] in s.skipped;
    }
  }

  /** Against a correct peer neither of the two fatal ACK errors occurs. */
  lemma {:induction false} NoFatalAckError(s: S.Sender, sent: set<nat>, received: set<nat>, f: AckFrame, n: nat,
                                           late: nat -> bool)
    requires SenderOk(s, sent) && received <= sent && f.largestAcked in received
    requires forall p: nat :: AcksPacket(f, p) ==> p in received
    ensures S.AfterReceivedAck(s, f, n, late).1 in {S.Processed, S.DuplicateOrOutOfOrder}
    ensures S.NewlyAcked(s, f, n) <= received
  {
    hide S.Inv, S.DetectLost, S.Acknowledge, S.Collect, AcksPacket;
  }

  lemma {:induction false} DeliverOk(c: Config, r: R.Receiver, received: set<nat>, n: nat, instigate: bool,
                                     least: R.Option<nat>, r': R.Receiver)
    requires ReceiverOk(r, received) && ReceiverStep(c, r, n, instigate, least, r')
    ensures ReceiverOk(r', received + {n})
  {
    hide Canonical, Contains;
    match least
    case None => R.ReceivesKeepsConsistent(r, n, instigate, c.before39, r');
    case Some(l) =>
      var r1 :| R.Receives(r, n, instigate, c.before39, r1, true) && R.LimitsTo(r1, l - 1, r');
      R.ReceivesKeepsConsistent(r, n, instigate, c.before39, r1);
      R.LimitKeepsConsistent(r1, l - 1, r');
  }

  lemma {:induction false} EmitOk(c: Config, r: R.Receiver, received: set<nat>, pathID: nat, delay: nat)
    requires ReceiverOk(r, received) && r.largestObserved > 0 && r.ranges != []
    requires var f := R.AckOf(r, pathID, delay); Writable(f) && WriteAck(f, c.order).Ok?
    ensures AckOk(c, WriteAck(R.AckOf(r, pathID, delay), c.order).value, received)
  {
    hide Canonical, Contains, Writable, WriteAck, ParseAck, Validated, AcksPacket, AckRoundTrip.Received;
    R.AckIsExact(r, pathID, delay);
    var f := R.AckOf(r, pathID, delay);
    RangesOf(r, pathID, delay);
    var bytes := WriteAck(f, c.order).value;
    AckRoundTrip.RoundTrip(f, c.order, []);
    assert bytes + [] == bytes;
  }

  lemma {:induction false} RangesOf(r: R.Receiver, pathID: nat, delay: nat)
    requires r.ranges != []
    ensures |R.AckOf(r, pathID, delay).ranges| != 1 && R.AckOf(r, pathID, delay).largestAcked == r.largestObserved
  {}

  /** Every ACK the receiver wants to send can be written, unless its first gap is too long. */
  lemma {:induction false} EmitIsPossible(c: Config, w: World, pathID: nat, delay: nat, expired: bool)
    requires Inv(c, w) && R.AckIsDue(w.receiver, expired) && pathID < 256
    ensures w.receiver.ranges != []
    ensures var f := R.AckOf(w.receiver, pathID, delay);
            && Writable(f)
            && (WriteAck(f, c.order).Err? <==> f.ranges != [] && GapAbove(f.ranges, 1) > 254 * 255)
  {
    hide Canonical, Contains, S.Inv, WriteAck, AckOk, GapAbove;
    R.AckIsExact(w.receiver, pathID, delay);
    AckRoundTrip.WriteFailsIff(R.AckOf(w.receiver, pathID, delay), c.order);
  }

  lemma {:induction false} AcksStayOk(c: Config, acks: set<seq<byte>>, received: set<nat>, received': set<nat>)
    requires received <= received' && forall b :: b in acks ==> AckOk(c, b, received)
    ensures forall b :: b in acks ==> AckOk(c, b, received')
  {
    hide ParseAck, AcksPacket;
  }

  lemma {:induction false} SenderOnlyOk(s: S.Sender, t: S.Sender, sent: set<nat>)
    requires SenderOk(s, sent) && S.Inv(t) && t.lastSent == s.lastSent && t.skipped == s.skipped
    ensures SenderOk(t, sent)
  {
    hide S.Inv;
  }

  lemma {:induction false} NextKeepsInv(c: Config, w: World, a: Action, w': World)
    requires Inv(c, w) && Next(c, w, a, w')
    ensures Inv(c, w')
  {
    match a
    case Send(p) => SendStep(c, w, p, w');
    case Deliver(n, instigate, least) => DeliverStep(c, w, n, instigate, least, w');
    case EmitAck(pathID, delay, expired) => EmitStep(c, w, pathID, delay, expired, w');
    case DeliverAck(bytes, n, late) => DeliverAckStep(c, w, bytes, n, late, w');
    case SenderTimer(late, failed) => S.AlarmKeepsInv(w.sender, late, failed); SenderOnlyOk(w.sender, w'.sender,
        w.sent);
    case SenderGivesUp => S.InflightLostKeepsInv(w.sender); SenderOnlyOk(w.sender, w'.sender, w.sent);
    case Retransmit => SenderOnlyOk(w.sender, w'.sender, w.sent);
    case Duplicate(p) => SenderOnlyOk(w.sender, w'.sender, w.sent);
  }

  lemma {:induction false} SendStep(c: Config, w: World, p: S.Packet, w': World)
    requires Inv(c, w) && Next(c, w, Send(p), w')
    ensures Inv(c, w')
  {
    hide SenderOk, ReceiverOk, AckOk, S.AfterSentPacket;
    SendOk(w.sender, w.sent, p);
  }

  lemma {:induction false} DeliverStep(c: Config, w: World, n: nat, instigate: bool, least: R.Option<nat>, w': World)
    requires Inv(c, w) && Next(c, w, Deliver(n, instigate, least), w')
    ensures Inv(c, w')
  {
    hide SenderOk, ReceiverOk, AckOk, ReceiverStep;
    DeliverOk(c, w.receiver, w.received, n, instigate, least, w'.receiver);
    AcksStayOk(c, w.acks, w.received, w'.received);
  }

  lemma {:induction false} EmitStep(c: Config, w: World, pathID: nat, delay: nat, expired: bool, w': World)
    requires Inv(c, w) && Next(c, w, EmitAck(pathID, delay, expired), w')
    ensures Inv(c, w')
  {
    hide SenderOk, AckOk, R.AckOf, Writable, WriteAck, Contains, Canonical;
    EmitOk(c, w.receiver, w.received, pathID, delay);
    R.AckKeepsConsistent(w.receiver);
  }

  lemma {:induction false} DeliverAckStep(c: Config, w: World, bytes: seq<byte>, n: nat, late: nat -> bool, w': World)
    requires Inv(c, w) && Next(c, w, DeliverAck(bytes, n, late), w')
    ensures Inv(c, w')
  {
    hide SenderOk, ReceiverOk, S.AfterReceivedAck, S.NewlyAcked, ParseAck, AcksPacket;
    assert AckOk(c, bytes, w.received);
    var f := ParseAck(bytes, c.order).value.0;
    AckStepOk(w.sender, w.sent, f, n, late);
    NoFatalAckError(w.sender, w.sent, w.received, f, n, late);
  }

  // ----- whole runs -----

  ghost predicate IsRun(c: Config, states: seq<World>, actions: seq<Action>) {
    && |states| == |actions| + 1 && states[0] == Start
    && forall i :: 0 <= i < |actions| ==> Next(c, states[i], actions[i], states[i + 1])
  }

  lemma {:induction false} StartInv(c: Config)
    ensures Inv(c, Start)
  {
    assert forall p: nat :: !Contains([], p);
  }

  lemma {:induction false} RunInv(c: Config, states: seq<World>, actions: seq<Action>, i: nat)
    requires IsRun(c, states, actions) && i < |states|
    ensures Inv(c, states[i])
  {
    if i == 0 {
      StartInv(c);
    } else {
      RunInv(c, states, actions, i - 1);
      NextKeepsInv(c, states[i - 1], actions[i - 1], states[i]);
    }
  }

  /** End-to-end soundness of acknowledgements: at every point of every run, what the sender has
      taken as acknowledged has been received by the peer, whichever ACK arrives next parses and
      causes neither fatal error, and what it would acknowledge has been received as well. */
  lemma {:induction false} AcksAreSound(c: Config, states: seq<World>, actions: seq<Action>, i: nat, bytes: seq<byte>,
                                        n: nat, late: nat -> bool)
    requires IsRun(c, states, actions) && i < |states| && bytes in states[i].acks
    ensures var w := states[i];
            && w.acknowledged <= w.received <= w.sent
            && ParseAck(bytes, c.order).Ok?
            && var f := ParseAck(bytes, c.order).value.0;
               && S.AfterReceivedAck(w.sender, f, n, late).1 in {S.Processed, S.DuplicateOrOutOfOrder}
               && S.NewlyAcked(w.sender, f, n) <= w.received
  {
    hide SenderOk, ReceiverOk, S.AfterReceivedAck, S.NewlyAcked, ParseAck, AcksPacket, IsRun;
    RunInv(c, states, actions, i);
    var w := states[i];
    assert AckOk(c, bytes, w.received);
    NoFatalAckError(w.sender, w.sent, w.received, ParseAck(bytes, c.order).value.0, n, late);
  }

  // ----- what is acknowledged is no longer in flight -----

  ghost predicate NoneAcknowledged(h: seq<S.Packet>, acknowledged: set<nat>) {
    forall p :: p in h ==> p.number !in acknowledged
  }

  lemma {:induction false} AckLeaves(s: S.Sender, f: AckFrame, n: nat, late: nat -> bool, acknowledged: set<nat>)
    requires S.Inv(s) && NoneAcknowledged(s.history, acknowledged)
    ensures NoneAcknowledged(S.AfterReceivedAck(s, f, n, late).0.history, acknowledged + S.NewlyAcked(s, f, n))
  {
    hide S.Inv, S.AfterReceivedAck, AcksPacket;
    if SentPacketRules.Counts(s, f, n) {
      var acked, lost := SentPacketRules.AckRemoves(s, f, n, late);
    } else {
      SentPacketRules.OtherAcksChangeNothing(s, f, n, late);
      NothingNew(s, f, n);
    }
  }

  lemma {:induction false} NothingNew(s: S.Sender, f: AckFrame, n: nat)
    requires !SentPacketRules.Counts(s, f, n)
    ensures S.NewlyAcked(s, f, n) == {}
  {
    hide AcksPacket;
    if S.NewlyAcked(s, f, n) != {} {
      forall k | k in s.skipped ensures !AcksPacket(f, k) { var i :| 0 <= i < |s.skipped| && s.skipped[i] == k; }
    }
  }

  lemma {:induction false} RequeueShrinks(s: S.Sender, lost: set<nat>)
    ensures forall p :: p in S.Requeue(s, lost).history ==> p in s.history
  {
    hide S.Without, S.Only, S.Sum, S.Highest;
    S.Members(s.history, lost);
  }

  lemma {:induction false} NextLeaves(c: Config, w: World, a: Action, w': World)
    requires Inv(c, w) && Next(c, w, a, w') && NoneAcknowledged(w.sender.history, w.acknowledged)
    ensures NoneAcknowledged(w'.sender.history, w'.acknowledged)
  {
    hide ReceiverOk, AckOk, ReceiverStep, ParseAck, WriteAck, S.Requeue, S.Overdue, S.FirstNumbers, S.Skip, S.Strip,
         S.AfterReceivedAck, S.NewlyAcked, S.Inv;
    var s := w.sender;
    match a
    case Send(p) => assert forall n :: n in w.acknowledged ==> n <= s.lastSent;
    case DeliverAck(bytes, n, late) =>
      if ParseAck(bytes, c.order).Ok? { AckLeaves(s, ParseAck(bytes, c.order).value.0, n, late, w.acknowledged); }
    case SenderTimer(late, failed) =>
      RequeueShrinks(s, S.Overdue(s.history, s.largestAcked, late));
      if s.history != [] {
        RequeueShrinks(s, {s.history[|s.history| - 1].number});
        RequeueShrinks(s, S.FirstNumbers(s.history, if failed then |s.history| else 2));
      }
    case SenderGivesUp => RequeueShrinks(s, S.Overdue(s.history, s.largestAcked, _ => true));
    case _ =>
  }

  /** At every point of every run no packet that was acknowledged is counted as in flight. */
  lemma {:induction false} AcknowledgedLeave(c: Config, states: seq<World>, actions: seq<Action>, i: nat)
    requires IsRun(c, states, actions) && i < |states|
    ensures forall p :: p in states[i].sender.history ==> p.number !in states[i].acknowledged
  {
    hide Next, Inv;
    if i > 0 {
      AcknowledgedLeave(c, states, actions, i - 1);
      RunInv(c, states, actions, i - 1);
      NextLeaves(c, states[i - 1], actions[i - 1], states[i]);
    }
  }
}
