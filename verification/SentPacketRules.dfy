/** What the sender's packet bookkeeping does, said without the functions that compute it: which packets
    leave the history, which are queued, and what is counted.
    mpquic_trans/ackhandler/sent_packet_handler.go. */
module SentPacketRules {
  import opened AckFrames
  import opened SentPackets

  // ----- parts of the history -----

  /** `part` holds the packets of `h` whose numbers satisfy `yes`, in the order of `h`. */
  ghost predicate Selects(h: seq<Packet>, part: seq<Packet>, yes: nat -> bool) {
    Increasing(part) && forall p :: p in part <==> p in h && yes(p.number)
  }

  lemma {:induction false} OnlyIncreasing(h: seq<Packet>, s: set<nat>)
    requires Increasing(h)
    ensures Increasing(Only(h, s))
  {
    hide Increasing;
    if h != [] {
      IncreasingInit(h);
      OnlyIncreasing(h[..|h| - 1], s);
      Members(h[..|h| - 1], s);
      IncreasingAppend(Only(h[..|h| - 1], s), h[|h| - 1]);
    } else {
      assert Only(h, s) == h;
    }
  }

  lemma {:induction false} Parts(h: seq<Packet>, s: set<nat>)
    requires Increasing(h)
    ensures Selects(h, Only(h, s), (k: nat) => k in s) && Selects(h, Without(h, s), (k: nat) => k !in s)
  {
    hide Increasing, Only, Without;
    OnlyIncreasing(h, s);
    WithoutIncreasing(h, s);
    Members(h, s);
  }

  lemma {:induction false} OnlyPrefix(h: seq<Packet>, k: nat)
    requires Increasing(h) && k <= |h|
    ensures Only(h, FirstNumbers(h, k)) == h[..k] && Without(h, FirstNumbers(h, k)) == h[k..]
  {
    assert h[..k] + h[k..] == h;
    OnlyInside(h[..k], FirstNumbers(h, k));
    SplitAppend(h[..k], h[k..], FirstNumbers(h, k));
    NoneInside(h[k..], FirstNumbers(h, k));
  }

  lemma {:induction false} OnlyInside(h: seq<Packet>, s: set<nat>)
    requires forall p :: p in h ==> p.number in s
    ensures Only(h, s) == h && Without(h, s) == []
  {
    if h != [] {
      OnlyInside(h[..|h| - 1], s);
      assert h == h[..|h| - 1] + [h[|h| - 1]];
    }
  }

  lemma {:induction false} NoneInside(h: seq<Packet>, s: set<nat>)
    requires forall p :: p in h ==> p.number !in s
    ensures Only(h, s) == [] && Without(h, s) == h
  {
    if h != [] {
      NoneInside(h[..|h| - 1], s);
      assert h == h[..|h| - 1] + [h[|h| - 1]];
    }
  }

  lemma {:induction false} SplitAppend(a: seq<Packet>, b: seq<Packet>, s: set<nat>)
    ensures Only(a + b, s) == Only(a, s) + Only(b, s) && Without(a + b, s) == Without(a, s) + Without(b, s)
    decreases |b|
  {
    if b == [] {
      assert a + b == a;
    } else {
      SplitAppend(a, b[..|b| - 1], s);
      assert (a + b)[..|a + b| - 1] == a + b[..|b| - 1];
    }
  }

  lemma {:induction false} OnlyLast(h: seq<Packet>)
    requires Increasing(h) && h != []
    ensures Only(h, {h[|h| - 1].number}) == [h[|h| - 1]]
    ensures Without(h, {h[|h| - 1].number}) == h[..|h| - 1]
  {
    IncreasingInit(h);
    NoneInside(h[..|h| - 1], {h[|h| - 1].number});
  }

  lemma {:induction false} HighestIsLast(h: seq<Packet>)
    requires Increasing(h) && h != []
    ensures Highest(h) == h[|h| - 1].number
  {
    if |h| > 1 { HighestIsLast(h[..|h| - 1]); }
  }

  lemma {:induction false} HighestBelow(h: seq<Packet>, bound: nat)
    requires forall p :: p in h ==> p.number <= bound
    ensures Highest(h) <= bound
  {
    if h != [] { HighestBelow(h[..|h| - 1], bound); }
  }

  // ----- sending -----

  /** The frames that are tracked are those of the packet but ACK and STOP_WAITING, in order. */
  lemma {:induction false} StripSplits(a: seq<Frame>, b: seq<Frame>)
    ensures Strip(a + b) == Strip(a) + Strip(b)
    decreases |b|
  {
    if b == [] {
      assert a + b == a;
    } else {
      StripSplits(a, b[..|b| - 1]);
      assert (a + b)[..|a + b| - 1] == a + b[..|b| - 1];
    }
  }

  lemma {:induction false} StripOne(f: Frame)
    ensures Strip([f]) == if f == Ack || f == StopWaiting then [] else [f]
  {
    assert [f][..0] == [] && Strip([]) == [];
  }

  function Between(a: nat, b: nat): (r: seq<nat>)
    ensures b <= a ==> r == []
    ensures a < b ==> |r| == b - a && forall i :: 0 <= i < |r| ==> r[i] == a + i
  {
    if b <= a then [] else seq(b - a, i => a + i)
  }

  /** The last ten of the skipped numbers are remembered. */
  lemma {:induction false} SkipRemembers(skipped: seq<nat>, a: nat, b: nat)
    requires |skipped| <= MAX_TRACKED_SKIPPED_PACKETS
    ensures var all := skipped + Between(a, b);
            Skip(skipped, a, b) == if |all| <= 10 then all else all[|all| - 10..]
    decreases b
  {
    hide Between;
    var all := skipped + Between(a, b);
    if b <= a {
      assert Between(a, b) == [];
      assert all == skipped;
    } else {
      SkipRemembers(skipped, a, b - 1);
      var before := skipped + Between(a, b - 1);
      OneMore(a, b);
      assert all == before + [b - 1];
      LastTen(before, b - 1);
    }
  }

  lemma {:induction false} OneMore(a: nat, b: nat)
    requires a < b
    ensures Between(a, b) == Between(a, b - 1) + [b - 1]
  {}

  lemma {:induction false} LastTen(s: seq<nat>, x: nat)
    ensures var kept := if |s| <= 10 then s else s[|s| - 10..];
            var all := s + [x];
            (if |kept + [x]| > 10 then (kept + [x])[1..] else kept + [x])
            == if |all| <= 10 then all else all[|all| - 10..]
  {}

  /** A packet is sent unless its number is not above the last one or too many packets are tracked.  It is
      tracked, with its length in flight, exactly if it has a frame to be sent again. */
  lemma {:induction false} SentMeans(s: Sender, p: Packet)
    requires |s.skipped| <= MAX_TRACKED_SKIPPED_PACKETS
    ensures var (t, r) := AfterSentPacket(s, p);
            && (r == NotIncreasing <==> p.number <= s.lastSent)
            && (r == TooManyTracked <==> p.number > s.lastSent && |s.queue| + |s.history| >= 5000)
            && (r != Sent ==> t == s)
            && (r == Sent ==>
                  var all := s.skipped + Between(s.lastSent + 1, p.number);
                  var again := exists f :: f in p.frames && f != Ack && f != StopWaiting;
                  && t.lastSent == p.number && t.queue == s.queue && t.lossTimeSet == s.lossTimeSet
                  && t.skipped == (if |all| <= 10 then all else all[|all| - 10..])
                  && t.history == s.history + (if again then [p.(frames := Strip(p.frames))] else [])
                  && t.bytesInFlight == s.bytesInFlight + (if again then p.length else 0)
                  && t.numNonRetransmittable == (if again then 0 else s.numNonRetransmittable + 1))
  {
    hide Skip, Strip;
    if p.number > s.lastSent { SkipRemembers(s.skipped, s.lastSent + 1, p.number); }
    var q := Strip(p.frames);
    if q != [] { assert q[0] in q; }
  }

  // ----- acknowledgements -----

  /** The ACK is taken into account: it is about sent packets and none that was skipped, newer than the
      last one, and reaches beyond what is acknowledged in order. */
  ghost predicate Counts(s: Sender, ack: AckFrame, n: nat) {
    && ack.largestAcked <= s.lastSent && n > s.largestReceivedWithAck
    && (if s.history == [] then ack.largestAcked > s.largestAcked else ack.largestAcked >= s.history[0].number)
    && forall k :: k in s.skipped ==> !AcksPacket(ack, k)
  }

  predicate IsAcked(ack: AckFrame, k: nat) { AcksPacket(ack, k) }

  predicate IsLost(ack: AckFrame, late: nat -> bool, k: nat) {
    !AcksPacket(ack, k) && k <= ack.largestAcked && late(k)
  }

  /** Which packets leave the history and what happens to them: the acknowledged ones are gone, the overdue
      ones up to the largest acknowledged are queued in order, and all others stay. */
  lemma {:induction false} AckRemoves(s: Sender, ack: AckFrame, n: nat, late: nat -> bool)
      returns (acked: seq<Packet>, lost: seq<Packet>)
    requires Inv(s) && Counts(s, ack, n)
    ensures Selects(s.history, acked, (k: nat) => IsAcked(ack, k))
    ensures Selects(s.history, lost, (k: nat) => IsLost(ack, late, k))
    ensures var (t, r) := AfterReceivedAck(s, ack, n, late);
            && r == Processed
            && Selects(s.history, t.history, (k: nat) => !IsAcked(ack, k) && !IsLost(ack, late, k))
            && t.queue == s.queue + lost
            && t.bytesInFlight == s.bytesInFlight - Sum(acked) - Sum(lost)
            && t.tlpCount == (if acked != [] then 0 else s.tlpCount)
            && t.rtoCount == (if acked != [] then 0 else s.rtoCount)
            && t.largestAcked == ack.largestAcked && t.largestReceivedWithAck == n && t.lastSent == s.lastSent
            && t.nextLeastUnacked == Max(s.nextLeastUnacked, ack.largestAcked + 1)
            && (t.lossTimeSet <==> exists p :: p in t.history && p.number <= ack.largestAcked)
  {
    hide Increasing, Sum, Only, Without, Highest, Collect, AcksPacket, Selects, DetectLost;
    var s2 := s.(largestReceivedWithAck := n, largestAcked := ack.largestAcked);
    var numbers := AckedBy(s.history, ack);
    acked := Only(s.history, numbers);
    var s3 := Acknowledge(s2, numbers);
    AckedAre(s.history, ack);
    NotRefused(s, ack, n);
    RemoveKeepsInv(s2, s3, numbers);
    lost := LostAre(s3, late);
    Combine(s.history, ack, late, s3.history, lost, DetectLost(s3, late).history);
  }

  lemma {:induction false} NotRefused(s: Sender, ack: AckFrame, n: nat)
    requires Counts(s, ack, n)
    ensures ack.largestAcked > LargestInOrderAcked(s)
    ensures forall m, l :: !SkippedPacketsAcked(s.(largestReceivedWithAck := m, largestAcked := l), ack)
  {
    hide AcksPacket;
  }

  lemma {:induction false} AckedAre(h: seq<Packet>, ack: AckFrame)
    requires Increasing(h)
    ensures Selects(h, Only(h, AckedBy(h, ack)), (k: nat) => IsAcked(ack, k))
    ensures Selects(h, Without(h, AckedBy(h, ack)), (k: nat) => !IsAcked(ack, k))
  {
    hide Increasing, Only, Without, AcksPacket;
    Parts(h, AckedBy(h, ack));
    forall p | p in h ensures p.number in AckedBy(h, ack) <==> AcksPacket(ack, p.number) {
      var i :| 0 <= i < |h| && h[i] == p;
    }
  }

  lemma {:induction false} LostAre(s: Sender, late: nat -> bool) returns (lost: seq<Packet>)
    requires Inv(s)
    ensures Selects(s.history, lost, (k: nat) => k <= s.largestAcked && late(k))
    ensures var t := DetectLost(s, late);
            && Selects(s.history, t.history, (k: nat) => !(k <= s.largestAcked && late(k)))
            && t == s.(history := t.history, queue := s.queue + lost, bytesInFlight := s.bytesInFlight - Sum(lost),
                       nextLeastUnacked := t.nextLeastUnacked, lossTimeSet := t.lossTimeSet)
            && s.nextLeastUnacked <= t.nextLeastUnacked <= Max(s.nextLeastUnacked, s.largestAcked + 1)
            && (lost != [] ==> t.nextLeastUnacked == Max(s.nextLeastUnacked, lost[|lost| - 1].number + 1))
            && (lost == [] ==> t.nextLeastUnacked == s.nextLeastUnacked)
            && (t.lossTimeSet <==> exists p :: p in t.history && p.number <= s.largestAcked)
  {
    hide Increasing, Sum, Only, Without, Highest;
    var numbers := Overdue(s.history, s.largestAcked, late);
    lost := Only(s.history, numbers);
    Parts(s.history, numbers);
    forall p | p in s.history ensures p.number in numbers <==> p.number <= s.largestAcked && late(p.number) {
      var i :| 0 <= i < |s.history| && s.history[i] == p;
    }
    HighestBelow(lost, s.largestAcked);
    if lost != [] { HighestIsLast(lost); }
  }

  lemma {:induction false} Combine(h: seq<Packet>, ack: AckFrame, late: nat -> bool, rest: seq<Packet>,
                                   lost: seq<Packet>, left: seq<Packet>)
    requires Selects(h, rest, (k: nat) => !IsAcked(ack, k))
    requires Selects(rest, lost, (k: nat) => k <= ack.largestAcked && late(k))
    requires Selects(rest, left, (k: nat) => !(k <= ack.largestAcked && late(k)))
    ensures Selects(h, lost, (k: nat) => IsLost(ack, late, k))
    ensures Selects(h, left, (k: nat) => !IsAcked(ack, k) && !IsLost(ack, late, k))
  {
    hide Increasing, AcksPacket;
  }

  /** Any other ACK leaves the packets and what is counted alone; it is an error if it is about a packet
      that was not sent, or was skipped, and also if it comes late. */
  lemma {:induction false} OtherAcksChangeNothing(s: Sender, ack: AckFrame, n: nat, late: nat -> bool)
    requires !Counts(s, ack, n)
    ensures var (t, r) := AfterReceivedAck(s, ack, n, late);
            && t == s.(largestAcked := t.largestAcked, largestReceivedWithAck := t.largestReceivedWithAck)
            && (r == AckForUnsentPacket <==> ack.largestAcked > s.lastSent)
            && (r == DuplicateOrOutOfOrder <==> ack.largestAcked <= s.lastSent && n <= s.largestReceivedWithAck)
            && (r == AckForSkippedPacket ==> exists k :: k in s.skipped && AcksPacket(ack, k))
            && (r == Processed ==> t == s.(largestReceivedWithAck := n))
    ensures var (t, r) := AfterReceivedAck(s, ack, n, late);
            r == Processed <==>
              && ack.largestAcked <= s.lastSent && n > s.largestReceivedWithAck
              && ack.largestAcked <= if s.history == [] then s.largestAcked else s.history[0].number - 1
  {
    hide DetectLost, Acknowledge, Collect, AckedBy, AcksPacket;
    var s2 := s.(largestReceivedWithAck := n, largestAcked := ack.largestAcked);
    if SkippedPacketsAcked(s2, ack) {
      var i :| 0 <= i < |s.skipped| && AcksPacket(ack, s.skipped[i]);
      assert s.skipped[i] in s.skipped;
    } else {
      forall k | k in s.skipped ensures !AcksPacket(ack, k) {
        var i :| 0 <= i < |s.skipped| && s.skipped[i] == k;
      }
    }
  }

  // ----- alarms -----

  /** What is done when the alarm goes off.  With a loss timer the overdue packets are queued, in order. */
  lemma {:induction false} LossAlarmQueues(s: Sender, late: nat -> bool, failed: bool) returns (lost: seq<Packet>)
    requires Inv(s) && HasOutstandingRetransmittablePacket(s) && s.lossTimeSet
    ensures Selects(s.history, lost, (k: nat) => k <= s.largestAcked && late(k))
    ensures var t := AfterAlarm(s, late, failed);
            && t.queue == s.queue + lost && t.bytesInFlight == s.bytesInFlight - Sum(lost)
            && Selects(s.history, t.history, (k: nat) => !(k <= s.largestAcked && late(k)))
            && t.tlpCount == s.tlpCount && t.rtoCount == s.rtoCount
  {
    hide Increasing, Sum, DetectLost, Selects;
    lost := LostAre(s, late);
  }

  /** Without one, the first two times the last packet is queued, as a probe. */
  lemma {:induction false} ProbeAlarmQueues(s: Sender, late: nat -> bool, failed: bool)
    requires Inv(s) && HasOutstandingRetransmittablePacket(s) && !s.lossTimeSet && s.tlpCount < 2
    ensures s.history != []
    ensures var t, last := AfterAlarm(s, late, failed), s.history[|s.history| - 1];
            && t.queue == s.queue + [last] && t.history == s.history[..|s.history| - 1]
            && t.bytesInFlight == s.bytesInFlight - last.length
            && t.tlpCount == s.tlpCount + 1 && t.rtoCount == s.rtoCount
            && t.nextLeastUnacked == Max(s.nextLeastUnacked, last.number + 1)
  {
    hide Increasing, Only, Without, DetectLost, Sum, Highest;
    OnlyLast(s.history);
    OnePacket(s.history[|s.history| - 1]);
  }

  lemma {:induction false} OnePacket(p: Packet)
    ensures Sum([p]) == p.length && Highest([p]) == p.number
  {
    assert [p][..0] == [] && Sum([]) == 0 && Highest([]) == 0;
  }

  /** After that the oldest two are, or all of them on a path that may have failed. */
  lemma {:induction false} TimeoutAlarmQueues(s: Sender, late: nat -> bool, failed: bool)
    requires Inv(s) && HasOutstandingRetransmittablePacket(s) && !s.lossTimeSet && s.tlpCount >= 2
    ensures var t, h := AfterAlarm(s, late, failed), s.history;
            var k := if failed || |h| < 2 then |h| else 2;
            && t.queue == s.queue + h[..k] && t.history == h[k..]
            && t.bytesInFlight == s.bytesInFlight - Sum(h[..k])
            && t.rtoCount == s.rtoCount + 1 && t.tlpCount == s.tlpCount
  {
    hide Increasing, Sum, Only, Without, Highest, DetectLost, FirstNumbers;
    var h := s.history;
    var k := if failed || |h| < 2 then |h| else 2;
    FirstAre(h, k, if failed then |h| else 2);
    OnlyPrefix(h, k);
  }

  lemma {:induction false} FirstAre(h: seq<Packet>, k: nat, n: nat)
    requires k <= |h| && (k == n || k == |h| <= n)
    ensures FirstNumbers(h, k) == FirstNumbers(h, n)
  {}

  /** An alarm without anything to send again does nothing. */
  lemma {:induction false} AlarmIsIdle(s: Sender, late: nat -> bool, failed: bool)
    requires forall p :: p in s.history ==> !p.IsRetransmittable()
    ensures AfterAlarm(s, late, failed) == s
  {}

  /** When a path is given up, the packets up to the largest acknowledged are queued, in order. */
  lemma {:induction false} GivingUpQueues(s: Sender) returns (lost: seq<Packet>)
    requires Inv(s)
    ensures Selects(s.history, lost, (k: nat) => k <= s.largestAcked)
    ensures var t := AfterInflightLost(s);
            && t.queue == s.queue + lost && Selects(s.history, t.history, (k: nat) => k > s.largestAcked)
            && t.bytesInFlight == s.bytesInFlight - Sum(lost)
  {
    hide Increasing, Sum, Only, Without, Highest;
    var numbers := Overdue(s.history, s.largestAcked, _ => true);
    lost := Only(s.history, numbers);
    Parts(s.history, numbers);
    forall p | p in s.history ensures p.number in numbers <==> p.number <= s.largestAcked {
      var i :| 0 <= i < |s.history| && s.history[i] == p;
    }
  }

  /** In every run at most two probes are sent before an acknowledgement or a timeout. */
  lemma {:induction false} ProbesAreBounded(actions: seq<Action>)
    ensures Run(actions).tlpCount <= 2
    decreases |actions|
  {
    hide Act;
    if actions != [] {
      var init := actions[..|actions| - 1];
      ProbesAreBounded(init);
      ProbesStay(Run(init), actions[|actions| - 1]);
    }
  }

  lemma {:induction false} ProbesStay(s: Sender, a: Action)
    requires Inv(s) && s.tlpCount <= 2
    ensures Act(s, a).tlpCount <= 2
  {
    hide Inv, Sum, Increasing, Only, Without, Highest, Collect, AckedBy, Overdue, Strip, Skip, FirstNumbers, AcksPacket;
    match a
    case SendPacket(p) =>
    case ReceiveAck(ack, n, late) =>
    case Alarm(late, failed) =>
    case _ =>
  }

  // ----- skipped packets -----

  ghost predicate Ascending(k: seq<nat>) { forall i, j :: 0 <= i < j < |k| ==> k[i] < k[j] }

  /** Exactly the skipped numbers up to the bound are forgotten. */
  lemma {:induction false} CollectForgets(k: seq<nat>, bound: int)
    requires Ascending(k)
    ensures Ascending(Collect(k, bound)) && forall p :: p in Collect(k, bound) <==> p in k && p > bound
    decreases |k|
  {
    if k != [] && k[|k| - 1] > bound {
      var init := k[..|k| - 1];
      CollectForgets(init, bound);
      assert k == init + [k[|k| - 1]];
      var r := Collect(k, bound);
      forall i, j | 0 <= i < j < |r| ensures r[i] < r[j] {
        assert r[i] in Collect(init, bound);
      }
    }
  }

  /** An ACK that counts makes the sender forget exactly the skipped numbers below the first packet that is
      still in the history, or up to the largest acknowledged if none is. */
  lemma {:induction false} AckForgetsSkipped(s: Sender, ack: AckFrame, n: nat, late: nat -> bool)
    requires Ascending(s.skipped) && Counts(s, ack, n)
    ensures var t := AfterReceivedAck(s, ack, n, late).0;
            && Ascending(t.skipped)
            && forall k :: k in t.skipped <==>
                 k in s.skipped && if t.history == [] then k > ack.largestAcked else k >= t.history[0].number
  {
    hide Increasing, Sum, Only, Without, Highest, AcksPacket, AckedBy, Overdue, Collect, Ascending;
    NotRefused(s, ack, n);
    var t := AfterReceivedAck(s, ack, n, late).0;
    CollectForgets(s.skipped, if t.history == [] then ack.largestAcked else t.history[0].number - 1);
  }

  /** In every run the remembered numbers ascend and were passed over. */
  lemma {:induction false} SkippedAscend(actions: seq<Action>)
    ensures var s := Run(actions); Ascending(s.skipped) && forall k :: k in s.skipped ==> k < s.lastSent
    decreases |actions|
  {
    hide Act, Ascending;
    if actions != [] {
      var init := actions[..|actions| - 1];
      SkippedAscend(init);
      SkippedStay(Run(init), actions[|actions| - 1]);
    } else {
      NoneAscend();
    }
  }

  lemma {:induction false} NoneAscend()
    ensures Ascending([])
  {}

  lemma {:induction false} SkippedStay(s: Sender, a: Action)
    requires Inv(s) && Ascending(s.skipped) && forall k :: k in s.skipped ==> k < s.lastSent
    ensures var t := Act(s, a); Ascending(t.skipped) && forall k :: k in t.skipped ==> k < t.lastSent
  {
    hide Sum, Increasing, Only, Without, Highest, Collect, AckedBy, Overdue, Strip, Skip, FirstNumbers, AcksPacket,
         Ascending;
    match a
    case SendPacket(p) => if p.number > s.lastSent { SkipAscends(s.skipped, s.lastSent, p.number); }
    case ReceiveAck(ack, n, late) =>
      forall b: int ensures Ascending(Collect(s.skipped, b)) { CollectForgets(s.skipped, b); }
    case _ =>
  }

  lemma {:induction false} SkipAscends(k: seq<nat>, last: nat, next: nat)
    requires |k| <= MAX_TRACKED_SKIPPED_PACKETS && Ascending(k) && (forall x :: x in k ==> x < last) && last < next
    ensures var r := Skip(k, last + 1, next); Ascending(r) && forall x :: x in r ==> x < next
  {
    hide Skip, Ascending, Between;
    SkipRemembers(k, last + 1, next);
    var all := k + Between(last + 1, next);
    AllAscend(k, last, next);
    if |all| > 10 { EndAscends(all, |all| - 10); }
  }

  lemma {:induction false} AllAscend(k: seq<nat>, last: nat, next: nat)
    requires Ascending(k) && (forall x :: x in k ==> x < last) && last < next
    ensures var all := k + Between(last + 1, next); Ascending(all) && forall x :: x in all ==> x < next
  {
    var more := Between(last + 1, next);
    var all := k + more;
    forall i | 0 <= i < |all| ensures all[i] < next && (i < |k| ==> all[i] < last) {
      if i < |k| { assert k[i] in k; } else { assert all[i] == more[i - |k|]; }
    }
    forall i, j | 0 <= i < j < |all| ensures all[i] < all[j] {
      if i >= |k| { assert all[i] == more[i - |k|]; }
      if j >= |k| { assert all[j] == more[j - |k|]; }
    }
  }

  lemma {:induction false} EndAscends(k: seq<nat>, n: nat)
    requires Ascending(k) && n <= |k|
    ensures Ascending(k[n..]) && forall x :: x in k[n..] ==> x in k
  {}
}
