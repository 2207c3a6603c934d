/** When an acknowledgement is sent: in every run the receiver's flags say exactly what was accepted since
    the last ACK.  mpquic_trans/ackhandler/received_packet_handler.go. */
module AckTiming {
  import opened ReceivedHistory
  import opened ReceivedPackets

  /** An accepted packet.  `gap` says that at that time packets above the last acknowledged number were
      missing below the highest received ones. */
  datatype Arrival = Arrival(number: nat, instigates: bool, gap: bool)

  /** `since` are the packets accepted since the last ACK. */
  datatype State = State(receiver: Receiver, since: seq<Arrival>)

  datatype Event =
    | Packet(number: nat, instigates: bool, ok: bool)
    | Limit(number: nat)
    | Ask(expired: bool)

  ghost predicate GapAbove(r: Receiver) {
    r.lastAckLargest.Some? && r.ranges != [] && r.ranges[|r.ranges| - 1].start > r.lastAckLargest.value
  }

  ghost predicate Step(before39: bool, s: State, e: Event, s': State) {
    match e
    case Packet(n, instigates, ok) =>
      && Receives(s.receiver, n, instigates, before39, s'.receiver, ok)
      && s'.since == if ok && n > s.receiver.lowerLimit
                     then s.since + [Arrival(n, instigates, GapAbove(s'.receiver))] else s.since
    case Limit(p) => LimitsTo(s.receiver, p, s'.receiver) && s'.since == s.since
    case Ask(expired) =>
      s' == if AckIsDue(s.receiver, expired) then State(AfterAck(s.receiver), []) else s
  }

  ghost predicate IsRun(before39: bool, states: seq<State>, events: seq<Event>) {
    && |states| == |events| + 1 && states[0] == State(ReceivedPackets.Initial, [])
    && forall i :: 0 <= i < |events| ==> Step(before39, states[i], events[i], states[i + 1])
  }

  // ----- what the flags mean -----

  function Instigating(since: seq<Arrival>): nat {
    if since == [] then 0
    else Instigating(since[..|since| - 1]) + if since[|since| - 1].instigates then 1 else 0
  }

  /** The packet must be acknowledged at once: none was before, or it fills or makes a gap. */
  predicate IsUrgent(last: Option<nat>, a: Arrival) { last == None || a.number < last.value || a.gap }

  ghost predicate AtOnce(before39: bool, last: Option<nat>, since: seq<Arrival>) {
    || (exists a :: a in since && IsUrgent(last, a))
    || Instigating(since) >= 2
    || (before39 && |since| >= 20)
  }

  ghost predicate Timely(before39: bool, s: State) {
    var r := s.receiver;
    && r.sinceLastAck == |s.since| && r.retransmittableSinceLastAck == Instigating(s.since)
    && (r.ackQueued <==> AtOnce(before39, r.lastAckLargest, s.since))
    && (r.alarmSet <==> !r.ackQueued && Instigating(s.since) >= 1)
  }

  lemma {:induction false} OneMore(before39: bool, last: Option<nat>, since: seq<Arrival>, a: Arrival)
    ensures Instigating(since + [a]) == Instigating(since) + if a.instigates then 1 else 0
    ensures AtOnce(before39, last, since + [a]) <==>
              || AtOnce(before39, last, since) || IsUrgent(last, a) || (before39 && |since| + 1 >= 20)
              || (a.instigates && Instigating(since) + 1 >= 2)
  {
    var all := since + [a];
    assert all[..|all| - 1] == since && all[|all| - 1] == a;
    assert forall b :: b in all <==> b in since || b == a;
  }

  lemma {:induction false} ArrivalKeeps(before39: bool, s: State, e: Event, s': State)
    requires Timely(before39, s) && Step(before39, s, e, s') && e.Packet?
    ensures Timely(before39, s')
  {
    hide Instigating, AtOnce, Added;
    if e.ok && e.number > s.receiver.lowerLimit {
      OneMore(before39, s.receiver.lastAckLargest, s.since, Arrival(e.number, e.instigates, GapAbove(s'.receiver)));
    }
  }

  lemma {:induction false} NothingIsDue(before39: bool, last: Option<nat>)
    ensures !AtOnce(before39, last, []) && Instigating([]) == 0
  {}

  lemma {:induction false} StepKeeps(before39: bool, s: State, e: Event, s': State)
    requires Timely(before39, s) && Step(before39, s, e, s')
    ensures Timely(before39, s')
  {
    hide Instigating, AtOnce, Receives, DeletedUpTo;
    match e
    case Packet(_, _, _) => ArrivalKeeps(before39, s, e, s');
    case Limit(_) =>
    case Ask(_) => NothingIsDue(before39, s'.receiver.lastAckLargest);
  }

  /** At every point of every run an ACK is queued exactly if one of the packets since the last ACK is
      urgent, or two of them call for one, or, before version 39, twenty have come; the alarm is set
      exactly if one calls for an ACK and none is queued.  So the next ACK is handed out at once in the
      first case, in the second when the alarm has fired, and otherwise not at all. */
  lemma {:induction false} AcksAreTimely(before39: bool, states: seq<State>, events: seq<Event>, i: nat, expired: bool)
    requires IsRun(before39, states, events) && i < |states|
    ensures var r, since := states[i].receiver, states[i].since;
            && (r.ackQueued <==> AtOnce(before39, r.lastAckLargest, since))
            && (r.alarmSet <==> !r.ackQueued && Instigating(since) >= 1)
            && (AckIsDue(r, expired) <==>
                  AtOnce(before39, r.lastAckLargest, since) || (expired && Instigating(since) >= 1))
  {
    RunKeeps(before39, states, events, i);
  }

  lemma {:induction false} RunKeeps(before39: bool, states: seq<State>, events: seq<Event>, i: nat)
    requires IsRun(before39, states, events) && i < |states|
    ensures Timely(before39, states[i])
  {
    hide Step, Timely;
    if i == 0 {
      StartsTimely(before39);
    } else {
      RunKeeps(before39, states, events, i - 1);
      StepKeeps(before39, states[i - 1], events[i - 1], states[i]);
    }
  }

  lemma {:induction false} StartsTimely(before39: bool)
    ensures Timely(before39, State(ReceivedPackets.Initial, []))
  {
    NothingIsDue(before39, None);
  }

  /** What is handed out is the ACK of everything tracked, and it starts a new count: the next packet is
      measured against its largest number. */
  lemma {:induction false} AckStartsAnew(before39: bool, s: State, expired: bool, s': State)
    requires Timely(before39, s) && Step(before39, s, Ask(expired), s')
    ensures if AtOnce(before39, s.receiver.lastAckLargest, s.since) || (expired && Instigating(s.since) >= 1) then
              && s'.since == [] && !s'.receiver.ackQueued && !s'.receiver.alarmSet
              && s'.receiver.lastAckLargest == Some(s.receiver.largestObserved)
              && s'.receiver.ranges == s.receiver.ranges && s'.receiver.largestObserved == s.receiver.largestObserved
            else s' == s
  {
    hide Instigating, AtOnce;
  }

  /** A packet that is not urgent and calls for no ACK changes neither flag, unless it is the twentieth. */
  lemma {:induction false} QuietPacket(before39: bool, s: State, n: nat, s': State)
    requires Timely(before39, s) && Step(before39, s, Packet(n, false, true), s') && n > s.receiver.lowerLimit
    requires !IsUrgent(s.receiver.lastAckLargest, Arrival(n, false, GapAbove(s'.receiver)))
    requires !before39 || |s.since| < 19
    ensures s'.receiver.ackQueued == s.receiver.ackQueued && s'.receiver.alarmSet == s.receiver.alarmSet
  {
    hide Instigating, AtOnce, Added;
    ArrivalKeeps(before39, s, Packet(n, false, true), s');
    OneMore(before39, s.receiver.lastAckLargest, s.since, Arrival(n, false, GapAbove(s'.receiver)));
  }

  // ----- what is acknowledged -----

  /** The packets accepted so far, less those below a limit that was set since. */
  ghost function Tracked(states: seq<State>, events: seq<Event>): set<nat>
    requires |states| == |events| + 1
    decreases |events|
  {
    if events == [] then {}
    else
      var n := |events| - 1;
      var before := Tracked(states[..n + 1], events[..n]);
      match events[n]
      case Packet(k, _, ok) => if ok && k > states[n].receiver.lowerLimit then before + {k} else before
      case Limit(p) => set k | k in before && k > p
      case Ask(_) => before
  }

  /** At every point of every run the ranges, and so the ACK built from them, cover exactly these packets. */
  lemma {:induction false} RangesAreTracked(before39: bool, states: seq<State>, events: seq<Event>)
    requires IsRun(before39, states, events)
    ensures var r := states[|events|].receiver;
            Canonical(r.ranges) && forall p: nat :: Contains(r.ranges, p) <==> p in Tracked(states, events)
    decreases |events|
  {
    hide Canonical, Contains, QueueAck;
    if events == [] {
      NothingTracked();
    } else {
      var n := |events| - 1;
      assert IsRun(before39, states[..n + 1], events[..n]);
      RangesAreTracked(before39, states[..n + 1], events[..n]);
      assert Step(before39, states[n], events[n], states[n + 1]);
    }
  }

  lemma {:induction false} NothingTracked()
    ensures Canonical([]) && forall p: nat :: !Contains([], p)
  {}
}
