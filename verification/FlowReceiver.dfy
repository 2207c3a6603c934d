/** One receiver and any peer: what flow control guarantees when the other side does not cooperate. */
module FlowReceiver {
  import opened FlowControl
  import opened FlowProtocol

  /** `got` and `read` are the highest offsets accepted and read on every stream ever opened. */
  datatype State = State(manager: Manager, got: map<nat, nat>, read: map<nat, nat>)

  datatype Event =
    | Open(id: nat)
    | Close(id: nat)
    | Receive(id: nat, offset: nat, final: bool)
    | Consume(id: nat, n: nat)
    | Update(force: bool, frequent: nat -> bool, updates: seq<WindowUpdate>)

  /** The peer picks any offset.  What is not accepted ends the session. */
  ghost predicate Step(s: State, e: Event, s': State) {
    match e
    case Open(id) =>
      && 0 < id < STREAM_IDS && id !in s.got
      && s' == State(AfterNewStream(s.manager, id, Contributes(id)), s.got[id := 0], s.read[id := 0])
    case Close(id) => s' == s.(manager := AfterRemoveStream(s.manager, id))
    case Receive(id, offset, final) =>
      var (m, r) := AfterReceived(s.manager, id, offset, final);
      if r == Fine && id in m.streams then s' == s.(manager := m, got := s.got[id := m.streams[id].highestReceived])
      else r == NoSuchStream && s' == s
    case Consume(id, n) =>
      // only accepted data is read
      && id in s.manager.streams && s.manager.streams[id].bytesRead + n <= s.manager.streams[id].highestReceived
      && s' == s.(manager := AfterRead(s.manager, id, n).0, read := s.read[id := s.manager.streams[id].bytesRead + n])
    case Update(force, frequent, updates) =>
      && WindowUpdates(s.manager, force, frequent, s'.manager, updates)
      && s' == s.(manager := s'.manager)
  }

  ghost predicate StreamFine(s: State, id: nat) {
    && (id in s.got <==> id in s.read) && Get(s.read, id) <= Get(s.got, id)
    && (id in s.manager.streams ==>
          && 0 < id < STREAM_IDS && id in s.got
          && var d := s.manager.streams[id];
             && d.contributes == Contributes(id)
             && d.highestReceived == s.got[id] && d.bytesRead == s.read[id]
             && d.highestReceived <= d.receiveWindow && d.increment <= d.maxIncrement)
  }

  ghost predicate ConnectionFine(s: State) {
    && s.manager.conn.highestReceived == Total(s.got, STREAM_IDS) <= s.manager.conn.receiveWindow
    && s.manager.conn.bytesRead == Total(s.read, STREAM_IDS)
    && s.manager.conn.increment <= s.manager.conn.maxIncrement
    && s.manager.params.receiveStream <= s.manager.params.maxReceiveStream
  }

  ghost predicate Sound(s: State) { (forall id: nat :: StreamFine(s, id)) && ConnectionFine(s) }

  lemma {:induction false} UpdateKeeps(s: State, force: bool, frequent: nat -> bool, updates: seq<WindowUpdate>,
                                       s': State)
    requires Sound(s) && Step(s, Update(force, frequent, updates), s')
    ensures Sound(s')
  {
    hide Total, Updated, GreatestDemand, EnsureIncrement, NeedsUpdate;
    var m := s.manager;
    var most :| GreatestDemand(m, force, frequent, most) && UpdatesWith(m, force, frequent, most, s'.manager, updates);
    forall k: nat ensures Get(s.read, k) <= Get(s.got, k) { assert StreamFine(s, k); }
    TotalMonotone(s.read, s.got, STREAM_IDS);
    EnsureOnly(m.conn, most);
    RaisesOnly(EnsureIncrement(m.conn, most), frequent(0));
    forall k: nat ensures StreamFine(s', k) {
      assert StreamFine(s, k);
      if k in m.streams { RaisesOnly(m.streams[k], frequent(k)); }
    }
  }

  lemma {:induction false} EnsureOnly(c: Controller, most: nat)
    requires c.increment <= c.maxIncrement
    ensures var d := EnsureIncrement(c, most);
            d == c.(increment := d.increment, timed := d.timed) && d.increment <= d.maxIncrement
  {}

  lemma {:induction false} RaisesOnly(c: Controller, frequent: bool)
    requires c.increment <= c.maxIncrement
    ensures var d := Updated(c, frequent);
            && d == c.(timed := d.timed, increment := d.increment, receiveWindow := d.receiveWindow)
            && d.increment <= d.maxIncrement
            && (c.bytesRead <= c.receiveWindow ==> c.receiveWindow <= d.receiveWindow)
  {
    if c.bytesRead <= c.receiveWindow { WindowGrows(c, frequent); }
  }

  lemma {:induction false} StepKeepsSound(s: State, e: Event, s': State)
    requires Sound(s) && Step(s, e, s')
    ensures Sound(s')
  {
    hide Total, WindowUpdates;
    if e.Update? {
      UpdateKeeps(s, e.force, e.frequent, e.updates, s');
    } else {
      assert StreamFine(s, e.id);
      if e.id in s'.got { TotalUpdate(s.got, e.id, s'.got[e.id], STREAM_IDS); }
      if e.id in s'.read { TotalUpdate(s.read, e.id, s'.read[e.id], STREAM_IDS); }
      SameGot(s, e, s');
      forall k: nat ensures StreamFine(s', k) { assert StreamFine(s, k); }
    }
  }

  /** Assigning what is there already. */
  lemma {:induction false} SameGot(s: State, e: Event, s': State)
    requires Sound(s) && Step(s, e, s') && !e.Update?
    ensures s'.got == if e.id in s'.got then s.got[e.id := s'.got[e.id]] else s.got
    ensures s'.read == if e.id in s'.read then s.read[e.id := s'.read[e.id]] else s.read
  {
    hide Total, WindowUpdates, ConnectionFine;
  }

  /** A session starts with nothing received. */
  function Fresh(p: Parameters): State { State(Manager(p, NewController(p, 0, false), map[]), map[], map[]) }

  ghost predicate IsSession(p: Parameters, states: seq<State>, events: seq<Event>) {
    && p.receiveStream <= p.maxReceiveStream && p.receiveConnection <= p.maxReceiveConnection
    && |states| == |events| + 1 && states[0] == Fresh(p)
    && forall i :: 0 <= i < |events| ==> Step(states[i], events[i], states[i + 1])
  }

  lemma {:induction false} SessionSound(p: Parameters, states: seq<State>, events: seq<Event>, i: nat)
    requires IsSession(p, states, events) && i < |states|
    ensures Sound(states[i])
  {
    hide Total, Step;
    if i == 0 {
      EmptyTotal(STREAM_IDS);
    } else {
      SessionSound(p, states, events, i - 1);
      StepKeepsSound(states[i - 1], events[i - 1], states[i]);
    }
  }

  /** Whatever the peer sends, no more is ever accepted than was granted, on any stream and in total;
      and an offset is refused exactly when it is above the window of its stream, or when it would
      take the total of all streams, closed ones included, above the window of the connection. */
  lemma {:induction false} ExcessIsRefused(p: Parameters, states: seq<State>, events: seq<Event>, i: nat, id: nat,
                                           offset: nat)
    requires IsSession(p, states, events) && i < |states|
    ensures var s := states[i];
            var m := s.manager;
            && Total(s.got, STREAM_IDS) <= m.conn.receiveWindow
            && (id in m.streams ==>
                  && id in s.got && s.got[id] <= m.streams[id].receiveWindow
                  && var r := AfterReceived(m, id, offset, false).1;
                     var total := Total(s.got[id := if offset > s.got[id] then offset else s.got[id]], STREAM_IDS);
                     && (r == StreamViolation <==> offset > m.streams[id].receiveWindow)
                     && (r == ConnectionViolation <==>
                           offset <= m.streams[id].receiveWindow && Contributes(id) && total > m.conn.receiveWindow)
                     && r in {Fine, StreamViolation, ConnectionViolation})
  {
    hide Total, IsSession, Step;
    SessionSound(p, states, events, i);
    var s := states[i];
    assert StreamFine(s, id);
    if id in s.manager.streams {
      TotalUpdate(s.got, id, if offset > s.got[id] then offset else s.got[id], STREAM_IDS);
    }
  }

  /** A RST_STREAM that names an offset below data that was received is refused, and changes nothing; any
      other is treated as data up to that offset. */
  lemma {:induction false} ResetsAreChecked(p: Parameters, states: seq<State>, events: seq<Event>, i: nat, id: nat,
                                            offset: nat)
    requires IsSession(p, states, events) && i < |states| && id in states[i].manager.streams
    ensures id in states[i].got
    ensures var s := states[i];
            var (m, r) := AfterReceived(s.manager, id, offset, true);
            && (r == DataAfterTermination <==> offset < s.got[id])
            && (r == DataAfterTermination ==> m == s.manager)
            && (r != DataAfterTermination ==> (m, r) == AfterReceived(s.manager, id, offset, false))
  {
    hide Total, IsSession, Step;
    SessionSound(p, states, events, i);
    assert StreamFine(states[i], id);
  }
}
