/** Flow control does not stop the sender for good: what was read is granted again, and announced. */
module FlowProgress {
  import opened FlowControl
  import opened FlowProtocol

  // ----- what every step keeps -----

  /** A window that is larger than at the start was announced as it is now, and neither an increment
      nor a window that the sender was told has fallen below its first value.  The clock of a stream runs
      once something was read. */
  ghost predicate StreamAnnounced(c: Config, w: World, id: nat) {
    && (id in w.windows ==> w.windows[id] == c.stream || WindowUpdate(id, w.windows[id]) in w.updates)
    && (id in w.receiver.streams ==>
          && id != 0 && w.receiver.streams[id].increment >= c.stream
          && w.receiver.streams[id].increment <= w.receiver.streams[id].receiveWindow
          && (w.receiver.streams[id].bytesRead > 0 ==> w.receiver.streams[id].timed))
    && Told(c, w, id)
  }

  ghost predicate ConnectionAnnounced(c: Config, w: World) {
    var window := w.receiver.conn.receiveWindow;
    && (window == c.connection || WindowUpdate(0, window) in w.updates)
    && w.receiver.conn.increment >= c.connection
  }

  ghost predicate Announced(c: Config, w: World) {
    (forall id: nat :: StreamAnnounced(c, w, id)) && ConnectionAnnounced(c, w)
  }

  lemma {:induction false} ReceiverIsWithin(c: Config, w: World)
    requires FlowProtocol.Inv(c, w)
    ensures WithinGrant(w.receiver.conn)
    ensures forall id :: id in w.receiver.streams ==> WithinGrant(w.receiver.streams[id])
  {
    hide Total, SenderStream;
    GotIsSent(c, w);
    forall id | id in w.receiver.streams ensures WithinGrant(w.receiver.streams[id]) { assert StreamOk(c, w, id); }
  }

  lemma {:induction false} EmitAnnounces(c: Config, w: World, a: Action, w': World)
    requires FlowProtocol.Inv(c, w) && Next(c, w, a, w') && a.EmitUpdates? && Announced(c, w)
    ensures Announced(c, w')
  {
    hide Total, StreamOk, ConnectionOk, UpdateOk, WindowUpdates;
    ReceiverIsWithin(c, w);
    ConnectionIsReported(w.receiver, a.force, a.frequent, w'.receiver, a.updates);
    assert ConnectionAnnounced(c, w') by {
      if w'.receiver.conn.receiveWindow > w.receiver.conn.receiveWindow {
        var u :| u in a.updates && u.id == 0;
        assert u in w'.updates;
      }
    }
    forall id: nat ensures StreamAnnounced(c, w', id) {
      assert StreamAnnounced(c, w, id);
      StreamWindowIs(c, w, id);
      if id in w.receiver.streams { StreamIsAnnounced(c, w, a, w', id); }
      KeysStay(w.receiver, a.force, a.frequent, w'.receiver, a.updates);
    }
  }

  lemma {:induction false} KeysStay(m: Manager, force: bool, frequent: nat -> bool, m': Manager,
                                    updates: seq<WindowUpdate>)
    requires WindowUpdates(m, force, frequent, m', updates)
    ensures m'.streams.Keys == m.streams.Keys
  {}

  lemma {:induction false} StreamWindowIs(c: Config, w: World, id: nat)
    requires FlowProtocol.Inv(c, w)
    ensures id in w.receiver.streams ==> id in w.windows && w.receiver.streams[id].receiveWindow == w.windows[id]
  {
    hide Total;
    assert StreamOk(c, w, id);
  }

  lemma {:induction false} StreamIsAnnounced(c: Config, w: World, a: Action, w': World, id: nat)
    requires FlowProtocol.Inv(c, w) && Next(c, w, a, w') && a.EmitUpdates? && id in w.receiver.streams
    requires StreamAnnounced(c, w, id) && WithinGrant(w.receiver.streams[id])
    requires id in w.windows && w.receiver.streams[id].receiveWindow == w.windows[id]
    ensures StreamAnnounced(c, w', id)
  {
    hide Total, FlowProtocol.Inv, WindowUpdates, Updated;
    StreamsAreReported(w.receiver, a.force, a.frequent, w'.receiver, a.updates, id);
    StreamStays(w.receiver, a.force, a.frequent, w'.receiver, a.updates, id);
    if w'.windows[id] > w.windows[id] {
      var u :| u in a.updates && u.id == id;
      assert u in w'.updates;
    }
  }

  /** A window that is not reported stays as it is. */
  lemma {:induction false} StreamStays(m: Manager, force: bool, frequent: nat -> bool, m': Manager,
                                       updates: seq<WindowUpdate>, id: nat)
    requires WindowUpdates(m, force, frequent, m', updates) && id in m.streams && WithinGrant(m.streams[id])
    ensures id in m'.streams && m'.streams[id].receiveWindow >= m.streams[id].receiveWindow
    ensures m'.streams[id].bytesRead == m.streams[id].bytesRead && (m.streams[id].timed ==> m'.streams[id].timed)
    ensures m.streams[id].increment <= m.streams[id].receiveWindow ==>
              m'.streams[id].increment <= m'.streams[id].receiveWindow
    ensures m'.streams[id].receiveWindow > m.streams[id].receiveWindow ==>
              m.streams[id].receiveWindow - m.streams[id].bytesRead < m.streams[id].increment / 2
  {
    hide EnsureIncrement, GreatestDemand;
    WindowGrows(m.streams[id], frequent(id));
    UpdateMeans(m.streams[id], frequent(id));
  }

  predicate AtSender(a: Action) {
    a.OpenAtSender? || a.CloseAtSender? || a.Handshake? || a.Send? || a.Reset? || a.DeliverUpdate?
  }

  lemma {:induction false} SenderActs(c: Config, w: World, a: Action, w': World)
    requires Next(c, w, a, w') && AtSender(a)
    ensures w'.receiver == w.receiver && w'.windows == w.windows && w'.updates == w.updates
  {
    hide SendWindow, AfterNewStream, AfterSent, AfterWindowUpdate, AfterRemoveStream;
    match a
    case OpenAtSender(id) =>
    case CloseAtSender(id) =>
    case Handshake =>
    case Send(id, n) =>
    case Reset(id) =>
    case DeliverUpdate(u) =>
  }

  lemma {:induction false} ReceiverActs(c: Config, w: World, a: Action, w': World)
    requires Next(c, w, a, w') && !AtSender(a) && !a.OtherDirection? && !a.EmitUpdates?
    ensures w'.sender == w.sender
  {
    hide AfterNewStream, AfterReceived, AfterRead, AfterRemoveStream;
  }

  /** Neither windows nor increments change otherwise, at the receiver. */
  lemma {:induction false} ReceiverStands(c: Config, w: World, a: Action, w': World, id: nat)
    requires Next(c, w, a, w') && !a.EmitUpdates? && w.receiver.params.receiveStream == c.stream
    ensures w'.updates == w.updates && w'.receiver.conn.receiveWindow == w.receiver.conn.receiveWindow
    ensures w'.receiver.conn.increment == w.receiver.conn.increment
    ensures id in w'.windows ==> w'.windows[id] == if id in w.windows then w.windows[id] else c.stream
    ensures id in w'.receiver.streams ==>
              if id in w.receiver.streams then
                && w'.receiver.streams[id].increment == w.receiver.streams[id].increment
                && Clocked(w.receiver.streams[id], w'.receiver.streams[id])
              else
                && id != 0 && w'.receiver.streams[id].bytesRead == 0
                && w'.receiver.streams[id].increment == w'.receiver.streams[id].receiveWindow == c.stream
  {
    if AtSender(a) {
      hide *;
      SenderActs(c, w, a, w');
    } else {
      hide SameReceiving, SameSending, AfterReceived, AfterRead;
      match a
      case Deliver(k, offset) => ReceivingGrantsNothing(w.receiver, k, offset, false);
      case DeliverReset(k) => ReceivingGrantsNothing(w.receiver, k, w.resets[k], true);
      case Read(k, n) => ReadingGrantsNothing(w.receiver, k, n);
      case OtherDirection => SameIncrements(w.receiver, w'.receiver);
      case _ =>
    }
  }

  lemma {:induction false} ReceivingGrantsNothing(m: Manager, id: nat, offset: nat, final: bool)
    ensures SameGrants(m, AfterReceived(m, id, offset, final).0)
  {}

  lemma {:induction false} ReadingGrantsNothing(m: Manager, id: nat, n: nat)
    ensures SameGrants(m, AfterRead(m, id, n).0)
  {}

  ghost predicate Clocked(a: Controller, b: Controller) {
    b.receiveWindow == a.receiveWindow && ((a.bytesRead > 0 ==> a.timed) && b.bytesRead > 0 ==> b.timed)
  }

  ghost predicate SameGrants(a: Manager, b: Manager) {
    && b.conn.receiveWindow == a.conn.receiveWindow && b.conn.increment == a.conn.increment
    && b.streams.Keys == a.streams.Keys
    && forall id :: id in a.streams ==>
         b.streams[id].increment == a.streams[id].increment && Clocked(a.streams[id], b.streams[id])
  }

  /** And at the sender a window changes only by an update. */
  lemma {:induction false} SenderStands(c: Config, w: World, a: Action, w': World, id: nat)
    requires Next(c, w, a, w') && !a.EmitUpdates? && Told(c, w, id)
    requires a.DeliverUpdate? ==> UpdateOk(c, w, a.update)
    ensures Told(c, w', id)
  {
    match a
    case OpenAtSender(k) =>
    case CloseAtSender(k) =>
    case Handshake =>
    case Send(k, n) =>
    case Reset(k) =>
    case DeliverUpdate(u) =>
    case OtherDirection =>
    case _ => ReceiverActs(c, w, a, w');
  }

  ghost predicate Told(c: Config, w: World, id: nat) {
    && (id in w.sender.streams ==>
          w.sender.streams[id].sendWindow == 0 || w.sender.streams[id].sendWindow >= c.stream)
    && (w.sender.conn.sendWindow == 0 || w.sender.conn.sendWindow >= c.connection)
  }

  lemma {:induction false} OthersLeave(c: Config, w: World, a: Action, w': World)
    requires FlowProtocol.Inv(c, w) && Next(c, w, a, w') && !a.EmitUpdates? && Announced(c, w)
    ensures Announced(c, w')
  {
    hide Total, StreamOk, ConnectionOk, UpdateOk, Next;
    forall id: nat ensures StreamAnnounced(c, w', id) && ConnectionAnnounced(c, w') {
      assert StreamAnnounced(c, w, id);
      ReceiverStands(c, w, a, w', id);
      if a.DeliverUpdate? { Delivered(c, w, a.update, w'); }
      SenderStands(c, w, a, w', id);
    }
    assert ConnectionAnnounced(c, w') by { assert StreamAnnounced(c, w', 0); }
  }

  lemma {:induction false} Delivered(c: Config, w: World, u: WindowUpdate, w': World)
    requires Next(c, w, DeliverUpdate(u), w')
    ensures u in w.updates
  {}

  lemma {:induction false} SameIncrements(a: Manager, b: Manager)
    requires SameReceiving(a, b)
    ensures SameGrants(a, b)
  {
    assert b.conn.(bytesSent := 0, sendWindow := 0).increment == b.conn.increment;
    assert b.conn.(bytesSent := 0, sendWindow := 0).receiveWindow == b.conn.receiveWindow;
    forall id | id in a.streams
      ensures b.streams[id].increment == a.streams[id].increment && Clocked(a.streams[id], b.streams[id]) {
      var d := b.streams[id].(bytesSent := 0, sendWindow := 0);
      assert d.increment == b.streams[id].increment && d.timed == b.streams[id].timed;
      assert d.bytesRead == b.streams[id].bytesRead && d.receiveWindow == b.streams[id].receiveWindow;
    }
  }

  lemma {:induction false} RunAnnounces(c: Config, p: Parameters, states: seq<World>, actions: seq<Action>, i: nat)
    requires IsRun(c, p, states, actions) && i < |states|
    ensures Announced(c, states[i])
  {
    hide Next, FlowProtocol.Inv, Announced;
    if i == 0 {
      StartAnnounces(c, p);
    } else {
      RunInv(c, p, states, actions, i - 1);
      RunAnnounces(c, p, states, actions, i - 1);
      var w, a, w' := states[i - 1], actions[i - 1], states[i];
      if a.EmitUpdates? { EmitAnnounces(c, w, a, w'); } else { OthersLeave(c, w, a, w'); }
    }
  }

  lemma {:induction false} StartAnnounces(c: Config, p: Parameters)
    ensures Announced(c, Start(c, p))
  {}

  // ----- the sender goes on -----

  /** The handshake is over and every update for this stream and for the connection has arrived. */
  ghost predicate Informed(c: Config, w: World, id: nat)
    requires id in w.sender.streams
  {
    && w.sender.params.sendStream == c.stream && w.sender.params.sendConnection == c.connection
    && (forall u :: u in w.updates && u.id == id ==> w.sender.streams[id].sendWindow >= u.offset)
    && (forall u :: u in w.updates && u.id == 0 ==> w.sender.conn.sendWindow >= u.offset)
  }

  /** A sender that is told everything may use the receiver's windows to the last byte. */
  lemma {:induction false} SenderCatchesUp(c: Config, p: Parameters, states: seq<World>, actions: seq<Action>, j: nat,
                                           id: nat)
    requires IsRun(c, p, states, actions) && j < |states|
    requires id in states[j].sender.streams && Informed(c, states[j], id)
    ensures var w := states[j];
            && EffectiveWindow(w.sender.params, id, w.sender.streams[id]) == Window(c, w, id)
            && EffectiveWindow(w.sender.params, 0, w.sender.conn) == w.receiver.conn.receiveWindow
  {
    hide Next, Total, IsRun, FlowProtocol.Inv;
    var w := states[j];
    RunInv(c, p, states, actions, j);
    RunAnnounces(c, p, states, actions, j);
    SenderStaysWithin(c, p, states, actions, j, id);
    StreamsOk(c, w, id);
    assert StreamAnnounced(c, w, id);
  }

  lemma {:induction false} StreamsOk(c: Config, w: World, id: nat)
    requires FlowProtocol.Inv(c, w) && id in w.sender.streams
    ensures id != 0 && w.sender.streams[id].contributes == Contributes(id)
    ensures c.stream <= Window(c, w, id) && c.connection <= w.receiver.conn.receiveWindow
    ensures id in w.windows ==> Window(c, w, id) == w.windows[id]
  {
    hide Total;
    assert StreamOk(c, w, id);
  }

  lemma {:induction false} WindowsOnlyGrow(c: Config, p: Parameters, states: seq<World>, actions: seq<Action>, i: nat,
                                           j: nat, id: nat)
    requires IsRun(c, p, states, actions) && i <= j < |states|
    ensures Window(c, states[i], id) <= Window(c, states[j], id)
    ensures states[i].receiver.conn.receiveWindow <= states[j].receiver.conn.receiveWindow
    decreases j
  {
    hide Next, Window;
    if i < j {
      WindowsOnlyGrow(c, p, states, actions, i, j - 1, id);
      WindowsNeverShrink(c, p, states, actions, j - 1, id);
    }
  }

  /** Window updates leave room for half of the first windows behind what was read. */
  lemma {:induction false} RoomAfterUpdates(c: Config, p: Parameters, states: seq<World>, actions: seq<Action>, i: nat,
                                            id: nat)
    requires IsRun(c, p, states, actions) && i < |actions| && actions[i].EmitUpdates?
    requires id in states[i].receiver.streams
    ensures var w, w' := states[i], states[i + 1];
            && Window(c, w', id) >= w.receiver.streams[id].bytesRead + c.stream / 2
            && w'.receiver.conn.receiveWindow >= w.receiver.conn.bytesRead + c.connection / 2
  {
    hide Total, FlowProtocol.Inv, WindowUpdates, IsRun;
    StepIsARunStep(c, p, states, actions, i);
    var w, a, w' := states[i], actions[i], states[i + 1];
    RunInv(c, p, states, actions, i);
    RunInv(c, p, states, actions, i + 1);
    RunAnnounces(c, p, states, actions, i);
    ReceiverIsWithin(c, w);
    assert StreamAnnounced(c, w, id);
    StreamsAreReported(w.receiver, a.force, a.frequent, w'.receiver, a.updates, id);
    ConnectionIsReported(w.receiver, a.force, a.frequent, w'.receiver, a.updates);
    StreamWindowIs(c, w', id);
  }

  /** The sender is never stopped for good: once all it has sent was read, the receiver's next window
      updates, when they have arrived, let it send at least half of the first window. */
  lemma {:induction false} SenderCanGoOn(c: Config, p: Parameters, states: seq<World>, actions: seq<Action>, i: nat,
                                         j: nat, id: nat)
    requires IsRun(c, p, states, actions) && i < j < |states| && actions[i].EmitUpdates?
    requires id in states[i].receiver.streams && id in states[j].sender.streams && Informed(c, states[j], id)
    requires states[j].sender.streams[id].bytesSent <= states[i].receiver.streams[id].bytesRead
    requires states[j].sender.conn.bytesSent <= states[i].receiver.conn.bytesRead
    ensures SendWindow(states[j].sender, id) >=
            if Contributes(id) then Min(c.stream / 2, c.connection / 2) else c.stream / 2
  {
    hide Total, IsRun, Next, FlowProtocol.Inv, EffectiveWindow, Window, Informed, SendWindow;
    RunLength(c, p, states, actions);
    RunInv(c, p, states, actions, j);
    StreamsOk(c, states[j], id);
    RoomAfterUpdates(c, p, states, actions, i, id);
    WindowsOnlyGrow(c, p, states, actions, i + 1, j, id);
    SenderCatchesUp(c, p, states, actions, j, id);
    WindowLeft(states[j].sender, id);
  }

  lemma {:induction false} RunLength(c: Config, p: Parameters, states: seq<World>, actions: seq<Action>)
    requires IsRun(c, p, states, actions)
    ensures |states| == |actions| + 1
  {
    hide Next;
  }

  lemma {:induction false} WindowLeft(m: Manager, id: nat)
    requires id in m.streams && m.streams[id].bytesSent <= EffectiveWindow(m.params, id, m.streams[id])
             && m.conn.bytesSent <= EffectiveWindow(m.params, 0, m.conn)
    ensures var own := EffectiveWindow(m.params, id, m.streams[id]) - m.streams[id].bytesSent;
            var shared := EffectiveWindow(m.params, 0, m.conn) - m.conn.bytesSent;
            SendWindow(m, id) == if m.streams[id].contributes then Min(own, shared) else own
  {
    hide EffectiveWindow;
  }

  /** In every run, updates that come too often double the increment of their stream, the first one included,
      up to the maximum. */
  lemma {:induction false} FrequentUpdatesDouble(c: Config, p: Parameters, states: seq<World>, actions: seq<Action>,
                                                 i: nat, id: nat)
    requires IsRun(c, p, states, actions) && i < |actions| && actions[i].EmitUpdates? && actions[i].frequent(id)
    requires id in states[i].receiver.streams
    requires var d := states[i].receiver.streams[id]; d.receiveWindow - d.bytesRead < d.increment / 2
    ensures id in states[i + 1].receiver.streams
    ensures var d, d' := states[i].receiver.streams[id], states[i + 1].receiver.streams[id];
            d'.increment == Min(2 * d.increment, d.maxIncrement) && d'.receiveWindow == d.bytesRead + d'.increment
  {
    hide Total, FlowProtocol.Inv, WindowUpdates, IsRun;
    StepIsARunStep(c, p, states, actions, i);
    var w, a, w' := states[i], actions[i], states[i + 1];
    RunInv(c, p, states, actions, i);
    RunAnnounces(c, p, states, actions, i);
    ReceiverIsWithin(c, w);
    assert StreamAnnounced(c, w, id);
    UpdatedIs(w.receiver, a.force, a.frequent, w'.receiver, a.updates, id);
    UpdateMeans(w.receiver.streams[id], a.frequent(id));
  }

  lemma {:induction false} UpdatedIs(m: Manager, force: bool, frequent: nat -> bool, m': Manager,
                                     updates: seq<WindowUpdate>, id: nat)
    requires WindowUpdates(m, force, frequent, m', updates) && id in m.streams
    ensures id in m'.streams && m'.streams[id] == Updated(m.streams[id], frequent(id))
  {
    hide Updated, EnsureIncrement, GreatestDemand, NeedsUpdate;
  }
}
