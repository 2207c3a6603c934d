/** Two endpoints and a network that loses, repeats and reorders: flow control from end to end, for
    the data that flows in one direction. */
module FlowProtocol {
  import opened FlowControl

  /** The receiver's windows, fixed at the start. */
  datatype Config = Config(stream: nat, connection: nat, maxStream: nat, maxConnection: nat)

  const STREAM_IDS: nat := 0x1_0000_0000
  const CRYPTO_STREAM: nat := 1
  const HEADER_STREAM: nat := 3

  predicate Contributes(id: nat) { id != CRYPTO_STREAM && id != HEADER_STREAM }

  /** `sent`, `got` and `read` are the highest offsets sent, received and read on every stream ever
      opened, `windows` the last receive windows, closed streams included; `resets` holds the final
      offsets of the streams the sender has reset; `updates` are the window updates ever sent. */
  datatype World = World(
    sender: Manager, receiver: Manager,
    sent: map<nat, nat>, got: map<nat, nat>, read: map<nat, nat>, windows: map<nat, nat>,
    resets: map<nat, nat>, updates: set<WindowUpdate>)

  datatype Action =
    | OpenAtSender(id: nat)
    | OpenAtReceiver(id: nat)
    | CloseAtSender(id: nat)
    | CloseAtReceiver(id: nat)
    | Handshake
    | Send(id: nat, n: nat)
    | Reset(id: nat)
    | Deliver(id: nat, offset: nat)
    | DeliverReset(id: nat)
    | Read(id: nat, n: nat)
    | EmitUpdates(force: bool, frequent: nat -> bool, updates: seq<WindowUpdate>)
    | DeliverUpdate(update: WindowUpdate)
    | OtherDirection

  function Get(m: map<nat, nat>, id: nat): nat { if id in m then m[id] else 0 }

  function Window(c: Config, w: World, id: nat): nat { if id in w.windows then w.windows[id] else c.stream }

  ghost predicate SameSending(a: Manager, b: Manager) {
    && a.params.sendStream == b.params.sendStream && a.params.sendConnection == b.params.sendConnection
    && a.conn.bytesSent == b.conn.bytesSent && a.conn.sendWindow == b.conn.sendWindow
    && a.streams.Keys == b.streams.Keys
    && forall id :: id in a.streams ==>
         && b.streams[id].contributes == a.streams[id].contributes
         && b.streams[id].bytesSent == a.streams[id].bytesSent && b.streams[id].sendWindow == a.streams[id].sendWindow
  }

  ghost predicate SameReceiving(a: Manager, b: Manager) {
    && b.conn.(bytesSent := 0, sendWindow := 0) == a.conn.(bytesSent := 0, sendWindow := 0)
    && b.params.(sendStream := 0, sendConnection := 0) == a.params.(sendStream := 0, sendConnection := 0)
    && a.streams.Keys == b.streams.Keys
    && forall id :: id in a.streams ==>
         b.streams[id].(bytesSent := 0, sendWindow := 0) == a.streams[id].(bytesSent := 0, sendWindow := 0)
  }

  /** One step.  A stream is opened once at either end.  Any stretch of data ending at or below the
      highest offset sent may arrive, at any time and any number of times: fresh, lost and sent
      again, or cut differently.  Whatever the other direction does is left open. */
  ghost predicate Next(c: Config, w: World, a: Action, w': World) {
    match a
    case OpenAtSender(id) =>
      && 0 < id < STREAM_IDS && id != CRYPTO_STREAM && id !in w.sent
      && w' == w.(sender := AfterNewStream(w.sender, id, Contributes(id)), sent := w.sent[id := 0])
    case OpenAtReceiver(id) =>
      && 0 < id < STREAM_IDS && id != CRYPTO_STREAM && id !in w.windows
      && w' == w.(receiver := AfterNewStream(w.receiver, id, Contributes(id)),
                  got := w.got[id := 0], read := w.read[id := 0], windows := w.windows[id := c.stream])
    case CloseAtSender(id) => w' == w.(sender := AfterRemoveStream(w.sender, id))
    case CloseAtReceiver(id) => w' == w.(receiver := AfterRemoveStream(w.receiver, id))
    case Handshake =>
      w' == w.(sender := w.sender.(params := w.sender.params.(sendStream := c.stream, sendConnection := c.connection)))
    case Send(id, n) =>
      && id in w.sender.streams && id in w.sent && id !in w.resets && n <= SendWindow(w.sender, id)
      && w' == w.(sender := AfterSent(w.sender, id, n).0, sent := w.sent[id := w.sent[id] + n])
    case Reset(id) => id in w.sent && w' == w.(resets := w.resets[id := w.sent[id]])
    case Deliver(id, offset) =>
      && id in w.sent && offset <= w.sent[id]
      && var r := AfterReceived(w.receiver, id, offset, false);
         w' == w.(receiver := r.0, got := if id in r.0.streams then w.got[id := r.0.streams[id].highestReceived]
                  else w.got)
    case DeliverReset(id) =>
      && id in w.resets
      && var r := AfterReceived(w.receiver, id, w.resets[id], true);
         w' == w.(receiver := r.0, got := if id in r.0.streams then w.got[id := r.0.streams[id].highestReceived]
                  else w.got)
    case Read(id, n) =>
      // only received data is read
      && id in w.receiver.streams && id in w.got && w.receiver.streams[id].bytesRead + n <= w.got[id]
      && w' == w.(receiver := AfterRead(w.receiver, id, n).0,
                  read := w.read[id := w.receiver.streams[id].bytesRead + n])
    case EmitUpdates(force, frequent, updates) =>
      && WindowUpdates(w.receiver, force, frequent, w'.receiver, updates)
      && w' == w.(receiver := w'.receiver, windows := w'.windows, updates := w.updates + set u | u in updates)
      && w'.windows.Keys == w.windows.Keys
      && forall id :: id in w.windows ==>
           w'.windows[id] == if id in w'.receiver.streams then w'.receiver.streams[id].receiveWindow else w.windows[id]
    case DeliverUpdate(u) => u in w.updates && w' == w.(sender := AfterWindowUpdate(w.sender, u.id, u.offset).0)
    case OtherDirection =>
      && SameSending(w.sender, w'.sender) && SameReceiving(w.receiver, w'.receiver)
      && w' == w.(sender := w'.sender, receiver := w'.receiver)
  }

  // ----- totals over the streams that count for the connection -----

  function Total(m: map<nat, nat>, n: nat): nat {
    if n == 0 then 0 else Total(m, n - 1) + if Contributes(n - 1) then Get(m, n - 1) else 0
  }

  lemma {:induction false} TotalUpdate(m: map<nat, nat>, id: nat, v: nat, n: nat)
    ensures Total(m[id := v], n) == if id < n && Contributes(id) then Total(m, n) - Get(m, id) + v else Total(m, n)
  {
    if n != 0 { TotalUpdate(m, id, v, n - 1); }
  }

  lemma {:induction false} TotalMonotone(a: map<nat, nat>, b: map<nat, nat>, n: nat)
    requires forall id: nat :: Get(a, id) <= Get(b, id)
    ensures Total(a, n) <= Total(b, n)
  {
    if n != 0 { TotalMonotone(a, b, n - 1); }
  }

  // ----- the invariant -----

  ghost predicate SenderStream(c: Config, w: World, id: nat) {
    id in w.sender.streams ==>
      && 0 < id < STREAM_IDS && id in w.sent
      && w.sender.streams[id].contributes == Contributes(id)
      && w.sender.streams[id].bytesSent == w.sent[id]
      && w.sender.streams[id].sendWindow <= Window(c, w, id)
  }

  ghost predicate ReceiverStream(c: Config, w: World, id: nat) {
    id in w.receiver.streams ==>
      && 0 < id < STREAM_IDS && id in w.windows && id in w.got && id in w.read
      && var d := w.receiver.streams[id];
         && d.contributes == Contributes(id)
         && d.highestReceived == w.got[id] && d.bytesRead == w.read[id] && d.receiveWindow == w.windows[id]
         && d.increment <= d.maxIncrement
  }

  ghost predicate StreamOk(c: Config, w: World, id: nat) {
    && SenderStream(c, w, id) && ReceiverStream(c, w, id)
    && Get(w.read, id) <= Get(w.got, id) <= Get(w.sent, id) <= Window(c, w, id)
    && c.stream <= Window(c, w, id)
    && (id !in w.windows ==> id !in w.got && id !in w.read)
    && (id in w.resets ==> w.resets[id] == Get(w.sent, id))
  }

  ghost predicate ConnectionOk(c: Config, w: World) {
    && w.sender.conn.bytesSent == Total(w.sent, STREAM_IDS)
    && w.receiver.conn.highestReceived == Total(w.got, STREAM_IDS)
    && w.receiver.conn.bytesRead == Total(w.read, STREAM_IDS)
    && w.receiver.conn.increment <= w.receiver.conn.maxIncrement
    && w.sender.conn.sendWindow <= w.receiver.conn.receiveWindow
    && Total(w.sent, STREAM_IDS) <= w.receiver.conn.receiveWindow
    && c.connection <= w.receiver.conn.receiveWindow
  }

  ghost predicate ParamsOk(c: Config, w: World) {
    && w.sender.params.sendStream <= c.stream && w.sender.params.sendConnection <= c.connection
    && w.receiver.params.receiveStream == c.stream && w.receiver.params.maxReceiveStream == c.maxStream
  }

  /** A window update offers no more than the receiver takes, and no less than the handshake did. */
  ghost predicate UpdateOk(c: Config, w: World, u: WindowUpdate) {
    if u.id == 0 then c.connection <= u.offset <= w.receiver.conn.receiveWindow
    else c.stream <= u.offset <= Window(c, w, u.id)
  }

  ghost predicate Inv(c: Config, w: World) {
    && c.stream <= c.maxStream && c.connection <= c.maxConnection
    && (forall id: nat :: StreamOk(c, w, id))
    && ConnectionOk(c, w) && ParamsOk(c, w)
    && (forall u :: u in w.updates ==> UpdateOk(c, w, u))
  }

  // ----- every step keeps it -----

  lemma {:induction false} SendFits(c: Config, w: World, id: nat, n: nat)
    requires StreamOk(c, w, id) && ConnectionOk(c, w) && ParamsOk(c, w)
    requires id in w.sender.streams && id in w.sent && n <= SendWindow(w.sender, id)
    ensures n == 0 || w.sent[id] + n <= Window(c, w, id)
    ensures n == 0 || !Contributes(id) || Total(w.sent, STREAM_IDS) + n <= w.receiver.conn.receiveWindow
  {
    hide Total;
  }

  lemma {:induction false} SendKeeps(c: Config, w: World, id: nat, n: nat, w': World)
    requires Inv(c, w) && Next(c, w, Send(id, n), w')
    ensures Inv(c, w')
  {
    hide Total;
    assert StreamOk(c, w, id);
    SendFits(c, w, id, n);
    TotalUpdate(w.sent, id, w.sent[id] + n, STREAM_IDS);
    forall k: nat ensures StreamOk(c, w', k) { assert StreamOk(c, w, k); }
    forall u | u in w'.updates ensures UpdateOk(c, w', u) { assert UpdateOk(c, w, u); }
  }

  /** Data that was sent is taken without complaint, a final offset as well. */
  lemma {:induction false} ReceivedFits(c: Config, w: World, id: nat, offset: nat, final: bool)
    requires Inv(c, w) && offset <= Get(w.sent, id) && (final ==> offset == Get(w.sent, id))
    ensures AfterReceived(w.receiver, id, offset, final).1 in {Fine, NoSuchStream}
    ensures AfterReceived(w.receiver, id, offset, final).1 == NoSuchStream <==> id !in w.receiver.streams
  {
    hide Total;
    assert StreamOk(c, w, id);
    if id in w.receiver.streams && offset > w.got[id] {
      var got' := w.got[id := offset];
      TotalUpdate(w.got, id, offset, STREAM_IDS);
      forall k: nat ensures Get(got', k) <= Get(w.sent, k) { assert StreamOk(c, w, k); }
      TotalMonotone(got', w.sent, STREAM_IDS);
    } else {
      GotIsSent(c, w);
    }
  }

  lemma {:induction false} GotIsSent(c: Config, w: World)
    requires Inv(c, w)
    ensures w.receiver.conn.bytesRead <= w.receiver.conn.highestReceived <= w.receiver.conn.receiveWindow
  {
    hide Total;
    forall k: nat ensures Get(w.got, k) <= Get(w.sent, k) { assert StreamOk(c, w, k); }
    TotalMonotone(w.got, w.sent, STREAM_IDS);
    forall k: nat ensures Get(w.read, k) <= Get(w.got, k) { assert StreamOk(c, w, k); }
    TotalMonotone(w.read, w.got, STREAM_IDS);
  }

  lemma {:induction false} ReceivedKeeps(c: Config, w: World, id: nat, offset: nat, final: bool, w': World)
    requires Inv(c, w) && offset <= Get(w.sent, id) && (final ==> offset == Get(w.sent, id))
    requires var r := AfterReceived(w.receiver, id, offset, final);
             w' == w.(receiver := r.0, got := if id in r.0.streams then w.got[id := r.0.streams[id].highestReceived]
                      else w.got)
    ensures Inv(c, w')
  {
    hide Total;
    ReceivedFits(c, w, id, offset, final);
    assert StreamOk(c, w, id);
    if id in w.receiver.streams {
      TotalUpdate(w.got, id, w'.got[id], STREAM_IDS);
    }
    forall k: nat ensures StreamOk(c, w', k) { assert StreamOk(c, w, k); }
    forall u | u in w'.updates ensures UpdateOk(c, w', u) { assert UpdateOk(c, w, u); }
  }

  lemma {:induction false} ReadKeeps(c: Config, w: World, id: nat, n: nat, w': World)
    requires Inv(c, w) && Next(c, w, Read(id, n), w')
    ensures Inv(c, w')
  {
    hide Total;
    assert StreamOk(c, w, id);
    TotalUpdate(w.read, id, w'.read[id], STREAM_IDS);
    forall k: nat ensures StreamOk(c, w', k) { assert StreamOk(c, w, k); }
    forall u | u in w'.updates ensures UpdateOk(c, w', u) { assert UpdateOk(c, w, u); }
  }

  lemma {:induction false} OpenAtSenderKeeps(c: Config, w: World, id: nat, w': World)
    requires Inv(c, w) && Next(c, w, OpenAtSender(id), w')
    ensures Inv(c, w')
  {
    hide Total;
    assert StreamOk(c, w, id);
    TotalUpdate(w.sent, id, 0, STREAM_IDS);
    forall k: nat ensures StreamOk(c, w', k) { assert StreamOk(c, w, k); }
    forall u | u in w'.updates ensures UpdateOk(c, w', u) { assert UpdateOk(c, w, u); }
  }

  lemma {:induction false} OpenAtReceiverKeeps(c: Config, w: World, id: nat, w': World)
    requires Inv(c, w) && Next(c, w, OpenAtReceiver(id), w')
    ensures Inv(c, w')
  {
    hide Total;
    assert StreamOk(c, w, id);
    TotalUpdate(w.got, id, 0, STREAM_IDS);
    TotalUpdate(w.read, id, 0, STREAM_IDS);
    forall k: nat ensures StreamOk(c, w', k) { assert StreamOk(c, w, k); }
    forall u | u in w'.updates ensures UpdateOk(c, w', u) { assert UpdateOk(c, w, u); }
  }

  lemma {:induction false} CloseKeeps(c: Config, w: World, a: Action, w': World)
    requires Inv(c, w) && Next(c, w, a, w') && (a.CloseAtSender? || a.CloseAtReceiver? || a.Handshake? || a.Reset?)
    ensures Inv(c, w')
  {
    hide Total;
    forall k: nat ensures StreamOk(c, w', k) { assert StreamOk(c, w, k); }
    forall u | u in w'.updates ensures UpdateOk(c, w', u) { assert UpdateOk(c, w, u); }
  }

  lemma {:induction false} DeliverUpdateKeeps(c: Config, w: World, u: WindowUpdate, w': World)
    requires Inv(c, w) && Next(c, w, DeliverUpdate(u), w')
    ensures Inv(c, w')
  {
    hide Total;
    assert UpdateOk(c, w, u);
    forall k: nat ensures StreamOk(c, w', k) { assert StreamOk(c, w, k); }
    forall v | v in w'.updates ensures UpdateOk(c, w', v) { assert UpdateOk(c, w, v); }
  }

  lemma {:induction false} OtherKeeps(c: Config, w: World, w': World)
    requires Inv(c, w) && Next(c, w, OtherDirection, w')
    ensures Inv(c, w')
  {
    hide Total;
    forall k: nat ensures StreamOk(c, w', k) { assert StreamOk(c, w, k); }
    forall u | u in w'.updates ensures UpdateOk(c, w', u) { assert UpdateOk(c, w, u); }
  }

  lemma {:induction false} StreamWindowGrows(c: Config, w: World, frequent: bool, id: nat)
    requires StreamOk(c, w, id) && id in w.receiver.streams
    ensures var d, d' := w.receiver.streams[id], Updated(w.receiver.streams[id], frequent);
            && d'.receiveWindow >= d.receiveWindow && d'.increment <= d'.maxIncrement
            && d' == d.(timed := d'.timed, increment := d'.increment, receiveWindow := d'.receiveWindow)
  {
    WindowGrows(w.receiver.streams[id], frequent);
  }

  lemma {:induction false} ConnectionWindowGrows(c: Config, w: World, frequent: bool, most: nat)
    requires Inv(c, w)
    ensures var d, d' := w.receiver.conn, Updated(EnsureIncrement(w.receiver.conn, most), frequent);
            && d'.receiveWindow >= d.receiveWindow && d'.increment <= d'.maxIncrement
            && d' == d.(timed := d'.timed, increment := d'.increment, receiveWindow := d'.receiveWindow)
  {
    hide Total;
    GotIsSent(c, w);
    WindowGrows(EnsureIncrement(w.receiver.conn, most), frequent);
  }

  lemma {:induction false} EmitStep(c: Config, w: World, force: bool, frequent: nat -> bool,
                                    updates: seq<WindowUpdate>, w': World, id: nat)
    requires Inv(c, w) && Next(c, w, EmitUpdates(force, frequent, updates), w')
    ensures StreamOk(c, w', id) && Window(c, w, id) <= Window(c, w', id)
    ensures w.receiver.conn.receiveWindow <= w'.receiver.conn.receiveWindow && ConnectionOk(c, w')
  {
    hide Total, Updated, GreatestDemand, EnsureIncrement, NeedsUpdate;
    var most :| GreatestDemand(w.receiver, force, frequent, most)
        && UpdatesWith(w.receiver, force, frequent, most, w'.receiver, updates);
    ConnectionWindowGrows(c, w, frequent(0), most);
    assert StreamOk(c, w, id);
    if id in w.receiver.streams { StreamWindowGrows(c, w, frequent(id), id); }
  }

  lemma {:induction false} EmitKeeps(c: Config, w: World, force: bool, frequent: nat -> bool,
                                     updates: seq<WindowUpdate>, w': World)
    requires Inv(c, w) && Next(c, w, EmitUpdates(force, frequent, updates), w')
    ensures Inv(c, w')
  {
    hide Total, Updated, GreatestDemand, EnsureIncrement, NeedsUpdate;
    forall k: nat ensures StreamOk(c, w', k) && Window(c, w, k) <= Window(c, w', k) {
      EmitStep(c, w, force, frequent, updates, w', k);
    }
    EmitStep(c, w, force, frequent, updates, w', 0);
    forall u | u in w'.updates ensures UpdateOk(c, w', u) {
      if u in w.updates {
        assert UpdateOk(c, w, u);
      } else {
        assert u in updates;
        assert StreamOk(c, w', u.id);
      }
    }
  }

  lemma {:induction false} NextKeepsInv(c: Config, w: World, a: Action, w': World)
    requires Inv(c, w) && Next(c, w, a, w')
    ensures Inv(c, w')
  {
    hide Inv;
    match a
    case OpenAtSender(id) => OpenAtSenderKeeps(c, w, id, w');
    case OpenAtReceiver(id) => OpenAtReceiverKeeps(c, w, id, w');
    case CloseAtSender(id) => CloseKeeps(c, w, a, w');
    case CloseAtReceiver(id) => CloseKeeps(c, w, a, w');
    case Handshake => CloseKeeps(c, w, a, w');
    case Reset(id) => CloseKeeps(c, w, a, w');
    case Send(id, n) => SendKeeps(c, w, id, n, w');
    case Deliver(id, offset) => ReceivedKeeps(c, w, id, offset, false, w');
    case DeliverReset(id) => ResetIsFinal(c, w, id); ReceivedKeeps(c, w, id, w.resets[id], true, w');
    case Read(id, n) => ReadKeeps(c, w, id, n, w');
    case EmitUpdates(force, frequent, updates) => EmitKeeps(c, w, force, frequent, updates, w');
    case DeliverUpdate(u) => DeliverUpdateKeeps(c, w, u, w');
    case OtherDirection => OtherKeeps(c, w, w');
  }

  lemma {:induction false} ResetIsFinal(c: Config, w: World, id: nat)
    requires Inv(c, w) && id in w.resets
    ensures w.resets[id] == Get(w.sent, id)
  {
    assert StreamOk(c, w, id);
  }

  // ----- whole runs -----

  /** Windows of the handshake's start are no larger than the receiver's, and those no larger than
      their maxima. */
  predicate Compatible(c: Config, p: Parameters) {
    && c.stream <= c.maxStream && c.connection <= c.maxConnection
    && p.sendStream <= c.stream && p.sendConnection <= c.connection
  }

  function Start(c: Config, p: Parameters): World {
    var q := Parameters(c.stream, c.connection, c.maxStream, c.maxConnection, 0, 0);
    World(Manager(p, NewController(p, 0, false), map[]), Manager(q, NewController(q, 0, false), map[]),
          map[], map[], map[], map[], map[], {})
  }

  ghost predicate IsRun(c: Config, p: Parameters, states: seq<World>, actions: seq<Action>) {
    && Compatible(c, p)
    && |states| == |actions| + 1 && states[0] == Start(c, p)
    && forall i :: 0 <= i < |actions| ==> Next(c, states[i], actions[i], states[i + 1])
  }

  lemma {:induction false} EmptyTotal(n: nat)
    ensures Total(map[], n) == 0
  {
    if n != 0 { EmptyTotal(n - 1); }
  }

  lemma {:induction false} RunInv(c: Config, p: Parameters, states: seq<World>, actions: seq<Action>, i: nat)
    requires IsRun(c, p, states, actions) && i < |states|
    ensures Inv(c, states[i])
  {
    hide Total, Next;
    if i == 0 {
      EmptyTotal(STREAM_IDS);
    } else {
      RunInv(c, p, states, actions, i - 1);
      NextKeepsInv(c, states[i - 1], actions[i - 1], states[i]);
    }
  }

  /** Two correct endpoints never meet a flow-control violation: whatever stretch of sent data, or
      whichever RST_STREAM, arrives next is accepted at both levels. */
  lemma {:induction false} NoViolation(c: Config, p: Parameters, states: seq<World>, actions: seq<Action>, i: nat,
                                       id: nat, offset: nat)
    requires IsRun(c, p, states, actions) && i < |states|
    ensures var w := states[i];
            && (id in w.sent && offset <= w.sent[id]
                ==> AfterReceived(w.receiver, id, offset, false).1 in {Fine, NoSuchStream})
            && (id in w.resets ==> AfterReceived(w.receiver, id, w.resets[id], true).1 in {Fine, NoSuchStream})
  {
    hide Total, Next, IsRun;
    RunInv(c, p, states, actions, i);
    var w := states[i];
    if id in w.sent && offset <= w.sent[id] { ReceivedFits(c, w, id, offset, false); }
    if id in w.resets {
      ResetIsFinal(c, w, id);
      ReceivedFits(c, w, id, w.resets[id], true);
    }
  }

  /** At every point of a run the sender's windows, the lazily read ones included, are within the
      receiver's, and no more was sent than they allow. */
  lemma {:induction false} SenderStaysWithin(c: Config, p: Parameters, states: seq<World>, actions: seq<Action>,
                                             i: nat, id: nat)
    requires IsRun(c, p, states, actions) && i < |states|
    ensures var w := states[i];
            && EffectiveWindow(w.sender.params, 0, w.sender.conn) <= w.receiver.conn.receiveWindow
            && w.sender.conn.bytesSent <= w.receiver.conn.receiveWindow
            && (id in w.sender.streams ==>
                  && EffectiveWindow(w.sender.params, id, w.sender.streams[id]) <= Window(c, w, id)
                  && w.sender.streams[id].bytesSent <= Window(c, w, id))
            && (id in w.receiver.streams ==> w.receiver.streams[id].receiveWindow == Window(c, w, id))
  {
    hide Total, Next, IsRun;
    RunInv(c, p, states, actions, i);
    assert StreamOk(c, states[i], id);
  }

  /** No window shrinks at any step of a run: not the receiver's, and not the sender's either, although
      the first window update replaces the window of the handshake. */
  lemma {:induction false} WindowsNeverShrink(c: Config, p: Parameters, states: seq<World>, actions: seq<Action>,
                                              i: nat, id: nat)
    requires IsRun(c, p, states, actions) && i < |actions|
    ensures var w, w' := states[i], states[i + 1];
            && w.receiver.conn.receiveWindow <= w'.receiver.conn.receiveWindow
            && Window(c, w, id) <= Window(c, w', id)
            && EffectiveWindow(w.sender.params, 0, w.sender.conn)
                <= EffectiveWindow(w'.sender.params, 0, w'.sender.conn)
            && (id > 0 && id in w.sender.streams && id in w'.sender.streams ==>
                  EffectiveWindow(w.sender.params, id, w.sender.streams[id])
                      <= EffectiveWindow(w'.sender.params, id, w'.sender.streams[id]))
  {
    hide Total, IsRun;
    StepIsARunStep(c, p, states, actions, i);
    RunInv(c, p, states, actions, i);
    var w, a, w' := states[i], actions[i], states[i + 1];
    if a.EmitUpdates? {
      EmitStep(c, w, a.force, a.frequent, a.updates, w', id);
    } else {
      SenderGrows(c, w, a, w', id);
    }
  }

  lemma {:induction false} StepIsARunStep(c: Config, p: Parameters, states: seq<World>, actions: seq<Action>, i: nat)
    requires IsRun(c, p, states, actions) && i < |actions|
    ensures |states| == |actions| + 1 && Next(c, states[i], actions[i], states[i + 1])
  {
    hide Next;
  }

  lemma {:induction false} SenderGrows(c: Config, w: World, a: Action, w': World, id: nat)
    requires Inv(c, w) && Next(c, w, a, w') && !a.EmitUpdates?
    ensures w.receiver.conn.receiveWindow == w'.receiver.conn.receiveWindow && Window(c, w, id) == Window(c, w', id)
    ensures EffectiveWindow(w.sender.params, 0, w.sender.conn) <= EffectiveWindow(w'.sender.params, 0, w'.sender.conn)
    ensures id > 0 && id in w.sender.streams && id in w'.sender.streams ==>
              EffectiveWindow(w.sender.params, id, w.sender.streams[id])
                  <= EffectiveWindow(w'.sender.params, id, w'.sender.streams[id])
  {
    hide Total, SendWindow, ConnectionOk, SameReceiving;
    if a.DeliverUpdate? {
      UpdateRaises(c, w, a.update, w', id);
    } else if a.OtherDirection? {
      OtherLeaves(w.receiver, w'.receiver);
    } else {
      hide StreamOk, UpdateOk;
    }
  }

  lemma {:induction false} OtherLeaves(a: Manager, b: Manager)
    requires SameReceiving(a, b)
    ensures a.conn.receiveWindow == b.conn.receiveWindow
  {
    assert b.conn.(bytesSent := 0, sendWindow := 0).receiveWindow == b.conn.receiveWindow;
  }

  lemma {:induction false} UpdateRaises(c: Config, w: World, u: WindowUpdate, w': World, id: nat)
    requires Inv(c, w) && Next(c, w, DeliverUpdate(u), w')
    ensures w'.receiver == w.receiver && w'.windows == w.windows
    ensures EffectiveWindow(w.sender.params, 0, w.sender.conn) <= EffectiveWindow(w'.sender.params, 0, w'.sender.conn)
    ensures id > 0 && id in w.sender.streams && id in w'.sender.streams ==>
              EffectiveWindow(w.sender.params, id, w.sender.streams[id])
                  <= EffectiveWindow(w'.sender.params, id, w'.sender.streams[id])
  {
    hide Total, StreamOk, ConnectionOk;
    assert UpdateOk(c, w, u);
  }
}
