/** What flow control computes: mpquic_trans/internal/flowcontrol/flow_controller.go and
    flow_control_manager.go.  The classes that do it in place are in FlowControlManager.dfy.

    Byte counts are natural numbers; only the one unsigned subtraction whose operands the code does
    not compare first is written with its wrap-around. */
module FlowControl {
  /** The initial windows of both levels; the send windows are what the handshake has brought so
      far, and are read anew each time. */
  datatype Parameters = Parameters(
    receiveStream: nat, receiveConnection: nat, maxReceiveStream: nat, maxReceiveConnection: nat,
    sendStream: nat, sendConnection: nat)

  /** `timed` says that the time of the last window update is set. */
  datatype Controller = Controller(
    contributes: bool,
    bytesSent: nat, sendWindow: nat,
    timed: bool, bytesRead: nat, highestReceived: nat, receiveWindow: nat, increment: nat, maxIncrement: nat)

  /** Stream 0 is the connection. */
  function NewController(p: Parameters, id: nat, contributes: bool): Controller {
    if id == 0 then Controller(contributes, 0, 0, false, 0, 0, p.receiveConnection, p.receiveConnection,
                               p.maxReceiveConnection)
    else Controller(contributes, 0, 0, false, 0, 0, p.receiveStream, p.receiveStream, p.maxReceiveStream)
  }

  // ----- one controller -----

  function Min(a: nat, b: nat): nat { if a < b then a else b }

  /** A send window of zero stands for the window of the handshake. */
  function EffectiveWindow(p: Parameters, id: nat, c: Controller): nat {
    if c.sendWindow != 0 then c.sendWindow else if id == 0 then p.sendConnection else p.sendStream
  }

  function WindowSize(p: Parameters, id: nat, c: Controller): (n: nat)
    ensures c.bytesSent <= EffectiveWindow(p, id, c) ==> c.bytesSent + n == EffectiveWindow(p, id, c)
    ensures c.bytesSent > EffectiveWindow(p, id, c) ==> n == 0
  {
    var w := EffectiveWindow(p, id, c);
    if c.bytesSent > w then 0 else w - c.bytesSent
  }

  predicate Violated(c: Controller) { c.highestReceived > c.receiveWindow }

  /** Unsigned 64-bit subtraction. */
  function Sub64(a: nat, b: nat): int { if a >= b then a - b else a - b + 0x1_0000_0000_0000_0000 }

  predicate NeedsUpdate(c: Controller) { Sub64(c.receiveWindow, c.bytesRead) < c.increment / 2 }

  /** The increment doubles when updates are sent too often, which `frequent` says. */
  function Increment(c: Controller, frequent: bool): nat {
    if c.timed && frequent then Min(2 * c.increment, c.maxIncrement) else c.increment
  }

  function Updated(c: Controller, frequent: bool): Controller {
    if NeedsUpdate(c) then
      var inc := Increment(c, frequent);
      c.(timed := true, increment := inc, receiveWindow := c.bytesRead + inc)
    else c
  }

  /** The increment that is reported: zero when an update did not change it. */
  function ReportedIncrement(c: Controller, frequent: bool): nat {
    if NeedsUpdate(c) && Increment(c, frequent) == c.increment then 0 else Increment(c, NeedsUpdate(c) && frequent)
  }

  function EnsureIncrement(c: Controller, inc: nat): Controller {
    if inc > c.increment then c.(increment := Min(inc, c.maxIncrement), timed := false) else c
  }

  function AddRead(c: Controller, n: nat): Controller {
    c.(bytesRead := c.bytesRead + n, timed := c.timed || c.bytesRead == 0)
  }

  /** Asking for one minimum after another is asking for the larger one. */
  lemma {:induction false} EnsureTwice(c: Controller, a: nat, b: nat)
    ensures EnsureIncrement(EnsureIncrement(c, a), b) == EnsureIncrement(c, if a < b then b else a)
  {}

  /** A window update never takes back what was granted, as long as no more was read than granted
      and the increment is not above its maximum. */
  lemma {:induction false} WindowGrows(c: Controller, frequent: bool)
    requires c.bytesRead <= c.receiveWindow && c.increment <= c.maxIncrement
    ensures var d := Updated(c, frequent);
            && d.receiveWindow >= c.receiveWindow
            && c.increment <= d.increment <= d.maxIncrement == c.maxIncrement
            && d.bytesRead <= d.receiveWindow
            && (NeedsUpdate(c) ==> d.receiveWindow - d.bytesRead == d.increment)
  {}

  /** When a window is due, in numbers: as soon as less than half an increment is left of it.  It is then
      opened to a full increment behind what was read, and the increment doubles, up to its maximum,
      when the last update was too recent.  So at least half an increment can always be received. */
  lemma {:induction false} UpdateMeans(c: Controller, frequent: bool)
    requires c.bytesRead <= c.receiveWindow
    ensures var d, left := Updated(c, frequent), c.receiveWindow - c.bytesRead;
            && (left >= c.increment / 2 ==> d == c)
            && (left < c.increment / 2 ==>
                  && d.receiveWindow == c.bytesRead + d.increment && d.timed
                  && (d.increment == c.increment || (c.timed && frequent))
                  && (c.timed && frequent ==> d.increment == Min(2 * c.increment, c.maxIncrement))
                  && (c.increment <= c.maxIncrement ==> d.receiveWindow > c.receiveWindow + c.increment / 2))
            && d.bytesRead == c.bytesRead && d.highestReceived == c.highestReceived
            && d.receiveWindow - d.bytesRead >= d.increment / 2
  {}

  /** A minimum is taken up to the maximum; an increment that is large enough already stays. */
  lemma {:induction false} EnsureMeans(c: Controller, inc: nat)
    requires c.increment <= c.maxIncrement
    ensures var d := EnsureIncrement(c, inc);
            && d.increment == Min(if inc > c.increment then inc else c.increment, c.maxIncrement)
            && d.timed == (c.timed && inc <= c.increment) && d == c.(increment := d.increment, timed := d.timed)
  {}

  /** A new controller grants what the parameters say, and one whole window more at each update; what it
      may send is what the other side has announced. */
  lemma {:induction false} NewControllerGrants(p: Parameters, id: nat, contributes: bool)
    ensures var c := NewController(p, id, contributes);
            && c.contributes == contributes && !c.timed
            && c.receiveWindow == c.increment == (if id == 0 then p.receiveConnection else p.receiveStream)
            && c.maxIncrement == (if id == 0 then p.maxReceiveConnection else p.maxReceiveStream)
            && c.bytesRead == c.highestReceived == c.bytesSent == 0
            && WindowSize(p, id, c) == (if id == 0 then p.sendConnection else p.sendStream)
  {}

  /** Once a window update has come, what may be sent is the greatest announced less what was sent. */
  lemma {:induction false} RaisedMeans(p: Parameters, id: nat, c: Controller, offset: nat)
    ensures var d := Raised(c, offset);
            && d.sendWindow == (if offset > c.sendWindow then offset else c.sendWindow)
            && d == c.(sendWindow := d.sendWindow)
            && (offset >= c.bytesSent ==> c.bytesSent + WindowSize(p, id, d) >= offset)
            && (offset > 0 && c.sendWindow < offset && offset >= c.bytesSent ==>
                  c.bytesSent + WindowSize(p, id, d) == offset)
  {}

  // ----- the manager -----

  datatype Manager = Manager(params: Parameters, conn: Controller, streams: map<nat, Controller>)

  datatype Outcome = Fine | NoSuchStream | StreamViolation | ConnectionViolation | DataAfterTermination

  function AfterNewStream(m: Manager, id: nat, contributes: bool): Manager {
    if id in m.streams then m else m.(streams := m.streams[id := NewController(m.params, id, contributes)])
  }

  function AfterRemoveStream(m: Manager, id: nat): Manager { m.(streams := m.streams - {id}) }

  /** Data up to `offset` arrived on stream `id`, or, with `final`, a RST_STREAM naming that offset. */
  function AfterReceived(m: Manager, id: nat, offset: nat, final: bool): (Manager, Outcome) {
    if id !in m.streams then (m, NoSuchStream)
    else
      var c := m.streams[id];
      if final && offset < c.highestReceived then (m, DataAfterTermination)
      else
        var increment := if offset > c.highestReceived then offset - c.highestReceived else 0;
        var d := c.(highestReceived := c.highestReceived + increment);
        var m1 := m.(streams := m.streams[id := d]);
        if Violated(d) then (m1, StreamViolation)
        else if !c.contributes then (m1, Fine)
        else
          var conn := m.conn.(highestReceived := m.conn.highestReceived + increment);
          (m1.(conn := conn), if Violated(conn) then ConnectionViolation else Fine)
  }

  function AfterRead(m: Manager, id: nat, n: nat): (Manager, Outcome) {
    if id !in m.streams then (m, NoSuchStream)
    else
      var c := m.streams[id];
      (m.(streams := m.streams[id := AddRead(c, n)], conn := if c.contributes then AddRead(m.conn, n) else m.conn),
       Fine)
  }

  function AfterSent(m: Manager, id: nat, n: nat): (Manager, Outcome) {
    if id !in m.streams then (m, NoSuchStream)
    else
      var c := m.streams[id];
      (m.(streams := m.streams[id := c.(bytesSent := c.bytesSent + n)],
          conn := if c.contributes then m.conn.(bytesSent := m.conn.bytesSent + n) else m.conn), Fine)
  }

  /** What may be sent now on stream `id`. */
  function SendWindow(m: Manager, id: nat): nat
    requires id in m.streams
  {
    var c := m.streams[id];
    var own := WindowSize(m.params, id, c);
    if c.contributes then Min(own, WindowSize(m.params, 0, m.conn)) else own
  }

  /** What is sent is taken from the window of its stream and, if that counts, of the connection: no other
      stream loses more than this, and none gains. */
  lemma {:induction false} SentShrinks(m: Manager, id: nat, n: nat, k: nat)
    requires id in m.streams && n <= SendWindow(m, id) && k in m.streams
    ensures var m' := AfterSent(m, id, n).0;
            && k in m'.streams && SendWindow(m, k) - n <= SendWindow(m', k) <= SendWindow(m, k)
            && (k == id ==> SendWindow(m', id) == SendWindow(m, id) - n)
            && (k != id && !m.streams[k].contributes ==> SendWindow(m', k) == SendWindow(m, k))
  {}

  function Raised(c: Controller, offset: nat): Controller {
    if offset > c.sendWindow then c.(sendWindow := offset) else c
  }

  function AfterWindowUpdate(m: Manager, id: nat, offset: nat): (Manager, Outcome) {
    if id == 0 then (m.(conn := Raised(m.conn, offset)), Fine)
    else if id !in m.streams then (m, NoSuchStream)
    else (m.(streams := m.streams[id := Raised(m.streams[id], offset)]), Fine)
  }

  // ----- window updates -----

  datatype WindowUpdate = WindowUpdate(id: nat, offset: nat)

  /** The increment a stream demands of the connection: one and a half times its own. */
  function Demand(c: Controller, force: bool, frequent: bool): nat {
    if c.contributes && (force || NeedsUpdate(c)) then 3 * ReportedIncrement(c, frequent) / 2 else 0
  }

  ghost predicate GreatestDemand(m: Manager, force: bool, frequent: nat -> bool, most: nat) {
    && (forall id :: id in m.streams ==> Demand(m.streams[id], force, frequent(id)) <= most)
    && (most == 0 || exists id :: id in m.streams && Demand(m.streams[id], force, frequent(id)) == most)
  }

  /** All controllers are updated, the connection last and with the greatest increment demanded;
      one update is reported for each controller that needed one, for all of them with `force`. */
  ghost predicate WindowUpdates(m: Manager, force: bool, frequent: nat -> bool, m': Manager,
                                updates: seq<WindowUpdate>) {
    exists most ::
      && GreatestDemand(m, force, frequent, most)
      && UpdatesWith(m, force, frequent, most, m', updates)
  }

  ghost predicate UpdatesWith(m: Manager, force: bool, frequent: nat -> bool, most: nat, m': Manager,
                              updates: seq<WindowUpdate>) {
    && m'.params == m.params
    && m'.conn == Updated(EnsureIncrement(m.conn, most), frequent(0))
    && m'.streams.Keys == m.streams.Keys
    && (forall id :: id in m.streams ==> m'.streams[id] == Updated(m.streams[id], frequent(id)))
    && (forall i, j :: 0 <= i < j < |updates| ==> updates[i].id != updates[j].id)
    && (forall u :: u in updates <==>
          if u.id == 0 then (force || NeedsUpdate(EnsureIncrement(m.conn, most))) && u.offset == m'.conn.receiveWindow
          else
            && u.id in m.streams && (force || NeedsUpdate(m.streams[u.id]))
            && u.offset == m'.streams[u.id].receiveWindow)
  }

  /** No more was read than granted, and the increment is within its maximum. */
  predicate WithinGrant(c: Controller) { c.bytesRead <= c.receiveWindow && c.increment <= c.maxIncrement }

  /** After the updates at least half an increment can be received at every controller.  Without `force`
      a stream is reported exactly if less than half an increment was left, with a window that is larger
      than before; with `force` every stream is, and nothing is reported twice. */
  lemma {:induction false} StreamsAreReported(m: Manager, force: bool, frequent: nat -> bool, m': Manager,
                                              updates: seq<WindowUpdate>, id: nat)
    requires WindowUpdates(m, force, frequent, m', updates) && id != 0 && id in m.streams
             && WithinGrant(m.streams[id])
    ensures id in m'.streams
    ensures var c, d := m.streams[id], m'.streams[id];
            && d.bytesRead == c.bytesRead && d.receiveWindow - d.bytesRead >= d.increment / 2
            && ((exists u :: u in updates && u.id == id) <==>
                  force || c.receiveWindow - c.bytesRead < c.increment / 2)
            && (forall u :: u in updates && u.id == id ==> u.offset == d.receiveWindow)
            && (c.receiveWindow - c.bytesRead < c.increment / 2 ==>
                  d.receiveWindow == c.bytesRead + d.increment > c.receiveWindow)
            && d.increment >= c.increment
  {
    hide Updated, EnsureIncrement, GreatestDemand;
    var most :| GreatestDemand(m, force, frequent, most) && UpdatesWith(m, force, frequent, most, m', updates);
    UpdateMeans(m.streams[id], frequent(id));
    WindowGrows(m.streams[id], frequent(id));
    var u := WindowUpdate(id, m'.streams[id].receiveWindow);
    if force || NeedsUpdate(m.streams[id]) { assert u in updates; }
  }

  /** The same for the connection, whose increment first grows with those of the streams: a stream that
      doubled its own leaves it with at least one and a half times as much, up to its maximum. */
  lemma {:induction false} ConnectionIsReported(m: Manager, force: bool, frequent: nat -> bool, m': Manager,
                                                updates: seq<WindowUpdate>)
    requires WindowUpdates(m, force, frequent, m', updates) && WithinGrant(m.conn)
    ensures var c, d := m.conn, m'.conn;
            && d.bytesRead == c.bytesRead && d.receiveWindow - d.bytesRead >= d.increment / 2
            && c.increment <= d.increment <= d.maxIncrement == c.maxIncrement && d.receiveWindow >= c.receiveWindow
            && (force || d.receiveWindow > c.receiveWindow <==> exists u :: u in updates && u.id == 0)
            && (forall u :: u in updates && u.id == 0 ==> u.offset == d.receiveWindow)
            && (d.receiveWindow > c.receiveWindow ==> d.receiveWindow == c.bytesRead + d.increment)
            && (c.receiveWindow - c.bytesRead < c.increment / 2 ==> d.receiveWindow > c.receiveWindow)
    ensures forall id :: id in m.streams && WithinGrant(m.streams[id]) && m.streams[id].contributes
                         && m'.streams[id].increment > m.streams[id].increment ==>
              m'.conn.increment >= Min(3 * m'.streams[id].increment / 2, m.conn.maxIncrement)
  {
    hide Updated, EnsureIncrement, GreatestDemand;
    var most :| GreatestDemand(m, force, frequent, most) && UpdatesWith(m, force, frequent, most, m', updates);
    EnsureMeans(m.conn, most);
    var e := EnsureIncrement(m.conn, most);
    UpdateMeans(e, frequent(0));
    WindowGrows(e, frequent(0));
    var u := WindowUpdate(0, m'.conn.receiveWindow);
    if force || NeedsUpdate(e) { assert u in updates; }
    forall id | id in m.streams && WithinGrant(m.streams[id]) && m.streams[id].contributes
                && m'.streams[id].increment > m.streams[id].increment
      ensures m'.conn.increment >= Min(3 * m'.streams[id].increment / 2, m.conn.maxIncrement) {
      DoublingDemands(m, force, frequent, most, id);
    }
  }

  lemma {:induction false} DoublingDemands(m: Manager, force: bool, frequent: nat -> bool, most: nat, id: nat)
    requires GreatestDemand(m, force, frequent, most) && id in m.streams && WithinGrant(m.streams[id])
    requires m.streams[id].contributes
    ensures var d := Updated(m.streams[id], frequent(id));
            d.increment > m.streams[id].increment ==> most >= 3 * d.increment / 2
  {
    assert Demand(m.streams[id], force, frequent(id)) <= most;
  }
}
