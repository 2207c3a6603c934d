/** The classes of mpquic_trans/internal/flowcontrol, proved to do what FlowControl says. */
module FlowControlManagers {
  import opened FlowControl

  class FlowController {
    const id: nat
    const contributes: bool
    var bytesSent: nat
    var sendWindow: nat
    var timed: bool
    var bytesRead: nat
    var highestReceived: nat
    var receiveWindow: nat
    var increment: nat
    const maxIncrement: nat

    function Value(): Controller
      reads this
    {
      Controller(contributes, bytesSent, sendWindow, timed, bytesRead, highestReceived, receiveWindow, increment,
                 maxIncrement)
    }

    constructor (id: nat, contributes: bool, p: Parameters)
      ensures Value() == NewController(p, id, contributes) && this.id == id
    {
      this.id, this.contributes := id, contributes;
      bytesSent, sendWindow, timed, bytesRead, highestReceived := 0, 0, false, 0, 0;
      if id == 0 {
        receiveWindow, increment, maxIncrement := p.receiveConnection, p.receiveConnection, p.maxReceiveConnection;
      } else {
        receiveWindow, increment, maxIncrement := p.receiveStream, p.receiveStream, p.maxReceiveStream;
      }
    }

    method GetSendWindow(p: Parameters) returns (w: nat)
      ensures w == EffectiveWindow(p, id, Value())
    {
      if sendWindow == 0 {
        return if id == 0 then p.sendConnection else p.sendStream;
      }
      return sendWindow;
    }

    method SendWindowSize(p: Parameters) returns (n: nat)
      ensures n == WindowSize(p, id, Value())
    {
      var w := GetSendWindow(p);
      if bytesSent > w { return 0; }
      return w - bytesSent;
    }

    method AddBytesSent(n: nat)
      modifies this
      ensures Value() == old(Value()).(bytesSent := old(bytesSent) + n)
    {
      bytesSent := bytesSent + n;
    }

    method UpdateSendWindow(offset: nat) returns (updated: bool)
      modifies this
      ensures Value() == Raised(old(Value()), offset) && updated == (offset > old(sendWindow))
    {
      if offset > sendWindow {
        sendWindow := offset;
        return true;
      }
      return false;
    }

    /** `smaller` is the error for an offset below one received before. */
    method UpdateHighestReceived(offset: nat) returns (inc: nat, smaller: bool)
      modifies this
      ensures smaller == (offset < old(highestReceived))
      ensures inc == if offset > old(highestReceived) then offset - old(highestReceived) else 0
      ensures Value() == old(Value()).(highestReceived := old(highestReceived) + inc)
    {
      if offset == highestReceived { return 0, false; }
      if offset > highestReceived {
        inc := offset - highestReceived;
        highestReceived := offset;
        return inc, false;
      }
      return 0, true;
    }

    method IncrementHighestReceived(n: nat)
      modifies this
      ensures Value() == old(Value()).(highestReceived := old(highestReceived) + n)
    {
      highestReceived := highestReceived + n;
    }

    method AddBytesRead(n: nat)
      modifies this
      ensures Value() == AddRead(old(Value()), n)
    {
      if bytesRead == 0 { timed := true; }
      bytesRead := bytesRead + n;
    }

    method MaybeAdjustWindowIncrement(frequent: bool)
      modifies this
      ensures Value() == old(Value()).(increment := Increment(old(Value()), frequent))
    {
      if !timed || !frequent { return; }
      increment := Min(2 * increment, maxIncrement);
    }

    method MaybeUpdateWindow(frequent: bool) returns (necessary: bool, newIncrement: nat, offset: nat)
      modifies this
      ensures Value() == Updated(old(Value()), frequent)
      ensures necessary == NeedsUpdate(old(Value())) && offset == receiveWindow
      ensures newIncrement == ReportedIncrement(old(Value()), frequent)
      ensures old(bytesRead) <= old(receiveWindow) ==>
                && (necessary <==> old(receiveWindow) - old(bytesRead) < old(increment) / 2)
                && receiveWindow == (if necessary then bytesRead + increment else old(receiveWindow))
                && receiveWindow - bytesRead >= increment / 2
    {
      var diff := Sub64(receiveWindow, bytesRead);
      if diff < increment / 2 {
        newIncrement := 0;
        var oldIncrement := increment;
        MaybeAdjustWindowIncrement(frequent);
        if increment != oldIncrement { newIncrement := increment; }
        timed := true;
        receiveWindow := bytesRead + increment;
        return true, newIncrement, receiveWindow;
      }
      return false, increment, receiveWindow;
    }

    method EnsureMinimumWindowIncrement(inc: nat)
      modifies this
      ensures Value() == EnsureIncrement(old(Value()), inc)
    {
      if inc > increment {
        increment := Min(inc, maxIncrement);
        timed := false;
      }
    }

    predicate CheckFlowControlViolation()
      reads this
    {
      highestReceived > receiveWindow
    }
  }

  // ----- how far the loop over the streams has come -----

  function Larger(a: nat, b: nat): nat { if a < b then b else a }

  ghost predicate DemandSoFar(m: Manager, force: bool, frequent: nat -> bool, done: set<nat>, most: nat) {
    && (forall id :: id in done && id in m.streams ==> Demand(m.streams[id], force, frequent(id)) <= most)
    && (most == 0 || exists id :: id in done && id in m.streams && Demand(m.streams[id], force, frequent(id)) == most)
  }

  ghost predicate Reported(m: Manager, force: bool, frequent: nat -> bool, done: set<nat>, u: WindowUpdate) {
    && u.id in done && u.id in m.streams && (force || NeedsUpdate(m.streams[u.id]))
    && u.offset == Updated(m.streams[u.id], frequent(u.id)).receiveWindow
  }

  ghost predicate ReportedSoFar(m: Manager, force: bool, frequent: nat -> bool, done: set<nat>,
                                res: seq<WindowUpdate>) {
    && (forall i, j :: 0 <= i < j < |res| ==> res[i].id != res[j].id)
    && (forall u :: u in res <==> Reported(m, force, frequent, done, u))
  }

  ghost function Mixed(m: Manager, frequent: nat -> bool, done: set<nat>): map<nat, Controller> {
    map k | k in m.streams :: if k in done then Updated(m.streams[k], frequent(k)) else m.streams[k]
  }

  lemma {:induction false} MixedStep(m: Manager, frequent: nat -> bool, done: set<nat>, id: nat)
    requires id in m.streams && id !in done
    ensures Mixed(m, frequent, done).Keys == m.streams.Keys && Mixed(m, frequent, done)[id] == m.streams[id]
    ensures Mixed(m, frequent, done)[id := Updated(m.streams[id], frequent(id))] == Mixed(m, frequent, done + {id})
  {
    hide Updated;
  }

  lemma {:induction false} MixedEnds(m: Manager, frequent: nat -> bool)
    ensures Mixed(m, frequent, {}) == m.streams
    ensures var all := Mixed(m, frequent, m.streams.Keys);
            && all.Keys == m.streams.Keys
            && forall id :: id in m.streams ==> all[id] == Updated(m.streams[id], frequent(id))
  {
    hide Updated;
  }

  lemma {:induction false} DemandStep(m: Manager, force: bool, frequent: nat -> bool, done: set<nat>, most: nat,
                                      id: nat)
    requires DemandSoFar(m, force, frequent, done, most) && id in m.streams
    ensures DemandSoFar(m, force, frequent, done + {id}, Larger(most, Demand(m.streams[id], force, frequent(id))))
  {
    hide Demand;
    var d := Demand(m.streams[id], force, frequent(id));
    if d > most { assert id in done + {id}; }
  }

  lemma {:induction false} ReportStep(m: Manager, force: bool, frequent: nat -> bool, done: set<nat>,
                                      res: seq<WindowUpdate>, id: nat)
    requires ReportedSoFar(m, force, frequent, done, res) && id in m.streams && id !in done
    ensures var u := WindowUpdate(id, Updated(m.streams[id], frequent(id)).receiveWindow);
            ReportedSoFar(m, force, frequent, done + {id}, if force || NeedsUpdate(m.streams[id]) then res + [u]
                          else res)
  {
    hide Updated, NeedsUpdate;
    var u := WindowUpdate(id, Updated(m.streams[id], frequent(id)).receiveWindow);
    var res' := if force || NeedsUpdate(m.streams[id]) then res + [u] else res;
    forall i | 0 <= i < |res| ensures res[i].id != id {
      assert res[i] in res;
    }
  }

  lemma {:induction false} DemandIs(c: Controller, force: bool, frequent: bool)
    ensures Demand(c, force, frequent) ==
            if (force || NeedsUpdate(c)) && c.contributes && ReportedIncrement(c, frequent) != 0
                then 3 * ReportedIncrement(c, frequent) / 2 else 0
  {
    hide ReportedIncrement, NeedsUpdate;
  }

  lemma {:induction false} EnsureNothing(c: Controller)
    ensures EnsureIncrement(c, 0) == c
  {}

  /** All streams are done and the connection is updated as well. */
  lemma {:induction false} AllReported(m: Manager, force: bool, frequent: nat -> bool, most: nat, done: set<nat>,
                                       res: seq<WindowUpdate>, m': Manager)
    requires DemandSoFar(m, force, frequent, done, most) && ReportedSoFar(m, force, frequent, done, res)
    requires done == m.streams.Keys == m'.streams.Keys && 0 !in done && m'.params == m.params
    requires m'.conn == Updated(EnsureIncrement(m.conn, most), frequent(0))
    requires forall id :: id in m.streams ==> m'.streams[id] == Updated(m.streams[id], frequent(id))
    ensures var last := WindowUpdate(0, m'.conn.receiveWindow);
            WindowUpdates(m, force, frequent, m', if force || NeedsUpdate(EnsureIncrement(m.conn, most)) then res
                          + [last] else res)
  {
    hide Updated, NeedsUpdate, EnsureIncrement, Demand;
    assert GreatestDemand(m, force, frequent, most);
    var last := WindowUpdate(0, m'.conn.receiveWindow);
    var all := if force || NeedsUpdate(EnsureIncrement(m.conn, most)) then res + [last] else res;
    forall i | 0 <= i < |res| ensures res[i].id != 0 {
      assert res[i] in res;
    }
    forall u ensures u in res <==> Reported(m, force, frequent, done, u) {}
    assert UpdatesWith(m, force, frequent, most, m', all);
  }

  class FlowControlManager {
    var params: Parameters
    var streams: map<nat, FlowController>
    const conn: FlowController

    ghost predicate Valid()
      reads this, conn, streams.Values
    {
      && conn.id == 0
      && (forall k :: k in streams ==> streams[k].id == k && k != 0)
    }

    ghost function Values(): map<nat, Controller>
      reads this, streams.Values
    {
      map k | k in streams :: streams[k].Value()
    }

    ghost function Value(): Manager
      reads this, conn, streams.Values
    {
      Manager(params, conn.Value(), Values())
    }

    lemma {:induction false} Lookup(k: nat)
      ensures k in Values() <==> k in streams
      ensures k in streams ==> Values()[k] == streams[k].Value()
    {}

    constructor (p: Parameters)
      ensures Valid() && Value() == Manager(p, NewController(p, 0, false), map[])
      ensures fresh(conn)
    {
      params := p;
      streams := map[];
      conn := new FlowController(0, false, p);
    }

    method NewStream(id: nat, contributes: bool)
      requires Valid() && id != 0
      modifies this
      ensures Valid() && Value() == AfterNewStream(old(Value()), id, contributes)
      ensures forall k :: k in streams ==> (k in old(streams) && streams[k] == old(streams)[k]) || fresh(streams[k])
    {
      if id in streams { return; }
      var fc := new FlowController(id, contributes, params);
      streams := streams[id := fc];
      assert Values() == old(Values())[id := fc.Value()];
    }

    method RemoveStream(id: nat)
      requires Valid()
      modifies this
      ensures Valid() && Value() == AfterRemoveStream(old(Value()), id) && streams == old(streams) - {id}
    {
      streams := streams - {id};
      assert Values() == old(Values()) - {id};
    }

    /** Only the controller of `id` has changed. */
    twostate lemma {:induction false} OneChanged(id: nat)
      requires old(Valid()) && Valid() && streams == old(streams) && id in streams
      requires forall k :: k in streams && k != id ==> streams[k].Value() == old(streams[k].Value())
      ensures Values() == old(Values())[id := streams[id].Value()]
    {}

    method UpdateHighestReceived(id: nat, offset: nat) returns (r: Outcome)
      requires Valid()
      modifies conn, streams.Values
      ensures Valid() && (Value(), r) == AfterReceived(old(Value()), id, offset, false)
    {
      hide Values;
      ghost var m := Value();
      Lookup(id);
      if id !in streams { return NoSuchStream; }
      var fc := streams[id];
      var inc, _ := fc.UpdateHighestReceived(offset);
      OneChanged(id);
      ghost var d := fc.Value();
      assert m.streams[id] == old(fc.Value()) && Value() == m.(streams := m.streams[id := d]);
      if fc.CheckFlowControlViolation() { return StreamViolation; }
      if fc.contributes {
        conn.IncrementHighestReceived(inc);
        assert Values() == m.streams[id := d];
        if conn.CheckFlowControlViolation() { return ConnectionViolation; }
      }
      return Fine;
    }

    method ResetStream(id: nat, offset: nat) returns (r: Outcome)
      requires Valid()
      modifies conn, streams.Values
      ensures Valid() && (Value(), r) == AfterReceived(old(Value()), id, offset, true)
    {
      hide Values;
      ghost var m := Value();
      Lookup(id);
      if id !in streams { return NoSuchStream; }
      var fc := streams[id];
      var inc, smaller := fc.UpdateHighestReceived(offset);
      OneChanged(id);
      ghost var d := fc.Value();
      assert m.streams[id] == old(fc.Value()) && Value() == m.(streams := m.streams[id := d]);
      if smaller {
        assert Values() == old(Values());
        return DataAfterTermination;
      }
      if fc.CheckFlowControlViolation() { return StreamViolation; }
      if fc.contributes {
        conn.IncrementHighestReceived(inc);
        assert Values() == m.streams[id := d];
        if conn.CheckFlowControlViolation() { return ConnectionViolation; }
      }
      return Fine;
    }

    method AddBytesRead(id: nat, n: nat) returns (r: Outcome)
      requires Valid()
      modifies conn, streams.Values
      ensures Valid() && (Value(), r) == AfterRead(old(Value()), id, n)
    {
      if id !in streams { return NoSuchStream; }
      var fc := streams[id];
      fc.AddBytesRead(n);
      OneChanged(id);
      if fc.contributes { conn.AddBytesRead(n); }
      return Fine;
    }

    method AddBytesSent(id: nat, n: nat) returns (r: Outcome)
      requires Valid()
      modifies conn, streams.Values
      ensures Valid() && (Value(), r) == AfterSent(old(Value()), id, n)
    {
      if id !in streams { return NoSuchStream; }
      var fc := streams[id];
      fc.AddBytesSent(n);
      OneChanged(id);
      if fc.contributes { conn.AddBytesSent(n); }
      return Fine;
    }

    method UpdateWindow(id: nat, offset: nat) returns (updated: bool, r: Outcome)
      requires Valid()
      modifies conn, streams.Values
      ensures Valid() && (Value(), r) == AfterWindowUpdate(old(Value()), id, offset)
      ensures updated <==> Value() != old(Value())
    {
      if id == 0 {
        updated := conn.UpdateSendWindow(offset);
        return updated, Fine;
      }
      if id !in streams { return false, NoSuchStream; }
      updated := streams[id].UpdateSendWindow(offset);
      OneChanged(id);
      assert old(Values())[id] == old(streams[id].Value());
      return updated, Fine;
    }

    method SendWindowSize(id: nat) returns (n: nat, r: Outcome)
      requires Valid()
      ensures r == if id in streams then Fine else NoSuchStream
      ensures n == if id in streams then SendWindow(Value(), id) else 0
    {
      if id !in streams { return 0, NoSuchStream; }
      var fc := streams[id];
      n := fc.SendWindowSize(params);
      if fc.contributes {
        var c := conn.SendWindowSize(params);
        n := Min(n, c);
      }
      return n, Fine;
    }

    method RemainingConnectionWindowSize() returns (n: nat)
      requires Valid()
      ensures n == WindowSize(params, 0, Value().conn)
    {
      n := conn.SendWindowSize(params);
    }

    /** One round of the loop over the streams. */
    method UpdateStream(id: nat, force: bool, frequent: bool) returns (report: bool, offset: nat)
      requires Valid() && id in streams
      modifies conn, streams.Values
      ensures Valid()
      ensures id in old(Values()) && var c := old(Values())[id];
              && report == (force || NeedsUpdate(c)) && offset == Updated(c, frequent).receiveWindow
              && Values() == old(Values())[id := Updated(c, frequent)]
              && conn.Value() == EnsureIncrement(old(conn.Value()), Demand(c, force, frequent))
    {
      hide Updated, NeedsUpdate, EnsureIncrement, Demand, ReportedIncrement;
      var fc := streams[id];
      DemandIs(fc.Value(), force, frequent);
      EnsureNothing(conn.Value());
      var necessary, newIncrement, window := fc.MaybeUpdateWindow(frequent);
      OneChanged(id);
      if force || necessary {
        if fc.contributes && newIncrement != 0 {
          conn.EnsureMinimumWindowIncrement(3 * newIncrement / 2);
        }
        return true, window;
      }
      return false, window;
    }

    /** The streams come in the order in which the map yields them, which is any order. */
    method GetWindowUpdates(force: bool, frequent: nat -> bool) returns (res: seq<WindowUpdate>)
      requires Valid()
      modifies conn, streams.Values
      ensures Valid() && WindowUpdates(old(Value()), force, frequent, Value(), res)
    {
      hide Updated, NeedsUpdate, EnsureIncrement, Demand, ReportedIncrement, Values, Mixed, DemandSoFar, ReportedSoFar,
          WindowUpdates;
      res := [];
      ghost var m, most, done := Value(), 0, {};
      var todo := streams.Keys;
      KeysAre();
      StartOfLoop(m, force, frequent);
      while todo != {}
        invariant Valid() && todo + done == streams.Keys == m.streams.Keys && todo !! done
        invariant conn.Value() == EnsureIncrement(m.conn, most)
        invariant Values() == Mixed(m, frequent, done)
        invariant DemandSoFar(m, force, frequent, done, most)
        invariant ReportedSoFar(m, force, frequent, done, res)
      {
        var id :| id in todo;
        ghost var c := m.streams[id];
        DemandStep(m, force, frequent, done, most, id);
        ReportStep(m, force, frequent, done, res, id);
        MixedStep(m, frequent, done, id);
        EnsureTwice(m.conn, most, Demand(c, force, frequent(id)));
        var report, offset := UpdateStream(id, force, frequent(id));
        if report {
          res := res + [WindowUpdate(id, offset)];
        }
        most := Larger(most, Demand(c, force, frequent(id)));
        todo, done := todo - {id}, done + {id};
      }
      ghost var streamUpdates := res;
      var necessary, _, offset := conn.MaybeUpdateWindow(frequent(0));
      if force || necessary {
        res := res + [WindowUpdate(0, offset)];
      }
      assert done == m.streams.Keys;
      MixedEnds(m, frequent);
      AllReported(m, force, frequent, most, done, streamUpdates, Value());
    }

    lemma {:induction false} KeysAre()
      ensures Values().Keys == streams.Keys
    {}
  }

  lemma {:induction false} StartOfLoop(m: Manager, force: bool, frequent: nat -> bool)
    ensures Mixed(m, frequent, {}) == m.streams && EnsureIncrement(m.conn, 0) == m.conn
    ensures DemandSoFar(m, force, frequent, {}, 0) && ReportedSoFar(m, force, frequent, {}, [])
  {
    hide Demand, Updated;
  }
}
