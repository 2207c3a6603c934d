/** The classes of mpquic_trans/stream_framer.go and the sending half of mpquic_trans/stream.go, proved
    to do what Framing says. */
module StreamFramers {
  import opened Bytes
  import W = StreamFrames
  import opened Framing
  import FramingSize
  import FlowControl
  import opened FlowControlManagers

  /** A stream frame is passed around by reference and changed in place; `ref` names the object. */
  class StreamFrame {
    const ref: nat
    var id: nat
    var fin: bool
    var dataLenPresent: bool
    var offset: nat
    var data: seq<byte>

    function Value(): W.StreamFrame
      reads this
    {
      W.StreamFrame(id, fin, dataLenPresent, offset, data)
    }

    constructor (ref: nat, v: W.StreamFrame)
      ensures this.ref == ref && Value() == v
    {
      this.ref := ref;
      id, fin, dataLenPresent, offset, data := v.id, v.fin, v.dataLenPresent, v.offset, v.data;
    }
  }

  /** Cuts the first `n` bytes off `frame`, if it has more than that. */
  method MaybeSplitOffFrame(frame: StreamFrame, n: nat, next: nat) returns (split: StreamFrame?)
    modifies frame
    ensures n >= |old(frame.data)| ==> split == null && frame.Value() == old(frame.Value())
    ensures n < |old(frame.data)| ==>
              && split != null && fresh(split) && split.ref == next
              && split.Value() == Front(old(frame.Value()), n) && frame.Value() == Back(old(frame.Value()), n)
  {
    if n >= |frame.data| { return null; }
    split := new StreamFrame(next, W.StreamFrame(frame.id, false, frame.dataLenPresent, frame.offset, frame.data[..n]));
    frame.data := frame.data[n..];
    frame.offset := frame.offset + n;
  }

  // ----- the streams that have data to send -----

  /** The sending half of a stream. */
  class Stream {
    const id: nat
    var writeOffset: nat
    var dataForWriting: seq<byte>
    var finishedWriting: bool
    var finSent: bool
    var failed: bool

    function Value(): SendStream
      reads this
    {
      SendStream(writeOffset, dataForWriting, finishedWriting, finSent, failed)
    }

    constructor (id: nat)
      ensures this.id == id && Value() == SendStream(0, [], false, false, false)
    {
      this.id, writeOffset, dataForWriting, finishedWriting, finSent, failed := id, 0, [], false, false, false;
    }

    /** Without waiting for the data to be sent.  Data that is left from a write whose deadline has passed
        is replaced; a closed or failed stream takes none. */
    method Write(p: seq<byte>) returns (accepted: bool)
      modifies this`dataForWriting
      ensures accepted == (!failed && !finishedWriting)
      ensures Value() == if accepted && p != [] then old(Value()).(pending := p) else old(Value())
    {
      if failed || finishedWriting { return false; }
      if p != [] { dataForWriting := p; }
      return true;
    }

    method LenOfDataForWriting() returns (n: nat)
      ensures n == if failed then 0 else |dataForWriting|
    {
      if !failed { return |dataForWriting|; }
      return 0;
    }

    method GetDataForWriting(maxBytes: nat) returns (data: seq<byte>)
      modifies this
      ensures data == DataForWriting(old(Value()), maxBytes) && Value() == AfterWriting(old(Value()), maxBytes)
      ensures data + dataForWriting == old(dataForWriting) && writeOffset == old(writeOffset) + |data|
      ensures |data| == if failed then 0 else FlowControl.Min(maxBytes, |old(dataForWriting)|)
    {
      if failed || dataForWriting == [] {
        assert dataForWriting[0..] == dataForWriting;
        return [];
      }
      if |dataForWriting| > maxBytes {
        data := dataForWriting[..maxBytes];
        dataForWriting := dataForWriting[maxBytes..];
      } else {
        data := dataForWriting;
        assert dataForWriting[|dataForWriting|..] == [];
        dataForWriting := [];
      }
      writeOffset := writeOffset + |data|;
    }

    /** Takes data, and the end of the stream if that is due. */
    method Take(maxBytes: nat) returns (data: seq<byte>, fin: bool)
      modifies this
      ensures (Value(), data, fin) == TakeFrom(old(Value()), maxBytes)
    {
      data := [];
      var length := LenOfDataForWriting();
      if length != 0 {
        data := GetDataForWriting(maxBytes);
      } else {
        assert dataForWriting[0..] == dataForWriting;
      }
      fin := ShouldSendFin(Value());
      if fin { finSent := true; }
    }
  }

  /** The open streams, their flow control, and the BLOCKED frames to be sent. */
  class StreamSender {
    var streams: map<nat, Stream>
    const flow: FlowControlManager
    var blockedQueue: seq<nat>

    ghost predicate Valid()
      reads this, streams.Values, flow, flow.conn, flow.streams.Values
    {
      flow.Valid() && forall k :: k in streams ==> streams[k].id == k
    }

    ghost function Streams(): map<nat, SendStream>
      reads this`streams, streams.Values
    {
      map k | k in streams :: streams[k].Value()
    }

    ghost function Value(): Sending
      reads this, streams.Values, flow, flow.conn, flow.streams.Values
    {
      Sending(Streams(), flow.Value(), blockedQueue)
    }

    constructor (flow: FlowControlManager)
      requires flow.Valid()
      ensures Valid() && this.flow == flow && Value() == Sending(map[], flow.Value(), [])
    {
      this.flow, streams, blockedQueue := flow, map[], [];
    }

    lemma {:induction false} Lookup(k: nat)
      ensures k in Streams() <==> k in streams
      ensures k in streams ==> Streams()[k] == streams[k].Value()
    {}

    twostate lemma {:induction false} OneChanged(id: nat)
      requires streams == old(streams) && id in streams && forall k :: k in streams ==> streams[k].id == k
      requires forall k :: k in streams && k != id ==> streams[k].Value() == old(streams[k].Value())
      ensures Streams() == old(Streams())[id := streams[id].Value()]
    {}

    /** Tells flow control about `n` bytes, and notes a BLOCKED frame if nothing more may be sent. */
    method Account(id: nat, n: nat, fin: bool, window: nat)
      requires Valid()
      modifies this`blockedQueue, flow.conn, flow.streams.Values
      ensures Valid() && Streams() == old(Streams())
      ensures flow.Value() == FlowControl.AfterSent(old(flow.Value()), id, n).0
      ensures blockedQueue == old(blockedQueue) + Blocks(flow.Value(), id, n, fin, window)
    {
      hide FlowControl.AfterSent, FlowControl.WindowSize, Streams, FlowControlManager.Values, FlowControlManager.Valid;
      var _ := flow.AddBytesSent(id, n);
      var left := flow.RemainingConnectionWindowSize();
      if left == 0 {
        blockedQueue := blockedQueue + [0];
      } else if !fin && window == n {
        blockedQueue := blockedQueue + [id];
      }
    }

    /** What the packer's visit to one stream does; the frame, if any, is returned as a value. */
    method Visit(id: nat, room: nat) returns (frame: seq<W.StreamFrame>, goOn: bool)
      requires Valid() && id in streams
      modifies this`blockedQueue, streams[id], flow.conn, flow.streams.Values
      ensures Valid() && id in old(Streams())
      ensures Framing.Visit(Value(), frame, goOn) == VisitStream(old(Value()), id, room)
    {
      hide Streams, FlowControl.SendWindow, FlowControl.AfterSent, FlowControl.WindowSize, HeaderLength, TakeFrom,
          Blocks, VisitStream;
      hide FlowControlManager.Values, FlowControlManager.Valid, FlowControlManager.Value;
      Lookup(id);
      FlowLookup(id);
      ghost var v := Value();
      var s := streams[id];
      var header := HeaderLength(W.StreamFrame(id, false, true, s.writeOffset, []));
      if id == 1 || header > room {
        VisitEndsAtOnce(v, id, room);
        return [], id == 1;
      }
      var maxLen := room - header;
      var window := 0;
      var length := s.LenOfDataForWriting();
      if length != 0 {
        var size, _ := flow.SendWindowSize(id);
        window := size;
        maxLen := FlowControl.Min(maxLen, window);
      }
      assert Allowed(v, id, room, window, maxLen);
      if maxLen == 0 {
        VisitTakesNothing(v, id, room, window, maxLen);
        return [], true;
      }
      frame, goOn := TakeAndAccount(id, room, header, window, maxLen);
    }

    /** The second half of a visit, once it is clear how much may be taken. */
    method TakeAndAccount(id: nat, room: nat, header: nat, window: nat, most: nat)
        returns (frame: seq<W.StreamFrame>, goOn: bool)
      requires Valid() && id in streams && id in Streams() && most > 0 && Allowed(Value(), id, room, window, most)
      requires header == HeaderLength(W.StreamFrame(id, false, true, streams[id].writeOffset, []))
      modifies this`blockedQueue, streams[id], flow.conn, flow.streams.Values
      ensures Valid()
      ensures Framing.Visit(Value(), frame, goOn) == VisitStream(old(Value()), id, room)
    {
      hide Streams, FlowControl.AfterSent, FlowControl.WindowSize, HeaderLength, TakeFrom, Blocks, VisitStream, Allowed;
      hide FlowControlManager.Values, FlowControlManager.Valid, FlowControlManager.Value;
      Lookup(id);
      ghost var v := Value();
      var s := streams[id];
      var offset := s.writeOffset;
      NothingTaken(s.Value(), most);
      var data, fin := s.Take(most);
      OneChanged(id);
      if data == [] && !fin {
        VisitTakesNothing(v, id, room, window, most);
        assert Streams() == v.streams;
        return [], true;
      }
      VisitTakes(v, id, room, window, most);
      Account(id, |data|, fin, window);
      return [W.StreamFrame(id, fin, true, offset, data)], header + |data| != room;
    }

    lemma {:induction false} BlockedIs()
      ensures Value().blocked == blockedQueue
    {
      hide Streams, FlowControlManager.Value;
    }

    /** BLOCKED frames leave their queue one by one. */
    method PopBlockedFrame() returns (id: nat)
      requires Valid() && blockedQueue != []
      modifies this`blockedQueue
      ensures Valid() && id == old(blockedQueue[0]) && blockedQueue == old(blockedQueue[1..])
              && Value() == old(Value()).(blocked := old(blockedQueue[1..]))
    {
      hide Streams, FlowControlManager.Values, FlowControlManager.Valid, FlowControlManager.Value;
      id := blockedQueue[0];
      blockedQueue := blockedQueue[1..];
    }

    /** The streams are visited in the given order, until one of them puts an end to it. */
    method MaybePopNormalFrames(order: seq<nat>, maxBytes: nat) returns (res: seq<W.StreamFrame>)
      requires Valid() && forall k :: 0 <= k < |order| ==> order[k] in streams
      modifies this`blockedQueue, streams.Values, flow.conn, flow.streams.Values
      ensures Valid() && streams == old(streams)
      ensures forall k :: 0 <= k < |order| ==> order[k] in old(Streams())
      ensures var p := PopNormal(old(Value()), order, maxBytes); Value() == p.state && res == p.frames
    {
      hide PopNormal, VisitStream, Visited, Cost, Streams;
      hide FlowControlManager.Values, FlowControlManager.Valid, FlowControlManager.Value;
      res := [];
      var currentLen := 0;
      ghost var s0 := Value();
      StreamKeys();
      NothingVisited(s0, order, maxBytes);
      for i := 0 to |order|
        invariant Valid() && streams == old(streams)
        invariant currentLen <= maxBytes && Visited(s0, order, maxBytes, i, Value(), res, maxBytes - currentLen)
      {
        VisitOneMore(s0, order, maxBytes, i, Value(), res, maxBytes - currentLen);
        var frame, goOn := Visit(order[i], maxBytes - currentLen);
        res := res + frame;
        if !goOn { return; }
        currentLen := currentLen + if frame == [] then 0 else Cost(frame[0]);
      }
      AllVisited(s0, order, maxBytes, Value(), res, maxBytes - currentLen);
    }

    lemma {:induction false} StreamKeys()
      ensures Streams().Keys == streams.Keys
    {}

    lemma {:induction false} FlowLookup(id: nat)
      ensures id in flow.Value().streams <==> id in flow.streams
    {}
  }

  lemma {:induction false} NothingTaken(s: SendStream, most: nat)
    ensures var (t, data, fin) := TakeFrom(s, most); data == [] && !fin ==> t == s
    ensures var (t, data, fin) := TakeFrom(s, most); !HasData(s) ==> data == []
  {
    assert s.pending[0..] == s.pending;
  }

  /** `most` is what may be taken and `window` what flow control allows; without data it is not asked. */
  ghost predicate Allowed(v: Sending, id: nat, room: nat, window: nat, most: nat)
    requires id in v.streams
  {
    var str := v.streams[id];
    var header := HeaderLength(W.StreamFrame(id, false, true, str.offset, []));
    && id != 1 && header <= room
    && (HasData(str) ==>
          && window == (if id in v.flow.streams then FlowControl.SendWindow(v.flow, id) else 0)
          && most == FlowControl.Min(room - header, window))
    && (!HasData(str) ==> most == room - header)
  }

  lemma {:induction false} VisitEndsAtOnce(v: Sending, id: nat, room: nat)
    requires id in v.streams && (id == 1
                                 || HeaderLength(W.StreamFrame(id, false, true, v.streams[id].offset, [])) > room)
    ensures VisitStream(v, id, room) == Framing.Visit(v, [], id == 1)
  {
    hide HeaderLength;
  }

  lemma {:induction false} VisitTakesNothing(v: Sending, id: nat, room: nat, window: nat, most: nat)
    requires id in v.streams && Allowed(v, id, room, window, most)
    requires var (t, data, fin) := TakeFrom(v.streams[id], most); most == 0 || (data == [] && !fin)
    ensures VisitStream(v, id, room) == Framing.Visit(v, [], true)
  {
    hide HeaderLength, FlowControl.SendWindow, FlowControl.AfterSent, TakeFrom, Blocks;
  }

  lemma {:induction false} VisitTakes(v: Sending, id: nat, room: nat, window: nat, most: nat)
    requires id in v.streams && Allowed(v, id, room, window, most) && most > 0
    requires var (t, data, fin) := TakeFrom(v.streams[id], most); data != [] || fin
    ensures var header := HeaderLength(W.StreamFrame(id, false, true, v.streams[id].offset, []));
            var (t, data, fin) := TakeFrom(v.streams[id], most);
            var flow := FlowControl.AfterSent(v.flow, id, |data|).0;
            VisitStream(v, id, room) ==
            Framing.Visit(Sending(v.streams[id := t], flow, v.blocked + Blocks(flow, id, |data|, fin, window)),
                          [W.StreamFrame(id, fin, true, v.streams[id].offset, data)], header + |data| != room)
  {
    hide HeaderLength, FlowControl.SendWindow, FlowControl.AfterSent, TakeFrom, FlowControl.WindowSize;
    NothingTaken(v.streams[id], most);
  }

  // ----- how far the loop over the retransmission queue has come -----

  /** The first `i` frames were popped whole. */
  ghost predicate Progress(s: Store, q: seq<nat>, maxLen: nat, i: nat, now: Store, currentLen: nat) {
    && Known(s, q) && i <= |q| && TotalCost(s, q[..i]) == currentLen <= maxLen
    && Fit(s, q, maxLen, i) == Whole(s, q, maxLen)
    && now == Marked(s, q[..i])
  }

  lemma {:induction false} MarkOneMore(s: Store, q: seq<nat>, i: nat)
    requires Known(s, q) && i < |q|
    ensures var m := Marked(s, q[..i]);
            && q[i] in m && m[q[i]].(dataLenPresent := true) == s[q[i]].(dataLenPresent := true)
            && m[q[i] := m[q[i]].(dataLenPresent := true)] == Marked(s, q[..i + 1])
            && Marked(s, q[..i + 1])[q[i]] == s[q[i]].(dataLenPresent := true)
  {
    assert q[..i + 1] == q[..i] + [q[i]];
    assert q[i] in q[..i + 1];
  }

  lemma {:induction false} ProgressMeans(s: Store, q: seq<nat>, maxLen: nat, i: nat, now: Store, currentLen: nat)
    requires Progress(s, q, maxLen, i, now, currentLen)
    ensures now == Marked(s, q[..i]) && Known(s, q) && currentLen <= maxLen
  {}

  lemma {:induction false} HeaderIs(f: W.StreamFrame, g: W.StreamFrame)
    requires g == f.(dataLenPresent := true)
    ensures W.MinLength(g) == HeaderLength(f) && Cost(f) == HeaderLength(f) + |g.data|
  {}

  lemma {:induction false} HeaderIgnoresLength(f: W.StreamFrame, g: W.StreamFrame)
    requires f.(dataLenPresent := true) == g.(dataLenPresent := true)
    ensures HeaderLength(f) == HeaderLength(g) && f.data == g.data
  {
    assert f.(dataLenPresent := true).data == g.(dataLenPresent := true).data;
  }

  lemma {:induction false} NothingPopped(s: Store, q: seq<nat>, maxLen: nat)
    requires Known(s, q)
    ensures Progress(s, q, maxLen, 0, s, 0)
  {
    assert q[..0] == [];
    assert Marked(s, []) == s;
  }

  /** The frame fits: it is popped. */
  lemma {:induction false} PopOneMore(s: Store, q: seq<nat>, maxLen: nat, i: nat, now: Store, currentLen: nat)
    requires Progress(s, q, maxLen, i, now, currentLen) && i < |q|
    requires currentLen + HeaderLength(s[q[i]]) < maxLen && currentLen + Cost(s[q[i]]) <= maxLen
    ensures Progress(s, q, maxLen, i + 1, Marked(s, q[..i + 1]), currentLen + Cost(s[q[i]]))
  {
    hide HeaderLength, Marked;
    assert q[..i + 1][..i] == q[..i];
  }

  /** The loop ends here: nothing is left. */
  lemma {:induction false} AllPopped(s: Store, q: seq<nat>, maxLen: nat, now: Store, currentLen: nat, next: nat)
    requires Progress(s, q, maxLen, |q|, now, currentLen)
    ensures PopRetransmissions(s, q, maxLen, next) == Popped(now, [], q, currentLen) && Cut(s, q, maxLen) == 0
  {
    hide HeaderLength, Marked, TotalCost, Back, Front;
    assert q[..|q|] == q && q[|q|..] == [];
  }

  /** The loop ends here: no room for a header. */
  lemma {:induction false} NoRoom(s: Store, q: seq<nat>, maxLen: nat, i: nat, now: Store, currentLen: nat, next: nat)
    requires Progress(s, q, maxLen, i, now, currentLen) && i < |q| && currentLen + HeaderLength(s[q[i]]) >= maxLen
    ensures PopRetransmissions(s, q, maxLen, next) == Popped(Marked(s, q[..i + 1]), q[i..], q[..i], currentLen)
            && Cut(s, q, maxLen) == 0
  {
    hide HeaderLength, Marked, TotalCost, Back, Front;
  }

  /** The loop ends here: `n` bytes are cut off the frame. */
  lemma {:induction false} IsCut(s: Store, q: seq<nat>, maxLen: nat, i: nat, now: Store, currentLen: nat, next: nat,
                                 f: W.StreamFrame, n: nat)
    requires Progress(s, q, maxLen, i, now, currentLen) && i < |q| && f == s[q[i]].(dataLenPresent := true)
    requires currentLen + HeaderLength(s[q[i]]) + n == maxLen && 0 < n < |f.data|
    ensures Cut(s, q, maxLen) == n
    ensures PopRetransmissions(s, q, maxLen, next) ==
            Popped(Marked(s, q[..i + 1])[q[i] := Back(f, n)][next := Front(f, n)], q[i..], q[..i] + [next], maxLen)
  {
    hide HeaderLength, Marked, TotalCost, Back, Front;
    MarkOneMore(s, q, i);
  }

  /** One round of the loop: the first frame of the queue is left, cut, or popped whole. */
  datatype Pop = Keep | Part | All

  datatype Round = Left(store: Store) | CutOff(store: Store) | Taken(store: Store, length: nat)

  function OneRound(store: Store, r: nat, maxLen: nat, currentLen: nat, next: nat): Round
    requires r in store && currentLen <= maxLen
  {
    var f, header := store[r].(dataLenPresent := true), HeaderLength(store[r]);
    if currentLen + header >= maxLen then Left(store[r := f])
    else
      var n := maxLen - currentLen - header;
      if n < |f.data| then CutOff(store[r := Back(f, n)][next := Front(f, n)])
      else Taken(store[r := f], currentLen + header + |f.data|)
  }

  lemma {:induction false} RoundMeans(s: Store, q: seq<nat>, maxLen: nat, i: nat, now: Store, currentLen: nat,
                                      next: nat)
    requires Progress(s, q, maxLen, i, now, currentLen) && i < |q|
    ensures q[i] in now && currentLen <= maxLen
    ensures match OneRound(now, q[i], maxLen, currentLen, next)
            case Left(t) => PopRetransmissions(s, q, maxLen, next) == Popped(t, q[i..], q[..i], currentLen)
                && Cut(s, q, maxLen) == 0
            case CutOff(t) => PopRetransmissions(s, q, maxLen, next) == Popped(t, q[i..], q[..i] + [next], maxLen)
                && Cut(s, q, maxLen) > 0
            case Taken(t, length) => length <= maxLen && Progress(s, q, maxLen, i + 1, t, length)
  {
    hide HeaderLength, Marked, TotalCost, Back, Front, PopRetransmissions, Whole, Cut, Progress;
    ProgressMeans(s, q, maxLen, i, now, currentLen);
    MarkOneMore(s, q, i);
    var f := s[q[i]].(dataLenPresent := true);
    HeaderIs(s[q[i]], f);
    HeaderIgnoresLength(s[q[i]], now[q[i]]);
    var header := HeaderLength(s[q[i]]);
    if currentLen + header >= maxLen {
      NoRoom(s, q, maxLen, i, now, currentLen, next);
    } else if maxLen - currentLen - header < |f.data| {
      IsCut(s, q, maxLen, i, now, currentLen, next, f, maxLen - currentLen - header);
      CutTwice(Marked(s, q[..i]), q[i], next, f, maxLen - currentLen - header);
    } else {
      PopOneMore(s, q, maxLen, i, now, currentLen);
    }
  }

  lemma {:induction false} CutTwice(m: Store, r: nat, next: nat, f: W.StreamFrame, n: nat)
    requires r in m && n < |f.data|
    ensures m[r := f][r := Back(f, n)][next := Front(f, n)] == m[r := Back(f, n)][next := Front(f, n)]
  {
    hide Back, Front;
    assert m[r := f][r := Back(f, n)] == m[r := Back(f, n)];
  }

  lemma {:induction false} PoppedFits(f: Framer, maxLen: nat)
    requires Framing.Valid(f)
    ensures Known(f.store, f.queue) && PopRetransmissions(f.store, f.queue, maxLen, f.next).length <= maxLen
  {
    hide PopRetransmissions;
    FramingSize.PoppedFacts(f.store, f.queue, maxLen, f.next);
  }

  // ----- how far the loop over the streams has come -----

  ghost predicate Visited(s0: Sending, order: seq<nat>, room: nat, i: nat, s: Sending, done: seq<W.StreamFrame>,
                          left: nat) {
    && i <= |order| && left <= room
    && (forall k :: 0 <= k < |order| ==> order[k] in s0.streams && order[k] in s.streams)
    && var p, rest := PopNormal(s0, order, room), PopNormal(s, order[i..], left);
       p == Fresh(rest.state, done + rest.frames, room - left + rest.length)
  }

  lemma {:induction false} NothingVisited(s: Sending, order: seq<nat>, room: nat)
    requires forall k :: 0 <= k < |order| ==> order[k] in s.streams
    ensures Visited(s, order, room, 0, s, [], room)
  {
    hide PopNormal;
    assert order[0..] == order;
    var f := PopNormal(s, order, room).frames;
    assert [] + f == f;
  }

  lemma {:induction false} UnfoldNormal(s: Sending, order: seq<nat>, room: nat)
    requires order != [] && forall k :: 0 <= k < |order| ==> order[k] in s.streams
    ensures var v := VisitStream(s, order[0], room);
            var cost := if v.frame == [] then 0 else Cost(v.frame[0]);
            && v.state.streams.Keys == s.streams.Keys
            && PopNormal(s, order, room) ==
               if !v.goOn then Fresh(v.state, v.frame, cost)
               else
                 var p := PopNormal(v.state, order[1..], room - cost);
                 Fresh(p.state, v.frame + p.frames, cost + p.length)
  {
    hide VisitStream, Cost;
    FramingSize.VisitKeepsStreams(s, order[0], room);
  }

  lemma {:induction false} NothingStored(store: Store, first: nat)
    ensures Stored(store, first, []) == store && Numbers(first, 0) == []
  {}

  lemma {:induction false} VisitOneMore(s0: Sending, order: seq<nat>, room: nat, i: nat, s: Sending,
                                        done: seq<W.StreamFrame>, left: nat)
    requires Visited(s0, order, room, i, s, done, left) && i < |order|
    ensures order[i] in s.streams
    ensures var v := VisitStream(s, order[i], left);
            var cost := if v.frame == [] then 0 else Cost(v.frame[0]);
            && cost <= left
            && (v.goOn ==> Visited(s0, order, room, i + 1, v.state, done + v.frame, left - cost))
            && (!v.goOn ==> PopNormal(s0, order, room) == Fresh(v.state, done + v.frame, room - left + cost))
  {
    hide VisitStream, Cost, PopNormal;
    FramingSize.VisitKeepsStreams(s, order[i], left);
    UnfoldNormal(s, order[i..], left);
    assert order[i..][0] == order[i] && order[i..][1..] == order[i + 1..];
    var v := VisitStream(s, order[i], left);
    var cost := if v.frame == [] then 0 else Cost(v.frame[0]);
    if v.goOn {
      var p := PopNormal(v.state, order[i + 1..], left - cost);
      assert done + (v.frame + p.frames) == done + v.frame + p.frames;
    }
  }

  lemma {:induction false} AllVisited(s0: Sending, order: seq<nat>, room: nat, s: Sending, done: seq<W.StreamFrame>,
                                      left: nat)
    requires Visited(s0, order, room, |order|, s, done, left)
    ensures PopNormal(s0, order, room) == Fresh(s, done, room - left)
  {
    assert order[|order|..] == [];
    assert done + [] == done;
  }

  lemma {:induction false} StoreOneMore(store: Store, first: nat, done: seq<W.StreamFrame>, f: W.StreamFrame)
    ensures Stored(store, first, done)[first + |done| := f] == Stored(store, first, done + [f])
    ensures Numbers(first, |done|) + [first + |done|] == Numbers(first, |done| + 1)
  {
    assert (done + [f])[..|done|] == done;
  }

  ghost predicate Named(frames: map<nat, StreamFrame>, s: seq<StreamFrame>) {
    forall i :: 0 <= i < |s| ==> s[i].ref in frames && frames[s[i].ref] == s[i]
  }

  ghost predicate Extends(a: map<nat, StreamFrame>, b: map<nat, StreamFrame>) {
    forall r :: r in a ==> r in b && b[r] == a[r]
  }

  lemma {:induction false} NamedTogether(a: map<nat, StreamFrame>, b: map<nat, StreamFrame>, s: seq<StreamFrame>,
                                         t: seq<StreamFrame>)
    requires Extends(a, b) && Named(a, s) && Named(b, t)
    ensures Named(b, s + t) && Refs(s + t) == Refs(s) + Refs(t)
  {}

  lemma {:induction false} ExtendsTwice(a: map<nat, StreamFrame>, b: map<nat, StreamFrame>, c: map<nat, StreamFrame>)
    requires Extends(a, b) && Extends(b, c)
    ensures Extends(a, c)
  {}

  class StreamFramer {
    /** All frames, by name. */
    ghost var frames: map<nat, StreamFrame>
    var next: nat
    var retransmissionQueue: seq<StreamFrame>
    const sender: StreamSender

    ghost predicate Valid()
      reads this, frames.Values
    {
      && (forall r :: r in frames ==> frames[r].ref == r < next)
      && Named(frames, retransmissionQueue)
    }

    ghost function Store(): Store
      reads this`frames, frames.Values
    {
      map r | r in frames :: frames[r].Value()
    }

    constructor (sender: StreamSender)
      ensures Valid() && frames == map[] && next == 0 && retransmissionQueue == [] && this.sender == sender
    {
      frames, next, retransmissionQueue, this.sender := map[], 0, [], sender;
    }

    lemma {:induction false} Lookup(r: nat)
      ensures r in Store() <==> r in frames
      ensures r in frames ==> Store()[r] == frames[r].Value()
    {}

    lemma {:induction false} KnownRefs(s: seq<StreamFrame>)
      requires Named(frames, s)
      ensures Known(Store(), Refs(s))
    {
      forall i | 0 <= i < |s| ensures Refs(s)[i] in Store() { assert Refs(s)[i] == s[i].ref; }
    }

    /** One frame object has changed. */
    twostate lemma {:induction false} OneChanged(r: nat)
      requires old(Valid()) && frames == old(frames) && r in frames
      requires forall k :: k in frames && k != r ==> frames[k].Value() == old(frames[k].Value())
      ensures Store() == old(Store())[r := frames[r].Value()]
    {}

    /** One frame object has changed and one was added. */
    twostate lemma {:induction false} OneSplit(r: nat, new f: StreamFrame)
      requires old(Valid()) && r in old(frames) && f.ref !in old(frames) && frames == old(frames)[f.ref := f]
      requires forall k :: k in old(frames) && k != r ==> frames[k].Value() == old(frames[k].Value())
      ensures Store() == old(Store())[r := frames[r].Value()][f.ref := f.Value()]
    {}

    /** `pop` says which of the three happened. */
    method PopOrCut(maxLen: nat, currentLen: nat) returns (frame: StreamFrame, pop: Pop, newLen: nat)
      requires Valid() && retransmissionQueue != [] && currentLen <= maxLen
      modifies this, retransmissionQueue[0]
      ensures Valid() && old(retransmissionQueue[0].ref) in old(Store())
      ensures match OneRound(old(Store()), old(retransmissionQueue[0].ref), maxLen, currentLen, old(next))
              case Left(t) =>
                pop == Keep && newLen == currentLen && next == old(next) && frames == old(frames) && Store() == t
                && retransmissionQueue == old(retransmissionQueue)
              case CutOff(t) =>
                pop == Part && newLen == maxLen && next == old(next) + 1 && Store() == t && retransmissionQueue
                    == old(retransmissionQueue)
                && frame.ref == old(next) && fresh(frame) && frames == old(frames)[old(next) := frame]
              case Taken(t, length) =>
                pop == All && newLen == length && next == old(next) && frames == old(frames) && Store() == t
                && frame == old(retransmissionQueue[0]) && retransmissionQueue == old(retransmissionQueue[1..])
    {
      hide HeaderLength, Cost, Back, Front, Store;
      frame := retransmissionQueue[0];
      ghost var r := frame.ref;
      Lookup(r);
      HeaderIs(frame.Value(), frame.Value().(dataLenPresent := true));
      frame.dataLenPresent := true;
      var header := W.MinLength(frame.Value());
      if currentLen + header >= maxLen {
        OneChanged(r);
        return frame, Keep, currentLen;
      }
      var n := maxLen - currentLen - header;
      var split := MaybeSplitOffFrame(frame, n, next);
      if split != null {
        frames := frames[next := split];
        next := next + 1;
        OneSplit(r, split);
        return split, Part, maxLen;
      }
      OneChanged(r);
      retransmissionQueue := retransmissionQueue[1..];
      return frame, All, currentLen + header + |frame.data|;
    }

    method MaybePopFramesForRetransmission(maxLen: nat) returns (res: seq<StreamFrame>, currentLen: nat)
      requires Valid()
      modifies this, frames.Values
      ensures fresh(frames.Values - old(frames.Values))
      ensures Valid() && Named(frames, res)
      ensures Extends(old(frames), frames)
      ensures Known(old(Store()), Refs(old(retransmissionQueue)))
      ensures Popped(Store(), Refs(retransmissionQueue), Refs(res), currentLen) ==
              PopRetransmissions(old(Store()), Refs(old(retransmissionQueue)), maxLen, old(next))
      ensures next == if Cut(old(Store()), Refs(old(retransmissionQueue)), maxLen) > 0 then old(next) + 1 else old(next)
    {
      hide OneRound, PopRetransmissions, Cut, Progress, Store, Refs;
      res, currentLen := [], 0;
      ghost var s, q, i := Store(), Refs(retransmissionQueue), 0;
      KnownRefs(retransmissionQueue);
      NothingPopped(s, q, maxLen);
      while retransmissionQueue != []
        invariant Valid() && frames == old(frames) && next == old(next)
        invariant i <= |q| && Refs(res) == q[..i] && Refs(retransmissionQueue) == q[i..] && Named(frames, res)
        invariant currentLen <= maxLen && Known(s, q) && Progress(s, q, maxLen, i, Store(), currentLen)
        decreases |retransmissionQueue|
      {
        assert retransmissionQueue[0].ref == q[i];
        RoundMeans(s, q, maxLen, i, Store(), currentLen, next);
        var frame, pop;
        frame, pop, currentLen := PopOrCut(maxLen, currentLen);
        if pop == Keep { return; }
        res := res + [frame];
        if pop == Part {
          assert Refs(res) == q[..i] + [frame.ref];
          return;
        }
        i := i + 1;
      }
      assert q[i..] == [];
      AllPopped(s, q, maxLen, Store(), currentLen, next);
    }

    twostate lemma {:induction false} OneAdded(new f: StreamFrame)
      requires old(Valid()) && f.ref !in old(frames) && frames == old(frames)[f.ref := f]
      requires forall k :: k in old(frames) ==> frames[k].Value() == old(frames[k].Value())
      ensures Store() == old(Store())[f.ref := f.Value()]
    {}

    /** A new frame object. */
    method AddFrame(v: W.StreamFrame) returns (f: StreamFrame)
      requires Valid()
      modifies this`frames, this`next
      ensures Valid() && fresh(f) && f.ref == old(next) && next == old(next) + 1
      ensures frames == old(frames)[f.ref := f] && Store() == old(Store())[old(next) := v]
    {
      f := new StreamFrame(next, v);
      frames := frames[next := f];
      next := next + 1;
      OneAdded(f);
    }

    /** New frame objects for new data. */
    method AddFrames(values: seq<W.StreamFrame>) returns (res: seq<StreamFrame>)
      requires Valid()
      modifies this`frames, this`next
      ensures fresh(frames.Values - old(frames.Values))
      ensures Valid() && Named(frames, res) && next == old(next) + |values|
      ensures Extends(old(frames), frames)
      ensures Store() == Stored(old(Store()), old(next), values) && Refs(res) == Numbers(old(next), |values|)
    {
      hide Stored, Numbers, Store;
      res := [];
      ghost var store, first := Store(), next;
      NothingStored(store, first);
      for i := 0 to |values|
        invariant Valid() && Named(frames, res) && next == first + i
        invariant Extends(old(frames), frames) && fresh(frames.Values - old(frames.Values))
        invariant Store() == Stored(store, first, values[..i]) && Refs(res) == Numbers(first, i)
      {
        StoreOneMore(store, first, values[..i], values[i]);
        assert values[..i + 1] == values[..i] + [values[i]];
        var f := AddFrame(values[i]);
        res := res + [f];
      }
      assert values[..|values|] == values;
    }

    /** The frames for the next packet: first those to be sent again, then new ones. */
    method PopStreamFrames(maxLen: nat, order: seq<nat>) returns (res: seq<StreamFrame>)
      requires Valid() && sender.Valid() && forall k :: 0 <= k < |order| ==> order[k] in sender.streams
      modifies this, frames.Values
      modifies sender`blockedQueue, sender.streams.Values, sender.flow.conn, sender.flow.streams.Values
      ensures fresh(frames.Values - old(frames.Values))
      ensures Valid() && sender.Valid() && Named(frames, res)
      ensures Extends(old(frames), frames)
      ensures Framing.Valid(old(Value())) && Visits(old(Value()), order)
      ensures Output(Value(), Refs(res)) == Framing.PopStreamFrames(old(Value()), maxLen, order)
    {
      hide *;
      ghost var v := Value();
      ValueIs();
      ValueIsValid();
      OrderIsVisited(order);
      PoppedFits(v, maxLen);
      ghost var p := PopRetransmissions(v.store, v.queue, maxLen, v.next);
      ghost var first := if Cut(v.store, v.queue, maxLen) > 0 then v.next + 1 else v.next;
      var again, length := MaybePopFramesForRetransmission(maxLen);
      assert sender.Value() == v.sending && Store() == p.store && next == first && Refs(again) == p.refs;
      ghost var q, mid := PopNormal(v.sending, order, maxLen - length), frames;
      var added := MaybePopNormalFrames(order, maxLen - length);
      assert Store() == Stored(p.store, first, q.frames);
      res := again + added;
      NamedTogether(mid, frames, again, added);
      ExtendsTwice(old(frames), mid, frames);
      ValueIs();
      assert Value() == Framer(Stored(p.store, first, q.frames), p.queue, first + |q.frames|, q.state);
      assert Refs(res) == p.refs + Numbers(first, |q.frames|);
      FramingSize.OutputParts(v, maxLen, order, p, first, q);
    }

    lemma {:induction false} ValueIs()
      ensures Value() == Framer(Store(), Refs(retransmissionQueue), next, sender.Value())
    {
      hide Store, StreamSender.Value;
    }

    lemma {:induction false} OrderIsVisited(order: seq<nat>)
      requires forall k :: 0 <= k < |order| ==> order[k] in sender.streams
      ensures Visits(Value(), order)
    {
      sender.StreamKeys();
    }

    method MaybePopNormalFrames(order: seq<nat>, maxBytes: nat) returns (res: seq<StreamFrame>)
      requires Valid() && sender.Valid() && forall k :: 0 <= k < |order| ==> order[k] in sender.streams
      modifies this`frames, this`next
      modifies sender`blockedQueue, sender.streams.Values, sender.flow.conn, sender.flow.streams.Values
      ensures fresh(frames.Values - old(frames.Values))
      ensures Valid() && sender.Valid() && Named(frames, res)
      ensures Extends(old(frames), frames)
      ensures forall k :: 0 <= k < |order| ==> order[k] in old(sender.Value()).streams
      ensures var q := PopNormal(old(sender.Value()), order, maxBytes);
              && sender.Value() == q.state && next == old(next) + |q.frames|
              && Store() == Stored(old(Store()), old(next), q.frames) && Refs(res) == Numbers(old(next), |q.frames|)
    {
      hide Store, PopNormal, Stored, FlowControlManager.Values, FlowControlManager.Valid, FlowControlManager.Value,
          StreamSender.Streams;
      ghost var store := Store();
      var values := sender.MaybePopNormalFrames(order, maxBytes);
      assert Store() == store;
      res := AddFrames(values);
    }

    ghost function Value(): Framer
      reads this, frames.Values
      reads sender, sender.streams.Values, sender.flow, sender.flow.conn, sender.flow.streams.Values
    {
      Framer(Store(), Refs(retransmissionQueue), next, sender.Value())
    }

    lemma {:induction false} ValueIsValid()
      requires Valid()
      ensures Framing.Valid(Value())
    {
      KnownRefs(retransmissionQueue);
    }

    /** The last frame of a packet goes without its length. */
    method DropLength(frame: StreamFrame)
      requires Valid() && Named(frames, [frame])
      modifies frame
      ensures Valid() && frame.ref in old(Store())
      ensures Store() == old(Store())[frame.ref := old(Store())[frame.ref].(dataLenPresent := false)]
    {
      hide Store;
      assert [frame][0] == frame;
      Lookup(frame.ref);
      frame.dataLenPresent := false;
      OneChanged(frame.ref);
    }

    method AddFrameForRetransmission(frame: StreamFrame)
      requires Valid() && Named(frames, [frame])
      modifies this`retransmissionQueue
      ensures Valid() && retransmissionQueue == old(retransmissionQueue) + [frame]
      ensures Store() == old(Store())
    {
      assert [frame][0] == frame;
      retransmissionQueue := retransmissionQueue + [frame];
    }
  }

  function Refs(s: seq<StreamFrame>): (r: seq<nat>)
    ensures |r| == |s| && forall i :: 0 <= i < |s| ==> r[i] == s[i].ref
  {
    seq(|s|, i requires 0 <= i < |s| => s[i].ref)
  }
}
