/** Which stream frames go into the next packet: mpquic_trans/stream_framer.go and the sending half of
    mpquic_trans/stream.go.  Frames are mutable objects that several packets may share; here they are
    numbers, and a store says what each of them holds.  The classes are in StreamFramer.dfy. */
module Framing {
  import opened Bytes
  import opened StreamFrames
  import FlowControl

  type Store = map<nat, StreamFrame>

  // ----- frames that are sent again -----

  /** Bytes needed for a frame together with its length field, without its data. */
  function HeaderLength(f: StreamFrame): (n: nat)
    ensures 4 <= n <= 15
  { MinLength(f.(dataLenPresent := true)) }

  function Cost(f: StreamFrame): nat { HeaderLength(f) + |f.data| }

  function Known(store: Store, refs: seq<nat>): bool { forall i :: 0 <= i < |refs| ==> refs[i] in store }

  function TotalCost(store: Store, refs: seq<nat>): nat
    requires Known(store, refs)
  {
    if refs == [] then 0 else TotalCost(store, refs[..|refs| - 1]) + Cost(store[refs[|refs| - 1]])
  }

  /** How many frames of the queue fit as they are, after the first `k`. */
  function Fit(store: Store, queue: seq<nat>, maxLen: nat, k: nat): (n: nat)
    requires Known(store, queue) && k <= |queue| && TotalCost(store, queue[..k]) <= maxLen
    ensures k <= n <= |queue| && TotalCost(store, queue[..n]) <= maxLen
    ensures n < |queue| ==> var f, left := store[queue[n]], maxLen - TotalCost(store, queue[..n]);
                            HeaderLength(f) >= left || Cost(f) > left
    decreases |queue| - k
  {
    if k == |queue| then k
    else
      var f, cur := store[queue[k]], TotalCost(store, queue[..k]);
      assert queue[..k + 1][..k] == queue[..k];
      if cur + HeaderLength(f) >= maxLen || cur + Cost(f) > maxLen then k else Fit(store, queue, maxLen, k + 1)
  }

  function Whole(store: Store, queue: seq<nat>, maxLen: nat): (n: nat)
    requires Known(store, queue)
    ensures n <= |queue| && TotalCost(store, queue[..n]) <= maxLen
    ensures n < |queue| ==> var f, left := store[queue[n]], maxLen - TotalCost(store, queue[..n]);
                            HeaderLength(f) >= left || Cost(f) > left
  {
    Fit(store, queue, maxLen, 0)
  }

  /** How many bytes are cut off the frame that no longer fits; zero if not even its header fits. */
  function Cut(store: Store, queue: seq<nat>, maxLen: nat): (n: nat)
    requires Known(store, queue)
    ensures n > 0 ==> Whole(store, queue, maxLen) < |queue| && n < |store[queue[Whole(store, queue, maxLen)]].data|
  {
    var k := Whole(store, queue, maxLen);
    if k == |queue| then 0
    else
      var f, left := store[queue[k]], maxLen - TotalCost(store, queue[..k]);
      if HeaderLength(f) >= left then 0 else left - HeaderLength(f)
  }

  function Marked(store: Store, refs: seq<nat>): (s: Store)
    ensures s.Keys == store.Keys
  {
    map r | r in store :: if r in refs then store[r].(dataLenPresent := true) else store[r]
  }

  function Front(f: StreamFrame, n: nat): StreamFrame
    requires n <= |f.data|
  { f.(fin := false, data := f.data[..n]) }

  function Back(f: StreamFrame, n: nat): StreamFrame
    requires n <= |f.data|
  { f.(offset := f.offset + n, data := f.data[n..]) }

  datatype Popped = Popped(store: Store, queue: seq<nat>, refs: seq<nat>, length: nat)

  /** `maybePopFramesForRetransmission`; a frame that is cut gets the number `next`. */
  function PopRetransmissions(store: Store, queue: seq<nat>, maxLen: nat, next: nat): (p: Popped)
    requires Known(store, queue)
  {
    var k, n := Whole(store, queue, maxLen), Cut(store, queue, maxLen);
    var marked := Marked(store, queue[..if k < |queue| then k + 1 else k]);
    if n == 0 then Popped(marked, queue[k..], queue[..k], TotalCost(store, queue[..k]))
    else
      var f := marked[queue[k]];
      Popped(marked[queue[k] := Back(f, n)][next := Front(f, n)], queue[k..], queue[..k] + [next], maxLen)
  }

  /** Frames are sent again in the order of the queue, none is lost and none comes twice.  The first that
      is left behind is split in two, unless not even its header fits: its front is sent and its back,
      with the FIN if there is one, stays at the head of the queue. */
  lemma {:induction false} QueueIsPopped(store: Store, queue: seq<nat>, maxLen: nat, next: nat)
    requires Known(store, queue) && next !in store
    ensures var p := PopRetransmissions(store, queue, maxLen, next);
            var cut := p.refs != [] && p.refs[|p.refs| - 1] == next;
            var whole := if cut then p.refs[..|p.refs| - 1] else p.refs;
            && whole + p.queue == queue && Known(store, whole)
            && (!cut ==>
                  && p.length == TotalCost(store, whole) <= maxLen && p.store.Keys == store.Keys
                  && (p.queue != [] ==> TotalCost(store, whole) + HeaderLength(store[p.queue[0]]) >= maxLen))
            && (cut ==>
                  && p.queue != [] && p.queue[0] in store && p.length == maxLen && next in p.store
                  && p.queue[0] in p.store
                  && var f, front, back := store[p.queue[0]], p.store[next], p.store[p.queue[0]];
                     && f.data == front.data + back.data && front.data != [] && back.data != []
                     && front.id == back.id == f.id && front.offset == f.offset
                     && back.offset == f.offset + |front.data| && back.fin == f.fin && !front.fin
                     && TotalCost(store, whole) + Cost(front) == maxLen)
  {
    hide TotalCost, HeaderLength, Whole;
    var k, n := Whole(store, queue, maxLen), Cut(store, queue, maxLen);
    assert queue[..k] + queue[k..] == queue;
    var p := PopRetransmissions(store, queue, maxLen, next);
    if n == 0 {
      assert p.refs == queue[..k];
      if k > 0 { assert queue[k - 1] in store; }
    } else {
      assert p.refs[..|p.refs| - 1] == queue[..k];
      CutFits(store[queue[k]], n);
    }
  }

  lemma {:induction false} CutFits(f: StreamFrame, n: nat)
    requires n <= |f.data|
    ensures f.data == f.data[..n] + f.data[n..]
    ensures Cost(Front(f.(dataLenPresent := true), n)) == HeaderLength(f) + n
  {}

  // ----- new frames -----

  /** The sending half of a stream: data handed to it and not yet sent, and whether it was closed. */
  datatype SendStream = SendStream(offset: nat, pending: seq<byte>, finished: bool, finSent: bool, failed: bool)

  function DataForWriting(s: SendStream, most: nat): (data: seq<byte>) {
    if s.failed then [] else if |s.pending| > most then s.pending[..most] else s.pending
  }

  function AfterWriting(s: SendStream, most: nat): SendStream {
    var n := |DataForWriting(s, most)|;
    s.(offset := s.offset + n, pending := s.pending[n..])
  }

  predicate ShouldSendFin(s: SendStream) { s.finished && !s.finSent && !s.failed && s.pending == [] }

  datatype Sending = Sending(streams: map<nat, SendStream>, flow: FlowControl.Manager, blocked: seq<nat>)

  /** The BLOCKED frames called for after `n` bytes were sent: for the connection, or for the stream. */
  function Blocks(flow: FlowControl.Manager, id: nat, n: nat, fin: bool, window: nat): seq<nat> {
    if FlowControl.WindowSize(flow.params, 0, flow.conn) == 0 then [0] else if !fin && window == n then [id] else []
  }

  datatype Visit = Visit(state: Sending, frame: seq<StreamFrame>, goOn: bool)

  predicate HasData(s: SendStream) { !s.failed && s.pending != [] }

  /** At most `most` bytes of data, and the end of the stream if it is reached. */
  function TakeFrom(s: SendStream, most: nat): (SendStream, seq<byte>, bool) {
    var data := DataForWriting(s, most);
    var s1 := AfterWriting(s, most);
    var fin := ShouldSendFin(s1);
    (s1.(finSent := s1.finSent || fin), data, fin)
  }

  /** What is done for one stream when `room` bytes are left; flow control has its say over data. */
  function VisitStream(s: Sending, id: nat, room: nat): (v: Visit)
    requires id in s.streams
    ensures |v.frame| <= 1 && (v.frame != [] ==> Cost(v.frame[0]) <= room && v.frame[0].dataLenPresent)
  {
    var str := s.streams[id];
    var header := HeaderLength(StreamFrame(id, false, true, str.offset, []));
    if id == 1 then Visit(s, [], true)
    else if header > room then Visit(s, [], false)
    else
      var window := if id in s.flow.streams then FlowControl.SendWindow(s.flow, id) else 0;
      var most := if HasData(str) then FlowControl.Min(room - header, window) else room - header;
      var (str1, data, fin) := TakeFrom(str, most);
      if most == 0 || (data == [] && !fin) then Visit(s, [], true)
      else
        var flow := FlowControl.AfterSent(s.flow, id, |data|).0;
        Visit(Sending(s.streams[id := str1], flow, s.blocked + Blocks(flow, id, |data|, fin, window)),
              [StreamFrame(id, fin, true, str.offset, data)], header + |data| != room)
  }

  /** Data is handed out from the front, as much as is allowed, and the rest stays; a failed stream hands
      out nothing.  The FIN comes with the last of it, once. */
  lemma {:induction false} FrontIsTaken(s: SendStream, most: nat)
    ensures var (t, data, fin) := TakeFrom(s, most);
            && data + t.pending == s.pending && t.offset == s.offset + |data|
            && |data| == (if s.failed then 0 else FlowControl.Min(most, |s.pending|))
            && (fin <==> s.finished && !s.finSent && !s.failed && t.pending == [])
            && t.finSent == (s.finSent || fin) && t.finished == s.finished && t.failed == s.failed
  {}

  /** New data never exceeds what flow control allows at the moment, and is reported to it. */
  lemma {:induction false} VisitWithinWindow(s: Sending, id: nat, room: nat)
    requires id in s.streams && VisitStream(s, id, room).frame != []
    ensures var v := VisitStream(s, id, room);
            var n := |v.frame[0].data|;
            && v.frame[0].id == id && v.frame[0].offset == s.streams[id].offset
            && (n > 0 ==> id in s.flow.streams && n <= FlowControl.SendWindow(s.flow, id))
            && v.state.flow == FlowControl.AfterSent(s.flow, id, n).0
            && v.state.streams[id].offset == s.streams[id].offset + n
  {
    hide HeaderLength, FlowControl.SendWindow, FlowControl.AfterSent, Blocks;
  }

  /** What flow control allows the stream to send. */
  function WindowFor(s: Sending, id: nat): nat {
    if id in s.flow.streams then FlowControl.SendWindow(s.flow, id) else 0
  }

  /** How much a visit takes, in numbers.  Behind a header that fits comes as much data as the room, the
      window and the stream allow; without data a frame is made for the FIN alone.  The visits go on
      unless the header does not fit or the frame fills the room. */
  lemma {:induction false} VisitSends(s: Sending, id: nat, room: nat)
    requires id in s.streams && id != 1
    ensures var v, str := VisitStream(s, id, room), s.streams[id];
            var header := HeaderLength(StreamFrame(id, false, true, str.offset, []));
            var ends := str.finished && !str.finSent && !str.failed;
            var space := if header > room then 0 else room - header;
            var most := FlowControl.Min(space, FlowControl.Min(WindowFor(s, id), |str.pending|));
            && (header > room ==> v == Visit(s, [], false))
            && (header <= room && HasData(str) ==>
                  && (most == 0 ==> v == Visit(s, [], true))
                  && (most > 0 ==>
                        && v.frame == [StreamFrame(id, ends && most == |str.pending|, true, str.offset,
                                                   str.pending[..most])]
                        && v.goOn == (header + most < room)))
            && (header <= room && !HasData(str) ==>
                  if ends && header < room then
                    v.frame == [StreamFrame(id, true, true, str.offset, [])] && v.goOn
                  else v == Visit(s, [], true))
  {
    hide HeaderLength, FlowControl.SendWindow, FlowControl.AfterSent, Blocks;
    var str := s.streams[id];
    assert str.pending[..|str.pending|] == str.pending;
    assert str.pending[|str.pending|..] == [];
  }

  /** BLOCKED frames: one for the connection when the frame has used up its window, and otherwise one for
      the stream when the frame has used up the stream's own and does not end it. */
  lemma {:induction false} VisitBlocks(s: Sending, id: nat, room: nat)
    requires id in s.streams && VisitStream(s, id, room).frame != []
    ensures var v := VisitStream(s, id, room);
            var n, conn := |v.frame[0].data|, v.state.flow.conn;
            && s.blocked <= v.state.blocked
            && v.state.blocked[|s.blocked|..] ==
               if FlowControl.WindowSize(v.state.flow.params, 0, conn) == 0 then [0]
               else if !v.frame[0].fin && n == WindowFor(s, id) then [id] else []
  {
    hide HeaderLength, FlowControl.SendWindow, FlowControl.AfterSent, FlowControl.WindowSize;
  }

  /** After a visit a stream that may go on sending had too little room. */
  lemma {:induction false} VisitUsesRoom(s: Sending, id: nat, room: nat)
    requires id in s.streams && id != 1
    ensures var v := VisitStream(s, id, room);
            var left := room - if v.frame == [] then 0 else Cost(v.frame[0]);
            && (!v.goOn ==> left < 15)
            && (HasData(v.state.streams[id]) && WindowFor(v.state, id) > 0 ==> left <= 15)
  {
    hide HeaderLength, Blocks;
  }

  /** Visiting one stream gives another neither data nor window. */
  lemma {:induction false} VisitLeavesOthers(s: Sending, id: nat, room: nat, k: nat)
    requires id in s.streams && k in s.streams
    ensures var v := VisitStream(s, id, room);
            && v.state.streams.Keys == s.streams.Keys && WindowFor(v.state, k) <= WindowFor(s, k)
            && (HasData(v.state.streams[k]) ==> HasData(s.streams[k]))
  {
    hide HeaderLength, Blocks, FlowControl.SendWindow, FlowControl.AfterSent;
    var str := s.streams[id];
    forall most: nat ensures HasData(TakeFrom(str, most).0) ==> HasData(str) { FrontIsTaken(str, most); }
    forall n: nat ensures WindowFor(s.(flow := FlowControl.AfterSent(s.flow, id, n).0), k) <= WindowFor(s, k) {
      SentAllows(s, id, n, k);
    }
  }

  lemma {:induction false} SentAllows(s: Sending, id: nat, n: nat, k: nat)
    ensures WindowFor(s.(flow := FlowControl.AfterSent(s.flow, id, n).0), k) <= WindowFor(s, k)
  {}

  datatype Fresh = Fresh(state: Sending, frames: seq<StreamFrame>, length: nat)

  /** `maybePopNormalFrames`, for the streams in the order in which they are visited. */
  function PopNormal(s: Sending, order: seq<nat>, room: nat): (p: Fresh)
    requires forall i :: 0 <= i < |order| ==> order[i] in s.streams
    ensures p.length <= room && p.state.streams.Keys == s.streams.Keys
    ensures forall i :: 0 <= i < |p.frames| ==> p.frames[i].dataLenPresent
    decreases |order|
  {
    if order == [] then Fresh(s, [], 0)
    else
      var v := VisitStream(s, order[0], room);
      var cost := if v.frame == [] then 0 else Cost(v.frame[0]);
      if !v.goOn then Fresh(v.state, v.frame, cost)
      else
        var p := PopNormal(v.state, order[1..], room - cost);
        Fresh(p.state, v.frame + p.frames, cost + p.length)
  }

  /** No room is left unused: a stream that was visited, still has data and is allowed to send it had to
      wait because at most fifteen bytes were left. */
  lemma {:induction false} NormalUsesRoom(s: Sending, order: seq<nat>, room: nat, k: nat)
    requires (forall i :: 0 <= i < |order| ==> order[i] in s.streams) && k in order && k != 1
    ensures var p := PopNormal(s, order, room);
            HasData(p.state.streams[k]) && WindowFor(p.state, k) > 0 ==> room - p.length <= 15
    decreases |order|
  {
    hide VisitStream, Cost, HasData, WindowFor;
    var id := order[0];
    var v := VisitStream(s, id, room);
    var left := room - if v.frame == [] then 0 else Cost(v.frame[0]);
    if id != 1 { VisitUsesRoom(s, id, room); } else { CryptoIsSkipped(s, room); }
    if v.goOn {
      VisitLeavesOthers(s, id, room, k);
      if k in order[1..] {
        NormalUsesRoom(v.state, order[1..], left, k);
      } else {
        NormalLeaves(v.state, order[1..], left, k);
      }
    }
  }

  lemma {:induction false} CryptoIsSkipped(s: Sending, room: nat)
    requires 1 in s.streams
    ensures VisitStream(s, 1, room) == Visit(s, [], true)
  {}

  lemma {:induction false} NormalLeaves(s: Sending, order: seq<nat>, room: nat, k: nat)
    requires (forall i :: 0 <= i < |order| ==> order[i] in s.streams) && k in s.streams
    ensures var p := PopNormal(s, order, room);
            WindowFor(p.state, k) <= WindowFor(s, k) && (HasData(p.state.streams[k]) ==> HasData(s.streams[k]))
    decreases |order|
  {
    hide VisitStream, Cost, HasData, WindowFor;
    if order != [] {
      var v := VisitStream(s, order[0], room);
      VisitLeavesOthers(s, order[0], room, k);
      if v.goOn { NormalLeaves(v.state, order[1..], room - if v.frame == [] then 0 else Cost(v.frame[0]), k); }
    }
  }

  // ----- all of them -----

  /** `next` is the number the next new frame gets. */
  datatype Framer = Framer(store: Store, queue: seq<nat>, next: nat, sending: Sending)

  ghost predicate Valid(f: Framer) {
    Known(f.store, f.queue) && forall r :: r in f.store ==> r < f.next
  }

  predicate Visits(f: Framer, order: seq<nat>) { forall i :: 0 <= i < |order| ==> order[i] in f.sending.streams }

  function Numbers(first: nat, n: nat): (r: seq<nat>)
    ensures |r| == n
  { seq(n, i requires 0 <= i < n => first + i) }

  function Stored(store: Store, first: nat, frames: seq<StreamFrame>): (s: Store)
    ensures forall r :: r in s <==> r in store || first <= r < first + |frames|
    ensures forall r :: r in store && r < first ==> s[r] == store[r]
    ensures forall i :: 0 <= i < |frames| ==> s[first + i] == frames[i]
    decreases |frames|
  {
    if frames == [] then store
    else
      var s := Stored(store, first, frames[..|frames| - 1]);
      s[first + |frames| - 1 := frames[|frames| - 1]]
  }

  datatype Output = Output(framer: Framer, refs: seq<nat>)

  function PopStreamFrames(f: Framer, maxLen: nat, order: seq<nat>): (o: Output)
    requires Valid(f) && Visits(f, order)
  {
    var p := PopRetransmissions(f.store, f.queue, maxLen, f.next);
    var next := if Cut(f.store, f.queue, maxLen) > 0 then f.next + 1 else f.next;
    var q := PopNormal(f.sending, order, maxLen - p.length);
    Output(Framer(Stored(p.store, next, q.frames), p.queue, next + |q.frames|, q.state), p.refs
           + Numbers(next, |q.frames|))
  }

  /** The last frame of a packet goes without its length. */
  function LastWithoutLength(store: Store, refs: seq<nat>): (s: Store)
    requires Known(store, refs)
    ensures s.Keys == store.Keys
  {
    if refs == [] then store
    else
      var r := refs[|refs| - 1];
      store[r := store[r].(dataLenPresent := false)]
  }
}
