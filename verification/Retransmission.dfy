/** The sender never forgets stream data: the streams, the framer and the sent-packet handlers of all
    paths together, with frame objects that several packets share and that are cut in place.
    mpquic_trans/stream.go, stream_framer.go, scheduler.go and ackhandler/sent_packet_handler.go. */
module Retransmission {
  import opened Bytes
  import opened AckFrames
  import opened StreamFrames
  import opened Framing
  import FlowControl
  import FramingSize
  import S = SentPackets

  /** `given` is all data the application has written, stream by stream, and `written` what was handed
      out of it so far; `ended` are the streams whose end was handed out, with their final offsets;
      `carried` are the stream frames every packet carried when it was sent; `acked` are those of the
      acknowledged packets. */
  datatype World = World(
    framer: Framer, paths: map<nat, S.Sender>,
    given: map<nat, seq<byte>>, written: map<nat, seq<byte>>, ended: set<(nat, nat)>,
    carried: map<(nat, nat), seq<StreamFrame>>, acked: set<StreamFrame>)

  datatype Action =
    | Application(sending: Sending)
    | Overwrite(id: nat, data: seq<byte>)
    | Send(path: nat, maxLen: nat, order: seq<nat>, number: nat, length: nat, others: seq<S.Frame>)
    | ReceiveAck(path: nat, ack: AckFrame, withPacketNumber: nat, late: nat -> bool)
    | Alarm(path: nat, late: nat -> bool, potentiallyFailed: bool)
    | InflightLost(path: nat)
    | Retransmit(path: nat)
    | Duplicate(path: nat, packet: S.Packet)
    | OpenPath(path: nat)

  // ----- bytes -----

  function Get(w: map<nat, seq<byte>>, id: nat): seq<byte> { if id in w then w[id] else [] }

  predicate Holds(f: StreamFrame, id: nat, o: nat) { f.id == id && f.offset <= o < f.offset + |f.data| }

  /** The frame says that the stream ends at `end`. */
  predicate Ends(f: StreamFrame, id: nat, end: nat) { f.id == id && f.fin && f.offset + |f.data| == end }

  /** `g` is `f`, or what is left of it once its front is cut off. */
  predicate Covers(f: StreamFrame, g: StreamFrame) {
    f.id == g.id && f.fin == g.fin && f.offset <= g.offset && g.offset + |g.data| == f.offset + |f.data|
  }

  /** The frame is a stretch of what was handed out. */
  ghost predicate IsSlice(w: map<nat, seq<byte>>, f: StreamFrame) {
    f.offset + |f.data| <= |Get(w, f.id)| && f.data == Get(w, f.id)[f.offset..f.offset + |f.data|]
  }

  /** Handing out the data of new frames, one after the other. */
  function Write(w: map<nat, seq<byte>>, frames: seq<StreamFrame>): map<nat, seq<byte>> {
    if frames == [] then w
    else
      var before, f := Write(w, frames[..|frames| - 1]), frames[|frames| - 1];
      before[f.id := Get(before, f.id) + f.data]
  }

  // ----- steps -----

  function StreamsIn(refs: seq<nat>): (r: seq<S.Frame>)
    ensures |r| == |refs| && forall i :: 0 <= i < |refs| ==> r[i] == S.Stream(refs[i])
  {
    seq(|refs|, i requires 0 <= i < |refs| => S.Stream(refs[i]))
  }

  function RefsIn(frames: seq<S.Frame>): (r: seq<nat>)
    ensures forall x :: x in r <==> S.Stream(x) in frames
  {
    if frames == [] then []
    else
      var f := frames[|frames| - 1];
      assert frames == frames[..|frames| - 1] + [f];
      if f.Stream? then RefsIn(frames[..|frames| - 1]) + [f.ref] else RefsIn(frames[..|frames| - 1])
  }

  /** A packet gives back its stream frames in order, each as often as it holds it. */
  lemma {:induction false} RefsInOrder(a: seq<S.Frame>, b: seq<S.Frame>)
    ensures RefsIn(a + b) == RefsIn(a) + RefsIn(b)
    decreases |b|
  {
    if b == [] {
      assert a + b == a;
    } else {
      RefsInOrder(a, b[..|b| - 1]);
      assert (a + b)[..|a + b| - 1] == a + b[..|b| - 1];
    }
  }

  lemma {:induction false} RefsInOne(f: S.Frame)
    ensures RefsIn([f]) == if f.Stream? then [f.ref] else []
  {
    assert [f][..0] == [] && RefsIn([]) == [];
  }

  function ValuesOf(store: Store, refs: seq<nat>): (r: seq<StreamFrame>)
    requires Known(store, refs)
    ensures |r| == |refs| && forall i :: 0 <= i < |refs| ==> r[i] == store[refs[i]]
  {
    seq(|refs|, i requires 0 <= i < |refs| => store[refs[i]])
  }

  /** The ends of streams among the frames. */
  ghost function EndsOf(frames: seq<StreamFrame>): set<(nat, nat)> {
    set i | 0 <= i < |frames| && frames[i].fin :: (frames[i].id, frames[i].offset + |frames[i].data|)
  }

  /** What the application may do with a stream: add data until it closes it.  A new stream was never
      opened before. */
  ghost predicate Touched(w: World, id: nat, after: SendStream) {
    if id in w.framer.sending.streams then
      var before := w.framer.sending.streams[id];
      && after.offset == before.offset && after.finSent == before.finSent && before.pending <= after.pending
      && (before.finished ==> after.finished && after.pending == before.pending)
    else id !in w.given && after.offset == 0 && !after.finSent
  }

  /** What is added to a stream goes behind everything given before. */
  ghost function GivenTo(w: World, id: nat, after: SendStream): seq<byte>
    requires Touched(w, id, after)
  {
    if id in w.framer.sending.streams then
      Get(w.given, id) + after.pending[|w.framer.sending.streams[id].pending|..]
    else after.pending
  }

  ghost function GivenNow(w: World, sending: Sending): map<nat, seq<byte>>
    requires forall id :: id in sending.streams ==> Touched(w, id, sending.streams[id])
  {
    map id | id in w.given.Keys + sending.streams.Keys ::
      if id in sending.streams then GivenTo(w, id, sending.streams[id]) else w.given[id]
  }

  ghost predicate Next(w: World, a: Action, w': World) {
    match a
    case Application(sending) =>
      // streams are written to, closed, opened, and forgotten once they are finished; none is reopened
      && (forall id :: id in sending.streams ==> Touched(w, id, sending.streams[id]))
      && w' == w.(framer := w.framer.(sending := sending), given := GivenNow(w, sending))
    case Overwrite(id, data) =>
      // a write whose deadline has passed counts as not made, and the next one replaces what is left of it
      && id in w.framer.sending.streams && id in w.given && !w.framer.sending.streams[id].finished
      && var str, all := w.framer.sending.streams[id], w.given[id];
         && |str.pending| <= |all|
         && w' == w.(framer := w.framer.(sending := w.framer.sending.(streams :=
                                 w.framer.sending.streams[id := str.(pending := data)])),
                     given := w.given[id := all[..|all| - |str.pending|] + data])
    case Send(path, maxLen, order, number, length, others) =>
      && path in w.paths && Framing.Valid(w.framer) && Visits(w.framer, order) && |w.paths[path].skipped|
          <= S.MAX_TRACKED_SKIPPED_PACKETS
      && (forall i :: 0 <= i < |others| ==> !others[i].Stream?)
      && var o := PopStreamFrames(w.framer, maxLen, order);
         && Known(o.framer.store, o.refs)
         && var store := LastWithoutLength(o.framer.store, o.refs);
            var (s, r) := S.AfterSentPacket(w.paths[path], S.Packet(number, length, others + StreamsIn(o.refs)));
            && r == S.Sent
            && w' == w.(framer := o.framer.(store := store), paths := w.paths[path := s],
                        written := Write(w.written, Added(w.framer, maxLen, order)),
                        ended := w.ended + EndsOf(Added(w.framer, maxLen, order)),
                        carried := w.carried[(path, number) := ValuesOf(store, o.refs)])
    case ReceiveAck(path, ack, n, late) =>
      && path in w.paths
      && w' == w.(paths := w.paths[path := S.AfterReceivedAck(w.paths[path], ack, n, late).0],
                  acked := w.acked + Carried(w, path, S.NewlyAcked(w.paths[path], ack, n)))
    case Alarm(path, late, failed) =>
      path in w.paths && w' == w.(paths := w.paths[path := S.AfterAlarm(w.paths[path], late, failed)])
    case InflightLost(path) =>
      path in w.paths && w' == w.(paths := w.paths[path := S.AfterInflightLost(w.paths[path])])
    case Retransmit(path) =>
      && path in w.paths && w.paths[path].queue != []
      && w' == w.(paths := w.paths[path := S.AfterDequeue(w.paths[path]).0],
                  framer := w.framer.(queue := w.framer.queue + RefsIn(w.paths[path].queue[0].frames)))
    case Duplicate(path, packet) =>
      && path in w.paths && packet in w.paths[path].history
      && w' == w.(paths := w.paths[path := S.AfterDuplicate(w.paths[path], packet)])
    case OpenPath(path) => path !in w.paths && w' == w.(paths := w.paths[path := S.Initial])
  }

  /** The frames made of new data. */
  ghost function Added(f: Framer, maxLen: nat, order: seq<nat>): seq<StreamFrame>
    requires Framing.Valid(f) && Visits(f, order)
  {
    FramingSize.PoppedFacts(f.store, f.queue, maxLen, f.next);
    PopNormal(f.sending, order, maxLen - PopRetransmissions(f.store, f.queue, maxLen, f.next).length).frames
  }

  /** The stream frames that the given packets of a path carried. */
  ghost function Carried(w: World, path: nat, numbers: set<nat>): set<StreamFrame> {
    set n, i | n in numbers && (path, n) in w.carried && 0 <= i < |w.carried[(path, n)]| :: w.carried[(path, n)][i]
  }

  // ----- moving lost packets back to the framer -----

  /** One packet after the other leaves the queue of its path. */
  ghost predicate Drains(states: seq<World>, order: seq<nat>) {
    |states| == |order| + 1 && forall i :: 0 <= i < |order| ==> Next(states[i], Retransmit(order[i]), states[i + 1])
  }

  ghost function Waiting(paths: map<nat, S.Sender>): set<(nat, nat)> {
    set path: nat, k: nat | path in paths && k < |paths[path].queue| :: (path, k)
  }

  /** `getRetransmission`: as long as some path has a packet waiting, its frames go to the framer. */
  method GetRetransmission(w: World) returns (w': World, ghost states: seq<World>, ghost order: seq<nat>)
    ensures Drains(states, order) && states[0] == w && states[|order|] == w'
    ensures forall path :: path in w'.paths ==> w'.paths[path].queue == []
  {
    w', states, order := w, [w], [];
    while exists path :: path in w'.paths && w'.paths[path].queue != []
      invariant Drains(states, order) && states[0] == w && states[|order|] == w'
      decreases Waiting(w'.paths)
    {
      var path :| path in w'.paths && w'.paths[path].queue != [];
      var (s, packet) := S.AfterDequeue(w'.paths[path]);
      ghost var before := w';
      var queue := w'.framer.queue + RefsIn(packet.value.frames);
      w' := w'.(paths := w'.paths[path := s], framer := w'.framer.(queue := queue));
      assert Next(before, Retransmit(path), w');
      states, order := states + [w'], order + [path];
      FewerWaiting(before.paths, path);
    }
  }

  lemma {:induction false} FewerWaiting(paths: map<nat, S.Sender>, path: nat)
    requires path in paths && paths[path].queue != []
    ensures Waiting(paths[path := S.AfterDequeue(paths[path]).0]) < Waiting(paths)
  {
    var after := paths[path := S.AfterDequeue(paths[path]).0];
    var last := (path, |paths[path].queue| - 1);
    assert last in Waiting(paths) && last !in Waiting(after);
  }

  // ----- the invariant -----

  ghost predicate InPackets(ps: seq<S.Packet>, r: nat) { exists p :: p in ps && S.Stream(r) in p.frames }

  ghost predicate Reachable(w: World, r: nat) {
    || r in w.framer.queue
    || exists path :: path in w.paths && (InPackets(w.paths[path].history, r) || InPackets(w.paths[path].queue, r))
  }

  /** The byte is in a frame that is queued or in a tracked packet, or it was in an acknowledged one. */
  ghost predicate Tracked(w: World, id: nat, o: nat) {
    || (exists f :: f in w.acked && Holds(f, id, o))
    || (exists r :: r in w.framer.store && Reachable(w, r) && Holds(w.framer.store[r], id, o))
  }

  /** The same for the end of a stream. */
  ghost predicate EndTracked(w: World, id: nat, end: nat) {
    || (exists f :: f in w.acked && Ends(f, id, end))
    || (exists r :: r in w.framer.store && Reachable(w, r) && Ends(w.framer.store[r], id, end))
  }

  /** Handed out and still pending, in this order, is what the application has given, and a FIN comes
      behind all of it. */
  ghost predicate GivenOk(given: map<nat, seq<byte>>, written: map<nat, seq<byte>>, streams: map<nat, SendStream>,
                          ended: set<(nat, nat)>) {
    && (forall id :: id in streams ==> id in given && given[id] == Get(written, id) + streams[id].pending)
    && (forall id :: id !in streams ==> Get(written, id) <= Get(given, id))
    && (forall id, end :: (id, end) in ended ==> EndIsLast(given, written, streams, id, end))
  }

  ghost predicate EndIsLast(given: map<nat, seq<byte>>, written: map<nat, seq<byte>>, streams: map<nat, SendStream>,
                            id: nat, end: nat) {
    && id in given && end == |given[id]| == |Get(written, id)|
    && (id in streams ==> streams[id].finSent && streams[id].finished)
  }

  ghost predicate EndsOk(w: World) {
    && (forall id, end :: (id, end) in w.ended ==> EndTracked(w, id, end))
    && forall id :: id in w.framer.sending.streams && w.framer.sending.streams[id].finSent ==> exists end ::
        (id, end) in w.ended
  }

  ghost predicate FramesOk(w: World) {
    && Framing.Valid(w.framer)
    && (forall r :: Reachable(w, r) ==> r in w.framer.store)
    && (forall r :: r in w.framer.store ==> IsSlice(w.written, w.framer.store[r]))
    && (forall id :: id in w.framer.sending.streams ==> w.framer.sending.streams[id].offset == |Get(w.written, id)|)
  }

  /** The packet holds nothing now that it did not carry when it was sent. */
  ghost predicate PacketOk(w: World, path: nat, p: S.Packet) {
    && (path, p.number) in w.carried
    && forall r :: S.Stream(r) in p.frames ==>
         r in w.framer.store && exists f :: f in w.carried[(path, p.number)] && Covers(f, w.framer.store[r])
  }

  ghost predicate PathOk(w: World, path: nat)
    requires path in w.paths
  {
    && S.Inv(w.paths[path])
    && (forall p :: p in w.paths[path].history ==> PacketOk(w, path, p))
    && (forall n :: (path, n) in w.carried ==> n <= w.paths[path].lastSent)
  }

  ghost predicate Inv(w: World) {
    && FramesOk(w)
    && (forall path :: path in w.paths ==> PathOk(w, path))
    && (forall path, n :: (path, n) in w.carried ==> path in w.paths)
    && (forall id: nat, o: nat :: o < |Get(w.written, id)| ==> Tracked(w, id, o))
    && EndsOk(w) && GivenOk(w.given, w.written, w.framer.sending.streams, w.ended)
  }

  // ----- steps of one sent-packet handler -----

  /** From `s` to `t` no packet is lost but those in `gone`, and none appears. */
  ghost predicate KeepsPackets(s: S.Sender, t: S.Sender, gone: set<nat>) {
    && (forall p :: p in s.history ==> p in t.history || p in t.queue || p.number in gone)
    && (forall p :: p in s.queue ==> p in t.queue)
    && (forall p :: p in t.history ==> p in s.history)
    && (forall p :: p in t.queue ==> p in s.queue || p in s.history)
    && S.Inv(t) && t.lastSent == s.lastSent
  }

  lemma {:induction false} RequeueKeeps(s: S.Sender, lost: set<nat>)
    requires S.Inv(s)
    ensures KeepsPackets(s, S.Requeue(s, lost), {})
  {
    hide S.Only, S.Without, S.Sum, S.Increasing, S.Highest;
    S.Members(s.history, lost);
    S.RemoveKeepsInv(s, S.Requeue(s, lost), lost);
  }

  lemma {:induction false} AlarmKeeps(s: S.Sender, late: nat -> bool, failed: bool)
    requires S.Inv(s)
    ensures KeepsPackets(s, S.AfterAlarm(s, late, failed), {})
  {
    hide S.Requeue, S.Overdue, S.FirstNumbers, S.Sum, S.Increasing;
    S.AlarmKeepsInv(s, late, failed);
    RequeueKeeps(s, S.Overdue(s.history, s.largestAcked, late));
    if S.HasOutstandingRetransmittablePacket(s) {
      RequeueKeeps(s, {s.history[|s.history| - 1].number});
      RequeueKeeps(s, S.FirstNumbers(s.history, if failed then |s.history| else 2));
    }
  }

  lemma {:induction false} AckKeeps(s: S.Sender, ack: AckFrame, n: nat, late: nat -> bool)
    requires S.Inv(s)
    ensures KeepsPackets(s, S.AfterReceivedAck(s, ack, n, late).0, S.NewlyAcked(s, ack, n))
  {
    hide S.Requeue, S.Overdue, S.AckedBy, S.Only, S.Without, S.Sum, S.Increasing, S.Collect;
    S.AckKeepsInv(s, ack, n, late);
    if ack.largestAcked <= s.lastSent && n > s.largestReceivedWithAck && ack.largestAcked > S.LargestInOrderAcked(s)
       && !S.SkippedPacketsAcked(s, ack) {
      var acked := S.AckedBy(s.history, ack);
      var s2 := s.(largestReceivedWithAck := n, largestAcked := ack.largestAcked);
      var s3 := S.Acknowledge(s2, acked);
      S.Members(s.history, acked);
      S.RemoveKeepsInv(s2, s3, acked);
      RequeueKeeps(s3, S.Overdue(s3.history, s3.largestAcked, late));
    }
  }

  lemma {:induction false} StillReachable(w: World, path: nat, t: S.Sender, gone: set<nat>, w': World, r: nat)
    requires path in w.paths && KeepsPackets(w.paths[path], t, gone) && w'.paths == w.paths[path := t]
             && w'.framer == w.framer
    ensures Reachable(w', r) ==> Reachable(w, r)
    ensures Reachable(w, r) ==>
              || Reachable(w', r)
              || exists p :: p in w.paths[path].history && S.Stream(r) in p.frames && p.number in gone
  {
    hide S.Inv;
    var s := w.paths[path];
    if Reachable(w, r) && r !in w.framer.queue {
      var q :| q in w.paths && (InPackets(w.paths[q].history, r) || InPackets(w.paths[q].queue, r));
      if q == path {
        if InPackets(s.history, r) {
          var p :| p in s.history && S.Stream(r) in p.frames;
          assert p in t.history ==> InPackets(t.history, r);
          assert p in t.queue ==> InPackets(t.queue, r);
        }
        assert w'.paths[path] == t;
      } else {
        assert w'.paths[q] == w.paths[q];
      }
    }
  }

  lemma {:induction false} SenderStep(w: World, path: nat, t: S.Sender, gone: set<nat>, w': World)
    requires Inv(w) && path in w.paths && KeepsPackets(w.paths[path], t, gone)
    requires w' == w.(paths := w.paths[path := t], acked := w.acked + Carried(w, path, gone))
    ensures Inv(w')
  {
    hide S.Inv, KeepsPackets, Framing.Valid, IsSlice, Reachable, EndTracked, GivenOk;
    forall r ensures Reachable(w', r) ==> r in w'.framer.store { StillReachable(w, path, t, gone, w', r); }
    forall q | q in w'.paths ensures PathOk(w', q) { SenderPath(w, path, t, gone, w', q); }
    forall id: nat, o: nat | o < |Get(w.written, id)| ensures Tracked(w', id, o) {
      assert Tracked(w, id, o);
      SenderTracks(w, path, t, gone, w', id, o);
    }
    forall id, end | (id, end) in w.ended ensures EndTracked(w', id, end) { SenderEnds(w, path, t, gone, w', id, end); }
  }

  lemma {:induction false} SenderEnds(w: World, path: nat, t: S.Sender, gone: set<nat>, w': World, id: nat, end: nat)
    requires EndTracked(w, id, end) && path in w.paths && PathOk(w, path) && KeepsPackets(w.paths[path], t, gone)
    requires w' == w.(paths := w.paths[path := t], acked := w.acked + Carried(w, path, gone))
    ensures EndTracked(w', id, end)
  {
    hide S.Inv, KeepsPackets, Reachable;
    if !(exists f :: f in w.acked && Ends(f, id, end)) {
      var r :| r in w.framer.store && Reachable(w, r) && Ends(w.framer.store[r], id, end);
      StillReachable(w, path, t, gone, w', r);
      if !Reachable(w', r) {
        var p :| p in w.paths[path].history && S.Stream(r) in p.frames && p.number in gone;
        assert PacketOk(w, path, p);
        var f :| f in w.carried[(path, p.number)] && Covers(f, w.framer.store[r]);
        assert f in w'.acked && Ends(f, id, end);
      }
    }
  }

  lemma {:induction false} SenderPath(w: World, path: nat, t: S.Sender, gone: set<nat>, w': World, q: nat)
    requires path in w.paths && PathOk(w, path) && KeepsPackets(w.paths[path], t, gone)
    requires w'.paths == w.paths[path := t] && w'.framer == w.framer && w'.carried == w.carried
    requires q in w'.paths && PathOk(w, q)
    ensures PathOk(w', q)
  {
    hide S.Inv, Covers;
    assert S.Inv(w'.paths[q]);
    forall p | p in w'.paths[q].history ensures PacketOk(w', q, p) {
      assert PacketOk(w, q, p);
    }
  }

  lemma {:induction false} SenderTracks(w: World, path: nat, t: S.Sender, gone: set<nat>, w': World, id: nat, o: nat)
    requires Tracked(w, id, o) && path in w.paths && PathOk(w, path) && KeepsPackets(w.paths[path], t, gone)
    requires w' == w.(paths := w.paths[path := t], acked := w.acked + Carried(w, path, gone))
    ensures Tracked(w', id, o)
  {
    hide S.Inv, KeepsPackets, Reachable;
    if !(exists f :: f in w.acked && Holds(f, id, o)) {
      var r :| r in w.framer.store && Reachable(w, r) && Holds(w.framer.store[r], id, o);
      StillReachable(w, path, t, gone, w', r);
      if !Reachable(w', r) {
        var p :| p in w.paths[path].history && S.Stream(r) in p.frames && p.number in gone;
        assert PacketOk(w, path, p);
        var f :| f in w.carried[(path, p.number)] && Covers(f, w.framer.store[r]);
        assert f in w'.acked && Holds(f, id, o);
      }
    }
  }

  // ----- popping frames: what is cut stays together -----

  /** `r` may have been cut, but what it lost is in the new frame `next`. */
  ghost predicate KeptOrCut(before: Store, after: Store, refs: seq<nat>, next: nat, r: nat)
    requires r in before
  {
    && r in after && Covers(before[r], after[r])
    && forall id, o :: Holds(before[r], id, o) ==>
         Holds(after[r], id, o) || (next in refs && next in after && Holds(after[next], id, o))
  }

  lemma {:induction false} CutKeepsBytes(f: StreamFrame, n: nat)
    requires n <= |f.data|
    ensures Covers(f, Back(f, n))
    ensures forall id, o :: Holds(f, id, o) ==> Holds(Back(f, n), id, o) || Holds(Front(f, n), id, o)
  {}

  lemma {:induction false} PoppedKeeps(store: Store, queue: seq<nat>, maxLen: nat, next: nat, r: nat)
    requires Known(store, queue) && next !in store && r in store
    ensures var p := PopRetransmissions(store, queue, maxLen, next); KeptOrCut(store, p.store, p.refs, next, r)
  {
    hide Whole, Cut, TotalCost, Front, Back, HeaderLength;
    var k, n := Whole(store, queue, maxLen), Cut(store, queue, maxLen);
    if n > 0 && r == queue[k] {
      CutKeepsBytes(store[r].(dataLenPresent := true), n);
      var p := PopRetransmissions(store, queue, maxLen, next);
      assert p.refs[|p.refs| - 1] == next;
    }
  }

  lemma {:induction false} SliceOfSlice(w: map<nat, seq<byte>>, f: StreamFrame, n: nat)
    requires IsSlice(w, f) && n <= |f.data|
    ensures IsSlice(w, Back(f, n)) && IsSlice(w, Front(f, n))
  {
    var all := Get(w, f.id);
    assert f.data[n..] == all[f.offset + n..f.offset + |f.data|];
    assert f.data[..n] == all[f.offset..f.offset + n];
  }

  lemma {:induction false} PoppedSlices(w: map<nat, seq<byte>>, store: Store, queue: seq<nat>, maxLen: nat, next: nat)
    requires Known(store, queue) && forall r :: r in store ==> IsSlice(w, store[r])
    ensures var p := PopRetransmissions(store, queue, maxLen, next); forall r :: r in p.store ==> IsSlice(w, p.store[r])
  {
    hide Whole, Cut, TotalCost, Front, Back, HeaderLength, IsSlice;
    var k, n := Whole(store, queue, maxLen), Cut(store, queue, maxLen);
    var p := PopRetransmissions(store, queue, maxLen, next);
    forall r | r in p.store ensures IsSlice(w, p.store[r]) {
      if r in store { MarkedSlice(w, store[r]); }
      if n > 0 {
        MarkedSlice(w, store[queue[k]]);
        SliceOfSlice(w, store[queue[k]].(dataLenPresent := true), n);
      }
    }
  }

  lemma {:induction false} MarkedSlice(w: map<nat, seq<byte>>, f: StreamFrame)
    ensures forall b :: IsSlice(w, f) == IsSlice(w, f.(dataLenPresent := b))
  {}

  /** What was queued is popped or still queued; what is popped was queued or is new. */
  lemma {:induction false} PoppedRefs(store: Store, queue: seq<nat>, maxLen: nat, next: nat, r: nat)
    requires Known(store, queue)
    ensures var p := PopRetransmissions(store, queue, maxLen, next);
            && (r in queue ==> r in p.refs || r in p.queue)
            && (r in p.queue ==> r in queue)
            && (r in p.refs ==> r in queue || r == next)
  {
    hide Whole, Cut, TotalCost, Front, Back, HeaderLength, Marked;
    var k := Whole(store, queue, maxLen);
    assert queue == queue[..k] + queue[k..];
  }

  // ----- new frames: what is handed out is in them -----

  ghost predicate OffsetsMatch(s: Sending, w: map<nat, seq<byte>>) {
    forall id :: id in s.streams ==> s.streams[id].offset == |Get(w, id)|
  }

  /** Each frame continues its stream. */
  ghost predicate Continues(w: map<nat, seq<byte>>, frames: seq<StreamFrame>) {
    forall i :: 0 <= i < |frames| ==> frames[i].offset == |Get(Write(w, frames[..i]), frames[i].id)|
  }

  lemma {:induction false} VisitContinues(s: Sending, id: nat, room: nat, w: map<nat, seq<byte>>)
    requires id in s.streams && OffsetsMatch(s, w)
    ensures var v := VisitStream(s, id, room);
            && v.state.streams.Keys == s.streams.Keys
            && (v.frame == [] ==> OffsetsMatch(v.state, w))
            && (v.frame != [] ==> v.frame[0].id == id && v.frame[0].offset == |Get(w, id)|
                                  && OffsetsMatch(v.state, w[id := Get(w, id) + v.frame[0].data]))
  {
    hide HeaderLength, FlowControl.SendWindow, FlowControl.AfterSent, Blocks;
  }

  lemma {:induction false} WriteAppend(w: map<nat, seq<byte>>, a: seq<StreamFrame>, b: seq<StreamFrame>)
    ensures Write(w, a + b) == Write(Write(w, a), b)
    decreases |b|
  {
    if b == [] {
      assert a + b == a;
    } else {
      WriteAppend(w, a, b[..|b| - 1]);
      assert (a + b)[..|a + b| - 1] == a + b[..|b| - 1];
    }
  }

  lemma {:induction false} ContinuesAppend(w: map<nat, seq<byte>>, a: seq<StreamFrame>, b: seq<StreamFrame>)
    requires Continues(w, a) && Continues(Write(w, a), b)
    ensures Continues(w, a + b)
  {
    hide Write;
    var all := a + b;
    forall i | 0 <= i < |all| ensures all[i].offset == |Get(Write(w, all[..i]), all[i].id)| {
      if i < |a| {
        assert all[..i] == a[..i];
      } else {
        assert all[..i] == a + b[..i - |a|];
        WriteAppend(w, a, b[..i - |a|]);
      }
    }
  }

  lemma {:induction false} NormalContinues(s: Sending, order: seq<nat>, room: nat, w: map<nat, seq<byte>>)
    requires (forall i :: 0 <= i < |order| ==> order[i] in s.streams) && OffsetsMatch(s, w)
    ensures var p := PopNormal(s, order, room); Continues(w, p.frames) && OffsetsMatch(p.state, Write(w, p.frames))
    decreases |order|
  {
    hide VisitStream, Cost, Write, Continues, OffsetsMatch;
    WriteNothing(w);
    if order != [] {
      var v := VisitStream(s, order[0], room);
      VisitContinues(s, order[0], room, w);
      WriteOne(w, v.frame);
      if v.goOn {
        var left := room - if v.frame == [] then 0 else Cost(v.frame[0]);
        var w1 := Write(w, v.frame);
        NormalContinues(v.state, order[1..], left, w1);
        var p := PopNormal(v.state, order[1..], left);
        WriteAppend(w, v.frame, p.frames);
        ContinuesAppend(w, v.frame, p.frames);
      }
    }
  }

  lemma {:induction false} WriteNothing(w: map<nat, seq<byte>>)
    ensures Write(w, []) == w && Continues(w, [])
  {}

  lemma {:induction false} WriteOne(w: map<nat, seq<byte>>, frame: seq<StreamFrame>)
    requires |frame| <= 1 && (frame != [] ==> frame[0].offset == |Get(w, frame[0].id)|)
    ensures Continues(w, frame)
    ensures Write(w, frame) == if frame == [] then w else w[frame[0].id := Get(w, frame[0].id) + frame[0].data]
  {
    if frame != [] {
      assert frame[..0] == [];
      WriteNothing(w);
    }
  }

  lemma {:induction false} LastWritten(w: map<nat, seq<byte>>, init: seq<StreamFrame>, f: StreamFrame, id: nat)
    ensures var before, after := Write(w, init), Write(w, init + [f]);
            Get(after, id) == if id == f.id then Get(before, id) + f.data else Get(before, id)
  {
    assert (init + [f])[..|init|] == init;
  }

  lemma {:induction false} LastContinues(w: map<nat, seq<byte>>, init: seq<StreamFrame>, f: StreamFrame)
    requires Continues(w, init + [f])
    ensures Continues(w, init) && f.offset == |Get(Write(w, init), f.id)|
  {
    hide Write;
    var all := init + [f];
    assert all[..|init|] == init && all[|init|] == f;
    assert all[..|all| - 1] == init;
    ContinuesInit(w, all);
  }

  /** Nothing written before changes, and every new byte is in one of the frames. */
  lemma {:induction false} WriteExtends(w: map<nat, seq<byte>>, frames: seq<StreamFrame>, id: nat, o: nat)
    requires Continues(w, frames)
    ensures Get(w, id) <= Get(Write(w, frames), id)
    ensures |Get(w, id)| <= o < |Get(Write(w, frames), id)| ==> exists i :: 0 <= i < |frames| && Holds(frames[i], id, o)
    decreases |frames|
  {
    hide Write, Continues;
    if frames == [] {
      WriteNothing(w);
    } else {
      var init, f := frames[..|frames| - 1], frames[|frames| - 1];
      assert frames == init + [f];
      LastContinues(w, init, f);
      LastWritten(w, init, f, id);
      WriteExtends(w, init, id, o);
      if |Get(w, id)| <= o < |Get(Write(w, init), id)| {
        var i :| 0 <= i < |init| && Holds(init[i], id, o);
        assert Holds(frames[i], id, o);
      } else {
        assert |Get(w, id)| <= o < |Get(Write(w, frames), id)| ==> Holds(frames[|init|], id, o);
      }
    }
  }

  lemma {:induction false} ContinuesInit(w: map<nat, seq<byte>>, frames: seq<StreamFrame>)
    requires Continues(w, frames) && frames != []
    ensures Continues(w, frames[..|frames| - 1])
  {
    hide Write;
    var init := frames[..|frames| - 1];
    forall i | 0 <= i < |init| ensures init[i].offset == |Get(Write(w, init[..i]), init[i].id)| {
      assert init[..i] == frames[..i];
      assert init[i] == frames[i];
    }
  }

  /** New frames are stretches of what is written. */
  lemma {:induction false} WrittenAreSlices(w: map<nat, seq<byte>>, frames: seq<StreamFrame>, i: nat)
    requires Continues(w, frames) && i < |frames|
    ensures IsSlice(Write(w, frames), frames[i])
    decreases |frames|
  {
    hide Write, Continues, IsSlice;
    var init, f := frames[..|frames| - 1], frames[|frames| - 1];
    assert frames == init + [f];
    LastContinues(w, init, f);
    LastWritten(w, init, f, frames[i].id);
    if i < |init| {
      WrittenAreSlices(w, init, i);
      assert init[i] == frames[i];
      SliceStays(Write(w, init), Write(w, frames), init[i]);
    } else {
      AppendedIsSlice(Write(w, init), Write(w, frames), f);
    }
  }

  lemma {:induction false} AppendedIsSlice(w: map<nat, seq<byte>>, w': map<nat, seq<byte>>, f: StreamFrame)
    requires f.offset == |Get(w, f.id)| && Get(w', f.id) == Get(w, f.id) + f.data
    ensures IsSlice(w', f)
  {}

  lemma {:induction false} SliceStays(w: map<nat, seq<byte>>, w': map<nat, seq<byte>>, f: StreamFrame)
    requires IsSlice(w, f) && Get(w, f.id) <= Get(w', f.id)
    ensures IsSlice(w', f)
  {}

  // ----- both together: the frames of one packet -----

  predicate SameBytes(f: StreamFrame, g: StreamFrame) {
    f.id == g.id && f.fin == g.fin && f.offset == g.offset && f.data == g.data
  }

  /** The parts of `PopStreamFrames`: `p` popped again, `q` new, numbered from `first`; `store` is what
      the frames hold when the packet is written. */
  ghost predicate Parts(f: Framer, maxLen: nat, order: seq<nat>, p: Popped, first: nat, q: Fresh, o: Output,
                        store: Store)
    requires Framing.Valid(f) && Visits(f, order)
  {
    && p == PopRetransmissions(f.store, f.queue, maxLen, f.next) && p.length <= maxLen
    && first == (if Cut(f.store, f.queue, maxLen) > 0 then f.next + 1 else f.next)
    && q == PopNormal(f.sending, order, maxLen - p.length) && q.frames == Added(f, maxLen, order)
    && o == PopStreamFrames(f, maxLen, order) && Known(o.framer.store, o.refs)
        && store == LastWithoutLength(o.framer.store, o.refs)
    && o.framer.queue == p.queue && o.framer.sending == q.state && o.framer.next == first + |q.frames|
    && o.refs == p.refs + Numbers(first, |q.frames|)
    && (forall r :: r in p.store ==> r < first)
    && (forall r :: r in store <==> r in p.store || first <= r < first + |q.frames|)
    && (forall r :: r in p.store ==> SameBytes(p.store[r], store[r]))
    && (forall i :: 0 <= i < |q.frames| ==> SameBytes(q.frames[i], store[first + i]))
  }

  lemma {:induction false} TakeApart(f: Framer, maxLen: nat, order: seq<nat>)
      returns (p: Popped, first: nat, q: Fresh, o: Output, store: Store)
    requires Framing.Valid(f) && Visits(f, order)
    ensures Parts(f, maxLen, order, p, first, q, o, store)
  {
    hide PopRetransmissions, PopNormal, PopStreamFrames, Cut, Whole, LastWithoutLength, SameBytes, Stored, Numbers,
        Framing.Valid;
    QueueKnown(f);
    p := PopRetransmissions(f.store, f.queue, maxLen, f.next);
    first := if Cut(f.store, f.queue, maxLen) > 0 then f.next + 1 else f.next;
    PoppedBelow(f, maxLen, p, first);
    q := PopNormal(f.sending, order, maxLen - p.length);
    FramingSize.OutputParts(f, maxLen, order, p, first, q);
    o := PopStreamFrames(f, maxLen, order);
    OutputKnown(f, maxLen, order);
    store := LastWithoutLength(o.framer.store, o.refs);
    StoredThenLast(p.store, first, q.frames, o.refs, store);
  }

  lemma {:induction false} QueueKnown(f: Framer)
    requires Framing.Valid(f)
    ensures Known(f.store, f.queue) && f.next !in f.store
  {}

  lemma {:induction false} PoppedBelow(f: Framer, maxLen: nat, p: Popped, first: nat)
    requires Framing.Valid(f) && p == PopRetransmissions(f.store, f.queue, maxLen, f.next)
    requires first == (if Cut(f.store, f.queue, maxLen) > 0 then f.next + 1 else f.next)
    ensures Known(f.store, f.queue) && p.length <= maxLen && forall r :: r in p.store ==> r < first
  {
    hide Cut, Whole, Front, Back, HeaderLength, TotalCost;
    FramingSize.PoppedFacts(f.store, f.queue, maxLen, f.next);
  }

  lemma {:induction false} OutputKnown(f: Framer, maxLen: nat, order: seq<nat>)
    requires Framing.Valid(f) && Visits(f, order)
    ensures var o := PopStreamFrames(f, maxLen, order); Known(o.framer.store, o.refs) && Framing.Valid(o.framer)
  {
    hide PopStreamFrames, Whole, FramingSize.UnluckyCut, TotalCost;
    FramingSize.OutputCost(f, maxLen, order);
  }

  lemma {:induction false} StoredThenLast(before: Store, first: nat, frames: seq<StreamFrame>, refs: seq<nat>,
                                          store: Store)
    requires (forall r :: r in before ==> r < first)
    requires Known(Stored(before, first, frames), refs)
             && store == LastWithoutLength(Stored(before, first, frames), refs)
    ensures forall r :: r in store <==> r in before || first <= r < first + |frames|
    ensures forall r :: r in before ==> SameBytes(before[r], store[r])
    ensures forall i :: 0 <= i < |frames| ==> SameBytes(frames[i], store[first + i])
  {
    forall i | 0 <= i < |frames| ensures SameBytes(frames[i], store[first + i]) {
      assert Stored(before, first, frames)[first + i] == frames[i];
    }
  }

  lemma {:induction false} KeptOrCutStays(before: Store, mid: Store, refs: seq<nat>, next: nat, r: nat, after: Store,
                                          refs': seq<nat>)
    requires r in before && KeptOrCut(before, mid, refs, next, r)
    requires forall x :: x in mid ==> x in after && SameBytes(mid[x], after[x])
    requires forall x :: x in refs ==> x in refs'
    ensures KeptOrCut(before, after, refs', next, r)
  {
    forall id, o | Holds(before[r], id, o) ensures Holds(after[r], id, o)
        || (next in refs' && next in after && Holds(after[next], id, o)) {
      if !Holds(mid[r], id, o) { assert SameBytes(mid[next], after[next]); }
    }
  }

  lemma {:induction false} OutputKeeps(f: Framer, maxLen: nat, order: seq<nat>, p: Popped, first: nat, q: Fresh,
                                       o: Output, store: Store, r: nat)
    requires Framing.Valid(f) && Visits(f, order) && Parts(f, maxLen, order, p, first, q, o, store) && r in f.store
    ensures KeptOrCut(f.store, store, o.refs, f.next, r)
  {
    hide PopRetransmissions, PopNormal, PopStreamFrames, Cut, Whole, KeptOrCut, SameBytes, LastWithoutLength, Added;
    PoppedKeeps(f.store, f.queue, maxLen, f.next, r);
    KeptOrCutStays(f.store, p.store, p.refs, f.next, r, store, o.refs);
  }

  lemma {:induction false} OutputRefs(f: Framer, maxLen: nat, order: seq<nat>, p: Popped, first: nat, q: Fresh,
                                      o: Output, store: Store, r: nat)
    requires Framing.Valid(f) && Visits(f, order) && Parts(f, maxLen, order, p, first, q, o, store)
    ensures r in f.queue ==> r in o.refs || r in o.framer.queue
    ensures r in o.framer.queue ==> r in f.queue
    ensures r in o.refs || r in f.store ==> r in store
  {
    hide PopRetransmissions, PopNormal, PopStreamFrames, Cut, Whole, SameBytes, Added;
    PoppedRefs(f.store, f.queue, maxLen, f.next, r);
    FramingSize.PoppedFacts(f.store, f.queue, maxLen, f.next);
  }

  lemma {:induction false} OutputSlices(f: Framer, maxLen: nat, order: seq<nat>, p: Popped, first: nat, q: Fresh,
                                        o: Output, store: Store, w: map<nat, seq<byte>>, r: nat)
    requires Framing.Valid(f) && Visits(f, order) && Parts(f, maxLen, order, p, first, q, o, store) && r in store
    requires (forall x :: x in f.store ==> IsSlice(w, f.store[x])) && OffsetsMatch(f.sending, w)
    ensures IsSlice(Write(w, q.frames), store[r])
  {
    hide PopRetransmissions, PopNormal, PopStreamFrames, Cut, Whole, Write, Continues, LastWithoutLength, Added,
        IsSlice, OffsetsMatch;
    NormalContinues(f.sending, order, maxLen - p.length, w);
    PoppedSlices(w, f.store, f.queue, maxLen, f.next);
    if r in p.store {
      WriteExtends(w, q.frames, p.store[r].id, 0);
      SliceStays(w, Write(w, q.frames), p.store[r]);
      SameSlice(Write(w, q.frames), p.store[r], store[r]);
    } else {
      var i := r - first;
      assert SameBytes(q.frames[i], store[first + i]);
      WrittenAreSlices(w, q.frames, i);
      SameSlice(Write(w, q.frames), q.frames[i], store[r]);
    }
  }

  lemma {:induction false} SameSlice(w: map<nat, seq<byte>>, f: StreamFrame, g: StreamFrame)
    requires SameBytes(f, g) && IsSlice(w, f)
    ensures IsSlice(w, g)
  {}

  /** New data is in a frame of the packet. */
  lemma {:induction false} OutputHoldsNew(f: Framer, maxLen: nat, order: seq<nat>, p: Popped, first: nat, q: Fresh,
                                          o: Output, store: Store,
                                          w: map<nat, seq<byte>>, id: nat, b: nat)
    requires Framing.Valid(f) && Visits(f, order) && Parts(f, maxLen, order, p, first, q, o, store)
             && OffsetsMatch(f.sending, w)
    ensures Get(w, id) <= Get(Write(w, q.frames), id)
    ensures |Get(w, id)| <= b < |Get(Write(w, q.frames), id)| ==>
              exists r :: r in o.refs && r in store && Holds(store[r], id, b)
  {
    hide PopRetransmissions, PopNormal, PopStreamFrames, Cut, Whole, Write, Continues, LastWithoutLength, Added,
        OffsetsMatch;
    NormalContinues(f.sending, order, maxLen - p.length, w);
    WriteExtends(w, q.frames, id, b);
    if |Get(w, id)| <= b < |Get(Write(w, q.frames), id)| {
      var i :| 0 <= i < |q.frames| && Holds(q.frames[i], id, b);
      assert SameBytes(q.frames[i], store[first + i]);
      assert o.refs[|p.refs| + i] == first + i;
    }
  }

  /** A stream whose FIN is marked as sent had it marked before, or its FIN is in one of the frames. */
  lemma {:induction false} VisitEnds(s: Sending, id: nat, room: nat, k: nat)
    requires id in s.streams && k in s.streams
    ensures var v := VisitStream(s, id, room);
            && v.state.streams.Keys == s.streams.Keys
            && (v.state.streams[k].finSent ==>
                  s.streams[k].finSent || (v.frame != [] && v.frame[0].id == k && v.frame[0].fin))
  {
    hide HeaderLength, FlowControl.SendWindow, FlowControl.AfterSent, Blocks;
  }

  lemma {:induction false} NormalEnds(s: Sending, order: seq<nat>, room: nat, k: nat)
    requires (forall i :: 0 <= i < |order| ==> order[i] in s.streams) && k in s.streams
    ensures var p := PopNormal(s, order, room);
            p.state.streams[k].finSent ==>
              s.streams[k].finSent || exists i :: 0 <= i < |p.frames| && p.frames[i].id == k && p.frames[i].fin
    decreases |order|
  {
    hide VisitStream, Cost;
    if order != [] {
      var v := VisitStream(s, order[0], room);
      VisitEnds(s, order[0], room, k);
      var p := PopNormal(s, order, room);
      if v.goOn {
        var left := room - if v.frame == [] then 0 else Cost(v.frame[0]);
        NormalEnds(v.state, order[1..], left, k);
        var q := PopNormal(v.state, order[1..], left);
        if i :| 0 <= i < |q.frames| && q.frames[i].id == k && q.frames[i].fin {
          assert p.frames[|v.frame| + i] == q.frames[i];
        }
      }
      if v.frame != [] { assert p.frames[0] == v.frame[0]; }
    }
  }

  /** What a visit hands out and what it leaves pending is what was pending; the FIN leaves nothing. */
  ghost predicate Moves(before: SendStream, data: seq<byte>, fin: bool, after: SendStream) {
    && before.pending == data + after.pending && after.offset == before.offset + |data|
    && after.finished == before.finished
    && after.finSent == (before.finSent || fin) && (fin ==> after.pending == [] && after.finished)
  }

  lemma {:induction false} VisitMoves(s: Sending, id: nat, room: nat, k: nat)
    requires id in s.streams && k in s.streams
    ensures var v := VisitStream(s, id, room);
            && v.state.streams.Keys == s.streams.Keys
            && (v.frame != [] ==> v.frame[0].id == id && v.frame[0].offset == s.streams[id].offset)
            && if k == id && v.frame != [] then
                 Moves(s.streams[k], v.frame[0].data, v.frame[0].fin, v.state.streams[k])
               else v.state.streams[k] == s.streams[k]
  {
    hide HeaderLength, FlowControl.SendWindow, FlowControl.AfterSent, Blocks, TakeFrom;
    var str := s.streams[id];
    forall most: nat ensures var (t, data, fin) := TakeFrom(str, most); Moves(str, data, fin, t) {
      FrontIsTaken(str, most);
    }
  }

  /** The data of the frames of one stream, in order, and whether one of them ends it. */
  ghost function DataOf(frames: seq<StreamFrame>, k: nat): seq<byte> {
    if frames == [] then [] else (if frames[0].id == k then frames[0].data else []) + DataOf(frames[1..], k)
  }

  ghost predicate EndsIn(frames: seq<StreamFrame>, k: nat) {
    exists i :: 0 <= i < |frames| && frames[i].id == k && frames[i].fin
  }

  lemma {:induction false} MovesTwice(a: SendStream, x: seq<byte>, f: bool, b: SendStream, y: seq<byte>, g: bool,
                                      c: SendStream)
    requires Moves(a, x, f, b) && Moves(b, y, g, c)
    ensures Moves(a, x + y, f || g, c)
  {
    assert x + (y + c.pending) == (x + y) + c.pending;
  }

  lemma {:induction false} OneMoreFrame(f: StreamFrame, rest: seq<StreamFrame>, k: nat)
    ensures DataOf([f] + rest, k) == (if f.id == k then f.data else []) + DataOf(rest, k)
    ensures EndsIn([f] + rest, k) <==> (f.id == k && f.fin) || EndsIn(rest, k)
  {
    var all := [f] + rest;
    assert all[1..] == rest && all[0] == f;
    if EndsIn(rest, k) {
      var i :| 0 <= i < |rest| && rest[i].id == k && rest[i].fin;
      assert all[i + 1] == rest[i];
    }
    if EndsIn(all, k) && !(f.id == k && f.fin) {
      var i :| 0 <= i < |all| && all[i].id == k && all[i].fin;
      assert rest[i - 1] == all[i];
    }
  }

  /** The same for the new frames of one packet: nothing is skipped, repeated or put out of order. */
  lemma {:induction false} NormalMoves(s: Sending, order: seq<nat>, room: nat, k: nat)
    requires (forall i :: 0 <= i < |order| ==> order[i] in s.streams) && k in s.streams
    ensures var p := PopNormal(s, order, room);
            Moves(s.streams[k], DataOf(p.frames, k), EndsIn(p.frames, k), p.state.streams[k])
    decreases |order|
  {
    hide VisitStream, Cost, Moves, EndsIn, DataOf;
    StandsStill(s.streams[k]);
    if order != [] {
      var v := VisitStream(s, order[0], room);
      VisitMoves(s, order[0], room, k);
      StandsStill(v.state.streams[k]);
      var q := Fresh(v.state, [], 0);
      if v.goOn {
        var left := room - if v.frame == [] then 0 else Cost(v.frame[0]);
        NormalMoves(v.state, order[1..], left, k);
        q := PopNormal(v.state, order[1..], left);
      }
      var p := PopNormal(s, order, room);
      assert p.state == q.state && p.frames == v.frame + q.frames;
      FirstThenRest(s.streams[k], v.frame, v.state.streams[k], q.frames, q.state.streams[k], k);
    }
  }

  /** New frames are of open streams, and a frame with the FIN ends where its stream now stands. */
  lemma {:induction false} NormalStops(s: Sending, order: seq<nat>, room: nat)
    requires forall i :: 0 <= i < |order| ==> order[i] in s.streams
    ensures var p := PopNormal(s, order, room);
            forall i :: 0 <= i < |p.frames| ==> p.frames[i].id in s.streams && Stops(p.frames[i], p.state)
    decreases |order|
  {
    hide VisitStream, Cost, Moves, EndsIn, DataOf, Stops;
    if order != [] {
      var v := VisitStream(s, order[0], room);
      VisitMoves(s, order[0], room, order[0]);
      var p := PopNormal(s, order, room);
      if v.goOn {
        var left := room - if v.frame == [] then 0 else Cost(v.frame[0]);
        NormalStops(v.state, order[1..], left);
        NormalMoves(v.state, order[1..], left, order[0]);
        var q := PopNormal(v.state, order[1..], left);
        assert p.frames == v.frame + q.frames && p.state == q.state;
        if v.frame != [] { StillStops(s, v.frame[0], v.state, q); }
      } else if v.frame != [] {
        NothingFollows(s, v.frame[0], v.state);
      }
    }
  }

  ghost predicate Stops(f: StreamFrame, after: Sending) {
    f.fin && f.id in after.streams ==> after.streams[f.id].offset == f.offset + |f.data|
  }

  lemma {:induction false} StillStops(s: Sending, f: StreamFrame, mid: Sending, q: Fresh)
    requires f.id in s.streams && f.id in mid.streams && f.id in q.state.streams && f.offset == s.streams[f.id].offset
    requires Moves(s.streams[f.id], f.data, f.fin, mid.streams[f.id])
    requires Moves(mid.streams[f.id], DataOf(q.frames, f.id), EndsIn(q.frames, f.id), q.state.streams[f.id])
    ensures Stops(f, q.state)
  {
    hide DataOf, EndsIn;
  }

  lemma {:induction false} NothingFollows(s: Sending, f: StreamFrame, after: Sending)
    requires f.id in s.streams && f.id in after.streams && f.offset == s.streams[f.id].offset
    requires Moves(s.streams[f.id], f.data, f.fin, after.streams[f.id])
    ensures Stops(f, after)
  {}

  lemma {:induction false} StandsStill(s: SendStream)
    ensures forall k :: Moves(s, DataOf([], k), EndsIn([], k), s)
  {
    assert [] + s.pending == s.pending;
  }

  lemma {:induction false} FirstThenRest(a: SendStream, frame: seq<StreamFrame>, b: SendStream, rest: seq<StreamFrame>,
                                         c: SendStream, k: nat)
    requires |frame| <= 1 && Moves(b, DataOf(rest, k), EndsIn(rest, k), c)
    requires if frame != [] && frame[0].id == k then Moves(a, frame[0].data, frame[0].fin, b) else a == b
    ensures Moves(a, DataOf(frame + rest, k), EndsIn(frame + rest, k), c)
  {
    hide Moves, EndsIn, DataOf;
    if frame == [] {
      assert frame + rest == rest;
    } else {
      assert frame == [frame[0]];
      OneMoreFrame(frame[0], rest, k);
      assert [] + DataOf(rest, k) == DataOf(rest, k);
      if frame[0].id == k {
        MovesTwice(a, frame[0].data, frame[0].fin, b, DataOf(rest, k), EndsIn(rest, k), c);
      }
    }
  }

  lemma {:induction false} LastData(frames: seq<StreamFrame>, f: StreamFrame, k: nat)
    ensures DataOf(frames + [f], k) == DataOf(frames, k) + if f.id == k then f.data else []
    decreases |frames|
  {
    var all := frames + [f];
    if frames == [] {
      assert all[1..] == [] && all[0] == f;
      assert DataOf([], k) == [];
    } else {
      assert all[1..] == frames[1..] + [f] && all[0] == frames[0];
      LastData(frames[1..], f, k);
    }
  }

  lemma {:induction false} NoData(frames: seq<StreamFrame>, k: nat)
    requires forall i :: 0 <= i < |frames| ==> frames[i].id != k
    ensures DataOf(frames, k) == []
    decreases |frames|
  {
    if frames != [] { NoData(frames[1..], k); }
  }

  /** Handing out frames adds their data, stream by stream. */
  lemma {:induction false} WriteAdds(w: map<nat, seq<byte>>, frames: seq<StreamFrame>, k: nat)
    ensures Get(Write(w, frames), k) == Get(w, k) + DataOf(frames, k)
    decreases |frames|
  {
    hide DataOf, Get;
    if frames == [] {
      assert Get(w, k) + [] == Get(w, k);
      NoData([], k);
    } else {
      var init, f := frames[..|frames| - 1], frames[|frames| - 1];
      assert frames == init + [f];
      WriteAdds(w, init, k);
      LastWritten(w, init, f, k);
      LastData(init, f, k);
    }
  }

  /** Sending keeps what was given split into what is handed out and what is pending. */
  lemma {:induction false} SendGiven(w: World, order: seq<nat>, room: nat, q: Fresh, w': World)
    requires forall i :: 0 <= i < |order| ==> order[i] in w.framer.sending.streams
    requires q == PopNormal(w.framer.sending, order, room)
    requires GivenOk(w.given, w.written, w.framer.sending.streams, w.ended) && w'.given == w.given
    requires OffsetsMatch(q.state, w'.written)
    requires w'.framer.sending == q.state && w'.written == Write(w.written, q.frames)
    requires w'.ended == w.ended + EndsOf(q.frames)
    ensures GivenOk(w'.given, w'.written, w'.framer.sending.streams, w'.ended)
  {
    hide PopNormal, Write, DataOf, EndsIn, Moves, OffsetsMatch, Stops;
    var s, t := w.framer.sending.streams, q.state.streams;
    NormalStops(w.framer.sending, order, room);
    forall k | k in t ensures k in w.given && w.given[k] == Get(w'.written, k) + t[k].pending {
      NormalMoves(w.framer.sending, order, room, k);
      WriteAdds(w.written, q.frames, k);
      StreamGiven(w.given[k], Get(w.written, k), s[k], DataOf(q.frames, k), EndsIn(q.frames, k), t[k]);
    }
    forall k | k !in t ensures Get(w'.written, k) == Get(w.written, k) {
      NoData(q.frames, k);
      WriteAdds(w.written, q.frames, k);
    }
    forall k, end | (k, end) in w'.ended ensures EndIsLast(w.given, w'.written, t, k, end) {
      if k in s {
        NormalMoves(w.framer.sending, order, room, k);
        EndsLast(w, q, w', k, end);
      }
    }
  }

  lemma {:induction false} StreamGiven(all: seq<byte>, out: seq<byte>, before: SendStream, data: seq<byte>, fin: bool,
                                       after: SendStream)
    requires all == out + before.pending && Moves(before, data, fin, after)
    ensures all == (out + data) + after.pending
  {}

  lemma {:induction false} EndsLast(w: World, q: Fresh, w': World, k: nat, end: nat)
    requires (k, end) in w.ended ==> EndIsLast(w.given, w.written, w.framer.sending.streams, k, end)
    requires (k, end) in w.ended + EndsOf(q.frames) && k in w.framer.sending.streams && k in q.state.streams
    requires forall i :: 0 <= i < |q.frames| ==> Stops(q.frames[i], q.state)
    requires OffsetsMatch(q.state, w'.written)
    requires Moves(w.framer.sending.streams[k], DataOf(q.frames, k), EndsIn(q.frames, k), q.state.streams[k])
    requires k in w.given && w.given[k] == Get(w.written, k) + w.framer.sending.streams[k].pending
    requires w.given[k] == Get(w'.written, k) + q.state.streams[k].pending
    ensures EndIsLast(w.given, w'.written, q.state.streams, k, end)
  {
    hide DataOf, EndsOf;
    if (k, end) in EndsOf(q.frames) {
      var i := EndingFrame(q.frames, k, end);
      assert Stops(q.frames[i], q.state);
      assert EndsIn(q.frames, k);
    }
  }

  lemma {:induction false} EndingFrame(frames: seq<StreamFrame>, k: nat, end: nat) returns (i: nat)
    requires (k, end) in EndsOf(frames)
    ensures i < |frames| && frames[i].fin && frames[i].id == k && frames[i].offset + |frames[i].data| == end
  {
    i :| 0 <= i < |frames| && frames[i].fin && (k, end) == (frames[i].id, frames[i].offset + |frames[i].data|);
  }

  /** The end of a stream is in a frame of the packet that was handed out with it. */
  lemma {:induction false} OutputHoldsEnd(f: Framer, maxLen: nat, order: seq<nat>, p: Popped, first: nat, q: Fresh,
                                          o: Output,
                                          store: Store, id: nat, end: nat)
    requires Framing.Valid(f) && Visits(f, order) && Parts(f, maxLen, order, p, first, q, o, store)
    requires (id, end) in EndsOf(q.frames)
    ensures exists r :: r in o.refs && r in store && Ends(store[r], id, end)
  {
    hide PopRetransmissions, PopNormal, PopStreamFrames, Cut, Whole, LastWithoutLength, Added;
    var i :| 0 <= i < |q.frames| && q.frames[i].fin
        && (id, end) == (q.frames[i].id, q.frames[i].offset + |q.frames[i].data|);
    assert SameBytes(q.frames[i], store[first + i]);
    assert o.refs[|p.refs| + i] == first + i;
  }

  // ----- sending -----

  /** The sent packet is tracked with all its stream frames. */
  lemma {:induction false} SentIsTracked(s: S.Sender, number: nat, length: nat, others: seq<S.Frame>, refs: seq<nat>)
    requires S.Inv(s) && (forall i :: 0 <= i < |others| ==> !others[i].Stream?)
    ensures var (t, r) := S.AfterSentPacket(s, S.Packet(number, length, others + StreamsIn(refs)));
            r == S.Sent ==>
              && S.Inv(t) && t.queue == s.queue && t.lastSent == number > s.lastSent
              && (forall p :: p in s.history ==> p in t.history)
              && (forall x :: x in refs ==> InPackets(t.history, x))
              && (forall p :: p in t.history ==>
                    p in s.history || (p.number == number && forall x :: S.Stream(x) in p.frames ==> x in refs))
  {
    hide S.Increasing, S.Sum, S.Skip, S.Strip;
    var packet := S.Packet(number, length, others + StreamsIn(refs));
    S.SentKeepsInv(s, packet);
    var (t, r) := S.AfterSentPacket(s, packet);
    var sent := packet.(frames := S.Strip(packet.frames));
    forall x ensures S.Stream(x) in sent.frames <==> x in refs {
      RefsSent(others, refs, x);
    }
    if r == S.Sent {
      assert sent.frames != [] ==> t.history == s.history + [sent];
      forall x | x in refs ensures InPackets(t.history, x) {
        assert S.Stream(x) in sent.frames;
        assert t.history[|s.history|] == sent;
      }
    }
  }

  lemma {:induction false} RefsSent(others: seq<S.Frame>, refs: seq<nat>, x: nat)
    requires forall i :: 0 <= i < |others| ==> !others[i].Stream?
    ensures S.Stream(x) in others + StreamsIn(refs) <==> x in refs
  {
    if x in refs {
      var i :| 0 <= i < |refs| && refs[i] == x;
      assert StreamsIn(refs)[i] == S.Stream(x);
    }
  }

  lemma {:induction false} SentReachable(w: World, path: nat, t: S.Sender, o: Output, w': World, r: nat)
    requires path in w.paths && w'.paths == w.paths[path := t] && t.queue == w.paths[path].queue
    requires w'.framer.queue == o.framer.queue
    requires r in w.framer.queue ==> r in o.refs || r in o.framer.queue
    requires forall p :: p in w.paths[path].history ==> p in t.history
    requires r in o.refs ==> InPackets(t.history, r)
    ensures Reachable(w, r) || r in o.refs ==> Reachable(w', r)
  {
    hide S.Inv;
    if Reachable(w, r) && r !in w.framer.queue {
      var q :| q in w.paths && (InPackets(w.paths[q].history, r) || InPackets(w.paths[q].queue, r));
      assert w'.paths[q] == if q == path then t else w.paths[q];
      if InPackets(w.paths[q].history, r) {
        var p :| p in w.paths[q].history && S.Stream(r) in p.frames;
        assert p in w'.paths[q].history;
      }
      assert q in w'.paths;
    } else if r in o.refs {
      assert InPackets(w'.paths[path].history, r);
    }
  }

  lemma {:induction false} SentKnown(w: World, path: nat, t: S.Sender, o: Output, w': World, number: nat, r: nat)
    requires path in w.paths && w'.paths == w.paths[path := t] && t.queue == w.paths[path].queue
    requires w'.framer.queue == o.framer.queue
    requires r in o.framer.queue ==> r in w.framer.queue
    requires forall p :: p in t.history ==>
               || p in w.paths[path].history
               || (p.number == number && forall x :: S.Stream(x) in p.frames ==> x in o.refs)
    ensures Reachable(w', r) ==> Reachable(w, r) || r in o.refs
  {
    hide S.Inv;
    if Reachable(w', r) && r !in w'.framer.queue {
      var q :| q in w'.paths && (InPackets(w'.paths[q].history, r) || InPackets(w'.paths[q].queue, r));
      if InPackets(w'.paths[q].history, r) {
        var p :| p in w'.paths[q].history && S.Stream(r) in p.frames;
        if p in w.paths[q].history { assert InPackets(w.paths[q].history, r); }
      }
    }
  }

  lemma {:induction false} CoversTwice(a: StreamFrame, b: StreamFrame, c: StreamFrame)
    requires Covers(a, b) && Covers(b, c)
    ensures Covers(a, c)
  {}

  lemma {:induction false} SentPath(w: World, path: nat, t: S.Sender, number: nat, o: Output, store: Store, w': World,
                                    q: nat)
    requires path in w.paths && q in w'.paths && q in w.paths && PathOk(w, q) && Known(store, o.refs)
    requires w'.paths == w.paths[path := t] && w'.framer.store == store
             && w'.carried == w.carried[(path, number) := ValuesOf(store, o.refs)]
    requires S.Inv(t) && t.lastSent == number > w.paths[path].lastSent
    requires forall p :: p in t.history ==>
               || p in w.paths[path].history
               || (p.number == number && forall x :: S.Stream(x) in p.frames ==> x in o.refs)
    requires forall r :: r in w.framer.store ==> r in store && Covers(w.framer.store[r], store[r])
    ensures PathOk(w', q)
  {
    hide S.Inv, Covers, Known;
    var values := ValuesOf(store, o.refs);
    assert S.Inv(w'.paths[q]) by { assert w'.paths[q] == t || w'.paths[q] == w.paths[q]; }
    forall p | p in w'.paths[q].history ensures PacketOk(w', q, p) {
      if p in w.paths[q].history {
        assert PacketOk(w, q, p);
        OldPacket(w, q, p, store, w');
      } else {
        forall r | S.Stream(r) in p.frames ensures r in store && exists f :: f in values && Covers(f, store[r]) {
          NewFrame(store, o.refs, r);
        }
      }
    }
  }

  lemma {:induction false} NewFrame(store: Store, refs: seq<nat>, r: nat)
    requires Known(store, refs) && r in refs
    ensures r in store && store[r] in ValuesOf(store, refs) && Covers(store[r], store[r])
  {
    var i :| 0 <= i < |refs| && refs[i] == r;
    assert ValuesOf(store, refs)[i] == store[r];
  }

  lemma {:induction false} OldPacket(w: World, q: nat, p: S.Packet, store: Store, w': World)
    requires PacketOk(w, q, p) && w'.framer.store == store
    requires (q, p.number) in w'.carried && w'.carried[(q, p.number)] == w.carried[(q, p.number)]
    requires forall r :: r in w.framer.store ==> r in store && Covers(w.framer.store[r], store[r])
    ensures PacketOk(w', q, p)
  {
    hide Covers;
    forall r | S.Stream(r) in p.frames
      ensures r in store && exists f :: f in w'.carried[(q, p.number)] && Covers(f, store[r])
    {
      var f :| f in w.carried[(q, p.number)] && Covers(f, w.framer.store[r]);
      CoversTwice(f, w.framer.store[r], store[r]);
    }
  }

  lemma {:induction false} SendTracks(w: World, path: nat, maxLen: nat, order: seq<nat>, p: Popped, first: nat,
                                      q: Fresh, o: Output, store: Store,
                                      w': World, id: nat, b: nat)
    requires FramesOk(w) && Visits(w.framer, order) && Parts(w.framer, maxLen, order, p, first, q, o, store)
    requires w'.framer.store == store && w'.written == Write(w.written, q.frames) && w'.acked == w.acked
    requires forall r :: Reachable(w, r) || r in o.refs ==> Reachable(w', r)
    requires (b < |Get(w.written, id)| ==> Tracked(w, id, b)) && b < |Get(w'.written, id)|
    ensures Tracked(w', id, b)
  {
    hide Parts, Reachable, IsSlice, Write, Framing.Valid, PopStreamFrames;
    if b >= |Get(w.written, id)| {
      OutputHoldsNew(w.framer, maxLen, order, p, first, q, o, store, w.written, id, b);
    } else if !(exists f :: f in w.acked && Holds(f, id, b)) {
      var r :| r in w.framer.store && Reachable(w, r) && Holds(w.framer.store[r], id, b);
      OutputKeeps(w.framer, maxLen, order, p, first, q, o, store, r);
      if !Holds(store[r], id, b) {
        assert w.framer.next in o.refs && Holds(store[w.framer.next], id, b);
      }
    }
  }

  lemma {:induction false} SendEnds(w: World, path: nat, maxLen: nat, order: seq<nat>, p: Popped, first: nat, q: Fresh,
                                    o: Output,
                                    store: Store, w': World)
    requires FramesOk(w) && EndsOk(w) && Visits(w.framer, order)
             && Parts(w.framer, maxLen, order, p, first, q, o, store)
    requires w'.framer == o.framer.(store := store) && w'.ended == w.ended + EndsOf(q.frames) && w'.acked == w.acked
    requires forall r :: Reachable(w, r) || r in o.refs ==> Reachable(w', r)
    ensures EndsOk(w')
  {
    hide Parts, Reachable, IsSlice, Framing.Valid, PopStreamFrames, EndsOf;
    forall id, end | (id, end) in w'.ended ensures EndTracked(w', id, end) {
      if (id, end) in w.ended {
        OldEnd(w, maxLen, order, p, first, q, o, store, w', id, end);
      } else {
        OutputHoldsEnd(w.framer, maxLen, order, p, first, q, o, store, id, end);
      }
    }
    forall id | id in w'.framer.sending.streams && w'.framer.sending.streams[id].finSent ensures exists end ::
        (id, end) in w'.ended {
      NewlyEnded(w.framer, maxLen, order, p, first, q, o, store, id);
      if !w.framer.sending.streams[id].finSent {
        var end :| (id, end) in EndsOf(q.frames);
        assert (id, end) in w'.ended;
      }
    }
  }

  lemma {:induction false} OldEnd(w: World, maxLen: nat, order: seq<nat>, p: Popped, first: nat, q: Fresh, o: Output,
                                  store: Store,
                                  w': World, id: nat, end: nat)
    requires Framing.Valid(w.framer) && Visits(w.framer, order) && Parts(w.framer, maxLen, order, p, first, q, o, store)
    requires EndTracked(w, id, end) && w'.framer.store == store && w'.acked == w.acked
    requires forall r :: Reachable(w, r) ==> Reachable(w', r)
    ensures EndTracked(w', id, end)
  {
    hide Parts, Reachable, Framing.Valid;
    if !(exists f :: f in w.acked && Ends(f, id, end)) {
      var r :| r in w.framer.store && Reachable(w, r) && Ends(w.framer.store[r], id, end);
      OutputKeeps(w.framer, maxLen, order, p, first, q, o, store, r);
      assert Ends(store[r], id, end);
    }
  }

  lemma {:induction false} NewlyEnded(f: Framer, maxLen: nat, order: seq<nat>, p: Popped, first: nat, q: Fresh,
                                      o: Output,
                                      store: Store, id: nat)
    requires Framing.Valid(f) && Visits(f, order) && Parts(f, maxLen, order, p, first, q, o, store)
    requires id in o.framer.sending.streams && o.framer.sending.streams[id].finSent
    ensures id in f.sending.streams && (f.sending.streams[id].finSent || exists end :: (id, end) in EndsOf(q.frames))
  {
    hide PopRetransmissions, PopNormal, PopStreamFrames, Cut, Whole, LastWithoutLength, Added, SameBytes;
    NormalEnds(f.sending, order, maxLen - p.length, id);
    if !f.sending.streams[id].finSent {
      var i :| 0 <= i < |q.frames| && q.frames[i].id == id && q.frames[i].fin;
      assert (id, q.frames[i].offset + |q.frames[i].data|) in EndsOf(q.frames);
    }
  }

  /** The frames after a send step. */
  lemma {:induction false} SendFrames(w: World, maxLen: nat, order: seq<nat>, p: Popped, first: nat, q: Fresh,
                                      o: Output, store: Store, w': World)
    requires FramesOk(w) && Visits(w.framer, order) && Parts(w.framer, maxLen, order, p, first, q, o, store)
    requires w'.framer == o.framer.(store := store) && w'.written == Write(w.written, q.frames)
    requires forall r :: Reachable(w', r) ==> r in store
    ensures FramesOk(w')
    ensures forall r :: r in w.framer.store ==> r in store && Covers(w.framer.store[r], store[r])
  {
    hide Parts, Reachable, IsSlice, Write, Framing.Valid, PopStreamFrames, Covers, Get;
    forall r | r in w.framer.store ensures r in store && Covers(w.framer.store[r], store[r]) {
      OutputKeeps(w.framer, maxLen, order, p, first, q, o, store, r);
    }
    forall r | r in store ensures IsSlice(w'.written, store[r]) {
      OutputSlices(w.framer, maxLen, order, p, first, q, o, store, w.written, r);
    }
    NewFramerOk(w.framer, maxLen, order, p, first, q, o, store, w.written);
  }

  lemma {:induction false} SendReaches(w: World, path: nat, maxLen: nat, order: seq<nat>, p: Popped, first: nat,
                                       q: Fresh, o: Output, store: Store,
                                       t: S.Sender, number: nat, w': World, r: nat)
    requires FramesOk(w) && Visits(w.framer, order) && Parts(w.framer, maxLen, order, p, first, q, o, store)
    requires path in w.paths && w'.paths == w.paths[path := t] && t.queue == w.paths[path].queue && w'.framer.queue
             == o.framer.queue
    requires forall p :: p in w.paths[path].history ==> p in t.history
    requires forall x :: x in o.refs ==> InPackets(t.history, x)
    requires forall p :: p in t.history ==>
               || p in w.paths[path].history
               || (p.number == number && forall x :: S.Stream(x) in p.frames ==> x in o.refs)
    ensures Reachable(w, r) || r in o.refs ==> Reachable(w', r)
    ensures Reachable(w', r) ==> r in store
  {
    hide Parts, Reachable, IsSlice, Framing.Valid, InPackets;
    OutputRefs(w.framer, maxLen, order, p, first, q, o, store, r);
    SentReachable(w, path, t, o, w', r);
    SentKnown(w, path, t, o, w', number, r);
  }

  lemma {:induction false} SendKeeps(w: World, a: Action, w': World)
    requires Inv(w) && Next(w, a, w') && a.Send?
    ensures Inv(w')
  {
    hide Parts, Reachable, IsSlice, Write, Framing.Valid, PopStreamFrames, S.Inv, S.AfterSentPacket, PacketOk, Tracked,
         LastWithoutLength, FramesOk, Get, EndsOk, EndsOf, GivenOk;
    FramerIsValid(w);
    var path, order, maxLen := a.path, a.order, a.maxLen;
    var p, first, q, o, store := TakeApart(w.framer, maxLen, order);
    PartsMean(w.framer, maxLen, order, p, first, q, o, store);
    assert PathOk(w, path);
    SentIsTracked(w.paths[path], a.number, a.length, a.others, o.refs);
    var t := w'.paths[path];
    forall r ensures Reachable(w, r) || r in o.refs ==> Reachable(w', r)
             ensures Reachable(w', r) ==> r in store {
      SendReaches(w, path, maxLen, order, p, first, q, o, store, t, a.number, w', r);
    }
    SendFrames(w, maxLen, order, p, first, q, o, store, w');
    forall k | k in w'.paths ensures PathOk(w', k) {
      assert PathOk(w, k);
      SentPath(w, path, t, a.number, o, store, w', k);
    }
    forall id: nat, b: nat | b < |Get(w'.written, id)| ensures Tracked(w', id, b) {
      SendTracks(w, path, maxLen, order, p, first, q, o, store, w', id, b);
    }
    SendEnds(w, path, maxLen, order, p, first, q, o, store, w');
    NewlyGiven(w, maxLen, order, p, first, q, o, store, w');
  }

  lemma {:induction false} NewlyGiven(w: World, maxLen: nat, order: seq<nat>, p: Popped, first: nat, q: Fresh,
                                      o: Output, store: Store, w': World)
    requires FramesOk(w) && Visits(w.framer, order) && Parts(w.framer, maxLen, order, p, first, q, o, store)
    requires GivenOk(w.given, w.written, w.framer.sending.streams, w.ended) && w'.given == w.given
    requires w'.framer.sending == o.framer.sending && w'.written == Write(w.written, q.frames)
    requires w'.ended == w.ended + EndsOf(q.frames)
    ensures GivenOk(w'.given, w'.written, w'.framer.sending.streams, w'.ended)
  {
    hide PopRetransmissions, PopNormal, PopStreamFrames, Cut, Whole, LastWithoutLength, Added, SameBytes, GivenOk,
        Write, EndsOf, Reachable, IsSlice;
    NormalContinues(w.framer.sending, order, maxLen - p.length, w.written);
    SendGiven(w, order, maxLen - p.length, q, w');
  }

  lemma {:induction false} FramerIsValid(w: World)
    requires FramesOk(w)
    ensures Framing.Valid(w.framer)
  {}

  /** What the proof of a send step takes from its parts. */
  lemma {:induction false} PartsMean(f: Framer, maxLen: nat, order: seq<nat>, p: Popped, first: nat, q: Fresh,
                                     o: Output, store: Store)
    requires Framing.Valid(f) && Visits(f, order) && Parts(f, maxLen, order, p, first, q, o, store)
    ensures o == PopStreamFrames(f, maxLen, order) && Known(o.framer.store, o.refs)
            && store == LastWithoutLength(o.framer.store, o.refs)
    ensures q.frames == Added(f, maxLen, order) && Known(store, o.refs)
  {
    hide PopStreamFrames, Added, SameBytes;
  }

  lemma {:induction false} NewFramerOk(f: Framer, maxLen: nat, order: seq<nat>, p: Popped, first: nat, q: Fresh,
                                       o: Output, store: Store, w: map<nat, seq<byte>>)
    requires Framing.Valid(f) && Visits(f, order) && Parts(f, maxLen, order, p, first, q, o, store)
             && OffsetsMatch(f.sending, w)
    ensures Framing.Valid(o.framer.(store := store)) && OffsetsMatch(o.framer.sending, Write(w, q.frames))
  {
    hide PopStreamFrames, Added, SameBytes, PopRetransmissions, PopNormal, Cut, Write, Continues, OffsetsMatch;
    NormalContinues(f.sending, order, maxLen - p.length, w);
    OutputKnown(f, maxLen, order);
  }

  // ----- the other steps -----

  ghost predicate Requeues(w: World, path: nat, w': World) {
    && path in w.paths && w.paths[path].queue != []
    && w' == w.(paths := w.paths[path := S.AfterDequeue(w.paths[path]).0],
                framer := w.framer.(queue := w.framer.queue + RefsIn(w.paths[path].queue[0].frames)))
  }

  lemma {:induction false} RetransmitKeeps(w: World, path: nat, w': World)
    requires Inv(w) && Next(w, Retransmit(path), w')
    ensures Inv(w')
  {
    hide Inv;
    RequeueStep(w, path, w');
  }

  lemma {:induction false} RequeueStep(w: World, path: nat, w': World)
    requires Inv(w) && Requeues(w, path, w')
    ensures Inv(w')
  {
    hide IsSlice, S.Inv, PacketOk, GivenOk;
    var s, t := w.paths[path], w'.paths[path];
    forall r ensures Reachable(w', r) <==> Reachable(w, r) { DequeueReachable(w, path, w', r); }
    assert PathOk(w, path);
    assert S.Inv(t) by { DequeueInv(s); }
    forall k | k in w'.paths ensures PathOk(w', k) {
      assert PathOk(w, k);
      SamePackets(w, k, w');
    }
    forall id: nat, o: nat | o < |Get(w.written, id)| ensures Tracked(w', id, o) { assert Tracked(w, id, o); }
    forall id, end | (id, end) in w.ended ensures EndTracked(w', id, end) { assert EndTracked(w, id, end); }
    forall i | 0 <= i < |w'.framer.queue| ensures w'.framer.queue[i] in w'.framer.store {
      assert w'.framer.queue[i] in w'.framer.queue;
      assert Reachable(w', w'.framer.queue[i]);
    }
  }

  lemma {:induction false} DequeueInv(s: S.Sender)
    requires S.Inv(s)
    ensures S.Inv(S.AfterDequeue(s).0)
  {}

  lemma {:induction false} DequeueReachable(w: World, path: nat, w': World, r: nat)
    requires Requeues(w, path, w')
    ensures Reachable(w', r) <==> Reachable(w, r)
  {
    hide S.Inv;
    var s, t := w.paths[path], w'.paths[path];
    assert s.queue == [s.queue[0]] + t.queue;
    assert InPackets(s.queue, r) <==> S.Stream(r) in s.queue[0].frames || InPackets(t.queue, r) by {
      if InPackets(s.queue, r) {
        var p :| p in s.queue && S.Stream(r) in p.frames;
        assert p == s.queue[0] || p in t.queue;
      }
      assert s.queue[0] in s.queue;
    }
    forall q | q in w.paths && q != path ensures w'.paths[q] == w.paths[q] {}
  }

  lemma {:induction false} SamePackets(w: World, path: nat, w': World)
    requires path in w.paths && path in w'.paths && PathOk(w, path) && S.Inv(w'.paths[path])
    requires w'.paths[path].history == w.paths[path].history && w'.paths[path].lastSent == w.paths[path].lastSent
    requires w'.framer.store == w.framer.store && w'.carried == w.carried
    ensures PathOk(w', path)
  {
    hide S.Inv, Covers;
    forall p | p in w'.paths[path].history ensures PacketOk(w', path, p) { assert PacketOk(w, path, p); }
  }

  lemma {:induction false} OpenPathKeeps(w: World, path: nat, w': World)
    requires Inv(w) && Next(w, OpenPath(path), w')
    ensures Inv(w')
  {
    hide IsSlice, PacketOk, Reachable, S.Inv, Framing.Valid, GivenOk;
    forall r ensures Reachable(w', r) <==> Reachable(w, r) { OpenReachable(w, path, w', r); }
    forall k | k in w'.paths ensures PathOk(w', k) {
      if k in w.paths {
        assert PathOk(w, k);
        SamePackets(w, k, w');
      } else {
        InitialInv();
      }
    }
    forall id: nat, o: nat | o < |Get(w.written, id)| ensures Tracked(w', id, o) { assert Tracked(w, id, o); }
    forall id, end | (id, end) in w.ended ensures EndTracked(w', id, end) { assert EndTracked(w, id, end); }
  }

  lemma {:induction false} InitialInv()
    ensures S.Inv(S.Initial) && S.Initial.history == []
  {}

  lemma {:induction false} OpenReachable(w: World, path: nat, w': World, r: nat)
    requires path !in w.paths && w'.paths == w.paths[path := S.Initial] && w'.framer == w.framer
    ensures Reachable(w', r) <==> Reachable(w, r)
  {
    forall q | q in w.paths ensures w'.paths[q] == w.paths[q] {}
  }

  /** The application changes streams, and nothing else. */
  lemma {:induction false} StreamsChange(w: World, w': World)
    requires Inv(w)
    requires w' == w.(framer := w.framer.(sending := w'.framer.sending), given := w'.given)
    requires forall id :: id in w'.framer.sending.streams ==>
               w'.framer.sending.streams[id].offset == |Get(w.written, id)|
    requires forall id :: id in w'.framer.sending.streams && w'.framer.sending.streams[id].finSent ==>
               id in w.framer.sending.streams && w.framer.sending.streams[id].finSent
    requires GivenOk(w'.given, w.written, w'.framer.sending.streams, w.ended)
    ensures Inv(w')
  {
    hide IsSlice, PacketOk, S.Inv, GivenOk;
    forall r ensures Reachable(w', r) <==> Reachable(w, r) {}
    forall k | k in w'.paths ensures PathOk(w', k) {
      assert PathOk(w, k);
      SamePackets(w, k, w');
    }
    forall id: nat, o: nat | o < |Get(w.written, id)| ensures Tracked(w', id, o) { assert Tracked(w, id, o); }
    forall id, end | (id, end) in w.ended ensures EndTracked(w', id, end) { assert EndTracked(w, id, end); }
  }

  lemma {:induction false} TouchedOffset(w: World, id: nat, after: SendStream)
    requires FramesOk(w) && GivenOk(w.given, w.written, w.framer.sending.streams, w.ended) && Touched(w, id, after)
    ensures after.offset == |Get(w.written, id)|
    ensures after.finSent ==> id in w.framer.sending.streams && w.framer.sending.streams[id].finSent
  {
    hide IsSlice, Reachable, Framing.Valid, EndIsLast;
    if id !in w.framer.sending.streams { assert Get(w.written, id) <= Get(w.given, id); }
  }

  lemma {:induction false} TouchedGiven(w: World, id: nat, after: SendStream)
    requires GivenOk(w.given, w.written, w.framer.sending.streams, w.ended) && Touched(w, id, after)
    ensures if id in w.framer.sending.streams then
              && id in w.given
              && w.given[id] + after.pending[|w.framer.sending.streams[id].pending|..]
                 == Get(w.written, id) + after.pending
            else Get(w.written, id) == [] && [] + after.pending == after.pending
  {
    hide EndIsLast;
    if id in w.framer.sending.streams {
      var n := |w.framer.sending.streams[id].pending|;
      assert after.pending == w.framer.sending.streams[id].pending + after.pending[n..];
    } else {
      assert Get(w.written, id) <= Get(w.given, id);
    }
  }

  lemma {:induction false} TouchedEnd(w: World, sending: Sending, w': World, id: nat, end: nat)
    requires GivenOk(w.given, w.written, w.framer.sending.streams, w.ended) && Applies(w, sending, w')
    requires (id, end) in w.ended
    ensures EndIsLast(w'.given, w.written, sending.streams, id, end)
  {
    assert EndIsLast(w.given, w.written, w.framer.sending.streams, id, end);
    if id in sending.streams { assert Touched(w, id, sending.streams[id]); }
  }

  lemma {:induction false} OffsetsOk(w: World)
    requires FramesOk(w)
    ensures forall id :: id in w.framer.sending.streams ==>
              w.framer.sending.streams[id].offset == |Get(w.written, id)|
  {}

  lemma {:induction false} OverwriteGiven(given: map<nat, seq<byte>>, written: map<nat, seq<byte>>,
                                          streams: map<nat, SendStream>, ended: set<(nat, nat)>, id: nat,
                                          data: seq<byte>)
    requires GivenOk(given, written, streams, ended) && id in streams && id in given && !streams[id].finished
    requires |streams[id].pending| <= |given[id]|
    ensures GivenOk(given[id := given[id][..|given[id]| - |streams[id].pending|] + data], written,
                    streams[id := streams[id].(pending := data)], ended)
  {
    var all, out, pending := given[id], Get(written, id), streams[id].pending;
    assert all == out + pending;
    assert all[..|all| - |pending|] == out;
    var given', streams' := given[id := out + data], streams[id := streams[id].(pending := data)];
    forall k, end | (k, end) in ended ensures EndIsLast(given', written, streams', k, end) {
      assert EndIsLast(given, written, streams, k, end);
    }
  }

  lemma {:induction false} OverwriteKeeps(w: World, id: nat, data: seq<byte>, w': World)
    requires Inv(w) && Next(w, Overwrite(id, data), w')
    ensures Inv(w')
  {
    hide FramesOk, PathOk, EndsOk, Tracked, GivenOk;
    OffsetsOk(w);
    OverwriteGiven(w.given, w.written, w.framer.sending.streams, w.ended, id, data);
    StreamsChange(w, w');
  }

  lemma {:induction false} ApplicationKeeps(w: World, sending: Sending, w': World)
    requires Inv(w) && Next(w, Application(sending), w')
    ensures Inv(w')
  {
    hide Inv, Touched;
    StreamsTouched(w, sending, w');
  }

  ghost predicate Applies(w: World, sending: Sending, w': World) {
    && (forall id :: id in sending.streams ==> Touched(w, id, sending.streams[id]))
    && w' == w.(framer := w.framer.(sending := sending), given := GivenNow(w, sending))
  }

  lemma {:induction false} StreamsTouched(w: World, sending: Sending, w': World)
    requires Inv(w) && Applies(w, sending, w')
    ensures Inv(w')
  {
    hide FramesOk, PathOk, EndsOk, EndIsLast, Tracked, Touched;
    forall id | id in sending.streams
      ensures sending.streams[id].offset == |Get(w.written, id)|
      ensures sending.streams[id].finSent ==>
                id in w.framer.sending.streams && w.framer.sending.streams[id].finSent {
      TouchedOffset(w, id, sending.streams[id]);
    }
    forall id | id in sending.streams
      ensures id in w'.given && w'.given[id] == Get(w.written, id) + sending.streams[id].pending {
      TouchedGiven(w, id, sending.streams[id]);
    }
    forall id, end | (id, end) in w.ended ensures EndIsLast(w'.given, w.written, sending.streams, id, end) {
      TouchedEnd(w, sending, w', id, end);
    }
    StreamsChange(w, w');
  }

  lemma {:induction false} NothingCarried(w: World, path: nat)
    ensures Carried(w, path, {}) == {}
  {}

  lemma {:induction false} DuplicateKeeps(s: S.Sender, p: S.Packet)
    requires S.Inv(s) && p in s.history
    ensures KeepsPackets(s, S.AfterDuplicate(s, p), {})
  {
    hide S.Increasing, S.Sum;
  }

  lemma {:induction false} NextKeepsInv(w: World, a: Action, w': World)
    requires Inv(w) && Next(w, a, w')
    ensures Inv(w')
  {
    match a
    case Application(sending) => ApplicationKeeps(w, sending, w');
    case Overwrite(id, data) => OverwriteKeeps(w, id, data, w');
    case Send(_, _, _, _, _, _) => SendKeeps(w, a, w');
    case Retransmit(path) => RetransmitKeeps(w, path, w');
    case OpenPath(path) => OpenPathKeeps(w, path, w');
    case _ => HandlerKeeps(w, a, w');
  }

  lemma {:induction false} HandlerKeeps(w: World, a: Action, w': World)
    requires Inv(w) && Next(w, a, w') && (a.ReceiveAck? || a.Alarm? || a.InflightLost? || a.Duplicate?)
    ensures Inv(w')
  {
    hide FramesOk, Tracked, EndsOk, GivenOk, KeepsPackets, S.AfterReceivedAck, S.AfterAlarm, S.Requeue, S.Inv, PacketOk,
        S.NewlyAcked, Carried, S.Overdue;
    var s := w.paths[a.path];
    assert PathOk(w, a.path);
    NothingCarried(w, a.path);
    assert w.acked + {} == w.acked;
    match a
    case ReceiveAck(path, ack, n, late) =>
      AckKeeps(s, ack, n, late);
      SenderStep(w, path, w'.paths[path], S.NewlyAcked(s, ack, n), w');
    case Alarm(path, late, failed) =>
      AlarmKeeps(s, late, failed);
      SenderStep(w, path, w'.paths[path], {}, w');
    case InflightLost(path) =>
      RequeueKeeps(s, S.Overdue(s.history, s.largestAcked, _ => true));
      SenderStep(w, path, w'.paths[path], {}, w');
    case Duplicate(path, p) =>
      DuplicateKeeps(s, p);
      SenderStep(w, path, w'.paths[path], {}, w');
  }

  // ----- whole runs -----

  function Start(sending: Sending): World {
    World(Framer(map[], [], 0, sending), map[0 := S.Initial], map[], map[], {}, map[], {})
  }

  ghost predicate IsRun(sending: Sending, states: seq<World>, actions: seq<Action>) {
    && sending.streams == map[]
    && |states| == |actions| + 1 && states[0] == Start(sending)
    && forall i :: 0 <= i < |actions| ==> Next(states[i], actions[i], states[i + 1])
  }

  lemma {:induction false} RunInv(sending: Sending, states: seq<World>, actions: seq<Action>, i: nat)
    requires IsRun(sending, states, actions) && i < |states|
    ensures Inv(states[i])
  {
    if i == 0 {
      StartInv(sending);
    } else {
      RunInv(sending, states, actions, i - 1);
      NextKeepsInv(states[i - 1], actions[i - 1], states[i]);
    }
  }

  lemma {:induction false} StartInv(sending: Sending)
    requires sending.streams == map[]
    ensures Inv(Start(sending))
  {
    var w := Start(sending);
    assert forall p: S.Packet :: p !in w.paths[0].history;
    assert PathOk(w, 0);
  }

  /** The sender never forgets stream data: at every point of every run, each byte that was handed out
      is in a frame that is queued for retransmission, or in a packet that is tracked or waits for
      retransmission, or was carried by an acknowledged packet; and every frame still holds the bytes
      that were handed out at its offset. */
  lemma {:induction false} NothingIsForgotten(sending: Sending, states: seq<World>, actions: seq<Action>, i: nat,
                                              id: nat, o: nat)
    requires IsRun(sending, states, actions) && i < |states| && o < |Get(states[i].written, id)|
    ensures Tracked(states[i], id, o)
    ensures forall r :: r in states[i].framer.store ==> IsSlice(states[i].written, states[i].framer.store[r])
  {
    hide IsRun, Tracked, IsSlice;
    RunInv(sending, states, actions, i);
  }

  /** What was handed out of a stream is what the application gave, from the start and in order, and what
      is pending is all the rest of it. */
  lemma {:induction false} HandedOutIsGiven(sending: Sending, states: seq<World>, actions: seq<Action>, i: nat, id: nat)
    requires IsRun(sending, states, actions) && i < |states|
    ensures Get(states[i].written, id) <= Get(states[i].given, id)
    ensures id in states[i].framer.sending.streams ==>
              Get(states[i].written, id) + states[i].framer.sending.streams[id].pending == Get(states[i].given, id)
  {
    hide IsRun, EndIsLast, FramesOk, EndsOk, PathOk, Tracked;
    RunInv(sending, states, actions, i);
  }

  /** Nor does it forget where a stream ends: once a FIN was handed out, a frame with that FIN, ending
      at the same offset, is in one of these places; and that offset is the length of all that the
      application gave. */
  lemma {:induction false} NoEndIsForgotten(sending: Sending, states: seq<World>, actions: seq<Action>, i: nat, id: nat)
    requires IsRun(sending, states, actions) && i < |states|
    ensures forall end :: (id, end) in states[i].ended ==>
              EndTracked(states[i], id, end) && end == |Get(states[i].given, id)|
    ensures id in states[i].framer.sending.streams && states[i].framer.sending.streams[id].finSent ==>
              exists end :: (id, end) in states[i].ended && EndTracked(states[i], id, end)
  {
    hide IsRun, EndTracked, FramesOk, PathOk, Tracked;
    RunInv(sending, states, actions, i);
  }
}
