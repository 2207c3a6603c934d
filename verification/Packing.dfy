/** What goes into the next packet: `composeNextPacket` of mpquic_trans/packet_packer.go. */
module Packing {
  import opened Bytes
  import AckCodec
  import AckRoundTrip
  import StreamFrames
  import FlowControl
  import opened Frames
  import opened FrameRoundTrip
  import opened Framing
  import FramingSize

  /** What is waiting to be sent: at most one STOP_WAITING and one ACK, and control frames, of which
      the newest goes first. */
  datatype Packer = Packer(stopWaiting: seq<Frame>, ack: seq<Frame>, controls: seq<Frame>)

  predicate IsControl(f: Frame) { !f.Stream? && !f.Ack? && !f.StopWaiting? }

  ghost predicate Valid(p: Packer) {
    && |p.stopWaiting| <= 1 && (forall i :: 0 <= i < |p.stopWaiting| ==> p.stopWaiting[i].StopWaiting?)
    && |p.ack| <= 1 && (forall i :: 0 <= i < |p.ack| ==> p.ack[i].Ack? && AckCodec.Writable(p.ack[i].ack))
    && forall i :: 0 <= i < |p.controls| ==> IsControl(p.controls[i])
  }

  datatype Taken = Taken(frames: seq<Frame>, left: seq<Frame>, length: nat)

  /** Control frames from the end of the queue, as long as they fit. */
  function TakeControls(controls: seq<Frame>, pkt: Packet, length: nat, max: nat): (r: Result<Taken>)
    requires forall i :: 0 <= i < |controls| ==> IsControl(controls[i])
  {
    if controls == [] then Ok(Taken([], [], length))
    else
      var f := controls[|controls| - 1];
      assert IsControl(f);
      var n :- MinLength(f, pkt);
      if length + n > max then Ok(Taken([], controls, length))
      else
        var t :- TakeControls(controls[..|controls| - 1], pkt, length + n, max);
        Ok(Taken([f] + t.frames, t.left, t.length))
  }

  function HeadLength(f: seq<Frame>, pkt: Packet): Result<nat>
    requires |f| <= 1 && (f != [] ==> f[0].Ack? ==> AckCodec.Writable(f[0].ack))
  {
    if f == [] then Ok(0) else MinLength(f[0], pkt)
  }

  function StreamsOf(store: Store, refs: seq<nat>): (r: seq<Frame>)
    requires Known(store, refs)
    ensures |r| == |refs| && forall i :: 0 <= i < |refs| ==> r[i] == Stream(store[refs[i]])
  {
    seq(|refs|, i requires 0 <= i < |refs| => Stream(store[refs[i]]))
  }

  function BlockedFrames(ids: seq<nat>): seq<Frame> {
    if ids == [] then [] else [Blocked(ids[0])] + BlockedFrames(ids[1..])
  }

  /** `length` is the reckoned length of everything but the stream frames, `refs` are those. */
  datatype Composed = Composed(packer: Packer, framer: Framer, frames: seq<Frame>, length: nat, refs: seq<nat>)

  /** Everything but the stream frames. */
  function TakeOthers(p: Packer, pkt: Packet, max: nat): (r: Result<Taken>)
    requires Valid(p)
  {
    var a :- HeadLength(p.stopWaiting, pkt);
    var b :- HeadLength(p.ack, pkt);
    var t :- TakeControls(p.controls, pkt, a + b, max);
    if t.length > max then Err("Packet Packer BUG: packet payload too large")
    else Ok(t.(frames := p.stopWaiting + p.ack + t.frames))
  }

  lemma {:induction false} PoppedAreKnown(f: Framer, maxLen: nat, order: seq<nat>)
    requires Framing.Valid(f) && Visits(f, order)
    ensures var o := PopStreamFrames(f, maxLen, order); Known(o.framer.store, o.refs)
  {
    hide PopStreamFrames, FramingSize.UnluckyCut;
    FramingSize.StreamPartFits(f, maxLen, order);
  }

  /** The stream frames, popped for two bytes more than there are, which the last frame saves by going
      without its length. */
  function PopForPacket(f: Framer, room: nat, order: seq<nat>): (o: Output)
    requires Framing.Valid(f) && Visits(f, order)
    ensures Known(o.framer.store, o.refs)
  {
    PoppedAreKnown(f, room + 2, order);
    var o := PopStreamFrames(f, room + 2, order);
    o.(framer := o.framer.(store := LastWithoutLength(o.framer.store, o.refs)))
  }

  /** The frames of the next packet, for `max` bytes of payload. */
  function Compose(p: Packer, f: Framer, pkt: Packet, max: nat, canSendStreamFrames: bool,
                   order: seq<nat>): (r: Result<Composed>)
    requires Valid(p) && Framing.Valid(f) && Visits(f, order)
    ensures r.Ok? ==> r.value.length <= max
  {
    var t :- TakeOthers(p, pkt, max);
    if !canSendStreamFrames then Ok(Composed(p.(controls := t.left), f, t.frames, t.length, []))
    else
      var o := PopForPacket(f, max - t.length, order);
      var sending := o.framer.sending;
      Ok(Composed(p.(controls := t.left + BlockedFrames(sending.blocked)),
                  o.framer.(sending := sending.(blocked := [])),
                  t.frames + StreamsOf(o.framer.store, o.refs), t.length, o.refs))
  }

  // ----- lengths -----

  ghost predicate Good(f: Frame, pkt: Packet) {
    Sendable(f, pkt) && Write(f, pkt).Ok? && (f.Paths? ==> f.numPaths <= 84)
  }

  ghost predicate AllGood(fs: seq<Frame>, pkt: Packet) { forall i :: 0 <= i < |fs| ==> Good(fs[i], pkt) }

  /** The reckoned length of a frame is the written one, for a PATHS frame if and only if it has at
      most 84 paths. */
  lemma {:induction false} LengthIsExact(f: Frame, pkt: Packet)
    requires !f.Stream? && Sendable(f, pkt) && Write(f, pkt).Ok?
    ensures MinLength(f, pkt).Ok?
    ensures MinLength(f, pkt).value == |Write(f, pkt).value| <==> (f.Paths? ==> f.numPaths <= 84)
  {
    hide Encode, AckCodec.WriteAck, AckCodec.MinLength;
    match f
    case Ack(a) => AckRoundTrip.WrittenLength(a, pkt.order);
    case _ =>
  }

  ghost function Lengths(fs: seq<Frame>, pkt: Packet): nat
    requires AllGood(fs, pkt)
  {
    if fs == [] then 0 else |Write(fs[0], pkt).value| + Lengths(fs[1..], pkt)
  }

  lemma {:induction false} WriteAllLength(fs: seq<Frame>, pkt: Packet)
    requires AllGood(fs, pkt)
    ensures AllSendable(fs, pkt) && |WriteAll(fs, pkt)| == Lengths(fs, pkt)
  {
    hide Write, Sendable;
    if fs != [] { WriteAllLength(fs[1..], pkt); }
  }

  lemma {:induction false} LengthsAppend(a: seq<Frame>, b: seq<Frame>, pkt: Packet)
    requires AllGood(a, pkt) && AllGood(b, pkt)
    ensures AllGood(a + b, pkt) && Lengths(a + b, pkt) == Lengths(a, pkt) + Lengths(b, pkt)
  {
    hide Write, Good;
    if a == [] {
      assert a + b == b;
    } else {
      LengthsAppend(a[1..], b, pkt);
      assert (a + b)[1..] == a[1..] + b;
    }
  }

  lemma {:induction false} TakenLength(controls: seq<Frame>, pkt: Packet, length: nat, max: nat)
    requires AllGood(controls, pkt) && forall i :: 0 <= i < |controls| ==> IsControl(controls[i])
    ensures var r := TakeControls(controls, pkt, length, max);
            && r.Ok? && AllGood(r.value.frames, pkt) && AllGood(r.value.left, pkt)
            && r.value.length == length + Lengths(r.value.frames, pkt)
  {
    hide Write, MinLength, Good;
    if controls != [] {
      var f := controls[|controls| - 1];
      assert Good(f, pkt) && IsControl(f);
      GoodLength(f, pkt);
      var n := MinLength(f, pkt).value;
      if length + n <= max {
        TakenLength(controls[..|controls| - 1], pkt, length + n, max);
        LengthsAppend([f], TakeControls(controls[..|controls| - 1], pkt, length + n, max).value.frames, pkt);
        LengthOfOne(f, pkt);
      }
    }
  }

  lemma {:induction false} GoodLength(f: Frame, pkt: Packet)
    requires Good(f, pkt) && !f.Stream?
    ensures MinLength(f, pkt) == Ok(|Write(f, pkt).value|)
  {
    hide Write, MinLength;
    LengthIsExact(f, pkt);
  }

  lemma {:induction false} LengthOfOne(f: Frame, pkt: Packet)
    requires Good(f, pkt)
    ensures AllGood([f], pkt) && Lengths([f], pkt) == |Write(f, pkt).value|
  {
    hide Write, Good;
    assert [f][1..] == [];
  }

  lemma {:induction false} HeadIsExact(f: seq<Frame>, pkt: Packet)
    requires |f| <= 1 && AllGood(f, pkt) && (f != [] ==> !f[0].Stream?)
    ensures HeadLength(f, pkt) == Ok(Lengths(f, pkt))
  {
    hide Write, MinLength, Sendable;
    if f != [] {
      GoodLength(f[0], pkt);
      LengthOfOne(f[0], pkt);
      assert f == [f[0]];
    }
  }

  lemma {:induction false} StreamsLength(store: Store, refs: seq<nat>, pkt: Packet)
    requires Known(store, refs) && AllGood(StreamsOf(store, refs), pkt)
    ensures Lengths(StreamsOf(store, refs), pkt) == FramingSize.Wire(store, refs)
  {
    hide Good, Write;
    if refs != [] {
      var init, r := refs[..|refs| - 1], refs[|refs| - 1];
      var a, f := StreamsOf(store, init), Stream(store[r]);
      assert StreamsOf(store, refs) == a + [f];
      assert Good(StreamsOf(store, refs)[|refs| - 1], pkt);
      forall i | 0 <= i < |a| ensures Good(a[i], pkt) { assert a[i] == StreamsOf(store, refs)[i]; }
      StreamsLength(store, init, pkt);
      LengthsAppend(a, [f], pkt);
      LengthOfOne(f, pkt);
      StreamLength(store[r], pkt);
    }
  }

  lemma {:induction false} StreamLength(s: StreamFrames.StreamFrame, pkt: Packet)
    requires Good(Stream(s), pkt)
    ensures |Write(Stream(s), pkt).value| == FramingSize.WireLength(s)
  {
    hide Encode;
  }

  // ----- frames in the store can always be sent -----

  ghost predicate AllStreamsSendable(store: Store) {
    forall r :: r in store ==> StreamFrames.Sendable(store[r])
  }

  ghost predicate StreamsInRange(s: Sending) {
    forall id :: id in s.streams ==>
      id < 0x1_0000_0000 && s.streams[id].offset + |s.streams[id].pending| < StreamFrames.UINT64
  }

  lemma {:induction false} PopKeepsSendable(store: Store, queue: seq<nat>, maxLen: nat, next: nat)
    requires Known(store, queue) && AllStreamsSendable(store)
    ensures AllStreamsSendable(PopRetransmissions(store, queue, maxLen, next).store)
  {
    hide Whole, TotalCost, HeaderLength;
    var p := PopRetransmissions(store, queue, maxLen, next);
    var k, n := Whole(store, queue, maxLen), Cut(store, queue, maxLen);
    if n > 0 {
      assert StreamFrames.Sendable(store[queue[k]]);
    }
  }

  lemma {:induction false} VisitKeepsRange(s: Sending, id: nat, room: nat)
    requires id in s.streams && StreamsInRange(s) && room <= StreamFrames.MAX_PACKET_SIZE + 2
    ensures var v := VisitStream(s, id, room);
            && StreamsInRange(v.state) && v.state.streams.Keys == s.streams.Keys
            && (v.frame != [] ==> StreamFrames.Sendable(v.frame[0]))
  {
    hide HeaderLength, FlowControl.SendWindow, FlowControl.AfterSent, Blocks;
  }

  lemma {:induction false} NormalKeepsRange(s: Sending, order: seq<nat>, room: nat)
    requires (forall i :: 0 <= i < |order| ==> order[i] in s.streams) && StreamsInRange(s)
             && room <= StreamFrames.MAX_PACKET_SIZE + 2
    ensures var p := PopNormal(s, order, room);
            StreamsInRange(p.state) && forall i :: 0 <= i < |p.frames| ==> StreamFrames.Sendable(p.frames[i])
    decreases |order|
  {
    hide VisitStream, Cost, HeaderLength, StreamFrames.Sendable, StreamsInRange;
    if order != [] {
      VisitKeepsRange(s, order[0], room);
      var v := VisitStream(s, order[0], room);
      if v.goOn { NormalKeepsRange(v.state, order[1..], room - if v.frame == [] then 0 else Cost(v.frame[0])); }
    }
  }

  lemma {:induction false} OutputSendable(f: Framer, maxLen: nat, order: seq<nat>)
    requires Framing.Valid(f) && Visits(f, order) && maxLen <= StreamFrames.MAX_PACKET_SIZE + 2
    requires AllStreamsSendable(f.store) && StreamsInRange(f.sending)
    ensures var o := PopStreamFrames(f, maxLen, order);
            AllStreamsSendable(o.framer.store) && StreamsInRange(o.framer.sending)
  {
    hide PopNormal, PopRetransmissions, PopStreamFrames, Cut, Whole, Stored, Numbers, AllStreamsSendable,
         StreamFrames.Sendable, StreamsInRange;
    FramingSize.PoppedFacts(f.store, f.queue, maxLen, f.next);
    PopKeepsSendable(f.store, f.queue, maxLen, f.next);
    var p := PopRetransmissions(f.store, f.queue, maxLen, f.next);
    var next := if Cut(f.store, f.queue, maxLen) > 0 then f.next + 1 else f.next;
    var q := PopNormal(f.sending, order, maxLen - p.length);
    FramingSize.OutputParts(f, maxLen, order, p, next, q);
    NormalKeepsRange(f.sending, order, maxLen - p.length);
    StoredSendable(p.store, next, q.frames);
  }

  lemma {:induction false} StoredSendable(store: Store, first: nat, frames: seq<StreamFrames.StreamFrame>)
    requires AllStreamsSendable(store) && forall i :: 0 <= i < |frames| ==> StreamFrames.Sendable(frames[i])
    ensures AllStreamsSendable(Stored(store, first, frames))
    decreases |frames|
  {
    hide StreamFrames.Sendable;
    if frames != [] { StoredSendable(store, first, frames[..|frames| - 1]); }
  }

  // ----- what is composed fits, and reads back -----

  /** Everything that is waiting can be sent: fields in range, at most 84 paths, and an ACK that can be
      written. */
  ghost predicate Ready(p: Packer, f: Framer, pkt: Packet) {
    && Valid(p) && Framing.Valid(f)
    && AllGood(p.stopWaiting, pkt) && AllGood(p.ack, pkt) && AllGood(p.controls, pkt)
    && AllStreamsSendable(f.store) && StreamsInRange(f.sending) && pkt.encrypted
  }

  lemma {:induction false} OthersLength(p: Packer, pkt: Packet, max: nat)
    requires Valid(p) && AllGood(p.stopWaiting, pkt) && AllGood(p.ack, pkt) && AllGood(p.controls, pkt)
             && TakeOthers(p, pkt, max).Ok?
    ensures var t := TakeOthers(p, pkt, max).value;
            && AllGood(t.frames, pkt) && t.length == Lengths(t.frames, pkt) <= max
            && forall i :: 0 <= i < |t.frames| ==> !t.frames[i].Stream?
  {
    hide Good, Write, MinLength, HeadLength, Lengths;
    HeadIsExact(p.stopWaiting, pkt);
    HeadIsExact(p.ack, pkt);
    var n := Lengths(p.stopWaiting, pkt) + Lengths(p.ack, pkt);
    TakenLength(p.controls, pkt, n, max);
    TakenAreControls(p.controls, pkt, n, max);
    LengthsAppend(p.stopWaiting, p.ack, pkt);
    LengthsAppend(p.stopWaiting + p.ack, TakeControls(p.controls, pkt, n, max).value.frames, pkt);
  }

  lemma {:induction false} TakenAreControls(controls: seq<Frame>, pkt: Packet, length: nat, max: nat)
    requires forall i :: 0 <= i < |controls| ==> IsControl(controls[i])
    ensures var r := TakeControls(controls, pkt, length, max);
            r.Ok? ==> forall i :: 0 <= i < |r.value.frames| ==> IsControl(r.value.frames[i])
  {
    hide MinLength;
    if controls != [] {
      var f := controls[|controls| - 1];
      assert IsControl(f);
      var n := MinLength(f, pkt);
      if n.Ok? { TakenAreControls(controls[..|controls| - 1], pkt, length + n.value, max); }
    }
  }

  lemma {:induction false} StreamsGood(store: Store, refs: seq<nat>, pkt: Packet)
    requires Known(store, refs) && AllStreamsSendable(store) && pkt.encrypted
    ensures AllGood(StreamsOf(store, refs), pkt)
  {
    hide Encode;
    forall i | 0 <= i < |refs| ensures Good(StreamsOf(store, refs)[i], pkt) {
      assert StreamFrames.Sendable(store[refs[i]]);
    }
  }

  lemma {:induction false} PoppedSendable(f: Framer, room: nat, order: seq<nat>)
    requires Framing.Valid(f) && Visits(f, order) && room <= StreamFrames.MAX_PACKET_SIZE
    requires AllStreamsSendable(f.store) && StreamsInRange(f.sending)
    ensures var o := PopForPacket(f, room, order);
            AllStreamsSendable(o.framer.store) && StreamsInRange(o.framer.sending)
  {
    hide PopStreamFrames, StreamsInRange;
    OutputSendable(f, room + 2, order);
    FramingSize.StreamPartFits(f, room + 2, order);
  }

  /** What is left for stream frames once everything else is taken. */
  function RoomFor(p: Packer, pkt: Packet, max: nat): nat
    requires Valid(p) && TakeOthers(p, pkt, max).Ok?
  {
    max - TakeOthers(p, pkt, max).value.length
  }

  /** Packet size: whenever composing succeeds the payload takes at most `max` bytes, except when one
      byte is cut off a frame object that starts its stream and was popped before for this packet. */
  lemma {:induction false} PayloadFits(p: Packer, f: Framer, pkt: Packet, max: nat, canSend: bool, order: seq<nat>)
    requires Ready(p, f, pkt) && Visits(f, order) && max <= StreamFrames.MAX_PACKET_SIZE
    requires Compose(p, f, pkt, max, canSend, order).Ok?
    ensures var c := Compose(p, f, pkt, max, canSend, order).value;
            && AllGood(c.frames, pkt) && AllSendable(c.frames, pkt)
            && (|WriteAll(c.frames, pkt)| <= max
                <==> !(canSend && FramingSize.UnluckyCut(f.store, f.queue, RoomFor(p, pkt, max) + 2)))
  {
    hide Good, Write, TakeOthers, PopForPacket, Lengths, FramingSize.UnluckyCut, StreamsInRange, WriteAll;
    var c := Compose(p, f, pkt, max, canSend, order).value;
    OthersLength(p, pkt, max);
    var t := TakeOthers(p, pkt, max).value;
    WriteAllLength(t.frames, pkt);
    if canSend {
      var o := PopForPacket(f, max - t.length, order);
      PoppedSendable(f, max - t.length, order);
      StreamsGood(o.framer.store, o.refs, pkt);
      StreamsLength(o.framer.store, o.refs, pkt);
      LengthsAppend(t.frames, StreamsOf(o.framer.store, o.refs), pkt);
      WriteAllLength(c.frames, pkt);
      PoppedFits(f, max - t.length, order);
    }
  }

  lemma {:induction false} PoppedFits(f: Framer, room: nat, order: seq<nat>)
    requires Framing.Valid(f) && Visits(f, order)
    ensures var o := PopForPacket(f, room, order);
            FramingSize.Wire(o.framer.store, o.refs) <= room <==> !FramingSize.UnluckyCut(f.store, f.queue, room + 2)
  {
    hide PopStreamFrames, FramingSize.UnluckyCut, FramingSize.Wire, Whole;
    FramingSize.StreamPartFits(f, room + 2, order);
    FramingSize.OutputCost(f, room + 2, order);
    NothingOnTheWire(PopStreamFrames(f, room + 2, order).framer.store);
  }

  lemma {:induction false} NothingOnTheWire(store: Store)
    ensures FramingSize.Wire(store, []) == 0
  {}

  /** The frame object that comes last in the packet comes in it only once. */
  predicate LastIsUnique(refs: seq<nat>) { refs == [] || refs[|refs| - 1] !in refs[..|refs| - 1] }

  /** Of the popped frames exactly those that are the last object go without their length. */
  lemma {:induction false} WhoNeedsRest(f: Framer, room: nat, order: seq<nat>, i: nat)
    requires Framing.Valid(f) && Visits(f, order) && i < |PopForPacket(f, room, order).refs|
    ensures var o := PopForPacket(f, room, order);
            NeedsRest(StreamsOf(o.framer.store, o.refs)[i]) <==> o.refs[i] == o.refs[|o.refs| - 1]
  {
    hide PopStreamFrames, FramingSize.UnluckyCut, Whole, TotalCost;
    FramingSize.OutputCost(f, room + 2, order);
    var o := PopForPacket(f, room, order);
    assert StreamsOf(o.framer.store, o.refs)[i] == Stream(o.framer.store[o.refs[i]]);
  }

  /** The last frame that is popped whole from the queue is a repeated one, no frame is cut for the
      room behind it, and no stream has anything to put there. */
  predicate EndsInRepeat(f: Framer, maxLen: nat, order: seq<nat>)
    requires Known(f.store, f.queue) && Visits(f, order)
  {
    var k := Whole(f.store, f.queue, maxLen);
    && Cut(f.store, f.queue, maxLen) == 0 && k > 0 && f.queue[k - 1] in f.queue[..k - 1]
    && PopNormal(f.sending, order, maxLen - TotalCost(f.store, f.queue[..k])).frames == []
  }

  /** A frame that was cut off, and a new frame, are objects of their own. */
  lemma {:induction false} RepeatedLast(f: Framer, maxLen: nat, order: seq<nat>)
    requires Framing.Valid(f) && Visits(f, order)
    ensures LastIsUnique(PopStreamFrames(f, maxLen, order).refs) <==> !EndsInRepeat(f, maxLen, order)
  {
    hide PopRetransmissions, PopStreamFrames, PopNormal, Whole, TotalCost, Cut, Stored, Numbers, LastIsUnique;
    FramingSize.PoppedFacts(f.store, f.queue, maxLen, f.next);
    var p := PopRetransmissions(f.store, f.queue, maxLen, f.next);
    var next := if Cut(f.store, f.queue, maxLen) > 0 then f.next + 1 else f.next;
    var q := PopNormal(f.sending, order, maxLen - p.length);
    FramingSize.OutputParts(f, maxLen, order, p, next, q);
    PoppedLast(f, maxLen);
    if q.frames != [] {
      forall i | 0 <= i < |p.refs| ensures p.refs[i] < next { OldIsBelow(f, maxLen, i); }
      NewestIsLast(p.refs, next, |q.frames|);
    } else {
      NothingNew(p.refs, next);
    }
  }

  lemma {:induction false} NothingNew(refs: seq<nat>, next: nat)
    ensures refs + Numbers(next, 0) == refs
  {}

  lemma {:induction false} PoppedLast(f: Framer, maxLen: nat)
    requires Framing.Valid(f)
    ensures var p, k := PopRetransmissions(f.store, f.queue, maxLen, f.next), Whole(f.store, f.queue, maxLen);
            && (Cut(f.store, f.queue, maxLen) == 0 ==> p.length == TotalCost(f.store, f.queue[..k]))
            && (LastIsUnique(p.refs) <==>
                  Cut(f.store, f.queue, maxLen) > 0 || k == 0 || f.queue[k - 1] !in f.queue[..k - 1])
  {
    hide Whole, TotalCost, Cut, Marked, Front, Back;
    var p, k := PopRetransmissions(f.store, f.queue, maxLen, f.next), Whole(f.store, f.queue, maxLen);
    if Cut(f.store, f.queue, maxLen) > 0 {
      assert p.refs[..|p.refs| - 1] == f.queue[..k];
      assert f.next !in f.queue[..k];
    } else if k > 0 {
      assert p.refs[..|p.refs| - 1] == f.queue[..k - 1];
    }
  }

  lemma {:induction false} NewestIsLast(before: seq<nat>, next: nat, n: nat)
    requires n > 0 && forall i :: 0 <= i < |before| ==> before[i] < next
    ensures LastIsUnique(before + Numbers(next, n))
  {
    var refs := before + Numbers(next, n);
    assert refs[|refs| - 1] == next + n - 1;
    forall i | 0 <= i < |refs| - 1 ensures refs[i] < refs[|refs| - 1] {
      if i >= |before| { assert refs[i] == next + (i - |before|); }
    }
  }

  lemma {:induction false} OldIsBelow(f: Framer, maxLen: nat, i: nat)
    requires Framing.Valid(f) && i < |PopRetransmissions(f.store, f.queue, maxLen, f.next).refs|
    ensures var r := PopRetransmissions(f.store, f.queue, maxLen, f.next).refs[i];
            r < if Cut(f.store, f.queue, maxLen) > 0 then f.next + 1 else f.next
  {
    hide Whole, TotalCost, Marked, HeaderLength;
    var k := Whole(f.store, f.queue, maxLen);
    if i < k { assert f.queue[i] in f.store; }
  }

  lemma {:induction false} FirstIndex(refs: seq<nat>, r: nat) returns (j: nat)
    requires r in refs
    ensures j < |refs| && refs[j] == r && forall i :: 0 <= i < j ==> refs[i] != r
  {
    j := 0;
    while refs[j] != r
      invariant j < |refs| && r !in refs[..j]
      decreases |refs| - j
    {
      j := j + 1;
    }
  }

  /** A composed payload reads back as the frames that were composed, an ACK truncated and rounded, if
      and only if its stream frames do not end in a repeated one. */
  lemma {:induction false} PayloadReadsBack(p: Packer, f: Framer, pkt: Packet, max: nat, canSend: bool, order: seq<nat>)
    requires Ready(p, f, pkt) && Visits(f, order) && max <= StreamFrames.MAX_PACKET_SIZE
    requires Compose(p, f, pkt, max, canSend, order).Ok?
    ensures var c := Compose(p, f, pkt, max, canSend, order).value;
            && AllSendable(c.frames, pkt)
            && (ParseAll(WriteAll(c.frames, pkt), pkt) == Ok(SeenAll(c.frames))
                <==> !(canSend && EndsInRepeat(f, RoomFor(p, pkt, max) + 2, order)))
  {
    hide Good, Write, TakeOthers, PopForPacket, Lengths, FramingSize.UnluckyCut, StreamsInRange, WriteAll, ParseAll,
         SeenAll, Sendable, EndsInRepeat;
    var c := Compose(p, f, pkt, max, canSend, order).value;
    PayloadFits(p, f, pkt, max, canSend, order);
    OthersLength(p, pkt, max);
    var others := TakeOthers(p, pkt, max).value.frames;
    if canSend {
      TogetherReadBack(f, RoomFor(p, pkt, max), order, others, pkt);
    } else {
      PayloadReadBack(c.frames, pkt);
    }
  }

  /** The same for given other frames; a payload that is too long has no repeated last frame. */
  lemma {:induction false} TogetherReadBack(f: Framer, room: nat, order: seq<nat>, others: seq<Frame>, pkt: Packet)
    requires Framing.Valid(f) && Visits(f, order) && forall i :: 0 <= i < |others| ==> !others[i].Stream?
    requires var o := PopForPacket(f, room, order);
             var fs := others + StreamsOf(o.framer.store, o.refs);
             && AllSendable(fs, pkt)
             && (|WriteAll(fs, pkt)| < 0x1_0000 || FramingSize.UnluckyCut(f.store, f.queue, room + 2))
    ensures var o := PopForPacket(f, room, order);
            var fs := others + StreamsOf(o.framer.store, o.refs);
            ParseAll(WriteAll(fs, pkt), pkt) == Ok(SeenAll(fs)) <==> !EndsInRepeat(f, room + 2, order)
  {
    hide PopForPacket, FramingSize.UnluckyCut, WriteAll, ParseAll, SeenAll, Sendable, EndsInRepeat, Write, LastIsUnique;
    var o := PopForPacket(f, room, order);
    var fs := others + StreamsOf(o.framer.store, o.refs);
    SameRefs(f, room, order);
    RepeatedLast(f, room + 2, order);
    if EndsInRepeat(f, room + 2, order) {
      RepeatIsNoCut(f, room + 2, order);
      var k := FirstWithoutLength(f, room, order, others);
      LengthIsNeeded(fs, pkt, k);
    } else {
      OnlyTheLast(f, room, order, others);
      PayloadReadBack(fs, pkt);
    }
  }

  lemma {:induction false} SameRefs(f: Framer, room: nat, order: seq<nat>)
    requires Framing.Valid(f) && Visits(f, order)
    ensures PopForPacket(f, room, order).refs == PopStreamFrames(f, room + 2, order).refs
  {
    hide PopStreamFrames;
  }

  lemma {:induction false} RepeatIsNoCut(f: Framer, maxLen: nat, order: seq<nat>)
    requires Known(f.store, f.queue) && Visits(f, order) && EndsInRepeat(f, maxLen, order)
    ensures !FramingSize.UnluckyCut(f.store, f.queue, maxLen)
  {
    hide Whole, TotalCost, Cut;
  }

  lemma {:induction false} OnlyTheLast(f: Framer, room: nat, order: seq<nat>, others: seq<Frame>)
    requires Framing.Valid(f) && Visits(f, order) && LastIsUnique(PopForPacket(f, room, order).refs)
    requires forall i :: 0 <= i < |others| ==> !others[i].Stream?
    ensures var o := PopForPacket(f, room, order);
            var fs := others + StreamsOf(o.framer.store, o.refs);
            forall i :: 0 <= i < |fs| - 1 ==> !NeedsRest(fs[i])
  {
    hide PopForPacket;
    var o := PopForPacket(f, room, order);
    var fs := others + StreamsOf(o.framer.store, o.refs);
    forall i | 0 <= i < |fs| - 1 ensures !NeedsRest(fs[i]) {
      if i >= |others| {
        var j := i - |others|;
        WhoNeedsRest(f, room, order, j);
        assert o.refs[j] == o.refs[..|o.refs| - 1][j];
      }
    }
  }

  lemma {:induction false} FirstWithoutLength(f: Framer, room: nat, order: seq<nat>, others: seq<Frame>)
      returns (k: nat)
    requires Framing.Valid(f) && Visits(f, order) && !LastIsUnique(PopForPacket(f, room, order).refs)
    requires forall i :: 0 <= i < |others| ==> !others[i].Stream?
    ensures var o := PopForPacket(f, room, order);
            var fs := others + StreamsOf(o.framer.store, o.refs);
            k < |fs| - 1 && NeedsRest(fs[k]) && forall i :: 0 <= i < k ==> !NeedsRest(fs[i])
  {
    hide PopForPacket;
    var o := PopForPacket(f, room, order);
    var fs := others + StreamsOf(o.framer.store, o.refs);
    var n := |o.refs| - 1;
    var j := FirstIndex(o.refs[..n], o.refs[n]);
    k := |others| + j;
    WhoNeedsRest(f, room, order, j);
    forall i | 0 <= i < k ensures !NeedsRest(fs[i]) {
      if i >= |others| {
        WhoNeedsRest(f, room, order, i - |others|);
        assert o.refs[i - |others|] == o.refs[..n][i - |others|];
      }
    }
  }

  // ----- a length that is not exact -----

  /** A PATHS frame for `n` paths. */
  function SomePaths(n: nat): Frame { Paths(n, n, seq(n, i => 1), seq(n, i => 0)) }

  /** 85 paths take 258 bytes, but two are reckoned. */
  lemma {:induction false} LongPathsFrame(pkt: Packet)
    ensures Sendable(SomePaths(85), pkt) && Write(SomePaths(85), pkt).Ok?
    ensures |Write(SomePaths(85), pkt).value| == 258 && MinLength(SomePaths(85), pkt) == Ok(2)
  {
    hide Encode;
  }
}
