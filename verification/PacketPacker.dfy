/** The class of mpquic_trans/packet_packer.go, proved to compose what Packing says. */
module PacketPackers {
  import opened Bytes
  import AckCodec
  import opened Frames
  import opened Framing
  import FramingSize
  import Packing
  import opened FlowControlManagers
  import opened StreamFramers

  // ----- how far the loop over the control frames has come -----

  ghost predicate TakenSoFar(all: seq<Frame>, pkt: Packet, start: nat, max: nat, done: seq<Frame>, left: seq<Frame>,
                             length: nat) {
    && (forall i :: 0 <= i < |all| ==> Packing.IsControl(all[i]))
    && (forall i :: 0 <= i < |left| ==> Packing.IsControl(left[i]))
    && var a, b := Packing.TakeControls(all, pkt, start, max), Packing.TakeControls(left, pkt, length, max);
       a == if b.Ok? then Ok(b.value.(frames := done + b.value.frames)) else b
  }

  lemma {:induction false} TakeNothing(all: seq<Frame>, pkt: Packet, length: nat, max: nat)
    requires forall i :: 0 <= i < |all| ==> Packing.IsControl(all[i])
    ensures TakenSoFar(all, pkt, length, max, [], all, length)
  {
    hide Packing.TakeControls;
    var a := Packing.TakeControls(all, pkt, length, max);
    assert a.Ok? ==> [] + a.value.frames == a.value.frames;
  }

  lemma {:induction false} TakeOneMore(all: seq<Frame>, pkt: Packet, start: nat, max: nat, done: seq<Frame>,
                                       left: seq<Frame>, length: nat)
    requires TakenSoFar(all, pkt, start, max, done, left, length)
    ensures left != [] ==> Packing.IsControl(left[|left| - 1])
    ensures var a := Packing.TakeControls(all, pkt, start, max);
            if left == [] then a == Ok(Packing.Taken(done, [], length))
            else
              var f := left[|left| - 1];
              var n := MinLength(f, pkt);
              if n.Err? then a.Err? && a.error == n.error
              else if length + n.value > max then a == Ok(Packing.Taken(done, left, length))
              else TakenSoFar(all, pkt, start, max, done + [f], left[..|left| - 1], length + n.value)
  {
    hide MinLength;
    assert done + [] == done;
    if left != [] {
      var f := left[|left| - 1];
      assert Packing.IsControl(f);
      var n := MinLength(f, pkt);
      if n.Ok? && length + n.value <= max {
        var b := Packing.TakeControls(left[..|left| - 1], pkt, length + n.value, max);
        assert b.Ok? ==> done + ([f] + b.value.frames) == done + [f] + b.value.frames;
      }
    }
  }

  class PacketPacker {
    var stopWaiting: seq<Frame>
    var ackFrame: seq<Frame>
    var controlFrames: seq<Frame>
    const streamFramer: StreamFramer

    ghost function Value(): Packing.Packer
      reads this
    {
      Packing.Packer(stopWaiting, ackFrame, controlFrames)
    }

    constructor (framer: StreamFramer)
      ensures Value() == Packing.Packer([], [], []) && streamFramer == framer
    {
      stopWaiting, ackFrame, controlFrames, streamFramer := [], [], [], framer;
    }

    /** Frames other than STOP_WAITING and ACK are queued, those two replace what was waiting. */
    method QueueControlFrame(frame: Frame)
      requires Packing.Valid(Value()) && !frame.Stream? && (frame.Ack? ==> AckCodec.Writable(frame.ack))
      modifies this
      ensures Packing.Valid(Value())
      ensures Value() == match frame
                         case StopWaiting(_) => old(Value()).(stopWaiting := [frame])
                         case Ack(_) => old(Value()).(ack := [frame])
                         case _ => old(Value()).(controls := old(controlFrames) + [frame])
    {
      if frame.StopWaiting? {
        stopWaiting := [frame];
      } else if frame.Ack? {
        ackFrame := [frame];
      } else {
        controlFrames := controlFrames + [frame];
      }
    }

    /** STOP_WAITING and ACK, which come first. */
    method TakeHead(pkt: Packet) returns (r: Result<(seq<Frame>, nat)>)
      requires Packing.Valid(Value())
      ensures var a, b := Packing.HeadLength(stopWaiting, pkt), Packing.HeadLength(ackFrame, pkt);
              r == if a.Err? then Err(a.error) else if b.Err? then Err(b.error)
                  else Ok((stopWaiting + ackFrame, a.value + b.value))
    {
      hide MinLength;
      var frames: seq<Frame>, length: nat := [], 0;
      if stopWaiting != [] {
        frames := frames + [stopWaiting[0]];
        var n := MinLength(stopWaiting[0], pkt);
        if n.Err? { return Err(n.error); }
        length := n.value;
      }
      assert frames == stopWaiting;
      if ackFrame != [] {
        frames := frames + [ackFrame[0]];
        var n := MinLength(ackFrame[0], pkt);
        if n.Err? { return Err(n.error); }
        length := length + n.value;
      }
      assert frames == stopWaiting + ackFrame;
      return Ok((frames, length));
    }

    /** Control frames, the newest first, as long as they fit. */
    method TakeControls(pkt: Packet, start: nat, max: nat) returns (r: Result<(seq<Frame>, nat)>)
      requires forall i :: 0 <= i < |controlFrames| ==> Packing.IsControl(controlFrames[i])
      modifies this`controlFrames
      ensures forall i :: 0 <= i < |controlFrames| ==> Packing.IsControl(controlFrames[i])
      ensures match Packing.TakeControls(old(controlFrames), pkt, start, max)
              case Err(e) => r == Err(e)
              case Ok(t) => r == Ok((t.frames, t.length)) && controlFrames == t.left
    {
      hide MinLength, Packing.TakeControls, TakenSoFar;
      var frames: seq<Frame>, length: nat := [], start;
      ghost var all := controlFrames;
      TakeNothing(all, pkt, start, max);
      while controlFrames != []
        invariant forall i :: 0 <= i < |controlFrames| ==> Packing.IsControl(controlFrames[i])
        invariant TakenSoFar(all, pkt, start, max, frames, controlFrames, length)
        decreases |controlFrames|
      {
        TakeOneMore(all, pkt, start, max, frames, controlFrames, length);
        var frame := controlFrames[|controlFrames| - 1];
        var n := MinLength(frame, pkt);
        if n.Err? { return Err(n.error); }
        if length + n.value > max { return Ok((frames, length)); }
        frames := frames + [frame];
        length := length + n.value;
        controlFrames := controlFrames[..|controlFrames| - 1];
      }
      TakeOneMore(all, pkt, start, max, frames, controlFrames, length);
      return Ok((frames, length));
    }

    /** Everything but the stream frames. */
    method TakeOthers(pkt: Packet, max: nat) returns (r: Result<(seq<Frame>, nat)>)
      requires Packing.Valid(Value())
      modifies this`controlFrames
      ensures Packing.Valid(Value())
      ensures match Packing.TakeOthers(old(Value()), pkt, max)
              case Err(e) => r == Err(e)
              case Ok(t) => r == Ok((t.frames, t.length)) && t.length <= max && controlFrames == t.left
    {
      hide Packing.HeadLength, Packing.TakeControls;
      var head := TakeHead(pkt);
      if head.Err? { return Err(head.error); }
      var controls := TakeControls(pkt, head.value.1, max);
      if controls.Err? { return Err(controls.error); }
      if controls.value.1 > max { return Err("Packet Packer BUG: packet payload too large"); }
      return Ok((head.value.0 + controls.value.0, controls.value.1));
    }

    /** The BLOCKED frames that came up join the control frames. */
    method QueueBlockedFrames()
      requires Packing.Valid(Value()) && streamFramer.sender.Valid()
      modifies this`controlFrames, streamFramer.sender`blockedQueue
      ensures Packing.Valid(Value()) && streamFramer.sender.Valid()
      ensures controlFrames == old(controlFrames) + Packing.BlockedFrames(old(streamFramer.sender.blockedQueue))
      ensures streamFramer.sender.Value() == old(streamFramer.sender.Value()).(blocked := [])
    {
      hide *;
      var sender := streamFramer.sender;
      ghost var total := controlFrames + Packing.BlockedFrames(sender.blockedQueue);
      BlockedAreControls(Value(), sender.blockedQueue);
      ValueIs();
      sender.BlockedIs();
      while sender.blockedQueue != []
        invariant sender.Valid() && stopWaiting == old(stopWaiting) && ackFrame == old(ackFrame)
        invariant sender.Value() == old(sender.Value()).(blocked := sender.blockedQueue)
        invariant controlFrames + Packing.BlockedFrames(sender.blockedQueue) == total
        decreases |sender.blockedQueue|
      {
        QueueOne(controlFrames, sender.blockedQueue);
        var id := sender.PopBlockedFrame();
        controlFrames := controlFrames + [Blocked(id)];
      }
      NoneBlocked(controlFrames);
      ValueIs();
    }

    lemma {:induction false} ValueIs()
      ensures Value() == Packing.Packer(stopWaiting, ackFrame, controlFrames)
    {}

    /** The stream frames of the next packet. */
    method PopForPacket(room: nat, order: seq<nat>) returns (fs: seq<StreamFrame>)
      requires streamFramer.Valid() && streamFramer.sender.Valid()
      requires forall k :: 0 <= k < |order| ==> order[k] in streamFramer.sender.streams
      modifies streamFramer, streamFramer.frames.Values, streamFramer.sender`blockedQueue,
               streamFramer.sender.streams.Values
      modifies streamFramer.sender.flow.conn, streamFramer.sender.flow.streams.Values
      ensures streamFramer.Valid() && streamFramer.sender.Valid()
      ensures Framing.Valid(old(streamFramer.Value())) && Visits(old(streamFramer.Value()), order)
      ensures Output(streamFramer.Value(), Refs(fs)) == Packing.PopForPacket(old(streamFramer.Value()), room, order)
    {
      hide *;
      ghost var f := streamFramer.Value();
      fs := streamFramer.PopStreamFrames(room + 2, order);
      PopIs(f, room, order);
      streamFramer.ValueIs();
      if fs != [] {
        var last := fs[|fs| - 1];
        LastIsNamed(streamFramer.frames, fs);
        streamFramer.DropLength(last);
        streamFramer.ValueIs();
      }
    }

    /** The frames of the next packet, the stream frames as objects. */
    method ComposeNextPacket(pkt: Packet, max: nat, canSendStreamFrames: bool, order: seq<nat>)
      returns (r: Result<(seq<Frame>, seq<StreamFrame>)>)
      requires Packing.Valid(Value()) && streamFramer.Valid() && streamFramer.sender.Valid()
      requires forall k :: 0 <= k < |order| ==> order[k] in streamFramer.sender.streams
      modifies this`controlFrames, streamFramer, streamFramer.frames.Values
      modifies streamFramer.sender`blockedQueue, streamFramer.sender.streams.Values
      modifies streamFramer.sender.flow.conn, streamFramer.sender.flow.streams.Values
      ensures Packing.Valid(Value()) && streamFramer.Valid() && streamFramer.sender.Valid()
      ensures Framing.Valid(old(streamFramer.Value())) && Visits(old(streamFramer.Value()), order)
      ensures match Packing.Compose(old(Value()), old(streamFramer.Value()), pkt, max, canSendStreamFrames, order)
              case Err(e) => r == Err(e)
              case Ok(c) =>
                && r.Ok? && c.refs == Refs(r.value.1) && Known(c.framer.store, c.refs)
                && Value() == c.packer && streamFramer.Value() == c.framer
                && c.frames == r.value.0 + Packing.StreamsOf(c.framer.store, c.refs)
    {
      hide Packing.TakeOthers, Packing.PopForPacket, StreamFramer.Valid, StreamSender.Valid, StreamFramer.Store,
          StreamSender.Value;
      hide FlowControlManager.Valid, FlowControlManager.Value, Framing.Valid, Visits, Packing.Valid,
          Packing.BlockedFrames;
      ghost var f := streamFramer.Value();
      streamFramer.ValueIsValid();
      streamFramer.OrderIsVisited(order);
      var others := TakeOthers(pkt, max);
      assert streamFramer.Value() == f;
      if others.Err? { return Err(others.error); }
      var (frames, length) := others.value;
      if !canSendStreamFrames {
        assert frames + [] == frames;
        return Ok((frames, []));
      }
      var fs := PopForPacket(max - length, order);
      streamFramer.sender.BlockedIs();
      QueueBlockedFrames();
      return Ok((frames, fs));
    }
  }

  lemma {:induction false} PopIs(f: Framer, room: nat, order: seq<nat>)
    requires Framing.Valid(f) && Visits(f, order)
    ensures var o := PopStreamFrames(f, room + 2, order);
            && Known(o.framer.store, o.refs)
            && Packing.PopForPacket(f, room, order) ==
               Output(o.framer.(store := if o.refs == [] then o.framer.store
                                         else
                                           var r := o.refs[|o.refs| - 1];
                                           o.framer.store[r := o.framer.store[r].(dataLenPresent := false)]), o.refs)
  {
    hide PopStreamFrames;
    FramingSize.StreamPartFits(f, room + 2, order);
  }

  lemma {:induction false} QueueOne(c: seq<Frame>, ids: seq<nat>)
    requires ids != []
    ensures c + Packing.BlockedFrames(ids) == c + [Blocked(ids[0])] + Packing.BlockedFrames(ids[1..])
  {}

  lemma {:induction false} NoneBlocked(c: seq<Frame>)
    ensures c + Packing.BlockedFrames([]) == c
  {}

  lemma {:induction false} BlockedAreControls(p: Packing.Packer, ids: seq<nat>)
    requires Packing.Valid(p)
    ensures Packing.Valid(p.(controls := p.controls + Packing.BlockedFrames(ids)))
    decreases |ids|
  {
    if ids == [] {
      NoneBlocked(p.controls);
    } else {
      QueueOne(p.controls, ids);
      BlockedAreControls(p.(controls := p.controls + [Blocked(ids[0])]), ids[1..]);
    }
  }

  lemma {:induction false} LastIsNamed(frames: map<nat, StreamFrame>, fs: seq<StreamFrame>)
    requires Named(frames, fs) && fs != []
    ensures Named(frames, [fs[|fs| - 1]]) && fs[|fs| - 1] in frames.Values
    ensures Refs(fs)[|fs| - 1] == fs[|fs| - 1].ref
  {
    assert frames[fs[|fs| - 1].ref] == fs[|fs| - 1];
  }
}
