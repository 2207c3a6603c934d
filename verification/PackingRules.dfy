/** Which frames a packet must carry, and which stay behind: mpquic_trans/packet_packer.go and
    stream_framer.go. */
module PackingRules {
  import opened Bytes
  import opened Frames
  import opened FrameRoundTrip
  import opened Framing
  import FramingSize
  import opened Packing

  /** `taken` is what was in `queue` from place `k` on, the newest first. */
  ghost predicate FromTheEnd(queue: seq<Frame>, k: nat, taken: seq<Frame>) {
    k + |taken| == |queue| && forall i :: 0 <= i < |taken| ==> taken[i] == queue[|queue| - 1 - i]
  }

  /** The control frames that fit are taken one by one from the end of the queue, until one does not fit. */
  lemma {:induction false} ControlsAreTaken(controls: seq<Frame>, pkt: Packet, length: nat, max: nat)
    requires forall i :: 0 <= i < |controls| ==> IsControl(controls[i])
    requires TakeControls(controls, pkt, length, max).Ok?
    ensures var t := TakeControls(controls, pkt, length, max).value;
            && |t.left| <= |controls| && t.left == controls[..|t.left|] && length <= t.length
            && FromTheEnd(controls, |t.left|, t.frames)
            && (t.left != [] ==>
                  var n := MinLength(t.left[|t.left| - 1], pkt);
                  n.Ok? && t.length + n.value > max)
    decreases |controls|
  {
    hide MinLength;
    if controls != [] {
      var f := controls[|controls| - 1];
      assert IsControl(f);
      var n := MinLength(f, pkt).value;
      if length + n <= max {
        var init := controls[..|controls| - 1];
        ControlsAreTaken(init, pkt, length + n, max);
        var t, rest := TakeControls(controls, pkt, length, max).value, TakeControls(init, pkt, length + n, max).value;
        assert t.frames == [f] + rest.frames;
        forall i | 0 <= i < |t.frames| ensures t.frames[i] == controls[|controls| - 1 - i] {
          if i > 0 { assert t.frames[i] == rest.frames[i - 1] == init[|init| - i]; }
        }
      }
    }
  }

  /** Frames taken and frames left are, as a collection, the frames that were queued. */
  lemma {:induction false} NothingIsDropped(queue: seq<Frame>, k: nat, taken: seq<Frame>)
    requires k <= |queue| && FromTheEnd(queue, k, taken)
    ensures multiset(queue[..k]) + multiset(taken) == multiset(queue)
    decreases |taken|
  {
    if taken == [] {
      assert queue[..k] == queue;
    } else {
      var last := taken[|taken| - 1];
      assert last == queue[k];
      var rest := taken[..|taken| - 1];
      NothingIsDropped(queue, k + 1, rest);
      assert queue[..k + 1] == queue[..k] + [last];
      assert taken == rest + [last];
    }
  }

  ghost predicate AllBlocked(ids: seq<nat>, frames: seq<Frame>) {
    |frames| == |ids| && forall i :: 0 <= i < |ids| ==> frames[i] == Blocked(ids[i])
  }

  lemma {:induction false} BlockedAre(ids: seq<nat>)
    ensures AllBlocked(ids, BlockedFrames(ids))
  {
    if ids != [] { BlockedAre(ids[1..]); }
  }

  /** What the packet carries: first the STOP_WAITING and the ACK that are waiting, then control frames, the
      newest first, and then, if they may be sent, the stream frames that the framer gives for the room
      that is left.  A control frame that does not fit stays with all older ones, and the BLOCKED frames
      that have come up go behind them. */
  lemma {:induction false} PacketCarries(p: Packer, f: Framer, pkt: Packet, max: nat, canSend: bool, order: seq<nat>)
      returns (controls: seq<Frame>, left: seq<Frame>, streams: seq<Frame>, blocked: seq<Frame>)
    requires Packing.Valid(p) && Framing.Valid(f) && Visits(f, order)
    requires Compose(p, f, pkt, max, canSend, order).Ok?
    ensures var c := Compose(p, f, pkt, max, canSend, order).value;
            && c.frames == p.stopWaiting + p.ack + controls + streams && c.length <= max
            && c.packer == p.(controls := left + blocked)
            && left <= p.controls && FromTheEnd(p.controls, |left|, controls)
            && multiset(left) + multiset(controls) == multiset(p.controls)
            && (left != [] ==>
                  MinLength(left[|left| - 1], pkt).Ok? && c.length + MinLength(left[|left| - 1], pkt).value > max)
            && Known(c.framer.store, c.refs) && |streams| == |c.refs|
            && (forall i :: 0 <= i < |streams| ==> streams[i] == Stream(c.framer.store[c.refs[i]]))
            && (!canSend ==> streams == [] && blocked == [] && c.framer == f)
            && (canSend ==>
                  var o := PopStreamFrames(f, max - c.length + 2, order);
                  && c.refs == o.refs && AllBlocked(o.framer.sending.blocked, blocked)
                  && c.framer.sending == o.framer.sending.(blocked := []) && c.framer.queue == o.framer.queue)
  {
    hide TakeOthers, PopForPacket, PopStreamFrames, MinLength, FromTheEnd, BlockedFrames, AllBlocked, Framing.Valid,
         Packing.Valid, Visits;
    OthersAreTaken(p, pkt, max);
    var t := TakeOthers(p, pkt, max).value;
    controls, left, streams, blocked := t.frames[|p.stopWaiting + p.ack|..], t.left, [], [];
    var c := Compose(p, f, pkt, max, canSend, order).value;
    if canSend {
      StreamsArePopped(f, max - t.length, order);
      streams := StreamsOf(c.framer.store, c.refs);
      var ids := PopStreamFrames(f, max - t.length + 2, order).framer.sending.blocked;
      blocked := BlockedFrames(ids);
      BlockedAre(ids);
    }
  }

  lemma {:induction false} OthersAreTaken(p: Packer, pkt: Packet, max: nat)
    requires Packing.Valid(p) && TakeOthers(p, pkt, max).Ok?
    ensures var t := TakeOthers(p, pkt, max).value;
            && p.stopWaiting + p.ack <= t.frames && t.left <= p.controls && t.length <= max
            && var controls := t.frames[|p.stopWaiting + p.ack|..];
               && t.frames == p.stopWaiting + p.ack + controls && FromTheEnd(p.controls, |t.left|, controls)
               && multiset(t.left) + multiset(controls) == multiset(p.controls)
               && (t.left != [] ==>
                     var n := MinLength(t.left[|t.left| - 1], pkt);
                     n.Ok? && t.length + n.value > max)
  {
    hide HeadLength, MinLength, TakeControls, FromTheEnd;
    var a, b := HeadLength(p.stopWaiting, pkt).value, HeadLength(p.ack, pkt).value;
    ControlsAreTaken(p.controls, pkt, a + b, max);
    var t := TakeControls(p.controls, pkt, a + b, max).value;
    NothingIsDropped(p.controls, |t.left|, t.frames);
    assert (p.stopWaiting + p.ack + t.frames)[|p.stopWaiting + p.ack|..] == t.frames;
  }

  lemma {:induction false} StreamsArePopped(f: Framer, room: nat, order: seq<nat>)
    requires Framing.Valid(f) && Visits(f, order)
    ensures var o, c := PopStreamFrames(f, room + 2, order), PopForPacket(f, room, order);
            && c.refs == o.refs && c.framer.sending == o.framer.sending && c.framer.queue == o.framer.queue
            && Known(c.framer.store, c.refs)
  {
    hide PopStreamFrames, Framing.Valid, LastWithoutLength;
  }

  /** Composing fails only because STOP_WAITING and ACK alone are too long. */
  lemma {:induction false} ComposeFailsIff(p: Packer, f: Framer, pkt: Packet, max: nat, canSend: bool, order: seq<nat>)
    requires Ready(p, f, pkt) && Visits(f, order)
    ensures Compose(p, f, pkt, max, canSend, order).Err? <==> Lengths(p.stopWaiting, pkt) + Lengths(p.ack, pkt) > max
  {
    hide Good, Write, MinLength, HeadLength, Lengths, PopForPacket, TakeControls;
    HeadIsExact(p.stopWaiting, pkt);
    HeadIsExact(p.ack, pkt);
    var n := Lengths(p.stopWaiting, pkt) + Lengths(p.ack, pkt);
    TakenLength(p.controls, pkt, n, max);
    NoneTooLong(p.controls, pkt, n, max);
  }

  lemma {:induction false} NoneTooLong(controls: seq<Frame>, pkt: Packet, length: nat, max: nat)
    requires forall i :: 0 <= i < |controls| ==> IsControl(controls[i])
    requires TakeControls(controls, pkt, length, max).Ok?
    ensures TakeControls(controls, pkt, length, max).value.length > max <==> length > max
    decreases |controls|
  {
    hide MinLength;
    if controls != [] {
      var f := controls[|controls| - 1];
      assert IsControl(f);
      var n := MinLength(f, pkt).value;
      if length + n <= max { NoneTooLong(controls[..|controls| - 1], pkt, length + n, max); }
    }
  }

  /** The room is used: a frame stays queued, or a stream that was visited keeps data it is allowed to send,
      only if at most fifteen bytes are left. */
  lemma {:induction false} RoomIsUsed(f: Framer, maxLen: nat, order: seq<nat>, k: nat)
    requires Framing.Valid(f) && Visits(f, order) && k in order && k != 1
    ensures var p := PopRetransmissions(f.store, f.queue, maxLen, f.next);
            && p.length <= maxLen
            && var q := PopNormal(f.sending, order, maxLen - p.length);
               var o := PopStreamFrames(f, maxLen, order);
               && p.length + q.length <= maxLen
               && (o.framer.queue != [] ==> p.length + q.length + 15 >= maxLen)
               && (HasData(o.framer.sending.streams[k]) && WindowFor(o.framer.sending, k) > 0 ==>
                     p.length + q.length + 15 >= maxLen)
  {
    hide PopRetransmissions, PopNormal, PopStreamFrames, Cut, Whole, TotalCost, HeaderLength, HasData, WindowFor;
    FramingSize.PoppedFacts(f.store, f.queue, maxLen, f.next);
    QueueIsPopped(f.store, f.queue, maxLen, f.next);
    var p := PopRetransmissions(f.store, f.queue, maxLen, f.next);
    var next := if Cut(f.store, f.queue, maxLen) > 0 then f.next + 1 else f.next;
    var q := PopNormal(f.sending, order, maxLen - p.length);
    FramingSize.OutputParts(f, maxLen, order, p, next, q);
    NormalUsesRoom(f.sending, order, maxLen - p.length, k);
  }
}
