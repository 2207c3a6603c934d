/** The size of whole packets: the room `PackPacket` leaves for frames, and the check in
    `writeAndSealPacket`, mpquic_trans/packet_packer.go. */
module PacketSize {
  import opened Bytes
  import StreamFrames
  import Frames
  import FrameRoundTrip
  import Framing
  import FramingSize
  import opened Packing
  import PublicHeaders

  /** What is left for frames; `overhead` is what sealing adds. */
  function Room(h: PublicHeaders.PublicHeader, byServer: bool, overhead: nat): (n: Result<nat>)
    ensures n.Ok? ==> n.value <= StreamFrames.MAX_PACKET_SIZE
  {
    var length :- PublicHeaders.GetLength(h, byServer);
    if overhead + length > StreamFrames.MAX_PACKET_SIZE then Err("no room")
    else
      var room: nat := StreamFrames.MAX_PACKET_SIZE - overhead - length;
      Ok(room)
  }

  /** Whenever composing succeeds, header, frames and overhead fit in a packet, so that the "packet too
      large" error of the packer cannot occur; unless the cut was unlucky, and then it does. */
  lemma {:induction false} PacketFits(p: Packer, f: Framing.Framer, pkt: Frames.Packet, h: PublicHeaders.PublicHeader,
                                      byServer: bool, overhead: nat,
                                      canSend: bool, order: seq<nat>)
    requires Ready(p, f, pkt) && Framing.Visits(f, order) && |h.nonce| in {0, 32} && Room(h, byServer, overhead).Ok?
    requires Compose(p, f, pkt, Room(h, byServer, overhead).value, canSend, order).Ok?
    ensures PublicHeaders.Write(h, byServer, pkt.order).Ok?
    ensures var max := Room(h, byServer, overhead).value;
            var c := Compose(p, f, pkt, max, canSend, order).value;
            && FrameRoundTrip.AllSendable(c.frames, pkt)
            && (|PublicHeaders.Write(h, byServer, pkt.order).value| + |FrameRoundTrip.WriteAll(c.frames, pkt)|
                + overhead <= StreamFrames.MAX_PACKET_SIZE
                <==> !(canSend && FramingSize.UnluckyCut(f.store, f.queue, RoomFor(p, pkt, max) + 2)))
  {
    hide Compose, FramingSize.UnluckyCut, Ready, PublicHeaders.Write, PublicHeaders.GetLength, FrameRoundTrip.WriteAll;
    PublicHeaders.LengthIsExact(h, byServer, pkt.order);
    PayloadFits(p, f, pkt, Room(h, byServer, overhead).value, canSend, order);
  }
}
