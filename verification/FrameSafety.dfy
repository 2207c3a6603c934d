/** What no payload can get past the parser, well formed or not: mpquic_trans/packet_unpacker.go and
    mpquic_trans/internal/wire. */
module FrameSafety {
  import opened Bytes
  import opened AckFrames
  import AckCodec
  import AckRoundTrip
  import Float16
  import StreamFrames
  import opened Frames
  import PublicHeaders

  /** Stream data other than the handshake's comes encrypted, with data or a FIN, and ends below 2^64; an ACK
      is in order; a STOP_WAITING names a packet up to its own; and a PATHS frame has the paths it says,
      no more than its maximum. */
  ghost predicate IsSane(f: Frame, p: Packet) {
    match f
    case Stream(s) =>
      && (s.id == 1 || p.encrypted) && (s.data != [] || s.fin) && s.offset + |s.data| < StreamFrames.UINT64
      && (s.dataLenPresent ==> |s.data| <= StreamFrames.MAX_PACKET_SIZE)
    case Ack(a) => Validated(a) && a.lowestAcked <= a.largestAcked
    case StopWaiting(least) => 1 <= least <= p.number
    case Paths(most, n, ids, rtts) => |ids| == |rtts| == n <= most
    case AddAddress(v, ip, _) => (v == 4 && |ip| == 4) || (v == 6 && |ip| == 16)
    case Goaway(_, _, reason) => |reason| <= StreamFrames.MAX_PACKET_SIZE
    case _ => true
  }

  lemma {:induction false} PathsAreCounted(s: seq<byte>, n: nat, order: ByteOrder)
    requires ParsePaths(s, n, order).Ok?
    ensures var (ids, rtts, rest) := ParsePaths(s, n, order).value; |ids| == |rtts| == n
    decreases n
  {
    hide Read, Float16.ReadUfloat16;
    if n > 0 { PathsAreCounted(Read(Read(s, 1, order).value.1, 2, order).value.1, n - 1, order); }
  }

  lemma {:induction false} ControlIsSane(t: byte, s: seq<byte>, p: Packet)
    requires ParseControl(t, s, p).Ok?
    ensures IsSane(ParseControl(t, s, p).value.0, p)
  {
    hide Decode, ParsePaths;
    if t == 0x12 {
      var s1 := Read(s, 1, p.order).value.1;
      var (n, s2) := Read(s1, 1, p.order).value;
      PathsAreCounted(s2, n, p.order);
    }
  }

  lemma {:induction false} FrameIsSane(s: seq<byte>, p: Packet)
    requires s != [] && ParseFrame(s, p).Ok?
    ensures IsSane(ParseFrame(s, p).value.0, p)
  {
    hide ParseControl, AckCodec.ParseAck, Decode;
    if s[0] / 0x80 != 1 {
      if s[0] / 0x40 == 1 {
        AckRoundTrip.ParsedIsOrdered(s, p.order);
      } else {
        ControlIsSane(s[0], s[1..], p);
      }
    }
  }

  /** Every frame of every payload that is accepted. */
  lemma {:induction false} PayloadIsSane(s: seq<byte>, p: Packet)
    requires ParseAll(s, p).Ok?
    ensures forall i :: 0 <= i < |ParseAll(s, p).value| ==> IsSane(ParseAll(s, p).value[i], p)
    decreases |s|
  {
    hide ParseFrame, IsSane;
    if s != [] {
      if s[0] == 0 {
        PayloadIsSane(s[1..], p);
      } else {
        FrameIsSane(s, p);
        PayloadIsSane(ParseFrame(s, p).value.1, p);
      }
    }
  }

  /** Whatever the header, a packet names its connection unless the server sends it, and never connection 0;
      it has a packet number exactly if it is neither a reset nor a version negotiation. */
  lemma {:induction false} HeaderIsSane(s: seq<byte>, byServer: bool, order: ByteOrder)
    requires PublicHeaders.Parse(s, byServer, order).Ok?
    ensures var h := PublicHeaders.Parse(s, byServer, order).value.0;
            && (if h.truncateConnectionID then byServer && h.connectionID == 0 else h.connectionID != 0)
            && (h.nonce != [] ==> byServer && |h.nonce| == 32 && !h.versionFlag && !h.resetFlag)
            && (h.numberLength in {1, 2, 4, 6} <==> !h.resetFlag && !(h.versionFlag && byServer))
  {
    hide Read, PublicHeaders.ParseStart, PublicHeaders.ParseEnd, PublicHeaders.ParseVersions;
    var (flags, s1) := Read(s, 1, order).value;
    var (a, s4) := PublicHeaders.ParseStart(flags, s1, byServer).value;
    StartIsSane(flags, s1, byServer);
    if !(flags % 2 == 1 && flags / 2 % 2 == 0 && byServer) { EndIsSane(flags, s4, byServer, order); }
  }

  lemma {:induction false} StartIsSane(flags: nat, s: seq<byte>, byServer: bool)
    requires PublicHeaders.ParseStart(flags, s, byServer).Ok?
    ensures var a := PublicHeaders.ParseStart(flags, s, byServer).value.0;
            && (if flags / 8 % 2 == 0 then byServer && a.connectionID == 0 else a.connectionID != 0)
            && (a.nonce != [] ==> byServer && |a.nonce| == 32 && flags % 2 == 0 && flags / 2 % 2 == 0)
  {
    hide Read;
  }

  lemma {:induction false} EndIsSane(flags: nat, s: seq<byte>, byServer: bool, order: ByteOrder)
    requires PublicHeaders.ParseEnd(flags, s, byServer, order).Ok?
    ensures var b := PublicHeaders.ParseEnd(flags, s, byServer, order).value.0;
            b.numberLength in {1, 2, 4, 6} <==> flags / 2 % 2 == 0 && !(flags % 2 == 1 && byServer)
  {
    hide Read;
  }

  /** The timestamps behind an ACK are skipped: five bytes for the first, three for each other. */
  lemma {:induction false} TimestampsAreSkipped(n: byte, stamps: seq<byte>, rest: seq<byte>)
    requires |stamps| == if n == 0 then 0 else 5 + 3 * (n - 1)
    ensures AckCodec.SkipTimestamps([n] + stamps + rest) == Ok(rest)
  {
    assert ([n] + stamps + rest)[1 + |stamps|..] == rest;
  }
}
