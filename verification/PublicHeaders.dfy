/** The public header: mpquic_trans/internal/wire/public_header.go. */
module PublicHeaders {
  import opened Bytes
  import opened PacketNumbers

  /** Versions are four-byte tags; `nonce` is the diversification nonce.  The versions that a server
      supports follow the header of a version negotiation packet and are not written with it. */
  datatype PublicHeader = PublicHeader(
    connectionID: nat, pathID: nat, versionFlag: bool, resetFlag: bool, truncateConnectionID: bool, multipathFlag: bool,
    numberLength: nat, number: nat, version: nat, nonce: seq<byte>, supported: seq<nat>)

  predicate HasPacketNumber(h: PublicHeader, byServer: bool) { !h.resetFlag && !(h.versionFlag && byServer) }

  function Bit(b: bool): nat { if b then 1 else 0 }

  /** The length of the packet number in two bits. */
  function LengthBits(h: PublicHeader, byServer: bool): (n: nat)
    ensures n < 4
  {
    if HasPacketNumber(h, byServer) && h.numberLength in {2, 4, 6} then h.numberLength / 2 else 0
  }

  function Flags(h: PublicHeader, byServer: bool): byte {
    Bit(h.versionFlag) + Bit(h.resetFlag) * 2 + Bit(h.nonce != []) * 4 + Bit(!h.truncateConnectionID) * 8
    + LengthBits(h, byServer) * 0x10 + Bit(h.multipathFlag) * 0x40
  }

  function Write(h: PublicHeader, byServer: bool, order: ByteOrder): (r: Result<seq<byte>>) {
    if h.versionFlag && h.resetFlag then Err("Reset Flag and Version Flag should not be set at the same time")
    else if h.nonce != [] && |h.nonce| != 32 then Err("invalid diversification nonce length")
    else
      var start := [Flags(h, byServer)]
        + (if h.truncateConnectionID then [] else Encode(h.connectionID, 8, LittleEndian))
        + (if h.versionFlag && !byServer then Encode(h.version, 4, LittleEndian) else [])
        + h.nonce
        + (if h.multipathFlag then Encode(h.pathID, 1, order) else []);
      if !HasPacketNumber(h, byServer) then Ok(start)
      else if h.numberLength !in {1, 2, 4, 6} then Err("PacketNumberLen not set")
      else Ok(start + Encode(h.number, h.numberLength, order))
  }

  function GetLength(h: PublicHeader, byServer: bool): (r: Result<nat>) {
    if h.versionFlag && h.resetFlag then Err("Reset Flag and Version Flag should not be set at the same time")
    else if h.versionFlag && byServer then Err("GetLength cannot be called for VersionNegotiation packets")
    else if HasPacketNumber(h, byServer) && h.numberLength !in {1, 2, 4, 6} then Err("PacketNumberLen not set")
    else
      var n: nat := 1 + (if HasPacketNumber(h, byServer) then h.numberLength else 0)
          + (if h.truncateConnectionID then 0 else 8)
        + (if h.versionFlag then 4 else 0) + |h.nonce| + (if h.multipathFlag then 1 else 0);
      Ok(n)
  }

  /** The length is computed without error exactly when the header can be written and is no version
      negotiation, and it is the number of bytes written; given a nonce of a legal length. */
  lemma {:induction false} LengthIsExact(h: PublicHeader, byServer: bool, order: ByteOrder)
    requires |h.nonce| in {0, 32}
    ensures GetLength(h, byServer).Ok? <==> Write(h, byServer, order).Ok? && !(h.versionFlag && byServer)
    ensures GetLength(h, byServer).Ok? ==> |Write(h, byServer, order).value| == GetLength(h, byServer).value
  {
    hide Encode, Flags;
  }

  datatype Start = Start(connectionID: nat, nonce: seq<byte>, version: nat)

  /** What comes before the path. */
  function ParseStart(flags: nat, s1: seq<byte>, byServer: bool): (r: Result<(Start, seq<byte>)>) {
    var reset, version, truncate := flags / 2 % 2 == 1, flags % 2 == 1, flags / 8 % 2 == 0;
    if truncate && !byServer then Err("receiving packets with truncated ConnectionID is not supported")
    else
      var (id, s2) :- if truncate then Ok((0, s1)) else Read(s1, 8, LittleEndian);
      if !truncate && id == 0 then Err("connection ID cannot be 0")
      else
        var hasNonce := byServer && flags / 4 % 2 == 1 && !version && !reset;
        if hasNonce && |s2| < 32 then Err("EOF")
        else
          var nonce, s3 := if hasNonce then s2[..32] else [], if hasNonce then s2[32..] else s2;
          var (tag, s4) :- if version && !reset && !byServer then Read(s3, 4, LittleEndian) else Ok((0, s3));
          Ok((Start(id, nonce, tag), s4))
  }

  datatype End = End(pathID: nat, numberLength: nat, number: nat)

  /** Path and packet number. */
  function ParseEnd(flags: nat, s4: seq<byte>, byServer: bool, order: ByteOrder): (r: Result<(End, seq<byte>)>) {
    var (path, s5) :- if flags / 0x40 % 2 == 1 then Read(s4, 1, order) else Ok((0, s4));
    var bits := flags / 0x10 % 4;
    var length := if bits == 0 then 1 else 2 * bits;
    if flags / 2 % 2 == 1 || (flags % 2 == 1 && byServer) then Ok((End(path, 0, 0), s5))
    else
      var (number, rest) :- Read(s5, length, order);
      Ok((End(path, length, number), rest))
  }

  function ParseVersions(s: seq<byte>): (r: Result<seq<nat>>) {
    if s == [] then Ok([])
    else
      var (tag, rest) :- Read(s, 4, LittleEndian);
      var tags :- ParseVersions(rest);
      Ok([tag] + tags)
  }

  /** Parses the header of a packet from the given side.  The rest of a version negotiation packet is its
      list of versions. */
  function Parse(s: seq<byte>, byServer: bool, order: ByteOrder): (r: Result<(PublicHeader, seq<byte>)>) {
    var (flags, s1) :- Read(s, 1, order);
    var (a, s4) :- ParseStart(flags, s1, byServer);
    var reset, version, truncate, multipath := flags / 2 % 2 == 1, flags % 2 == 1, flags / 8 % 2 == 0, flags / 0x40 % 2
        == 1;
    if version && !reset && byServer then
      var tags :- ParseVersions(s4);
      Ok((PublicHeader(a.connectionID, 0, version, reset, truncate, multipath, 0, 0, a.version, a.nonce, tags), []))
    else
      var (b, rest) :- ParseEnd(flags, s4, byServer, order);
      Ok((PublicHeader(a.connectionID, b.pathID, version, reset, truncate, multipath,
                       b.numberLength, b.number, a.version, a.nonce, []), rest))
  }

  // ----- reading back -----

  /** What all headers have in common. */
  ghost predicate InRange(h: PublicHeader, byServer: bool) {
    && h.pathID < 256 && (!h.multipathFlag ==> h.pathID == 0)
    && (if h.truncateConnectionID then byServer && h.connectionID == 0
        else 0 < h.connectionID < 0x1_0000_0000_0000_0000)
    && (if h.versionFlag && !byServer then h.version < 0x1_0000_0000 else h.version == 0)
    && (h.nonce != [] ==> byServer && |h.nonce| == 32 && !h.resetFlag && !h.versionFlag)
  }

  /** Headers of regular packets and of resets, which have no packet number. */
  ghost predicate Regular(h: PublicHeader, byServer: bool) {
    && InRange(h, byServer) && h.supported == [] && !(h.versionFlag && (h.resetFlag || byServer))
    && if h.resetFlag then h.numberLength == h.number == 0 else h.numberLength in {1, 2, 4, 6}
  }

  lemma {:induction false} ModStep(v: nat, p: nat)
    requires p > 0
    ensures v % (256 * p) == 256 * (v / 256 % p) + v % 256
  {
    var a, b := v / 256, v % 256;
    var q := Divide(a, p);
    var r := a % p;
    assert v == q * (256 * p) + (256 * r + b) by { Regroup(q, p, r, b); }
    Unique(v, 256 * p, q, 256 * r + b);
  }

  lemma {:induction false} Regroup(q: nat, p: nat, r: nat, b: nat)
    ensures 256 * (q * p + r) + b == q * (256 * p) + (256 * r + b)
  {}

  lemma {:induction false} Unique(v: nat, d: nat, q: nat, r: nat)
    requires v == q * d + r && r < d
    ensures v % d == r
  {
    var p := Divide(v, d);
    Product(q, p, d);
    assert (q as int) - p >= 1 ==> ((q as int) - p - 1) * d >= 0;
    assert (p as int) - q >= 1 ==> ((p as int) - q - 1) * d >= 0;
  }

  /** What is written of a number is its remainder. */
  lemma {:induction false} DecodeTruncated(v: nat, n: nat, order: ByteOrder)
    ensures Decode(Encode(v, n, order), order) == v % Pow256(n)
    decreases n
  {
    if n > 0 {
      DecodeTruncated(v / 256, n - 1, order);
      ModStep(v, Pow256(n - 1));
      var s := Encode(v, n, order);
      match order
      case LittleEndian => assert s[1..] == Encode(v / 256, n - 1, order);
      case BigEndian => assert s[..n - 1] == Encode(v / 256, n - 1, order);
    }
  }

  lemma {:induction false} ReadTruncated(v: nat, n: nat, order: ByteOrder, rest: seq<byte>)
    ensures Read(Encode(v, n, order) + rest, n, order) == Ok((v % Pow256(n), rest))
  {
    var s := Encode(v, n, order) + rest;
    assert s[..n] == Encode(v, n, order) && s[n..] == rest;
    DecodeTruncated(v, n, order);
  }

  lemma {:induction false} FlagBits(version: nat, reset: nat, nonce: nat, full: nat, length: nat, multipath: nat)
    requires version < 2 && reset < 2 && nonce < 2 && full < 2 && length < 4 && multipath < 2
    ensures var f := version + reset * 2 + nonce * 4 + full * 8 + length * 0x10 + multipath * 0x40;
            && f % 2 == version && f / 2 % 2 == reset && f / 4 % 2 == nonce && f / 8 % 2 == full
            && f / 0x10 % 4 == length && f / 0x40 % 2 == multipath
  {
    var f := version + reset * 2 + nonce * 4 + full * 8 + length * 0x10 + multipath * 0x40;
    var g := length + multipath * 4;
    assert f == 0x10 * g + (version + reset * 2 + nonce * 4 + full * 8);
    assert f / 0x10 == g;
    assert f == 8 * (full + g * 2) + (version + reset * 2 + nonce * 4);
    assert f / 8 == full + g * 2;
    assert f / 4 == nonce + full * 2 + g * 4;
    assert f / 2 == reset + nonce * 2 + full * 4 + g * 8;
    assert f / 0x40 == multipath;
  }

  lemma {:induction false} FlagsMean(h: PublicHeader, byServer: bool)
    ensures var f := Flags(h, byServer);
            && (f % 2 == 1 <==> h.versionFlag) && (f / 2 % 2 == 1 <==> h.resetFlag)
                && (f / 4 % 2 == 1 <==> h.nonce != [])
            && (f / 8 % 2 == 0 <==> h.truncateConnectionID) && (f / 0x40 % 2 == 1 <==> h.multipathFlag)
            && (HasPacketNumber(h, byServer) && h.numberLength in {1, 2, 4, 6} ==>
                  (if f / 0x10 % 4 == 0 then 1 else 2 * (f / 0x10 % 4)) == h.numberLength)
  {
    FlagBits(Bit(h.versionFlag), Bit(h.resetFlag), Bit(h.nonce != []), Bit(!h.truncateConnectionID),
             LengthBits(h, byServer), Bit(h.multipathFlag));
  }

  lemma {:induction false} StartReadsBack(h: PublicHeader, byServer: bool, s4: seq<byte>)
    requires InRange(h, byServer) && !(h.versionFlag && h.resetFlag)
    ensures var id := if h.truncateConnectionID then [] else Encode(h.connectionID, 8, LittleEndian);
            var middle := if h.versionFlag && !byServer then Encode(h.version, 4, LittleEndian) else h.nonce;
            ParseStart(Flags(h, byServer), id + (middle + s4), byServer)
                == Ok((Start(h.connectionID, h.nonce, h.version), s4))
  {
    hide Encode, Read, Flags;
    FlagsMean(h, byServer);
    Powers();
    var tagged := h.versionFlag && !byServer;
    var s2 := (if tagged then Encode(h.version, 4, LittleEndian) else h.nonce) + s4;
    assert [] + s2 == s2;
    ReadEncoded(h.connectionID, 8, LittleEndian, s2);
    ReadEncoded(h.version, 4, LittleEndian, s4);
    assert !tagged && h.nonce == [] ==> s2 == s4;
    assert !tagged && h.nonce != [] ==> s2[..32] == h.nonce && s2[32..] == s4;
  }

  lemma {:induction false} EndReadsBack(h: PublicHeader, byServer: bool, order: ByteOrder, rest: seq<byte>)
    requires Regular(h, byServer)
    ensures var path := if h.multipathFlag then Encode(h.pathID, 1, order) else [];
            ParseEnd(Flags(h, byServer), path + (Encode(h.number, h.numberLength, order) + rest), byServer, order) ==
            Ok((End(h.pathID, h.numberLength, h.number % Pow256(h.numberLength)), rest))
  {
    hide Encode, Read, Flags;
    FlagsMean(h, byServer);
    Powers();
    var s5 := Encode(h.number, h.numberLength, order) + rest;
    assert [] + s5 == s5;
    ReadEncoded(h.pathID, 1, order, s5);
    ReadTruncated(h.number, h.numberLength, order, rest);
    assert h.resetFlag ==> s5 == rest;
  }

  // ----- version negotiation -----

  function VersionBytes(tags: seq<nat>): (s: seq<byte>)
    ensures |s| == 4 * |tags|
  {
    if tags == [] then [] else Encode(tags[0], 4, LittleEndian) + VersionBytes(tags[1..])
  }

  lemma {:induction false} VersionsReadBack(tags: seq<nat>)
    requires forall i :: 0 <= i < |tags| ==> tags[i] < 0x1_0000_0000
    ensures ParseVersions(VersionBytes(tags)) == Ok(tags)
  {
    hide Encode, Read;
    Powers();
    if tags != [] {
      ReadEncoded(tags[0], 4, LittleEndian, VersionBytes(tags[1..]));
      VersionsReadBack(tags[1..]);
      assert [tags[0]] + tags[1..] == tags;
    }
  }

  lemma {:induction false} OddVersions(s: seq<byte>, k: nat, r: nat)
    requires |s| == 4 * k + r && 0 < r < 4
    ensures ParseVersions(s).Err?
    decreases k
  {
    hide Decode;
    if k > 0 { OddVersions(s[4..], k - 1, r); }
  }

  /** The header of a version negotiation packet with its list reads back if and only if it does not name
      a path, which the parser takes for part of the list. */
  lemma {:induction false} NegotiationReadsBackIff(h: PublicHeader, order: ByteOrder)
    requires InRange(h, true) && h.versionFlag && !h.resetFlag && h.numberLength == h.number == 0
    requires forall i :: 0 <= i < |h.supported| ==> h.supported[i] < 0x1_0000_0000
    ensures Write(h, true, order).Ok?
    ensures var r := Parse(Write(h, true, order).value + VersionBytes(h.supported), true, order);
            && (r == Ok((h, [])) <==> !h.multipathFlag)
            && (h.multipathFlag ==> r.Err?)
  {
    hide Encode, Read, Flags, ParseStart, ParseEnd;
    var f := Flags(h, true);
    FlagsMean(h, true);
    var id := if h.truncateConnectionID then [] else Encode(h.connectionID, 8, LittleEndian);
    var path := if h.multipathFlag then Encode(h.pathID, 1, order) else [];
    var s4 := path + VersionBytes(h.supported);
    var w := Write(h, true, order).value;
    assert w == [f] + id + [] + h.nonce + path;
    assert w + VersionBytes(h.supported) == [f] + (id + (h.nonce + s4));
    OneByte(f, order);
    Powers();
    ReadEncoded(f, 1, order, id + (h.nonce + s4));
    StartReadsBack(h, true, s4);
    VersionsReadBack(h.supported);
    if h.multipathFlag { OddVersions(s4, |h.supported|, 1); }
    assert !h.multipathFlag ==> s4 == VersionBytes(h.supported);
  }

  // ----- all other packets -----

  /** A regular header reads back as it was written, with as much of the packet number as was sent. */
  lemma {:induction false} RoundTrip(h: PublicHeader, byServer: bool, order: ByteOrder, rest: seq<byte>)
    requires Regular(h, byServer)
    ensures Write(h, byServer, order).Ok?
    ensures Parse(Write(h, byServer, order).value + rest, byServer, order)
            == Ok((h.(number := h.number % Pow256(h.numberLength)), rest))
  {
    hide Encode, Read, Flags, ParseStart, ParseEnd, Write;
    var f := Flags(h, byServer);
    FlagsMean(h, byServer);
    var s4 := (if h.multipathFlag then Encode(h.pathID, 1, order) else [])
        + (Encode(h.number, h.numberLength, order) + rest);
    var s2 := (if h.versionFlag then Encode(h.version, 4, LittleEndian) else h.nonce) + s4;
    var s1 := (if h.truncateConnectionID then [] else Encode(h.connectionID, 8, LittleEndian)) + s2;
    WrittenAs(h, byServer, order, rest);
    OneByte(f, order);
    Powers();
    ReadEncoded(f, 1, order, s1);
    StartReadsBack(h, byServer, s4);
    EndReadsBack(h, byServer, order, rest);
  }

  /** The written header, grouped as it is read. */
  lemma {:induction false} WrittenAs(h: PublicHeader, byServer: bool, order: ByteOrder, rest: seq<byte>)
    requires Regular(h, byServer)
    ensures Write(h, byServer, order).Ok?
    ensures var s4 := (if h.multipathFlag then Encode(h.pathID, 1, order) else [])
            + (Encode(h.number, h.numberLength, order) + rest);
            var s2 := (if h.versionFlag then Encode(h.version, 4, LittleEndian) else h.nonce) + s4;
            var s1 := (if h.truncateConnectionID then [] else Encode(h.connectionID, 8, LittleEndian)) + s2;
            Write(h, byServer, order).value + rest == [Flags(h, byServer)] + s1
  {
    hide Encode, Flags;
    var id := if h.truncateConnectionID then [] else Encode(h.connectionID, 8, LittleEndian);
    var version := if h.versionFlag then Encode(h.version, 4, LittleEndian) else [];
    var path := if h.multipathFlag then Encode(h.pathID, 1, order) else [];
    Grouped([Flags(h, byServer)], id, version, h.nonce, path, Encode(h.number, h.numberLength, order), rest);
    assert version + h.nonce == if h.versionFlag then Encode(h.version, 4, LittleEndian) else h.nonce;
  }

  lemma {:induction false} Grouped<T>(f: seq<T>, a: seq<T>, b: seq<T>, c: seq<T>, d: seq<T>, e: seq<T>, r: seq<T>)
    ensures f + a + b + c + d + e + r == f + (a + ((b + c) + (d + (e + r))))
  {}

  lemma {:induction false} OneByte(b: byte, order: ByteOrder)
    ensures Encode(b, 1, order) == [b]
  {
    assert Encode(b / 256, 0, order) == [];
  }

  /** From end to end: the receiver recovers the packet number of a packet whose number length the packer
      chose, as long as it is less than half an epoch ahead. */
  lemma {:induction false} NumberArrives(h: PublicHeader, byServer: bool, order: ByteOrder, rest: seq<byte>,
                                         leastUnacked: nat, last: nat)
    requires Regular(h, byServer) && h.numberLength == LengthForPublicHeader(h.number, leastUnacked)
    requires h.number < 0x8000_0000_0000_0000 && last < 0x8000_0000_0000_0000
    requires leastUnacked <= last + 1 && (h.number as int) - leastUnacked < 0x8000_0000_0000
    requires (last + 1 - h.number) * 2 < Epoch(h.numberLength)
    ensures Write(h, byServer, order).Ok?
    ensures var sent := h.number % Pow256(h.numberLength);
            && Parse(Write(h, byServer, order).value + rest, byServer, order) == Ok((h.(number := sent), rest))
            && InferPacketNumber(h.numberLength, last, sent) == h.number
  {
    hide Write, Parse, Infer, LengthForPublicHeader, Pow256;
    RoundTrip(h, byServer, order, rest);
    Powers();
    NumberIsRecovered(h.number, leastUnacked, last);
  }
}
