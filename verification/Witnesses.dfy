/** Runs that reach the exceptions: a frame object that is queued twice, a packet that is too large
    because of it, and one that cannot be read. */
module Witnesses {
  import opened Bytes
  import opened StreamFrames
  import opened Framing
  import FlowControl
  import FramingSize
  import Frames
  import FrameRoundTrip
  import Packing
  import PacketSize
  import PublicHeaders
  import S = SentPackets
  import opened Retransmission

  // ----- a run after which one frame object is queued twice -----

  const PARAMS: FlowControl.Parameters := FlowControl.Parameters(0, 0, 0, 0, 2000, 2000)
  const SILENT: Sending :=
    Sending(map[], FlowControl.Manager(PARAMS, FlowControl.NewController(PARAMS, 0, false), map[]), [])

  /** Stream 5 has data to send. */
  function Loaded(data: seq<byte>): Sending {
    var flow := SILENT.flow.(streams := map[5 := FlowControl.NewController(PARAMS, 5, true)]);
    Sending(map[5 := SendStream(0, data, false, false, false)], flow, [])
  }

  function Whole5(data: seq<byte>, withLength: bool): StreamFrame { StreamFrame(5, false, withLength, 0, data) }

  const PACKET: S.Packet := S.Packet(1, 1350, [S.Stream(0)])

  /** The packet with the whole frame is sent; it is duplicated, and the duplicate requeued; then the
      alarm goes off, and the packet itself is requeued. */
  const ACTIONS: seq<Action> := [
    Send(0, 1350, [5], 1, 1350, []), Duplicate(0, PACKET), Retransmit(0), Alarm(0, _ => false, false), Retransmit(0)]

  function Opened(data: seq<byte>): World {
    Start(SILENT).(framer := Framer(map[], [], 0, Loaded(data)), given := map[5 := data])
  }

  function Sent(data: seq<byte>): World
    requires 0 < |data| <= 1330
  {
    var after := PopNormal(Loaded(data), [5], 1350).state;
    var frame := Whole5(data, false);
    World(Framer(map[0 := frame], [], 1, after),
          map[0 := S.Initial.(lastSent := 1, bytesInFlight := 1350, history := [PACKET])],
          map[5 := data], map[5 := data], {}, map[(0, 1) := [frame]], {})
  }

  function Handler(history: seq<S.Packet>, queue: seq<S.Packet>): S.Sender {
    S.Initial.(lastSent := 1, history := history, queue := queue, bytesInFlight := if history == [] then 0 else 1350)
  }

  lemma {:induction false} FirstVisit(data: seq<byte>)
    requires 0 < |data| <= 1330
    ensures PopNormal(Loaded(data), [5], 1350).frames == [Whole5(data, true)]
  {
    var s := Loaded(data);
    assert IdLength(5) == 1 && OffsetLength(0) == 0;
    assert HeaderLength(StreamFrame(5, false, true, 0, [])) == 4;
    assert FlowControl.SendWindow(s.flow, 5) == 2000;
    assert DataForWriting(s.streams[5], 1346) == data;
    var v := VisitStream(s, 5, 1350);
    assert v.frame == [Whole5(data, true)];
    assert [5][1..] == [];
    assert PopNormal(v.state, [], 1350 - Cost(v.frame[0])).frames == [];
  }

  lemma {:induction false} NothingQueued(store: Store, maxLen: nat, next: nat)
    ensures PopRetransmissions(store, [], maxLen, next) == Popped(store, [], [], 0)
    ensures Cut(store, [], maxLen) == 0
  {
    var q: seq<nat> := [];
    assert Whole(store, q, maxLen) == 0;
    assert q[..0] == [] && q[0..] == [];
    assert Marked(store, []) == store;
  }

  lemma {:induction false} FirstOutput(data: seq<byte>)
    requires 0 < |data| <= 1330
    ensures var f := Framer(map[], [], 0, Loaded(data));
            && Added(f, 1350, [5]) == [Whole5(data, true)]
            && PopStreamFrames(f, 1350, [5]) ==
               Output(Framer(map[0 := Whole5(data, true)], [], 1, PopNormal(Loaded(data), [5], 1350).state), [0])
  {
    hide PopNormal, PopRetransmissions, Cut;
    NothingQueued(map[], 1350, 0);
    FirstVisit(data);
    assert [Whole5(data, true)][..0] == [];
    assert Stored(map[], 0, [Whole5(data, true)]) == map[0 := Whole5(data, true)];
    assert Numbers(0, 1) == [0];
  }

  lemma {:induction false} FirstSent()
    ensures S.AfterSentPacket(S.Initial, S.Packet(1, 1350, [] + StreamsIn([0]))) == (Handler([PACKET], []), S.Sent)
  {
    assert [] + StreamsIn([0]) == [S.Stream(0)];
    assert [S.Stream(0)][..0] == [];
    assert S.Strip([S.Stream(0)]) == [S.Stream(0)];
    assert S.Skip([], 1, 1) == [];
    assert S.Initial.history + [PACKET] == [PACKET];
  }

  lemma {:induction false} FirstValues(data: seq<byte>)
    ensures LastWithoutLength(map[0 := Whole5(data, true)], [0]) == map[0 := Whole5(data, false)]
    ensures ValuesOf(map[0 := Whole5(data, false)], [0]) == [Whole5(data, false)]
    ensures Retransmission.Write(map[], [Whole5(data, true)]) == map[5 := data]
    ensures EndsOf([Whole5(data, true)]) == {}
  {
    assert [Whole5(data, true)][..0] == [];
    assert Retransmission.Write(map[], []) == map[];
    assert Get(map[], 5) + data == data;
  }

  lemma {:induction false} SendStep(data: seq<byte>)
    requires 0 < |data| <= 1330
    ensures Next(Opened(data), ACTIONS[0], Sent(data))
  {
    hide PopNormal, PopStreamFrames, Added, Loaded, S.AfterSentPacket, LastWithoutLength, ValuesOf, EndsOf,
        Retransmission.Write,
         StreamsIn;
    var w := Opened(data);
    LoadedIs(data);
    FirstOutput(data);
    FirstSent();
    FirstValues(data);
  }

  lemma {:induction false} LoadedIs(data: seq<byte>)
    ensures Loaded(data).streams == map[5 := SendStream(0, data, false, false, false)]
  {}

  /** The states of the run. */
  function States(data: seq<byte>): (r: seq<World>)
    requires 0 < |data| <= 1330
    ensures |r| == 7
  {
    var w := Sent(data);
    var once, twice := w.framer.(queue := [0]), w.framer.(queue := [0, 0]);
    [ Start(SILENT),
      Opened(data),
      w,
      w.(paths := map[0 := Handler([PACKET], [PACKET])]),
      w.(paths := map[0 := Handler([PACKET], [])], framer := once),
      w.(paths := map[0 := Handler([], [PACKET]).(tlpCount := 1, nextLeastUnacked := 2)], framer := once),
      w.(paths := map[0 := Handler([], []).(tlpCount := 1, nextLeastUnacked := 2)], framer := twice) ]
  }

  lemma {:induction false} RefsOfPacket()
    ensures RefsIn(PACKET.frames) == [0]
  {
    assert PACKET.frames[..0] == [];
  }

  lemma {:induction false} DequeueStep(w: World, s: S.Sender, w': World)
    requires w.paths == map[0 := s] && s.queue == [PACKET]
    requires w' == w.(paths := map[0 := s.(queue := [])], framer := w.framer.(queue := w.framer.queue + [0]))
    ensures Next(w, Retransmit(0), w')
  {
    hide RefsIn;
    RefsOfPacket();
    assert [PACKET][1..] == [];
  }

  lemma {:induction false} AlarmStep(late: nat -> bool)
    ensures S.AfterAlarm(Handler([PACKET], []), late, false)
            == Handler([], [PACKET]).(tlpCount := 1, nextLeastUnacked := 2)
  {
    var s := Handler([PACKET], []);
    assert s.history[0].frames[0].Stream?;
    assert [PACKET][..0] == [];
    assert S.Only([], {1}) == [] && S.Without([], {1}) == [];
    assert S.Only([PACKET], {1}) == [PACKET] && S.Without([PACKET], {1}) == [];
    assert S.Sum([]) == 0 && S.Sum([PACKET]) == 1350;
    assert S.Highest([]) == 0 && S.Highest([PACKET]) == 1;
    assert [] + [PACKET] == [PACKET];
  }

  /** Both inputs below are reached: a frame of any length that was duplicated and lost is queued twice. */
  lemma {:induction false} QueuedTwice(data: seq<byte>)
    requires 0 < |data| <= 1330
    ensures IsRun(SILENT, States(data), [Application(Loaded(data))] + ACTIONS)
    ensures var f := States(data)[6].framer;
            f.store == map[0 := Whole5(data, false)] && f.queue == [0, 0] && f.next == 1
  {
    hide Next, Sent, Loaded;
    SentIs(data);
    var states, actions := States(data), [Application(Loaded(data))] + ACTIONS;
    LoadStep(data);
    SendStep(data);
    DuplicateStep(states[2], states[3]);
    assert [] + [0] == [0] && [0] + [0] == [0, 0];
    DequeueStep(states[3], Handler([PACKET], [PACKET]), states[4]);
    LostStep(states[4], actions[4].late, states[5]);
    DequeueStep(states[5], states[5].paths[0], states[6]);
  }

  lemma {:induction false} LoadStep(data: seq<byte>)
    ensures Next(Start(SILENT), Application(Loaded(data)), Opened(data))
  {
    hide Loaded;
    LoadedIs(data);
  }

  lemma {:induction false} DuplicateStep(w: World, w': World)
    requires w.paths == map[0 := Handler([PACKET], [])] && w' == w.(paths := map[0 := Handler([PACKET], [PACKET])])
    ensures Next(w, Duplicate(0, PACKET), w')
  {
    assert [] + [PACKET] == [PACKET];
  }

  lemma {:induction false} LostStep(w: World, late: nat -> bool, w': World)
    requires w.paths == map[0 := Handler([PACKET], [])]
    requires w' == w.(paths := map[0 := Handler([], [PACKET]).(tlpCount := 1, nextLeastUnacked := 2)])
    ensures Next(w, Alarm(0, late, false), w')
  {
    hide S.AfterAlarm;
    AlarmStep(late);
  }

  lemma {:induction false} SentIs(data: seq<byte>)
    requires 0 < |data| <= 1330
    ensures var w := Sent(data);
            && w.paths == map[0 := Handler([PACKET], [])] && w.framer.store == map[0 := Whole5(data, false)]
            && w.framer.queue == [] && w.framer.next == 1
  {
    hide PopNormal;
  }

  // ----- a packet that is too large -----

  function Twice(data: seq<byte>): Store { map[0 := Whole5(data, false)] }

  lemma {:induction false} CostIs(data: seq<byte>)
    ensures HeaderLength(Whole5(data, false)) == 4 && Cost(Whole5(data, false)) == 4 + |data|
    ensures TotalCost(Twice(data), []) == 0 && TotalCost(Twice(data), [0]) == 4 + |data|
    ensures TotalCost(Twice(data), [0, 0]) == 8 + 2 * |data|
  {
    assert IdLength(5) == 1 && OffsetLength(0) == 0;
    var q: seq<nat> := [0];
    assert q[..0] == [];
    var r: seq<nat> := [0, 0];
    assert r[..1] == [0];
  }

  /** There is room for the whole frame, a second header, and one byte. */
  lemma {:induction false} OneByteIsCut(data: seq<byte>)
    requires |data| >= 2
    ensures FramingSize.UnluckyCut(Twice(data), [0, 0], |data| + 9)
  {
    hide HeaderLength, Cost, TotalCost;
    var s, q: seq<nat>, n := Twice(data), [0, 0], |data| + 9;
    CostIs(data);
    assert q[..0] == [] && q[..1] == [0];
    assert Fit(s, q, n, 1) == 1;
    assert Fit(s, q, n, 0) == 1;
  }

  const HEADER: PublicHeaders.PublicHeader :=
    PublicHeaders.PublicHeader(1, 0, false, false, false, false, 2, 2, 0, [], [])

  const SECOND: Frames.Packet := Frames.Packet(2, 2, LittleEndian, true)

  const EMPTY: Packing.Packer := Packing.Packer([], [], [])

  lemma {:induction false} IsReady(data: seq<byte>)
    requires 0 < |data| <= 1330
    ensures var f := States(data)[6].framer; Packing.Ready(EMPTY, f, SECOND) && Visits(f, [5])
  {
    hide Loaded, IsRun;
    LoadedIs(data);
    SentStream(data);
    QueuedTwice(data);
  }

  lemma {:induction false} SentStream(data: seq<byte>)
    requires 0 < |data| <= 1330
    ensures Sent(data).framer.sending.streams == map[5 := SendStream(|data|, [], false, false, false)]
  {
    var s := Loaded(data);
    assert IdLength(5) == 1 && OffsetLength(0) == 0;
    assert HeaderLength(StreamFrame(5, false, true, 0, [])) == 4;
    assert FlowControl.SendWindow(s.flow, 5) == 2000;
    assert DataForWriting(s.streams[5], 1346) == data;
    assert data[|data|..] == [];
    var v := VisitStream(s, 5, 1350);
    assert [5][1..] == [];
    assert PopNormal(v.state, [], 1350 - Cost(v.frame[0])).state == v.state;
  }

  const MANY: seq<byte> := seq(1320, _ => 7)

  /** With a header of 11 bytes and an overhead of 12 the packet does not fit the maximum size. */
  lemma {:induction false} PacketTooLarge()
    ensures IsRun(SILENT, States(MANY), [Application(Loaded(MANY))] + ACTIONS)
    ensures var f := States(MANY)[6].framer;
            && Packing.Ready(EMPTY, f, SECOND) && Visits(f, [5]) && PacketSize.Room(HEADER, false, 12) == Ok(1327)
            && var c := Packing.Compose(EMPTY, f, SECOND, 1327, true, [5]);
               && c.Ok? && FrameRoundTrip.AllSendable(c.value.frames, SECOND)
               && PublicHeaders.Write(HEADER, false, LittleEndian).Ok?
               && |PublicHeaders.Write(HEADER, false, LittleEndian).value|
                   + |FrameRoundTrip.WriteAll(c.value.frames, SECOND)| + 12
                  > MAX_PACKET_SIZE
  {
    hide IsRun, States, Packing.Compose, Packing.Ready, FrameRoundTrip.WriteAll, PublicHeaders.Write,
        FramingSize.UnluckyCut, Whole5;
    QueuedTwice(MANY);
    IsReady(MANY);
    OneByteIsCut(MANY);
    var f := States(MANY)[6].framer;
    NoOthers(f, 1327, [5]);
    PacketSize.PacketFits(EMPTY, f, SECOND, HEADER, false, 12, true, [5]);
  }

  lemma {:induction false} NoOthers(f: Framer, max: nat, order: seq<nat>)
    requires Framing.Valid(f) && Visits(f, order)
    ensures Packing.Valid(EMPTY) && Packing.TakeOthers(EMPTY, SECOND, max) == Ok(Packing.Taken([], [], 0))
    ensures Packing.RoomFor(EMPTY, SECOND, max) == max && Packing.Compose(EMPTY, f, SECOND, max, true, order).Ok?
  {
    hide Packing.PopForPacket;
    assert EMPTY.stopWaiting + EMPTY.ack + [] == [];
  }

  // ----- a payload that cannot be read -----

  const TWO: seq<byte> := [7, 8]

  /** Both copies fit, nothing follows, and both go without their length. */
  lemma {:induction false} BothArePopped()
    ensures Packing.EndsInRepeat(States(TWO)[6].framer, 1329, [5])
  {
    hide HeaderLength, Cost, TotalCost, States, VisitStream;
    var f := States(TWO)[6].framer;
    QueuedTwice(TWO);
    CostIs(TWO);
    var s, q: seq<nat> := Twice(TWO), [0, 0];
    assert q[..0] == [] && q[..1] == [0] && q[..2] == [0, 0];
    assert Fit(s, q, 1329, 2) == 2;
    assert Fit(s, q, 1329, 1) == 2;
    assert Fit(s, q, 1329, 0) == 2;
    FinalStreams(TWO);
    NothingMore(f.sending, 1317);
  }

  lemma {:induction false} FinalStreams(data: seq<byte>)
    requires 0 < |data| <= 1330
    ensures States(data)[6].framer.sending.streams == map[5 := SendStream(|data|, [], false, false, false)]
  {
    hide Sent;
    SentStream(data);
  }

  lemma {:induction false} NothingMore(s: Sending, room: nat)
    requires s.streams == map[5 := SendStream(2, [], false, false, false)]
    ensures PopNormal(s, [5], room).frames == []
  {
    hide HeaderLength;
    assert [5][1..] == [];
    assert VisitStream(s, 5, room).frame == [];
  }

  lemma {:induction false} PayloadUnreadable()
    ensures IsRun(SILENT, States(TWO), [Application(Loaded(TWO))] + ACTIONS)
    ensures var f := States(TWO)[6].framer;
            && Packing.Ready(EMPTY, f, SECOND) && Visits(f, [5])
            && var c := Packing.Compose(EMPTY, f, SECOND, 1327, true, [5]);
               && c.Ok? && FrameRoundTrip.AllSendable(c.value.frames, SECOND)
               && Frames.ParseAll(FrameRoundTrip.WriteAll(c.value.frames, SECOND), SECOND)
                  != Ok(FrameRoundTrip.SeenAll(c.value.frames))
  {
    hide IsRun, States, Packing.Compose, Packing.Ready, FrameRoundTrip.WriteAll, Frames.ParseAll,
        FrameRoundTrip.SeenAll,
         Packing.EndsInRepeat, Whole5;
    QueuedTwice(TWO);
    IsReady(TWO);
    BothArePopped();
    var f := States(TWO)[6].framer;
    NoOthers(f, 1327, [5]);
    Packing.PayloadReadsBack(EMPTY, f, SECOND, 1327, true, [5]);
  }
}
