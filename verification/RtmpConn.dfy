/** The class of mpquic_trans/liveproxy/protocol/rtmp/core/conn.go, proved to write and read what
    RtmpChunks says, with message buffers from the pool of mpquic_trans/liveproxy/utils/pool/pool.go. */
module RtmpConn {
  import opened Bytes
  import opened RtmpChunks

  // ----- the pool -----

  datatype Slice = Slice(buf: array<byte>, start: nat, end: nat)

  predicate Disjoint(a: Slice, b: Slice) { a.buf != b.buf || a.end <= b.start || b.end <= a.start }

  ghost function Held(s: Slice): seq<byte>
    requires s.start <= s.end <= s.buf.Length
    reads s.buf
  {
    s.buf[s.start..s.end]
  }

  ghost function Contents(s: Slice, n: nat): seq<byte>
    requires s.start + n <= s.end <= s.buf.Length
    reads s.buf
  {
    Held(s)[..n]
  }

  ghost predicate Lengths(mem: map<Slice, seq<byte>>) {
    forall t :: t in mem ==> t.start <= t.end && |mem[t]| == t.end - t.start
  }

  /** Buffers are cut from one large block, and from a new one when it is used up. */
  class Pool {
    var pos: nat
    var buf: array<byte>
    /** All slices handed out so far. */
    ghost var slices: seq<Slice>

    ghost predicate Valid()
      reads this
    {
      && buf.Length == MAX_POOL_SIZE && pos <= MAX_POOL_SIZE
      && (forall i :: 0 <= i < |slices| ==> slices[i].start <= slices[i].end <= slices[i].buf.Length)
      && (forall i :: 0 <= i < |slices| && slices[i].buf == buf ==> slices[i].end <= pos)
      && (forall i, j :: 0 <= i < j < |slices| ==> Disjoint(slices[i], slices[j]))
    }

    ghost function Buffers(): set<array<byte>>
      reads this
    {
      {buf} + set i | 0 <= i < |slices| :: slices[i].buf
    }

    /** What the slices hold. */
    ghost function Memory(): (mem: map<Slice, seq<byte>>)
      requires Valid()
      reads this, Buffers()
      ensures Lengths(mem) && mem.Keys == set t | t in slices
    {
      map t | t in slices :: Held(t)
    }

    twostate lemma {:induction false} Stays()
      requires old(Valid()) && unchanged(this) && unchanged(old(Buffers()))
      ensures Valid() && Memory() == old(Memory())
    {}

    constructor ()
      ensures Valid() && slices == [] && fresh(buf)
    {
      pos, slices := 0, [];
      buf := new byte[MAX_POOL_SIZE];
    }

    /** No two slices ever overlap. */
    method Get(size: nat) returns (s: Slice)
      requires Valid() && size <= MAX_POOL_SIZE
      modifies this
      ensures Valid() && slices == old(slices) + [s] && s.end - s.start == size && s.buf == buf
      ensures forall i :: 0 <= i < |old(slices)| ==> Disjoint(old(slices)[i], s)
      ensures buf == old(buf) || fresh(buf)
    {
      if MAX_POOL_SIZE - pos < size {
        pos := 0;
        buf := new byte[MAX_POOL_SIZE];
      }
      s := Slice(buf, pos, pos + size);
      pos := pos + size;
      slices := slices + [s];
    }
  }

  // ----- messages in progress -----

  /** A chunk stream whose data is in a buffer, up to `index`; `head` holds everything else. */
  datatype Partial = Partial(head: ChunkStream, slice: Slice, index: nat)

  ghost predicate Fits(p: Partial) {
    && p.slice.start + p.index + p.head.remain == p.slice.end <= p.slice.buf.Length
    && p.head.data == [] && (p.head.got ==> p.head.remain == 0)
  }

  ghost function View(p: Partial): ChunkStream
    requires Fits(p)
    reads p.slice.buf
  {
    p.head.(data := Contents(p.slice, p.index))
  }

  /** A message begins, and the data of the one before is given up. */
  predicate Begins(cs: ChunkStream, format: nat) { format != 3 || cs.remain == 0 }

  /** The header says nothing about data received before. */
  ghost predicate SameHeader(cs: ChunkStream, format: nat, s: seq<byte>, d: seq<byte>) {
    var a, b := ReadHeader(cs, format, s), ReadHeader(cs.(data := d), format, s);
    if a.Err? then b == Err(a.error)
    else
      && b == Ok((a.value.0.(data := if Begins(cs, format) then [] else d), a.value.1))
      && a.value.0.data == [] && a.value.0.got == (!Begins(cs, format) && cs.got)
      && if Begins(cs, format) then a.value.0.remain == a.value.0.length <= MAX_POOL_SIZE
         else a.value.0.remain == cs.remain
  }

  lemma {:induction false} HeaderIgnoresData(cs: ChunkStream, format: nat, s: seq<byte>, d: seq<byte>)
    requires cs.data == []
    ensures SameHeader(cs, format, s, d)
  {
    hide SameHeader, ReadHeader;
    if format == 0 { FullHeader(cs, s, d); } else { ShortHeader(cs, format, s, d); }
  }

  lemma {:induction false} FullHeader(cs: ChunkStream, s: seq<byte>, d: seq<byte>)
    requires cs.data == []
    ensures SameHeader(cs, 0, s, d)
  {
    hide Read, ReadTimestamp;
  }

  lemma {:induction false} ShortHeader(cs: ChunkStream, format: nat, s: seq<byte>, d: seq<byte>)
    requires cs.data == [] && format > 0
    ensures SameHeader(cs, format, s, d)
  {
    hide Read, ReadTimestamp;
  }

  /** Writes `bytes` at `at`, and nowhere else. */
  method Fill(buf: array<byte>, at: nat, bytes: seq<byte>)
    requires at + |bytes| <= buf.Length
    modifies buf
    ensures buf[..] == old(buf[..at]) + bytes + old(buf[at + |bytes|..])
  {
    forall i | 0 <= i < |bytes| { buf[at + i] := bytes[i]; }
  }

  /** What was handed over: the slice, and what it held then. */
  datatype Delivered = Delivered(slice: Slice, data: seq<byte>)

  /** Writing into one slice leaves a disjoint one as it is. */
  lemma {:induction false} Elsewhere(before: seq<byte>, at: nat, bytes: seq<byte>, lo: nat, hi: nat)
    requires at + |bytes| <= |before| && lo <= hi <= |before| && (hi <= at || at + |bytes| <= lo)
    ensures (before[..at] + bytes + before[at + |bytes|..])[lo..hi] == before[lo..hi]
  {}

  lemma {:induction false} JustThere(before: seq<byte>, at: nat, bytes: seq<byte>, lo: nat)
    requires at + |bytes| <= |before| && lo <= at
    ensures (before[..at] + bytes + before[at + |bytes|..])[lo..at + |bytes|] == before[lo..at] + bytes
  {}

  lemma {:induction false} Front(s: seq<byte>, lo: nat, hi: nat, n: nat)
    requires lo + n <= hi <= |s|
    ensures s[lo..hi][..n] == s[lo..lo + n]
  {}

  /** Fills a slice from `index` on; slices that are disjoint from it keep what they hold. */
  method FillSlice(pool: Pool, slice: Slice, index: nat, bytes: seq<byte>)
    requires pool.Valid() && slice in pool.slices && slice.start + index + |bytes| <= slice.end <= slice.buf.Length
    modifies slice.buf
    ensures Contents(slice, index + |bytes|) == old(Contents(slice, index)) + bytes
    ensures forall t :: t in pool.slices && Disjoint(t, slice) ==> Held(t) == old(Held(t))
  {
    var at := slice.start + index;
    Fill(slice.buf, at, bytes);
    JustThere(old(slice.buf[..]), at, bytes, slice.start);
    Front(slice.buf[..], slice.start, slice.end, index + |bytes|);
    Front(old(slice.buf[..]), slice.start, slice.end, index);
    assert Held(slice) == slice.buf[..][slice.start..slice.end];
    assert old(Held(slice)) == old(slice.buf[..])[slice.start..slice.end];
    forall t | t in pool.slices && Disjoint(t, slice) ensures Held(t) == old(Held(t)) {
      if t.buf == slice.buf { Elsewhere(old(slice.buf[..]), at, bytes, t.start, t.end); }
    }
  }

  /** The buffer that a chunk goes to, and where: a new one when a message begins. */
  method Target(pool: Pool, p: Partial, format: nat, h: ChunkStream) returns (slice: Slice, index: nat)
    requires pool.Valid() && Fits(p) && (p.head.remain > 0 ==> p.slice in pool.slices)
             && (format != 3 ==> p.head.remain == 0)
    requires if Begins(p.head, format) then h.remain == h.length <= MAX_POOL_SIZE else h.remain == p.head.remain
    modifies pool
    ensures pool.Valid() && old(pool.slices) <= pool.slices && slice in pool.slices
    ensures slice.start + index + h.remain == slice.end <= slice.buf.Length
    ensures pool.buf == old(pool.buf) || fresh(pool.buf)
    ensures slice.buf in old(pool.Buffers()) || fresh(slice.buf)
    ensures forall t :: t in old(pool.slices) ==> Held(t) == old(Held(t))
    ensures forall b :: b in pool.Buffers() ==> b in old(pool.Buffers()) || fresh(b)
    ensures if p.head.remain > 0 then pool.slices == old(pool.slices) && slice == p.slice && index == p.index
            else
              && pool.slices == old(pool.slices) + [slice] && slice.buf == pool.buf && index == 0
              && forall t :: t in old(pool.slices) ==> Disjoint(t, slice)
  {
    if Begins(p.head, format) {
      slice := pool.Get(h.length);
      index := 0;
      assert pool.slices[|pool.slices| - 1] == slice;
    } else {
      slice, index := p.slice, p.index;
    }
  }

  /** What a chunk adds to its stream, once the header is read. */
  lemma {:induction false} ChunkIs(p: Partial, d: seq<byte>, format: nat, s: seq<byte>, size: nat)
    requires Fits(p)
    ensures var got := ReadChunk(p.head.(data := d), format, s, size);
            var id := ReadCsid(p.head.csid, s);
            if (p.head.remain != 0 && format != 3) || id.Err? then got.Err?
            else
              var header := ReadHeader(p.head.(csid := id.value.0), format, id.value.1);
              if header.Err? then got.Err?
              else
                var (h, s2) := header.value;
                var n := Min(h.remain, size);
                && h.data == [] && !h.got
                && (if Begins(p.head, format) then h.remain == h.length <= MAX_POOL_SIZE else h.remain == p.head.remain)
                && if |s2| < n then got.Err?
                   else got == Ok((h.(data := (if Begins(p.head, format) then [] else d) + s2[..n],
                                      remain := h.remain - n,
                                      got := h.got || h.remain == n), s2[n..]))
  {
    hide ReadHeader, ReadCsid;
    var id := ReadCsid(p.head.csid, s);
    if id.Ok? { HeaderIgnoresData(p.head.(csid := id.value.0), format, id.value.1, d); }
  }

  /** `readChunk`.  A buffer is taken when a message begins, and filled from `index` on. */
  method ReadInto(pool: Pool, p: Partial, format: nat, s: seq<byte>, size: nat)
      returns (r: Result<(Partial, seq<byte>)>)
    requires pool.Valid() && Fits(p) && (p.head.remain > 0 ==> p.slice in pool.slices)
    modifies pool, pool.Buffers()
    ensures pool.Valid() && old(pool.slices) <= pool.slices && (pool.buf == old(pool.buf) || fresh(pool.buf))
    ensures forall b :: b in pool.Buffers() ==> b in old(pool.Buffers()) || fresh(b)
    ensures match ReadChunk(old(View(p)), format, s, size)
            case Err(_) => r.Err?
            case Ok(got) => r.Ok? && Fits(r.value.0) && View(r.value.0) == got.0 && r.value.1 == got.1
    ensures r.Ok? ==>
              && r.value.0.slice in pool.slices
              && if p.head.remain > 0 then r.value.0.slice == p.slice
                 else forall t :: t in old(pool.slices) ==> Disjoint(t, r.value.0.slice)
    ensures forall t :: t in old(pool.Memory()) ==>
              && t in pool.Memory()
              && ((r.Ok? ==> Disjoint(t, r.value.0.slice)) ==> pool.Memory()[t] == old(pool.Memory()[t]))
  {
    hide ReadHeader, ReadCsid, ReadChunk, Contents, Held, Pool.Valid, Pool.Buffers, Disjoint;
    ChunkIs(p, Contents(p.slice, p.index), format, s, size);
    if p.head.remain != 0 && format != 3 { return Err("invalid remain"); }
    var id := ReadCsid(p.head.csid, s);
    if id.Err? { return Err(id.error); }
    var header := ReadHeader(p.head.(csid := id.value.0), format, id.value.1);
    if header.Err? { return Err(header.error); }
    var (h, s2) := header.value;
    var slice, index := Target(pool, p, format, h);
    var n := Min(h.remain, size);
    if |s2| < n { return Err("EOF"); }
    NothingYet(slice);
    FillSlice(pool, slice, index, s2[..n]);
    r := Ok((Partial(h.(remain := h.remain - n, got := h.got || h.remain == n), slice, index + n), s2[n..]));
  }

  lemma {:induction false} NothingYet(s: Slice)
    requires s.start <= s.end <= s.buf.Length
    ensures Contents(s, 0) == []
  {}

  // ----- the connection -----

  lemma {:induction false} ChunkCount(length: nat, size: nat, i: nat)
    requires size > 0 && i > length / size
    ensures i * size >= length
  {
    var q := length / size;
    assert (i - q - 1) * size >= 0;
    assert i * size == (i - q - 1) * size + (q + 1) * size;
  }

  lemma {:induction false} ChunksStep(out: seq<byte>, chunk: seq<byte>, rest: seq<byte>)
    ensures out + (chunk + rest) == out + chunk + rest
  {}

  lemma {:induction false} FirstIsZero(i: nat, size: nat)
    requires size > 0
    ensures i * size == 0 <==> i == 0
  {
    if i > 0 { assert (i - 1) * size >= 0; }
  }

  lemma {:induction false} NextStart(i: nat, size: nat)
    ensures (i + 1) * size == i * size + size
  {}

  /** No two chunk streams share a buffer, and none that is still filled was handed over; what was is
      still in its buffer. */
  ghost predicate Sound(chunks: map<nat, Partial>, delivered: seq<Delivered>, mem: map<Slice, seq<byte>>) {
    && (forall k :: k in chunks ==> Fits(chunks[k]) && chunks[k].slice in mem)
    && (forall j, k :: j in chunks && k in chunks && j != k ==> Disjoint(chunks[j].slice, chunks[k].slice))
    && (forall i :: 0 <= i < |delivered| ==> delivered[i].slice in mem && mem[delivered[i].slice] == delivered[i].data)
    && (forall i, k :: 0 <= i < |delivered| && k in chunks && chunks[k].head.remain > 0 ==>
          Disjoint(delivered[i].slice, chunks[k].slice))
  }

  ghost function ViewIn(mem: map<Slice, seq<byte>>, p: Partial): ChunkStream
    requires Fits(p) && Lengths(mem) && p.slice in mem
  {
    p.head.(data := mem[p.slice][..p.index])
  }

  ghost function Views(chunks: map<nat, Partial>, mem: map<Slice, seq<byte>>): map<nat, ChunkStream>
    requires Lengths(mem) && forall k :: k in chunks ==> Fits(chunks[k]) && chunks[k].slice in mem
  {
    map k | k in chunks :: ViewIn(mem, chunks[k])
  }

  lemma {:induction false} ViewIs(pool: Pool, p: Partial)
    requires pool.Valid() && Fits(p) && p.slice in pool.slices
    ensures View(p) == ViewIn(pool.Memory(), p)
  {}

  lemma {:induction false} NoneFilled(chunks: map<nat, Partial>, delivered: seq<Delivered>, mem: map<Slice, seq<byte>>,
                                      mem': map<Slice, seq<byte>>)
    requires Sound(chunks, delivered, mem) && forall t :: t in mem ==> t in mem' && mem'[t] == mem[t]
    ensures Sound(chunks, delivered, mem')
  {
    hide Fits, Disjoint;
  }

  /** All of the buffer. */
  function Data(p: Partial): seq<byte>
    requires Fits(p)
    reads p.slice.buf
  {
    p.slice.buf[p.slice.start..p.slice.end]
  }

  /** A message in progress stays in its buffer, and a new one goes to a buffer of its own. */
  ghost predicate Placed(chunks: map<nat, Partial>, mem: map<Slice, seq<byte>>, csid: nat, q: Partial) {
    if csid in chunks && chunks[csid].head.remain > 0 then q.slice == chunks[csid].slice
    else forall t :: t in mem ==> Disjoint(t, q.slice)
  }

  /** When only one buffer changed, everything else stays as it was. */
  lemma {:induction false} OneFilled(chunks: map<nat, Partial>, delivered: seq<Delivered>, mem: map<Slice, seq<byte>>,
                                     csid: nat, q: Partial, mem': map<Slice, seq<byte>>)
    requires Lengths(mem) && Lengths(mem') && Sound(chunks, delivered, mem) && Placed(chunks, mem, csid, q)
    requires Fits(q) && q.slice in mem'
    requires forall t :: t in mem ==> t in mem' && (Disjoint(t, q.slice) ==> mem'[t] == mem[t])
    ensures Sound(chunks[csid := q], delivered, mem')
    ensures Views(chunks[csid := q], mem') == Views(chunks, mem)[csid := ViewIn(mem', q)]
  {
    hide Disjoint, Fits, Lengths;
    StillApart(chunks, delivered, mem, csid, q);
  }

  lemma {:induction false} StillApart(chunks: map<nat, Partial>, delivered: seq<Delivered>, mem: map<Slice, seq<byte>>,
                                      csid: nat, q: Partial)
    requires Sound(chunks, delivered, mem) && Placed(chunks, mem, csid, q)
    ensures forall k :: k in chunks && k != csid ==>
              Disjoint(chunks[k].slice, q.slice) && Disjoint(q.slice, chunks[k].slice)
    ensures forall i :: 0 <= i < |delivered| ==> Disjoint(delivered[i].slice, q.slice)
  {}

  /** Handing over a complete message. */
  lemma {:induction false} OneDelivered(chunks: map<nat, Partial>, delivered: seq<Delivered>, mem: map<Slice,
                                        seq<byte>>, csid: nat)
    requires Lengths(mem) && Sound(chunks, delivered, mem) && csid in chunks && chunks[csid].head.remain == 0
    ensures Sound(chunks, delivered + [Delivered(chunks[csid].slice, mem[chunks[csid].slice])], mem)
  {
    hide Fits;
  }

  class Conn {
    var chunkSize: nat
    var remoteChunkSize: nat
    var remoteWindowAckSize: nat
    var ackReceived: nat
    const pool: Pool
    var chunks: map<nat, Partial>
    var input: seq<byte>
    var output: seq<byte>
    /** All messages handed over so far. */
    ghost var delivered: seq<Delivered>

    ghost predicate Valid()
      reads this, pool, pool.Buffers()
    {
      pool.Valid() && Sound(chunks, delivered, pool.Memory())
    }

    /** The chunk streams with their data. */
    ghost function Streams(): map<nat, ChunkStream>
      requires Valid()
      reads this, pool, pool.Buffers()
    {
      Views(chunks, pool.Memory())
    }

    ghost function Limited(): Limits
      reads this
    {
      Limits(remoteChunkSize, remoteWindowAckSize, ackReceived)
    }

    constructor (input: seq<byte>)
      ensures Valid() && Streams() == map[] && delivered == [] && this.input == input && output == []
      ensures chunkSize == DEFAULT_CHUNK_SIZE && Limited() == Limits(DEFAULT_CHUNK_SIZE, DEFAULT_WINDOW, 0)
    {
      chunkSize, remoteChunkSize, remoteWindowAckSize, ackReceived := DEFAULT_CHUNK_SIZE, DEFAULT_CHUNK_SIZE,
          DEFAULT_WINDOW, 0;
      chunks, this.input, output, delivered := map[], input, [], [];
      pool := new Pool();
    }

    /** `writeChunk`: as many chunks as the length calls for, the last one possibly short.  A chunk size
        of zero makes the source panic. */
    method WriteChunk(m: Message, size: nat) returns (ok: bool)
      modifies this`output
      ensures ok == (size > 0)
      ensures output == if ok then old(output) + Chunks(m, size, 0) else old(output)
    {
      hide Header;
      if size == 0 { return false; }
      var totalLen, i := 0, 0;
      var numChunks := |m.data| / size;
      assert output + Chunks(m, size, 0) == old(output) + Chunks(m, size, 0);
      while i <= numChunks && totalLen != |m.data|
        invariant totalLen <= |m.data| && totalLen == Min(i * size, |m.data|)
        invariant output + Chunks(m, size, totalLen) == old(output) + Chunks(m, size, 0)
        decreases |m.data| - totalLen
      {
        var start := i * size;
        var inc := if |m.data| - start <= size then |m.data| - start else size;
        var chunk := Header(m, i == 0) + m.data[start..start + inc];
        FirstIsZero(i, size);
        ChunksStep(output, chunk, Chunks(m, size, start + inc));
        output := output + chunk;
        totalLen := totalLen + inc;
        NextStart(i, size);
        i := i + 1;
      }
      if totalLen != |m.data| { ChunkCount(|m.data|, size, i); }
      assert output + [] == output;
      return true;
    }

    /** A Set Chunk Size message counts for itself already. */
    method Write(m: Message) returns (ok: bool)
      modifies this`chunkSize, this`output
      ensures match SizeFor(old(chunkSize), m)
              case Err(_) => !ok && output == old(output)
              case Ok(size) => ok && chunkSize == size && output == old(output) + Chunks(m, size, 0)
    {
      if m.typeID == SET_CHUNK_SIZE {
        if |m.data| < 4 { return false; }
        chunkSize := Decode(m.data[..4], BigEndian);
      }
      ok := WriteChunk(m, chunkSize);
    }

    /** One round of `Read`: a chunk goes to its chunk stream. */
    method ReadOne() returns (r: Result<Partial>)
      requires Valid() && input != []
      modifies this`chunks, this`input, pool, pool.Buffers()
      ensures Valid() && (forall b :: b in pool.Buffers() ==> b in old(pool.Buffers()) || fresh(b))
      ensures var format, csid := old(input)[0] / 64, old(input)[0] % 64;
              var before := if csid in old(Streams()) then old(Streams())[csid] else Idle;
              match ReadChunk(before.(csid := csid), format, old(input)[1..], remoteChunkSize)
              case Err(_) => r.Err?
              case Ok(got) =>
                && r.Ok? && csid in chunks && chunks[csid] == r.value && View(r.value) == got.0
                && Streams() == old(Streams())[csid := got.0] && input == got.1
    {
      hide ReadChunk, Pool.Valid, Pool.Buffers, Pool.Memory, Contents, Held, Disjoint, Sound, Views, ViewIn, View,
          Lengths,
           StreamFor;
      var format, csid := input[0] / 64, input[0] % 64;
      ghost var mem := pool.Memory();
      var p := StreamFor(csid);
      StreamForIs(csid);
      var read := ReadInto(pool, p, format, input[1..], remoteChunkSize);
      if read.Err? {
        NoneFilled(chunks, delivered, mem, pool.Memory());
        return Err(read.error);
      }
      var (q, rest) := read.value;
      ViewIs(pool, q);
      OneFilled(chunks, delivered, mem, csid, q, pool.Memory());
      chunks, input := chunks[csid := q], rest;
      r := Ok(q);
    }

    /** Reads chunks until a message is complete. */
    method ReadWhole() returns (r: Result<Partial>, csid: nat)
      requires Valid()
      modifies this`chunks, this`input, pool, pool.Buffers()
      ensures Valid()
      ensures match ReadMessage(old(Streams()), old(input), remoteChunkSize)
              case Err(_) => r.Err?
              case Ok(got) =>
                && r.Ok? && csid in chunks && chunks[csid] == r.value && r.value.head.remain == 0
                && View(r.value) == got.message && Streams() == got.chunks && input == got.rest
    {
      hide ReadChunk, Pool.Valid, Pool.Buffers, Pool.Memory, Contents, Held, Disjoint, Sound, Views, ViewIn;
      csid := 0;
      while true
        invariant Valid() && forall b :: b in pool.Buffers() ==> b in old(pool.Buffers()) || fresh(b)
        invariant ReadMessage(Streams(), input, remoteChunkSize)
                  == ReadMessage(old(Streams()), old(input), remoteChunkSize)
        decreases |input|
      {
        if input == [] { return Err("EOF"), csid; }
        csid := input[0] % 64;
        r := ReadOne();
        if r.Err? { return r, csid; }
        if r.value.head.got {
          StillFits(csid);
          return r, csid;
        }
      }
    }

    lemma {:induction false} StillFits(csid: nat)
      requires Valid() && csid in chunks
      ensures Fits(chunks[csid])
    {}

    /** The message in the chunk stream is handed over. */
    ghost method Deliver(csid: nat)
      requires Valid() && csid in chunks && chunks[csid].head.remain == 0
      modifies this`delivered
      ensures Valid() && Streams() == old(Streams()) && pool.Memory() == old(pool.Memory())
      ensures delivered == old(delivered) + [Delivered(chunks[csid].slice, pool.Memory()[chunks[csid].slice])]
    {
      hide Disjoint, Pool.Valid, Pool.Buffers, Pool.Memory, Held, Fits, Views;
      var mem := pool.Memory();
      OneDelivered(chunks, delivered, mem, csid);
      ghost var buffers := pool.Buffers();
      delivered := delivered + [Delivered(chunks[csid].slice, mem[chunks[csid].slice])];
      assert pool.Buffers() == buffers && pool.Valid();
      assert pool.Memory() == mem;
    }

    lemma {:induction false} WholeIs(csid: nat)
      requires Valid() && csid in chunks && chunks[csid].head.remain == 0
      ensures var p := chunks[csid];
              && Fits(p) && View(p).data == pool.Memory()[p.slice] == Data(p)
              && View(p) == p.head.(data := View(p).data)
    {
      hide Disjoint;
    }

    /** `handleControlMsg`. */
    method HandleControlMsg(typeID: nat, data: seq<byte>) returns (ok: bool)
      modifies this`remoteChunkSize, this`remoteWindowAckSize
      ensures match Heed(old(Limited()), typeID, data)
              case Err(_) => !ok
              case Ok(limits) => ok && Limited() == limits
    {
      if typeID == SET_CHUNK_SIZE {
        if |data| < 4 { return false; }
        remoteChunkSize := Decode(data[..4], BigEndian);
      } else if typeID == WINDOW_ACK_SIZE {
        if |data| < 4 { return false; }
        remoteWindowAckSize := Decode(data[..4], BigEndian);
      }
      return true;
    }

    /** `ack`. */
    method Ack(length: nat) returns (ok: bool)
      modifies this`ackReceived, this`output
      ensures var (limits, acks) := Counted(old(Limited()), length);
              && ok == (acks == [] || chunkSize > 0)
              && (ok ==> Limited() == limits && output == old(output) + if acks == [] then []
                  else Chunks(acks[0], chunkSize, 0))
    {
      hide Chunks;
      ackReceived := (ackReceived + length) % UINT32;
      if ackReceived >= remoteWindowAckSize {
        ok := WriteChunk(AckMessage(ackReceived), chunkSize);
        ackReceived := 0;
      } else {
        ok := true;
        assert output + [] == output;
      }
    }

    /** Reads a message and hands it over.  The buffers of all messages handed over before still hold what
        they held, as `Valid` says. */
    method Receive() returns (r: Result<Partial>)
      requires Valid()
      modifies this`chunks, this`input, this`delivered, pool, pool.Buffers()
      ensures Valid()
      ensures match ReadMessage(old(Streams()), old(input), remoteChunkSize)
              case Err(_) => r.Err? && delivered == old(delivered)
              case Ok(got) =>
                && r.Ok? && Fits(r.value) && View(r.value) == got.message
                && r.value.head.typeID == got.message.typeID && r.value.head.length == got.message.length
                && Data(r.value) == got.message.data
                && delivered == old(delivered) + [Delivered(r.value.slice, got.message.data)]
                && Streams() == got.chunks && input == got.rest
    {
      hide ReadMessage, Pool.Valid, Pool.Buffers, Pool.Memory, Held, Disjoint, Sound, Views, View, Fits, Data;
      var csid;
      r, csid := ReadWhole();
      if r.Ok? {
        WholeIs(csid);
        ghost var view, data := View(r.value), Data(r.value);
        var buf := r.value.slice.buf;
        ghost var bytes := buf[..];
        Deliver(csid);
        assert buf[..] == bytes;
        assert View(r.value) == view && Data(r.value) == data;
      }
    }

    /** `Read`: a message is received, heeded, and acknowledged when it is time to. */
    method ReadNext() returns (r: Result<Partial>)
      requires Valid()
      modifies this, pool, pool.Buffers()
      ensures Valid() && chunkSize == old(chunkSize) && (r.Ok? ==> Fits(r.value))
      ensures match ReadMessage(old(Streams()), old(input), old(remoteChunkSize))
              case Err(_) => r.Err? && delivered == old(delivered)
              case Ok(got) =>
                && |delivered| == |old(delivered)| + 1 && old(delivered) < delivered
                && delivered[|old(delivered)|].data == got.message.data
                && match Heed(old(Limited()), got.message.typeID, got.message.data)
                   case Err(_) => r.Err?
                   case Ok(l) =>
                     var (limits, acks) := Counted(l, got.message.length);
                     && r.Ok? == (acks == [] || chunkSize > 0)
                     && (r.Ok? ==>
                           && View(r.value) == got.message && r.value.slice == delivered[|old(delivered)|].slice
                           && Streams() == got.chunks && input == got.rest && Limited() == limits
                           && output == old(output) + if acks == [] then [] else Chunks(acks[0], chunkSize, 0))
    {
      hide ReadMessage, Pool.Valid, Pool.Memory, Held, Disjoint, Sound, Views, View, Fits, Data, Chunks, Heed, Counted;
      r := Receive();
      if r.Err? { return; }
      var c := r.value;
      var buf := c.slice.buf;
      ghost var bytes, view := buf[..], View(c);
      label Received:
      var ok := HandleControlMsg(c.head.typeID, Data(c));
      pool.Stays@Received();
      if !ok { return Err("index out of range"); }
      ok := Ack(c.head.length);
      pool.Stays@Received();
      assert buf[..] == bytes;
      assert View(c) == view;
      if !ok { return Err("integer divide by zero"); }
    }

    /** Whatever was read since, the buffer of a message that was handed over holds that message. */
    lemma {:induction false} StillHeld(i: nat)
      requires Valid() && i < |delivered|
      ensures var d := delivered[i]; d.slice.start <= d.slice.end <= d.slice.buf.Length && Held(d.slice) == d.data
    {
      hide Disjoint;
      assert pool.Memory()[delivered[i].slice] == delivered[i].data;
    }

    /** The chunk stream that `csid` stands for, or a new one. */
    function StreamFor(csid: nat): Partial
      reads this, pool
    {
      if csid in chunks then chunks[csid].(head := chunks[csid].head.(csid := csid))
      else Partial(Idle.(csid := csid), Slice(pool.buf, 0, 0), 0)
    }

    lemma {:induction false} StreamForIs(csid: nat)
      requires Valid()
      ensures var p := StreamFor(csid);
              && Fits(p) && View(p) == (if csid in Streams() then Streams()[csid] else Idle).(csid := csid)
              && (p.head.remain > 0 ==> csid in chunks && p.slice == chunks[csid].slice && p.slice in pool.slices)
              && (csid in chunks ==> p.head.remain == chunks[csid].head.remain)
    {
      if csid in chunks { ViewIs(pool, chunks[csid]); }
    }
  }
}
