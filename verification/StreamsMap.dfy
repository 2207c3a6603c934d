/** The open streams and their round-robin order: mpquic_trans/streams_map.go. */
module StreamsMap {
  /** The crypto stream and the header stream come first in every round. */
  predicate Priority(id: nat) { id == 1 || id == 3 }

  // ----- positions, counted around and around -----

  function Slot(open: seq<nat>, k: nat): nat
    requires open != []
  {
    open[k % |open|]
  }

  lemma {:induction false} Divide(a: nat, n: nat) returns (q: nat)
    requires n > 0
    ensures a == q * n + a % n && a % n < n
  {
    q := a / n;
  }

  lemma {:induction false} AtLeast(q: int, n: nat)
    ensures q >= 1 ==> q * n >= n
    ensures q <= -1 ==> q * n + n <= 0
  {
    if q >= 1 { assert (q - 1) * n >= 0; }
    if q <= -1 { assert (-q - 1) * n >= 0; }
  }

  lemma {:induction false} Distribute(p: int, q: int, n: int)
    ensures (p - q) * n == p * n - q * n
  {}

  /** Positions less than a round apart are different. */
  lemma {:induction false} Wrap(a: nat, b: nat, n: nat)
    requires n > 0 && a <= b < a + n && a % n == b % n
    ensures a == b
  {
    var p := Divide(a, n);
    var q := Divide(b, n);
    Distribute(q, p, n);
    AtLeast(q - p, n);
  }

  lemma {:induction false} Remainder(q: int, r: nat, n: nat)
    requires r < n && q * n + r >= 0
    ensures (q * n + r) % n == r
  {
    var a: nat := q * n + r;
    var p := Divide(a, n);
    Distribute(q, p, n);
    AtLeast(q - p, n);
  }

  /** Taking the remainder on the way changes nothing. */
  lemma {:induction false} ModAdd(a: nat, b: nat, n: nat)
    requires n > 0
    ensures (a % n + b) % n == (a + b) % n
  {
    var p := Divide(a, n);
    var q := Divide(a % n + b, n);
    var r := (a % n + b) % n;
    assert a + b == p * n + (q * n + r);
    Distribute(p, -q, n);
    assert a + b == (p + q) * n + r;
    Remainder(p + q, r, n);
  }

  /** Every position comes up within one round. */
  lemma {:induction false} Reach(start: nat, pos: nat, n: nat) returns (t: nat)
    requires pos < n
    ensures t < n && (start + t) % n == pos
  {
    var s := start % n;
    t := if pos >= s then pos - s else pos + n - s;
    ModAdd(start, t, n);
    if pos >= s { Remainder(0, pos, n); } else { Remainder(1, pos, n); }
  }

  // ----- one round -----

  /** The streams visited from step `i` of a round on; `goOn` is what the visitor answers. */
  function Walk(open: seq<nat>, start: nat, i: nat, goOn: nat -> bool): (v: seq<nat>)
    requires i <= |open|
    ensures |v| <= |open| - i
    decreases |open| - i
  {
    if i == |open| then []
    else
      var id := Slot(open, start + i);
      if Priority(id) then Walk(open, start, i + 1, goOn)
      else if !goOn(id) then [id]
      else [id] + Walk(open, start, i + 1, goOn)
  }

  /** The priority streams, until one of them puts an end to the round. */
  function First(open: seq<nat>, goOn: nat -> bool): (seq<nat>, bool) {
    var one := if 1 in open then [1] else [];
    if 1 in open && !goOn(1) then (one, false)
    else if 3 in open then (one + [3], goOn(3))
    else (one, true)
  }

  function Visited(open: seq<nat>, start: nat, goOn: nat -> bool): seq<nat> {
    var (first, more) := First(open, goOn);
    if more then first + Walk(open, start, 0, goOn) else first
  }

  /** Where the next round starts: only the streams visited in turn advance it. */
  function NextIndex(open: seq<nat>, start: nat, goOn: nat -> bool): nat {
    if !First(open, goOn).1 then start
    else
      var v := Walk(open, start, 0, goOn);
      if v == [] then start else (start + |v|) % |open|
  }

  // ----- fairness -----

  ghost predicate Distinct(s: seq<nat>) { forall i, j :: 0 <= i < j < |s| ==> s[i] != s[j] }

  /** As many positions from the start as streams were visited are all taken care of. */
  lemma {:induction false} WalkCovers(open: seq<nat>, start: nat, i: nat, goOn: nat -> bool, j: nat)
    requires i <= |open| && i <= j < i + |Walk(open, start, i, goOn)|
    ensures Priority(Slot(open, start + j)) || Slot(open, start + j) in Walk(open, start, i, goOn)
    decreases |open| - i
  {
    hide Slot;
    if i < j { WalkCovers(open, start, i + 1, goOn, j); }
  }

  /** Where a visited stream stands. */
  lemma {:induction false} WalkMember(open: seq<nat>, start: nat, i: nat, goOn: nat -> bool, id: nat) returns (j: nat)
    requires i <= |open| && id in Walk(open, start, i, goOn)
    ensures !Priority(id) && i <= j < |open| && Slot(open, start + j) == id
    decreases |open| - i
  {
    hide Slot;
    var here := Slot(open, start + i);
    if Priority(here) || (goOn(here) && id != here) {
      j := WalkMember(open, start, i + 1, goOn, id);
    } else {
      j := i;
    }
  }

  lemma {:induction false} SlotsDiffer(open: seq<nat>, a: nat, b: nat)
    requires open != [] && Distinct(open) && a < b < a + |open|
    ensures Slot(open, a) != Slot(open, b)
  {
    if a % |open| == b % |open| { Wrap(a, b, |open|); }
  }

  lemma {:induction false} WalkDistinct(open: seq<nat>, start: nat, i: nat, goOn: nat -> bool)
    requires i <= |open| && Distinct(open)
    ensures Distinct(Walk(open, start, i, goOn))
    decreases |open| - i
  {
    hide Slot;
    if i < |open| {
      WalkDistinct(open, start, i + 1, goOn);
      var id := Slot(open, start + i);
      NotAgain(open, start, i, goOn, id);
    }
  }

  lemma {:induction false} NotAgain(open: seq<nat>, start: nat, i: nat, goOn: nat -> bool, id: nat)
    requires i < |open| && Distinct(open) && id == Slot(open, start + i)
    ensures id !in Walk(open, start, i + 1, goOn)
  {
    hide Slot, Walk, Distinct;
    if id in Walk(open, start, i + 1, goOn) {
      var j := WalkMember(open, start, i + 1, goOn, id);
      SlotsDiffer(open, start + i, start + j);
    }
  }

  /** No stream is visited twice in a round. */
  lemma {:induction false} VisitedDistinct(open: seq<nat>, start: nat, goOn: nat -> bool)
    requires Distinct(open)
    ensures Distinct(Visited(open, start, goOn))
  {
    hide Walk;
    WalkDistinct(open, start, 0, goOn);
    var (first, more) := First(open, goOn);
    var walk := Walk(open, start, 0, goOn);
    forall id | id in walk ensures !Priority(id) { var _ := WalkMember(open, start, 0, goOn, id); }
    assert forall i :: 0 <= i < |walk| ==> walk[i] in walk;
  }

  /** A round that is not stopped by a priority stream visits some other stream, if there is one. */
  lemma {:induction false} WalkVisits(open: seq<nat>, start: nat, i: nat, goOn: nat -> bool, t: nat)
    requires i <= t < |open| && !Priority(Slot(open, start + t))
    ensures Walk(open, start, i, goOn) != []
    decreases t - i
  {
    hide Slot;
    if i < t { WalkVisits(open, start, i + 1, goOn, t); }
  }

  /** Rounds in which the priority streams let it continue. */
  ghost predicate Undisturbed(open: seq<nat>, rounds: seq<nat -> bool>) {
    forall k :: 0 <= k < |rounds| ==> First(open, rounds[k]).1
  }

  /** The index before round `k`, and how many streams were visited in turn by then. */
  function Index(open: seq<nat>, start: nat, rounds: seq<nat -> bool>, k: nat): nat
    requires k <= |rounds|
  {
    if k == 0 then start else NextIndex(open, Index(open, start, rounds, k - 1), rounds[k - 1])
  }

  function Advance(open: seq<nat>, start: nat, rounds: seq<nat -> bool>, k: nat): nat
    requires k <= |rounds|
  {
    if k == 0 then 0
    else Advance(open, start, rounds, k - 1) + |Walk(open, Index(open, start, rounds, k - 1), 0, rounds[k - 1])|
  }

  /** Two positions, counted around, are the same. */
  predicate Meet(a: nat, b: nat, n: nat)
    requires n > 0
  {
    a % n == b % n
  }

  lemma {:induction false} MeetAgain(a: nat, b: nat, c: nat, n: nat)
    requires n > 0 && Meet(a, b, n) && Meet(b, c, n)
    ensures Meet(a, c, n)
  {}

  lemma {:induction false} SameSlot(open: seq<nat>, a: nat, b: nat, j: nat)
    requires open != [] && Meet(a, b, |open|)
    ensures Slot(open, a + j) == Slot(open, b + j) && Meet(a + j, b + j, |open|)
  {
    ModAdd(a, j, |open|);
    ModAdd(b, j, |open|);
  }

  lemma {:induction false} IndexIsAdvance(open: seq<nat>, start: nat, rounds: seq<nat -> bool>, k: nat)
    requires open != [] && Undisturbed(open, rounds) && k <= |rounds|
    ensures Meet(Index(open, start, rounds, k), start + Advance(open, start, rounds, k), |open|)
  {
    hide Walk, First, NextIndex, Slot, Meet;
    if k == 0 {
      MeetItself(start, |open|);
    } else {
      IndexIsAdvance(open, start, rounds, k - 1);
      var a, b := Index(open, start, rounds, k - 1), start + Advance(open, start, rounds, k - 1);
      var n := |Walk(open, a, 0, rounds[k - 1])|;
      SameSlot(open, a, b, n);
      NextIndexMod(open, a, rounds[k - 1]);
      assert start + Advance(open, start, rounds, k) == b + n;
      MeetAgain(Index(open, start, rounds, k), a + n, b + n, |open|);
    }
  }

  lemma {:induction false} MeetItself(a: nat, n: nat)
    requires n > 0
    ensures Meet(a, a, n)
  {}

  lemma {:induction false} NextIndexMod(open: seq<nat>, a: nat, goOn: nat -> bool)
    requires open != [] && First(open, goOn).1
    ensures Meet(NextIndex(open, a, goOn), a + |Walk(open, a, 0, goOn)|, |open|)
  {
    hide Walk, First;
    ModTwice(a + |Walk(open, a, 0, goOn)|, |open|);
  }

  lemma {:induction false} ModTwice(a: nat, n: nat)
    requires n > 0
    ensures a % n % n == a % n
  {
    var r := a % n;
    Remainder(0, r, n);
  }

  lemma {:induction false} EveryRoundAdvances(open: seq<nat>, start: nat, rounds: seq<nat -> bool>, id: nat, k: nat)
    requires id in open && !Priority(id) && k <= |rounds|
    ensures Advance(open, start, rounds, k) >= k
  {
    hide Walk, NextIndex;
    if k > 0 {
      EveryRoundAdvances(open, start, rounds, id, k - 1);
      var pos :| 0 <= pos < |open| && open[pos] == id;
      var a := Index(open, start, rounds, k - 1);
      var t := Reach(a, pos, |open|);
      WalkVisits(open, a, 0, rounds[k - 1], t);
    }
  }

  /** The round in which position `t` comes up. */
  lemma {:induction false} RoundOf(open: seq<nat>, start: nat, rounds: seq<nat -> bool>, t: nat, m: nat)
      returns (k: nat)
    requires m <= |rounds| && t < Advance(open, start, rounds, m)
    ensures k < m && Advance(open, start, rounds, k) <= t < Advance(open, start, rounds, k + 1)
    decreases m
  {
    hide Walk;
    if Advance(open, start, rounds, m - 1) <= t {
      k := m - 1;
    } else {
      k := RoundOf(open, start, rounds, t, m - 1);
    }
  }

  /** Only the last one may have put an end to the round. */
  ghost predicate OnlyTheLastEnds(v: seq<nat>, goOn: nat -> bool) { forall k :: 0 <= k < |v| - 1 ==> goOn(v[k]) }

  ghost predicate GoesOn(v: seq<nat>, goOn: nat -> bool) { v == [] || goOn(v[|v| - 1]) }

  /** A stream in turn is left out only behind one that put an end to the round. */
  lemma {:induction false} WalkIsComplete(open: seq<nat>, start: nat, i: nat, goOn: nat -> bool, j: nat)
    requires i <= |open|
    ensures var w := Walk(open, start, i, goOn);
            && OnlyTheLastEnds(w, goOn)
            && (GoesOn(w, goOn) && i <= j < |open| ==>
                  Priority(Slot(open, start + j)) || Slot(open, start + j) in w)
    decreases |open| - i
  {
    hide Slot, Priority, OnlyTheLastEnds, GoesOn;
    if i < |open| {
      var id, rest := Slot(open, start + i), Walk(open, start, i + 1, goOn);
      WalkIsComplete(open, start, i + 1, goOn, j);
      AtTheEnd(id, goOn);
      if goOn(id) { OneMoreFirst([id], rest, goOn); }
    } else {
      NoneEnds(goOn);
    }
  }

  lemma {:induction false} NoneEnds(goOn: nat -> bool)
    ensures OnlyTheLastEnds([], goOn)
  {}

  lemma {:induction false} AtTheEnd(id: nat, goOn: nat -> bool)
    ensures OnlyTheLastEnds([id], goOn) && (GoesOn([id], goOn) <==> goOn(id))
  {}

  lemma {:induction false} OneMoreFirst(first: seq<nat>, rest: seq<nat>, goOn: nat -> bool)
    requires OnlyTheLastEnds(first, goOn) && GoesOn(first, goOn) && OnlyTheLastEnds(rest, goOn)
    ensures OnlyTheLastEnds(first + rest, goOn) && (GoesOn(first + rest, goOn) <==> GoesOn(rest, goOn))
  {
    var v := first + rest;
    forall k | 0 <= k < |v| - 1 ensures goOn(v[k]) {
      if k >= |first| {
        assert v[k] == rest[k - |first|];
      } else {
        assert v[k] == first[k];
      }
    }
    if rest == [] {
      assert v == first;
    } else {
      assert v[|v| - 1] == rest[|rest| - 1];
    }
  }

  /** One round: the priority streams come first, in order; only the last stream visited may have put an end
      to the round; and if it did not, all open streams were visited. */
  lemma {:induction false} RoundIsComplete(open: seq<nat>, start: nat, goOn: nat -> bool)
    ensures var v := Visited(open, start, goOn);
            && (forall k :: 0 <= k < |v| - 1 ==> goOn(v[k]))
            && (v == [] || goOn(v[|v| - 1]) ==> forall id :: id in open ==> id in v)
            && (1 in open ==> v != [] && v[0] == 1)
            && (3 in open && 1 !in open ==> v != [] && v[0] == 3)
            && (3 in open && 1 in open && goOn(1) ==> |v| > 1 && v[1] == 3)
  {
    hide Walk, Slot;
    var first, w, v := First(open, goOn).0, Walk(open, start, 0, goOn), Visited(open, start, goOn);
    if First(open, goOn).1 {
      WalkIsComplete(open, start, 0, goOn, 0);
      OneMoreFirst(first, w, goOn);
      assert OnlyTheLastEnds(v, goOn);
      if GoesOn(v, goOn) {
        forall id | id in open ensures id in v {
          if !Priority(id) { ReachedInTurn(open, start, goOn, id); }
        }
      }
    }
  }

  lemma {:induction false} ReachedInTurn(open: seq<nat>, start: nat, goOn: nat -> bool, id: nat)
    requires id in open && !Priority(id) && GoesOn(Walk(open, start, 0, goOn), goOn)
    ensures id in Walk(open, start, 0, goOn)
  {
    hide Walk, Slot, GoesOn;
    var pos :| 0 <= pos < |open| && open[pos] == id;
    var t := Reach(start, pos, |open|);
    SlotIs(open, start + t, pos);
    WalkIsComplete(open, start, 0, goOn, t);
  }

  /** Bounded fairness: as many rounds as there are open streams visit every stream, although the
      priority streams that are skipped do not advance the index. */
  lemma {:induction false} EveryStreamGetsItsTurn(open: seq<nat>, start: nat, rounds: seq<nat -> bool>, id: nat)
    requires id in open && !Priority(id) && Undisturbed(open, rounds) && |rounds| >= |open|
    ensures exists k :: 0 <= k < |rounds| && id in Visited(open, Index(open, start, rounds, k), rounds[k])
  {
    hide Walk, Slot, First;
    var n := |open|;
    var pos :| 0 <= pos < n && open[pos] == id;
    var t := Reach(start, pos, n);
    EveryRoundAdvances(open, start, rounds, id, n);
    var k := RoundOf(open, start, rounds, t, n);
    var a := Index(open, start, rounds, k);
    var j := t - Advance(open, start, rounds, k);
    IndexIsAdvance(open, start, rounds, k);
    SameSlot(open, a, start + Advance(open, start, rounds, k), j);
    SlotIs(open, start + t, pos);
    WalkCovers(open, a, 0, rounds[k], j);
    assert id in Visited(open, a, rounds[k]);
  }

  lemma {:induction false} SlotIs(open: seq<nat>, k: nat, pos: nat)
    requires pos < |open| && k % |open| == pos
    ensures Slot(open, k) == open[pos]
  {}

  // ----- the map of open streams -----

  function Count(s: seq<nat>, parity: nat): nat {
    if s == [] then 0 else Count(s[..|s| - 1], parity) + if s[|s| - 1] % 2 == parity then 1 else 0
  }

  lemma {:induction false} CountAppend(a: seq<nat>, b: seq<nat>, parity: nat)
    ensures Count(a + b, parity) == Count(a, parity) + Count(b, parity)
    decreases |b|
  {
    if b == [] {
      assert a + b == a;
    } else {
      CountAppend(a, b[..|b| - 1], parity);
      assert (a + b)[..|a + b| - 1] == a + b[..|b| - 1];
    }
  }

  lemma {:induction false} CountOne(id: nat, parity: nat)
    ensures Count([id], parity) == if id % 2 == parity then 1 else 0
  {
    assert [id][..0] == [];
  }

  lemma {:induction false} SameSize(s: seq<nat>, t: set<nat>)
    requires Distinct(s) && forall x :: x in t <==> x in s
    ensures |t| == |s|
    decreases |s|
  {
    if s == [] {
      assert t == {};
    } else {
      var init, x := s[..|s| - 1], s[|s| - 1];
      assert s == init + [x];
      forall y ensures y in t - {x} <==> y in init {}
      SameSize(init, t - {x});
    }
  }

  lemma {:induction false} DistinctAppend(s: seq<nat>, x: nat)
    requires Distinct(s) && x !in s
    ensures Distinct(s + [x])
  {}

  lemma {:induction false} DistinctWithout(s: seq<nat>, k: nat)
    requires Distinct(s) && k < |s|
    ensures Distinct(s[..k] + s[k + 1..]) && s[k] !in s[..k] + s[k + 1..]
    ensures forall x :: x in s <==> x == s[k] || x in s[..k] + s[k + 1..]
  {
    var t := s[..k] + s[k + 1..];
    assert forall i :: 0 <= i < |t| ==> t[i] == s[if i < k then i else i + 1];
    assert s == s[..k] + [s[k]] + s[k + 1..];
  }

  datatype Lookup = Found | Closed | Invalid

  class StreamsMap {
    const server: bool
    var streams: set<nat>
    var openStreams: seq<nat>
    var roundRobinIndex: nat
    var nextStream: nat
    var highestStreamOpenedByPeer: nat
    var numOutgoingStreams: int
    var numIncomingStreams: int

    /** Streams this side opens: the even ones at the server, the odd ones at the client. */
    predicate Own(id: nat) { server == (id % 2 == 0) }

    /** Streams that are open or were. */
    predicate Ever(id: nat)
      reads this
    {
      id > 0 && if Own(id) then id < nextStream else id <= highestStreamOpenedByPeer
    }

    ghost predicate Valid()
      reads this
    {
      && Distinct(openStreams) && (forall id :: id in streams <==> id in openStreams)
      && roundRobinIndex <= |openStreams|
      && (forall id :: id in streams ==> Ever(id))
      && numOutgoingStreams == Count(openStreams, 0) && numIncomingStreams == Count(openStreams, 1)
      && nextStream > 0 && Own(nextStream) && (highestStreamOpenedByPeer > 0 ==> !Own(highestStreamOpenedByPeer))
    }

    constructor (server: bool)
      ensures Valid() && openStreams == [] && this.server == server
    {
      this.server := server;
      streams, openStreams, roundRobinIndex, highestStreamOpenedByPeer := {}, [], 0, 0;
      nextStream := if server then 2 else 1;
      numOutgoingStreams, numIncomingStreams := 0, 0;
    }

    /** Notes a stream; one that is there already is an error. */
    method PutStream(id: nat) returns (ok: bool)
      requires (forall x :: x in streams <==> x in openStreams) && Distinct(openStreams)
      modifies this`streams, this`openStreams
      ensures ok == (id !in old(streams)) && Distinct(openStreams)
      ensures streams == old(streams) + {id} && openStreams == old(openStreams) + if ok then [id] else []
      ensures forall parity :: Count(openStreams, parity) ==
                               Count(old(openStreams), parity) + if ok && id % 2 == parity then 1 else 0
    {
      hide Distinct, Count;
      if id in streams { return false; }
      streams := streams + {id};
      DistinctAppend(openStreams, id);
      forall parity ensures Count(openStreams + [id], parity) == Count(openStreams, parity) + if id % 2 == parity
          then 1 else 0 {
        CountAppend(openStreams, [id], parity);
        CountOne(id, parity);
      }
      openStreams := openStreams + [id];
      return true;
    }

    method OpenStream() returns (id: nat)
      requires Valid()
      modifies this
      ensures Valid() && id == old(nextStream) && !old(Ever(id)) && nextStream == id + 2
      ensures openStreams == old(openStreams) + [id] && highestStreamOpenedByPeer == old(highestStreamOpenedByPeer)
    {
      hide Distinct, Count;
      id := nextStream;
      if server { numOutgoingStreams := numOutgoingStreams + 1; } else { numIncomingStreams := numIncomingStreams + 1; }
      nextStream := nextStream + 2;
      var ok := PutStream(id);
    }

    method OpenRemoteStream(id: nat)
      requires Valid() && id > highestStreamOpenedByPeer && !Own(id)
      modifies this
      ensures Valid() && highestStreamOpenedByPeer == id && nextStream == old(nextStream)
      ensures openStreams == old(openStreams) + [id] && roundRobinIndex == old(roundRobinIndex)
    {
      hide Distinct, Count;
      if server { numIncomingStreams := numIncomingStreams + 1; } else { numOutgoingStreams := numOutgoingStreams + 1; }
      highestStreamOpenedByPeer := id;
      var ok := PutStream(id);
    }

    /** An open stream is found.  A stream of the peer beyond the highest so far is opened together with
        all those in between; a closed stream is not opened again. */
    method GetOrOpenStream(id: nat) returns (r: Lookup)
      requires Valid()
      modifies this
      ensures Valid() && nextStream == old(nextStream)
      ensures forall x :: old(Ever(x)) ==> Ever(x)
      ensures r == if id in old(streams) then Found
                   else if Own(id) then (if id <= nextStream then Closed else Invalid)
                   else if id <= old(highestStreamOpenedByPeer) then Closed
                   else Found
      ensures forall x: nat :: x in streams <==>
                x in old(streams) || (r == Found && id !in old(streams) && !Own(x)
                                      && old(highestStreamOpenedByPeer) < x <= id)
      ensures old(openStreams) <= openStreams
    {
      hide Distinct, Count;
      if id in streams { return Found; }
      if Own(id) {
        return if id <= nextStream then Closed else Invalid;
      }
      if id <= highestStreamOpenedByPeer { return Closed; }
      var sid := highestStreamOpenedByPeer + 2;
      if sid == 2 && server { sid := 1; }
      while sid <= id
        invariant Valid() && nextStream == old(nextStream) && old(openStreams) <= openStreams
        invariant !Own(sid) && old(highestStreamOpenedByPeer) <= highestStreamOpenedByPeer < sid <= id + 2
        invariant sid == highestStreamOpenedByPeer + 2 || (sid == 1 && highestStreamOpenedByPeer == 0)
        invariant forall x: nat :: x in streams <==>
                    x in old(streams) || (!Own(x) && old(highestStreamOpenedByPeer) < x < sid)
      {
        OpenRemoteStream(sid);
        sid := sid + 2;
      }
      return Found;
    }

    /** The round-robin index stays with the stream it points to. */
    method RemoveStream(id: nat) returns (ok: bool)
      requires Valid()
      modifies this
      ensures Valid() && ok == (id in old(streams)) && streams == old(streams) - {id}
      ensures forall x :: Ever(x) == old(Ever(x))
      ensures forall k :: 0 <= k < |old(openStreams)| && old(openStreams)[k] == id ==>
                && openStreams == old(openStreams)[..k] + old(openStreams)[k + 1..]
                && roundRobinIndex == if k < old(roundRobinIndex) then old(roundRobinIndex) - 1
                    else old(roundRobinIndex)
      ensures !ok ==> openStreams == old(openStreams) && roundRobinIndex == old(roundRobinIndex)
    {
      hide Count;
      if id !in streams { return false; }
      var k := 0;
      while openStreams[k] != id
        invariant k < |openStreams| && id !in openStreams[..k] && id in openStreams
        decreases |openStreams| - k
      {
        k := k + 1;
      }
      DistinctWithout(openStreams, k);
      CountWithout(openStreams, k);
      if id % 2 == 0 { numOutgoingStreams := numOutgoingStreams - 1; }
          else { numIncomingStreams := numIncomingStreams - 1; }
      openStreams := openStreams[..k] + openStreams[k + 1..];
      if k < roundRobinIndex { roundRobinIndex := roundRobinIndex - 1; }
      streams := streams - {id};
      return true;
    }

    /** One round over the open streams. */
    method RoundRobinIterate(goOn: nat -> bool) returns (visited: seq<nat>)
      requires Valid()
      modifies this`roundRobinIndex
      ensures Valid()
      ensures visited == Visited(openStreams, old(roundRobinIndex), goOn)
      ensures roundRobinIndex == NextIndex(openStreams, old(roundRobinIndex), goOn)
    {
      hide Distinct, Count, Slot, Walk, Moved;
      SameSize(openStreams, streams);
      var n, start := |streams|, roundRobinIndex;
      visited := [];
      if 1 in streams {
        visited := visited + [1];
        if !goOn(1) { return; }
      }
      if 3 in streams {
        visited := visited + [3];
        if !goOn(3) { return; }
      }
      var others := VisitInTurn(n, start, goOn);
      MovedMeans(start, |others|, n);
      visited := visited + others;
    }

    /** The second part of a round: the streams other than the priority ones, from the index on. */
    method VisitInTurn(n: nat, start: nat, goOn: nat -> bool) returns (visited: seq<nat>)
      requires n == |openStreams| && start == roundRobinIndex <= n
      modifies this`roundRobinIndex
      ensures visited == Walk(openStreams, start, 0, goOn)
      ensures roundRobinIndex == Moved(start, |visited|, n) <= n
    {
      hide Slot, Moved;
      visited := [];
      MovedMeans(start, 0, n);
      for i := 0 to n
        invariant visited + Walk(openStreams, start, i, goOn) == Walk(openStreams, start, 0, goOn)
        invariant roundRobinIndex == Moved(start, |visited|, n) <= n
      {
        var id := Slot(openStreams, start + i);
        if !Priority(id) {
          WalkStep(visited, id, Walk(openStreams, start, i + 1, goOn));
          visited := visited + [id];
          MoveOn(start, |visited|, n);
          roundRobinIndex := (roundRobinIndex + 1) % n;
          if !goOn(id) { return; }
        }
      }
      assert visited + [] == visited;
    }
  }

  lemma {:induction false} WalkStep(done: seq<nat>, id: nat, rest: seq<nat>)
    ensures done + ([id] + rest) == done + [id] + rest
  {}

  /** The index after `k` streams were visited in turn. */
  function Moved(start: nat, k: nat, n: nat): nat { if k == 0 || n == 0 then start else (start + k) % n }

  lemma {:induction false} MovedMeans(start: nat, k: nat, n: nat)
    ensures n > 0 ==> Moved(start, k, n) == if k == 0 then start else (start + k) % n
    ensures k == 0 ==> Moved(start, k, n) == start
    ensures start <= n ==> Moved(start, k, n) <= n
  {
    if n > 0 { var _ := Divide(start + k, n); }
  }

  lemma {:induction false} MoveOn(start: nat, k: nat, n: nat)
    requires n > 0 && k > 0
    ensures (Moved(start, k - 1, n) + 1) % n == Moved(start, k, n) < n
  {
    IndexStep(start, k, n);
    var _ := Divide(start + k, n);
  }

  lemma {:induction false} IndexStep(start: nat, k: nat, n: nat)
    requires n > 0 && k > 0
    ensures ((start + (k - 1)) % n + 1) % n == (start + k) % n
    ensures (start + k) % n < n
  {
    ModAdd(start + (k - 1), 1, n);
  }

  lemma {:induction false} CountWithout(s: seq<nat>, k: nat)
    requires k < |s|
    ensures forall parity :: Count(s[..k] + s[k + 1..], parity) == Count(s, parity) - if s[k] % 2 == parity then 1
            else 0
  {
    hide Count;
    assert s == s[..k] + [s[k]] + s[k + 1..];
    forall parity ensures Count(s[..k] + s[k + 1..], parity) == Count(s, parity) - if s[k] % 2 == parity then 1 else 0 {
      CountAppend(s[..k], s[k + 1..], parity);
      CountAppend(s[..k] + [s[k]], s[k + 1..], parity);
      CountAppend(s[..k], [s[k]], parity);
      CountOne(s[k], parity);
    }
  }
}
