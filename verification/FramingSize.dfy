/** How many bytes the popped stream frames take. */
module FramingSize {
  import opened Bytes
  import opened StreamFrames
  import FlowControl
  import opened Framing

  function WireLength(f: StreamFrame): nat { MinLength(f) + |f.data| }

  function Wire(store: Store, refs: seq<nat>): nat
    requires Known(store, refs)
  {
    if refs == [] then 0 else Wire(store, refs[..|refs| - 1]) + WireLength(store[refs[|refs| - 1]])
  }

  function Count(refs: seq<nat>, r: nat): (n: nat)
    ensures n > 0 <==> r in refs
  {
    if refs == [] then 0
    else
      assert refs == refs[..|refs| - 1] + [refs[|refs| - 1]];
      Count(refs[..|refs| - 1], r) + if refs[|refs| - 1] == r then 1 else 0
  }

  lemma {:induction false} AppendOne(store: Store, refs: seq<nat>, r: nat)
    requires Known(store, refs) && r in store
    ensures Known(store, refs + [r])
    ensures TotalCost(store, refs + [r]) == TotalCost(store, refs) + Cost(store[r])
    ensures Wire(store, refs + [r]) == Wire(store, refs) + WireLength(store[r])
    ensures forall x: nat :: Count(refs + [r], x) == Count(refs, x) + if x == r then 1 else 0
  {
    assert (refs + [r])[..|refs|] == refs;
  }

  /** What the frames cost depends on neither their length fields nor other frames. */
  lemma {:induction false} SameCost(a: Store, b: Store, refs: seq<nat>)
    requires Known(a, refs) && Known(b, refs)
    requires forall i :: 0 <= i < |refs| ==> b[refs[i]].(dataLenPresent := true) == a[refs[i]].(dataLenPresent := true)
    ensures TotalCost(a, refs) == TotalCost(b, refs)
  {
    hide Cost;
    if refs != [] {
      var r := refs[|refs| - 1];
      SameCost(a, b, refs[..|refs| - 1]);
      CostIgnoresLength(a[r], b[r]);
    }
  }

  lemma {:induction false} CostIgnoresLength(f: StreamFrame, g: StreamFrame)
    requires f.(dataLenPresent := true) == g.(dataLenPresent := true)
    ensures Cost(f) == Cost(g)
  {
    assert f.(dataLenPresent := true).data == g.data;
  }

  lemma {:induction false} MulStep(c: int, d: int)
    ensures (c + 1) * d == c * d + d
  {}

  lemma {:induction false} ChangeOne(store: Store, refs: seq<nat>, r: nat, g: StreamFrame)
    requires Known(store, refs) && r in store
    ensures Known(store[r := g], refs)
    ensures TotalCost(store[r := g], refs) == TotalCost(store, refs) + Count(refs, r) * (Cost(g) - Cost(store[r]))
    ensures Wire(store[r := g], refs) == Wire(store, refs) + Count(refs, r) * (WireLength(g) - WireLength(store[r]))
  {
    hide Cost, WireLength;
    if refs != [] {
      ChangeOne(store, refs[..|refs| - 1], r, g);
      MulStep(Count(refs[..|refs| - 1], r), Cost(g) - Cost(store[r]));
      MulStep(Count(refs[..|refs| - 1], r), WireLength(g) - WireLength(store[r]));
    }
  }

  /** With all lengths present the frames take what they cost. */
  lemma {:induction false} WireIsCost(store: Store, refs: seq<nat>)
    requires Known(store, refs) && forall i :: 0 <= i < |refs| ==> store[refs[i]].dataLenPresent
    ensures Wire(store, refs) == TotalCost(store, refs)
  {
    if refs != [] {
      WireIsCost(store, refs[..|refs| - 1]);
      var f := store[refs[|refs| - 1]];
      assert f.(dataLenPresent := true) == f;
    }
  }

  /** A cut makes the header of what remains longer by at most as many bytes as it takes from its
      data, except when one byte is cut from the very start of a stream. */
  lemma {:induction false} Growth(f: StreamFrame, n: nat)
    requires 0 < n <= |f.data|
    ensures f.offset == 0 && n == 1 ==> Cost(Back(f, n)) == Cost(f) + 1
    ensures !(f.offset == 0 && n == 1) ==> Cost(Back(f, n)) <= Cost(f)
  {
    OffsetGrowth(f.offset, n);
    assert HeaderLength(f) == 3 + IdLength(f.id) + OffsetLength(f.offset);
  }

  lemma {:induction false} OffsetGrowth(o: nat, n: nat)
    requires n > 0
    ensures o == 0 && n == 1 ==> OffsetLength(o + n) == 2 && OffsetLength(o) == 0
    ensures !(o == 0 && n == 1) ==> OffsetLength(o + n) <= OffsetLength(o) + n
  {
    hide IdLength;
  }

  lemma {:induction false} FrontCost(f: StreamFrame, n: nat)
    requires 0 < n <= |f.data|
    ensures Cost(Front(f, n)) == HeaderLength(f) + n
  {}

  // ----- the frames that are sent again -----

  /** One byte is cut off a frame at the start of its stream, and the same frame object was popped
      whole before, in the same packet. */
  predicate UnluckyCut(store: Store, queue: seq<nat>, maxLen: nat)
    requires Known(store, queue)
  {
    var k := Whole(store, queue, maxLen);
    Cut(store, queue, maxLen) == 1 && store[queue[k]].offset == 0 && queue[k] in queue[..k]
  }

  lemma {:induction false} PoppedFacts(store: Store, queue: seq<nat>, maxLen: nat, next: nat)
    requires Known(store, queue) && next !in store
    ensures var p := PopRetransmissions(store, queue, maxLen, next);
            && Known(p.store, p.refs) && Known(p.store, p.queue) && p.length <= maxLen
            && (forall i :: 0 <= i < |p.refs| ==> p.store[p.refs[i]].dataLenPresent)
            && store.Keys <= p.store.Keys <= store.Keys + {next}
  {
    hide Whole, Cut, TotalCost, HeaderLength, Cost;
    var k := Whole(store, queue, maxLen);
    var p := PopRetransmissions(store, queue, maxLen, next);
    forall i | 0 <= i < |p.refs| ensures p.refs[i] in p.store && p.store[p.refs[i]].dataLenPresent {
      if i < k { assert p.refs[i] == queue[i]; }
    }
    forall i | 0 <= i < |p.queue| ensures p.queue[i] in p.store { assert p.queue[i] == queue[k + i]; }
  }

  /** The popped frames cost what was reckoned, unless the cut was unlucky. */
  lemma {:induction false} PoppedCost(store: Store, queue: seq<nat>, maxLen: nat, next: nat)
    requires Known(store, queue) && next !in store
    ensures var p := PopRetransmissions(store, queue, maxLen, next);
            && Known(p.store, p.refs)
            && (UnluckyCut(store, queue, maxLen) ==>
                  TotalCost(p.store, p.refs) == maxLen
                      + Count(queue[..Whole(store, queue, maxLen)], queue[Whole(store, queue, maxLen)]))
            && (!UnluckyCut(store, queue, maxLen) ==> TotalCost(p.store, p.refs) <= p.length)
  {
    hide Whole, Cut, TotalCost, HeaderLength, Cost, Back, Front, Count;
    PoppedFacts(store, queue, maxLen, next);
    var k, n := Whole(store, queue, maxLen), Cut(store, queue, maxLen);
    var whole := queue[..k];
    if n == 0 {
      SameCost(store, Marked(store, queue[..if k < |queue| then k + 1 else k]), whole);
    } else {
      CutCost(store, queue, maxLen, next);
    }
  }

  lemma {:induction false} CutCost(store: Store, queue: seq<nat>, maxLen: nat, next: nat)
    requires Known(store, queue) && next !in store && Cut(store, queue, maxLen) > 0
    ensures var p, k := PopRetransmissions(store, queue, maxLen, next), Whole(store, queue, maxLen);
            && Known(p.store, p.refs)
            && (UnluckyCut(store, queue, maxLen) ==> TotalCost(p.store, p.refs) == maxLen + Count(queue[..k], queue[k]))
            && (!UnluckyCut(store, queue, maxLen) ==> TotalCost(p.store, p.refs) <= maxLen)
  {
    hide Whole, TotalCost, HeaderLength, Cost, Count, Fit, Front, Back;
    var k, n := Whole(store, queue, maxLen), Cut(store, queue, maxLen);
    var r, whole := queue[k], queue[..k];
    var marked := Marked(store, queue[..k + 1]);
    assert queue[..k + 1][k] == r;
    var f := marked[r];
    CostIgnoresLength(store[r], f);
    HeaderIgnoresLength(store[r], f);
    SameCost(store, marked, whole);
    ChangeOne(marked, whole, r, Back(f, n));
    var changed := marked[r := Back(f, n)];
    var all := changed[next := Front(f, n)];
    SameCost(changed, all, whole);
    AppendOne(all, whole, next);
    FrontCost(f, n);
    Growth(f, n);
    CutFills(store, queue, maxLen);
    var d := Cost(Back(f, n)) - Cost(f);
    Sign(Count(whole, r), d);
  }

  lemma {:induction false} CutFills(store: Store, queue: seq<nat>, maxLen: nat)
    requires Known(store, queue) && Cut(store, queue, maxLen) > 0
    ensures var k := Whole(store, queue, maxLen);
            TotalCost(store, queue[..k]) + HeaderLength(store[queue[k]]) + Cut(store, queue, maxLen) == maxLen
  {
    hide Whole, TotalCost, HeaderLength;
  }

  lemma {:induction false} HeaderIgnoresLength(f: StreamFrame, g: StreamFrame)
    requires f.(dataLenPresent := true) == g.(dataLenPresent := true)
    ensures HeaderLength(f) == HeaderLength(g)
  {}

  lemma {:induction false} Sign(c: nat, d: int)
    ensures d <= 0 ==> c * d <= 0
    ensures d == 1 ==> c * d == c
    ensures c == 0 ==> c * d == 0
  {}

  // ----- all frames -----

  function CostOf(frames: seq<StreamFrame>): (n: nat)
    ensures n >= 4 * |frames|
  {
    if frames == [] then 0 else CostOf(frames[..|frames| - 1]) + Cost(frames[|frames| - 1])
  }

  lemma {:induction false} CostOfAppend(a: seq<StreamFrame>, b: seq<StreamFrame>)
    ensures CostOf(a + b) == CostOf(a) + CostOf(b)
    decreases |b|
  {
    hide Cost;
    if b == [] {
      assert a + b == a;
    } else {
      CostOfAppend(a, b[..|b| - 1]);
      assert (a + b)[..|a + b| - 1] == a + b[..|b| - 1];
    }
  }

  lemma {:induction false} CostOfOne(a: seq<StreamFrame>)
    requires |a| <= 1
    ensures CostOf(a) == if a == [] then 0 else Cost(a[0])
  {
    hide Cost;
  }

  lemma {:induction false} NormalLength(s: Sending, order: seq<nat>, room: nat)
    requires forall i :: 0 <= i < |order| ==> order[i] in s.streams
    ensures CostOf(PopNormal(s, order, room).frames) == PopNormal(s, order, room).length
    decreases |order|
  {
    hide Cost, VisitStream, CostOf, FlowControl.AfterSent;
    CostOfOne([]);
    if order != [] {
      var v := VisitStream(s, order[0], room);
      CostOfOne(v.frame);
      if v.goOn {
        VisitKeepsStreams(s, order[0], room);
        var left := room - if v.frame == [] then 0 else Cost(v.frame[0]);
        NormalLength(v.state, order[1..], left);
        CostOfAppend(v.frame, PopNormal(v.state, order[1..], left).frames);
      }
    }
  }

  lemma {:induction false} VisitKeepsStreams(s: Sending, id: nat, room: nat)
    requires id in s.streams
    ensures VisitStream(s, id, room).state.streams.Keys == s.streams.Keys
  {
    hide Cost, HeaderLength;
  }

  lemma {:induction false} StoredCost(store: Store, refs: seq<nat>, first: nat, frames: seq<StreamFrame>)
    requires Known(store, refs) && forall r :: r in store ==> r < first
    ensures var s, all := Stored(store, first, frames), refs + Numbers(first, |frames|);
            Known(s, all) && TotalCost(s, all) == TotalCost(store, refs) + CostOf(frames)
    decreases |frames|
  {
    hide Cost, TotalCost, CostOf;
    if frames == [] {
      assert refs + Numbers(first, 0) == refs;
      CostOfOne([]);
    } else {
      var n := |frames| - 1;
      var init, f := frames[..n], frames[n];
      assert frames == init + [f];
      StoredCost(store, refs, first, init);
      var before := Stored(store, first, init);
      var some := refs + Numbers(first, n);
      StoreOneMore(before, some, first + n, f);
      assert refs + Numbers(first, n + 1) == some + [first + n];
      CostOfAppend(init, [f]);
      CostOfOne([f]);
    }
  }

  lemma {:induction false} StoreOneMore(store: Store, refs: seq<nat>, r: nat, f: StreamFrame)
    requires Known(store, refs) && r !in store
    ensures var s := store[r := f]; Known(s, refs + [r]) && TotalCost(s, refs + [r]) == TotalCost(store, refs) + Cost(f)
  {
    hide Cost, TotalCost;
    var s := store[r := f];
    SameCost(store, s, refs);
    AppendOne(s, refs, r);
  }

  lemma {:induction false} OutputParts(f: Framer, maxLen: nat, order: seq<nat>, p: Popped, next: nat, q: Fresh)
    requires Valid(f) && Visits(f, order)
    requires p == PopRetransmissions(f.store, f.queue, maxLen, f.next)
    requires next == if Cut(f.store, f.queue, maxLen) > 0 then f.next + 1 else f.next
    requires p.length <= maxLen && q == PopNormal(f.sending, order, maxLen - p.length)
    ensures PopStreamFrames(f, maxLen, order) ==
            Output(Framer(Stored(p.store, next, q.frames), p.queue, next + |q.frames|, q.state), p.refs
                   + Numbers(next, |q.frames|))
    ensures Cut(f.store, f.queue, maxLen) > 0 ==> p.length == maxLen
    ensures Cut(f.store, f.queue, maxLen) == 0 ==> p.store.Keys == f.store.Keys
    ensures Cut(f.store, f.queue, maxLen) > 0 ==> p.refs == f.queue[..Whole(f.store, f.queue, maxLen)] + [f.next]
  {
    hide Whole, TotalCost, PopNormal, Marked, Front, Back, Cut, Stored, HeaderLength;
  }

  /** All popped frames are known, carry their lengths, and together cost at most `maxLen` unless the
      cut was unlucky; the last frame is then the one that was cut off. */
  lemma {:induction false} OutputCost(f: Framer, maxLen: nat, order: seq<nat>)
    requires Valid(f) && Visits(f, order)
    ensures var o, k := PopStreamFrames(f, maxLen, order), Whole(f.store, f.queue, maxLen);
            && Known(o.framer.store, o.refs) && Valid(o.framer)
            && (forall i :: 0 <= i < |o.refs| ==> o.framer.store[o.refs[i]].dataLenPresent)
            && (UnluckyCut(f.store, f.queue, maxLen) ==>
                  && o.refs == f.queue[..k] + [f.next]
                  && TotalCost(o.framer.store, o.refs) == maxLen + Count(f.queue[..k], f.queue[k]))
            && (!UnluckyCut(f.store, f.queue, maxLen) ==> TotalCost(o.framer.store, o.refs) <= maxLen)
  {
    hide Whole, TotalCost, PopNormal, Count, PopRetransmissions, PopStreamFrames, Cut, UnluckyCut, CostOf;
    var p := PopRetransmissions(f.store, f.queue, maxLen, f.next);
    var next := if Cut(f.store, f.queue, maxLen) > 0 then f.next + 1 else f.next;
    PoppedFacts(f.store, f.queue, maxLen, f.next);
    PoppedCost(f.store, f.queue, maxLen, f.next);
    var q := PopNormal(f.sending, order, maxLen - p.length);
    OutputParts(f, maxLen, order, p, next, q);
    NormalLength(f.sending, order, maxLen - p.length);
    StoredCost(p.store, p.refs, next, q.frames);
    StoredMarked(p.store, p.refs, next, q.frames);
    UnluckyIsACut(f.store, f.queue, maxLen);
    if UnluckyCut(f.store, f.queue, maxLen) {
      assert p.refs + Numbers(next, 0) == p.refs;
    }
  }

  lemma {:induction false} StoredMarked(store: Store, refs: seq<nat>, first: nat, frames: seq<StreamFrame>)
    requires Known(store, refs) && forall r :: r in store ==> r < first
    requires forall i :: 0 <= i < |refs| ==> store[refs[i]].dataLenPresent
    requires forall i :: 0 <= i < |frames| ==> frames[i].dataLenPresent
    ensures var s, all := Stored(store, first, frames), refs + Numbers(first, |frames|);
            Known(s, all) && forall i :: 0 <= i < |all| ==> s[all[i]].dataLenPresent
  {
    var s, all := Stored(store, first, frames), refs + Numbers(first, |frames|);
    forall i | 0 <= i < |all| ensures all[i] in s && s[all[i]].dataLenPresent {
      if i >= |refs| { assert s[first + (i - |refs|)] == frames[i - |refs|]; }
    }
  }

  lemma {:induction false} UnluckyIsACut(store: Store, queue: seq<nat>, maxLen: nat)
    requires Known(store, queue)
    ensures UnluckyCut(store, queue, maxLen) ==> Cut(store, queue, maxLen) > 0
  {}

  /** The stream frames of a packet take at most `maxLen - 2` bytes once the last one drops its length,
      exactly when the cut is not unlucky; an unlucky cut costs one byte more for every time the frame
      object was popped before. */
  lemma {:induction false} StreamPartFits(f: Framer, maxLen: nat, order: seq<nat>)
    requires Valid(f) && Visits(f, order)
    ensures var o, k := PopStreamFrames(f, maxLen, order), Whole(f.store, f.queue, maxLen);
            && Known(o.framer.store, o.refs)
            && (o.refs != [] ==>
                  var wire := Wire(LastWithoutLength(o.framer.store, o.refs), o.refs);
                  && (wire + 2 <= maxLen <==> !UnluckyCut(f.store, f.queue, maxLen))
                  && (UnluckyCut(f.store, f.queue, maxLen) ==> wire + 2 == maxLen + Count(f.queue[..k], f.queue[k])))
  {
    hide Whole, Cut, TotalCost, PopStreamFrames, UnluckyCut, Count, Wire, WireLength;
    var o, k := PopStreamFrames(f, maxLen, order), Whole(f.store, f.queue, maxLen);
    OutputCost(f, maxLen, order);
    if o.refs != [] {
      LastSavesTwo(o.framer.store, o.refs);
      if UnluckyCut(f.store, f.queue, maxLen) {
        UnluckyFacts(f, maxLen, k);
        AppendOneCount(f.queue[..k], f.next);
      }
    }
  }

  lemma {:induction false} LastSavesTwo(s: Store, refs: seq<nat>)
    requires refs != [] && Known(s, refs) && forall i :: 0 <= i < |refs| ==> s[refs[i]].dataLenPresent
    ensures var c := Count(refs, refs[|refs| - 1]);
            c >= 1 && Wire(LastWithoutLength(s, refs), refs) == TotalCost(s, refs) - 2 * c
  {
    hide TotalCost, Count, Wire, WireLength;
    var r := refs[|refs| - 1];
    WireIsCost(s, refs);
    ChangeOne(s, refs, r, s[r].(dataLenPresent := false));
    TwoBytes(s[r]);
  }

  lemma {:induction false} UnluckyFacts(f: Framer, maxLen: nat, k: nat)
    requires Valid(f) && UnluckyCut(f.store, f.queue, maxLen) && k == Whole(f.store, f.queue, maxLen)
    ensures f.next !in f.queue[..k] && Count(f.queue[..k], f.queue[k]) > 0
  {
    hide Whole;
  }

  lemma {:induction false} AppendOneCount(refs: seq<nat>, r: nat)
    requires r !in refs
    ensures Count(refs + [r], r) == 1
  {
    assert (refs + [r])[..|refs|] == refs;
  }

  lemma {:induction false} TwoBytes(f: StreamFrame)
    requires f.dataLenPresent
    ensures WireLength(f.(dataLenPresent := false)) - WireLength(f) == -2
  {}
}
