/** What the frame sorter means: missing bytes, exact delivery, and where the FIN bit goes wrong. */
module StreamDelivery {
  import opened Bytes
  import opened FrameSorter

  ghost predicate Missing(gaps: seq<Gap>, b: nat) {
    exists i :: 0 <= i < |gaps| && gaps[i].start <= b < gaps[i].end
  }

  /** Looking up queued frames one after the other leads from `p` exactly to `t`. */
  ghost predicate Chain(q: map<nat, Frame>, p: nat, t: nat)
    decreases t - p
  {
    p == t || (p < t && p in q && 0 < |q[p].data| <= t - p && Chain(q, p + |q[p].data|, t))
  }

  /** From `p`, and from the end of every gap, a chain leads to the start of the next gap. */
  ghost predicate Linked(q: map<nat, Frame>, p: nat, gaps: seq<Gap>)
    decreases |gaps|
  {
    gaps == [] || (Chain(q, p, gaps[0].start) && Linked(q, gaps[0].end, gaps[1..]))
  }

  ghost predicate Outside(gaps: seq<Gap>, lo: nat, hi: nat) {
    forall i :: 0 <= i < |gaps| ==> hi <= gaps[i].start || gaps[i].end <= lo
  }

  /** `f` is a slice of `stream`; only the final offset carries FIN or an empty frame. */
  ghost predicate SliceOf(f: Frame, stream: seq<byte>) {
    && f.End() <= |stream|
    && f.data == stream[f.offset..f.End()]
    && (|f.data| == 0 || f.fin ==> f.End() == |stream|)
  }

  ghost predicate FrameOk(f: Frame, k: nat, gaps: seq<Gap>, stream: seq<byte>) {
    && f.offset == k && k + |f.data| <= |stream| && f.data == stream[k..k + |f.data|]
    && if f.data == [] then k == |stream| else Outside(gaps, k, k + |f.data|)
  }

  ghost predicate QueuedOk(q: map<nat, Frame>, gaps: seq<Gap>, stream: seq<byte>) {
    forall k :: k in q ==> FrameOk(q[k], k, gaps, stream)
  }

  ghost predicate Inv(st: Sorter, stream: seq<byte>) {
    && |stream| < MAX_BYTE_COUNT
    && Canonical(st.gaps)
    && st.gaps[|st.gaps| - 1].start <= |stream|
    && QueuedOk(st.queued, st.gaps, stream)
    && Linked(st.queued, st.readPosition, st.gaps)
  }

  // ----- chains -----

  lemma {:induction false} ChainFrame(q: map<nat, Frame>, q': map<nat, Frame>, p: nat, t: nat)
    requires Chain(q, p, t)
    requires forall k :: p <= k < t && k in q ==> k in q' && q'[k] == q[k]
    ensures Chain(q', p, t) && p <= t
    decreases t - p
  {
    if p != t { ChainFrame(q, q', p + |q[p].data|, t); }
  }

  lemma {:induction false} ChainConcat(q: map<nat, Frame>, p: nat, m: nat, t: nat)
    requires Chain(q, p, m) && Chain(q, m, t)
    ensures Chain(q, p, t)
    decreases m - p
  {
    if p != m {
      ChainOrder(q, m, t);
      ChainConcat(q, p + |q[p].data|, m, t);
    }
  }

  lemma {:induction false} ChainOrder(q: map<nat, Frame>, p: nat, t: nat)
    requires Chain(q, p, t)
    ensures p <= t
  {}

  ghost function Anchor(p: nat, gaps: seq<Gap>): nat {
    if gaps == [] then p else gaps[|gaps| - 1].end
  }

  lemma {:induction false} LinkedAppend(q: map<nat, Frame>, p: nat, a: seq<Gap>, b: seq<Gap>)
    ensures Linked(q, p, a + b) <==> Linked(q, p, a) && Linked(q, Anchor(p, a), b)
    decreases |a|
  {
    if a == [] {
      assert a + b == b;
    } else {
      assert (a + b)[1..] == a[1..] + b && (a + b)[0] == a[0];
      LinkedAppend(q, a[0].end, a[1..], b);
    }
  }

  /** Links survive when no queued frame below the start of the last gap is touched. */
  lemma {:induction false} LinkedFrame(q: map<nat, Frame>, q': map<nat, Frame>, p: nat, gaps: seq<Gap>, lo: nat,
                                       hi: nat)
    requires Linked(q, p, gaps) && lo <= p
    requires forall i :: 0 <= i < |gaps| ==> gaps[i].start < gaps[i].end && gaps[i].start <= hi
    requires forall k :: lo <= k < hi && k in q ==> k in q' && q'[k] == q[k]
    ensures Linked(q', p, gaps)
    decreases |gaps|
  {
    if gaps != [] {
      ChainFrame(q, q', p, gaps[0].start);
      LinkedFrame(q, q', gaps[0].end, gaps[1..], lo, hi);
    }
  }

  // ----- Push -----

  /** The cut made on account of a queued frame only drops bytes that are not missing, and the
      rest never starts right at the end of a gap. */
  lemma {:induction false} CutIsSound(st: Sorter, stream: seq<byte>, f: Frame)
    requires Inv(st, stream) && SliceOf(f, stream) && |f.data| > 0
    ensures forall b :: f.offset <= b < CutStart(st.queued, f) ==> !Missing(st.gaps, b)
    ensures forall i :: 0 <= i < |st.gaps| ==> CutStart(st.queued, f) != st.gaps[i].end
  {
    var s := CutStart(st.queued, f);
    forall i | 0 <= i < |st.gaps|
      ensures s != st.gaps[i].end
    {
      GapEndsAreQueued(st, stream, i);
      assert f.offset in st.queued ==> FrameOk(st.queued[f.offset], f.offset, st.gaps, stream);
    }
  }

  lemma {:induction false} GapEndsAreQueued(st: Sorter, stream: seq<byte>, i: nat)
    requires Inv(st, stream) && i < |st.gaps|
    ensures i + 1 < |st.gaps| ==> st.gaps[i].end in st.queued && |st.queued[st.gaps[i].end].data| > 0
    ensures i + 1 == |st.gaps| ==> |stream| < st.gaps[i].end
  {
    if i + 1 < |st.gaps| {
      var a, b := st.gaps[..i + 1], st.gaps[i + 1..];
      assert st.gaps == a + b;
      LinkedAppend(st.queued, st.readPosition, a, b);
      assert Chain(st.queued, st.gaps[i].end, st.gaps[i + 1].start);
    }
  }

  /** [lo, hi) begins inside gap `g` and ends inside gap `j`, the last one it reaches. */
  ghost predicate Fits(gaps: seq<Gap>, g: nat, j: nat, lo: nat, hi: nat) {
    && Canonical(gaps) && g <= j < |gaps| && lo < hi < MAX_BYTE_COUNT
    && gaps[g].start <= lo < gaps[g].end && gaps[j].start < hi <= gaps[j].end
  }

  /** Every gap after carving lies within an old one and avoids [lo, hi). */
  lemma {:induction false} CarvedGap(gaps: seq<Gap>, g: nat, j: nat, lo: nat, hi: nat, i: nat) returns (k: nat)
    requires Fits(gaps, g, j, lo, hi) && i < |Carve(gaps, g, j, lo, hi)|
    ensures k < |gaps|
    ensures var c := Carve(gaps, g, j, lo, hi)[i];
            gaps[k].start <= c.start && c.end <= gaps[k].end && (c.end <= lo || hi <= c.start)
  {
    var mid := Left(gaps[g], lo) + Right(gaps[j], hi);
    if i < g {
      k := i;
    } else if i < g + |mid| {
      var c := Carve(gaps, g, j, lo, hi)[i];
      assert c == mid[i - g];
      k := if c.start < lo then g else j;
    } else {
      k := i - g - |mid| + j + 1;
      assert Carve(gaps, g, j, lo, hi)[i] == gaps[k];
    }
  }

  lemma {:induction false} CarveMissing(gaps: seq<Gap>, g: nat, j: nat, lo: nat, hi: nat, b: nat)
    requires Fits(gaps, g, j, lo, hi)
    ensures Missing(Carve(gaps, g, j, lo, hi), b) <==> Missing(gaps, b) && !(lo <= b < hi)
  {
    hide Carve, Canonical;
    var c := Carve(gaps, g, j, lo, hi);
    if Missing(c, b) {
      var i :| 0 <= i < |c| && c[i].start <= b < c[i].end;
      var k := CarvedGap(gaps, g, j, lo, hi, i);
    }
    if Missing(gaps, b) && !(lo <= b < hi) {
      var k :| 0 <= k < |gaps| && gaps[k].start <= b < gaps[k].end;
      var i := GapLeft(gaps, g, j, lo, hi, k, b);
    }
  }

  lemma {:induction false} GapLeft(gaps: seq<Gap>, g: nat, j: nat, lo: nat, hi: nat, k: nat, b: nat) returns (i: nat)
    requires Fits(gaps, g, j, lo, hi) && k < |gaps| && gaps[k].start <= b < gaps[k].end && !(lo <= b < hi)
    ensures var c := Carve(gaps, g, j, lo, hi); i < |c| && c[i].start <= b < c[i].end
  {
    var mid := Left(gaps[g], lo) + Right(gaps[j], hi);
    if k < g {
      i := k;
    } else if k > j {
      i := g + |mid| + (k - j - 1);
    } else if b < lo {
      i := g;
      assert mid[0] == Gap(gaps[g].start, lo);
    } else {
      i := g + |mid| - 1;
      assert mid[|mid| - 1] == Gap(hi, gaps[j].end);
    }
  }

  lemma {:induction false} CarveOutside(gaps: seq<Gap>, g: nat, j: nat, lo: nat, hi: nat, x: nat, y: nat)
    requires Fits(gaps, g, j, lo, hi)
    requires Outside(gaps, x, y) || (x == lo && y == hi)
    ensures Outside(Carve(gaps, g, j, lo, hi), x, y)
  {
    var c := Carve(gaps, g, j, lo, hi);
    forall i | 0 <= i < |c|
      ensures y <= c[i].start || c[i].end <= x
    {
      var k := CarvedGap(gaps, g, j, lo, hi, i);
    }
  }

  lemma {:induction false} SplitLinked(q: map<nat, Frame>, p: nat, gaps: seq<Gap>, g: nat, j: nat)
    requires g <= j < |gaps| && Linked(q, p, gaps)
    ensures Linked(q, p, gaps[..g]) && Chain(q, Anchor(p, gaps[..g]), gaps[g].start)
            && Linked(q, gaps[j].end, gaps[j + 1..])
  {
    var a, m, b := gaps[..g], gaps[g..j + 1], gaps[j + 1..];
    assert gaps == a + (m + b);
    LinkedAppend(q, p, a, m + b);
    LinkedAppend(q, Anchor(p, a), m, b);
    assert (m + b)[0] == gaps[g] && m[|m| - 1] == gaps[j];
  }

  /** Chains up to the gap that begins at `first.start`, over the new frame, and on behind `last`. */
  lemma {:induction false} JoinLinked(q: map<nat, Frame>, p: nat, a: seq<Gap>, first: Gap, last: Gap, b: seq<Gap>,
                                      lo: nat, hi: nat)
    requires Linked(q, p, a) && Chain(q, Anchor(p, a), first.start) && Linked(q, last.end, b)
    requires first.start <= lo < hi <= last.end && (hi == last.end ==> b != [])
    requires lo in q && |q[lo].data| == hi - lo
    ensures Linked(q, p, a + (Left(first, lo) + Right(last, hi)) + b)
  {
    var left, right, anchor := Left(first, lo), Right(last, hi), Anchor(p, a);
    assert Chain(q, hi, hi);
    assert Chain(q, lo, hi);
    assert right + b != [] && Linked(q, lo, right + b) by {
      if right == [] {
        assert right + b == b;
        ChainConcat(q, lo, hi, b[0].start);
      } else {
        assert (right + b)[1..] == b;
      }
    }
    assert Linked(q, anchor, left + (right + b)) by {
      if left == [] {
        assert left + (right + b) == right + b;
        ChainConcat(q, anchor, lo, (right + b)[0].start);
      } else {
        assert (left + (right + b))[1..] == right + b;
      }
    }
    LinkedAppend(q, p, a, left + (right + b));
    assert a + (left + right) + b == a + (left + (right + b));
  }

  lemma {:induction false} BridgedLie(gaps: seq<Gap>, g: nat, j: nat)
    requires Canonical(gaps) && g <= j < |gaps|
    ensures forall k :: k in Bridged(gaps, g, j) ==> gaps[g].end <= k < gaps[j].end
    ensures gaps[g].start < gaps[g].end <= gaps[j].end
  {}

  lemma {:induction false} OtherGaps(gaps: seq<Gap>, g: nat, j: nat)
    requires Canonical(gaps) && g <= j < |gaps|
    ensures var a := gaps[..g];
            forall i :: 0 <= i < |a| ==> a[i].start < a[i].end && a[i].start <= gaps[g].start
    ensures var b := gaps[j + 1..];
            forall i :: 0 <= i < |b| ==> b[i].start < b[i].end && b[i].start <= MAX_BYTE_COUNT
    ensures gaps[j].end < MAX_BYTE_COUNT ==> j + 1 < |gaps|
  {}

  lemma {:induction false} CarveIs(gaps: seq<Gap>, g: nat, j: nat, lo: nat, hi: nat)
    requires g <= j < |gaps| && Fits(gaps, g, j, lo, hi)
    ensures Carve(gaps, g, j, lo, hi) == gaps[..g] + (Left(gaps[g], lo) + Right(gaps[j], hi)) + gaps[j + 1..]
  {}

  lemma {:induction false} CarveLinked(q: map<nat, Frame>, q': map<nat, Frame>, p: nat, gaps: seq<Gap>, g: nat, j: nat,
                                       lo: nat, hi: nat)
    requires Fits(gaps, g, j, lo, hi) && Linked(q, p, gaps)
    requires lo in q' && |q'[lo].data| == hi - lo && lo !in q
    requires forall k :: k in q && k !in Bridged(gaps, g, j) ==> k in q' && q'[k] == q[k]
    ensures Linked(q', p, Carve(gaps, g, j, lo, hi))
  {
    hide Linked, Chain, Carve, Bridged, Canonical;
    var a, b, anchor := gaps[..g], gaps[j + 1..], Anchor(p, gaps[..g]);
    SplitLinked(q, p, gaps, g, j);
    BridgedLie(gaps, g, j);
    OtherGaps(gaps, g, j);
    CarveIs(gaps, g, j, lo, hi);
    LinkedFrame(q, q', p, a, 0, gaps[g].start);
    ChainFrame(q, q', anchor, gaps[g].start);
    LinkedFrame(q, q', gaps[j].end, b, gaps[j].end, MAX_BYTE_COUNT);
    JoinLinked(q', p, a, gaps[g], gaps[j], b, lo, hi);
  }

  /** A frame that begins in gap `g` fills exactly [f.offset, f.End()). */
  lemma {:induction false} FillMissing(st: Sorter, f: Frame, g: nat)
    requires Canonical(st.gaps) && f.End() < MAX_BYTE_COUNT && |f.data| > 0 && g < |st.gaps|
    requires st.gaps[g].start <= f.offset < st.gaps[g].end
    ensures var (st', r) := AfterFill(st, f, g);
            && r in {Accepted, TooManyGaps} && st'.readPosition == st.readPosition
            && Canonical(st'.gaps)
            && (forall b: nat :: Missing(st'.gaps, b) <==> Missing(st.gaps, b) && !(f.offset <= b < f.End()))
  {
    hide AfterFill, LastGap, Carve, Missing;
    FillUnfolds(st, f, g);
    var j := LastGap(st.gaps, f.End(), g);
    LastGapBounds(st.gaps, f.End(), g, j);
    var lo, hi := f.offset, if f.End() < st.gaps[j].end then f.End() else st.gaps[j].end;
    CarveCanonical(st.gaps, g, j, lo, hi);
    forall b: nat
      ensures Missing(Carve(st.gaps, g, j, lo, hi), b) <==> Missing(st.gaps, b) && !(f.offset <= b < f.End())
    {
      CarveMissing(st.gaps, g, j, lo, hi, b);
      if Missing(st.gaps, b) && b < f.End() { BeyondLast(st.gaps, j, f.End(), b); }
    }
  }

  /** ... and keeps the invariant. */
  lemma {:induction false} FillKeepsInv(st: Sorter, stream: seq<byte>, f: Frame, g: nat)
    requires Inv(st, stream) && SliceOf(f, stream) && |f.data| > 0 && g < |st.gaps|
    requires st.gaps[g].start <= f.offset < st.gaps[g].end
    ensures var (st', r) := AfterFill(st, f, g); r == Accepted ==> Inv(st', stream)
  {
    hide AfterFill, LastGap, Linked, Carve, QueuedOk, Canonical, Fits, Bridged;
    FillUnfolds(st, f, g);
    if AfterFill(st, f, g).1 == Accepted {
      var j := LastGap(st.gaps, f.End(), g);
      var lo, hi := f.offset, if f.End() < st.gaps[j].end then f.End() else st.gaps[j].end;
      LastGapFits(st.gaps, lo, f.End(), g, j, hi);
      FrontIsStretch(f, stream, hi);
      NotQueued(st, stream, g, lo);
      CarvedInv(st, stream, AfterFill(st, f, g).0, g, j, lo, hi);
    }
  }

  lemma {:induction false} CarvedInv(st: Sorter, stream: seq<byte>, st': Sorter, g: nat, j: nat, lo: nat, hi: nat)
    requires Inv(st, stream) && Fits(st.gaps, g, j, lo, hi) && hi <= |stream|
    requires st'.gaps == Carve(st.gaps, g, j, lo, hi) && Canonical(st'.gaps) && st'.readPosition == st.readPosition
    requires lo in st'.queued && st'.queued[lo].offset == lo && st'.queued[lo].data == stream[lo..hi]
    requires lo !in st.queued
    requires forall k :: k in st'.queued && k != lo ==> k in st.queued && st'.queued[k] == st.queued[k]
    requires forall k :: k in st.queued && k !in Bridged(st.gaps, g, j) ==>
               k in st'.queued && st'.queued[k] == st.queued[k]
    ensures Inv(st', stream)
  {
    hide Linked, QueuedOk, Carve, Bridged, Canonical;
    GapListNonEmpty(st.gaps);
    CarveLinked(st.queued, st'.queued, st.readPosition, st.gaps, g, j, lo, hi);
    CarveQueued(st.queued, st'.queued, st.gaps, stream, g, j, lo, hi);
    CarveLast(st.gaps, g, j, lo, hi);
  }

  lemma {:induction false} FrontIsStretch(f: Frame, stream: seq<byte>, hi: nat)
    requires SliceOf(f, stream) && f.offset <= hi <= f.End()
    ensures f.data[..hi - f.offset] == stream[f.offset..hi]
  {
    assert stream[f.offset..f.End()][..hi - f.offset] == stream[f.offset..hi];
  }

  lemma {:induction false} LastGapFits(gaps: seq<Gap>, lo: nat, e: nat, g: nat, j: nat, hi: nat)
    requires Canonical(gaps) && g < |gaps| && gaps[g].start <= lo < gaps[g].end && lo < e < MAX_BYTE_COUNT
    requires j == LastGap(gaps, e, g) && hi == if e < gaps[j].end then e else gaps[j].end
    ensures Fits(gaps, g, j, lo, hi) && Canonical(Carve(gaps, g, j, lo, hi)) && lo < hi
  {
    LastGapBounds(gaps, e, g, j);
    CarveCanonical(gaps, g, j, lo, hi);
  }

  lemma {:induction false} BeyondLast(gaps: seq<Gap>, j: nat, e: nat, b: nat)
    requires Canonical(gaps) && j < |gaps| && Missing(gaps, b) && b < e
    requires forall k :: j < k < |gaps| ==> e <= gaps[k].start
    ensures b < gaps[j].end
  {}

  lemma {:induction false} NotQueued(st: Sorter, stream: seq<byte>, g: nat, lo: nat)
    requires Inv(st, stream) && g < |st.gaps| && st.gaps[g].start <= lo < st.gaps[g].end && lo < |stream|
    ensures lo !in st.queued
  {
    assert lo in st.queued ==> FrameOk(st.queued[lo], lo, st.gaps, stream);
  }

  lemma {:induction false} CarveQueued(q: map<nat, Frame>, q': map<nat, Frame>, gaps: seq<Gap>, stream: seq<byte>,
                                       g: nat, j: nat, lo: nat, hi: nat)
    requires Fits(gaps, g, j, lo, hi) && QueuedOk(q, gaps, stream) && hi <= |stream|
    requires lo in q' && q'[lo].offset == lo && q'[lo].data == stream[lo..hi]
    requires forall k :: k in q' && k != lo ==> k in q && q'[k] == q[k]
    ensures QueuedOk(q', Carve(gaps, g, j, lo, hi), stream)
  {
    hide Carve, Canonical, Outside;
    forall k | k in q'
      ensures FrameOk(q'[k], k, Carve(gaps, g, j, lo, hi), stream)
    {
      if q'[k].data != [] { CarveOutside(gaps, g, j, lo, hi, k, k + |q'[k].data|); }
    }
  }

  lemma {:induction false} CarveLast(gaps: seq<Gap>, g: nat, j: nat, lo: nat, hi: nat)
    requires Fits(gaps, g, j, lo, hi)
    ensures var c := Carve(gaps, g, j, lo, hi); |c| > 0 && c[|c| - 1].start <= Max(hi, gaps[|gaps| - 1].start)
  {}

  // ----- one call -----

  /** Whatever a peer sends, an accepted frame leaves the gap list in canonical form. */
  lemma {:induction false} PushCanonical(st: Sorter, f: Frame)
    requires Canonical(st.gaps) && f.End() <= MAX_BYTE_COUNT
    ensures var (st', r) := AfterPush(st, f); r != NoEndGapFound ==> Canonical(st'.gaps)
  {
    hide AfterFill;
    if |f.data| > 0 && CutStart(st.queued, f) < f.End() {
      var c := Frame(CutStart(st.queued, f), f.data[CutStart(st.queued, f) - f.offset..], f.fin);
      var g := FirstGap(st.gaps, c.offset, 0);
      if st.gaps[g].start < c.End() {
        GapBounds(st.gaps, g);
        FillCanonical(st, DropBefore(c, st.gaps[g].start), g);
      }
    }
  }

  lemma {:induction false} FillCanonical(st: Sorter, f: Frame, g: nat)
    requires Canonical(st.gaps) && f.End() <= MAX_BYTE_COUNT && g < |st.gaps|
    requires st.gaps[g].start <= f.offset <= st.gaps[g].end && f.offset < f.End()
    ensures var (st', r) := AfterFill(st, f, g); r != NoEndGapFound ==> Canonical(st'.gaps)
  {
    hide AfterFill, Canonical, Carve;
    if f.End() == MAX_BYTE_COUNT {
      FillFails(st, f, g);
    } else {
      FillUnfolds(st, f, g);
      var j := LastGap(st.gaps, f.End(), g);
      LastGapBounds(st.gaps, f.End(), g, j);
      CarveCanonical(st.gaps, g, j, f.offset, if f.End() < st.gaps[j].end then f.End() else st.gaps[j].end);
    }
  }

  /** Either all of `f` is known, or its first missing byte lies in gap `g` and what goes into the
      gaps is the part `d` from there on. */
  lemma {:induction false} PushFills(st: Sorter, stream: seq<byte>, f: Frame) returns (dup: bool, d: Frame, g: nat)
    requires Inv(st, stream) && SliceOf(f, stream) && |f.data| > 0
    ensures dup ==>
              && AfterPush(st, f) == (st, Duplicate)
              && forall b: nat :: f.offset <= b < f.End() ==> !Missing(st.gaps, b)
    ensures !dup ==>
              && g < |st.gaps| && st.gaps[g].start <= d.offset < st.gaps[g].end
              && f.offset <= d.offset < d.End() == f.End() && SliceOf(d, stream) && d.fin == f.fin
              && AfterPush(st, f) == AfterFill(st, d, g)
              && forall b: nat :: f.offset <= b < d.offset ==> !Missing(st.gaps, b)
  {
    hide Linked, QueuedOk, AfterInsert, AfterFill, Missing, CutStart, Canonical;
    CutIsSound(st, stream, f);
    var s := CutStart(st.queued, f);
    CutStartBound(st.queued, f);
    dup, d, g := f.End() <= s, f, 0;
    if !dup {
      var c := Frame(s, f.data[s - f.offset..], f.fin);
      BackIsSlice(f, stream, c);
      dup, d, g := InsertFills(st, stream, c);
    }
  }

  /** The same for a frame that does not begin in a queued one. */
  lemma {:induction false} InsertFills(st: Sorter, stream: seq<byte>, c: Frame) returns (dup: bool, d: Frame, g: nat)
    requires Inv(st, stream) && SliceOf(c, stream) && |c.data| > 0
    requires forall i :: 0 <= i < |st.gaps| ==> c.offset != st.gaps[i].end
    ensures dup ==>
              && AfterInsert(st, c) == (st, Duplicate)
              && forall b: nat :: c.offset <= b < c.End() ==> !Missing(st.gaps, b)
    ensures !dup ==>
              && g < |st.gaps| && st.gaps[g].start <= d.offset < st.gaps[g].end
              && c.offset <= d.offset < d.End() == c.End() && SliceOf(d, stream) && d.fin == c.fin
              && AfterInsert(st, c) == AfterFill(st, d, g)
              && forall b: nat :: c.offset <= b < d.offset ==> !Missing(st.gaps, b)
  {
    hide Linked, QueuedOk, AfterFill, Missing, FirstGap, Canonical;
    GapListNonEmpty(st.gaps);
    d, g := c, FirstGap(st.gaps, c.offset, 0);
    NothingMissing(st.gaps, c.offset, g);
    GapBounds(st.gaps, g);
    dup := c.End() <= st.gaps[g].start;
    if !dup {
      d := DropBefore(c, st.gaps[g].start);
      BackIsSlice(c, stream, d);
    }
  }

  /** What is left of a slice when its front is dropped. */
  lemma {:induction false} BackIsSlice(f: Frame, stream: seq<byte>, d: Frame)
    requires SliceOf(f, stream) && f.offset <= d.offset < f.End()
    requires d.data == f.data[d.offset - f.offset..] && d.fin == f.fin
    ensures SliceOf(d, stream) && d.End() == f.End()
  {
    assert d.data == stream[f.offset..f.End()][d.offset - f.offset..];
  }

  /** Gap-list refinement: a slice of the stream removes exactly its own interval from the missing
      bytes, and is reported as a duplicate exactly when none of it was missing. */
  lemma {:induction false} PushMeaning(st: Sorter, stream: seq<byte>, f: Frame)
    requires Inv(st, stream) && SliceOf(f, stream) && |f.data| > 0
    ensures var (st', r) := AfterPush(st, f);
            && r in {Accepted, Duplicate, TooManyGaps} && st'.readPosition == st.readPosition
            && (r == Duplicate <==> forall b: nat :: f.offset <= b < f.End() ==> !Missing(st.gaps, b))
            && (r == Duplicate ==> st' == st)
            && Canonical(st'.gaps)
            && (forall b: nat :: Missing(st'.gaps, b) <==> Missing(st.gaps, b) && !(f.offset <= b < f.End()))
            && (r == Accepted ==> Inv(st', stream))
  {
    hide Canonical, AfterPush, AfterFill, Linked, QueuedOk, Missing;
    var dup, d, g := PushFills(st, stream, f);
    if !dup {
      FillMissing(st, d, g);
      FillKeepsInv(st, stream, d, g);
      MissingAt(st.gaps, g, d.offset);
    }
  }

  lemma {:induction false} GapListNonEmpty(gaps: seq<Gap>)
    requires Canonical(gaps)
    ensures |gaps| > 0
  {}

  lemma {:induction false} CutStartBound(queued: map<nat, Frame>, f: Frame)
    ensures f.offset <= CutStart(queued, f)
  {}

  lemma {:induction false} MissingAt(gaps: seq<Gap>, g: nat, b: nat)
    requires g < |gaps| && gaps[g].start <= b < gaps[g].end
    ensures Missing(gaps, b)
  {}

  lemma {:induction false} NothingMissing(gaps: seq<Gap>, s: nat, g: nat)
    requires Canonical(gaps) && s <= MAX_BYTE_COUNT && g == FirstGap(gaps, s, 0)
    ensures forall b: nat :: s <= b < gaps[g].start ==> !Missing(gaps, b)
  {}

  /** Reading: the head frame continues the stream, and there is none exactly at the first gap. */
  lemma {:induction false} PopMeaning(st: Sorter, stream: seq<byte>)
    requires Inv(st, stream)
    ensures st.readPosition <= st.gaps[0].start <= |stream|
    ensures var (st', o) := AfterPop(st);
            && Inv(st', stream) && st'.gaps == st.gaps && st.readPosition <= st'.readPosition <= st.gaps[0].start
            && (o == None ==> st.readPosition == st.gaps[0].start)
            && (o.Some? ==>
                  o.value.data == stream[st.readPosition..st'.readPosition] && o.value.offset == st.readPosition)
  {
    hide Canonical, Chain, Linked, QueuedOk;
    FirstStart(st.gaps);
    FirstChain(st, stream);
    if st.readPosition in st.queued {
      var q', p' := st.queued - {st.readPosition}, st.readPosition + |st.queued[st.readPosition].data|;
      Unqueued(st.queued, q', st.gaps, stream);
      LinkedFrame(st.queued, q', st.gaps[0].end, st.gaps[1..], st.gaps[0].end, MAX_BYTE_COUNT);
      Relinked(q', p', st.gaps);
    }
  }

  /** The head frame is the first link of the chain to the first gap, or an empty frame at it. */
  lemma {:induction false} FirstChain(st: Sorter, stream: seq<byte>)
    requires Inv(st, stream)
    ensures |st.gaps| > 0 && st.readPosition <= st.gaps[0].start
    ensures Linked(st.queued, st.gaps[0].end, st.gaps[1..])
    ensures var p, t := st.readPosition, st.gaps[0].start;
            if p in st.queued then
              && st.queued[p].offset == p && p + |st.queued[p].data| <= t
              && st.queued[p].data == stream[p..p + |st.queued[p].data|]
              && Chain(st.queued - {p}, p + |st.queued[p].data|, t)
            else p == t
  {
    hide Canonical;
    var p, gaps := st.readPosition, st.gaps;
    FirstStart(gaps);
    ChainOrder(st.queued, p, gaps[0].start);
    if p in st.queued {
      assert FrameOk(st.queued[p], p, gaps, stream);
      if p == gaps[0].start {
        assert st.queued[p].data == [];
      } else {
        ChainFrame(st.queued, st.queued - {p}, p + |st.queued[p].data|, gaps[0].start);
      }
    }
  }

  lemma {:induction false} Unqueued(q: map<nat, Frame>, q': map<nat, Frame>, gaps: seq<Gap>, stream: seq<byte>)
    requires QueuedOk(q, gaps, stream) && forall k :: k in q' ==> k in q && q'[k] == q[k]
    ensures QueuedOk(q', gaps, stream)
  {
    hide FrameOk;
  }

  lemma {:induction false} Relinked(q: map<nat, Frame>, p: nat, gaps: seq<Gap>)
    requires gaps != [] && Chain(q, p, gaps[0].start) && Linked(q, gaps[0].end, gaps[1..])
    ensures Linked(q, p, gaps)
  {
    hide Chain;
  }

  lemma {:induction false} FirstStart(gaps: seq<Gap>)
    requires Canonical(gaps)
    ensures |gaps| > 0 && gaps[0].start < gaps[0].end && gaps[0].start <= gaps[|gaps| - 1].start
    ensures forall i :: 1 <= i < |gaps| ==> gaps[i].start < gaps[i].end && gaps[i].start <= MAX_BYTE_COUNT
  {}

  // ----- whole runs -----

  datatype Event = Pushed(frame: Frame) | Popped

  /** `alive` until a push fails with an error other than "duplicate", which closes the session. */
  datatype Run = Run(st: Sorter, delivered: seq<byte>, alive: bool)

  ghost predicate Parseable(events: seq<Event>) {
    forall i :: 0 <= i < |events| && events[i].Pushed? ==> events[i].frame.End() <= MAX_BYTE_COUNT
  }

  ghost function Replay(events: seq<Event>): (r: Run)
    requires Parseable(events)
    ensures r.alive ==> Canonical(r.st.gaps)
  {
    if events == [] then Run(Initial, [], true)
    else
      var r, e := Replay(events[..|events| - 1]), events[|events| - 1];
      if !r.alive then r
      else match e
        case Popped =>
          var (st, o) := AfterPop(r.st);
          Run(st, r.delivered + (if o.Some? then o.value.data else []), true)
        case Pushed(f) =>
          PushCanonical(r.st, f);
          var (st, result) := AfterPush(r.st, f);
          Run(st, r.delivered, result in {Accepted, Duplicate})
  }

  ghost predicate Covered(events: seq<Event>, b: nat) {
    exists i :: 0 <= i < |events| && events[i].Pushed? && events[i].frame.offset <= b < events[i].frame.End()
  }

  ghost predicate SlicesOf(events: seq<Event>, stream: seq<byte>) {
    && |stream| < MAX_BYTE_COUNT
    && forall i :: 0 <= i < |events| && events[i].Pushed? ==> SliceOf(events[i].frame, stream)
  }

  /** The bytes still missing are those that no pushed frame covered, and what has been read is a
      prefix of the stream: in every run, however frames overlap, repeat or arrive out of order. */
  lemma {:induction false} RunInvariant(events: seq<Event>, stream: seq<byte>)
    requires Parseable(events) && SlicesOf(events, stream)
    ensures var r := Replay(events);
            r.alive ==>
              && Inv(r.st, stream) && r.st.readPosition <= |stream|
              && r.delivered == stream[..r.st.readPosition]
              && (forall b: nat :: b < MAX_BYTE_COUNT ==> (Missing(r.st.gaps, b) <==> !Covered(events, b)))
  {
    hide AfterPush, AfterPop, Inv, Missing, SliceOf;
    if events == [] {
      InitialInv(stream);
    } else {
      var before, e := events[..|events| - 1], events[|events| - 1];
      RunInvariant(before, stream);
      CoveredStep(before, e);
      assert events == before + [e];
      var r := Replay(before);
      if r.alive {
        match e
        case Popped =>
          PopMeaning(r.st, stream);
          var (st, o) := AfterPop(r.st);
          TwoStretches(stream, 0, r.st.readPosition, st.readPosition);
        case Pushed(f) =>
          assert SliceOf(f, stream);
          if |f.data| > 0 { PushMeaning(r.st, stream, f); } else { PushFin(r.st, stream, f); }
      }
    }
  }

  lemma {:induction false} InitialInv(stream: seq<byte>)
    requires |stream| < MAX_BYTE_COUNT
    ensures Inv(Initial, stream) && forall b: nat :: b < MAX_BYTE_COUNT ==> Missing(Initial.gaps, b)
  {
    assert Chain(map[], 0, 0);
    forall b: nat | b < MAX_BYTE_COUNT ensures Missing(Initial.gaps, b) { MissingAt(Initial.gaps, 0, b); }
  }

  lemma {:induction false} CoveredStep(before: seq<Event>, e: Event)
    ensures forall b: nat :: Covered(before + [e], b) <==>
              Covered(before, b) || (e.Pushed? && e.frame.offset <= b < e.frame.End())
  {
    forall b: nat
      ensures Covered(before + [e], b) <==> Covered(before, b) || (e.Pushed? && e.frame.offset <= b < e.frame.End())
    {
      assert (before + [e])[|before|] == e;
      if Covered(before, b) {
        var i :| 0 <= i < |before| && before[i].Pushed? && before[i].frame.offset <= b < before[i].frame.End();
        assert (before + [e])[i] == before[i];
      }
    }
  }

  lemma {:induction false} PushFin(st: Sorter, stream: seq<byte>, f: Frame)
    requires Inv(st, stream) && SliceOf(f, stream) && f.data == []
    ensures var (st', r) := AfterPush(st, f);
            && (r == Accepted <==> f.fin) && (r == EmptyData <==> !f.fin)
            && Inv(st', stream) && st'.gaps == st.gaps && st'.readPosition == st.readPosition
  {
    if f.fin {
      var q' := st.queued[f.offset := f];
      assert Canonical(st.gaps);
      LinkedFrame(st.queued, q', st.readPosition, st.gaps, 0, |stream|);
    }
  }

  ghost function Drain(st: Sorter): (data: seq<byte>)
    requires forall k :: k in st.queued ==> st.queued[k].offset == k
    decreases |st.queued|
  {
    if st.readPosition !in st.queued then []
    else
      var (st', o) := AfterPop(st);
      assert st'.queued.Keys == st.queued.Keys - {st.readPosition};
      assert |st'.queued.Keys| < |st.queued.Keys|;
      o.value.data + Drain(st')
  }

  lemma {:induction false} TwoStretches(s: seq<byte>, p: nat, q: nat, t: nat)
    requires p <= q <= t <= |s|
    ensures s[p..q] + s[q..t] == s[p..t] && s[..t] == s[0..t] && s[..q] == s[0..q]
  {}

  lemma {:induction false} DrainReachesFirstGap(st: Sorter, stream: seq<byte>)
    requires Inv(st, stream)
    ensures st.readPosition <= st.gaps[0].start <= |stream|
    ensures Drain(st) == stream[st.readPosition..st.gaps[0].start]
    decreases |st.queued|
  {
    hide Linked, QueuedOk, Canonical, Missing;
    GapListNonEmpty(st.gaps);
    PopMeaning(st, stream);
    if st.readPosition in st.queued {
      var (st', o) := AfterPop(st);
      assert st'.queued.Keys == st.queued.Keys - {st.readPosition};
      assert |st'.queued.Keys| < |st.queued.Keys|;
      DrainReachesFirstGap(st', stream);
      var p, p', t := st.readPosition, st'.readPosition, st.gaps[0].start;
      TwoStretches(stream, p, p', t);
    }
  }

  lemma {:induction false} FirstGapIsFirstUncovered(gaps: seq<Gap>, events: seq<Event>)
    requires Canonical(gaps) && gaps[0].start < MAX_BYTE_COUNT
    requires forall b: nat :: b < MAX_BYTE_COUNT ==> (Missing(gaps, b) <==> !Covered(events, b))
    ensures !Covered(events, gaps[0].start) && forall b: nat :: b < gaps[0].start ==> Covered(events, b)
  {
    hide Covered, Missing;
    MissingAt(gaps, 0, gaps[0].start);
    forall b: nat | b < gaps[0].start ensures Covered(events, b) {
      BeforeFirst(gaps, b);
    }
  }

  /** In-order exact delivery: after any run, reading until nothing is left has delivered exactly
      the bytes before the first one that no pushed frame covered. */
  lemma {:induction false} DeliveryIsExact(events: seq<Event>, stream: seq<byte>)
    requires Parseable(events) && SlicesOf(events, stream) && Replay(events).alive
    ensures var r := Replay(events);
            && Inv(r.st, stream)
            && var t := r.st.gaps[0].start;
            && t <= |stream| && r.delivered <= stream
            && r.delivered + Drain(r.st) == stream[..t]
            && !Covered(events, t) && forall b: nat :: b < t ==> Covered(events, b)
  {
    var st := Replay(events).st;
    hide Linked, Replay, Covered, Missing, Drain, Canonical, SlicesOf, Parseable, Outside;
    RunInvariant(events, stream);
    GapListNonEmpty(st.gaps);
    DrainReachesFirstGap(st, stream);
    var p, t := st.readPosition, st.gaps[0].start;
    TwoStretches(stream, 0, p, t);
    FirstGapIsFirstUncovered(st.gaps, events);
  }

  lemma {:induction false} BeforeFirst(gaps: seq<Gap>, b: nat)
    requires Canonical(gaps) && b < gaps[0].start
    ensures !Missing(gaps, b) && b < MAX_BYTE_COUNT
  {}

  // ----- the FIN bit -----

  /** A frame that carries FIN ends where the stream ends, so that the reader stops there. */
  ghost predicate FinOk(st: Sorter, stream: seq<byte>) {
    forall k :: k in st.queued && st.queued[k].fin ==> k + |st.queued[k].data| == |stream|
  }

  /** A FIN frame whose tail arrived earlier is trimmed but keeps its FIN bit: the reader is then
      told that the stream ends too early.  This happens exactly when the last byte of the stream
      is not missing any more. */
  lemma {:induction false} FinIsKeptIff(st: Sorter, stream: seq<byte>, f: Frame)
    requires Inv(st, stream) && FinOk(st, stream) && SliceOf(f, stream) && |f.data| > 0
    requires AfterPush(st, f).1 == Accepted
    ensures FinOk(AfterPush(st, f).0, stream) <==> (f.fin ==> Missing(st.gaps, |stream| - 1))
  {
    hide Canonical, AfterPush, AfterFill, Linked, QueuedOk, Missing, FinOk;
    var dup, d, g := PushFills(st, stream, f);
    FillFin(st, stream, d, g);
  }

  lemma {:induction false} FillFin(st: Sorter, stream: seq<byte>, f: Frame, g: nat)
    requires Canonical(st.gaps) && f.End() <= |stream| < MAX_BYTE_COUNT && |f.data| > 0 && g < |st.gaps|
    requires st.gaps[g].start <= f.offset < st.gaps[g].end && (f.fin ==> f.End() == |stream|)
    requires FinOk(st, stream) && AfterFill(st, f, g).1 == Accepted
    ensures FinOk(AfterFill(st, f, g).0, stream) <==> (f.fin ==> Missing(st.gaps, |stream| - 1))
  {
    hide AfterFill, LastGap, Missing;
    FillUnfolds(st, f, g);
    var j := LastGap(st.gaps, f.End(), g);
    LastGapBounds(st.gaps, f.End(), g, j);
    hide Canonical, Bridged;
    var hi := if f.End() < st.gaps[j].end then f.End() else st.gaps[j].end;
    var st' := AfterFill(st, f, g).0;
    assert st'.queued[f.offset] == Frame(f.offset, f.data[..hi - f.offset], f.fin);
    if f.fin {
      if hi == |stream| {
        MissingAt(st.gaps, j, |stream| - 1);
      } else if Missing(st.gaps, |stream| - 1) {
        BeyondLast(st.gaps, j, |stream|, |stream| - 1);
      }
    }
  }

  /** The retransmission of a FIN frame in two parts, its second part arriving before a late copy
      of the original, is enough to lose the last byte for a reader that stops at FIN. */
  lemma {:induction false} EarlyFin()
    ensures var stream: seq<byte> := [10, 20, 30];
            var whole, tail := Frame(0, stream, true), Frame(2, [30], true);
            var events := [Pushed(tail), Pushed(whole)];
            && SliceOf(whole, stream) && SliceOf(tail, stream)
            && Parseable(events) && Replay(events).alive
            && HeadOf(Replay(events).st) == Some(Frame(0, [10, 20], true))
  {
    var whole, tail := Frame(0, [10, 20, 30], true), Frame(2, [30], true);
    var events := [Pushed(tail), Pushed(whole)];
    TailFirst(tail);
    var st1 := AfterPush(Initial, tail).0;
    WholeSecond(st1, whole);
    hide AfterPush, FirstGap, LastGap, Canonical;
    assert events[..1] == [Pushed(tail)] && events[..1][..0] == [];
    assert Replay([]) == Run(Initial, [], true);
    assert Replay(events[..1]) == Run(st1, [], true);
  }

  lemma {:induction false} TailFirst(tail: Frame)
    requires tail == Frame(2, [30], true)
    ensures AfterPush(Initial, tail) == (Sorter(0, [Gap(0, 2), Gap(3, MAX_BYTE_COUNT)], map[2 := tail]), Accepted)
  {
    var gap := Gap(0, MAX_BYTE_COUNT);
    assert FirstGap([gap], 2, 0) == 0 && LastGap([gap], 3, 0) == 0;
    assert Carve([gap], 0, 0, 2, 3) == [Gap(0, 2), Gap(3, MAX_BYTE_COUNT)];
    assert Initial.queued - Bridged([gap], 0, 0) == map[];
    assert tail.data[0..] == tail.data && tail.data[..1] == tail.data;
  }

  lemma {:induction false} WholeSecond(st: Sorter, whole: Frame)
    requires st.gaps == [Gap(0, 2), Gap(3, MAX_BYTE_COUNT)] && st.readPosition == 0 && 0 !in st.queued
    requires whole == Frame(0, [10, 20, 30], true)
    ensures var (st', r) := AfterPush(st, whole);
            r == Accepted && HeadOf(st') == Some(Frame(0, [10, 20], true))
  {
    assert FirstGap(st.gaps, 0, 0) == 0 && LastGap(st.gaps, 3, 0) == 0;
    assert Carve(st.gaps, 0, 0, 0, 2) == [Gap(3, MAX_BYTE_COUNT)];
    assert whole.data[0..] == whole.data && whole.data[..2] == [10, 20];
  }
}
