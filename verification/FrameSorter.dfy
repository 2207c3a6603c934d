/** Reassembly of one stream: mpquic_trans/stream_frame_sorter.go.

    The sorter keeps the byte intervals that are still missing (`gaps`) and the frames that were
    accepted but not read yet, keyed by offset (`queued`).  `Push` below is what one call does to
    that state; the class `StreamFrameSorter` does it step by step, as the source does. */
module FrameSorter {
  import opened Bytes

  const MAX_BYTE_COUNT: nat := 0xFFFF_FFFF_FFFF_FFFF
  const MAX_GAPS: nat := 2500

  datatype Frame = Frame(offset: nat, data: seq<byte>, fin: bool) {
    function End(): nat { offset + |data| }
  }

  datatype Gap = Gap(start: nat, end: nat)

  datatype PushResult = Accepted | EmptyData | Duplicate | NoEndGapFound | TooManyGaps

  datatype Sorter = Sorter(readPosition: nat, gaps: seq<Gap>, queued: map<nat, Frame>)

  const Initial: Sorter := Sorter(0, [Gap(0, MAX_BYTE_COUNT)], map[])

  /** Gaps are non-empty, ascending, never adjacent, and the last one is open-ended. */
  ghost predicate Canonical(gaps: seq<Gap>) {
    && |gaps| > 0
    && (forall i :: 0 <= i < |gaps| ==> gaps[i].start < gaps[i].end)
    && (forall i, j :: 0 <= i < j < |gaps| ==> gaps[i].end < gaps[j].start)
    && gaps[|gaps| - 1].end == MAX_BYTE_COUNT
  }

  // ----- what one call does -----

  /** The first gap, from index `i` on, that does not end before `s`. */
  function FirstGap(gaps: seq<Gap>, s: nat, i: nat): (g: nat)
    requires Canonical(gaps) && s <= MAX_BYTE_COUNT && i < |gaps|
    ensures i <= g < |gaps| && s <= gaps[g].end
    ensures forall k :: i <= k < g ==> gaps[k].end < s
    decreases |gaps| - i
  {
    if s <= gaps[i].end then i else FirstGap(gaps, s, i + 1)
  }

  /** The last gap, from index `g` on, that starts before `e`. */
  function LastGap(gaps: seq<Gap>, e: nat, g: nat): (j: nat)
    requires Canonical(gaps) && g < |gaps| && gaps[g].start < e
    ensures g <= j < |gaps| && gaps[j].start < e
    ensures forall k :: j < k < |gaps| ==> e <= gaps[k].start
    decreases |gaps| - g
  {
    if g + 1 < |gaps| && gaps[g + 1].start < e then LastGap(gaps, e, g + 1) else g
  }

  function Max(a: nat, b: nat): nat { if a < b then b else a }
  function Min(a: nat, b: nat): nat { if a < b then a else b }

  /** What is left of the gap `gap` below `lo`, and above `hi`. */
  function Left(gap: Gap, lo: nat): seq<Gap> { if gap.start < lo then [Gap(gap.start, lo)] else [] }
  function Right(gap: Gap, hi: nat): seq<Gap> { if hi < gap.end then [Gap(hi, gap.end)] else [] }

  /** The gaps after [lo, hi), which begins in gap `g` and ends in gap `j`, has been filled. */
  function Carve(gaps: seq<Gap>, g: nat, j: nat, lo: nat, hi: nat): seq<Gap>
    requires g <= j < |gaps|
  {
    gaps[..g] + (Left(gaps[g], lo) + Right(gaps[j], hi)) + gaps[j + 1..]
  }

  /** Keys of the queued frames that are dropped: the one right behind each gap that is bridged. */
  function Bridged(gaps: seq<Gap>, g: nat, j: nat): set<nat>
    requires g <= j < |gaps|
  {
    set i | g <= i < j :: gaps[i].end
  }

  /** Where the unseen part of `f` begins, as far as the frame queued at the same offset tells. */
  function CutStart(queued: map<nat, Frame>, f: Frame): nat {
    if f.offset in queued then f.offset + |queued[f.offset].data| else f.offset
  }

  function AfterPush(st: Sorter, f: Frame): (p: (Sorter, PushResult))
    requires Canonical(st.gaps) && f.End() <= MAX_BYTE_COUNT
  {
    if |f.data| == 0 then
      if f.fin then (st.(queued := st.queued[f.offset := f]), Accepted) else (st, EmptyData)
    else
      var s := CutStart(st.queued, f);
      if f.End() <= s then (st, Duplicate)
      else AfterInsert(st, Frame(s, f.data[s - f.offset..], f.fin))
  }

  /** `f` has data, and no frame is queued at its offset. */
  function AfterInsert(st: Sorter, f: Frame): (p: (Sorter, PushResult))
    requires Canonical(st.gaps) && f.End() <= MAX_BYTE_COUNT && |f.data| > 0
  {
    var g := FirstGap(st.gaps, f.offset, 0);
    if f.End() <= st.gaps[g].start then (st, Duplicate)
    else AfterFill(st, DropBefore(f, st.gaps[g].start), g)
  }

  function DropBefore(f: Frame, start: nat): (r: Frame)
    requires start <= f.End()
  {
    if f.offset < start then Frame(start, f.data[start - f.offset..], f.fin) else f
  }

  /** `f` begins in (or at the end of) gap `g`. */
  function AfterFill(st: Sorter, f: Frame, g: nat): (p: (Sorter, PushResult))
    requires Canonical(st.gaps) && f.End() <= MAX_BYTE_COUNT && g < |st.gaps|
    requires st.gaps[g].start <= f.offset <= st.gaps[g].end && f.offset < f.End()
  {
    var j := LastGap(st.gaps, f.End(), g);
    var kept := st.queued - Bridged(st.gaps, g, j);
    if f.End() == MAX_BYTE_COUNT then
      (Sorter(st.readPosition, st.gaps[..g + 1] + st.gaps[if g == j then j + 1 else j..], kept), NoEndGapFound)
    else
      var hi := Min(f.End(), st.gaps[j].end);
      var gaps := Carve(st.gaps, g, j, f.offset, hi);
      if |gaps| > MAX_GAPS then (Sorter(st.readPosition, gaps, kept), TooManyGaps)
      else (Sorter(st.readPosition, gaps, kept[f.offset := Frame(f.offset, f.data[..hi - f.offset], f.fin)]), Accepted)
  }

  datatype Option<T> = None | Some(value: T)

  function HeadOf(st: Sorter): Option<Frame> {
    if st.readPosition in st.queued then Some(st.queued[st.readPosition]) else None
  }

  function AfterPop(st: Sorter): (Sorter, Option<Frame>) {
    match HeadOf(st)
    case None => (st, None)
    case Some(f) => (st.(readPosition := st.readPosition + |f.data|, queued := st.queued - {f.offset}), Some(f))
  }

  // ----- how the source does it -----

  /** Finds the highest gap whose start lies before `end`, removing the gaps passed on the way
      and the frame queued right behind each. */
  method BridgeGaps(before: seq<Gap>, queued: map<nat, Frame>, g: nat, ghost j: nat, end: nat)
    returns (found: bool, endGap: Gap, endIndex: nat, gaps: seq<Gap>, kept: map<nat, Frame>)
    requires g <= j < |before| && (forall k :: g <= k < j ==> before[k].end <= end)
    requires forall k :: g < k < |before| ==> (before[k].start < end <==> k <= j)
    ensures kept == queued - Bridged(before, g, j)
    ensures found == (end < before[j].end || j + 1 < |before|)
    ensures endGap == before[j]
    ensures endIndex == (if j == g then g else g + 1)
    ensures gaps == before[..g + 1] + before[if j == g || (found && endGap.end <= end) then j + 1 else j..]
  {
    hide Bridged;
    ghost var k := g;  // position of endGap among the original gaps
    ghost var t := g + 1;  // what is left of the list behind gap g are the original gaps from t on
    endGap, endIndex, gaps, kept, found := before[g], g, before, queued, true;
    BridgeNone(before, queued, g);
    assert gaps == before[..g + 1] + before[t..];
    while end >= endGap.end
      invariant g <= k <= j && endGap == before[k] && found
      invariant endIndex == (if k == g then g else g + 1) && t == (if k == g then k + 1 else k)
      invariant gaps == before[..g + 1] + before[t..]
      invariant kept == queued - Bridged(before, g, k)
      decreases |before| - k
    {
      assert endIndex + 1 - (g + 1) + t == k + 1;
      if endIndex + 1 >= |gaps| {
        found := false;
        break;
      }
      var nextEndGap := gaps[endIndex + 1];
      assert nextEndGap == before[k + 1];
      if endIndex != g {
        gaps := gaps[..endIndex] + gaps[endIndex + 1..];
        RemoveSecond(before, g, k);
      }
      t := k + 1;
      if end <= nextEndGap.start {
        break;
      }
      kept := kept - {endGap.end};
      BridgeOne(before, queued, g, k);
      endGap, endIndex, k := nextEndGap, g + 1, k + 1;
    }
    assert k == j;
  }

  lemma {:induction false} RemoveSecond<T>(s: seq<T>, g: nat, k: nat)
    requires g < k < |s|
    ensures var r := s[..g + 1] + s[k..]; r[..g + 1] + r[g + 2..] == s[..g + 1] + s[k + 1..]
  {}

  lemma {:induction false} BridgeNone(gaps: seq<Gap>, queued: map<nat, Frame>, g: nat)
    requires g < |gaps|
    ensures queued - Bridged(gaps, g, g) == queued
  {}

  lemma {:induction false} BridgeOne(gaps: seq<Gap>, queued: map<nat, Frame>, g: nat, k: nat)
    requires g <= k && k + 1 < |gaps|
    ensures queued - Bridged(gaps, g, k) - {gaps[k].end} == queued - Bridged(gaps, g, k + 1)
  {
    assert Bridged(gaps, g, k + 1) == Bridged(gaps, g, k) + {gaps[k].end};
  }

  lemma {:induction false} Around<T>(s: seq<T>, g: nat, j: nat)
    requires g <= j < |s|
    ensures s[..g + 1] + s[j + 1..] == s[..g] + [s[g]] + [] + s[j + 1..]
    ensures s[..g + 1] + s[j..] == s[..g] + [s[g]] + [s[j]] + s[j + 1..]
    ensures s[..g + 1] + s[g + 1..] == s
  {}

  lemma {:induction false} UpdateAt<T>(a: seq<T>, x: T, y: T, b: seq<T>)
    ensures (a + [x] + b)[|a| := y] == a + [y] + b
  {}

  /** Adjusts the first and the last gap touched by the trimmed frame [start, end).  Around them
      the list is `a` before and `b` after; the last one is unlinked already when it is filled. */
  method ShrinkGaps(ghost a: seq<Gap>, ghost b: seq<Gap>, mid: seq<Gap>, g: nat, endIndex: nat, gap: Gap, endGap: Gap,
                    start: nat, end: nat)
    returns (gaps: seq<Gap>)
    requires gap.start <= start <= gap.end && endGap.start < end <= endGap.end
    requires start < end || end == endGap.end
    requires g == |a| && gap.start < gap.end
    requires if endIndex == g then gap == endGap else endIndex == g + 1 && gap.end < endGap.start
    requires mid == a + [gap] + (if endIndex == g || endGap.end == end then [] else [endGap]) + b
    ensures gaps == a + (Left(gap, start) + Right(endGap, end)) + b
  {
    gaps := mid;
    if start == gap.start {
      var index := endIndex;
      if end >= gap.end {
        gaps := gaps[..g] + gaps[g + 1..];
        index := if index == g then g else index - 1;
        assert gaps == a + (if endIndex == g || endGap.end == end then [] else [endGap]) + b;
      }
      if end < endGap.end {
        UpdateAt(a, endGap, Gap(end, endGap.end), b);
        gaps := gaps[index := Gap(end, endGap.end)];
      }
    } else if end == endGap.end {
      UpdateAt(a, gap, Gap(gap.start, start), b);
      assert mid == a + [gap] + b;
      gaps := gaps[g := Gap(gap.start, start)];
    } else if endIndex == g {
      assert gaps[..g + 1] == a + [gap] && gaps[g + 1..] == b;
      gaps := gaps[..g + 1] + [Gap(end, gap.end)] + gaps[g + 1..];
      assert gaps == a + [gap] + ([Gap(end, gap.end)] + b);
      UpdateAt(a, gap, Gap(gap.start, start), [Gap(end, gap.end)] + b);
      gaps := gaps[g := Gap(gap.start, start)];
    } else {
      assert gaps == a + [gap] + ([endGap] + b);
      UpdateAt(a, gap, Gap(gap.start, start), [endGap] + b);
      gaps := gaps[g := Gap(gap.start, start)];
      assert gaps == (a + [Gap(gap.start, start)]) + [endGap] + b;
      UpdateAt(a + [Gap(gap.start, start)], endGap, Gap(end, endGap.end), b);
      gaps := gaps[endIndex := Gap(end, endGap.end)];
    }
  }

  /** From the first gap on: bridges gaps, trims the end of the frame and stores it. */
  method Fill(ghost pos: nat, before: seq<Gap>, queued: map<nat, Frame>, frame: Frame, g: nat)
    returns (r: PushResult, gaps: seq<Gap>, kept: map<nat, Frame>)
    requires Canonical(before) && frame.End() <= MAX_BYTE_COUNT && g < |before|
    requires before[g].start <= frame.offset <= before[g].end && frame.offset < frame.End()
    ensures (Sorter(pos, gaps, kept), r) == AfterFill(Sorter(pos, before, queued), frame, g)
    ensures r != NoEndGapFound ==> Canonical(gaps)
  {
    hide Canonical, AfterFill, LastGap, Bridged, Carve, Left, Right;
    var gap, start, end, data := before[g], frame.offset, frame.offset + |frame.data|, frame.data;
    ghost var j := LastGap(before, end, g);
    LastGapBounds(before, end, g, j);
    var found, endGap, endIndex;
    found, endGap, endIndex, gaps, kept := BridgeGaps(before, queued, g, j, end);
    if !found {
      FillFails(Sorter(pos, before, queued), frame, g);
      return NoEndGapFound, gaps, kept;
    }
    if end > endGap.end {
      var cutLen := end - endGap.end;
      data := data[..|data| - cutLen];
      end := end - cutLen;
    }
    assert data == frame.data[..end - start];
    ghost var a, b := before[..g], before[j + 1..];
    assert gaps == a + [gap] + (if endIndex == g || endGap.end == end then [] else [endGap]) + b by {
      Around(before, g, j);
    }
    gaps := ShrinkGaps(a, b, gaps, g, endIndex, gap, endGap, start, end);
    CarveCanonical(before, g, j, start, end);
    FillUnfolds(Sorter(pos, before, queued), frame, g);
    if |gaps| > MAX_GAPS {
      return TooManyGaps, gaps, kept;
    }
    kept := kept[start := Frame(start, data, frame.fin)];
    return Accepted, gaps, kept;
  }

  class StreamFrameSorter {
    var queuedFrames: map<nat, Frame>
    var readPosition: nat
    var gaps: seq<Gap>

    ghost function View(): Sorter
      reads this
    {
      Sorter(readPosition, gaps, queuedFrames)
    }

    constructor ()
      ensures View() == Initial && Canonical(gaps)
    {
      queuedFrames, readPosition, gaps := map[], 0, [Gap(0, MAX_BYTE_COUNT)];
    }

    method Push(frame: Frame) returns (r: PushResult)
      requires Canonical(gaps) && frame.End() <= MAX_BYTE_COUNT
      modifies this
      ensures (View(), r) == AfterPush(old(View()), frame)
      ensures r != NoEndGapFound ==> Canonical(gaps)
    {
      hide Canonical, AfterInsert;
      if |frame.data| == 0 {
        if frame.fin {
          queuedFrames := queuedFrames[frame.offset := frame];
          return Accepted;
        }
        return EmptyData;
      }
      var offset, data := frame.offset, frame.data;
      if offset in queuedFrames {
        var oldLen := |queuedFrames[offset].data|;
        if |data| <= oldLen {
          return Duplicate;
        }
        data := data[oldLen..];
        offset := offset + oldLen;
      }
      r := Insert(Frame(offset, data, frame.fin));
    }

    method Insert(frame: Frame) returns (r: PushResult)
      requires Canonical(gaps) && frame.End() <= MAX_BYTE_COUNT && |frame.data| > 0
      modifies this
      ensures (View(), r) == AfterInsert(old(View()), frame)
      ensures r != NoEndGapFound ==> Canonical(gaps)
    {
      hide Canonical, AfterFill;
      var g := SkipGaps(frame.offset, frame.offset + |frame.data|);
      var gap := gaps[g];
      if frame.offset + |frame.data| <= gap.start {
        return Duplicate;
      }
      var offset, data := frame.offset, frame.data;
      if offset < gap.start {
        var add := gap.start - offset;
        offset := offset + add;
        data := data[add..];
      }
      GapBounds(gaps, g);
      r, gaps, queuedFrames := Fill(readPosition, gaps, queuedFrames, Frame(offset, data, frame.fin), g);
    }

    /** Skips all gaps before [start, end).  The source's "no gap found" error cannot occur, since
        the last gap is open-ended. */
    method SkipGaps(start: nat, end: nat) returns (g: nat)
      requires Canonical(gaps) && start < end <= MAX_BYTE_COUNT
      ensures g == FirstGap(gaps, start, 0)
    {
      g := 0;
      while g < |gaps|
        invariant g <= |gaps|
        invariant forall k :: 0 <= k < g ==> gaps[k].end < start
      {
        if end <= gaps[g].start {
          break;
        }
        if start <= gaps[g].end {
          break;
        }
        g := g + 1;
      }
      FirstGapIs(gaps, start, g);
    }

    method Head() returns (frame: Option<Frame>)
      ensures frame == HeadOf(View())
    {
      if readPosition in queuedFrames {
        return Some(queuedFrames[readPosition]);
      }
      return None;
    }

    method Pop() returns (frame: Option<Frame>)
      modifies this
      ensures (View(), frame) == AfterPop(old(View()))
    {
      frame := Head();
      if frame.Some? {
        readPosition := readPosition + |frame.value.data|;
        queuedFrames := queuedFrames - {frame.value.offset};
      }
    }
  }

  lemma {:induction false} FirstGapIs(gaps: seq<Gap>, s: nat, g: nat)
    requires Canonical(gaps) && s <= MAX_BYTE_COUNT && g < |gaps| && s <= gaps[g].end
    requires forall k :: 0 <= k < g ==> gaps[k].end < s
    ensures FirstGap(gaps, s, 0) == g
  {}

  lemma {:induction false} FillUnfolds(st: Sorter, f: Frame, g: nat)
    requires Canonical(st.gaps) && f.End() < MAX_BYTE_COUNT && g < |st.gaps|
    requires st.gaps[g].start <= f.offset <= st.gaps[g].end && f.offset < f.End()
    ensures f.End() == f.offset + |f.data|
    ensures var j := LastGap(st.gaps, f.End(), g);
            var kept := st.queued - Bridged(st.gaps, g, j);
            var hi := if f.End() < st.gaps[j].end then f.End() else st.gaps[j].end;
            var gaps := st.gaps[..g] + (Left(st.gaps[g], f.offset) + Right(st.gaps[j], hi)) + st.gaps[j + 1..];
            && gaps == Carve(st.gaps, g, j, f.offset, hi)
            && AfterFill(st, f, g) ==
               if |gaps| > MAX_GAPS then (Sorter(st.readPosition, gaps, kept), TooManyGaps)
               else (Sorter(st.readPosition, gaps, kept[f.offset := Frame(f.offset, f.data[..hi - f.offset], f.fin)]),
                     Accepted)
  {
    hide Canonical, LastGap, Bridged, Left, Right;
  }

  lemma {:induction false} FillFails(st: Sorter, f: Frame, g: nat)
    requires Canonical(st.gaps) && f.End() == MAX_BYTE_COUNT && g < |st.gaps|
    requires st.gaps[g].start <= f.offset <= st.gaps[g].end && f.offset < f.End()
    ensures var j := LastGap(st.gaps, f.End(), g);
            AfterFill(st, f, g) ==
              (Sorter(st.readPosition, st.gaps[..g + 1] + st.gaps[if g == j then j + 1 else j..],
                      st.queued - Bridged(st.gaps, g, j)), NoEndGapFound)
  {
    hide Canonical, LastGap, Bridged, Left, Right;
  }

  lemma {:induction false} GapBounds(gaps: seq<Gap>, g: nat)
    requires Canonical(gaps) && g < |gaps|
    ensures gaps[g].start < gaps[g].end <= MAX_BYTE_COUNT
  {}

  lemma {:induction false} LastGapBounds(gaps: seq<Gap>, e: nat, g: nat, j: nat)
    requires Canonical(gaps) && g < |gaps| && gaps[g].start < e <= MAX_BYTE_COUNT && j == LastGap(gaps, e, g)
    ensures gaps[g].start < gaps[g].end && gaps[j].start < gaps[j].end <= MAX_BYTE_COUNT
    ensures j + 1 < |gaps| ==> gaps[j].end < MAX_BYTE_COUNT && e < MAX_BYTE_COUNT
    ensures j + 1 == |gaps| ==> gaps[j].end == MAX_BYTE_COUNT
    ensures g < j ==> gaps[g].end < gaps[j].start
    ensures forall k :: g <= k < j ==> gaps[k].end <= e
    ensures forall k :: g < k < |gaps| ==> (gaps[k].start < e <==> k <= j)
  {}

  lemma {:induction false} CarveCanonical(gaps: seq<Gap>, g: nat, j: nat, lo: nat, hi: nat)
    requires Canonical(gaps) && g <= j < |gaps| && hi < MAX_BYTE_COUNT
    requires gaps[g].start <= lo <= gaps[g].end && gaps[j].start < hi <= gaps[j].end
    requires lo < hi || hi == gaps[j].end
    ensures Canonical(Carve(gaps, g, j, lo, hi))
  {}
}
