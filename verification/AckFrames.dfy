/** ACK frames: mpquic_trans/internal/wire/ack_frame.go, without the byte layout. */
module AckFrames {
  datatype AckRange = AckRange(first: nat, last: nat)

  /** `ranges` is empty when no packet is missing; otherwise the highest range comes first.
      `delay` is in microseconds. */
  datatype AckFrame = AckFrame(pathID: nat, largestAcked: nat, lowestAcked: nat, ranges: seq<AckRange>, delay: nat)

  predicate AcksPacket(f: AckFrame, p: nat) {
    && f.lowestAcked <= p <= f.largestAcked
    && (f.ranges == [] || exists i :: 0 <= i < |f.ranges| && f.ranges[i].first <= p <= f.ranges[i].last)
  }

  /** Each range is non-empty, and some packet is missing between any two of them. */
  predicate Descending(ranges: seq<AckRange>) {
    && (forall i :: 0 <= i < |ranges| ==> ranges[i].first <= ranges[i].last)
    && (forall i, j :: 0 <= i < j < |ranges| ==> ranges[j].last + 1 < ranges[i].first)
  }

  /** The frames that `ParseAckFrame` lets through. */
  ghost predicate Validated(f: AckFrame) {
    f.ranges != [] ==>
      && |f.ranges| >= 2 && Descending(f.ranges)
      && f.ranges[0].last == f.largestAcked && f.ranges[|f.ranges| - 1].first == f.lowestAcked
  }

  /** The loops of `validateAckRanges`: they compare neighbours only. */
  method ValidateAckRanges(f: AckFrame) returns (ok: bool)
    ensures ok <==> f.ranges == [] || (|f.ranges| >= 2 && f.ranges[0].last == f.largestAcked && Descending(f.ranges))
  {
    if |f.ranges| == 0 {
      return true;
    }
    if |f.ranges| == 1 {
      return false;
    }
    if f.ranges[0].last != f.largestAcked {
      return false;
    }
    for i := 0 to |f.ranges|
      invariant forall k :: 0 <= k < i ==> f.ranges[k].first <= f.ranges[k].last
    {
      if f.ranges[i].first > f.ranges[i].last {
        return false;
      }
    }
    for i := 0 to |f.ranges|
      invariant Descending(f.ranges[..i])
    {
      if i == 0 {
        continue;
      }
      var lastAckRange := f.ranges[i - 1];
      if lastAckRange.first <= f.ranges[i].first {
        return false;
      }
      if lastAckRange.first <= f.ranges[i].last + 1 {
        return false;
      }
      DescendingExtends(f.ranges, i);
    }
    assert f.ranges[..|f.ranges|] == f.ranges;
    return true;
  }

  lemma {:induction false} DescendingExtends(ranges: seq<AckRange>, i: nat)
    requires 0 < i < |ranges| && Descending(ranges[..i]) && ranges[i].first <= ranges[i].last
    requires ranges[i].last + 1 < ranges[i - 1].first
    ensures Descending(ranges[..i + 1])
  {
    var r := ranges[..i + 1];
    forall a, b | 0 <= a < b < |r| ensures r[b].last + 1 < r[a].first {
      assert ranges[..i][a] == r[a] && ranges[..i][i - 1] == r[i - 1];
      if b < i { assert ranges[..i][b] == r[b]; }
    }
    forall a | 0 <= a < |r| ensures r[a].first <= r[a].last {
      if a < i { assert ranges[..i][a] == r[a]; }
    }
  }

  /** A prefix of the ranges: what is left of a frame when not all of them fit. */
  function Truncate(f: AckFrame, n: nat): (t: AckFrame)
    requires f.ranges != [] ==> 0 < n <= |f.ranges|
  {
    if f.ranges == [] then f else f.(ranges := f.ranges[..n], lowestAcked := f.ranges[n - 1].first)
  }

  lemma {:induction false} TruncateAcksLess(f: AckFrame, n: nat)
    requires Validated(f) && (f.ranges != [] ==> 2 <= n <= |f.ranges|)
    ensures Validated(Truncate(f, n))
    ensures forall p: nat :: AcksPacket(Truncate(f, n), p) ==> AcksPacket(f, p)
    ensures f.ranges != [] ==>
              forall p: nat :: f.ranges[n - 1].first <= p && AcksPacket(f, p) ==> AcksPacket(Truncate(f, n), p)
  {
    var t := Truncate(f, n);
    if f.ranges != [] {
      forall p: nat | AcksPacket(t, p) ensures AcksPacket(f, p) {
        var i :| 0 <= i < |t.ranges| && t.ranges[i].first <= p <= t.ranges[i].last;
        assert f.ranges[i].first <= p <= f.ranges[i].last;
      }
      forall p: nat | f.ranges[n - 1].first <= p && AcksPacket(f, p) ensures AcksPacket(t, p) {
        var i :| 0 <= i < |f.ranges| && f.ranges[i].first <= p <= f.ranges[i].last;
        assert t.ranges[i].first <= p <= t.ranges[i].last;
      }
    }
  }
}
