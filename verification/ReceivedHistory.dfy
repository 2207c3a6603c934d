/** The set of received packet numbers, kept as a list of ranges:
    mpquic_trans/ackhandler/received_packet_history.go. */
module ReceivedHistory {
  import opened AckFrames

  const MAX_TRACKED_RECEIVED_ACK_RANGES: nat := 2500

  datatype Range = Range(start: nat, end: nat)

  /** Ranges are non-empty, ascending, and at least one number apart. */
  ghost predicate Canonical(ranges: seq<Range>) {
    && (forall i :: 0 <= i < |ranges| ==> ranges[i].start <= ranges[i].end)
    && (forall i, j :: 0 <= i < j < |ranges| ==> ranges[i].end + 1 < ranges[j].start)
  }

  ghost predicate Contains(ranges: seq<Range>, p: nat) {
    exists i :: 0 <= i < |ranges| && ranges[i].start <= p <= ranges[i].end
  }

  lemma {:induction false} ContainsConcat(a: seq<Range>, b: seq<Range>, p: nat)
    ensures Contains(a + b, p) <==> Contains(a, p) || Contains(b, p)
  {
    if Contains(a, p) {
      var i :| 0 <= i < |a| && a[i].start <= p <= a[i].end;
      assert (a + b)[i] == a[i];
    }
    if Contains(b, p) {
      var i :| 0 <= i < |b| && b[i].start <= p <= b[i].end;
      assert (a + b)[|a| + i] == b[i];
    }
  }

  lemma {:induction false} ContainsOne(r: Range, p: nat)
    ensures Contains([r], p) <==> r.start <= p <= r.end
  {
    if r.start <= p <= r.end { assert [r][0] == r; }
  }

  ghost predicate Before(a: seq<Range>, b: seq<Range>) {
    a != [] && b != [] ==> a[|a| - 1].end + 1 < b[0].start
  }

  lemma {:induction false} CanonicalJoin(a: seq<Range>, b: seq<Range>)
    requires Canonical(a) && Canonical(b) && Before(a, b)
    ensures Canonical(a + b)
  {
    var c := a + b;
    forall i, j | 0 <= i < j < |c| ensures c[i].end + 1 < c[j].start {
      if i < |a| <= j {
        assert i < |a| - 1 ==> a[i].end + 1 < a[|a| - 1].start;
        assert |a| < j ==> b[0].end + 1 < b[j - |a|].start;
      }
    }
  }

  /** Two range lists for the same set are the same list. */
  lemma {:induction false} CanonicalIsUnique(a: seq<Range>, b: seq<Range>)
    requires Canonical(a) && Canonical(b) && forall p: nat :: Contains(a, p) <==> Contains(b, p)
    ensures a == b
    decreases |a|
  {
    if a == [] {
      if b != [] { assert Contains(b, b[0].start); }
    } else {
      assert Contains(a, a[0].start);
      FirstsAgree(a, b);
      FirstsAgree(b, a);
      forall p: nat ensures Contains(a[1..], p) <==> Contains(b[1..], p) {
        Tail(a, p);
        Tail(b, p);
      }
      CanonicalIsUnique(a[1..], b[1..]);
      assert a == [a[0]] + a[1..] && b == [b[0]] + b[1..];
    }
  }

  lemma {:induction false} Tail(a: seq<Range>, p: nat)
    requires Canonical(a) && a != []
    ensures Contains(a[1..], p) <==> Contains(a, p) && p > a[0].end
  {
    assert a == [a[0]] + a[1..];
    ContainsConcat([a[0]], a[1..], p);
    ContainsOne(a[0], p);
    if Contains(a[1..], p) {
      var i :| 0 <= i < |a[1..]| && a[1..][i].start <= p <= a[1..][i].end;
      assert a[1..][i] == a[i + 1];
    }
  }

  /** The first range of `b` begins no later, and, beginning at the same place, ends no later. */
  lemma {:induction false} FirstsAgree(a: seq<Range>, b: seq<Range>)
    requires Canonical(a) && Canonical(b) && a != [] && b != [] && forall p: nat :: Contains(a, p) <==> Contains(b, p)
    ensures b[0].start <= a[0].start && (b[0].start == a[0].start ==> b[0].end <= a[0].end)
  {
    assert Contains(a, a[0].start) by { assert a[0].start <= a[0].start <= a[0].end; }
    var k :| 0 <= k < |b| && b[k].start <= a[0].start <= b[k].end;
    assert k > 0 ==> b[0].end + 1 < b[k].start;
    if b[0].start == a[0].start && a[0].end < b[0].end {
      assert Contains(b, a[0].end + 1) by { assert b[0].start <= a[0].end + 1 <= b[0].end; }
      NextIsMissing(a);
    }
  }

  lemma {:induction false} NextIsMissing(a: seq<Range>)
    requires Canonical(a) && a != []
    ensures !Contains(a, a[0].end + 1)
  {}

  /** `ranges` with `p` added is a list of the same kind; there is only one such list. */
  ghost predicate Added(before: seq<Range>, p: nat, after: seq<Range>) {
    Canonical(after) && forall q: nat :: Contains(after, q) <==> Contains(before, q) || q == p
  }

  ghost predicate DeletedUpTo(before: seq<Range>, p: nat, after: seq<Range>) {
    Canonical(after) && forall q: nat :: Contains(after, q) <==> Contains(before, q) && q > p
  }

  /** Replacing the ranges `m` in the middle by `m'`. */
  lemma {:induction false} Splice(a: seq<Range>, m: seq<Range>, m': seq<Range>, b: seq<Range>, p: nat)
    requires Canonical(a) && Canonical(m') && Canonical(b) && Before(a, m' + b) && Before(m', b)
    requires forall q: nat :: Contains(m', q) <==> Contains(m, q) || q == p
    ensures Added(a + m + b, p, a + m' + b)
  {
    hide Canonical, Contains, Before;
    CanonicalJoin(m', b);
    CanonicalJoin(a, m' + b);
    assert a + m' + b == a + (m' + b);
    forall q: nat ensures Contains(a + m' + b, q) <==> Contains(a + m + b, q) || q == p {
      ContainsConcat(a + m', b, q);
      ContainsConcat(a, m', q);
      ContainsConcat(a + m, b, q);
      ContainsConcat(a, m, q);
    }
  }

  /** Range `r` extended by `p` at one of its ends. */
  ghost predicate Extends(r: Range, r': Range, p: nat) {
    && r.start <= r.end
    && ((r' == Range(r.start, p) && r.end + 1 == p) || (r' == Range(p, r.end) && p + 1 == r.start))
  }

  lemma {:induction false} OneRange(r: Range, r': Range, p: nat)
    requires Extends(r, r', p)
    ensures forall q: nat :: Contains([r'], q) <==> Contains([r], q) || q == p
  {
    hide Contains;
    forall q: nat ensures Contains([r'], q) <==> Contains([r], q) || q == p {
      ContainsOne(r, q);
      ContainsOne(r', q);
    }
  }

  lemma {:induction false} TwoRanges(r: Range, s: Range, p: nat)
    requires r.start <= r.end && r.end + 1 == p && p + 1 == s.start <= s.end
    ensures forall q: nat :: Contains([Range(r.start, s.end)], q) <==> Contains([r, s], q) || q == p
  {
    hide Contains;
    forall q: nat ensures Contains([Range(r.start, s.end)], q) <==> Contains([r, s], q) || q == p {
      ContainsConcat([r], [s], q);
      ContainsOne(r, q);
      ContainsOne(s, q);
      ContainsOne(Range(r.start, s.end), q);
      assert [r] + [s] == [r, s];
    }
  }

  /** One round of the search for the place of `p`, at range `i`. */
  method AddAt(ranges: seq<Range>, i: nat, p: nat) returns (done: bool, after: seq<Range>)
    requires Canonical(ranges) && i < |ranges| && forall k :: i < k < |ranges| ==> p + 1 < ranges[k].start
    ensures if done then Added(ranges, p, after) else p + 1 < ranges[i].start
  {
    hide *;
    var el := ranges[i];
    if el.start <= p <= el.end {
      AlreadyIn(ranges, i, p);
      return true, ranges;
    }
    Ordered(ranges, i);
    if i + 1 < |ranges| { Ordered(ranges, i + 1); }
    Around(ranges, i);
    var extended := el;
    if el.end == p - 1 {  // just above the range
      extended := Range(el.start, p);
      IsExtension(el, extended, p);
    } else if el.start == p + 1 {  // just below the range
      extended := Range(p, el.end);
      IsExtension(el, extended, p);
    }
    if extended != el {
      if i > 0 && ranges[i - 1].end + 1 == extended.start {  // nothing left in between
        Merge(ranges[..i - 1], ranges[i - 1], el, ranges[i + 1..], p);
        return true, ranges[..i - 1] + [Range(ranges[i - 1].start, extended.end)] + ranges[i + 1..];
      }
      Extend(ranges[..i], el, ranges[i + 1..], extended, p);
      return true, ranges[..i] + [extended] + ranges[i + 1..];
    }
    if p > el.end {
      Fresh(ranges[..i + 1], p, ranges[i + 1..]);
      return true, ranges[..i + 1] + [Range(p, p)] + ranges[i + 1..];
    }
    return false, ranges;
  }

  lemma {:induction false} IsExtension(r: Range, r': Range, p: nat)
    requires r.start <= r.end && ((r' == Range(r.start, p) && r.end + 1 == p)
                                  || (r' == Range(p, r.end) && p + 1 == r.start))
    ensures Extends(r, r', p) && r != r'
  {}

  class ReceivedPacketHistory {
    var ranges: seq<Range>
    var lowestInReceivedPacketNumbers: nat

    constructor ()
      ensures ranges == [] && lowestInReceivedPacketNumbers == 0
    {
      ranges, lowestInReceivedPacketNumbers := [], 0;
    }

    /** Registers packet `p`.  `ok` is false when too many ranges are outstanding. */
    method ReceivedPacket(p: nat) returns (ok: bool)
      requires Canonical(ranges)
      modifies this`ranges
      ensures ok <==> |old(ranges)| < MAX_TRACKED_RECEIVED_ACK_RANGES
      ensures if ok then Added(old(ranges), p, ranges) else ranges == old(ranges)
    {
      hide Canonical, Contains, Added;
      if |ranges| >= MAX_TRACKED_RECEIVED_ACK_RANGES {
        return false;
      }
      ok := true;
      if |ranges| == 0 {
        assert ranges == [] + [] && [] + [Range(p, p)] + [] == [Range(p, p)];
        Fresh([], p, []);
        ranges := [Range(p, p)];
        return;
      }
      var i := |ranges| - 1;
      while i >= 0
        invariant -1 <= i < |ranges|
        invariant ranges == old(ranges)
        invariant forall k :: i < k < |ranges| ==> p + 1 < ranges[k].start
      {
        var done, after := AddAt(ranges, i, p);
        if done {
          ranges := after;
          return;
        }
        i := i - 1;
      }
      assert [] + ranges == ranges && [] + [Range(p, p)] + ranges == [Range(p, p)] + ranges;
      Fresh([], p, ranges);
      ranges := [Range(p, p)] + ranges;
    }

    /** Forgets what is not above `p`. */
    method DeleteUpTo(p: nat)
      requires Canonical(ranges)
      modifies this
      ensures DeletedUpTo(old(ranges), p, ranges)
      ensures lowestInReceivedPacketNumbers ==
              if old(lowestInReceivedPacketNumbers) < p + 1 then p + 1 else old(lowestInReceivedPacketNumbers)
    {
      hide Canonical, DeletedUpTo;
      if lowestInReceivedPacketNumbers < p + 1 {
        lowestInReceivedPacketNumbers := p + 1;
      }
      ghost var n := 0;  // how many of the original ranges are gone
      assert old(ranges)[0..] == ranges;
      while |ranges| > 0
        invariant lowestInReceivedPacketNumbers == if old(lowestInReceivedPacketNumbers) < p + 1 then p + 1
                  else old(lowestInReceivedPacketNumbers)
        invariant 0 <= n <= |old(ranges)|
        invariant forall k :: 0 <= k < n ==> old(ranges)[k].end <= p
        invariant ranges == old(ranges)[n..]
        decreases |ranges|
      {
        var el := ranges[0];
        if el.start <= p < el.end {
          assert el == old(ranges)[n];
          Around(old(ranges), n);
          DropPart(old(ranges)[..n], el, old(ranges)[n + 1..], p);
          assert ranges[1..] == old(ranges)[n + 1..];
          // the ranges behind this one begin above p: the source's loop looks at the next and stops
          ranges := [Range(p + 1, el.end)] + ranges[1..];
          return;
        } else if el.end <= p {
          assert ranges[1..] == old(ranges)[n + 1..];
          ranges := ranges[1..];
          n := n + 1;
        } else {
          break;
        }
      }
      DropWhole(old(ranges), n, p);
    }

    /** All ranges, the highest first. */
    method GetAckRanges() returns (ackRanges: seq<AckRange>)
      requires Canonical(ranges)
      ensures ackRanges == Reversed(ranges)
    {
      ackRanges := [];
      var i := |ranges| - 1;
      assert ranges[|ranges|..] == [];
      while i >= 0
        invariant -1 <= i < |ranges|
        invariant ackRanges == Reversed(ranges[i + 1..])
      {
        assert ranges[i..][1..] == ranges[i + 1..];
        ackRanges := ackRanges + [AckRange(ranges[i].start, ranges[i].end)];
        i := i - 1;
      }
      assert ranges[0..] == ranges;
    }
  }

  function Reversed(ranges: seq<Range>): (r: seq<AckRange>)
    ensures |r| == |ranges|
    ensures forall i :: 0 <= i < |r| ==> r[i] == AckRange(ranges[|ranges| - 1 - i].start, ranges[|ranges| - 1 - i].end)
  {
    if ranges == [] then [] else Reversed(ranges[1..]) + [AckRange(ranges[0].start, ranges[0].end)]
  }

  lemma {:induction false} AlreadyIn(ranges: seq<Range>, i: nat, p: nat)
    requires Canonical(ranges) && i < |ranges| && ranges[i].start <= p <= ranges[i].end
    ensures Added(ranges, p, ranges)
  {
    assert Contains(ranges, p);
  }

  lemma {:induction false} Ordered(ranges: seq<Range>, i: nat)
    requires Canonical(ranges) && i < |ranges|
    ensures ranges[i].start <= ranges[i].end
            && (i > 0 ==> ranges[i - 1].start <= ranges[i - 1].end && ranges[i - 1].end + 1 < ranges[i].start)
  {}

  lemma {:induction false} Fresh(a: seq<Range>, p: nat, b: seq<Range>)
    requires Canonical(a + b) && (a != [] ==> a[|a| - 1].end + 1 < p) && (b != [] ==> p + 1 < b[0].start)
    ensures Added(a + b, p, a + [Range(p, p)] + b)
  {
    hide Contains, Added;
    Parts(a, b);
    assert a + [] + b == a + b;
    forall q: nat ensures Contains([Range(p, p)], q) <==> Contains([], q) || q == p {
      ContainsOne(Range(p, p), q);
      ContainsNone(q);
    }
    Splice(a, [], [Range(p, p)], b, p);
  }

  lemma {:induction false} ContainsNone(q: nat)
    ensures !Contains([], q)
  {}

  lemma {:induction false} Parts(a: seq<Range>, b: seq<Range>)
    requires Canonical(a + b)
    ensures Canonical(a) && Canonical(b) && Before(a, b)
  {
    var c := a + b;
    forall i, j | 0 <= i < j < |a| ensures a[i].end + 1 < a[j].start { assert c[i] == a[i] && c[j] == a[j]; }
    forall i, j | 0 <= i < j < |b| ensures b[i].end
        + 1 < b[j].start { assert c[|a| + i] == b[i] && c[|a| + j] == b[j]; }
    forall i | 0 <= i < |b| ensures b[i].start <= b[i].end { assert c[|a| + i] == b[i]; }
    forall i | 0 <= i < |a| ensures a[i].start <= a[i].end { assert c[i] == a[i]; }
    if a != [] && b != [] { assert c[|a| - 1] == a[|a| - 1] && c[|a|] == b[0]; }
  }

  lemma {:induction false} Singleton(r: Range)
    requires r.start <= r.end
    ensures Canonical([r])
  {}

  lemma {:induction false} Assoc(a: seq<Range>, m: seq<Range>, b: seq<Range>)
    ensures a + m + b == a + (m + b)
  {}

  lemma {:induction false} Extend(a: seq<Range>, r: Range, b: seq<Range>, r': Range, p: nat)
    requires Canonical(a + [r] + b) && Extends(r, r', p)
    requires (a != [] ==> a[|a| - 1].end + 1 < r'.start) && (b != [] ==> r'.end + 1 < b[0].start)
    ensures Added(a + [r] + b, p, a + [r'] + b)
  {
    hide Contains, Added, Canonical;
    Assoc(a, [r], b);
    Parts(a, [r] + b);
    Parts([r], b);
    OneRange(r, r', p);
    Singleton(r');
    Splice(a, [r], [r'], b, p);
  }

  lemma {:induction false} Merge(a: seq<Range>, r: Range, s: Range, b: seq<Range>, p: nat)
    requires Canonical(a + [r, s] + b) && r.start <= r.end && r.end + 1 == p && p + 1 == s.start <= s.end
    ensures Added(a + [r, s] + b, p, a + [Range(r.start, s.end)] + b)
  {
    hide Contains, Added, Canonical;
    Assoc(a, [r, s], b);
    Parts(a, [r, s] + b);
    Parts([r, s], b);
    TwoRanges(r, s, p);
    Singleton(Range(r.start, s.end));
    Splice(a, [r, s], [Range(r.start, s.end)], b, p);
  }

  lemma {:induction false} DropWhole(ranges: seq<Range>, n: nat, p: nat)
    requires Canonical(ranges) && n <= |ranges| && (forall k :: 0 <= k < n ==> ranges[k].end <= p)
    requires n < |ranges| ==> p < ranges[n].start
    ensures DeletedUpTo(ranges, p, ranges[n..])
  {
    hide Contains;
    var a, b := ranges[..n], ranges[n..];
    assert ranges == a + b;
    Parts(a, b);
    forall q: nat ensures Contains(b, q) <==> Contains(ranges, q) && q > p {
      ContainsConcat(a, b, q);
      AtMost(a, p, q);
      Above(b, p, q);
    }
  }

  lemma {:induction false} AtMost(a: seq<Range>, p: nat, q: nat)
    requires forall k :: 0 <= k < |a| ==> a[k].end <= p
    ensures Contains(a, q) ==> q <= p
  {}

  lemma {:induction false} Above(b: seq<Range>, p: nat, q: nat)
    requires Canonical(b) && (b != [] ==> p < b[0].start)
    ensures Contains(b, q) ==> p < q
  {}

  lemma {:induction false} DropPart(a: seq<Range>, r: Range, b: seq<Range>, p: nat)
    requires Canonical(a + [r] + b) && (forall k :: 0 <= k < |a| ==> a[k].end <= p) && r.start <= p < r.end
    ensures DeletedUpTo(a + [r] + b, p, [Range(p + 1, r.end)] + b)
  {
    hide Contains, Canonical;
    Assoc(a, [r], b);
    Parts(a, [r] + b);
    Parts([r], b);
    var r' := Range(p + 1, r.end);
    Singleton(r');
    CanonicalJoin([r'], b);
    forall q: nat ensures Contains([r'] + b, q) <==> Contains(a + ([r] + b), q) && q > p {
      ContainsConcat(a, [r] + b, q);
      ContainsConcat([r], b, q);
      ContainsConcat([r'], b, q);
      ContainsOne(r, q);
      ContainsOne(r', q);
      AtMost(a, p, q);
      Above(b, r.end, q);
    }
  }

  lemma {:induction false} Around(s: seq<Range>, i: nat)
    requires i < |s|
    ensures s == s[..i] + [s[i]] + s[i + 1..] == s[..i + 1] + s[i + 1..]
    ensures i > 0 ==> s == s[..i - 1] + [s[i - 1], s[i]] + s[i + 1..]
  {}
}
