/** How OLIA couples the paths: the shares that `getEpsilon` hands out, mpquic_trans/congestion/
    olia_sender.go. */
module OliaCoupling {
  import opened Olia

  const PATH_IDS: nat := 256

  /** What a path contributes: its window, the square of its round-trip time, and the bytes between its
      losses. */
  datatype Path = Path(window: nat, rtt2: int, bytes: nat)

  type Paths = map<nat, Path>

  /** The best ratio of bytes to squared round-trip time, in 64-bit products. */
  datatype Best = Best(rtt2: int, bytes: nat)

  predicate IsBest(p: Path, b: Best) { Int64(Int64(p.bytes) * b.rtt2) >= Int64(Int64(b.bytes) * p.rtt2) }

  /** The best path when they are looked at in the given order. */
  function BestAlong(paths: Paths, order: seq<nat>): Best
    requires forall i :: 0 <= i < |order| ==> order[i] in paths
  {
    if order == [] then Best(0, 0)
    else
      var before, p := BestAlong(paths, order[..|order| - 1]), paths[order[|order| - 1]];
      if IsBest(p, before) then Best(p.rtt2, p.bytes) else before
  }

  /** With a path whose round-trip time is unknown the order matters. */
  lemma {:induction false} OrderMatters()
    ensures var paths: Paths := map[0 := Path(1, 0, 0), 1 := Path(1, 4, 1)];
            BestAlong(paths, [0, 1]) == Best(4, 1) && BestAlong(paths, [1, 0]) == Best(0, 0)
  {
    var paths: Paths := map[0 := Path(1, 0, 0), 1 := Path(1, 4, 1)];
    var a: seq<nat>, b: seq<nat>, c: seq<nat>, d: seq<nat> := [0, 1], [1, 0], [0], [1];
    assert a[..1] == c && b[..1] == d && c[..0] == [] && d[..0] == [];
    assert BestAlong(paths, c) == Best(0, 0) && BestAlong(paths, d) == Best(4, 1);
  }

  /** All round-trip times are known, and no product overflows. */
  ghost predicate Exact(paths: Paths) {
    forall i, j :: i in paths && j in paths ==>
      paths[i].rtt2 > 0 && paths[i].bytes < INT64 && paths[i].bytes * paths[j].rtt2 < INT64
  }

  /** No path has a better ratio. */
  ghost predicate IsGreatest(paths: Paths, b: Best) {
    forall i :: i in paths ==> paths[i].bytes * b.rtt2 <= b.bytes * paths[i].rtt2
  }

  /** Then the comparison is the one of the ratios, and with the greatest one it singles out the paths
      that no other path exceeds. */
  lemma {:induction false} BestIsGreatest(paths: Paths, i: nat, k: nat)
    requires Exact(paths) && i in paths && k in paths
    ensures var b := Best(paths[k].rtt2, paths[k].bytes);
            && (IsBest(paths[i], b) <==> paths[i].bytes * b.rtt2 >= b.bytes * paths[i].rtt2)
            && (IsGreatest(paths, b) ==> (IsBest(paths[i], b)
                                          <==> IsGreatest(paths, Best(paths[i].rtt2, paths[i].bytes))))
  {
    hide IsBest;
    ExactCompare(paths[i], paths[k]);
    if IsGreatest(paths, Best(paths[k].rtt2, paths[k].bytes)) && IsBest(paths[i], Best(paths[k].rtt2, paths[k].bytes)) {
      forall j | j in paths ensures paths[j].bytes * paths[i].rtt2 <= paths[i].bytes * paths[j].rtt2 {
        Transitive(paths[j], paths[k], paths[i]);
      }
    }
  }

  /** Looked at in any order, the best path is one that no other exceeds. */
  lemma {:induction false} AlongIsGreatest(paths: Paths, order: seq<nat>) returns (k: nat)
    requires Exact(paths) && order != [] && forall i :: 0 <= i < |order| ==> order[i] in paths
    ensures k in paths && BestAlong(paths, order) == Best(paths[k].rtt2, paths[k].bytes)
    ensures forall i :: i in order ==> paths[i].bytes * paths[k].rtt2 <= paths[k].bytes * paths[i].rtt2
  {
    hide IsBest, Exact;
    var init, i := order[..|order| - 1], order[|order| - 1];
    assert order == init + [i];
    if init == [] {
      k := i;
      FirstIsBest(paths[i]);
      assert order[..0] == [];
    } else {
      k := AlongIsGreatest(paths, init);
      BestIsGreatest(paths, i, k);
      if IsBest(paths[i], Best(paths[k].rtt2, paths[k].bytes)) {
        forall j | j in init ensures paths[j].bytes * paths[i].rtt2 <= paths[i].bytes * paths[j].rtt2 {
          AllPositive(paths, i, j, k);
          Transitive(paths[j], paths[k], paths[i]);
        }
        k := i;
      }
    }
  }

  lemma {:induction false} AllPositive(paths: Paths, i: nat, j: nat, k: nat)
    requires Exact(paths) && i in paths && j in paths && k in paths
    ensures paths[i].rtt2 > 0 && paths[j].rtt2 > 0 && paths[k].rtt2 > 0
  {}

  /** The first path is always taken. */
  lemma {:induction false} FirstIsBest(p: Path)
    ensures IsBest(p, Best(0, 0))
  {
    assert Int64(p.bytes) * 0 == 0 && Int64(0) * p.rtt2 == 0;
  }

  lemma {:induction false} ExactCompare(p: Path, q: Path)
    requires p.rtt2 > 0 && q.rtt2 > 0 && p.bytes < INT64 && q.bytes < INT64
    requires p.bytes * q.rtt2 < INT64 && q.bytes * p.rtt2 < INT64
    ensures IsBest(p, Best(q.rtt2, q.bytes)) <==> p.bytes * q.rtt2 >= q.bytes * p.rtt2
  {
    hide Int64;
    Scale(0, p.bytes, q.rtt2);
    Scale(0, q.bytes, p.rtt2);
    Small(p.bytes);
    Small(q.bytes);
    Small(p.bytes * q.rtt2);
    Small(q.bytes * p.rtt2);
  }

  lemma {:induction false} Small(n: int)
    requires 0 <= n < INT64
    ensures Int64(n) == n
  {}

  lemma {:induction false} Transitive(a: Path, b: Path, c: Path)
    requires a.rtt2 > 0 && b.rtt2 > 0 && c.rtt2 > 0
    requires a.bytes * b.rtt2 <= b.bytes * a.rtt2 && b.bytes * c.rtt2 <= c.bytes * b.rtt2
    ensures a.bytes * c.rtt2 <= c.bytes * a.rtt2
  {
    var l, r, m := a.bytes * c.rtt2, c.bytes * a.rtt2, b.rtt2;
    calc {
      l * m;
      (a.bytes * b.rtt2) * c.rtt2;
    <= { Scale(a.bytes * b.rtt2, b.bytes * a.rtt2, c.rtt2); }
      (b.bytes * a.rtt2) * c.rtt2;
      (b.bytes * c.rtt2) * a.rtt2;
    <= { Scale(b.bytes * c.rtt2, c.bytes * b.rtt2, a.rtt2); }
      (c.bytes * b.rtt2) * a.rtt2;
      r * m;
    }
    if l > r {
      Grows(r, l, m);
    }
  }

  lemma {:induction false} Grows(a: int, b: int, n: int)
    requires a < b && n > 0
    ensures a * n < b * n
  {
    Scale(a + 1, b, n);
    assert (a + 1) * n == a * n + n;
  }

  lemma {:induction false} Scale(a: int, b: int, n: int)
    requires a <= b && n >= 0
    ensures a * n <= b * n
  {
    assert (b - a) * n >= 0;
  }

  ghost predicate IsMax(paths: Paths, max: nat) {
    (forall i :: i in paths ==> paths[i].window <= max)
        && (paths != map[] ==> exists i :: i in paths && paths[i].window == max)
  }

  /** The paths with the largest window, and the best ones among the others. */
  ghost function InM(paths: Paths, max: nat): set<nat> { set i | i in paths && paths[i].window == max }

  ghost function InBNotM(paths: Paths, max: nat, b: Best): set<nat> { set i | i in paths && paths[i].window != max
                                                                     && IsBest(paths[i], b) }

  /** A share: numerator and denominator. */
  datatype Epsilon = Epsilon(num: int, den: nat)

  function EpsilonOf(n: nat, p: Path, max: nat, b: Best, m: nat, bNotM: nat): Epsilon {
    if bNotM == 0 then Epsilon(0, 1)
    else if p.window < max && IsBest(p, b) then Epsilon(1, n * bNotM)
    else if p.window == max then Epsilon(-1, n * m)
    else Epsilon(0, 1)
  }

  ghost predicate Shares(paths: Paths, max: nat, b: Best, eps: map<nat, Epsilon>) {
    && eps.Keys == paths.Keys
    && forall i :: i in paths ==>
         eps[i] == EpsilonOf(|paths|, paths[i], max, b, |InM(paths, max)|, |InBNotM(paths, max, b)|)
  }

  // ----- the rate of all paths -----

  /** What a path contributes, in terms of a path with the round-trip time `own`. */
  function RateTerm(window: nat, rtt: int, own: int): nat {
    if W64(rtt) == 0 then 0 else W64(W64(window * SCALE) * W64(own)) / W64(rtt)
  }

  function TermsBelow(terms: map<nat, nat>, s: set<nat>, n: nat): nat {
    if n == 0 then 0 else TermsBelow(terms, s, n - 1) + if n - 1 in s && n - 1 in terms then terms[n - 1] else 0
  }

  /** `getRate`: one more than the sum of all terms, squared. */
  function Rate(terms: map<nat, nat>): nat {
    var sum := W64(1 + TermsBelow(terms, terms.Keys, PATH_IDS));
    W64(sum * sum)
  }

  lemma {:induction false} OneTerm(terms: map<nat, nat>, s: set<nat>, i: nat, n: nat)
    requires i in terms && i !in s
    ensures TermsBelow(terms, s + {i}, n) == TermsBelow(terms, s, n) + if i < n then terms[i] else 0
  {
    if n > 0 { OneTerm(terms, s, i, n - 1); }
  }

  lemma {:induction false} NoTerms(terms: map<nat, nat>, n: nat)
    ensures TermsBelow(terms, {}, n) == 0
  {
    if n > 0 { NoTerms(terms, n - 1); }
  }

  lemma {:induction false} AddWraps(a: nat, b: nat)
    ensures W64(W64(a) + b) == W64(a + b)
  {}

  // ----- the shares cancel out -----

  function Value(e: Epsilon): real
    requires e.den > 0
  {
    e.num as real / e.den as real
  }

  /** The sum of the shares of the paths below `n`. */
  ghost function Sum(eps: map<nat, Epsilon>, n: nat): real
    requires forall i :: i in eps ==> eps[i].den > 0
  {
    if n == 0 then 0.0 else Sum(eps, n - 1) + if n - 1 in eps then Value(eps[n - 1]) else 0.0
  }

  ghost function Below(s: set<nat>, n: nat): nat {
    if n == 0 then 0 else Below(s, n - 1) + if n - 1 in s then 1 else 0
  }

  lemma {:induction false} BelowIsSize(s: set<nat>, n: nat)
    requires forall i :: i in s ==> i < n
    ensures Below(s, n) == |s|
  {
    if n == 0 {
      assert s == {};
    } else {
      var t := s - {n - 1};
      BelowIsSize(t, n - 1);
      BelowAgrees(s, t, n - 1);
    }
  }

  lemma {:induction false} BelowAgrees(s: set<nat>, t: set<nat>, n: nat)
    requires forall i :: 0 <= i < n ==> (i in s <==> i in t)
    ensures Below(s, n) == Below(t, n)
  {
    if n > 0 { BelowAgrees(s, t, n - 1); }
  }

  function Times(k: nat, u: real): real { k as real * u }

  lemma {:induction false} SumIsCounts(eps: map<nat, Epsilon>, plus: set<nat>, minus: set<nat>, u: real, v: real,
                                       n: nat)
    requires forall i :: i in eps ==> eps[i].den > 0
    requires plus !! minus && plus + minus <= eps.Keys
    requires forall i :: i in eps ==> Value(eps[i]) == if i in plus then u else if i in minus then -v else 0.0
    ensures Sum(eps, n) == Times(Below(plus, n), u) - Times(Below(minus, n), v)
  {
    hide Value, Times;
    NoneTimes(u);
    NoneTimes(v);
    if n > 0 {
      SumIsCounts(eps, plus, minus, u, v, n - 1);
      OneMore(Below(plus, n - 1), u);
      OneMore(Below(minus, n - 1), v);
    }
  }

  lemma {:induction false} NoneTimes(u: real)
    ensures Times(0, u) == 0.0
  {}

  lemma {:induction false} OneMore(k: nat, u: real)
    ensures Times(k + 1, u) == Times(k, u) + u
  {}

  function Unit(d: nat): real
    requires d > 0
  { 1.0 / d as real }

  lemma {:induction false} Share(n: nat, k: nat)
    requires n > 0 && k > 0
    ensures n * k > 0 && Times(k, Unit(n * k)) == Unit(n)
  {
    var a, b := n as real, k as real;
    assert (n * k) as real == a * b;
    Cancel(a, b);
  }

  lemma {:induction false} Cancel(a: real, b: real)
    requires a > 0.0 && b > 0.0
    ensures a * b > 0.0 && b * (1.0 / (a * b)) == 1.0 / a
  {
    var x, y := 1.0 / (a * b), 1.0 / a;
    assert x * (a * b) == 1.0 && y * a == 1.0;
    assert a * (b * x) == 1.0;
    Same(a, b * x, y);
  }

  lemma {:induction false} Same(a: real, x: real, y: real)
    requires a > 0.0 && a * x == 1.0 && y * a == 1.0
    ensures x == y
  {
    assert a * (x - y) == 0.0;
  }

  lemma {:induction false} NoShares(eps: map<nat, Epsilon>, n: nat)
    requires forall i :: i in eps ==> eps[i] == Epsilon(0, 1)
    ensures Sum(eps, n) == 0.0
  {
    if n > 0 { NoShares(eps, n - 1); }
  }

  /** The coupling takes from the paths with the largest windows exactly what it gives to the best of the
      others: over any paths the shares add up to zero. */
  lemma {:induction false} SharesCancel(paths: Paths, max: nat, b: Best, eps: map<nat, Epsilon>)
    requires IsMax(paths, max) && Shares(paths, max, b, eps) && (forall i :: i in paths ==> i < PATH_IDS)
    ensures forall i :: i in eps ==> eps[i].den > 0
    ensures Sum(eps, PATH_IDS) == 0.0
  {
    hide IsBest;
    var m, k := InM(paths, max), InBNotM(paths, max, b);
    if k == {} {
      NoShares(eps, PATH_IDS);
    } else {
      ManyShares(paths, max, b, eps);
    }
  }

  lemma {:induction false} ManyShares(paths: Paths, max: nat, b: Best, eps: map<nat, Epsilon>)
    requires IsMax(paths, max) && Shares(paths, max, b, eps) && (forall i :: i in paths ==> i < PATH_IDS)
    requires InBNotM(paths, max, b) != {}
    ensures forall i :: i in eps ==> eps[i].den > 0
    ensures Sum(eps, PATH_IDS) == 0.0
  {
    hide IsBest, Sum, Below, Value, Times, Unit;
    var m, k, n := InM(paths, max), InBNotM(paths, max, b), |paths|;
    var i :| i in k;
    var j :| j in paths && paths[j].window == max;
    assert j in m;
    NotEmpty(m, j);
    NotEmpty(k, i);
    NotEmpty(paths.Keys, i);
    Share(n, |k|);
    Share(n, |m|);
    var c: nat, d: nat := n * |k|, n * |m|;
    var u, v := Unit(c), Unit(d);
    forall x | x in eps ensures eps[x].den > 0 && Value(eps[x]) == if x in k then u else if x in m then -v else 0.0 {
      OneShare(paths, max, b, eps, x, n, k, m, c, d);
      Values(eps[x], c, d);
    }
    SumIsCounts(eps, k, m, u, v, PATH_IDS);
    BelowIsSize(k, PATH_IDS);
    BelowIsSize(m, PATH_IDS);
  }

  lemma {:induction false} OneShare(paths: Paths, max: nat, b: Best, eps: map<nat, Epsilon>, x: nat, n: nat,
                                    k: set<nat>, m: set<nat>, c: nat, d: nat)
    requires IsMax(paths, max) && Shares(paths, max, b, eps) && x in eps && n == |paths| && k == InBNotM(paths, max, b)
             && m == InM(paths, max)
    requires c == n * |k| && d == n * |m| && |k| > 0
    ensures eps[x] == if x in k then Epsilon(1, c) else if x in m then Epsilon(-1, d) else Epsilon(0, 1)
  {
    hide IsBest;
  }

  lemma {:induction false} NotEmpty(s: set<nat>, i: nat)
    requires i in s
    ensures |s| > 0
  {}

  lemma {:induction false} Values(e: Epsilon, a: nat, b: nat)
    requires a > 0 && b > 0
    ensures e == Epsilon(1, a) ==> Value(e) == Unit(a)
    ensures e == Epsilon(-1, b) ==> Value(e) == -Unit(b)
    ensures e == Epsilon(0, 1) ==> Value(e) == 0.0
  {}
}
