/** The LOESS smoother of the trend chart: for every point, the `span` nearest
    points (by `|x_j - x_i|`, ties kept in index order) are weighted with the
    tricube kernel and a weighted straight line is fitted through them. The
    abscissae are integers (millisecond time stamps), so distances, the sort and
    the neighbour choice are exact; the weights and the fit are computed over
    `real`, with `Math.pow(u, 3)` as the exact cube. */
module Loess {
  import opened Seqs

  /** `{ j, d }`: a point index and its distance from the current abscissa. */
  datatype Nbr = Nbr(j: nat, d: nat)

  /** The default bandwidth, used when the argument is falsy. */
  const DEFAULT_BANDWIDTH := 0.75

  /** Below this magnitude the normal equations are treated as singular. */
  const DET_EPS := 0.000000000001

  /** `Math.max(2, Math.floor(bw * n))` with `bw = bandwidth || 0.75`. */
  function Span(n: nat, bandwidth: real): (span: nat)
    ensures span >= 2
  {
    var bw := if bandwidth == 0.0 then DEFAULT_BANDWIDTH else bandwidth;
    Max(2, (bw * n as real).Floor)
  }

  /** For a bandwidth in (0, 1] (or the default) and at least three points, the
      span is between 2 and the number of points, and is the floor of `bw * n`
      once that reaches 2. */
  lemma SpanBounds(n: nat, bandwidth: real)
    requires n >= 3 && 0.0 <= bandwidth <= 1.0
    ensures 2 <= Span(n, bandwidth) <= n
    ensures var bw := if bandwidth == 0.0 then DEFAULT_BANDWIDTH else bandwidth;
      (bw * n as real).Floor >= 2 ==> Span(n, bandwidth) == (bw * n as real).Floor
  {
    var bw := if bandwidth == 0.0 then DEFAULT_BANDWIDTH else bandwidth;
    assert bw * n as real <= n as real;
  }

  /** `xs.map((x, j) => ({ j, d: Math.abs(x - xi) }))`. */
  function Indexed(xs: seq<int>, xi: int): (r: seq<Nbr>)
    ensures |r| == |xs|
    ensures forall j :: 0 <= j < |xs| ==> r[j] == Nbr(j, Abs(xs[j] - xi))
  {
    seq(|xs|, j requires 0 <= j < |xs| => Nbr(j, Abs(xs[j] - xi)))
  }

  /** The order a stable sort by distance produces from index order: by distance,
      then by index. */
  predicate Precedes(a: Nbr, b: Nbr)
  {
    a.d < b.d || (a.d == b.d && a.j < b.j)
  }

  predicate SortedByDistance(s: seq<Nbr>)
  {
    forall k, l :: 0 <= k < l < |s| ==> Precedes(s[k], s[l])
  }

  /** Inserts `e` before the first element that is not nearer than it. */
  function InsertByDistance(e: Nbr, s: seq<Nbr>): (r: seq<Nbr>)
    ensures |r| == |s| + 1
  {
    if s == [] || e.d <= s[0].d then [e] + s
    else [s[0]] + InsertByDistance(e, s[1..])
  }

  lemma {:induction false} InsertByDistanceElements(e: Nbr, s: seq<Nbr>)
    ensures multiset(InsertByDistance(e, s)) == multiset(s) + multiset{e}
  {
    if s != [] && e.d > s[0].d {
      InsertByDistanceElements(e, s[1..]);
      assert s == [s[0]] + s[1..];
    }
  }

  lemma {:induction false} InsertByDistanceSpec(e: Nbr, s: seq<Nbr>)
    requires SortedByDistance(s)
    requires forall k :: 0 <= k < |s| ==> e.j < s[k].j
    ensures SortedByDistance(InsertByDistance(e, s))
    ensures multiset(InsertByDistance(e, s)) == multiset(s) + multiset{e}
  {
    InsertByDistanceElements(e, s);
    var r := InsertByDistance(e, s);
    if s == [] || e.d <= s[0].d {
      assert r == [e] + s;
      forall k | 0 < k < |r|
        ensures Precedes(e, r[k])
      {
        assert r[k] == s[k - 1];
        if k > 1 {
          assert Precedes(s[0], s[k - 1]);
        }
      }
    } else {
      var t := InsertByDistance(e, s[1..]);
      InsertByDistanceSpec(e, s[1..]);
      assert r == [s[0]] + t;
      forall k | 0 <= k < |t|
        ensures Precedes(s[0], t[k])
      {
        assert t[k] in multiset(t);
        if t[k] != e {
          assert t[k] in multiset(s[1..]);
        }
      }
    }
  }

  /** `indexed.sort((a, b) => a.d - b.d)`, a stable sort: an insertion sort that
      puts each element before the later ones at the same distance. */
  function SortByDistance(s: seq<Nbr>): (r: seq<Nbr>)
    ensures |r| == |s|
  {
    if s == [] then [] else InsertByDistance(s[0], SortByDistance(s[1..]))
  }

  predicate IncreasingIndices(s: seq<Nbr>)
  {
    forall k, l :: 0 <= k < l < |s| ==> s[k].j < s[l].j
  }

  /** Sorting a list given in index order yields the order by (distance, index),
      with the same elements. */
  lemma SortByDistanceSpec(s: seq<Nbr>)
    requires IncreasingIndices(s)
    ensures SortedByDistance(SortByDistance(s))
    ensures multiset(SortByDistance(s)) == multiset(s)
  {
    SortByDistanceSorted(s);
    SortByDistanceElements(s);
  }

  lemma {:induction false} SortByDistanceElements(s: seq<Nbr>)
    ensures multiset(SortByDistance(s)) == multiset(s)
  {
    if s != [] {
      var t := SortByDistance(s[1..]);
      SortByDistanceElements(s[1..]);
      InsertByDistanceElements(s[0], t);
      assert multiset(s) == multiset(s[1..]) + multiset{s[0]} by {
        assert s == [s[0]] + s[1..];
      }
    }
  }

  lemma {:induction false} SortByDistanceSorted(s: seq<Nbr>)
    requires IncreasingIndices(s)
    ensures SortedByDistance(SortByDistance(s))
  {
    if s != [] {
      var t := SortByDistance(s[1..]);
      SortByDistanceSorted(s[1..]);
      SortByDistanceElements(s[1..]);
      forall k | 0 <= k < |t|
        ensures s[0].j < t[k].j
      {
        assert t[k] in multiset(s[1..]);
      }
      InsertByDistanceSpec(s[0], t);
    }
  }

  /** `indexed.slice(0, span)` after the sort. */
  function Neighbours(xs: seq<int>, i: nat, span: nat): (nbrs: seq<Nbr>)
    requires i < |xs|
    ensures |nbrs| == Min(span, |xs|)
  {
    SortByDistance(Indexed(xs, xs[i]))[..Min(span, |xs|)]
  }

  /** The neighbours are the `span` nearest points: every neighbour is at most as
      far as the last one and every other point is at least as far; each point
      appears once in the sorted list and the ties are broken by index. */
  lemma NeighboursNearest(xs: seq<int>, i: nat, span: nat)
    requires i < |xs| && span >= 1
    ensures var sorted := SortByDistance(Indexed(xs, xs[i]));
      var m := Min(span, |xs|);
      && SortedByDistance(sorted)
      && multiset(sorted) == multiset(Indexed(xs, xs[i]))
      && sorted[..m] == Neighbours(xs, i, span)
      && (forall k :: 0 <= k < m ==> sorted[k].d <= sorted[m - 1].d)
      && (forall k :: m <= k < |xs| ==> sorted[k].d >= sorted[m - 1].d)
  {
    var s := Indexed(xs, xs[i]);
    SortByDistanceSpec(s);
  }

  /** If the farthest neighbour is not at distance 0, the point itself is a neighbour. */
  lemma SelfIsNeighbour(xs: seq<int>, i: nat, span: nat)
    requires i < |xs| && span >= 1
    requires Neighbours(xs, i, span)[Min(span, |xs|) - 1].d > 0
    ensures Nbr(i, 0) in Neighbours(xs, i, span)
  {
    var s := Indexed(xs, xs[i]);
    var sorted := SortByDistance(s);
    var m := Min(span, |xs|);
    SortByDistanceSpec(s);
    assert s[i] == Nbr(i, 0);
    assert Nbr(i, 0) in multiset(sorted) by { assert Nbr(i, 0) in multiset(s); }
    var k :| 0 <= k < |sorted| && sorted[k] == Nbr(i, 0);
    if k >= m {
      assert false;
    }
    assert sorted[..m][k] == Nbr(i, 0);
  }

  function Cube(u: real): real { u * u * u }

  /** The tricube weight `(1 - u^3)^3` of a neighbour at distance `d` when the
      farthest one is at `maxDst`. */
  function Weight(d: nat, maxDst: nat): real
    requires maxDst > 0
  {
    Cube(1.0 - Cube(d as real / maxDst as real))
  }

  lemma CubeBounds(u: real)
    requires 0.0 <= u <= 1.0
    ensures 0.0 <= Cube(u) <= 1.0
  {
    assert 0.0 <= u * u <= 1.0 by { assert u * u <= u * 1.0; }
    assert u * u * u <= u * u * 1.0;
  }

  /** Weights lie in [0, 1]; the point at distance 0 gets weight 1. */
  lemma WeightBounds(d: nat, maxDst: nat)
    requires 0 < maxDst && d <= maxDst
    ensures 0.0 <= Weight(d, maxDst) <= 1.0
    ensures d == 0 ==> Weight(d, maxDst) == 1.0
  {
    var u := d as real / maxDst as real;
    assert 0.0 <= u <= 1.0;
    CubeBounds(u);
    CubeBounds(1.0 - Cube(u));
  }

  /** The five running sums of the weighted regression. */
  datatype Acc = Acc(sw: real, swx: real, swy: real, swx2: real, swxy: real)

  /** The sums after one more neighbour at `x`, `y` with weight `w`. */
  function AddPoint(acc: Acc, w: real, x: real, y: real): Acc
  {
    Acc(acc.sw + w, acc.swx + w * x, acc.swy + w * y, acc.swx2 + w * x * x, acc.swxy + w * x * y)
  }

  /** Every entry of a neighbour list built from `xs` names one of its points, no
      farther than `maxDst`. */
  predicate WellFormed(nbrs: seq<Nbr>, xs: seq<int>, maxDst: nat)
  {
    forall k :: 0 <= k < |nbrs| ==> nbrs[k].j < |xs| && nbrs[k].d <= maxDst
  }

  /** The sums after the neighbours in `nbrs`, in order. */
  function Sums(nbrs: seq<Nbr>, xs: seq<int>, ys: seq<real>, maxDst: nat): Acc
    requires maxDst > 0 && |xs| == |ys| && WellFormed(nbrs, xs, maxDst)
  {
    if nbrs == [] then Acc(0.0, 0.0, 0.0, 0.0, 0.0)
    else
      var e := nbrs[|nbrs| - 1];
      AddPoint(Sums(nbrs[..|nbrs| - 1], xs, ys, maxDst), Weight(e.d, maxDst), xs[e.j] as real, ys[e.j])
  }

  /** The total weight is non-negative, and at least 1 once a point at distance 0
      is among the neighbours. */
  lemma {:induction false} WeightSum(nbrs: seq<Nbr>, xs: seq<int>, ys: seq<real>, maxDst: nat, self: nat)
    requires maxDst > 0 && |xs| == |ys| && WellFormed(nbrs, xs, maxDst)
    ensures Sums(nbrs, xs, ys, maxDst).sw >= 0.0
    ensures Nbr(self, 0) in nbrs ==> Sums(nbrs, xs, ys, maxDst).sw >= 1.0
  {
    if nbrs != [] {
      var init := nbrs[..|nbrs| - 1];
      var e := nbrs[|nbrs| - 1];
      WeightSum(init, xs, ys, maxDst, self);
      WeightBounds(e.d, maxDst);
      assert nbrs == init + [e];
    }
  }

  /** The weighted sum of values lies between `lo` and `hi` times the total weight. */
  predicate MeanWithin(acc: Acc, lo: real, hi: real)
  {
    lo * acc.sw <= acc.swy <= hi * acc.sw
  }

  lemma MeanStep(acc: Acc, w: real, x: real, y: real, lo: real, hi: real)
    requires MeanWithin(acc, lo, hi)
    requires 0.0 <= w && lo <= y <= hi
    ensures MeanWithin(AddPoint(acc, w, x, y), lo, hi)
  {
    assert w * lo <= w * y <= w * hi by {
      assert w * (y - lo) >= 0.0 && w * (hi - y) >= 0.0;
    }
  }

  /** The weighted sum of neighbour values bounded by `lo` and `hi` lies between
      `lo` and `hi` times the total weight. */
  lemma {:induction false} WeightedMeanBounds(nbrs: seq<Nbr>, xs: seq<int>, ys: seq<real>, maxDst: nat, lo: real, hi: real)
    requires maxDst > 0 && |xs| == |ys| && WellFormed(nbrs, xs, maxDst)
    requires forall e :: e in nbrs && e.j < |ys| ==> lo <= ys[e.j] <= hi
    ensures MeanWithin(Sums(nbrs, xs, ys, maxDst), lo, hi)
  {
    if nbrs != [] {
      var init := nbrs[..|nbrs| - 1];
      var e := nbrs[|nbrs| - 1];
      assert forall f :: f in init ==> f in nbrs;
      WeightedMeanBounds(init, xs, ys, maxDst, lo, hi);
      WeightBounds(e.d, maxDst);
      var acc := Sums(init, xs, ys, maxDst);
      assert Sums(nbrs, xs, ys, maxDst) == AddPoint(acc, Weight(e.d, maxDst), xs[e.j] as real, ys[e.j]);
      MeanStep(acc, Weight(e.d, maxDst), xs[e.j] as real, ys[e.j], lo, hi);
    }
  }

  /** The sums of points on the line `y = a x + b` satisfy the line's equation. */
  predicate OnLine(acc: Acc, a: real, b: real)
  {
    acc.swy == a * acc.swx + b * acc.sw && acc.swxy == a * acc.swx2 + b * acc.swx
  }

  lemma LineStep(acc: Acc, w: real, x: real, y: real, a: real, b: real)
    requires OnLine(acc, a, b) && y == a * x + b
    ensures OnLine(AddPoint(acc, w, x, y), a, b)
  {
    assert w * (a * x + b) == a * (w * x) + b * w;
    assert w * x * (a * x + b) == a * (w * x * x) + b * (w * x);
  }

  lemma {:induction false} LinearSums(nbrs: seq<Nbr>, xs: seq<int>, ys: seq<real>, maxDst: nat, a: real, b: real)
    requires maxDst > 0 && |xs| == |ys| && WellFormed(nbrs, xs, maxDst)
    requires forall j :: 0 <= j < |xs| ==> ys[j] == a * xs[j] as real + b
    ensures OnLine(Sums(nbrs, xs, ys, maxDst), a, b)
  {
    if nbrs == [] {
      assert Sums(nbrs, xs, ys, maxDst) == Acc(0.0, 0.0, 0.0, 0.0, 0.0);
    } else {
      var init := nbrs[..|nbrs| - 1];
      var e := nbrs[|nbrs| - 1];
      LinearSums(init, xs, ys, maxDst, a, b);
      assert Sums(nbrs, xs, ys, maxDst) == AddPoint(Sums(init, xs, ys, maxDst), Weight(e.d, maxDst), xs[e.j] as real, ys[e.j]);
      LineStep(Sums(init, xs, ys, maxDst), Weight(e.d, maxDst), xs[e.j] as real, ys[e.j], a, b);
    }
  }

  /** `sw * swx2 - swx * swx`, the determinant of the normal equations. */
  function Det(acc: Acc): real
  {
    acc.sw * acc.swx2 - acc.swx * acc.swx
  }

  /** `b1`, the slope of the weighted least-squares line. */
  function Slope(acc: Acc): real
    requires Det(acc) != 0.0
  {
    (acc.sw * acc.swxy - acc.swx * acc.swy) / Det(acc)
  }

  /** `b0`, its intercept. */
  function Intercept(acc: Acc): real
    requires Det(acc) != 0.0 && acc.sw != 0.0
  {
    (acc.swy - Slope(acc) * acc.swx) / acc.sw
  }

  /** `b0 + b1 * xi` for the weighted least-squares line. */
  function Regression(acc: Acc, xi: real): real
    requires Det(acc) != 0.0 && acc.sw != 0.0
  {
    Intercept(acc) + Slope(acc) * xi
  }

  /** The least-squares line through points of a straight line is that line. */
  lemma RegressionOnLine(acc: Acc, xi: real, a: real, b: real)
    requires Det(acc) != 0.0 && acc.sw != 0.0 && OnLine(acc, a, b)
    ensures Regression(acc, xi) == a * xi + b
  {
    SlopeOnLine(acc, a, b);
    InterceptOnLine(acc, a, b);
  }

  lemma SlopeOnLine(acc: Acc, a: real, b: real)
    requires Det(acc) != 0.0 && OnLine(acc, a, b)
    ensures Slope(acc) == a
  {
    var sw, sx, sxx, sy, sxy := acc.sw, acc.swx, acc.swx2, acc.swy, acc.swxy;
    assert sw * sxy - sx * sy == a * Det(acc) by {
      assert sw * sxy == a * (sw * sxx) + b * (sw * sx);
      assert sx * sy == a * (sx * sx) + b * (sx * sw);
    }
    QuotientOf(sw * sxy - sx * sy, Det(acc), a);
  }

  lemma InterceptOnLine(acc: Acc, a: real, b: real)
    requires Det(acc) != 0.0 && acc.sw != 0.0 && OnLine(acc, a, b) && Slope(acc) == a
    ensures Intercept(acc) == b
  {
    QuotientOf(acc.swy - a * acc.swx, acc.sw, b);
  }

  lemma QuotientOf(num: real, den: real, q: real)
    requires den != 0.0 && num == q * den
    ensures num / den == q
  {
  }

  /** The distance of the farthest of the neighbours. */
  function MaxDist(xs: seq<int>, i: nat, span: nat): nat
    requires i < |xs| && span >= 1
  {
    var nbrs := Neighbours(xs, i, span);
    nbrs[|nbrs| - 1].d
  }

  lemma WellFormedNeighbours(xs: seq<int>, i: nat, span: nat)
    requires i < |xs| && span >= 1
    ensures WellFormed(Neighbours(xs, i, span), xs, MaxDist(xs, i, span))
  {
    var nbrs := Neighbours(xs, i, span);
    NeighboursNearest(xs, i, span);
    var s := Indexed(xs, xs[i]);
    forall k | 0 <= k < |nbrs|
      ensures nbrs[k].j < |xs|
    {
      assert nbrs[k] in multiset(s);
    }
  }

  /** The weighted sums over the neighbours of point `i`. */
  function NeighbourSums(xs: seq<int>, ys: seq<real>, i: nat, span: nat): (acc: Acc)
    requires |xs| == |ys| && i < |xs| && span >= 1 && MaxDist(xs, i, span) > 0
    ensures acc.sw >= 1.0
  {
    WellFormedNeighbours(xs, i, span);
    SelfIsNeighbour(xs, i, span);
    WeightSum(Neighbours(xs, i, span), xs, ys, MaxDist(xs, i, span), i);
    Sums(Neighbours(xs, i, span), xs, ys, MaxDist(xs, i, span))
  }

  /** The smoothed value at point `i` for a given span. */
  function Fit(xs: seq<int>, ys: seq<real>, i: nat, span: nat): real
    requires |xs| == |ys| && i < |xs| && span >= 1
  {
    if MaxDist(xs, i, span) == 0 then ys[i]
    else
      var acc := NeighbourSums(xs, ys, i, span);
      if RealAbs(Det(acc)) < DET_EPS then acc.swy / acc.sw
      else Regression(acc, xs[i] as real)
  }

  /** `loess(xs, ys, bandwidth)` as a value. */
  function Smoothed(xs: seq<int>, ys: seq<real>, bandwidth: real): (r: seq<real>)
    requires |xs| == |ys|
    ensures |r| == |xs|
  {
    if |xs| < 3 then ys
    else seq(|xs|, i requires 0 <= i < |xs| => Fit(xs, ys, i, Span(|xs|, bandwidth)))
  }

  /** Fewer than three points are returned unchanged, and so is a point whose
      neighbours all share its abscissa. */
  lemma SmoothedCopies(xs: seq<int>, ys: seq<real>, bandwidth: real, i: nat)
    requires |xs| == |ys| && i < |xs|
    ensures |xs| < 3 ==> Smoothed(xs, ys, bandwidth)[i] == ys[i]
    ensures |xs| >= 3 && MaxDist(xs, i, Span(|xs|, bandwidth)) == 0 ==> Smoothed(xs, ys, bandwidth)[i] == ys[i]
  {
  }

  /** In the singular case the value is the weighted mean of the neighbours, so it
      lies between any bounds of their values. */
  lemma DegenerateFitBounds(xs: seq<int>, ys: seq<real>, i: nat, span: nat, lo: real, hi: real)
    requires |xs| == |ys| && i < |xs| && span >= 1
    requires forall e :: e in Neighbours(xs, i, span) && e.j < |ys| ==> lo <= ys[e.j] <= hi
    requires MaxDist(xs, i, span) > 0 && RealAbs(Det(NeighbourSums(xs, ys, i, span))) < DET_EPS
    ensures lo <= Fit(xs, ys, i, span) <= hi
  {
    var acc := NeighbourSums(xs, ys, i, span);
    WellFormedNeighbours(xs, i, span);
    WeightedMeanBounds(Neighbours(xs, i, span), xs, ys, MaxDist(xs, i, span), lo, hi);
    DivisionBounds(acc.swy, acc.sw, lo, hi);
  }

  lemma DivisionBounds(num: real, den: real, lo: real, hi: real)
    requires den > 0.0 && lo * den <= num <= hi * den
    ensures lo <= num / den <= hi
  {
  }

  /** Points on a straight line `y = a x + b` are reproduced exactly whenever the
      regression branch is taken. */
  lemma LinearDataReproduced(xs: seq<int>, ys: seq<real>, i: nat, span: nat, a: real, b: real)
    requires |xs| == |ys| && i < |xs| && span >= 1
    requires forall j :: 0 <= j < |xs| ==> ys[j] == a * xs[j] as real + b
    requires MaxDist(xs, i, span) > 0 && RealAbs(Det(NeighbourSums(xs, ys, i, span))) >= DET_EPS
    ensures Fit(xs, ys, i, span) == a * xs[i] as real + b
  {
    WellFormedNeighbours(xs, i, span);
    LinearSums(Neighbours(xs, i, span), xs, ys, MaxDist(xs, i, span), a, b);
    RegressionOnLine(NeighbourSums(xs, ys, i, span), xs[i] as real, a, b);
  }

  /** The accumulation loop over the neighbours of one point; the five running
      sums are kept together in one `Acc`. */
  method AccumulateSums(nbrs: seq<Nbr>, xs: seq<int>, ys: seq<real>, maxDst: nat) returns (acc: Acc)
    requires maxDst > 0 && |xs| == |ys| && WellFormed(nbrs, xs, maxDst)
    ensures acc == Sums(nbrs, xs, ys, maxDst)
  {
    acc := Acc(0.0, 0.0, 0.0, 0.0, 0.0);
    for k := 0 to |nbrs|
      invariant acc == Sums(nbrs[..k], xs, ys, maxDst)
    {
      var e := nbrs[k];
      var u := e.d as real / maxDst as real;
      var w := Cube(1.0 - Cube(u));
      assert nbrs[..k + 1][..k] == nbrs[..k];
      acc := AddPoint(acc, w, xs[e.j] as real, ys[e.j]);
    }
    assert nbrs[..|nbrs|] == nbrs;
  }

  /** The body of the outer loop: the smoothed value at point `i`. */
  method FitAt(xs: seq<int>, ys: seq<real>, i: nat, span: nat) returns (v: real)
    requires |xs| == |ys| && i < |xs| && span >= 1
    ensures v == Fit(xs, ys, i, span)
  {
    var xi := xs[i];
    var indexed := Indexed(xs, xi);
    var sorted := SortByDistance(indexed);
    var nbrs := sorted[..Min(span, |xs|)];
    var maxDst := nbrs[|nbrs| - 1].d;
    assert nbrs == Neighbours(xs, i, span) && maxDst == MaxDist(xs, i, span);
    if maxDst == 0 {
      return ys[i];
    }
    WellFormedNeighbours(xs, i, span);
    var acc := AccumulateSums(nbrs, xs, ys, maxDst);
    assert acc == NeighbourSums(xs, ys, i, span);
    if RealAbs(Det(acc)) < DET_EPS {
      v := acc.swy / acc.sw;
    } else {
      v := Regression(acc, xi as real);
    }
  }

  /** `loess`: the output array filled point by point. */
  method Smooth(xs: seq<int>, ys: seq<real>, bandwidth: real) returns (out: array<real>)
    requires |xs| == |ys|
    ensures fresh(out) && out[..] == Smoothed(xs, ys, bandwidth)
  {
    var n := |xs|;
    if n < 3 {
      out := new real[n](k requires 0 <= k < n => ys[k]);
      assert out[..] == ys;
    } else {
      var span := Span(n, bandwidth);
      out := new real[n];
      FitEach(xs, ys, span, out);
      assert forall k :: 0 <= k < n ==> out[k] == Smoothed(xs, ys, bandwidth)[k];
    }
  }

  /** The outer loop of `loess`: each point's smoothed value stored at its index. */
  method FitEach(xs: seq<int>, ys: seq<real>, span: nat, out: array<real>)
    requires |xs| == |ys| == out.Length && span >= 1
    modifies out
    ensures forall k :: 0 <= k < |xs| ==> out[k] == Fit(xs, ys, k, span)
  {
    for i := 0 to |xs|
      invariant forall k :: 0 <= k < i ==> out[k] == Fit(xs, ys, k, span)
    {
      out[i] := FitAt(xs, ys, i, span);
    }
  }
}
