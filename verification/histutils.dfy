/** Helpers around the binned accumulator: uniform edge vectors, the
    stepping range generator, ranged and full integrals, normalisation,
    summing and merging 1D histograms, graph point matching, the TGraph to
    TGraph2D expansion, and the booking of a new 1D/2D/3D histogram with its
    default name. */
module HistUtils {
  import opened Wrappers
  import H = Histogram

  // ---------------------------------------------------------------- edges

  /** Edge `i` of `nbins` uniform bins from `xmin` to `xmax`, computed in
      the order `bins()` uses: i / nbins * (xmax - xmin) + xmin. */
  function Edge(nbins: nat, xmin: real, xmax: real, i: nat): real
    requires nbins > 0
  {
    (i as real) / (nbins as real) * (xmax - xmin) + xmin
  }

  /** `bins(nbins, xmin, xmax)`: nbins + 1 uniform edges. */
  function Bins(nbins: nat, xmin: real, xmax: real): (e: seq<real>)
    requires nbins > 0
    ensures |e| == nbins + 1
  {
    seq(nbins + 1, i requires 0 <= i <= nbins => Edge(nbins, xmin, xmax, i))
  }

  /** The edges start at xmin and end at xmax. */
  lemma BinsEnds(nbins: nat, xmin: real, xmax: real)
    requires nbins > 0
    ensures Bins(nbins, xmin, xmax)[0] == xmin
    ensures Bins(nbins, xmin, xmax)[nbins] == xmax
  {
    assert (nbins as real) / (nbins as real) == 1.0;
  }

  /** Every bin has width (xmax - xmin) / nbins. */
  lemma BinsUniform(nbins: nat, xmin: real, xmax: real, i: nat)
    requires nbins > 0 && i < nbins
    ensures Bins(nbins, xmin, xmax)[i + 1] - Bins(nbins, xmin, xmax)[i] == (xmax - xmin) / (nbins as real)
  {
    var n := nbins as real;
    var d := xmax - xmin;
    assert ((i + 1) as real) / n == (i as real) / n + 1.0 / n;
    assert ((i + 1) as real) / n * d == (i as real) / n * d + 1.0 / n * d;
    assert 1.0 / n * d == d / n;
  }

  lemma MulStrict(a: real, b: real, c: real)
    requires a < b && c > 0.0
    ensures a * c < b * c
  {
  }

  lemma DivStrict(a: real, b: real, n: real)
    requires a < b && n > 0.0
    ensures a / n < b / n
  {
    assert b / n - a / n == (b - a) / n;
  }

  /** With xmin < xmax the edges are strictly increasing, so they form a
      valid axis. */
  lemma BinsIncreasing(nbins: nat, xmin: real, xmax: real)
    requires nbins > 0 && xmin < xmax
    ensures H.StrictlyIncreasing(Bins(nbins, xmin, xmax))
  {
    var e := Bins(nbins, xmin, xmax);
    var n := nbins as real;
    forall i, j | 0 <= i < j < |e|
      ensures e[i] < e[j]
    {
      DivStrict(i as real, j as real, n);
      MulStrict((i as real) / n, (j as real) / n, xmax - xmin);
      assert e[i] == (i as real) / n * (xmax - xmin) + xmin;
      assert e[j] == (j as real) / n * (xmax - xmin) + xmin;
    }
  }

  // ---------------------------------------------------------------- frange

  lemma DivStep(a: real, x: real)
    requires x > 0.0
    ensures (a - x) / x == a / x - 1.0
  {
    assert x / x == 1.0;
    assert (a - x) / x == a / x - x / x;
  }

  /** `list(frange(x1, x2, x))`: x1, x1 + x, ... while below x2. The
      generator never ends for a non-positive step from below x2, so such a
      call has no result. */
  method FRange(x1: real, x2: real, x: real) returns (r: seq<real>)
    requires x > 0.0 || x1 >= x2
    ensures forall k :: 0 <= k < |r| ==> r[k] == x1 + (k as real) * x
    ensures forall k :: 0 <= k < |r| ==> r[k] < x2
    ensures x1 + (|r| as real) * x >= x2
  {
    r := [];
    var cur := x1;
    while cur < x2
      invariant cur == x1 + (|r| as real) * x
      invariant x > 0.0 || |r| == 0
      invariant forall k :: 0 <= k < |r| ==> r[k] == x1 + (k as real) * x
      invariant forall k :: 0 <= k < |r| ==> r[k] < x2
      decreases if x > 0.0 && cur < x2 then ((x2 - cur) / x).Floor + 1 else 0
    {
      DivStep(x2 - cur, x);
      r := r + [cur];
      cur := cur + x;
    }
  }

  // ---------------------------------------------------------------- ranged integral (1D)

  /** ROOT's low edge of bin b of an axis, for 1 <= b <= nbins + 1; the
      underflow's low edge is not an edge of the axis and never matches. */
  function LowEdge(e: seq<real>, b: nat): Option<real> {
    if 1 <= b <= |e| then Some(e[b - 1]) else None
  }

  /** The upper bin of a range ending at `xmax`: the bin of xmax, minus one
      when xmax is exactly that bin's low edge (half-open bins). */
  function UpperBin(e: seq<real>, xmax: real): (b: int)
    ensures b == H.FindBin(e, xmax) || b == H.FindBin(e, xmax) - 1
  {
    var b := H.FindBin(e, xmax);
    if LowEdge(e, b) == Some(xmax) then b - 1 else b
  }

  /** `integral_and_error`'s bin range as the code computes it: `if xmin:`
      and `if xmax:` treat a bound of 0.0 as no bound at all. */
  function IntegralRangeAsWritten(e: seq<real>, xmin: Option<real>, xmax: Option<real>): (r: (int, int))
    requires |e| >= 1
    ensures xmin.None? || xmin == Some(0.0) ==> r.0 == 1
    ensures xmax.None? || xmax == Some(0.0) ==> r.1 == |e| - 1
    ensures xmin != Some(0.0) ==> r.0 == IntegralRange(e, xmin, xmax).0
    ensures xmax != Some(0.0) ==> r.1 == IntegralRange(e, xmin, xmax).1
  {
    (if xmin.Some? && xmin.value != 0.0 then H.FindBin(e, xmin.value) else 1,
     if xmax.Some? && xmax.value != 0.0 then UpperBin(e, xmax.value) else |e| - 1)
  }

  /** The range with a given bound always honoured, 0.0 included. */
  function IntegralRange(e: seq<real>, xmin: Option<real>, xmax: Option<real>): (r: (int, int))
    requires |e| >= 1
    ensures xmin.None? ==> r.0 == 1
    ensures xmax.None? ==> r.1 == |e| - 1
  {
    (if xmin.Some? then H.FindBin(e, xmin.value) else 1,
     if xmax.Some? then UpperBin(e, xmax.value) else |e| - 1)
  }

  /** On the axis [-1, 0, 1] the code integrates from x = -1 when asked to
      start at 0.0: the range starts at bin 1 instead of the bin [0, 1). */
  lemma ZeroLowerBoundIgnored()
    ensures IntegralRangeAsWritten([-1.0, 0.0, 1.0], Some(0.0), None).0 == 1
    ensures IntegralRange([-1.0, 0.0, 1.0], Some(0.0), None).0 == 2
  {
    var e := [-1.0, 0.0, 1.0];
    H.FindBinBelow(e, 0.0, 2);
  }

  lemma {:induction false} FindBinMonotone(e: seq<real>, x: real, y: real)
    requires x <= y
    ensures H.FindBin(e, x) <= H.FindBin(e, y)
    decreases |e|
  {
    if |e| > 0 {
      FindBinMonotone(e[..|e| - 1], x, y);
    }
  }

  /** A range ending exactly on edge j stops at bin j, the bin whose upper
      edge it is: the bin starting at xmax is excluded. */
  lemma UpperBinAtEdge(e: seq<real>, j: nat)
    requires H.StrictlyIncreasing(e) && j < |e|
    ensures UpperBin(e, e[j]) == j
  {
    H.FindBinBelow(e, e[j], j + 1);
  }

  /** Every x with xmin <= x < xmax falls in a bin of the range. */
  lemma IntegralRangeCovers(e: seq<real>, xmin: real, xmax: real, x: real)
    requires H.StrictlyIncreasing(e) && |e| >= 1
    requires xmin <= x < xmax
    ensures IntegralRange(e, Some(xmin), Some(xmax)).0 <= H.FindBin(e, x)
    ensures H.FindBin(e, x) <= IntegralRange(e, Some(xmin), Some(xmax)).1
  {
    FindBinMonotone(e, xmin, x);
    FindBinMonotone(e, x, xmax);
    var k := H.FindBinWitness(e, x);
    H.FindBinBelow(e, x, k);
  }

  /** Sum of contents of 1D bins lo..hi, as ROOT's `Integral(lo, hi)` for
      lo <= hi; a reversed range sums nothing here, whereas ROOT resets its
      upper bin to the overflow. */
  function Integral(h: H.Hist, lo: int, hi: int): (r: real)
    ensures hi < lo ==> r == 0.0
    ensures (forall k: nat :: lo <= k <= hi ==> H.Get(h, [k]).sumw >= 0.0) ==> r >= 0.0
    decreases hi - lo
  {
    if hi < lo || hi < 0 then 0.0 else Integral(h, lo, hi - 1) + H.Get(h, [hi as nat]).sumw
  }

  // ---------------------------------------------------------------- full integral (1D/2D/3D)

  /** Bin count of each axis including underflow and overflow. */
  function Sizes(axes: seq<seq<real>>): (s: seq<nat>)
    ensures |s| == |axes|
  {
    seq(|axes|, a requires 0 <= a < |axes| => |axes[a]| + 1)
  }

  /** Sum of the contents of every cell `prefix + rest` with rest[i] < sizes[i]. */
  function SumBox(h: H.Hist, prefix: seq<nat>, sizes: seq<nat>): real
    decreases |sizes|, 1
  {
    if |sizes| == 0 then H.Get(h, prefix).sumw else SumAxis(h, prefix, sizes, sizes[0])
  }

  /** Sum over the first `b` bins of the next axis. */
  function SumAxis(h: H.Hist, prefix: seq<nat>, sizes: seq<nat>, b: nat): real
    requires |sizes| > 0
    decreases |sizes|, 0, b
  {
    if b == 0 then 0.0 else SumAxis(h, prefix, sizes, b - 1) + SumBox(h, prefix + [b - 1], sizes[1..])
  }

  /** `full_integral`: every cell, underflow and overflow included. */
  function FullIntegral(h: H.Hist): real {
    SumBox(h, [], Sizes(h.axes))
  }

  lemma {:induction false} SumAxisIntegral(h: H.Hist, b: nat)
    requires |h.axes| == 1
    ensures SumAxis(h, [], Sizes(h.axes), b) == Integral(h, 0, b - 1)
  {
    if b > 0 {
      SumAxisIntegral(h, b - 1);
      assert [] + [b - 1] == [b - 1];
    }
  }

  /** In 1D the full integral is the ranged integral over bins 0..nbins+1. */
  lemma FullIntegral1D(h: H.Hist)
    requires |h.axes| == 1
    ensures FullIntegral(h) == Integral(h, 0, |h.axes[0]|)
  {
    SumAxisIntegral(h, |h.axes[0]| + 1);
  }

  lemma {:induction false} SumBoxScale(h: H.Hist, c: real, prefix: seq<nat>, sizes: seq<nat>)
    ensures SumBox(H.Scale(h, c), prefix, sizes) == c * SumBox(h, prefix, sizes)
    decreases |sizes|, 1
  {
    if |sizes| == 0 {
      H.ScaleAt(h, c, prefix);
    } else {
      SumAxisScale(h, c, prefix, sizes, sizes[0]);
    }
  }

  lemma {:induction false} SumAxisScale(h: H.Hist, c: real, prefix: seq<nat>, sizes: seq<nat>, b: nat)
    requires |sizes| > 0
    ensures SumAxis(H.Scale(h, c), prefix, sizes, b) == c * SumAxis(h, prefix, sizes, b)
    decreases |sizes|, 0, b
  {
    if b > 0 {
      SumAxisScale(h, c, prefix, sizes, b - 1);
      SumBoxScale(h, c, prefix + [b - 1], sizes[1..]);
    }
  }

  /** `normalize(hist)`: scaled to unit area, unless the area is zero. */
  function Normalize(h: H.Hist): (r: H.Hist)
    ensures r.name == h.name && r.axes == h.axes && r.entries == h.entries
    ensures FullIntegral(h) == 0.0 ==> r == h
  {
    var n := FullIntegral(h);
    if n != 0.0 then H.Scale(h, 1.0 / n) else h
  }

  /** A normalised histogram of nonzero area has area one. */
  lemma NormalizeUnit(h: H.Hist)
    requires FullIntegral(h) != 0.0
    ensures FullIntegral(Normalize(h)) == 1.0
  {
    var n := FullIntegral(h);
    SumBoxScale(h, 1.0 / n, [], Sizes(h.axes));
    assert Sizes(H.Scale(h, 1.0 / n).axes) == Sizes(h.axes);
  }

  // ---------------------------------------------------------------- summing 1D histograms

  predicate Is1D(h: H.Hist) {
    |h.axes| == 1 && |h.axes[0]| >= 1
  }

  function NBinsX(h: H.Hist): nat
    requires Is1D(h)
  {
    |h.axes[0]| - 1
  }

  /** Cell k after the merge: bins 0..n hold the sum. */
  function Merged(big: H.Hist, other: H.Hist, n: nat, k: seq<nat>): H.Cell {
    if |k| == 1 && k[0] <= n then H.Get(big, k).Plus(H.Get(other, k)) else H.Get(big, k)
  }

  /** Cells of `big` with bins 0..n of `other` added in. */
  function MergeCells(big: H.Hist, other: H.Hist, n: nat): (m: map<seq<nat>, H.Cell>)
  {
    map k | k in big.cells.Keys + other.cells.Keys :: Merged(big, other, n, k)
  }

  lemma MergeCellsAt(big: H.Hist, other: H.Hist, n: nat, k: seq<nat>)
    ensures H.At(MergeCells(big, other, n), k) == Merged(big, other, n, k)
  {
    if k !in big.cells.Keys + other.cells.Keys {
      assert H.Get(big, k) == H.EmptyCell && H.Get(other, k) == H.EmptyCell;
      H.PlusEmpty(H.EmptyCell);
    }
  }

  /** The histogram `merge_diff_hists` copies: the one with more bins, h2 on a tie. */
  function Longer(h1: H.Hist, h2: H.Hist): H.Hist
    requires Is1D(h1) && Is1D(h2)
  {
    if NBinsX(h1) > NBinsX(h2) then h1 else h2
  }

  function Shorter(h1: H.Hist, h2: H.Hist): (r: H.Hist)
    requires Is1D(h1) && Is1D(h2)
    ensures Is1D(r)
  {
    if NBinsX(h1) > NBinsX(h2) then h2 else h1
  }

  /** `merge_diff_hists(h1, h2)`: a copy of the longer histogram with bins
      0..nbins of the shorter added in; contents add and squared errors add.
      The entry count stays the longer one's, whereas ROOT's `SetBinContent`
      in the source also counts one entry per bin set. */
  function MergeDiff(h1: H.Hist, h2: H.Hist): (r: H.Hist)
    requires Is1D(h1) && Is1D(h2)
    ensures r.axes == Longer(h1, h2).axes && r.name == Longer(h1, h2).name
  {
    var big := Longer(h1, h2);
    big.(cells := MergeCells(big, Shorter(h1, h2), NBinsX(Shorter(h1, h2))))
  }

  /** The overlapping bins hold the sum, the extended bins keep the longer
      histogram's content (the shorter one's overflow is not carried over). */
  lemma MergeDiffAt(h1: H.Hist, h2: H.Hist, i: nat)
    requires Is1D(h1) && Is1D(h2)
    ensures H.Get(MergeDiff(h1, h2), [i])
      == if i <= NBinsX(Shorter(h1, h2)) then H.Get(Longer(h1, h2), [i]).Plus(H.Get(Shorter(h1, h2), [i]))
         else H.Get(Longer(h1, h2), [i])
  {
    MergeCellsAt(Longer(h1, h2), Shorter(h1, h2), NBinsX(Shorter(h1, h2)), [i]);
  }

  /** One step of `sum_hists`: add when the bin counts agree, merge otherwise. */
  function SumStep(acc: H.Hist, h: H.Hist): (r: H.Hist)
    requires Is1D(acc) && Is1D(h)
    ensures Is1D(r)
  {
    if NBinsX(h) != NBinsX(acc) then MergeDiff(h, acc) else H.Add(acc, h)
  }

  predicate All1D(hs: seq<H.Hist>) {
    forall i :: 0 <= i < |hs| ==> Is1D(hs[i])
  }

  /** `sum_hists(hlist)`: None for an empty list, else the running sum. */
  function SumHists(hs: seq<H.Hist>): (r: Option<H.Hist>)
    requires All1D(hs)
    ensures r.None? <==> |hs| == 0
    ensures r.Some? ==> Is1D(r.value)
  {
    if |hs| == 0 then None
    else if |hs| == 1 then Some(hs[0])
    else Some(SumStep(SumHists(hs[..|hs| - 1]).value, hs[|hs| - 1]))
  }

  /** Content of cell k summed over a list. */
  function CellSum(hs: seq<H.Hist>, k: seq<nat>): H.Cell {
    if |hs| == 0 then H.EmptyCell else CellSum(hs[..|hs| - 1], k).Plus(H.Get(hs[|hs| - 1], k))
  }

  predicate SameAxes(hs: seq<H.Hist>) {
    forall i :: 0 <= i < |hs| ==> hs[i].axes == hs[0].axes
  }

  /** For histograms of one binning, `sum_hists` is the cell-wise sum. */
  lemma {:induction false} SumHistsCells(hs: seq<H.Hist>, k: seq<nat>)
    requires |hs| > 0 && All1D(hs) && SameAxes(hs)
    ensures SumHists(hs).value.axes == hs[0].axes
    ensures H.Get(SumHists(hs).value, k) == CellSum(hs, k)
  {
    if |hs| == 1 {
      assert hs[..0] == [];
      H.PlusCommutes(H.EmptyCell, H.Get(hs[0], k));
      H.PlusEmpty(H.Get(hs[0], k));
    } else {
      var pre := hs[..|hs| - 1];
      assert All1D(pre) && SameAxes(pre);
      SumHistsCells(pre, k);
      var acc := SumHists(pre).value;
      var last := hs[|hs| - 1];
      assert acc.axes == last.axes;
      assert H.SameBinning(acc, last);
      assert SumHists(hs).value == H.Add(acc, last);
      H.AddAt(acc, last, k);
      assert CellSum(hs, k) == CellSum(pre, k).Plus(H.Get(last, k));
    }
  }

  // ---------------------------------------------------------------- graphs

  datatype Point = Point(x: real, y: real)

  /** Same number of points and the same x at every index. */
  predicate Compatible(g1: seq<Point>, g2: seq<Point>) {
    |g1| == |g2| && forall i :: 0 <= i < |g1| ==> g1[i].x == g2[i].x
  }

  /** `graphs_compatible(g1, g2)`: the size check, then a scan of the x values. */
  method GraphsCompatible(g1: seq<Point>, g2: seq<Point>) returns (ok: bool)
    ensures ok <==> Compatible(g1, g2)
  {
    if |g1| != |g2| {
      return false;
    }
    var i := 0;
    while i < |g1|
      invariant i <= |g1|
      invariant forall j :: 0 <= j < i ==> g1[j].x == g2[j].x
    {
      if g1[i].x != g2[i].x {
        return false;
      }
      i := i + 1;
    }
    return true;
  }

  /** `get_graph_point(g, x)`: the first index with that x, or None. */
  method GetGraphPoint(g: seq<Point>, x: real) returns (r: Option<nat>)
    ensures r.Some? ==> r.value < |g| && g[r.value].x == x
    ensures r.Some? ==> forall j :: 0 <= j < r.value ==> g[j].x != x
    ensures r.None? <==> forall j :: 0 <= j < |g| ==> g[j].x != x
  {
    var i := 0;
    while i < |g|
      invariant i <= |g|
      invariant forall j :: 0 <= j < i ==> g[j].x != x
    {
      if g[i].x == x {
        return Some(i);
      }
      i := i + 1;
    }
    return None;
  }

  /** A graph's x values and y values. */
  function Xs(g: seq<Point>): (r: seq<real>)
    ensures |r| == |g|
  {
    seq(|g|, i requires 0 <= i < |g| => g[i].x)
  }

  function Ys(g: seq<Point>): (r: seq<real>)
    ensures |r| == |g|
  {
    seq(|g|, i requires 0 <= i < |g| => g[i].y)
  }

  /** Python's `s * m` on lists. */
  function Tile(s: seq<real>, m: nat): (r: seq<real>)
    ensures |r| == |s| * m
  {
    if m == 0 then [] else Tile(s, m - 1) + s
  }

  /** `[v] * n`. */
  function Fill(v: real, n: nat): (r: seq<real>)
    ensures |r| == n
    ensures forall i :: 0 <= i < n ==> r[i] == v
  {
    seq(n, _ => v)
  }

  /** Each value of `vs` repeated n times, in order. */
  function Spread(vs: seq<real>, n: nat): (r: seq<real>)
    ensures |r| == |vs| * n
  {
    if |vs| == 0 then [] else Spread(vs[..|vs| - 1], n) + Fill(vs[|vs| - 1], n)
  }

  lemma {:induction false} MulLe(a: nat, b: nat, n: nat)
    requires a <= b
    ensures a * n <= b * n
    decreases b - a
  {
    if a < b {
      MulLe(a, b - 1, n);
    }
  }

  /** Element q * |s| + r of `s` tiled m times is s[r]. */
  lemma {:induction false} TileAt(s: seq<real>, m: nat, q: nat, r: nat)
    requires r < |s| && q < m
    ensures q * |s| + r < |Tile(s, m)|
    ensures Tile(s, m)[q * |s| + r] == s[r]
  {
    var n := |s|;
    SlotFits(q, m, n, r);
    var t := Tile(s, m - 1);
    assert Tile(s, m) == t + s;
    if q < m - 1 {
      TileAt(s, m - 1, q, r);
      assert (t + s)[q * n + r] == t[q * n + r];
    } else {
      assert q * n == |t|;
      assert (t + s)[q * n + r] == s[r];
    }
  }

  /** Slot r of block q lies inside m blocks of n. */
  lemma SlotFits(q: nat, m: nat, n: nat, r: nat)
    requires q < m && r < n
    ensures q * n + r < m * n && q * n + r < n * m
  {
    MulLe(q + 1, m, n);
    assert (q + 1) * n == q * n + n;
  }

  /** Element q * n + r of the spread is vs[q]. */
  lemma {:induction false} SpreadAt(vs: seq<real>, n: nat, q: nat, r: nat)
    requires r < n && q < |vs|
    ensures q * n + r < |Spread(vs, n)|
    ensures Spread(vs, n)[q * n + r] == vs[q]
  {
    var m := |vs|;
    MulLe(q + 1, m, n);
    if q < m - 1 {
      SpreadAt(vs[..m - 1], n, q, r);
      MulLe(q + 1, m - 1, n);
    } else {
      assert q * n == (m - 1) * n;
    }
  }

  /** `convert_graph_to_2dgraph(g, yvals)`: the graph repeated at every y. */
  function Graph2D(g: seq<Point>, yvals: seq<real>): (r: (seq<real>, seq<real>, seq<real>))
    ensures |r.0| == |r.1| == |r.2| == |g| * |yvals|
  {
    (Tile(Xs(g), |yvals|), Spread(yvals, |g|), Tile(Ys(g), |yvals|))
  }

  /** Point q * nx + r of the 2D graph is point r of the graph, placed at
      the q-th y value. */
  lemma Graph2DAt(g: seq<Point>, yvals: seq<real>, q: nat, r: nat)
    requires r < |g| && q < |yvals|
    ensures q * |g| + r < |g| * |yvals|
    ensures Graph2D(g, yvals).0[q * |g| + r] == g[r].x
    ensures Graph2D(g, yvals).1[q * |g| + r] == yvals[q]
    ensures Graph2D(g, yvals).2[q * |g| + r] == g[r].y
  {
    TileAt(Xs(g), |yvals|, q, r);
    TileAt(Ys(g), |yvals|, q, r);
    SpreadAt(yvals, |g|, q, r);
  }

  // ---------------------------------------------------------------- booking

  /** Python truthiness of an optional list: present and non-empty. */
  predicate Given(o: Option<seq<real>>) {
    o.Some? && |o.value| > 0
  }

  /** `new_hist(name, xbins, ybins, zbins)`: z edges need y edges; the
      dimension follows which edge lists are given; Sumw2 always on. */
  function NewHist(name: string, xbins: seq<real>, ybins: Option<seq<real>>, zbins: Option<seq<real>>): (r: Result<H.Hist>)
    ensures r.Err? <==> Given(zbins) && !Given(ybins)
    ensures r.Err? ==> r.error.ValueError?
    ensures r.Ok? ==> r.value.name == name && r.value.sumw2 && r.value.entries == 0 && H.Valid(r.value)
    ensures r.Ok? ==> |r.value.axes| == 1 + (if Given(ybins) then 1 else 0) + (if Given(zbins) then 1 else 0)
    ensures r.Ok? ==> r.value.axes[0] == xbins
    ensures r.Ok? && Given(ybins) ==> r.value.axes[1] == ybins.value
    ensures r.Ok? && Given(zbins) ==> r.value.axes[2] == zbins.value
  {
    if Given(zbins) then
      if !Given(ybins) then Err(ValueError("Must provide ybins with zbins"))
      else Ok(H.Empty(name, [xbins, ybins.value, zbins.value]))
    else if Given(ybins) then Ok(H.Empty(name, [xbins, ybins.value]))
    else Ok(H.Empty(name, [xbins]))
  }

  /** A booked histogram has no content. */
  lemma NewHistEmpty(name: string, xbins: seq<real>, ybins: Option<seq<real>>, zbins: Option<seq<real>>, k: seq<nat>)
    requires NewHist(name, xbins, ybins, zbins).Ok?
    ensures H.Get(NewHist(name, xbins, ybins, zbins).value, k) == H.EmptyCell
  {
  }

  /** What `histargs` reads from a view: its full name, edges and title. */
  datatype AxisView = AxisView(name: string, xbins: seq<real>, xtitle: string)

  datatype HistArgs = HistArgs(
    name: string,
    xbins: seq<real>,
    ybins: Option<seq<real>>,
    zbins: Option<seq<real>>,
    xtitle: string,
    ytitle: Option<string>,
    ztitle: Option<string>)

  /** The default histogram name for the given views. */
  function DefaultName(x: AxisView, y: Option<AxisView>, z: Option<AxisView>): string
    requires !(z.Some? && y.None?)
  {
    if z.Some? then "h3_" + x.name + "_" + y.value.name + "_" + z.value.name
    else if y.Some? then "h2_" + x.name + "_" + y.value.name
    else "h_" + x.name
  }

  /** `histargs(xvar, yvar, zvar, name)`. */
  function HistArgsOf(x: AxisView, y: Option<AxisView>, z: Option<AxisView>, name: Option<string>): (r: Result<HistArgs>)
    ensures r.Err? <==> name.None? && z.Some? && y.None?
    ensures r.Ok? && name.Some? ==> r.value.name == name.value
    ensures r.Ok? ==> r.value.xbins == x.xbins && r.value.xtitle == x.xtitle
    ensures r.Ok? ==> (r.value.ybins.Some? <==> y.Some?) && (r.value.zbins.Some? <==> z.Some?)
  {
    if name.None? && z.Some? && y.None? then Err(ValueError("Must provide yvar with zvar"))
    else
      Ok(HistArgs(
        if name.Some? then name.value else DefaultName(x, y, z),
        x.xbins,
        if y.Some? then Some(y.value.xbins) else None,
        if z.Some? then Some(z.value.xbins) else None,
        x.xtitle,
        if y.Some? then Some(y.value.xtitle) else None,
        if z.Some? then Some(z.value.xtitle) else None))
  }

  /** Default names tell the dimension: "h_", "h2_" and "h3_" prefixes. */
  lemma DefaultNamePrefix(x: AxisView, y: Option<AxisView>, z: Option<AxisView>)
    requires !(z.Some? && y.None?)
    ensures var n := DefaultName(x, y, z);
            |n| >= 2 && n[0] == 'h'
            && (n[1] == '_' <==> y.None?)
            && (n[1] == '2' <==> y.Some? && z.None?)
            && (n[1] == '3' <==> z.Some?)
  {
  }

  /** Default names of different dimensions never collide. */
  lemma DefaultNamesDistinct(x1: AxisView, y1: Option<AxisView>, z1: Option<AxisView>,
                             x2: AxisView, y2: Option<AxisView>, z2: Option<AxisView>)
    requires !(z1.Some? && y1.None?) && !(z2.Some? && y2.None?)
    requires y1.Some? != y2.Some? || z1.Some? != z2.Some?
    ensures DefaultName(x1, y1, z1) != DefaultName(x2, y2, z2)
  {
    DefaultNamePrefix(x1, y1, z1);
    DefaultNamePrefix(x2, y2, z2);
  }
}
