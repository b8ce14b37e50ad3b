/** The binned accumulator behind every Loki histogram (the part of ROOT's
    TH1F/TH2F/TH3F the Loki code relies on).

    A histogram has one strictly increasing edge vector per axis. Along an
    axis with edges e[0] < ... < e[nbins], bin 0 is the underflow
    (x < e[0]), bin i (1 <= i <= nbins) is the half-open [e[i-1], e[i]) and
    bin nbins+1 is the overflow (x >= e[nbins]). A cell is addressed by one
    bin index per axis and accumulates the sum of weights, the sum of
    squared weights and the number of fills. */
module Histogram {

  datatype Cell = Cell(sumw: real, sumw2: real, entries: nat) {
    function Plus(o: Cell): Cell {
      Cell(sumw + o.sumw, sumw2 + o.sumw2, entries + o.entries)
    }

    /** `Scale(c)`: contents by c, squared-weight sums by c*c. */
    function Times(c: real): Cell {
      Cell(sumw * c, sumw2 * c * c, entries)
    }
  }

  const EmptyCell := Cell(0.0, 0.0, 0)

  datatype Hist = Hist(
    name: string,
    axes: seq<seq<real>>,
    cells: map<seq<nat>, Cell>,
    sumw2: bool,
    entries: nat)

  // ---------------------------------------------------------------- bin lookup

  predicate StrictlyIncreasing(e: seq<real>) {
    forall i, j :: 0 <= i < j < |e| ==> e[i] < e[j]
  }

  /** Number of bins of an axis (edges minus one). */
  function NBins(e: seq<real>): int {
    |e| - 1
  }

  /** Bin of `x` along an axis: the number of edges at or below `x`. */
  function FindBin(e: seq<real>, x: real): (b: nat)
    ensures b <= |e|
    decreases |e|
  {
    if |e| == 0 then 0
    else FindBin(e[..|e| - 1], x) + (if e[|e| - 1] <= x then 1 else 0)
  }

  lemma {:induction false} FindBinBelow(e: seq<real>, x: real, k: nat)
    requires StrictlyIncreasing(e)
    requires k <= |e|
    requires forall j :: 0 <= j < k ==> e[j] <= x
    requires forall j :: k <= j < |e| ==> x < e[j]
    ensures FindBin(e, x) == k
    decreases |e|
  {
    if |e| > 0 {
      if k == |e| {
        FindBinBelow(e[..|e| - 1], x, k - 1);
      } else {
        FindBinBelow(e[..|e| - 1], x, k);
      }
    }
  }

  /** FindBin is the under/overflow, half-open bin convention. */
  lemma FindBinHalfOpen(e: seq<real>, x: real)
    requires StrictlyIncreasing(e) && |e| >= 1
    ensures FindBin(e, x) == 0 <==> x < e[0]
    ensures FindBin(e, x) == |e| <==> e[|e| - 1] <= x
    ensures 0 < FindBin(e, x) < |e| ==> e[FindBin(e, x) - 1] <= x < e[FindBin(e, x)]
  {
    var k := FindBinWitness(e, x);
    FindBinBelow(e, x, k);
  }

  /** The number of edges at or below x, found by scanning. */
  lemma FindBinWitness(e: seq<real>, x: real) returns (k: nat)
    requires StrictlyIncreasing(e)
    ensures k <= |e|
    ensures forall j :: 0 <= j < k ==> e[j] <= x
    ensures forall j :: k <= j < |e| ==> x < e[j]
  {
    k := 0;
    while k < |e| && e[k] <= x
      invariant k <= |e|
      invariant forall j :: 0 <= j < k ==> e[j] <= x
    {
      k := k + 1;
    }
  }

  /** Bisection over the edges, as ROOT's variable-width axis does it; it
      agrees with FindBin on every strictly increasing edge vector. */
  method BinarySearchBin(e: seq<real>, x: real) returns (b: nat)
    requires StrictlyIncreasing(e)
    ensures b == FindBin(e, x)
  {
    var lo, hi := 0, |e|;
    while lo < hi
      invariant 0 <= lo <= hi <= |e|
      invariant forall j :: 0 <= j < lo ==> e[j] <= x
      invariant forall j :: hi <= j < |e| ==> x < e[j]
      decreases hi - lo
    {
      var mid := (lo + hi) / 2;
      if e[mid] <= x {
        lo := mid + 1;
      } else {
        hi := mid;
      }
    }
    FindBinBelow(e, x, lo);
    b := lo;
  }

  /** Cell key of a point: one bin per axis, positionally. */
  function BinOf(axes: seq<seq<real>>, p: seq<real>): (k: seq<nat>)
    requires |p| == |axes|
    ensures |k| == |axes|
    ensures forall a :: 0 <= a < |axes| ==> k[a] <= |axes[a]|
  {
    seq(|axes|, a requires 0 <= a < |axes| => FindBin(axes[a], p[a]))
  }

  // ---------------------------------------------------------------- accumulator

  /** Every key addresses an existing cell: one index per axis, each at most nbins+1. */
  predicate Valid(h: Hist) {
    forall k :: k in h.cells ==>
      |k| == |h.axes| && forall a :: 0 <= a < |k| ==> k[a] <= |h.axes[a]|
  }

  /** The content of cell `k` (an absent cell is empty). */
  function At(m: map<seq<nat>, Cell>, k: seq<nat>): Cell {
    if k in m then m[k] else EmptyCell
  }

  function Get(h: Hist, k: seq<nat>): Cell {
    At(h.cells, k)
  }

  /** Equal content in every cell. */
  ghost predicate SameCells(a: Hist, b: Hist) {
    forall k :: Get(a, k) == Get(b, k)
  }

  /** A freshly booked histogram with Sumw2 enabled: no cell filled. */
  function Empty(name: string, axes: seq<seq<real>>): (h: Hist)
    ensures Valid(h) && h.sumw2 && h.entries == 0
    ensures forall k :: Get(h, k) == EmptyCell
  {
    Hist(name, axes, map[], true, 0)
  }

  /** What one fill of weight `w` adds to its cell. */
  function Unit(w: real): (d: Cell)
    ensures d.entries == 1 && d.sumw == w && d.sumw2 == w * w
    ensures d.sumw2 >= 0.0
  {
    Cell(w, w * w, 1)
  }

  /** One fill into cell `k` adding `d` to it. */
  function FillCell(h: Hist, k: seq<nat>, d: Cell): (r: Hist)
    ensures r.name == h.name && r.axes == h.axes && r.sumw2 == h.sumw2
    ensures r.entries == h.entries + 1
    ensures Get(r, k) == Get(h, k).Plus(d)
  {
    h.(cells := h.cells[k := Get(h, k).Plus(d)], entries := h.entries + 1)
  }

  /** A fill touches its own cell and no other. */
  lemma FillCellAt(h: Hist, k: seq<nat>, d: Cell, k': seq<nat>)
    ensures Get(FillCell(h, k, d), k') == if k' == k then Get(h, k).Plus(d) else Get(h, k')
  {
  }

  /** A fill keeps "cell k is base plus c" true, with d added to c when
      the fill lands in k. */
  lemma FillCellKeeps(h: Hist, key: seq<nat>, d: Cell, k: seq<nat>, base: Cell, c: Cell)
    requires Get(h, k) == base.Plus(c)
    ensures Get(FillCell(h, key, d), k) == base.Plus(if key == k then c.Plus(d) else c)
  {
    FillCellAt(h, key, d, k);
    if key == k {
      PlusAssociates(base, c, d);
    }
  }

  /** `h->Fill(point, w)`: the cell under the point gains one entry of weight w. */
  function Fill(h: Hist, p: seq<real>, w: real): (r: Hist)
    requires |p| == |h.axes|
    ensures r.name == h.name && r.axes == h.axes && r.sumw2 == h.sumw2 && r.entries == h.entries + 1
    ensures var k := BinOf(h.axes, p);
            Get(r, k) == Cell(Get(h, k).sumw + w, Get(h, k).sumw2 + w * w, Get(h, k).entries + 1)
    ensures forall k :: k != BinOf(h.axes, p) ==> Get(r, k) == Get(h, k)
  {
    FillCell(h, BinOf(h.axes, p), Unit(w))
  }

  lemma FillValid(h: Hist, p: seq<real>, w: real)
    requires |p| == |h.axes|
    requires Valid(h)
    ensures Valid(Fill(h, p, w))
  {
  }

  /** Same number of axes and of bins per axis: what `Add` needs. */
  predicate SameBinning(a: Hist, b: Hist) {
    |a.axes| == |b.axes| && forall i :: 0 <= i < |a.axes| ==> |a.axes[i]| == |b.axes[i]|
  }

  /** Cell-wise sum of two cell maps. */
  function SumCells(a: map<seq<nat>, Cell>, b: map<seq<nat>, Cell>): (m: map<seq<nat>, Cell>)
    ensures m.Keys == a.Keys + b.Keys
  {
    map k | k in a.Keys + b.Keys :: At(a, k).Plus(At(b, k))
  }

  lemma SumCellsAt(a: map<seq<nat>, Cell>, b: map<seq<nat>, Cell>, k: seq<nat>)
    ensures At(SumCells(a, b), k) == At(a, k).Plus(At(b, k))
  {
    if k !in a && k !in b {
      assert At(a, k) == EmptyCell;
    }
  }

  /** `a.Add(b)` for histograms of the same binning: the cell-wise sum. */
  function Add(a: Hist, b: Hist): (r: Hist)
    requires SameBinning(a, b)
    ensures r.name == a.name && r.axes == a.axes && r.sumw2 == a.sumw2
    ensures r.entries == a.entries + b.entries
  {
    a.(cells := SumCells(a.cells, b.cells), entries := a.entries + b.entries)
  }

  lemma AddAt(a: Hist, b: Hist, k: seq<nat>)
    requires SameBinning(a, b)
    ensures Get(Add(a, b), k) == Get(a, k).Plus(Get(b, k))
  {
    SumCellsAt(a.cells, b.cells, k);
  }

  lemma AddValid(a: Hist, b: Hist)
    requires SameBinning(a, b)
    requires Valid(a) && Valid(b)
    ensures Valid(Add(a, b))
  {
  }

  /** `h.Scale(c)`. */
  function Scale(h: Hist, c: real): (r: Hist)
    ensures r.name == h.name && r.axes == h.axes && r.sumw2 == h.sumw2 && r.entries == h.entries
  {
    h.(cells := map k | k in h.cells :: h.cells[k].Times(c))
  }

  lemma ScaleAt(h: Hist, c: real, k: seq<nat>)
    ensures Get(Scale(h, c), k) == Get(h, k).Times(c)
  {
    if k !in h.cells {
      assert EmptyCell.Times(c) == EmptyCell;
    }
  }

  lemma ScaleValid(h: Hist, c: real)
    requires Valid(h)
    ensures Valid(Scale(h, c))
  {
  }

  lemma PlusCommutes(x: Cell, y: Cell)
    ensures x.Plus(y) == y.Plus(x)
  {
  }

  lemma PlusAssociates(x: Cell, y: Cell, z: Cell)
    ensures x.Plus(y).Plus(z) == x.Plus(y.Plus(z))
  {
  }

  lemma PlusSwap(x: Cell, d: Cell, y: Cell)
    ensures x.Plus(d).Plus(y) == x.Plus(y).Plus(d)
  {
  }

  lemma PlusEmpty(x: Cell)
    ensures EmptyCell.Plus(x) == x && x.Plus(EmptyCell) == x
  {
  }

  lemma TimesDistributes(x: Cell, y: Cell, c: real)
    ensures x.Plus(y).Times(c) == x.Times(c).Plus(y.Times(c))
  {
    assert (x.sumw + y.sumw) * c == x.sumw * c + y.sumw * c;
    assert (x.sumw2 + y.sumw2) * c * c == x.sumw2 * c * c + y.sumw2 * c * c;
  }

  /** Adding histograms is commutative in content. */
  lemma AddCommutes(a: Hist, b: Hist)
    requires SameBinning(a, b)
    ensures SameBinning(b, a)
    ensures SameCells(Add(a, b), Add(b, a))
    ensures Add(a, b).entries == Add(b, a).entries
  {
    assert SameBinning(b, a);
    forall k ensures Get(Add(a, b), k) == Get(Add(b, a), k) {
      AddAt(a, b, k);
      AddAt(b, a, k);
      PlusCommutes(Get(a, k), Get(b, k));
    }
  }

  /** Adding histograms is associative in content. */
  lemma AddAssociates(a: Hist, b: Hist, c: Hist)
    requires SameBinning(a, b) && SameBinning(b, c)
    ensures SameBinning(Add(a, b), c) && SameBinning(a, Add(b, c))
    ensures SameCells(Add(Add(a, b), c), Add(a, Add(b, c)))
  {
    var ab, bc := Add(a, b), Add(b, c);
    assert SameBinning(ab, c) && SameBinning(a, bc);
    forall k ensures Get(Add(ab, c), k) == Get(Add(a, bc), k) {
      AddAt(a, b, k);
      AddAt(b, c, k);
      AddAt(ab, c, k);
      AddAt(a, bc, k);
      PlusAssociates(Get(a, k), Get(b, k), Get(c, k));
    }
  }

  /** The filled cell itself: the fill's contribution and b's cell end up in
      it in either order. */
  lemma FillAddCommutesAtKey(a: Hist, b: Hist, key: seq<nat>, d: Cell)
    requires SameBinning(a, b)
    ensures SameBinning(FillCell(a, key, d), b)
    ensures Get(Add(FillCell(a, key, d), b), key) == Get(FillCell(Add(a, b), key, d), key)
  {
    var fa := FillCell(a, key, d);
    assert fa.axes == a.axes;
    AddAt(fa, b, key);
    AddAt(a, b, key);
    FillCellAt(a, key, d, key);
    FillCellAt(Add(a, b), key, d, key);
    PlusSwap(Get(a, key), d, Get(b, key));
  }

  /** Every other cell is untouched by the fill on both sides. */
  lemma FillAddCommutesAtOther(a: Hist, b: Hist, key: seq<nat>, d: Cell, k: seq<nat>)
    requires SameBinning(a, b) && k != key
    ensures SameBinning(FillCell(a, key, d), b)
    ensures Get(Add(FillCell(a, key, d), b), k) == Get(FillCell(Add(a, b), key, d), k)
  {
    var fa := FillCell(a, key, d);
    assert fa.axes == a.axes;
    AddAt(fa, b, k);
    AddAt(a, b, k);
    FillCellAt(a, key, d, k);
    FillCellAt(Add(a, b), key, d, k);
  }

  /** Filling commutes with adding: it does not matter whether a fill lands
      before or after a merge. */
  lemma FillAddCommutes(a: Hist, b: Hist, key: seq<nat>, d: Cell)
    requires SameBinning(a, b)
    ensures SameBinning(FillCell(a, key, d), b)
    ensures SameCells(Add(FillCell(a, key, d), b), FillCell(Add(a, b), key, d))
    ensures Add(FillCell(a, key, d), b).entries == FillCell(Add(a, b), key, d).entries
  {
    assert SameBinning(FillCell(a, key, d), b);
    forall k ensures Get(Add(FillCell(a, key, d), b), k) == Get(FillCell(Add(a, b), key, d), k) {
      if k == key {
        FillAddCommutesAtKey(a, b, key, d);
      } else {
        FillAddCommutesAtOther(a, b, key, d, k);
      }
    }
  }

  /** Scaling distributes over adding. */
  lemma ScaleAddDistributes(a: Hist, b: Hist, c: real)
    requires SameBinning(a, b)
    ensures SameBinning(Scale(a, c), Scale(b, c))
    ensures SameCells(Scale(Add(a, b), c), Add(Scale(a, c), Scale(b, c)))
  {
    var sa, sb := Scale(a, c), Scale(b, c);
    assert SameBinning(sa, sb);
    forall k ensures Get(Scale(Add(a, b), c), k) == Get(Add(sa, sb), k) {
      ScaleAt(Add(a, b), c, k);
      AddAt(a, b, k);
      AddAt(sa, sb, k);
      ScaleAt(a, c, k);
      ScaleAt(b, c, k);
      TimesDistributes(Get(a, k), Get(b, k), c);
    }
  }

  /** Adding to an empty histogram of the same binning copies the content:
      "start from an empty histogram and add" loses nothing. */
  lemma AddToEmpty(name: string, h: Hist)
    ensures SameBinning(Empty(name, h.axes), h)
    ensures SameCells(Add(Empty(name, h.axes), h), h)
    ensures Add(Empty(name, h.axes), h).entries == h.entries
  {
    var e := Empty(name, h.axes);
    assert SameBinning(e, h);
    forall k ensures Get(Add(e, h), k) == Get(h, k) {
      AddAt(e, h, k);
      PlusEmpty(Get(h, k));
    }
  }
}
