/** Plot set-up arithmetic (`Plot`): construction checks and defaults,
    which ratios are made, the automatic y-axis and ratio ranges, and the
    stack: which drawables go in and in what order, and the per-bin
    normalisation of the stacked histograms. Canvas drawing, legends and
    logos are not part of this model. The per-object extreme values
    (`get_ymin`/`get_ymax` of one histogram or graph) are parameters. */
module Plots {
  import opened Wrappers
  import R = Reals
  import D = Drawables

  // ---------------------------------------------------------------- construction

  /** `extra_labels`: one string or a list. */
  datatype Labels = One(text: string) | Many(texts: seq<string>)

  datatype Plot = Plot(
    name: string,
    rds: seq<D.Drawable>,
    stackRds: seq<D.Drawable>,
    extraLabels: Option<seq<string>>,
    rd0: D.Drawable,
    canvasHeight: int,
    canvasWidth: int,
    fexts: seq<string>,
    topmargin: real)

  function OrEmpty(s: Option<seq<D.Drawable>>): seq<D.Drawable> {
    if s.Some? then s.value else []
  }

  /** `Plot(...)`: the deprecated `stack` flag moves the drawables to the
      stack; a plot with no drawables at all is fatal; the reference
      drawable is the first plain one, else the first stacked one. */
  function NewPlot(name: string, rds: Option<seq<D.Drawable>>, stackRds: Option<seq<D.Drawable>>,
                   stack: bool, square: bool, extraLabels: Option<Labels>,
                   fexts: Option<seq<string>>, topmargin: Option<real>): (r: Result<Plot>)
    ensures r.Err? <==> |OrEmpty(rds)| == 0 && (stack || |OrEmpty(stackRds)| == 0)
    ensures r.Ok? && stack ==> r.value.rds == [] && r.value.stackRds == OrEmpty(rds) && r.value.rd0 == OrEmpty(rds)[0]
    ensures r.Ok? && !stack ==> r.value.rds == OrEmpty(rds) && r.value.stackRds == OrEmpty(stackRds)
    ensures r.Ok? ==> r.value.rd0 == (if |r.value.rds| > 0 then r.value.rds[0] else r.value.stackRds[0])
    ensures r.Ok? && extraLabels.Some? && extraLabels.value.One? ==> r.value.extraLabels == Some([extraLabels.value.text])
    ensures r.Ok? && extraLabels.Some? && extraLabels.value.Many? ==> r.value.extraLabels == Some(extraLabels.value.texts)
    ensures r.Ok? ==> r.value.canvasHeight == (if square then 700 else 500) && r.value.canvasWidth == 700
  {
    var plain := if stack then [] else OrEmpty(rds);
    var stacked := if stack then OrEmpty(rds) else OrEmpty(stackRds);
    if |plain| == 0 && |stacked| == 0 then Err(Fatal("Plot has no drawable objects"))
    else
      var labels :=
        if extraLabels.None? then None
        else if extraLabels.value.One? then Some([extraLabels.value.text])
        else Some(extraLabels.value.texts);
      Ok(Plot(name, plain, stacked, labels,
              if |plain| > 0 then plain[0] else stacked[0],
              if square then 700 else 500, 700,
              if fexts.Some? && |fexts.value| > 0 then fexts.value else ["pdf"],
              if R.Truthy(topmargin) then topmargin.value else 0.15))
  }

  // ---------------------------------------------------------------- ratios

  /** `__create_ratios__`: the (numerator, denominator) of each ratio made:
      every plain drawable after the first over the first, none when there
      is a stack. */
  function CreateRatios(p: Plot): (r: seq<(D.Drawable, D.Drawable)>)
    ensures |p.stackRds| > 0 ==> r == []
    ensures |p.stackRds| == 0 && |p.rds| > 0 ==> |r| == |p.rds| - 1
    ensures |r| > 0 ==> |r| == |p.rds| - 1
    ensures forall i :: 0 <= i < |r| && i + 1 < |p.rds| ==> r[i] == (p.rds[i + 1], p.rds[0])
  {
    if |p.stackRds| > 0 || |p.rds| == 0 then []
    else seq(|p.rds| - 1, i requires 0 <= i < |p.rds| - 1 => (p.rds[i + 1], p.rds[0]))
  }

  // ---------------------------------------------------------------- extremes

  function SeqMin(s: seq<real>): (m: real)
    requires |s| > 0
    ensures m in s && forall i :: 0 <= i < |s| ==> m <= s[i]
  {
    if |s| == 1 then s[0]
    else
      var rest := SeqMin(s[1..]);
      assert forall i :: 1 <= i < |s| ==> s[1..][i - 1] == s[i];
      if s[0] <= rest then s[0] else rest
  }

  function SeqMax(s: seq<real>): (m: real)
    requires |s| > 0
    ensures m in s && forall i :: 0 <= i < |s| ==> s[i] <= m
  {
    if |s| == 1 then s[0]
    else
      var rest := SeqMax(s[1..]);
      assert forall i :: 1 <= i < |s| ==> s[1..][i - 1] == s[i];
      if s[0] >= rest then s[0] else rest
  }

  function Abs(x: real): real {
    if x < 0.0 then -x else x
  }

  /** Largest distance of the ratio values from 1. */
  function RatioSpread(lo: seq<real>, hi: seq<real>): (d: real)
    requires |lo| > 0 && |hi| > 0
    ensures d >= 0.0
  {
    var a := Abs(1.0 - SeqMin(lo));
    var b := Abs(1.0 - SeqMax(hi));
    if a >= b then a else b
  }

  /** `__get_rmax__`: the set value, else 1 + 1.1 times the spread; the
      per-ratio minima `lo` and maxima `hi` must not be empty (`min([])`
      raises). */
  function RatioMax(rmax: Option<real>, lo: seq<real>, hi: seq<real>): (r: Result<real>)
    ensures rmax.Some? ==> r == Ok(rmax.value)
    ensures rmax.None? ==> (r.Ok? <==> |lo| > 0 && |hi| > 0)
  {
    if rmax.Some? then Ok(rmax.value)
    else if |lo| == 0 || |hi| == 0 then Err(ValueError("min() arg is an empty sequence"))
    else Ok(1.0 + 1.1 * RatioSpread(lo, hi))
  }

  /** `__get_rmin__`: the set value, else 1 - 1.1 times the spread. */
  function RatioMin(rmin: Option<real>, lo: seq<real>, hi: seq<real>): (r: Result<real>)
    ensures rmin.Some? ==> r == Ok(rmin.value)
    ensures rmin.None? ==> (r.Ok? <==> |lo| > 0 && |hi| > 0)
  {
    if rmin.Some? then Ok(rmin.value)
    else if |lo| == 0 || |hi| == 0 then Err(ValueError("min() arg is an empty sequence"))
    else Ok(1.0 - 1.1 * RatioSpread(lo, hi))
  }

  /** The automatic ratio range is symmetric about 1 and contains every
      ratio value. */
  lemma RatioRangeCovers(lo: seq<real>, hi: seq<real>)
    requires |lo| > 0 && |hi| > 0
    ensures RatioMin(None, lo, hi).value + RatioMax(None, lo, hi).value == 2.0
    ensures forall i :: 0 <= i < |lo| ==> RatioMin(None, lo, hi).value <= lo[i]
    ensures forall i :: 0 <= i < |hi| ==> hi[i] <= RatioMax(None, lo, hi).value
  {
    var d := RatioSpread(lo, hi);
    assert d >= 1.0 - SeqMin(lo) && d >= SeqMax(hi) - 1.0;
  }

  // ---------------------------------------------------------------- y range

  /** The drawables with more than one dimension. */
  function HighDims(rds: seq<D.Drawable>): (r: seq<D.Drawable>)
    ensures forall i :: 0 <= i < |r| ==> D.Dimension(r[i]) > 1 && r[i] in rds
    ensures (exists i :: 0 <= i < |rds| && D.Dimension(rds[i]) > 1) ==> |r| > 0
  {
    if |rds| == 0 then []
    else
      assert forall i :: 1 <= i < |rds| ==> rds[1..][i - 1] == rds[i];
      (if D.Dimension(rds[0]) > 1 then [rds[0]] else []) + HighDims(rds[1..])
  }

  function Maxima(rds: seq<D.Drawable>, objMax: D.Drawable -> real): (r: seq<real>)
    ensures |r| == |rds|
  {
    seq(|rds|, i requires 0 <= i < |rds| => objMax(rds[i]))
  }

  /** `__get_ymax__`. A set value is used as is; with a 2D drawable, the
      top of its y-axis (`yAxisMax`); otherwise the largest value (1.0 for
      a normalised stack, the stack total `totalMax` included when there is
      a stack), padded by 10 on a log scale and 1.2 on a linear one. */
  function YMax(ymax: Option<real>, logy: bool, rds: seq<D.Drawable>, stacked: bool, stackNormalize: bool,
                yAxisMax: D.Drawable -> real, objMax: D.Drawable -> real, totalMax: real): (r: Result<real>)
    ensures ymax.Some? ==> r == Ok(ymax.value)
  {
    if ymax.Some? then Ok(ymax.value)
    else if |HighDims(rds)| > 0 then Ok(yAxisMax(HighDims(rds)[0]))
    else
      var base :=
        if stackNormalize then Ok(1.0)
        else if stacked then Ok(SeqMax(Maxima(rds, objMax) + [totalMax]))
        else if |rds| == 0 then Err(ValueError("max() arg is an empty sequence"))
        else Ok(SeqMax(Maxima(rds, objMax)));
      if base.Err? then base
      else Ok(if logy then base.value * 10.0 else base.value * 1.2)
  }

  /** Without a set value or a 2D drawable, the automatic maximum lies at
      or above every non-negative drawable maximum and the stack total. */
  lemma YMaxCovers(logy: bool, rds: seq<D.Drawable>, stacked: bool, yAxisMax: D.Drawable -> real,
                   objMax: D.Drawable -> real, totalMax: real)
    requires |HighDims(rds)| == 0 && (stacked || |rds| > 0)
    requires forall i :: 0 <= i < |rds| ==> objMax(rds[i]) >= 0.0
    requires totalMax >= 0.0
    ensures YMax(None, logy, rds, stacked, false, yAxisMax, objMax, totalMax).Ok?
    ensures forall i :: 0 <= i < |rds| ==> objMax(rds[i]) <= YMax(None, logy, rds, stacked, false, yAxisMax, objMax, totalMax).value
    ensures stacked ==> totalMax <= YMax(None, logy, rds, stacked, false, yAxisMax, objMax, totalMax).value
  {
    var ms := Maxima(rds, objMax);
    var all := if stacked then ms + [totalMax] else ms;
    var m := SeqMax(all);
    assert forall i :: 0 <= i < |rds| ==> all[i] == objMax(rds[i]);
    assert stacked ==> all[|rds|] == totalMax;
    assert m >= 0.0 by {
      if |rds| > 0 { assert all[0] >= 0.0; } else { assert all[|rds|] == totalMax; }
    }
  }

  function Minima(rds: seq<D.Drawable>, objMin: D.Drawable -> real): (r: seq<real>)
    ensures |r| == |rds|
  {
    seq(|rds|, i requires 0 <= i < |rds| => objMin(rds[i]))
  }

  /** `__get_ymin__`. A set value is used as is; with a 2D drawable, the
      bottom of its y-axis; otherwise the smallest value (0.0 for a
      normalised stack), raised to 0.001 on a log scale when it is not
      positive. `objMin` is already the non-zero minimum on a log scale. */
  function YMin(ymin: Option<real>, logy: bool, rds: seq<D.Drawable>, stacked: bool, stackNormalize: bool,
                yAxisMin: D.Drawable -> real, objMin: D.Drawable -> real, totalMin: real): (r: Result<real>)
    ensures ymin.Some? ==> r == Ok(ymin.value)
    ensures ymin.None? && |HighDims(rds)| == 0 && logy && r.Ok? ==> r.value > 0.0
  {
    if ymin.Some? then Ok(ymin.value)
    else if |HighDims(rds)| > 0 then Ok(yAxisMin(HighDims(rds)[0]))
    else
      var base :=
        if stackNormalize then Ok(0.0)
        else if stacked then Ok(SeqMin(Minima(rds, objMin) + [totalMin]))
        else if |rds| == 0 then Err(ValueError("min() arg is an empty sequence"))
        else Ok(SeqMin(Minima(rds, objMin)));
      if base.Err? then base
      else Ok(if logy && base.value <= 0.0 then 0.001 else base.value)
  }

  /** On a linear scale the automatic minimum lies at or below every
      drawable minimum. */
  lemma YMinCovers(rds: seq<D.Drawable>, yAxisMin: D.Drawable -> real, objMin: D.Drawable -> real, totalMin: real)
    requires |HighDims(rds)| == 0 && |rds| > 0
    ensures YMin(None, false, rds, false, false, yAxisMin, objMin, totalMin).Ok?
    ensures forall i :: 0 <= i < |rds| ==> YMin(None, false, rds, false, false, yAxisMin, objMin, totalMin).value <= objMin(rds[i])
  {
    assert forall i :: 0 <= i < |rds| ==> Minima(rds, objMin)[i] == objMin(rds[i]);
  }

  // ---------------------------------------------------------------- stack

  /** The drawables added to the stack: the stackable ones, last first. */
  function StackOrder(rds: seq<D.Drawable>): (r: seq<D.Drawable>)
    ensures |r| <= |rds|
    ensures forall i :: 0 <= i < |r| ==> r[i].stackable && r[i] in rds
  {
    if |rds| == 0 then []
    else
      var last := rds[|rds| - 1];
      assert forall i :: 0 <= i < |rds| - 1 ==> rds[..|rds| - 1][i] == rds[i];
      (if last.stackable then [last] else []) + StackOrder(rds[..|rds| - 1])
  }

  function Reverse<T>(s: seq<T>): (r: seq<T>)
    ensures |r| == |s|
  {
    if |s| == 0 then [] else [s[|s| - 1]] + Reverse(s[..|s| - 1])
  }

  /** When everything is stackable, the stack holds all drawables in
      reverse order. */
  lemma {:induction false} StackOrderAllStackable(rds: seq<D.Drawable>)
    requires forall i :: 0 <= i < |rds| ==> rds[i].stackable
    ensures StackOrder(rds) == Reverse(rds)
    decreases |rds|
  {
    if |rds| > 0 {
      assert rds[|rds| - 1].stackable;
      assert forall i :: 0 <= i < |rds| - 1 ==> rds[..|rds| - 1][i] == rds[i];
      StackOrderAllStackable(rds[..|rds| - 1]);
    }
  }

  /** A fraction of a total, 0 when the total is 0. */
  function Fraction(v: real, total: real): real {
    if total == 0.0 then 0.0 else v / total
  }

  predicate SameLength(hs: seq<D.Contents>, n: nat) {
    forall i :: 0 <= i < |hs| ==> |hs[i]| == n
  }

  /** Bin `j` of every stacked histogram. */
  function Column(hs: seq<D.Contents>, n: nat, j: nat): (c: seq<real>)
    requires SameLength(hs, n) && j < n
    ensures |c| == |hs|
  {
    seq(|hs|, i requires 0 <= i < |hs| => hs[i][j])
  }

  /** `stack_normalize`: every bin, under- and overflow included, becomes
      its fraction of the stack total in that bin; errors are divided by
      the same total. The stacked histograms share one binning. */
  function StackNormalize(hs: seq<D.Contents>, es: seq<seq<real>>, n: nat): (r: (seq<seq<real>>, seq<seq<real>>))
    requires SameLength(hs, n) && |es| == |hs| && forall i :: 0 <= i < |es| ==> |es[i]| == n
    ensures |r.0| == |hs| && |r.1| == |hs|
    ensures forall i :: 0 <= i < |hs| ==> |r.0[i]| == n && |r.1[i]| == n
  {
    (seq(|hs|, i requires 0 <= i < |hs| =>
       seq(n, j requires 0 <= j < n => Fraction(hs[i][j], R.Sum(Column(hs, n, j))))),
     seq(|hs|, i requires 0 <= i < |hs| =>
       seq(n, j requires 0 <= j < n => Fraction(es[i][j], R.Sum(Column(hs, n, j))))))
  }

  /** After normalisation the stack sums to 1 in every bin with a non-zero
      total and to 0 in the others. */
  lemma StackNormalizeSumsToOne(hs: seq<D.Contents>, es: seq<seq<real>>, n: nat, j: nat)
    requires SameLength(hs, n) && |es| == |hs| && forall i :: 0 <= i < |es| ==> |es[i]| == n
    requires j < n
    ensures var r := StackNormalize(hs, es, n);
            var col := seq(|hs|, i requires 0 <= i < |hs| => r.0[i][j]);
            R.Sum(col) == (if R.Sum(Column(hs, n, j)) == 0.0 then 0.0 else 1.0)
  {
    var r := StackNormalize(hs, es, n);
    var col := seq(|hs|, i requires 0 <= i < |hs| => r.0[i][j]);
    var c := Column(hs, n, j);
    var t := R.Sum(c);
    if t == 0.0 {
      R.SumZeros(col);
    } else {
      assert col == R.ScaleAll(c, 1.0 / t) by {
        forall i | 0 <= i < |hs| ensures col[i] == R.ScaleAll(c, 1.0 / t)[i] {
          assert c[i] / t == c[i] * (1.0 / t);
        }
      }
      R.SumScaleAll(c, 1.0 / t);
    }
  }
}
