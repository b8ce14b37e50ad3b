/** Drawable objects: the tree of sub-drawables and the component
    histograms found through it, the dimension, the null-ignoring root
    object setter, histogram proxies (`+ - * /` over a list of histograms),
    migration-matrix normalisation with its diagonal fraction, and ratio
    ownership. ROOT objects are reduced to what these operations read: a 1D
    histogram's bin contents (index 0 underflow, last index overflow) or an
    opaque graph. */
module Drawables {
  import opened Wrappers
  import R = Reals

  // ---------------------------------------------------------------- objects

  /** A TH1's bin contents, under- and overflow included. */
  type Contents = c: seq<real> | |c| >= 2 witness [0.0, 0.0]

  /** GetNbinsX(): the in-range bins. */
  function NBinsX(c: Contents): nat {
    |c| - 2
  }

  /** TH1::Integral() without a range: in-range bins only. */
  function Integral(c: Contents): real {
    R.Sum(c[1..|c| - 1])
  }

  datatype RootObj = Th1(bins: Contents) | Graph(id: nat)

  // ---------------------------------------------------------------- tree

  datatype Drawable = Drawable(
    name: string,
    isHist: bool,        // an instance of `Hist`, the leaves of the tree
    hasY: bool,          // `yvar is not None`
    drawopt: string,
    stackable: bool,
    subrds: seq<Drawable>,
    obj: Option<RootObj>)

  /** `get_component_hists()`: a `Hist` is its own component list; any
      other drawable concatenates its sub-drawables' lists in order. */
  function ComponentHists(d: Drawable): (r: seq<Drawable>)
    ensures forall i :: 0 <= i < |r| ==> r[i].isHist
    ensures d.isHist ==> |r| == 1
    decreases d
  {
    if d.isHist then [d] else ComponentsOf(d.subrds)
  }

  /** The concatenated component lists of a sequence of drawables. */
  function ComponentsOf(ds: seq<Drawable>): (r: seq<Drawable>)
    ensures forall i :: 0 <= i < |r| ==> r[i].isHist
    decreases ds
  {
    if |ds| == 0 then [] else ComponentHists(ds[0]) + ComponentsOf(ds[1..])
  }

  lemma {:induction false} ComponentsOfAppend(a: seq<Drawable>, b: seq<Drawable>)
    ensures ComponentsOf(a + b) == ComponentsOf(a) + ComponentsOf(b)
    decreases |a|
  {
    if |a| == 0 {
      assert a + b == b;
    } else {
      assert (a + b)[0] == a[0];
      assert (a + b)[1..] == a[1..] + b;
      ComponentsOfAppend(a[1..], b);
    }
  }

  /** A list made only of histograms is its own component list. */
  lemma {:induction false} ComponentsOfHists(ds: seq<Drawable>)
    requires forall i :: 0 <= i < |ds| ==> ds[i].isHist
    ensures ComponentsOf(ds) == ds
    decreases |ds|
  {
    if |ds| > 0 {
      assert ds[0].isHist;
      ComponentsOfHists(ds[1..]);
      assert ds == [ds[0]] + ds[1..];
    }
  }

  /** Collecting components twice changes nothing. */
  lemma ComponentHistsIdempotent(d: Drawable)
    ensures ComponentsOf(ComponentHists(d)) == ComponentHists(d)
  {
    ComponentsOfHists(ComponentHists(d));
  }

  /** A histogram that is a direct sub-drawable of a non-histogram is among
      its components. */
  lemma {:induction false} ComponentsOfHas(ds: seq<Drawable>, i: nat)
    requires i < |ds| && ds[i].isHist
    ensures ds[i] in ComponentsOf(ds)
    decreases |ds|
  {
    if i > 0 {
      assert ds[1..][i - 1] == ds[i];
      ComponentsOfHas(ds[1..], i - 1);
    }
  }

  // ---------------------------------------------------------------- hists

  /** `Hist(...)`: a leaf drawn with "COL" exactly when it has a y-axis. */
  function NewHist(name: string, hasY: bool): (h: Drawable)
    ensures h.isHist && h.stackable && h.obj == None
    ensures ComponentHists(h) == [h]
  {
    Drawable(name, true, hasY, if hasY then "COL" else "", true, [], None)
  }

  /** `get_dimension()`. */
  function Dimension(d: Drawable): (n: nat)
    ensures 1 <= n <= 2
  {
    if d.hasY then 2 else 1
  }

  /** A histogram's draw option and its dimension agree. */
  lemma HistDrawOptDimension(name: string, hasY: bool)
    ensures NewHist(name, hasY).drawopt == "COL" <==> Dimension(NewHist(name, hasY)) == 2
    ensures NewHist(name, hasY).drawopt == "" <==> Dimension(NewHist(name, hasY)) == 1
  {
  }

  predicate IsValid(d: Drawable) {
    d.obj.Some?
  }

  /** `set_rootobj(o)`: a null object is ignored and the previous one kept. */
  function SetRootObj(d: Drawable, o: Option<RootObj>): (r: Drawable)
    ensures o.None? ==> r == d
    ensures o.Some? ==> IsValid(r) && r.obj == o
    ensures r.subrds == d.subrds && r.name == d.name && r.isHist == d.isHist
    ensures IsValid(d) ==> IsValid(r)
  {
    if o.None? then d else d.(obj := o)
  }

  /** Setting the same object twice is setting it once. */
  lemma SetRootObjIdempotent(d: Drawable, o: Option<RootObj>)
    ensures SetRootObj(SetRootObj(d, o), o) == SetRootObj(d, o)
  {
  }

  // ---------------------------------------------------------------- proxy

  datatype Op = Plus | Minus | Times | Divide

  function OpText(op: Op): string {
    match op
    case Plus => "+"
    case Minus => "-"
    case Times => "*"
    case Divide => "/"
  }

  /** The operator check of the proxy constructor. */
  function ParseOp(s: string): (r: Result<Op>)
  {
    if s == "+" then Ok(Plus)
    else if s == "-" then Ok(Minus)
    else if s == "*" then Ok(Times)
    else if s == "/" then Ok(Divide)
    else Err(Fatal("HistProxy invalid operator"))
  }

  /** Exactly the four operator spellings are accepted, each as itself. */
  lemma ParseOpRoundTrip(op: Op, s: string)
    ensures ParseOp(OpText(op)) == Ok(op)
    ensures ParseOp(s).Ok? ==> OpText(ParseOp(s).value) == s
    ensures ParseOp(s).Ok? <==> s in {"+", "-", "*", "/"}
  {
  }

  /** `HistProxy(hists, op)`: indexes the first input, adds every input's
      component histograms as sub-drawables, then checks the operator. */
  function NewProxy(hists: seq<Drawable>, op: string, name: string): (r: Result<Drawable>)
    ensures |hists| == 0 ==> r.Err?
    ensures r.Ok? <==> |hists| > 0 && ParseOp(op).Ok?
    ensures r.Ok? ==> !r.value.isHist && r.value.stackable && r.value.drawopt == hists[0].drawopt
  {
    if |hists| == 0 then Err(IndexError("list index out of range"))
    else if ParseOp(op).Err? then Err(ParseOp(op).error)
    else Ok(Drawable(name, false, false, hists[0].drawopt, true, ComponentsOf(hists), None))
  }

  /** A proxy's components are its inputs' components, in input order. */
  lemma ProxyComponents(hists: seq<Drawable>, op: string, name: string)
    requires NewProxy(hists, op, name).Ok?
    ensures ComponentHists(NewProxy(hists, op, name).value) == ComponentsOf(hists)
  {
    ComponentsOfHists(ComponentsOf(hists));
  }

  /** One bin of TH1::Add / Add(h, -1) / Multiply / Divide; Divide puts 0
      where the divisor bin is 0. */
  function BinOp(op: Op, x: real, y: real): real {
    match op
    case Plus => x + y
    case Minus => x - y
    case Times => x * y
    case Divide => if y == 0.0 then 0.0 else x / y
  }

  function Combine(op: Op, a: Contents, b: Contents): (r: Contents)
    requires |a| == |b|
    ensures |r| == |a|
  {
    seq(|a|, i requires 0 <= i < |a| => BinOp(op, a[i], b[i]))
  }

  /** TH1::Scale(k) on the contents. */
  function ScaleBins(a: Contents, k: real): (r: Contents)
    ensures |r| == |a|
  {
    R.ScaleAll(a, k)
  }

  /** One later operand: Ok(Some) to go on, Ok(None) for a logged error that
      leaves the proxy without an object, Err for Python's division by zero
      when a single-bin divisor has a zero integral. */
  function Step(op: Op, ro: Contents, ri: Contents): (r: Result<Option<Contents>>)
    ensures r.Ok? && r.value.Some? ==> |r.value.value| == |ro|
  {
    if NBinsX(ri) == NBinsX(ro) then Ok(Some(Combine(op, ro, ri)))
    else if NBinsX(ri) == 1 then
      match op
      case Times => Ok(Some(ScaleBins(ro, Integral(ri))))
      case Divide =>
        if Integral(ri) == 0.0 then Err(Fatal("float division by zero"))
        else Ok(Some(ScaleBins(ro, 1.0 / Integral(ri))))
      case _ => Ok(None)
    else Ok(None)
  }

  /** `build_rootobj` of a proxy: clone the first input and fold the rest in. */
  function BuildProxy(op: Op, ro: Contents, rest: seq<Contents>): (r: Result<Option<Contents>>)
    ensures r.Ok? && r.value.Some? ==> |r.value.value| == |ro|
    decreases |rest|
  {
    if |rest| == 0 then Ok(Some(ro))
    else
      match Step(op, ro, rest[0])
      case Err(e) => Err(e)
      case Ok(None) => Ok(None)
      case Ok(Some(next)) => BuildProxy(op, next, rest[1..])
  }

  predicate SameBins(ro: Contents, rest: seq<Contents>) {
    forall i :: 0 <= i < |rest| ==> |rest[i]| == |ro|
  }

  /** `+` and `-` never raise, and set an object exactly when every operand
      has the first one's bin count. */
  lemma {:induction false} AdditiveAccepts(op: Op, ro: Contents, rest: seq<Contents>)
    requires op == Plus || op == Minus
    ensures BuildProxy(op, ro, rest).Ok?
    ensures BuildProxy(op, ro, rest).value.Some? <==> SameBins(ro, rest)
    decreases |rest|
  {
    if |rest| > 0 {
      if |rest[0]| == |ro| {
        var next := Combine(op, ro, rest[0]);
        assert SameBins(ro, rest) <==> SameBins(next, rest[1..]) by {
          forall i | 0 <= i < |rest| - 1 ensures rest[1..][i] == rest[i + 1] {}
        }
        AdditiveAccepts(op, next, rest[1..]);
      } else {
        assert !SameBins(ro, rest);
      }
    }
  }

  /** `*` never raises, and sets an object exactly when every operand has
      the first one's bin count or a single bin. */
  lemma {:induction false} TimesAccepts(ro: Contents, rest: seq<Contents>)
    ensures BuildProxy(Times, ro, rest).Ok?
    ensures BuildProxy(Times, ro, rest).value.Some? <==>
      forall i :: 0 <= i < |rest| ==> |rest[i]| == |ro| || NBinsX(rest[i]) == 1
    decreases |rest|
  {
    if |rest| > 0 {
      var s := Step(Times, ro, rest[0]);
      if s.value.Some? {
        forall i | 0 <= i < |rest| - 1 ensures rest[1..][i] == rest[i + 1] {}
        TimesAccepts(s.value.value, rest[1..]);
      }
    }
  }

  /** Dividing by a single-bin histogram with a zero integral raises. */
  lemma DivideByEmptyScalar(ro: Contents, s: Contents)
    requires NBinsX(s) == 1 && NBinsX(ro) != 1 && Integral(s) == 0.0
    ensures BuildProxy(Divide, ro, [s]).Err?
  {
  }

  /** Bin `j` of every operand. */
  function BinColumn(rest: seq<Contents>, j: nat): (r: seq<real>)
    requires forall i :: 0 <= i < |rest| ==> j < |rest[i]|
    ensures |r| == |rest|
  {
    seq(|rest|, i requires 0 <= i < |rest| => rest[i][j])
  }

  /** With equal bin counts, `+` is the bin-wise sum of all inputs and `-`
      the first input minus the bin-wise sum of the others. */
  lemma {:induction false} AdditiveBins(op: Op, ro: Contents, rest: seq<Contents>, j: nat)
    requires op == Plus || op == Minus
    requires SameBins(ro, rest) && j < |ro|
    ensures BuildProxy(op, ro, rest).Ok? && BuildProxy(op, ro, rest).value.Some?
    ensures op == Plus ==> BuildProxy(op, ro, rest).value.value[j] == ro[j] + R.Sum(BinColumn(rest, j))
    ensures op == Minus ==> BuildProxy(op, ro, rest).value.value[j] == ro[j] - R.Sum(BinColumn(rest, j))
    decreases |rest|
  {
    AdditiveAccepts(op, ro, rest);
    if |rest| > 0 {
      var next := Combine(op, ro, rest[0]);
      assert SameBins(next, rest[1..]) by {
        forall i | 0 <= i < |rest| - 1 ensures rest[1..][i] == rest[i + 1] {}
      }
      assert BuildProxy(op, ro, rest) == BuildProxy(op, next, rest[1..]);
      AdditiveBins(op, next, rest[1..], j);
      assert BinColumn(rest, j)[1..] == BinColumn(rest[1..], j);
    }
  }

  /** Building a proxy drawable from its inputs' built contents: the object
      is set only when the fold succeeds; otherwise the proxy is unchanged. */
  function BuildProxyDrawable(p: Drawable, op: Op, objs: seq<Contents>): (r: Result<Drawable>)
    requires |objs| > 0
    ensures r.Ok? ==> r.value.subrds == p.subrds
    ensures r.Ok? && r.value != p ==> IsValid(r.value) && r.value.obj.value.Th1?
  {
    match BuildProxy(op, objs[0], objs[1..])
    case Err(e) => Err(e)
    case Ok(None) => Ok(p)
    case Ok(Some(c)) => Ok(SetRootObj(p, Some(Th1(c))))
  }

  /** Adding histograms of different bin counts leaves the proxy as it was. */
  lemma IncompatibleSumLeavesProxy(p: Drawable, objs: seq<Contents>, i: nat)
    requires 0 < i < |objs| && |objs[i]| != |objs[0]|
    ensures BuildProxyDrawable(p, Plus, objs) == Ok(p)
  {
    AdditiveAccepts(Plus, objs[0], objs[1..]);
    assert objs[1..][i - 1] == objs[i];
  }

  // ---------------------------------------------------------------- migration matrix

  /** `m[ix][iy]` is the content of in-range bin (ix + 1, iy + 1); every
      column has `ny` entries. Under- and overflow bins are not touched by
      the normalisation and are not part of the model. */
  predicate Rect(m: seq<seq<real>>, ny: nat) {
    forall ix :: 0 <= ix < |m| ==> |m[ix]| == ny
  }

  /** A cell as a percentage of `total`, or 0 when the total is 0. */
  function Percent(v: real, total: real): real {
    if total == 0.0 then 0.0 else v / total * 100.0
  }

  function PercentOf(vs: seq<real>, total: real): (r: seq<real>)
    ensures |r| == |vs|
  {
    seq(|vs|, i requires 0 <= i < |vs| => Percent(vs[i], total))
  }

  /** Percentages of their own total sum to 100, or to 0 when the total is 0. */
  lemma PercentOfSum(vs: seq<real>)
    ensures R.Sum(vs) != 0.0 ==> R.Sum(PercentOf(vs, R.Sum(vs))) == 100.0
    ensures R.Sum(vs) == 0.0 ==> forall i :: 0 <= i < |vs| ==> PercentOf(vs, R.Sum(vs))[i] == 0.0
  {
    var t := R.Sum(vs);
    if t != 0.0 {
      assert PercentOf(vs, t) == R.ScaleAll(vs, 100.0 / t) by {
        forall i | 0 <= i < |vs| ensures PercentOf(vs, t)[i] == R.ScaleAll(vs, 100.0 / t)[i] {
          assert vs[i] / t * 100.0 == vs[i] * (100.0 / t);
        }
      }
      R.SumScaleAll(vs, 100.0 / t);
    }
  }

  /** Column normalisation ("Efficiency"): contents and errors of each
      column divided by the column's content total, in percent. */
  function ColNorm(c: seq<seq<real>>, e: seq<seq<real>>): (r: (seq<seq<real>>, seq<seq<real>>))
    requires |e| == |c|
    ensures |r.0| == |c| && |r.1| == |c|
    ensures forall ix :: 0 <= ix < |c| ==> |r.0[ix]| == |c[ix]| && |r.1[ix]| == |e[ix]|
  {
    (seq(|c|, ix requires 0 <= ix < |c| => PercentOf(c[ix], R.Sum(c[ix]))),
     seq(|c|, ix requires 0 <= ix < |c| => PercentOf(e[ix], R.Sum(c[ix]))))
  }

  /** Every column with a non-zero total sums to 100 after normalisation;
      a column with a zero total becomes all zeros, errors included. */
  lemma ColNormPercent(c: seq<seq<real>>, e: seq<seq<real>>, ix: nat)
    requires |e| == |c| && ix < |c|
    ensures R.Sum(c[ix]) != 0.0 ==> R.Sum(ColNorm(c, e).0[ix]) == 100.0
    ensures R.Sum(c[ix]) == 0.0 ==> forall iy :: 0 <= iy < |c[ix]| ==> ColNorm(c, e).0[ix][iy] == 0.0
    ensures R.Sum(c[ix]) == 0.0 ==> forall iy :: 0 <= iy < |e[ix]| ==> ColNorm(c, e).1[ix][iy] == 0.0
  {
    PercentOfSum(c[ix]);
  }

  /** Row `iy` across all columns. */
  function Row(m: seq<seq<real>>, ny: nat, iy: nat): (r: seq<real>)
    requires Rect(m, ny) && iy < ny
    ensures |r| == |m|
  {
    seq(|m|, ix requires 0 <= ix < |m| => m[ix][iy])
  }

  function Transpose(m: seq<seq<real>>, ny: nat): (t: seq<seq<real>>)
    requires Rect(m, ny)
    ensures |t| == ny && Rect(t, |m|)
  {
    seq(ny, iy requires 0 <= iy < ny => Row(m, ny, iy))
  }

  /** Row normalisation ("Purity"): each cell as a percentage of its row's
      content total. */
  function RowNorm(c: seq<seq<real>>, e: seq<seq<real>>, ny: nat): (r: (seq<seq<real>>, seq<seq<real>>))
    requires |e| == |c| && Rect(c, ny) && Rect(e, ny)
    ensures |r.0| == |c| && |r.1| == |c| && Rect(r.0, ny) && Rect(r.1, ny)
  {
    (seq(|c|, ix requires 0 <= ix < |c| =>
       seq(ny, iy requires 0 <= iy < ny => Percent(c[ix][iy], R.Sum(Row(c, ny, iy))))),
     seq(|c|, ix requires 0 <= ix < |c| =>
       seq(ny, iy requires 0 <= iy < ny => Percent(e[ix][iy], R.Sum(Row(c, ny, iy))))))
  }

  /** Row normalisation is column normalisation of the transposed matrix. */
  lemma RowNormTransposed(c: seq<seq<real>>, e: seq<seq<real>>, ny: nat, iy: nat)
    requires |e| == |c| && Rect(c, ny) && Rect(e, ny) && iy < ny
    ensures Row(RowNorm(c, e, ny).0, ny, iy) == ColNorm(Transpose(c, ny), Transpose(e, ny)).0[iy]
    ensures Row(RowNorm(c, e, ny).1, ny, iy) == ColNorm(Transpose(c, ny), Transpose(e, ny)).1[iy]
  {
  }

  /** Every row with a non-zero total sums to 100 after row normalisation;
      a row with a zero total becomes all zeros. */
  lemma RowNormPercent(c: seq<seq<real>>, e: seq<seq<real>>, ny: nat, iy: nat)
    requires |e| == |c| && Rect(c, ny) && Rect(e, ny) && iy < ny
    ensures R.Sum(Row(c, ny, iy)) != 0.0 ==> R.Sum(Row(RowNorm(c, e, ny).0, ny, iy)) == 100.0
    ensures R.Sum(Row(c, ny, iy)) == 0.0 ==>
      forall ix :: 0 <= ix < |c| ==> RowNorm(c, e, ny).0[ix][iy] == 0.0 && RowNorm(c, e, ny).1[ix][iy] == 0.0
  {
    RowNormTransposed(c, e, ny, iy);
    assert Transpose(c, ny)[iy] == Row(c, ny, iy);
    ColNormPercent(Transpose(c, ny), Transpose(e, ny), iy);
  }

  /** TH2::Integral(): all in-range cells. */
  function Integral2(c: seq<seq<real>>): real {
    R.Sum(seq(|c|, ix requires 0 <= ix < |c| => R.Sum(c[ix])))
  }

  function MinNat(a: nat, b: nat): nat {
    if a <= b then a else b
  }

  /** Diagonal of the leading square block. */
  function DiagSum(c: seq<seq<real>>, ny: nat): real
    requires Rect(c, ny)
  {
    var size := MinNat(|c|, ny);
    R.Sum(seq(size, i requires 0 <= i < size => c[i][i]))
  }

  /** Total of the leading square block. */
  function BlockSum(c: seq<seq<real>>, ny: nat): real
    requires Rect(c, ny)
  {
    var size := MinNat(|c|, ny);
    R.Sum(seq(size, i requires 0 <= i < size => R.Sum(c[i][..size])))
  }

  /** The matrix's diagonal fraction: `prev` (initially 0.0) is kept when
      the integral or the square-block total is zero. */
  function DiagonalFraction(c: seq<seq<real>>, ny: nat, prev: real): (r: real)
    requires Rect(c, ny)
    ensures Integral2(c) == 0.0 ==> r == prev
  {
    if Integral2(c) == 0.0 then prev
    else
      var tot := BlockSum(c, ny);
      if tot == 0.0 then prev else DiagSum(c, ny) / tot * 100.0
  }

  predicate AllNonNegative(c: seq<seq<real>>) {
    forall ix :: 0 <= ix < |c| ==> R.NonNegative(c[ix])
  }

  /** With non-negative contents the diagonal fraction is a percentage
      (or the kept previous value). */
  lemma DiagonalFractionBounded(c: seq<seq<real>>, ny: nat, prev: real)
    requires Rect(c, ny) && AllNonNegative(c)
    ensures DiagonalFraction(c, ny, prev) == prev ||
            0.0 <= DiagonalFraction(c, ny, prev) <= 100.0
  {
    var size := MinNat(|c|, ny);
    var diag := seq(size, i requires 0 <= i < size => c[i][i]);
    var rows := seq(size, i requires 0 <= i < size => R.Sum(c[i][..size]));
    forall i | 0 <= i < size ensures 0.0 <= diag[i] <= rows[i] {
      assert R.NonNegative(c[i][..size]);
      assert c[i][..size][i] == c[i][i];
      R.TermAtMostSum(c[i][..size], i);
    }
    assert R.NonNegative(diag);
    R.SumNonNegative(diag);
    R.SumMonotone(diag, rows);
    var tot := R.Sum(rows);
    if Integral2(c) != 0.0 && tot != 0.0 {
      var d := R.Sum(diag);
      assert 0.0 <= d <= tot;
      assert d / tot <= 1.0;
    }
  }

  // ---------------------------------------------------------------- ratio

  /** `Ratio(num, den, owner)`: an owning ratio declares both inputs as
      sub-drawables; a non-owning one declares none. */
  function NewRatio(num: Drawable, den: Drawable, owner: bool, name: string): (r: Drawable)
    ensures !r.isHist && r.drawopt == num.drawopt
    ensures owner ==> r.subrds == [num, den]
    ensures !owner ==> r.subrds == []
  {
    Drawable(name, false, false, num.drawopt, false, if owner then [num, den] else [], None)
  }

  /** An owning ratio's components are the numerator's then the
      denominator's; a non-owning ratio has none. */
  lemma RatioComponents(num: Drawable, den: Drawable, owner: bool, name: string)
    ensures ComponentHists(NewRatio(num, den, owner, name)) ==
      (if owner then ComponentHists(num) + ComponentHists(den) else [])
  {
    var ds := NewRatio(num, den, owner, name).subrds;
    if owner {
      assert ds[1..] == [den];
      assert [den][1..] == [];
      assert ComponentsOf([den]) == ComponentHists(den) + ComponentsOf([]);
      assert ComponentsOf(ds) == ComponentHists(num) + ComponentsOf([den]);
    }
  }

  /** `Ratio.build_rootobj`. An owner rebuilds both inputs (`build`); a
      non-owner gives up, unchanged, when either input has no object. The
      graph conversion and division are `divide`. Inputs without objects
      after an owner's rebuild make the division fail. */
  function BuildRatio(r: Drawable, num: Drawable, den: Drawable, owner: bool,
                      build: Drawable -> Drawable,
                      divide: (RootObj, RootObj) -> Option<RootObj>): (res: Result<Drawable>)
    ensures !owner && (!IsValid(num) || !IsValid(den)) ==> res == Ok(r)
    ensures res.Ok? && res.value != r ==>
      var n := if owner then build(num) else num;
      var d := if owner then build(den) else den;
      IsValid(n) && IsValid(d) && res.value.obj == divide(n.obj.value, d.obj.value)
  {
    if !owner && (!IsValid(num) || !IsValid(den)) then Ok(r)
    else
      var n := if owner then build(num) else num;
      var d := if owner then build(den) else den;
      if !IsValid(n) || !IsValid(d) then Err(Fatal("'NoneType' object has no attribute"))
      else Ok(SetRootObj(r, divide(n.obj.value, d.obj.value)))
  }
}
