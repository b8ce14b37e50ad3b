/** The algorithm back-ends' pure logic: TMVA option strings, the names of
    the variables predictions are stored under, the working-point tuner's
    interpolation and decision, and the extraction of score cuts that reach
    a target efficiency. Training, ROOT's readers and graph interpolation
    are not part of this model: a working point's cut as a function of the
    dependent variables is a parameter. */
module Algs {
  import opened Wrappers
  import S = Strings
  import R = Reals

  // ---------------------------------------------------------------- option strings

  /** An option's value: `None`, a boolean, or anything else by its text. */
  datatype OptVal = Unset | Flag(b: bool) | Text(s: string)

  /** `__get_algtype__`: the classifier type string. */
  function AlgType(tmvatype: string): (r: string)
    ensures |r| == |tmvatype| + 1 && r[0] == 'k' && r[1..] == tmvatype
  {
    "k" + tmvatype
  }

  /** One option's entry: nothing for None, the key for True, `!key` for
      False, else `key=value`. */
  function Entry(k: string, v: OptVal): (r: Option<string>)
    ensures v.Unset? <==> r.None?
    ensures v.Flag? && v.b ==> r == Some(k)
    ensures v.Flag? && !v.b ==> r == Some("!" + k)
    ensures v.Text? ==> r == Some(k + "=" + v.s)
  {
    match v
    case Unset => None
    case Flag(b) => if b then Some(k) else Some("!" + k)
    case Text(s) => Some(k + "=" + s)
  }

  /** The number of options that are set. */
  function SetCount(opts: seq<(string, OptVal)>): nat {
    if |opts| == 0 then 0 else (if opts[0].1.Unset? then 0 else 1) + SetCount(opts[1..])
  }

  /** The entries of the options that are set, in dictionary order. */
  function Entries(opts: seq<(string, OptVal)>): (r: seq<string>)
    ensures |r| == SetCount(opts)
  {
    if |opts| == 0 then []
    else
      var e := Entry(opts[0].0, opts[0].1);
      (if e.Some? then [e.value] else []) + Entries(opts[1..])
  }

  /** Entries of two groups of options are the entries of each, in turn. */
  lemma {:induction false} EntriesAppend(a: seq<(string, OptVal)>, b: seq<(string, OptVal)>)
    ensures Entries(a + b) == Entries(a) + Entries(b)
    decreases |a|
  {
    if |a| == 0 {
      assert a + b == b;
    } else {
      assert (a + b)[0] == a[0];
      assert (a + b)[1..] == a[1..] + b;
      EntriesAppend(a[1..], b);
    }
  }

  /** `__get_optstr__`: the entries joined by `:`. */
  function OptStr(opts: seq<(string, OptVal)>): (r: string)
    ensures SetCount(opts) == 0 ==> r == ""
  {
    S.Join(":", Entries(opts))
  }

  /** Keys and texts free of `:` make entries free of `:`. */
  predicate ColonFree(opts: seq<(string, OptVal)>) {
    forall i :: 0 <= i < |opts| ==>
      ':' !in opts[i].0 && (opts[i].1.Text? ==> ':' !in opts[i].1.s)
  }

  lemma {:induction false} EntriesColonFree(opts: seq<(string, OptVal)>)
    requires ColonFree(opts)
    ensures forall j :: 0 <= j < |Entries(opts)| ==> ':' !in Entries(opts)[j]
    decreases |opts|
  {
    if |opts| > 0 {
      assert ColonFree(opts[1..]) by {
        forall i | 0 <= i < |opts| - 1 ensures ':' !in opts[1..][i].0 && (opts[1..][i].1.Text? ==> ':' !in opts[1..][i].1.s) {
          assert opts[1..][i] == opts[i + 1];
        }
      }
      EntriesColonFree(opts[1..]);
    }
  }

  /** With `:`-free keys and values, splitting the option string at `:`
      gives back the entries. */
  lemma OptStrSplit(opts: seq<(string, OptVal)>)
    requires ColonFree(opts) && SetCount(opts) > 0
    ensures S.Split(OptStr(opts), ':') == Entries(opts)
  {
    EntriesColonFree(opts);
    S.JoinSplit(Entries(opts), ':');
  }

  // ---------------------------------------------------------------- prediction names

  /** `"{:02d}"`: two digits at least, zero-padded; the sign counts towards
      the width. */
  function TwoDigits(i: int): (r: string)
    ensures |r| >= 2
  {
    S.IntToString(i, 2)
  }

  /** The XGBoost back-end's `get_var_name`: an iteration count wins over an
      iteration fraction, which is given in percent. */
  function XgbVarName(name: string, it: Option<nat>, itfrac: Option<real>): (r: string)
    ensures it.Some? ==> r == name + "i" + S.NatToString(it.value)
    ensures it.None? && itfrac.Some? ==> r == name + "f" + TwoDigits(R.Trunc(itfrac.value * 100.0))
    ensures it.None? && itfrac.None? ==> r == name
  {
    if it.Some? then name + "i" + S.NatToString(it.value)
    else if itfrac.Some? then name + "f" + TwoDigits(R.Trunc(itfrac.value * 100.0))
    else name
  }

  /** Different iteration counts give different names. */
  lemma XgbVarNameInjective(name: string, a: nat, b: nat, fa: Option<real>, fb: Option<real>)
    requires XgbVarName(name, Some(a), fa) == XgbVarName(name, Some(b), fb)
    ensures a == b
  {
    var x := XgbVarName(name, Some(a), fa);
    assert x[|name| + 1..] == S.NatToString(a);
    assert XgbVarName(name, Some(b), fb)[|name| + 1..] == S.NatToString(b);
    S.NatToStringRoundTrip(a);
    S.NatToStringRoundTrip(b);
  }

  /** Fractions that truncate to the same whole percentage share a name. */
  lemma XgbVarNamePercent(name: string, f1: real, f2: real)
    requires R.Trunc(f1 * 100.0) == R.Trunc(f2 * 100.0)
    ensures XgbVarName(name, None, Some(f1)) == XgbVarName(name, None, Some(f2))
  {
  }

  /** The tuner's `get_var_name`: `Score` for the flattened score, else
      `Eff` and the working point's efficiency in percent. */
  function TunerVarName(name: string, eff: Option<real>): (r: string)
    ensures eff.None? ==> r == name + "Score"
    ensures eff.Some? ==> r == name + "Eff" + TwoDigits(R.Trunc(eff.value))
  {
    if eff.None? then name + "Score" else name + "Eff" + TwoDigits(R.Trunc(eff.value))
  }

  /** Working points of different whole percentages in 0..99 get different
      names, and none is the score's name. */
  lemma TunerVarNameDistinct(name: string, e1: real, e2: real)
    requires 0.0 <= e1 < 100.0 && 0.0 <= e2 < 100.0
    requires R.Trunc(e1) != R.Trunc(e2)
    ensures TunerVarName(name, Some(e1)) != TunerVarName(name, Some(e2))
    ensures TunerVarName(name, Some(e1)) != TunerVarName(name, None)
  {
    var a := TunerVarName(name, Some(e1));
    var b := TunerVarName(name, Some(e2));
    var n1 := R.Trunc(e1);
    var n2 := R.Trunc(e2);
    assert |S.NatToString(n1)| <= 2 && |S.NatToString(n2)| <= 2 by {
      SmallNatDigits(n1);
      SmallNatDigits(n2);
    }
    assert a[|name| + 3..] == S.ZeroPad(n1, 2);
    assert b[|name| + 3..] == S.ZeroPad(n2, 2);
    assert a[|name|..|name| + 3] == "Eff";
    assert TunerVarName(name, None)[|name|..|name| + 3] == "Sco";
  }

  /** Numbers below 100 have at most two digits. */
  lemma SmallNatDigits(n: nat)
    requires n < 100
    ensures |S.NatToString(n)| <= 2
  {
    if n >= 10 {
      assert S.NatToString(n) == S.NatToString(n / 10) + [S.DigitChar(n % 10)];
    }
  }

  // ---------------------------------------------------------------- working-point tuner

  /** `min(hi, max(lo, x))`: a dependent variable clamped into the model's
      range. */
  function Clamp(x: real, lo: real, hi: real): (r: real)
    ensures lo <= hi ==> lo <= r <= hi
    ensures lo <= x <= hi ==> r == x
    ensures lo <= hi && x < lo ==> r == lo
    ensures lo <= hi && x > hi ==> r == hi
  {
    var m := if lo > x then lo else x;
    if hi < m then hi else m
  }

  /** Clamping twice is clamping once. */
  lemma ClampIdempotent(x: real, lo: real, hi: real)
    requires lo <= hi
    ensures Clamp(Clamp(x, lo, hi), lo, hi) == Clamp(x, lo, hi)
  {
  }

  /** The tuner's limits and working point: `cutAt(x, y)` is the cut the
      working point applies at the (clamped) dependent variables. */
  datatype Tuner = Tuner(xlims: (real, real), ylims: (real, real), hasY: bool, reverse: bool)

  /** The dependent variables after clamping; without a second variable the
      second is ignored. */
  function Clamped(t: Tuner, x: real, y: real): (r: (real, real))
    ensures t.xlims.0 <= t.xlims.1 ==> t.xlims.0 <= r.0 <= t.xlims.1
    ensures t.hasY && t.ylims.0 <= t.ylims.1 ==> t.ylims.0 <= r.1 <= t.ylims.1
    ensures !t.hasY ==> r.1 == 0.0
  {
    (Clamp(x, t.xlims.0, t.xlims.1), if t.hasY then Clamp(y, t.ylims.0, t.ylims.1) else 0.0)
  }

  /** `__predict_single_eff__`: the working point passes when the
      discriminant is above the cut, or below it when reversed. */
  function PredictEff(t: Tuner, cutAt: (real, real) -> real, disc: real, x: real, y: real): (pass: bool)
    ensures !t.reverse ==> (pass <==> disc > cutAt(Clamped(t, x, y).0, Clamped(t, x, y).1))
    ensures t.reverse ==> (pass <==> disc < cutAt(Clamped(t, x, y).0, Clamped(t, x, y).1))
  {
    var (cx, cy) := Clamped(t, x, y);
    var cut := cutAt(cx, cy);
    if t.reverse then disc < cut else disc > cut
  }

  /** Outside the model's range the decision is the one at the range's
      edge. */
  lemma PredictEffBeyondRange(t: Tuner, cutAt: (real, real) -> real, disc: real, x: real, y: real)
    requires t.xlims.0 <= t.xlims.1 && x > t.xlims.1
    ensures PredictEff(t, cutAt, disc, x, y) == PredictEff(t, cutAt, disc, t.xlims.1, y)
  {
  }

  /** A discriminant that passes still passes when it grows (shrinks when
      reversed). */
  lemma PredictEffMonotone(t: Tuner, cutAt: (real, real) -> real, d1: real, d2: real, x: real, y: real)
    requires if t.reverse then d2 <= d1 else d1 <= d2
    requires PredictEff(t, cutAt, d1, x, y)
    ensures PredictEff(t, cutAt, d2, x, y)
  {
  }

  /** `__transform__`: the efficiency interpolated linearly between the two
      working points bracketing the discriminant, as `1 - eff`; reversed,
      one minus that. Equal cuts divide by zero. */
  function Transform(disc: real, cutLo: real, effLo: real, cutHi: real, effHi: real, reverse: bool): (r: Result<real>)
    ensures r.Err? <==> cutHi == cutLo
    ensures r.Ok? && disc == cutLo ==> r.value == (if reverse then effLo else 1.0 - effLo)
    ensures r.Ok? && disc == cutHi ==> r.value == (if reverse then effHi else 1.0 - effHi)
  {
    if cutHi == cutLo then Err(Fatal("float division by zero"))
    else
      var frac := (disc - cutLo) / (cutHi - cutLo);
      assert disc == cutHi ==> frac == 1.0 by {
        if disc == cutHi {
          assert (cutHi - cutLo) / (cutHi - cutLo) == 1.0;
        }
      }
      var v := 1.0 - effLo - frac * (effHi - effLo);
      Ok(if reverse then 1.0 - v else v)
  }

  /** Between two working points whose efficiency falls as the cut rises,
      the flattened score rises with the discriminant and stays between the
      two working points' values. */
  lemma TransformMonotone(d1: real, d2: real, cutLo: real, effLo: real, cutHi: real, effHi: real)
    requires cutLo < cutHi && effHi <= effLo && cutLo <= d1 <= d2 <= cutHi
    ensures Transform(d1, cutLo, effLo, cutHi, effHi, false).value <= Transform(d2, cutLo, effLo, cutHi, effHi, false).value
    ensures 1.0 - effLo <= Transform(d1, cutLo, effLo, cutHi, effHi, false).value <= 1.0 - effHi
  {
    var w := cutHi - cutLo;
    var f1 := (d1 - cutLo) / w;
    var f2 := (d2 - cutLo) / w;
    TransformAt(d1, cutLo, effLo, cutHi, effHi);
    TransformAt(d2, cutLo, effLo, cutHi, effHi);
    DivOrder(d1 - cutLo, d2 - cutLo, w);
    DivOrder(d2 - cutLo, w, w);
    DivSelf(w);
    LerpOrder(f1, f2, effLo, effHi);
  }

  /** The unreversed score at a discriminant, with the fraction named. */
  lemma TransformAt(d: real, cutLo: real, effLo: real, cutHi: real, effHi: real)
    requires cutLo < cutHi
    ensures Transform(d, cutLo, effLo, cutHi, effHi, false).value
            == 1.0 - effLo - ((d - cutLo) / (cutHi - cutLo)) * (effHi - effLo)
  {
  }

  lemma DivSelf(w: real)
    requires w > 0.0
    ensures w / w == 1.0
  {
  }

  /** Interpolating towards a lower efficiency raises `1 - eff`. */
  lemma LerpOrder(f1: real, f2: real, effLo: real, effHi: real)
    requires 0.0 <= f1 <= f2 <= 1.0 && effHi <= effLo
    ensures 1.0 - effLo - f1 * (effHi - effLo) <= 1.0 - effLo - f2 * (effHi - effLo)
    ensures 1.0 - effLo <= 1.0 - effLo - f1 * (effHi - effLo) <= 1.0 - effHi
  {
    var m := effLo - effHi;
    assert f1 * (effHi - effLo) == -(f1 * m) && f2 * (effHi - effLo) == -(f2 * m);
    ScaleOrder(f1, f2, m);
    ScaleOrder(f1, 1.0, m);
    ScaleOrder(0.0, f1, m);
  }

  lemma DivOrder(a: real, b: real, w: real)
    requires w > 0.0 && 0.0 <= a <= b
    ensures 0.0 <= a / w <= b / w
  {
  }

  lemma ScaleOrder(a: real, b: real, k: real)
    requires a <= b && k >= 0.0
    ensures a * k <= b * k
  {
  }

  /** Reversing the tuner mirrors the score. */
  lemma TransformReverse(disc: real, cutLo: real, effLo: real, cutHi: real, effHi: real)
    requires cutLo != cutHi
    ensures Transform(disc, cutLo, effLo, cutHi, effHi, true).value == 1.0 - Transform(disc, cutLo, effLo, cutHi, effHi, false).value
  {
  }

  // ---------------------------------------------------------------- working-point extraction

  /** Whether an accumulated fraction reaches the target at three decimals
      (`round3` is Python's formatting to three decimals). */
  predicate Reaches(integral: real, target: real, round3: real -> real) {
    round3(integral) >= round3(target)
  }

  /** The content from bin `k` to the top. */
  function Above(c: seq<real>, k: nat): real
    requires k <= |c|
  {
    R.Sum(c[k..])
  }

  /** The content from the bottom up to bin `k`. */
  function UpTo(c: seq<real>, k: nat): real
    requires k < |c|
  {
    R.Sum(c[..k + 1])
  }

  /** Scanning from bin `i` down to bin 0, the first bin whose content
      from there to the top reaches the target. */
  function ScanDown(c: seq<real>, i: int, target: real, round3: real -> real): (r: Option<nat>)
    requires i < |c|
    ensures r.Some? ==> r.value <= i && Reaches(Above(c, r.value), target, round3)
    ensures r.Some? ==> forall k :: r.value < k <= i ==> !Reaches(Above(c, k), target, round3)
    ensures r.None? ==> forall k :: 0 <= k <= i ==> !Reaches(Above(c, k), target, round3)
    decreases i + 1
  {
    if i < 0 then None
    else if Reaches(Above(c, i), target, round3) then Some(i)
    else ScanDown(c, i - 1, target, round3)
  }

  /** Scanning from bin `i` up to the last bin, the first bin whose content
      from the bottom up to it reaches the target. */
  function ScanUp(c: seq<real>, i: nat, target: real, round3: real -> real): (r: Option<nat>)
    requires i <= |c|
    ensures r.Some? ==> i <= r.value < |c| && Reaches(UpTo(c, r.value), target, round3)
    ensures r.Some? ==> forall k :: i <= k < r.value ==> !Reaches(UpTo(c, k), target, round3)
    ensures r.None? ==> forall k :: i <= k < |c| ==> !Reaches(UpTo(c, k), target, round3)
    decreases |c| - i
  {
    if i == |c| then None
    else if Reaches(UpTo(c, i), target, round3) then Some(i)
    else ScanUp(c, i + 1, target, round3)
  }

  /** The cut `__find_score_cut__` chooses, as the bin whose low edge it
      is: None when the overflow bin alone exceeds the target or the target
      is never reached. Bins run from the underflow (0) to the overflow
      (the last). */
  function ScoreCut(c: seq<real>, target: real, reverse: bool, round3: real -> real): (r: Option<nat>)
    requires |c| >= 2
    ensures c[|c| - 1] > target ==> r.None?
    ensures r.Some? && !reverse ==> r.value < |c| && Reaches(Above(c, r.value), target, round3)
    ensures r.Some? && reverse ==> 1 <= r.value <= |c| && Reaches(UpTo(c, r.value - 1), target, round3)
  {
    if c[|c| - 1] > target then None
    else if reverse then
      var k := ScanUp(c, 0, target, round3);
      if k.Some? then Some(k.value + 1) else None
    else ScanDown(c, |c| - 1, target, round3)
  }

  /** `__find_score_cut__` as the loop it is: accumulate bin contents from
      the top down (bottom up when reversed) and stop at the first bin where
      the running sum reaches the target. */
  method FindScoreCut(c: seq<real>, target: real, reverse: bool, round3: real -> real) returns (r: Option<nat>)
    requires |c| >= 2
    ensures r == ScoreCut(c, target, reverse, round3)
  {
    if c[|c| - 1] > target {
      return None;
    }
    if reverse {
      var k := AccumulateUp(c, target, round3);
      r := if k.Some? then Some(k.value + 1) else None;
    } else {
      r := AccumulateDown(c, target, round3);
    }
  }

  /** The running sum from the bottom bin up. */
  method AccumulateUp(c: seq<real>, target: real, round3: real -> real) returns (r: Option<nat>)
    ensures r == ScanUp(c, 0, target, round3)
  {
    var integral := 0.0;
    var i := 0;
    while i < |c|
      invariant 0 <= i <= |c|
      invariant integral == R.Sum(c[..i])
      invariant ScanUp(c, 0, target, round3) == ScanUp(c, i, target, round3)
    {
      assert c[..i + 1] == c[..i] + [c[i]];
      R.SumSnoc(c[..i], c[i]);
      integral := integral + c[i];
      if Reaches(integral, target, round3) {
        return Some(i);
      }
      i := i + 1;
    }
    return None;
  }

  /** The running sum from the top bin down. */
  method AccumulateDown(c: seq<real>, target: real, round3: real -> real) returns (r: Option<nat>)
    ensures r == ScanDown(c, |c| - 1, target, round3)
  {
    var integral := 0.0;
    var i := |c| - 1;
    while i >= 0
      invariant -1 <= i < |c|
      invariant integral == R.Sum(c[i + 1..])
      invariant ScanDown(c, |c| - 1, target, round3) == ScanDown(c, i, target, round3)
    {
      assert c[i..][1..] == c[i + 1..];
      integral := integral + c[i];
      if Reaches(integral, target, round3) {
        return Some(i);
      }
      i := i - 1;
    }
    return None;
  }

  /** `normalize`: scaled to unit sum unless the sum is zero. */
  function Normalized(c: seq<real>): (r: seq<real>)
    ensures |r| == |c|
    ensures R.Sum(c) != 0.0 ==> R.Sum(r) == 1.0
  {
    if R.Sum(c) == 0.0 then c
    else
      R.SumScaleAll(c, 1.0 / R.Sum(c));
      R.ScaleAll(c, 1.0 / R.Sum(c))
  }

  /** A projection's efficiency distribution: divided by the x-bin's total
      before selection when one is given and non-zero, else normalised. */
  function EffDist(proj: seq<real>, total: Option<real>): (r: seq<real>)
    ensures |r| == |proj|
  {
    if total.Some? then
      (if total.value != 0.0 then R.ScaleAll(proj, 1.0 / total.value) else proj)
    else Normalized(proj)
  }

  /** The cut for x-bin `i` of `__get_cuts__`: the score cut that reaches the
      target, else the previous x-bin's cut, else the y axis's first low
      edge. */
  function CutAt(projs: seq<seq<real>>, totals: Option<seq<real>>, i: nat, target: real, reverse: bool,
                 round3: real -> real, lowEdge: int -> real): (cut: real)
    requires i < |projs| && (forall j :: 0 <= j < |projs| ==> |projs[j]| >= 2)
    requires totals.Some? ==> |totals.value| == |projs|
    decreases i
  {
    var found := ScoreCut(EffDist(projs[i], if totals.Some? then Some(totals.value[i]) else None), target, reverse, round3);
    if found.Some? then lowEdge(found.value)
    else if i > 0 then CutAt(projs, totals, i - 1, target, reverse, round3, lowEdge)
    else lowEdge(1)
  }

  /** Every x-bin's cut is a cut found at that or an earlier x-bin, or the
      fallback minimum when none before it reached the target. */
  lemma {:induction false} CutAtOrigin(projs: seq<seq<real>>, totals: Option<seq<real>>, i: nat, target: real,
                                       reverse: bool, round3: real -> real, lowEdge: int -> real)
    requires i < |projs| && (forall j :: 0 <= j < |projs| ==> |projs[j]| >= 2)
    requires totals.Some? ==> |totals.value| == |projs|
    ensures CutAt(projs, totals, i, target, reverse, round3, lowEdge) == lowEdge(1)
            || exists j :: 0 <= j <= i && Found(projs, totals, j, target, reverse, round3).Some?
                           && CutAt(projs, totals, i, target, reverse, round3, lowEdge) == lowEdge(Found(projs, totals, j, target, reverse, round3).value)
    decreases i
  {
    if Found(projs, totals, i, target, reverse, round3).None? && i > 0 {
      CutAtOrigin(projs, totals, i - 1, target, reverse, round3, lowEdge);
    }
  }

  /** The score cut found for x-bin `j`, if any. */
  function Found(projs: seq<seq<real>>, totals: Option<seq<real>>, j: nat, target: real, reverse: bool,
                 round3: real -> real): (r: Option<nat>)
    requires j < |projs| && (forall k :: 0 <= k < |projs| ==> |projs[k]| >= 2)
    requires totals.Some? ==> |totals.value| == |projs|
    ensures r.Some? && !reverse ==> r.value < |projs[j]|
    ensures r.Some? && reverse ==> 1 <= r.value <= |projs[j]|
  {
    ScoreCut(EffDist(projs[j], if totals.Some? then Some(totals.value[j]) else None), target, reverse, round3)
  }

  /** One step of the fallback chain. */
  lemma CutAtStep(projs: seq<seq<real>>, totals: Option<seq<real>>, i: nat, target: real, reverse: bool,
                  round3: real -> real, lowEdge: int -> real)
    requires i < |projs| && (forall j :: 0 <= j < |projs| ==> |projs[j]| >= 2)
    requires totals.Some? ==> |totals.value| == |projs|
    ensures var f := Found(projs, totals, i, target, reverse, round3);
            CutAt(projs, totals, i, target, reverse, round3, lowEdge)
            == if f.Some? then lowEdge(f.value)
               else if i > 0 then CutAt(projs, totals, i - 1, target, reverse, round3, lowEdge)
               else lowEdge(1)
  {
  }

  /** One x-bin of `__get_cuts__`: the score cut of its efficiency
      distribution when one reaches the target, else the previous x-bin's
      cut, else the minimum. */
  method NextCut(projs: seq<seq<real>>, totals: Option<seq<real>>, i: nat, target: real, reverse: bool,
                 round3: real -> real, lowEdge: int -> real, prev: Option<real>) returns (cut: real)
    requires i < |projs| && (forall j :: 0 <= j < |projs| ==> |projs[j]| >= 2)
    requires totals.Some? ==> |totals.value| == |projs|
    requires prev.Some? <==> i > 0
    requires i > 0 ==> prev.value == CutAt(projs, totals, i - 1, target, reverse, round3, lowEdge)
    ensures cut == CutAt(projs, totals, i, target, reverse, round3, lowEdge)
  {
    var dist := EffDist(projs[i], if totals.Some? then Some(totals.value[i]) else None);
    var found := FindScoreCut(dist, target, reverse, round3);
    CutAtStep(projs, totals, i, target, reverse, round3, lowEdge);
    if found.Some? {
      cut := lowEdge(found.value);
    } else if prev.Some? {
      cut := prev.value;
    } else {
      cut := lowEdge(1);
    }
  }

  /** The first `|cuts|` x-bins have their centres and cuts, in order. */
  ghost predicate CutsSoFar(cuts: seq<(real, real)>, projs: seq<seq<real>>, totals: Option<seq<real>>, centers: seq<real>,
                            target: real, reverse: bool, round3: real -> real, lowEdge: int -> real)
    requires |centers| == |projs| && (forall j :: 0 <= j < |projs| ==> |projs[j]| >= 2)
    requires totals.Some? ==> |totals.value| == |projs|
  {
    |cuts| <= |projs|
    && (forall k :: 0 <= k < |cuts| ==> cuts[k].0 == centers[k])
    && (forall k :: 0 <= k < |cuts| ==> cuts[k].1 == CutAt(projs, totals, k, target, reverse, round3, lowEdge))
  }

  lemma CutsSoFarSnoc(cuts: seq<(real, real)>, projs: seq<seq<real>>, totals: Option<seq<real>>, centers: seq<real>,
                      target: real, reverse: bool, round3: real -> real, lowEdge: int -> real, cut: real)
    requires |centers| == |projs| && (forall j :: 0 <= j < |projs| ==> |projs[j]| >= 2)
    requires totals.Some? ==> |totals.value| == |projs|
    requires CutsSoFar(cuts, projs, totals, centers, target, reverse, round3, lowEdge) && |cuts| < |projs|
    requires cut == CutAt(projs, totals, |cuts|, target, reverse, round3, lowEdge)
    ensures CutsSoFar(cuts + [(centers[|cuts|], cut)], projs, totals, centers, target, reverse, round3, lowEdge)
  {
    var n := cuts + [(centers[|cuts|], cut)];
    forall k | 0 <= k < |n|
      ensures n[k].0 == centers[k] && n[k].1 == CutAt(projs, totals, k, target, reverse, round3, lowEdge)
    {
      if k < |cuts| {
        assert n[k] == cuts[k];
      }
    }
  }

  /** `__get_cuts__`: one (x-bin centre, cut) pair per x-bin. */
  method GetCuts(projs: seq<seq<real>>, totals: Option<seq<real>>, centers: seq<real>, target: real,
                 reverse: bool, round3: real -> real, lowEdge: int -> real) returns (cuts: seq<(real, real)>)
    requires |centers| == |projs| && (forall j :: 0 <= j < |projs| ==> |projs[j]| >= 2)
    requires totals.Some? ==> |totals.value| == |projs|
    ensures |cuts| == |projs|
    ensures forall i :: 0 <= i < |cuts| ==> cuts[i].0 == centers[i]
    ensures forall i :: 0 <= i < |cuts| ==> cuts[i].1 == CutAt(projs, totals, i, target, reverse, round3, lowEdge)
  {
    cuts := [];
    while |cuts| < |projs|
      invariant CutsSoFar(cuts, projs, totals, centers, target, reverse, round3, lowEdge)
      decreases |projs| - |cuts|
    {
      var i := |cuts|;
      var prev := if i > 0 then Some(cuts[i - 1].1) else None;
      var cut := NextCut(projs, totals, i, target, reverse, round3, lowEdge, prev);
      CutsSoFarSnoc(cuts, projs, totals, centers, target, reverse, round3, lowEdge, cut);
      cuts := cuts + [(centers[i], cut)];
    }
  }
}
