/** The histogram processor (`Processor`, `HistCfg`, `SelectorCfg`,
    `process_selector`, `hist_hash`): how the component histograms of the
    drawables are grouped into one selector job per input file and
    multi-valued container, how each job configures a `LokiSelector`, and
    how the per-file outputs are merged and scaled back into one histogram.

    Everything that touches the file system, the clock or the worker pool
    is a parameter (`Env`): expression texts after a tree lookup, event
    counts, file hashes, the content of the cache and the histograms read
    back from the job outputs. */
module Process {
  import opened Wrappers
  import H = Histogram
  import V = Vars
  import L = LokiHist
  import LS = LokiSelector
  import R = Reals
  import S = Strings

  // ---------------------------------------------------------------- worker count

  function Min(a: int, b: int): int {
    if a <= b then a else b
  }

  function Max(a: int, b: int): int {
    if a >= b then a else b
  }

  /** Number of worker processes for the `ncores` setting on a machine with
      `cpu` cores: unset (None or 0) means at most two, a negative value
      leaves that many cores free, a positive one is capped at `cpu`. */
  function NCores(ncores: Option<int>, cpu: nat): (r: int)
    ensures cpu >= 1 ==> 1 <= r <= cpu
    ensures ncores.Some? && 0 < ncores.value <= cpu ==> r == ncores.value
    ensures ncores.Some? && ncores.value < 0 && cpu + ncores.value >= 1 ==> r == cpu + ncores.value
    ensures (ncores.None? || ncores.value == 0) && cpu >= 2 ==> r == 2
  {
    if ncores.None? || ncores.value == 0 then Min(2, cpu)
    else if ncores.value < 0 then Max(1, cpu + ncores.value)
    else Min(ncores.value, cpu)
  }

  // ---------------------------------------------------------------- event fraction

  /** `__discritize_event_frac__`: rounded to three decimals (`round3`, the
      `0.3f` formatting) and at least 0.001. */
  function Discretize(ef: Option<real>, round3: real -> real): (r: Option<real>)
    ensures r.None? <==> ef.None?
    ensures r.Some? ==> r.value >= 0.001 && R.Truthy(r)
  {
    if ef.None? then None else Some(Max2(round3(ef.value), 0.001))
  }

  function Max2(a: real, b: real): real {
    if a >= b then a else b
  }

  /** Discretizing twice changes nothing, as long as the rounding itself is
      idempotent on the values involved. */
  lemma DiscretizeIdempotent(ef: Option<real>, round3: real -> real)
    requires ef.Some? ==> round3(round3(ef.value)) == round3(ef.value) && round3(0.001) == 0.001
    ensures Discretize(Discretize(ef, round3), round3) == Discretize(ef, round3)
  {
  }

  /** Events a job processes in a file with `n` events: the fraction, when
      one is set, truncated. */
  function EventsToProcess(ef: Option<real>, n: nat): (r: int)
    ensures !R.Truthy(ef) ==> r == n
    ensures R.Truthy(ef) && 0.0 < ef.value <= 1.0 ==> 0 <= r <= n
  {
    if R.Truthy(ef) then
      assert 0.0 < ef.value <= 1.0 ==> ef.value * n as real <= n as real by {
        if 0.0 < ef.value <= 1.0 {
          assert (1.0 - ef.value) * n as real >= 0.0;
        }
      }
      R.Trunc(ef.value * n as real)
    else n
  }

  // ---------------------------------------------------------------- selection and weight

  /** The containers of an optional variable, none for None. */
  function MvOpt(v: Option<V.Var>): set<V.Container> {
    if v.None? then {} else V.MvInConts(v.value)
  }

  /** Passing condition of an optional variable (absent: always passes). */
  predicate PassesOpt(v: Option<V.Var>, env: string -> real) {
    v.None? || V.Eval(v.value, env) != 0.0
  }

  /** Value of an optional weight (absent: 1). */
  function WeightOpt(v: Option<V.Var>, env: string -> real): real {
    if v.None? then 1.0 else V.Eval(v.value, env)
  }

  /** The selection of one component: the default cut, and the histogram's
      and the sample's selection when set. Fails like `&` does. */
  function EffectiveSel(reg: V.Registry, hsel: Option<V.Var>, ssel: Option<V.Var>): (r: Result<V.Var>)
    ensures hsel.None? && ssel.None? ==> r == Ok(V.DefaultCut(reg))
    ensures r.Ok? && (hsel.Some? || ssel.Some?) ==> r.value.kind == V.CutsOf
  {
    var c1 := V.And(V.DefaultCut(reg), hsel);
    if c1.Err? then c1 else V.And(c1.value, ssel)
  }

  /** The weight of one component: the default weight, times the
      histogram's and the sample's weights unless weighting is off. */
  function EffectiveWeight(reg: V.Registry, noweight: bool, hw: Option<V.Var>, sw: Option<V.Var>): (r: Result<V.Var>)
    ensures noweight || (hw.None? && sw.None?) ==> r == Ok(V.DefaultWeight(reg))
    ensures !noweight && r.Ok? && (hw.Some? || sw.Some?) ==> r.value.kind == V.WeightsOf
  {
    if noweight then Ok(V.DefaultWeight(reg))
    else
      var w1 := V.Mul(V.DefaultWeight(reg), hw);
      if w1.Err? then w1 else V.Mul(w1.value, sw)
  }

  lemma CardUnion(a: set<V.Container>, b: set<V.Container>)
    ensures |a| <= |a + b| && |b| <= |a + b|
  {
    assert a + b == a + (b - a);
    assert a + b == b + (a - b);
  }

  /** One `&` or `*` step with an optional operand: it fails exactly when
      the two operands use more than one multi-valued container between
      them, and otherwise uses the union of theirs. */
  lemma StepContainers(v: V.Var, o: Option<V.Var>, r: Result<V.Var>)
    requires |V.MvInConts(v)| <= 1
    requires r == V.And(v, o) || r == V.Mul(v, o)
    ensures r.Err? <==> |V.MvInConts(v) + MvOpt(o)| > 1
    ensures r.Ok? ==> V.MvInConts(r.value) == V.MvInConts(v) + MvOpt(o)
  {
    if o.None? {
      assert V.MvInConts(v) + MvOpt(o) == V.MvInConts(v);
    } else {
      V.AndContainers(v, o.value);
    }
  }

  /** Two steps in a row fail exactly when all three operands together use
      more than one multi-valued container. */
  lemma ChainContainers(d: V.Var, a: Option<V.Var>, b: Option<V.Var>, r1: Result<V.Var>, r: Result<V.Var>)
    requires |V.MvInConts(d)| <= 1
    requires r1 == V.And(d, a) || r1 == V.Mul(d, a)
    requires r1.Err? ==> r == r1
    requires r1.Ok? ==> r == V.And(r1.value, b) || r == V.Mul(r1.value, b)
    ensures r.Err? <==> |V.MvInConts(d) + MvOpt(a) + MvOpt(b)| > 1
    ensures r.Ok? ==> V.MvInConts(r.value) == V.MvInConts(d) + MvOpt(a) + MvOpt(b)
  {
    StepContainers(d, a, r1);
    CardUnion(V.MvInConts(d) + MvOpt(a), MvOpt(b));
    if r1.Ok? {
      StepContainers(r1.value, b, r);
    }
  }

  /** A selection exists exactly when its parts use at most one
      multi-valued container between them, and then it uses their union. */
  lemma SelContainers(reg: V.Registry, hsel: Option<V.Var>, ssel: Option<V.Var>)
    requires |V.MvInConts(V.DefaultCut(reg))| <= 1
    ensures EffectiveSel(reg, hsel, ssel).Err? <==> |V.MvInConts(V.DefaultCut(reg)) + MvOpt(hsel) + MvOpt(ssel)| > 1
    ensures EffectiveSel(reg, hsel, ssel).Ok? ==>
              V.MvInConts(EffectiveSel(reg, hsel, ssel).value) == V.MvInConts(V.DefaultCut(reg)) + MvOpt(hsel) + MvOpt(ssel)
  {
    var d := V.DefaultCut(reg);
    ChainContainers(d, hsel, ssel, V.And(d, hsel), EffectiveSel(reg, hsel, ssel));
  }

  /** A selection passes exactly when the default cut and every given part
      pass. */
  lemma SelPasses(reg: V.Registry, hsel: Option<V.Var>, ssel: Option<V.Var>, env: string -> real)
    requires EffectiveSel(reg, hsel, ssel).Ok?
    ensures (V.Eval(EffectiveSel(reg, hsel, ssel).value, env) != 0.0)
            <==> (V.Eval(V.DefaultCut(reg), env) != 0.0 && PassesOpt(hsel, env) && PassesOpt(ssel, env))
  {
    var d := V.DefaultCut(reg);
    var c1 := V.And(d, hsel).value;
    if hsel.Some? {
      V.AndMeaning(d, hsel.value, env);
    }
    assert (V.Eval(c1, env) != 0.0) <==> (V.Eval(d, env) != 0.0 && PassesOpt(hsel, env));
    if ssel.Some? {
      V.AndMeaning(c1, ssel.value, env);
    }
  }

  /** With weighting on, a weight exists exactly when its parts use at most
      one multi-valued container between them; with it off the weight is
      the default weight alone. */
  lemma WeightContainers(reg: V.Registry, noweight: bool, hw: Option<V.Var>, sw: Option<V.Var>)
    requires |V.MvInConts(V.DefaultWeight(reg))| <= 1
    ensures noweight ==> EffectiveWeight(reg, noweight, hw, sw) == Ok(V.DefaultWeight(reg))
    ensures !noweight ==>
              (EffectiveWeight(reg, noweight, hw, sw).Err? <==> |V.MvInConts(V.DefaultWeight(reg)) + MvOpt(hw) + MvOpt(sw)| > 1)
    ensures !noweight && EffectiveWeight(reg, noweight, hw, sw).Ok? ==>
              V.MvInConts(EffectiveWeight(reg, noweight, hw, sw).value) == V.MvInConts(V.DefaultWeight(reg)) + MvOpt(hw) + MvOpt(sw)
  {
    if !noweight {
      var d := V.DefaultWeight(reg);
      ChainContainers(d, hw, sw, V.Mul(d, hw), EffectiveWeight(reg, noweight, hw, sw));
    }
  }

  /** With weighting on, the weight is the product of the default weight
      and every given part. */
  lemma WeightProduct(reg: V.Registry, hw: Option<V.Var>, sw: Option<V.Var>, env: string -> real)
    requires EffectiveWeight(reg, false, hw, sw).Ok?
    ensures V.Eval(EffectiveWeight(reg, false, hw, sw).value, env)
            == V.Eval(V.DefaultWeight(reg), env) * WeightOpt(hw, env) * WeightOpt(sw, env)
  {
    TwoSteps(V.DefaultWeight(reg), hw, sw, env);
  }

  /** Multiplying in two optional parts multiplies their meanings. */
  lemma TwoSteps(d: V.Var, hw: Option<V.Var>, sw: Option<V.Var>, env: string -> real)
    requires V.Mul(d, hw).Ok? && V.Mul(V.Mul(d, hw).value, sw).Ok?
    ensures V.Eval(V.Mul(V.Mul(d, hw).value, sw).value, env) == V.Eval(d, env) * WeightOpt(hw, env) * WeightOpt(sw, env)
  {
    var w1 := V.Mul(d, hw).value;
    var a, h, w := V.Eval(d, env), WeightOpt(hw, env), WeightOpt(sw, env);
    var x, y := V.Eval(w1, env), V.Eval(V.Mul(w1, sw).value, env);
    assert x == a * h by { WeightStep(d, hw, env); }
    assert y == x * w by { WeightStep(w1, sw, env); }
    MulChain(a, h, w, x, y);
  }

  /** One factor more: an absent part multiplies by 1. */
  lemma WeightStep(a: V.Var, o: Option<V.Var>, env: string -> real)
    requires V.Mul(a, o).Ok?
    ensures V.Eval(V.Mul(a, o).value, env) == V.Eval(a, env) * WeightOpt(o, env)
  {
    if o.Some? {
      V.MulMeaning(a, o.value, env);
    }
  }

  /** A product built in two steps is the product of all three factors:
      stated apart so that the solver need not find it among the
      variables' meanings. */
  lemma MulChain(a: real, h: real, w: real, x: real, y: real)
    requires x == a * h && y == x * w
    ensures y == a * h * w
  {
  }


  // ---------------------------------------------------------------- inputs

  /** A view of a variable: the variable and the bin edges of the view. */
  datatype Axis = Axis(v: V.Var, xbins: seq<real>)

  /** A final (leaf) sample: its files, tree name, selection, weight and,
      when it has a scaler, the scale that scaler gives. */
  datatype Sample = Sample(
    name: string,
    files: seq<string>,
    treename: string,
    sel: Option<V.Var>,
    weight: Option<V.Var>,
    scale: Option<real>)

  /** A component histogram: its axis views, selection, weight and the
      final daughters of its sample. */
  datatype HistDef = HistDef(
    name: string,
    x: Option<Axis>,
    y: Option<Axis>,
    z: Option<Axis>,
    sel: Option<V.Var>,
    weight: Option<V.Var>,
    daughters: seq<Sample>)

  /** What the processor reads from the outside world. */
  datatype Env = Env(
    reg: V.Registry,
    noweight: bool,
    usecache: bool,
    eventFrac: Option<real>,             // already discretized
    expr: (string, V.Var) -> string,     // expression text after initialising on the file's tree
    binsRepr: seq<real> -> string,       // `str(xbins)`
    fracRepr: real -> string,            // the `04.0f` formatting
    nevents: (string, string) -> nat,    // `get_nevents` of a sample (by name) in a file
    fileHash: string -> string,          // `file_hash`
    home: string,
    cached: (string, string) -> bool)    // the cache file exists and holds the hash

  // ---------------------------------------------------------------- hist_hash

  /** The fraction a hash records: an unset (or zero) fraction counts as 1. */
  function HashFrac(ef: Option<real>): (r: real)
    ensures R.Truthy(ef) ==> r == ef.value
    ensures !R.Truthy(ef) ==> r == 1.0
  {
    if R.Truthy(ef) then ef.value else 1.0
  }

  function AxisText(e: Env, f: string, a: Option<Axis>): string {
    (if a.None? then "None" else e.expr(f, a.value.v) + e.binsRepr(a.value.xbins)) + "|"
  }

  /** `hist_hash`: the text its md5 digest is taken of. Digests are assumed
      collision-free, so the text stands for the digest. */
  function HistHash(e: Env, f: string, h: HistDef, sel: V.Var, wei: V.Var): (r: string)
    ensures S.StartsWith(r, AxisText(e, f, h.x))
    ensures S.EndsWith(r, "EvFrac" + e.fracRepr(HashFrac(e.eventFrac) * 1000.0))
  {
    AxisText(e, f, h.x) + AxisText(e, f, h.y) + AxisText(e, f, h.z)
    + e.expr(f, sel) + "|" + e.expr(f, wei) + "|"
    + "EvFrac" + e.fracRepr(HashFrac(e.eventFrac) * 1000.0)
  }

  /** Processing all events and processing a fraction of 1 share their
      cached histograms. */
  lemma HashFullFraction(e: Env, f: string, h: HistDef, sel: V.Var, wei: V.Var)
    ensures HistHash(e.(eventFrac := None), f, h, sel, wei) == HistHash(e.(eventFrac := Some(1.0)), f, h, sel, wei)
    ensures HistHash(e.(eventFrac := Some(0.0)), f, h, sel, wei) == HistHash(e.(eventFrac := Some(1.0)), f, h, sel, wei)
  {
  }

  /** The hash ends with the event fraction: two fractions whose formatted
      per-mille values differ give different hashes, whatever else agrees. */
  lemma HashSeesFraction(e: Env, f: string, h: HistDef, sel: V.Var, wei: V.Var, ef1: real, ef2: real)
    requires e.fracRepr(HashFrac(Some(ef1)) * 1000.0) != e.fracRepr(HashFrac(Some(ef2)) * 1000.0)
    ensures HistHash(e.(eventFrac := Some(ef1)), f, h, sel, wei) != HistHash(e.(eventFrac := Some(ef2)), f, h, sel, wei)
  {
    var e1 := e.(eventFrac := Some(ef1));
    var e2 := e.(eventFrac := Some(ef2));
    var t1 := e.fracRepr(HashFrac(Some(ef1)) * 1000.0);
    var t2 := e.fracRepr(HashFrac(Some(ef2)) * 1000.0);
    var a := HistHash(e1, f, h, sel, wei);
    var b := HistHash(e2, f, h, sel, wei);
    var p := AxisText(e, f, h.x) + AxisText(e, f, h.y) + AxisText(e, f, h.z)
             + e.expr(f, sel) + "|" + e.expr(f, wei) + "|" + "EvFrac";
    assert a == p + t1;
    assert b == p + t2;
    assert a[|p|..] == t1;
    assert b[|p|..] == t2;
  }

  // ---------------------------------------------------------------- HistCfg / SelectorCfg

  /** One axis of a histogram blueprint: expression text and edges. */
  datatype AxisCfg = AxisCfg(expr: string, bins: seq<real>)

  /** `HistCfg`: the blueprint of one LokiHist. */
  datatype HistCfg = HistCfg(
    hash: string,
    x: Option<AxisCfg>,
    y: Option<AxisCfg>,
    z: Option<AxisCfg>,
    sexpr: string,
    wexpr: string)

  function AxisCfgOf(e: Env, f: string, a: Option<Axis>): (r: Option<AxisCfg>)
    ensures r.None? <==> a.None?
    ensures r.Some? ==> r.value.bins == a.value.xbins && r.value.expr == e.expr(f, a.value.v)
  {
    if a.None? then None else Some(AxisCfg(e.expr(f, a.value.v), a.value.xbins))
  }

  /** The blueprint of a component histogram on file `f`. */
  function CfgOf(e: Env, f: string, h: HistDef, sel: V.Var, wei: V.Var): (r: HistCfg)
    ensures r.hash == HistHash(e, f, h, sel, wei)
    ensures r.x == AxisCfgOf(e, f, h.x) && r.y == AxisCfgOf(e, f, h.y) && r.z == AxisCfgOf(e, f, h.z)
    ensures r.sexpr == e.expr(f, sel) && r.wexpr == e.expr(f, wei)
  {
    HistCfg(HistHash(e, f, h, sel, wei), AxisCfgOf(e, f, h.x), AxisCfgOf(e, f, h.y), AxisCfgOf(e, f, h.z),
            e.expr(f, sel), e.expr(f, wei))
  }

  /** `SelectorCfg`. `hists` is the insertion-ordered dict keyed by hash;
      `fout` numbers the temporary output file. */
  datatype SelectorCfg = SelectorCfg(
    fin: string,
    fout: nat,
    fcache: string,
    tname: string,
    nevents: int,
    hists: seq<HistCfg>)

  predicate HasHash(hs: seq<HistCfg>, hash: string) {
    exists j :: 0 <= j < |hs| && hs[j].hash == hash
  }

  predicate UniqueHashes(hs: seq<HistCfg>) {
    forall i, j :: 0 <= i < j < |hs| ==> hs[i].hash != hs[j].hash
  }

  /** The blueprint stored under a hash, if any. */
  function Lookup(hs: seq<HistCfg>, hash: string): (r: Option<HistCfg>)
    ensures r.Some? <==> HasHash(hs, hash)
    ensures r.Some? ==> r.value.hash == hash && r.value in hs
  {
    if |hs| == 0 then None
    else if hs[0].hash == hash then Some(hs[0])
    else
      var r := Lookup(hs[1..], hash);
      assert HasHash(hs, hash) ==> HasHash(hs[1..], hash) by {
        if HasHash(hs, hash) {
          var j :| 0 <= j < |hs| && hs[j].hash == hash;
          assert j > 0 && hs[1..][j - 1] == hs[j];
        }
      }
      assert HasHash(hs[1..], hash) ==> HasHash(hs, hash) by {
        if HasHash(hs[1..], hash) {
          var j :| 0 <= j < |hs[1..]| && hs[1..][j].hash == hash;
          assert hs[j + 1] == hs[1..][j];
        }
      }
      r
  }

  /** `SelectorCfg.add`: the first blueprint stored under a hash stays. */
  function AddCfg(s: SelectorCfg, hc: HistCfg): (r: SelectorCfg)
    ensures r.(hists := s.hists) == s
    ensures s.hists <= r.hists
    ensures Lookup(r.hists, hc.hash) == (if HasHash(s.hists, hc.hash) then Lookup(s.hists, hc.hash) else Some(hc))
    ensures UniqueHashes(s.hists) ==> UniqueHashes(r.hists)
  {
    if HasHash(s.hists, hc.hash) then s
    else
      LookupAppend(s.hists, hc, hc.hash);
      s.(hists := s.hists + [hc])
  }

  lemma {:induction false} LookupAppend(hs: seq<HistCfg>, hc: HistCfg, hash: string)
    ensures Lookup(hs + [hc], hash) == (if HasHash(hs, hash) then Lookup(hs, hash) else if hc.hash == hash then Some(hc) else None)
  {
    if |hs| == 0 {
      assert !HasHash(hs, hash);
    } else {
      assert (hs + [hc])[0] == hs[0];
      assert (hs + [hc])[1..] == hs[1..] + [hc];
      LookupAppend(hs[1..], hc, hash);
      if hs[0].hash != hash {
        assert HasHash(hs, hash) == HasHash(hs[1..], hash) by {
          if HasHash(hs, hash) {
            var j :| 0 <= j < |hs| && hs[j].hash == hash;
            assert hs[1..][j - 1] == hs[j];
          }
          if HasHash(hs[1..], hash) {
            var j :| 0 <= j < |hs[1..]| && hs[1..][j].hash == hash;
            assert hs[j + 1] == hs[1..][j];
          }
        }
      } else {
        assert HasHash(hs, hash) by { assert hs[0].hash == hash; }
      }
    }
  }

  /** Adding the same blueprint twice is adding it once. */
  lemma AddCfgIdempotent(s: SelectorCfg, hc: HistCfg)
    ensures AddCfg(AddCfg(s, hc), hc) == AddCfg(s, hc)
  {
    var r := AddCfg(s, hc);
    assert HasHash(r.hists, hc.hash) by {
      assert Lookup(r.hists, hc.hash).Some?;
    }
  }

  /** Adding a blueprint leaves what is stored under every other hash. */
  lemma AddCfgOther(s: SelectorCfg, hc: HistCfg, hash: string)
    requires hash != hc.hash
    ensures Lookup(AddCfg(s, hc).hists, hash) == Lookup(s.hists, hash)
  {
    if !HasHash(s.hists, hc.hash) {
      LookupAppend(s.hists, hc, hash);
    }
  }

  // ---------------------------------------------------------------- process_selector

  /** Python truthiness of an optional expression text. */
  predicate Given(a: Option<AxisCfg>) {
    a.Some? && a.value.expr != ""
  }

  /** The LokiHist a blueprint configures: 3D when x, y and z are given,
      2D when x and y are, 1D when only x is; none otherwise. */
  function Dispatch(hc: HistCfg): (r: Option<L.LokiHist>)
    ensures r.None? <==> !Given(hc.x) || (Given(hc.z) && !Given(hc.y))
    ensures r.Some? ==> L.WellShaped(r.value) && L.Unbound(r.value)
    ensures r.Some? ==> r.value.hash == hc.hash && r.value.sel == hc.sexpr && r.value.wei == hc.wexpr
    ensures r.Some? ==> (L.Dim(r.value) == 3 <==> Given(hc.z))
    ensures r.Some? ==> (L.Dim(r.value) >= 2 <==> Given(hc.y))
    ensures r.Some? ==> r.value.vars[0] == hc.x.value.expr && r.value.bins[0] == hc.x.value.bins
    ensures r.Some? && Given(hc.y) ==> r.value.vars[1] == hc.y.value.expr && r.value.bins[1] == hc.y.value.bins
    ensures r.Some? && Given(hc.z) ==> r.value.vars[2] == hc.z.value.expr && r.value.bins[2] == hc.z.value.bins
  {
    if Given(hc.z) && Given(hc.y) && Given(hc.x) then
      Some(L.Hist3D(hc.hash, hc.x.value.expr, hc.x.value.bins, hc.y.value.expr, hc.y.value.bins,
                    hc.z.value.expr, hc.z.value.bins, hc.sexpr, hc.wexpr))
    else if Given(hc.y) && Given(hc.x) then
      Some(L.Hist2D(hc.hash, hc.x.value.expr, hc.x.value.bins, hc.y.value.expr, hc.y.value.bins, hc.sexpr, hc.wexpr))
    else if Given(hc.x) && !Given(hc.z) then
      Some(L.Hist1D(hc.hash, hc.x.value.expr, hc.x.value.bins, hc.sexpr, hc.wexpr))
    else None
  }

  /** The LokiHists of a selector's blueprints, in blueprint order. */
  function Build(hs: seq<HistCfg>): (r: seq<L.LokiHist>)
    ensures |r| <= |hs|
    ensures forall i :: 0 <= i < |r| ==> L.WellShaped(r[i])
  {
    if |hs| == 0 then []
    else
      var d := Dispatch(hs[0]);
      (if d.Some? then [d.value] else []) + Build(hs[1..])
  }

  /** Every blueprint that dispatches is built, and nothing else is. */
  lemma {:induction false} BuildMembers(hs: seq<HistCfg>, lh: L.LokiHist)
    ensures lh in Build(hs) <==> exists j :: 0 <= j < |hs| && Dispatch(hs[j]) == Some(lh)
  {
    if |hs| > 0 {
      BuildMembers(hs[1..], lh);
      if exists j :: 0 <= j < |hs[1..]| && Dispatch(hs[1..][j]) == Some(lh) {
        var j :| 0 <= j < |hs[1..]| && Dispatch(hs[1..][j]) == Some(lh);
        assert hs[j + 1] == hs[1..][j];
      }
      if exists j :: 0 <= j < |hs| && Dispatch(hs[j]) == Some(lh) {
        var j :| 0 <= j < |hs| && Dispatch(hs[j]) == Some(lh);
        if j > 0 {
          assert hs[1..][j - 1] == hs[j];
        }
      }
    }
  }

  /** `if not nevents`: zero (or unset) means the tree's maximum. */
  function EventLimit(n: int, kMaxEntries: int): (r: int)
    ensures n != 0 ==> r == n
    ensures n == 0 ==> r == kMaxEntries
  {
    if n == 0 then kMaxEntries else n
  }

  /** `process_selector`: a LokiSelector writing to the job's temporary
      file, with one LokiHist per dispatchable blueprint. */
  function ConfigureSelector(scfg: SelectorCfg, tmpName: nat -> string): (r: LS.Selector)
    ensures r.foutName == tmpName(scfg.fout)
    ensures forall d :: LS.List(r, d) == LS.OfDim(Build(scfg.hists), d)
    ensures LS.Sorted(r)
  {
    var hs := Build(scfg.hists);
    var s0 := LS.NewSelector(tmpName(scfg.fout));
    assert LS.Sorted(s0);
    forall d ensures LS.List(LS.AddAll(s0, hs), d) == LS.OfDim(hs, d) {
      LS.AddAllLists(s0, hs, d);
      assert LS.List(s0, d) == [];
    }
    LS.AddAllLists(s0, hs, 1);
    AddAllName(s0, hs);
    LS.AddAll(s0, hs)
  }

  lemma {:induction false} AddAllName(s: LS.Selector, hs: seq<L.LokiHist>)
    requires forall i :: 0 <= i < |hs| ==> L.WellShaped(hs[i])
    ensures LS.AddAll(s, hs).foutName == s.foutName
    decreases |hs|
  {
    if |hs| > 0 {
      AddAllName(LS.AddHist(s, hs[0]), hs[1..]);
    }
  }

  /** Every blueprint of the job that dispatches is registered with the
      selector, under the list of its dimension. */
  lemma ConfiguredHas(scfg: SelectorCfg, tmpName: nat -> string, j: nat)
    requires j < |scfg.hists| && Dispatch(scfg.hists[j]).Some?
    ensures var lh := Dispatch(scfg.hists[j]).value;
            lh in LS.List(ConfigureSelector(scfg, tmpName), L.Dim(lh))
  {
    var lh := Dispatch(scfg.hists[j]).value;
    var hs := Build(scfg.hists);
    BuildMembers(scfg.hists, lh);
    OfDimHas(hs, lh);
  }

  lemma {:induction false} OfDimHas(hs: seq<L.LokiHist>, lh: L.LokiHist)
    requires lh in hs
    ensures lh in LS.OfDim(hs, L.Dim(lh))
  {
    var i :| 0 <= i < |hs| && hs[i] == lh;
    assert hs == hs[..i] + [lh] + hs[i + 1..];
    LS.OfDimSplit(hs[..i], [lh], hs[i + 1..], L.Dim(lh));
    assert [lh][..0] == [];
  }

  // ---------------------------------------------------------------- grouping into selector jobs

  function AxisVars(h: HistDef): seq<V.Var> {
    (if h.x.Some? then [h.x.value.v] else []) + (if h.y.Some? then [h.y.value.v] else [])
    + (if h.z.Some? then [h.z.value.v] else [])
  }

  function MvUnion(vs: seq<V.Var>): set<V.Container> {
    if |vs| == 0 then {} else MvUnion(vs[..|vs| - 1]) + V.MvInConts(vs[|vs| - 1])
  }

  lemma {:induction false} MvUnionHas(vs: seq<V.Var>, i: nat)
    requires i < |vs|
    ensures V.MvInConts(vs[i]) <= MvUnion(vs)
  {
    if i < |vs| - 1 {
      MvUnionHas(vs[..|vs| - 1], i);
    }
  }

  /** The multi-valued containers a component reads (its axis variables,
      selection and weight). Python keys its selector groups by the one
      container or None; the set ({} or {c}) is that key here. */
  function GroupKey(h: HistDef, sel: V.Var, wei: V.Var): set<V.Container> {
    MvUnion(AxisVars(h) + [sel, wei])
  }

  /** Every variable of the component reads only containers of its group. */
  lemma GroupKeyCovers(h: HistDef, sel: V.Var, wei: V.Var)
    ensures forall v :: v in AxisVars(h) + [sel, wei] ==> V.MvInConts(v) <= GroupKey(h, sel, wei)
  {
    var vs := AxisVars(h) + [sel, wei];
    forall v | v in vs ensures V.MvInConts(v) <= GroupKey(h, sel, wei) {
      var i :| 0 <= i < |vs| && vs[i] == v;
      MvUnionHas(vs, i);
    }
  }

  /** A selector job under construction: its group key and configuration. */
  datatype Slot = Slot(key: set<V.Container>, cfg: SelectorCfg)

  /** All jobs in creation order, and the next temporary file number. */
  datatype Jobs = Jobs(slots: seq<Slot>, ntmp: nat)

  /** Where a component histogram is read back from: a job's temporary
      output or a cache file. */
  datatype Out = TmpOut(id: nat) | CacheOut(path: string)

  datatype Component = Component(out: Out, hash: string)

  /** A sample's entry in `h.components`. */
  datatype Entry = Entry(sample: Sample, comps: seq<Component>)

  /** `$HOME/.lokicache/<file hash>.root`. */
  function CachePath(e: Env, f: string): string {
    e.home + "/.lokicache/" + e.fileHash(f) + ".root"
  }

  /** One job per group and input file; distinct temporary outputs; each
      job's blueprints under distinct hashes; at most one multi-valued
      container per job. */
  predicate Inv(e: Env, jobs: Jobs) {
    (forall i, j :: 0 <= i < j < |jobs.slots| ==>
       jobs.slots[i].key != jobs.slots[j].key || jobs.slots[i].cfg.fin != jobs.slots[j].cfg.fin)
    && (forall i, j :: 0 <= i < j < |jobs.slots| ==> jobs.slots[i].cfg.fout != jobs.slots[j].cfg.fout)
    && (forall i :: 0 <= i < |jobs.slots| ==>
          jobs.slots[i].cfg.fout < jobs.ntmp && UniqueHashes(jobs.slots[i].cfg.hists) && |jobs.slots[i].key| <= 1
          && jobs.slots[i].cfg.fcache == CachePath(e, jobs.slots[i].cfg.fin))
  }

  predicate SlotGrows(a: Slot, b: Slot) {
    b.key == a.key && b.cfg.(hists := a.cfg.hists) == a.cfg && a.cfg.hists <= b.cfg.hists
  }

  /** Later job lists only add jobs and blueprints. */
  predicate Grows(a: Jobs, b: Jobs) {
    |a.slots| <= |b.slots| && a.ntmp <= b.ntmp
    && forall i :: 0 <= i < |a.slots| ==> SlotGrows(a.slots[i], b.slots[i])
  }

  lemma GrowsTrans(a: Jobs, b: Jobs, c: Jobs)
    requires Grows(a, b) && Grows(b, c)
    ensures Grows(a, c)
  {
    forall i | 0 <= i < |a.slots| ensures SlotGrows(a.slots[i], c.slots[i]) {
      assert SlotGrows(b.slots[i], c.slots[i]);
    }
  }

  /** A component read from a temporary output is produced there: some job
      writes to that file and holds a blueprint with its hash. */
  predicate Covered(c: Component, jobs: Jobs) {
    c.out.TmpOut? ==>
      exists i :: 0 <= i < |jobs.slots| && jobs.slots[i].cfg.fout == c.out.id && HasHash(jobs.slots[i].cfg.hists, c.hash)
  }

  lemma CoveredGrows(c: Component, a: Jobs, b: Jobs)
    requires Covered(c, a) && Grows(a, b)
    ensures Covered(c, b)
  {
    if c.out.TmpOut? {
      var i :| 0 <= i < |a.slots| && a.slots[i].cfg.fout == c.out.id && HasHash(a.slots[i].cfg.hists, c.hash);
      var j :| 0 <= j < |a.slots[i].cfg.hists| && a.slots[i].cfg.hists[j].hash == c.hash;
      assert SlotGrows(a.slots[i], b.slots[i]);
      assert b.slots[i].cfg.hists[j] == a.slots[i].cfg.hists[j];
    }
  }

  predicate EntriesCovered(es: seq<Entry>, jobs: Jobs) {
    forall k, m :: 0 <= k < |es| && 0 <= m < |es[k].comps| ==> Covered(es[k].comps[m], jobs)
  }

  lemma EntriesCoveredGrows(es: seq<Entry>, a: Jobs, b: Jobs)
    requires EntriesCovered(es, a) && Grows(a, b)
    ensures EntriesCovered(es, b)
  {
    forall k, m | 0 <= k < |es| && 0 <= m < |es[k].comps| ensures Covered(es[k].comps[m], b) {
      CoveredGrows(es[k].comps[m], a, b);
    }
  }

  /** The first job of a group for an input file. */
  function FindSlot(slots: seq<Slot>, key: set<V.Container>, f: string): (r: Option<nat>)
    ensures r.Some? ==> r.value < |slots| && slots[r.value].key == key && slots[r.value].cfg.fin == f
    ensures r.None? ==> forall i :: 0 <= i < |slots| ==> slots[i].key != key || slots[i].cfg.fin != f
  {
    if |slots| == 0 then None
    else
      var r := FindSlot(slots[..|slots| - 1], key, f);
      if r.Some? then r
      else if slots[|slots| - 1].key == key && slots[|slots| - 1].cfg.fin == f then Some(|slots| - 1)
      else None
  }

  /** The job of the group for file `f`, created on first use with the
      next temporary file, the cache path and the event count of `f`. */
  function Place(e: Env, jobs: Jobs, key: set<V.Container>, s: Sample, f: string): (r: (Jobs, nat))
    ensures r.1 < |r.0.slots| && r.0.slots[r.1].key == key && r.0.slots[r.1].cfg.fin == f
    ensures Grows(jobs, r.0)
  {
    var i := FindSlot(jobs.slots, key, f);
    if i.Some? then (jobs, i.value)
    else
      var cfg := SelectorCfg(f, jobs.ntmp, CachePath(e, f), s.treename,
                             EventsToProcess(e.eventFrac, e.nevents(s.name, f)), []);
      (Jobs(jobs.slots + [Slot(key, cfg)], jobs.ntmp + 1), |jobs.slots|)
  }

  /** A new job starts with no blueprints and the (fractional) event
      count of the sample that first needs the file. */
  lemma PlaceNew(e: Env, jobs: Jobs, key: set<V.Container>, s: Sample, f: string)
    requires FindSlot(jobs.slots, key, f).None?
    ensures var r := Place(e, jobs, key, s, f);
            r.1 == |jobs.slots| && r.0.slots[r.1].cfg.hists == [] && r.0.slots[r.1].cfg.fout == jobs.ntmp
            && r.0.slots[r.1].cfg.nevents == EventsToProcess(e.eventFrac, e.nevents(s.name, f))
            && r.0.slots[r.1].cfg.tname == s.treename
  {
  }

  lemma PlaceInv(e: Env, jobs: Jobs, key: set<V.Container>, s: Sample, f: string)
    requires Inv(e, jobs) && |key| <= 1
    ensures Inv(e, Place(e, jobs, key, s, f).0)
  {
    var i := FindSlot(jobs.slots, key, f);
    if i.None? {
      var r := Place(e, jobs, key, s, f).0;
      var n := |jobs.slots|;
      assert UniqueHashes(r.slots[n].cfg.hists);
      forall a, b | 0 <= a < b < |r.slots|
        ensures r.slots[a].key != r.slots[b].key || r.slots[a].cfg.fin != r.slots[b].cfg.fin
        ensures r.slots[a].cfg.fout != r.slots[b].cfg.fout
      {
        if b == n {
          assert r.slots[a] == jobs.slots[a];
        } else {
          assert r.slots[a] == jobs.slots[a] && r.slots[b] == jobs.slots[b];
        }
      }
    }
  }

  /** One component on one file: placed in its job; read from the cache
      when caching is on and the cache holds it, else added to the job. */
  function FileStep(e: Env, jobs: Jobs, key: set<V.Container>, s: Sample, hc: HistCfg, f: string): (r: (Jobs, Component))
    ensures r.1.hash == hc.hash
    ensures r.1.out.CacheOut? <==> e.usecache && e.cached(Place(e, jobs, key, s, f).0.slots[Place(e, jobs, key, s, f).1].cfg.fcache, hc.hash)
  {
    var p := Place(e, jobs, key, s, f);
    var cfg := p.0.slots[p.1].cfg;
    if e.usecache && e.cached(cfg.fcache, hc.hash) then (p.0, Component(CacheOut(cfg.fcache), hc.hash))
    else (p.0.(slots := p.0.slots[p.1 := Slot(key, AddCfg(cfg, hc))]), Component(TmpOut(cfg.fout), hc.hash))
  }

  lemma FileStepFacts(e: Env, jobs: Jobs, key: set<V.Container>, s: Sample, hc: HistCfg, f: string)
    requires Inv(e, jobs) && |key| <= 1
    ensures var r := FileStep(e, jobs, key, s, hc, f);
            Inv(e, r.0) && Grows(jobs, r.0) && Covered(r.1, r.0)
    ensures var r := FileStep(e, jobs, key, s, hc, f);
            r.1.out.CacheOut? ==> r.1.out.path == CachePath(e, f) && e.cached(CachePath(e, f), hc.hash)
  {
    var p := Place(e, jobs, key, s, f);
    PlaceInv(e, jobs, key, s, f);
    var cfg := p.0.slots[p.1].cfg;
    if !(e.usecache && e.cached(cfg.fcache, hc.hash)) {
      var r := FileStep(e, jobs, key, s, hc, f).0;
      var c2 := AddCfg(cfg, hc);
      assert r.slots == p.0.slots[p.1 := Slot(key, c2)];
      assert SlotGrows(p.0.slots[p.1], r.slots[p.1]);
      assert Grows(p.0, r);
      GrowsTrans(jobs, p.0, r);
      assert HasHash(c2.hists, hc.hash) by {
        assert Lookup(c2.hists, hc.hash).Some?;
      }
      assert r.slots[p.1].cfg.fout == cfg.fout;
      forall a, b | 0 <= a < b < |r.slots|
        ensures r.slots[a].key != r.slots[b].key || r.slots[a].cfg.fin != r.slots[b].cfg.fin
        ensures r.slots[a].cfg.fout != r.slots[b].cfg.fout
      {
        assert SlotGrows(p.0.slots[a], r.slots[a]) && SlotGrows(p.0.slots[b], r.slots[b]);
      }
      forall a | 0 <= a < |r.slots|
        ensures r.slots[a].cfg.fout < r.ntmp && UniqueHashes(r.slots[a].cfg.hists) && |r.slots[a].key| <= 1
        ensures r.slots[a].cfg.fcache == CachePath(e, r.slots[a].cfg.fin)
      {
        assert SlotGrows(p.0.slots[a], r.slots[a]);
      }
    }
  }

  /** One component over the files of a sample, in order. */
  function FilesStep(e: Env, jobs: Jobs, key: set<V.Container>, s: Sample, h: HistDef, sel: V.Var, wei: V.Var,
                     files: seq<string>): (r: (Jobs, seq<Component>))
    ensures |r.1| == |files|
    ensures forall m :: 0 <= m < |files| ==> r.1[m].hash == HistHash(e, files[m], h, sel, wei)
    decreases |files|
  {
    if |files| == 0 then (jobs, [])
    else
      var a := FileStep(e, jobs, key, s, CfgOf(e, files[0], h, sel, wei), files[0]);
      var b := FilesStep(e, a.0, key, s, h, sel, wei, files[1..]);
      (b.0, [a.1] + b.1)
  }

  lemma {:induction false} FilesStepFacts(e: Env, jobs: Jobs, key: set<V.Container>, s: Sample, h: HistDef,
                                          sel: V.Var, wei: V.Var, files: seq<string>)
    requires Inv(e, jobs) && |key| <= 1
    ensures var r := FilesStep(e, jobs, key, s, h, sel, wei, files);
            Inv(e, r.0) && Grows(jobs, r.0) && forall m :: 0 <= m < |r.1| ==> Covered(r.1[m], r.0)
    decreases |files|
  {
    if |files| > 0 {
      var hc := CfgOf(e, files[0], h, sel, wei);
      var a := FileStep(e, jobs, key, s, hc, files[0]);
      FileStepFacts(e, jobs, key, s, hc, files[0]);
      var b := FilesStep(e, a.0, key, s, h, sel, wei, files[1..]);
      FilesStepFacts(e, a.0, key, s, h, sel, wei, files[1..]);
      FilesStepCons(jobs, a, b);
    }
  }

  /** The facts of one file step followed by those of the rest. */
  lemma FilesStepCons(jobs: Jobs, a: (Jobs, Component), b: (Jobs, seq<Component>))
    requires Grows(jobs, a.0) && Covered(a.1, a.0)
    requires Grows(a.0, b.0) && forall m :: 0 <= m < |b.1| ==> Covered(b.1[m], b.0)
    ensures Grows(jobs, b.0) && forall m :: 0 <= m < |[a.1] + b.1| ==> Covered(([a.1] + b.1)[m], b.0)
  {
    GrowsTrans(jobs, a.0, b.0);
    CoveredGrows(a.1, a.0, b.0);
    forall m | 0 <= m < |[a.1] + b.1| ensures Covered(([a.1] + b.1)[m], b.0) {
      if m > 0 {
        assert ([a.1] + b.1)[m] == b.1[m - 1];
      }
    }
  }

  /** One sample of a component histogram: no entry when it has no files;
      an empty entry when its variables span two multi-valued containers;
      otherwise one component per file. Fails when `&` or `*` fails. */
  function SampleStep(e: Env, jobs: Jobs, h: HistDef, s: Sample): (r: Result<(Jobs, Option<seq<Component>>)>)
    ensures r.Ok? && r.value.1.Some? ==> |r.value.1.value| == 0 || |r.value.1.value| == |s.files|
    ensures r.Ok? ==> (r.value.1.None? <==> |s.files| == 0)
  {
    if |s.files| == 0 then Ok((jobs, None))
    else
      var sel := EffectiveSel(e.reg, h.sel, s.sel);
      if sel.Err? then Err(sel.error)
      else
        var wei := EffectiveWeight(e.reg, e.noweight, h.weight, s.weight);
        if wei.Err? then Err(wei.error)
        else
          var key := GroupKey(h, sel.value, wei.value);
          if |key| >= 2 then Ok((jobs, Some([])))
          else
            var b := FilesStep(e, jobs, key, s, h, sel.value, wei.value, s.files);
            Ok((b.0, Some(b.1)))
  }

  lemma SampleStepFacts(e: Env, jobs: Jobs, h: HistDef, s: Sample)
    requires Inv(e, jobs)
    ensures var r := SampleStep(e, jobs, h, s);
            r.Ok? ==> Inv(e, r.value.0) && Grows(jobs, r.value.0)
                      && (r.value.1.Some? ==> forall m :: 0 <= m < |r.value.1.value| ==> Covered(r.value.1.value[m], r.value.0))
  {
    if |s.files| > 0 {
      var sel := EffectiveSel(e.reg, h.sel, s.sel);
      var wei := EffectiveWeight(e.reg, e.noweight, h.weight, s.weight);
      if sel.Ok? && wei.Ok? {
        var key := GroupKey(h, sel.value, wei.value);
        if |key| < 2 {
          var b := FilesStep(e, jobs, key, s, h, sel.value, wei.value, s.files);
          FilesStepFacts(e, jobs, key, s, h, sel.value, wei.value, s.files);
          assert SampleStep(e, jobs, h, s) == Ok((b.0, Some(b.1)));
        } else {
          assert SampleStep(e, jobs, h, s) == Ok((jobs, Some([])));
        }
      }
    }
  }

  /** The samples of one component histogram, in order; the entries of
      `h.components`. */
  function HistStep(e: Env, jobs: Jobs, h: HistDef, ds: seq<Sample>): (r: Result<(Jobs, seq<Entry>)>)
    ensures r.Ok? ==> |r.value.1| <= |ds|
    decreases |ds|
  {
    if |ds| == 0 then Ok((jobs, []))
    else
      var a := SampleStep(e, jobs, h, ds[0]);
      if a.Err? then Err(a.error)
      else
        var b := HistStep(e, a.value.0, h, ds[1..]);
        if b.Err? then b
        else if a.value.1.None? then b
        else Ok((b.value.0, [Entry(ds[0], a.value.1.value)] + b.value.1))
  }

  lemma {:induction false} HistStepFacts(e: Env, jobs: Jobs, h: HistDef, ds: seq<Sample>)
    requires Inv(e, jobs)
    ensures var r := HistStep(e, jobs, h, ds);
            r.Ok? ==> Inv(e, r.value.0) && Grows(jobs, r.value.0) && EntriesCovered(r.value.1, r.value.0)
    decreases |ds|
  {
    if |ds| > 0 {
      var a := SampleStep(e, jobs, h, ds[0]);
      SampleStepFacts(e, jobs, h, ds[0]);
      if a.Ok? {
        var b := HistStep(e, a.value.0, h, ds[1..]);
        HistStepFacts(e, a.value.0, h, ds[1..]);
        if b.Ok? {
          HistStepCons(jobs, a.value.0, a.value.1, b.value, ds[0]);
        }
      }
    }
  }

  /** The facts of one sample step followed by those of the rest. */
  lemma HistStepCons(jobs: Jobs, a: Jobs, comps: Option<seq<Component>>, b: (Jobs, seq<Entry>), d: Sample)
    requires Grows(jobs, a)
    requires comps.Some? ==> forall m :: 0 <= m < |comps.value| ==> Covered(comps.value[m], a)
    requires Grows(a, b.0) && EntriesCovered(b.1, b.0)
    ensures Grows(jobs, b.0)
    ensures comps.Some? ==> EntriesCovered([Entry(d, comps.value)] + b.1, b.0)
  {
    GrowsTrans(jobs, a, b.0);
    if comps.Some? {
      var es := [Entry(d, comps.value)] + b.1;
      forall k, m | 0 <= k < |es| && 0 <= m < |es[k].comps| ensures Covered(es[k].comps[m], b.0) {
        if k == 0 {
          CoveredGrows(comps.value[m], a, b.0);
        } else {
          assert es[k] == b.1[k - 1];
        }
      }
    }
  }

  /** All component histograms, in order. */
  function AllStep(e: Env, jobs: Jobs, hs: seq<HistDef>): (r: Result<(Jobs, seq<seq<Entry>>)>)
    ensures r.Ok? ==> |r.value.1| == |hs|
    decreases |hs|
  {
    if |hs| == 0 then Ok((jobs, []))
    else
      var a := HistStep(e, jobs, hs[0], hs[0].daughters);
      if a.Err? then Err(a.error)
      else
        var b := AllStep(e, a.value.0, hs[1..]);
        if b.Err? then b
        else Ok((b.value.0, [a.value.1] + b.value.1))
  }

  lemma {:induction false} AllStepFacts(e: Env, jobs: Jobs, hs: seq<HistDef>)
    requires Inv(e, jobs)
    ensures var r := AllStep(e, jobs, hs);
            r.Ok? ==> Inv(e, r.value.0) && Grows(jobs, r.value.0)
                      && forall i :: 0 <= i < |hs| ==> EntriesCovered(r.value.1[i], r.value.0)
    decreases |hs|
  {
    if |hs| > 0 {
      var a := HistStep(e, jobs, hs[0], hs[0].daughters);
      HistStepFacts(e, jobs, hs[0], hs[0].daughters);
      if a.Ok? {
        var b := AllStep(e, a.value.0, hs[1..]);
        AllStepFacts(e, a.value.0, hs[1..]);
        if b.Ok? {
          assert AllStep(e, jobs, hs) == Ok((b.value.0, [a.value.1] + b.value.1));
          ConsCovered(jobs, a.value.0, b.value.0, a.value.1, b.value.1);
        }
      }
    }
  }

  /** The entries of a first histogram, made while the jobs grew from
      `jobs` to `mid`, stay covered ahead of the later ones. */
  lemma ConsCovered(jobs: Jobs, mid: Jobs, last: Jobs, first: seq<Entry>, rest: seq<seq<Entry>>)
    requires Grows(jobs, mid) && Grows(mid, last) && EntriesCovered(first, mid)
    requires forall i :: 0 <= i < |rest| ==> EntriesCovered(rest[i], last)
    ensures Grows(jobs, last)
    ensures forall i :: 0 <= i < |rest| + 1 ==> EntriesCovered(([first] + rest)[i], last)
  {
    GrowsTrans(jobs, mid, last);
    EntriesCoveredGrows(first, mid, last);
    forall i | 0 <= i < |rest| + 1 ensures EntriesCovered(([first] + rest)[i], last) {
      if i > 0 {
        assert ([first] + rest)[i] == rest[i - 1];
      }
    }
  }

  // ---------------------------------------------------------------- the selector list

  /** Group keys in order of first use (Python dict order). */
  function KeysOf(slots: seq<Slot>): (ks: seq<set<V.Container>>)
    ensures forall i :: 0 <= i < |slots| ==> slots[i].key in ks
  {
    if |slots| == 0 then []
    else
      var ks := KeysOf(slots[..|slots| - 1]);
      assert forall i :: 0 <= i < |slots| - 1 ==> slots[i] == slots[..|slots| - 1][i];
      if slots[|slots| - 1].key in ks then ks else ks + [slots[|slots| - 1].key]
  }

  /** The jobs of one group that have something to do, in creation order. */
  function InGroup(slots: seq<Slot>, key: set<V.Container>): (r: seq<SelectorCfg>)
    ensures forall c :: c in r ==> |c.hists| > 0 && exists i :: 0 <= i < |slots| && slots[i].cfg == c && slots[i].key == key
    ensures forall i :: 0 <= i < |slots| && slots[i].key == key && |slots[i].cfg.hists| > 0 ==> slots[i].cfg in r
  {
    if |slots| == 0 then []
    else
      var init := slots[..|slots| - 1];
      var last := slots[|slots| - 1];
      var r0 := InGroup(init, key);
      assert forall i :: 0 <= i < |slots| - 1 ==> slots[i] == init[i];
      r0 + (if last.key == key && |last.cfg.hists| > 0 then [last.cfg] else [])
  }

  function Flatten(slots: seq<Slot>, ks: seq<set<V.Container>>): (r: seq<SelectorCfg>)
    ensures forall c :: c in r ==> |c.hists| > 0 && exists i :: 0 <= i < |slots| && slots[i].cfg == c
    ensures forall i :: 0 <= i < |slots| && slots[i].key in ks && |slots[i].cfg.hists| > 0 ==> slots[i].cfg in r
  {
    if |ks| == 0 then []
    else
      var r1 := Flatten(slots, ks[1..]);
      assert forall k :: k in ks ==> k == ks[0] || k in ks[1..];
      InGroup(slots, ks[0]) + r1
  }

  /** The selector jobs that run, group by group: exactly the jobs left
      with at least one blueprint. */
  function Selectors(jobs: Jobs): (r: seq<SelectorCfg>)
    ensures forall c :: c in r ==> |c.hists| > 0 && exists i :: 0 <= i < |jobs.slots| && jobs.slots[i].cfg == c
    ensures forall i :: 0 <= i < |jobs.slots| && |jobs.slots[i].cfg.hists| > 0 ==> jobs.slots[i].cfg in r
  {
    Flatten(jobs.slots, KeysOf(jobs.slots))
  }

  /** `__get_selectors__`: the selector jobs to run and, per component
      histogram, where each of its parts is read back from. */
  function GetSelectors(e: Env, hs: seq<HistDef>): (r: Result<(seq<SelectorCfg>, seq<seq<Entry>>)>)
    ensures r.Ok? ==> |r.value.1| == |hs|
  {
    var a := AllStep(e, Jobs([], 0), hs);
    if a.Err? then Err(a.error) else Ok((Selectors(a.value.0), a.value.1))
  }

  /** Every part that is not read from the cache is written by one of the
      jobs that run: a job writing that temporary file holds its hash. */
  lemma GetSelectorsCovers(e: Env, hs: seq<HistDef>, i: nat, k: nat, m: nat)
    requires GetSelectors(e, hs).Ok?
    requires i < |hs| && k < |GetSelectors(e, hs).value.1[i]| && m < |GetSelectors(e, hs).value.1[i][k].comps|
    requires GetSelectors(e, hs).value.1[i][k].comps[m].out.TmpOut?
    ensures var c := GetSelectors(e, hs).value.1[i][k].comps[m];
            exists sc :: sc in GetSelectors(e, hs).value.0 && sc.fout == c.out.id && HasHash(sc.hists, c.hash)
  {
    var jobs0 := Jobs([], 0);
    AllStepFacts(e, jobs0, hs);
    var a := AllStep(e, jobs0, hs).value;
    assert EntriesCovered(a.1[i], a.0);
    SelectorsCover(a.0, a.1[i][k].comps[m]);
  }

  lemma SelectorsCover(J: Jobs, c: Component)
    requires Covered(c, J) && c.out.TmpOut?
    ensures exists sc :: sc in Selectors(J) && sc.fout == c.out.id && HasHash(sc.hists, c.hash)
  {
    var j :| 0 <= j < |J.slots| && J.slots[j].cfg.fout == c.out.id && HasHash(J.slots[j].cfg.hists, c.hash);
    assert J.slots[j].cfg in Selectors(J);
  }

  /** The jobs that run write to distinct temporary files, and each caches
      under its input file's hash. */
  lemma GetSelectorsDistinct(e: Env, hs: seq<HistDef>, c1: SelectorCfg, c2: SelectorCfg)
    requires GetSelectors(e, hs).Ok?
    requires c1 in GetSelectors(e, hs).value.0 && c2 in GetSelectors(e, hs).value.0
    ensures c1.fout == c2.fout ==> c1 == c2
    ensures c1.fcache == CachePath(e, c1.fin)
  {
    var jobs0 := Jobs([], 0);
    AllStepFacts(e, jobs0, hs);
    SelectorsDistinct(e, AllStep(e, jobs0, hs).value.0, c1, c2);
  }

  lemma SelectorsDistinct(e: Env, J: Jobs, c1: SelectorCfg, c2: SelectorCfg)
    requires Inv(e, J) && c1 in Selectors(J) && c2 in Selectors(J)
    ensures c1.fout == c2.fout ==> c1 == c2
    ensures c1.fcache == CachePath(e, c1.fin)
  {
    var i1 :| 0 <= i1 < |J.slots| && J.slots[i1].cfg == c1;
    var i2 :| 0 <= i2 < |J.slots| && J.slots[i2].cfg == c2;
    if i1 < i2 {
      assert c1.fout != c2.fout;
    } else if i2 < i1 {
      assert c1.fout != c2.fout;
    }
  }

  // ---------------------------------------------------------------- merging the outputs

  /** The scale applied to a sample's parts: its scaler's scale divided by
      the event fraction (when one is set), unless weighting is off or the
      sample has no scaler. */
  function SampleScale(noweight: bool, ef: Option<real>, scale: Option<real>): (r: Option<real>)
    ensures noweight || scale.None? ==> r.None?
    ensures !noweight && scale.Some? && !R.Truthy(ef) ==> r == scale
    ensures !noweight && scale.Some? && R.Truthy(ef) ==> r.Some? && r.value * ef.value == scale.value
  {
    if !noweight && scale.Some? then
      Some(if R.Truthy(ef) then scale.value / ef.value else scale.value)
    else None
  }

  function ScaleOf(e: Env, s: Sample): Option<real> {
    SampleScale(e.noweight, e.eventFrac, s.scale)
  }

  /** `if scale: o.Scale(scale)`: a zero or missing scale leaves a part as
      it is. */
  function Factor(sc: Option<real>): real {
    if R.Truthy(sc) then sc.value else 1.0
  }

  function Scaled(o: H.Hist, sc: Option<real>): (r: H.Hist)
    ensures r.axes == o.axes
  {
    if R.Truthy(sc) then H.Scale(o, sc.value) else o
  }

  lemma ScaledAt(o: H.Hist, sc: Option<real>, k: seq<nat>)
    ensures H.Get(Scaled(o, sc), k) == H.Get(o, k).Times(Factor(sc))
  {
    if R.Truthy(sc) {
      H.ScaleAt(o, sc.value, k);
    }
  }

  /** The parts of one sample, each read back, scaled and added in order. */
  function MergeParts(acc: H.Hist, cs: seq<Component>, sc: Option<real>, fetch: Component -> H.Hist): (r: H.Hist)
    requires forall j :: 0 <= j < |cs| ==> H.SameBinning(acc, fetch(cs[j]))
    ensures r.axes == acc.axes && r.name == acc.name
    decreases |cs|
  {
    if |cs| == 0 then acc
    else
      var o := Scaled(fetch(cs[0]), sc);
      assert H.SameBinning(acc, o) by {
        assert H.SameBinning(acc, fetch(cs[0]));
      }
      var acc1 := H.Add(acc, o);
      assert forall j :: 0 <= j < |cs[1..]| ==> H.SameBinning(acc1, fetch(cs[1..][j])) by {
        forall j | 0 <= j < |cs[1..]| ensures H.SameBinning(acc1, fetch(cs[1..][j])) {
          assert cs[1..][j] == cs[j + 1];
          assert H.SameBinning(acc, fetch(cs[j + 1]));
        }
      }
      MergeParts(acc1, cs[1..], sc, fetch)
  }

  /** What the parts of one sample contribute to a bin: the sum of their
      contents, each scaled. */
  function PartsCell(cs: seq<Component>, sc: Option<real>, fetch: Component -> H.Hist, k: seq<nat>): H.Cell
    decreases |cs|
  {
    if |cs| == 0 then H.EmptyCell
    else H.Get(fetch(cs[0]), k).Times(Factor(sc)).Plus(PartsCell(cs[1..], sc, fetch, k))
  }

  lemma {:induction false} MergePartsAt(acc: H.Hist, cs: seq<Component>, sc: Option<real>, fetch: Component -> H.Hist, k: seq<nat>)
    requires forall j :: 0 <= j < |cs| ==> H.SameBinning(acc, fetch(cs[j]))
    ensures H.Get(MergeParts(acc, cs, sc, fetch), k) == H.Get(acc, k).Plus(PartsCell(cs, sc, fetch, k))
    decreases |cs|
  {
    if |cs| == 0 {
      H.PlusEmpty(H.Get(acc, k));
    } else {
      var o := Scaled(fetch(cs[0]), sc);
      var acc1 := H.Add(acc, o);
      MergePartsAt(acc1, cs[1..], sc, fetch, k);
      H.AddAt(acc, o, k);
      ScaledAt(fetch(cs[0]), sc, k);
      H.PlusAssociates(H.Get(acc, k), H.Get(o, k), PartsCell(cs[1..], sc, fetch, k));
    }
  }

  /** A sample's parts scaled by c contribute c times their plain sum. */
  lemma {:induction false} PartsCellScaled(cs: seq<Component>, c: real, fetch: Component -> H.Hist, k: seq<nat>)
    requires c != 0.0
    ensures PartsCell(cs, Some(c), fetch, k) == PartsCell(cs, None, fetch, k).Times(c)
    decreases |cs|
  {
    if |cs| > 0 {
      PartsCellScaled(cs[1..], c, fetch, k);
      var x := H.Get(fetch(cs[0]), k);
      var rest := PartsCell(cs[1..], None, fetch, k);
      assert x.Times(1.0) == x;
      H.TimesDistributes(x, rest, c);
    } else {
      assert H.EmptyCell.Times(c) == H.EmptyCell;
    }
  }

  predicate Fits(acc: H.Hist, es: seq<Entry>, fetch: Component -> H.Hist) {
    forall k, j :: 0 <= k < |es| && 0 <= j < |es[k].comps| ==> H.SameBinning(acc, fetch(es[k].comps[j]))
  }

  /** `__finalize_outputs__` for one component histogram: starting from the
      booked (empty) histogram, every sample's parts are added in order. */
  function Finalize(e: Env, acc: H.Hist, es: seq<Entry>, fetch: Component -> H.Hist): (r: H.Hist)
    requires Fits(acc, es, fetch)
    ensures r.axes == acc.axes && r.name == acc.name
    decreases |es|
  {
    if |es| == 0 then acc
    else
      var m := MergeParts(acc, es[0].comps, ScaleOf(e, es[0].sample), fetch);
      assert Fits(m, es[1..], fetch) by {
        forall k, j | 0 <= k < |es[1..]| && 0 <= j < |es[1..][k].comps|
          ensures H.SameBinning(m, fetch(es[1..][k].comps[j]))
        {
          assert es[1..][k] == es[k + 1];
        }
      }
      Finalize(e, m, es[1..], fetch)
  }

  /** Reference: the content of a bin summed over all samples and parts. */
  function EntriesCell(e: Env, es: seq<Entry>, fetch: Component -> H.Hist, k: seq<nat>): H.Cell
    decreases |es|
  {
    if |es| == 0 then H.EmptyCell
    else PartsCell(es[0].comps, ScaleOf(e, es[0].sample), fetch, k).Plus(EntriesCell(e, es[1..], fetch, k))
  }

  lemma {:induction false} FinalizeAt(e: Env, acc: H.Hist, es: seq<Entry>, fetch: Component -> H.Hist, k: seq<nat>)
    requires Fits(acc, es, fetch)
    ensures H.Get(Finalize(e, acc, es, fetch), k) == H.Get(acc, k).Plus(EntriesCell(e, es, fetch, k))
    decreases |es|
  {
    if |es| == 0 {
      H.PlusEmpty(H.Get(acc, k));
    } else {
      var sc := ScaleOf(e, es[0].sample);
      var m := MergeParts(acc, es[0].comps, sc, fetch);
      assert Fits(m, es[1..], fetch) by {
        forall kk, j | 0 <= kk < |es[1..]| && 0 <= j < |es[1..][kk].comps|
          ensures H.SameBinning(m, fetch(es[1..][kk].comps[j]))
        {
          assert es[1..][kk] == es[kk + 1];
        }
      }
      MergePartsAt(acc, es[0].comps, sc, fetch, k);
      FinalizeAt(e, m, es[1..], fetch, k);
      H.PlusAssociates(H.Get(acc, k), PartsCell(es[0].comps, sc, fetch, k), EntriesCell(e, es[1..], fetch, k));
    }
  }

  /** Merged into a freshly booked histogram, each bin holds exactly the
      sum over samples of their parts' contents, each sample's parts
      scaled by its scale. */
  lemma FinalizeFromEmpty(e: Env, acc: H.Hist, es: seq<Entry>, fetch: Component -> H.Hist, k: seq<nat>)
    requires Fits(acc, es, fetch)
    requires H.Get(acc, k) == H.EmptyCell
    ensures H.Get(Finalize(e, acc, es, fetch), k) == EntriesCell(e, es, fetch, k)
  {
    FinalizeAt(e, acc, es, fetch, k);
    H.PlusEmpty(EntriesCell(e, es, fetch, k));
  }

  /** Reference without any scaling: the plain sum of all parts. */
  function PlainCell(es: seq<Entry>, fetch: Component -> H.Hist, k: seq<nat>): H.Cell
    decreases |es|
  {
    if |es| == 0 then H.EmptyCell
    else PartsCell(es[0].comps, None, fetch, k).Plus(PlainCell(es[1..], fetch, k))
  }

  /** Without weights nothing is scaled: a bin is the plain sum of the
      parts, whatever the samples' scalers say. */
  lemma {:induction false} UnweightedSum(e: Env, es: seq<Entry>, fetch: Component -> H.Hist, k: seq<nat>)
    requires e.noweight
    ensures EntriesCell(e, es, fetch, k) == PlainCell(es, fetch, k)
    decreases |es|
  {
    if |es| > 0 {
      UnweightedSum(e, es[1..], fetch, k);
    }
  }

  /** Samples without a scaler are added as they are, also with weights. */
  lemma {:induction false} UnscaledSum(e: Env, es: seq<Entry>, fetch: Component -> H.Hist, k: seq<nat>)
    requires forall i :: 0 <= i < |es| ==> es[i].sample.scale.None?
    ensures EntriesCell(e, es, fetch, k) == PlainCell(es, fetch, k)
    decreases |es|
  {
    if |es| > 0 {
      assert es[0].sample.scale.None?;
      assert forall i :: 0 <= i < |es[1..]| ==> es[1..][i].sample.scale.None? by {
        forall i | 0 <= i < |es[1..]| ensures es[1..][i].sample.scale.None? {
          assert es[1..][i] == es[i + 1];
        }
      }
      UnscaledSum(e, es[1..], fetch, k);
    }
  }

  // ---------------------------------------------------------------- cache accounting

  /** `__cache_selector__` as written: (hists copied, hists in the job). */
  function CacheSelector(copied: seq<bool>): (r: (nat, nat))
    ensures r.0 <= r.1 && r.1 == |copied|
  {
    (CountTrue(copied), |copied|)
  }

  function CountTrue(bs: seq<bool>): (n: nat)
    ensures n <= |bs|
  {
    if |bs| == 0 then 0 else (if bs[0] then 1 else 0) + CountTrue(bs[1..])
  }

  /** The caller's tallies (total, cached) as written: it unpacks the pair
      as (total, cached), the reverse of the order it is returned in. */
  function TallyAsWritten(tot: nat, cached: nat, copied: seq<bool>): (r: (nat, nat))
    ensures r.0 + r.1 == tot + cached + |copied| + CountTrue(copied)
  {
    var p := CacheSelector(copied);
    var ntot := p.0;
    var ncache := p.1;
    (tot + ntot, cached + ncache)
  }

  /** The tallies as intended: totals count the job's hists, cached count
      those copied. */
  function Tally(tot: nat, cached: nat, copied: seq<bool>): (r: (nat, nat))
    ensures cached <= tot ==> r.1 <= r.0
    ensures r.0 == tot + |copied|
  {
    var p := CacheSelector(copied);
    (tot + p.1, cached + p.0)
  }

  /** A job with two hists, one of which could not be copied: as written the
      summary reports more cached hists than there are in total. */
  lemma TallySwapped()
    ensures TallyAsWritten(0, 0, [true, false]) == (1, 2)
    ensures Tally(0, 0, [true, false]) == (2, 1)
  {
    assert CountTrue([true, false]) == 1 by {
      assert [true, false][1..] == [false];
      assert [false][1..] == [];
    }
  }
}
