/** The older processor (`_depr_process.py`): one `HistJob` per component
    histogram and input file, each drawing with a `TTree::Draw`-style
    variable string, weight string and option string, then post-scaled and
    summed per histogram. */
module DeprProcess {
  import opened Wrappers
  import H = Histogram
  import S = Strings
  import V = Vars
  import P = Process

  // ---------------------------------------------------------------- worker count

  /** Here an unset `ncores` means every core. */
  function NCores(ncores: Option<int>, cpu: nat): (r: int)
    ensures cpu >= 1 ==> 1 <= r <= cpu
    ensures ncores.None? || ncores.value == 0 ==> r == cpu
    ensures ncores.Some? && 0 < ncores.value <= cpu ==> r == ncores.value
    ensures ncores.Some? && ncores.value < 0 && cpu + ncores.value >= 1 ==> r == cpu + ncores.value
  {
    if ncores.None? || ncores.value == 0 then cpu
    else if ncores.value < 0 then P.Max(1, cpu + ncores.value)
    else P.Min(ncores.value, cpu)
  }

  /** The two processors agree except for an unset setting. */
  lemma NCoresAgree(ncores: Option<int>, cpu: nat)
    requires ncores.Some? && ncores.value != 0
    ensures NCores(ncores, cpu) == P.NCores(ncores, cpu)
  {
  }

  // ---------------------------------------------------------------- jobs

  /** A job: its id, the index of its component histogram, the sample and
      the input file. */
  datatype Job = Job(jid: nat, hist: nat, sample: P.Sample, fname: string)

  /** Ids are positions in the job table. */
  predicate Sequential(jobs: seq<Job>) {
    forall i :: 0 <= i < |jobs| ==> jobs[i].jid == i
  }

  /** `__create_job__`: the id is the number of jobs so far. */
  function CreateJob(jobs: seq<Job>, hist: nat, s: P.Sample, f: string): (r: (seq<Job>, nat))
    ensures r.1 == |jobs| && r.0 == jobs + [Job(r.1, hist, s, f)]
    ensures Sequential(jobs) ==> Sequential(r.0)
  {
    (jobs + [Job(|jobs|, hist, s, f)], |jobs|)
  }

  /** One job per file of a sample, in order. */
  function SpawnFiles(jobs: seq<Job>, hist: nat, s: P.Sample, files: seq<string>): (r: (seq<Job>, seq<nat>))
    ensures |r.0| == |jobs| + |files| && jobs <= r.0
    ensures r.1 == seq(|files|, i => |jobs| + i)
    ensures forall i :: |jobs| <= i < |r.0| ==> r.0[i].hist == hist && r.0[i].fname == files[i - |jobs|]
    ensures Sequential(jobs) ==> Sequential(r.0)
    decreases |files|
  {
    if |files| == 0 then (jobs, [])
    else
      var a := CreateJob(jobs, hist, s, files[0]);
      var b := SpawnFiles(a.0, hist, s, files[1..]);
      assert forall i :: |a.0| <= i < |b.0| ==> b.0[i].fname == files[i - |jobs|] by {
        forall i | |a.0| <= i < |b.0| ensures b.0[i].fname == files[i - |jobs|] {
          assert files[1..][i - |a.0|] == files[i - |jobs|];
        }
      }
      (b.0, [a.1] + b.1)
  }

  /** One job per file of every final daughter, in order. */
  function SpawnHist(jobs: seq<Job>, hist: nat, ds: seq<P.Sample>): (r: (seq<Job>, seq<nat>))
    ensures |r.0| == |jobs| + |r.1| && jobs <= r.0
    ensures r.1 == seq(|r.1|, i => |jobs| + i)
    ensures forall i :: |jobs| <= i < |r.0| ==> r.0[i].hist == hist
    ensures Sequential(jobs) ==> Sequential(r.0)
    decreases |ds|
  {
    if |ds| == 0 then (jobs, [])
    else
      var a := SpawnFiles(jobs, hist, ds[0], ds[0].files);
      var b := SpawnHist(a.0, hist, ds[1..]);
      (b.0, a.1 + b.1)
  }

  /** A job's histogram name, `h_<jid>`. */
  function JobName(jid: nat): string {
    "h_" + S.NatToString(jid)
  }

  /** Distinct jobs draw into distinct histograms. */
  lemma JobNamesDistinct(i: nat, j: nat)
    requires i != j
    ensures JobName(i) != JobName(j)
  {
    S.NatToStringRoundTrip(i);
    S.NatToStringRoundTrip(j);
    assert JobName(i)[2..] == S.NatToString(i);
    assert JobName(j)[2..] == S.NatToString(j);
  }

  // ---------------------------------------------------------------- draw strings

  /** `__init_varstr__`: "z:y:x", "y:x" or "x" from the initialised
      expressions. A z axis without a y axis, or no x axis, fails. */
  function VarStr(x: Option<V.Var>, y: Option<V.Var>, z: Option<V.Var>, resolve: string -> string): (r: Result<string>)
  {
    if x.None? then Err(Fatal("no x variable"))
    else
      var xt := V.Text(x.value, resolve);
      var yt := if y.Some? then V.Text(y.value, resolve) else Ok("");
      var zt := if z.Some? then V.Text(z.value, resolve) else Ok("");
      if xt.Err? then Err(xt.error)
      else if yt.Err? then Err(yt.error)
      else if zt.Err? then Err(zt.error)
      else if z.Some? then
        if y.None? then Err(Fatal("z variable without y variable"))
        else Ok(zt.value + ":" + yt.value + ":" + xt.value)
      else if y.Some? then Ok(yt.value + ":" + xt.value)
      else Ok(xt.value)
  }

  /** The axis texts, last axis first. */
  function AxisTexts(x: V.Var, y: Option<V.Var>, z: Option<V.Var>, resolve: string -> string): seq<string>
    requires V.Text(x, resolve).Ok?
    requires y.Some? ==> V.Text(y.value, resolve).Ok?
    requires z.Some? ==> V.Text(z.value, resolve).Ok?
  {
    (if z.Some? then [V.Text(z.value, resolve).value] else [])
    + (if y.Some? then [V.Text(y.value, resolve).value] else [])
    + [V.Text(x, resolve).value]
  }

  /** Splitting the variable string at ':' gives the axis expressions back,
      z first, as long as none of them contains a ':'. */
  lemma VarStrSplit(x: V.Var, y: Option<V.Var>, z: Option<V.Var>, resolve: string -> string)
    requires V.Text(x, resolve).Ok?
    requires y.Some? ==> V.Text(y.value, resolve).Ok?
    requires z.Some? ==> V.Text(z.value, resolve).Ok? && y.Some?
    requires forall t :: t in AxisTexts(x, y, z, resolve) ==> ':' !in t
    ensures VarStr(Some(x), y, z, resolve).Ok?
    ensures S.Split(VarStr(Some(x), y, z, resolve).value, ':') == AxisTexts(x, y, z, resolve)
  {
    var ts := AxisTexts(x, y, z, resolve);
    VarStrJoin(x, y, z, resolve);
    forall i | 0 <= i < |ts| ensures ':' !in ts[i] {
      assert ts[i] in ts;
    }
    S.JoinSplit(ts, ':');
  }

  /** The variable string is the axis texts joined by ':'. */
  lemma VarStrJoin(x: V.Var, y: Option<V.Var>, z: Option<V.Var>, resolve: string -> string)
    requires V.Text(x, resolve).Ok?
    requires y.Some? ==> V.Text(y.value, resolve).Ok?
    requires z.Some? ==> V.Text(z.value, resolve).Ok? && y.Some?
    ensures VarStr(Some(x), y, z, resolve) == Ok(S.Join([':'], AxisTexts(x, y, z, resolve)))
  {
    var xt := V.Text(x, resolve).value;
    if z.Some? {
      var yt := V.Text(y.value, resolve).value;
      var zt := V.Text(z.value, resolve).value;
      assert AxisTexts(x, y, z, resolve) == [zt, yt, xt];
      JoinColon3(zt, yt, xt);
    } else if y.Some? {
      var yt := V.Text(y.value, resolve).value;
      assert AxisTexts(x, y, z, resolve) == [yt, xt];
      JoinColon2(yt, xt);
    } else {
      assert AxisTexts(x, y, z, resolve) == [xt];
    }
  }

  lemma JoinColon2(a: string, b: string)
    ensures S.Join([':'], [a, b]) == a + ":" + b
  {
    assert [a, b][1..] == [b];
    assert ":" == [':'];
  }

  lemma JoinColon3(a: string, b: string, c: string)
    ensures S.Join([':'], [a, b, c]) == a + ":" + b + ":" + c
  {
    assert [a, b, c][1..] == [b, c];
    JoinColon2(b, c);
    assert ":" == [':'];
  }

  /** `__init_optstr__`: colour drawing for 2D histograms only. */
  function OptStr(hasY: bool, hasZ: bool): (r: string)
    ensures r == "COL" <==> hasY && !hasZ
    ensures r != "COL" ==> r == ""
  {
    if hasY && !hasZ then "COL" else ""
  }

  /** `__init_weightstr__`: the combined selection times the combined
      weight, as one expression. */
  function WeightVar(reg: V.Registry, noweight: bool, h: P.HistDef, s: P.Sample): Result<V.Var> {
    var sel := P.EffectiveSel(reg, h.sel, s.sel);
    if sel.Err? then Err(sel.error)
    else
      var wei := P.EffectiveWeight(reg, noweight, h.weight, s.weight);
      if wei.Err? then Err(wei.error)
      else V.Mul(sel.value, Some(wei.value))
  }

  function WeightStr(reg: V.Registry, noweight: bool, h: P.HistDef, s: P.Sample, resolve: string -> string): Result<string> {
    var c := WeightVar(reg, noweight, h, s);
    if c.Err? then Err(c.error) else V.Text(c.value, resolve)
  }

  /** The weight string is "(selection)*(weight)". */
  lemma WeightStrShape(reg: V.Registry, noweight: bool, h: P.HistDef, s: P.Sample, resolve: string -> string)
    requires WeightVar(reg, noweight, h, s).Ok?
    requires V.Text(P.EffectiveSel(reg, h.sel, s.sel).value, resolve).Ok?
    requires V.Text(P.EffectiveWeight(reg, noweight, h.weight, s.weight).value, resolve).Ok?
    ensures WeightStr(reg, noweight, h, s, resolve)
            == Ok("(" + V.Text(P.EffectiveSel(reg, h.sel, s.sel).value, resolve).value + ")" + "*"
                  + "(" + V.Text(P.EffectiveWeight(reg, noweight, h.weight, s.weight).value, resolve).value + ")")
  {
    var sel := P.EffectiveSel(reg, h.sel, s.sel).value;
    var wei := P.EffectiveWeight(reg, noweight, h.weight, s.weight).value;
    V.MulText(sel, wei, resolve);
  }

  /** The weight expression is the product of the combined selection and
      the combined weight, so by `Vars.MulMeaning` its value is theirs
      multiplied. */
  lemma WeightVarIsProduct(reg: V.Registry, noweight: bool, h: P.HistDef, s: P.Sample)
    requires WeightVar(reg, noweight, h, s).Ok?
    ensures P.EffectiveSel(reg, h.sel, s.sel).Ok? && P.EffectiveWeight(reg, noweight, h.weight, s.weight).Ok?
    ensures WeightVar(reg, noweight, h, s)
            == V.Mul(P.EffectiveSel(reg, h.sel, s.sel).value, Some(P.EffectiveWeight(reg, noweight, h.weight, s.weight).value))
  {
  }

  // ---------------------------------------------------------------- initialisation

  /** What `initialize` fixes for a job. */
  datatype JobInit = JobInit(name: string, varstr: string, weightstr: string, optstr: string, nevents: int, scale: Option<real>)

  /** `HistJob.initialize`: fails when a variable cannot be initialised on
      the tree (or the histogram has no x axis). */
  function Initialize(reg: V.Registry, noweight: bool, ef: Option<real>, j: Job, h: P.HistDef,
                      resolve: string -> string, nevents: nat): (r: Result<JobInit>)
    ensures r.Ok? ==> r.value.name == JobName(j.jid)
    ensures r.Ok? ==> r.value.scale == P.SampleScale(noweight, ef, j.sample.scale)
    ensures r.Ok? ==> r.value.nevents == P.EventsToProcess(ef, nevents)
    ensures r.Ok? ==> (r.value.optstr == "COL" <==> h.y.Some? && h.z.None?)
    ensures h.x.None? ==> r.Err?
  {
    var xv := if h.x.Some? then Some(h.x.value.v) else None;
    var yv := if h.y.Some? then Some(h.y.value.v) else None;
    var zv := if h.z.Some? then Some(h.z.value.v) else None;
    var vs := VarStr(xv, yv, zv, resolve);
    if vs.Err? then Err(vs.error)
    else
      var ws := WeightStr(reg, noweight, h, j.sample, resolve);
      if ws.Err? then Err(ws.error)
      else Ok(JobInit(JobName(j.jid), vs.value, ws.value, OptStr(h.y.Some?, h.z.Some?),
                      P.EventsToProcess(ef, nevents), P.SampleScale(noweight, ef, j.sample.scale)))
  }

  // ---------------------------------------------------------------- merge

  /** Post-processing and merge: every job output scaled by its job's scale
      (when set and nonzero) and added, in job order, to the booked hist. */
  function MergeJobs(acc: H.Hist, outs: seq<(Option<real>, H.Hist)>): (r: H.Hist)
    requires forall i :: 0 <= i < |outs| ==> H.SameBinning(acc, outs[i].1)
    ensures r.axes == acc.axes && r.name == acc.name
    decreases |outs|
  {
    if |outs| == 0 then acc
    else
      var o := P.Scaled(outs[0].1, outs[0].0);
      assert H.SameBinning(acc, o) by {
        assert H.SameBinning(acc, outs[0].1);
      }
      var acc1 := H.Add(acc, o);
      assert forall i :: 0 <= i < |outs[1..]| ==> H.SameBinning(acc1, outs[1..][i].1) by {
        forall i | 0 <= i < |outs[1..]| ensures H.SameBinning(acc1, outs[1..][i].1) {
          assert outs[1..][i] == outs[i + 1];
          assert H.SameBinning(acc, outs[i + 1].1);
        }
      }
      MergeJobs(acc1, outs[1..])
  }

  /** Reference: the scaled contents of the job outputs, summed. */
  function JobsCell(outs: seq<(Option<real>, H.Hist)>, k: seq<nat>): H.Cell
    decreases |outs|
  {
    if |outs| == 0 then H.EmptyCell
    else H.Get(outs[0].1, k).Times(P.Factor(outs[0].0)).Plus(JobsCell(outs[1..], k))
  }

  lemma {:induction false} MergeJobsAt(acc: H.Hist, outs: seq<(Option<real>, H.Hist)>, k: seq<nat>)
    requires forall i :: 0 <= i < |outs| ==> H.SameBinning(acc, outs[i].1)
    ensures H.Get(MergeJobs(acc, outs), k) == H.Get(acc, k).Plus(JobsCell(outs, k))
    decreases |outs|
  {
    if |outs| == 0 {
      H.PlusEmpty(H.Get(acc, k));
    } else {
      var o := P.Scaled(outs[0].1, outs[0].0);
      assert H.SameBinning(acc, outs[0].1);
      var acc1 := H.Add(acc, o);
      assert forall i :: 0 <= i < |outs[1..]| ==> H.SameBinning(acc1, outs[1..][i].1) by {
        forall i | 0 <= i < |outs[1..]| ensures H.SameBinning(acc1, outs[1..][i].1) {
          assert outs[1..][i] == outs[i + 1];
          assert H.SameBinning(acc, outs[i + 1].1);
        }
      }
      MergeJobsAt(acc1, outs[1..], k);
      H.AddAt(acc, o, k);
      P.ScaledAt(outs[0].1, outs[0].0, k);
      H.PlusAssociates(H.Get(acc, k), H.Get(o, k), JobsCell(outs[1..], k));
    }
  }

  /** Merged into a freshly booked histogram, a bin holds the scaled sum of
      the job outputs. */
  lemma MergeFromEmpty(acc: H.Hist, outs: seq<(Option<real>, H.Hist)>, k: seq<nat>)
    requires forall i :: 0 <= i < |outs| ==> H.SameBinning(acc, outs[i].1)
    requires H.Get(acc, k) == H.EmptyCell
    ensures H.Get(MergeJobs(acc, outs), k) == JobsCell(outs, k)
  {
    MergeJobsAt(acc, outs, k);
    H.PlusEmpty(JobsCell(outs, k));
  }
}
