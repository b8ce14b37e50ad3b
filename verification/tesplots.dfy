/** The tau energy scale resolution plots: which profile plots
    `create_res_profiles` makes, named how, holding which profiles, over
    which y-range. Variables, samples and selections appear by name; the
    profiles and plots themselves are the histogram and plot models'
    business. */
module TesPlots {
  import opened Wrappers

  // ---------------------------------------------------------------- y-range

  /** The profile modes whose y-range is narrowed around the variable's
      centre. */
  predicate Centred(mode: string) {
    mode == "median" || mode == "mode" || mode == "winmode"
  }

  /** `get_corrected_yrange(var, mode)` for a variable over `[lo, hi]`:
      for a centred mode, a fifth of the range around its middle;
      otherwise no range (`(None, None)`). */
  function YRange(lo: real, hi: real, mode: string): (r: Option<(real, real)>)
    ensures r.Some? <==> Centred(mode)
    ensures r.Some? ==> r.value.0 + r.value.1 == lo + hi
    ensures r.Some? ==> r.value.1 - r.value.0 == (hi - lo) / 5.0
  {
    if Centred(mode) then
      var width := hi - lo;
      var center := (hi + lo) / 2.0;
      Some((center - width / 10.0, center + width / 10.0))
    else None
  }

  /** The narrowed range sits inside the variable's range, never upside
      down, and keeps its middle. */
  lemma YRangeInside(lo: real, hi: real, mode: string)
    requires lo <= hi && Centred(mode)
    ensures var (ymin, ymax) := YRange(lo, hi, mode).value;
            lo <= ymin <= ymax <= hi && (ymin + ymax) / 2.0 == (lo + hi) / 2.0
  {
  }

  // ---------------------------------------------------------------- arguments

  /** The `samples` argument: one sample, or a list of them. */
  datatype Samples = One(sample: string) | Many(list: seq<string>)

  /** Multisample mode: a list that does not hold exactly one sample. */
  predicate Multisample(s: Samples) {
    s.Many? && |s.list| != 1
  }

  /** The samples whose profiles a plot overlays. */
  function SampleList(s: Samples): (r: seq<string>)
    ensures !Multisample(s) ==> |r| == 1
    ensures s.Many? ==> r == s.list
  {
    if s.One? then [s.sample] else s.list
  }

  /** A calibration: its name, its response variable and that variable's
      range. */
  datatype AlgDef = AlgDef(name: string, yvar: string, lo: real, hi: real)

  /** The default profile modes. */
  const PtResModes: seq<string> := ["winmode", "core", "tail"]

  /** The arguments after defaulting. */
  datatype Options = Options(algdefs: seq<AlgDef>, modes: seq<string>, depvars: seq<string>, sel: string)

  /** The defaults: the pt modes, and the pt calibrations and standard
      dependent variables and selection, which are given here (they are
      built from the common variable definitions). */
  function Defaulted(algdefs: Option<seq<AlgDef>>, modes: Option<seq<string>>, depvars: Option<seq<string>>,
                     sel: Option<string>, ptResAlgs: seq<AlgDef>, stdDepvars: seq<string>, stdSel: string): (r: Options)
    ensures algdefs.None? ==> r.algdefs == ptResAlgs
    ensures modes.None? ==> r.modes == PtResModes
    ensures depvars.None? ==> r.depvars == stdDepvars
    ensures sel.None? ==> r.sel == stdSel
    ensures algdefs.Some? ==> r.algdefs == algdefs.value
    ensures modes.Some? ==> r.modes == modes.value
    ensures depvars.Some? ==> r.depvars == depvars.value
    ensures sel.Some? ==> r.sel == sel.value
  {
    Options(if algdefs.Some? then algdefs.value else ptResAlgs,
            if modes.Some? then modes.value else PtResModes,
            if depvars.Some? then depvars.value else stdDepvars,
            if sel.Some? then sel.value else stdSel)
  }

  /** Defaulting only fills gaps: given arguments, even empty ones, stay. */
  lemma DefaultedKeepsGiven(o: Options, ptResAlgs: seq<AlgDef>, stdDepvars: seq<string>, stdSel: string)
    ensures Defaulted(Some(o.algdefs), Some(o.modes), Some(o.depvars), Some(o.sel), ptResAlgs, stdDepvars, stdSel) == o
  {
  }

  /** The `algs` filter: no filter when missing or empty, else only the
      named calibrations. */
  predicate Kept(algs: Option<seq<string>>, name: string) {
    algs.None? || |algs.value| == 0 || name in algs.value
  }

  /** The calibrations the filter keeps, in their order. */
  function Filter(defs: seq<AlgDef>, algs: Option<seq<string>>): (r: seq<AlgDef>)
    ensures |r| <= |defs|
    ensures forall d :: d in r <==> d in defs && Kept(algs, d.name)
  {
    if |defs| == 0 then []
    else
      var rest := Filter(defs[1..], algs);
      assert forall d :: d in defs <==> d == defs[0] || d in defs[1..];
      if Kept(algs, defs[0].name) then [defs[0]] + rest else rest
  }

  /** Without a filter every calibration stays. */
  lemma {:induction false} FilterNone(defs: seq<AlgDef>)
    ensures Filter(defs, None) == defs
  {
    if |defs| > 0 {
      FilterNone(defs[1..]);
      assert defs == [defs[0]] + defs[1..];
    }
  }

  // ---------------------------------------------------------------- plots

  /** One resolution profile. */
  datatype Profile = Profile(name: string, sample: string, xvar: string, yvar: string, sel: string, mode: string)

  /** One plot: its name, the profiles it overlays, its y-range, and
      whether it has a ratio panel. */
  datatype Plot = Plot(name: string, profiles: seq<Profile>, yrange: Option<(real, real)>, ratio: bool)

  /** `"{}".format(tag)`: a missing tag reads "None". */
  function TagText(tag: Option<string>): string {
    if tag.Some? then tag.value else "None"
  }

  /** A multisample plot: one profile per sample of one calibration, with
      the calibration's range and a ratio panel. */
  function MultiPlot(samples: seq<string>, depvar: string, mode: string, a: AlgDef, sel: string, tag: string): (r: Plot)
    ensures |r.profiles| == |samples| && r.ratio
    ensures forall i :: 0 <= i < |samples| ==> r.profiles[i].sample == samples[i] && r.profiles[i].yvar == a.yvar
    ensures r.yrange == YRange(a.lo, a.hi, mode)
  {
    var stem := "Res" + mode + "_" + a.yvar + "_vs_" + depvar + "_" + tag;
    Plot(stem,
         seq(|samples|, i requires 0 <= i < |samples| => Profile(stem + "_" + samples[i], samples[i], depvar, a.yvar, sel, mode)),
         YRange(a.lo, a.hi, mode), true)
  }

  /** Multisample plots for one dependent variable and mode: one per kept
      calibration. */
  function MultiForMode(samples: seq<string>, depvar: string, mode: string, defs: seq<AlgDef>, sel: string, tag: string): (r: seq<Plot>)
    ensures |r| == |defs|
    ensures forall i :: 0 <= i < |defs| ==> r[i] == MultiPlot(samples, depvar, mode, defs[i], sel, tag)
  {
    seq(|defs|, i requires 0 <= i < |defs| => MultiPlot(samples, depvar, mode, defs[i], sel, tag))
  }

  function MultiForDepvar(samples: seq<string>, depvar: string, modes: seq<string>, defs: seq<AlgDef>, sel: string, tag: string): (r: seq<Plot>)
  {
    if |modes| == 0 then [] else MultiForMode(samples, depvar, modes[0], defs, sel, tag) + MultiForDepvar(samples, depvar, modes[1..], defs, sel, tag)
  }

  function MultiAll(samples: seq<string>, depvars: seq<string>, modes: seq<string>, defs: seq<AlgDef>, sel: string, tag: string): (r: seq<Plot>)
  {
    if |depvars| == 0 then [] else MultiForDepvar(samples, depvars[0], modes, defs, sel, tag) + MultiAll(samples, depvars[1..], modes, defs, sel, tag)
  }

  /** A single-sample plot for one dependent variable and mode: one
      profile per kept calibration, and the range of the last one. */
  function SinglePlot(sample: string, basename: string, depvar: string, mode: string, defs: seq<AlgDef>, sel: string, tag: string): (r: Plot)
    requires |defs| > 0
    ensures |r.profiles| == |defs| && !r.ratio
    ensures forall i :: 0 <= i < |defs| ==> r.profiles[i].sample == sample && r.profiles[i].yvar == defs[i].yvar
    ensures r.yrange == YRange(defs[|defs| - 1].lo, defs[|defs| - 1].hi, mode)
  {
    var stem := "Res" + mode + "_" + basename + "_vs_" + depvar + "_" + tag;
    var last := defs[|defs| - 1];
    Plot(stem,
         seq(|defs|, i requires 0 <= i < |defs| => Profile(stem + "_" + defs[i].yvar, sample, depvar, defs[i].yvar, sel, mode)),
         YRange(last.lo, last.hi, mode), false)
  }

  function SingleForDepvar(sample: string, basename: string, depvar: string, modes: seq<string>, defs: seq<AlgDef>, sel: string, tag: string): (r: seq<Plot>)
    requires |defs| > 0
    ensures |r| == |modes|
    ensures forall i :: 0 <= i < |modes| ==> r[i] == SinglePlot(sample, basename, depvar, modes[i], defs, sel, tag)
  {
    seq(|modes|, i requires 0 <= i < |modes| => SinglePlot(sample, basename, depvar, modes[i], defs, sel, tag))
  }

  function SingleAll(sample: string, basename: string, depvars: seq<string>, modes: seq<string>, defs: seq<AlgDef>, sel: string, tag: string): (r: seq<Plot>)
    requires |defs| > 0
  {
    if |depvars| == 0 then [] else SingleForDepvar(sample, basename, depvars[0], modes, defs, sel, tag) + SingleAll(sample, basename, depvars[1..], modes, defs, sel, tag)
  }

  /** `create_res_profiles`. Multisample: a plot per dependent variable,
      mode and kept calibration, overlaying the samples; an empty list of
      samples is fatal as soon as a plot is due, since a plot without
      profiles exits (loki/core/plot.py:129-131). Single sample: a
      plot per dependent variable and mode, overlaying the kept
      calibrations, named after the first calibration's variable (an
      error without calibrations) and ranged by the last kept one (an
      error when none is kept but a plot is due). */
  function ResProfiles(samples: Samples, o: Options, algs: Option<seq<string>>, tag: Option<string>): (r: Result<seq<Plot>>)
    ensures Multisample(samples) ==>
              (r.Err? <==> (|samples.list| == 0 && |o.depvars| > 0 && |o.modes| > 0 && |Filter(o.algdefs, algs)| > 0))
    ensures !Multisample(samples) ==>
              (r.Err? <==> (|o.algdefs| == 0 || (|Filter(o.algdefs, algs)| == 0 && |o.depvars| > 0 && |o.modes| > 0)))
  {
    var defs := Filter(o.algdefs, algs);
    if Multisample(samples) then
      if |samples.list| == 0 && |o.depvars| > 0 && |o.modes| > 0 && |defs| > 0 then Err(Fatal("Plot has not drawable objects"))
      else Ok(MultiAll(samples.list, o.depvars, o.modes, defs, o.sel, TagText(tag)))
    else if |o.algdefs| == 0 then Err(IndexError("list index out of range"))
    else if |defs| == 0 then
      if |o.depvars| > 0 && |o.modes| > 0 then Err(Fatal("local variable 'var' referenced before assignment"))
      else Ok([])
    else Ok(SingleAll(SampleList(samples)[0], o.algdefs[0].yvar, o.depvars, o.modes, defs, o.sel, TagText(tag)))
  }

  // ---------------------------------------------------------------- counts

  /** One more row of `m` items adds `m` to the count. */
  lemma MulStep(n: nat, m: nat)
    requires n > 0
    ensures n * m == (n - 1) * m + m
  {
  }

  /** Multisample mode makes one plot per dependent variable, mode and kept
      calibration. */
  lemma {:induction false} MultiCount(samples: seq<string>, depvars: seq<string>, modes: seq<string>, defs: seq<AlgDef>, sel: string, tag: string)
    ensures |MultiAll(samples, depvars, modes, defs, sel, tag)| == |depvars| * (|modes| * |defs|)
    decreases |depvars|
  {
    if |depvars| > 0 {
      MultiDepvarCount(samples, depvars[0], modes, defs, sel, tag);
      MultiCount(samples, depvars[1..], modes, defs, sel, tag);
      MulStep(|depvars|, |modes| * |defs|);
    }
  }

  lemma {:induction false} MultiDepvarCount(samples: seq<string>, depvar: string, modes: seq<string>, defs: seq<AlgDef>, sel: string, tag: string)
    ensures |MultiForDepvar(samples, depvar, modes, defs, sel, tag)| == |modes| * |defs|
    decreases |modes|
  {
    if |modes| > 0 {
      MultiDepvarCount(samples, depvar, modes[1..], defs, sel, tag);
      MulStep(|modes|, |defs|);
    }
  }

  /** Single-sample mode makes one plot per dependent variable and mode. */
  lemma {:induction false} SingleCount(sample: string, basename: string, depvars: seq<string>, modes: seq<string>, defs: seq<AlgDef>, sel: string, tag: string)
    requires |defs| > 0
    ensures |SingleAll(sample, basename, depvars, modes, defs, sel, tag)| == |depvars| * |modes|
    decreases |depvars|
  {
    if |depvars| > 0 {
      var here := SingleForDepvar(sample, basename, depvars[0], modes, defs, sel, tag);
      var rest := SingleAll(sample, basename, depvars[1..], modes, defs, sel, tag);
      assert SingleAll(sample, basename, depvars, modes, defs, sel, tag) == here + rest;
      SingleCount(sample, basename, depvars[1..], modes, defs, sel, tag);
      MulStep(|depvars|, |modes|);
    }
  }

  /** Every multisample plot overlays all the samples and has a ratio
      panel. */
  lemma {:induction false} MultiOverlaysSamples(samples: seq<string>, depvars: seq<string>, modes: seq<string>, defs: seq<AlgDef>, sel: string, tag: string, p: Plot)
    requires p in MultiAll(samples, depvars, modes, defs, sel, tag)
    ensures |p.profiles| == |samples| && p.ratio
    decreases |depvars|
  {
    if p !in MultiForDepvar(samples, depvars[0], modes, defs, sel, tag) {
      MultiOverlaysSamples(samples, depvars[1..], modes, defs, sel, tag, p);
    } else {
      MultiDepvarOverlays(samples, depvars[0], modes, defs, sel, tag, p);
    }
  }

  lemma {:induction false} MultiDepvarOverlays(samples: seq<string>, depvar: string, modes: seq<string>, defs: seq<AlgDef>, sel: string, tag: string, p: Plot)
    requires p in MultiForDepvar(samples, depvar, modes, defs, sel, tag)
    ensures |p.profiles| == |samples| && p.ratio
    decreases |modes|
  {
    var here := MultiForMode(samples, depvar, modes[0], defs, sel, tag);
    if p !in here {
      MultiDepvarOverlays(samples, depvar, modes[1..], defs, sel, tag, p);
    } else {
      var i :| 0 <= i < |here| && here[i] == p;
    }
  }

  /** With one sample, every profile of every plot is of that sample. */
  lemma {:induction false} SingleUsesSample(sample: string, basename: string, depvars: seq<string>, modes: seq<string>, defs: seq<AlgDef>, sel: string, tag: string, p: Plot)
    requires |defs| > 0 && p in SingleAll(sample, basename, depvars, modes, defs, sel, tag)
    ensures |p.profiles| == |defs| && !p.ratio
    ensures forall i :: 0 <= i < |p.profiles| ==> p.profiles[i].sample == sample
    decreases |depvars|
  {
    var here := SingleForDepvar(sample, basename, depvars[0], modes, defs, sel, tag);
    if p !in here {
      SingleUsesSample(sample, basename, depvars[1..], modes, defs, sel, tag, p);
    } else {
      var i :| 0 <= i < |here| && here[i] == p;
    }
  }

  /** How many plots `create_res_profiles` returns in each mode. */
  lemma ResProfilesCount(samples: Samples, o: Options, algs: Option<seq<string>>, tag: Option<string>)
    ensures var r := ResProfiles(samples, o, algs, tag);
            var kept := |Filter(o.algdefs, algs)|;
            (Multisample(samples) && r.Ok? ==> |r.value| == |o.depvars| * (|o.modes| * kept))
            && (!Multisample(samples) && r.Ok? ==> |r.value| == |o.depvars| * |o.modes|)
  {
    var defs := Filter(o.algdefs, algs);
    if Multisample(samples) {
      MultiCount(samples.list, o.depvars, o.modes, defs, o.sel, TagText(tag));
    } else if |o.algdefs| > 0 && |defs| > 0 {
      SingleCount(SampleList(samples)[0], o.algdefs[0].yvar, o.depvars, o.modes, defs, o.sel, TagText(tag));
    }
  }

  /** An empty sample list counts as several samples, so its first plot
      has no profile to draw and is fatal; only when no plot is due does it
      give an empty list. */
  lemma EmptyListIsMultisample(o: Options, algs: Option<seq<string>>, tag: Option<string>)
    ensures Multisample(Many([]))
    ensures var r := ResProfiles(Many([]), o, algs, tag);
            (r.Err? <==> (|o.depvars| > 0 && |o.modes| > 0 && |Filter(o.algdefs, algs)| > 0))
            && (r.Ok? ==> r.value == [])
  {
    var r := ResProfiles(Many([]), o, algs, tag);
    if r.Ok? {
      ResProfilesCount(Many([]), o, algs, tag);
      var k := |Filter(o.algdefs, algs)|;
      assert |o.depvars| == 0 || |o.modes| == 0 || k == 0;
      assert |o.depvars| * (|o.modes| * k) == 0;
    }
  }
}
