/** LokiSelector: the TSelector that fills every registered LokiHist while a
    tree is processed.

    Formulas are interned: one formula object per distinct expression text,
    shared by every histogram using that text. A formula object is an id
    drawn from a counter that only grows, so objects created by one `Init`
    are never confused with those of an earlier one.

    ROOT's object lists are modelled by value: the output list holds
    references (dimension, position) to the histograms the selector owns, so
    that what `Terminate` writes is what `Process` filled. */
module LokiSelector {
  import opened Wrappers
  import H = Histogram
  import L = LokiHist

  // ---------------------------------------------------------------- formula interning

  /** The formula map `fmap` and the next unused formula id. */
  datatype Formulas = Formulas(fmap: map<string, nat>, next: nat)

  /** No formula for the empty text, ids below the counter, one id per text. */
  predicate FormulasValid(fs: Formulas) {
    "" !in fs.fmap
    && (forall t :: t in fs.fmap ==> fs.fmap[t] < fs.next)
    && (forall t, u :: t in fs.fmap && u in fs.fmap && t != u ==> fs.fmap[t] != fs.fmap[u])
  }

  /** `fs2` keeps every formula of `fs1`, and every formula it adds is new. */
  predicate Extends(fs1: Formulas, fs2: Formulas) {
    fs1.next <= fs2.next
    && fs1.fmap.Keys <= fs2.fmap.Keys
    && (forall t :: t in fs1.fmap ==> fs2.fmap[t] == fs1.fmap[t])
    && (forall t :: t in fs2.fmap && t !in fs1.fmap ==> fs1.next <= fs2.fmap[t])
  }

  /** The formula a text is bound to: none for the empty text. */
  function Lookup(fmap: map<string, nat>, t: string): Option<nat> {
    if t != "" && t in fmap then Some(fmap[t]) else None
  }

  /** `GetFormula(name)`: no formula for the empty text; otherwise the
      formula already held for that text, or a new one. */
  function GetFormula(fs: Formulas, name: string): (r: (Option<nat>, Formulas))
    ensures name == "" ==> r.0 == None && r.1 == fs
    ensures name != "" ==> name in r.1.fmap && r.0 == Some(r.1.fmap[name])
    ensures name in fs.fmap ==> r.1 == fs
    ensures name != "" && name !in fs.fmap ==> r.1.fmap == fs.fmap[name := fs.next] && r.1.next == fs.next + 1
    ensures Extends(fs, r.1)
    ensures FormulasValid(fs) ==> FormulasValid(r.1)
  {
    if name == "" then (None, fs)
    else if name in fs.fmap then (Some(fs.fmap[name]), fs)
    else (Some(fs.next), Formulas(fs.fmap[name := fs.next], fs.next + 1))
  }

  /** Asking twice for the same text gives the same formula and creates nothing. */
  lemma GetFormulaStable(fs: Formulas, name: string)
    ensures GetFormula(GetFormula(fs, name).1, name) == GetFormula(fs, name)
  {
  }

  /** Two different texts never share a formula. */
  lemma GetFormulaDistinct(fs: Formulas, t: string, u: string)
    requires FormulasValid(fs) && t != "" && u != "" && t != u
    ensures var (ft, fs1) := GetFormula(fs, t);
            var (fu, fs2) := GetFormula(fs1, u);
            ft != fu
  {
  }

  lemma ExtendsTrans(a: Formulas, b: Formulas, c: Formulas)
    requires Extends(a, b) && Extends(b, c)
    ensures Extends(a, c)
  {
  }

  // ---------------------------------------------------------------- binding (Init)

  /** The non-empty texts among `ts`. */
  function NonEmpty(ts: seq<string>): set<string> {
    set i | 0 <= i < |ts| && ts[i] != "" :: ts[i]
  }

  /** Every text a histogram needs a formula for. */
  function Texts(lh: L.LokiHist): set<string> {
    NonEmpty(lh.vars + [lh.sel, lh.wei])
  }

  function AllTexts(hs: seq<L.LokiHist>): set<string> {
    if |hs| == 0 then {} else AllTexts(hs[..|hs| - 1]) + Texts(hs[|hs| - 1])
  }

  /** Formulas for a list of texts, in order. */
  function BindTexts(ts: seq<string>, fs: Formulas): (r: (seq<Option<nat>>, Formulas))
    ensures |r.0| == |ts|
    ensures Extends(fs, r.1)
    ensures FormulasValid(fs) ==> FormulasValid(r.1)
    ensures r.1.fmap.Keys == fs.fmap.Keys + NonEmpty(ts)
    ensures forall i :: 0 <= i < |ts| ==> r.0[i] == Lookup(r.1.fmap, ts[i])
  {
    if |ts| == 0 then ([], fs)
    else
      var (prev, fs1) := BindTexts(ts[..|ts| - 1], fs);
      var (f, fs2) := GetFormula(fs1, ts[|ts| - 1]);
      BindTextsSnoc(ts, fs, prev, fs1, f, fs2);
      (prev + [f], fs2)
  }

  /** One more text bound after the others. */
  lemma BindTextsSnoc(ts: seq<string>, fs: Formulas, prev: seq<Option<nat>>, fs1: Formulas, f: Option<nat>, fs2: Formulas)
    requires |ts| > 0 && |prev| == |ts| - 1
    requires Extends(fs, fs1) && (FormulasValid(fs) ==> FormulasValid(fs1))
    requires fs1.fmap.Keys == fs.fmap.Keys + NonEmpty(ts[..|ts| - 1])
    requires forall i :: 0 <= i < |prev| ==> prev[i] == Lookup(fs1.fmap, ts[i])
    requires (f, fs2) == GetFormula(fs1, ts[|ts| - 1])
    ensures Extends(fs, fs2)
    ensures FormulasValid(fs) ==> FormulasValid(fs2)
    ensures fs2.fmap.Keys == fs.fmap.Keys + NonEmpty(ts)
    ensures forall i :: 0 <= i < |ts| ==> (prev + [f])[i] == Lookup(fs2.fmap, ts[i])
  {
    ExtendsTrans(fs, fs1, fs2);
    NonEmptySnoc(ts[..|ts| - 1], ts[|ts| - 1]);
    assert ts == ts[..|ts| - 1] + [ts[|ts| - 1]];
    forall i | 0 <= i < |ts| ensures (prev + [f])[i] == Lookup(fs2.fmap, ts[i]) {
      if i < |prev| {
        assert (prev + [f])[i] == prev[i];
      }
    }
  }

  lemma NonEmptySnoc(ts: seq<string>, t: string)
    ensures NonEmpty(ts + [t]) == NonEmpty(ts) + (if t == "" then {} else {t})
  {
    var ts' := ts + [t];
    forall x | x in NonEmpty(ts') ensures x in NonEmpty(ts) + (if t == "" then {} else {t}) {
      var i :| 0 <= i < |ts'| && ts'[i] != "" && ts'[i] == x;
      if i < |ts| {
        assert ts[i] == x;
      }
    }
    forall x | x in NonEmpty(ts) ensures x in NonEmpty(ts') {
      var i :| 0 <= i < |ts| && ts[i] != "" && ts[i] == x;
      assert ts'[i] == x;
    }
    if t != "" {
      assert ts'[|ts|] == t;
    }
  }

  /** A histogram's formulas are the map entries for its own texts. */
  predicate BoundTo(lh: L.LokiHist, fmap: map<string, nat>) {
    |lh.fvars| == |lh.vars|
    && (forall a :: 0 <= a < |lh.vars| ==> lh.fvars[a] == Lookup(fmap, lh.vars[a]))
    && lh.fsel == Lookup(fmap, lh.sel)
    && lh.fwei == Lookup(fmap, lh.wei)
  }

  /** A larger map binds the same texts to the same formulas. */
  lemma BoundToExtends(lh: L.LokiHist, fs1: Formulas, fs2: Formulas)
    requires BoundTo(lh, fs1.fmap) && Texts(lh) <= fs1.fmap.Keys && Extends(fs1, fs2)
    ensures BoundTo(lh, fs2.fmap)
  {
    forall a | 0 <= a < |lh.vars| ensures lh.fvars[a] == Lookup(fs2.fmap, lh.vars[a]) {
      if lh.vars[a] != "" {
        assert (lh.vars + [lh.sel, lh.wei])[a] == lh.vars[a];
      }
    }
    var ts := lh.vars + [lh.sel, lh.wei];
    assert ts[|lh.vars|] == lh.sel && ts[|lh.vars| + 1] == lh.wei;
  }

  /** Formulas for one histogram: axis expressions in order, then the
      selection, then the weight. */
  function BindHist(lh: L.LokiHist, fs: Formulas): (r: (L.LokiHist, Formulas))
    ensures Extends(fs, r.1)
    ensures FormulasValid(fs) ==> FormulasValid(r.1)
    ensures r.1.fmap.Keys == fs.fmap.Keys + Texts(lh)
    ensures BoundTo(r.0, r.1.fmap)
    ensures r.0.(fvars := lh.fvars, fsel := lh.fsel, fwei := lh.fwei) == lh
  {
    var (fv, fs1) := BindTexts(lh.vars + [lh.sel, lh.wei], fs);
    var ts := lh.vars + [lh.sel, lh.wei];
    assert ts[|lh.vars|] == lh.sel && ts[|lh.vars| + 1] == lh.wei;
    assert forall a :: 0 <= a < |lh.vars| ==> ts[a] == lh.vars[a];
    (lh.(fvars := fv[..|lh.vars|], fsel := fv[|lh.vars|], fwei := fv[|lh.vars| + 1]), fs1)
  }

  /** Same definition and booked histogram; only the formulas may differ. */
  predicate SameDef(a: L.LokiHist, b: L.LokiHist) {
    a.hash == b.hash && a.vars == b.vars && a.bins == b.bins && a.sel == b.sel && a.wei == b.wei && a.h == b.h
  }

  /** Formulas for a list of histograms, in order. */
  function BindList(hs: seq<L.LokiHist>, fs: Formulas): (r: (seq<L.LokiHist>, Formulas))
    ensures |r.0| == |hs|
    ensures Extends(fs, r.1)
  {
    if |hs| == 0 then ([], fs)
    else
      var (prev, fs1) := BindList(hs[..|hs| - 1], fs);
      var (b, fs2) := BindHist(hs[|hs| - 1], fs1);
      ExtendsTrans(fs, fs1, fs2);
      (prev + [b], fs2)
  }

  /** Binding a list keeps the map valid: one formula per text. */
  lemma {:induction false} BindListValid(hs: seq<L.LokiHist>, fs: Formulas)
    requires FormulasValid(fs)
    ensures FormulasValid(BindList(hs, fs).1)
  {
    if |hs| > 0 {
      BindListValid(hs[..|hs| - 1], fs);
    }
  }

  /** After binding a list the map holds exactly the old texts and the
      list's non-empty texts. */
  lemma {:induction false} BindListKeys(hs: seq<L.LokiHist>, fs: Formulas)
    ensures BindList(hs, fs).1.fmap.Keys == fs.fmap.Keys + AllTexts(hs)
  {
    if |hs| > 0 {
      BindListKeys(hs[..|hs| - 1], fs);
    }
  }

  /** Binding changes only the formulas of each histogram. */
  lemma {:induction false} BindListSameDef(hs: seq<L.LokiHist>, fs: Formulas, i: nat)
    requires i < |hs|
    ensures SameDef(BindList(hs, fs).0[i], hs[i])
  {
    if i < |hs| - 1 {
      BindListSameDef(hs[..|hs| - 1], fs, i);
    }
  }

  /** Every histogram of the list ends up bound to the map's entries for its
      own texts. */
  lemma {:induction false} BindListBound(hs: seq<L.LokiHist>, fs: Formulas, i: nat)
    requires i < |hs|
    ensures BoundTo(BindList(hs, fs).0[i], BindList(hs, fs).1.fmap)
  {
    var (prev, fs1) := BindList(hs[..|hs| - 1], fs);
    var (b, fs2) := BindHist(hs[|hs| - 1], fs1);
    assert BindList(hs, fs) == (prev + [b], fs2);
    if i < |hs| - 1 {
      var init := hs[..|hs| - 1];
      BindListBound(init, fs, i);
      BindListKeys(init, fs);
      BindListSameDef(init, fs, i);
      AllTextsHas(init, i);
      BoundKept(init[i], prev[i], fs1, fs2, fs.fmap.Keys, AllTexts(init));
      assert (prev + [b])[i] == prev[i];
    }
  }

  /** A histogram bound to formulas for its own texts stays bound when the
      map grows. */
  lemma BoundKept(lh: L.LokiHist, b: L.LokiHist, fs1: Formulas, fs2: Formulas, before: set<string>, all: set<string>)
    requires SameDef(b, lh) && BoundTo(b, fs1.fmap) && Extends(fs1, fs2)
    requires Texts(lh) <= all && fs1.fmap.Keys == before + all
    ensures BoundTo(b, fs2.fmap)
  {
    assert Texts(b) == Texts(lh);
    BoundToExtends(b, fs1, fs2);
  }

  lemma AllTextsHas(hs: seq<L.LokiHist>, i: nat)
    requires i < |hs|
    ensures Texts(hs[i]) <= AllTexts(hs)
  {
    if i < |hs| - 1 {
      AllTextsHas(hs[..|hs| - 1], i);
    }
  }

  // ---------------------------------------------------------------- the selector

  /** A reference from the output list to a histogram the selector owns,
      or some other object. */
  datatype Output = HistOut(dim: nat, idx: nat) | OtherOut(name: string)

  datatype Selector = Selector(
    foutName: string,
    hists1D: seq<L.LokiHist>,
    hists2D: seq<L.LokiHist>,
    hists3D: seq<L.LokiHist>,
    formulas: Formulas,
    inputs: seq<L.LokiHist>,
    output: seq<Output>)

  /** `LokiSelector(fout_name)`; the default output file is "temp.root". */
  function NewSelector(foutName: string := "temp.root"): (s: Selector)
    ensures s.hists1D == [] && s.hists2D == [] && s.hists3D == [] && s.inputs == [] && s.output == []
    ensures s.formulas.fmap == map[] && FormulasValid(s.formulas)
  {
    Selector(foutName, [], [], [], Formulas(map[], 0), [], [])
  }

  function List(s: Selector, dim: nat): seq<L.LokiHist> {
    if dim == 1 then s.hists1D else if dim == 2 then s.hists2D else if dim == 3 then s.hists3D else []
  }

  function AllHists(s: Selector): seq<L.LokiHist> {
    s.hists1D + s.hists2D + s.hists3D
  }

  /** `AddHist(h)`: append to the list of its own dimensionality. */
  function AddHist(s: Selector, lh: L.LokiHist): (r: Selector)
    requires L.WellShaped(lh)
    ensures List(r, L.Dim(lh)) == List(s, L.Dim(lh)) + [lh]
    ensures forall d :: d != L.Dim(lh) ==> List(r, d) == List(s, d)
    ensures r.formulas == s.formulas && r.inputs == s.inputs && r.output == s.output
  {
    if L.Dim(lh) == 1 then s.(hists1D := s.hists1D + [lh])
    else if L.Dim(lh) == 2 then s.(hists2D := s.hists2D + [lh])
    else s.(hists3D := s.hists3D + [lh])
  }

  /** `Begin()`: every registered histogram goes to the input list. */
  function Begin(s: Selector): (r: Selector)
    ensures |r.inputs| == |s.hists1D| + |s.hists2D| + |s.hists3D|
    ensures r.inputs == AllHists(s)
    ensures r.(inputs := s.inputs) == s
  {
    s.(inputs := s.hists1D + s.hists2D + s.hists3D)
  }

  /** The inputs of dimension `d`, in input order. */
  function OfDim(hs: seq<L.LokiHist>, d: nat): (r: seq<L.LokiHist>)
    ensures |r| <= |hs|
    ensures forall i :: 0 <= i < |r| ==> L.Dim(r[i]) == d
  {
    if |hs| == 0 then []
    else OfDim(hs[..|hs| - 1], d) + (if L.Dim(hs[|hs| - 1]) == d then [hs[|hs| - 1]] else [])
  }

  predicate AllOfDim(hs: seq<L.LokiHist>, d: nat) {
    forall i :: 0 <= i < |hs| ==> L.Dim(hs[i]) == d
  }

  lemma {:induction false} OfDimAppend(a: seq<L.LokiHist>, b: seq<L.LokiHist>, d: nat)
    ensures OfDim(a + b, d) == OfDim(a, d) + OfDim(b, d)
    decreases |b|
  {
    if |b| == 0 {
      assert a + b == a;
    } else {
      assert (a + b)[..|a + b| - 1] == a + b[..|b| - 1];
      OfDimAppend(a, b[..|b| - 1], d);
    }
  }

  lemma {:induction false} OfDimAll(hs: seq<L.LokiHist>, d: nat)
    requires AllOfDim(hs, d)
    ensures OfDim(hs, d) == hs
  {
    if |hs| > 0 {
      OfDimAll(hs[..|hs| - 1], d);
    }
  }

  lemma {:induction false} OfDimNone(hs: seq<L.LokiHist>, d: nat)
    requires forall i :: 0 <= i < |hs| ==> L.Dim(hs[i]) != d
    ensures OfDim(hs, d) == []
  {
    if |hs| > 0 {
      OfDimNone(hs[..|hs| - 1], d);
    }
  }

  function InitAll(hs: seq<L.LokiHist>): (r: seq<L.LokiHist>)
    ensures |r| == |hs|
  {
    seq(|hs|, i requires 0 <= i < |hs| => L.Init(hs[i]))
  }

  function Refs(dim: nat, count: nat): (r: seq<Output>)
    ensures |r| == count
  {
    seq(count, i requires 0 <= i < count => HistOut(dim, i))
  }

  /** `SlaveBegin()`: clear the lists and the formula map, rebuild the lists
      from the inputs by dimensionality, book every histogram and register
      it as an output. */
  function SlaveBegin(s: Selector): (r: Selector)
    ensures r.inputs == s.inputs && r.formulas.fmap == map[] && r.formulas.next == s.formulas.next
    ensures |r.hists1D| == |OfDim(s.inputs, 1)| && |r.hists2D| == |OfDim(s.inputs, 2)| && |r.hists3D| == |OfDim(s.inputs, 3)|
    ensures |r.output| == |s.output| + |r.hists1D| + |r.hists2D| + |r.hists3D| && r.output[..|s.output|] == s.output
  {
    var h1, h2, h3 := InitAll(OfDim(s.inputs, 1)), InitAll(OfDim(s.inputs, 2)), InitAll(OfDim(s.inputs, 3));
    s.(hists1D := h1, hists2D := h2, hists3D := h3,
       formulas := Formulas(map[], s.formulas.next),
       output := s.output + Refs(1, |h1|) + Refs(2, |h2|) + Refs(3, |h3|))
  }

  /** Lists kept by dimension. */
  predicate Sorted(s: Selector) {
    AllOfDim(s.hists1D, 1) && AllOfDim(s.hists2D, 2) && AllOfDim(s.hists3D, 3)
  }

  /** Streaming the histograms through the input list and back gives each
      list back, in order, booked. */
  lemma BeginSlaveBeginRoundTrip(s: Selector)
    requires Sorted(s)
    ensures SlaveBegin(Begin(s)).hists1D == InitAll(s.hists1D)
    ensures SlaveBegin(Begin(s)).hists2D == InitAll(s.hists2D)
    ensures SlaveBegin(Begin(s)).hists3D == InitAll(s.hists3D)
  {
    OfDimSplit(s.hists1D, s.hists2D, s.hists3D, 1);
    OfDimSplit(s.hists1D, s.hists2D, s.hists3D, 2);
    OfDimSplit(s.hists1D, s.hists2D, s.hists3D, 3);
    OfDimAll(s.hists1D, 1);
    OfDimNone(s.hists2D, 1);
    OfDimNone(s.hists3D, 1);
    OfDimNone(s.hists1D, 2);
    OfDimAll(s.hists2D, 2);
    OfDimNone(s.hists3D, 2);
    OfDimNone(s.hists1D, 3);
    OfDimNone(s.hists2D, 3);
    OfDimAll(s.hists3D, 3);
  }

  lemma OfDimSplit(a: seq<L.LokiHist>, b: seq<L.LokiHist>, c: seq<L.LokiHist>, d: nat)
    ensures OfDim(a + b + c, d) == OfDim(a, d) + OfDim(b, d) + OfDim(c, d)
  {
    OfDimAppend(a + b, c, d);
    OfDimAppend(a, b, d);
  }

  /** Every histogram added through AddHist keeps the lists sorted. */
  lemma AddHistSorted(s: Selector, lh: L.LokiHist)
    requires Sorted(s) && L.WellShaped(lh)
    ensures Sorted(AddHist(s, lh))
  {
  }

  /** `Init(tree)`: drop every formula held so far, then bind the formulas
      of the 1D, 2D and 3D histograms, in that order. */
  function InitFormulas(s: Selector): (r: Selector)
    ensures |r.hists1D| == |s.hists1D| && |r.hists2D| == |s.hists2D| && |r.hists3D| == |s.hists3D|
    ensures r.output == s.output && r.inputs == s.inputs && r.foutName == s.foutName
    ensures Extends(Formulas(map[], s.formulas.next), r.formulas)
  {
    var fs0 := Formulas(map[], s.formulas.next);
    var (b1, fs1) := BindList(s.hists1D, fs0);
    var (b2, fs2) := BindList(s.hists2D, fs1);
    var (b3, fs3) := BindList(s.hists3D, fs2);
    ExtendsTrans(fs0, fs1, fs2);
    ExtendsTrans(fs0, fs2, fs3);
    s.(hists1D := b1, hists2D := b2, hists3D := b3, formulas := fs3)
  }

  /** After `Init` the map holds one formula for each non-empty text of the
      registered histograms and nothing else. */
  lemma InitFormulasKeys(s: Selector)
    ensures InitFormulas(s).formulas.fmap.Keys == AllTexts(s.hists1D) + AllTexts(s.hists2D) + AllTexts(s.hists3D)
  {
    var fs0 := Formulas(map[], s.formulas.next);
    var (b1, fs1) := BindList(s.hists1D, fs0);
    var (b2, fs2) := BindList(s.hists2D, fs1);
    BindListKeys(s.hists1D, fs0);
    BindListKeys(s.hists2D, fs1);
    BindListKeys(s.hists3D, fs2);
  }

  /** After `Init` texts and formulas correspond one to one, and every
      formula is new: none survives from before. */
  lemma InitFormulasFresh(s: Selector)
    ensures FormulasValid(InitFormulas(s).formulas)
    ensures forall t :: t in InitFormulas(s).formulas.fmap ==> s.formulas.next <= InitFormulas(s).formulas.fmap[t]
  {
    var fs0 := Formulas(map[], s.formulas.next);
    var (b1, fs1) := BindList(s.hists1D, fs0);
    var (b2, fs2) := BindList(s.hists2D, fs1);
    BindListValid(s.hists1D, fs0);
    BindListValid(s.hists2D, fs1);
    BindListValid(s.hists3D, fs2);
  }

  /** After `Init` each histogram holds the map's formulas for its own texts
      (none for an empty selection or weight), its definition unchanged. */
  lemma InitFormulasBound(s: Selector, d: nat, i: nat)
    requires 1 <= d <= 3 && i < |List(s, d)|
    ensures SameDef(List(InitFormulas(s), d)[i], List(s, d)[i])
    ensures BoundTo(List(InitFormulas(s), d)[i], InitFormulas(s).formulas.fmap)
  {
    var fs0 := Formulas(map[], s.formulas.next);
    var (b1, fs1) := BindList(s.hists1D, fs0);
    var (b2, fs2) := BindList(s.hists2D, fs1);
    var (b3, fs3) := BindList(s.hists3D, fs2);
    ExtendsTrans(fs1, fs2, fs3);
    BindListSameDef(List(s, d), if d == 1 then fs0 else if d == 2 then fs1 else fs2, i);
    if d == 1 {
      BindListBound(s.hists1D, fs0, i);
      BindListKeys(s.hists1D, fs0);
      AllTextsHas(s.hists1D, i);
      BoundToExtends(b1[i], fs1, fs3);
    } else if d == 2 {
      BindListBound(s.hists2D, fs1, i);
      BindListKeys(s.hists2D, fs1);
      AllTextsHas(s.hists2D, i);
      BoundToExtends(b2[i], fs2, fs3);
    } else {
      BindListBound(s.hists3D, fs2, i);
    }
  }

  // ---------------------------------------------------------------- events and output

  /** A definition that Init can make ready to fill: 1 to 3 axes with one
      edge vector each, non-empty axis expressions, and a booked histogram
      (if any) with as many axes. */
  predicate Fillable(lh: L.LokiHist) {
    L.WellShaped(lh)
    && (forall a :: 0 <= a < |lh.vars| ==> lh.vars[a] != "")
    && (lh.h.Some? ==> |lh.h.value.axes| == |lh.vars|)
  }

  predicate AllReady(s: Selector) {
    (forall i :: 0 <= i < |s.hists1D| ==> L.Ready(s.hists1D[i]))
    && (forall i :: 0 <= i < |s.hists2D| ==> L.Ready(s.hists2D[i]))
    && (forall i :: 0 <= i < |s.hists3D| ==> L.Ready(s.hists3D[i]))
  }

  /** Booking then binding leaves a fillable definition ready to fill. */
  lemma ReadyAfterInit(lh: L.LokiHist, b: L.LokiHist, fmap: map<string, nat>)
    requires Fillable(lh)
    requires SameDef(b, L.Init(lh)) && BoundTo(b, fmap) && Texts(lh) <= fmap.Keys
    ensures L.Ready(b)
  {
    forall a | 0 <= a < |b.fvars| ensures b.fvars[a].Some? {
      assert (lh.vars + [lh.sel, lh.wei])[a] == lh.vars[a];
    }
  }

  /** One histogram's `Fill(n)`. */
  function FillOne(lh: L.LokiHist, ev: L.Event, n: nat): (r: L.LokiHist)
    requires L.Ready(lh)
    ensures L.Ready(r) && SameDef(r.(h := lh.h), lh)
    ensures r.h.value.entries == lh.h.value.entries + L.Selected(lh, ev, n)
  {
    L.FillEntries(lh, ev, n);
    lh.(h := Some(L.FillSlots(lh, ev, n)))
  }

  function FillAll(hs: seq<L.LokiHist>, ev: L.Event, n: nat): (r: seq<L.LokiHist>)
    requires forall i :: 0 <= i < |hs| ==> L.Ready(hs[i])
    ensures |r| == |hs|
    ensures forall i :: 0 <= i < |hs| ==> r[i] == FillOne(hs[i], ev, n)
  {
    seq(|hs|, i requires 0 <= i < |hs| => FillOne(hs[i], ev, n))
  }

  /** `Process(entry)`: one slot count `n` for the event (from the formula
      manager), and every registered histogram filled with that same `n`. */
  function Process(s: Selector, ev: L.Event, n: nat): (r: Selector)
    requires AllReady(s)
    ensures AllReady(r)
    ensures r.hists1D == FillAll(s.hists1D, ev, n)
    ensures r.hists2D == FillAll(s.hists2D, ev, n)
    ensures r.hists3D == FillAll(s.hists3D, ev, n)
    ensures r.formulas == s.formulas && r.output == s.output && r.foutName == s.foutName
  {
    s.(hists1D := FillAll(s.hists1D, ev, n), hists2D := FillAll(s.hists2D, ev, n), hists3D := FillAll(s.hists3D, ev, n))
  }

  /** The tree loop: `Process` once per entry, in order. */
  function ProcessAll(s: Selector, events: seq<(L.Event, nat)>): (r: Selector)
    requires AllReady(s)
    ensures AllReady(r)
    ensures |r.hists1D| == |s.hists1D| && |r.hists2D| == |s.hists2D| && |r.hists3D| == |s.hists3D|
    ensures r.output == s.output && r.foutName == s.foutName
    decreases |events|
  {
    if |events| == 0 then s else ProcessAll(Process(s, events[0].0, events[0].1), events[1..])
  }

  /** What an output entry refers to, when it is a booked histogram. */
  function Resolve(s: Selector, o: Output): (r: Option<H.Hist>)
    ensures o.OtherOut? ==> r.None?
    ensures r.Some? ==> o.idx < |List(s, o.dim)| && List(s, o.dim)[o.idx].h == r
  {
    match o
    case HistOut(d, i) => if i < |List(s, d)| && List(s, d)[i].h.Some? then Some(List(s, d)[i].h.value) else None
    case OtherOut(_) => None
  }

  /** `Terminate()`: the output objects written to the file, in output-list
      order; objects that are not histograms are not written. */
  function Written(s: Selector, outs: seq<Output>): (r: seq<H.Hist>)
    ensures |r| <= |outs|
  {
    if |outs| == 0 then []
    else Written(s, outs[..|outs| - 1]) + (match Resolve(s, outs[|outs| - 1]) case Some(h) => [h] case None => [])
  }

  /** `Terminate()`: at most one histogram per output object. */
  function Terminate(s: Selector): (r: seq<H.Hist>)
    ensures |r| <= |s.output|
  {
    Written(s, s.output)
  }

  lemma {:induction false} WrittenAppend(s: Selector, a: seq<Output>, b: seq<Output>)
    ensures Written(s, a + b) == Written(s, a) + Written(s, b)
    decreases |b|
  {
    if |b| == 0 {
      assert a + b == a;
    } else {
      assert (a + b)[..|a + b| - 1] == a + b[..|b| - 1];
      WrittenAppend(s, a, b[..|b| - 1]);
    }
  }

  /** The booked histograms of a list, in order. */
  function Booked(hs: seq<L.LokiHist>): (r: seq<H.Hist>)
    requires forall i :: 0 <= i < |hs| ==> hs[i].h.Some?
    ensures |r| == |hs| && forall i :: 0 <= i < |hs| ==> r[i] == hs[i].h.value
  {
    seq(|hs|, i requires 0 <= i < |hs| => hs[i].h.value)
  }

  /** The references SlaveBegin registers for one list write that list's
      histograms, in order. */
  lemma {:induction false} WrittenRefs(s: Selector, d: nat, count: nat)
    requires count <= |List(s, d)|
    requires forall i :: 0 <= i < |List(s, d)| ==> List(s, d)[i].h.Some?
    ensures Written(s, Refs(d, count)) == Booked(List(s, d))[..count]
  {
    if count > 0 {
      var rs := Refs(d, count);
      assert rs[..count - 1] == Refs(d, count - 1);
      WrittenRefs(s, d, count - 1);
      assert Resolve(s, rs[count - 1]) == Some(List(s, d)[count - 1].h.value);
      TakeOneMore(Booked(List(s, d)), count);
    }
  }

  lemma TakeOneMore(xs: seq<H.Hist>, n: nat)
    requires 0 < n <= |xs|
    ensures xs[..n] == xs[..n - 1] + [xs[n - 1]]
  {
  }

  /** Registering histograms one by one: each list receives, in order,
      the histograms of its dimension. */
  function AddAll(s: Selector, hs: seq<L.LokiHist>): (r: Selector)
    requires forall i :: 0 <= i < |hs| ==> L.WellShaped(hs[i])
    ensures r.output == s.output && r.formulas == s.formulas
    decreases |hs|
  {
    if |hs| == 0 then s else AddAll(AddHist(s, hs[0]), hs[1..])
  }

  lemma {:induction false} AddAllLists(s: Selector, hs: seq<L.LokiHist>, d: nat)
    requires forall i :: 0 <= i < |hs| ==> L.WellShaped(hs[i])
    ensures List(AddAll(s, hs), d) == List(s, d) + OfDim(hs, d)
    ensures Sorted(s) ==> Sorted(AddAll(s, hs))
    decreases |hs|
  {
    if |hs| == 0 {
      assert List(s, d) + [] == List(s, d);
    } else {
      var s1, h0, t := AddHist(s, hs[0]), [hs[0]], hs[1..];
      AddAllLists(s1, t, d);
      AddHistList(s, hs[0], d);
      HeadTail(hs);
      OfDimAppend(h0, t, d);
      AppendAssoc(List(s, d), OfDim(h0, d), OfDim(t, d));
    }
    if Sorted(s) {
      AddAllSorted(s, hs);
    }
  }

  lemma {:induction false} AddAllSorted(s: Selector, hs: seq<L.LokiHist>)
    requires forall i :: 0 <= i < |hs| ==> L.WellShaped(hs[i])
    requires Sorted(s)
    ensures Sorted(AddAll(s, hs))
    decreases |hs|
  {
    if |hs| > 0 {
      AddHistSorted(s, hs[0]);
      AddAllSorted(AddHist(s, hs[0]), hs[1..]);
    }
  }

  lemma HeadTail(hs: seq<L.LokiHist>)
    requires |hs| > 0
    ensures [hs[0]] + hs[1..] == hs
  {
  }

  lemma AppendAssoc(a: seq<L.LokiHist>, b: seq<L.LokiHist>, c: seq<L.LokiHist>)
    ensures (a + b) + c == a + (b + c)
  {
  }

  /** One histogram added lands at the end of its own list only. */
  lemma AddHistList(s: Selector, lh: L.LokiHist, d: nat)
    requires L.WellShaped(lh)
    ensures List(AddHist(s, lh), d) == List(s, d) + OfDim([lh], d)
  {
    assert [lh][..0] == [];
    assert OfDim([lh], d) == (if L.Dim(lh) == d then [lh] else []);
  }

  /** Names of the booked histograms, list by list. */
  function NamesOf(hs: seq<L.LokiHist>): (r: seq<string>)
    requires forall i :: 0 <= i < |hs| ==> hs[i].h.Some?
    ensures |r| == |hs|
  {
    seq(|hs|, i requires 0 <= i < |hs| => hs[i].h.value.name)
  }

  function Hashes(hs: seq<L.LokiHist>): (r: seq<string>)
    ensures |r| == |hs|
  {
    seq(|hs|, i requires 0 <= i < |hs| => hs[i].hash)
  }

  /** Running the event loop changes no histogram's name. */
  lemma {:induction false} ProcessAllNames(s: Selector, events: seq<(L.Event, nat)>)
    requires AllReady(s)
    ensures var r := ProcessAll(s, events);
            NamesOf(r.hists1D) == NamesOf(s.hists1D) && NamesOf(r.hists2D) == NamesOf(s.hists2D)
            && NamesOf(r.hists3D) == NamesOf(s.hists3D)
    decreases |events|
  {
    if |events| > 0 {
      var p := Process(s, events[0].0, events[0].1);
      ProcessAllNames(p, events[1..]);
      assert NamesOf(p.hists1D) == NamesOf(s.hists1D);
      assert NamesOf(p.hists2D) == NamesOf(s.hists2D);
      assert NamesOf(p.hists3D) == NamesOf(s.hists3D);
    }
  }

  /** Total number of selected slots of one histogram over a run. */
  function SelectedOver(lh: L.LokiHist, events: seq<(L.Event, nat)>): nat
    decreases |events|
  {
    if |events| == 0 then 0 else L.Selected(lh, events[0].0, events[0].1) + SelectedOver(lh, events[1..])
  }

  /** Over a run, each histogram gains one entry per selected slot of every
      event, all histograms seeing the same per-event slot counts. */
  lemma {:induction false} ProcessAllEntries(s: Selector, events: seq<(L.Event, nat)>, d: nat, i: nat)
    requires AllReady(s) && 1 <= d <= 3 && i < |List(s, d)|
    ensures List(ProcessAll(s, events), d)[i].h.value.entries
            == List(s, d)[i].h.value.entries + SelectedOver(List(s, d)[i], events)
    decreases |events|
  {
    if |events| > 0 {
      var p := Process(s, events[0].0, events[0].1);
      ProcessAllEntries(p, events[1..], d, i);
      var lh, lp := List(s, d)[i], List(p, d)[i];
      assert lp == FillOne(lh, events[0].0, events[0].1);
      SelectedSameFormulas(lh, lp, events[1..]);
    }
  }

  /** Selection depends only on the selection formula. */
  lemma {:induction false} SelectedSameFormulas(a: L.LokiHist, b: L.LokiHist, events: seq<(L.Event, nat)>)
    requires a.fsel == b.fsel
    ensures SelectedOver(a, events) == SelectedOver(b, events)
    decreases |events|
  {
    if |events| > 0 {
      SelectedSameFormulas(a, b, events[1..]);
      SelectedSame(a, b, events[0].0, events[0].1);
    }
  }

  lemma {:induction false} SelectedSame(a: L.LokiHist, b: L.LokiHist, ev: L.Event, n: nat)
    requires a.fsel == b.fsel
    ensures L.Selected(a, ev, n) == L.Selected(b, ev, n)
  {
    if n > 0 {
      SelectedSame(a, b, ev, n - 1);
      assert L.Passes(a, ev, n - 1) == L.Passes(b, ev, n - 1);
    }
  }

  /** The set-up of a query: `Begin`, `SlaveBegin`, `Init`. */
  function Setup(s: Selector): Selector {
    InitFormulas(SlaveBegin(Begin(s)))
  }

  /** Definitions as the Python side builds them: fillable and not yet booked. */
  predicate Fresh(hs: seq<L.LokiHist>) {
    forall i :: 0 <= i < |hs| ==> Fillable(hs[i]) && hs[i].h.None?
  }

  /** What `Query` needs of the registered histograms. */
  predicate Registered(s: Selector) {
    Sorted(s) && s.output == [] && Fresh(s.hists1D) && Fresh(s.hists2D) && Fresh(s.hists3D)
  }

  /** Set-up books each registered definition, keeping it otherwise. */
  lemma SetupBooks(s: Selector, d: nat, i: nat)
    requires Registered(s) && 1 <= d <= 3 && i < |List(s, d)|
    ensures |List(Setup(s), d)| == |List(s, d)|
    ensures SameDef(List(Setup(s), d)[i], L.Init(List(s, d)[i]))
  {
    var s1 := SlaveBegin(Begin(s));
    BeginSlaveBeginRoundTrip(s);
    assert List(s1, d)[i] == L.Init(List(s, d)[i]);
    InitFormulasBound(s1, d, i);
  }

  /** Set-up binds each definition to the map's formulas for its texts. */
  lemma SetupBinds(s: Selector, d: nat, i: nat)
    requires Registered(s) && 1 <= d <= 3 && i < |List(s, d)|
    ensures |List(Setup(s), d)| == |List(s, d)|
    ensures BoundTo(List(Setup(s), d)[i], Setup(s).formulas.fmap)
  {
    var s1 := SlaveBegin(Begin(s));
    BeginSlaveBeginRoundTrip(s);
    InitFormulasBound(s1, d, i);
  }

  /** Init creates a formula for every text of every definition. */
  lemma InitFormulasCovers(s: Selector, d: nat, i: nat)
    requires 1 <= d <= 3 && i < |List(s, d)|
    ensures Texts(List(s, d)[i]) <= InitFormulas(s).formulas.fmap.Keys
  {
    InitFormulasKeys(s);
    TextsInLists(s, d, i, InitFormulas(s).formulas.fmap.Keys);
  }

  lemma TextsInLists(s: Selector, d: nat, i: nat, keys: set<string>)
    requires 1 <= d <= 3 && i < |List(s, d)|
    requires keys == AllTexts(s.hists1D) + AllTexts(s.hists2D) + AllTexts(s.hists3D)
    ensures Texts(List(s, d)[i]) <= keys
  {
    AllTextsHas(List(s, d), i);
  }

  /** Set-up creates a formula for every text of every definition. */
  lemma SetupCovers(s: Selector, d: nat, i: nat)
    requires Registered(s) && 1 <= d <= 3 && i < |List(s, d)|
    ensures Texts(List(s, d)[i]) <= Setup(s).formulas.fmap.Keys
  {
    var s1 := SlaveBegin(Begin(s));
    BeginSlaveBeginRoundTrip(s);
    assert List(s1, d)[i] == L.Init(List(s, d)[i]);
    InitFormulasCovers(s1, d, i);
  }

  /** After set-up one histogram is booked under its hash and ready to fill. */
  lemma SetupReadyAt(s: Selector, d: nat, i: nat)
    requires Registered(s) && 1 <= d <= 3 && i < |List(s, d)|
    ensures |List(Setup(s), d)| == |List(s, d)|
    ensures L.Ready(List(Setup(s), d)[i]) && List(Setup(s), d)[i].h.value.name == List(s, d)[i].hash
  {
    SetupBooks(s, d, i);
    SetupBinds(s, d, i);
    SetupCovers(s, d, i);
    FreshAt(s, d, i);
    var r := Setup(s);
    ReadyNamed(List(s, d)[i], List(r, d)[i], r.formulas.fmap);
  }

  lemma FreshAt(s: Selector, d: nat, i: nat)
    requires Registered(s) && 1 <= d <= 3 && i < |List(s, d)|
    ensures Fillable(List(s, d)[i]) && List(s, d)[i].h.None?
  {
  }

  /** A fresh definition booked and bound to formulas for all its texts is
      ready to fill, under its hash. */
  lemma ReadyNamed(lh: L.LokiHist, b: L.LokiHist, fmap: map<string, nat>)
    requires Fillable(lh) && lh.h.None?
    requires SameDef(b, L.Init(lh)) && BoundTo(b, fmap) && Texts(lh) <= fmap.Keys
    ensures L.Ready(b) && b.h.value.name == lh.hash
  {
    ReadyAfterInit(lh, b, fmap);
  }

  /** After set-up the output list refers to the 1D, 2D and 3D lists in order. */
  lemma SetupOutputs(s: Selector)
    requires Registered(s)
    ensures var r := Setup(s);
            |r.hists1D| == |s.hists1D| && |r.hists2D| == |s.hists2D| && |r.hists3D| == |s.hists3D|
            && r.output == Refs(1, |r.hists1D|) + Refs(2, |r.hists2D|) + Refs(3, |r.hists3D|)
  {
    BeginSlaveBeginRoundTrip(s);
    var s1 := SlaveBegin(Begin(s));
    assert [] + Refs(1, |s1.hists1D|) == Refs(1, |s1.hists1D|);
  }

  /** After set-up every histogram is ready to fill. */
  lemma SetupReady(s: Selector)
    requires Registered(s)
    ensures AllReady(Setup(s))
  {
    var r := Setup(s);
    SetupReadyList(s, r, 1);
    SetupReadyList(s, r, 2);
    SetupReadyList(s, r, 3);
    ReadyFromLists(r);
  }

  lemma ReadyFromLists(r: Selector)
    requires forall i :: 0 <= i < |List(r, 1)| ==> L.Ready(List(r, 1)[i])
    requires forall i :: 0 <= i < |List(r, 2)| ==> L.Ready(List(r, 2)[i])
    requires forall i :: 0 <= i < |List(r, 3)| ==> L.Ready(List(r, 3)[i])
    ensures AllReady(r)
  {
    assert List(r, 1) == r.hists1D && List(r, 2) == r.hists2D && List(r, 3) == r.hists3D;
  }

  lemma SetupReadyList(s: Selector, r: Selector, d: nat)
    requires Registered(s) && 1 <= d <= 3 && r == Setup(s)
    ensures forall i :: 0 <= i < |List(r, d)| ==> L.Ready(List(r, d)[i])
  {
    SetupLengths(s, r, d);
    forall i | 0 <= i < |List(r, d)| ensures L.Ready(List(r, d)[i]) {
      SetupReadyAt(s, d, i);
    }
  }

  /** What set-up establishes, stated of the selector `r` it produces. */
  predicate SetupFacts(s: Selector, r: Selector) {
    |r.hists1D| == |s.hists1D| && |r.hists2D| == |s.hists2D| && |r.hists3D| == |s.hists3D|
    && r.output == Refs(1, |r.hists1D|) + Refs(2, |r.hists2D|) + Refs(3, |r.hists3D|)
    && AllReady(r)
    && (forall i :: 0 <= i < |r.hists1D| ==> r.hists1D[i].h.value.name == s.hists1D[i].hash)
    && (forall i :: 0 <= i < |r.hists2D| ==> r.hists2D[i].h.value.name == s.hists2D[i].hash)
    && (forall i :: 0 <= i < |r.hists3D| ==> r.hists3D[i].h.value.name == s.hists3D[i].hash)
  }

  lemma SetupNamesAt(s: Selector, d: nat)
    requires Registered(s) && 1 <= d <= 3
    ensures |List(Setup(s), d)| == |List(s, d)|
    ensures forall i :: 0 <= i < |List(s, d)| ==> List(Setup(s), d)[i].h.Some?
    ensures forall i :: 0 <= i < |List(s, d)| ==> List(Setup(s), d)[i].h.value.name == List(s, d)[i].hash
  {
    var r := Setup(s);
    SetupLengths(s, r, d);
    forall i | 0 <= i < |List(s, d)|
      ensures List(r, d)[i].h.Some? && List(r, d)[i].h.value.name == List(s, d)[i].hash
    {
      SetupReadyAt(s, d, i);
    }
  }

  /** Set-up keeps the length of every list. */
  lemma SetupLengths(s: Selector, r: Selector, d: nat)
    requires Registered(s) && r == Setup(s)
    ensures |List(r, d)| == |List(s, d)|
  {
    SetupOutputs(s);
    SameLengths(s, r, d);
  }

  lemma SameLengths(s: Selector, r: Selector, d: nat)
    requires |r.hists1D| == |s.hists1D| && |r.hists2D| == |s.hists2D| && |r.hists3D| == |s.hists3D|
    ensures |List(r, d)| == |List(s, d)|
  {
  }

  /** After set-up every histogram is booked under its hash. */
  lemma SetupNames(s: Selector)
    requires Registered(s)
    ensures SetupFacts(s, Setup(s))
  {
    SetupOutputs(s);
    SetupReady(s);
    SetupNamesAt(s, 1);
    SetupNamesAt(s, 2);
    SetupNamesAt(s, 3);
  }

  /** A whole query on one file: set-up, `Process` per entry, `Terminate`.
      The file gets exactly one histogram per registered definition, named
      by its hash, 1D ones first, then 2D, then 3D. */
  function Query(s: Selector, events: seq<(L.Event, nat)>): (written: seq<H.Hist>)
    requires Registered(s)
    ensures |written| == |AllHists(s)|
    ensures forall i :: 0 <= i < |AllHists(s)| ==> written[i].name == AllHists(s)[i].hash
  {
    SetupReady(s);
    SetupNames(s);
    ProcessAllKeepsSetup(s, Setup(s), events);
    WrittenNames(s, ProcessAll(Setup(s), events));
    Terminate(ProcessAll(Setup(s), events))
  }

  /** The references to one whole list write that list's histograms. */
  lemma WrittenList(r: Selector, d: nat)
    requires forall i :: 0 <= i < |List(r, d)| ==> List(r, d)[i].h.Some?
    ensures Written(r, Refs(d, |List(r, d)|)) == Booked(List(r, d))
  {
    WrittenRefs(r, d, |List(r, d)|);
    assert Booked(List(r, d))[..|List(r, d)|] == Booked(List(r, d));
  }

  /** All histograms of all lists booked. */
  predicate AllBooked(r: Selector) {
    (forall i :: 0 <= i < |r.hists1D| ==> r.hists1D[i].h.Some?)
    && (forall i :: 0 <= i < |r.hists2D| ==> r.hists2D[i].h.Some?)
    && (forall i :: 0 <= i < |r.hists3D| ==> r.hists3D[i].h.Some?)
  }

  /** When the output list refers to the three lists in order, `Terminate`
      writes the three lists' histograms. */
  lemma TerminateWritesLists(r: Selector)
    requires AllBooked(r)
    requires r.output == Refs(1, |r.hists1D|) + Refs(2, |r.hists2D|) + Refs(3, |r.hists3D|)
    ensures Terminate(r) == Booked(r.hists1D) + Booked(r.hists2D) + Booked(r.hists3D)
  {
    var o1, o2, o3 := Refs(1, |r.hists1D|), Refs(2, |r.hists2D|), Refs(3, |r.hists3D|);
    WrittenAppend(r, o1 + o2, o3);
    WrittenAppend(r, o1, o2);
    assert forall i :: 0 <= i < |List(r, 1)| ==> List(r, 1)[i].h.Some?;
    assert forall i :: 0 <= i < |List(r, 2)| ==> List(r, 2)[i].h.Some?;
    assert forall i :: 0 <= i < |List(r, 3)| ==> List(r, 3)[i].h.Some?;
    WrittenList(r, 1);
    WrittenList(r, 2);
    WrittenList(r, 3);
  }

  /** The event loop keeps what set-up established. */
  lemma ProcessAllKeepsSetup(s: Selector, r: Selector, events: seq<(L.Event, nat)>)
    requires SetupFacts(s, r)
    ensures SetupFacts(s, ProcessAll(r, events))
  {
    ProcessAllNames(r, events);
    var p := ProcessAll(r, events);
    forall i | 0 <= i < |p.hists1D| ensures p.hists1D[i].h.value.name == s.hists1D[i].hash {
      assert NamesOf(p.hists1D)[i] == NamesOf(r.hists1D)[i];
    }
    forall i | 0 <= i < |p.hists2D| ensures p.hists2D[i].h.value.name == s.hists2D[i].hash {
      assert NamesOf(p.hists2D)[i] == NamesOf(r.hists2D)[i];
    }
    forall i | 0 <= i < |p.hists3D| ensures p.hists3D[i].h.value.name == s.hists3D[i].hash {
      assert NamesOf(p.hists3D)[i] == NamesOf(r.hists3D)[i];
    }
  }

  /** The histograms written are named, in order, by the hashes of the
      registered definitions. */
  lemma WrittenNames(s: Selector, r: Selector)
    requires SetupFacts(s, r)
    ensures |Terminate(r)| == |AllHists(s)|
    ensures forall i :: 0 <= i < |AllHists(s)| ==> Terminate(r)[i].name == AllHists(s)[i].hash
  {
    assert AllBooked(r);
    TerminateWritesLists(r);
    var w := Terminate(r);
    forall i | 0 <= i < |AllHists(s)| ensures w[i].name == AllHists(s)[i].hash {
      if i < |s.hists1D| {
        assert w[i] == r.hists1D[i].h.value;
      } else if i < |s.hists1D| + |s.hists2D| {
        assert w[i] == r.hists2D[i - |s.hists1D|].h.value;
      } else {
        assert w[i] == r.hists3D[i - |s.hists1D| - |s.hists2D|].h.value;
      }
    }
  }
}
