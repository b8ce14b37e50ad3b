/** LokiHist1D / LokiHist2D / LokiHist3D: a histogram definition (axis
    expressions, one edge vector per axis, optional selection and weight
    expressions, an output name) together with the objects bound to it at
    run time (the booked histogram and one formula per expression).

    The three C++ classes differ only in the number of axes, so they are one
    datatype here whose dimension is the number of axis expressions.

    Formulas are identified by an id handed out by the selector's interner.
    The values a formula yields for the current event are an input: an
    `Event` maps a formula id to its value at each slot (what
    `TTreeFormula::EvalInstance(i)` returns after the manager has synced the
    formulas). */
module LokiHist {
  import opened Wrappers
  import H = Histogram

  /** Formula values of one event, per formula id and slot. */
  type Event = map<nat, seq<real>>

  datatype LokiHist = LokiHist(
    hash: string,
    vars: seq<string>,
    bins: seq<seq<real>>,
    sel: string,
    wei: string,
    h: Option<H.Hist>,
    fvars: seq<Option<nat>>,
    fsel: Option<nat>,
    fwei: Option<nat>)

  /** One axis expression and one edge vector per axis, 1 to 3 axes. */
  predicate WellShaped(lh: LokiHist) {
    1 <= |lh.vars| <= 3 && |lh.bins| == |lh.vars| && |lh.fvars| == |lh.vars|
  }

  function Dim(lh: LokiHist): nat {
    |lh.vars|
  }

  /** A definition as constructed: nothing booked, no formula bound. */
  predicate Unbound(lh: LokiHist) {
    lh.h == None && lh.fsel == None && lh.fwei == None
    && forall a :: 0 <= a < |lh.fvars| ==> lh.fvars[a] == None
  }

  // ---------------------------------------------------------------- construction

  /** `LokiHist1D(hash, xvar, xbins, sel = "", wei = "")`. */
  function Hist1D(hash: string, xvar: string, xbins: seq<real>, sel: string := "", wei: string := ""): (r: LokiHist)
    ensures WellShaped(r) && Dim(r) == 1 && Unbound(r)
    ensures r.vars[0] == xvar && r.bins[0] == xbins
    ensures r.hash == hash && r.sel == sel && r.wei == wei
  {
    LokiHist(hash, [xvar], [xbins], sel, wei, None, [None], None, None)
  }

  /** `LokiHist2D(hash, xvar, xbins, yvar, ybins, sel = "", wei = "")`. */
  function Hist2D(hash: string, xvar: string, xbins: seq<real>, yvar: string, ybins: seq<real>,
                  sel: string := "", wei: string := ""): (r: LokiHist)
    ensures WellShaped(r) && Dim(r) == 2 && Unbound(r)
    ensures r.vars[0] == xvar && r.bins[0] == xbins && r.vars[1] == yvar && r.bins[1] == ybins
    ensures r.hash == hash && r.sel == sel && r.wei == wei
  {
    LokiHist(hash, [xvar, yvar], [xbins, ybins], sel, wei, None, [None, None], None, None)
  }

  /** `LokiHist3D(hash, xvar, xbins, yvar, ybins, zvar, zbins, sel = "", wei = "")`. */
  function Hist3D(hash: string, xvar: string, xbins: seq<real>, yvar: string, ybins: seq<real>,
                  zvar: string, zbins: seq<real>, sel: string := "", wei: string := ""): (r: LokiHist)
    ensures WellShaped(r) && Dim(r) == 3 && Unbound(r)
    ensures r.vars[0] == xvar && r.bins[0] == xbins && r.vars[1] == yvar && r.bins[1] == ybins
    ensures r.vars[2] == zvar && r.bins[2] == zbins
    ensures r.hash == hash && r.sel == sel && r.wei == wei
  {
    LokiHist(hash, [xvar, yvar, zvar], [xbins, ybins, zbins], sel, wei, None, [None, None, None], None, None)
  }

  /** Without explicit selection and weight, both are the empty text ("none"). */
  lemma DefaultsAreEmpty(hash: string, x: string, xb: seq<real>, y: string, yb: seq<real>, z: string, zb: seq<real>)
    ensures Hist1D(hash, x, xb).sel == "" && Hist1D(hash, x, xb).wei == ""
    ensures Hist2D(hash, x, xb, y, yb).sel == "" && Hist2D(hash, x, xb, y, yb).wei == ""
    ensures Hist3D(hash, x, xb, y, yb, z, zb).sel == "" && Hist3D(hash, x, xb, y, yb, z, zb).wei == ""
  {
  }

  // ---------------------------------------------------------------- Init

  /** `Init()`: book the histogram, named by the hash, with `|edges| - 1`
      bins per axis and squared weights tracked, unless one exists already. */
  function Init(lh: LokiHist): (r: LokiHist)
    ensures r.h.Some?
    ensures lh.h.Some? ==> r == lh
    ensures lh.h.None? ==> r.h.value.name == lh.hash && r.h.value.axes == lh.bins
                           && r.h.value.sumw2 && r.h.value.entries == 0
    ensures lh.h.None? ==> forall k :: H.Get(r.h.value, k) == H.EmptyCell
    ensures r.(h := lh.h) == lh
  {
    if lh.h.None? then lh.(h := Some(H.Empty(lh.hash, lh.bins))) else lh
  }

  /** Booking twice books once. */
  lemma InitIdempotent(lh: LokiHist)
    ensures Init(Init(lh)) == Init(lh)
  {
  }

  /** The booked histogram has one axis per expression, each with
      `|edges| - 1` bins. */
  lemma InitBinning(lh: LokiHist)
    requires WellShaped(lh) && lh.h.None?
    ensures |Init(lh).h.value.axes| == Dim(lh)
    ensures forall a :: 0 <= a < Dim(lh) ==> H.NBins(Init(lh).h.value.axes[a]) == |lh.bins[a]| - 1
  {
  }

  // ---------------------------------------------------------------- per-slot evaluation

  /** `EvalInstance(i)` of formula `f` (0 when the event holds no value there). */
  function Value(ev: Event, f: nat, i: nat): real {
    if f in ev && i < |ev[f]| then ev[f][i] else 0.0
  }

  /** Booked, and one formula bound to every axis. */
  predicate Ready(lh: LokiHist) {
    lh.h.Some? && |lh.fvars| == |lh.h.value.axes|
    && forall a :: 0 <= a < |lh.fvars| ==> lh.fvars[a].Some?
  }

  /** Slot `i` is filled unless a selection formula exists and is 0 there. */
  predicate Passes(lh: LokiHist, ev: Event, i: nat) {
    lh.fsel.None? || Value(ev, lh.fsel.value, i) != 0.0
  }

  /** The weight of slot `i`: the weight formula's value, or 1.0 without one. */
  function Weight(lh: LokiHist, ev: Event, i: nat): real {
    if lh.fwei.Some? then Value(ev, lh.fwei.value, i) else 1.0
  }

  /** The point of slot `i`: every axis formula evaluated at the same slot. */
  function Point(lh: LokiHist, ev: Event, i: nat): (p: seq<real>)
    requires Ready(lh)
    ensures |p| == |lh.fvars|
    ensures forall a :: 0 <= a < |p| ==> p[a] == Value(ev, lh.fvars[a].value, i)
  {
    seq(|lh.fvars|, a requires 0 <= a < |lh.fvars| => Value(ev, lh.fvars[a].value, i))
  }

  /** The cell slot `i` lands in. */
  function Key(lh: LokiHist, ev: Event, i: nat): seq<nat>
    requires Ready(lh)
  {
    H.BinOf(lh.h.value.axes, Point(lh, ev, i))
  }

  /** What slot `i` does to histogram `h`. */
  function Step(lh: LokiHist, ev: Event, h: H.Hist, i: nat): H.Hist
    requires Ready(lh) && h.axes == lh.h.value.axes
  {
    if Passes(lh, ev, i) then H.FillCell(h, Key(lh, ev, i), H.Unit(Weight(lh, ev, i))) else h
  }

  /** Reference definition of `Fill(n)`: slots 0, 1, ..., n-1 in order. */
  function FillSlots(lh: LokiHist, ev: Event, n: nat): (r: H.Hist)
    requires Ready(lh)
    ensures r.axes == lh.h.value.axes && r.name == lh.h.value.name && r.sumw2 == lh.h.value.sumw2
  {
    if n == 0 then lh.h.value else Step(lh, ev, FillSlots(lh, ev, n - 1), n - 1)
  }

  /** `Fill(n)`: the per-slot loop of the C++ class. */
  method Fill(lh: LokiHist, ev: Event, n: nat) returns (r: LokiHist)
    requires Ready(lh)
    ensures r == lh.(h := Some(FillSlots(lh, ev, n)))
  {
    var h := lh.h.value;
    var i := 0;
    while i < n
      invariant i <= n
      invariant h == FillSlots(lh, ev, i)
    {
      if lh.fsel.Some? && Value(ev, lh.fsel.value, i) == 0.0 {
        i := i + 1;
        continue;
      }
      var weight := if lh.fwei.Some? then Value(ev, lh.fwei.value, i) else 1.0;
      h := H.Fill(h, Point(lh, ev, i), weight);
      i := i + 1;
    }
    r := lh.(h := Some(h));
  }

  // ---------------------------------------------------------------- what Fill(n) does

  /** Number of selected slots among 0..n-1. */
  function Selected(lh: LokiHist, ev: Event, n: nat): (c: nat)
    ensures c <= n
  {
    if n == 0 then 0 else Selected(lh, ev, n - 1) + (if Passes(lh, ev, n - 1) then 1 else 0)
  }

  /** Each selected slot is exactly one fill. */
  lemma {:induction false} FillEntries(lh: LokiHist, ev: Event, n: nat)
    requires Ready(lh)
    ensures FillSlots(lh, ev, n).entries == lh.h.value.entries + Selected(lh, ev, n)
  {
    if n > 0 {
      FillEntries(lh, ev, n - 1);
    }
  }

  /** Without a selection formula every slot is selected. */
  lemma {:induction false} NoSelectionSelectsAll(lh: LokiHist, ev: Event, n: nat)
    requires lh.fsel.None?
    ensures Selected(lh, ev, n) == n
  {
    if n > 0 {
      NoSelectionSelectsAll(lh, ev, n - 1);
    }
  }

  /** A slot is skipped exactly when a selection formula exists and is 0 there. */
  lemma {:induction false} SkippedSlot(lh: LokiHist, ev: Event, n: nat)
    requires Ready(lh) && n > 0
    ensures !Passes(lh, ev, n - 1) <==> (lh.fsel.Some? && Value(ev, lh.fsel.value, n - 1) == 0.0)
    ensures !Passes(lh, ev, n - 1) ==> FillSlots(lh, ev, n) == FillSlots(lh, ev, n - 1)
    ensures Passes(lh, ev, n - 1) ==> FillSlots(lh, ev, n).entries == FillSlots(lh, ev, n - 1).entries + 1
  {
  }

  /** Reference content of cell `k` after `Fill(n)`: one unit of weight per
      selected slot whose point falls into `k`. */
  function Contribution(lh: LokiHist, ev: Event, k: seq<nat>, n: nat): H.Cell
    requires Ready(lh)
  {
    if n == 0 then H.EmptyCell
    else
      var prev := Contribution(lh, ev, k, n - 1);
      if Passes(lh, ev, n - 1) && Key(lh, ev, n - 1) == k then prev.Plus(H.Unit(Weight(lh, ev, n - 1))) else prev
  }

  /** Cell by cell, `Fill(n)` adds the contribution of its slots. */
  lemma {:induction false} FillContent(lh: LokiHist, ev: Event, k: seq<nat>, n: nat)
    requires Ready(lh)
    ensures H.Get(FillSlots(lh, ev, n), k) == H.Get(lh.h.value, k).Plus(Contribution(lh, ev, k, n))
  {
    if n == 0 {
      H.PlusEmpty(H.Get(lh.h.value, k));
    } else {
      FillContent(lh, ev, k, n - 1);
      if Passes(lh, ev, n - 1) {
        H.FillCellKeeps(FillSlots(lh, ev, n - 1), Key(lh, ev, n - 1), H.Unit(Weight(lh, ev, n - 1)), k,
                        H.Get(lh.h.value, k), Contribution(lh, ev, k, n - 1));
      }
    }
  }

  /** Without a weight formula every fill has weight exactly 1.0: a cell's
      weight sums equal its number of entries. */
  lemma {:induction false} UnweightedContribution(lh: LokiHist, ev: Event, k: seq<nat>, n: nat)
    requires Ready(lh) && lh.fwei.None?
    ensures Contribution(lh, ev, k, n).sumw == Contribution(lh, ev, k, n).entries as real
    ensures Contribution(lh, ev, k, n).sumw2 == Contribution(lh, ev, k, n).entries as real
  {
    if n > 0 {
      UnweightedContribution(lh, ev, k, n - 1);
    }
  }

  /** Two events that agree on every formula at slots 0..n-1 fill alike:
      `Fill(n)` reads nothing beyond slot n-1. */
  lemma {:induction false} FillReadsOnlyPrefix(lh: LokiHist, ev1: Event, ev2: Event, n: nat)
    requires Ready(lh)
    requires forall f: nat, i: nat :: i < n ==> Value(ev1, f, i) == Value(ev2, f, i)
    ensures FillSlots(lh, ev1, n) == FillSlots(lh, ev2, n)
  {
    if n > 0 {
      FillReadsOnlyPrefix(lh, ev1, ev2, n - 1);
      assert Point(lh, ev1, n - 1) == Point(lh, ev2, n - 1);
    }
  }
}
