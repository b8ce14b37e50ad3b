/** Flat training ntuples: flattening a sample into one table of columns
    (the multi-valued container check, the selection, the weight column),
    splitting a table in two complementary parts, and decorating it with
    an algorithm's output. Reading trees into arrays, writing them back
    and evaluating selection formulas are outside the model: the arrays a
    tree yields and whether an entry passes a cut are parameters. */
module Ntup {
  import opened Wrappers
  import S = Strings
  import V = Vars

  // ---------------------------------------------------------------- flattening

  /** The multi-valued containers used by any of the variables. */
  function MvConts(invars: seq<V.Var>): (r: set<V.Container>)
    ensures forall i :: 0 <= i < |invars| ==> V.MvInConts(invars[i]) <= r
    ensures forall c :: c in r ==> exists i :: 0 <= i < |invars| && c in V.MvInConts(invars[i])
  {
    if |invars| == 0 then {}
    else
      var rest := MvConts(invars[1..]);
      assert forall i :: 1 <= i < |invars| ==> invars[i] == invars[1..][i - 1];
      V.MvInConts(invars[0]) + rest
  }

  /** Index of the first multi-valued variable. */
  function FirstMultivalued(invars: seq<V.Var>): (r: Option<nat>)
    ensures r.None? <==> forall i :: 0 <= i < |invars| ==> !V.IsMultivalued(invars[i])
    ensures r.Some? ==> r.value < |invars| && V.IsMultivalued(invars[r.value])
                        && forall j :: 0 <= j < r.value ==> !V.IsMultivalued(invars[j])
  {
    if |invars| == 0 then None
    else if V.IsMultivalued(invars[0]) then Some(0)
    else
      var i := FirstMultivalued(invars[1..]);
      assert forall j :: 1 <= j < |invars| ==> invars[j] == invars[1..][j - 1];
      if i.None? then None else Some(i.value + 1)
  }

  /** The `flatten_ntup` container check: two or more multi-valued
      containers among the variables are a `ValueError`; with one, the
      length variable is the first multi-valued variable; with none there
      is no length variable. */
  function LenVar(invars: seq<V.Var>): (r: Result<Option<nat>>)
    ensures r.Err? <==> |MvConts(invars)| >= 2
    ensures r.Err? ==> r.error.ValueError?
    ensures r == Ok(None) <==> MvConts(invars) == {}
    ensures r.Ok? && r.value.Some? ==> r.value == FirstMultivalued(invars)
  {
    var mv := MvConts(invars);
    if |mv| >= 2 then Err(ValueError("Found multiple multi-valued containers in flatten_ntup()"))
    else if |mv| == 1 then
      var c :| c in mv;
      var i :| 0 <= i < |invars| && c in V.MvInConts(invars[i]);
      assert V.IsMultivalued(invars[i]);
      Ok(FirstMultivalued(invars))
    else
      assert forall i :: 0 <= i < |invars| ==> !V.IsMultivalued(invars[i]) by {
        forall i | 0 <= i < |invars| ensures !V.IsMultivalued(invars[i]) {
          assert V.MvInConts(invars[i]) <= mv;
        }
      }
      Ok(None)
  }

  /** The length variable is multi-valued and its containers are all the
      multi-valued containers in use: every other variable is single-valued
      or shares its one container. */
  lemma LenVarContainer(invars: seq<V.Var>)
    requires LenVar(invars).Ok? && LenVar(invars).value.Some?
    ensures var i := LenVar(invars).value.value;
            i < |invars| && V.IsMultivalued(invars[i]) && V.MvInConts(invars[i]) == MvConts(invars)
            && forall j :: 0 <= j < |invars| ==> V.MvInConts(invars[j]) <= V.MvInConts(invars[i])
  {
    var mv := MvConts(invars);
    assert |mv| < 2;
    var i := FirstMultivalued(invars).value;
    FillsSmallSet(V.MvInConts(invars[i]), mv);
  }

  /** A non-empty part of a set with fewer than two elements is all of
      it. */
  lemma FillsSmallSet<T>(a: set<T>, b: set<T>)
    requires a != {} && a <= b && |b| < 2
    ensures a == b
  {
    var c :| c in a;
    assert |b - {c}| == |b| - 1;
  }

  /** One column of a flat table: a branch name and its values. */
  datatype Column = Column(name: string, values: seq<real>)

  const WeightName: string := "weight"

  /** The selection for one sub-sample: the sub-sample's own selection and
      the requested one (`s.sel & sel`), or the requested one alone. */
  function TempSel(ssel: Option<V.Var>, sel: Option<V.Var>): (r: Result<Option<V.Var>>)
    ensures ssel.None? ==> r == Ok(sel)
    ensures ssel.Some? && sel.None? ==> r == Ok(ssel)
    ensures r.Err? ==> ssel.Some? && sel.Some?
  {
    if ssel.None? then Ok(sel)
    else
      var c := V.And(ssel.value, sel);
      if c.Err? then Err(c.error) else Ok(Some(c.value))
  }

  /** With both present, an entry passes the combined selection iff it
      passes the sub-sample's selection and the requested one. */
  lemma TempSelMeaning(ssel: V.Var, sel: V.Var, env: string -> real)
    requires TempSel(Some(ssel), Some(sel)).Ok?
    ensures TempSel(Some(ssel), Some(sel)).value.Some?
    ensures (V.Eval(TempSel(Some(ssel), Some(sel)).value.value, env) != 0.0)
              <==> (V.Eval(ssel, env) != 0.0 && V.Eval(sel, env) != 0.0)
  {
    V.AndMeaning(ssel, sel, env);
  }

  /** Whether the event weight comes from the sub-sample: only when
      weights are wanted and the sub-sample has one. */
  predicate WeightActive(useweight: bool, sweight: Option<V.Var>) {
    useweight && sweight.Some?
  }

  /** The dummy weight: without an active event weight, a "weight" column
      of 1.0 as long as the first column is appended; the first column must
      exist. */
  function AddDummyWeight(arrays: seq<Column>, active: bool): (r: Result<seq<Column>>)
    ensures active ==> r == Ok(arrays)
    ensures !active ==> (r.Err? <==> |arrays| == 0)
    ensures r.Ok? && !active ==>
              |r.value| == |arrays| + 1 && r.value[..|arrays|] == arrays
              && r.value[|arrays|].name == WeightName
              && |r.value[|arrays|].values| == |arrays[0].values|
              && forall k :: 0 <= k < |arrays[0].values| ==> r.value[|arrays|].values[k] == 1.0
  {
    if active then Ok(arrays)
    else if |arrays| == 0 then Err(IndexError("list index out of range"))
    else Ok(arrays + [Column(WeightName, seq(|arrays[0].values|, _ => 1.0))])
  }

  /** Index of the first column with the given name. */
  function FindColumn(arrays: seq<Column>, name: string): (r: Option<nat>)
    ensures r.None? <==> forall i :: 0 <= i < |arrays| ==> arrays[i].name != name
    ensures r.Some? ==> r.value < |arrays| && arrays[r.value].name == name
                        && forall j :: 0 <= j < r.value ==> arrays[j].name != name
  {
    if |arrays| == 0 then None
    else if arrays[0].name == name then Some(0)
    else
      var i := FindColumn(arrays[1..], name);
      assert forall j :: 1 <= j < |arrays| ==> arrays[j] == arrays[1..][j - 1];
      if i.None? then None else Some(i.value + 1)
  }

  /** Scaling by the sample's cross-section scale: the first "weight"
      column is multiplied by `scale`, every other column is untouched; a
      table without one fails. */
  function ScaleWeight(arrays: seq<Column>, scale: real): (r: Result<seq<Column>>)
    ensures r.Err? <==> FindColumn(arrays, WeightName).None?
    ensures r.Ok? ==> |r.value| == |arrays|
    ensures r.Ok? ==> var w := FindColumn(arrays, WeightName).value;
              r.value[w].name == WeightName && |r.value[w].values| == |arrays[w].values|
              && (forall k :: 0 <= k < |arrays[w].values| ==> r.value[w].values[k] == arrays[w].values[k] * scale)
              && forall i :: 0 <= i < |arrays| && i != w ==> r.value[i] == arrays[i]
  {
    var w := FindColumn(arrays, WeightName);
    if w.None? then Err(IndexError("list index out of range"))
    else
      var col := arrays[w.value];
      Ok(arrays[w.value := Column(col.name, seq(|col.values|, k requires 0 <= k < |col.values| => col.values[k] * scale))])
  }

  /** The columns written for one input file: the arrays read for the
      variables (and the sub-sample's weight when active), the dummy weight
      otherwise, then the scale applied when weights are wanted and the
      sub-sample has a scaler. */
  function FileColumns(arrays: seq<Column>, useweight: bool, sweight: Option<V.Var>, scaler: bool, scale: real): (r: Result<seq<Column>>)
    ensures r.Ok? ==> (FindColumn(r.value, WeightName).Some?
                       || (WeightActive(useweight, sweight) && !(scaler && useweight)))
  {
    var a := AddDummyWeight(arrays, WeightActive(useweight, sweight));
    if a.Err? then a
    else if scaler && useweight then ScaleWeight(a.value, scale)
    else
      assert !WeightActive(useweight, sweight) ==> a.value[|arrays|].name == WeightName;
      a
  }

  /** Without weights the "weight" column of every file is all ones, as
      long as no variable is itself named "weight". */
  lemma UnweightedOnes(arrays: seq<Column>, sweight: Option<V.Var>, scaler: bool, scale: real)
    requires |arrays| > 0
    requires forall i :: 0 <= i < |arrays| ==> arrays[i].name != WeightName
    ensures FileColumns(arrays, false, sweight, scaler, scale).Ok?
    ensures var cs := FileColumns(arrays, false, sweight, scaler, scale).value;
            FindColumn(cs, WeightName) == Some(|arrays|)
            && |cs[|arrays|].values| == |arrays[0].values|
            && forall k :: 0 <= k < |arrays[0].values| ==> cs[|arrays|].values[k] == 1.0
  {
    var cs := FileColumns(arrays, false, sweight, scaler, scale).value;
    assert cs == arrays + [Column(WeightName, seq(|arrays[0].values|, _ => 1.0))];
    assert cs[|arrays|].name == WeightName;
    assert forall i :: 0 <= i < |arrays| ==> cs[i] == arrays[i];
  }

  /** With weights but no event weight of its own, a scaled sub-sample's
      "weight" column is its scale for every entry. */
  lemma UnweightedScaled(arrays: seq<Column>, scale: real)
    requires |arrays| > 0
    requires forall i :: 0 <= i < |arrays| ==> arrays[i].name != WeightName
    ensures FileColumns(arrays, true, None, true, scale).Ok?
    ensures var cs := FileColumns(arrays, true, None, true, scale).value;
            |cs| == |arrays| + 1 && cs[|arrays|].name == WeightName
            && |cs[|arrays|].values| == |arrays[0].values|
            && forall k :: 0 <= k < |arrays[0].values| ==> cs[|arrays|].values[k] == scale
  {
    var a := AddDummyWeight(arrays, false).value;
    assert a[|arrays|].name == WeightName;
    assert forall i :: 0 <= i < |arrays| ==> a[i] == arrays[i];
    assert FindColumn(a, WeightName) == Some(|arrays|);
  }

  // ---------------------------------------------------------------- splitting

  const DefaultCut: string := "Entry$ % 2 == 0"
  const RootExt: string := ".root"

  /** What `split_ntup` writes: two output paths and two selections. */
  datatype SplitPlan = SplitPlan(fout1: string, fout2: string, cut1: string, cut2: string)

  /** `split_ntup` defaults: the cut is the even entries unless given, the
      outputs replace ".root" in the input by "_train.root" and
      "_test.root" unless given, and the second output takes the negation
      of the first cut. Empty strings count as not given. */
  function SplitDefaults(fin: string, fout1: Option<string>, fout2: Option<string>, cut1: Option<string>): (r: SplitPlan)
    ensures r.cut1 == if cut1.Some? && |cut1.value| > 0 then cut1.value else DefaultCut
    ensures r.cut2 == "!(" + r.cut1 + ")"
    ensures fout1.Some? && |fout1.value| > 0 ==> r.fout1 == fout1.value
    ensures fout2.Some? && |fout2.value| > 0 ==> r.fout2 == fout2.value
    ensures !S.Contains(fin, RootExt) ==> (fout1.None? ==> r.fout1 == fin) && (fout2.None? ==> r.fout2 == fin)
  {
    var c1 := if cut1.Some? && |cut1.value| > 0 then cut1.value else DefaultCut;
    SplitPlan(
      if fout1.Some? && |fout1.value| > 0 then fout1.value else S.ReplaceAll(fin, RootExt, "_train.root"),
      if fout2.Some? && |fout2.value| > 0 then fout2.value else S.ReplaceAll(fin, RootExt, "_test.root"),
      c1, "!(" + c1 + ")")
  }

  /** Replacing ".root" in a name that ends in it, and holds it nowhere
      else, swaps just that suffix: ".root" cannot overlap itself. */
  lemma {:induction false} ReplaceRootSuffix(stem: string, rep: string)
    requires !S.Contains(stem, RootExt)
    ensures S.ReplaceAll(stem + RootExt, RootExt, rep) == stem + rep
    decreases |stem|
  {
    var s := stem + RootExt;
    if |stem| == 0 {
      assert s == RootExt;
      assert S.ReplaceAll(s[5..], RootExt, rep) == [];
    } else {
      assert s[..5] != RootExt by {
        if |stem| >= 5 {
          assert s[..5] == stem[..5];
          assert S.StartsWith(stem, RootExt) ==> S.Contains(stem, RootExt);
        } else {
          assert s[|stem|] == '.';
          assert RootExt[|stem|] != '.';
        }
      }
      assert S.Contains(stem[1..], RootExt) ==> S.Contains(stem, RootExt);
      ReplaceRootSuffix(stem[1..], rep);
      assert s[1..] == stem[1..] + RootExt;
      assert [stem[0]] + stem[1..] == stem;
    }
  }

  /** For an input "X.root" with no other ".root" in it, the default
      outputs are "X_train.root" and "X_test.root", so they differ. */
  lemma DefaultOutputs(stem: string, cut1: Option<string>)
    requires !S.Contains(stem, RootExt)
    ensures var p := SplitDefaults(stem + RootExt, None, None, cut1);
            p.fout1 == stem + "_train.root" && p.fout2 == stem + "_test.root" && p.fout1 != p.fout2
  {
    ReplaceRootSuffix(stem, "_train.root");
    ReplaceRootSuffix(stem, "_test.root");
    var a, b := stem + "_train.root", stem + "_test.root";
    assert a[|stem| + 2] != b[|stem| + 2];
  }

  /** The entries `0..n-1` of a tree that pass a cut, in order
      (`CopyTree`); whether entry `k` passes is the parameter `pass`. */
  function Select(n: nat, pass: nat -> bool): (r: seq<nat>)
    ensures |r| <= n
    ensures forall k: nat :: k in r <==> k < n && pass(k)
    ensures forall i, j :: 0 <= i < j < |r| ==> r[i] < r[j]
  {
    if n == 0 then []
    else
      var prev := Select(n - 1, pass);
      assert forall i :: 0 <= i < |prev| ==> prev[i] in prev;
      prev + (if pass(n - 1) then [n - 1] else [])
  }

  /** The complement of a cut, `!(cut)`. */
  function Negated(pass: nat -> bool): (r: nat -> bool)
    ensures forall k: nat :: r(k) <==> !pass(k)
  {
    (k: nat) => !pass(k)
  }

  /** The two outputs of a split are complementary: every entry goes to
      exactly one of them, so together they have all `n` entries. */
  lemma SplitComplement(n: nat, pass: nat -> bool)
    ensures |Select(n, pass)| + |Select(n, Negated(pass))| == n
    ensures forall k: nat :: k < n ==> (k in Select(n, pass) <==> k !in Select(n, Negated(pass)))
  {
    SelectCount(n, pass);
    SelectCount(n, Negated(pass));
    CountComplement(n, pass, Negated(pass));
  }

  /** How many of the entries `0..n-1` pass. */
  function Count(n: nat, pass: nat -> bool): nat {
    if n == 0 then 0 else Count(n - 1, pass) + (if pass(n - 1) then 1 else 0)
  }

  lemma {:induction false} SelectCount(n: nat, pass: nat -> bool)
    ensures |Select(n, pass)| == Count(n, pass)
  {
    if n > 0 {
      SelectCount(n - 1, pass);
    }
  }

  lemma {:induction false} CountComplement(n: nat, pass: nat -> bool, fail: nat -> bool)
    requires forall k: nat :: fail(k) <==> !pass(k)
    ensures Count(n, pass) + Count(n, fail) == n
  {
    if n > 0 {
      CountComplement(n - 1, pass, fail);
    }
  }

  /** Whether an entry passes the default cut. */
  predicate EvenEntry(k: nat) {
    k % 2 == 0
  }

  /** The default cut sends the even entries, half of them rounded up, to
      the first output. */
  lemma DefaultSplitHalves(n: nat)
    ensures |Select(n, EvenEntry)| == (n + 1) / 2
  {
    SelectCount(n, EvenEntry);
    CountEven(n);
  }

  lemma {:induction false} CountEven(n: nat)
    ensures Count(n, EvenEntry) == (n + 1) / 2
  {
    if n > 0 {
      CountEven(n - 1);
    }
  }

  // ---------------------------------------------------------------- decorating

  /** The branches of a tree without `brname`, in order. */
  function Without(branches: seq<string>, brname: string): (r: seq<string>)
    ensures brname !in r
    ensures forall b :: b in r <==> b in branches && b != brname
  {
    if |branches| == 0 then []
    else (if branches[0] == brname then [] else [branches[0]]) + Without(branches[1..], brname)
  }

  /** `decorate_ntup`: the input must be given and exist (`trees` maps a
      file to its tree's branch names); an existing branch of that name is
      only replaced with `overwrite`; the algorithm must predict values.
      The decorated tree keeps every other branch in order, the old branch
      being disabled before the copy, and gets the new one last. */
  function Decorate(fin: Option<string>, trees: map<string, seq<string>>, brname: string, overwrite: bool,
                    predicted: Option<seq<real>>): (r: Result<map<string, seq<string>>>)
    ensures r.Err? <==> fin.None? || |fin.value| == 0 || fin.value !in trees
                        || (brname in trees[fin.value] && !overwrite) || predicted.None?
    ensures r.Ok? ==> r.value.Keys == trees.Keys
                      && forall f :: f in trees && f != fin.value ==> r.value[f] == trees[f]
    ensures r.Ok? ==> var b := r.value[fin.value];
              |b| > 0 && b[|b| - 1] == brname && brname !in b[..|b| - 1]
              && forall x :: x != brname ==> (x in b <==> x in trees[fin.value])
  {
    if fin.None? || |fin.value| == 0 || fin.value !in trees then Err(ValueError("Input file does not exist"))
    else if brname in trees[fin.value] && !overwrite then Err(ValueError("Will not overwrite existing var"))
    else if predicted.None? then Err(ValueError("Failure predicting algorithm output, aborting"))
    else
      var b := Without(trees[fin.value], brname) + [brname];
      assert b[..|b| - 1] == Without(trees[fin.value], brname);
      Ok(trees[fin.value := b])
  }

  /** Decorating again with `overwrite` gives the same branches, and
      without it is refused. */
  lemma DecorateAgain(fin: string, trees: map<string, seq<string>>, brname: string, overwrite: bool,
                      predicted: seq<real>, again: seq<real>)
    requires Decorate(Some(fin), trees, brname, overwrite, Some(predicted)).Ok?
    ensures var t := Decorate(Some(fin), trees, brname, overwrite, Some(predicted)).value;
            Decorate(Some(fin), t, brname, true, Some(again)) == Ok(t)
            && Decorate(Some(fin), t, brname, false, Some(again)).Err?
  {
    var t := Decorate(Some(fin), trees, brname, overwrite, Some(predicted)).value;
    var b := t[fin];
    WithoutLast(Without(trees[fin], brname), brname);
    assert Without(b, brname) + [brname] == b;
    assert t[fin := b] == t;
  }

  /** Removing `x` from a list without it, plus `x`, gives the list
      without it. */
  lemma {:induction false} WithoutLast(bs: seq<string>, x: string)
    requires x !in bs
    ensures Without(bs + [x], x) == bs
  {
    if |bs| == 0 {
      assert Without([x], x) == [] + Without([], x);
    } else {
      WithoutLast(bs[1..], x);
      assert (bs + [x])[1..] == bs[1..] + [x];
      assert [bs[0]] + bs[1..] == bs;
    }
  }
}
