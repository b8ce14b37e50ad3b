/** Variables and expressions (`VarBase` and its subclasses `Var`, `Expr`,
    `Cuts`, `Weights`, `StaticExpr`), their views (binnings), containers,
    and the name/view lookup functions.

    A variable is a tree: composite variables (`Expr`, `Cuts`, `Weights`)
    hold their input variables. The expression text of a leaf is the branch
    the tree lookup resolves it to; that lookup is a parameter here
    (`resolve`). The value of a leaf or formula on a candidate is likewise a
    parameter (`env`), so that the meaning of `Cuts` (all inputs pass) and
    `Weights` (product of the inputs) can be stated. */
module Vars {
  import opened Wrappers
  import S = Strings
  import HU = HistUtils

  datatype Container = Container(name: string, singleValued: bool)

  /** One piece of an `Expr` template: literal text or a `{i}` reference
      to the i-th input variable. */
  datatype Piece = Lit(text: string) | Ref(index: nat)

  datatype Kind =
    | Leaf(branch: string)           // Var: a branch of the input tree
    | Formula(template: seq<Piece>)  // Expr: a template over the inputs
    | CutsOf                         // Cuts: AND of the inputs
    | WeightsOf                      // Weights: product of the inputs
    | Static(text: string)           // StaticExpr: fixed text

  /** A binning of a variable. `binwidth` is set for uniform bins only. */
  datatype View = View(name: string, xbins: seq<real>, binwidth: Option<real>)

  datatype Var = Var(
    name: string,
    cont: Option<Container>,
    kind: Kind,
    invars: seq<Var>,
    views: seq<View>,
    temp: bool)

  // ---------------------------------------------------------------- naming

  /** `get_name`: "cont_name", or the bare name without a container. */
  function GetName(v: Var): string {
    if v.cont.None? then v.name else v.cont.value.name + "_" + v.name
  }

  /** The name ends in the variable's own name; with a container, the
      container's name and a '_' come first. */
  lemma GetNameShape(v: Var)
    ensures S.EndsWith(GetName(v), v.name)
    ensures v.cont.None? ==> GetName(v) == v.name
    ensures v.cont.Some? ==> S.StartsWith(GetName(v), v.cont.value.name)
                             && |GetName(v)| == |v.cont.value.name| + 1 + |v.name|
                             && GetName(v)[|v.cont.value.name|] == '_'
  {
  }

  /** `serialize`: "cont.name", or the bare name without a container. */
  function Serialize(v: Var): string {
    if v.cont.None? then v.name else v.cont.value.name + "." + v.name
  }

  /** The serialized name ends in the variable's own name; with a
      container, the container's name and a '.' come first. */
  lemma SerializeShape(v: Var)
    ensures S.EndsWith(Serialize(v), v.name)
    ensures v.cont.None? ==> Serialize(v) == v.name
    ensures v.cont.Some? ==> S.StartsWith(Serialize(v), v.cont.value.name)
                             && |Serialize(v)| == |v.cont.value.name| + 1 + |v.name|
                             && Serialize(v)[|v.cont.value.name|] == '.'
  {
  }

  /** `get_newbranch`: a `Var` keeps its branch name, a `StaticExpr` its
      name, every other variable is "cont.name". */
  function NewBranch(v: Var): (r: string)
    ensures v.kind.Leaf? ==> S.EndsWith(r, v.kind.branch)
    ensures v.cont.None? && !v.kind.Leaf? ==> r == v.name
  {
    match v.kind
    case Leaf(b) => if v.cont.None? then b else v.cont.value.name + "." + b
    case Static(_) => v.name
    case _ => Serialize(v)
  }

  /** The two container-qualified spellings differ only in the separator. */
  lemma NameSpellings(v: Var)
    requires v.cont.Some?
    ensures var c := v.cont.value.name;
            GetName(v) == c + "_" + v.name && Serialize(v) == c + "." + v.name
            && |GetName(v)| == |Serialize(v)|
            && GetName(v)[..|c|] == Serialize(v)[..|c|]
            && GetName(v)[|c| + 1..] == Serialize(v)[|c| + 1..]
  {
  }

  // ---------------------------------------------------------------- containers

  /** `get_inconts`: a leaf's own container (None included), else the union
      over the inputs. */
  function InConts(v: Var): set<Option<Container>>
    decreases v, 1
  {
    if |v.invars| == 0 then {v.cont} else InContsAll(v.invars)
  }

  function InContsAll(vs: seq<Var>): set<Option<Container>>
    decreases vs, 0
  {
    if |vs| == 0 then {} else InConts(vs[0]) + InContsAll(vs[1..])
  }

  /** The multi-valued containers among a set of containers. */
  function MultiValued(cs: set<Option<Container>>): (r: set<Container>)
    ensures forall c :: c in r <==> Some(c) in cs && !c.singleValued
  {
    set o | o in cs && o.Some? && !o.value.singleValued :: o.value
  }

  /** `get_mvinconts`. */
  function MvInConts(v: Var): (r: set<Container>)
    ensures forall c :: c in r ==> !c.singleValued && Some(c) in InConts(v)
    ensures |v.invars| == 0 ==> (r == {} <==> v.cont.None? || v.cont.value.singleValued)
  {
    MultiValued(InConts(v))
  }

  /** `is_multivalued`. */
  predicate IsMultivalued(v: Var) {
    MvInConts(v) != {}
  }

  lemma MultiValuedUnion(a: set<Option<Container>>, b: set<Option<Container>>)
    ensures MultiValued(a + b) == MultiValued(a) + MultiValued(b)
  {
  }

  /** A leaf's container set is its own container; it is multi-valued iff
      that container exists and is not single-valued. */
  lemma LeafContainers(v: Var)
    requires |v.invars| == 0
    ensures InConts(v) == {v.cont}
    ensures IsMultivalued(v) <==> v.cont.Some? && !v.cont.value.singleValued
    ensures IsMultivalued(v) ==> MvInConts(v) == {v.cont.value}
  {
    if v.cont.Some? && !v.cont.value.singleValued {
      assert v.cont.value in MvInConts(v);
    }
  }

  /** A composite's containers are its two inputs' containers. */
  lemma PairContainers(v: Var, a: Var, b: Var)
    requires v.invars == [a, b]
    ensures InConts(v) == InConts(a) + InConts(b)
    ensures MvInConts(v) == MvInConts(a) + MvInConts(b)
  {
    assert v.invars[0] == a && v.invars[1..] == [b];
    assert [b][0] == b && [b][1..] == [];
    assert InContsAll([b]) == InConts(b) + InContsAll([]);
    assert InContsAll(v.invars) == InConts(a) + InContsAll([b]);
    MultiValuedUnion(InConts(a), InConts(b));
  }

  /** The `VarBase` constructor: `__check_invars__` refuses inputs from
      more than one multi-valued container with a `VarError`. */
  function Make(name: string, cont: Option<Container>, kind: Kind, invars: seq<Var>, temp: bool): (r: Result<Var>)
    ensures r.Err? <==> |invars| > 0 && |MultiValued(InContsAll(invars))| > 1
    ensures r.Err? ==> r.error.VarError?
    ensures r.Ok? ==> (r.value.name == name && r.value.cont == cont && r.value.kind == kind
                       && r.value.invars == invars && r.value.views == [] && r.value.temp == temp)
  {
    var v := Var(name, cont, kind, invars, [], temp);
    if |invars| > 0 && |MvInConts(v)| > 1 then Err(VarError("Variables not allowed to be comprised of multiple multivalued containers"))
    else Ok(v)
  }

  /** Every variable `Make` accepts uses at most one multi-valued container. */
  lemma MadeSingleGroup(name: string, cont: Option<Container>, kind: Kind, invars: seq<Var>, temp: bool)
    requires |invars| > 0
    requires Make(name, cont, kind, invars, temp).Ok?
    ensures |MvInConts(Make(name, cont, kind, invars, temp).value)| <= 1
  {
  }

  // ---------------------------------------------------------------- & and *

  /** `v & other`: `v` itself for None, else a temporary `Cuts` of both
      named "v_other" in v's container. */
  function And(v: Var, other: Option<Var>): (r: Result<Var>)
    ensures other.None? ==> r == Ok(v)
    ensures other.Some? && r.Ok? ==> (r.value.kind == CutsOf && r.value.invars == [v, other.value]
                                      && r.value.name == v.name + "_" + other.value.name && r.value.cont == v.cont)
  {
    if other.None? then Ok(v) else Make(v.name + "_" + other.value.name, v.cont, CutsOf, [v, other.value], true)
  }

  /** `v * other`: `v` itself for None, else a temporary `Weights` of both. */
  function Mul(v: Var, other: Option<Var>): (r: Result<Var>)
    ensures other.None? ==> r == Ok(v)
    ensures other.Some? && r.Ok? ==> (r.value.kind == WeightsOf && r.value.invars == [v, other.value]
                                      && r.value.name == v.name + "_" + other.value.name && r.value.cont == v.cont)
  {
    if other.None? then Ok(v) else Make(v.name + "_" + other.value.name, v.cont, WeightsOf, [v, other.value], true)
  }

  /** Combining two variables fails exactly when together they use two
      multi-valued containers; the result uses the union of theirs. */
  lemma AndContainers(v: Var, o: Var)
    ensures And(v, Some(o)).Err? <==> |MvInConts(v) + MvInConts(o)| > 1
    ensures Mul(v, Some(o)).Err? <==> |MvInConts(v) + MvInConts(o)| > 1
    ensures And(v, Some(o)).Ok? ==> MvInConts(And(v, Some(o)).value) == MvInConts(v) + MvInConts(o)
    ensures Mul(v, Some(o)).Ok? ==> MvInConts(Mul(v, Some(o)).value) == MvInConts(v) + MvInConts(o)
  {
    var c := Var("", None, CutsOf, [v, o], [], true);
    PairContainers(c, v, o);
    assert InContsAll([v, o]) == InConts(c);
    if And(v, Some(o)).Ok? {
      PairContainers(And(v, Some(o)).value, v, o);
    }
    if Mul(v, Some(o)).Ok? {
      PairContainers(Mul(v, Some(o)).value, v, o);
    }
  }

  // ---------------------------------------------------------------- meaning

  /** Value of a variable on one candidate. Leaves and formulas take their
      value from `env` (by name); `Cuts` is 1 when every input is nonzero,
      else 0; `Weights` is the product of the inputs. */
  function Eval(v: Var, env: string -> real): (r: real)
    ensures v.kind.CutsOf? ==> r == 0.0 || r == 1.0
    decreases v, 1
  {
    match v.kind
    case CutsOf => if AllPass(v.invars, env) then 1.0 else 0.0
    case WeightsOf => Product(v.invars, env)
    case _ => env(GetName(v))
  }

  predicate AllPass(vs: seq<Var>, env: string -> real)
    decreases vs, 0
  {
    |vs| == 0 || (Eval(vs[0], env) != 0.0 && AllPass(vs[1..], env))
  }

  function Product(vs: seq<Var>, env: string -> real): real
    decreases vs, 0
  {
    if |vs| == 0 then 1.0 else Eval(vs[0], env) * Product(vs[1..], env)
  }

  /** `a & b` passes iff both pass; `a * b` is the product. */
  lemma AndMeaning(a: Var, b: Var, env: string -> real)
    requires And(a, Some(b)).Ok?
    ensures (Eval(And(a, Some(b)).value, env) != 0.0) <==> (Eval(a, env) != 0.0 && Eval(b, env) != 0.0)
  {
    var c := And(a, Some(b)).value;
    assert c.invars[0] == a && c.invars[1..] == [b];
    assert [b][0] == b && [b][1..] == [];
    assert AllPass([b], env) == (Eval(b, env) != 0.0 && AllPass([], env));
    assert AllPass(c.invars, env) == (Eval(a, env) != 0.0 && AllPass([b], env));
  }

  lemma MulMeaning(a: Var, b: Var, env: string -> real)
    requires Mul(a, Some(b)).Ok?
    ensures Eval(Mul(a, Some(b)).value, env) == Eval(a, env) * Eval(b, env)
  {
    var c := Mul(a, Some(b)).value;
    assert c.kind == WeightsOf && c.invars == [a, b];
    EvalWeights(c, env);
    ProductPair(a, b, env);
  }

  lemma EvalWeights(c: Var, env: string -> real)
    requires c.kind == WeightsOf
    ensures Eval(c, env) == Product(c.invars, env)
  {
  }

  lemma ProductPair(a: Var, b: Var, env: string -> real)
    ensures Product([a, b], env) == Eval(a, env) * Eval(b, env)
  {
    assert [a, b][1..] == [b] && [b][1..] == [];
    assert Product([b], env) == Eval(b, env) * 1.0;
  }

  // ---------------------------------------------------------------- expression text

  /** Each text in parentheses. */
  function Paren(ts: seq<string>): (r: seq<string>)
    ensures |r| == |ts|
    ensures forall i :: 0 <= i < |ts| ==> r[i] == "(" + ts[i] + ")"
  {
    if |ts| == 0 then [] else ["(" + ts[0] + ")"] + Paren(ts[1..])
  }

  /** The text `Cuts` ("&&") and `Weights` ("*") build from their inputs'
      texts: "1" without inputs, else "(e1)op(e2)op...". */
  function Combine(op: string, ts: seq<string>): string {
    if |ts| == 0 then "1" else S.Join(op, Paren(ts))
  }

  lemma {:induction false} JoinSnoc(sep: string, ps: seq<string>, p: string)
    requires |ps| > 0
    ensures S.Join(sep, ps + [p]) == S.Join(sep, ps) + sep + p
    decreases |ps|
  {
    if |ps| == 1 {
      assert ps + [p] == [ps[0], p];
      assert [ps[0], p][1..] == [p];
    } else {
      assert (ps + [p])[1..] == ps[1..] + [p];
      JoinSnoc(sep, ps[1..], p);
    }
  }

  lemma {:induction false} ParenSnoc(ts: seq<string>, t: string)
    ensures Paren(ts + [t]) == Paren(ts) + ["(" + t + ")"]
  {
  }

  /** Adding one more input appends "op(e)" to the text. */
  lemma CombineSnoc(op: string, ts: seq<string>, t: string)
    requires |ts| > 0
    ensures Combine(op, ts + [t]) == Combine(op, ts) + op + "(" + t + ")"
  {
    var p, q := Paren(ts), "(" + t + ")";
    ParenSnoc(ts, t);
    JoinSnoc(op, p, q);
    assert Combine(op, ts + [t]) == S.Join(op, p) + op + q;
    ParenAssoc(S.Join(op, p), op, t);
  }

  lemma ParenAssoc(x: string, op: string, t: string)
    ensures x + op + ("(" + t + ")") == x + op + "(" + t + ")"
  {
  }

  /** Every joined piece is an infix of the join. */
  lemma {:induction false} JoinContains(sep: string, ps: seq<string>, i: nat)
    requires i < |ps|
    ensures S.Contains(S.Join(sep, ps), ps[i])
    decreases |ps|
  {
    if |ps| == 1 {
      S.ContainsInfix("", ps[0], "");
      assert "" + ps[0] + "" == S.Join(sep, ps);
    } else if i == 0 {
      S.ContainsInfix("", ps[0], sep + S.Join(sep, ps[1..]));
      assert "" + ps[0] + (sep + S.Join(sep, ps[1..])) == S.Join(sep, ps);
    } else {
      JoinContains(sep, ps[1..], i - 1);
      S.ContainsExtend(ps[0] + sep, S.Join(sep, ps[1..]), ps[i]);
      assert (ps[0] + sep) + S.Join(sep, ps[1..]) == S.Join(sep, ps);
    }
  }

  /** Every input text appears, parenthesised, in the combined text. */
  lemma CombineContains(op: string, ts: seq<string>, i: nat)
    requires i < |ts|
    ensures S.Contains(Combine(op, ts), "(" + ts[i] + ")")
  {
    JoinContains(op, Paren(ts), i);
  }

  /** Fills an `Expr` template with its inputs' texts (`str.format`); a
      reference past the inputs is Python's IndexError. */
  function Format(t: seq<Piece>, args: seq<string>): (r: Result<string>)
    ensures r.Err? <==> exists i :: 0 <= i < |t| && t[i].Ref? && t[i].index >= |args|
  {
    if |t| == 0 then Ok("")
    else
      var rest := Format(t[1..], args);
      match t[0]
      case Lit(s) => if rest.Ok? then Ok(s + rest.value) else rest
      case Ref(i) =>
        if i >= |args| then Err(IndexError("Replacement index out of range"))
        else if rest.Ok? then Ok(args[i] + rest.value) else rest
  }

  /** `get_expr` after `tree_init` (standard initialisation): leaves give
      their resolved branch, templates are filled, Cuts and Weights
      combine their inputs, static expressions give their text. */
  function Text(v: Var, resolve: string -> string): (r: Result<string>)
    ensures v.kind.Leaf? || v.kind.Static? ==> r.Ok?
    ensures r.Ok? && v.kind.CutsOf? && |v.invars| == 0 ==> r.value == "1"
    decreases v, 1
  {
    match v.kind
    case Leaf(b) => Ok(resolve(if v.cont.None? then b else v.cont.value.name + "." + b))
    case Static(t) => Ok(t)
    case Formula(t) =>
      var args := Texts(v.invars, resolve);
      if args.Err? then Err(args.error) else Format(t, args.value)
    case CutsOf =>
      var args := Texts(v.invars, resolve);
      if args.Err? then Err(args.error) else Ok(Combine("&&", args.value))
    case WeightsOf =>
      var args := Texts(v.invars, resolve);
      if args.Err? then Err(args.error) else Ok(Combine("*", args.value))
  }

  function Texts(vs: seq<Var>, resolve: string -> string): (r: Result<seq<string>>)
    ensures r.Ok? ==> |r.value| == |vs|
    decreases vs, 0
  {
    if |vs| == 0 then Ok([])
    else
      var t := Text(vs[0], resolve);
      var ts := Texts(vs[1..], resolve);
      if t.Err? then Err(t.error) else if ts.Err? then Err(ts.error) else Ok([t.value] + ts.value)
  }

  lemma TextsPair(a: Var, b: Var, resolve: string -> string)
    requires Text(a, resolve).Ok? && Text(b, resolve).Ok?
    ensures Texts([a, b], resolve) == Ok([Text(a, resolve).value, Text(b, resolve).value])
  {
    var ta, tb := Text(a, resolve).value, Text(b, resolve).value;
    assert [a, b][0] == a && [a, b][1..] == [b];
    assert [b][0] == b && [b][1..] == [];
    assert Texts([b], resolve) == Ok([tb]) by {
      assert [tb] + [] == [tb];
    }
    assert [ta] + [tb] == [ta, tb];
  }

  lemma CombinePair(op: string, x: string, y: string)
    ensures Combine(op, [x, y]) == "(" + x + ")" + op + "(" + y + ")"
  {
    var ps := Paren([x, y]);
    assert ps == ["(" + x + ")", "(" + y + ")"];
    assert ps[1..] == ["(" + y + ")"];
    assert S.Join(op, ps[1..]) == "(" + y + ")";
    assert S.Join(op, ps) == ps[0] + op + S.Join(op, ps[1..]);
  }

  /** The text of `a & b` is "(text a)&&(text b)". */
  lemma AndText(a: Var, b: Var, resolve: string -> string)
    requires And(a, Some(b)).Ok? && Text(a, resolve).Ok? && Text(b, resolve).Ok?
    ensures Text(And(a, Some(b)).value, resolve) == Ok("(" + Text(a, resolve).value + ")" + "&&" + "(" + Text(b, resolve).value + ")")
  {
    var c := And(a, Some(b)).value;
    var ta, tb := Text(a, resolve).value, Text(b, resolve).value;
    assert c.kind == CutsOf && c.invars == [a, b];
    TextsPair(a, b, resolve);
    TextCombined(c, "&&", resolve);
    CombinePair("&&", ta, tb);
  }

  /** A `Cuts` or `Weights` variable's text combines its inputs' texts. */
  lemma TextCombined(c: Var, op: string, resolve: string -> string)
    requires (c.kind == CutsOf && op == "&&") || (c.kind == WeightsOf && op == "*")
    requires Texts(c.invars, resolve).Ok?
    ensures Text(c, resolve) == Ok(Combine(op, Texts(c.invars, resolve).value))
  {
  }

  /** The text of `a * b` is "(text a)*(text b)". */
  lemma MulText(a: Var, b: Var, resolve: string -> string)
    requires Mul(a, Some(b)).Ok? && Text(a, resolve).Ok? && Text(b, resolve).Ok?
    ensures Text(Mul(a, Some(b)).value, resolve) == Ok("(" + Text(a, resolve).value + ")" + "*" + "(" + Text(b, resolve).value + ")")
  {
    var c := Mul(a, Some(b)).value;
    var ta, tb := Text(a, resolve).value, Text(b, resolve).value;
    assert c.kind == WeightsOf && c.invars == [a, b];
    TextsPair(a, b, resolve);
    TextCombined(c, "*", resolve);
    CombinePair("*", ta, tb);
  }

  // ---------------------------------------------------------------- views

  predicate UniqueViewNames(vs: seq<View>) {
    forall i, j :: 0 <= i < j < |vs| ==> vs[i].name != vs[j].name
  }

  function ViewNames(vs: seq<View>): (r: seq<string>)
    ensures |r| == |vs|
    ensures forall i :: 0 <= i < |vs| ==> r[i] == vs[i].name
  {
    seq(|vs|, i requires 0 <= i < |vs| => vs[i].name)
  }

  /** First view of that name. */
  function FirstNamed(vs: seq<View>, name: string): (r: Option<View>)
    ensures r.Some? ==> r.value in vs && r.value.name == name
    ensures r.None? <==> name !in ViewNames(vs)
  {
    if |vs| == 0 then None
    else if vs[0].name == name then Some(vs[0])
    else FirstNamed(vs[1..], name)
  }

  /** `add_view(nbins, xmin, xmax, name, xbins=...)` without log binning.
      Edges come from `xbins` when given and non-empty, else from
      `bins(nbins, xmin, xmax)`. A view whose name is taken is not added. */
  function AddView(v: Var, nbins: Option<nat>, xmin: Option<real>, xmax: Option<real>,
                   name: Option<string>, xbins: Option<seq<real>>): (r: Result<Var>)
    ensures xbins.None? && (nbins.None? || xmin.None? || xmax.None?) ==> r.Err? && r.error.ValueError?
    ensures r.Ok? ==> r.value.(views := v.views) == v
    ensures r.Ok? ==> r.value.views == v.views || (|r.value.views| == |v.views| + 1 && r.value.views[..|v.views|] == v.views)
    ensures r.Ok? && UniqueViewNames(v.views) ==> UniqueViewNames(r.value.views)
  {
    if xbins.None? && (nbins.None? || xmin.None? || xmax.None?) then
      Err(ValueError("Must provide (nbins,xmin,xmax) or xbins to add_view"))
    else
      var given := xbins.Some? && |xbins.value| > 0;
      if !given && (nbins.None? || xmin.None? || xmax.None?) then Err(Fatal("bins() needs nbins, xmin and xmax"))
      else if !given && nbins.value == 0 then Err(Fatal("division by zero"))
      else
        var edges := if given then xbins.value else HU.Bins(nbins.value, xmin.value, xmax.value);
        var width := if given then None else Some((xmax.value - xmin.value) / (nbins.value as real));
        var vname := if name.Some? && |name.value| > 0 then name.value else "default";
        var w := View(vname, edges, width);
        if vname in ViewNames(v.views) then Ok(v) else Ok(v.(views := v.views + [w]))
  }

  /** `get_view(name)`: None without views, the first view for no name,
      else the first view of that name. */
  function GetView(v: Var, name: Option<string>): (r: Option<View>)
    ensures |v.views| == 0 ==> r.None?
    ensures |v.views| > 0 && name.None? ==> r == Some(v.views[0])
    ensures name.Some? && r.Some? ==> r.value.name == name.value && r.value in v.views
  {
    if |v.views| == 0 then None
    else if name.None? then Some(v.views[0])
    else FirstNamed(v.views, name.value)
  }

  predicate HasView(v: Var, name: string) {
    name in ViewNames(v.views)
  }

  /** A freshly named view can be looked up right after `add_view`, and it
      carries the edges it was given. */
  lemma AddViewThenGet(v: Var, name: string, xbins: seq<real>)
    requires |name| > 0 && |xbins| > 0 && !HasView(v, name)
    ensures AddView(v, None, None, None, Some(name), Some(xbins)).Ok?
    ensures GetView(AddView(v, None, None, None, Some(name), Some(xbins)).value, Some(name))
            == Some(View(name, xbins, None))
  {
    var w := View(name, xbins, None);
    var r := AddView(v, None, None, None, Some(name), Some(xbins)).value;
    assert r.views == v.views + [w];
    FirstNamedAppend(v.views, w);
  }

  lemma {:induction false} FirstNamedAppend(vs: seq<View>, w: View)
    requires w.name !in ViewNames(vs)
    ensures FirstNamed(vs + [w], w.name) == Some(w)
  {
    if |vs| == 0 {
      assert vs + [w] == [w];
    } else {
      assert (vs + [w])[1..] == vs[1..] + [w];
      assert vs[0].name == ViewNames(vs)[0];
      assert w.name !in ViewNames(vs[1..]) by {
        forall i | 0 <= i < |vs| - 1
          ensures ViewNames(vs[1..])[i] == ViewNames(vs)[i + 1]
        {
        }
      }
      FirstNamedAppend(vs[1..], w);
    }
  }

  /** A view whose name is already taken leaves the variable unchanged. */
  lemma AddViewDuplicate(v: Var, name: string, xbins: seq<real>)
    requires |name| > 0 && |xbins| > 0 && HasView(v, name)
    ensures AddView(v, None, None, None, Some(name), Some(xbins)) == Ok(v)
  {
  }

  // ---------------------------------------------------------------- lookup

  /** What the global lookups see: each container's variables in order,
      and the global (container-less) variables by name. */
  datatype Registry = Registry(conts: map<string, seq<Var>>, globals: map<string, Var>)

  /** `Container.get_var(name)`: the first variable of that name. */
  function GetVar(vs: seq<Var>, name: string): (r: Option<Var>)
    ensures r.Some? ==> r.value in vs && r.value.name == name
    ensures r.None? <==> forall i :: 0 <= i < |vs| ==> vs[i].name != name
  {
    if |vs| == 0 then None
    else if vs[0].name == name then Some(vs[0])
    else GetVar(vs[1..], name)
  }

  /** `find_variable(name)`: two or more '.' find nothing; one '.' is
      "container.variable"; none is a global variable. */
  function FindVariable(reg: Registry, name: string): (r: Option<Var>)
    ensures S.Count(name, '.') > 1 ==> r.None?
    ensures S.Count(name, '.') == 0 ==> r == (if name in reg.globals then Some(reg.globals[name]) else None)
  {
    var n := S.Count(name, '.');
    if n > 1 then None
    else if n == 1 then
      S.SplitCount(name, '.');
      var parts := S.Split(name, '.');
      if parts[0] in reg.conts then GetVar(reg.conts[parts[0]], parts[1]) else None
    else if name in reg.globals then Some(reg.globals[name])
    else None
  }

  /** A container variable is found by its serialised name "cont.name",
      provided neither part contains '.' and it is the first of its name. */
  lemma FindSerialized(reg: Registry, c: string, v: Var)
    requires '.' !in c && '.' !in v.name
    requires c in reg.conts && GetVar(reg.conts[c], v.name) == Some(v)
    ensures FindVariable(reg, c + "." + v.name) == Some(v)
  {
    var s := c + "." + v.name;
    S.CountAppend(c + ".", v.name, '.');
    S.CountAppend(c, ".", '.');
    assert S.Count(".", '.') == 1;
    S.JoinSplit([c, v.name], '.');
    assert S.Join(['.'], [c, v.name]) == s;
  }

  /** `find_view(name)`: "var:view" finds that view of the variable,
      a bare variable name finds its default (first) view. */
  function FindView(reg: Registry, name: string): (r: Option<View>)
    ensures S.Count(name, ':') > 1 ==> r.None?
  {
    var n := S.Count(name, ':');
    if n > 1 then None
    else if n == 1 then
      S.SplitCount(name, ':');
      var parts := S.Split(name, ':');
      var v := FindVariable(reg, parts[0]);
      if v.None? || !HasView(v.value, parts[1]) then None else GetView(v.value, Some(parts[1]))
    else
      var v := FindVariable(reg, name);
      if v.None? || |v.value.views| == 0 then None else GetView(v.value, None)
  }

  /** A view found by "var:view" is a view of that name. */
  lemma FindViewNamed(reg: Registry, name: string)
    requires S.Count(name, ':') == 1 && FindView(reg, name).Some?
    ensures |S.Split(name, ':')| == 2 && FindView(reg, name).value.name == S.Split(name, ':')[1]
  {
    S.SplitCount(name, ':');
  }

  /** A global variable's view is found by "name:view". */
  lemma FindViewOfGlobal(reg: Registry, vn: string, w: View)
    requires '.' !in vn && ':' !in vn && ':' !in w.name
    requires vn in reg.globals && FirstNamed(reg.globals[vn].views, w.name) == Some(w)
    ensures FindView(reg, vn + ":" + w.name) == Some(w)
  {
    var s := vn + ":" + w.name;
    S.CountAppend(vn + ":", w.name, ':');
    S.CountAppend(vn, ":", ':');
    assert S.Count(":", ':') == 1;
    S.JoinSplit([vn, w.name], ':');
    assert S.Join([':'], [vn, w.name]) == s;
    assert S.Count(vn, '.') == 0;
  }

  /** `default_cut()` / `default_weight()`: a constant-1 expression (a
      registered "nocut" / "noweight" variable takes its place if one
      exists). */
  function DefaultCut(reg: Registry): (r: Var)
    ensures "nocut" !in reg.globals ==> r.kind == Formula([Lit("1")]) && r.invars == []
  {
    if "nocut" in reg.globals then reg.globals["nocut"] else Var("nocut", None, Formula([Lit("1")]), [], [], false)
  }

  function DefaultWeight(reg: Registry): (r: Var)
    ensures "noweight" !in reg.globals ==> r.kind == Formula([Lit("1")]) && r.invars == []
  {
    if "noweight" in reg.globals then reg.globals["noweight"] else Var("noweight", None, Formula([Lit("1")]), [], [], false)
  }
}
