/** Command-line argument parsing: comma-separated lists, argument files,
    TMVA-style `key=value` arguments (the counterpart of the option-string
    encoder), selections and weights from predefined variables, and
    variable views given as `VAR:VIEW` or `VAR:N;MIN;MAX`. Reading files is
    not part of this model: a file is given by its lines. */
module ArgParse {
  import opened Wrappers
  import S = Strings
  import V = Vars
  import A = Algs
  import HU = HistUtils

  // ---------------------------------------------------------------- lists

  function StripAll(ps: seq<string>): (r: seq<string>)
    ensures |r| == |ps|
    ensures forall i :: 0 <= i < |ps| ==> r[i] == S.Strip(ps[i])
  {
    seq(|ps|, i requires 0 <= i < |ps| => S.Strip(ps[i]))
  }

  /** `read_args_str`: None stays None, else the comma-separated pieces,
      each stripped. */
  function ReadArgsStr(s: Option<string>): (r: Option<seq<string>>)
    ensures s.None? <==> r.None?
    ensures r.Some? ==> |r.value| == S.Count(s.value, ',') + 1
  {
    if s.None? then None
    else
      S.SplitCount(s.value, ',');
      Some(StripAll(S.Split(s.value, ',')))
  }

  /** Pieces already stripped and free of commas come back unchanged. */
  lemma ReadArgsStrJoin(ps: seq<string>)
    requires |ps| > 0
    requires forall i :: 0 <= i < |ps| ==> ',' !in ps[i] && S.Trimmed(ps[i])
    ensures ReadArgsStr(Some(S.Join(",", ps))) == Some(ps)
  {
    S.JoinSplit(ps, ',');
    StripAllId(ps);
  }

  lemma StripAllId(ps: seq<string>)
    requires forall i :: 0 <= i < |ps| ==> S.Trimmed(ps[i])
    ensures StripAll(ps) == ps
  {
    forall i | 0 <= i < |ps| ensures S.Strip(ps[i]) == ps[i] {
      S.StripFixed(ps[i]);
    }
  }

  /** A line `read_args_file` keeps: non-empty and not a comment. */
  predicate Kept(l: string) {
    |l| > 0 && l[0] != '#'
  }

  /** `read_args_file`: a missing file gives None; otherwise every line
      stripped, dropping empty lines and comments. */
  function ReadArgsFile(lines: Option<seq<string>>): (r: Option<seq<string>>)
    ensures lines.None? <==> r.None?
    ensures r.Some? ==> |r.value| <= |lines.value|
    ensures r.Some? ==> forall j :: 0 <= j < |r.value| ==> Kept(r.value[j])
  {
    if lines.None? then None else Some(KeptLines(lines.value))
  }

  function KeptLines(ls: seq<string>): (r: seq<string>)
    ensures |r| <= |ls|
    ensures forall j :: 0 <= j < |r| ==> Kept(r[j])
  {
    Filter(StripAll(ls))
  }

  /** The lines that are `Kept`, in order. */
  function Filter(ls: seq<string>): (r: seq<string>)
    ensures |r| <= |ls|
    ensures forall j :: 0 <= j < |r| ==> Kept(r[j])
  {
    if |ls| == 0 then []
    else (if Kept(ls[0]) then [ls[0]] else []) + Filter(ls[1..])
  }

  lemma {:induction false} FilterMembers(ls: seq<string>, x: string)
    ensures x in Filter(ls) <==> x in ls && Kept(x)
    decreases |ls|
  {
    if |ls| > 0 {
      FilterMembers(ls[1..], x);
      assert ls == [ls[0]] + ls[1..];
    }
  }

  lemma {:induction false} FilterAppend(a: seq<string>, b: seq<string>)
    ensures Filter(a + b) == Filter(a) + Filter(b)
    decreases |a|
  {
    if |a| == 0 {
      assert a + b == b;
    } else {
      assert (a + b)[0] == a[0];
      assert (a + b)[1..] == a[1..] + b;
      FilterAppend(a[1..], b);
    }
  }

  /** Every line that is not blank or a comment once stripped is kept,
      stripped, and every kept argument is such a line. */
  lemma KeptLinesMembers(ls: seq<string>, x: string)
    ensures x in KeptLines(ls) <==> exists i :: 0 <= i < |ls| && S.Strip(ls[i]) == x && Kept(x)
  {
    FilterMembers(StripAll(ls), x);
  }

  lemma StripAllAppend(a: seq<string>, b: seq<string>)
    ensures StripAll(a + b) == StripAll(a) + StripAll(b)
  {
    var ab := a + b;
    var l, sa, sb := StripAll(ab), StripAll(a), StripAll(b);
    forall i | 0 <= i < |ab| ensures l[i] == (sa + sb)[i] {
      if i < |a| {
        assert ab[i] == a[i] && (sa + sb)[i] == sa[i];
      } else {
        assert ab[i] == b[i - |a|] && (sa + sb)[i] == sb[i - |a|];
      }
    }
    assert l == sa + sb;
  }

  /** Lines are kept in file order. */
  lemma KeptLinesAppend(a: seq<string>, b: seq<string>)
    ensures KeptLines(a + b) == KeptLines(a) + KeptLines(b)
  {
    var sa, sb := StripAll(a), StripAll(b);
    StripAllAppend(a, b);
    FilterAppend(sa, sb);
    assert KeptLines(a + b) == Filter(sa + sb);
  }

  // ---------------------------------------------------------------- key=value arguments

  /** ASCII `str.lower()`. */
  function Lower(s: string): (r: string)
    ensures |r| == |s|
  {
    seq(|s|, i requires 0 <= i < |s| => if 'A' <= s[i] <= 'Z' then (s[i] as int + 32) as char else s[i])
  }

  /** Values `get_args` turns into something other than text. */
  predicate Special(v: string) {
    Lower(v) in {"none", "true", "false"}
  }

  /** One argument: `key=value` (a value spelled none in any case drops the
      argument, true/false become booleans), `!key` for False, `key` for
      True. More than one `=` cannot be unpacked into a pair. */
  function ParseArg(s: string): (r: Result<Option<(string, A.OptVal)>>)
    ensures '=' !in s ==> r.Ok? && r.value.Some?
    ensures S.Count(s, '=') > 1 ==> r.Err? && r.error.ValueError?
  {
    if '=' in s then
      S.SplitCount(s, '=');
      var parts := S.Split(s, '=');
      if |parts| != 2 then Err(ValueError("too many values to unpack"))
      else
        var (k, v) := (parts[0], parts[1]);
        if Lower(v) == "none" then Ok(None)
        else if Lower(v) == "true" then Ok(Some((k, A.Flag(true))))
        else if Lower(v) == "false" then Ok(Some((k, A.Flag(false))))
        else Ok(Some((k, A.Text(v))))
    else if |s| > 0 && s[0] == '!' then Ok(Some((s[1..], A.Flag(false))))
    else Ok(Some((s, A.Flag(true))))
  }

  /** The dictionary built from arguments in order: later keys overwrite
      earlier ones. */
  function ArgsMap(args: seq<string>, acc: map<string, A.OptVal>): (r: Result<map<string, A.OptVal>>)
    ensures r.Ok? ==> acc.Keys <= r.value.Keys
    decreases |args|
  {
    if |args| == 0 then Ok(acc)
    else
      var p := ParseArg(args[0]);
      if p.Err? then Err(p.error)
      else if p.value.None? then ArgsMap(args[1..], acc)
      else ArgsMap(args[1..], acc[p.value.value.0 := p.value.value.1])
  }

  /** `get_args`: None for no arguments, else the dictionary. */
  function GetArgs(argStrs: Option<seq<string>>): (r: Result<Option<map<string, A.OptVal>>>)
    ensures argStrs.None? || |argStrs.value| == 0 ==> r == Ok(None)
    ensures r.Ok? && r.value.Some? ==> |argStrs.value| > 0
  {
    if argStrs.None? || |argStrs.value| == 0 then Ok(None)
    else
      var m := ArgsMap(argStrs.value, map[]);
      if m.Err? then Err(m.error) else Ok(Some(m.value))
  }

  /** The dictionary the options that are set describe, later keys
      winning. */
  function OptionsMap(opts: seq<(string, A.OptVal)>, acc: map<string, A.OptVal>): map<string, A.OptVal>
    decreases |opts|
  {
    if |opts| == 0 then acc
    else OptionsMap(opts[1..], if opts[0].1.Unset? then acc else acc[opts[0].0 := opts[0].1])
  }

  /** Options whose entries `get_args` reads back as written: keys without
      `=` or a leading `!`, texts without `=` that are not spelled like
      none, true or false. */
  predicate Readable(opts: seq<(string, A.OptVal)>) {
    forall i :: 0 <= i < |opts| ==>
      '=' !in opts[i].0 && (|opts[i].0| > 0 ==> opts[i].0[0] != '!')
      && (opts[i].1.Text? ==> '=' !in opts[i].1.s && !Special(opts[i].1.s))
  }

  /** Parsing one option's entry gives the option back. */
  lemma ParseEntry(k: string, v: A.OptVal)
    requires !v.Unset?
    requires '=' !in k && (|k| > 0 ==> k[0] != '!')
    requires v.Text? ==> '=' !in v.s && !Special(v.s)
    ensures ParseArg(A.Entry(k, v).value) == Ok(Some((k, v)))
  {
    var e := A.Entry(k, v).value;
    if v.Text? {
      assert e == k + "=" + v.s;
      assert '=' in e by { assert e[|k|] == '='; }
      S.JoinSplit([k, v.s], '=');
      assert S.Join("=", [k, v.s]) == k + "=" + S.Join("=", [v.s]);
      assert S.Split(e, '=') == [k, v.s];
    } else if v.b {
      assert e == k;
    } else {
      assert e == "!" + k;
      assert '=' !in e by {
        forall i | 0 <= i < |e| ensures e[i] != '=' {
          if i > 0 { assert e[i] == k[i - 1]; }
        }
      }
      assert e[1..] == k;
    }
  }

  /** The parser inverts the encoder: reading the option entries back gives
      the dictionary of the options that are set. */
  lemma {:induction false} ArgsMapEntries(opts: seq<(string, A.OptVal)>, acc: map<string, A.OptVal>)
    requires Readable(opts)
    ensures ArgsMap(A.Entries(opts), acc) == Ok(OptionsMap(opts, acc))
    decreases |opts|
  {
    if |opts| > 0 {
      var (k, v) := opts[0];
      assert Readable(opts[1..]) by {
        forall i | 0 <= i < |opts| - 1
          ensures '=' !in opts[1..][i].0 && (|opts[1..][i].0| > 0 ==> opts[1..][i].0[0] != '!')
                  && (opts[1..][i].1.Text? ==> '=' !in opts[1..][i].1.s && !Special(opts[1..][i].1.s))
        {
          assert opts[1..][i] == opts[i + 1];
        }
      }
      if v.Unset? {
        assert A.Entries(opts) == A.Entries(opts[1..]);
        ArgsMapEntries(opts[1..], acc);
      } else {
        var e := A.Entry(k, v).value;
        assert A.Entries(opts) == [e] + A.Entries(opts[1..]);
        ParseEntry(k, v);
        assert ([e] + A.Entries(opts[1..]))[1..] == A.Entries(opts[1..]);
        ArgsMapEntries(opts[1..], acc[k := v]);
      }
    } else {
      assert A.Entries(opts) == [];
    }
  }

  /** `get_args` on the entries of options, at least one of them set,
      returns exactly the options that are set. */
  lemma GetArgsEntries(opts: seq<(string, A.OptVal)>)
    requires Readable(opts) && |A.Entries(opts)| > 0
    ensures GetArgs(Some(A.Entries(opts))) == Ok(Some(OptionsMap(opts, map[])))
  {
    ArgsMapEntries(opts, map[]);
  }

  /** A value spelled none in any case drops the argument. */
  lemma ParseArgNone(k: string, v: string)
    requires '=' !in k && '=' !in v && Lower(v) == "none"
    ensures ParseArg(k + "=" + v) == Ok(None)
  {
    assert k + "=" + v == k + ['='] + v;
    SplitTwo(k, v, '=');
    assert (k + "=" + v)[|k|] == '=';
  }

  // ---------------------------------------------------------------- selections and weights

  /** What `get_sel`/`get_wei` look up: every name must be a predefined
      variable, otherwise the program exits. */
  function LookupAll(reg: V.Registry, names: seq<string>): (r: Result<seq<V.Var>>)
    ensures r.Ok? ==> |r.value| == |names|
    ensures r.Ok? ==> forall i :: 0 <= i < |names| ==> V.FindVariable(reg, names[i]) == Some(r.value[i])
    ensures r.Err? <==> exists i :: 0 <= i < |names| && V.FindVariable(reg, names[i]).None?
  {
    if |names| == 0 then Ok([])
    else
      var v := V.FindVariable(reg, names[0]);
      var rest := LookupAll(reg, names[1..]);
      if v.None? then Err(Fatal("requested variable not found"))
      else if rest.Err? then
        assert exists i :: 0 <= i < |names| && V.FindVariable(reg, names[i]).None? by {
          var i :| 0 <= i < |names[1..]| && V.FindVariable(reg, names[1..][i]).None?;
          assert names[i + 1] == names[1..][i];
        }
        Err(rest.error)
      else
        assert forall i :: 0 <= i < |names| - 1 ==> names[1..][i] == names[i + 1];
        Ok([v.value] + rest.value)
  }

  /** `get_sel` (kind `CutsOf`, name "selection") and `get_wei`
      (`WeightsOf`, name "weights"): None for no argument, else the
      combination of the listed variables. */
  function Combined(reg: V.Registry, arg: Option<string>, name: string, kind: V.Kind): (r: Result<Option<V.Var>>)
    ensures arg.None? ==> r == Ok(None)
    ensures arg.Some? && r.Ok? ==> r.value.Some?
  {
    if arg.None? then Ok(None)
    else
      var c := CombineNamed(reg, ReadArgsStr(arg).value, name, kind);
      if c.Err? then Err(c.error) else Ok(Some(c.value))
  }

  /** The variable itself for one name, a temporary combination of all of
      them for several; a name that is not predefined is an error. */
  function CombineNamed(reg: V.Registry, names: seq<string>, name: string, kind: V.Kind): (r: Result<V.Var>)
    ensures (exists i :: 0 <= i < |names| && V.FindVariable(reg, names[i]).None?) ==> r.Err?
  {
    var vs := LookupAll(reg, names);
    if vs.Err? then Err(vs.error)
    else if |vs.value| == 1 then Ok(vs.value[0])
    else V.Make(name, None, kind, vs.value, true)
  }

  function GetSel(reg: V.Registry, arg: Option<string>): (r: Result<Option<V.Var>>)
    ensures arg.None? ==> r == Ok(None)
  {
    Combined(reg, arg, "selection", V.CutsOf)
  }

  function GetWei(reg: V.Registry, arg: Option<string>): (r: Result<Option<V.Var>>)
    ensures arg.None? ==> r == Ok(None)
  {
    Combined(reg, arg, "weights", V.WeightsOf)
  }

  /** One predefined name gives that variable; several give a combination
      of exactly those variables, in order, unless they span more than one
      multi-valued container. */
  lemma CombinedShape(reg: V.Registry, names: seq<string>, name: string, kind: V.Kind)
    requires forall i :: 0 <= i < |names| ==> V.FindVariable(reg, names[i]).Some?
    ensures var r := CombineNamed(reg, names, name, kind);
            (|names| == 1 ==> r == Ok(V.FindVariable(reg, names[0]).value))
            && (|names| != 1 && r.Ok? ==>
                  r.value.name == name && r.value.kind == kind && r.value.temp
                  && |r.value.invars| == |names|
                  && forall i :: 0 <= i < |names| ==> Some(r.value.invars[i]) == V.FindVariable(reg, names[i]))
  {
  }

  // ---------------------------------------------------------------- views

  /** A view argument: the variable, the view name when one is given, and
      the binning to use when the view does not exist. */
  datatype ViewSpec = ViewSpec(varname: string, viewname: Option<string>, binning: Option<(nat, real, real)>)

  /** `int()` of a stripped decimal without sign. */
  function ParseCount(s: string): (r: Result<nat>)
    ensures r.Ok? ==> |s| > 0 && forall i :: 0 <= i < |s| ==> S.IsDigit(s[i])
  {
    if |s| > 0 && forall i :: 0 <= i < |s| ==> S.IsDigit(s[i]) then Ok(S.ParseNat(s))
    else Err(ValueError("invalid literal for int()"))
  }

  /** `get_views`' reading of one argument: `VAR:VIEW`, `VAR:N;MIN;MAX`
      (a temporary binning, floats read by `num`), or `VAR`. With a view
      name and no binning, `default` is the binning. */
  function ParseView(s: string, default: Option<(nat, real, real)>, num: string -> Option<real>): (r: Result<ViewSpec>)
    ensures ':' !in s ==> r == Ok(ViewSpec(S.Strip(s), None, None))
    ensures S.Count(s, ':') > 1 ==> r.Err?
  {
    if ':' in s then
      S.SplitCount(s, ':');
      var parts := S.Split(s, ':');
      if |parts| != 2 then Err(ValueError("too many values to unpack"))
      else
        ParseNamed(S.Strip(parts[0]), S.Strip(parts[1]), default, num)
    else Ok(ViewSpec(S.Strip(s), None, None))
  }

  /** Two separator-free pieces joined by the separator split back. */
  lemma SplitTwo(x: string, y: string, c: char)
    requires c !in x && c !in y
    ensures S.Split(x + [c] + y, c) == [x, y]
  {
    assert x + [c] + y == S.Join([c], [x, y]);
    S.JoinSplit([x, y], c);
  }

  lemma SplitThree(x: string, y: string, z: string, c: char)
    requires c !in x && c !in y && c !in z
    ensures S.Split(x + [c] + y + [c] + z, c) == [x, y, z]
  {
    assert S.Join([c], [y, z]) == y + [c] + z;
    assert x + [c] + y + [c] + z == S.Join([c], [x, y, z]);
    S.JoinSplit([x, y, z], c);
  }

  /** The `N;MIN;MAX` part splits back into its three pieces. */
  lemma BinningPieces(digits: string, lo: string, hi: string)
    requires ';' !in digits && ';' !in lo && ';' !in hi
    requires S.Trimmed(digits) && S.Trimmed(lo) && S.Trimmed(hi)
    ensures StripAll(S.Split(digits + ";" + lo + ";" + hi, ';')) == [digits, lo, hi]
  {
    assert digits + ";" + lo + ";" + hi == digits + [';'] + lo + [';'] + hi;
    SplitThree(digits, lo, hi, ';');
    StripAllId([digits, lo, hi]);
  }

  /** ... and is trimmed itself. */
  lemma BinningTrimmed(digits: string, lo: string, hi: string)
    requires |digits| > 0 && S.Trimmed(digits) && S.Trimmed(hi)
    ensures var spec := digits + ";" + lo + ";" + hi;
            ';' in spec && S.Trimmed(spec)
  {
    var spec := digits + ";" + lo + ";" + hi;
    assert spec[|digits|] == ';';
    assert spec[0] == digits[0];
    if |hi| > 0 {
      assert spec[|spec| - 1] == hi[|hi| - 1];
    } else {
      assert spec[|spec| - 1] == ';';
    }
  }

  /** The `VAR:VIEW` case once both halves are stripped: VIEW holding a
      ';' is a binning `N;MIN;MAX`. */
  function ParseNamed(varname: string, viewname: string, default: Option<(nat, real, real)>,
                      num: string -> Option<real>): (r: Result<ViewSpec>)
    ensures r.Ok? ==> r.value.varname == varname && r.value.viewname == Some(viewname)
    ensures ';' !in viewname ==> r == Ok(ViewSpec(varname, Some(viewname), default))
  {
    if ';' in viewname then
      var b := ParseBinning(StripAll(S.Split(viewname, ';')), num);
      if b.Err? then Err(b.error) else Ok(ViewSpec(varname, Some(viewname), Some(b.value)))
    else Ok(ViewSpec(varname, Some(viewname), default))
  }

  /** `(int(d[0]), float(d[1]), float(d[2]))`, evaluated left to right:
      each piece is indexed (an IndexError when missing) and then converted
      (a ValueError when unreadable) before the next one is looked at;
      pieces past the third are ignored. */
  function ParseBinning(d: seq<string>, num: string -> Option<real>): (r: Result<(nat, real, real)>)
    ensures r.Ok? <==> |d| >= 3 && ParseCount(d[0]).Ok? && num(d[1]).Some? && num(d[2]).Some?
    ensures r.Err? && r.error.IndexError? <==>
              |d| == 0 || (ParseCount(d[0]).Ok? && (|d| == 1 || (num(d[1]).Some? && |d| == 2)))
    ensures |d| > 0 && ParseCount(d[0]).Err? ==> r == Err(ParseCount(d[0]).error)
    ensures r.Ok? ==> ParseCount(d[0]) == Ok(r.value.0) && num(d[1]) == Some(r.value.1) && num(d[2]) == Some(r.value.2)
  {
    if |d| == 0 then Err(IndexError("list index out of range"))
    else
      var n := ParseCount(d[0]);
      if n.Err? then Err(n.error)
      else if |d| == 1 then Err(IndexError("list index out of range"))
      else if num(d[1]).None? then Err(ValueError("could not convert string to float"))
      else if |d| == 2 then Err(IndexError("list index out of range"))
      else if num(d[2]).None? then Err(ValueError("could not convert string to float"))
      else Ok((n.value, num(d[1]).value, num(d[2]).value))
  }

  /** "x;1" is refused for its count before its missing maximum is noticed. */
  lemma ParseBinningOrder(num: string -> Option<real>)
    ensures ParseBinning(["x", "1"], num) == Err(ValueError("invalid literal for int()"))
    ensures ParseBinning(["2", "1"], num).Err? && (num("1").Some? <==> ParseBinning(["2", "1"], num).error.IndexError?)
  {
    assert !S.IsDigit("x"[0]);
    assert ParseCount("2").Ok? by { assert S.IsDigit("2"[0]); }
  }

  /** `VAR:N;MIN;MAX` with trimmed parts reads as that binning for VAR. */
  lemma ParseViewBinning(v: string, n: nat, lo: string, hi: string, default: Option<(nat, real, real)>,
                         num: string -> Option<real>)
    requires ':' !in v && S.Trimmed(v)
    requires ':' !in lo && ';' !in lo && S.Trimmed(lo) && num(lo).Some?
    requires ':' !in hi && ';' !in hi && S.Trimmed(hi) && num(hi).Some?
    ensures var spec := S.NatToString(n) + ";" + lo + ";" + hi;
            ParseView(v + ":" + spec, default, num)
            == Ok(ViewSpec(v, Some(spec), Some((n, num(lo).value, num(hi).value))))
  {
    var digits := S.NatToString(n);
    var spec := digits + ";" + lo + ";" + hi;
    assert ':' !in digits && ';' !in digits;
    assert S.Trimmed(digits) by { assert S.IsDigit(digits[0]) && S.IsDigit(digits[|digits| - 1]); }
    assert ':' !in spec;
    BinningTrimmed(digits, lo, hi);
    BinningPieces(digits, lo, hi);
    S.NatToStringRoundTrip(n);
    ParseViewPieces(v, spec, digits, lo, hi, n, default, num);
  }

  /** `VAR:SPEC` where SPEC splits on ';' into N, MIN and MAX. */
  lemma ParseViewPieces(v: string, spec: string, digits: string, lo: string, hi: string, n: nat,
                        default: Option<(nat, real, real)>, num: string -> Option<real>)
    requires ':' !in v && S.Trimmed(v) && ':' !in spec && ';' in spec && S.Trimmed(spec)
    requires StripAll(S.Split(spec, ';')) == [digits, lo, hi]
    requires ParseCount(digits) == Ok(n) && num(lo).Some? && num(hi).Some?
    ensures ParseView(v + ":" + spec, default, num)
            == Ok(ViewSpec(v, Some(spec), Some((n, num(lo).value, num(hi).value))))
  {
    S.StripFixed(spec);
    S.StripFixed(v);
    SplitColon(v, spec);
    ParseNamedBinning(v, spec, digits, lo, hi, n, default, num);
  }

  lemma ParseNamedBinning(v: string, spec: string, digits: string, lo: string, hi: string, n: nat,
                          default: Option<(nat, real, real)>, num: string -> Option<real>)
    requires ';' in spec && StripAll(S.Split(spec, ';')) == [digits, lo, hi]
    requires ParseCount(digits) == Ok(n) && num(lo).Some? && num(hi).Some?
    ensures ParseNamed(v, spec, default, num) == Ok(ViewSpec(v, Some(spec), Some((n, num(lo).value, num(hi).value))))
  {
    ParseBinningPieces(digits, lo, hi, n, num);
  }

  lemma ParseBinningPieces(digits: string, lo: string, hi: string, n: nat, num: string -> Option<real>)
    requires ParseCount(digits) == Ok(n) && num(lo).Some? && num(hi).Some?
    ensures ParseBinning([digits, lo, hi], num) == Ok((n, num(lo).value, num(hi).value))
  {
  }

  lemma SplitColon(v: string, spec: string)
    requires ':' !in v && ':' !in spec
    ensures ':' in v + ":" + spec && S.Split(v + ":" + spec, ':') == [v, spec]
  {
    assert v + ":" + spec == v + [':'] + spec;
    SplitTwo(v, spec, ':');
    assert (v + ":" + spec)[|v|] == ':';
  }

  /** A variable made on the fly from its name (`StaticExpr`). */
  function StaticExpr(name: string): (v: V.Var)
    ensures v.views == [] && v.name == name && v.cont.None?
  {
    V.Var(name, None, V.Static(name), [], [], false)
  }

  /** `get_vars`: None for no arguments, else each name's predefined
      variable, or one made on the fly from the name. */
  function GetVars(reg: V.Registry, args: Option<seq<string>>): (r: Option<seq<V.Var>>)
    ensures args.None? || |args.value| == 0 <==> r.None?
    ensures r.Some? ==> |r.value| == |args.value|
    ensures r.Some? ==> forall i :: 0 <= i < |r.value| ==>
              r.value[i] == (if V.FindVariable(reg, args.value[i]).Some? then V.FindVariable(reg, args.value[i]).value
                             else StaticExpr(args.value[i]))
  {
    if args.None? || |args.value| == 0 then None
    else Some(seq(|args.value|, i requires 0 <= i < |args.value| =>
                    var f := V.FindVariable(reg, args.value[i]); if f.Some? then f.value else StaticExpr(args.value[i])))
  }

  /** The view one argument resolves to: the named (or default) view of the
      variable, else a view called "temp" with the argument's binning; None
      when the variable or view is unknown and no binning is given. */
  function ResolveView(reg: V.Registry, spec: ViewSpec): (r: Result<Option<V.View>>)
    ensures spec.binning.None? && V.FindVariable(reg, spec.varname).None? ==> r == Ok(None)
    ensures r.Ok? && r.value.Some? && spec.viewname.Some? && V.FindVariable(reg, spec.varname).Some?
            && V.GetView(V.FindVariable(reg, spec.varname).value, spec.viewname).Some?
            ==> r.value.value.name == spec.viewname.value
  {
    var found := V.FindVariable(reg, spec.varname);
    if found.None? && spec.binning.None? then Ok(None)
    else
      var v := if found.Some? then found.value else StaticExpr(spec.varname);
      var view := V.GetView(v, spec.viewname);
      if view.Some? then Ok(view)
      else if spec.binning.None? then Ok(None)
      else
        var (n, lo, hi) := spec.binning.value;
        var added := V.AddView(v, Some(n), Some(lo), Some(hi), Some("temp"), None);
        if added.Err? then Err(added.error) else Ok(V.GetView(added.value, Some("temp")))
  }

  /** An unknown variable with a binning gets a "temp" view with that many
      uniform bins. */
  lemma ResolveUnknownWithBinning(reg: V.Registry, name: string, viewname: Option<string>, n: nat, lo: real, hi: real)
    requires V.FindVariable(reg, name).None? && n > 0
    ensures var r := ResolveView(reg, ViewSpec(name, viewname, Some((n, lo, hi))));
            r.Ok? && r.value.Some? && r.value.value.name == "temp" && r.value.value.xbins == HU.Bins(n, lo, hi)
  {
    var v := StaticExpr(name);
    var added := V.AddView(v, Some(n), Some(lo), Some(hi), Some("temp"), None);
    assert added.Ok? && added.value.views == [V.View("temp", HU.Bins(n, lo, hi), Some((hi - lo) / (n as real)))];
  }

  /** `get_views`: the argument list (None when the file is missing), each
      argument parsed and resolved in order; one unresolved argument makes
      the whole result None. */
  function GetViews(reg: V.Registry, args: Option<seq<string>>, default: Option<(nat, real, real)>,
                    num: string -> Option<real>): (r: Result<Option<seq<V.View>>>)
    ensures args.None? ==> r.Err?
    ensures args.Some? && r.Ok? && r.value.Some? ==> |r.value.value| == |args.value|
    decreases if args.Some? then |args.value| else 0
  {
    if args.None? then Err(Fatal("'NoneType' object is not iterable"))
    else if |args.value| == 0 then Ok(Some([]))
    else
      var spec := ParseView(args.value[0], default, num);
      if spec.Err? then Err(spec.error)
      else
        var view := ResolveView(reg, spec.value);
        if view.Err? then Err(view.error)
        else if view.value.None? then Ok(None)
        else
          var rest := GetViews(reg, Some(args.value[1..]), default, num);
          if rest.Err? || rest.value.None? then rest
          else Ok(Some([view.value.value] + rest.value.value))
  }
}
