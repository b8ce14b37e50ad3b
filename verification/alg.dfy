/** The bookkeeping around a multivariate algorithm: its serialisable
    configuration, workspace paths, loading, local training and grids of
    algorithms spawned from a template. Training itself, the file system
    and JSON parsing are outside the model: existing paths are a set, and
    what training yields is a parameter. */
module Alg {
  import opened Wrappers
  import S = Strings
  import F = Files
  import CH = CoreHelpers

  // ---------------------------------------------------------------- JSON values

  /** A value as read from a JSON configuration. */
  datatype Json = JNull | JBool(b: bool) | JNum(x: real) | JStr(s: string)
                | JList(items: seq<Json>) | JDict(entries: seq<(Json, Json)>)

  /** `convert_to_string`: strings become `str`, lists and dictionaries are
      rebuilt from their converted parts, anything else is returned as is.
      A `str` is already a `str`, so the value comes back unchanged. */
  function ConvertToString(o: Json): (r: Json)
    ensures r == o
    decreases o, 1
  {
    match o
    case JStr(s) => JStr(s)
    case JList(items) => JList(ConvertItems(o, items))
    case JDict(entries) => JDict(ConvertEntries(o, entries))
    case _ => o
  }

  function ConvertItems(ghost parent: Json, items: seq<Json>): (r: seq<Json>)
    requires forall i :: 0 <= i < |items| ==> items[i] < parent
    ensures r == items
    decreases parent, 0, |items|
  {
    if |items| == 0 then []
    else [ConvertToString(items[0])] + ConvertItems(parent, items[1..])
  }

  function ConvertEntries(ghost parent: Json, entries: seq<(Json, Json)>): (r: seq<(Json, Json)>)
    requires forall i :: 0 <= i < |entries| ==> entries[i].0 < parent && entries[i].1 < parent
    ensures r == entries
    decreases parent, 0, |entries|
  {
    if |entries| == 0 then []
    else [(ConvertToString(entries[0].0), ConvertToString(entries[0].1))] + ConvertEntries(parent, entries[1..])
  }

  // ---------------------------------------------------------------- attributes

  /** An attribute of an algorithm: a sample, or a plain configuration
      value. */
  datatype Attr = SampleAttr(sampleName: string) | Plain(v: Json)

  /** The attributes a saved configuration leaves out of `config`. */
  const Reserved: set<string> := {"name", "wspath", "info"}

  /** `__get_attr_groups__`: of the attributes that are constructor
      arguments (`stream`), `name` and `wspath` are dropped, `info` is split
      off, samples form one group and everything else is the
      configuration. */
  function AttrGroups(attrs: map<string, Attr>, stream: set<string>): (r: (map<string, Attr>, map<string, Attr>, Option<Attr>))
    ensures r.0.Keys !! r.1.Keys
    ensures r.0.Keys + r.1.Keys == (attrs.Keys * stream) - Reserved
    ensures forall k :: k in r.0 ==> r.0[k] == attrs[k] && r.0[k].Plain?
    ensures forall k :: k in r.1 ==> r.1[k] == attrs[k] && r.1[k].SampleAttr?
    ensures r.2 == if "info" in attrs && "info" in stream then Some(attrs["info"]) else None
  {
    var kept := map k | k in attrs && k in stream && k !in Reserved :: attrs[k];
    var samples := map k | k in kept && kept[k].SampleAttr? :: kept[k];
    var config := map k | k in kept && !kept[k].SampleAttr? :: kept[k];
    var info := if "info" in attrs && "info" in stream then Some(attrs["info"]) else None;
    (config, samples, info)
  }

  /** `load` puts configuration and samples back together as constructor
      arguments: exactly the saved constructor arguments other than the
      reserved ones. */
  lemma AttrGroupsRejoin(attrs: map<string, Attr>, stream: set<string>)
    ensures var g := AttrGroups(attrs, stream);
            g.0 + g.1 == map k | k in attrs && k in stream && k !in Reserved :: attrs[k]
  {
    var g := AttrGroups(attrs, stream);
    var kept := map k | k in attrs && k in stream && k !in Reserved :: attrs[k];
    assert (g.0 + g.1).Keys == kept.Keys;
    forall k | k in kept ensures (g.0 + g.1)[k] == kept[k] {
      if k in g.1 { assert (g.0 + g.1)[k] == g.1[k]; } else { assert k in g.0; }
    }
  }

  /** `clone`: the constructor arguments of the copy are the original's
      ones without `wspath` and `info`, overridden by `kw`. Reading an
      argument that was never set as an attribute fails. */
  function Clone(attrs: map<string, Attr>, stream: set<string>, kw: map<string, Attr>): (r: Result<map<string, Attr>>)
    ensures r.Err? <==> !(stream <= attrs.Keys)
    ensures r.Ok? ==> r.value.Keys == (stream - {"wspath", "info"}) + kw.Keys
    ensures r.Ok? ==> forall k :: k in kw ==> r.value[k] == kw[k]
    ensures r.Ok? ==> forall k :: k in r.value && k !in kw ==> r.value[k] == attrs[k]
  {
    if !(stream <= attrs.Keys) then Err(Fatal("object has no attribute"))
    else
      var kept := map k | k in stream && k != "wspath" && k != "info" :: attrs[k];
      Ok(kept + kw)
  }

  /** A clone made without overriding them carries neither the workspace
      nor the info of the original, so it starts out unpersisted. */
  lemma CloneResetsWorkspace(attrs: map<string, Attr>, stream: set<string>, kw: map<string, Attr>)
    requires stream <= attrs.Keys && "wspath" !in kw && "info" !in kw
    ensures Clone(attrs, stream, kw).Ok?
    ensures "wspath" !in Clone(attrs, stream, kw).value && "info" !in Clone(attrs, stream, kw).value
  {
  }

  // ---------------------------------------------------------------- workspaces

  /** `wspath.strip().rstrip("/")`. */
  function Normalize(w: string): (r: string)
    ensures |r| <= |w|
  {
    S.RStrip(S.Strip(w), {'/'})
  }

  /** `saveas` validation: the path must be given and, once normalised,
      end in ".alg" and not exist yet; the workspace is then created at
      the normalised path. */
  function Saveas(wspath: Option<string>, existing: set<string>): (r: Result<string>)
    ensures r.Ok? <==> wspath.Some? && |wspath.value| > 0 && S.EndsWith(Normalize(wspath.value), ".alg")
                       && Normalize(wspath.value) !in existing
    ensures r.Ok? ==> r.value == Normalize(wspath.value) && r.value !in existing
  {
    if wspath.None? || |wspath.value| == 0 then Err(ValueError("Cannot create algorithm without workspace"))
    else
      var w := Normalize(wspath.value);
      if !S.EndsWith(w, ".alg") then Err(ValueError("Alg workspace must have '.alg' ext"))
      else if w in existing then Err(ValueError("Alg workspace already exists, cannot overwrite"))
      else Ok(w)
  }

  /** Saving twice to the same place fails: the first save created it. */
  lemma SaveasNoOverwrite(wspath: Option<string>, existing: set<string>)
    requires Saveas(wspath, existing).Ok?
    ensures Saveas(wspath, existing + {Saveas(wspath, existing).value}).Err?
  {
  }

  /** A saved workspace path is already normalised. */
  lemma {:induction false} NormalizeSaved(w: string)
    requires S.EndsWith(Normalize(w), ".alg")
    ensures Normalize(Normalize(w)) == Normalize(w)
  {
    var n := Normalize(w);
    var t := S.Strip(w);
    assert n == t[..|n|];
    assert n[|n| - 1] == 'g';
    assert n[0] == t[0];
    S.StripFixed(n);
    S.RStripFixed(n, {'/'});
  }

  /** Where `load` reads an algorithm's configuration from. */
  datatype Source = Source(config: string, wspath: Option<string>)

  /** `os.path.join(a, b)`. */
  function PathJoin(a: string, b: string): (r: string)
    ensures |b| > 0 && b[0] == '/' ==> r == b
    ensures S.EndsWith(r, b)
    ensures !(|b| > 0 && b[0] == '/') ==> S.StartsWith(r, a) && |r| - |a| - |b| <= 1
  {
    if |b| > 0 && b[0] == '/' then b
    else if |a| == 0 || a[|a| - 1] == '/' then
      assert (a + b)[..|a|] == a && (a + b)[|a|..] == b;
      a + b
    else
      assert (a + "/" + b)[..|a|] == a && (a + "/" + b)[|a| + 1..] == b;
      a + "/" + b
  }

  const ConfigName: string := "config.json"

  /** `load` for one path without wildcard: a ".alg" workspace directory
      reads its "config.json"; a ".json" file is read directly, from the
      project's configuration directory `algdir` when not found, and has
      no workspace; anything else, or a configuration that does not exist,
      loads nothing. */
  function LoadSource(wspath: string, existing: set<string>, dirs: set<string>, algdir: string): (r: Option<Source>)
    ensures r.Some? ==> r.value.config in existing
    ensures r.Some? && r.value.wspath.Some? ==> r.value.wspath.value in dirs && S.EndsWith(r.value.wspath.value, ".alg")
    ensures !S.EndsWith(Normalize(wspath), ".alg") && !S.EndsWith(Normalize(wspath), ".json") ==> r.None?
  {
    var w := Normalize(wspath);
    if S.EndsWith(w, ".alg") then
      if w !in existing || w !in dirs then None
      else
        var config := PathJoin(w, ConfigName);
        if config in existing then Some(Source(config, Some(w))) else None
    else if S.EndsWith(w, ".json") then
      var config := if w in existing then w else PathJoin(algdir, w);
      if config in existing then Some(Source(config, None)) else None
    else None
  }

  /** What `load` returns: a list for a wildcard, else at most one
      algorithm. */
  datatype Loaded = Many(sources: seq<Source>) | One(source: Option<Source>)

  function Somes(xs: seq<Option<Source>>): (r: seq<Source>)
    ensures |r| <= |xs|
    ensures forall s :: s in r <==> Some(s) in xs
  {
    if |xs| == 0 then []
    else (if xs[0].Some? then [xs[0].value] else []) + Somes(xs[1..])
  }

  /** `load`: a path with '*' loads every match of the pattern (`glob`),
      dropping those that load nothing. */
  function Load(wspath: string, glob: string -> seq<string>, existing: set<string>, dirs: set<string>,
                algdir: string): (r: Loaded)
    ensures '*' in wspath <==> r.Many?
    ensures r.Many? ==> |r.sources| <= |glob(wspath)|
  {
    if '*' in wspath then Many(Somes(LoadEach(glob(wspath), existing, dirs, algdir)))
    else One(LoadSource(wspath, existing, dirs, algdir))
  }

  function LoadEach(paths: seq<string>, existing: set<string>, dirs: set<string>, algdir: string): (r: seq<Option<Source>>)
    ensures |r| == |paths|
  {
    seq(|paths|, i requires 0 <= i < |paths| => LoadSource(paths[i], existing, dirs, algdir))
  }

  /** A wildcard loads exactly the matches that load on their own. */
  lemma LoadWildcard(wspath: string, glob: string -> seq<string>, existing: set<string>, dirs: set<string>,
                     algdir: string, s: Source)
    requires '*' in wspath
    ensures s in Load(wspath, glob, existing, dirs, algdir).sources <==>
              exists i :: 0 <= i < |glob(wspath)| && LoadSource(glob(wspath)[i], existing, dirs, algdir) == Some(s)
  {
    var each := LoadEach(glob(wspath), existing, dirs, algdir);
    if Some(s) in each {
      var i :| 0 <= i < |each| && each[i] == Some(s);
      assert LoadSource(glob(wspath)[i], existing, dirs, algdir) == Some(s);
    }
    if exists i :: 0 <= i < |glob(wspath)| && LoadSource(glob(wspath)[i], existing, dirs, algdir) == Some(s) {
      var i :| 0 <= i < |glob(wspath)| && LoadSource(glob(wspath)[i], existing, dirs, algdir) == Some(s);
      assert each[i] == Some(s);
    }
  }

  /** A workspace saved by `saveas` loads from its own configuration once
      that has been written. */
  lemma SavedLoads(wspath: Option<string>, existing: set<string>, dirs: set<string>, algdir: string)
    requires Saveas(wspath, existing).Ok?
    requires '*' !in Saveas(wspath, existing).value
    requires var w := Saveas(wspath, existing).value; w in dirs && PathJoin(w, ConfigName) in existing + {w}
    ensures var w := Saveas(wspath, existing).value;
            Load(w, _ => [], existing + {w}, dirs, algdir) == One(Some(Source(PathJoin(w, ConfigName), Some(w))))
  {
    NormalizeSaved(wspath.value);
  }

  /** `info` of a loaded algorithm: one read from a ".json" file, so
      without workspace, is marked not persistified unless it is empty. */
  function LoadedInfo(info: Option<map<string, Json>>, wspath: Option<string>): (r: Option<map<string, Json>>)
    ensures info.None? <==> r.None?
    ensures r.Some? && wspath.None? && |info.value| > 0 ==> r.value == info.value["persistified" := JBool(false)]
    ensures r.Some? && (wspath.Some? || |info.value| == 0) ==> r == info
  {
    if info.Some? && |info.value| > 0 && wspath.None? then Some(info.value["persistified" := JBool(false)])
    else info
  }

  /** The class `load` builds: the first subclass of the algorithm base
      class, in `get_all_subclasses` order, with the saved class name. */
  function FindClass(base: CH.Class, algclass: Option<string>): (r: Option<nat>)
    ensures r.Some? ==> r.value < |CH.AllSubclasses(base)| && algclass == Some(CH.AllSubclasses(base)[r.value])
    ensures r.Some? ==> forall j :: 0 <= j < r.value ==> Some(CH.AllSubclasses(base)[j]) != algclass
    ensures r.None? <==> algclass.None? || algclass.value !in CH.AllSubclasses(base)
  {
    if algclass.None? then None else FirstIndex(CH.AllSubclasses(base), algclass.value)
  }

  function FirstIndex(xs: seq<string>, x: string): (r: Option<nat>)
    ensures r.Some? ==> r.value < |xs| && xs[r.value] == x && x !in xs[..r.value]
    ensures r.None? <==> x !in xs
  {
    if |xs| == 0 then None
    else if xs[0] == x then Some(0)
    else
      var i := FirstIndex(xs[1..], x);
      if i.None? then None
      else
        assert xs[..i.value + 1] == [xs[0]] + xs[1..][..i.value];
        Some(i.value + 1)
  }

  // ---------------------------------------------------------------- local training

  /** An algorithm to train, with whether its info says it is trained. */
  datatype Job = Job(wspath: string, trained: bool)

  /** Algorithms still to train: all of them with `retrain`, else the
      untrained ones, in order. */
  function ToTrain(algs: seq<Job>, retrain: bool): (r: seq<Job>)
    ensures |r| <= |algs|
    ensures forall j :: j in r <==> j in algs && (retrain || !j.trained)
    ensures retrain ==> r == algs
  {
    if |algs| == 0 then []
    else (if retrain || !algs[0].trained then [algs[0]] else []) + ToTrain(algs[1..], retrain)
  }

  /** Worker count: all cores when unset (or 0), all but `-n` (at least
      one) when negative, at most the cores when positive. */
  function Cores(ncores: Option<int>, cpu: nat): (r: int)
    ensures cpu >= 1 ==> 1 <= r <= cpu
    ensures ncores.Some? && 0 < ncores.value <= cpu ==> r == ncores.value
    ensures ncores.None? || ncores.value == 0 ==> r == cpu
  {
    if ncores.None? || ncores.value == 0 then cpu
    else if ncores.value < 0 then (if cpu + ncores.value > 1 then cpu + ncores.value else 1)
    else if ncores.value < cpu then ncores.value else cpu
  }

  /** The outcome of `train_local`: the jobs handed to the workers (several
      algorithms) or trained in place (one), how many workers, and whether
      every training succeeded. An empty list cannot be indexed. */
  datatype Outcome = Outcome(jobs: seq<Job>, workers: int, ok: bool)

  predicate AllSucceed(jobs: seq<Job>, train: Job -> bool) {
    forall i :: 0 <= i < |jobs| ==> train(jobs[i])
  }

  function TrainLocal(algs: seq<Job>, retrain: bool, ncores: Option<int>, cpu: nat, train: Job -> bool): (r: Result<Outcome>)
    ensures r.Err? <==> |algs| == 0
    ensures r.Ok? ==> r.value.jobs == ToTrain(algs, retrain)
    ensures r.Ok? ==> (r.value.ok <==> AllSucceed(ToTrain(algs, retrain), train))
  {
    if |algs| == 0 then Err(IndexError("list index out of range"))
    else if |algs| > 1 then
      var jobs := ToTrain(algs, retrain);
      Ok(Outcome(jobs, if |jobs| == 0 then 0 else Cores(ncores, cpu), Failures(jobs, train) == 0))
    else if algs[0].trained && !retrain then
      assert ToTrain(algs, retrain) == [];
      Ok(Outcome([], 1, true))
    else
      assert ToTrain(algs, retrain) == [algs[0]];
      Ok(Outcome([algs[0]], 1, train(algs[0])))
  }

  /** Number of failed trainings. */
  function Failures(jobs: seq<Job>, train: Job -> bool): (r: nat)
    ensures r <= |jobs|
    ensures r == 0 <==> AllSucceed(jobs, train)
  {
    if |jobs| == 0 then 0
    else
      assert forall i :: 1 <= i < |jobs| ==> jobs[1..][i - 1] == jobs[i];
      (if train(jobs[0]) then 0 else 1) + Failures(jobs[1..], train)
  }

  /** An algorithm already trained is trained again only with `retrain`. */
  lemma TrainedSkipped(algs: seq<Job>, j: Job)
    requires j in algs && j.trained
    ensures j in ToTrain(algs, true) && j !in ToTrain(algs, false)
  {
  }

  // ---------------------------------------------------------------- grids

  /** A grid option's values: a list stands for its items, anything else
      for itself. */
  function Choices(v: Json): (r: seq<Json>)
    ensures |r| >= 1 || (v.JList? && |v.items| == 0)
    ensures !v.JList? ==> r == [v]
  {
    if v.JList? then v.items else [v]
  }

  /** `[a] + p` for every `p`. */
  function Prepend(a: Json, ps: seq<seq<Json>>): (r: seq<seq<Json>>)
    ensures |r| == |ps|
    ensures forall i :: 0 <= i < |ps| ==> r[i] == [a] + ps[i]
  {
    seq(|ps|, i requires 0 <= i < |ps| => [a] + ps[i])
  }

  function ProductWith(heads: seq<Json>, rest: seq<seq<Json>>): seq<seq<Json>>
  {
    if |heads| == 0 then [] else Prepend(heads[0], rest) + ProductWith(heads[1..], rest)
  }

  /** `itertools.product`: every combination taking one value per list,
      the last list varying fastest. */
  function Product(ls: seq<seq<Json>>): (r: seq<seq<Json>>)
    ensures (exists i :: 0 <= i < |ls| && |ls[i]| == 0) ==> r == []
  {
    if |ls| == 0 then [[]]
    else
      var rest := Product(ls[1..]);
      ProductWithCount(ls[0], rest);
      assert (exists i :: 1 <= i < |ls| && |ls[i]| == 0) ==> exists i :: 0 <= i < |ls[1..]| && |ls[1..][i]| == 0;
      ProductWith(ls[0], rest)
  }

  function LengthProduct(ls: seq<seq<Json>>): nat {
    if |ls| == 0 then 1 else |ls[0]| * LengthProduct(ls[1..])
  }

  lemma {:induction false} ProductWithCount(heads: seq<Json>, rest: seq<seq<Json>>)
    ensures |ProductWith(heads, rest)| == |heads| * |rest|
  {
    if |heads| > 0 {
      ProductWithCount(heads[1..], rest);
    }
  }

  /** There are as many grid points as the product of the option list
      lengths. */
  lemma {:induction false} ProductCount(ls: seq<seq<Json>>)
    ensures |Product(ls)| == LengthProduct(ls)
  {
    if |ls| > 0 {
      ProductCount(ls[1..]);
      ProductWithCount(ls[0], Product(ls[1..]));
    }
  }

  lemma {:induction false} ProductWithMembers(heads: seq<Json>, rest: seq<seq<Json>>, p: seq<Json>)
    ensures p in ProductWith(heads, rest) <==> |p| > 0 && p[0] in heads && p[1..] in rest
  {
    if |heads| > 0 {
      ProductWithMembers(heads[1..], rest, p);
      var pre := Prepend(heads[0], rest);
      if p in pre {
        var i :| 0 <= i < |pre| && pre[i] == p;
        assert p[1..] == rest[i];
      }
      if |p| > 0 && p[0] == heads[0] && p[1..] in rest {
        var i :| 0 <= i < |rest| && rest[i] == p[1..];
        assert pre[i] == p;
      }
      if |p| > 0 && p[0] in heads && p[0] != heads[0] {
        assert p[0] in heads[1..];
      }
    }
  }

  /** A combination is a grid point iff it takes, for every option, one of
      that option's values. */
  lemma {:induction false} ProductMembers(ls: seq<seq<Json>>, p: seq<Json>)
    ensures p in Product(ls) <==> |p| == |ls| && forall i :: 0 <= i < |ls| ==> p[i] in ls[i]
  {
    if |ls| == 0 {
      assert p in Product(ls) <==> p == [];
    } else {
      ProductWithMembers(ls[0], Product(ls[1..]), p);
      if |p| > 0 {
        ProductMembers(ls[1..], p[1..]);
        if |p| == |ls| && p[1..] in Product(ls[1..]) && p[0] in ls[0] {
          forall i | 0 <= i < |ls| ensures p[i] in ls[i] {
            if i > 0 { assert p[i] == p[1..][i - 1] && ls[i] == ls[1..][i - 1]; }
          }
        }
        if |p| == |ls| && (forall i :: 0 <= i < |ls| ==> p[i] in ls[i]) {
          forall i | 0 <= i < |ls| - 1 ensures p[1..][i] in ls[1..][i] {
            assert p[1..][i] == p[i + 1];
          }
        }
      }
    }
  }

  /** `dict(zip(keys, x))` for one combination. */
  function Zip(keys: seq<Json>, x: seq<Json>): (r: seq<(Json, Json)>)
    requires |keys| == |x|
    ensures |r| == |keys|
    ensures forall i :: 0 <= i < |keys| ==> r[i] == (keys[i], x[i])
  {
    seq(|keys|, i requires 0 <= i < |keys| => (keys[i], x[i]))
  }

  function Keys(grid: seq<(Json, Json)>): (r: seq<Json>)
    ensures |r| == |grid| && forall i :: 0 <= i < |grid| ==> r[i] == grid[i].0
  {
    seq(|grid|, i requires 0 <= i < |grid| => grid[i].0)
  }

  function Lists(grid: seq<(Json, Json)>): (r: seq<seq<Json>>)
    ensures |r| == |grid| && forall i :: 0 <= i < |grid| ==> r[i] == Choices(grid[i].1)
  {
    seq(|grid|, i requires 0 <= i < |grid| => Choices(grid[i].1))
  }

  /** `spawn_grid`'s option dictionaries: nothing when the attribute is not
      a dictionary (the intended error path), else one dictionary per
      combination. */
  function GridPoints(grid: Json): (r: seq<seq<(Json, Json)>>)
    ensures !grid.JDict? ==> r == []
    ensures grid.JDict? ==> |r| == |Product(Lists(grid.entries))|
  {
    if !grid.JDict? then []
    else
      var keys := Keys(grid.entries);
      var combos := Product(Lists(grid.entries));
      seq(|combos|, i requires 0 <= i < |combos| =>
            ProductMembers(Lists(grid.entries), combos[i]);
            Zip(keys, combos[i]))
  }

  /** Every grid point assigns each option one of its values, in the
      option order, and there is one point per combination. */
  lemma GridPointShape(grid: Json, j: nat)
    requires grid.JDict? && j < |GridPoints(grid)|
    ensures |GridPoints(grid)| == LengthProduct(Lists(grid.entries))
    ensures var pt := GridPoints(grid)[j];
            |pt| == |grid.entries|
            && forall i :: 0 <= i < |pt| ==> pt[i].0 == grid.entries[i].0 && pt[i].1 in Choices(grid.entries[i].1)
  {
    var combos := Product(Lists(grid.entries));
    ProductCount(Lists(grid.entries));
    ProductMembers(Lists(grid.entries), combos[j]);
  }

  /** The workspace of grid point `index`: the prefix, the index padded to
      four digits, ".alg". */
  function GridPath(prefix: string, index: nat): (r: string)
    ensures S.EndsWith(r, ".alg")
  {
    var r := prefix + S.ZeroPad(index, 4) + ".alg";
    assert r[|r| - 4..] == ".alg";
    r
  }

  lemma GridPathInjective(prefix: string, a: nat, b: nat)
    requires GridPath(prefix, a) == GridPath(prefix, b)
    ensures a == b
  {
    var da, db := S.ZeroPad(a, 4), S.ZeroPad(b, 4);
    assert |da| == |db|;
    assert GridPath(prefix, a)[|prefix|..|prefix| + |da|] == da;
    assert GridPath(prefix, b)[|prefix|..|prefix| + |db|] == db;
  }

  /** The workspaces of indices lo..hi-1. */
  function GridTaken(prefix: string, lo: nat, hi: nat): set<string>
  {
    set k | lo <= k < hi :: GridPath(prefix, k)
  }

  lemma {:induction false} GridTakenSize(prefix: string, lo: nat, hi: nat)
    requires lo <= hi
    ensures |GridTaken(prefix, lo, hi)| == hi - lo
    decreases hi - lo
  {
    if lo < hi {
      GridTakenSize(prefix, lo, hi - 1);
      GridTakenStep(prefix, lo, hi);
    } else {
      assert GridTaken(prefix, lo, hi) == {};
    }
  }

  /** The workspaces of lo..hi-1 are those of lo..hi-2 and a new one. */
  lemma GridTakenStep(prefix: string, lo: nat, hi: nat)
    requires lo < hi
    ensures GridTaken(prefix, lo, hi) == GridTaken(prefix, lo, hi - 1) + {GridPath(prefix, hi - 1)}
    ensures GridPath(prefix, hi - 1) !in GridTaken(prefix, lo, hi - 1)
  {
    if GridPath(prefix, hi - 1) in GridTaken(prefix, lo, hi - 1) {
      var k :| lo <= k < hi - 1 && GridPath(prefix, k) == GridPath(prefix, hi - 1);
      GridPathInjective(prefix, k, hi - 1);
    }
  }

  lemma GridTakenBound(prefix: string, existing: set<string>, lo: nat, hi: nat)
    requires lo <= hi
    requires forall k :: lo <= k < hi ==> GridPath(prefix, k) in existing
    ensures hi - lo <= |existing|
  {
    GridTakenSize(prefix, lo, hi);
    F.SubsetSize(GridTaken(prefix, lo, hi), existing);
  }

  /** `index` is the first index from `from` whose workspace is free. */
  ghost predicate FirstFree(existing: set<string>, prefix: string, from: nat, index: nat) {
    from <= index && GridPath(prefix, index) !in existing
    && forall k :: from <= k < index ==> GridPath(prefix, k) in existing
  }

  /** What saving a grid point's workspace adds to the existing paths. */
  function Created(path: string, existing: set<string>): (r: set<string>)
    ensures r == {} || (r == {Normalize(path)} && Normalize(path) !in existing)
  {
    var w := Saveas(Some(path), existing);
    if w.Ok? then {w.value} else {}
  }

  /** The name of a grid point's algorithm: the template's name (formatted,
      so a missing one reads "None") followed by the padded index. */
  function GridName(name: Option<string>, index: nat): (r: string)
    ensures S.EndsWith(r, S.ZeroPad(index, 4))
    ensures name.Some? ==> |name.value| <= |r| && r[..|name.value|] == name.value
    ensures name.None? ==> r[..4] == "None"
  {
    var r := (if name.Some? then name.value else "None") + S.ZeroPad(index, 4);
    assert r[|r| - |S.ZeroPad(index, 4)|..] == S.ZeroPad(index, 4);
    r
  }

  /** `spawn_grid`'s workspace loop over `npoints` grid points: each point
      takes the first free index from the previous point's index on and
      saves its workspace, which then exists for the following points.
      `states[i]` are the existing paths when point `i` is placed. */
  method SpawnIndices(prefix: string, npoints: nat, existing: set<string>)
    returns (indices: seq<nat>, states: seq<set<string>>)
    ensures |indices| == npoints && |states| == npoints + 1 && states[0] == existing
    ensures forall i :: 0 <= i < npoints ==> Placed(prefix, indices, states, i)
    ensures forall i :: 0 < i < npoints ==> indices[i - 1] <= indices[i]
  {
    var index: nat := 0;
    indices, states := [], [existing];
    var st := existing;
    while |indices| < npoints
      invariant |indices| <= npoints && |states| == |indices| + 1 && states[0] == existing
      invariant st == states[|indices|]
      invariant |indices| > 0 ==> index == indices[|indices| - 1]
      invariant |indices| == 0 ==> index == 0
      invariant AllPlaced(prefix, indices, states, Created)
    {
      var start := index;
      index := NextFree(prefix, start, st);
      var next := st + Created(GridPath(prefix, index), st);
      SpawnStep(prefix, indices, states, start, index, next, Created);
      indices := indices + [index];
      states := states + [next];
      st := next;
    }
    forall i | 0 <= i < npoints ensures Placed(prefix, indices, states, i) {
      AllPlacedAt(prefix, indices, states, i, Created);
    }
    forall i | 0 < i < npoints ensures indices[i - 1] <= indices[i] {
      assert Placed(prefix, indices, states, i);
    }
  }

  /** How saving a workspace changes the existing paths. */
  type Save = (string, set<string>) -> set<string>

  /** Point `i` took the first free index from the previous one and its
      workspace was saved. */
  ghost predicate Placed(prefix: string, indices: seq<nat>, states: seq<set<string>>, i: nat)
    requires i < |indices| && |states| == |indices| + 1
  {
    PlacedWith(prefix, indices, states, i, Created)
  }

  ghost predicate PlacedWith(prefix: string, indices: seq<nat>, states: seq<set<string>>, i: nat, save: Save)
    requires i < |indices| && |states| == |indices| + 1
  {
    PlacedAt(prefix, if i == 0 then 0 else indices[i - 1], indices[i], states[i], states[i + 1], save)
  }

  /** Searching from `from` with `before` existing took `index`, after
      which `after` exists. */
  ghost predicate PlacedAt(prefix: string, from: nat, index: nat, before: set<string>, after: set<string>, save: Save) {
    FirstFree(before, prefix, from, index) && after == before + save(GridPath(prefix, index), before)
  }

  /** Points 0..n-1 are all placed, stated one point at a time. */
  ghost predicate AllPlaced(prefix: string, indices: seq<nat>, states: seq<set<string>>, save: Save)
    requires |states| == |indices| + 1
    decreases |indices|
  {
    |indices| == 0
    || (AllPlaced(prefix, indices[..|indices| - 1], states[..|indices|], save)
        && PlacedWith(prefix, indices, states, |indices| - 1, save))
  }

  lemma {:induction false} AllPlacedAt(prefix: string, indices: seq<nat>, states: seq<set<string>>, i: nat, save: Save)
    requires |states| == |indices| + 1 && AllPlaced(prefix, indices, states, save) && i < |indices|
    ensures PlacedWith(prefix, indices, states, i, save)
    decreases |indices|
  {
    var n := |indices|;
    if i < n - 1 {
      var ins, sts := indices[..n - 1], states[..n];
      AllPlacedAt(prefix, ins, sts, i, save);
      assert ins[i] == indices[i];
      assert sts[i] == states[i] && sts[i + 1] == states[i + 1];
      if i > 0 { assert ins[i - 1] == indices[i - 1]; }
    }
  }

  /** One more point placed keeps every point placed. */
  lemma SpawnStep(prefix: string, indices: seq<nat>, states: seq<set<string>>, start: nat, index: nat,
                  next: set<string>, save: Save)
    requires |states| == |indices| + 1 && AllPlaced(prefix, indices, states, save)
    requires start == if |indices| == 0 then 0 else indices[|indices| - 1]
    requires FirstFree(states[|indices|], prefix, start, index)
    requires next == states[|indices|] + save(GridPath(prefix, index), states[|indices|])
    ensures AllPlaced(prefix, indices + [index], states + [next], save)
  {
    var n := |indices|;
    var ins, sts := indices + [index], states + [next];
    assert ins[..n] == indices;
    assert sts[..n + 1] == states;
    assert ins[n] == index && sts[n] == states[n] && sts[n + 1] == next;
    if n > 0 { assert ins[n - 1] == indices[n - 1]; }
    assert PlacedAt(prefix, start, index, states[n], next, save);
  }

  /** The inner search: the first free index from `start` on. */
  method NextFree(prefix: string, start: nat, existing: set<string>) returns (index: nat)
    ensures FirstFree(existing, prefix, start, index)
    ensures index - start <= |existing|
  {
    index := start;
    while GridPath(prefix, index) in existing
      invariant start <= index
      invariant forall k :: start <= k < index ==> GridPath(prefix, k) in existing
      decreases |existing| + start - index
    {
      GridTakenBound(prefix, existing, start, index + 1);
      index := index + 1;
    }
    GridTakenBound(prefix, existing, start, index);
  }

  /** Without leading whitespace in the prefix every grid point's workspace
      is created, so the indices strictly increase. */
  lemma SpawnCreates(prefix: string, index: nat, existing: set<string>)
    requires |prefix| == 0 || prefix[0] !in S.Whitespace
    requires GridPath(prefix, index) !in existing
    ensures Created(GridPath(prefix, index), existing) == {GridPath(prefix, index)}
  {
    var p := GridPath(prefix, index);
    var d := S.ZeroPad(index, 4);
    assert p[|p| - 1] == 'g';
    if |prefix| == 0 {
      assert p[0] == d[0];
      assert S.IsDigit(d[0]);
    } else {
      assert p[0] == prefix[0];
    }
    S.StripFixed(p);
    S.RStripFixed(p, {'/'});
  }

  /** Without leading whitespace in the prefix consecutive grid points get
      strictly increasing indices, so no two share a workspace. */
  lemma SpawnStrict(prefix: string, indices: seq<nat>, states: seq<set<string>>, i: nat)
    requires |prefix| == 0 || prefix[0] !in S.Whitespace
    requires i + 1 < |indices| && |states| == |indices| + 1
    requires Placed(prefix, indices, states, i) && Placed(prefix, indices, states, i + 1)
    ensures indices[i] < indices[i + 1]
  {
    SpawnCreates(prefix, indices[i], states[i]);
    assert GridPath(prefix, indices[i]) in states[i + 1];
  }

  /** The prefix of grid workspaces: the template's workspace name without
      extension when it is persistified, else its name; inside `dirname`
      when one is given. */
  function GridPrefix(persistified: bool, wspath: string, name: Option<string>, dirname: Option<string>): (r: string)
    ensures dirname.None? || |dirname.value| == 0 ==> r == (if persistified then F.SplitExt(Basename(wspath)).0 else if name.Some? then name.value else "")
  {
    var base := if persistified then F.SplitExt(Basename(wspath)).0 else if name.Some? then name.value else "";
    if dirname.Some? && |dirname.value| > 0 then PathJoin(dirname.value, base) else base
  }

  /** `os.path.basename`: what follows the last '/'. */
  function Basename(p: string): (r: string)
    ensures '/' !in r
    ensures S.EndsWith(p, r)
  {
    var i := S.RFind(p, '/');
    p[i + 1..]
  }
}
