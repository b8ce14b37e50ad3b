/** Event samples (`Sample`) and their cross-section scaling
    (`HistScaler`): construction defaults, the daughter tree and the files
    and final daughters collected through it, the per-file event-count
    cache, cloning under a tag, and the cached `lumi * xsec / nevents`
    scale.

    The back-reference from a daughter to its parent is kept as the
    parent's name. Event counts read from files are parameters. */
module Samples {
  import opened Wrappers
  import S = Strings
  import R = Reals
  import V = Vars

  const DefaultTree: string := "CollectionTree"
  const DefaultMcEvents: int := 1000000

  datatype Sample = Sample(
    name: string,
    xsec: Option<real>,
    isData: bool,
    daughters: seq<Sample>,
    regex: string,
    files: Option<seq<string>>,
    treename: string,
    sel: Option<V.Var>,
    weight: Option<V.Var>,
    hasScaler: bool,
    mcevents: int,
    parent: Option<string>)

  predicate IsParent(s: Sample) {
    |s.daughters| > 0
  }

  // ---------------------------------------------------------------- construction

  /** `add_daughter`: append and point the daughter at its new parent. */
  function AddDaughter(p: Sample, d: Sample): (r: Sample)
    ensures |r.daughters| == |p.daughters| + 1 && r.daughters[..|p.daughters|] == p.daughters
    ensures r.daughters[|p.daughters|] == d.(parent := Some(p.name))
    ensures r == p.(daughters := r.daughters)
  {
    p.(daughters := p.daughters + [d.(parent := Some(p.name))])
  }

  function AddDaughters(p: Sample, ds: seq<Sample>): (r: Sample)
    ensures |r.daughters| == |p.daughters| + |ds|
    ensures r == p.(daughters := r.daughters)
    ensures r.daughters[..|p.daughters|] == p.daughters
    ensures forall i :: 0 <= i < |ds| ==> r.daughters[|p.daughters| + i] == ds[i].(parent := Some(p.name))
    decreases |ds|
  {
    if |ds| == 0 then p
    else
      var q := AddDaughter(p, ds[0]);
      var r := AddDaughters(q, ds[1..]);
      assert forall i :: 1 <= i < |ds| ==> ds[1..][i - 1] == ds[i];
      r
  }

  /** `Sample(...)`: an empty regex defaults to "*name*", an empty tree name
      to "CollectionTree", an unset or zero event count to 1000000; the
      daughters are added one by one. */
  function NewSample(name: string, xsec: Option<real>, isData: bool, daughters: seq<Sample>,
                     regex: Option<string>, files: Option<seq<string>>, treename: Option<string>,
                     sel: Option<V.Var>, weight: Option<V.Var>, hasScaler: bool,
                     mcevents: Option<int>): (s: Sample)
    ensures regex.None? || regex.value == "" ==> s.regex == "*" + name + "*"
    ensures regex.Some? && regex.value != "" ==> s.regex == regex.value
    ensures treename.None? || treename.value == "" ==> s.treename == DefaultTree
    ensures mcevents.None? || mcevents.value == 0 ==> s.mcevents == DefaultMcEvents
    ensures |s.daughters| == |daughters| && s.parent == None && s.files == files
    ensures forall i :: 0 <= i < |daughters| ==> s.daughters[i] == daughters[i].(parent := Some(name))
  {
    var base := Sample(
      name, xsec, isData, [],
      if regex.None? || regex.value == "" then "*" + name + "*" else regex.value,
      files,
      if treename.None? || treename.value == "" then DefaultTree else treename.value,
      sel, weight, hasScaler,
      if mcevents.None? || mcevents.value == 0 then DefaultMcEvents else mcevents.value,
      None);
    AddDaughters(base, daughters)
  }

  /** The default file pattern matches the sample's own name. */
  lemma DefaultRegexHasName(name: string, xsec: Option<real>, isData: bool, ds: seq<Sample>,
                            files: Option<seq<string>>, sel: Option<V.Var>, weight: Option<V.Var>, sc: bool)
    ensures S.Contains(NewSample(name, xsec, isData, ds, None, files, None, sel, weight, sc, None).regex, name)
  {
    S.ContainsInfix("*", name, "*");
  }

  // ---------------------------------------------------------------- the tree

  /** `get_final_daughters()`: a leaf is its own list; a parent concatenates
      its daughters' lists in order. */
  function FinalDaughters(s: Sample): (r: seq<Sample>)
    ensures forall i :: 0 <= i < |r| ==> !IsParent(r[i])
    ensures |r| >= 1
    decreases s
  {
    if !IsParent(s) then [s] else FinalOf(s.daughters)
  }

  function FinalOf(ds: seq<Sample>): (r: seq<Sample>)
    ensures forall i :: 0 <= i < |r| ==> !IsParent(r[i])
    ensures |r| >= |ds|
    decreases ds
  {
    if |ds| == 0 then [] else FinalDaughters(ds[0]) + FinalOf(ds[1..])
  }

  /** The files a leaf contributes: its own list (none when unset). */
  function LeafFiles(s: Sample): seq<string> {
    if s.files.Some? then s.files.value else []
  }

  /** `get_all_files()`: a parent's own files are ignored; a leaf gives its
      files. */
  function AllFiles(s: Sample): seq<string>
    decreases s
  {
    if IsParent(s) then AllFilesOf(s.daughters) else LeafFiles(s)
  }

  function AllFilesOf(ds: seq<Sample>): seq<string>
    decreases ds
  {
    if |ds| == 0 then [] else AllFiles(ds[0]) + AllFilesOf(ds[1..])
  }

  /** The files of a list of leaves, concatenated. */
  function FilesOfLeaves(ls: seq<Sample>): seq<string> {
    if |ls| == 0 then [] else LeafFiles(ls[0]) + FilesOfLeaves(ls[1..])
  }

  lemma {:induction false} FilesOfLeavesAppend(a: seq<Sample>, b: seq<Sample>)
    ensures FilesOfLeaves(a + b) == FilesOfLeaves(a) + FilesOfLeaves(b)
    decreases |a|
  {
    if |a| == 0 {
      assert a + b == b;
    } else {
      assert (a + b)[1..] == a[1..] + b;
      FilesOfLeavesAppend(a[1..], b);
    }
  }

  /** All files are exactly the files of the final daughters, in order. */
  lemma {:induction false} AllFilesOfFinal(s: Sample)
    ensures AllFiles(s) == FilesOfLeaves(FinalDaughters(s))
    decreases s, 1
  {
    if IsParent(s) {
      AllFilesOfFinalList(s.daughters);
    } else {
      assert FinalDaughters(s) == [s];
      assert FilesOfLeaves([s]) == LeafFiles(s) + FilesOfLeaves([]);
    }
  }

  lemma {:induction false} AllFilesOfFinalList(ds: seq<Sample>)
    ensures AllFilesOf(ds) == FilesOfLeaves(FinalOf(ds))
    decreases ds, 0
  {
    if |ds| > 0 {
      AllFilesOfFinal(ds[0]);
      AllFilesOfFinalList(ds[1..]);
      FilesOfLeavesAppend(FinalDaughters(ds[0]), FinalOf(ds[1..]));
    }
  }

  /** `is_active()`: the sample has at least one input file. */
  predicate IsActive(s: Sample) {
    |AllFiles(s)| > 0
  }

  lemma {:induction false} FilesOfLeavesEmpty(ls: seq<Sample>)
    ensures |FilesOfLeaves(ls)| == 0 <==> forall i :: 0 <= i < |ls| ==> |LeafFiles(ls[i])| == 0
    decreases |ls|
  {
    if |ls| > 0 {
      FilesOfLeavesEmpty(ls[1..]);
      assert forall i :: 1 <= i < |ls| ==> ls[1..][i - 1] == ls[i];
    }
  }

  /** A sample is active exactly when some final daughter has files. */
  lemma IsActiveIff(s: Sample)
    ensures IsActive(s) <==>
      exists i :: 0 <= i < |FinalDaughters(s)| && |LeafFiles(FinalDaughters(s)[i])| > 0
  {
    AllFilesOfFinal(s);
    FilesOfLeavesEmpty(FinalDaughters(s));
  }

  function FinalNames(s: Sample): (r: seq<string>)
    ensures |r| == |FinalDaughters(s)|
  {
    var ds := FinalDaughters(s);
    seq(|ds|, i requires 0 <= i < |ds| => ds[i].name)
  }

  /** The final daughters of a daughter whose parent link was reset are
      unchanged except for a leaf's own parent link. */
  lemma FinalReparent(d: Sample, p: string)
    ensures FinalNames(d.(parent := Some(p))) == FinalNames(d)
    ensures AllFiles(d.(parent := Some(p))) == AllFiles(d)
  {
  }

  /** Adding a daughter appends its final daughters and files; a sample that
      was a leaf stops contributing its own files. */
  lemma AddDaughterTree(p: Sample, d: Sample)
    ensures FinalNames(AddDaughter(p, d)) == (if IsParent(p) then FinalNames(p) else []) + FinalNames(d)
    ensures AllFiles(AddDaughter(p, d)) == (if IsParent(p) then AllFiles(p) else []) + AllFiles(d)
  {
    var q := AddDaughter(p, d);
    var d' := d.(parent := Some(p.name));
    FinalReparent(d, p.name);
    FinalOfAppend(p.daughters, [d']);
    AllFilesOfAppend(p.daughters, [d']);
    assert [d'][1..] == [];
    assert FinalOf([d']) == FinalDaughters(d');
    assert AllFilesOf([d']) == AllFiles(d');
    if !IsParent(p) {
      assert p.daughters + [d'] == [d'];
    }
  }

  lemma {:induction false} FinalOfAppend(a: seq<Sample>, b: seq<Sample>)
    ensures FinalOf(a + b) == FinalOf(a) + FinalOf(b)
    decreases |a|
  {
    if |a| == 0 {
      assert a + b == b;
    } else {
      assert (a + b)[0] == a[0];
      assert (a + b)[1..] == a[1..] + b;
      FinalOfAppend(a[1..], b);
    }
  }

  lemma {:induction false} AllFilesOfAppend(a: seq<Sample>, b: seq<Sample>)
    ensures AllFilesOf(a + b) == AllFilesOf(a) + AllFilesOf(b)
    decreases |a|
  {
    if |a| == 0 {
      assert a + b == b;
    } else {
      assert (a + b)[0] == a[0];
      assert (a + b)[1..] == a[1..] + b;
      AllFilesOfAppend(a[1..], b);
    }
  }

  // ---------------------------------------------------------------- event counts

  /** Sum of the per-file counts. */
  function SumCounts(files: seq<string>, count: string -> nat): nat {
    if |files| == 0 then 0 else count(files[0]) + SumCounts(files[1..], count)
  }

  /** The per-file cache agrees with the files' actual counts. */
  predicate CacheAgrees(cache: map<string, nat>, count: string -> nat) {
    forall f :: f in cache ==> cache[f] == count(f)
  }

  /** `get_nevents(fname)` for one file: read once, then served from the
      cache. */
  function FileNEvents(cache: map<string, nat>, f: string, count: string -> nat): (r: (nat, map<string, nat>))
    ensures f in r.1 && r.0 == r.1[f]
    ensures f in cache ==> r == (cache[f], cache)
    ensures forall g :: g in cache ==> g in r.1 && r.1[g] == cache[g]
    ensures r.1.Keys == cache.Keys + {f}
  {
    if f in cache then (cache[f], cache) else (count(f), cache[f := count(f)])
  }

  function FilesNEvents(cache: map<string, nat>, files: seq<string>, count: string -> nat): (r: (nat, map<string, nat>))
    ensures forall g :: g in cache ==> g in r.1 && r.1[g] == cache[g]
    ensures forall f :: f in files ==> f in r.1
    ensures forall g :: g in r.1 ==> g in cache || g in files
    decreases |files|
  {
    if |files| == 0 then (0, cache)
    else
      var (n, c1) := FileNEvents(cache, files[0], count);
      var (m, c2) := FilesNEvents(c1, files[1..], count);
      (n + m, c2)
  }

  /** `get_nevents(fname)`: the per-file count, or with no file name the sum
      over the sample's files (an unset file list raises). */
  function NEvents(s: Sample, cache: map<string, nat>, fname: Option<string>, count: string -> nat): (r: Result<(nat, map<string, nat>)>)
    ensures fname.None? ==> (r.Ok? <==> s.files.Some?)
    ensures fname.Some? ==> r.Ok? && fname.value in r.value.1
  {
    if fname.Some? then Ok(FileNEvents(cache, fname.value, count))
    else if s.files.None? then Err(Fatal("'NoneType' object is not iterable"))
    else Ok(FilesNEvents(cache, s.files.value, count))
  }

  /** With a cache that agrees with the files, the total is the sum of the
      per-file counts and the updated cache still agrees. */
  lemma {:induction false} FilesNEventsSum(cache: map<string, nat>, files: seq<string>, count: string -> nat)
    requires CacheAgrees(cache, count)
    ensures FilesNEvents(cache, files, count).0 == SumCounts(files, count)
    ensures CacheAgrees(FilesNEvents(cache, files, count).1, count)
    decreases |files|
  {
    if |files| > 0 {
      var (n, c1) := FileNEvents(cache, files[0], count);
      FilesNEventsSum(c1, files[1..], count);
    }
  }

  /** Asking again with the returned cache gives the same answer and leaves
      the cache as it is: every file was read at most once. */
  lemma {:induction false} FilesNEventsCached(cache: map<string, nat>, files: seq<string>, count: string -> nat)
    ensures var (n, c) := FilesNEvents(cache, files, count);
            FilesNEvents(c, files, count) == (n, c)
  {
    var (n, c) := FilesNEvents(cache, files, count);
    FilesNEventsServed(cache, c, files, count);
  }

  /** Files all present in `c` and a cache `cache` it extends are served
      from `c` without reading. */
  lemma {:induction false} FilesNEventsServed(cache: map<string, nat>, c: map<string, nat>, files: seq<string>, count: string -> nat)
    requires c == FilesNEvents(cache, files, count).1
    ensures FilesNEvents(c, files, count) == (FilesNEvents(cache, files, count).0, c)
    decreases |files|
  {
    if |files| > 0 {
      var (n0, c1) := FileNEvents(cache, files[0], count);
      FilesNEventsServed(c1, c, files[1..], count);
      FilesNEventsCons(cache, files, count);
      FilesNEventsCons(c, files, count);
      assert files[0] in c1 && c[files[0]] == c1[files[0]];
      assert FileNEvents(c, files[0], count) == (n0, c);
    }
  }

  /** The first file's count, then the rest with the cache it leaves. */
  lemma FilesNEventsCons(cache: map<string, nat>, files: seq<string>, count: string -> nat)
    requires |files| > 0
    ensures var (n, c1) := FileNEvents(cache, files[0], count);
            var (m, c2) := FilesNEvents(c1, files[1..], count);
            FilesNEvents(cache, files, count) == (n + m, c2)
  {
  }

  // ---------------------------------------------------------------- clone

  /** `regexmod.format(regex=…, name=…, tag=…)` in one left-to-right pass:
      substituted values are not scanned again; `{{` and `}}` are literal
      braces; any other brace is a formatting error. */
  function FormatRegex(t: string, regex: string, name: string, tag: string): (r: Result<string>)
    ensures (forall i :: 0 <= i < |t| ==> t[i] != '{' && t[i] != '}') ==> r == Ok(t)
    decreases |t|
  {
    FirstOfPrefix(t, "{regex}"); FirstOfPrefix(t, "{name}"); FirstOfPrefix(t, "{tag}");
    FirstOfPrefix(t, "{{"); FirstOfPrefix(t, "}}");
    if |t| == 0 then Ok("")
    else if S.StartsWith(t, "{regex}") then Prefix(regex, FormatRegex(t[7..], regex, name, tag))
    else if S.StartsWith(t, "{name}") then Prefix(name, FormatRegex(t[6..], regex, name, tag))
    else if S.StartsWith(t, "{tag}") then Prefix(tag, FormatRegex(t[5..], regex, name, tag))
    else if S.StartsWith(t, "{{") then Prefix("{", FormatRegex(t[2..], regex, name, tag))
    else if S.StartsWith(t, "}}") then Prefix("}", FormatRegex(t[2..], regex, name, tag))
    else if t[0] == '{' || t[0] == '}' then Err(Fatal("invalid format field"))
    else
      var rest := FormatRegex(t[1..], regex, name, tag);
      assert t == [t[0]] + t[1..];
      Prefix([t[0]], rest)
  }

  /** A text that starts with a non-empty prefix starts with its first character. */
  lemma FirstOfPrefix(t: string, p: string)
    ensures |p| > 0 && S.StartsWith(t, p) ==> |t| > 0 && t[0] == p[0]
  {
    if |p| > 0 && S.StartsWith(t, p) {
      assert t[..|p|][0] == p[0];
    }
  }

  function Prefix(p: string, r: Result<string>): Result<string> {
    if r.Ok? then Ok(p + r.value) else r
  }

  predicate NoBraces(t: string) {
    '{' !in t && '}' !in t
  }

  /** Whether a template formats does not depend on the values. */
  lemma {:induction false} FormatOkIndependent(t: string, r1: string, n1: string, g1: string, r2: string, n2: string, g2: string)
    ensures FormatRegex(t, r1, n1, g1).Ok? == FormatRegex(t, r2, n2, g2).Ok?
    decreases |t|
  {
    if |t| > 0 {
      if S.StartsWith(t, "{regex}") { FormatOkIndependent(t[7..], r1, n1, g1, r2, n2, g2); }
      else if S.StartsWith(t, "{name}") { FormatOkIndependent(t[6..], r1, n1, g1, r2, n2, g2); }
      else if S.StartsWith(t, "{tag}") { FormatOkIndependent(t[5..], r1, n1, g1, r2, n2, g2); }
      else if S.StartsWith(t, "{{") || S.StartsWith(t, "}}") { FormatOkIndependent(t[2..], r1, n1, g1, r2, n2, g2); }
      else if t[0] != '{' && t[0] != '}' { FormatOkIndependent(t[1..], r1, n1, g1, r2, n2, g2); }
    }
  }

  /** Text without braces is copied through. */
  lemma {:induction false} FormatPlainText(p: string, q: string, regex: string, name: string, tag: string)
    requires NoBraces(p)
    ensures FormatRegex(p + q, regex, name, tag) == Prefix(p, FormatRegex(q, regex, name, tag))
    decreases |p|
  {
    if |p| == 0 {
      assert p + q == q;
      PrefixEmpty(FormatRegex(q, regex, name, tag));
    } else {
      var t := p + q;
      assert t[0] == p[0] && t[1..] == p[1..] + q;
      assert p[0] in p;
      FormatPlainStep(t, regex, name, tag);
      assert NoBraces(p[1..]) by {
        assert forall c :: c in p[1..] ==> c in p;
      }
      FormatPlainText(p[1..], q, regex, name, tag);
      PrefixPrefix([p[0]], p[1..], FormatRegex(q, regex, name, tag));
      assert [p[0]] + p[1..] == p;
    }
  }

  /** A character that is not a brace is copied as it is. */
  lemma FormatPlainStep(t: string, regex: string, name: string, tag: string)
    requires |t| > 0 && t[0] != '{' && t[0] != '}'
    ensures FormatRegex(t, regex, name, tag) == Prefix([t[0]], FormatRegex(t[1..], regex, name, tag))
  {
    assert !S.StartsWith(t, "{regex}") && !S.StartsWith(t, "{name}") && !S.StartsWith(t, "{tag}") by {
      assert "{regex}"[0] == '{' && "{name}"[0] == '{' && "{tag}"[0] == '{';
    }
    assert !S.StartsWith(t, "{{") && !S.StartsWith(t, "}}") by {
      assert "{{"[0] == '{' && "}}"[0] == '}';
    }
  }

  lemma PrefixEmpty(r: Result<string>)
    ensures Prefix("", r) == r
  {
    if r.Ok? { assert "" + r.value == r.value; }
  }

  lemma PrefixPrefix(a: string, b: string, r: Result<string>)
    ensures Prefix(a, Prefix(b, r)) == Prefix(a + b, r)
  {
    if r.Ok? { assert a + (b + r.value) == (a + b) + r.value; }
  }

  /** A `{tag}` field after plain text is replaced by the tag. */
  lemma FormatTagField(p: string, q: string, regex: string, name: string, tag: string)
    requires NoBraces(p)
    ensures FormatRegex(p + "{tag}" + q, regex, name, tag) ==
            Prefix(p + tag, FormatRegex(q, regex, name, tag))
  {
    var t := "{tag}" + q;
    FormatPlainText(p, t, regex, name, tag);
    FormatTagStep(q, regex, name, tag);
    assert p + "{tag}" + q == p + t;
    PrefixPrefix(p, tag, FormatRegex(q, regex, name, tag));
  }

  /** A leading `{tag}` field is replaced by the tag. */
  lemma FormatTagStep(q: string, regex: string, name: string, tag: string)
    ensures FormatRegex("{tag}" + q, regex, name, tag) == Prefix(tag, FormatRegex(q, regex, name, tag))
  {
    var t := "{tag}" + q;
    assert t[..5] == "{tag}" && t[5..] == q;
    assert !S.StartsWith(t, "{regex}") by { assert t[1] == 't' && "{regex}"[1] == 'r'; }
    assert !S.StartsWith(t, "{name}") by { assert t[1] == 't' && "{name}"[1] == 'n'; }
  }

  /** The non-star characters of a string, in order. */
  function Unstarred(s: string): string {
    if |s| == 0 then "" else (if s[0] == '*' then "" else [s[0]]) + Unstarred(s[1..])
  }

  lemma {:induction false} UnstarredAppend(a: string, b: string)
    ensures Unstarred(a + b) == Unstarred(a) + Unstarred(b)
    decreases |a|
  {
    if |a| == 0 {
      assert a + b == b;
    } else {
      assert (a + b)[1..] == a[1..] + b;
      UnstarredAppend(a[1..], b);
    }
  }

  /** Collapsing "**" into "*" only removes stars. */
  lemma {:induction false} CollapseKeepsText(s: string)
    ensures Unstarred(S.ReplaceAll(s, "**", "*")) == Unstarred(s)
    decreases |s|
  {
    if |s| >= 2 {
      if s[..2] == "**" {
        CollapseKeepsText(s[2..]);
        UnstarredAppend("*", S.ReplaceAll(s[2..], "**", "*"));
        assert s == "**" + s[2..];
        UnstarredAppend("**", s[2..]);
      } else {
        CollapseKeepsText(s[1..]);
        UnstarredAppend([s[0]], S.ReplaceAll(s[1..], "**", "*"));
        assert s == [s[0]] + s[1..];
        UnstarredAppend([s[0]], s[1..]);
      }
    }
  }

  /** The regex of a clone: formatted, then "**" collapsed to "*". */
  function CloneRegex(s: Sample, tag: string, regexmod: Option<string>): Result<Option<string>> {
    if regexmod.None? then Ok(None)
    else
      var f := FormatRegex(regexmod.value, s.regex, s.name, tag);
      if f.Err? then Err(f.error) else Ok(Some(S.ReplaceAll(f.value, "**", "*")))
  }

  /** The clone of one sample without its daughters: cross section,
      data flag, selection, weight and scaler are kept; files, tree name,
      style and event count are left to their defaults. */
  function CloneOne(s: Sample, tag: string, regexmod: Option<string>): (r: Result<Sample>)
    ensures r.Ok? <==> CloneRegex(s, tag, regexmod).Ok?
    ensures r.Ok? ==> r.value.name == s.name + "_" + tag && r.value.daughters == []
    ensures r.Ok? ==> r.value.xsec == s.xsec && r.value.isData == s.isData && r.value.sel == s.sel
                      && r.value.weight == s.weight && r.value.hasScaler == s.hasScaler
    ensures r.Ok? ==> r.value.files == None && r.value.treename == DefaultTree && r.value.mcevents == DefaultMcEvents
    ensures regexmod.None? ==> r.Ok? && r.value.regex == "*" + s.name + "_" + tag + "*"
  {
    var rx := CloneRegex(s, tag, regexmod);
    if rx.Err? then Err(rx.error)
    else Ok(NewSample(s.name + "_" + tag, s.xsec, s.isData, [], rx.value, None, None,
                      s.sel, s.weight, s.hasScaler, None))
  }

  function CloneAll(ds: seq<Sample>, tag: string, regexmod: Option<string>): (r: Result<seq<Sample>>)
    ensures r.Ok? ==> |r.value| == |ds|
    ensures r.Ok? ==> forall i :: 0 <= i < |ds| ==> CloneOne(ds[i], tag, regexmod) == Ok(r.value[i])
    ensures (forall i :: 0 <= i < |ds| ==> CloneOne(ds[i], tag, regexmod).Ok?) ==> r.Ok?
  {
    if |ds| == 0 then Ok([])
    else
      var c := CloneOne(ds[0], tag, regexmod);
      var rest := CloneAll(ds[1..], tag, regexmod);
      assert forall i :: 1 <= i < |ds| ==> ds[1..][i - 1] == ds[i];
      if c.Err? then Err(c.error)
      else if rest.Err? then Err(rest.error)
      else Ok([c.value] + rest.value)
  }

  /** `clone(tag, regexmod)`: a parent's clone gets clones of its final
      daughters (the lineage in between is dropped). */
  function Clone(s: Sample, tag: string, regexmod: Option<string>): (r: Result<Sample>)
    ensures r.Ok? <==> CloneOne(s, tag, regexmod).Ok?
    ensures r.Ok? ==> r.value.name == s.name + "_" + tag
  {
    var top := CloneOne(s, tag, regexmod);
    if top.Err? then top
    else if !IsParent(s) then top
    else
      var ds := CloneAll(FinalDaughters(s), tag, regexmod);
      CloneDaughtersOk(s, tag, regexmod);
      Ok(AddDaughters(top.value, ds.value))
  }

  /** Whether a clone succeeds depends only on the template, so the final
      daughters clone whenever the sample does. */
  lemma CloneDaughtersOk(s: Sample, tag: string, regexmod: Option<string>)
    requires CloneOne(s, tag, regexmod).Ok?
    ensures CloneAll(FinalDaughters(s), tag, regexmod).Ok?
  {
    var ds := FinalDaughters(s);
    forall i | 0 <= i < |ds| ensures CloneOne(ds[i], tag, regexmod).Ok? {
      if regexmod.Some? {
        FormatOkIndependent(regexmod.value, s.regex, s.name, tag, ds[i].regex, ds[i].name, tag);
      }
    }
  }

  /** The clone of a parent has, as its direct daughters, one leaf per final
      daughter of the original, named with the tag, pointing back at the
      clone. */
  lemma CloneDaughters(s: Sample, tag: string, regexmod: Option<string>, i: nat)
    requires Clone(s, tag, regexmod).Ok? && IsParent(s) && i < |FinalDaughters(s)|
    ensures |Clone(s, tag, regexmod).value.daughters| == |FinalDaughters(s)|
    ensures Clone(s, tag, regexmod).value.daughters[i].name == FinalDaughters(s)[i].name + "_" + tag
    ensures !IsParent(Clone(s, tag, regexmod).value.daughters[i])
    ensures Clone(s, tag, regexmod).value.daughters[i].parent == Some(s.name + "_" + tag)
  {
    var ds := FinalDaughters(s);
    CloneDaughtersOk(s, tag, regexmod);
    var cs := CloneAll(ds, tag, regexmod);
    assert CloneOne(ds[i], tag, regexmod) == Ok(cs.value[i]);
  }

  /** The clone of a leaf is a leaf. */
  lemma CloneLeaf(s: Sample, tag: string, regexmod: Option<string>)
    requires Clone(s, tag, regexmod).Ok? && !IsParent(s)
    ensures !IsParent(Clone(s, tag, regexmod).value)
  {
  }

  // ---------------------------------------------------------------- scaling

  datatype Scaler = Scaler(
    lumi: real,
    skimHist: string,
    skimBin: int,
    nevents: map<string, real>,   // per sample name
    scales: map<string, real>)    // per sample name

  /** `HistScaler(lumi, skim_hist_name, skim_hist_bin)` with its defaults. */
  function NewScaler(lumi: Option<real>, skimHist: Option<string>, skimBin: Option<int>): (sc: Scaler)
    ensures !R.Truthy(lumi) ==> sc.lumi == 1.0
    ensures R.Truthy(lumi) ==> sc.lumi == lumi.value
    ensures skimHist.None? || skimHist.value == "" ==> sc.skimHist == "CutFlow"
    ensures skimBin.None? || skimBin.value == 0 ==> sc.skimBin == 2
    ensures sc.nevents == map[] && sc.scales == map[]
  {
    Scaler(if R.Truthy(lumi) then lumi.value else 1.0,
           if skimHist.None? || skimHist.value == "" then "CutFlow" else skimHist.value,
           if skimBin.None? || skimBin.value == 0 then 2 else skimBin.value,
           map[], map[])
  }

  /** Skim counts over the files; a file or histogram that cannot be read
      (`None`) contributes nothing. */
  function SkimSum(files: seq<string>, read: string -> Option<real>): real {
    if |files| == 0 then 0.0
    else (if read(files[0]).Some? then read(files[0]).value else 0.0) + SkimSum(files[1..], read)
  }

  /** `__get_nevents__`: the sample's skim count, cached by sample name. */
  function ScalerNEvents(sc: Scaler, s: Sample, read: string -> Option<real>): (r: (real, Scaler))
    ensures s.name in r.1.nevents && r.0 == r.1.nevents[s.name]
    ensures s.name in sc.nevents ==> r == (sc.nevents[s.name], sc)
    ensures r.1 == sc.(nevents := r.1.nevents)
  {
    if s.name in sc.nevents then (sc.nevents[s.name], sc)
    else
      var n := if s.files.Some? then SkimSum(s.files.value, read) else 0.0;
      (n, sc.(nevents := sc.nevents[s.name := n]))
  }

  /** `__calc_scale__`: `lumi * xsec / nevents` when the cross section is set
      and the count is non-zero, else 1.0; cached by sample name. */
  function CalcScale(sc: Scaler, s: Sample, read: string -> Option<real>): (r: (real, Scaler))
    ensures s.name in r.1.scales && r.0 == r.1.scales[s.name]
    ensures s.name in sc.scales ==> r == (sc.scales[s.name], sc)
    ensures r.1.lumi == sc.lumi
  {
    if s.name in sc.scales then (sc.scales[s.name], sc)
    else
      var (v, sc1) :=
        if R.Truthy(s.xsec) then
          var (n, sc2) := ScalerNEvents(sc, s, read);
          (if n != 0.0 then sc.lumi * s.xsec.value / n else 1.0, sc2)
        else (1.0, sc);
      (v, sc1.(scales := sc1.scales[s.name := v]))
  }

  /** A first computation is `lumi * xsec / nevents`, or 1.0 without a cross
      section or events. */
  lemma CalcScaleFresh(sc: Scaler, s: Sample, read: string -> Option<real>)
    requires s.name !in sc.scales && s.name !in sc.nevents
    ensures var n := if s.files.Some? then SkimSum(s.files.value, read) else 0.0;
            CalcScale(sc, s, read).0 ==
              (if R.Truthy(s.xsec) && n != 0.0 then sc.lumi * s.xsec.value / n else 1.0)
  {
    var n := if s.files.Some? then SkimSum(s.files.value, read) else 0.0;
    if R.Truthy(s.xsec) {
      var (m, sc2) := ScalerNEvents(sc, s, read);
      assert m == n;
      var v := if m != 0.0 then sc.lumi * s.xsec.value / m else 1.0;
      assert CalcScale(sc, s, read).0 == v;
    } else {
      assert CalcScale(sc, s, read).0 == 1.0;
    }
  }

  /** The cache is keyed by name: a later sample with the same name gets the
      first one's scale whatever its own files and cross section. */
  lemma CalcScaleByName(sc: Scaler, s1: Sample, s2: Sample, read: string -> Option<real>)
    requires s1.name == s2.name
    ensures CalcScale(CalcScale(sc, s1, read).1, s2, read).0 == CalcScale(sc, s1, read).0
  {
  }

  /** `scale(sample, event_frac)`: the cached scale, divided by a set,
      non-zero event fraction. Its debug message is formatted eagerly with
      the cross section as `{sample.xsec:.3f}`, which raises a TypeError for
      a sample without one. */
  function ScaleFor(sc: Scaler, s: Sample, eventFrac: Option<real>, read: string -> Option<real>): (r: Result<(real, Scaler)>)
    ensures r.Err? <==> s.xsec.None?
    ensures r.Ok? && R.Truthy(eventFrac) ==> r.value.0 * eventFrac.value == CalcScale(sc, s, read).0
    ensures r.Ok? && !R.Truthy(eventFrac) ==> r.value.0 == CalcScale(sc, s, read).0
    ensures r.Ok? ==> s.name in r.value.1.scales && s.name in r.value.1.nevents
  {
    var (v, sc1) := CalcScale(sc, s, read);
    var (_, sc2) := ScalerNEvents(sc1, s, read);
    if s.xsec.None? then Err(TypeError("unsupported format string passed to NoneType.__format__"))
    else Ok((if R.Truthy(eventFrac) then v / eventFrac.value else v, sc2))
  }
}
