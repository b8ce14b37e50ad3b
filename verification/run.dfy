/** The release-21 tau identification run script: which files each step
    reads and writes. Spawning, training and decorating the workspaces
    themselves are the algorithm and ntuple models' business; here the
    steps are plans, the copies and decorations they would make, so that
    the hand-over between steps can be stated. Globbing a directory is a
    set of names; copying files and the training itself are left out. */
module TauIdRun {
  import opened Wrappers
  import S = Strings
  import F = Files
  import A = Alg

  // ---------------------------------------------------------------- names

  /** The two prong categories the script handles. */
  datatype Prong = OneProng | ThreeProng

  function Label(p: Prong): (r: string)
    ensures |r| == 2 && r[1] == 'P'
  {
    match p
    case OneProng => "1P"
    case ThreeProng => "3P"
  }

  /** The testing ntuples of each prong. */
  function SigTest(p: Prong): (r: string)
    ensures '/' !in r
  {
    match p
    case OneProng => "sig1P_test.root"
    case ThreeProng => "sig3P_test.root"
  }

  function BkgTest(p: Prong): (r: string)
    ensures '/' !in r
  {
    match p
    case OneProng => "bkg1P_weight_test.root"
    case ThreeProng => "bkg3P_weight_test.root"
  }

  /** The working points of each prong, loosest first, with their signal
      efficiencies in percent. */
  function WorkingPoints(p: Prong): (r: seq<(string, int)>)
    ensures |r| == 4
    ensures forall i, j :: 0 <= i < j < |r| ==> r[i].1 > r[j].1
    ensures forall i :: 0 <= i < |r| ==> 0 < r[i].1 <= 100
  {
    match p
    case OneProng => [("VeryLoose", 95), ("Loose", 85), ("Medium", 75), ("Tight", 60)]
    case ThreeProng => [("VeryLoose", 95), ("Loose", 75), ("Medium", 60), ("Tight", 45)]
  }

  /** `file_suffix(fname, suffix)`: the suffix goes between the name and
      its extension. */
  function FileSuffix(fname: string, suffix: string): (r: string)
    ensures |r| == |fname| + |suffix|
    ensures S.StartsWith(r, F.SplitExt(fname).0) && S.EndsWith(r, F.SplitExt(fname).1)
  {
    var (name, ext) := F.SplitExt(fname);
    var r := name + suffix + ext;
    assert r[..|name|] == name;
    assert r[|r| - |ext|..] == ext;
    r
  }

  /** A suffix without `.` or `/` keeps the extension: splitting the new
      name gives the old root with the suffix, and the old extension. */
  lemma FileSuffixKeepsExt(fname: string, suffix: string)
    requires |suffix| > 0 && '.' !in suffix && '/' !in suffix
    ensures F.SplitExt(FileSuffix(fname, suffix)) == (F.SplitExt(fname).0 + suffix, F.SplitExt(fname).1)
  {
    F.SplitExtInsert(fname, suffix);
  }

  /** A name whose last `.` comes after its last `/` and after some
      character that is not a dot has that extension. */
  lemma ExtAt(q: string, sep: int, dot: nat)
    requires -1 <= sep < dot < |q|
    requires sep >= 0 ==> q[sep] == '/'
    requires '/' !in q[sep + 1..]
    requires q[dot] == '.' && '.' !in q[dot + 1..]
    requires sep + 1 < dot && q[sep + 1] != '.'
    ensures F.SplitExt(q) == (q[..dot], q[dot..])
  {
    if sep >= 0 { F.RFindUnique(q, '/', sep); } else { assert '/' !in q; }
    F.RFindUnique(q, '.', dot);
    assert q[sep + 1..dot][0] == q[sep + 1];
  }

  /** The example of `file_suffix`'s documentation. */
  lemma FileSuffixExample()
    ensures FileSuffix("ntuples/sig1P.root", "_deco") == "ntuples/sig1P_deco.root"
  {
    ExampleSplit();
    ExampleText();
  }

  lemma ExampleSplit()
    ensures F.SplitExt("ntuples/sig1P.root") == ("ntuples/sig1P", ".root")
  {
    var q := "ntuples/sig1P.root";
    assert q[7] == '/' && q[8] == 's' && q[13] == '.';
    assert q[8..] == "sig1P.root";
    assert q[14..] == "root";
    ExampleNoSep();
    ExtAt(q, 7, 13);
    assert q[..13] == "ntuples/sig1P";
    assert q[13..] == ".root";
  }

  lemma ExampleNoSep()
    ensures '/' !in "sig1P.root" && '.' !in "root"
  {
  }

  lemma ExampleText()
    ensures "ntuples/sig1P" + "_deco" + ".root" == "ntuples/sig1P_deco.root"
  {
  }

  /** A string contains what it holds at a given position. */
  lemma ContainsAt(s: string, i: nat, sub: string)
    requires i + |sub| <= |s| && s[i..i + |sub|] == sub
    ensures S.Contains(s, sub)
  {
    assert s == s[..i] + sub + s[i + |sub|..];
    S.ContainsInfix(s[..i], sub, s[i + |sub|..]);
  }

  /** `os.path.dirname`: up to the last `/`, without trailing slashes
      unless there is nothing else. */
  function Dirname(p: string): (r: string)
    ensures |r| <= |p|
  {
    var head := p[..S.RFind(p, '/') + 1];
    if |head| > 0 && !S.AllIn(head, {'/'}) then S.RStrip(head, {'/'}) else head
  }

  // ---------------------------------------------------------------- workspaces

  /** What a step reads of a loaded workspace: its name, whether it has
      been trained, and the files of its samples. */
  datatype Workspace = Workspace(name: string, trained: bool, sigTrain: seq<string>,
                                 sigTest: seq<string>, bkgTest: seq<string>)

  /** The workspace file names of the BDTs and of their flattenings. */
  function BdtWorkspace(p: Prong): string {
    "JetBDT" + Label(p) + ".alg"
  }

  function FlatWorkspace(p: Prong): string {
    "FlatJetBDT" + Label(p) + ".alg"
  }

  /** A name matched by the glob `<stem>[1,3]P.alg` (the bracket holds
      the three characters `1`, `,` and `3`). */
  predicate GlobMatch(stem: string, name: string) {
    |name| == |stem| + 6 && name[..|stem|] == stem && name[|stem|] in {'1', ',', '3'}
    && name[|stem| + 1..] == "P.alg"
  }

  /** The steps look for exactly the workspaces the earlier steps wrote:
      the BDT glob finds both BDT workspaces and neither flattening, and
      the flattening glob finds both flattenings. */
  lemma GlobsSeparate(p: Prong)
    ensures GlobMatch("JetBDT", BdtWorkspace(p)) && !GlobMatch("JetBDT", FlatWorkspace(p))
    ensures GlobMatch("FlatJetBDT", FlatWorkspace(p)) && !GlobMatch("FlatJetBDT", BdtWorkspace(p))
  {
    var b, f := BdtWorkspace(p), FlatWorkspace(p);
    assert b[..6] == "JetBDT" && b[7..] == "P.alg";
    assert f[..10] == "FlatJetBDT" && f[11..] == "P.alg";
    assert f[..6] != "JetBDT" by { assert f[0] == 'F'; }
  }

  /** The prong a flattening workspace decorates: one-prong exactly when
      its name mentions "1P". */
  function ProngOf(name: string): (r: Prong)
    ensures r == OneProng <==> S.Contains(name, "1P")
  {
    if S.Contains(name, "1P") then OneProng else ThreeProng
  }

  /** A copy of an input into the output directory, and the efficiencies
      of the working points then decorated on it (none for a score). */
  datatype Copy = Copy(src: string, dest: string, effs: seq<int>)

  /** What a step does with one workspace. */
  datatype Outcome = Skipped(reason: string) | Copies(copies: seq<Copy>)

  /** `deco_bdt` for one workspace: untrained or with other than one
      testing file per sample, it is skipped; otherwise both testing files
      are copied with "_deco" into the output directory, to carry the
      score. */
  function DecoBdt(ws: Workspace, outdir: string): (r: Outcome)
    ensures r.Copies? <==> ws.trained && |ws.sigTest| == 1 && |ws.bkgTest| == 1
    ensures r.Copies? ==> |r.copies| == 2 && r.copies[0].src == ws.sigTest[0] && r.copies[1].src == ws.bkgTest[0]
  {
    if !ws.trained then Skipped("not trained")
    else if |ws.sigTest| != 1 || |ws.bkgTest| != 1 then Skipped("one file per testing sample")
    else Copies([DecoCopy(ws.sigTest[0], outdir, "_deco", []), DecoCopy(ws.bkgTest[0], outdir, "_deco", [])])
  }

  /** A copy of `f` named with a suffix in `outdir`. */
  function DecoCopy(f: string, outdir: string, suffix: string, effs: seq<int>): (r: Copy)
    ensures r.src == f && r.effs == effs
  {
    Copy(f, A.PathJoin(outdir, FileSuffix(A.Basename(f), suffix)), effs)
  }

  /** `tune_wp` for one prong: the decorated signal testing file it reads
      and the flattening workspace it writes. */
  function TuneWp(p: Prong, indir: string, outdir: string): (r: (string, string))
    ensures r.1 == A.PathJoin(outdir, FlatWorkspace(p))
  {
    (A.PathJoin(indir, FileSuffix(SigTest(p), "_deco")), A.PathJoin(outdir, FlatWorkspace(p)))
  }

  /** The background file that goes with a signal file: the decorated
      testing background of the prong its name mentions, beside it; none
      when its name mentions neither prong. */
  function BackgroundFile(sigf: string): (r: Option<string>)
    ensures var base := A.Basename(sigf);
            r.None? <==> !S.Contains(base, "1P") && !S.Contains(base, "3P")
    ensures var base := A.Basename(sigf);
            S.Contains(base, "1P") ==> r == Some(A.PathJoin(Dirname(sigf), FileSuffix(BkgTest(OneProng), "_deco")))
    ensures var base := A.Basename(sigf);
            (!S.Contains(base, "1P") && S.Contains(base, "3P")
             ==> r == Some(A.PathJoin(Dirname(sigf), FileSuffix(BkgTest(ThreeProng), "_deco"))))
  {
    var base := A.Basename(sigf);
    if S.Contains(base, "1P") then Some(A.PathJoin(Dirname(sigf), FileSuffix(BkgTest(OneProng), "_deco")))
    else if S.Contains(base, "3P") then Some(A.PathJoin(Dirname(sigf), FileSuffix(BkgTest(ThreeProng), "_deco")))
    else None
  }

  /** The efficiencies of a prong's working points, in order. */
  function Effs(p: Prong): (r: seq<int>)
    ensures |r| == |WorkingPoints(p)|
    ensures forall i :: 0 <= i < |r| ==> r[i] == WorkingPoints(p)[i].1
  {
    seq(4, i requires 0 <= i < 4 => WorkingPoints(p)[i].1)
  }

  /** `deco_wp` for one flattening workspace: skipped when untrained, when
      its signal sample has other than one file, or when the background
      cannot be inferred; otherwise the signal and background files are
      copied with "_wp" into the output directory and every working point
      of the workspace's prong is decorated on each. */
  function DecoWp(ws: Workspace, outdir: string): (r: Outcome)
    ensures r.Copies? <==> ws.trained && |ws.sigTrain| == 1 && BackgroundFile(ws.sigTrain[0]).Some?
    ensures r.Copies? ==> |r.copies| == 2 && r.copies[0].src == ws.sigTrain[0]
                          && r.copies[1].src == BackgroundFile(ws.sigTrain[0]).value
    ensures r.Copies? ==> forall c :: c in r.copies ==> c.effs == Effs(ProngOf(ws.name))
  {
    var effs := Effs(ProngOf(ws.name));
    if !ws.trained then Skipped("not trained")
    else if |ws.sigTrain| != 1 then Skipped("one sample")
    else
      var bkg := BackgroundFile(ws.sigTrain[0]);
      if bkg.None? then Skipped("background not inferred")
      else Copies([DecoCopy(ws.sigTrain[0], outdir, "_wp", effs), DecoCopy(bkg.value, outdir, "_wp", effs)])
  }

  // ---------------------------------------------------------------- hand-over

  /** A file name without `/` is its own base name once joined to a
      directory. */
  lemma BasenameJoin(dir: string, name: string)
    requires |name| > 0 && '/' !in name
    ensures A.Basename(A.PathJoin(dir, name)) == name
  {
    var pre := if |dir| == 0 || dir[|dir| - 1] == '/' then dir else dir + "/";
    var p := pre + name;
    assert A.PathJoin(dir, name) == p;
    F.RFindAppend(pre, name, '/');
    assert S.RFind(p, '/') == S.RFind(pre, '/');
    if |pre| > 0 {
      F.RFindUnique(pre, '/', |pre| - 1);
    }
    assert S.RFind(p, '/') + 1 == |pre|;
    assert p[|pre|..] == name;
  }

  /** `tune_wp`, run on the directory `deco_bdt` wrote to, reads the
      decorated signal file `deco_bdt` made from the prong's testing
      ntuple. */
  lemma DecoFeedsTune(p: Prong, ws: Workspace, ntupdir: string, outdir: string)
    requires ws.trained && ws.sigTest == [A.PathJoin(ntupdir, SigTest(p))] && |ws.bkgTest| == 1
    ensures DecoBdt(ws, outdir).copies[0].dest == TuneWp(p, outdir, outdir).0
  {
    BasenameJoin(ntupdir, SigTest(p));
  }

  /** `deco_wp`, given a flattening trained on that decorated signal file,
      finds beside it the background file `deco_bdt` made from the same
      prong's testing background. */
  lemma TuneFeedsDecoWp(p: Prong, ws: Workspace, bkgdir: string, outdir: string)
    requires ws.trained && |ws.sigTest| == 1 && |ws.bkgTest| == 1
    requires ws.bkgTest[0] == A.PathJoin(bkgdir, BkgTest(p))
    ensures var bkgName := A.Basename(DecoBdt(ws, outdir).copies[1].dest);
            bkgName == FileSuffix(BkgTest(p), "_deco")
  {
    var n := BkgTest(p);
    assert |n| > 0 by {
      match p
      case OneProng => assert n[0] == 'b';
      case ThreeProng => assert n[0] == 'b';
    }
    DecoBkgName(ws, bkgdir, outdir, n);
  }

  /** The background copy `deco_bdt` makes of a file `n` in some directory
      is named `n` with "_deco" inserted. */
  lemma DecoBkgName(ws: Workspace, bkgdir: string, outdir: string, n: string)
    requires ws.trained && |ws.sigTest| == 1 && |ws.bkgTest| == 1
    requires |n| > 0 && '/' !in n && ws.bkgTest[0] == A.PathJoin(bkgdir, n)
    ensures A.Basename(DecoBdt(ws, outdir).copies[1].dest) == FileSuffix(n, "_deco")
  {
    BasenameJoin(bkgdir, n);
    var name := FileSuffix(n, "_deco");
    assert |name| > 0 && '/' !in name by {
      FileSuffixNoSlash(n, "_deco");
    }
    assert DecoBdt(ws, outdir).copies[1].dest == A.PathJoin(outdir, name);
    BasenameJoin(outdir, name);
  }

  lemma FileSuffixNoSlash(fname: string, suffix: string)
    requires '/' !in fname && '/' !in suffix && |suffix| > 0
    ensures |FileSuffix(fname, suffix)| > 0 && '/' !in FileSuffix(fname, suffix)
  {
    var (name, ext) := F.SplitExt(fname);
    assert fname == name + ext;
    assert forall c :: c in name ==> c in fname;
    assert forall c :: c in ext ==> c in fname;
  }

  /** The decorated one-prong signal file leads to the decorated one-prong
      background in the same directory. */
  lemma OneProngBackground(dir: string)
    ensures BackgroundFile(A.PathJoin(dir, "sig1P_test_deco.root"))
            == Some(A.PathJoin(Dirname(A.PathJoin(dir, "sig1P_test_deco.root")), FileSuffix("bkg1P_weight_test.root", "_deco")))
  {
    var name := "sig1P_test_deco.root";
    BasenameJoin(dir, name);
    OneProngName();
  }

  lemma OneProngName()
    ensures S.Contains("sig1P_test_deco.root", "1P")
  {
    var name := "sig1P_test_deco.root";
    assert name[3..5] == "1P";
    ContainsAt(name, 3, "1P");
  }
}
