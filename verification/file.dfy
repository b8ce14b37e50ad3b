/** Output files: `OutputFileStream.write`'s argument handling, modelled as
    an update of the file's directories and written objects, and
    `get_unique_sequential_filename`, with the file system's existing paths
    given as a finite set. Opening files and ROOT I/O are not part of this
    model. */
module Files {
  import opened Wrappers
  import S = Strings

  // ---------------------------------------------------------------- write

  /** What `write` is given: `None`, one drawable, or a list of them. */
  datatype Drawables<T> = Nothing | One(d: T) | Many(ds: seq<T>)

  /** The output file: its sub-directories and, in order, every object
      written with the directory it went to ("" is the top level). */
  datatype OutFile<T> = OutFile(dirs: set<string>, written: seq<(string, T)>)

  /** The list `write` iterates over: a single drawable is wrapped. */
  function Items<T>(a: Drawables<T>): (r: seq<T>)
    ensures a.One? ==> r == [a.d]
    ensures a.Many? ==> r == a.ds
    ensures a.Nothing? ==> r == []
  {
    match a
    case Nothing => []
    case One(d) => [d]
    case Many(ds) => ds
  }

  /** The directory a path names: leading and trailing `/` removed; no path
      is the top level. */
  function DirOf(path: Option<string>): (d: string)
    ensures d == "" || (d[0] != '/' && d[|d| - 1] != '/')
  {
    if path.Some? then S.StripSet(path.value, {'/'}) else ""
  }

  /** `OutputFileStream.write(drawables, path)`. */
  function Write<T>(f: OutFile<T>, a: Drawables<T>, path: Option<string>): (r: OutFile<T>)
    ensures a.Nothing? ==> r == f
    ensures !a.Nothing? ==> r.dirs == if DirOf(path) == "" then f.dirs else f.dirs + {DirOf(path)}
    ensures |r.written| == |f.written| + |Items(a)|
    ensures r.written[..|f.written|] == f.written
    ensures forall i :: 0 <= i < |Items(a)| ==> r.written[|f.written| + i] == (DirOf(path), Items(a)[i])
  {
    if a.Nothing? then f
    else
      var d := DirOf(path);
      var ds := if d == "" then f.dirs else f.dirs + {d};
      OutFile(ds, f.written + seq(|Items(a)|, i requires 0 <= i < |Items(a)| => (d, Items(a)[i])))
  }

  /** Writing one drawable is writing the list holding it. */
  lemma WriteOneIsList<T>(f: OutFile<T>, d: T, path: Option<string>)
    ensures Write(f, One(d), path) == Write(f, Many([d]), path)
  {
  }

  /** Writing two lists into the same directory is writing their
      concatenation. */
  lemma WriteConcat<T>(f: OutFile<T>, a: seq<T>, b: seq<T>, path: Option<string>)
    ensures Write(Write(f, Many(a), path), Many(b), path) == Write(f, Many(a + b), path)
  {
    var d := DirOf(path);
    var w1 := Write(f, Many(a), path);
    var w2 := Write(w1, Many(b), path);
    var w := Write(f, Many(a + b), path);
    assert w2.written == w.written by {
      forall i | 0 <= i < |w.written| ensures w2.written[i] == w.written[i] {
        if i < |f.written| {
          assert w2.written[i] == w1.written[..|f.written|][i];
        } else if i < |f.written| + |a| {
          assert w2.written[i] == w1.written[i];
        }
      }
    }
  }

  /** Surrounding slashes do not change where objects go. */
  lemma WriteStripsSlashes<T>(f: OutFile<T>, a: Drawables<T>, p: string)
    ensures Write(f, a, Some("/" + p + "/")) == Write(f, a, Some(S.StripSet(p, {'/'})))
  {
    var cs := {'/'};
    assert S.RStrip("/" + p + "/", cs) == S.RStrip("/" + p, cs) by {
      assert ("/" + p + "/")[..|"/" + p + "/"| - 1] == "/" + p;
    }
    S.StripIdempotent(p, cs);
    RStripLeadingSlash(p);
  }

  lemma RStripLeadingSlash(p: string)
    ensures S.LStrip(S.RStrip("/" + p, {'/'}), {'/'}) == S.StripSet(p, {'/'})
  {
    var cs := {'/'};
    var r := S.RStrip(p, cs);
    assert S.RStrip("/" + p, cs) == if r == [] then [] else "/" + r by {
      RStripCons('/', p, cs);
    }
    if r != [] {
      assert ("/" + r)[1..] == r;
    }
  }

  /** Stripping the end of a string with a stripped first character. */
  lemma {:induction false} RStripCons(c: char, p: string, cs: set<char>)
    requires c in cs
    ensures S.RStrip([c] + p, cs) == if S.RStrip(p, cs) == [] then [] else [c] + S.RStrip(p, cs)
    decreases |p|
  {
    var s := [c] + p;
    if |p| > 0 {
      assert s[|s| - 1] == p[|p| - 1];
      assert s[..|s| - 1] == [c] + p[..|p| - 1];
      if p[|p| - 1] in cs {
        RStripCons(c, p[..|p| - 1], cs);
      }
    } else {
      assert s[..|s| - 1] == [];
    }
  }

  // ---------------------------------------------------------------- file names

  predicate AllDots(s: string) {
    forall k :: 0 <= k < |s| ==> s[k] == '.'
  }

  /** `os.path.splitext`: the extension runs from the last `.` of the last
      path component, unless that component has only dots before it. */
  function SplitExt(p: string): (r: (string, string))
    ensures r.0 + r.1 == p
    ensures r.1 == "" || (r.1[0] == '.' && '.' !in r.1[1..] && '/' !in r.1)
  {
    var sep := S.RFind(p, '/');
    var dot := S.RFind(p, '.');
    if dot > sep && !AllDots(p[sep + 1..dot]) then
      ExtShape(p, sep, dot);
      (p[..dot], p[dot..])
    else (p, "")
  }

  /** From the last `.` on, after the last `/`: one dot and no slash. */
  lemma ExtShape(p: string, sep: int, dot: int)
    requires sep == S.RFind(p, '/') && dot == S.RFind(p, '.') && dot > sep
    ensures p[..dot] + p[dot..] == p
    ensures p[dot..][0] == '.' && '.' !in p[dot..][1..] && '/' !in p[dot..]
  {
    assert p[dot..][1..] == p[dot + 1..];
    if sep >= 0 {
      NotInSuffix(p, '/', sep + 1, dot);
    }
  }

  /** A character missing from a suffix is missing from every shorter one. */
  lemma NotInSuffix(s: string, c: char, i: nat, j: nat)
    requires i <= j <= |s| && c !in s[i..]
    ensures c !in s[j..]
  {
    assert s[j..] == s[i..][j - i..];
  }

  /** A position is the last occurrence exactly when `RFind` says so. */
  lemma RFindUnique(s: string, c: char, i: nat)
    requires i < |s| && s[i] == c && c !in s[i + 1..]
    ensures S.RFind(s, c) == i
  {
  }

  /** The last occurrence in a concatenation. */
  lemma RFindAppend(a: string, b: string, c: char)
    ensures S.RFind(a + b, c) == if c in b then |a| + S.RFind(b, c) else S.RFind(a, c)
  {
    if c in b {
      RFindAppendIn(a, b, c);
    } else if c in a {
      RFindAppendFromLeft(a, b, c);
    } else {
      NotInAppend(a, b, c);
    }
  }

  lemma RFindAppendIn(a: string, b: string, c: char)
    requires c in b
    ensures S.RFind(a + b, c) == |a| + S.RFind(b, c)
  {
    var j := S.RFind(b, c);
    assert (a + b)[|a| + j] == b[j];
    assert (a + b)[|a| + j + 1..] == b[j + 1..];
    RFindUnique(a + b, c, |a| + j);
  }

  lemma RFindAppendFromLeft(a: string, b: string, c: char)
    requires c in a && c !in b
    ensures S.RFind(a + b, c) == S.RFind(a, c)
  {
    var j := S.RFind(a, c);
    assert (a + b)[j] == a[j];
    assert (a + b)[j + 1..] == a[j + 1..] + b;
    assert c !in a[j + 1..] + b;
    RFindUnique(a + b, c, j);
  }

  lemma NotInAppend(a: string, b: string, c: char)
    requires c !in a && c !in b
    ensures S.RFind(a + b, c) == -1
  {
    assert c !in a + b;
  }

  /** Inserting text without `.` or `/` between the root and the extension
      keeps the extension. */
  lemma SplitExtInsert(p: string, mid: string)
    requires |mid| > 0 && '.' !in mid && '/' !in mid
    ensures SplitExt(SplitExt(p).0 + mid + SplitExt(p).1) == (SplitExt(p).0 + mid, SplitExt(p).1)
  {
    var (root, ext) := SplitExt(p);
    if ext == "" {
      assert root + mid + ext == p + mid;
      InsertWithoutExt(p, mid);
    } else {
      InsertWithExt(p, root, mid, ext);
    }
  }

  lemma InsertWithoutExt(p: string, mid: string)
    requires |mid| > 0 && '.' !in mid && '/' !in mid
    requires SplitExt(p).1 == ""
    ensures SplitExt(p + mid) == (p + mid, "")
  {
    var sep := S.RFind(p, '/');
    var dot := S.RFind(p, '.');
    var q := p + mid;
    RFindAppend(p, mid, '/');
    RFindAppend(p, mid, '.');
    assert S.RFind(q, '/') == sep && S.RFind(q, '.') == dot;
    if dot > sep {
      assert AllDots(p[sep + 1..dot]);
      assert q[sep + 1..dot] == p[sep + 1..dot];
    }
    SplitExtNone(q, sep, dot);
  }

  /** No extension when the last `.` is not after the last `/`, or only
      dots precede it. */
  lemma SplitExtNone(q: string, sep: int, dot: int)
    requires sep == S.RFind(q, '/') && dot == S.RFind(q, '.')
    requires dot <= sep || AllDots(q[sep + 1..dot])
    ensures SplitExt(q) == (q, "")
  {
  }

  lemma InsertWithExt(p: string, root: string, mid: string, ext: string)
    requires |mid| > 0 && '.' !in mid && '/' !in mid
    requires SplitExt(p) == (root, ext) && ext != ""
    ensures SplitExt(root + mid + ext) == (root + mid, ext)
  {
    var sep := S.RFind(p, '/');
    var dot := S.RFind(p, '.');
    assert dot > sep && !AllDots(p[sep + 1..dot]) && root == p[..dot] && ext == p[dot..];
    var rm := root + mid;
    var q := rm + ext;
    InsertFinds(p, root, mid, ext);
    InsertNotDots(p, root, mid, ext, sep, dot);
    SplitExtAt(q, sep, |rm|);
    assert q[..|rm|] == rm;
    assert q[|rm|..] == ext;
  }

  /** After the insertion the last `.` is the extension's and the last `/`
      has not moved. */
  lemma InsertFinds(p: string, root: string, mid: string, ext: string)
    requires '.' !in mid && '/' !in mid
    requires p == root + ext && ext != "" && ext[0] == '.' && '.' !in ext[1..] && '/' !in ext
    ensures S.RFind(root + mid + ext, '.') == |root + mid|
    ensures S.RFind(root + mid + ext, '/') == S.RFind(p, '/')
  {
    var rm := root + mid;
    RFindUnique(ext, '.', 0);
    RFindAppendIn(rm, ext, '.');
    RFindAppend(rm, ext, '/');
    RFindAppend(root, mid, '/');
    RFindAppend(root, ext, '/');
  }

  /** The stem of the last component keeps a character other than `.`. */
  lemma InsertNotDots(p: string, root: string, mid: string, ext: string, sep: int, dot: int)
    requires -1 <= sep < dot <= |p| && root == p[..dot] && ext == p[dot..] && !AllDots(p[sep + 1..dot])
    ensures !AllDots((root + mid + ext)[sep + 1..|root + mid|])
  {
    var rm := root + mid;
    var q := rm + ext;
    assert q[sep + 1..|rm|] == rm[sep + 1..];
    assert rm[sep + 1..] == root[sep + 1..] + mid;
    assert root[sep + 1..] == p[sep + 1..dot];
    var w := p[sep + 1..dot];
    var k :| 0 <= k < |w| && w[k] != '.';
    assert q[sep + 1..|rm|][k] == w[k];
  }

  /** Where the split falls once the last `/` and `.` are known. */
  lemma SplitExtAt(q: string, sep: int, dot: int)
    requires sep == S.RFind(q, '/') && dot == S.RFind(q, '.')
    requires dot > sep && !AllDots(q[sep + 1..dot])
    ensures SplitExt(q) == (q[..dot], q[dot..])
  {
  }

  /** The version suffix `_v<digits>` has neither `.` nor `/`. */
  lemma VersionSuffix(n: nat)
    ensures |"_v" + S.NatToString(n)| > 0
    ensures '.' !in "_v" + S.NatToString(n) && '/' !in "_v" + S.NatToString(n)
  {
    var d := S.NatToString(n);
    var m := "_v" + d;
    forall i | 0 <= i < |m| ensures m[i] != '.' && m[i] != '/' {
      if i >= 2 {
        assert m[i] == d[i - 2];
      }
    }
  }

  /** `"{stem}_v{n}{ext}"`. */
  function Versioned(stem: string, n: nat, ext: string): string {
    stem + "_v" + S.NatToString(n) + ext
  }

  /** Different versions make different names. */
  lemma VersionedInjective(stem: string, ext: string, a: nat, b: nat)
    requires Versioned(stem, a, ext) == Versioned(stem, b, ext)
    ensures a == b
  {
    var sa := S.NatToString(a);
    var sb := S.NatToString(b);
    var x := Versioned(stem, a, ext);
    assert |sa| == |sb|;
    assert x[|stem| + 2..|stem| + 2 + |sa|] == sa;
    assert Versioned(stem, b, ext)[|stem| + 2..|stem| + 2 + |sb|] == sb;
    S.NatToStringRoundTrip(a);
    S.NatToStringRoundTrip(b);
  }

  /** The names of versions 1..n. */
  function Taken(stem: string, ext: string, n: nat): (t: set<string>)
  {
    set k | 1 <= k <= n :: Versioned(stem, k, ext)
  }

  lemma {:induction false} TakenSize(stem: string, ext: string, n: nat)
    ensures |Taken(stem, ext, n)| == n
    decreases n
  {
    if n > 0 {
      TakenSize(stem, ext, n - 1);
      assert Taken(stem, ext, n) == Taken(stem, ext, n - 1) + {Versioned(stem, n, ext)};
      if Versioned(stem, n, ext) in Taken(stem, ext, n - 1) {
        var k :| 1 <= k <= n - 1 && Versioned(stem, k, ext) == Versioned(stem, n, ext);
        VersionedInjective(stem, ext, k, n);
      }
    } else {
      assert Taken(stem, ext, 0) == {};
    }
  }

  /** When versions 1..n all exist, there are at least n existing paths. */
  lemma TakenBound(stem: string, ext: string, existing: set<string>, n: nat)
    requires forall k :: 1 <= k <= n ==> Versioned(stem, k, ext) in existing
    ensures n <= |existing|
  {
    TakenSize(stem, ext, n);
    SubsetSize(Taken(stem, ext, n), existing);
  }

  lemma {:induction false} SubsetSize<T>(a: set<T>, b: set<T>)
    requires a <= b
    ensures |a| <= |b|
    decreases |a|
  {
    if a != {} {
      var x :| x in a;
      SubsetSize(a - {x}, b - {x});
    }
  }

  /** `get_unique_sequential_filename`: the first version number from 1 up
      whose name is not an existing path. */
  method UniqueSequentialName(fname: string, existing: set<string>) returns (r: string, n: nat)
    ensures n >= 1 && r == Versioned(SplitExt(fname).0, n, SplitExt(fname).1)
    ensures r !in existing
    ensures forall k :: 1 <= k < n ==> Versioned(SplitExt(fname).0, k, SplitExt(fname).1) in existing
    ensures SplitExt(r).1 == SplitExt(fname).1
    ensures n <= |existing| + 1
  {
    var (stem, ext) := SplitExt(fname);
    n := 1;
    while true
      invariant n >= 1
      invariant forall k :: 1 <= k < n ==> Versioned(stem, k, ext) in existing
      invariant n <= |existing| + 1
      decreases |existing| + 1 - n
    {
      r := Versioned(stem, n, ext);
      if r !in existing {
        assert r == SplitExt(fname).0 + ("_v" + S.NatToString(n)) + SplitExt(fname).1;
        VersionSuffix(n);
        SplitExtInsert(fname, "_v" + S.NatToString(n));
        return;
      }
      TakenBound(stem, ext, existing, n);
      n := n + 1;
    }
  }
}
