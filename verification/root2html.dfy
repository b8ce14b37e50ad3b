/** The table helpers of the ROOT-file-to-HTML index: cleaning a common
    postfix off object names, turning object statistics into a table and
    the table into HTML with long cells shortened, and relative paths.
    Reading objects and their statistics from ROOT files is outside the
    model: the statistics arrive as text. */
module RootHtml {
  import opened Wrappers
  import S = Strings
  import A = Alg

  // ---------------------------------------------------------------- "__" names

  const Sep: string := "__"

  /** `s.split("__")`: scanning from the left, every "__" ends a piece. */
  function SplitSep(s: string): (r: seq<string>)
    ensures |r| >= 1
    decreases |s|
  {
    if |s| == 0 then [""]
    else if S.StartsWith(s, Sep) then [""] + SplitSep(s[2..])
    else
      var t := SplitSep(s[1..]);
      [[s[0]] + t[0]] + t[1..]
  }

  /** Joining the pieces with "__" gives the name back. */
  lemma {:induction false} SplitSepJoin(s: string)
    ensures S.Join(Sep, SplitSep(s)) == s
    decreases |s|
  {
    if |s| > 0 {
      if S.StartsWith(s, Sep) {
        var t := SplitSep(s[2..]);
        SplitSepJoin(s[2..]);
        SplitSepAtSep(s);
        JoinEmptyHead(Sep, t);
        PrefixRest(s, Sep);
      } else {
        var t := SplitSep(s[1..]);
        SplitSepJoin(s[1..]);
        SplitSepAtChar(s);
        JoinGrowHead(Sep, s[0], t);
        assert s == [s[0]] + s[1..];
      }
    }
  }

  lemma SplitSepAtSep(s: string)
    requires S.StartsWith(s, Sep)
    ensures SplitSep(s) == [""] + SplitSep(s[2..])
  {
  }

  lemma SplitSepAtChar(s: string)
    requires |s| > 0 && !S.StartsWith(s, Sep)
    ensures var t := SplitSep(s[1..]);
            SplitSep(s) == [[s[0]] + t[0]] + t[1..]
  {
  }

  /** An empty first piece puts a separator at the front. */
  lemma JoinEmptyHead(sep: string, t: seq<string>)
    requires |t| >= 1
    ensures S.Join(sep, [""] + t) == sep + S.Join(sep, t)
  {
    assert ([""] + t)[1..] == t;
  }

  lemma PrefixRest(s: string, p: string)
    requires S.StartsWith(s, p)
    ensures s == p + s[|p|..]
  {
    assert s == s[..|p|] + s[|p|..];
  }

  /** A character added to the first piece comes first in the joined text. */
  lemma JoinGrowHead(sep: string, c: char, t: seq<string>)
    requires |t| >= 1
    ensures S.Join(sep, [[c] + t[0]] + t[1..]) == [c] + S.Join(sep, t)
  {
    var r := [[c] + t[0]] + t[1..];
    assert r[0] == [c] + t[0] && r[1..] == t[1..];
    if |t| > 1 {
      var rest := S.Join(sep, t[1..]);
      assert S.Join(sep, r) == ([c] + t[0]) + sep + rest;
      assert S.Join(sep, t) == t[0] + sep + rest;
      assert ([c] + t[0]) + sep + rest == [c] + (t[0] + sep + rest);
    }
  }

  /** A name without "__" is a single piece. */
  lemma {:induction false} SplitSepSingle(s: string)
    requires !S.Contains(s, Sep)
    ensures SplitSep(s) == [s]
    decreases |s|
  {
    if |s| > 0 {
      assert !S.StartsWith(s, Sep);
      assert !S.Contains(s[1..], Sep);
      SplitSepSingle(s[1..]);
      assert [s[0]] + s[1..] == s;
    }
  }

  /** Splitting `a + "__" + b` splits `a` and `b` apart when `a` does not
      end in '_', so that no "__" straddles the join. */
  lemma {:induction false} SplitSepAppend(a: string, b: string)
    requires |a| == 0 || a[|a| - 1] != '_'
    ensures SplitSep(a + Sep + b) == SplitSep(a) + SplitSep(b)
    decreases |a|
  {
    var s := a + Sep + b;
    if |a| == 0 {
      assert s == Sep + b;
      assert S.StartsWith(s, Sep);
      assert s[2..] == b;
    } else if S.StartsWith(a, Sep) {
      assert S.StartsWith(s, Sep) && s[2..] == a[2..] + Sep + b by {
        assert s[..2] == a[..2];
      }
      SplitSepAppend(a[2..], b);
    } else {
      assert !S.StartsWith(s, Sep) by {
        if |a| == 1 { assert s[0] == a[0] && a[0] != '_'; }
        else { assert s[..2] == a[..2]; }
      }
      assert s[0] == a[0] && s[1..] == a[1..] + Sep + b;
      var t, u := SplitSep(a[1..]), SplitSep(b);
      assert SplitSep(s) == [[a[0]] + SplitSep(s[1..])[0]] + SplitSep(s[1..])[1..];
      assert SplitSep(a) == [[a[0]] + t[0]] + t[1..];
      SplitSepAppend(a[1..], b);
      ConsFirst(a[0], t, u);
    }
  }

  /** Extending the first piece commutes with appending more pieces. */
  lemma ConsFirst(c: char, t: seq<string>, u: seq<string>)
    requires |t| >= 1
    ensures [[c] + (t + u)[0]] + (t + u)[1..] == ([[c] + t[0]] + t[1..]) + u
  {
    assert (t + u)[0] == t[0];
    assert (t + u)[1..] == t[1..] + u;
  }

  /** Statistics of one object, as text, by statistic name. */
  type Stats = map<string, string>

  /** The postfix `clean_stats_names` removes: the last piece of the last
      name when that name holds "__" and the piece is not empty. */
  function Postfix(name: string): (r: Option<string>)
    ensures r.Some? ==> |r.value| > 0 && S.Contains(name, Sep) && !S.Contains(r.value, Sep)
  {
    if !S.Contains(name, Sep) then None
    else
      var ps := SplitSep(name);
      var last := ps[|ps| - 1];
      NoSepInPieces(name);
      if |last| > 0 then Some(last) else None
  }

  /** No piece of a split holds "__". */
  lemma {:induction false} NoSepInPieces(s: string)
    ensures forall i :: 0 <= i < |SplitSep(s)| ==> !S.Contains(SplitSep(s)[i], Sep)
    decreases |s|
  {
    if |s| > 0 {
      if S.StartsWith(s, Sep) {
        NoSepInPieces(s[2..]);
        assert !S.Contains("", Sep);
      } else {
        NoSepInPieces(s[1..]);
        var t := SplitSep(s[1..]);
        assert !S.Contains([s[0]] + t[0], Sep) by {
          if |t[0]| == 0 {
            assert !S.Contains([s[0]], Sep) by { assert !S.Contains([s[0]][1..], Sep); }
          } else {
            assert ([s[0]] + t[0])[1..] == t[0];
            FirstPieceStart(s[1..]);
            assert !S.StartsWith([s[0]] + t[0], Sep) by {
              assert s[0] == ([s[0]] + t[0])[0] && s[1] == ([s[0]] + t[0])[1];
              assert !S.StartsWith(s, Sep);
            }
          }
        }
      }
    }
  }

  /** A non-empty first piece is where the string starts. */
  lemma FirstPieceStart(s: string)
    requires |SplitSep(s)[0]| > 0
    ensures |s| > 0 && s[0] == SplitSep(s)[0][0]
  {
  }

  /** One name with the postfix removed: a name ending in "__" + postfix
      loses its last piece, any other name is unchanged. */
  function CleanName(name: string, postfix: string): (r: string)
    ensures !S.EndsWith(name, Sep + postfix) ==> r == name
  {
    if S.EndsWith(name, Sep + postfix) then
      var ps := SplitSep(name);
      S.Join(Sep, ps[..|ps| - 1])
    else name
  }

  /** A name built as `base + "__" + postfix` gets its base back, when the
      base does not end in '_' and the postfix holds no "__". */
  lemma CleanNameDrops(base: string, postfix: string)
    requires |base| == 0 || base[|base| - 1] != '_'
    requires !S.Contains(postfix, Sep)
    ensures CleanName(base + Sep + postfix, postfix) == base
  {
    EndsWithJoin(base, Sep, postfix);
    SplitSepAppend(base, postfix);
    SplitSepSingle(postfix);
    DropLast(SplitSep(base), postfix);
    SplitSepJoin(base);
  }

  lemma EndsWithJoin(a: string, s: string, p: string)
    ensures S.EndsWith(a + s + p, s + p)
  {
    assert a + s + p == a + (s + p);
    assert (a + (s + p))[|a|..] == s + p;
  }

  lemma DropLast(x: seq<string>, y: string)
    ensures (x + [y])[..|x + [y]| - 1] == x
  {
  }

  /** `clean_stats_names`: with a postfix taken from the last name, every
      name ending in "__" + postfix loses it; the statistics stay. An empty
      list has no last name. */
  function CleanStatsNames(ns: seq<(string, Stats)>): (r: Result<seq<(string, Stats)>>)
    ensures r.Err? <==> |ns| == 0
    ensures r.Ok? ==> |r.value| == |ns| && forall i :: 0 <= i < |ns| ==> r.value[i].1 == ns[i].1
    ensures r.Ok? && Postfix(ns[|ns| - 1].0).None? ==> r.value == ns
    ensures r.Ok? && Postfix(ns[|ns| - 1].0).Some? ==>
              forall i :: 0 <= i < |ns| ==> r.value[i].0 == CleanName(ns[i].0, Postfix(ns[|ns| - 1].0).value)
  {
    if |ns| == 0 then Err(IndexError("list index out of range"))
    else
      var p := Postfix(ns[|ns| - 1].0);
      if p.None? then Ok(ns)
      else Ok(seq(|ns|, i requires 0 <= i < |ns| => (CleanName(ns[i].0, p.value), ns[i].1)))
  }

  /** The postfix of `base + "__" + postfix` is that postfix. */
  lemma PostfixOf(base: string, postfix: string)
    requires |base| == 0 || base[|base| - 1] != '_'
    requires |postfix| > 0 && !S.Contains(postfix, Sep)
    ensures Postfix(base + Sep + postfix) == Some(postfix)
  {
    SplitSepAppend(base, postfix);
    SplitSepSingle(postfix);
    S.ContainsInfix(base, Sep, postfix);
  }

  /** When every name is some base plus a shared "__" postfix, cleaning
      gives back the bases and keeps the statistics. */
  lemma CleanStatsShared(ns: seq<(string, Stats)>, bases: seq<string>, postfix: string)
    requires |bases| == |ns| > 0 && |postfix| > 0 && !S.Contains(postfix, Sep)
    requires forall i :: 0 <= i < |bases| ==> |bases[i]| == 0 || bases[i][|bases[i]| - 1] != '_'
    requires forall i :: 0 <= i < |ns| ==> ns[i].0 == bases[i] + Sep + postfix
    ensures CleanStatsNames(ns).Ok?
    ensures forall i :: 0 <= i < |ns| ==> CleanStatsNames(ns).value[i] == (bases[i], ns[i].1)
  {
    LastPostfix(ns, bases, postfix);
    forall i | 0 <= i < |ns| ensures CleanStatsNames(ns).value[i] == (bases[i], ns[i].1) {
      CleanStatsAt(ns, postfix, i, bases[i]);
    }
  }

  lemma LastPostfix(ns: seq<(string, Stats)>, bases: seq<string>, postfix: string)
    requires |bases| == |ns| > 0 && |postfix| > 0 && !S.Contains(postfix, Sep)
    requires |bases[|ns| - 1]| == 0 || bases[|ns| - 1][|bases[|ns| - 1]| - 1] != '_'
    requires ns[|ns| - 1].0 == bases[|ns| - 1] + Sep + postfix
    ensures Postfix(ns[|ns| - 1].0) == Some(postfix)
  {
    PostfixOf(bases[|ns| - 1], postfix);
  }

  lemma CleanStatsAt(ns: seq<(string, Stats)>, postfix: string, i: nat, base: string)
    requires i < |ns| && Postfix(ns[|ns| - 1].0) == Some(postfix) && !S.Contains(postfix, Sep)
    requires |base| == 0 || base[|base| - 1] != '_'
    requires ns[i].0 == base + Sep + postfix
    ensures CleanStatsNames(ns).Ok? && CleanStatsNames(ns).value[i] == (base, ns[i].1)
  {
    CleanNameDrops(base, postfix);
  }

  // ---------------------------------------------------------------- stats table

  const Header2D: seq<string> := ["name", "entries", "int", "err", "mean_x", "rms_x", "mean_y", "rms_y"]
  const Header1D: seq<string> := ["name", "entries", "int", "err", "mean", "rms", "under", "over"]

  /** One table row: the name under "name", each other column the
      statistic of that name or '' when missing. */
  function StatsRow(header: seq<string>, name: string, stats: Stats): (r: seq<string>)
    requires |header| > 0 && header[0] == "name"
    ensures |r| == |header| && r[0] == name
    ensures forall j :: 1 <= j < |header| && header[j] != "name" ==>
              r[j] == if header[j] in stats then stats[header[j]] else ""
  {
    seq(|header|, j requires 0 <= j < |header| =>
          if header[j] == "name" then name else if header[j] in stats then stats[header[j]] else "")
  }

  /** `convert_stats_to_table`: the 2D header when the first object has
      "rms_x", else the 1D one; then one row per object. An empty list has
      no first object. */
  function StatsTable(ns: seq<(string, Stats)>): (r: Result<seq<seq<string>>>)
    ensures r.Err? <==> |ns| == 0
    ensures r.Ok? ==> |r.value| == |ns| + 1
                      && r.value[0] == (if "rms_x" in ns[0].1 then Header2D else Header1D)
    ensures r.Ok? ==> forall i :: 0 <= i < |ns| ==> |r.value[i + 1]| == |r.value[0]| && r.value[i + 1][0] == ns[i].0
  {
    if |ns| == 0 then Err(IndexError("list index out of range"))
    else
      var header := if "rms_x" in ns[0].1 then Header2D else Header1D;
      Ok([header] + seq(|ns|, i requires 0 <= i < |ns| => StatsRow(header, ns[i].0, ns[i].1)))
  }

  /** Reading a statistic back: the cell in an object's row under a
      statistic's column is that statistic, or '' when it has none. */
  lemma StatsTableCell(ns: seq<(string, Stats)>, i: nat, j: nat)
    requires StatsTable(ns).Ok? && i < |ns| && 1 <= j < 8
    ensures var t := StatsTable(ns).value;
            t[i + 1][j] == if t[0][j] in ns[i].1 then ns[i].1[t[0][j]] else ""
  {
    var header := if "rms_x" in ns[0].1 then Header2D else Header1D;
    assert header[j] != "name";
  }

  // ---------------------------------------------------------------- HTML

  const MouseOverLimit: nat := 20

  /** The text shown for a cell: itself when short, else its first
      `limit - 3` characters and "...". */
  function Shown(s: string): (r: string)
    ensures |r| <= MouseOverLimit
    ensures |s| <= MouseOverLimit ==> r == s
    ensures |s| > MouseOverLimit ==> |r| == MouseOverLimit && r[..MouseOverLimit - 3] == s[..MouseOverLimit - 3]
                                     && S.EndsWith(r, "...")
  {
    if |s| <= MouseOverLimit then s else s[..MouseOverLimit - 3] + "..."
  }

  /** `check_for_too_long_mouse_over`: a short cell is unchanged; a long
      one becomes a link with the full text as its title, showing the
      shortened text. */
  function TooLongMouseOver(s: string): (r: string)
    ensures |s| <= MouseOverLimit ==> r == s
    ensures |s| > MouseOverLimit ==> S.StartsWith(r, "<a title=\"" + s + "\"") && S.EndsWith(r, Shown(s) + "</a>")
  {
    if |s| <= MouseOverLimit then s
    else
      var r := "<a title=\"" + s + "\" class=\"too_long\">" + Shown(s) + "</a>";
      assert r[..|"<a title=\"" + s + "\""|] == "<a title=\"" + s + "\"";
      assert r[|r| - |Shown(s) + "</a>"|..] == Shown(s) + "</a>";
      r
  }

  /** The cells of one row, each shortened, in the given tag. */
  function Cells(tag: string, row: seq<string>): (r: string)
    ensures |row| == 0 <==> r == ""
  {
    if |row| == 0 then ""
    else "<" + tag + ">" + TooLongMouseOver(row[0]) + "</" + tag + ">" + Cells(tag, row[1..])
  }

  function RowHtml(tag: string, row: seq<string>): (r: string)
    ensures S.StartsWith(r, "        <tr>") && S.EndsWith(r, "</tr>\n")
  {
    var r := "        <tr>" + Cells(tag, row) + "</tr>\n";
    assert r[..12] == "        <tr>";
    assert r[|r| - 6..] == "</tr>\n";
    r
  }

  /** The rows from a point on: header cells for the first row of the
      table, data cells after. */
  function Rows(tab: seq<seq<string>>, first: bool): string {
    if |tab| == 0 then ""
    else RowHtml(if first then "th" else "td", tab[0]) + Rows(tab[1..], false)
  }

  const TableOpen: string := "    <table>\n"
  const TableClose: string := "    </table>\n"

  /** `convert_table_to_html`. */
  function TableHtml(tab: seq<seq<string>>): (r: string)
    ensures S.StartsWith(r, TableOpen) && S.EndsWith(r, TableClose)
    ensures |tab| == 0 ==> r == TableOpen + TableClose
  {
    var r := TableOpen + Rows(tab, true) + TableClose;
    assert r[..|TableOpen|] == TableOpen;
    assert r[|r| - |TableClose|..] == TableClose;
    r
  }

  /** A one-row table is a header row. */
  lemma TableHtmlHeader(row: seq<string>)
    ensures TableHtml([row]) == TableOpen + RowHtml("th", row) + TableClose
  {
    assert [row][1..] == [];
    assert Rows([row], true) == RowHtml("th", row) + Rows([], false);
  }

  /** Rows after the first are data rows: appending a row to a table
      appends its data row before the closing tag. */
  lemma TableHtmlAppend(tab: seq<seq<string>>, row: seq<string>)
    requires |tab| > 0
    ensures TableHtml(tab + [row]) == TableOpen + Rows(tab, true) + RowHtml("td", row) + TableClose
  {
    RowsAppend(tab, true, row);
    Assoc(TableOpen, Rows(tab, true), RowHtml("td", row), TableClose);
  }

  lemma Assoc(a: string, b: string, c: string, d: string)
    ensures a + (b + c) + d == a + b + c + d
  {
  }

  lemma {:induction false} RowsAppend(tab: seq<seq<string>>, first: bool, row: seq<string>)
    requires |tab| > 0
    ensures Rows(tab + [row], first) == Rows(tab, first) + RowHtml("td", row)
    decreases |tab|
  {
    assert (tab + [row])[0] == tab[0];
    assert (tab + [row])[1..] == tab[1..] + [row];
    if |tab| == 1 {
      assert tab[1..] + [row] == [row];
      assert Rows([row], false) == RowHtml("td", row) + Rows([], false);
    } else {
      RowsAppend(tab[1..], false, row);
    }
  }

  // ---------------------------------------------------------------- relative paths

  /** Length of the common prefix of two component lists
      (`os.path.commonprefix` of two lists). */
  function CommonPrefixLen(a: seq<string>, b: seq<string>): (k: nat)
    ensures k <= |a| && k <= |b| && a[..k] == b[..k]
    ensures k < |a| && k < |b| ==> a[k] != b[k]
  {
    if |a| == 0 || |b| == 0 || a[0] != b[0] then 0
    else
      var k := CommonPrefixLen(a[1..], b[1..]);
      assert a[..k + 1] == [a[0]] + a[1..][..k];
      assert b[..k + 1] == [b[0]] + b[1..][..k];
      k + 1
  }

  /** The components of the relative path: one ".." per start component
      past the shared prefix, then the path's own remaining components. */
  function RelList(startList: seq<string>, pathList: seq<string>): (r: seq<string>)
    ensures var i := CommonPrefixLen(startList, pathList);
            |r| == |startList| - i + |pathList| - i
            && (forall j :: 0 <= j < |startList| - i ==> r[j] == "..")
            && r[|startList| - i..] == pathList[i..]
  {
    var i := CommonPrefixLen(startList, pathList);
    seq(|startList| - i, _ => "..") + pathList[i..]
  }

  /** `os.path.join(*parts)`. */
  function JoinAll(parts: seq<string>): (r: string)
    requires |parts| > 0
    ensures S.EndsWith(r, parts[|parts| - 1])
    ensures |parts[|parts| - 1]| > 0 && parts[|parts| - 1][0] == '/' ==> r == parts[|parts| - 1]
    ensures (forall i :: 0 <= i < |parts| ==> |parts[i]| > 0 && parts[i][0] != '/')
            ==> S.StartsWith(r, parts[0])
  {
    if |parts| == 1 then parts[0] else A.PathJoin(JoinAll(parts[..|parts| - 1]), parts[|parts| - 1])
  }

  /** `relpath`: an empty path is a `ValueError`; both paths are made
      absolute (`abspath`, which depends on the working directory) and
      split on '/'; no relative components at all is ".". */
  function RelPath(path: string, start: string, abspath: string -> string): (r: Result<string>)
    ensures r.Err? <==> |path| == 0
    ensures r.Ok? && S.Split(abspath(start), '/') == S.Split(abspath(path), '/') ==> r.value == "."
  {
    if |path| == 0 then Err(ValueError("no path specified"))
    else
      var rel := RelList(S.Split(abspath(start), '/'), S.Split(abspath(path), '/'));
      if |rel| == 0 then Ok(".") else Ok(JoinAll(rel))
  }

  /** Following relative components from a directory: ".." goes up (not
      above the root), any other name goes down. */
  function Resolve(base: seq<string>, rel: seq<string>): seq<string>
    decreases |rel|
  {
    if |rel| == 0 then base
    else if rel[0] == ".." then Resolve(if |base| == 0 then [] else base[..|base| - 1], rel[1..])
    else Resolve(base + [rel[0]], rel[1..])
  }

  /** Going `k` levels up strips `k` components. */
  lemma {:induction false} ResolveUp(base: seq<string>, k: nat, rest: seq<string>)
    requires k <= |base|
    ensures Resolve(base, seq(k, _ => "..") + rest) == Resolve(base[..|base| - k], rest)
    decreases k
  {
    if k > 0 {
      var ups := seq(k, _ => "..");
      assert (ups + rest)[0] == "..";
      assert (ups + rest)[1..] == seq(k - 1, _ => "..") + rest;
      ResolveUp(base[..|base| - 1], k - 1, rest);
      assert base[..|base| - 1][..|base| - 1 - (k - 1)] == base[..|base| - k];
    } else {
      assert seq(0, _ => "..") + rest == rest;
      assert base[..|base| - 0] == base;
    }
  }

  /** Names without ".." are appended as they are. */
  lemma {:induction false} ResolveDown(base: seq<string>, rest: seq<string>)
    requires ".." !in rest
    ensures Resolve(base, rest) == base + rest
    decreases |rest|
  {
    if |rest| > 0 {
      ResolveDown(base + [rest[0]], rest[1..]);
      assert base + [rest[0]] + rest[1..] == base + rest;
    }
  }

  /** The relative components lead from the start to the path, when the
      path's own components hold no "..": the meaning of a relative path. */
  lemma RelListResolves(startList: seq<string>, pathList: seq<string>)
    requires ".." !in pathList
    ensures Resolve(startList, RelList(startList, pathList)) == pathList
  {
    var i := CommonPrefixLen(startList, pathList);
    var rel := RelList(startList, pathList);
    assert rel == seq(|startList| - i, _ => "..") + pathList[i..];
    ResolveUp(startList, |startList| - i, pathList[i..]);
    assert startList[..|startList| - (|startList| - i)] == startList[..i];
    assert forall x :: x in pathList[i..] ==> x in pathList;
    ResolveDown(startList[..i], pathList[i..]);
    assert pathList[..i] + pathList[i..] == pathList;
  }

  /** Below the start directory no ".." is needed. */
  lemma RelListBelow(startList: seq<string>, pathList: seq<string>)
    requires |startList| <= |pathList| && pathList[..|startList|] == startList
    ensures RelList(startList, pathList) == pathList[|startList|..]
  {
    var i := CommonPrefixLen(startList, pathList);
    assert i == |startList|;
  }
}
