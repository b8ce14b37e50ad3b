/** The `Properties` store: string properties kept in a file of
    "key: value" lines, read when the store is made and written back
    sorted by key. The file is its text, or None when it does not exist;
    prompting the user for a missing property is left out. */
module Properties {
  import opened Wrappers
  import S = Strings

  type Data = map<string, string>

  /** `get_property`: the value, or None for a missing key. */
  function GetProperty(data: Data, key: string): (r: Option<string>)
    ensures r.Some? <==> key in data
    ensures r.Some? ==> r.value == data[key]
  {
    if key in data then Some(data[key]) else None
  }

  /** `set_property` followed by `get_property` reads the value back and
      leaves the other keys alone. */
  lemma SetThenGet(data: Data, key: string, val: string, other: string)
    requires other != key
    ensures GetProperty(data[key := val], key) == Some(val)
    ensures GetProperty(data[key := val], other) == GetProperty(data, other)
  {
  }

  /** `get_or_prompt_property`: a missing key is set to the answer the
      user types (given here as `answer`) and then read. */
  function GetOrPrompt(data: Data, key: string, answer: string): (r: (string, Data))
    ensures key in data ==> r.1 == data
    ensures key !in data ==> r.1 == data[key := answer]
    ensures GetProperty(r.1, key) == Some(r.0)
    ensures data.Keys <= r.1.Keys
  {
    if key in data then (data[key], data) else (answer, data[key := answer])
  }

  /** Asking twice asks only once: the second call finds the key set. */
  lemma GetOrPromptOnce(data: Data, key: string, a1: string, a2: string)
    ensures var (v1, d1) := GetOrPrompt(data, key, a1);
            GetOrPrompt(d1, key, a2) == (v1, d1)
  {
  }

  // ---------------------------------------------------------------- ordering

  /** Python's string `<`: by character codes, a proper prefix first. */
  predicate Below(a: string, b: string)
    decreases |a|
  {
    |b| > 0 && (|a| == 0 || a[0] < b[0] || (a[0] == b[0] && Below(a[1..], b[1..])))
  }

  lemma {:induction false} BelowIrreflexive(a: string)
    ensures !Below(a, a)
    decreases |a|
  {
    if |a| > 0 { BelowIrreflexive(a[1..]); }
  }

  lemma {:induction false} BelowTransitive(a: string, b: string, c: string)
    requires Below(a, b) && Below(b, c)
    ensures Below(a, c)
    decreases |a|
  {
    if |a| > 0 && a[0] == b[0] && b[0] == c[0] {
      BelowTransitive(a[1..], b[1..], c[1..]);
    }
  }

  lemma {:induction false} BelowTotal(a: string, b: string)
    requires a != b
    ensures Below(a, b) || Below(b, a)
    decreases |a|
  {
    if |a| > 0 && |b| > 0 && a[0] == b[0] {
      assert a == [a[0]] + a[1..] && b == [b[0]] + b[1..];
      BelowTotal(a[1..], b[1..]);
    }
  }

  /** `m` is below every other element of `ks`. */
  predicate IsLeast(m: string, ks: set<string>) {
    m in ks && forall k :: k in ks && k != m ==> Below(m, k)
  }

  /** Every non-empty set of strings has a least element. */
  lemma {:induction false} HasLeast(ks: set<string>)
    requires ks != {}
    ensures exists m :: IsLeast(m, ks)
    decreases |ks|
  {
    var x :| x in ks;
    if ks == {x} {
      assert IsLeast(x, ks);
    } else {
      var rest := ks - {x};
      assert |rest| < |ks|;
      HasLeast(rest);
      var m :| IsLeast(m, rest);
      if Below(m, x) {
        assert IsLeast(m, ks);
      } else {
        BelowTotal(m, x);
        forall k | k in ks && k != x ensures Below(x, k) {
          if k != m { BelowTransitive(x, m, k); }
        }
        assert IsLeast(x, ks);
      }
    }
  }

  /** The least key. */
  function Least(ks: set<string>): (m: string)
    requires ks != {}
    ensures m in ks && forall k :: k in ks && k != m ==> Below(m, k)
  {
    HasLeast(ks);
    var m :| IsLeast(m, ks);
    assert forall m' :: IsLeast(m', ks) ==> m' == m by {
      forall m' | IsLeast(m', ks) ensures m' == m {
        if m' != m {
          assert Below(m, m') && Below(m', m);
          BelowTransitive(m, m', m);
          BelowIrreflexive(m);
        }
      }
    }
    m
  }

  /** The keys in increasing order (`sorted(data.items())`, keys being
      unique). */
  function SortedKeys(ks: set<string>): (r: seq<string>)
    ensures |r| == |ks|
    ensures forall k :: k in r <==> k in ks
    ensures forall i, j :: 0 <= i < j < |r| ==> Below(r[i], r[j])
    decreases |ks|
  {
    if ks == {} then []
    else
      var m := Least(ks);
      var rest := SortedKeys(ks - {m});
      assert forall j :: 0 <= j < |rest| ==> rest[j] in ks - {m};
      [m] + rest
  }

  // ---------------------------------------------------------------- writing

  /** One line of the file, without its newline. */
  function FormatLine(key: string, val: string): string {
    key + ": " + val
  }

  function Lines(data: Data, keys: seq<string>): (r: seq<string>)
    requires forall k :: k in keys ==> k in data
    ensures |r| == |keys|
    ensures forall i :: 0 <= i < |keys| ==> r[i] == FormatLine(keys[i], data[keys[i]])
  {
    seq(|keys|, i requires 0 <= i < |keys| => FormatLine(keys[i], data[keys[i]]))
  }

  /** Every line followed by a newline. */
  function Terminated(lines: seq<string>): (r: string)
  {
    if |lines| == 0 then "" else lines[0] + "\n" + Terminated(lines[1..])
  }

  /** `write_config`: one "key: value" line per property, sorted by key. */
  function WriteConfig(data: Data): (r: string)
  {
    Terminated(Lines(data, SortedKeys(data.Keys)))
  }

  /** The lines of the text written are the properties in key order. */
  lemma WrittenLines(data: Data)
    requires forall k :: k in data ==> '\n' !in k && '\n' !in data[k]
    ensures var keys := SortedKeys(data.Keys);
            ReadLines(WriteConfig(data)) == Lines(data, keys)
            && forall i, j :: 0 <= i < j < |keys| ==> Below(keys[i], keys[j])
  {
    var ls := Lines(data, SortedKeys(data.Keys));
    forall i | 0 <= i < |ls| ensures '\n' !in ls[i] {
      var k := SortedKeys(data.Keys)[i];
      assert ls[i] == k + ": " + data[k];
    }
    TerminatedLines(ls);
  }

  // ---------------------------------------------------------------- reading

  /** `f.readlines()`: the text cut after each newline; the newlines
      themselves go with `strip()` anyway, so they are dropped here. */
  function ReadLines(text: string): (r: seq<string>)
  {
    var ps := S.Split(text, '\n');
    if ps[|ps| - 1] == "" then ps[..|ps| - 1] else ps
  }

  lemma {:induction false} TerminatedLines(lines: seq<string>)
    requires forall i :: 0 <= i < |lines| ==> '\n' !in lines[i]
    ensures ReadLines(Terminated(lines)) == lines
  {
    var pieces := lines + [""];
    TerminatedJoin(lines);
    assert forall i :: 0 <= i < |pieces| ==> '\n' !in pieces[i];
    S.JoinSplit(pieces, '\n');
    assert S.Split(Terminated(lines), '\n') == pieces;
    assert pieces[..|pieces| - 1] == lines;
  }

  lemma {:induction false} TerminatedJoin(lines: seq<string>)
    ensures Terminated(lines) == S.Join(['\n'], lines + [""])
  {
    if |lines| > 0 {
      TerminatedJoin(lines[1..]);
      assert (lines + [""])[1..] == lines[1..] + [""];
      assert "\n" == ['\n'];
    }
  }

  /** The key and value of a line: in the code as written, the first two
      pieces of `split(':')`, that is the value stops at a second ':';
      corrected, the text around the first ':'. None when the line has
      no ':'. */
  function Pair(l: string, asWritten: bool): (r: Option<(string, string)>)
    ensures r.None? <==> ':' !in l
    ensures r.Some? ==> ':' !in r.value.0
    ensures r.Some? && asWritten ==> ':' !in r.value.1
  {
    if ':' !in l then None
    else
      var i := S.IndexOf(l, ':');
      var rest := l[i + 1..];
      if asWritten && ':' in rest then Some((l[..i], rest[..S.IndexOf(rest, ':')]))
      else Some((l[..i], rest))
  }

  /** As written, the pair is the first two pieces of `split(':')`. */
  lemma PairSplit(l: string)
    requires ':' in l
    ensures var ps := S.Split(l, ':');
            |ps| >= 2 && Pair(l, true) == Some((ps[0], ps[1]))
  {
    var i := S.IndexOf(l, ':');
    var rest := l[i + 1..];
    assert S.Split(l, ':') == [l[..i]] + S.Split(rest, ':');
    if ':' in rest {
      var j := S.IndexOf(rest, ':');
      assert S.Split(rest, ':') == [rest[..j]] + S.Split(rest[j + 1..], ':');
    }
  }

  /** One line read: a comment is skipped; otherwise the stripped key and
      value; a line without ':' (a blank one too) fails. */
  function ParseLine(line: string, asWritten: bool): (r: Result<Option<(string, string)>>)
    ensures r.Err? <==> !S.StartsWith(S.Strip(line), "#") && ':' !in S.Strip(line)
    ensures r.Ok? && r.value.Some? ==> S.Trimmed(r.value.value.0) && S.Trimmed(r.value.value.1)
  {
    var l := S.Strip(line);
    if S.StartsWith(l, "#") then Ok(None)
    else
      var p := Pair(l, asWritten);
      if p.None? then Err(IndexError("list index out of range"))
      else Ok(Some((S.Strip(p.value.0), S.Strip(p.value.1))))
  }

  /** Every line reads. */
  predicate Parses(lines: seq<string>, asWritten: bool) {
    |lines| == 0 || (ParseLine(lines[0], asWritten).Ok? && Parses(lines[1..], asWritten))
  }

  /** The lines applied in order, each one setting its key. */
  function Apply(data: Data, lines: seq<string>, asWritten: bool): (r: Result<Data>)
    ensures r.Ok? <==> Parses(lines, asWritten)
    ensures r.Ok? ==> data.Keys <= r.value.Keys
    decreases |lines|
  {
    if |lines| == 0 then Ok(data)
    else
      var p := ParseLine(lines[0], asWritten);
      if p.Err? then Err(p.error)
      else if p.value.None? then Apply(data, lines[1..], asWritten)
      else
        var kv := p.value.value;
        Apply(data[kv.0 := kv.1], lines[1..], asWritten)
  }

  /** `read_config` as written: a missing file leaves the data as it is;
      otherwise every line is applied, a value being cut at a second ':'. */
  function ReadConfigAsWritten(data: Data, file: Option<string>): (r: Result<Data>)
    ensures file.None? ==> r == Ok(data)
    ensures r.Ok? ==> data.Keys <= r.value.Keys
  {
    if file.None? then Ok(data) else Apply(data, ReadLines(file.value), true)
  }

  /** `read_config` reading the value as everything after the key's ':'. */
  function ReadConfig(data: Data, file: Option<string>): (r: Result<Data>)
    ensures file.None? ==> r == Ok(data)
    ensures r.Ok? ==> data.Keys <= r.value.Keys
  {
    if file.None? then Ok(data) else Apply(data, ReadLines(file.value), false)
  }

  // ---------------------------------------------------------------- round trip

  /** A key or value that survives the file: no surrounding whitespace
      (reading strips it) and no newline. */
  predicate Storable(s: string) {
    S.Trimmed(s) && '\n' !in s
  }

  /** A key that reads back: storable, no ':' and not a comment. */
  predicate StorableKey(k: string) {
    Storable(k) && ':' !in k && (|k| == 0 || k[0] != '#')
  }

  /** The stripped line. */
  lemma StripLine(k: string, v: string)
    requires StorableKey(k) && Storable(v)
    ensures S.Strip(FormatLine(k, v)) == if |v| == 0 then k + ":" else FormatLine(k, v)
  {
    var line := FormatLine(k, v);
    if |v| == 0 {
      var t := k + ":";
      assert line == t + " ";
      assert S.RStrip(line, S.Whitespace) == S.RStrip(t, S.Whitespace);
      S.RStripFixed(t, S.Whitespace);
      assert t[0] !in S.Whitespace by { if |k| > 0 { assert t[0] == k[0]; } }
      S.LStripFixed(t, S.Whitespace);
    } else {
      assert line[|line| - 1] == v[|v| - 1];
      assert line[0] !in S.Whitespace by { if |k| > 0 { assert line[0] == k[0]; } }
      S.StripFixed(line);
    }
  }

  /** The stripped value piece. */
  lemma StripValue(v: string)
    requires Storable(v)
    ensures S.Strip(" " + v) == v
  {
    if |v| == 0 {
      assert " " + v == [' '];
      assert S.RStrip([' '], S.Whitespace) == S.RStrip([], S.Whitespace);
    } else {
      var w := " " + v;
      assert w[|w| - 1] == v[|v| - 1];
      S.RStripFixed(w, S.Whitespace);
      assert w[1..] == v;
      S.LStripFixed(v, S.Whitespace);
    }
  }

  /** Where the first ':' of a stripped line is. */
  lemma LineColon(k: string, w: string)
    requires ':' !in k
    ensures var l := k + ":" + w;
            ':' in l && S.IndexOf(l, ':') == |k| && l[..|k|] == k && l[|k| + 1..] == w
  {
    var l := k + ":" + w;
    assert l[|k|] == ':';
    assert l[..|k|] == k;
  }

  /** A written line reads back as its key and value (corrected reading). */
  lemma ParseWritten(k: string, v: string)
    requires StorableKey(k) && Storable(v)
    ensures ParseLine(FormatLine(k, v), false) == Ok(Some((k, v)))
  {
    StripLine(k, v);
    var w := if |v| == 0 then "" else " " + v;
    var l := S.Strip(FormatLine(k, v));
    assert l == k + ":" + w;
    NotComment(k, w);
    PairAround(k, w);
    S.StripFixed(k);
    StripPiece(v);
  }

  lemma NotComment(k: string, w: string)
    requires StorableKey(k)
    ensures !S.StartsWith(k + ":" + w, "#")
  {
    var l := k + ":" + w;
    assert l[0] != '#' by { if |k| > 0 { assert l[0] == k[0]; } }
  }

  lemma PairAround(k: string, w: string)
    requires ':' !in k
    ensures Pair(k + ":" + w, false) == Some((k, w))
  {
    LineColon(k, w);
  }

  lemma StripPiece(v: string)
    requires Storable(v)
    ensures S.Strip(if |v| == 0 then "" else " " + v) == v
  {
    if |v| == 0 { assert S.Strip("") == ""; } else { StripValue(v); }
  }

  /** The lines for some keys, applied in order, set exactly those keys. */
  lemma {:induction false} ApplyLines(d: Data, data: Data, keys: seq<string>)
    requires forall k :: k in keys ==> k in data && StorableKey(k) && Storable(data[k])
    ensures Apply(d, Lines(data, keys), false)
              == Ok(d + map k | k in data && k in keys :: data[k])
    decreases |keys|
  {
    var ls := Lines(data, keys);
    if |keys| > 0 {
      var k := keys[0];
      ApplyFirst(d, data, keys);
      ApplyLines(d[k := data[k]], data, keys[1..]);
      OverlayStep(d, data, keys);
    } else {
      ApplyNone(d, data, keys);
    }
  }

  /** A first line that reads as a pair sets that pair before the rest. */
  lemma ApplyCons(d: Data, lines: seq<string>, k: string, v: string)
    requires |lines| > 0 && ParseLine(lines[0], false) == Ok(Some((k, v)))
    ensures Apply(d, lines, false) == Apply(d[k := v], lines[1..], false)
  {
  }

  /** The first written line sets its key before the rest. */
  lemma ApplyFirst(d: Data, data: Data, keys: seq<string>)
    requires |keys| > 0 && keys[0] in data && StorableKey(keys[0]) && Storable(data[keys[0]])
    requires forall k :: k in keys ==> k in data
    ensures Apply(d, Lines(data, keys), false)
            == Apply(d[keys[0] := data[keys[0]]], Lines(data, keys[1..]), false)
  {
    var k, ls := keys[0], Lines(data, keys);
    FirstLineParses(data, keys);
    ApplyCons(d, ls, k, data[k]);
    LinesTail(data, keys);
  }

  lemma FirstLineParses(data: Data, keys: seq<string>)
    requires |keys| > 0 && keys[0] in data && StorableKey(keys[0]) && Storable(data[keys[0]])
    requires forall k :: k in keys ==> k in data
    ensures ParseLine(Lines(data, keys)[0], false) == Ok(Some((keys[0], data[keys[0]])))
  {
    ParseWritten(keys[0], data[keys[0]]);
  }

  lemma LinesTail(data: Data, keys: seq<string>)
    requires |keys| > 0
    requires forall k :: k in keys ==> k in data
    ensures Lines(data, keys)[1..] == Lines(data, keys[1..])
  {
  }

  /** No keys set nothing. */
  lemma ApplyNone(d: Data, data: Data, keys: seq<string>)
    requires |keys| == 0
    ensures d + (map j | j in data && j in keys :: data[j]) == d
  {
    var m := map j | j in data && j in keys :: data[j];
    assert m.Keys == {};
  }

  /** Setting the first key, then the rest, sets them all. */
  lemma OverlayStep(d: Data, data: Data, keys: seq<string>)
    requires |keys| > 0 && keys[0] in data
    ensures d[keys[0] := data[keys[0]]] + (map j | j in data && j in keys[1..] :: data[j])
            == d + (map j | j in data && j in keys :: data[j])
  {
    var k := keys[0];
    var m1 := map j | j in data && j in keys[1..] :: data[j];
    var m := map j | j in data && j in keys :: data[j];
    var lhs, rhs := d[k := data[k]] + m1, d + m;
    assert forall j :: j in keys <==> j == k || j in keys[1..];
    assert lhs.Keys == rhs.Keys;
    assert forall j :: j in lhs ==> lhs[j] == rhs[j];
  }

  /** Writing the properties and reading them back into a store gives them
      back, each value whole. */
  lemma WriteReadRoundTrip(d: Data, data: Data)
    requires forall k :: k in data ==> StorableKey(k) && Storable(data[k])
    ensures ReadConfig(d, Some(WriteConfig(data))) == Ok(d + data)
  {
    WrittenLines(data);
    var keys := SortedKeys(data.Keys);
    ApplyLines(d, data, keys);
    MapAll(data, keys);
  }

  /** Restricting to keys that cover the whole store keeps all of it. */
  lemma MapAll(data: Data, keys: seq<string>)
    requires forall k :: k in data ==> k in keys
    ensures (map k | k in data && k in keys :: data[k]) == data
  {
    var m := map k | k in data && k in keys :: data[k];
    assert m.Keys == data.Keys;
  }

  /** As written, a value with a ':' does not survive: "k: a:b" reads back
      as "a"; the corrected reading keeps "a:b". */
  lemma ColonValueTruncated()
    ensures ParseLine(FormatLine("k", "a:b"), true) == Ok(Some(("k", "a")))
    ensures ParseLine(FormatLine("k", "a:b"), false) == Ok(Some(("k", "a:b")))
  {
    ColonSample();
    assert "a:b" == "a" + ":" + "b";
    ValueCutAtColon("k", "a", "b");
    ParseWritten("k", "a:b");
  }

  lemma ColonSample()
    ensures StorableKey("k") && Storable("a:b") && Storable("a") && ':' !in "a"
  {
    assert S.Trimmed("k") && S.Trimmed("a:b") && S.Trimmed("a");
  }

  /** As written, any stored value `a:b` reads back as `a` alone. */
  lemma ValueCutAtColon(k: string, a: string, b: string)
    requires StorableKey(k) && Storable(a + ":" + b) && Storable(a) && ':' !in a
    ensures ParseLine(FormatLine(k, a + ":" + b), true) == Ok(Some((k, a)))
  {
    var v := a + ":" + b;
    var l := FormatLine(k, v);
    StripLine(k, v);
    assert !S.StartsWith(l, "#") by {
      if |k| > 0 { assert l[0] == k[0]; } else { assert l[0] == ':'; }
    }
    PairCutAtColon(k, a, b);
    StripValue(a);
    S.StripFixed(k);
  }

  lemma PairCutAtColon(k: string, a: string, b: string)
    requires ':' !in k && ':' !in a
    ensures Pair(FormatLine(k, a + ":" + b), true) == Some((k, " " + a))
  {
    var l := FormatLine(k, a + ":" + b);
    assert l == k + ":" + (" " + a + ":" + b);
    LineColon(k, " " + a + ":" + b);
    assert ':' !in " " + a;
    LineColon(" " + a, b);
  }
}
