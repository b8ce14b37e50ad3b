/** The handful of Python `str` operations the modelled code relies on:
    strip, split, join, count, replace, prefix/suffix tests and integer
    formatting (`str(n)`, `"%0Nd" % n`). Strings are `seq<char>`. */
module Strings {

  /** The characters Python's argument-less `strip()` removes. */
  const Whitespace: set<char> := {' ', '\t', '\n', '\r', '\U{000B}', '\U{000C}'}

  // ---------------------------------------------------------------- strip

  /** Every character of `s` is in `cs`. */
  predicate AllIn(s: string, cs: set<char>) {
    forall i :: 0 <= i < |s| ==> s[i] in cs
  }

  /** `s.lstrip(cs)`: drop the longest prefix made only of characters in `cs`. */
  function LStrip(s: string, cs: set<char>): (r: string)
    ensures |r| <= |s| && r == s[|s| - |r|..]
    ensures AllIn(s[..|s| - |r|], cs)
    ensures r == [] || r[0] !in cs
    decreases |s|
  {
    if |s| > 0 && s[0] in cs then LStrip(s[1..], cs) else s
  }

  /** `s.rstrip(cs)`: drop the longest suffix made only of characters in `cs`. */
  function RStrip(s: string, cs: set<char>): (r: string)
    ensures |r| <= |s| && r == s[..|r|]
    ensures AllIn(s[|r|..], cs)
    ensures r == [] || r[|r| - 1] !in cs
    decreases |s|
  {
    if |s| > 0 && s[|s| - 1] in cs then RStrip(s[..|s| - 1], cs) else s
  }

  /** `s.strip(cs)`: both ends. */
  function StripSet(s: string, cs: set<char>): (r: string)
    ensures |r| <= |s|
    ensures r == [] || (r[0] !in cs && r[|r| - 1] !in cs)
  {
    LStrip(RStrip(s, cs), cs)
  }

  /** `s.strip()`. */
  function Strip(s: string): (r: string)
    ensures |r| <= |s|
    ensures r == [] || (r[0] !in Whitespace && r[|r| - 1] !in Whitespace)
  {
    StripSet(s, Whitespace)
  }

  lemma LStripFixed(s: string, cs: set<char>)
    requires s == [] || s[0] !in cs
    ensures LStrip(s, cs) == s
  {
  }

  lemma RStripFixed(s: string, cs: set<char>)
    requires s == [] || s[|s| - 1] !in cs
    ensures RStrip(s, cs) == s
  {
  }

  /** No whitespace at either end. */
  predicate Trimmed(s: string) {
    s == [] || (s[0] !in Whitespace && s[|s| - 1] !in Whitespace)
  }

  /** A trimmed string is its own `strip()`. */
  lemma StripFixed(s: string)
    requires Trimmed(s)
    ensures Strip(s) == s
  {
    RStripFixed(s, Whitespace);
    LStripFixed(s, Whitespace);
  }

  /** Stripping twice is stripping once. */
  lemma StripIdempotent(s: string, cs: set<char>)
    ensures StripSet(StripSet(s, cs), cs) == StripSet(s, cs)
  {
    var t := StripSet(s, cs);
    RStripFixed(t, cs);
    LStripFixed(t, cs);
  }

  // ---------------------------------------------------------------- prefix / suffix / infix

  predicate StartsWith(s: string, p: string) {
    |p| <= |s| && s[..|p|] == p
  }

  predicate EndsWith(s: string, p: string) {
    |p| <= |s| && s[|s| - |p|..] == p
  }

  /** Python's `sub in s`. */
  predicate Contains(s: string, sub: string)
    decreases |s|
  {
    StartsWith(s, sub) || (|s| > 0 && Contains(s[1..], sub))
  }

  lemma ContainsExtend(pre: string, s: string, sub: string)
    requires Contains(s, sub)
    ensures Contains(pre + s, sub)
    decreases |pre|
  {
    if |pre| > 0 {
      ContainsExtend(pre[1..], s, sub);
      assert (pre + s)[1..] == pre[1..] + s;
    } else {
      assert pre + s == s;
    }
  }

  lemma ContainsAppend(s: string, post: string, sub: string)
    requires Contains(s, sub)
    ensures Contains(s + post, sub)
    decreases |s|
  {
    if StartsWith(s, sub) {
      assert (s + post)[..|sub|] == s[..|sub|];
    } else {
      ContainsAppend(s[1..], post, sub);
      assert (s + post)[1..] == s[1..] + post;
    }
  }

  /** A string contains every infix of itself. */
  lemma ContainsInfix(pre: string, sub: string, post: string)
    ensures Contains(pre + sub + post, sub)
  {
    assert StartsWith(sub + post, sub) by {
      assert (sub + post)[..|sub|] == sub;
    }
    ContainsExtend(pre, sub + post, sub);
    assert pre + sub + post == pre + (sub + post);
  }

  // ---------------------------------------------------------------- count / index

  /** Number of occurrences of `c` in `s` (Python's `s.count(c)`). */
  function Count(s: string, c: char): (r: nat)
    ensures r <= |s|
    ensures r == 0 <==> c !in s
  {
    if |s| == 0 then 0 else (if s[0] == c then 1 else 0) + Count(s[1..], c)
  }

  lemma CountAppend(a: string, b: string, c: char)
    ensures Count(a + b, c) == Count(a, c) + Count(b, c)
  {
    if |a| > 0 {
      assert (a + b)[1..] == a[1..] + b;
      CountAppend(a[1..], b, c);
    } else {
      assert a + b == b;
    }
  }

  /** Position of the first `c` in `s`. */
  function IndexOf(s: string, c: char): (i: nat)
    requires c in s
    ensures i < |s| && s[i] == c && c !in s[..i]
  {
    if s[0] == c then 0 else 1 + IndexOf(s[1..], c)
  }

  /** Position of the last `c` in `s`, or -1 (Python's `rfind`). */
  function RFind(s: string, c: char): (i: int)
    ensures -1 <= i < |s|
    ensures i == -1 <==> c !in s
    ensures 0 <= i ==> s[i] == c && c !in s[i + 1..]
  {
    if |s| == 0 then -1
    else if s[|s| - 1] == c then |s| - 1
    else
      var j := RFind(s[..|s| - 1], c);
      assert s[j + 1..] == s[..|s| - 1][j + 1..] + [s[|s| - 1]];
      j
  }

  // ---------------------------------------------------------------- split / join

  /** `sep.join(parts)`. */
  function Join(sep: string, parts: seq<string>): (r: string)
  {
    if |parts| == 0 then ""
    else if |parts| == 1 then parts[0]
    else parts[0] + sep + Join(sep, parts[1..])
  }

  /** `s.split(c)` for a one-character separator: never empty, no piece
      holds the separator, and joining the pieces back gives `s`. */
  function Split(s: string, c: char): (r: seq<string>)
    ensures |r| >= 1
    ensures forall i :: 0 <= i < |r| ==> c !in r[i]
    ensures Join([c], r) == s
    decreases |s|
  {
    if c !in s then [s]
    else
      var i := IndexOf(s, c);
      var rest := Split(s[i + 1..], c);
      assert s == s[..i] + [c] + s[i + 1..];
      [s[..i]] + rest
  }

  /** The pieces are one more than the separators. */
  lemma {:induction false} SplitCount(s: string, c: char)
    ensures |Split(s, c)| == Count(s, c) + 1
    decreases |s|
  {
    if c in s {
      var i := IndexOf(s, c);
      var pre, post := s[..i], s[i + 1..];
      SplitCount(post, c);
      assert Split(s, c) == [pre] + Split(post, c);
      assert s == pre + ([c] + post);
      CountAppend(pre, [c] + post, c);
      CountAppend([c], post, c);
      assert Count(pre, c) == 0;
      assert Count([c], c) == 1;
    }
  }

  /** Splitting a join of separator-free pieces gives the pieces back. */
  lemma {:induction false} JoinSplit(parts: seq<string>, c: char)
    requires |parts| >= 1
    requires forall i :: 0 <= i < |parts| ==> c !in parts[i]
    ensures Split(Join([c], parts), c) == parts
    decreases |parts|
  {
    if |parts| > 1 {
      var s := Join([c], parts);
      var tail := Join([c], parts[1..]);
      assert s == parts[0] + [c] + tail;
      JoinSplit(parts[1..], c);
      assert c in s by {
        assert s[|parts[0]|] == c;
      }
      var i := IndexOf(s, c);
      assert s[..|parts[0]|] == parts[0];
      assert i == |parts[0]|;
      assert s[..i] == parts[0];
      assert s[i + 1..] == tail;
    }
  }

  // ---------------------------------------------------------------- replace

  /** `s.replace(pat, rep)`: every non-overlapping occurrence, left to right. */
  function ReplaceAll(s: string, pat: string, rep: string): (r: string)
    requires |pat| > 0
    ensures !Contains(s, pat) ==> r == s
    decreases |s|
  {
    if |s| < |pat| then s
    else if s[..|pat|] == pat then rep + ReplaceAll(s[|pat|..], pat, rep)
    else [s[0]] + ReplaceAll(s[1..], pat, rep)
  }

  // ---------------------------------------------------------------- integers

  function Repeat(c: char, n: nat): (r: string)
    ensures |r| == n
    ensures forall i :: 0 <= i < n ==> r[i] == c
  {
    seq(n, _ => c)
  }

  predicate IsDigit(c: char) {
    '0' <= c <= '9'
  }

  function DigitChar(d: nat): (c: char)
    requires d < 10
    ensures IsDigit(c)
  {
    "0123456789"[d]
  }

  function DigitValue(c: char): (d: nat)
    requires IsDigit(c)
    ensures d < 10
  {
    (c as int - '0' as int) as nat
  }

  /** Decimal value of a string of digits (Python's `int(s)` on digits). */
  function ParseNat(s: string): (n: nat)
    requires forall i :: 0 <= i < |s| ==> IsDigit(s[i])
  {
    if |s| == 0 then 0 else 10 * ParseNat(s[..|s| - 1]) + DigitValue(s[|s| - 1])
  }

  /** `str(n)` for a natural number. */
  function NatToString(n: nat): (r: string)
    ensures 1 <= |r|
    ensures forall i :: 0 <= i < |r| ==> IsDigit(r[i])
    ensures |r| > 1 ==> r[0] != '0'
  {
    if n < 10 then [DigitChar(n)] else NatToString(n / 10) + [DigitChar(n % 10)]
  }

  lemma {:induction false} NatToStringRoundTrip(n: nat)
    ensures ParseNat(NatToString(n)) == n
  {
    if n >= 10 {
      NatToStringRoundTrip(n / 10);
      var s := NatToString(n);
      assert s[..|s| - 1] == NatToString(n / 10);
    }
  }

  /** Leading zeros do not change a decimal value. */
  lemma {:induction false} ParseNatLeadingZeros(k: nat, s: string)
    requires forall i :: 0 <= i < |s| ==> IsDigit(s[i])
    ensures forall i :: 0 <= i < |Repeat('0', k) + s| ==> IsDigit((Repeat('0', k) + s)[i])
    ensures ParseNat(Repeat('0', k) + s) == ParseNat(s)
    decreases |s|
  {
    var z := Repeat('0', k);
    if |s| == 0 {
      assert z + s == z;
      ZerosParse(k);
    } else {
      var t := z + s;
      assert t[..|t| - 1] == z + s[..|s| - 1];
      ParseNatLeadingZeros(k, s[..|s| - 1]);
    }
  }

  lemma {:induction false} ZerosParse(k: nat)
    ensures ParseNat(Repeat('0', k)) == 0
  {
    if k > 0 {
      assert Repeat('0', k)[..k - 1] == Repeat('0', k - 1);
      ZerosParse(k - 1);
    }
  }

  /** `"%0{width}d" % n` for a natural number: zero-padded to at least
      `width` characters, and it still reads back as `n`. */
  function ZeroPad(n: nat, width: nat): (r: string)
    ensures |r| == if |NatToString(n)| >= width then |NatToString(n)| else width
    ensures forall i :: 0 <= i < |r| ==> IsDigit(r[i])
    ensures ParseNat(r) == n
  {
    var s := NatToString(n);
    NatToStringRoundTrip(n);
    if |s| >= width then s
    else
      ParseNatLeadingZeros(width - |s|, s);
      Repeat('0', width - |s|) + s
  }

  /** `str(i)` / `"%0{width}d" % i` for any integer: the sign goes first and
      the zeros after it, as Python does. */
  function IntToString(i: int, width: nat): (r: string)
    ensures i >= 0 ==> r == ZeroPad(i, width)
    ensures i < 0 ==> |r| >= 2 && r[0] == '-'
  {
    if i >= 0 then ZeroPad(i, width)
    else "-" + ZeroPad(-i, if width > 0 then width - 1 else 0)
  }
}
