/** Small helpers of the core: the product of weight expressions, the
    colour-palette conversion for ROOT, the progress bar's fill and the
    class-hierarchy walk. Writing to the terminal and calling into ROOT are
    not part of this model. */
module CoreHelpers {
  import opened Wrappers
  import S = Strings
  import V = Vars
  import R = Reals
  import HU = HistUtils

  // ---------------------------------------------------------------- weights

  /** `combine_weights`: every weight in parentheses, joined by `*`. Unlike
      the variable combination, an empty list gives the empty string. */
  function CombineWeights(ws: seq<string>): (r: string)
    ensures |ws| == 0 <==> r == ""
  {
    S.Join("*", V.Paren(ws))
  }

  /** With at least one weight it is the `*` combination of variables. */
  lemma CombineWeightsIsCombine(ws: seq<string>)
    requires |ws| > 0
    ensures CombineWeights(ws) == V.Combine("*", ws)
  {
  }

  /** Every weight appears, parenthesised, in the product. */
  lemma CombineWeightsContains(ws: seq<string>, i: nat)
    requires i < |ws|
    ensures S.Contains(CombineWeights(ws), "(" + ws[i] + ")")
  {
    V.JoinContains("*", V.Paren(ws), i);
  }

  /** Weights are multiplied in input order: one more weight appends one
      more factor. */
  lemma CombineWeightsSnoc(ws: seq<string>, w: string)
    ensures CombineWeights(ws + [w]) == (if |ws| == 0 then "" else CombineWeights(ws) + "*") + "(" + w + ")"
  {
    if |ws| == 0 {
      assert ws + [w] == [w];
    } else {
      V.CombineSnoc("*", ws, w);
    }
  }

  // ---------------------------------------------------------------- palettes

  /** One palette level: red, green and blue in 0..255. */
  datatype Rgb = Rgb(r: int, g: int, b: int)

  /** ROOT's gradient description: one stop position and one fraction per
      channel for every level. */
  datatype Gradient = Gradient(stops: seq<real>, red: seq<real>, green: seq<real>, blue: seq<real>)

  function Channel(lvls: seq<Rgb>, pick: Rgb -> int): (c: seq<real>)
    ensures |c| == |lvls|
  {
    seq(|lvls|, i requires 0 <= i < |lvls| => pick(lvls[i]) as real / 255.0)
  }

  /** The channel fractions are the level values over 255, level by level. */
  predicate ChannelsOf(g: Gradient, lvls: seq<Rgb>) {
    |g.red| == |lvls| && |g.green| == |lvls| && |g.blue| == |lvls|
    && forall i :: 0 <= i < |lvls| ==>
         g.red[i] == lvls[i].r as real / 255.0
         && g.green[i] == lvls[i].g as real / 255.0
         && g.blue[i] == lvls[i].b as real / 255.0
  }

  /** `convert_rgb2root` as written: the stops come from stepping through
      [0, 1.01) by 1/(n-1), so a palette of more than 101 levels gets more
      stops than colours. Fewer than two levels divide by zero; an empty
      palette would step backwards forever and is not accepted here. */
  method Rgb2RootAsWritten(lvls: seq<Rgb>) returns (r: Result<Gradient>)
    requires |lvls| >= 1
    ensures r.Ok? <==> |lvls| >= 2
    ensures r.Ok? ==> ChannelsOf(r.value, lvls)
    ensures r.Ok? ==> forall k :: 0 <= k < |r.value.stops| ==>
              r.value.stops[k] == (k as real) / ((|lvls| - 1) as real)
    ensures r.Ok? ==> (|r.value.stops| == |lvls| <==> |lvls| <= 101)
  {
    if |lvls| == 1 {
      return Err(Fatal("float division by zero"));
    }
    var d := (|lvls| - 1) as real;
    var stops := HU.FRange(0.0, 1.01, 1.0 / d);
    StopsFacts(stops, d);
    StopsCount(|stops|, |lvls|);
    r := Ok(Gradient(stops, Channel(lvls, (l: Rgb) => l.r), Channel(lvls, (l: Rgb) => l.g), Channel(lvls, (l: Rgb) => l.b)));
  }

  /** What the range generator's contract says about stepping by 1/d below
      1.01, with the step multiplied out. */
  lemma StopsFacts(stops: seq<real>, d: real)
    requires d > 0.0
    requires forall k :: 0 <= k < |stops| ==> stops[k] == 0.0 + (k as real) * (1.0 / d)
    requires forall k :: 0 <= k < |stops| ==> stops[k] < 1.01
    requires 0.0 + (|stops| as real) * (1.0 / d) >= 1.01
    ensures forall k :: 0 <= k < |stops| ==> stops[k] == (k as real) / d
    ensures |stops| > 0
    ensures (|stops| as real) >= 1.01 * d
    ensures ((|stops| - 1) as real) < 1.01 * d
  {
    var step := 1.0 / d;
    forall k | 0 <= k < |stops| ensures stops[k] == (k as real) / d {
      MulInverse(k as real, d);
    }
    var m := |stops|;
    assert (m as real) >= 1.01 * d by {
      MulInverse(m as real, d);
      MulLe(1.01, (m as real) * step, d);
    }
    assert ((m - 1) as real) < 1.01 * d by {
      assert stops[m - 1] == ((m - 1) as real) * step;
      MulInverse((m - 1) as real, d);
      MulLt(((m - 1) as real) * step, 1.01, d);
    }
  }

  lemma MulInverse(a: real, d: real)
    requires d > 0.0
    ensures a * (1.0 / d) == a / d && a * (1.0 / d) * d == a
  {
  }

  lemma MulLe(a: real, b: real, d: real)
    requires d >= 0.0 && a <= b
    ensures a * d <= b * d
  {
  }

  lemma MulLt(a: real, b: real, d: real)
    requires d > 0.0 && a < b
    ensures a * d < b * d
  {
  }

  /** How many stops stepping by 1/(n-1) below 1.01 makes: the count m is
      the first with m/(n-1) >= 1.01, which is n only while n is at most
      101. */
  lemma StopsCount(m: nat, n: nat)
    requires n >= 2 && m > 0
    requires ((m - 1) as real) < 1.01 * ((n - 1) as real)
    requires (m as real) >= 1.01 * ((n - 1) as real)
    ensures m == n <==> n <= 101
  {
  }

  /** One stop per level, evenly spaced from 0 to 1. */
  function Rgb2Root(lvls: seq<Rgb>): (r: Result<Gradient>)
    ensures r.Ok? <==> |lvls| >= 2
    ensures r.Ok? ==> ChannelsOf(r.value, lvls)
    ensures r.Ok? ==> |r.value.stops| == |lvls|
                      && r.value.stops[0] == 0.0 && r.value.stops[|lvls| - 1] == 1.0
    ensures r.Ok? ==> forall k :: 0 <= k < |lvls| - 1 ==> r.value.stops[k] < r.value.stops[k + 1]
  {
    if |lvls| < 2 then Err(Fatal("float division by zero"))
    else
      var d := (|lvls| - 1) as real;
      DivSelf(d);
      Ok(Gradient(seq(|lvls|, k requires 0 <= k < |lvls| => (k as real) / d),
                  Channel(lvls, (l: Rgb) => l.r), Channel(lvls, (l: Rgb) => l.g), Channel(lvls, (l: Rgb) => l.b)))
  }

  /** Up to 101 levels the corrected stops are the ones the code makes. */
  lemma Rgb2RootAgrees(lvls: seq<Rgb>, stops: seq<real>)
    requires 2 <= |lvls| <= 101 && |stops| == |lvls|
    requires forall k :: 0 <= k < |stops| ==> stops[k] == (k as real) / ((|lvls| - 1) as real)
    ensures Rgb2Root(lvls).Ok? && Rgb2Root(lvls).value.stops == stops
  {
  }

  // ---------------------------------------------------------------- progress bar

  /** The bar's width: the one given, or 40 when unset or zero. */
  function BarWidth(width: Option<int>): (w: int)
    ensures w == 40 || Some(w) == width
  {
    if width.Some? && width.value != 0 then width.value else 40
  }

  /** The progress as a share of the width: `n / ntotal * width`. */
  function Scaled(n: int, ntotal: int, w: int): real
    requires ntotal != 0
  {
    (n as real) / (ntotal as real) * (w as real)
  }

  /** The number of `=` signs after `n` of `ntotal` steps:
      `int(n / ntotal * width)`. */
  function BarFill(n: int, ntotal: int, width: Option<int>): (r: Result<int>)
    ensures r.Err? <==> ntotal == 0
    ensures r.Ok? && 0 <= n <= ntotal && BarWidth(width) >= 0 ==> 0 <= r.value <= BarWidth(width)
    ensures r.Ok? && n == ntotal ==> r.value == BarWidth(width)
    ensures r.Ok? && n == 0 ==> r.value == 0
  {
    if ntotal == 0 then Err(Fatal("float division by zero"))
    else
      var w := BarWidth(width);
      ScaledEnds(n, ntotal, w);
      if 0 <= n <= ntotal && w >= 0 then
        ScaledMonotone(n, ntotal, ntotal, w);
        R.TruncMonotone(Scaled(n, ntotal, w), Scaled(ntotal, ntotal, w));
        Ok(R.Trunc(Scaled(n, ntotal, w)))
      else Ok(R.Trunc(Scaled(n, ntotal, w)))
  }

  /** The fill never shrinks as progress is made. */
  lemma BarFillMonotone(n1: int, n2: int, ntotal: int, width: Option<int>)
    requires ntotal > 0 && 0 <= n1 <= n2 && BarWidth(width) >= 0
    ensures BarFill(n1, ntotal, width).value <= BarFill(n2, ntotal, width).value
  {
    var w := BarWidth(width);
    ScaledMonotone(n1, n2, ntotal, w);
    R.TruncMonotone(Scaled(n1, ntotal, w), Scaled(n2, ntotal, w));
  }

  /** No progress is no share; full progress is the whole width. */
  lemma ScaledEnds(n: int, ntotal: int, w: int)
    requires ntotal != 0
    ensures n == 0 ==> Scaled(n, ntotal, w) == 0.0
    ensures n == ntotal ==> Scaled(n, ntotal, w) == w as real
  {
    DivSelf(ntotal as real);
  }

  lemma DivSelf(t: real)
    requires t != 0.0
    ensures t / t == 1.0
  {
  }

  /** More progress is a larger share, and never a negative one. */
  lemma ScaledMonotone(n1: int, n2: int, ntotal: int, w: int)
    requires ntotal > 0 && 0 <= n1 <= n2 && w >= 0
    ensures 0.0 <= Scaled(n1, ntotal, w) <= Scaled(n2, ntotal, w)
  {
    var t := ntotal as real;
    var q1 := (n1 as real) / t;
    var q2 := (n2 as real) / t;
    DivMono(n1 as real, n2 as real, t);
    MulLe(0.0, q1, w as real);
    MulLe(q1, q2, w as real);
  }

  lemma DivMono(a: real, b: real, t: real)
    requires t > 0.0 && 0.0 <= a <= b
    ensures 0.0 <= a / t <= b / t
  {
    MulInverse(a, t);
    MulInverse(b, t);
    MulLe(a, b, 1.0 / t);
    MulLe(0.0, a, 1.0 / t);
  }

  /** `%-Ns`: left-justified, padded with spaces to at least N characters. */
  function LeftJustify(s: string, width: int): (r: string)
    ensures |r| == if |s| < width then width else |s|
    ensures r[..|s|] == s
    ensures forall i :: |s| <= i < |r| ==> r[i] == ' '
  {
    if |s| < width then s + S.Repeat(' ', width - |s|) else s
  }

  /** The bar itself: `[`, the `=` signs padded to the width, `]`. */
  function Bar(n: int, ntotal: int, width: Option<int>): (r: Result<string>)
    ensures r.Err? <==> ntotal == 0
    ensures r.Ok? ==> |r.value| >= 2 && r.value[0] == '[' && r.value[|r.value| - 1] == ']'
  {
    var fill := BarFill(n, ntotal, width);
    if fill.Err? then Err(fill.error)
    else
      var eq := S.Repeat('=', if fill.value < 0 then 0 else fill.value);
      Ok("[" + LeftJustify(eq, BarWidth(width)) + "]")
  }

  /** Part way through, the bar is exactly as wide as asked, and its first
      `fill` characters are `=` followed by spaces. */
  lemma BarShape(n: int, ntotal: int, width: Option<int>, i: nat)
    requires ntotal > 0 && 0 <= n <= ntotal && BarWidth(width) >= 0
    requires i < BarWidth(width)
    ensures |Bar(n, ntotal, width).value| == BarWidth(width) + 2
    ensures Bar(n, ntotal, width).value[i + 1] == if i < BarFill(n, ntotal, width).value then '=' else ' '
  {
    var fill := BarFill(n, ntotal, width).value;
    var eq := S.Repeat('=', fill);
    var lj := LeftJustify(eq, BarWidth(width));
    assert Bar(n, ntotal, width).value == "[" + lj + "]";
    assert ("[" + lj + "]")[i + 1] == lj[i];
    if i < fill {
      assert lj[..|eq|][i] == eq[i];
    }
  }

  // ---------------------------------------------------------------- class tree

  /** A class and the classes derived directly from it, in definition
      order. */
  datatype Class = Class(name: string, subs: seq<Class>)

  /** `get_all_subclasses`: every class below, each followed by the classes
      below it (depth-first pre-order). */
  function AllSubclasses(c: Class): (r: seq<string>)
    decreases c, 1
  {
    SubclassesOf(c.subs)
  }

  function SubclassesOf(cs: seq<Class>): (r: seq<string>)
    decreases cs, 0
  {
    if |cs| == 0 then [] else [cs[0].name] + AllSubclasses(cs[0]) + SubclassesOf(cs[1..])
  }

  /** The number of classes in a hierarchy, itself included. */
  function Size(c: Class): (n: nat)
    decreases c, 1
  {
    1 + SizeOf(c.subs)
  }

  function SizeOf(cs: seq<Class>): (n: nat)
    decreases cs, 0
  {
    if |cs| == 0 then 0 else Size(cs[0]) + SizeOf(cs[1..])
  }

  /** Every class below is listed exactly once per occurrence: the list is
      as long as the hierarchy without its root. */
  lemma {:induction false} AllSubclassesCount(c: Class)
    ensures |AllSubclasses(c)| == Size(c) - 1
    decreases c, 1
  {
    SubclassesOfCount(c.subs);
  }

  lemma {:induction false} SubclassesOfCount(cs: seq<Class>)
    ensures |SubclassesOf(cs)| == SizeOf(cs)
    decreases cs, 0
  {
    if |cs| > 0 {
      AllSubclassesCount(cs[0]);
      SubclassesOfCount(cs[1..]);
    }
  }

  /** Listing two groups of siblings lists the first group, then the
      second. */
  lemma {:induction false} SubclassesOfAppend(a: seq<Class>, b: seq<Class>)
    ensures SubclassesOf(a + b) == SubclassesOf(a) + SubclassesOf(b)
    decreases |a|
  {
    if |a| == 0 {
      assert a + b == b;
    } else {
      assert (a + b)[0] == a[0];
      assert (a + b)[1..] == a[1..] + b;
      SubclassesOfAppend(a[1..], b);
    }
  }

  /** Pre-order: each direct subclass is immediately followed by the whole
      list of its own subclasses, and comes after those of its earlier
      siblings. */
  lemma PreOrder(c: Class, i: nat)
    requires i < |c.subs|
    ensures var k := |SubclassesOf(c.subs[..i])|;
            var block := [c.subs[i].name] + AllSubclasses(c.subs[i]);
            k + |block| <= |AllSubclasses(c)|
            && AllSubclasses(c)[k..k + |block|] == block
  {
    var cs := c.subs;
    assert cs == cs[..i] + cs[i..];
    SubclassesOfAppend(cs[..i], cs[i..]);
    assert cs[i..][0] == cs[i];
    assert cs[i..][1..] == cs[i + 1..];
    var k := |SubclassesOf(cs[..i])|;
    var block := [cs[i].name] + AllSubclasses(cs[i]);
    assert AllSubclasses(c) == SubclassesOf(cs[..i]) + (block + SubclassesOf(cs[i + 1..]));
  }
}
