/** Styles for ROOT objects (`Style`): construction defaults, the style
    keywords that become attributes, and the right-biased `+` merge.
    Applying a style to a ROOT object is not part of this model. */
module Styles {
  import opened Wrappers

  /** The values style keywords take (colours, widths, option strings). */
  datatype Value = Int(i: int) | Real(r: real) | Str(s: string) | Null

  /** The named constructor arguments; keyword arguments cannot reuse them. */
  const Reserved: set<string> := {"name", "tlatex", "drawopt", "stylekw"}

  datatype Style = Style(
    name: Option<string>,
    tlatex: Option<string>,
    drawopt: Option<string>,
    stylekw: map<string, Value>)

  predicate Falsy(s: Option<string>) {
    s.None? || s.value == ""
  }

  function OptValue(s: Option<string>): Value {
    if s.Some? then Str(s.value) else Null
  }

  /** What every constructed style satisfies: a line width, no reserved
      keyword, and a missing latex name only when the name is missing too. */
  predicate WellFormed(st: Style) {
    "LineWidth" in st.stylekw
    && (forall k :: k in st.stylekw ==> k !in Reserved)
    && (Falsy(st.tlatex) ==> st.tlatex == st.name)
  }

  /** `Style(name, tlatex, drawopt, **stylekw)`: the latex name defaults to
      the name and the line width to 2. */
  function NewStyle(name: Option<string>, tlatex: Option<string>, drawopt: Option<string>,
                    kw: map<string, Value>): (st: Style)
    requires forall k :: k in kw ==> k !in Reserved
    ensures WellFormed(st)
    ensures Falsy(tlatex) ==> st.tlatex == name
    ensures !Falsy(tlatex) ==> st.tlatex == tlatex
    ensures "LineWidth" !in kw ==> st.stylekw["LineWidth"] == Int(2)
    ensures st.stylekw.Keys == kw.Keys + {"LineWidth"}
    ensures forall k :: k in kw ==> st.stylekw[k] == kw[k]
    ensures st.name == name && st.drawopt == drawopt
  {
    Style(name, if Falsy(tlatex) then name else tlatex, drawopt,
          if "LineWidth" in kw then kw else kw["LineWidth" := Int(2)])
  }

  /** The style's attributes (`__dict__` without `stylekw`): the three named
      fields and every keyword. */
  function Attrs(st: Style): (m: map<string, Value>)
  {
    st.stylekw["name" := OptValue(st.name)]["tlatex" := OptValue(st.tlatex)]["drawopt" := OptValue(st.drawopt)]
  }

  /** Every keyword becomes an attribute with its value. */
  lemma KeywordsAreAttrs(name: Option<string>, tlatex: Option<string>, drawopt: Option<string>,
                         kw: map<string, Value>, k: string)
    requires forall k :: k in kw ==> k !in Reserved
    requires k in kw
    ensures k in Attrs(NewStyle(name, tlatex, drawopt, kw))
    ensures Attrs(NewStyle(name, tlatex, drawopt, kw))[k] == kw[k]
  {
  }

  /** `a + b`: rebuild a style from a's attributes updated by b's. The named
      fields therefore always come from `b`, even when b's are unset. */
  function Add(a: Style, b: Style): (r: Style)
    requires WellFormed(a) && WellFormed(b)
    ensures WellFormed(r)
  {
    NewStyle(b.name, b.tlatex, b.drawopt, a.stylekw + b.stylekw)
  }

  /** Keywords of `b` win, keywords only in `a` are kept, nothing else is
      added. */
  lemma AddRightBiased(a: Style, b: Style, k: string)
    requires WellFormed(a) && WellFormed(b)
    ensures Add(a, b).stylekw.Keys == a.stylekw.Keys + b.stylekw.Keys
    ensures k in b.stylekw ==> Add(a, b).stylekw[k] == b.stylekw[k]
    ensures k in a.stylekw && k !in b.stylekw ==> Add(a, b).stylekw[k] == a.stylekw[k]
    ensures Add(a, b).name == b.name && Add(a, b).tlatex == b.tlatex && Add(a, b).drawopt == b.drawopt
  {
  }

  /** Adding a style to itself gives it back. */
  lemma AddIdempotent(a: Style)
    requires WellFormed(a)
    ensures Add(a, a) == a
  {
    assert a.stylekw + a.stylekw == a.stylekw;
  }

  /** `+` is associative. */
  lemma AddAssociative(a: Style, b: Style, c: Style)
    requires WellFormed(a) && WellFormed(b) && WellFormed(c)
    ensures Add(Add(a, b), c) == Add(a, Add(b, c))
  {
    assert (a.stylekw + b.stylekw) + c.stylekw == a.stylekw + (b.stylekw + c.stylekw);
  }

  /** `default_style()`. */
  function DefaultStyle(): (st: Style)
    ensures WellFormed(st) && st.name == Some("Default") && st.tlatex == Some("Default")
    ensures st.stylekw == map["LineColor" := Int(1), "MarkerColor" := Int(1), "MarkerStyle" := Int(20), "LineWidth" := Int(2)]
  {
    NewStyle(Some("Default"), None, None, map["LineColor" := Int(1), "MarkerColor" := Int(1), "MarkerStyle" := Int(20)])
  }
}
