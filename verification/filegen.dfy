/** The source-file generator: text snippets for a Python module skeleton
    and the `FileCreator` that gathers the parts of its aspects (imports,
    early functions, classes, functions, whether a main is wanted) and lays
    them out in a fixed order. Writing the file, its permissions, the user
    name, the working directory and the clock are left out: the file
    header is given to `Write` as text. */
module FileGen {
  import opened Wrappers
  import S = Strings
  import P = Properties

  /** The indentation step of generated code (`g_sw`). */
  const IndentWidth := 4

  /** The width of a separator bar, without its `#` and marker. */
  const BarWidth := 78

  /** The marker every separator bar ends with. */
  const BarEnd := "=buf="

  // ---------------------------------------------------------------- snippets

  /** `text_space(n)`: `n` newlines. */
  function TextSpace(n: nat): (r: string)
    ensures |r| == n
    ensures forall i :: 0 <= i < n ==> r[i] == '\n'
  {
    S.Repeat('\n', n)
  }

  /** Two runs of newlines are one longer run. */
  lemma TextSpaceAdd(a: nat, b: nat)
    ensures TextSpace(a) + TextSpace(b) == TextSpace(a + b)
  {
    var l, r := TextSpace(a) + TextSpace(b), TextSpace(a + b);
    assert |l| == |r|;
    forall i | 0 <= i < |l| ensures l[i] == r[i] {
      if i < a { assert l[i] == TextSpace(a)[i]; } else { assert l[i] == TextSpace(b)[i - a]; }
    }
  }

  /** Python's `c * n`: empty for a negative count. */
  function Times(c: char, n: int): (r: string)
    ensures |r| == if n < 0 then 0 else n
    ensures forall i :: 0 <= i < |r| ==> r[i] == c
  {
    if n < 0 then "" else S.Repeat(c, n)
  }

  /** `text_func_line(indent)`: a comment bar of underscores, shortened by
      one indentation step per level; the bar is empty from 20 levels on. */
  function TextFuncLine(indent: int): (r: string)
    ensures var n := BarWidth - indent * IndentWidth;
            |r| == 1 + (if n < 0 then 0 else n) + |BarEnd|
    ensures r[0] == '#' && S.EndsWith(r, BarEnd)
    ensures forall i :: 1 <= i < |r| - |BarEnd| ==> r[i] == '_'
  {
    var bar := Times('_', BarWidth - indent * IndentWidth);
    var r := "#" + bar + BarEnd;
    assert r[|r| - |BarEnd|..] == BarEnd;
    assert forall i :: 1 <= i < |r| - |BarEnd| ==> r[i] == bar[i - 1];
    r
  }

  /** `text_class_line()`: a comment bar of 78 dashes. */
  function TextClassLine(): (r: string)
    ensures |r| == 1 + BarWidth + |BarEnd|
    ensures r[0] == '#' && S.EndsWith(r, BarEnd)
    ensures forall i :: 1 <= i < |r| - |BarEnd| ==> r[i] == '-'
  {
    var bar := S.Repeat('-', BarWidth);
    var r := "#" + bar + BarEnd;
    assert r[|r| - |BarEnd|..] == BarEnd;
    assert forall i :: 1 <= i < |r| - |BarEnd| ==> r[i] == bar[i - 1];
    r
  }

  /** Each indentation level takes one step off a function bar until the
      bar is gone, and a top-level function bar is as wide as a class bar. */
  lemma BarsAlign(indent: nat)
    ensures |TextFuncLine(0)| == |TextClassLine()| == 84
    ensures indent < 19 ==> |TextFuncLine(indent + 1)| + IndentWidth == |TextFuncLine(indent)|
    ensures indent >= 20 ==> TextFuncLine(indent) == "#" + BarEnd
  {
    assert (indent + 1) * IndentWidth == indent * IndentWidth + IndentWidth;
    if indent >= 20 {
      var r := TextFuncLine(indent);
      assert |r| == 1 + |BarEnd|;
      assert r == [r[0]] + r[1..];
      assert r[1..] == BarEnd;
    }
  }

  const TextExec := "#!/usr/bin/env python\n"
  const TextEncoding := "# encoding: utf-8\n"
  const TextModules := "## modules\n"
  const TextEof := "## EOF\n"
  const ClassHeader := "# - - - - - - - - - - - - - - -  class defs - - - - - - - - - - - - - - - - - #\n"
  const FuncHeader := "# - - - - - - - - - - - - - - - function defs - - - - - - - - - - - - - - - - #\n"

  /** The line that ends a function body when `do_pass` is set. */
  const PassLine := "    pass\n"

  /** `text_func(name, argstr, do_pass)`: the bar, the `def` line with the
      arguments (none for a missing `argstr`), a doc string, and `pass`
      when asked. */
  function TextFunc(name: string, argstr: Option<string>, doPass: bool): (r: string)
    ensures S.StartsWith(r, TextFuncLine(0) + "\n")
    ensures S.Contains(r, "def " + name + "(" + (if argstr.Some? then argstr.value else "") + "):\n")
    ensures doPass <==> S.EndsWith(r, PassLine)
  {
    var args := if argstr.Some? then argstr.value else "";
    var head := TextFuncLine(0) + "\n";
    var def := "def " + name + "(" + args + "):\n";
    var doc := "    \"\"\"Description of " + name + "\n" + "    \"\"\"\n";
    var body := head + def + doc;
    S.ContainsInfix(head, def, doc);
    assert body[..|head|] == head;
    assert body[|body| - 2] == '"';
    if doPass then
      var r := body + PassLine;
      assert r[|r| - |PassLine|..] == PassLine;
      assert r[..|head|] == head;
      S.ContainsAppend(body, PassLine, def);
      r
    else
      assert PassLine[|PassLine| - 2] == 's';
      body
  }

  /** A missing argument string is an empty one. */
  lemma TextFuncNoArgs(name: string, doPass: bool)
    ensures TextFunc(name, None, doPass) == TextFunc(name, Some(""), doPass)
  {
  }

  /** `do_pass` appends exactly the `pass` line. */
  lemma TextFuncPass(name: string, argstr: Option<string>)
    ensures TextFunc(name, argstr, true) == TextFunc(name, argstr, false) + PassLine
  {
  }

  /** `text_class(name)`: the bar, the class line, a doc string and an
      `__init__` doing nothing. */
  function TextClass(name: string): (r: string)
    ensures S.StartsWith(r, TextClassLine() + "\n")
    ensures S.Contains(r, "class " + name + "():\n")
  {
    var head := TextClassLine() + "\n";
    var line := "class " + name + "():\n";
    var rest := "    \"\"\"Description of " + name + "\n" + "    \"\"\"\n"
                + "    " + TextFuncLine(1) + "\n" + "    def __init__(self):\n" + "        pass";
    var r := head + line + rest;
    assert r[..|head|] == head;
    S.ContainsInfix(head, line, rest);
    r
  }

  /** The body of the generated `parse_args`: an `argparse` parser with
      commented-out example arguments, returning the parsed arguments. */
  const ParserBody :=
    "    description=\"my awesome commandline util\"\n"
    + "    parser = argparse.ArgumentParser(description=description)\n\n"
    + "    ## Define the Module\n"
    + "    # example mandatory positional argument\n"
    + "    #parser.add_argument( \"infile\", help=\"input file\" )\n"
    + "    # example option\n"
    + "    #parser.add_argument( \"-f\", \"--file\", dest=\"out_file\", default=\"ntup.root\",\n"
    + "    #    metavar=\"FILE\", help=\"output file name (default: ntup.root)\" )\n\n"
    + "    ## parser args\n"
    + "    args = parser.parse_args()\n\n"
    + "    ## check args\n"
    + "    #if len(args)<1:\n"
    + "    #    print(\"ERROR - must supply ARG1\"\n)"
    + "    #    parser.print_help()\n"
    + "    #    exit(1)\n\n"
    + "    return args\n"

  /** `text_parser()`: the argument-parsing function skeleton. */
  function TextParser(): (r: string)
    ensures S.StartsWith(r, TextFuncLine(0) + "\n" + "def parse_args():\n")
  {
    var head := TextFuncLine(0) + "\n" + "def parse_args():\n";
    var r := head + ParserBody;
    assert r[..|head|] == head;
    r
  }

  /** `text_main()`: a `main` function without `pass` that parses the
      arguments and exits. */
  function TextMain(): (r: string)
    ensures S.StartsWith(r, TextFunc("main", None, false))
    ensures !S.StartsWith(r, TextFunc("main", None, true))
  {
    var head := TextFunc("main", None, false);
    var tail := "    args = parse_args()\n" + "\n" + "    ## your script goes here\n" + "\n" + "    exit(0)\n";
    TextFuncPass("main", None);
    assert tail[4] == 'a' && PassLine[4] == 'p';
    ForkAfter(head, tail, PassLine, 4);
    head + tail
  }

  /** Text that continues a common head differently from `p` starts with the
      head but not with the head followed by `p`. */
  lemma ForkAfter(head: string, tail: string, p: string, i: nat)
    requires i < |tail| && i < |p| && tail[i] != p[i]
    ensures S.StartsWith(head + tail, head) && !S.StartsWith(head + tail, head + p)
  {
    var r := head + tail;
    assert r[..|head|] == head;
    assert r[|head| + i] == tail[i];
    assert (head + p)[|head| + i] == p[i];
  }

  /** `text_main_if()`: the bar and the guard that calls `main`. */
  function TextMainIf(): (r: string)
    ensures S.EndsWith(r, "main()\n")
  {
    var r := TextFuncLine(0) + "\n" + "if __name__==\"__main__\": main()\n";
    assert r[|r| - 7..] == "main()\n";
    r
  }

  /** The package path of the new file: each directory of the working
      directory (outermost first) whose level holds an `__init__.py`, where
      `inits` holds the levels, counted upwards from the working directory
      itself (0), that do. */
  function ModulePath(dirs: seq<string>, inits: set<nat>): (r: seq<string>)
    ensures |r| <= |dirs|
    ensures forall x :: x in r ==> x in dirs
  {
    if |dirs| == 0 then []
    else
      var rest := ModulePath(dirs[..|dirs| - 1], set i | i in inits && i > 0 :: i - 1);
      if 0 in inits then rest + [dirs[|dirs| - 1]] else rest
  }

  /** When every level is a package, the whole directory path is kept. */
  lemma {:induction false} ModulePathAll(dirs: seq<string>, inits: set<nat>)
    requires forall i :: 0 <= i < |dirs| ==> i in inits
    ensures ModulePath(dirs, inits) == dirs
    decreases |dirs|
  {
    if |dirs| > 0 {
      var up := set i | i in inits && i > 0 :: i - 1;
      forall i | 0 <= i < |dirs| - 1 ensures i in up {
        assert i + 1 in inits;
      }
      ModulePathAll(dirs[..|dirs| - 1], up);
      assert dirs == dirs[..|dirs| - 1] + [dirs[|dirs| - 1]];
    }
  }

  /** A working directory holding an `__init__.py` ends the path with its
      own name; one without has the path its parent directory would have. */
  lemma ModulePathLast(dirs: seq<string>, inits: set<nat>)
    requires |dirs| > 0
    ensures 0 in inits ==> (|ModulePath(dirs, inits)| > 0
              && ModulePath(dirs, inits)[|ModulePath(dirs, inits)| - 1] == dirs[|dirs| - 1])
    ensures 0 !in inits ==> ModulePath(dirs, inits) == ModulePath(dirs[..|dirs| - 1], set i | i in inits && i > 0 :: i - 1)
  {
  }

  /** `text_description`: the module doc string naming the dotted module
      path, underlined to its length, and the author lines; the email line
      only when an email is known. The author default (the login name) and
      the dates are given. */
  function Description(modules: seq<string>, filename: string, author: string,
                       email: Option<string>, date: string, year: string): (r: string)
    ensures var name := S.Join(".", modules + [filename]);
            S.StartsWith(r, "\"\"\"\n" + name + "\n" + S.Repeat('~', |name|) + "\n")
  {
    var name := S.Join(".", modules + [filename]);
    var head := "\"\"\"\n" + name + "\n" + S.Repeat('~', |name|) + "\n";
    var rest := "\n" + "<Description of module goes here...>\n" + "\n" + "\"\"\"\n"
      + "__author__    = \"" + author + "\"\n"
      + (if email.Some? && email.value != "" then "__email__     = \"" + email.value + "\"\n" else "")
      + "__created__   = \"" + date + "\"\n"
      + "__copyright__ = \"Copyright " + year + " " + author + "\"\n"
      + "__license__   = \"GPL http://www.gnu.org/licenses/gpl.html\"\n"
      + "\n";
    StartsWithAppend(head, rest);
    head + rest
  }

  // ---------------------------------------------------------------- aspects

  /** An `AspectBase`: the parts one feature adds to the file. */
  datatype Aspect = Aspect(imports: seq<string>, prefunctions: seq<string>,
                           classes: seq<string>, functions: seq<string>, doMain: bool)

  /** `x if x else []`: a missing part is an empty one. */
  function OrEmpty(x: Option<seq<string>>): (r: seq<string>)
    ensures x.Some? ==> r == x.value
    ensures x.None? ==> r == []
  {
    if x.Some? then x.value else []
  }

  /** `AspectBase(...)`: every part not given is empty. */
  function NewAspect(imports: Option<seq<string>>, prefunctions: Option<seq<string>>,
                     classes: Option<seq<string>>, functions: Option<seq<string>>,
                     doMain: bool): (r: Aspect)
    ensures r.doMain == doMain
    ensures imports.None? ==> r.imports == []
    ensures prefunctions.None? ==> r.prefunctions == []
    ensures classes.None? ==> r.classes == []
    ensures functions.None? ==> r.functions == []
    ensures imports.Some? ==> r.imports == imports.value
    ensures prefunctions.Some? ==> r.prefunctions == prefunctions.value
    ensures classes.Some? ==> r.classes == classes.value
    ensures functions.Some? ==> r.functions == functions.value
  {
    Aspect(OrEmpty(imports), OrEmpty(prefunctions), OrEmpty(classes), OrEmpty(functions), doMain)
  }

  /** The bare `AspectBase()` adds nothing. */
  lemma EmptyAspect()
    ensures NewAspect(None, None, None, None, false) == Aspect([], [], [], [], false)
  {
  }

  /** The `Main` aspect: `argparse` and `sys`, the parser and `main`, and
      the main guard. */
  function MainAspect(): (r: Aspect)
    ensures r.doMain && r.imports == ["argparse", "sys"]
    ensures r.classes == [] && r.functions == []
  {
    Aspect(["argparse", "sys"], [TextParser(), TextMain()], [], [], true)
  }

  /** The `Class` aspect: one class skeleton. */
  function ClassAspect(name: string): (r: Aspect)
    ensures !r.doMain && r.imports == [] && r.prefunctions == [] && r.functions == []
    ensures |r.classes| == 1 && S.Contains(r.classes[0], "class " + name + "():\n")
  {
    Aspect([], [], [TextClass(name)], [], false)
  }

  /** The `Function` aspect: one function skeleton ending in `pass`. */
  function FunctionAspect(name: string, argstr: Option<string>): (r: Aspect)
    ensures !r.doMain && r.imports == [] && r.prefunctions == [] && r.classes == []
    ensures |r.functions| == 1 && S.EndsWith(r.functions[0], PassLine)
  {
    Aspect([], [], [], [TextFunc(name, argstr, true)], false)
  }

  // ---------------------------------------------------------------- the file

  /** Which part of the aspects is gathered. */
  datatype Part = Imports | Prefunctions | Classes | Functions

  function PartOf(a: Aspect, p: Part): seq<string> {
    match p
    case Imports => a.imports
    case Prefunctions => a.prefunctions
    case Classes => a.classes
    case Functions => a.functions
  }

  /** One part of all aspects, aspect by aspect and in each aspect's order
      (the nested comprehensions of `write`). */
  function Gather(aspects: seq<Aspect>, p: Part): (r: seq<string>)
    ensures |aspects| == 0 ==> r == []
  {
    if |aspects| == 0 then [] else PartOf(aspects[0], p) + Gather(aspects[1..], p)
  }

  /** Gathering is compatible with adding aspects: a later aspect's items
      come after all earlier ones. */
  lemma {:induction false} GatherAppend(a: seq<Aspect>, b: seq<Aspect>, p: Part)
    ensures Gather(a + b, p) == Gather(a, p) + Gather(b, p)
    decreases |a|
  {
    if |a| > 0 {
      assert (a + b)[1..] == a[1..] + b;
      GatherAppend(a[1..], b, p);
    } else {
      assert a + b == b;
    }
  }

  /** An item is gathered exactly when some aspect holds it. */
  lemma {:induction false} GatherHas(aspects: seq<Aspect>, p: Part, x: string)
    ensures x in Gather(aspects, p) <==> exists i :: 0 <= i < |aspects| && x in PartOf(aspects[i], p)
    decreases |aspects|
  {
    if |aspects| > 0 {
      GatherHas(aspects[1..], p, x);
      if x in Gather(aspects[1..], p) {
        var i :| 0 <= i < |aspects[1..]| && x in PartOf(aspects[1..][i], p);
        assert x in PartOf(aspects[i + 1], p);
      }
      if exists i :: 0 <= i < |aspects| && x in PartOf(aspects[i], p) {
        var i :| 0 <= i < |aspects| && x in PartOf(aspects[i], p);
        if i > 0 { assert aspects[1..][i - 1] == aspects[i]; }
      }
    }
  }

  /** `True in [a.do_main for a in aspects]`. */
  predicate WantsMain(aspects: seq<Aspect>) {
    exists i :: 0 <= i < |aspects| && aspects[i].doMain
  }

  /** Each item wrapped in a prefix and a suffix, in order. */
  function Each(items: seq<string>, pre: string, post: string): (r: string)
    ensures |items| == 0 ==> r == ""
  {
    if |items| == 0 then "" else pre + items[0] + post + Each(items[1..], pre, post)
  }

  /** Every item appears wrapped in the text. */
  lemma {:induction false} EachHas(items: seq<string>, pre: string, post: string, i: nat)
    requires i < |items|
    ensures S.Contains(Each(items, pre, post), pre + items[i] + post)
    decreases i
  {
    var rest := Each(items[1..], pre, post);
    if i == 0 {
      S.ContainsInfix("", pre + items[0] + post, rest);
      assert "" + (pre + items[0] + post) + rest == Each(items, pre, post);
    } else {
      EachHas(items[1..], pre, post, i - 1);
      S.ContainsExtend(pre + items[0] + post, rest, pre + items[i] + post);
    }
  }

  /** A section: nothing when empty, else a gap, its header and its blocks
      each followed by a gap. */
  function Section(header: string, blocks: seq<string>): (r: string)
    ensures |blocks| == 0 <==> r == ""
  {
    if |blocks| == 0 then "" else TextSpace(2) + header + Each(blocks, "", TextSpace(2))
  }

  /** The text from the encoding line to the last function. */
  function Top(aspects: seq<Aspect>, header: string): (r: string)
    ensures S.StartsWith(r, TextEncoding)
  {
    var r := TextEncoding + Preamble(header) + Each(Gather(aspects, Imports), "import ", "\n")
             + Sections(aspects);
    assert r[..|TextEncoding|] == TextEncoding;
    r
  }

  /** The header and the modules comment. */
  function Preamble(header: string): string {
    header + TextSpace(2) + TextModules
  }

  /** The early functions, the classes and the functions. */
  function Sections(aspects: seq<Aspect>): string {
    Section("", Gather(aspects, Prefunctions))
    + Section(ClassHeader, Gather(aspects, Classes))
    + Section(FuncHeader, Gather(aspects, Functions))
  }

  /** `FileCreator.write`: the shebang when some aspect wants a main, the
      encoding line and header, the imports, then the early functions,
      classes and functions, the main guard when wanted, and the end mark.
      `header` stands for `text_description`, which reads the user, the
      working directory and the clock. */
  function Write(aspects: seq<Aspect>, header: string): (r: string)
    ensures WantsMain(aspects) <==> S.StartsWith(r, TextExec)
    ensures S.EndsWith(r, TextEof)
    ensures WantsMain(aspects) ==> S.EndsWith(r, TextMainIf() + TextEof)
  {
    var main := WantsMain(aspects);
    var top := Top(aspects, header);
    Layout(main, top);
    Shebang(main) + top + Guard(main) + TextEof
  }

  /** The shebang and the guard frame any text that opens with the
      encoding line. */
  lemma Layout(main: bool, top: string)
    requires S.StartsWith(top, TextEncoding)
    ensures var r := Shebang(main) + top + Guard(main) + TextEof;
            (main <==> S.StartsWith(r, TextExec))
            && S.EndsWith(r, TextEof)
            && (main ==> S.EndsWith(r, TextMainIf() + TextEof))
  {
    var r := Shebang(main) + top + Guard(main) + TextEof;
    EndsWithAppend(Shebang(main) + top + Guard(main), TextEof);
    if main {
      assert r == TextExec + (top + Guard(main) + TextEof);
      StartsWithAppend(TextExec, top + Guard(main) + TextEof);
      assert r == (TextExec + top + TextSpace(2)) + (TextMainIf() + TextEof);
      EndsWithAppend(TextExec + top + TextSpace(2), TextMainIf() + TextEof);
    } else {
      assert r == top + (Guard(main) + TextEof);
      assert r[1] == top[1] == TextEncoding[1];
    }
  }

  /** The shebang line, for a script. */
  function Shebang(main: bool): string {
    if main then TextExec else ""
  }

  /** The gap and the guard that runs `main`, for a script. */
  function Guard(main: bool): string {
    if main then TextSpace(2) + TextMainIf() else ""
  }

  lemma StartsWithAppend(a: string, b: string)
    ensures S.StartsWith(a + b, a)
  {
    assert (a + b)[..|a|] == a;
  }

  lemma EndsWithAppend(a: string, b: string)
    ensures S.EndsWith(a + b, b)
  {
    assert (a + b)[|a|..] == b;
  }

  /** Every import of every aspect gets its own `import` line. */
  lemma ImportWritten(aspects: seq<Aspect>, header: string, i: nat, j: nat)
    requires i < |aspects| && j < |aspects[i].imports|
    ensures S.Contains(Write(aspects, header), "import " + aspects[i].imports[j] + "\n")
  {
    var m := aspects[i].imports[j];
    var all := Gather(aspects, Imports);
    GatherHas(aspects, Imports, m);
    assert m in PartOf(aspects[i], Imports);
    var k :| 0 <= k < |all| && all[k] == m;
    EachHas(all, "import ", "\n", k);
    WriteImports(aspects, header);
    var main := WantsMain(aspects);
    ContainsMiddle(Shebang(main) + TextEncoding + Preamble(header), Each(all, "import ", "\n"),
                   Sections(aspects) + Guard(main) + TextEof, "import " + m + "\n");
  }

  /** Where the import lines sit in the file. */
  lemma WriteImports(aspects: seq<Aspect>, header: string)
    ensures var main := WantsMain(aspects);
            Write(aspects, header)
            == (Shebang(main) + TextEncoding + Preamble(header))
               + Each(Gather(aspects, Imports), "import ", "\n")
               + (Sections(aspects) + Guard(main) + TextEof)
  {
    var main := WantsMain(aspects);
    var a, b, c, d := Shebang(main), TextEncoding, Preamble(header), Each(Gather(aspects, Imports), "import ", "\n");
    var e, f, g := Sections(aspects), Guard(main), TextEof;
    assert Top(aspects, header) == b + c + d + e;
    assert Write(aspects, header) == a + (b + c + d + e) + f + g;
    Regroup(a, b, c, d, e, f, g);
  }

  lemma Regroup(a: string, b: string, c: string, d: string, e: string, f: string, g: string)
    ensures a + (b + c + d + e) + f + g == (a + b + c) + d + (e + f + g)
  {
  }

  lemma ContainsMiddle(pre: string, mid: string, post: string, sub: string)
    requires S.Contains(mid, sub)
    ensures S.Contains(pre + mid + post, sub)
  {
    S.ContainsExtend(pre, mid, sub);
    S.ContainsAppend(pre + mid, post, sub);
  }

  // ---------------------------------------------------------------- the creator

  /** A `FileCreator`: the output name, the aspects added so far and the
      author details for the header. */
  datatype Creator = Creator(filename: string, aspects: seq<Aspect>, author: string, email: string)

  /** The user-property keys asked for a missing author or email. */
  const NameKey := "User Name (First Last)"
  const EmailKey := "email"

  /** Python's `x or y` for an optional string: a missing or empty `x`
      gives way. */
  function OrElse(x: Option<string>, y: string): (r: string)
    ensures x.Some? && x.value != "" ==> r == x.value
    ensures x.None? || x.value == "" ==> r == y
  {
    if x.Some? && x.value != "" then x.value else y
  }

  /** `FileCreator(filename, author, email)`: a missing author or email is
      taken from the user's properties, asking the user (whose answers are
      given) when the properties lack it; the properties as they are then
      left (and written back) come second. */
  function NewCreator(filename: string, author: Option<string>, email: Option<string>,
                      props: P.Data, nameAnswer: string, emailAnswer: string): (r: (Creator, P.Data))
    ensures r.0.filename == filename && r.0.aspects == []
    ensures author.Some? && author.value != "" ==> r.0.author == author.value
    ensures email.Some? && email.value != "" ==> r.0.email == email.value
    ensures props.Keys <= r.1.Keys
    ensures (author.None? || author.value == "") ==> P.GetProperty(r.1, NameKey) == Some(r.0.author)
    ensures (email.None? || email.value == "") ==> P.GetProperty(r.1, EmailKey) == Some(r.0.email)
  {
    var given := author.Some? && author.value != "";
    var (a, p1) := if given then (author.value, props) else P.GetOrPrompt(props, NameKey, nameAnswer);
    var (e, p2) := if email.Some? && email.value != "" then (email.value, p1)
                   else P.GetOrPrompt(p1, EmailKey, emailAnswer);
    assert !given ==> P.GetProperty(p2, NameKey) == Some(a);
    (Creator(filename, [], a, e), p2)
  }

  /** `add`: one more aspect, last. */
  function Add(c: Creator, a: Aspect): (r: Creator)
    ensures r.filename == c.filename && r.author == c.author && r.email == c.email
    ensures |r.aspects| == |c.aspects| + 1 && r.aspects[|c.aspects|] == a
  {
    c.(aspects := c.aspects + [a])
  }

  /** What a new aspect brings is written after everything added before,
      part by part. */
  lemma AddGathersLast(c: Creator, a: Aspect, p: Part)
    ensures Gather(Add(c, a).aspects, p) == Gather(c.aspects, p) + PartOf(a, p)
  {
    GatherAppend(c.aspects, [a], p);
    assert Gather([a], p) == PartOf(a, p) + Gather([], p);
  }

  /** Adding the `Main` aspect to any file makes it a script. */
  lemma MainMakesScript(aspects: seq<Aspect>, header: string)
    ensures S.StartsWith(Write(aspects + [MainAspect()], header), TextExec)
  {
    var all := aspects + [MainAspect()];
    assert all[|aspects|].doMain;
  }

  /** Without the `Main` aspect or any other asking for it, no shebang. */
  lemma PlainModule(aspects: seq<Aspect>, header: string)
    requires forall i :: 0 <= i < |aspects| ==> !aspects[i].doMain
    ensures !S.StartsWith(Write(aspects, header), TextExec)
  {
  }
}
