/**
 * The version map script: a line-driven parser for linker version scripts and a printer that writes
 * all stable functions under one ABI version, and the experimental and internal sections as they were.
 */
module VersionMap {
  import opened Scanning
  import opened MapLines

  // ----- parsing -----

  datatype Parsed = Parsed(inExperimental: bool, inInternal: bool, hasStable: bool,
                           stable: set<string>, experimental: seq<string>, internal: seq<string>)

  const NOTHING := Parsed(false, false, false, {}, [], [])

  function ParseLine(p: Parsed, raw: string): Parsed {
    var line := Strip(raw);
    if IsEnd(line) then p.(inExperimental := false, inInternal := false)
    else if p.inExperimental then p.(experimental := p.experimental + [line])
    else if p.inInternal then p.(internal := p.internal + [line])
    else if line == "" then p
    else if IsBegin(line) then
      var e, i := Version(line) == "EXPERIMENTAL", Version(line) == "INTERNAL";
      p.(inExperimental := e, inInternal := i, hasStable := p.hasStable || (!e && !i))
    else if IsFunc(line) then p.(stable := p.stable + {line})
    else p
  }

  function ParseFrom(p: Parsed, lines: seq<string>): Parsed
    decreases |lines|
  {
    if lines == [] then p else ParseFrom(ParseLine(p, lines[0]), lines[1..])
  }

  function Parse(lines: seq<string>): Parsed {
    ParseFrom(NOTHING, lines)
  }

  lemma {:induction false} ParseAppend(p: Parsed, a: seq<string>, b: seq<string>)
    ensures ParseFrom(p, a + b) == ParseFrom(ParseFrom(p, a), b)
    decreases |a|
  {
    if a == [] {
      assert a + b == b;
    } else {
      assert (a + b)[1..] == a[1..] + b;
      ParseAppend(ParseLine(p, a[0]), a[1..], b);
    }
  }

  lemma ParseOne(p: Parsed, line: string)
    ensures ParseFrom(p, [line]) == ParseLine(p, line)
  {
    assert ParseFrom(ParseLine(p, line), [line][1..]) == ParseLine(p, line);
  }

  /** The parser, one pass over the lines. */
  method ParseMapFile(lines: seq<string>)
      returns (hasStable: bool, stable: set<string>, experimental: seq<string>, internal: seq<string>)
    ensures var p := Parse(lines);
            hasStable == p.hasStable && stable == p.stable && experimental == p.experimental && internal == p.internal
  {
    stable, experimental, internal, hasStable := {}, [], [], false;
    var inExperimental, inInternal := false, false;
    for i := 0 to |lines|
      invariant Parsed(inExperimental, inInternal, hasStable, stable, experimental, internal) == Parse(lines[..i])
    {
      ParseAppend(NOTHING, lines[..i], [lines[i]]);
      ParseOne(Parse(lines[..i]), lines[i]);
      assert lines[..i + 1] == lines[..i] + [lines[i]];
      var line := Strip(lines[i]);
      if IsEnd(line) {
        inExperimental, inInternal := false, false;
        continue;
      }
      if inExperimental {
        experimental := experimental + [line];
        continue;
      }
      if inInternal {
        internal := internal + [line];
        continue;
      }
      if line == "" {
        continue;
      }
      if IsBegin(line) {
        var current := Version(line);
        inExperimental := current == "EXPERIMENTAL";
        inInternal := current == "INTERNAL";
        if !inExperimental && !inInternal {
          hasStable := true;
        }
        continue;
      }
      if IsFunc(line) {
        stable := stable + {line};
      }
    }
    assert lines[..|lines|] == lines;
  }

  // ----- what the parser finds, stated by the position of each line -----

  datatype Section = Other | Experimental | Internal

  function SectionNamed(name: string): Section {
    if name == "EXPERIMENTAL" then Experimental else if name == "INTERNAL" then Internal else Other
  }

  /** The section that line `i` is in: sections do not nest, and end at the next section end. */
  function SectionAt(lines: seq<string>, i: nat): Section
    requires i <= |lines|
  {
    if i == 0 then Other
    else
      var line := Strip(lines[i - 1]);
      if IsEnd(line) then Other
      else if SectionAt(lines, i - 1) != Other then SectionAt(lines, i - 1)
      else if IsBegin(line) then SectionNamed(Version(line))
      else Other
  }

  /** The stripped lines of the sections of one kind, in order. */
  function Copied(lines: seq<string>, n: nat, s: Section): seq<string>
    requires n <= |lines|
  {
    if n == 0 then []
    else Copied(lines, n - 1, s) + CopiedLine(lines, n - 1, s)
  }

  predicate StableFunction(lines: seq<string>, i: nat)
    requires i < |lines|
  {
    SectionAt(lines, i) == Other && IsFunc(Strip(lines[i]))
  }

  predicate StableSection(lines: seq<string>, i: nat)
    requires i < |lines|
  {
    SectionAt(lines, i) == Other && IsBegin(Strip(lines[i])) && SectionNamed(Version(Strip(lines[i]))) == Other
  }

  function CopiedLine(lines: seq<string>, i: nat, s: Section): seq<string>
    requires i < |lines|
  {
    if SectionAt(lines, i) == s && !IsEnd(Strip(lines[i])) then [Strip(lines[i])] else []
  }

  lemma LineFinds(before: Parsed, lines: seq<string>, i: nat)
    requires i < |lines|
    requires before.inExperimental == (SectionAt(lines, i) == Experimental)
             && before.inInternal == (SectionAt(lines, i) == Internal)
    ensures var p, s := ParseLine(before, lines[i]), SectionAt(lines, i + 1);
            && p.inExperimental == (s == Experimental) && p.inInternal == (s == Internal)
            && p.hasStable == (before.hasStable || StableSection(lines, i))
            && p.stable == before.stable + (if StableFunction(lines, i) then {Strip(lines[i])} else {})
            && p.experimental == before.experimental + CopiedLine(lines, i, Experimental)
            && p.internal == before.internal + CopiedLine(lines, i, Internal)
  {
    Exclusive(Strip(lines[i]));
    EmptyLine();
    hide IsEnd, IsBegin, IsFunc, Strip, Version;
  }

  /** The parser's result, line by line of the input. */
  lemma {:induction false} ParseFinds(lines: seq<string>, n: nat)
    requires n <= |lines|
    ensures var p := Parse(lines[..n]);
            && p.inExperimental == (SectionAt(lines, n) == Experimental)
                 && p.inInternal == (SectionAt(lines, n) == Internal)
            && (p.hasStable <==> exists i :: 0 <= i < n && StableSection(lines, i))
            && (forall f :: f in p.stable <==>
                 exists i :: 0 <= i < n && StableFunction(lines, i) && f == Strip(lines[i]))
            && p.experimental == Copied(lines, n, Experimental) && p.internal == Copied(lines, n, Internal)
    decreases n
  {
    hide ParseLine, IsEnd, IsBegin, IsFunc, Strip, Version, StableSection, StableFunction, CopiedLine;
    if n > 0 {
      ParseFinds(lines, n - 1);
      var before, p := Parse(lines[..n - 1]), Parse(lines[..n]);
      assert lines[..n] == lines[..n - 1] + [lines[n - 1]];
      ParseAppend(NOTHING, lines[..n - 1], [lines[n - 1]]);
      ParseOne(before, lines[n - 1]);
      LineFinds(before, lines, n - 1);
    }
  }

  lemma EmptyLine()
    ensures !IsEnd("") && !IsBegin("") && !IsFunc("")
  {
    EndUnrolled("");
    BeginUnrolled("");
    FuncUnrolled("");
  }

  // ----- sorting -----

  /** Order by code point, as for Python strings. */
  predicate Before(a: string, b: string) {
    b != "" && (a == "" || a[0] < b[0] || (a[0] == b[0] && Before(a[1..], b[1..])))
  }

  lemma {:induction false} BeforeTotal(a: string, b: string)
    ensures a == b || Before(a, b) || Before(b, a)
    ensures !(Before(a, b) && (a == b || Before(b, a)))
  {
    if a != "" && b != "" && a[0] == b[0] {
      BeforeTotal(a[1..], b[1..]);
      assert a == [a[0]] + a[1..] && b == [b[0]] + b[1..];
    }
  }

  lemma {:induction false} BeforeTransitive(a: string, b: string, c: string)
    requires Before(a, b) && Before(b, c)
    ensures Before(a, c)
  {
    if a != "" && a[0] == b[0] && b[0] == c[0] {
      BeforeTransitive(a[1..], b[1..], c[1..]);
    }
  }

  ghost predicate Least(m: string, s: set<string>) {
    m in s && forall x | x in s :: x == m || Before(m, x)
  }

  lemma {:induction false} LeastExists(s: set<string>)
    requires s != {}
    ensures exists m :: Least(m, s)
    decreases |s|
  {
    var x :| x in s;
    if s == {x} {
      assert Least(x, s);
    } else {
      LeastExists(s - {x});
      var rest :| Least(rest, s - {x});
      BeforeTotal(x, rest);
      if Before(x, rest) {
        forall y | y in s && y != x && y != rest ensures Before(x, y) {
          BeforeTransitive(x, rest, y);
        }
        assert Least(x, s);
      } else {
        assert Least(rest, s);
      }
    }
  }

  lemma LeastUnique(a: string, b: string, s: set<string>)
    requires Least(a, s) && Least(b, s)
    ensures a == b
  {
    BeforeTotal(a, b);
  }

  /** `sorted` on a set */
  ghost function SortedOf(s: set<string>): seq<string>
    decreases |s|
  {
    if s == {} then []
    else
      LeastExists(s);
      var m :| Least(m, s);
      [m] + SortedOf(s - {m})
  }

  ghost predicate Ascending(q: seq<string>) {
    forall i, j | 0 <= i < j < |q| :: Before(q[i], q[j])
  }

  lemma SortedHead(s: set<string>)
    requires s != {}
    ensures SortedOf(s) != [] && Least(SortedOf(s)[0], s)
            && SortedOf(s) == [SortedOf(s)[0]] + SortedOf(s - {SortedOf(s)[0]})
  {
    LeastExists(s);
  }

  /** Every line exactly once, in order. */
  lemma {:induction false} SortedAscends(s: set<string>)
    ensures Ascending(SortedOf(s)) && forall x :: x in SortedOf(s) <==> x in s
    decreases |s|
  {
    if s != {} {
      SortedHead(s);
      var m, r := SortedOf(s)[0], SortedOf(s);
      var q := SortedOf(s - {m});
      SortedAscends(s - {m});
      hide SortedOf, Before;
      assert r == [m] + q;
      forall i, j | 0 <= i < j < |r| ensures Before(r[i], r[j]) {
        assert r[j] == q[j - 1] && q[j - 1] in q;
      }
      forall x ensures x in r <==> x in s {
        assert x in r <==> x == m || x in q;
      }
    }
  }

  method Sorted(lines: set<string>) returns (q: seq<string>)
    ensures q == SortedOf(lines)
  {
    var rest := lines;
    q := [];
    while rest != {}
      invariant q + SortedOf(rest) == SortedOf(lines)
      decreases |rest|
    {
      var m := PickLeast(rest);
      ghost var first := SortedOf(rest)[0];
      SortedHead(rest);
      LeastUnique(first, m, rest);
      assert q + SortedOf(rest) == (q + [m]) + SortedOf(rest - {m});
      q, rest := q + [m], rest - {m};
    }
  }

  method PickLeast(s: set<string>) returns (m: string)
    requires s != {}
    ensures Least(m, s)
  {
    m :| m in s;
    var rest := s - {m};
    while rest != {}
      invariant rest <= s && m in s && forall x | x in s - rest :: x == m || Before(m, x)
      decreases |rest|
    {
      var x :| x in rest;
      BeforeTotal(x, m);
      if Before(x, m) {
        forall y | y in s - rest && y != m ensures Before(x, y) {
          BeforeTransitive(x, m, y);
        }
        m := x;
      }
      rest := rest - {x};
    }
  }

  // ----- printing -----

  function Tabbed(lines: seq<string>): seq<string> {
    seq(|lines|, i requires 0 <= i < |lines| => "\t" + lines[i])
  }

  /** Lines as they were, blank ones without trailing white space. */
  function Indented(lines: seq<string>): seq<string> {
    seq(|lines|, i requires 0 <= i < |lines| => if lines[i] == "" then "" else "\t" + lines[i])
  }

  function StableBlock(major: string, lines: seq<string>): seq<string> {
    ["DPDK_" + major + " {"]
    + (if lines == [] then [] else ["\tglobal:", ""] + Tabbed(lines) + [""])
    + ["\tlocal: *;", "};"]
  }

  function VerbatimBlock(name: string, lines: seq<string>): seq<string> {
    [name + " {"] + Indented(lines) + ["};"]
  }

  ghost function Output(p: Parsed, major: string): seq<string> {
    (if p.hasStable then StableBlock(major, SortedOf(p.stable)) else [])
    + (if p.hasStable && p.experimental != [] then [""] else [])
    + (if p.experimental != [] then VerbatimBlock("EXPERIMENTAL", p.experimental) else [])
    + (if p.internal != [] && (p.hasStable || p.experimental != []) then [""] else [])
    + (if p.internal != [] then VerbatimBlock("INTERNAL", p.internal) else [])
  }

  function Unlines(lines: seq<string>): string {
    if lines == [] then "" else lines[0] + "\n" + Unlines(lines[1..])
  }

  /** The lines of a file; the last one need not be ended. */
  function Lines(text: string): seq<string>
    decreases |text|
  {
    if text == "" then []
    else
      var n := Span(text, Any);
      [text[..n]] + Lines(if n < |text| then text[n + 1..] else "")
  }

  lemma {:induction false} LinesUnlines(lines: seq<string>)
    requires forall l | l in lines :: All(l, Any)
    ensures Lines(Unlines(lines)) == lines
    decreases |lines|
  {
    if lines != [] {
      var text, rest := Unlines(lines), Unlines(lines[1..]);
      assert text == lines[0] + ("\n" + rest);
      SpanIs(lines[0], "\n" + rest, Any);
      assert text[|lines[0]| + 1..] == rest && text[..|lines[0]|] == lines[0];
      LinesUnlines(lines[1..]);
    }
  }

  lemma {:induction false} LinesAreLines(text: string)
    ensures forall l | l in Lines(text) :: All(l, Any)
    decreases |text|
  {
    if text != "" {
      var n := Span(text, Any);
      LinesAreLines(if n < |text| then text[n + 1..] else "");
    }
  }

  lemma {:induction false} UnlinesAppend(a: seq<string>, b: seq<string>)
    ensures Unlines(a + b) == Unlines(a) + Unlines(b)
    decreases |a|
  {
    if a == [] {
      assert a + b == b;
    } else {
      UnlinesAppend(a[1..], b);
      assert (a + b)[1..] == a[1..] + b;
    }
  }

  /** The file after the script has run. */
  ghost function Rewrite(text: string, major: string): string {
    Unlines(Output(Parse(Lines(text)), major))
  }
}
