/**
 * What a version map says to the linker. A version node is a name and `{`, then entries that stand under the
 * label in front of them, and `}` with a `;`. Lines are read one by one, a label may share its line with an
 * entry. Read in this way, the rewritten file is compared with the lines it was made from.
 */
module MapLinker {
  import opened Scanning
  import opened MapLines
  import opened VersionMap
  import opened MapRewrite

  // ----- reading version nodes -----

  datatype Label = NoLabel | Global | Local
  datatype Entry = Entry(node: string, under: Label, text: string)

  /** The nodes opened so far and the entries read so far; inside a node, its name and the last label. */
  datatype Linker = Linker(inside: bool, node: string, under: Label, nodes: seq<string>, entries: seq<Entry>)

  const START := Linker(false, "", NoLabel, [], [])

  predicate OpensNode(s: string) {
    s != "" && s[|s| - 1] == '{'
  }

  function LabelOf(s: string, last: Label): Label {
    if "global:" <= s then Global else if "local:" <= s then Local else last
  }

  /** What is left of a line behind a label. */
  function BehindLabel(s: string): string {
    if "global:" <= s then Strip(s[7..]) else if "local:" <= s then Strip(s[6..]) else s
  }

  function LinkLine(l: Linker, raw: string): Linker {
    var s := Strip(raw);
    if !l.inside then
      if OpensNode(s) then
        var name := Strip(s[..|s| - 1]);
        l.(inside := true, node := name, under := NoLabel, nodes := l.nodes + [name])
      else l
    else if IsEnd(s) then l.(inside := false)
    else
      var under, text := LabelOf(s, l.under), BehindLabel(s);
      l.(under := under, entries := l.entries + if text == "" then [] else [Entry(l.node, under, text)])
  }

  function LinkFrom(l: Linker, lines: seq<string>): Linker
    decreases |lines|
  {
    if lines == [] then l else LinkFrom(LinkLine(l, lines[0]), lines[1..])
  }

  function Link(lines: seq<string>): Linker {
    LinkFrom(START, lines)
  }

  /** The entries of the nodes with one name. */
  function Of(entries: seq<Entry>, name: string): seq<Entry> {
    if entries == [] then []
    else Of(entries[..|entries| - 1], name) +
         if entries[|entries| - 1].node == name then [entries[|entries| - 1]] else []
  }

  lemma {:induction false} LinkAppend(l: Linker, a: seq<string>, b: seq<string>)
    ensures LinkFrom(l, a + b) == LinkFrom(LinkFrom(l, a), b)
    decreases |a|
  {
    if a == [] {
      assert a + b == b;
    } else {
      assert (a + b)[1..] == a[1..] + b;
      LinkAppend(LinkLine(l, a[0]), a[1..], b);
    }
  }

  lemma LinkOne(l: Linker, line: string)
    ensures LinkFrom(l, [line]) == LinkLine(l, line) && LinkFrom(l, []) == l
  {
    assert LinkFrom(LinkLine(l, line), [line][1..]) == LinkLine(l, line);
  }

  /** Header, body, end. */
  lemma LinkBlock(l: Linker, header: string, body: seq<string>, end: string)
    ensures LinkFrom(l, [header] + body + [end]) == LinkLine(LinkFrom(LinkLine(l, header), body), end)
  {
    LinkAppend(l, [header] + body, [end]);
    LinkAppend(l, [header], body);
    LinkOne(l, header);
    LinkOne(LinkFrom(l, [header] + body), end);
  }

  // ----- the lines of the output -----

  /** The beginning of a node. */
  lemma LinkHeader(l: Linker, name: string)
    requires !l.inside && name != "" && Stripped(name)
    ensures LinkLine(l, name + " {") == l.(inside := true, node := name, under := NoLabel, nodes := l.nodes + [name])
  {
    HeaderText(name);
    hide Strip;
  }

  lemma HeaderText(name: string)
    requires name != "" && Stripped(name)
    ensures var s := name + " {"; Strip(s) == s && OpensNode(s) && Strip(s[..|s| - 1]) == name
  {
    hide Strip, Skip, StripRight;
    var s := name + " {";
    assert s[|s| - 1] == '{' && s[0] == name[0];
    StripIs("", s, "");
    assert "" + s + "" == s;
    assert s[..|s| - 1] == name + " " == "" + name + " ";
    StripIs("", name, " ");
  }

  lemma LinkEnd(l: Linker)
    ensures LinkLine(l, "};") == l.(inside := false)
  {
    EndLine();
    StripTab("};");
  }

  lemma LinkBlank(l: Linker)
    ensures LinkLine(l, "") == l
  {
    EmptyLine();
    StripTab("");
  }

  lemma Labelled(s: string)
    ensures "global:" <= s ==> BehindLabel(s) == Strip(s[7..])
    ensures !("global:" <= s) && "local:" <= s ==> BehindLabel(s) == Strip(s[6..])
  {
  }

  lemma WordsHere()
    ensures All("global", Word) && All("local", Word)
    ensures "global" + ":" == "global:" && "local" + ": *;" == "local: *;"
    ensures "global:"[7..] == "" && "local: *;"[6..] == " " + "*;"
    ensures "global:" <= "global:" && "local:" <= "local: *;" && !("global:" <= "local: *;")
  {
    assert "local: *;"[0] == 'l' && "global:"[0] == 'g';
  }

  lemma WordsStripped()
    ensures Stripped("global:") && Stripped("local: *;") && Stripped("") && Stripped("*;")
    ensures All("", Space) && All(" ", Space)
  {
  }

  /** The two lines with labels in the stable node. */
  lemma LabelTexts()
    ensures Strip("\t" + "global:") == "global:" && !IsEnd("global:") && BehindLabel("global:") == ""
    ensures Strip("\t" + "local: *;") == "local: *;" && !IsEnd("local: *;") && BehindLabel("local: *;") == "*;"
  {
    hide *;
    WordsHere();
    WordsStripped();
    LabelLine("global", ":");
    LabelLine("local", ": *;");
    StripTab("global:");
    StripTab("local: *;");
    Labelled("global:");
    Labelled("local: *;");
    StripIs("", "", "");
    StripIs(" ", "*;", "");
    assert " " + "*;" + "" == " " + "*;" && "" + "" + "" == "";
  }

  lemma LineIs(l: Linker, raw: string, s: string)
    requires l.inside && Strip(raw) == s && !IsEnd(s)
    ensures LinkLine(l, raw) ==
            l.(under := LabelOf(s, l.under),
               entries := l.entries +
                 if BehindLabel(s) == "" then [] else [Entry(l.node, LabelOf(s, l.under), BehindLabel(s))])
  {
  }

  lemma LabelsAlone(l: Linker)
    requires l.inside
    ensures LinkLine(l, "\tglobal:") == l.(under := Global)
    ensures LinkLine(l, "\tlocal: *;") == l.(under := Local, entries := l.entries + [Entry(l.node, Local, "*;")])
  {
    LabelTexts();
    WordsHere();
    hide IsEnd, Strip, BehindLabel, LinkLine, All;
    assert "\t" + "global:" == "\tglobal:" && "\t" + "local: *;" == "\tlocal: *;";
    LineIs(l, "\t" + "global:", "global:");
    LineIs(l, "\t" + "local: *;", "local: *;");
    assert l.entries + [] == l.entries;
  }

  /** A function line has no label in front. */
  lemma FunctionText(f: string, word: string)
    requires CleanLine(f) && IsFunc(f) && word != "" && All(word, Word)
    ensures f != "" && !(word + ":" <= f)
  {
    FuncUnrolled(f);
    hide IsFunc, Strip;
    FunctionFirst(f);
    if word + ":" <= f {
      var rest := f[|word|..];
      assert f == word + rest && rest[0] == ':';
      SpanIs(word, rest, Word);
      StrippedSkips(rest);
    }
  }

  lemma FunctionEntry(l: Linker, f: string)
    requires l.inside && CleanLine(f) && IsFunc(f)
    ensures LinkLine(l, "\t" + f) == l.(entries := l.entries + [Entry(l.node, l.under, f)])
  {
    Exclusive(f);
    StripTab(f);
    FunctionText(f, "global");
    FunctionText(f, "local");
    assert "global" + ":" == "global:" && "local" + ":" == "local:";
    hide IsFunc, IsEnd, Strip, CleanLine, LinkLine;
    LineIs(l, "\t" + f, f);
  }

  lemma FunctionFirst(f: string)
    requires CleanLine(f) && IsFunc(f)
    ensures f != "" && Skip(f, Space) == f
  {
    FuncUnrolled(f);
    if f != "" {
      StrippedSkips(f);
    }
  }

  function Listed(node: string, under: Label, texts: seq<string>): seq<Entry> {
    seq(|texts|, i requires 0 <= i < |texts| => Entry(node, under, texts[i]))
  }

  lemma {:induction false} LinkTabbed(l: Linker, q: seq<string>)
    requires l.inside && Functions(q)
    ensures LinkFrom(l, Tabbed(q)) == l.(entries := l.entries + Listed(l.node, l.under, q))
    decreases |q|
  {
    hide CleanLine, IsFunc, LinkLine;
    if q == [] {
      assert Tabbed(q) == [] && l.entries + Listed(l.node, l.under, q) == l.entries;
    } else {
      assert q[0] in q;
      FunctionEntry(l, q[0]);
      assert Tabbed(q)[1..] == Tabbed(q[1..]);
      assert Functions(q[1..]);
      var m := l.(entries := l.entries + [Entry(l.node, l.under, q[0])]);
      LinkTabbed(m, q[1..]);
      assert l.entries + [Entry(l.node, l.under, q[0])] + Listed(l.node, l.under, q[1..]) ==
             l.entries + Listed(l.node, l.under, q);
    }
  }

  lemma SameLine(l: Linker, line: string)
    requires CleanLine(line)
    ensures LinkLine(l, if line == "" then "" else "\t" + line) == LinkLine(l, line)
  {
    hide Strip, IsEnd, LabelOf, BehindLabel, OpensNode;
    StripTab(line);
  }

  /** Indentation does not matter. */
  lemma {:induction false} LinkIndented(l: Linker, q: seq<string>)
    requires Copyable(q)
    ensures LinkFrom(l, Indented(q)) == LinkFrom(l, q)
    decreases |q|
  {
    hide LinkLine, Indented, Copyable;
    IndentedParts(q);
    if q != [] {
      SameLine(l, q[0]);
      LinkIndented(LinkLine(l, q[0]), q[1..]);
    }
  }

  lemma IndentedParts(q: seq<string>)
    requires Copyable(q)
    ensures |Indented(q)| == |q|
    ensures q != [] ==> CleanLine(q[0]) && Indented(q)[0] == (if q[0] == "" then "" else "\t" + q[0])
    ensures q != [] ==> Indented(q)[1..] == Indented(q[1..]) && Copyable(q[1..])
  {
    hide IsEnd, CleanLine;
    if q != [] {
      assert q[0] in q;
      assert Indented(q)[1..] == Indented(q[1..]);
    }
  }

  /** A line that is no end leaves the node open. */
  lemma LineInside(l: Linker, line: string) returns (more: seq<Entry>)
    requires l.inside && CleanLine(line) && !IsEnd(line)
    ensures var m := LinkLine(l, line);
            m.inside && m.node == l.node && m.nodes == l.nodes && m.entries == l.entries + more
    ensures forall e | e in more :: e.node == l.node
  {
    StripTab(line);
    hide Strip, IsEnd, LabelOf;
    more := if BehindLabel(line) == "" then [] else [Entry(l.node, LabelOf(line, l.under), BehindLabel(line))];
  }

  /** Lines that are no end open no node. */
  lemma {:induction false} StaysInside(l: Linker, q: seq<string>) returns (more: seq<Entry>)
    requires l.inside && Copyable(q)
    ensures var m := LinkFrom(l, q);
            m.inside && m.node == l.node && m.nodes == l.nodes && m.entries == l.entries + more
    ensures forall e | e in more :: e.node == l.node
    decreases |q|
  {
    hide LinkLine, CleanLine, IsEnd;
    if q == [] {
      more := [];
    } else {
      assert q[0] in q;
      var first := LineInside(l, q[0]);
      var others := StaysInside(LinkLine(l, q[0]), q[1..]);
      more := first + others;
      assert l.entries + first + others == l.entries + more;
    }
  }

  // ----- whole nodes -----

  lemma LinkStable(l: Linker, major: string, q: seq<string>)
    requires !l.inside && IsMajor(major) && Functions(q)
    ensures var node, m := "DPDK_" + major, LinkFrom(l, StableBlock(major, q));
            && !m.inside && m.nodes == l.nodes + [node]
            && m.entries == l.entries + Listed(node, Global, q) + [Entry(node, Local, "*;")]
  {
    hide LinkLine, Functions;
    var node := "DPDK_" + major;
    MajorStripped(major);
    LinkHeader(l, node);
    var h := LinkLine(l, node + " {");
    var body := Body(q);
    assert StableBlock(major, q) == [node + " {"] + body + ["};"];
    LinkBlock(l, node + " {", body, "};");
    if q == [] {
      assert body == ["\tlocal: *;"];
      LinkOne(h, "\tlocal: *;");
      LabelsAlone(h);
      assert l.entries + Listed(node, Global, q) == l.entries;
    } else {
      var g := h.(under := Global);
      var e := g.(entries := g.entries + Listed(node, Global, q));
      assert body == ["\tglobal:"] + ([""] + Tabbed(q) + [""]) + ["\tlocal: *;"];
      LinkBlock(h, "\tglobal:", [""] + Tabbed(q) + [""], "\tlocal: *;");
      LabelsAlone(h);
      LinkBlock(g, "", Tabbed(q), "");
      LinkBlank(g);
      LinkTabbed(g, q);
      LinkBlank(e);
      LabelsAlone(e);
    }
    LinkEnd(LinkFrom(h, body));
  }

  lemma MajorStripped(major: string)
    requires IsMajor(major)
    ensures Stripped("DPDK_" + major)
  {
    var s := "DPDK_" + major;
    assert s[0] == 'D' && s[|s| - 1] == major[|major| - 1];
  }

  /** A copied section: the same entries under the same labels as its lines by themselves. */
  lemma LinkVerbatim(l: Linker, name: string, q: seq<string>) returns (more: seq<Entry>)
    requires !l.inside && name != "" && Stripped(name) && Copyable(q)
    ensures var m, h := LinkFrom(l, VerbatimBlock(name, q)), Inside(l, name);
            m == LinkFrom(h, q).(inside := false) && m.nodes == l.nodes + [name] && m.entries == l.entries + more
    ensures forall e | e in more :: e.node == name
  {
    hide LinkLine, Copyable;
    var h := Inside(l, name);
    LinkHeader(l, name);
    LinkBlock(l, name + " {", Indented(q), "};");
    LinkIndented(h, q);
    more := StaysInside(h, q);
    LinkEnd(LinkFrom(h, q));
  }

  /** At the beginning of a node. */
  function Inside(l: Linker, name: string): Linker {
    l.(inside := true, node := name, under := NoLabel, nodes := l.nodes + [name])
  }

  // ----- the whole file -----

  lemma {:induction false} OfAppend(a: seq<Entry>, b: seq<Entry>, name: string)
    ensures Of(a + b, name) == Of(a, name) + Of(b, name)
    decreases |b|
  {
    if b == [] {
      assert a + b == a;
    } else {
      assert (a + b)[..|a + b| - 1] == a + b[..|b| - 1];
      OfAppend(a, b[..|b| - 1], name);
    }
  }

  lemma {:induction false} OfAll(a: seq<Entry>, name: string)
    ensures (forall e | e in a :: e.node == name) ==> Of(a, name) == a
    ensures (forall e | e in a :: e.node != name) ==> Of(a, name) == []
    decreases |a|
  {
    if a != [] {
      var n := |a| - 1;
      assert a == a[..n] + [a[n]] && a[n] in a;
      OfAll(a[..n], name);
    }
  }

  /** When a part of the output has been read, the entries of the stable node do not change any more. */
  ghost predicate Past(l: Linker, nodes: seq<string>, node: string, entries: seq<Entry>) {
    !l.inside && l.nodes == nodes && Of(l.entries, node) == entries
  }

  lemma PastVerbatim(l: Linker, nodes: seq<string>, node: string, entries: seq<Entry>, name: string, q: seq<string>)
    requires Past(l, nodes, node, entries) && node != name && name != "" && Stripped(name) && Copyable(q)
    ensures Past(LinkFrom(l, VerbatimBlock(name, q)), nodes + [name], node, entries)
  {
    hide LinkFrom, VerbatimBlock, Copyable, Of;
    var more := LinkVerbatim(l, name, q);
    OfAppend(l.entries, more, node);
    OfAll(more, node);
  }

  /** The lines under the labels of the stable node. */
  ghost function StableEntries(p: Parsed, major: string): seq<Entry> {
    var node := "DPDK_" + major;
    if p.hasStable then Listed(node, Global, SortedOf(p.stable)) + [Entry(node, Local, "*;")] else []
  }

  ghost function NodeNames(p: Parsed, major: string): seq<string> {
    (if p.hasStable then ["DPDK_" + major] else [])
    + (if p.experimental != [] then ["EXPERIMENTAL"] else [])
    + (if p.internal != [] then ["INTERNAL"] else [])
  }

  lemma UnderNode(node: string, under: Label, q: seq<string>)
    ensures forall e | e in Listed(node, under, q) :: e.node == node
  {
  }

  lemma PastStable(p: Parsed, major: string)
    requires Clean(p) && IsMajor(major)
    ensures Past(LinkFrom(START, if p.hasStable then StableBlock(major, SortedOf(p.stable)) else []),
                 if p.hasStable then ["DPDK_" + major] else [], "DPDK_" + major, StableEntries(p, major))
  {
    var node, q := "DPDK_" + major, SortedOf(p.stable);
    hide StableBlock, SortedOf, LinkLine, CleanLine, IsFunc, Of;
    if p.hasStable {
      SortedFunctions(p.stable);
      LinkStable(START, major, q);
      var entries := Listed(node, Global, q) + [Entry(node, Local, "*;")];
      UnderNode(node, Global, q);
      assert [] + Listed(node, Global, q) + [Entry(node, Local, "*;")] == entries;
      assert [] + [node] == [node];
      OfAll(entries, node);
    } else {
      OfAll([], node);
    }
  }

  lemma OutputNodes(p: Parsed, major: string)
    requires Clean(p) && IsMajor(major)
    ensures Past(Link(Output(p, major)), NodeNames(p, major), "DPDK_" + major, StableEntries(p, major))
  {
    var node := "DPDK_" + major;
    NamesDiffer(major);
    CleanParts(p);
    hide LinkFrom, StableBlock, VerbatimBlock, SortedOf, Clean, Copyable, IsMajor, StableEntries, Past, Stripped;
    var a, e := p.hasStable, p.experimental != [];
    var b1 := if a then StableBlock(major, SortedOf(p.stable)) else [];
    var b2 := if a && e then [""] else [];
    var b3 := if e then VerbatimBlock("EXPERIMENTAL", p.experimental) else [];
    var b4 := if p.internal != [] && (a || e) then [""] else [];
    var b5 := if p.internal != [] then VerbatimBlock("INTERNAL", p.internal) else [];
    assert Output(p, major) == b1 + b2 + b3 + b4 + b5;
    LinkAppend(START, b1 + b2 + b3 + b4, b5);
    LinkAppend(START, b1 + b2 + b3, b4);
    LinkAppend(START, b1 + b2, b3);
    LinkAppend(START, b1, b2);
    PastStable(p, major);
    var l1, n1 := LinkFrom(START, b1), if a then [node] else [];
    LinkNothing(l1);
    var n3 := n1 + if e then ["EXPERIMENTAL"] else [];
    if e {
      PastVerbatim(l1, n1, node, StableEntries(p, major), "EXPERIMENTAL", p.experimental);
    }
    var l3 := LinkFrom(l1, b3);
    assert Past(l3, n3, node, StableEntries(p, major));
    LinkNothing(l3);
    if p.internal != [] {
      PastVerbatim(l3, n3, node, StableEntries(p, major), "INTERNAL", p.internal);
    }
  }

  lemma LinkNothing(l: Linker)
    ensures LinkFrom(l, []) == l && LinkFrom(l, [""]) == l
  {
    LinkOne(l, "");
    LinkBlank(l);
  }

  lemma NamesDiffer(major: string)
    ensures "DPDK_" + major != "EXPERIMENTAL" && "DPDK_" + major != "INTERNAL"
    ensures Stripped("EXPERIMENTAL") && Stripped("INTERNAL")
  {
    assert ("DPDK_" + major)[0] == 'D' && "EXPERIMENTAL"[0] == 'E' && "INTERNAL"[0] == 'I';
  }

  /**
   * What the rewritten file says to the linker. It has the node of the version exactly once if there was a
   * stable section, and otherwise not at all. Under `global:` of this node is each stable function once,
   * under `local:` is `*;`, and nothing else is in it.
   */
  lemma RewriteLinks(text: string, major: string)
    requires IsMajor(major)
    ensures var p, l, node := Parse(Lines(text)), Link(Lines(Rewrite(text, major))), "DPDK_" + major;
            && !l.inside && l.nodes == NodeNames(p, major)
            && multiset(l.nodes)[node] == (if p.hasStable then 1 else 0)
            && (forall under, f :: Entry(node, under, f) in l.entries <==>
                  p.hasStable && ((under == Global && f in p.stable) || (under == Local && f == "*;")))
            && Of(l.entries, node) == StableEntries(p, major)
  {
    TextClean(text);
    LinesOfRewrite(text, major);
    var p := Parse(Lines(text));
    OutputNodes(p, major);
    var l, node := Link(Lines(Rewrite(text, major))), "DPDK_" + major;
    NodeOnce(p, major);
    SortedAscends(p.stable);
    hide Link, Lines, Rewrite, Parse, Output, SortedOf, IsMajor, NodeNames, StableEntries, Of, Ascending;
    forall under, f
      ensures Entry(node, under, f) in l.entries <==>
              p.hasStable && ((under == Global && f in p.stable) || (under == Local && f == "*;"))
    {
      InOf(l.entries, Entry(node, under, f));
      InStable(p, major, under, f);
    }
  }

  lemma NodeOnce(p: Parsed, major: string)
    ensures multiset(NodeNames(p, major))["DPDK_" + major] == if p.hasStable then 1 else 0
  {
    NamesDiffer(major);
    var node := "DPDK_" + major;
    var a, b, c := if p.hasStable then [node] else [], if p.experimental != [] then ["EXPERIMENTAL"] else [],
                   if p.internal != [] then ["INTERNAL"] else [];
    hide Stripped;
    assert multiset(b)[node] == 0 && multiset(c)[node] == 0;
    assert multiset(a + b + c) == multiset(a) + multiset(b) + multiset(c);
  }

  lemma InStable(p: Parsed, major: string, under: Label, f: string)
    requires forall x :: x in SortedOf(p.stable) <==> x in p.stable
    ensures Entry("DPDK_" + major, under, f) in StableEntries(p, major) <==>
            p.hasStable && ((under == Global && f in p.stable) || (under == Local && f == "*;"))
  {
    var node, q := "DPDK_" + major, SortedOf(p.stable);
    hide SortedOf;
    if p.hasStable && under == Global && f in q {
      var i :| 0 <= i < |q| && q[i] == f;
      assert Listed(node, Global, q)[i] == Entry(node, Global, f);
    }
  }

  lemma {:induction false} InOf(entries: seq<Entry>, e: Entry)
    ensures e in Of(entries, e.node) <==> e in entries
    decreases |entries|
  {
    if entries != [] {
      InOf(entries[..|entries| - 1], e);
      assert entries == entries[..|entries| - 1] + [entries[|entries| - 1]];
    }
  }

  /** A copied section says to the linker what its lines said: each entry under the label in front of it. */
  lemma CopiedLinks(l: Linker, name: string, q: seq<string>)
    requires !l.inside && name != "" && Stripped(name) && Copyable(q)
    ensures LinkFrom(l, VerbatimBlock(name, q)).entries == LinkFrom(Inside(l, name), q).entries
  {
    var more := LinkVerbatim(l, name, q);
  }
}
