/** Rewriting a version map: what is kept, and when running the script again changes nothing. */
module MapRewrite {
  import opened Scanning
  import opened MapLines
  import opened VersionMap

  // ----- what a parsed file can hold -----

  ghost predicate CleanLine(l: string) {
    Stripped(l) && All(l, Any)
  }

  ghost predicate Clean(p: Parsed) {
    && (forall f | f in p.stable :: CleanLine(f) && IsFunc(f))
    && Copyable(p.experimental) && Copyable(p.internal)
  }

  lemma StripClean(raw: string)
    requires All(raw, Any)
    ensures CleanLine(Strip(raw))
  {
    var a, b := StripSplits(raw);
    var s := Strip(raw);
    assert forall i | 0 <= i < |s| :: s[i] == raw[|a| + i];
  }

  lemma {:induction false} ParseClean(p: Parsed, lines: seq<string>)
    requires Clean(p) && forall l | l in lines :: All(l, Any)
    ensures Clean(ParseFrom(p, lines))
    decreases |lines|
  {
    if lines != [] {
      StripClean(lines[0]);
      ParseClean(ParseLine(p, lines[0]), lines[1..]);
    }
  }

  // ----- reading back what was printed -----

  ghost predicate Outside(p: Parsed) {
    !p.inExperimental && !p.inInternal
  }

  lemma StripTab(l: string)
    requires Stripped(l)
    ensures Strip("\t" + l) == l && Strip(l) == l
  {
    StripIs("\t", l, "");
    StripIs("", l, "");
    assert "\t" + l + "" == "\t" + l && "" + l + "" == l;
  }

  ghost predicate Functions(q: seq<string>) {
    forall f | f in q :: CleanLine(f) && IsFunc(f)
  }

  lemma TabbedLine(p: Parsed, q: seq<string>)
    requires Outside(p) && Functions(q) && q != []
    ensures Functions(q[1..]) && ParseFrom(p, Tabbed(q)) == ParseFrom(p.(stable := p.stable + {q[0]}), Tabbed(q[1..]))
  {
    assert q[0] in q && CleanLine(q[0]);
    StripTab(q[0]);
    Exclusive(q[0]);
    EmptyLine();
    assert Tabbed(q)[1..] == Tabbed(q[1..]);
  }

  lemma FirstAndRest(a: set<string>, q: seq<string>)
    requires q != []
    ensures a + {q[0]} + (set f | f in q[1..]) == a + set f | f in q
  {
  }

  lemma NoFunctions(p: Parsed)
    ensures ParseFrom(p, Tabbed([])) == p
  {
    assert Tabbed([]) == [];
  }

  lemma {:induction false} ReadTabbed(p: Parsed, q: seq<string>)
    requires Outside(p) && Functions(q)
    ensures ParseFrom(p, Tabbed(q)) == p.(stable := p.stable + set f | f in q)
    decreases |q|
  {
    hide *;
    if q == [] {
      NoFunctions(p);
      assert p.stable + (set f | f in q) == p.stable;
    } else {
      TabbedLine(p, q);
      OutsideStill(p, p.stable + {q[0]});
      ReadTabbed(p.(stable := p.stable + {q[0]}), q[1..]);
      FirstAndRest(p.stable, q);
    }
  }

  lemma OutsideStill(p: Parsed, s: set<string>)
    requires Outside(p)
    ensures Outside(p.(stable := s))
  {
  }

  lemma ReadVerbatimLine(p: Parsed, l: string)
    requires CleanLine(l) && !IsEnd(l)
    ensures var r := ParseLine(p, if l == "" then "" else "\t" + l);
            && (p.inExperimental ==> r == p.(experimental := p.experimental + [l]))
            && (p.inInternal && !p.inExperimental ==> r == p.(internal := p.internal + [l]))
  {
    StripTab(l);
  }

  ghost predicate Copyable(q: seq<string>) {
    forall l | l in q :: CleanLine(l) && !IsEnd(l)
  }

  lemma IndentedUnfolds(p: Parsed, q: seq<string>)
    requires q != []
    ensures ParseFrom(p, Indented(q)) ==
            ParseFrom(ParseLine(p, if q[0] == "" then "" else "\t" + q[0]), Indented(q[1..]))
    ensures Copyable(q) ==> Copyable(q[1..]) && CleanLine(q[0]) && !IsEnd(q[0])
  {
    assert Indented(q)[1..] == Indented(q[1..]);
    assert q[0] in q;
  }

  lemma OneThenRest(a: seq<string>, q: seq<string>)
    requires q != []
    ensures a + [q[0]] + q[1..] == a + q
  {
  }

  lemma NoLines(p: Parsed)
    ensures ParseFrom(p, Indented([])) == p
  {
    assert Indented([]) == [];
  }

  lemma ExperimentalLine(p: Parsed, q: seq<string>)
    requires p.inExperimental && Copyable(q) && q != []
    ensures Copyable(q[1..])
    ensures ParseFrom(p, Indented(q)) == ParseFrom(p.(experimental := p.experimental + [q[0]]), Indented(q[1..]))
  {
    IndentedUnfolds(p, q);
    ReadVerbatimLine(p, q[0]);
  }

  lemma {:induction false} ReadExperimental(p: Parsed, q: seq<string>)
    requires p.inExperimental && Copyable(q)
    ensures ParseFrom(p, Indented(q)) == p.(experimental := p.experimental + q)
    decreases |q|
  {
    hide *;
    if q == [] {
      NoLines(p);
      assert p.experimental + q == p.experimental;
    } else {
      ExperimentalLine(p, q);
      ReadExperimental(p.(experimental := p.experimental + [q[0]]), q[1..]);
      OneThenRest(p.experimental, q);
    }
  }

  lemma InternalLine(p: Parsed, q: seq<string>)
    requires p.inInternal && !p.inExperimental && Copyable(q) && q != []
    ensures Copyable(q[1..])
    ensures ParseFrom(p, Indented(q)) == ParseFrom(p.(internal := p.internal + [q[0]]), Indented(q[1..]))
  {
    IndentedUnfolds(p, q);
    ReadVerbatimLine(p, q[0]);
  }

  lemma {:induction false} ReadInternal(p: Parsed, q: seq<string>)
    requires p.inInternal && !p.inExperimental && Copyable(q)
    ensures ParseFrom(p, Indented(q)) == p.(internal := p.internal + q)
    decreases |q|
  {
    hide *;
    if q == [] {
      NoLines(p);
      assert p.internal + q == p.internal;
    } else {
      InternalLine(p, q);
      ReadInternal(p.(internal := p.internal + [q[0]]), q[1..]);
      OneThenRest(p.internal, q);
    }
  }

  /** Header, body, end. */
  lemma ReadBlock(p: Parsed, header: string, body: seq<string>, end: string)
    ensures ParseFrom(p, [header] + body + [end]) == ParseLine(ParseFrom(ParseLine(p, header), body), end)
  {
    ParseAppend(p, [header] + body, [end]);
    ParseAppend(p, [header], body);
    ParseOne(p, header);
    ParseOne(ParseFrom(p, [header] + body), end);
  }

  lemma ReadEnd(p: Parsed)
    ensures ParseLine(p, "};") == p.(inExperimental := false, inInternal := false)
  {
    EndLine();
    StripTab("};");
  }

  lemma ReadCopiedHeaders(p: Parsed)
    requires Outside(p)
    ensures ParseLine(p, "EXPERIMENTAL" + " {") == p.(inExperimental := true)
    ensures ParseLine(p, "INTERNAL" + " {") == p.(inInternal := true)
  {
    hide IsEnd, IsBegin, IsFunc, Strip, Version;
    BeginLine("EXPERIMENTAL");
    BeginLine("INTERNAL");
    StripTab("EXPERIMENTAL" + " {");
    StripTab("INTERNAL" + " {");
  }

  lemma ReadVerbatim(p: Parsed, q: seq<string>)
    requires Outside(p) && Copyable(q)
    ensures ParseFrom(p, VerbatimBlock("EXPERIMENTAL", q)) == p.(experimental := p.experimental + q)
    ensures ParseFrom(p, VerbatimBlock("INTERNAL", q)) == p.(internal := p.internal + q)
  {
    hide ParseFrom, ParseLine, Indented, Copyable;
    ReadCopiedHeaders(p);
    ReadBlock(p, "EXPERIMENTAL" + " {", Indented(q), "};");
    ReadBlock(p, "INTERNAL" + " {", Indented(q), "};");
    var e, i := p.(inExperimental := true), p.(inInternal := true);
    ReadExperimental(e, q);
    ReadInternal(i, q);
    ReadEnd(ParseFrom(e, Indented(q)));
    ReadEnd(ParseFrom(i, Indented(q)));
  }

  /** An ABI version as the script accepts it: digits, possibly of other scripts than ASCII. */
  predicate IsMajor(major: string) {
    && major != ""
    && forall i | 0 <= i < |major| ::
         '0' <= major[i] <= '9' || (major[i] as int >= 128 && !In(major[i], Space))
  }

  predicate IsAscii(major: string) {
    forall i | 0 <= i < |major| :: '0' <= major[i] <= '9'
  }

  lemma AsciiName(major: string)
    requires IsMajor(major)
    ensures var name := "DPDK_" + major;
            && name != "EXPERIMENTAL" && name != "INTERNAL"
            && (if IsAscii(major) then IsBegin(name + " {") && Version(name + " {") == name && !IsEnd(name + " {")
                else !IsBegin(name + " {") && !IsEnd(name + " {") && !IsFunc(name + " {"))
  {
    var name := "DPDK_" + major;
    assert name[0] == 'D' && "EXPERIMENTAL"[0] == 'E' && "INTERNAL"[0] == 'I';
    if IsAscii(major) {
      assert forall j | 0 <= j < |name| :: j < 5 || name[j] == major[j - 5];
      BeginLine(name);
    } else {
      var i :| 0 <= i < |major| && !('0' <= major[i] <= '9');
      assert name[5 + i] == major[i];
      assert forall j | 0 <= j < |name| :: j < 5 || name[j] == major[j - 5];
      BadBeginLine(name);
    }
  }

  lemma ReadHeader(p: Parsed, major: string)
    requires Outside(p) && IsMajor(major)
    ensures ParseLine(p, "DPDK_" + major + " {") == if IsAscii(major) then p.(hasStable := true) else p
  {
    hide IsEnd, IsBegin, IsFunc, Version, Strip, IsMajor, IsAscii;
    AsciiName(major);
    StripTab("DPDK_" + major + " {");
  }

  lemma ReadIgnored(p: Parsed, l: string)
    requires Outside(p) && Stripped(l) && !IsEnd(l) && !IsBegin(l) && !IsFunc(l)
    ensures ParseLine(p, "\t" + l) == p && ParseLine(p, l) == p
  {
    StripTab(l);
  }

  /** The lines of the stable block that carry no function. */
  lemma ReadLabels(p: Parsed)
    requires Outside(p)
    ensures ParseLine(p, "\tglobal:") == p && ParseLine(p, "") == p && ParseLine(p, "\tlocal: *;") == p
  {
    hide ParseLine, IsEnd, IsBegin, IsFunc;
    EmptyLine();
    ReadIgnored(p, "");
    LabelLine("global", ":");
    LabelLine("local", ": *;");
    ReadIgnored(p, "global" + ":");
    ReadIgnored(p, "local" + ": *;");
    assert "\tglobal:" == "\t" + ("global" + ":") && "\tlocal: *;" == "\t" + ("local" + ": *;");
  }

  ghost function Body(q: seq<string>): seq<string> {
    (if q == [] then [] else ["\tglobal:", ""] + Tabbed(q) + [""]) + ["\tlocal: *;"]
  }

  lemma ReadStableBody(p: Parsed, q: seq<string>)
    requires Outside(p) && Functions(q)
    ensures ParseFrom(p, Body(q)) == p.(stable := p.stable + set f | f in q)
  {
    hide ParseLine, IsFunc, ParseFrom, CleanLine;
    var r := p.(stable := p.stable + set f | f in q);
    ReadLabels(p);
    ReadLabels(r);
    if q == [] {
      ParseOne(p, "\tlocal: *;");
      assert Body(q) == ["\tlocal: *;"];
    } else {
      ReadTabbed(p, q);
      ReadBlock(p, "", Tabbed(q), "");
      assert Body(q) == ["\tglobal:"] + ([""] + Tabbed(q) + [""]) + ["\tlocal: *;"];
      ReadBlock(p, "\tglobal:", [""] + Tabbed(q) + [""], "\tlocal: *;");
    }
  }

  lemma ReadStable(p: Parsed, major: string, q: seq<string>)
    requires Outside(p) && IsMajor(major) && Functions(q)
    ensures ParseFrom(p, StableBlock(major, q)) ==
            p.(stable := p.stable + (set f | f in q), hasStable := p.hasStable || IsAscii(major))
  {
    var body := Body(q);
    var header := "DPDK_" + major + " {";
    assert StableBlock(major, q) == [header] + body + ["};"];
    ReadHeader(p, major);
    var h := ParseLine(p, header);
    ReadStableBody(h, q);
    ReadBlock(p, header, body, "};");
    ReadEnd(ParseFrom(h, body));
  }

  // ----- the whole file -----

  /** Nothing is added or lost between the blocks. */
  lemma ReadBlank(p: Parsed)
    requires Outside(p)
    ensures ParseFrom(p, [""]) == p && ParseFrom(p, []) == p
  {
    ReadLabels(p);
    ParseOne(p, "");
  }

  /** What is left of a parsed file when its stable block has been printed and read back. */
  ghost function AfterStable(p: Parsed, major: string): Parsed {
    if p.hasStable then Parsed(false, false, IsAscii(major), p.stable, [], []) else NOTHING
  }

  lemma SortedFunctions(s: set<string>)
    requires forall f | f in s :: CleanLine(f) && IsFunc(f)
    ensures Functions(SortedOf(s)) && (set f | f in SortedOf(s)) == s
  {
    SortedAscends(s);
  }

  lemma ReadFirstPart(p: Parsed, major: string)
    requires Clean(p) && IsMajor(major)
    ensures ParseFrom(NOTHING, if p.hasStable then StableBlock(major, SortedOf(p.stable)) else []) ==
            AfterStable(p, major)
  {
    SortedFunctions(p.stable);
    hide SortedOf, StableBlock, CleanLine, IsFunc, IsMajor, IsAscii, Functions, Clean;
    if p.hasStable {
      ReadStable(NOTHING, major, SortedOf(p.stable));
      assert {} + p.stable == p.stable;
    }
  }

  /** What the parser reads back from its own output. */
  lemma ReadBack(p: Parsed, major: string)
    requires Clean(p) && IsMajor(major)
    ensures Parse(Output(p, major)) == AfterStable(p, major).(experimental := p.experimental, internal := p.internal)
  {
    hide ParseFrom, StableBlock, VerbatimBlock, SortedOf, Clean, Copyable, IsMajor, IsAscii;
    var a, e := p.hasStable, p.experimental != [];
    var b1 := if a then StableBlock(major, SortedOf(p.stable)) else [];
    var b2 := if a && e then [""] else [];
    var b3 := if e then VerbatimBlock("EXPERIMENTAL", p.experimental) else [];
    var b4 := if p.internal != [] && (a || e) then [""] else [];
    var b5 := if p.internal != [] then VerbatimBlock("INTERNAL", p.internal) else [];
    assert Output(p, major) == b1 + b2 + b3 + b4 + b5;
    ParseAppend(NOTHING, b1 + b2 + b3 + b4, b5);
    ParseAppend(NOTHING, b1 + b2 + b3, b4);
    ParseAppend(NOTHING, b1 + b2, b3);
    ParseAppend(NOTHING, b1, b2);
    CleanParts(p);
    ReadFirstPart(p, major);
    var r := AfterStable(p, major);
    ReadBlank(r);
    ReadVerbatim(r, p.experimental);
    var s := r.(experimental := p.experimental);
    assert [] + p.experimental == p.experimental && [] + p.internal == p.internal;
    ReadBlank(s);
    ReadVerbatim(s, p.internal);
  }

  lemma CleanParts(p: Parsed)
    requires Clean(p)
    ensures Copyable(p.experimental) && Copyable(p.internal)
  {
  }

  // ----- the properties of the script -----

  lemma TextClean(text: string)
    ensures Clean(Parse(Lines(text)))
  {
    LinesAreLines(text);
    ParseClean(NOTHING, Lines(text));
  }

  ghost predicate NoBreaks(lines: seq<string>) {
    forall l | l in lines :: All(l, Any)
  }

  lemma NoBreaksJoin(a: seq<string>, b: seq<string>)
    requires NoBreaks(a) && NoBreaks(b)
    ensures NoBreaks(a + b)
  {
  }

  lemma TabbedNoBreaks(q: seq<string>)
    requires NoBreaks(q)
    ensures NoBreaks(Tabbed(q)) && NoBreaks(Indented(q))
  {
    forall l | l in Tabbed(q) + Indented(q) ensures All(l, Any) {
      var i :| 0 <= i < |q| && (l == "\t" + q[i] || l == "");
      assert q[i] in q;
    }
  }

  lemma OneNoBreaks(l: string)
    requires All(l, Any)
    ensures NoBreaks([l])
  {
  }

  lemma VerbatimNoBreaks(q: seq<string>, name: string)
    requires NoBreaks(q) && All(name, Any)
    ensures NoBreaks(VerbatimBlock(name, q))
  {
    TabbedNoBreaks(q);
    OneNoBreaks(name + " {");
    OneNoBreaks("};");
    hide NoBreaks, All, Indented;
    NoBreaksJoin([name + " {"], Indented(q));
    NoBreaksJoin([name + " {"] + Indented(q), ["};"]);
  }

  lemma StableNoBreaks(q: seq<string>, major: string)
    requires NoBreaks(q) && All(major, Any)
    ensures NoBreaks(StableBlock(major, q))
  {
    TabbedNoBreaks(q);
    OneNoBreaks("DPDK_" + major + " {");
    assert NoBreaks(["\tlocal: *;", "};"]) && NoBreaks(["\tglobal:", ""]) && NoBreaks([""]) && NoBreaks([]);
    hide NoBreaks, All, Tabbed;
    NoBreaksJoin(["\tglobal:", ""], Tabbed(q));
    NoBreaksJoin(["\tglobal:", ""] + Tabbed(q), [""]);
    var body := if q == [] then [] else ["\tglobal:", ""] + Tabbed(q) + [""];
    NoBreaksJoin(["DPDK_" + major + " {"], body);
    NoBreaksJoin(["DPDK_" + major + " {"] + body, ["\tlocal: *;", "};"]);
  }

  lemma CleanNoBreaks(p: Parsed, major: string)
    requires Clean(p) && IsMajor(major)
    ensures NoBreaks(SortedOf(p.stable)) && NoBreaks(p.experimental) && NoBreaks(p.internal) && All(major, Any)
    ensures NoBreaks([""]) && NoBreaks([])
  {
    SortedAscends(p.stable);
    assert forall f | f in SortedOf(p.stable) :: CleanLine(f);
    assert forall f | f in p.experimental :: CleanLine(f);
    assert forall f | f in p.internal :: CleanLine(f);
    assert NoBreaks([""]) by {
      OneNoBreaks("");
    }
  }

  lemma OutputNoBreaks(p: Parsed, major: string)
    requires Clean(p) && IsMajor(major)
    ensures NoBreaks(Output(p, major))
  {
    CleanNoBreaks(p, major);
    StableNoBreaks(SortedOf(p.stable), major);
    VerbatimNoBreaks(p.experimental, "EXPERIMENTAL");
    VerbatimNoBreaks(p.internal, "INTERNAL");
    hide VerbatimBlock, StableBlock, SortedOf, All, NoBreaks;
    var a, e := p.hasStable, p.experimental != [];
    var b1 := if a then StableBlock(major, SortedOf(p.stable)) else [];
    var b2 := if a && e then [""] else [];
    var b3 := if e then VerbatimBlock("EXPERIMENTAL", p.experimental) else [];
    var b4 := if p.internal != [] && (a || e) then [""] else [];
    var b5 := if p.internal != [] then VerbatimBlock("INTERNAL", p.internal) else [];
    NoBreaksJoin(b1, b2);
    NoBreaksJoin(b1 + b2, b3);
    NoBreaksJoin(b1 + b2 + b3, b4);
    NoBreaksJoin(b1 + b2 + b3 + b4, b5);
  }

  lemma LinesOfRewrite(text: string, major: string)
    requires IsMajor(major)
    ensures Lines(Rewrite(text, major)) == Output(Parse(Lines(text)), major)
  {
    TextClean(text);
    OutputNoBreaks(Parse(Lines(text)), major);
    LinesUnlines(Output(Parse(Lines(text)), major));
  }

  /**
   * What is in the rewritten file: all the stable functions if there was a stable section, and the
   * experimental and the internal lines as they were, each kind still in its own section. The stable
   * section itself is known again only if the version is in ASCII digits.
   */
  lemma RewriteKeeps(text: string, major: string)
    requires IsMajor(major)
    ensures var before, after := Parse(Lines(text)), Parse(Lines(Rewrite(text, major)));
            && after.experimental == before.experimental && after.internal == before.internal
            && after.hasStable == (before.hasStable && IsAscii(major))
            && after.stable == if before.hasStable then before.stable else {}
  {
    TextClean(text);
    LinesOfRewrite(text, major);
    ReadBack(Parse(Lines(text)), major);
  }

  /**
   * No function is lost exactly if there is a stable section or no function outside one. A function is
   * here a line that the script recognises as one (ParseFinds): of a line such as `foo; bar;` it
   * takes no notice, in any section that it does not copy line by line, and the line is gone.
   */
  lemma KeptIff(text: string, major: string)
    requires IsMajor(major)
    ensures var before, after := Parse(Lines(text)), Parse(Lines(Rewrite(text, major)));
            before.stable == after.stable <==> before.hasStable || before.stable == {}
  {
    RewriteKeeps(text, major);
  }

  /**
   * Running the script again with the same version changes nothing, except that it does not know its own
   * header again if the version is not ASCII.
   */
  lemma RewriteTwice(text: string, major: string)
    requires IsMajor(major)
    ensures Rewrite(Rewrite(text, major), major) == Rewrite(text, major) <==>
              IsAscii(major) || !Parse(Lines(text)).hasStable
  {
    hide Clean, IsMajor, IsAscii, SortedOf;
    var p := Parse(Lines(text));
    TextClean(text);
    LinesOfRewrite(text, major);
    ReadBack(p, major);
    var q := Parse(Lines(Rewrite(text, major)));
    assert q == AfterStable(p, major).(experimental := p.experimental, internal := p.internal);
    if IsAscii(major) || !p.hasStable {
      assert Output(q, major) == Output(p, major);
    } else {
      LinesOfRewrite(Rewrite(text, major), major);
      FirstLine(p, major);
      FirstLine(q, major);
    }
  }

  lemma FirstLine(p: Parsed, major: string)
    ensures var o := Output(p, major);
            (o != [] && o[0] != "" && o[0][0] == 'D') <==> p.hasStable
  {
  }

  /** A line with two functions in it is lost at the first reading, wherever it stands outside the copied sections. */
  lemma TwoOnALineLost(p: Parsed, a: string, b: string)
    requires Outside(p) && a != "" && b != "" && All(a, Word) && All(b, Word)
    ensures var line := a + "; " + b + ";"; ParseLine(p, line) == p && ParseLine(p, "\t" + line) == p
  {
    TwoOnALine(a, b);
    hide IsFunc, IsBegin, IsEnd, Strip;
    ReadIgnored(p, a + "; " + b + ";");
  }

  /**
   * A version in other digits than the ASCII ones: the second run loses the section that the first wrote.
   * The file is a stable section with one function, the version `22` in Arabic-Indic digits.
   */
  lemma SectionLost(name: string)
    requires name != "" && All(name, Word)
    ensures var text, major := Unlines(StableBlock("22", [name + ";"])), "\U{0662}\U{0662}";
            && IsMajor(major) && !IsAscii(major)
            && Parse(Lines(text)).hasStable && Parse(Lines(text)).stable == {name + ";"}
            && Rewrite(Rewrite(text, major), major) != Rewrite(text, major)
            && Rewrite(Rewrite(text, major), major) == ""
  {
    hide *;
    var text, major := Unlines(StableBlock("22", [name + ";"])), "\U{0662}\U{0662}";
    StableFile(name);
    ArabicDigits();
    TextClean(text);
    LinesOfRewrite(text, major);
    ReadBack(Parse(Lines(text)), major);
    RewriteIs(Rewrite(text, major), major);
    RewriteTwice(text, major);
    OnlySection(Parse(Lines(text)), major);
  }

  lemma Digits22()
    ensures IsMajor("22") && IsAscii("22") && All("22", Any) && Outside(NOTHING)
  {
  }

  /** What is read from a file with one stable function. */
  lemma StableFile(name: string)
    requires name != "" && All(name, Word)
    ensures Parse(Lines(Unlines(StableBlock("22", [name + ";"])))) == Parsed(false, false, true, {name + ";"}, [], [])
  {
    hide *;
    var f := name + ";";
    OneFunction(name);
    Digits22();
    OneNoBreaks(f);
    StableNoBreaks([f], "22");
    ParseUnlines(StableBlock("22", [f]));
    ReadStable(NOTHING, "22", [f]);
    OneRead(f);
  }

  lemma ParseUnlines(lines: seq<string>)
    requires NoBreaks(lines)
    ensures Parse(Lines(Unlines(lines))) == ParseFrom(NOTHING, lines)
  {
    LinesUnlines(lines);
  }

  lemma OneRead(f: string)
    ensures NOTHING.(stable := NOTHING.stable + (set g | g in [f]), hasStable := NOTHING.hasStable || true)
            == Parsed(false, false, true, {f}, [], [])
  {
    assert (set g | g in [f]) == {f};
  }

  lemma RewriteIs(text: string, major: string)
    ensures Rewrite(text, major) == Unlines(Output(Parse(Lines(text)), major))
  {
  }

  lemma ArabicDigits()
    ensures var major := "\U{0662}\U{0662}"; IsMajor(major) && !IsAscii(major)
  {
    var major := "\U{0662}\U{0662}";
    assert !('0' <= major[0] <= '9');
  }

  /** Read back under a version that is not known again, nothing but the copied sections is left. */
  lemma OnlySection(p: Parsed, major: string)
    requires p.experimental == [] && p.internal == [] && !IsAscii(major) && p.hasStable
    ensures !AfterStable(p, major).hasStable
    ensures Output(AfterStable(p, major).(experimental := [], internal := []), major) == []
    ensures Unlines([]) == ""
  {
  }

  lemma OneFunction(name: string)
    requires name != "" && All(name, Word)
    ensures Functions([name + ";"]) && All(name + ";", Any)
  {
    FuncLine(name);
  }

  /**
   * A function outside any section, in a file without a stable one, is gone after the rewrite: the other
   * half of KeptIff is not empty.
   */
  lemma FunctionLost(name: string, major: string)
    requires name != "" && All(name, Word) && IsMajor(major)
    ensures var text := Unlines([name + ";"]);
            Parse(Lines(text)).stable == {name + ";"} && Parse(Lines(Rewrite(text, major))).stable == {}
  {
    var f := name + ";";
    FuncLine(name);
    LinesUnlines([f]);
    StripTab(f);
    ParseOne(NOTHING, f);
    hide IsFunc, IsBegin, IsEnd, Strip, Rewrite, Lines, Unlines, ParseFrom;
    assert Parse(Lines(Unlines([f]))) == ParseLine(NOTHING, f);
    RewriteKeeps(Unlines([f]), major);
  }

  /**
   * The merged section: each stable function line of the input exactly once, and no other line, in
   * alphabetical order.
   */
  lemma MergedOnce(lines: seq<string>, f: string)
    ensures var q := SortedOf(Parse(lines).stable);
            && Ascending(q)
            && ((exists i :: 0 <= i < |lines| && StableFunction(lines, i) && Strip(lines[i]) == f) <==>
                 multiset(q)[f] == 1)
            && multiset(q)[f] <= 1
  {
    var q := SortedOf(Parse(lines).stable);
    ParseFinds(lines, |lines|);
    assert lines[..|lines|] == lines;
    SortedAscends(Parse(lines).stable);
    AscendingOnce(q, f);
    assert f in q <==> multiset(q)[f] >= 1;
  }

  lemma {:induction false} AscendingOnce(q: seq<string>, f: string)
    requires Ascending(q)
    ensures multiset(q)[f] <= 1
    decreases |q|
  {
    if q != [] {
      AscendingOnce(q[1..], f);
      assert q == [q[0]] + q[1..];
      if q[0] == f && f in multiset(q[1..]) {
        var j :| 1 <= j < |q| && q[j] == f;
        BeforeTotal(q[0], q[j]);
      }
    }
  }

  // ----- the script -----

  class MapFile {
    var text: string
    /** What has been printed since the file was opened for writing. */
    ghost var lines: seq<string>

    constructor (text: string)
      ensures this.text == text
    {
      this.text, lines := text, [];
    }

    ghost predicate Written()
      reads this
    {
      text == Unlines(lines)
    }

    method Open()
      modifies this
      ensures Written() && lines == []
    {
      text, lines := "", [];
    }

    method Print(line: string)
      requires Written()
      modifies this
      ensures Written() && lines == old(lines) + [line]
    {
      UnlinesAppend(lines, [line]);
      text := text + line + "\n";
      lines := lines + [line];
    }
  }

  method GenerateStable(f: MapFile, major: string, functions: set<string>)
    requires f.Written()
    modifies f
    ensures f.Written() && f.lines == old(f.lines) + StableBlock(major, SortedOf(functions))
  {
    hide Before, SortedOf, Unlines, Tabbed, f.Written;
    ghost var start := f.lines;
    f.Print("DPDK_" + major + " {");
    if functions != {} {
      f.Print("\tglobal:");
      f.Print("");
      var q := Sorted(functions);
      PrintTabbed(f, q);
      f.Print("");
      SortedHead(functions);
    } else {
      NothingSorted();
    }
    f.Print("\tlocal: *;");
    f.Print("};");
    assert f.lines == start + StableBlock(major, SortedOf(functions));
  }

  lemma NothingSorted()
    ensures SortedOf({}) == []
  {
  }

  method PrintTabbed(f: MapFile, q: seq<string>)
    requires f.Written()
    modifies f
    ensures f.Written() && f.lines == old(f.lines) + Tabbed(q)
  {
    hide f.Written, Unlines;
    ghost var before := f.lines;
    for i := 0 to |q|
      invariant f.Written() && f.lines == before + Tabbed(q)[..i]
    {
      f.Print("\t" + q[i]);
      assert Tabbed(q)[..i + 1] == Tabbed(q)[..i] + ["\t" + q[i]];
    }
    assert Tabbed(q)[..|q|] == Tabbed(q);
  }

  method GenerateVerbatim(f: MapFile, name: string, lines: seq<string>)
    requires f.Written()
    modifies f
    ensures f.Written() && f.lines == old(f.lines) + VerbatimBlock(name, lines)
  {
    hide Indented, Unlines, f.Written;
    ghost var start := f.lines;
    f.Print(name + " {");
    PrintIndented(f, lines);
    f.Print("};");
    assert f.lines == start + VerbatimBlock(name, lines);
  }

  method PrintIndented(f: MapFile, q: seq<string>)
    requires f.Written()
    modifies f
    ensures f.Written() && f.lines == old(f.lines) + Indented(q)
  {
    hide f.Written, Unlines;
    ghost var before := f.lines;
    for i := 0 to |q|
      invariant f.Written() && f.lines == before + Indented(q)[..i]
    {
      if q[i] == "" {
        f.Print("");
      } else {
        f.Print("\t" + q[i]);
      }
      assert Indented(q)[..i + 1] == Indented(q)[..i] + [Indented(q)[i]];
    }
    assert Indented(q)[..|q|] == Indented(q);
  }

  /** Rewrites the file in place. */
  method Update(f: MapFile, major: string)
    modifies f
    ensures f.text == Rewrite(old(f.text), major)
  {
    hide StableBlock, VerbatimBlock, SortedOf, Parse;
    ghost var p := Parse(Lines(f.text));
    var hasStable, stable, experimental, internal := ParseMapFile(Lines(f.text));
    f.Open();
    if hasStable {
      GenerateStable(f, major, stable);
    }
    if hasStable && experimental != [] {
      f.Print("");
    }
    if experimental != [] {
      GenerateVerbatim(f, "EXPERIMENTAL", experimental);
    }
    if internal != [] {
      if hasStable || experimental != [] {
        f.Print("");
      }
      GenerateVerbatim(f, "INTERNAL", internal);
    }
    assert f.lines == Output(p, major);
  }
}
