/** The three regular expressions of the version map script, and what a line of the file can be. */
module MapLines {
  import opened Scanning

  // ----- the three expressions -----

  const END: seq<Item> := [Star(Space), Lit('}'), Star(Space), Star(Name), Star(Space), Lit(';'), Star(Space)]
  const BEGIN: seq<Item> := [Star(Space), Plus(Name), Star(Space), Lit('{'), Star(Space)]
  const FUNC: seq<Item> := [Star(Space), Plus(Word), Star(Space), Lit(';'), Star(Space)]
  const FUNC_COMMENT: seq<Item> :=
    [Star(Space), Plus(Word), Star(Space), Lit(';'), Star(Space), Lit('#'), Plus(Any), Star(Space)]

  predicate IsEnd(s: string) {
    Scan(END, s)
  }

  predicate IsBegin(s: string) {
    Scan(BEGIN, s)
  }

  /** The group `version` */
  function Version(s: string): string {
    var t := Skip(s, Space);
    t[..Span(t, Name)]
  }

  predicate IsFunc(s: string) {
    Scan(FUNC, s) || Scan(FUNC_COMMENT, s)
  }

  /** The scans decide what the expressions say. */
  lemma ExpressionsDecided(s: string)
    ensures IsEnd(s) <==> Matches(END, s)
    ensures IsBegin(s) <==> Matches(BEGIN, s)
    ensures IsFunc(s) <==> Matches(FUNC, s) || Matches(FUNC_COMMENT, s)
  {
    assert Greedy(END) && Greedy(BEGIN) && Greedy(FUNC) && Greedy(FUNC_COMMENT);
    ScanIsMatch(END, s);
    ScanIsMatch(BEGIN, s);
    ScanIsMatch(FUNC, s);
    ScanIsMatch(FUNC_COMMENT, s);
  }

  /** The scans written out. */
  lemma EndUnrolled(s: string)
    ensures IsEnd(s) <==>
            var t := Skip(s, Space);
            t != "" && t[0] == '}' &&
            var u := Skip(Skip(Skip(t[1..], Space), Name), Space);
            u != "" && u[0] == ';' && Skip(u[1..], Space) == ""
  {
    var tail := [Star(Space)] + ([Star(Name)] + ([Star(Space)] + ([Lit(';')] + ([Star(Space)] + []))));
    assert END == [Star(Space)] + ([Lit('}')] + tail);
    var t := Skip(s, Space);
    Unroll(Star(Space), [Lit('}')] + tail, s);
    Unroll(Lit('}'), tail, t);
    if t != "" && t[0] == '}' {
      var t1 := Skip(t[1..], Space);
      var t2 := Skip(t1, Name);
      var u := Skip(t2, Space);
      Unroll(Star(Space), [Star(Name)] + ([Star(Space)] + ([Lit(';')] + ([Star(Space)] + []))), t[1..]);
      Unroll(Star(Name), [Star(Space)] + ([Lit(';')] + ([Star(Space)] + [])), t1);
      UnrollTail(';', t2);
    }
  }

  lemma Unroll(i: Item, e: seq<Item>, s: string)
    ensures Scan([i] + e, s) ==
            if i.Lit? then s != "" && s[0] == i.c && Scan(e, s[1..])
            else (i.Plus? ==> Span(s, i.k) > 0) && Scan(e, Skip(s, i.k))
  {
    assert ([i] + e)[0] == i && ([i] + e)[1..] == e;
  }

  /** `\s*c\s*$` */
  lemma UnrollTail(c: char, s: string)
    ensures Scan([Star(Space)] + ([Lit(c)] + ([Star(Space)] + [])), s) <==>
            var u := Skip(s, Space);
            u != "" && u[0] == c && Skip(u[1..], Space) == ""
  {
    var u := Skip(s, Space);
    Unroll(Star(Space), [Lit(c)] + ([Star(Space)] + []), s);
    Unroll(Lit(c), [Star(Space)] + [], u);
    if u != "" {
      Unroll(Star(Space), [], u[1..]);
    }
  }

  lemma BeginUnrolled(s: string)
    ensures IsBegin(s) <==>
            var t := Skip(s, Space);
            Span(t, Name) > 0 &&
            var u := Skip(Skip(t, Name), Space);
            u != "" && u[0] == '{' && Skip(u[1..], Space) == ""
  {
    assert BEGIN == [Star(Space)] + ([Plus(Name)] + ([Star(Space)] + ([Lit('{')] + ([Star(Space)] + []))));
    var t := Skip(s, Space);
    Unroll(Star(Space), [Plus(Name)] + ([Star(Space)] + ([Lit('{')] + ([Star(Space)] + []))), s);
    Unroll(Plus(Name), [Star(Space)] + ([Lit('{')] + ([Star(Space)] + [])), t);
    UnrollTail('{', Skip(t, Name));
  }

  /** What of a function line is needed here: a word first, then `;`. */
  lemma FuncUnrolled(s: string)
    ensures IsFunc(s) ==>
              var t := Skip(s, Space);
              Span(t, Word) > 0 &&
              var u := Skip(Skip(t, Word), Space);
              u != "" && u[0] == ';'
  {
    var tail := [Lit('#')] + [Plus(Any), Star(Space)];
    assert FUNC == [Star(Space)] + ([Plus(Word)] + ([Star(Space)] + ([Lit(';')] + [Star(Space)])));
    assert FUNC_COMMENT == [Star(Space)] + ([Plus(Word)] + ([Star(Space)] + ([Lit(';')] + ([Star(Space)] + tail))));
    var t := Skip(s, Space);
    FuncHead([Star(Space)], s);
    FuncHead([Star(Space)] + tail, s);
  }

  lemma FuncHead(e: seq<Item>, s: string)
    ensures Scan([Star(Space)] + ([Plus(Word)] + ([Star(Space)] + ([Lit(';')] + e))), s) ==>
              var t := Skip(s, Space);
              Span(t, Word) > 0 &&
              var u := Skip(Skip(t, Word), Space);
              u != "" && u[0] == ';'
  {
    var t := Skip(s, Space);
    Unroll(Star(Space), [Plus(Word)] + ([Star(Space)] + ([Lit(';')] + e)), s);
    Unroll(Plus(Word), [Star(Space)] + ([Lit(';')] + e), t);
    Unroll(Star(Space), [Lit(';')] + e, Skip(t, Word));
    Unroll(Lit(';'), e, Skip(Skip(t, Word), Space));
  }

  /** A line is at most one of the three things. */
  lemma Exclusive(s: string)
    ensures IsFunc(s) ==> !IsEnd(s) && !IsBegin(s)
    ensures IsBegin(s) ==> !IsEnd(s)
  {
    EndUnrolled(s);
    BeginUnrolled(s);
    FuncUnrolled(s);
    var t := Skip(s, Space);
    if IsFunc(s) || IsBegin(s) {
      FirstOfSpan(t, Word);
      FirstOfSpan(t, Name);
    }
    if IsFunc(s) {
      var rest := Skip(t, Word);
      SpanSplits(t, Word);
      FirstAfter(rest, ';');
      SpanIs(t[..Span(t, Word)], rest, Name);
    }
  }

  lemma FirstOfSpan(t: string, k: Class)
    ensures Span(t, k) > 0 ==> t != "" && In(t[0], k)
  {
    assert Span(t, k) > 0 ==> t[..Span(t, k)][0] == t[0];
  }

  lemma SpanSplits(t: string, k: Class)
    ensures t == t[..Span(t, k)] + Skip(t, k)
  {
  }

  /** The first character is a space or the one that follows the spaces. */
  lemma FirstAfter(s: string, c: char)
    requires Skip(s, Space) != "" && Skip(s, Space)[0] == c
    ensures s != "" && (s[0] == c || In(s[0], Space))
  {
    FirstOfSpan(s, Space);
  }

  // ----- the lines that the script itself writes -----

  lemma StrippedSkips(s: string)
    requires s != "" && !In(s[0], Space)
    ensures Skip(s, Space) == s
  {
    assert s == "" + s;
    SpanIs("", s, Space);
  }

  /** The script's own section end. */
  lemma EndLine()
    ensures IsEnd("};")
  {
    hide Scan, IsEnd, Span;
    EndUnrolled("};");
    StrippedSkips("};");
    assert "};"[1..] == ";" && ";"[1..] == "";
    StrippedSkips(";");
    assert ";" == "" + ";";
    SpanIs("", ";", Name);
    assert Skip("", Space) == "";
  }

  /** A section header for a name: the name is read back if its characters are all right. */
  lemma BeginLine(name: string)
    requires name != "" && All(name, Name)
    ensures IsBegin(name + " {") && Version(name + " {") == name && !IsEnd(name + " {")
  {
    var s := name + " {";
    BeginUnrolled(s);
    StrippedSkips(s);
    SpanIs(name, " {", Name);
    assert " {" == " " + "{" && "{"[1..] == "";
    SpanIs(" ", "{", Space);
    Exclusive(s);
  }

  /** Otherwise the line is not recognised as anything. */
  lemma BadBeginLine(name: string)
    requires name != "" && In(name[0], Word) && !All(name, Name)
    requires forall i | 0 <= i < |name| :: !In(name[i], Space) && name[i] != '{' && name[i] != ';'
    ensures var s := name + " {"; !IsBegin(s) && !IsEnd(s) && !IsFunc(s)
  {
    var s := name + " {";
    StrippedSkips(s);
    EndUnrolled(s);
    BeginUnrolled(s);
    FuncUnrolled(s);
    var n, w := Span(name, Name), Span(name, Word);
    SpanSplits(name, Name);
    SpanSplits(name, Word);
    assert name[..n] + Skip(name, Name) == name && name[..w] + Skip(name, Word) == name;
    StoppedInside(name, " {", Name);
    StoppedInside(name, " {", Word);
    StrippedSkips(Skip(name, Name) + " {");
    StrippedSkips(Skip(name, Word) + " {");
  }

  lemma StoppedInside(name: string, rest: string, k: Class)
    requires !All(name, k)
    ensures Skip(name, k) != "" && Skip(name + rest, k) == Skip(name, k) + rest
    ensures Skip(name, k)[0] in name
  {
    var n := Span(name, k);
    assert name[..|name|] == name;
    assert name + rest == name[..n] + (Skip(name, k) + rest);
    SpanIs(name[..n], Skip(name, k) + rest, k);
    assert Skip(name, k)[0] == name[n];
  }

  /** A word, a colon and anything else: neither of the three. */
  lemma LabelLine(word: string, rest: string)
    requires word != "" && All(word, Word) && rest != "" && rest[0] == ':'
    ensures var s := word + rest; !IsBegin(s) && !IsEnd(s) && !IsFunc(s)
  {
    var s := word + rest;
    StrippedSkips(s);
    EndUnrolled(s);
    BeginUnrolled(s);
    FuncUnrolled(s);
    SpanIs(word, rest, Name);
    SpanIs(word, rest, Word);
    StrippedSkips(rest);
  }

  /** What may follow the `;` of a function line: nothing, or a comment. */
  lemma FuncTail(s: string)
    ensures IsFunc(s) ==>
              var u := Skip(Skip(Skip(s, Space), Word), Space);
              u != "" && var w := Skip(u[1..], Space); w == "" || w[0] == '#'
  {
    hide Scan, Skip;
    var u := Skip(Skip(Skip(s, Space), Word), Space);
    FuncForms();
    FuncParts([Star(Space)] + [], s);
    FuncParts([Star(Space)] + ([Lit('#')] + [Plus(Any), Star(Space)]), s);
    if u != "" {
      TailForms(u[1..]);
    }
  }

  lemma FuncForms()
    ensures FUNC == [Star(Space)] + ([Plus(Word)] + ([Star(Space)] + ([Lit(';')] + ([Star(Space)] + []))))
    ensures FUNC_COMMENT ==
            [Star(Space)] + ([Plus(Word)] + ([Star(Space)] + ([Lit(';')] +
                ([Star(Space)] + ([Lit('#')] + [Plus(Any), Star(Space)])))))
  {
  }

  lemma TailForms(s: string)
    ensures Scan([Star(Space)] + [], s) ==> Skip(s, Space) == ""
    ensures Scan([Star(Space)] + ([Lit('#')] + [Plus(Any), Star(Space)]), s) ==>
              Skip(s, Space) != "" && Skip(s, Space)[0] == '#'
  {
    Unroll(Star(Space), [], s);
    Unroll(Star(Space), [Lit('#')] + [Plus(Any), Star(Space)], s);
    Unroll(Lit('#'), [Plus(Any), Star(Space)], Skip(s, Space));
  }

  lemma FuncParts(e: seq<Item>, s: string)
    ensures Scan([Star(Space)] + ([Plus(Word)] + ([Star(Space)] + ([Lit(';')] + e))), s) ==>
              var u := Skip(Skip(Skip(s, Space), Word), Space);
              u != "" && Scan(e, u[1..])
  {
    var t := Skip(s, Space);
    Unroll(Star(Space), [Plus(Word)] + ([Star(Space)] + ([Lit(';')] + e)), s);
    Unroll(Plus(Word), [Star(Space)] + ([Lit(';')] + e), t);
    Unroll(Star(Space), [Lit(';')] + e, Skip(t, Word));
    Unroll(Lit(';'), e, Skip(Skip(t, Word), Space));
  }

  /** A word, `; ` and another word: what the scans come to. */
  lemma TwoWords(a: string, second: string)
    requires a != "" && second != "" && All(a, Word) && In(second[0], Word)
    ensures var s, rest := a + ("; " + second), "; " + second;
            && s != "" && Skip(s, Space) == s && s[0] != '}'
            && Skip(s, Word) == rest && Skip(s, Name) == rest && Skip(rest, Space) == rest
            && rest[0] == ';' && Skip(rest[1..], Space) == second && second[0] != '#'
  {
    var s, rest := a + ("; " + second), "; " + second;
    assert s[0] == a[0];
    StrippedSkips(s);
    SpanIs(a, rest, Word);
    SpanIs(a, rest, Name);
    StrippedSkips(rest);
    assert rest[1..] == " " + second;
    SpanIs(" ", second, Space);
  }

  /** Two functions on one line are not recognised as anything. */
  lemma TwoOnALine(a: string, b: string)
    requires a != "" && b != "" && All(a, Word) && All(b, Word)
    ensures var s := a + "; " + b + ";"; !IsFunc(s) && !IsBegin(s) && !IsEnd(s) && Stripped(s)
  {
    var s, second := a + "; " + b + ";", b + ";";
    assert second[0] == b[0];
    assert s == a + ("; " + second);
    assert s[0] == a[0] && s[|s| - 1] == ';';
    hide Scan, Span, Skip, IsFunc, IsBegin, IsEnd, All;
    TwoWords(a, second);
    EndUnrolled(s);
    BeginUnrolled(s);
    FuncTail(s);
  }

  /** A plain function line. */
  lemma FuncLine(name: string)
    requires name != "" && All(name, Word)
    ensures var s := name + ";"; IsFunc(s) && !IsBegin(s) && !IsEnd(s) && Stripped(s) && All(s, Any)
  {
    hide Scan;
    var s := name + ";";
    var e := [Star(Space)] + ([Lit(';')] + ([Star(Space)] + []));
    assert FUNC == [Star(Space)] + ([Plus(Word)] + e);
    Unroll(Star(Space), [Plus(Word)] + e, s);
    StrippedSkips(s);
    ScanStar(Word, e, name, ";");
    UnrollTail(';', ";");
    StrippedSkips(";");
    assert ";"[1..] == "";
    Exclusive(s);
  }
}
