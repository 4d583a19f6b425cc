/**
 * Which texts the ACL test takes for an IPv6 network. Of `strtoul` only what the C standard says of
 * where it stops is needed; the `strtoul` of the standard is written out to show that it is of this
 * kind, and that a printed network is read back.
 */
module AclText {
  import opened Acl
  import opened Bits

  // ----- texts -----

  predicate Delimiter(c: char) {
    c == ':' || c == '/'
  }

  /** No delimiter, and no end of string, in it. */
  predicate Plain(s: string) {
    forall i | 0 <= i < |s| :: !Delimiter(s[i]) && s[i] != NUL
  }

  predicate Ends(rest: string) {
    rest == "" || Delimiter(rest[0])
  }

  predicate NulFree(s: string) {
    forall i | 0 <= i < |s| :: s[i] != NUL
  }

  /** In the two bases in use, a number never goes past a delimiter, and what is behind one does not matter. */
  ghost predicate Honest(strtoul: Strtoul) {
    forall s, rest, base | Plain(s) && Ends(rest) && (base == 0 || base == 16) :: StopsInside(strtoul, s, rest, base)
  }

  ghost predicate StopsInside(strtoul: Strtoul, s: string, rest: string, base: nat) {
    var n := strtoul(s, base);
    && |n.end| <= |s| && s[|s| - |n.end|..] == n.end
    && strtoul(s + rest, base) == Number(n.error, n.val, n.end + rest)
  }

  /** The whole of `s` is a number. */
  predicate Reads(strtoul: Strtoul, s: string, base: nat, v: nat) {
    Plain(s) && strtoul(s, base) == Number(false, v, "")
  }

  /** Length of the text in front of the first delimiter. */
  function Cut(text: string): (n: nat)
    ensures n <= |text| && Ends(text[n..]) && (NulFree(text) ==> Plain(text[..n]))
  {
    if text == "" || Delimiter(text[0]) then 0 else 1 + Cut(text[1..])
  }

  lemma {:induction false} CutIs(s: string, rest: string)
    requires Plain(s) && Ends(rest)
    ensures Cut(s + rest) == |s|
  {
    if s == "" {
      assert s + rest == rest;
    } else {
      assert (s + rest)[1..] == s[1..] + rest && (s + rest)[0] == s[0];
      CutIs(s[1..], rest);
    }
  }

  // ----- one field -----

  /**
   * A field is accepted exactly if what is in front of the first delimiter is a number, and the delimiter
   * is the right one.
   */
  lemma FieldText(strtoul: Strtoul, s: string, rest: string, base: nat, lim: nat, dlm: char)
    requires Honest(strtoul) && Plain(s) && Ends(rest) && NulFree(rest)
    requires (base == 0 || base == 16) && (Delimiter(dlm) || dlm == NUL)
    ensures var r := Field(strtoul, s + rest, base, lim, dlm);
            r.Parsed? ==>
              Reads(strtoul, s, base, r.value) && r.value <= lim && CharAt(rest) == dlm && r.rest == After(rest)
    ensures forall v: nat | Reads(strtoul, s, base, v) && v <= lim && CharAt(rest) == dlm ::
              Field(strtoul, s + rest, base, lim, dlm) == Parsed(v, After(rest))
  {
    assert StopsInside(strtoul, s, rest, base);
    var n := strtoul(s, base);
    if n.end == "" {
      assert n.end + rest == rest;
    } else {
      assert n.end[0] == s[|s| - |n.end|] == (n.end + rest)[0];
    }
  }

  // ----- the address -----

  /** The groups with a colon behind each of them but the last, and a slash behind that one. */
  function Spelled(parts: seq<string>): string {
    if parts == [] then "" else parts[0] + [if |parts| == 1 then '/' else ':'] + Spelled(parts[1..])
  }

  ghost predicate AllRead(strtoul: Strtoul, parts: seq<string>, g: seq<nat>) {
    |parts| == |g| && forall i | 0 <= i < |g| :: Reads(strtoul, parts[i], 16, g[i]) && g[i] <= 65535
  }

  /** What is in front of the last part, taken apart at the first delimiter. */
  lemma SpelledParts(parts: seq<string>, rest: string)
    requires parts != []
    ensures var dlm := if |parts| == 1 then '/' else ':';
            Spelled(parts) + rest == parts[0] + ([dlm] + (Spelled(parts[1..]) + rest))
  {
    Regroup(parts[0], [if |parts| == 1 then '/' else ':'], Spelled(parts[1..]), rest);
  }

  lemma Regroup(a: string, b: string, c: string, d: string)
    ensures a + b + c + d == a + (b + (c + d))
  {
  }

  /** One group and the others. */
  lemma GroupsUnfold(strtoul: Strtoul, text: string, n: nat)
    requires n > 0
    ensures var first := Field(strtoul, text, 16, 65535, if n == 1 then '/' else ':');
            && (Groups(strtoul, text, n, '/').Parsed? <==>
                 first.Parsed? && Groups(strtoul, first.rest, n - 1, '/').Parsed?)
            && (Groups(strtoul, text, n, '/').Parsed? ==>
                  var others := Groups(strtoul, first.rest, n - 1, '/');
                  Groups(strtoul, text, n, '/') == Parsed([first.value] + others.value, others.rest))
  {
  }

  lemma DelimiterFirst(dlm: char, others: string)
    requires Delimiter(dlm) && NulFree(others)
    ensures var rest := [dlm] + others;
            Ends(rest) && CharAt(rest) == dlm && After(rest) == others && NulFree(rest)
  {
  }

  lemma {:induction false} SpelledGroups(strtoul: Strtoul, parts: seq<string>, g: seq<nat>, rest: string)
    requires Honest(strtoul) && AllRead(strtoul, parts, g) && NulFree(rest)
    ensures NulFree(Spelled(parts) + rest)
    ensures Groups(strtoul, Spelled(parts) + rest, |g|, '/') == Parsed(g, rest)
    decreases |g|
  {
    hide Honest, Groups, Field;
    if g == [] {
      assert Spelled(parts) + rest == rest;
      NoGroups(strtoul, rest);
    } else {
      var dlm := if |parts| == 1 then '/' else ':';
      SpelledGroups(strtoul, parts[1..], g[1..], rest);
      var others := Spelled(parts[1..]) + rest;
      hide Spelled;
      SpelledParts(parts, rest);
      DelimiterFirst(dlm, others);
      FieldText(strtoul, parts[0], [dlm] + others, 16, 65535, dlm);
      GroupsUnfold(strtoul, Spelled(parts) + rest, |g|);
      assert g == [g[0]] + g[1..];
    }
  }

  lemma NoGroups(strtoul: Strtoul, text: string)
    ensures Groups(strtoul, text, 0, '/') == Parsed([], text) && Spelled([]) + text == text
  {
  }

  lemma {:induction false} GroupsSpelled(strtoul: Strtoul, text: string, n: nat) returns (parts: seq<string>)
    requires Honest(strtoul) && NulFree(text) && Groups(strtoul, text, n, '/').Parsed?
    ensures var r := Groups(strtoul, text, n, '/');
            AllRead(strtoul, parts, r.value) && |parts| == n && text == Spelled(parts) + r.rest && NulFree(r.rest)
    decreases n
  {
    hide Honest, Groups, Field, Spelled;
    if n == 0 {
      NoGroups(strtoul, text);
      parts := [];
    } else {
      var dlm := if n == 1 then '/' else ':';
      var s, behind := text[..Cut(text)], text[Cut(text)..];
      assert text == s + behind;
      GroupsUnfold(strtoul, text, n);
      FieldText(strtoul, s, behind, 16, 65535, dlm);
      var first := Field(strtoul, text, 16, 65535, dlm);
      assert behind == [dlm] + first.rest;
      var others := GroupsSpelled(strtoul, first.rest, n - 1);
      parts := [s] + others;
      assert parts[1..] == others;
      SpelledParts(parts, Groups(strtoul, text, n, '/').rest);
    }
  }

  // ----- the network -----

  ghost predicate SpellsNet(strtoul: Strtoul, text: string, parts: seq<string>, last: string, g: seq<nat>, m: nat) {
    && |g| == 8 && AllRead(strtoul, parts, g) && Reads(strtoul, last, 0, m) && m <= 128
    && text == Spelled(parts) + last
  }

  /** Eight hexadecimal groups of 16 bits, a prefix length up to 128, the delimiters between them, and nothing else. */
  lemma NetText(strtoul: Strtoul, text: string, g: seq<nat>, m: nat)
    requires Honest(strtoul) && NulFree(text)
    ensures Accepted(strtoul, text, g, m) <==> exists parts, last :: SpellsNet(strtoul, text, parts, last, g, m)
  {
    if Accepted(strtoul, text, g, m) {
      var r := Groups(strtoul, text, 8, '/');
      var parts := GroupsSpelled(strtoul, text, 8);
      LastText(strtoul, r.rest, m);
      assert SpellsNet(strtoul, text, parts, r.rest, g, m);
    }
    forall parts, last | SpellsNet(strtoul, text, parts, last, g, m) ensures Accepted(strtoul, text, g, m) {
      SpelledGroups(strtoul, parts, g, last);
      LastText(strtoul, last, m);
    }
  }

  /** The prefix length takes up all that is left of the text. */
  lemma LastText(strtoul: Strtoul, text: string, m: nat)
    requires Honest(strtoul) && NulFree(text)
    ensures var f := Field(strtoul, text, 0, 128, NUL);
            f.Parsed? && f.value == m <==> Reads(strtoul, text, 0, m) && m <= 128
  {
    var s, rest := text[..Cut(text)], text[Cut(text)..];
    assert text == s + rest;
    FieldText(strtoul, s, rest, 0, 128, NUL);
    if Plain(text) {
      CutIs(text, "");
      assert text + "" == text;
    }
  }

  // ----- `strtoul` as in section 7.22.1.4 of the C standard -----

  const ULONG_MAX: nat := 0xffff_ffff_ffff_ffff

  /** Value of a digit; 16 if it is none up to base 16. */
  function Digit(c: char): nat {
    if '0' <= c <= '9' then c as nat - '0' as nat
    else if 'a' <= c <= 'f' then c as nat - 'a' as nat + 10
    else if 'A' <= c <= 'F' then c as nat - 'A' as nat + 10
    else 16
  }

  function Digits(s: string, base: nat): (n: nat)
    ensures n <= |s|
  {
    if s != "" && Digit(s[0]) < base then 1 + Digits(s[1..], base) else 0
  }

  function Value(digits: string, base: nat): nat {
    if digits == "" then 0
    else Value(digits[..|digits| - 1], base) * base + Digit(digits[|digits| - 1])
  }

  function NoSpace(s: string): (t: string)
    ensures |t| <= |s|
  {
    if s != "" && IsSpace(s[0]) then NoSpace(s[1..]) else s
  }

  predicate Signed(s: string) {
    s != "" && (s[0] == '+' || s[0] == '-')
  }

  predicate HexPrefix(s: string) {
    |s| >= 3 && s[0] == '0' && (s[1] == 'x' || s[1] == 'X') && Digit(s[2]) < 16
  }

  function Base(s: string, base: nat): nat {
    if base != 0 then base else if HexPrefix(s) then 16 else if s != "" && s[0] == '0' then 8 else 10
  }

  /** What is left when white space, sign and prefix have been read. */
  function Numeral(text: string): string {
    var t := NoSpace(text);
    if Signed(t) then t[1..] else t
  }

  function Unprefixed(u: string, base: nat): string {
    if base == 16 && HexPrefix(u) then u[2..] else u
  }

  function StandardStrtoul(text: string, base: nat): Number {
    var u := Numeral(text);
    var b := Base(u, base);
    var d := Unprefixed(u, b);
    var n := Digits(d, b);
    var v := Value(d[..n], b);
    if n == 0 then Number(false, 0, text)
    else if v > ULONG_MAX then Number(true, ULONG_MAX, d[n..])
    else
      var negated := Signed(NoSpace(text)) && NoSpace(text)[0] == '-' && v > 0;
      Number(false, if negated then ULONG_MAX + 1 - v else v, d[n..])
  }

  // ----- it is honest -----

  predicate Suffix(t: string, s: string) {
    |t| <= |s| && s[|s| - |t|..] == t
  }

  lemma PlainSuffix(t: string, s: string, n: nat)
    requires Suffix(t, s) && n <= |t|
    ensures Suffix(t[n..], s) && (Plain(s) ==> Plain(t[n..]))
  {
    assert forall i | 0 <= i < |t| :: t[i] == s[|s| - |t| + i];
  }

  lemma {:induction false} NoSpaceMore(s: string, rest: string)
    requires Ends(rest)
    ensures NoSpace(s + rest) == NoSpace(s) + rest && Suffix(NoSpace(s), s)
  {
    if s == "" {
      assert s + rest == rest;
    } else {
      assert (s + rest)[0] == s[0] && (s + rest)[1..] == s[1..] + rest;
      NoSpaceMore(s[1..], rest);
    }
  }

  lemma NumeralMore(s: string, rest: string)
    requires Ends(rest) && Plain(s)
    ensures Numeral(s + rest) == Numeral(s) + rest && Suffix(Numeral(s), s) && Plain(Numeral(s))
    ensures Signed(NoSpace(s + rest)) == Signed(NoSpace(s))
    ensures Signed(NoSpace(s)) ==> NoSpace(s + rest)[0] == NoSpace(s)[0]
  {
    NoSpaceMore(s, rest);
    var t := NoSpace(s);
    PlainSuffix(t, s, 0);
    assert t[0..] == t;
    if Signed(t) {
      PlainSuffix(t, s, 1);
    } else if t == "" {
      assert t + rest == rest;
    }
  }

  lemma PrefixMore(u: string, rest: string, base: nat)
    requires Ends(rest)
    ensures HexPrefix(u + rest) == HexPrefix(u) && Base(u + rest, base) == Base(u, base)
    ensures Unprefixed(u + rest, base) == Unprefixed(u, base) + rest && Suffix(Unprefixed(u, base), u)
  {
    if u == "" {
      assert u + rest == rest;
    }
    assert forall i | 0 <= i < |u| :: (u + rest)[i] == u[i];
    assert |u| < |u + rest| ==> (u + rest)[|u|] == rest[0];
  }

  lemma {:induction false} DigitsMore(d: string, rest: string, base: nat)
    requires Ends(rest) && base <= 16
    ensures Digits(d + rest, base) == Digits(d, base)
  {
    if d == "" {
      assert d + rest == rest;
    } else {
      assert (d + rest)[0] == d[0] && (d + rest)[1..] == d[1..] + rest;
      DigitsMore(d[1..], rest, base);
    }
  }

  lemma SuffixOfSuffix(a: string, b: string, c: string)
    requires Suffix(a, b) && Suffix(b, c)
    ensures Suffix(a, c)
  {
  }

  lemma CutMore(d: string, rest: string, n: nat)
    requires n <= |d|
    ensures (d + rest)[..n] == d[..n] && (d + rest)[n..] == d[n..] + rest
  {
  }

  lemma StandardStops(s: string, rest: string, base: nat)
    requires Plain(s) && Ends(rest) && (base == 0 || base == 16)
    ensures StopsInside(StandardStrtoul, s, rest, base)
  {
    hide NoSpace, Digits, Value, Signed, HexPrefix, Numeral, Unprefixed, Plain, Ends;
    NumeralMore(s, rest);
    var u := Numeral(s);
    PrefixMore(u, rest, base);
    var b := Base(u, base);
    PrefixMore(u, rest, b);
    var d := Unprefixed(u, b);
    DigitsMore(d, rest, b);
    var n := Digits(d, b);
    SuffixOfSuffix(d, u, s);
    PlainSuffix(d, s, n);
    CutMore(d, rest, n);
  }

  lemma StandardHonest()
    ensures Honest(StandardStrtoul)
  {
    forall s, rest, base | Plain(s) && Ends(rest) && (base == 0 || base == 16)
      ensures StopsInside(StandardStrtoul, s, rest, base)
    {
      StandardStops(s, rest, base);
    }
  }

  // ----- printed networks -----

  function Symbol(d: nat): (c: char)
    requires d < 16
    ensures Digit(c) == d && !Delimiter(c) && c != NUL && !IsSpace(c) && c != '+' && c != '-' && (c == '0' <==> d == 0)
  {
    if d < 10 then '0' + d as char else 'a' + (d - 10) as char
  }

  lemma Quotient(v: nat, base: nat)
    requires 2 <= base
    ensures v / base * base + v % base == v && v % base < base
    ensures v >= base ==> 0 < v / base < v
    ensures v < base ==> v % base == v
  {
    var q, r := v / base, v % base;
    assert v == base * q + r;
    assert base * q >= 2 * q;
  }

  function Print(v: nat, base: nat): (s: string)
    requires 2 <= base <= 16
    ensures s != ""
  {
    Quotient(v, base);
    (if v < base then "" else Print(v / base, base)) + [Symbol(v % base)]
  }

  predicate Digital(s: string, base: nat) {
    forall i | 0 <= i < |s| :: Digit(s[i]) < base && !IsSpace(s[i]) && s[i] != '+' && s[i] != '-' && s[i] != NUL
  }

  lemma PrintOne(v: nat, base: nat)
    requires 2 <= base <= 16
    ensures v < base ==> Print(v, base) == [Symbol(v)]
    ensures v >= base ==> v / base < v && Print(v, base) == Print(v / base, base) + [Symbol(v % base)]
  {
    Quotient(v, base);
  }

  lemma DigitalMore(s: string, d: nat, base: nat)
    requires d < base <= 16 && Digital(s, base) && Plain(s)
    ensures Digital(s + [Symbol(d)], base) && Plain(s + [Symbol(d)])
    ensures Value(s + [Symbol(d)], base) == Value(s, base) * base + d
  {
    assert (s + [Symbol(d)])[..|s|] == s;
  }

  lemma {:induction false} PrintedValue(v: nat, base: nat)
    requires 2 <= base <= 16
    ensures var s := Print(v, base);
            Value(s, base) == v && Digital(s, base) && Plain(s) && (s[0] == '0' ==> s == "0")
  {
    hide *;
    PrintOne(v, base);
    Quotient(v, base);
    NoDigits(base);
    if v < base {
      DigitalMore("", v, base);
      assert "" + [Symbol(v)] == [Symbol(v)];
    } else {
      PrintedValue(v / base, base);
      DigitalMore(Print(v / base, base), v % base, base);
      NotZero(v / base, base);
    }
  }

  lemma NoDigits(base: nat)
    ensures Value("", base) == 0 && Digital("", base) && Plain("") && 0 * base == 0
  {
  }

  lemma NotZero(v: nat, base: nat)
    requires 2 <= base <= 16 && v > 0
    ensures Print(v, base)[0] != '0'
  {
    Quotient(v, base);
    if v >= base {
      NotZero(v / base, base);
    }
  }

  lemma {:induction false} AllDigits(s: string, base: nat)
    requires Digital(s, base)
    ensures Digits(s, base) == |s|
  {
    if s != "" {
      AllDigits(s[1..], base);
    }
  }

  /** A printed number is read back, in base 16 and, if it is decimal, in base 0. */
  lemma PrintedReads(v: nat)
    requires v <= 65535
    ensures Reads(StandardStrtoul, Print(v, 16), 16, v) && Reads(StandardStrtoul, Print(v, 10), 0, v)
  {
    PrintedRead(v, 16, 16);
    PrintedRead(v, 10, 0);
  }

  lemma PrintedRead(v: nat, shown: nat, base: nat)
    requires v <= 65535 && ((shown == base == 16) || (shown == 10 && base == 0))
    ensures Reads(StandardStrtoul, Print(v, shown), base, v)
  {
    hide Print, Value, Digits, Digital, Plain;
    var s := Print(v, shown);
    PrintedValue(v, shown);
    DigitalText(s, shown);
    AllDigits(s, shown);
    assert s[..|s|] == s && s[|s|..] == "";
    if shown == 10 && s[0] == '0' {
      assert s == "0";
      ZeroText();
    }
  }

  /** Nothing in front of the digits. */
  lemma DigitalText(s: string, base: nat)
    requires s != "" && Digital(s, base) && base <= 16
    ensures NoSpace(s) == s && !Signed(s) && Numeral(s) == s && !HexPrefix(s)
  {
    assert |s| >= 3 ==> Digit(s[1]) < base;
  }

  /** Zero looks octal. */
  lemma ZeroText()
    ensures Digits("0", 8) == 1 && Value("0", 8) == 0 == Value("0", 10)
  {
    assert "0"[..0] == "" && "0"[1..] == "";
  }

  /** A network written with eight hexadecimal groups and a decimal prefix length is accepted as what was written. */
  lemma PrintedNet(g: seq<nat>, m: nat)
    requires |g| == 8 && (forall i | 0 <= i < 8 :: g[i] <= 65535) && m <= 128
    ensures var parts := seq(8, i requires 0 <= i < 8 => Print(g[i], 16));
            Accepted(StandardStrtoul, Spelled(parts) + Print(m, 10), g, m)
  {
    var parts := seq(8, i requires 0 <= i < 8 => Print(g[i], 16));
    forall i | 0 <= i < 8 ensures Reads(StandardStrtoul, parts[i], 16, g[i]) {
      PrintedReads(g[i]);
    }
    PrintedReads(m);
    hide *;
    StandardHonest();
    FromParts(StandardStrtoul, parts, Print(m, 10), g, m);
  }

  lemma FromParts(strtoul: Strtoul, parts: seq<string>, last: string, g: seq<nat>, m: nat)
    requires Honest(strtoul) && |g| == |parts| == 8 && m <= 128 && Reads(strtoul, last, 0, m)
    requires forall i | 0 <= i < 8 :: Reads(strtoul, parts[i], 16, g[i]) && g[i] <= 65535
    ensures Accepted(strtoul, Spelled(parts) + last, g, m)
  {
    SpelledGroups(strtoul, parts, g, last);
    assert SpellsNet(strtoul, Spelled(parts) + last, parts, last, g, m);
    NetText(strtoul, Spelled(parts) + last, g, m);
  }

  /** An empty group is a number too: `strtoul` finds none, reports no error and stops at the delimiter. */
  lemma EmptyNet()
    ensures Accepted(StandardStrtoul, ":::::::/", [0, 0, 0, 0, 0, 0, 0, 0], 0)
  {
    var none := ["", "", "", "", "", "", "", ""];
    assert Reads(StandardStrtoul, "", 16, 0) && Reads(StandardStrtoul, "", 0, 0);
    StandardHonest();
    SpelledEmpty();
    hide Honest, Reads, Accepted, StandardStrtoul, Spelled;
    FromParts(StandardStrtoul, none, "", [0, 0, 0, 0, 0, 0, 0, 0], 0);
    assert Spelled(none) + "" == Spelled(none);
  }

  lemma SpelledEmpty()
    ensures Spelled(["", "", "", "", "", "", "", ""]) == ":::::::/"
  {
    assert Spelled([""]) == "/";
    assert ["", ""][1..] == [""];
    assert Spelled(["", ""]) == ":/";
    assert ["", "", ""][1..] == ["", ""];
    assert Spelled(["", "", ""]) == "::/";
    assert ["", "", "", ""][1..] == ["", "", ""];
    assert Spelled(["", "", "", ""]) == ":::/";
    assert ["", "", "", "", ""][1..] == ["", "", "", ""];
    assert Spelled(["", "", "", "", ""]) == "::::/";
    assert ["", "", "", "", "", ""][1..] == ["", "", "", "", ""];
    assert Spelled(["", "", "", "", "", ""]) == ":::::/";
    assert ["", "", "", "", "", "", ""][1..] == ["", "", "", "", "", ""];
    assert Spelled(["", "", "", "", "", "", ""]) == "::::::/";
    assert ["", "", "", "", "", "", "", ""][1..] == ["", "", "", "", "", "", ""];
  }
}
