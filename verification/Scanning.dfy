/**
 * Text matching: white space, stripping, and regular expressions that are sequences of literal
 * characters and repeated character classes. What such an expression matches is stated by splitting
 * the text in any way; that one scan from left to right, always taking as much as possible, finds
 * every match, is proved for the expressions it is true of.
 */
module Scanning {

  datatype Class = Space | Word | Name | Any

  predicate In(c: char, k: Class) {
    var x := c as int;
    match k
    // white space as Python defines it for `strip` and for `\s`
    case Space =>
      || 9 <= x <= 13 || 28 <= x <= 32 || x == 0x85 || x == 0xa0 || x == 0x1680
      || 0x2000 <= x <= 0x200a || x == 0x2028 || x == 0x2029 || x == 0x202f || x == 0x205f || x == 0x3000
    // [a-zA-Z_0-9]
    case Word => 'a' <= c <= 'z' || 'A' <= c <= 'Z' || c == '_' || '0' <= c <= '9'
    // [a-zA-Z0-9_\.]
    case Name => 'a' <= c <= 'z' || 'A' <= c <= 'Z' || c == '_' || '0' <= c <= '9' || c == '.'
    // .
    case Any => c != '\n'
  }

  /** The classes by their characters. */
  lemma ClassesAre(c: char)
    ensures In(c, Word) <==>
              c in {'a', 'b', 'c', 'd', 'e', 'f', 'g', 'h', 'i', 'j', 'k', 'l', 'm', 'n', 'o', 'p', 'q', 'r', 's',
                't', 'u', 'v', 'w', 'x', 'y', 'z', 'A', 'B', 'C', 'D', 'E', 'F', 'G', 'H', 'I', 'J', 'K', 'L', 'M',
                'N', 'O', 'P', 'Q', 'R', 'S', 'T', 'U', 'V', 'W', 'X', 'Y', 'Z', '0', '1', '2', '3', '4', '5', '6',
                '7', '8', '9', '_'}
    ensures In(c, Name) <==> In(c, Word) || c == '.'
    ensures In(c, Any) <==> c != '\n'
    ensures In(c, Space) <==>
              c as int in {9, 10, 11, 12, 13, 28, 29, 30, 31, 32, 0x85, 0xa0, 0x1680, 0x2000, 0x2001, 0x2002, 0x2003,
                0x2004, 0x2005, 0x2006, 0x2007, 0x2008, 0x2009, 0x200a, 0x2028, 0x2029, 0x202f, 0x205f, 0x3000}
  {
  }

  predicate All(s: string, k: Class) {
    forall i | 0 <= i < |s| :: In(s[i], k)
  }

  /** Length of the longest prefix with characters of one class. */
  function Span(s: string, k: Class): (n: nat)
    ensures n <= |s| && All(s[..n], k) && (n < |s| ==> !In(s[n], k))
  {
    if s != "" && In(s[0], k) then 1 + Span(s[1..], k) else 0
  }

  function Skip(s: string, k: Class): (r: string)
    ensures |r| <= |s| && (r != "" ==> !In(r[0], k))
  {
    s[Span(s, k)..]
  }

  /** There is only one way to split at the end of a class. */
  lemma {:induction false} SpanIs(a: string, rest: string, k: Class)
    requires All(a, k) && (rest == "" || !In(rest[0], k))
    ensures Span(a + rest, k) == |a| && Skip(a + rest, k) == rest
  {
    if a == "" {
      assert a + rest == rest;
    } else {
      SpanIs(a[1..], rest, k);
      assert (a + rest)[1..] == a[1..] + rest;
    }
  }

  // ----- stripping -----

  function StripRight(s: string): (r: string)
    ensures r <= s && (r == "" || !In(r[|r| - 1], Space)) && All(s[|r|..], Space)
  {
    if s != "" && In(s[|s| - 1], Space) then StripRight(s[..|s| - 1]) else s
  }

  /** `str.strip()` */
  function Strip(s: string): string {
    StripRight(Skip(s, Space))
  }

  /** No white space at either end. */
  predicate Stripped(s: string) {
    s != "" ==> !In(s[0], Space) && !In(s[|s| - 1], Space)
  }

  /** Stripping takes white space off both ends and nothing else. */
  lemma StripSplits(s: string) returns (a: string, b: string)
    ensures s == a + Strip(s) + b && All(a, Space) && All(b, Space) && Stripped(Strip(s))
  {
    a := s[..Span(s, Space)];
    var t := Skip(s, Space);
    var r := StripRight(t);
    b := t[|r|..];
    assert t == r + b;
    assert r != "" ==> r[0] == t[0];
  }

  lemma {:induction false} StripRightIs(s: string, b: string)
    requires All(b, Space) && (s == "" || !In(s[|s| - 1], Space))
    ensures StripRight(s + b) == s
  {
    if b == "" {
      assert s + b == s;
    } else {
      assert (s + b)[..|s + b| - 1] == s + b[..|b| - 1];
      StripRightIs(s, b[..|b| - 1]);
    }
  }

  /** ... and it is the only way to do so. */
  lemma StripIs(a: string, s: string, b: string)
    requires All(a, Space) && All(b, Space) && Stripped(s)
    ensures Strip(a + s + b) == s
  {
    if s == "" {
      assert a + s + b == (a + b) + "";
      SpanIs(a + b, "", Space);
    } else {
      assert a + s + b == a + (s + b);
      SpanIs(a, s + b, Space);
      StripRightIs(s, b);
    }
  }

  // ----- expressions -----

  datatype Item = Lit(c: char) | Star(k: Class) | Plus(k: Class)

  /** The whole text can be split into stretches, one for each item. */
  ghost predicate Matches(e: seq<Item>, s: string) {
    if e == [] then s == ""
    else match e[0]
      case Lit(c) => s != "" && s[0] == c && Matches(e[1..], s[1..])
      case Star(k) => exists n :: 0 <= n <= |s| && All(s[..n], k) && Matches(e[1..], s[n..])
      case Plus(k) => exists n :: 1 <= n <= |s| && All(s[..n], k) && Matches(e[1..], s[n..])
  }

  /** One scan, each repetition as long as possible, never going back. */
  predicate Scan(e: seq<Item>, s: string) {
    if e == [] then s == ""
    else match e[0]
      case Lit(c) => s != "" && s[0] == c && Scan(e[1..], s[1..])
      case Star(k) => Scan(e[1..], Skip(s, k))
      case Plus(k) => Span(s, k) > 0 && Scan(e[1..], Skip(s, k))
  }

  /** Characters of the class in front of a match of `e` do not help `e` to match. */
  predicate Absorbed(k: Class, e: seq<Item>) {
    e == [] || match e[0]
      case Lit(c) => !In(c, k)
      case Star(_) => Absorbed(k, e[1..])
      case Plus(k') => k == Space && (k' == Word || k' == Name)
  }

  /** Each repetition may take all it can get. */
  predicate Greedy(e: seq<Item>) {
    e == [] || (Greedy(e[1..]) && (e[0].Lit? || Absorbed(e[0].k, e[1..])))
  }

  lemma {:induction false} AbsorbOne(k: Class, e: seq<Item>, s: string)
    requires Absorbed(k, e) && s != "" && In(s[0], k) && Matches(e, s)
    ensures Matches(e, s[1..])
  {
    if e != [] && e[0].Star? {
      var n :| 0 <= n <= |s| && All(s[..n], e[0].k) && Matches(e[1..], s[n..]);
      if n == 0 {
        assert s[n..] == s;
        AbsorbOne(k, e[1..], s);
        assert s[1..][..0] == "" && s[1..][0..] == s[1..];
      } else {
        assert s[1..][..n - 1] == s[..n][1..] && s[1..][n - 1..] == s[n..];
      }
    } else if e != [] && e[0].Plus? {
      PlusFirst(e, s);
    }
  }

  lemma PlusFirst(e: seq<Item>, s: string)
    requires e != [] && e[0].Plus? && Matches(e, s)
    ensures s != "" && In(s[0], e[0].k)
  {
    var n :| 1 <= n <= |s| && All(s[..n], e[0].k) && Matches(e[1..], s[n..]);
    assert In(s[..n][0], e[0].k);
  }

  lemma {:induction false} AbsorbTo(k: Class, e: seq<Item>, s: string, n: nat, m: nat)
    requires Absorbed(k, e) && n <= m <= |s| && All(s[..m], k) && Matches(e, s[n..])
    ensures Matches(e, s[m..])
    decreases m - n
  {
    if n < m {
      assert s[n..][0] == s[..m][n];
      AbsorbOne(k, e, s[n..]);
      assert s[n..][1..] == s[n + 1..];
      AbsorbTo(k, e, s, n + 1, m);
    }
  }

  lemma LongestSpan(s: string, k: Class, n: nat)
    requires n <= |s| && All(s[..n], k)
    ensures n <= Span(s, k)
  {
    assert forall i | 0 <= i < n :: In(s[i], k) == In(s[..n][i], k);
  }

  /** Taking as much as possible finds a match exactly if there is one. */
  lemma {:induction false} ScanIsMatch(e: seq<Item>, s: string)
    requires Greedy(e)
    ensures Scan(e, s) <==> Matches(e, s)
  {
    if e != [] {
      match e[0]
      case Lit(c) =>
        if s != "" {
          ScanIsMatch(e[1..], s[1..]);
        }
      case Star(k) =>
        var m := Span(s, k);
        ScanIsMatch(e[1..], s[m..]);
        if Matches(e, s) {
          var n :| 0 <= n <= |s| && All(s[..n], k) && Matches(e[1..], s[n..]);
          LongestSpan(s, k, n);
          AbsorbTo(k, e[1..], s, n, m);
        }
      case Plus(k) =>
        var m := Span(s, k);
        ScanIsMatch(e[1..], s[m..]);
        if Matches(e, s) {
          var n :| 1 <= n <= |s| && All(s[..n], k) && Matches(e[1..], s[n..]);
          LongestSpan(s, k, n);
          AbsorbTo(k, e[1..], s, n, m);
        }
    }
  }

  /** One repetition at a time. */
  lemma ScanStar(k: Class, e: seq<Item>, a: string, rest: string)
    requires All(a, k) && (rest == "" || !In(rest[0], k))
    ensures Scan([Star(k)] + e, a + rest) == Scan(e, rest)
    ensures Scan([Plus(k)] + e, a + rest) == (a != "" && Scan(e, rest))
  {
    SpanIs(a, rest, k);
    assert ([Star(k)] + e)[1..] == e && ([Plus(k)] + e)[1..] == e;
  }
}
