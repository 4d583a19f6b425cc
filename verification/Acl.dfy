/**
 * The rule files of the ACL test: an IPv6 network becomes four 32-bit fields with a prefix length
 * each, and rule lines get descending priorities. What `strtoul` makes of a text is a parameter.
 */
module Acl {
  import opened Bits

  // ----- reading numbers -----

  /** Result of `strtoul`: whether it set `errno`, the value, and the text behind the number. */
  datatype Number = Number(error: bool, val: nat, end: string)
  type Strtoul = (string, nat) -> Number

  datatype Parsed<T> = Invalid | Parsed(value: T, rest: string)

  const NUL: char := '\0'

  function CharAt(s: string): char {
    if s == "" then NUL else s[0]
  }

  function After(s: string): string {
    if s == "" then "" else s[1..]
  }

  /** One number up to `lim`, followed by the delimiter. */
  function Field(strtoul: Strtoul, text: string, base: nat, lim: nat, dlm: char): (r: Parsed<nat>)
    ensures r.Parsed? ==> r.value <= lim
  {
    var n := strtoul(text, base);
    if n.error || CharAt(n.end) != dlm || n.val > lim then Invalid else Parsed(n.val, After(n.end))
  }

  /** `n` groups of 16 bits, with colons between them and `dlm` at the end. */
  function Groups(strtoul: Strtoul, text: string, n: nat, dlm: char): (r: Parsed<seq<nat>>)
    ensures r.Parsed? ==> |r.value| == n && forall i | 0 <= i < n :: r.value[i] < 65536
    decreases n
  {
    if n == 0 then Parsed([], text)
    else
      var first := Field(strtoul, text, 16, 65535, if n == 1 then dlm else ':');
      if first == Invalid then Invalid
      else
        var others := Groups(strtoul, first.rest, n - 1, dlm);
        if others == Invalid then Invalid else Parsed([first.value] + others.value, others.rest)
  }

  /** The four words of an address: each one is the concatenation of two groups. */
  function Words(g: seq<nat>): (v: seq<nat>)
    requires |g| == 8 && forall i | 0 <= i < 8 :: g[i] < 65536
    ensures |v| == 4 && forall i | 0 <= i < 4 :: v[i] < Pow2(32)
  {
    PowersOfTwo();
    [g[0] * 65536 + g[1], g[2] * 65536 + g[3], g[4] * 65536 + g[5], g[6] * 65536 + g[7]]
  }

  // ----- prefixes -----

  /** Bit `k` of a `size`-bit number, counted from the most significant one. */
  function BitOf(x: nat, size: nat, k: nat): nat
    requires k < size
  {
    x / Pow2(size - 1 - k) % 2
  }

  /** Bit `k` of an address written as eight groups, and as four words. */
  function GroupsBit(g: seq<nat>, k: nat): nat
    requires |g| == 8 && k < 128
  {
    BitOf(g[k / 16], 16, k % 16)
  }

  function WordsBit(v: seq<nat>, k: nat): nat
    requires |v| == 4 && k < 128
  {
    BitOf(v[k / 32], 32, k % 32)
  }

  /** A field with a prefix length matches a word if the bits in front agree. */
  predicate FieldMatches(value: nat, len: nat, word: nat)
    requires len <= 32
  {
    Front(value, len) == Front(word, len)
  }

  /** The first `len` bits of a word. */
  function Front(x: nat, len: nat): int
    requires len <= 32
  {
    x / Pow2(32 - len)
  }

  datatype AclField = AclField(value: nat, mask: nat)

  /** Prefix length that is left for word `i` of a network with prefix length `m`. */
  function WordMask(m: nat, i: nat): (len: nat)
    ensures len <= 32
  {
    if m >= (i + 1) * 32 then 32 else if m > i * 32 then m - i * 32 else 0
  }

  lemma HalveMore(x: nat, k: nat)
    ensures x / Pow2(k) / 2 == x / Pow2(k + 1)
  {
    DivDiv(x, Pow2(k), 2);
  }

  lemma TooSmall(x: nat, d: nat)
    requires x < d
    ensures x / d == 0
  {
    DivModUnique(x, d, 0, x);
  }

  /** One more bit of prefix. */
  lemma FieldStep(a: nat, b: nat, len: nat)
    requires 0 < len <= 32
    ensures FieldMatches(a, len, b) <==> FieldMatches(a, len - 1, b) && BitOf(a, 32, len - 1) == BitOf(b, 32, len - 1)
  {
    hide BitOf, Front, Pow2;
    LastBit(a, len);
    LastBit(b, len);
    SameHalves(Front(a, len), Front(b, len));
  }

  lemma LastBit(a: nat, len: nat)
    requires 0 < len <= 32
    ensures BitOf(a, 32, len - 1) == Front(a, len) % 2
    ensures Front(a, len - 1) == Front(a, len) / 2
  {
    HalveMore(a, 32 - len);
    assert 32 - len + 1 == 32 - (len - 1);
  }

  lemma NoPrefix(a: nat, b: nat)
    requires a < Pow2(32) && b < Pow2(32)
    ensures FieldMatches(a, 0, b)
  {
    TooSmall(a, Pow2(32));
    TooSmall(b, Pow2(32));
  }

  /** The field matches exactly if the first `len` bits agree. */
  lemma {:induction false} FieldIsBits(a: nat, b: nat, len: nat)
    requires a < Pow2(32) && b < Pow2(32) && len <= 32
    ensures FieldMatches(a, len, b) <==> forall k: nat | k < len :: BitOf(a, 32, k) == BitOf(b, 32, k)
    decreases len
  {
    hide FieldMatches, BitOf, Pow2;
    if len == 0 {
      NoPrefix(a, b);
    } else {
      FieldIsBits(a, b, len - 1);
      FieldStep(a, b, len);
    }
  }

  lemma SameHalves(a: int, b: int)
    ensures a == b <==> a / 2 == b / 2 && a % 2 == b % 2
  {
  }

  /** The high and the low half of a word. */
  lemma WordBit(hi: nat, lo: nat, c: nat)
    requires hi < 65536 && lo < 65536 && c < 32
    ensures BitOf(hi * 65536 + lo, 32, c) == if c < 16 then BitOf(hi, 16, c) else BitOf(lo, 16, c - 16)
  {
    var w := hi * 65536 + lo;
    PowersOfTwo();
    if c < 16 {
      Pow2Add(16, 15 - c);
      DivDiv(w, 65536, Pow2(15 - c));
      DivModUnique(w, 65536, hi, lo);
    } else {
      var p, q := Pow2(31 - c), Pow2(c - 15);
      Pow2Add(31 - c, c - 15);
      assert q == 2 * Pow2(c - 16);
      LowBits(hi, lo, p, Pow2(c - 16));
    }
  }

  lemma LowBits(hi: nat, lo: nat, p: nat, half: nat)
    requires p >= 1
    ensures (hi * (p * (2 * half)) + lo) / p % 2 == lo / p % 2
  {
    var x := hi * (p * (2 * half)) + lo;
    var q, r := lo / p, lo % p;
    assert lo == p * q + r;
    Rearrange(hi, p, half);
    assert x == p * (2 * (hi * half) + q) + r;
    DivModUnique(x, p, 2 * (hi * half) + q, r);
  }

  lemma Rearrange(hi: int, p: int, half: int)
    ensures hi * (p * (2 * half)) == p * (2 * (hi * half))
  {
  }

  /** Writing the address as words does not move any bit. */
  lemma WordsKeepBits(g: seq<nat>, k: nat)
    requires |g| == 8 && (forall i | 0 <= i < 8 :: g[i] < 65536) && k < 128
    ensures WordsBit(Words(g), k) == GroupsBit(g, k)
  {
    hide BitOf, Pow2;
    var i, c := k / 32, k % 32;
    assert k / 16 == 2 * i + c / 16 && k % 16 == c % 16;
    assert Words(g)[i] == g[2 * i] * 65536 + g[2 * i + 1];
    WordBit(g[2 * i], g[2 * i + 1], c);
  }

  ghost predicate AllFieldsMatch(fields: seq<AclField>, words: seq<nat>)
    requires |fields| == |words| == 4 && forall i | 0 <= i < 4 :: fields[i].mask <= 32
  {
    forall i | 0 <= i < 4 :: FieldMatches(fields[i].value, fields[i].mask, words[i])
  }

  function Split(v: seq<nat>, m: nat): (fields: seq<AclField>)
    requires |v| == 4
    ensures |fields| == 4 && forall i | 0 <= i < 4 :: fields[i].mask <= 32
  {
    seq(4, i requires 0 <= i < 4 => AclField(v[i], WordMask(m, i)))
  }

  /** Matching the four words under their own prefix lengths is agreeing on the first `m` bits of the address. */
  lemma SplitKeepsMeaning(v: seq<nat>, m: nat, w: seq<nat>)
    requires |v| == |w| == 4 && m <= 128 && forall i | 0 <= i < 4 :: v[i] < Pow2(32) && w[i] < Pow2(32)
    ensures AllFieldsMatch(Split(v, m), w) <==> forall k: nat | k < m :: WordsBit(v, k) == WordsBit(w, k)
  {
    hide FieldMatches, BitOf, Pow2;
    forall i | 0 <= i < 4
      ensures FieldMatches(v[i], WordMask(m, i), w[i]) <==>
                forall c: nat | c < WordMask(m, i) :: BitOf(v[i], 32, c) == BitOf(w[i], 32, c)
    {
      FieldIsBits(v[i], w[i], WordMask(m, i));
    }
    if AllFieldsMatch(Split(v, m), w) {
      forall k: nat | k < m ensures WordsBit(v, k) == WordsBit(w, k) {
        assert FieldMatches(Split(v, m)[k / 32].value, Split(v, m)[k / 32].mask, w[k / 32]);
        assert k % 32 < WordMask(m, k / 32);
      }
    }
    if forall k: nat | k < m :: WordsBit(v, k) == WordsBit(w, k) {
      forall i | 0 <= i < 4 ensures FieldMatches(v[i], WordMask(m, i), w[i]) {
        forall c: nat | c < WordMask(m, i) ensures BitOf(v[i], 32, c) == BitOf(w[i], 32, c) {
          var k := i * 32 + c;
          assert k / 32 == i && k % 32 == c && k < m;
          assert WordsBit(v, k) == WordsBit(w, k);
        }
      }
    }
  }

  /** The text is accepted as a network with these groups and this prefix length. */
  predicate Accepted(strtoul: Strtoul, text: string, g: seq<nat>, m: nat)
    ensures Accepted(strtoul, text, g, m) ==> |g| == 8 && m <= 128 && forall i | 0 <= i < 8 :: g[i] < 65536
  {
    var groups := Groups(strtoul, text, 8, '/');
    groups.Parsed? && groups.value == g &&
    var mask := Field(strtoul, groups.rest, 0, 128, NUL);
    mask.Parsed? && mask.value == m
  }

  /** The network as the rule file writes it: address, slash, prefix length. */
  method ParseIpv6Net(strtoul: Strtoul, text: string, field: array<AclField>) returns (ok: bool)
    requires field.Length == 4
    modifies field
    ensures ok <==> exists g, m :: Accepted(strtoul, text, g, m)
    ensures forall g, m | Accepted(strtoul, text, g, m) :: field[..] == Split(Words(g), m)
    ensures !ok ==> field[..] == old(field[..])
  {
    var g := Groups(strtoul, text, 8, '/');
    if g == Invalid {
      return false;
    }
    var v := Words(g.value);
    var mask := Field(strtoul, g.rest, 0, 128, NUL);
    if mask == Invalid {
      return false;
    }
    WriteFields(field, v, mask.value);
    assert Accepted(strtoul, text, g.value, mask.value);
    ok := true;
  }

  /** The loop over the four words. */
  method WriteFields(field: array<AclField>, v: seq<nat>, m: nat)
    requires field.Length == |v| == 4
    modifies field
    ensures field[..] == Split(v, m)
  {
    for i: nat := 0 to 4
      invariant forall j | 0 <= j < i :: field[j] == AclField(v[j], WordMask(m, j))
    {
      if m >= (i + 1) * 32 {
        field[i] := AclField(v[i], 32);
      } else {
        field[i] := AclField(v[i], if m > i * 32 then m - i * 32 else 0);
      }
    }
  }

  /**
   * Together: the fields of an accepted network match an address exactly if its first `m` bits are those of
   * the network.
   */
  lemma NetMatches(g: seq<nat>, m: nat, h: seq<nat>)
    requires |g| == |h| == 8 && m <= 128 && forall i | 0 <= i < 8 :: g[i] < 65536 && h[i] < 65536
    ensures AllFieldsMatch(Split(Words(g), m), Words(h)) <==>
              forall k: nat | k < m :: GroupsBit(g, k) == GroupsBit(h, k)
  {
    SplitKeepsMeaning(Words(g), m, Words(h));
    forall k: nat | k < m
      ensures WordsBit(Words(g), k) == GroupsBit(g, k) && WordsBit(Words(h), k) == GroupsBit(h, k)
    {
      WordsKeepBits(g, k);
      WordsKeepBits(h, k);
    }
  }

  // ----- rule files -----

  const COMMENT_LEAD_CHAR: char := '#'

  /** `isspace` in the C locale */
  predicate IsSpace(c: char) {
    c == ' ' || 9 <= c as int <= 13
  }

  /** Blank lines and comments. */
  predicate SkipLine(line: string)
    decreases |line|
  {
    if line != "" && IsSpace(line[0]) then SkipLine(line[1..])
    else line == "" || line[0] == NUL || line[0] == COMMENT_LEAD_CHAR
  }

  datatype Option<T> = None | Some(value: T)

  /** What `rte_acl_add_rules` stores: category mask left out, as it is the same for all. */
  datatype Entry<R> = Entry(rule: R, priority: int, userdata: nat)

  /** The lines that hold a rule. */
  function RuleLines(lines: seq<string>): seq<string> {
    if lines == [] then []
    else RuleLines(lines[..|lines| - 1]) + if SkipLine(lines[|lines| - 1]) then [] else [lines[|lines| - 1]]
  }

  /** After `n` blanks there is nothing, the end of the string, or a number sign. */
  ghost predicate Commented(line: string, n: nat) {
    && n <= |line| && (forall i | 0 <= i < n :: line[i] as int in {9, 10, 11, 12, 13, 32})
    && (n < |line| ==> line[n] as int == 0 || line[n] == '#')
  }

  /** A line is passed over exactly if it is blank up to its end or up to a number sign. */
  lemma {:induction false} SkipLineIs(line: string)
    ensures SkipLine(line) <==> exists n: nat :: Commented(line, n)
  {
    var blank := line != "" && IsSpace(line[0]);
    if blank {
      SkipLineIs(line[1..]);
    }
    if SkipLine(line) {
      if blank {
        var m: nat :| Commented(line[1..], m);
        assert forall i | 1 <= i < m + 1 :: line[i] == line[1..][i - 1];
        assert Commented(line, m + 1);
      } else {
        assert Commented(line, 0);
      }
    }
    if n: nat :| Commented(line, n) {
      if n > 0 {
        assert forall i | 0 <= i < n - 1 :: line[1..][i] == line[i + 1];
        assert Commented(line[1..], n - 1);
      }
    }
  }

  /** `at` says where in the file each rule line stands. */
  ghost predicate Stand(at: seq<nat>, lines: seq<string>, ruleLines: seq<string>) {
    && |at| == |ruleLines| && (forall j | 0 <= j < |at| :: at[j] < |lines| && ruleLines[j] == lines[at[j]])
    && (forall j, k | 0 <= j < k < |at| :: at[j] < at[k])
    && (forall i: nat | i < |lines| :: i in at <==> !SkipLine(lines[i]))
  }

  /** The rule lines are the lines that are not passed over, each once, in the order of the file. */
  lemma {:induction false} RuleLinesAre(lines: seq<string>) returns (at: seq<nat>)
    ensures Stand(at, lines, RuleLines(lines))
    decreases |lines|
  {
    hide SkipLine;
    at := [];
    if lines != [] {
      var front, last := lines[..|lines| - 1], |lines| - 1;
      at := RuleLinesAre(front);
      forall j | 0 <= j < |at| ensures at[j] < last && RuleLines(front)[j] == lines[at[j]] {
        assert front[at[j]] == lines[at[j]];
      }
      if !SkipLine(lines[last]) {
        at := at + [last];
      }
      forall i: nat | i < |lines| ensures i in at <==> !SkipLine(lines[i]) {
        if i < last {
          assert front[i] == lines[i];
        }
      }
    }
  }

  lemma RuleLinesGrow(lines: seq<string>, i: nat)
    requires i < |lines|
    ensures RuleLines(lines[..i + 1]) == RuleLines(lines[..i]) + if SkipLine(lines[i]) then [] else [lines[i]]
    ensures |RuleLines(lines[..i])| <= i
    decreases i
  {
    assert lines[..i + 1][..i] == lines[..i];
    if i > 0 {
      RuleLinesGrow(lines, i - 1);
    }
  }

  /** Entry `j` is rule line `j` of the file, one priority below the one in front of it, and carries its number. */
  ghost predicate InFileOrder<R>(entries: seq<Entry<R>>, ruleLines: seq<string>, parser: string -> Option<R>,
                                 maxPriority: nat) {
    && |entries| <= |ruleLines|
    && forall j | 0 <= j < |entries| ::
         && parser(ruleLines[j]) == Some(entries[j].rule)
         && entries[j].priority == maxPriority - (j + 1) && entries[j].userdata == j + 1
  }

  class AclCtx<R(!new)> {
    var entries: seq<Entry<R>>
    const maxRules: nat
    const minPriority: int

    constructor (maxRules: nat, minPriority: int)
      ensures entries == [] && this.maxRules == maxRules && this.minPriority == minPriority
    {
      entries, this.maxRules, this.minPriority := [], maxRules, minPriority;
    }

    /** Refuses a rule without a legal priority, or one too many. */
    method AddRule(e: Entry<R>) returns (ok: bool)
      modifies this
      ensures ok == (e.priority >= minPriority && |old(entries)| < maxRules)
      ensures entries == if ok then old(entries) + [e] else old(entries)
    {
      ok := e.priority >= minPriority && |entries| < maxRules;
      if ok {
        entries := entries + [e];
      }
    }
  }

  /** Adds the rules of a file; stops at the first line that is no rule or is refused. */
  method AddCbRules<R(!new)>(lines: seq<string>, parser: string -> Option<R>, maxPriority: nat, ctx: AclCtx<R>)
      returns (ok: bool)
    requires ctx.entries == []
    modifies ctx
    ensures InFileOrder(ctx.entries, RuleLines(lines), parser, maxPriority)
    ensures ok ==> |ctx.entries| == |RuleLines(lines)|
    ensures !ok ==> |ctx.entries| < |RuleLines(lines)| &&
                    var next := |ctx.entries|;
                    || parser(RuleLines(lines)[next]) == None || next >= ctx.maxRules
                    || maxPriority - (next + 1) < ctx.minPriority
  {
    hide RuleLines, SkipLine;
    var i, k: nat := 1, 0;
    NoLines(lines);
    while i <= |lines|
      invariant 1 <= i <= |lines| + 1 && k < i
      invariant |ctx.entries| == |RuleLines(lines[..i - 1])| == i - 1 - k
      invariant InFileOrder(ctx.entries, RuleLines(lines[..i - 1]), parser, maxPriority)
    {
      var line := lines[i - 1];
      RuleLinesGrow(lines, i - 1);
      PrefixOfRules(lines, i);
      if SkipLine(line) {
        k := k + 1;
      } else {
        var n := i - k;
        assert n == |ctx.entries| + 1 && RuleLines(lines[..i])[n - 1] == line == RuleLines(lines)[n - 1];
        var rule := parser(line);
        if rule == None {
          return false;
        }
        var added := ctx.AddRule(Entry(rule.value, maxPriority - n, n));
        if !added {
          return false;
        }
      }
      i := i + 1;
    }
    assert lines[..|lines|] == lines;
    ok := true;
  }

  lemma NoLines(lines: seq<string>)
    ensures RuleLines(lines[..0]) == []
  {
  }

  lemma {:induction false} PrefixOfRules(lines: seq<string>, i: nat)
    requires i <= |lines|
    ensures RuleLines(lines[..i]) <= RuleLines(lines)
    decreases |lines| - i
  {
    if i < |lines| {
      PrefixOfRules(lines, i + 1);
      RuleLinesGrow(lines, i);
    } else {
      assert lines[..i] == lines;
    }
  }

  /** The result of a search: the matching rule of highest priority. */
  ghost predicate Best<R>(entries: seq<Entry<R>>, matches: R -> bool, b: nat) {
    && b < |entries| && matches(entries[b].rule)
    && forall j | 0 <= j < |entries| && matches(entries[j].rule) :: entries[j].priority <= entries[b].priority
  }

  /** The best match is the first rule line of the file that matches, and the result tells its number. */
  lemma FirstLineWins<R(!new)>(entries: seq<Entry<R>>, ruleLines: seq<string>, parser: string -> Option<R>,
                               maxPriority: nat, matches: R -> bool, b: nat)
    requires InFileOrder(entries, ruleLines, parser, maxPriority) && |entries| == |ruleLines| && b < |entries|
    ensures Best(entries, matches, b) <==>
            && parser(ruleLines[b]).Some? && matches(parser(ruleLines[b]).value)
            && forall j | 0 <= j < b :: !matches(parser(ruleLines[j]).value)
    ensures entries[b].userdata == b + 1
  {
    if Best(entries, matches, b) {
      forall j | 0 <= j < b ensures !matches(parser(ruleLines[j]).value) {
        assert entries[j].priority > entries[b].priority;
      }
    }
  }
}
