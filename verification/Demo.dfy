/**
 * The packet filter: rules from the command line go into a linked list, and the receive loop hands
 * every packet to the forward interface, to the kernel, or back to its pool.
 */
module Demo {

  type Byte = b: int | 0 <= b < 256

  // ----- rules -----

  datatype Direction = Dst | Src
  datatype Rule = Rule(direction: Direction, ip: nat, port: nat)
  datatype Flow = Flow(srcIp: nat, dstIp: nat, srcPort: nat, dstPort: nat)

  predicate Matches(r: Rule, f: Flow) {
    match r.direction
    case Dst => r.ip == f.dstIp && r.port == f.dstPort
    case Src => r.ip == f.srcIp && r.port == f.srcPort
  }

  ghost predicate AnyMatches(rules: seq<Rule>, f: Flow) {
    exists i :: 0 <= i < |rules| && Matches(rules[i], f)
  }

  class RuleEntry {
    const rule: Rule
    const next: RuleEntry?

    constructor (rule: Rule, next: RuleEntry?)
      ensures this.rule == rule && this.next == next
    {
      this.rule, this.next := rule, next;
    }
  }

  class Filter {
    var head: RuleEntry?
    /** The nodes from the head on. */
    ghost var nodes: seq<RuleEntry>

    constructor ()
      ensures Valid() && Rules() == []
    {
      head, nodes := null, [];
    }

    ghost predicate Valid()
      reads this
    {
      && head == At(nodes, 0)
      && forall i: nat | i < |nodes| :: nodes[i].next == At(nodes, i + 1)
    }

    static ghost function At(nodes: seq<RuleEntry>, i: nat): RuleEntry? {
      if i < |nodes| then nodes[i] else null
    }

    ghost function Rules(): (rules: seq<Rule>)
      reads this
    {
      seq(|nodes|, i requires 0 <= i < |nodes| reads this => nodes[i].rule)
    }

    /** In front of all others. */
    method Add(r: Rule)
      requires Valid()
      modifies this
      ensures Valid() && Rules() == [r] + old(Rules())
    {
      ghost var before := nodes;
      var entry := new RuleEntry(r, head);
      head := entry;
      nodes := [entry] + nodes;
      forall i: nat | i < |nodes| ensures nodes[i].next == At(nodes, i + 1) {
        if i > 0 {
          assert nodes[i] == before[i - 1] && At(nodes, i + 1) == At(before, i);
        }
      }
    }

    /** Walks the list until a rule matches. */
    method Match(f: Flow) returns (found: bool)
      requires Valid()
      ensures found <==> AnyMatches(Rules(), f)
    {
      var entry := head;
      ghost var i: nat := 0;
      while entry != null
        invariant i <= |nodes| && entry == At(nodes, i)
        invariant forall j | 0 <= j < i :: !Matches(Rules()[j], f)
        decreases |nodes| - i
      {
        assert Rules()[i] == entry.rule;
        if Matches(entry.rule, f) {
          return true;
        }
        entry := entry.next;
        i := i + 1;
      }
      found := false;
    }

    /** The configured rules, one after the other. */
    method AddAll(rules: seq<Rule>)
      requires Valid() && Rules() == []
      modifies this
      ensures Valid() && multiset(Rules()) == multiset(rules)
    {
      for i := 0 to |rules|
        invariant Valid() && multiset(Rules()) == multiset(rules[..i])
      {
        Add(rules[i]);
        assert rules[..i + 1] == rules[..i] + [rules[i]];
      }
      assert rules[..|rules|] == rules;
    }
  }

  /** Which packets match does not depend on the order of the rules. */
  lemma OrderIrrelevant(a: seq<Rule>, b: seq<Rule>, f: Flow)
    requires multiset(a) == multiset(b)
    ensures AnyMatches(a, f) <==> AnyMatches(b, f)
  {
    Carries(a, b, f);
    Carries(b, a, f);
  }

  lemma Carries(a: seq<Rule>, b: seq<Rule>, f: Flow)
    requires multiset(a) == multiset(b)
    ensures AnyMatches(a, f) ==> AnyMatches(b, f)
  {
    if AnyMatches(a, f) {
      var i :| 0 <= i < |a| && Matches(a[i], f);
      assert a[i] in multiset(b);
      var j :| 0 <= j < |b| && b[j] == a[i];
    }
  }

  // ----- rules on the command line -----

  const MAX_FILTER_RULES: nat := 64

  datatype Option<T> = None | Some(value: T)
  datatype Argument = Argument(direction: Direction, text: string)

  /** The library calls that read an address (in network byte order) and a number. */
  datatype Readers = Readers(inetPton: string -> Option<nat>, atoi: string -> int)

  function IndexOfColon(s: string): (i: nat)
    ensures i <= |s| && (i < |s| ==> s[i] == ':') && forall j | 0 <= j < i :: s[j] != ':'
  {
    if s == "" || s[0] == ':' then 0 else 1 + IndexOfColon(s[1..])
  }

  /** `address:port` with a port from 1 to 65535. */
  function ParseRule(r: Readers, a: Argument): Option<Rule> {
    var colon := IndexOfColon(a.text);
    if colon == |a.text| then None
    else
      var ip, port := r.inetPton(a.text[..colon]), r.atoi(a.text[colon + 1..]);
      if ip == None || port <= 0 || port > 65535 then None else Some(Rule(a.direction, ip.value, port))
  }

  /** Reads the arguments in order; stops at the first bad one and at one rule too many. */
  method ParseRules(r: Readers, args: seq<Argument>) returns (rules: Option<seq<Rule>>)
    ensures rules.Some? <==> |args| <= MAX_FILTER_RULES && forall i | 0 <= i < |args| :: ParseRule(r, args[i]).Some?
    ensures rules.Some? ==>
              |rules.value| == |args| && forall i | 0 <= i < |args| :: Some(rules.value[i]) == ParseRule(r, args[i])
  {
    var count, found := 0, new Rule[MAX_FILTER_RULES](_ => Rule(Dst, 0, 0));
    for i := 0 to |args|
      invariant count == i <= MAX_FILTER_RULES
      invariant forall j | 0 <= j < i :: Some(found[j]) == ParseRule(r, args[j])
    {
      if count >= MAX_FILTER_RULES {
        return None;
      }
      var rule := ParseRule(r, args[i]);
      if rule == None {
        return None;
      }
      found[count] := rule.value;
      count := count + 1;
    }
    rules := Some(found[..count]);
  }

  // ----- packets -----

  /** The buffer memory that header fields are read from; it is there whatever the length of the packet. */
  const READABLE: nat := 14 + 15 * 4 + 4

  datatype Mbuf = Mbuf(id: nat, mem: seq<Byte>)

  function Be16(mem: seq<Byte>, at: nat): nat
    requires at + 2 <= |mem|
  {
    var hi: nat, lo: nat := mem[at], mem[at + 1];
    hi * 256 + lo
  }

  function Be32(mem: seq<Byte>, at: nat): nat
    requires at + 4 <= |mem|
  {
    Be16(mem, at) * 65536 + Be16(mem, at + 2)
  }

  const ETHER_HDR: nat := 14
  const ETHER_TYPE_IPV4: nat := 0x0800
  const IPPROTO_TCP: nat := 6
  const IPPROTO_UDP: nat := 17

  /** The header length field of section 3.1 of RFC 791, in bytes. */
  function HeaderLength(mem: seq<Byte>): (n: nat)
    requires |mem| >= READABLE
    ensures n <= 60
  {
    var versionIhl: nat := mem[ETHER_HDR];
    versionIhl % 16 * 4
  }

  /** The flow of an IPv4 packet with TCP or UDP; other packets have none. */
  function FlowOf(mem: seq<Byte>): Option<Flow>
    requires |mem| >= READABLE
  {
    if Be16(mem, 12) == ETHER_TYPE_IPV4 && (mem[23] == IPPROTO_TCP || mem[23] == IPPROTO_UDP) then
      var l4 := ETHER_HDR + HeaderLength(mem);
      Some(Flow(Be32(mem, 26), Be32(mem, 30), Be16(mem, l4), Be16(mem, l4 + 2)))
    else None
  }

  ghost predicate ForwardPath(rules: seq<Rule>, m: Mbuf)
    requires |m.mem| >= READABLE
  {
    FlowOf(m.mem).Some? && AnyMatches(rules, FlowOf(m.mem).value)
  }

  // ----- the receive loop -----

  /**
   * What the outside does with the packet that arrives as number `n`: whether the kernel interface
   * takes it, and whether writing it out works. The same buffer can meet another fate when it comes back.
   */
  datatype Outside = Outside(kniTakes: nat -> bool, tunTakes: nat -> bool, nicTakes: nat -> bool)

  /** `strncmp(name, "tun", 3) == 0` */
  predicate IsTun(name: string) {
    "tun" <= name
  }

  /** What becomes of a packet. */
  datatype Fate = Forwarded | Lost | ToKernel | Dropped

  datatype Setting = Setting(kni: bool, forwardIfname: Option<string>, outside: Outside)

  predicate Writes(s: Setting, n: nat) {
    && s.forwardIfname.Some?
    && if IsTun(s.forwardIfname.value) then s.outside.tunTakes(n) else s.outside.nicTakes(n)
  }

  /** The fate of packet `m` as arrival number `n`. */
  ghost function FateOf(rules: seq<Rule>, s: Setting, m: Mbuf, n: nat): Fate
    requires |m.mem| >= READABLE
  {
    if ForwardPath(rules, m) then (if Writes(s, n) then Forwarded else Lost)
    else if s.kni && s.outside.kniTakes(n) then ToKernel else Dropped
  }

  ghost predicate AllReadable(ms: seq<Mbuf>) {
    forall i | 0 <= i < |ms| :: |ms[i].mem| >= READABLE
  }

  /** The packets with one of the given fates, in order. */
  ghost function With(rules: seq<Rule>, s: Setting, ms: seq<Mbuf>, fates: set<Fate>): seq<Mbuf>
    requires AllReadable(ms)
  {
    if ms == [] then []
    else
      var m := ms[|ms| - 1];
      With(rules, s, ms[..|ms| - 1], fates) + if FateOf(rules, s, m, |ms| - 1) in fates then [m] else []
  }

  const FREED: set<Fate> := {Forwarded, Lost, Dropped}

  lemma WithGrows(rules: seq<Rule>, s: Setting, ms: seq<Mbuf>, m: Mbuf, fates: set<Fate>)
    requires AllReadable(ms) && |m.mem| >= READABLE
    ensures AllReadable(ms + [m])
    ensures With(rules, s, ms + [m], fates) ==
            With(rules, s, ms, fates) + if FateOf(rules, s, m, |ms|) in fates then [m] else []
  {
    assert (ms + [m])[..|ms|] == ms && (ms + [m])[|ms|] == m;
  }

  /** What one more packet adds to each kind. */
  lemma Extended(rules: seq<Rule>, s: Setting, ms: seq<Mbuf>, m: Mbuf)
    requires AllReadable(ms) && |m.mem| >= READABLE
    ensures AllReadable(ms + [m])
    ensures With(rules, s, ms + [m], FREED) ==
            With(rules, s, ms, FREED) + if FateOf(rules, s, m, |ms|) != ToKernel then [m] else []
    ensures With(rules, s, ms + [m], {ToKernel}) ==
            With(rules, s, ms, {ToKernel}) + if FateOf(rules, s, m, |ms|) == ToKernel then [m] else []
    ensures With(rules, s, ms + [m], {Forwarded}) ==
            With(rules, s, ms, {Forwarded}) + if FateOf(rules, s, m, |ms|) == Forwarded then [m] else []
    ensures With(rules, s, ms + [m], {Lost, Dropped}) ==
            With(rules, s, ms, {Lost, Dropped}) +
            if FateOf(rules, s, m, |ms|) == Lost || FateOf(rules, s, m, |ms|) == Dropped then [m] else []
  {
    hide FateOf, With;
    WithGrows(rules, s, ms, m, FREED);
    WithGrows(rules, s, ms, m, {ToKernel});
    WithGrows(rules, s, ms, m, {Forwarded});
    WithGrows(rules, s, ms, m, {Lost, Dropped});
    assert FateOf(rules, s, m, |ms|) in FREED <==> FateOf(rules, s, m, |ms|) != ToKernel;
  }

  lemma NoPackets(rules: seq<Rule>, s: Setting, fates: set<Fate>)
    ensures With(rules, s, [], fates) == []
  {
  }

  /** A packet that goes to one of two sides. */
  lemma OneMore<T>(freed: seq<T>, kept: seq<T>, all: seq<T>, m: T, keep: bool)
    requires multiset(freed) + multiset(kept) == multiset(all)
    ensures multiset(freed + if keep then [] else [m]) + multiset(kept + if keep then [m] else []) ==
            multiset(all + [m])
  {
    if keep {
      assert freed + [] == freed;
    } else {
      assert kept + [] == kept;
    }
  }

  /** Each packet is freed once or with the kernel once, and the fates add up. */
  lemma {:induction false} Conserved(rules: seq<Rule>, s: Setting, ms: seq<Mbuf>)
    requires AllReadable(ms)
    ensures multiset(With(rules, s, ms, FREED)) + multiset(With(rules, s, ms, {ToKernel})) == multiset(ms)
    ensures |ms| ==
            |With(rules, s, ms, {Forwarded})| + |With(rules, s, ms, {ToKernel})| + |With(rules, s, ms, {Lost, Dropped})|
  {
    hide FateOf, With;
    if ms == [] {
      NoPackets(rules, s, FREED);
      NoPackets(rules, s, {ToKernel});
      NoPackets(rules, s, {Forwarded});
      NoPackets(rules, s, {Lost, Dropped});
    } else {
      var before, m := ms[..|ms| - 1], ms[|ms| - 1];
      assert before + [m] == ms;
      Conserved(rules, s, before);
      Extended(rules, s, before, m);
      OneMore(With(rules, s, before, FREED), With(rules, s, before, {ToKernel}), before, m,
          FateOf(rules, s, m, |before|) == ToKernel);
    }
  }

  /** The packets written out, or lost on the way, are those on the forward path. */
  lemma {:induction false} ForwardedExactly(rules: seq<Rule>, s: Setting, ms: seq<Mbuf>)
    requires AllReadable(ms)
    ensures With(rules, s, ms, {Forwarded, Lost}) == OnForwardPath(rules, ms)
  {
    if ms != [] {
      ForwardedExactly(rules, s, ms[..|ms| - 1]);
    }
  }

  /** The forward path is the same whatever the order of the rules. */
  lemma {:induction false} PathOrder(rules: seq<Rule>, rules': seq<Rule>, ms: seq<Mbuf>)
    requires AllReadable(ms) && multiset(rules) == multiset(rules')
    ensures OnForwardPath(rules, ms) == OnForwardPath(rules', ms)
  {
    if ms != [] {
      var m := ms[|ms| - 1];
      PathOrder(rules, rules', ms[..|ms| - 1]);
      if FlowOf(m.mem).Some? {
        OrderIrrelevant(rules, rules', FlowOf(m.mem).value);
      }
    }
  }

  lemma PathExtended(rules: seq<Rule>, ms: seq<Mbuf>, m: Mbuf)
    requires AllReadable(ms) && |m.mem| >= READABLE
    ensures AllReadable(ms + [m])
    ensures OnForwardPath(rules, ms + [m]) == OnForwardPath(rules, ms) + if ForwardPath(rules, m) then [m] else []
  {
    assert (ms + [m])[..|ms|] == ms && (ms + [m])[|ms|] == m;
  }

  ghost function OnForwardPath(rules: seq<Rule>, ms: seq<Mbuf>): seq<Mbuf>
    requires AllReadable(ms)
  {
    if ms == [] then []
    else
      var m := ms[|ms| - 1];
      OnForwardPath(rules, ms[..|ms| - 1]) + if ForwardPath(rules, m) then [m] else []
  }

  class App {
    const filter: Filter
    const setting: Setting
    var total: nat
    var forwarded: nat
    var kniPackets: nat
    /** Buffers given back to the pool, and buffers that the kernel interface has taken over. */
    var freed: seq<Mbuf>
    var toKni: seq<Mbuf>
    /** Packets dealt with so far. */
    ghost var done: seq<Mbuf>
    /** Packets that have been handed to the forward path, in order. */
    ghost var handedOver: seq<Mbuf>

    constructor (filter: Filter, setting: Setting)
      requires filter.Valid()
      ensures this.filter == filter && this.setting == setting && Accounted() && done == [] && total == 0
    {
      this.filter, this.setting := filter, setting;
      total, forwarded, kniPackets, freed, toKni, done, handedOver := 0, 0, 0, [], [], [], [];
    }

    /** Counters and buffers are as the fates of the packets say. */
    ghost predicate Accounted()
      reads this, filter
    {
      && filter.Valid() && AllReadable(done)
      && freed == With(filter.Rules(), setting, done, FREED)
      && toKni == With(filter.Rules(), setting, done, {ToKernel})
      && |freed| + |toKni| == |done| && kniPackets == |toKni|
      && handedOver == OnForwardPath(filter.Rules(), done)
      && forwarded == |With(filter.Rules(), setting, done, {Forwarded})|
    }

    /** The number of the packet at hand. */
    function Arrival(): nat
      reads this
    {
      |freed| + |toKni|
    }

    method SendToKni(m: Mbuf)
      modifies this`freed, this`toKni, this`kniPackets
      ensures if setting.kni && setting.outside.kniTakes(old(Arrival()))
              then toKni == old(toKni) + [m] && kniPackets == old(kniPackets) + 1 && freed == old(freed)
              else freed == old(freed) + [m] && toKni == old(toKni) && kniPackets == old(kniPackets)
    {
      if setting.kni {
        if !setting.outside.kniTakes(Arrival()) {
          freed := freed + [m];
        } else {
          toKni := toKni + [m];
          kniPackets := kniPackets + 1;
        }
      } else {
        freed := freed + [m];
      }
    }

    /** Writes the packet out, if there is somewhere to write it to, and frees it. */
    method Forward(m: Mbuf)
      modifies this`freed, this`forwarded, this`handedOver
      ensures freed == old(freed) + [m] && handedOver == old(handedOver) + [m]
      ensures forwarded == old(forwarded) + if Writes(setting, old(Arrival())) then 1 else 0
    {
      handedOver := handedOver + [m];
      match setting.forwardIfname {
        case Some(name) =>
          if IsTun(name) {
            if setting.outside.tunTakes(Arrival()) {
              forwarded := forwarded + 1;
            }
          } else if setting.outside.nicTakes(Arrival()) {
            forwarded := forwarded + 1;
          }
        case None =>
      }
      freed := freed + [m];
    }

    /** The tests on one packet: IPv4, TCP or UDP, and a rule for its addresses and ports. */
    method ShouldForward(m: Mbuf) returns (forward: bool)
      requires filter.Valid() && |m.mem| >= READABLE
      ensures forward == ForwardPath(filter.Rules(), m)
    {
      if Be16(m.mem, 12) != ETHER_TYPE_IPV4 {
        return false;
      }
      var protocol := m.mem[23];
      if protocol != IPPROTO_TCP && protocol != IPPROTO_UDP {
        return false;
      }
      hide Be16, Be32, HeaderLength, AnyMatches;
      var l4 := ETHER_HDR + HeaderLength(m.mem);
      var flow := Flow(Be32(m.mem, 26), Be32(m.mem, 30), Be16(m.mem, l4), Be16(m.mem, l4 + 2));
      assert FlowOf(m.mem) == Some(flow);
      forward := filter.Match(flow);
    }

    /** One packet. */
    method Process(m: Mbuf)
      requires Accounted() && |m.mem| >= READABLE
      modifies this
      ensures Accounted() && done == old(done) + [m] && total == old(total)
    {
      hide ForwardPath, With, OnForwardPath, Writes;
      ghost var rules := filter.Rules();
      Extended(rules, setting, done, m);
      PathExtended(rules, done, m);
      done := done + [m];
      var forward := ShouldForward(m);
      if forward {
        Forward(m);
      } else {
        SendToKni(m);
      }
    }

    /** One burst. */
    method ProcessBurst(bufs: seq<Mbuf>)
      requires Accounted() && total == |done| && AllReadable(bufs)
      modifies this
      ensures Accounted() && total == |done| && done == old(done) + bufs
    {
      ghost var before := done;
      total := total + |bufs|;
      hide With, OnForwardPath, Accounted;
      for i := 0 to |bufs|
        invariant Accounted() && total == |before| + |bufs| && done == before + bufs[..i]
      {
        Process(bufs[i]);
        assert bufs[..i + 1] == bufs[..i] + [bufs[i]];
      }
      assert bufs[..|bufs|] == bufs;
    }

    /** The loop, for the bursts that come in until the program is told to stop. */
    method LcoreMain(bursts: seq<seq<Mbuf>>)
      requires Accounted() && total == |done| && forall b | 0 <= b < |bursts| :: AllReadable(bursts[b])
      modifies this
      ensures Accounted() && total == |done| && done == old(done) + Joined(bursts)
      ensures handedOver == OnForwardPath(filter.Rules(), done)
      ensures multiset(freed) + multiset(toKni) == multiset(done)
      ensures total == forwarded + kniPackets + |With(filter.Rules(), setting, done, {Lost, Dropped})|
    {
      hide With, FateOf, OnForwardPath, AllReadable;
      for b := 0 to |bursts|
        invariant Accounted() && total == |done| && done == old(done) + Joined(bursts[..b])
      {
        JoinedNext(bursts, b);
        if |bursts[b]| == 0 {
          continue;
        }
        ProcessBurst(bursts[b]);
      }
      assert bursts[..|bursts|] == bursts;
      Conserved(filter.Rules(), setting, done);
    }
  }

  lemma JoinedNext(bursts: seq<seq<Mbuf>>, b: nat)
    requires b < |bursts|
    ensures Joined(bursts[..b + 1]) == Joined(bursts[..b]) + bursts[b]
    ensures bursts[b] == [] ==> Joined(bursts[..b + 1]) == Joined(bursts[..b])
  {
    assert bursts[..b + 1][..b] == bursts[..b];
  }

  ghost function Joined(bursts: seq<seq<Mbuf>>): seq<Mbuf> {
    if bursts == [] then [] else Joined(bursts[..|bursts| - 1]) + bursts[|bursts| - 1]
  }

  // ----- the program -----

  /** The rules that the arguments ask for. */
  function RulesOf(r: Readers, args: seq<Argument>): seq<Rule>
    requires forall i | 0 <= i < |args| :: ParseRule(r, args[i]).Some?
  {
    seq(|args|, i requires 0 <= i < |args| => ParseRule(r, args[i]).value)
  }

  predicate Accepted(r: Readers, args: seq<Argument>, s: Setting) {
    && 1 <= |args| <= MAX_FILTER_RULES && s.forwardIfname.Some?
    && forall i | 0 <= i < |args| :: ParseRule(r, args[i]).Some?
  }

  // ----- the same on the bytes of the packets and the text of the arguments -----

  /** Four bytes, and two bytes, in network order. */
  predicate Word(mem: seq<Byte>, at: nat, v: nat)
    requires at + 4 <= |mem|
  {
    var a: int, b: int, c: int, d: int := mem[at], mem[at + 1], mem[at + 2], mem[at + 3];
    v == a * 0x100_0000 + b * 0x1_0000 + c * 0x100 + d
  }

  predicate HalfWord(mem: seq<Byte>, at: nat, v: nat)
    requires at + 2 <= |mem|
  {
    var a: int, b: int := mem[at], mem[at + 1];
    v == a * 0x100 + b
  }

  /** Where the ports are: behind the Ethernet header and as many words as the low half of the next byte says. */
  function PortsAt(mem: seq<Byte>): (at: nat)
    requires |mem| >= READABLE
    ensures at + 4 <= |mem|
  {
    var low: nat := mem[14] % 16;
    14 + 4 * low
  }

  /** IPv4 with TCP or UDP. */
  predicate IsFlow(mem: seq<Byte>)
    requires |mem| >= READABLE
  {
    mem[12] == 0x08 && mem[13] == 0x00 && (mem[23] == 6 || mem[23] == 17)
  }

  /** The address and the port of one end of the flow: behind the header fields of the other end for the destination. */
  predicate EndIs(mem: seq<Byte>, direction: Direction, ip: nat, port: nat)
    requires |mem| >= READABLE
  {
    match direction
    case Src => Word(mem, 26, ip) && HalfWord(mem, PortsAt(mem), port)
    case Dst => Word(mem, 30, ip) && HalfWord(mem, PortsAt(mem) + 2, port)
  }

  /** The text is an address, a colon and a port in range; the first colon counts. */
  ghost predicate Names(r: Readers, text: string, ip: nat, port: nat) {
    exists host, rest :: Spells(r, text, host, rest, ip, port)
  }

  ghost predicate Spells(r: Readers, text: string, host: string, rest: string, ip: nat, port: nat) {
    && text == host + ":" + rest && ':' !in host
    && r.inetPton(host) == Some(ip) && r.atoi(rest) == port && 1 <= port < 0x1_0000
  }

  /** A packet that one of the arguments asks for. */
  ghost predicate AskedFor(r: Readers, args: seq<Argument>, mem: seq<Byte>)
    requires |mem| >= READABLE
  {
    IsFlow(mem) && exists i, ip, port ::
      0 <= i < |args| && Names(r, args[i].text, ip, port) && EndIs(mem, args[i].direction, ip, port)
  }

  ghost predicate WellFormed(r: Readers, a: Argument) {
    exists ip, port :: Names(r, a.text, ip, port)
  }

  lemma {:induction false} ColonAt(host: string, rest: string)
    requires ':' !in host
    ensures IndexOfColon(host + ":" + rest) == |host|
  {
    if host == "" {
      assert host + ":" + rest == ":" + rest;
    } else {
      assert (host + ":" + rest)[1..] == host[1..] + ":" + rest;
      ColonAt(host[1..], rest);
    }
  }

  /** What is read of an argument. */
  lemma ArgumentRead(r: Readers, a: Argument, ip: nat, port: nat)
    ensures Names(r, a.text, ip, port) <==> ParseRule(r, a) == Some(Rule(a.direction, ip, port))
  {
    if Names(r, a.text, ip, port) {
      var host, rest :| Spells(r, a.text, host, rest, ip, port);
      ColonAt(host, rest);
      assert a.text[..|host|] == host && a.text[|host| + 1..] == rest;
    }
    if ParseRule(r, a) == Some(Rule(a.direction, ip, port)) {
      var colon := IndexOfColon(a.text);
      assert a.text == a.text[..colon] + ":" + a.text[colon + 1..];
      assert Spells(r, a.text, a.text[..colon], a.text[colon + 1..], ip, port);
    }
  }

  lemma WellFormedIff(r: Readers, a: Argument)
    ensures WellFormed(r, a) <==> ParseRule(r, a).Some?
  {
    match ParseRule(r, a) {
      case Some(rule) => ArgumentRead(r, a, rule.ip, rule.port);
      case None =>
        forall ip, port ensures !Names(r, a.text, ip, port) {
          ArgumentRead(r, a, ip, port);
        }
    }
  }

  lemma FlowBytes(mem: seq<Byte>)
    requires |mem| >= READABLE
    ensures IsFlow(mem) <==> FlowOf(mem).Some?
    ensures IsFlow(mem) ==>
              forall d, ip, port :: EndIs(mem, d, ip, port) <==> Matches(Rule(d, ip, port), FlowOf(mem).value)
  {
  }

  /** A packet is on the forward path exactly if some argument asks for the address and the port in its bytes. */
  lemma PathIsBytes(r: Readers, args: seq<Argument>, m: Mbuf)
    requires |m.mem| >= READABLE && forall i | 0 <= i < |args| :: ParseRule(r, args[i]).Some?
    ensures ForwardPath(RulesOf(r, args), m) <==> AskedFor(r, args, m.mem)
  {
    FlowBytes(m.mem);
    var rules := RulesOf(r, args);
    hide FlowOf, EndIs, IsFlow, Names, ParseRule, Matches;
    if AskedFor(r, args, m.mem) {
      var i, ip, port :|
        0 <= i < |args| && Names(r, args[i].text, ip, port) && EndIs(m.mem, args[i].direction, ip, port);
      ArgumentRead(r, args[i], ip, port);
      assert rules[i] == Rule(args[i].direction, ip, port);
      assert Matches(rules[i], FlowOf(m.mem).value);
    }
    if ForwardPath(rules, m) {
      var i :| 0 <= i < |rules| && Matches(rules[i], FlowOf(m.mem).value);
      RuleDirection(r, args[i]);
      ArgumentRead(r, args[i], rules[i].ip, rules[i].port);
      assert rules[i] == Rule(args[i].direction, rules[i].ip, rules[i].port);
      assert EndIs(m.mem, args[i].direction, rules[i].ip, rules[i].port);
    }
  }

  lemma RuleDirection(r: Readers, a: Argument)
    requires ParseRule(r, a).Some?
    ensures ParseRule(r, a).value.direction == a.direction
  {
  }

  /** The packets whose numbers are chosen, in order. */
  ghost function Select(ms: seq<Mbuf>, chosen: nat -> bool): seq<Mbuf> {
    if ms == [] then []
    else Select(ms[..|ms| - 1], chosen) + if chosen(|ms| - 1) then [ms[|ms| - 1]] else []
  }

  /** The arrivals that the arguments ask for. */
  ghost function Wanted(r: Readers, args: seq<Argument>, ms: seq<Mbuf>): nat -> bool {
    (n: nat) => n < |ms| && |ms[n].mem| >= READABLE && AskedFor(r, args, ms[n].mem)
  }

  /** The others, as far as there is a kernel interface and it takes them. */
  ghost function Unwanted(r: Readers, args: seq<Argument>, s: Setting, ms: seq<Mbuf>): nat -> bool {
    (n: nat) => s.kni && s.outside.kniTakes(n) && !Wanted(r, args, ms)(n)
  }

  /** Those of the wanted ones that the forward interface takes: a TUN device by its name, otherwise a NIC. */
  ghost function Delivered(r: Readers, args: seq<Argument>, s: Setting, ms: seq<Mbuf>): nat -> bool {
    (n: nat) => Wanted(r, args, ms)(n) && s.forwardIfname.Some? &&
                if "tun" <= s.forwardIfname.value then s.outside.tunTakes(n) else s.outside.nicTakes(n)
  }

  lemma {:induction false} SelectPath(rules: seq<Rule>, ms: seq<Mbuf>, chosen: nat -> bool, n: nat)
    requires AllReadable(ms) && n <= |ms| && forall k | 0 <= k < n :: chosen(k) <==> ForwardPath(rules, ms[k])
    ensures OnForwardPath(rules, ms[..n]) == Select(ms[..n], chosen)
  {
    hide ForwardPath;
    if n > 0 {
      SelectPath(rules, ms, chosen, n - 1);
      assert ms[..n][..n - 1] == ms[..n - 1] && ms[..n][n - 1] == ms[n - 1];
    }
  }

  lemma {:induction false} SelectWith(rules: seq<Rule>, s: Setting, ms: seq<Mbuf>, f: Fate, chosen: nat -> bool, n: nat)
    requires AllReadable(ms) && n <= |ms| && forall k | 0 <= k < n :: chosen(k) <==> FateOf(rules, s, ms[k], k) == f
    ensures With(rules, s, ms[..n], {f}) == Select(ms[..n], chosen)
  {
    hide FateOf;
    if n > 0 {
      SelectWith(rules, s, ms, f, chosen, n - 1);
      assert ms[..n][..n - 1] == ms[..n - 1] && ms[..n][n - 1] == ms[n - 1];
    }
  }

  /** What becomes of each packet, on bytes. */
  lemma FatesAreBytes(r: Readers, args: seq<Argument>, s: Setting, ms: seq<Mbuf>, rules: seq<Rule>)
    requires AllReadable(ms) && (forall i | 0 <= i < |args| :: ParseRule(r, args[i]).Some?)
    requires multiset(rules) == multiset(RulesOf(r, args))
    ensures OnForwardPath(rules, ms) == Select(ms, Wanted(r, args, ms))
    ensures With(rules, s, ms, {ToKernel}) == Select(ms, Unwanted(r, args, s, ms))
    ensures With(rules, s, ms, {Forwarded}) == Select(ms, Delivered(r, args, s, ms))
  {
    forall k | 0 <= k < |ms|
      ensures ForwardPath(rules, ms[k]) <==> Wanted(r, args, ms)(k)
    {
      PathIsBytes(r, args, ms[k]);
      SameRules(rules, RulesOf(r, args), ms[k]);
    }
    hide ForwardPath, AskedFor, RulesOf, ParseRule;
    assert ms[..|ms|] == ms;
    SelectPath(rules, ms, Wanted(r, args, ms), |ms|);
    SelectWith(rules, s, ms, ToKernel, Unwanted(r, args, s, ms), |ms|);
    SelectWith(rules, s, ms, Forwarded, Delivered(r, args, s, ms), |ms|);
  }

  lemma SameRules(a: seq<Rule>, b: seq<Rule>, m: Mbuf)
    requires |m.mem| >= READABLE && multiset(a) == multiset(b)
    ensures ForwardPath(a, m) <==> ForwardPath(b, m)
  {
    if FlowOf(m.mem).Some? {
      OrderIrrelevant(a, b, FlowOf(m.mem).value);
    }
  }

  /**
   * From the command line to the last packet, on the text of the arguments and the bytes of the packets:
   * what is handed to the forward interface, what the kernel gets and how many packets count as forwarded,
   * all in the order of arrival.
   */
  method RunFilter(r: Readers, args: seq<Argument>, s: Setting, bursts: seq<seq<Mbuf>>) returns (app: App?)
    requires forall b | 0 <= b < |bursts| :: AllReadable(bursts[b])
    ensures app != null <==>
              && 1 <= |args| <= 64 && s.forwardIfname.Some?
              && forall i | 0 <= i < |args| :: WellFormed(r, args[i])
    ensures app != null ==>
              && Accepted(r, args, s) && AllReadable(Joined(bursts)) && app.done == Joined(bursts)
              && app.handedOver == OnForwardPath(RulesOf(r, args), Joined(bursts))
              && app.total == |Joined(bursts)|
              && multiset(app.freed) + multiset(app.toKni) == multiset(Joined(bursts))
              && app.forwarded <= |app.handedOver|
    ensures app != null ==>
              var ms := Joined(bursts);
              && app.handedOver == Select(ms, Wanted(r, args, ms))
              && app.toKni == Select(ms, Unwanted(r, args, s, ms))
              && app.forwarded == |Select(ms, Delivered(r, args, s, ms))|
              && app.kniPackets == |app.toKni|
  {
    forall i | 0 <= i < |args| ensures WellFormed(r, args[i]) <==> ParseRule(r, args[i]).Some? {
      WellFormedIff(r, args[i]);
    }
    hide WellFormed, ParseRule, Select, Wanted, Unwanted, Delivered, OnForwardPath, With, FateOf, Joined;
    var rules := ParseRules(r, args);
    if rules == None || s.forwardIfname == None || |rules.value| == 0 {
      return null;
    }
    assert rules.value == RulesOf(r, args);
    var filter := new Filter();
    filter.AddAll(rules.value);
    app := new App(filter, s);
    ghost var none: seq<Mbuf> := [];
    assert none + Joined(bursts) == Joined(bursts);
    app.LcoreMain(bursts);
    PathOrder(filter.Rules(), rules.value, app.done);
    ForwardedExactly(filter.Rules(), s, app.done);
    FewerFates(filter.Rules(), s, app.done);
    FatesAreBytes(r, args, s, app.done, filter.Rules());
  }

  lemma {:induction false} FewerFates(rules: seq<Rule>, s: Setting, ms: seq<Mbuf>)
    requires AllReadable(ms)
    ensures |With(rules, s, ms, {Forwarded})| <= |With(rules, s, ms, {Forwarded, Lost})|
  {
    if ms != [] {
      FewerFates(rules, s, ms[..|ms| - 1]);
    }
  }
}
