/**
 * Which packets the filter judges by their own bytes. Header fields are read from the buffer whether or
 * not the packet reaches that far, and what lies behind a short packet is left over from earlier ones.
 */
module PacketBytes {
  import opened Demo

  /** The buffer begins with the packet's own bytes; behind them there may be anything. */
  predicate Holds(m: Mbuf, own: seq<Byte>) {
    |m.mem| >= READABLE && own <= m.mem
  }

  /** The path is the same whatever lies behind the packet, for all rules. */
  ghost predicate Decided(own: seq<Byte>) {
    forall rules, m, m' | Holds(m, own) && Holds(m', own) :: SamePath(rules, m, m')
  }

  ghost predicate SamePath(rules: seq<Rule>, m: Mbuf, m': Mbuf)
    requires |m.mem| >= READABLE && |m'.mem| >= READABLE
  {
    ForwardPath(rules, m) <==> ForwardPath(rules, m')
  }

  /**
   * The packet has a byte that rules it out, or reaches to the end of the addresses and of the ports,
   * which are found behind the header length.
   */
  predicate Reaches(own: seq<Byte>) {
    || (|own| > 12 && own[12] != 0x08)
    || (|own| > 13 && own[13] != 0x00)
    || (|own| > 23 && own[23] != IPPROTO_TCP && own[23] != IPPROTO_UDP)
    || (|own| >= 34 && |own| >= Ports(own) + 4)
  }

  /** Where the ports are. */
  function Ports(own: seq<Byte>): (at: nat)
    requires |own| > ETHER_HDR
    ensures ETHER_HDR <= at <= READABLE - 4
  {
    var versionIhl: nat := own[ETHER_HDR];
    ETHER_HDR + versionIhl % 16 * 4
  }

  lemma SameBytes(own: seq<Byte>, m: Mbuf)
    requires Holds(m, own)
    ensures forall i | 0 <= i < |own| :: m.mem[i] == own[i]
    ensures |own| > ETHER_HDR ==> Ports(m.mem) == Ports(own)
  {
  }

  lemma FlowIs(mem: seq<Byte>)
    requires |mem| >= READABLE
    ensures mem[12] != 0x08 || mem[13] != 0x00 || (mem[23] != IPPROTO_TCP && mem[23] != IPPROTO_UDP) ==>
              FlowOf(mem) == None
    ensures mem[12] == 0x08 && mem[13] == 0x00 && (mem[23] == IPPROTO_TCP || mem[23] == IPPROTO_UDP) ==>
              FlowOf(mem) == Some(Flow(Be32(mem, 26), Be32(mem, 30), Be16(mem, Ports(mem)), Be16(mem, Ports(mem) + 2)))
  {
  }

  lemma ReachingDecides(own: seq<Byte>, m: Mbuf, m': Mbuf)
    requires Reaches(own) && Holds(m, own) && Holds(m', own)
    ensures FlowOf(m.mem) == FlowOf(m'.mem)
  {
    SameBytes(own, m);
    SameBytes(own, m');
    FlowIs(m.mem);
    FlowIs(m'.mem);
    hide FlowOf, Ports;
  }

  /** The own bytes of a packet, followed by the rest of an IPv4 TCP packet with zeros elsewhere. */
  function Completed(own: seq<Byte>): (m: Mbuf)
    requires |own| < READABLE
    ensures Holds(m, own) && |m.mem| == READABLE
    ensures forall i | |own| <= i < READABLE :: m.mem[i] == if i == 12 then 0x08 else if i == 23 then IPPROTO_TCP else 0
  {
    Mbuf(0, own + seq(READABLE - |own|, i requires 0 <= i < READABLE - |own| =>
      if |own| + i == 12 then 0x08 else if |own| + i == 23 then IPPROTO_TCP else 0 as Byte))
  }

  /** Another buffer for the same packet, with one more byte changed. */
  function Changed(own: seq<Byte>, at: nat, b: Byte): (m: Mbuf)
    requires |own| <= at < READABLE
    ensures Holds(m, own) && m.mem == Completed(own).mem[at := b]
  {
    Mbuf(0, Completed(own).mem[at := b])
  }

  /** The first byte that is missing and matters. */
  function Missing(own: seq<Byte>): (at: nat)
    requires !Reaches(own)
    ensures |own| <= at < READABLE
  {
    if |own| <= 23 then 23 else if |own| < 34 then 33 else Ports(own) + 3
  }

  lemma CompletedFlow(own: seq<Byte>)
    requires !Reaches(own)
    ensures |own| < READABLE && FlowOf(Completed(own).mem).Some?
  {
    assert Missing(own) < READABLE;
    SameBytes(own, Completed(own));
    FlowIs(Completed(own).mem);
  }

  lemma LowByte(mem: seq<Byte>, mem': seq<Byte>, at: nat)
    requires at + 2 <= |mem| == |mem'| && mem[at] == mem'[at] && mem[at + 1] == 0 && mem'[at + 1] == 1
    ensures Be16(mem, at) != Be16(mem', at)
  {
  }

  /** Two buffers for the same short packet, and a rule that tells them apart. */
  lemma Apart(own: seq<Byte>) returns (r: Rule, m: Mbuf, m': Mbuf)
    requires !Reaches(own)
    ensures Holds(m, own) && Holds(m', own)
    ensures FlowOf(m.mem).Some? && Matches(r, FlowOf(m.mem).value)
    ensures FlowOf(m'.mem).Some? ==> !Matches(r, FlowOf(m'.mem).value)
  {
    CompletedFlow(own);
    var at := Missing(own);
    m, m' := Completed(own), Changed(own, at, if |own| <= 23 then 0 else 1);
    var f := FlowOf(m.mem).value;
    r := Rule(Dst, f.dstIp, f.dstPort);
    FlowIs(m.mem);
    FlowIs(m'.mem);
    if |own| > 23 {
      SameBytes(own, m);
      SameBytes(own, m');
      hide FlowOf, Ports, Be16;
      LowByte(m.mem, m'.mem, at - 1);
    }
  }

  /** A packet is judged by its own bytes exactly if it reaches far enough. */
  lemma DecidedIff(own: seq<Byte>)
    ensures Decided(own) <==> Reaches(own)
  {
    if Reaches(own) {
      forall rules, m, m' | Holds(m, own) && Holds(m', own) ensures SamePath(rules, m, m') {
        ReachingDecides(own, m, m');
      }
    } else {
      var r, m, m' := Apart(own);
      hide FlowOf, Reaches;
      assert AnyMatches([r], FlowOf(m.mem).value) by {
        assert Matches([r][0], FlowOf(m.mem).value);
      }
      assert !SamePath([r], m, m');
    }
  }
}
