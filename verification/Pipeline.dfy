/**
 * The three-core packet pipeline: an RX core, a worker core and a TX core exchange packet
 * buffers over per-port rings. Each core is an endless polling loop; one event is one access
 * of one core to the state the cores share, so a sequence of events is an interleaving.
 */
module Pipeline {
  import opened Bits
  import opened Divisors

  type Mbuf = nat

  /** The part of the application parameters that the three loops read. */
  datatype Config = Config(
    nPorts: nat, ringRxSize: nat, ringTxSize: nat,
    rxRead: nat, workerRead: nat, workerWrite: nat, txRead: nat, txWrite: nat)

  ghost predicate ValidConfig(c: Config) {
    && IsPow2(c.nPorts) && c.nPorts >= 2
    && c.ringRxSize >= 1 && c.ringTxSize >= 1
    && c.rxRead >= 1 && c.txRead >= 1 && c.txWrite >= 1
    && c.workerRead == c.workerWrite >= 1
  }

  /** An RX ring that is too full for a burst from the NIC holds a whole burst for the worker. */
  predicate RxRingFits(c: Config) {
    c.rxRead + c.workerRead <= c.ringRxSize
  }

  /**
   * A TX ring that is too full for the worker holds a whole burst for TX: its fill levels are
   * multiples of the greatest common divisor of the two burst sizes.
   */
  predicate TxRingFits(c: Config)
    requires c.workerWrite >= 1
  {
    c.workerWrite + c.txRead - Gcd(c.workerWrite, c.txRead) < c.ringTxSize
  }

  predicate RingsFit(c: Config)
    requires c.workerWrite >= 1
  {
    RxRingFits(c) && TxRingFits(c)
  }

  /** The next port of a polling loop; see `NextPortIsMask`. */
  function NextPort(c: Config, i: nat): nat {
    if i + 1 == c.nPorts then 0 else i + 1
  }

  /** The port on the other side; see `PeerIsXor`. */
  function Peer(i: nat): nat {
    if i % 2 == 0 then i + 1 else i - 1
  }

  /** For a power of two, `(i + 1) & (n_ports - 1)` is round robin. */
  lemma NextPortIsMask(c: Config, i: nat)
    requires ValidConfig(c) && i < c.nPorts
    ensures And(i + 1, c.nPorts - 1) == NextPort(c, i) < c.nPorts
  {
    var k: nat :| c.nPorts == Pow2(k);
    RoundRobin(i, k);
  }

  /** `i ^ 1` pairs up neighbouring ports. */
  lemma PeerIsXor(i: nat)
    ensures Xor(i, 1) == Peer(i) && Peer(Peer(i)) == i
  {
    assert Xor(i / 2, 0) == i / 2;
  }

  /** The port swap stays inside the port table exactly when the number of ports is even. */
  lemma PeerInRange(n: nat)
    ensures (forall i: nat | i < n :: Peer(i) < n) <==> n % 2 == 0
  {
    if n % 2 == 1 {
      assert Peer(n - 1) == n;
    }
  }

  lemma {:induction false} PortsEven(c: Config)
    requires ValidConfig(c)
    ensures c.nPorts % 2 == 0
    ensures forall i: nat | i < c.nPorts :: Peer(i) < c.nPorts
  {
    var k: nat :| c.nPorts == Pow2(k);
    assert k > 0;
    assert Pow2(k) == 2 * Pow2(k - 1);
  }

  // ----- the cores -----

  datatype RxPc = RxPoll | RxPush(held: seq<Mbuf>)
  datatype WorkerPc = WorkerPoll | WorkerPush(held: seq<Mbuf>)
  datatype TxPc = TxPoll | TxSend | TxFree(k: nat)

  /** What became of a packet that left the pipeline. */
  datatype Fate = Sent(m: Mbuf) | Freed(m: Mbuf)

  /** `received` and `done` record what came in and what went out, per port. */
  datatype State = State(
    rxPort: nat, rx: RxPc, workerPort: nat, worker: WorkerPc, txPort: nat, tx: TxPc,
    ringsRx: seq<seq<Mbuf>>, ringsTx: seq<seq<Mbuf>>, mbufTx: seq<seq<Mbuf>>,
    received: seq<seq<Mbuf>>, done: seq<seq<Fate>>)

  /** Which core moves; `burst` is what the NIC hands over, `accepted` what it takes. */
  datatype Event = Rx(burst: seq<Mbuf>) | Worker | Tx(accepted: nat)

  ghost predicate Shape(c: Config, s: State) {
    && s.rxPort < c.nPorts && s.workerPort < c.nPorts && s.txPort < c.nPorts
    && |s.ringsRx| == |s.ringsTx| == |s.mbufTx| == |s.received| == |s.done| == c.nPorts
    && (s.tx.TxFree? ==> s.tx.k <= |s.mbufTx[s.txPort]|)
  }

  predicate ValidEvent(c: Config, s: State, e: Event)
    requires s.txPort < |s.mbufTx|
  {
    match e
    case Rx(burst) => |burst| <= c.rxRead
    case Worker => true
    case Tx(accepted) => accepted <= |s.mbufTx[s.txPort]|
  }

  function RxStep(c: Config, s: State, burst: seq<Mbuf>): State
    requires ValidConfig(c) && Shape(c, s)
  {
    var i := s.rxPort;
    match s.rx
    case RxPoll =>
      if burst == [] then s.(rxPort := NextPort(c, i))
      else s.(rx := RxPush(burst), received := s.received[i := s.received[i] + burst])
    case RxPush(held) =>
      if |s.ringsRx[i]| + |held| <= c.ringRxSize - 1 then
        s.(ringsRx := s.ringsRx[i := s.ringsRx[i] + held], rx := RxPoll, rxPort := NextPort(c, i))
      else s
  }

  function WorkerStep(c: Config, s: State): State
    requires ValidConfig(c) && Shape(c, s)
  {
    var i := s.workerPort;
    match s.worker
    case WorkerPoll =>
      if |s.ringsRx[i]| < c.workerRead then s.(workerPort := NextPort(c, i))
      else s.(worker := WorkerPush(s.ringsRx[i][..c.workerRead]),
              ringsRx := s.ringsRx[i := s.ringsRx[i][c.workerRead..]])
    case WorkerPush(held) =>
      PortsEven(c);
      var j := Peer(i);
      if |s.ringsTx[j]| + |held| <= c.ringTxSize - 1 then
        s.(ringsTx := s.ringsTx[j := s.ringsTx[j] + held], worker := WorkerPoll, workerPort := NextPort(c, i))
      else s
  }

  function TxStep(c: Config, s: State, accepted: nat): State
    requires ValidConfig(c) && Shape(c, s)
    requires accepted <= |s.mbufTx[s.txPort]|
  {
    var i := s.txPort;
    var pending := s.mbufTx[i];
    match s.tx
    case TxPoll =>
      if |s.ringsTx[i]| < c.txRead then s.(txPort := NextPort(c, i))
      else
        var more := pending + s.ringsTx[i][..c.txRead];
        var s' := s.(mbufTx := s.mbufTx[i := more], ringsTx := s.ringsTx[i := s.ringsTx[i][c.txRead..]]);
        if |more| < c.txWrite then s'.(txPort := NextPort(c, i)) else s'.(tx := TxSend)
    case TxSend =>
      s.(tx := TxFree(accepted), done := s.done[i := s.done[i] + AllSent(pending[..accepted])])
    case TxFree(k) =>
      if k < |pending| then s.(tx := TxFree(k + 1), done := s.done[i := s.done[i] + [Freed(pending[k])]])
      else s.(tx := TxPoll, mbufTx := s.mbufTx[i := []], txPort := NextPort(c, i))
  }

  function AllSent(ms: seq<Mbuf>): seq<Fate> {
    seq(|ms|, i requires 0 <= i < |ms| => Sent(ms[i]))
  }

  function Step(c: Config, s: State, e: Event): State
    requires ValidConfig(c) && Shape(c, s) && ValidEvent(c, s, e)
  {
    match e
    case Rx(burst) => RxStep(c, s, burst)
    case Worker => WorkerStep(c, s)
    case Tx(accepted) => TxStep(c, s, accepted)
  }

  function Init(c: Config): State {
    var none := seq(c.nPorts, _ => []);
    State(0, RxPoll, 0, WorkerPoll, 0, TxPoll, none, none, none, none, seq(c.nPorts, _ => []))
  }

  // ----- what every state keeps -----

  function Mbufs(fates: seq<Fate>): seq<Mbuf> {
    seq(|fates|, i requires 0 <= i < |fates| => fates[i].m)
  }

  /** The part of the TX buffer of port `j` that has neither been sent nor freed. */
  ghost function Unsent(c: Config, s: State, j: nat): seq<Mbuf>
    requires Shape(c, s) && j < c.nPorts
  {
    if s.tx.TxFree? && s.txPort == j then s.mbufTx[j][s.tx.k..] else s.mbufTx[j]
  }

  ghost function WorkerHeld(s: State, i: nat): seq<Mbuf> {
    if s.worker.WorkerPush? && s.workerPort == i then s.worker.held else []
  }

  ghost function RxHeld(s: State, i: nat): seq<Mbuf> {
    if s.rx.RxPush? && s.rxPort == i then s.rx.held else []
  }

  /** Every packet between the receive side of port `i` and the transmit side of its peer, oldest first. */
  ghost function Lane(c: Config, s: State, i: nat): seq<Mbuf>
    requires ValidConfig(c) && Shape(c, s) && i < c.nPorts
  {
    PortsEven(c);
    var j := Peer(i);
    Mbufs(s.done[j]) + Unsent(c, s, j) + s.ringsTx[j] + WorkerHeld(s, i) + s.ringsRx[i] + RxHeld(s, i)
  }

  /** First in, first out, per port: nothing lost, duplicated, reordered or sent elsewhere. */
  ghost predicate Conserved(c: Config, s: State)
    requires ValidConfig(c) && Shape(c, s)
  {
    forall i: nat | i < c.nPorts :: s.received[i] == Lane(c, s, i)
  }

  /** No ring is overfilled, bursts have their sizes, and the TX buffers stay within one write plus one read. */
  ghost predicate Bounded(c: Config, s: State)
    requires Shape(c, s)
  {
    && (forall i: nat | i < c.nPorts :: |s.ringsRx[i]| <= c.ringRxSize - 1)
    && (forall i: nat | i < c.nPorts :: |s.ringsTx[i]| <= c.ringTxSize - 1)
    && (s.rx.RxPush? ==> 1 <= |s.rx.held| <= c.rxRead)
    && (s.worker.WorkerPush? ==> |s.worker.held| == c.workerRead)
    && (forall j: nat | j < c.nPorts && !(j == s.txPort && !s.tx.TxPoll?) :: |s.mbufTx[j]| <= c.txWrite - 1)
    && (!s.tx.TxPoll? ==> |s.mbufTx[s.txPort]| <= c.txWrite - 1 + c.txRead)
  }

  /**
   * A TX ring is filled and emptied by whole bursts, so it only ever holds multiples of their greatest
   * common divisor.
   */
  ghost predicate Levelled(c: Config, s: State)
    requires ValidConfig(c) && Shape(c, s)
  {
    forall j: nat | j < c.nPorts :: Divides(Gcd(c.workerWrite, c.txRead), |s.ringsTx[j]|)
  }

  ghost predicate Inv(c: Config, s: State)
    requires ValidConfig(c)
  {
    Shape(c, s) && Bounded(c, s) && Conserved(c, s) && Levelled(c, s)
  }

  lemma InitLane(c: Config, i: nat)
    requires ValidConfig(c) && i < c.nPorts
    ensures Init(c).received[i] == Lane(c, Init(c), i)
  {
    PortsEven(c);
    var s, j := Init(c), Peer(i);
    assert s.ringsRx[i] == [] && s.ringsTx[j] == [] && s.mbufTx[j] == [] && s.received[i] == [] && s.done[j] == [];
  }

  lemma InitInv(c: Config)
    requires ValidConfig(c)
    ensures Inv(c, Init(c))
  {
    var s := Init(c);
    assert Bounded(c, s);
    assert Levelled(c, s) by {
      DividesZero(Gcd(c.workerWrite, c.txRead));
    }
    hide Lane, Levelled, Bounded;
    forall i: nat | i < c.nPorts ensures s.received[i] == Lane(c, s, i) {
      InitLane(c, i);
    }
  }

  /** The TX rings change by one whole burst at a time. */
  lemma LevelsChange(c: Config, s: State, s': State)
    requires ValidConfig(c) && Shape(c, s) && Shape(c, s') && Levelled(c, s)
    requires forall j: nat | j < c.nPorts ::
               var m, m' := |s.ringsTx[j]|, |s'.ringsTx[j]|;
               m' == m || m' == m + c.workerWrite || m == m' + c.txRead
    ensures Levelled(c, s')
  {
    var g := Gcd(c.workerWrite, c.txRead);
    GcdDivides(c.workerWrite, c.txRead);
    hide Divides;
    forall j: nat | j < c.nPorts ensures Divides(g, |s'.ringsTx[j]|) {
      var m, m' := |s.ringsTx[j]|, |s'.ringsTx[j]|;
      if m' == m + c.workerWrite {
        DividesSum(g, m, c.workerWrite, 1);
      } else if m == m' + c.txRead {
        DividesDifference(g, m, c.txRead);
      }
    }
  }

  lemma RxLane(c: Config, s: State, burst: seq<Mbuf>, i: nat)
    requires ValidConfig(c) && Shape(c, s) && i < c.nPorts && s.received[i] == Lane(c, s, i)
    ensures Shape(c, RxStep(c, s, burst))
    ensures RxStep(c, s, burst).received[i] == Lane(c, RxStep(c, s, burst), i)
  {
    PortsEven(c);
    var s' := RxStep(c, s, burst);
    var j := Peer(i);
    var front := Mbufs(s.done[j]) + Unsent(c, s, j) + s.ringsTx[j] + WorkerHeld(s, i);
    assert s.received[i] == front + s.ringsRx[i] + RxHeld(s, i);
    assert s'.received[i] == front + (s'.ringsRx[i] + RxHeld(s', i));
  }

  lemma RxKeeps(c: Config, s: State, burst: seq<Mbuf>)
    requires ValidConfig(c) && Inv(c, s) && |burst| <= c.rxRead
    ensures Inv(c, RxStep(c, s, burst))
  {
    hide Levelled;
    var s' := RxStep(c, s, burst);
    assert Bounded(c, s');
    LevelsChange(c, s, s');
    forall i: nat | i < c.nPorts ensures s'.received[i] == Lane(c, s', i) {
      RxLane(c, s, burst, i);
    }
  }

  /** What a worker step does to the packets between an RX ring and the TX ring of its peer. */
  lemma WorkerMiddle(c: Config, s: State, i: nat)
    requires ValidConfig(c) && Shape(c, s) && i < c.nPorts
    ensures Shape(c, WorkerStep(c, s)) && Peer(i) < c.nPorts
    ensures var s' := WorkerStep(c, s); var j := Peer(i);
            s.ringsTx[j] + WorkerHeld(s, i) + s.ringsRx[i] == s'.ringsTx[j] + WorkerHeld(s', i) + s'.ringsRx[i]
  {
    PortsEven(c);
    assert Peer(i) == Peer(s.workerPort) ==> i == s.workerPort;
  }

  lemma WorkerLane(c: Config, s: State, i: nat)
    requires ValidConfig(c) && Shape(c, s) && i < c.nPorts && s.received[i] == Lane(c, s, i)
    ensures Shape(c, WorkerStep(c, s))
    ensures WorkerStep(c, s).received[i] == Lane(c, WorkerStep(c, s), i)
  {
    WorkerMiddle(c, s, i);
    var s' := WorkerStep(c, s);
    var j := Peer(i);
    var out, unsent, back := Mbufs(s.done[j]), Unsent(c, s, j), RxHeld(s, i);
    Regroup(out, unsent, s.ringsTx[j], WorkerHeld(s, i), s.ringsRx[i], back);
    Regroup(out, unsent, s'.ringsTx[j], WorkerHeld(s', i), s'.ringsRx[i], back);
  }

  lemma Regroup<T>(a: seq<T>, b: seq<T>, c: seq<T>, d: seq<T>, e: seq<T>, f: seq<T>)
    ensures a + b + c + d + e + f == a + b + (c + d + e) + f
  {
  }

  lemma WorkerKeeps(c: Config, s: State)
    requires ValidConfig(c) && Inv(c, s)
    ensures Inv(c, WorkerStep(c, s))
  {
    hide Levelled;
    PortsEven(c);
    var s' := WorkerStep(c, s);
    assert Bounded(c, s');
    LevelsChange(c, s, s');
    forall i: nat | i < c.nPorts ensures s'.received[i] == Lane(c, s', i) {
      WorkerLane(c, s, i);
    }
  }

  lemma TxLane(c: Config, s: State, accepted: nat, i: nat)
    requires ValidConfig(c) && Shape(c, s) && accepted <= |s.mbufTx[s.txPort]|
    requires i < c.nPorts && s.received[i] == Lane(c, s, i)
    ensures Shape(c, TxStep(c, s, accepted))
    ensures TxStep(c, s, accepted).received[i] == Lane(c, TxStep(c, s, accepted), i)
  {
    PortsEven(c);
    var s' := TxStep(c, s, accepted);
    var j := Peer(i);
    TxFront(c, s, accepted, j);
    var back := WorkerHeld(s, i) + s.ringsRx[i] + RxHeld(s, i);
    var front := Mbufs(s.done[j]) + Unsent(c, s, j) + s.ringsTx[j];
    assert Lane(c, s, i) == front + back;
    assert Lane(c, s', i) == front + back;
  }

  lemma TxKeeps(c: Config, s: State, accepted: nat)
    requires ValidConfig(c) && Inv(c, s) && accepted <= |s.mbufTx[s.txPort]|
    ensures Inv(c, TxStep(c, s, accepted))
  {
    hide Levelled;
    var s' := TxStep(c, s, accepted);
    assert Bounded(c, s');
    LevelsChange(c, s, s');
    forall i: nat | i < c.nPorts ensures s'.received[i] == Lane(c, s', i) {
      TxLane(c, s, accepted, i);
    }
  }

  /** What a TX step does to the transmit side of port `j`. */
  lemma TxFront(c: Config, s: State, accepted: nat, j: nat)
    requires ValidConfig(c) && Shape(c, s) && accepted <= |s.mbufTx[s.txPort]| && j < c.nPorts
    ensures Shape(c, TxStep(c, s, accepted))
    ensures var s' := TxStep(c, s, accepted);
            Mbufs(s.done[j]) + Unsent(c, s, j) + s.ringsTx[j] == Mbufs(s'.done[j]) + Unsent(c, s', j) + s'.ringsTx[j]
  {
    var s' := TxStep(c, s, accepted);
    var pending := s.mbufTx[j];
    if j == s.txPort {
      match s.tx
      case TxPoll =>
        assert Unsent(c, s, j) + s.ringsTx[j] == Unsent(c, s', j) + s'.ringsTx[j];
        assert Mbufs(s.done[j]) + Unsent(c, s, j) + s.ringsTx[j] == Mbufs(s.done[j]) + (Unsent(c, s, j) + s.ringsTx[j]);
        assert Mbufs(s.done[j]) + Unsent(c, s', j) + s'.ringsTx[j] ==
               Mbufs(s.done[j]) + (Unsent(c, s', j) + s'.ringsTx[j]);
      case TxSend =>
        assert Mbufs(s'.done[j]) == Mbufs(s.done[j]) + pending[..accepted];
        assert Mbufs(s.done[j]) + pending == Mbufs(s'.done[j]) + pending[accepted..];
      case TxFree(k) =>
        if k < |pending| {
          assert Mbufs(s'.done[j]) == Mbufs(s.done[j]) + [pending[k]];
          assert Mbufs(s.done[j]) + pending[k..] == Mbufs(s'.done[j]) + pending[k + 1..];
        }
    }
  }

  lemma StepKeeps(c: Config, s: State, e: Event)
    requires ValidConfig(c) && Inv(c, s) && ValidEvent(c, s, e)
    ensures Inv(c, Step(c, s, e))
  {
    match e
    case Rx(burst) => RxKeeps(c, s, burst);
    case Worker => WorkerKeeps(c, s);
    case Tx(accepted) => TxKeeps(c, s, accepted);
  }

  // ----- finite runs -----

  /** `s'` is where the interleaving `events` leads from the start. */
  ghost predicate Reaches(c: Config, events: seq<Event>, s': State)
    requires ValidConfig(c)
    decreases |events|
  {
    if events == [] then s' == Init(c)
    else
      var last := |events| - 1;
      exists s: State :: Reaches(c, events[..last], s) && Shape(c, s) && ValidEvent(c, s, events[last])
          && s' == Step(c, s, events[last])
  }

  /** In every interleaving the sequence received on a port is its lane, and no ring or buffer overflows. */
  lemma {:induction false} EveryRunConserves(c: Config, events: seq<Event>, s: State)
    requires ValidConfig(c) && Reaches(c, events, s)
    ensures Inv(c, s)
    decreases |events|
  {
    if events == [] {
      InitInv(c);
    } else {
      var last := |events| - 1;
      var r :| Reaches(c, events[..last], r) && Shape(c, r) && ValidEvent(c, r, events[last])
          && s == Step(c, r, events[last]);
      EveryRunConserves(c, events[..last], r);
      StepKeeps(c, r, events[last]);
    }
  }

  /** The n-th packet that leaves port `i ^ 1` is the n-th packet that came in on port `i`. */
  lemma OutputIsInputPrefix(c: Config, events: seq<Event>, s: State, i: nat)
    requires ValidConfig(c) && Reaches(c, events, s) && i < c.nPorts
    ensures Shape(c, s) && Peer(i) < c.nPorts
    ensures Mbufs(s.done[Peer(i)]) <= s.received[i]
  {
    EveryRunConserves(c, events, s);
    PortsEven(c);
    assert s.received[i] == Lane(c, s, i);
  }
}
