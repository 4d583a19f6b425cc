/**
 * What the outside sees of the pipeline: which port each core polls next, what it takes from the NIC of
 * that port, and what it gives to the NIC. All of it is stated of the sequence of events of a run.
 */
module PipelinePolls {
  import opened Bits
  import opened Pipeline
  import opened PipelineLiveness
  import opened PipelineDelivery
  import opened PipelineSpin

  // ----- the next port -----

  predicate Polling(core: Core, s: State) {
    match core
    case RxCore => s.rx.RxPoll?
    case WorkerCore => s.worker.WorkerPoll?
    case TxCore => s.tx.TxPoll?
  }

  function PortOf(core: Core, s: State): nat {
    match core
    case RxCore => s.rxPort
    case WorkerCore => s.workerPort
    case TxCore => s.txPort
  }

  /** The core asks its ring or its NIC for a burst. */
  predicate Polls(core: Core, s: State, e: Event) {
    CoreOf(e) == core && Polling(core, s)
  }

  /** A core that leaves a port goes on to `(i + 1) & (n_ports - 1)`, and it is done with the port it leaves. */
  lemma PortMoves(c: Config, core: Core, s: State, e: Event)
    requires ValidConfig(c) && Shape(c, s) && ValidEvent(c, s, e)
    ensures var s' := Step(c, s, e);
            PortOf(core, s') != PortOf(core, s) ==>
              CoreOf(e) == core && PortOf(core, s') == And(PortOf(core, s) + 1, c.nPorts - 1) && Polling(core, s')
    ensures var s' := Step(c, s, e);
            Polls(core, s, e) && Polling(core, s') ==> PortOf(core, s') == And(PortOf(core, s) + 1, c.nPorts - 1)
    ensures var s' := Step(c, s, e);
            !Polling(core, s) && Polling(core, s') ==> PortOf(core, s') == And(PortOf(core, s) + 1, c.nPorts - 1)
    ensures var s' := Step(c, s, e);
            !Polling(core, s') ==> PortOf(core, s') == PortOf(core, s) && (Polling(core, s) ==> Polls(core, s, e))
    ensures var s' := Step(c, s, e);
            CoreOf(e) != core ==> PortOf(core, s') == PortOf(core, s) && Polling(core, s') == Polling(core, s)
  {
    NextPortIsMask(c, PortOf(core, s));
    PortsEven(c);
    hide And;
  }

  /** How often the core has polled before moment `t`. */
  ghost function PollCount(ev: nat -> Event, st: nat -> State, core: Core, t: nat): nat {
    if t == 0 then 0 else PollCount(ev, st, core, t - 1) + if Polls(core, st(t - 1), ev(t - 1)) then 1 else 0
  }

  lemma NextOf(c: Config, i: nat, n: nat)
    requires ValidConfig(c) && i < c.nPorts && n % c.nPorts == i
    ensures And(i + 1, c.nPorts - 1) == (n + 1) % c.nPorts
  {
    NextPortIsMask(c, i);
    hide And;
    NextMod(n, c.nPorts, i);
  }

  lemma NextMod(n: nat, p: nat, i: nat)
    requires p >= 1 && i < p && n % p == i
    ensures (n + 1) % p == if i + 1 == p then 0 else i + 1
  {
    var q := n / p;
    assert n == p * q + i;
    if i + 1 == p {
      OneTimesMore(p, q);
      DivModUnique(n + 1, p, q + 1, 0);
    } else {
      DivModUnique(n + 1, p, q, i + 1);
    }
  }

  lemma OneTimesMore(p: nat, q: nat)
    ensures p * (q + 1) == p * q + p
  {
  }

  lemma RunStep(c: Config, ev: nat -> Event, st: nat -> State, t: nat)
    requires FairRun(c, ev, st)
    ensures ValidConfig(c) && Shape(c, st(t)) && ValidEvent(c, st(t), ev(t)) && st(t + 1) == Step(c, st(t), ev(t))
    ensures st(0) == Init(c)
  {
    assert Moves(c, ev, st, t);
  }

  /** On every run the `n`-th poll of a core, counted from zero, is of port `n` modulo the number of ports. */
  lemma {:induction false} PollsInTurn(c: Config, ev: nat -> Event, st: nat -> State, core: Core, t: nat)
    requires FairRun(c, ev, st)
    ensures Shape(c, st(t))
    ensures Polling(core, st(t)) ==> PortOf(core, st(t)) == PollCount(ev, st, core, t) % c.nPorts
    ensures !Polling(core, st(t)) ==>
              And(PortOf(core, st(t)) + 1, c.nPorts - 1) == PollCount(ev, st, core, t) % c.nPorts
  {
    hide And, Step, Shape, ValidEvent, FairRun, Polling, PortOf, Init;
    RunStep(c, ev, st, t);
    if t == 0 {
      InitPolls(c, core);
    } else {
      PollsInTurn(c, ev, st, core, t - 1);
      RunStep(c, ev, st, t - 1);
      var s, n := st(t - 1), PollCount(ev, st, core, t - 1);
      PortMoves(c, core, s, ev(t - 1));
      PortInRange(c, core, s);
      if Polling(core, s) {
        NextOf(c, PortOf(core, s), n);
      }
    }
  }

  lemma InitPolls(c: Config, core: Core)
    requires ValidConfig(c)
    ensures Polling(core, Init(c)) && PortOf(core, Init(c)) == 0 == 0 % c.nPorts
  {
    DivModUnique(0, c.nPorts, 0, 0);
  }

  lemma PortInRange(c: Config, core: Core, s: State)
    requires Shape(c, s)
    ensures PortOf(core, s) < c.nPorts
  {
  }

  // ----- every port is polled again and again -----

  /** The first move of a core from `t` on finds it where it was. */
  lemma {:induction false} FirstMove(c: Config, ev: nat -> Event, st: nat -> State, core: Core, t: nat, t1: nat)
      returns (u: nat)
    requires FairRun(c, ev, st) && t <= t1 && CoreOf(ev(t1)) == core
    ensures t <= u && CoreOf(ev(u)) == core && Polling(core, st(u)) == Polling(core, st(t))
    decreases t1 - t
  {
    if CoreOf(ev(t)) == core {
      u := t;
    } else {
      assert Moves(c, ev, st, t);
      PortMoves(c, core, st(t), ev(t));
      u := FirstMove(c, ev, st, core, t + 1, t1);
    }
  }

  lemma PollAgain(c: Config, ev: nat -> Event, st: nat -> State, core: Core, t: nat) returns (u: nat)
    requires FairRun(c, ev, st) && Polling(core, st(t))
    ensures t <= u && Polls(core, st(u), ev(u))
  {
    var t1 := NextMove(c, ev, st, core, t);
    u := FirstMove(c, ev, st, core, t, t1);
  }

  /** TX always gets back to polling. */
  lemma {:induction false} TxPollsAgain(c: Config, ev: nat -> Event, st: nat -> State, t: nat, t1: nat)
      returns (u: nat)
    requires FairRun(c, ev, st) && t <= t1 && CoreOf(ev(t1)) == TxCore && Shape(c, st(t))
    ensures t <= u && Polling(TxCore, st(u))
    decreases TxInner(c, st(t)), t1 - t
  {
    assert Moves(c, ev, st, t) && Moves(c, ev, st, t + 1);
    if st(t).tx.TxPoll? {
      u := t;
    } else if ev(t).Tx? {
      TxInside(c, st(t), ev(t).accepted);
      var t2 := NextMove(c, ev, st, TxCore, t + 1);
      u := TxPollsAgain(c, ev, st, t + 1, t2);
    } else {
      TxWaits(c, ev, st, t, 0);
      u := TxPollsAgain(c, ev, st, t + 1, t1);
    }
  }

  lemma TxInside(c: Config, s: State, accepted: nat)
    requires ValidConfig(c) && Shape(c, s) && accepted <= |s.mbufTx[s.txPort]| && !s.tx.TxPoll?
    ensures Shape(c, TxStep(c, s, accepted)) && TxInner(c, TxStep(c, s, accepted)) < TxInner(c, s)
  {
  }

  /** Whether the rings are large enough for the core not to spin. */
  predicate CoreFits(c: Config, core: Core)
    requires c.workerWrite >= 1
  {
    match core
    case RxCore => RingsFit(c)
    case WorkerCore => TxRingFits(c)
    case TxCore => true
  }

  lemma SomePoll(c: Config, ev: nat -> Event, st: nat -> State, core: Core, t: nat) returns (u: nat)
    requires FairRun(c, ev, st) && CoreFits(c, core)
    ensures t <= u && Polls(core, st(u), ev(u))
  {
    assert Moves(c, ev, st, t);
    if Polling(core, st(t)) {
      u := PollAgain(c, ev, st, core, t);
    } else {
      match core {
        case RxCore =>
          u := RxPushEnds(c, ev, st, t);
          assert Moves(c, ev, st, u);
          u := PollAgain(c, ev, st, core, u + 1);
        case WorkerCore =>
          PortsEven(c);
          u := WorkerPushEnds(c, ev, st, t, 0);
          assert Moves(c, ev, st, u);
          u := PollAgain(c, ev, st, core, u + 1);
        case TxCore =>
          var t1 := NextMove(c, ev, st, TxCore, t);
          u := TxPollsAgain(c, ev, st, t, t1);
          u := PollAgain(c, ev, st, core, u);
      }
    }
  }

  /** The first poll from `t` on. */
  lemma {:induction false} FirstPoll(ev: nat -> Event, st: nat -> State, core: Core, t: nat, t1: nat) returns (u: nat)
    requires t <= t1 && Polls(core, st(t1), ev(t1))
    ensures t <= u && Polls(core, st(u), ev(u)) && PollCount(ev, st, core, u) == PollCount(ev, st, core, t)
    decreases t1 - t
  {
    if Polls(core, st(t), ev(t)) {
      u := t;
    } else {
      u := FirstPoll(ev, st, core, t + 1, t1);
    }
  }

  /** Poll number `n` happens. */
  lemma {:induction false} PollNumber(c: Config, ev: nat -> Event, st: nat -> State, core: Core, t: nat, n: nat)
      returns (u: nat)
    requires FairRun(c, ev, st) && CoreFits(c, core) && PollCount(ev, st, core, t) <= n
    ensures t <= u && Polls(core, st(u), ev(u)) && PollCount(ev, st, core, u) == n
    decreases n - PollCount(ev, st, core, t)
  {
    var t1 := SomePoll(c, ev, st, core, t);
    u := FirstPoll(ev, st, core, t, t1);
    if PollCount(ev, st, core, u) < n {
      u := PollNumber(c, ev, st, core, u + 1, n);
    }
  }

  /** Whatever has come in or has not: on every fair run a core polls each port again and again, if the rings fit. */
  lemma PollsForEver(c: Config, ev: nat -> Event, st: nat -> State, core: Core, t: nat, i: nat) returns (u: nat)
    requires FairRun(c, ev, st) && CoreFits(c, core) && i < c.nPorts
    ensures t <= u && CoreOf(ev(u)) == core && Polling(core, st(u)) && PortOf(core, st(u)) == i
  {
    var m := PollCount(ev, st, core, t);
    var n := c.nPorts * m + i;
    assert n >= m by {
      MulMono(m, 1, c.nPorts);
    }
    u := PollNumber(c, ev, st, core, t, n);
    PollsInTurn(c, ev, st, core, u);
    DivModUnique(n, c.nPorts, m, i);
  }

  // ----- what comes in -----

  /** The bursts that the NIC of port `i` has handed over before moment `t`. */
  ghost function Arrivals(ev: nat -> Event, st: nat -> State, t: nat, i: nat): seq<Mbuf> {
    if t == 0 then []
    else Arrivals(ev, st, t - 1, i) +
         if ev(t - 1).Rx? && Polling(RxCore, st(t - 1)) && st(t - 1).rxPort == i then ev(t - 1).burst else []
  }

  /** What counts as received on a port is what its NIC has handed over. */
  lemma {:induction false} ReceivedIs(c: Config, ev: nat -> Event, st: nat -> State, t: nat, i: nat)
    requires FairRun(c, ev, st) && i < c.nPorts
    ensures Shape(c, st(t)) && st(t).received[i] == Arrivals(ev, st, t, i)
  {
    RunStep(c, ev, st, t);
    hide FairRun, Step, ValidEvent, ValidConfig;
    if t > 0 {
      ReceivedIs(c, ev, st, t - 1, i);
      RunStep(c, ev, st, t - 1);
      ReceivedNext(c, st(t - 1), ev(t - 1), i);
    }
  }

  lemma ReceivedNext(c: Config, s: State, e: Event, i: nat)
    requires ValidConfig(c) && Shape(c, s) && ValidEvent(c, s, e) && i < c.nPorts
    ensures Shape(c, Step(c, s, e))
    ensures Step(c, s, e).received[i] ==
            s.received[i] + if e.Rx? && Polling(RxCore, s) && s.rxPort == i then e.burst else []
  {
    ReceivedStays(c, s, e);
    assert s.received[i] + [] == s.received[i];
  }

  // ----- what goes out -----

  /** The packets of which the NIC says that it has taken them. */
  function SentOnly(fates: seq<Fate>): seq<Mbuf> {
    if fates == [] then []
    else SentOnly(fates[..|fates| - 1]) +
         if fates[|fates| - 1].Sent? then [fates[|fates| - 1].m] else []
  }

  lemma SentOne(fates: seq<Fate>, f: Fate)
    ensures SentOnly(fates + [f]) == SentOnly(fates) + if f.Sent? then [f.m] else []
  {
    assert (fates + [f])[..|fates|] == fates;
  }

  lemma {:induction false} SentMore(fates: seq<Fate>, ms: seq<Mbuf>)
    ensures SentOnly(fates + AllSent(ms)) == SentOnly(fates) + ms
  {
    if ms == [] {
      assert AllSent(ms) == [] && fates + [] == fates && SentOnly(fates) + [] == SentOnly(fates);
    } else {
      var n := |ms| - 1;
      SentMore(fates, ms[..n]);
      assert AllSent(ms) == AllSent(ms[..n]) + [Sent(ms[n])];
      assert fates + AllSent(ms) == (fates + AllSent(ms[..n])) + [Sent(ms[n])];
      SentOne(fates + AllSent(ms[..n]), Sent(ms[n]));
      assert ms == ms[..n] + [ms[n]];
      assert SentOnly(fates) + ms[..n] + [ms[n]] == SentOnly(fates) + ms;
    }
  }

  /** The front of each buffer that the NIC of port `j` has taken before moment `t`. */
  ghost function Taken(ev: nat -> Event, st: nat -> State, t: nat, j: nat): seq<Mbuf> {
    if t == 0 then []
    else Taken(ev, st, t - 1, j) + TakenAt(st(t - 1), ev(t - 1), j)
  }

  ghost function TakenAt(s: State, e: Event, j: nat): seq<Mbuf> {
    if e.Tx? && s.tx.TxSend? && s.txPort == j < |s.mbufTx| && e.accepted <= |s.mbufTx[j]| then s.mbufTx[j][..e.accepted]
    else []
  }

  lemma SentNext(c: Config, s: State, e: Event, j: nat)
    requires ValidConfig(c) && Shape(c, s) && ValidEvent(c, s, e) && j < c.nPorts
    ensures Shape(c, Step(c, s, e))
    ensures SentOnly(Step(c, s, e).done[j]) == SentOnly(s.done[j]) + TakenAt(s, e, j)
  {
    ReceivedStays(c, s, e);
    var s' := Step(c, s, e);
    assert SentOnly(s.done[j]) + [] == SentOnly(s.done[j]);
    if e.Tx? && s.txPort == j && s.tx.TxSend? {
      SentMore(s.done[j], s.mbufTx[j][..e.accepted]);
    } else if e.Tx? && s.txPort == j && s.tx.TxFree? && s.tx.k < |s.mbufTx[j]| {
      SentOne(s.done[j], Freed(s.mbufTx[j][s.tx.k]));
    } else {
      assert s'.done[j] == s.done[j];
    }
  }

  /** What counts as sent is what the NIC has taken, in order; everything else that has left was freed. */
  lemma {:induction false} SentIs(c: Config, ev: nat -> Event, st: nat -> State, t: nat, j: nat)
    requires FairRun(c, ev, st) && j < c.nPorts
    ensures Shape(c, st(t)) && SentOnly(st(t).done[j]) == Taken(ev, st, t, j)
  {
    RunStep(c, ev, st, t);
    hide FairRun, Step, ValidEvent, TakenAt, ValidConfig, SentOnly, Init;
    if t == 0 {
      NoneSent(c, j);
    } else {
      SentIs(c, ev, st, t - 1, j);
      RunStep(c, ev, st, t - 1);
      SentNext(c, st(t - 1), ev(t - 1), j);
    }
  }

  lemma NoneSent(c: Config, j: nat)
    requires j < c.nPorts
    ensures SentOnly(Init(c).done[j]) == []
  {
  }

  /** A NIC that takes all it is offered. */
  ghost predicate TakesAll(ev: nat -> Event, st: nat -> State, j: nat) {
    forall t: nat :: TakesAllAt(st(t), ev(t), j)
  }

  ghost predicate TakesAllAt(s: State, e: Event, j: nat) {
    e.Tx? && s.tx.TxSend? && s.txPort == j < |s.mbufTx| ==> e.accepted == |s.mbufTx[j]|
  }

  /** With such a NIC nothing is freed, and while a sent buffer is being gone through there is nothing left in it. */
  lemma {:induction false} NothingFreed(c: Config, ev: nat -> Event, st: nat -> State, t: nat, j: nat)
    requires FairRun(c, ev, st) && j < c.nPorts && TakesAll(ev, st, j)
    ensures Shape(c, st(t)) && forall f | f in st(t).done[j] :: f.Sent?
    ensures st(t).tx.TxFree? && st(t).txPort == j ==> st(t).tx.k == |st(t).mbufTx[j]|
  {
    RunStep(c, ev, st, t);
    hide FairRun, Step, ValidEvent, ValidConfig, TakesAllAt;
    if t > 0 {
      NothingFreed(c, ev, st, t - 1, j);
      RunStep(c, ev, st, t - 1);
      assert TakesAllAt(st(t - 1), ev(t - 1), j);
      NoneFreedNext(c, st(t - 1), ev(t - 1), j);
    }
  }

  lemma NoneFreedNext(c: Config, s: State, e: Event, j: nat)
    requires ValidConfig(c) && Shape(c, s) && ValidEvent(c, s, e) && j < c.nPorts && TakesAllAt(s, e, j)
    requires forall f | f in s.done[j] :: f.Sent?
    requires s.tx.TxFree? && s.txPort == j ==> s.tx.k == |s.mbufTx[j]|
    ensures Shape(c, Step(c, s, e)) && forall f | f in Step(c, s, e).done[j] :: f.Sent?
    ensures var s' := Step(c, s, e); s'.tx.TxFree? && s'.txPort == j ==> s'.tx.k == |s'.mbufTx[j]|
  {
    ReceivedStays(c, s, e);
  }

  /** From wire to wire: with rings that fit and a NIC that takes all it is offered, what comes in goes out. */
  lemma WireToWire(c: Config, ev: nat -> Event, st: nat -> State, t: nat, i: nat, m: nat) returns (u: nat)
    requires FairRun(c, ev, st) && RingsFit(c) && i < c.nPorts && TakesAll(ev, st, Peer(i))
    requires |Arrivals(ev, st, t, i)| >= m + Residue(c)
    ensures t <= u && Arrivals(ev, st, t, i)[..m] <= Taken(ev, st, u, Peer(i))
  {
    ReceivedIs(c, ev, st, t, i);
    u := Delivered(c, ev, st, t, i, m);
    NothingFreed(c, ev, st, u, Peer(i));
    SentIs(c, ev, st, u, Peer(i));
    AllAreSent(st(u).done[Peer(i)]);
  }

  lemma {:induction false} AllAreSent(fates: seq<Fate>)
    requires forall f | f in fates :: f.Sent?
    ensures SentOnly(fates) == Mbufs(fates)
  {
    if fates != [] {
      var n := |fates| - 1;
      AllAreSent(fates[..n]);
      assert Mbufs(fates) == Mbufs(fates[..n]) + [fates[n].m];
      assert fates[n] in fates;
    }
  }
}
