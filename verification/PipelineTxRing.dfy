/**
 * The exact size of the TX rings that rules out a deadlock between the worker and the TX core.
 * A TX ring only ever holds multiples of the greatest common divisor of the two burst sizes, and
 * running the two cores in turn leads through all of those multiples.
 */
module PipelineTxRing {
  import opened Bits
  import opened Divisors
  import opened Pipeline
  import opened PipelineLiveness
  import opened PipelineDelivery

  /** The worker spins on a TX ring, and TX finds every TX ring too empty. */
  ghost predicate WorkerStuck(c: Config, s: State) {
    && ValidConfig(c) && Shape(c, s)
    && s.worker.WorkerPush? && !WorkerRoom(c, s) && s.tx.TxPoll?
    && (forall p: nat | p < c.nPorts :: |s.ringsTx[p]| < c.txRead)
  }

  lemma WorkerStuckForEver(c: Config, s: State, e: Event)
    requires WorkerStuck(c, s) && ValidEvent(c, s, e)
    ensures WorkerStuck(c, Step(c, s, e)) && Step(c, s, e).ringsTx == s.ringsTx && Step(c, s, e).done == s.done
  {
  }

  /** RX can still receive on port 0. */
  ghost predicate RxFree(s: State) {
    s.rx == RxPoll && s.rxPort == 0 && |s.ringsRx| > 0 && s.ringsRx[0] == [] && Numbered(s)
  }

  // ----- climbing from level to level -----

  /** Nothing happens but `q` packets waiting in the TX ring of port 1, and every core is about to poll port 0. */
  ghost predicate Level(c: Config, s: State, q: nat) {
    && ValidConfig(c) && Shape(c, s) && Reachable(c, s)
    && s.rx == RxPoll && s.worker == WorkerPoll && s.tx == TxPoll
    && s.rxPort == 0 && s.workerPort == 0 && s.txPort == 0 && Numbered(s)
    && (forall p: nat | p < c.nPorts :: s.ringsRx[p] == [])
    && (forall p: nat | p < c.nPorts :: |s.ringsTx[p]| == if p == 1 then q else 0)
  }

  lemma {:induction false} PollWorker(c: Config, s: State)
    requires ValidConfig(c) && Reachable(c, s) && Shape(c, s) && s.worker == WorkerPoll
    requires forall p: nat | p < c.nPorts :: |s.ringsRx[p]| < c.workerRead
    ensures Reachable(c, s.(workerPort := 0))
    decreases if s.workerPort == 0 then 0 else c.nPorts - s.workerPort
  {
    if s.workerPort > 0 {
      ReachStep(c, s, Worker);
      PollWorker(c, Step(c, s, Worker));
    } else {
      assert s.(workerPort := 0) == s;
    }
  }

  lemma {:induction false} PollTx(c: Config, s: State)
    requires ValidConfig(c) && Reachable(c, s) && Shape(c, s) && s.tx == TxPoll
    requires forall p: nat | 0 < s.txPort <= p < c.nPorts :: |s.ringsTx[p]| < c.txRead
    ensures Reachable(c, s.(txPort := 0))
    decreases if s.txPort == 0 then 0 else c.nPorts - s.txPort
  {
    hide Reachable;
    if s.txPort > 0 {
      TxPasses(c, s);
      PollTx(c, s.(txPort := NextPort(c, s.txPort)));
    } else {
      assert s.(txPort := 0) == s;
    }
  }

  /** TX finds too little and goes on to the next port. */
  lemma TxPasses(c: Config, s: State)
    requires ValidConfig(c) && Reachable(c, s) && Shape(c, s) && s.tx == TxPoll && |s.ringsTx[s.txPort]| < c.txRead
    ensures Reachable(c, s.(txPort := NextPort(c, s.txPort)))
  {
    ReachStep(c, s, Tx(0));
  }

  /** As at a level, but with a burst in the hands of the worker. */
  ghost predicate Loaded(c: Config, s: State, q: nat) {
    && ValidConfig(c) && Shape(c, s) && Reachable(c, s)
    && s.rx == RxPoll && s.worker.WorkerPush? && s.tx == TxPoll && |s.worker.held| == c.workerRead
    && s.rxPort == 0 && s.workerPort == 0 && s.txPort == 0 && Numbered(s)
    && (forall p: nat | p < c.nPorts :: s.ringsRx[p] == [])
    && (forall p: nat | p < c.nPorts :: |s.ringsTx[p]| == if p == 1 then q else 0)
  }

  /** A worker burst goes from the wire into the hands of the worker. */
  lemma WorkerTakesBurst(c: Config, s: State, q: nat) returns (s': State)
    requires Level(c, s, q) && c.workerRead <= c.ringRxSize - 1
    ensures Loaded(c, s', q)
  {
    Receive(c, s, c.workerRead);
    var a := Arrived(c, s, c.workerRead);
    NumberedNext(s, a, c.workerRead);
    hide Numbered;
    ReachStep(c, a, Worker);
    s' := Step(c, a, Worker);
    SameArrivals(a, s');
  }

  lemma SameArrivals(s: State, s': State)
    requires s.received == s'.received
    ensures Numbered(s) == Numbered(s')
  {
  }

  /** ... and, if there is room, into the TX ring of port 1. */
  lemma WorkerPushesBurst(c: Config, s: State, q: nat) returns (s': State)
    requires Loaded(c, s, q) && q + c.workerRead <= c.ringTxSize - 1
    ensures Level(c, s', q + c.workerRead)
  {
    PortsEven(c);
    ReachStep(c, s, Worker);
    var a := Step(c, s, Worker);
    PollWorker(c, a);
    s' := a.(workerPort := 0);
    SameArrivals(s, s');
  }

  /** If there is no room, and no burst for TX either, that is the end. */
  lemma Standstill(c: Config, s: State, q: nat)
    requires Loaded(c, s, q) && q + c.workerRead > c.ringTxSize - 1 && q < c.txRead
    ensures Reachable(c, s) && WorkerStuck(c, s) && RxFree(s)
  {
    hide Reachable;
    PortsEven(c);
    assert |s.ringsTx[Peer(0)]| == q;
  }

  /**
   * Where TX is after it has dealt with a port: it polls the next one, and has left the rings and the other
   * cores alone.
   */
  ghost predicate TxMovedOn(c: Config, s: State, s': State)
    requires ValidConfig(c) && Shape(c, s)
  {
    && Shape(c, s') && Reachable(c, s') && s'.tx == TxPoll && s'.txPort == NextPort(c, s.txPort)
    && (s'.rx, s'.rxPort, s'.worker, s'.workerPort, s'.ringsRx, s'.ringsTx, s'.received) ==
       (s.rx, s.rxPort, s.worker, s.workerPort, s.ringsRx, s.ringsTx, s.received)
  }

  /** The NIC takes the whole TX buffer. */
  lemma TxSendsAll(c: Config, s: State) returns (s': State)
    requires ValidConfig(c) && Reachable(c, s) && Shape(c, s) && s.tx == TxSend
    ensures TxMovedOn(c, s, s')
  {
    var all := |s.mbufTx[s.txPort]|;
    ReachStep(c, s, Tx(all));
    var a := Step(c, s, Tx(all));
    ReachStep(c, a, Tx(0));
    s' := Step(c, a, Tx(0));
  }

  /** TX takes one burst from the port it polls. */
  lemma TxTakesOne(c: Config, s: State) returns (s': State)
    requires ValidConfig(c) && Reachable(c, s) && Shape(c, s) && s.tx == TxPoll && |s.ringsTx[s.txPort]| >= c.txRead
    ensures TxMovedOn(c, s.(ringsTx := s.ringsTx[s.txPort := s.ringsTx[s.txPort][c.txRead..]]), s')
  {
    ReachStep(c, s, Tx(0));
    s' := Step(c, s, Tx(0));
    if s'.tx.TxSend? {
      s' := TxSendsAll(c, s');
    }
  }

  /** TX takes one burst from port 1. */
  lemma TxTakesBurst(c: Config, s: State, q: nat) returns (s': State)
    requires Level(c, s, q) && q >= c.txRead
    ensures Level(c, s', q - c.txRead)
  {
    hide Reachable;
    TxPasses(c, s);
    var a := s.(txPort := NextPort(c, 0));
    var b := TxTakesOne(c, a);
    PollTx(c, b);
    s' := b.(txPort := 0);
    SameArrivals(s, s');
  }

  /** TX takes all it can. */
  lemma {:induction false} TxEmpties(c: Config, s: State, q: nat) returns (s': State)
    requires Level(c, s, q)
    ensures Level(c, s', q % c.txRead)
    decreases q
  {
    if q < c.txRead {
      s' := s;
      DivModUnique(q, c.txRead, 0, q);
    } else {
      var a := TxTakesBurst(c, s, q);
      hide Level;
      s' := TxEmpties(c, a, q - c.txRead);
      Reduce(q, c.txRead);
    }
  }

  lemma Reduce(q: nat, r: nat)
    requires r > 0 && q >= r
    ensures q % r == (q - r) % r
  {
    var t, u := (q - r) / r, (q - r) % r;
    assert q - r == r * t + u;
    DivModUnique(q, r, t + 1, u);
  }

  /** One round of the worker and TX: to the next level, or to a standstill. */
  lemma NextLevel(c: Config, s: State, q: nat) returns (s': State, stuck: bool)
    requires Level(c, s, q) && q < c.txRead && c.workerRead <= c.ringRxSize - 1
    ensures stuck == (q + c.workerRead > c.ringTxSize - 1)
    ensures stuck ==> Reachable(c, s') && WorkerStuck(c, s') && RxFree(s')
    ensures !stuck ==> Level(c, s', (q + c.workerRead) % c.txRead)
  {
    hide Reachable, WorkerStuck, Loaded;
    var a := WorkerTakesBurst(c, s, q);
    stuck := q + c.workerRead > c.ringTxSize - 1;
    if stuck {
      s' := a;
      Standstill(c, a, q);
    } else {
      var b := WorkerPushesBurst(c, a, q);
      s' := TxEmpties(c, b, q + c.workerRead);
    }
  }

  lemma NextMultiple(n: nat, w: nat, r: nat)
    requires n >= 1 && r > 0
    ensures ((n - 1) * w % r + w) % r == n * w % r
  {
    var t, u := (n - 1) * w / r, (n - 1) * w % r;
    assert (n - 1) * w == r * t + u;
    var t', u' := (u + w) / r, (u + w) % r;
    assert u + w == r * t' + u';
    assert n * w == (n - 1) * w + w;
    assert n * w == r * (t + t') + u';
    DivModUnique(n * w, r, t + t', u');
  }

  lemma Start(c: Config)
    requires ValidConfig(c)
    ensures Level(c, Init(c), 0)
  {
    InitInv(c);
    assert Reaches(c, [], Init(c));
    assert Numbered(Init(c));
  }

  /** After `n` rounds, level `n * workerRead % txRead`, unless there was a standstill before. */
  lemma {:induction false} Climb(c: Config, n: nat) returns (s: State, stuck: bool)
    requires ValidConfig(c) && c.workerRead <= c.ringRxSize - 1
    ensures stuck ==> Reachable(c, s) && WorkerStuck(c, s) && RxFree(s)
    ensures !stuck ==> Level(c, s, n * c.workerRead % c.txRead)
    decreases n
  {
    hide Level, WorkerStuck, Reachable;
    if n == 0 {
      s, stuck := Init(c), false;
      Start(c);
      DivModUnique(0, c.txRead, 0, 0);
    } else {
      s, stuck := Climb(c, n - 1);
      if !stuck {
        var q := (n - 1) * c.workerRead % c.txRead;
        s, stuck := NextLevel(c, s, q);
        NextMultiple(n, c.workerRead, c.txRead);
      }
    }
  }

  /**
   * Provided a worker burst fits an RX ring at all, the worker can come to spin while TX waits for a burst
   * exactly when the two bursts at a TX ring, less their greatest common divisor, reach the ring size.
   */
  lemma WorkerStuckIff(c: Config)
    requires ValidConfig(c) && c.workerRead <= c.ringRxSize - 1
    ensures (exists s: State :: Reachable(c, s) && WorkerStuck(c, s)) <==> !TxRingFits(c)
    ensures !TxRingFits(c) ==> exists s: State :: Reachable(c, s) && WorkerStuck(c, s) && Apart(s)
  {
    forall s: State | Reachable(c, s) && WorkerStuck(c, s) ensures !TxRingFits(c) {
      StuckLevel(c, s);
    }
    if !TxRingFits(c) {
      var s := ReachStuck(c);
      NumberedApart(s);
      assert Reachable(c, s) && WorkerStuck(c, s) && Apart(s);
    }
  }

  /** The standstill at the level one divisor short of a TX burst, or an earlier one; RX is still free. */
  lemma ReachStuck(c: Config) returns (s: State)
    requires ValidConfig(c) && c.workerRead <= c.ringRxSize - 1 && !TxRingFits(c)
    ensures Reachable(c, s) && WorkerStuck(c, s) && RxFree(s)
  {
    var w, r := c.workerWrite, c.txRead;
    var n := OneShort(w, r);
    var stuck;
    s, stuck := Climb(c, n);
    if !stuck {
      s, stuck := NextLevel(c, s, r - Gcd(w, r));
    }
  }

  lemma StuckLevel(c: Config, s: State)
    requires WorkerStuck(c, s) && Reachable(c, s)
    ensures !TxRingFits(c)
  {
    var events :| Reaches(c, events, s);
    EveryRunConserves(c, events, s);
    if TxRingFits(c) {
      FullTxRingHoldsBurst(c, s);
    }
  }
}
