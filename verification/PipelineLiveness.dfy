/**
 * Progress of the packet pipeline on every fair infinite run: no core spins for ever, no ring
 * that holds a burst is passed over, and every packet followed by enough others leaves.
 */
module PipelineLiveness {
  import opened Divisors
  import opened Pipeline

  datatype Core = RxCore | WorkerCore | TxCore

  function CoreOf(e: Event): Core {
    match e
    case Rx(_) => RxCore
    case Worker => WorkerCore
    case Tx(_) => TxCore
  }

  ghost predicate Moves(c: Config, ev: nat -> Event, st: nat -> State, t: nat)
    requires ValidConfig(c)
  {
    Shape(c, st(t)) && ValidEvent(c, st(t), ev(t)) && st(t + 1) == Step(c, st(t), ev(t))
  }

  ghost predicate MovesAfter(ev: nat -> Event, core: Core, t: nat) {
    exists u: nat :: t <= u && CoreOf(ev(u)) == core
  }

  /** An infinite interleaving from the start in which every core moves again and again. */
  ghost predicate FairRun(c: Config, ev: nat -> Event, st: nat -> State) {
    && ValidConfig(c)
    && st(0) == Init(c)
    && (forall t: nat :: Moves(c, ev, st, t))
    && (forall t: nat, core: Core :: MovesAfter(ev, core, t))
  }

  lemma {:induction false} RunInv(c: Config, ev: nat -> Event, st: nat -> State, t: nat)
    requires FairRun(c, ev, st)
    ensures Inv(c, st(t))
    ensures Moves(c, ev, st, t)
  {
    hide Inv, Init, Step;
    assert Moves(c, ev, st, t);
    if t == 0 {
      InitInv(c);
    } else {
      RunInv(c, ev, st, t - 1);
      StepKeeps(c, st(t - 1), ev(t - 1));
    }
  }

  lemma NextMove(c: Config, ev: nat -> Event, st: nat -> State, core: Core, t: nat) returns (u: nat)
    requires FairRun(c, ev, st)
    ensures t <= u && CoreOf(ev(u)) == core
  {
    assert MovesAfter(ev, core, t);
    u :| t <= u && CoreOf(ev(u)) == core;
  }

  // ----- what a step of one core leaves alone -----

  lemma RxFrame(c: Config, s: State, burst: seq<Mbuf>, p: nat)
    requires ValidConfig(c) && Shape(c, s) && p < c.nPorts
    ensures var s' := RxStep(c, s, burst);
            && (s'.workerPort, s'.worker, s'.txPort, s'.tx) == (s.workerPort, s.worker, s.txPort, s.tx)
            && (s'.ringsTx, s'.mbufTx, s'.done) == (s.ringsTx, s.mbufTx, s.done)
            && |s'.ringsRx| == |s'.received| == c.nPorts
            && |s.ringsRx[p]| <= |s'.ringsRx[p]| && |s.received[p]| <= |s'.received[p]|
  {
  }

  lemma WorkerFrame(c: Config, s: State, p: nat)
    requires ValidConfig(c) && Shape(c, s) && p < c.nPorts
    ensures var s' := WorkerStep(c, s);
            && (s'.rxPort, s'.rx, s'.txPort, s'.tx) == (s.rxPort, s.rx, s.txPort, s.tx)
            && (s'.received, s'.mbufTx, s'.done) == (s.received, s.mbufTx, s.done)
            && |s'.ringsRx| == |s'.ringsTx| == c.nPorts
            && |s.ringsTx[p]| <= |s'.ringsTx[p]| && |s'.ringsRx[p]| <= |s.ringsRx[p]|
  {
    PortsEven(c);
  }

  lemma TxFrame(c: Config, s: State, accepted: nat, p: nat)
    requires ValidConfig(c) && Shape(c, s) && accepted <= |s.mbufTx[s.txPort]| && p < c.nPorts
    ensures var s' := TxStep(c, s, accepted);
            && (s'.rxPort, s'.rx, s'.workerPort, s'.worker) == (s.rxPort, s.rx, s.workerPort, s.worker)
            && (s'.received, s'.ringsRx) == (s.received, s.ringsRx)
            && |s'.ringsTx| == |s'.done| == c.nPorts
            && |s'.ringsTx[p]| <= |s.ringsTx[p]| && |s.done[p]| <= |s'.done[p]|
  {
  }

  // ----- round robin -----

  function Dist(c: Config, from: nat, to: nat): nat
    requires from < c.nPorts && to < c.nPorts
  {
    if from <= to then to - from else to + c.nPorts - from
  }

  lemma DistNext(c: Config, from: nat, to: nat)
    requires ValidConfig(c) && from < c.nPorts && to < c.nPorts && from != to
    ensures Dist(c, NextPort(c, from), to) == Dist(c, from, to) - 1
  {
  }

  // ----- the TX core serves every TX ring that holds a burst -----

  ghost predicate TxTakes(c: Config, s: State, e: Event, j: nat)
    requires Shape(c, s) && j < c.nPorts
  {
    e.Tx? && s.tx.TxPoll? && s.txPort == j && |s.ringsTx[j]| >= c.txRead
  }

  /** How far the TX core is from its next poll of port `j`. */
  ghost function TxDist(c: Config, s: State, j: nat): nat
    requires ValidConfig(c) && Shape(c, s) && j < c.nPorts
  {
    if s.tx.TxPoll? then Dist(c, s.txPort, j) else Dist(c, NextPort(c, s.txPort), j)
  }

  ghost function TxInner(c: Config, s: State): nat
    requires Shape(c, s)
  {
    match s.tx
    case TxPoll => 0
    case TxSend => |s.mbufTx[s.txPort]| + 2
    case TxFree(k) => |s.mbufTx[s.txPort]| - k + 1
  }

  lemma TxProgress(c: Config, s: State, e: Event, j: nat)
    requires ValidConfig(c) && Shape(c, s) && ValidEvent(c, s, e) && j < c.nPorts
    requires e.Tx? && |s.ringsTx[j]| >= c.txRead && !TxTakes(c, s, e, j)
    ensures var s' := Step(c, s, e);
            && Shape(c, s') && |s'.ringsTx[j]| == |s.ringsTx[j]|
            && (TxDist(c, s', j) < TxDist(c, s, j) ||
                (TxDist(c, s', j) == TxDist(c, s, j) && TxInner(c, s') < TxInner(c, s)))
  {
    if s.tx.TxPoll? {
      DistNext(c, s.txPort, j);
    }
  }

  lemma TxServes(c: Config, ev: nat -> Event, st: nat -> State, t: nat, j: nat) returns (u: nat)
    requires FairRun(c, ev, st) && j < c.nPorts
    requires Shape(c, st(t)) && |st(t).ringsTx[j]| >= c.txRead
    ensures t <= u && Shape(c, st(u)) && TxTakes(c, st(u), ev(u), j)
  {
    var t1 := NextMove(c, ev, st, TxCore, t);
    u := TxServesBy(c, ev, st, t, t1, j);
  }

  lemma {:induction false} TxServesBy(c: Config, ev: nat -> Event, st: nat -> State, t: nat, t1: nat, j: nat)
      returns (u: nat)
    requires FairRun(c, ev, st) && j < c.nPorts && t <= t1 && CoreOf(ev(t1)) == TxCore
    requires Shape(c, st(t)) && |st(t).ringsTx[j]| >= c.txRead
    ensures t <= u && Shape(c, st(u)) && TxTakes(c, st(u), ev(u), j)
    decreases TxDist(c, st(t), j), TxInner(c, st(t)), t1 - t
  {
    if TxTakes(c, st(t), ev(t), j) {
      u := t;
    } else if ev(t).Tx? {
      assert Moves(c, ev, st, t);
      TxProgress(c, st(t), ev(t), j);
      var t2 := NextMove(c, ev, st, TxCore, t + 1);
      u := TxServesBy(c, ev, st, t + 1, t2, j);
    } else {
      TxWaits(c, ev, st, t, j);
      u := TxServesBy(c, ev, st, t + 1, t1, j);
    }
  }

  lemma TxWaits(c: Config, ev: nat -> Event, st: nat -> State, t: nat, j: nat)
    requires FairRun(c, ev, st) && j < c.nPorts && !ev(t).Tx? && Shape(c, st(t))
    ensures Shape(c, st(t + 1)) && |st(t).ringsTx[j]| <= |st(t + 1).ringsTx[j]|
    ensures st(t + 1).tx == st(t).tx && st(t + 1).txPort == st(t).txPort && st(t + 1).mbufTx == st(t).mbufTx
  {
    assert Moves(c, ev, st, t) && Moves(c, ev, st, t + 1);
    match ev(t)
    case Rx(burst) => RxFrame(c, st(t), burst, j);
    case Worker => WorkerFrame(c, st(t), j);
  }

  // ----- the worker never spins for ever -----

  ghost predicate WorkerRoom(c: Config, s: State)
    requires ValidConfig(c) && Shape(c, s) && s.worker.WorkerPush?
  {
    PortsEven(c);
    |s.ringsTx[Peer(s.workerPort)]| + |s.worker.held| <= c.ringTxSize - 1
  }

  ghost predicate WorkerPushes(c: Config, s: State, e: Event)
    requires ValidConfig(c) && Shape(c, s)
  {
    e.Worker? && s.worker.WorkerPush? && WorkerRoom(c, s)
  }

  /** A full TX ring holds a whole TX burst, so the TX core can make room. */
  lemma FullTxRingHoldsBurst(c: Config, s: State)
    requires ValidConfig(c) && TxRingFits(c) && Inv(c, s)
    requires s.worker.WorkerPush? && !WorkerRoom(c, s)
    ensures Peer(s.workerPort) < c.nPorts && |s.ringsTx[Peer(s.workerPort)]| >= c.txRead
  {
    PortsEven(c);
    var g, n := Gcd(c.workerWrite, c.txRead), |s.ringsTx[Peer(s.workerPort)]|;
    GcdDivides(c.workerWrite, c.txRead);
    if n < c.txRead {
      MultipleBelow(g, n, c.txRead);
    }
  }

  /** A full RX ring holds a whole worker burst, so the worker can make room. */
  lemma FullRxRingHoldsBurst(c: Config, s: State)
    requires ValidConfig(c) && RxRingFits(c) && Inv(c, s)
    requires s.rx.RxPush? && !RxRoom(c, s)
    ensures |s.ringsRx[s.rxPort]| >= c.workerRead
  {
  }

  /** The first move of the worker from `t` on finds its state unchanged, RX rings grown and its target ring shrunk. */
  lemma {:induction false} FirstWorkerMove(c: Config, ev: nat -> Event, st: nat -> State, t: nat, t1: nat, i: nat)
      returns (u: nat)
    requires FairRun(c, ev, st) && t <= t1 && CoreOf(ev(t1)) == WorkerCore && i < c.nPorts && Shape(c, st(t))
    ensures t <= u && Shape(c, st(u)) && ev(u).Worker?
    ensures st(u).workerPort == st(t).workerPort && st(u).worker == st(t).worker
    ensures PeerLoad(c, st(u)) <= PeerLoad(c, st(t)) && |st(t).ringsRx[i]| <= |st(u).ringsRx[i]|
    decreases t1 - t
  {
    if ev(t).Worker? {
      u := t;
    } else {
      OthersMove(c, ev, st, t, i);
      u := FirstWorkerMove(c, ev, st, t + 1, t1, i);
    }
  }

  lemma OthersMove(c: Config, ev: nat -> Event, st: nat -> State, t: nat, i: nat)
    requires FairRun(c, ev, st) && i < c.nPorts && !ev(t).Worker? && Shape(c, st(t))
    ensures Shape(c, st(t + 1))
    ensures st(t + 1).workerPort == st(t).workerPort && st(t + 1).worker == st(t).worker
    ensures PeerLoad(c, st(t + 1)) <= PeerLoad(c, st(t)) && |st(t).ringsRx[i]| <= |st(t + 1).ringsRx[i]|
  {
    RunInv(c, ev, st, t);
    RunInv(c, ev, st, t + 1);
    PortsEven(c);
    match ev(t)
    case Rx(burst) => RxFrame(c, st(t), burst, i);
    case Tx(accepted) => TxFrame(c, st(t), accepted, Peer(st(t).workerPort));
  }

  ghost function PeerLoad(c: Config, s: State): nat
    requires ValidConfig(c) && Shape(c, s)
  {
    PortsEven(c);
    |s.ringsTx[Peer(s.workerPort)]|
  }

  /** Until there is room, a spinning worker stays where it is and its target ring does not grow. */
  lemma {:induction false} WorkerSpins(c: Config, ev: nat -> Event, st: nat -> State, t: nat, t1: nat, i: nat)
      returns (u: nat)
    requires FairRun(c, ev, st) && t <= t1 && i < c.nPorts && Shape(c, st(t)) && st(t).worker.WorkerPush?
    ensures t <= u <= t1 && Shape(c, st(u)) && (u == t1 || WorkerPushes(c, st(u), ev(u)))
    ensures st(u).workerPort == st(t).workerPort && st(u).worker == st(t).worker
    ensures PeerLoad(c, st(u)) <= PeerLoad(c, st(t)) && |st(t).ringsRx[i]| <= |st(u).ringsRx[i]|
    decreases t1 - t
  {
    if t == t1 || WorkerPushes(c, st(t), ev(t)) {
      u := t;
    } else {
      assert Moves(c, ev, st, t);
      if ev(t).Worker? {
        assert st(t + 1) == st(t);
      } else {
        OthersMove(c, ev, st, t, i);
      }
      u := WorkerSpins(c, ev, st, t + 1, t1, i);
    }
  }

  /** Helped by TX while the ring is full and by itself once there is room, a spinning worker gets through. */
  lemma {:induction false} WorkerPushEnds(c: Config, ev: nat -> Event, st: nat -> State, t: nat, i: nat)
      returns (u: nat)
    requires FairRun(c, ev, st) && TxRingFits(c) && i < c.nPorts && Shape(c, st(t)) && st(t).worker.WorkerPush?
    ensures t <= u && Shape(c, st(u)) && WorkerPushes(c, st(u), ev(u))
    ensures st(u).workerPort == st(t).workerPort && st(u).worker == st(t).worker
    ensures |st(t).ringsRx[i]| <= |st(u).ringsRx[i]|
    decreases PeerLoad(c, st(t))
  {
    RunInv(c, ev, st, t);
    PortsEven(c);
    var j := Peer(st(t).workerPort);
    if WorkerRoom(c, st(t)) {
      var t1 := NextMove(c, ev, st, WorkerCore, t);
      u := FirstWorkerMove(c, ev, st, t, t1, i);
    } else {
      FullTxRingHoldsBurst(c, st(t));
      var t1 := TxServes(c, ev, st, t, j);
      u := WorkerSpins(c, ev, st, t, t1, i);
      if !WorkerPushes(c, st(u), ev(u)) {
        OthersMove(c, ev, st, t1, i);
        assert Moves(c, ev, st, t1);
        assert |st(t1 + 1).ringsTx[j]| < |st(t1).ringsTx[j]|;
        u := WorkerPushEnds(c, ev, st, t1 + 1, i);
      }
    }
  }

  // ----- the worker serves every RX ring that holds a burst -----

  ghost predicate WorkerTakes(c: Config, s: State, e: Event, i: nat)
    requires Shape(c, s) && i < c.nPorts
  {
    e.Worker? && s.worker.WorkerPoll? && s.workerPort == i && |s.ringsRx[i]| >= c.workerRead
  }

  ghost function WorkerDist(c: Config, s: State, i: nat): nat
    requires ValidConfig(c) && Shape(c, s) && i < c.nPorts
  {
    if s.worker.WorkerPoll? then 2 * Dist(c, s.workerPort, i) else 2 * Dist(c, NextPort(c, s.workerPort), i) + 1
  }

  /** A worker step that does not take from `i` brings the worker closer to polling `i`. */
  lemma WorkerPollsOn(c: Config, s: State, i: nat)
    requires ValidConfig(c) && Shape(c, s) && i < c.nPorts && |s.ringsRx[i]| >= c.workerRead
    requires !WorkerTakes(c, s, Worker, i) && (s.worker.WorkerPush? ==> WorkerRoom(c, s))
    ensures var s' := WorkerStep(c, s);
            Shape(c, s') && |s'.ringsRx[i]| >= c.workerRead && WorkerDist(c, s', i) < WorkerDist(c, s, i)
  {
    PortsEven(c);
    if s.worker.WorkerPoll? {
      DistNext(c, s.workerPort, i);
    }
  }

  lemma {:induction false} WorkerServes(c: Config, ev: nat -> Event, st: nat -> State, t: nat, i: nat) returns (u: nat)
    requires FairRun(c, ev, st) && TxRingFits(c) && i < c.nPorts
    requires Shape(c, st(t)) && |st(t).ringsRx[i]| >= c.workerRead
    ensures t <= u && Shape(c, st(u)) && WorkerTakes(c, st(u), ev(u), i)
    decreases WorkerDist(c, st(t), i)
  {
    if st(t).worker.WorkerPush? {
      u := WorkerPushEnds(c, ev, st, t, i);
    } else {
      u := NextMove(c, ev, st, WorkerCore, t);
      u := FirstWorkerMove(c, ev, st, t, u, i);
    }
    if !WorkerTakes(c, st(u), ev(u), i) {
      assert Moves(c, ev, st, u);
      WorkerPollsOn(c, st(u), i);
      u := WorkerServes(c, ev, st, u + 1, i);
    }
  }

  // ----- RX never spins for ever -----

  ghost predicate RxRoom(c: Config, s: State)
    requires Shape(c, s) && s.rx.RxPush?
  {
    |s.ringsRx[s.rxPort]| + |s.rx.held| <= c.ringRxSize - 1
  }

  ghost predicate RxPushes(c: Config, s: State, e: Event)
    requires Shape(c, s)
  {
    e.Rx? && s.rx.RxPush? && RxRoom(c, s)
  }

  /** Until there is room, a spinning RX core stays where it is and its target ring does not grow. */
  lemma {:induction false} RxSpins(c: Config, ev: nat -> Event, st: nat -> State, t: nat, t1: nat) returns (u: nat)
    requires FairRun(c, ev, st) && t <= t1 && Shape(c, st(t)) && st(t).rx.RxPush?
    ensures t <= u <= t1 && Shape(c, st(u)) && (u == t1 || RxPushes(c, st(u), ev(u)))
    ensures st(u).rxPort == st(t).rxPort && st(u).rx == st(t).rx && st(u).received == st(t).received
    ensures |st(u).ringsRx[st(u).rxPort]| <= |st(t).ringsRx[st(t).rxPort]|
    decreases t1 - t
  {
    if t == t1 || RxPushes(c, st(t), ev(t)) {
      u := t;
    } else {
      assert Moves(c, ev, st, t) && Moves(c, ev, st, t + 1);
      match ev(t) {
        case Rx(_) => assert st(t + 1) == st(t);
        case Worker => WorkerFrame(c, st(t), st(t).rxPort);
        case Tx(accepted) => TxFrame(c, st(t), accepted, st(t).rxPort);
      }
      u := RxSpins(c, ev, st, t + 1, t1);
    }
  }

  lemma {:induction false} RxPushEnds(c: Config, ev: nat -> Event, st: nat -> State, t: nat) returns (u: nat)
    requires FairRun(c, ev, st) && RingsFit(c) && Shape(c, st(t)) && st(t).rx.RxPush?
    ensures t <= u && Shape(c, st(u)) && RxPushes(c, st(u), ev(u))
    ensures st(u).rxPort == st(t).rxPort && st(u).rx == st(t).rx && st(u).received == st(t).received
    decreases |st(t).ringsRx[st(t).rxPort]|
  {
    RunInv(c, ev, st, t);
    var i := st(t).rxPort;
    if RxRoom(c, st(t)) {
      var t1 := NextMove(c, ev, st, RxCore, t);
      u := RxSpins(c, ev, st, t, t1);
    } else {
      FullRxRingHoldsBurst(c, st(t));
      var t1 := WorkerServes(c, ev, st, t, i);
      u := RxSpins(c, ev, st, t, t1);
      if !RxPushes(c, st(u), ev(u)) {
        assert Moves(c, ev, st, t1) && Moves(c, ev, st, t1 + 1);
        WorkerFrame(c, st(t1), i);
        assert |st(t1 + 1).ringsRx[i]| < |st(t1).ringsRx[i]|;
        u := RxPushEnds(c, ev, st, t1 + 1);
      }
    }
  }
}
