/**
 * End-to-end consequences for the packet pipeline: delivery of every packet that is followed by
 * enough others, a bound on the work left once reception stops, and the exact ring size that
 * rules out deadlock on the receive side.
 */
module PipelineDelivery {
  import opened Pipeline
  import opened PipelineLiveness

  // ----- how far each lane has come -----

  /** Packets of one lane that TX has sent or freed, that TX has taken, that the worker has pushed,
      that the worker has taken, and that RX has pushed. */
  datatype Passed = Passed(out: nat, taken: nat, pushed: nat, worked: nat, queued: nat)

  ghost function Count(c: Config, s: State, i: nat): Passed
    requires ValidConfig(c) && Shape(c, s) && i < c.nPorts
  {
    PortsEven(c);
    var j := Peer(i);
    var out := |s.done[j]|;
    var taken := out + |Unsent(c, s, j)|;
    var pushed := taken + |s.ringsTx[j]|;
    var worked := pushed + |WorkerHeld(s, i)|;
    Passed(out, taken, pushed, worked, worked + |s.ringsRx[i]|)
  }

  predicate NotBehind(a: Passed, b: Passed) {
    a.out <= b.out && a.taken <= b.taken && a.pushed <= b.pushed && a.worked <= b.worked && a.queued <= b.queued
  }

  /** A lane's counts end at what was received, less what RX still holds. */
  lemma CountsReceived(c: Config, s: State, i: nat)
    requires ValidConfig(c) && Inv(c, s) && i < c.nPorts
    ensures Count(c, s, i).queued + |RxHeld(s, i)| == |s.received[i]|
  {
    PortsEven(c);
    assert s.received[i] == Lane(c, s, i);
  }

  lemma RxCounts(c: Config, s: State, burst: seq<Mbuf>, i: nat)
    requires ValidConfig(c) && Shape(c, s) && i < c.nPorts
    ensures Shape(c, RxStep(c, s, burst)) && NotBehind(Count(c, s, i), Count(c, RxStep(c, s, burst), i))
    ensures s.received[i] <= RxStep(c, s, burst).received[i]
  {
    PortsEven(c);
    RxFrame(c, s, burst, i);
  }

  lemma WorkerCounts(c: Config, s: State, i: nat)
    requires ValidConfig(c) && Shape(c, s) && i < c.nPorts
    ensures Shape(c, WorkerStep(c, s)) && NotBehind(Count(c, s, i), Count(c, WorkerStep(c, s), i))
    ensures Count(c, WorkerStep(c, s), i).queued == Count(c, s, i).queued
    ensures WorkerTakes(c, s, Worker, i) ==>
              && Count(c, WorkerStep(c, s), i).worked == Count(c, s, i).worked + c.workerRead
              && WorkerStep(c, s).worker.WorkerPush? && WorkerStep(c, s).workerPort == i
    ensures WorkerPushes(c, s, Worker) && s.workerPort == i ==>
              Count(c, WorkerStep(c, s), i).pushed == Count(c, s, i).pushed + |s.worker.held|
  {
    WorkerMiddle(c, s, i);
    assert Peer(i) == Peer(s.workerPort) ==> i == s.workerPort;
  }

  lemma TxCounts(c: Config, s: State, accepted: nat, i: nat)
    requires ValidConfig(c) && Shape(c, s) && accepted <= |s.mbufTx[s.txPort]| && i < c.nPorts
    ensures Shape(c, TxStep(c, s, accepted)) && NotBehind(Count(c, s, i), Count(c, TxStep(c, s, accepted), i))
    ensures Count(c, TxStep(c, s, accepted), i).pushed == Count(c, s, i).pushed
    ensures Peer(i) < c.nPorts
    ensures TxTakes(c, s, Tx(accepted), Peer(i)) ==>
              Count(c, TxStep(c, s, accepted), i).taken == Count(c, s, i).taken + c.txRead
    ensures s.txPort == Peer(i) && s.tx.TxFree? && s.tx.k < |s.mbufTx[s.txPort]| ==>
              Count(c, TxStep(c, s, accepted), i).out == Count(c, s, i).out + 1
    ensures s.txPort == Peer(i) && s.tx.TxSend? ==>
              Count(c, TxStep(c, s, accepted), i).out == Count(c, s, i).out + accepted
  {
    PortsEven(c);
    TxFront(c, s, accepted, Peer(i));
    TxFrame(c, s, accepted, Peer(i));
  }

  lemma StepCounts(c: Config, s: State, e: Event, i: nat)
    requires ValidConfig(c) && Shape(c, s) && ValidEvent(c, s, e) && i < c.nPorts
    ensures Shape(c, Step(c, s, e)) && NotBehind(Count(c, s, i), Count(c, Step(c, s, e), i))
    ensures s.received[i] <= Step(c, s, e).received[i]
  {
    match e
    case Rx(burst) => RxCounts(c, s, burst, i);
    case Worker => WorkerCounts(c, s, i); WorkerFrame(c, s, i);
    case Tx(accepted) => TxCounts(c, s, accepted, i); TxFrame(c, s, accepted, i);
  }

  lemma MoveCounts(c: Config, ev: nat -> Event, st: nat -> State, t: nat, i: nat)
    requires FairRun(c, ev, st) && i < c.nPorts
    ensures Shape(c, st(t)) && Shape(c, st(t + 1))
    ensures NotBehind(Count(c, st(t), i), Count(c, st(t + 1), i)) && st(t).received[i] <= st(t + 1).received[i]
  {
    assert Moves(c, ev, st, t);
    StepCounts(c, st(t), ev(t), i);
  }

  lemma {:induction false} RunCounts(c: Config, ev: nat -> Event, st: nat -> State, t: nat, u: nat, i: nat)
    requires FairRun(c, ev, st) && t <= u && i < c.nPorts
    ensures Shape(c, st(t)) && Shape(c, st(u))
    ensures NotBehind(Count(c, st(t), i), Count(c, st(u), i)) && st(t).received[i] <= st(u).received[i]
    decreases u - t
  {
    MoveCounts(c, ev, st, t, i);
    if t < u {
      RunCounts(c, ev, st, t + 1, u, i);
    }
  }

  // ----- stage by stage -----

  lemma RxDelivers(c: Config, ev: nat -> Event, st: nat -> State, t: nat, i: nat) returns (u: nat)
    requires FairRun(c, ev, st) && RingsFit(c) && i < c.nPorts && Shape(c, st(t))
    ensures t <= u && Shape(c, st(u)) && Count(c, st(u), i).queued >= |st(t).received[i]|
  {
    RunInv(c, ev, st, t);
    CountsReceived(c, st(t), i);
    u := t;
    if RxHeld(st(t), i) != [] {
      var v := RxPushEnds(c, ev, st, t);
      u := v + 1;
      assert st(u).received == st(t).received && RxHeld(st(u), i) == [] by {
        assert Moves(c, ev, st, v);
      }
      RunInv(c, ev, st, u);
      CountsReceived(c, st(u), i);
    }
  }

  lemma {:induction false} WorkerDelivers(c: Config, ev: nat -> Event, st: nat -> State, t: nat, i: nat, b: nat)
      returns (u: nat)
    requires FairRun(c, ev, st) && TxRingFits(c) && i < c.nPorts && Shape(c, st(t))
    requires Count(c, st(t), i).queued >= b + c.workerRead - 1
    ensures t <= u && Shape(c, st(u)) && Count(c, st(u), i).pushed >= b
    decreases b - Count(c, st(t), i).pushed, WorkerHeld(st(t), i) == []
  {
    if Count(c, st(t), i).pushed >= b {
      u := t;
    } else {
      var v;
      if WorkerHeld(st(t), i) == [] {
        v := WorkerServes(c, ev, st, t, i);
      } else {
        v := WorkerPushEnds(c, ev, st, t, i);
      }
      RunCounts(c, ev, st, t, v, i);
      RunCounts(c, ev, st, t, v + 1, i);
      assert Moves(c, ev, st, v);
      WorkerCounts(c, st(v), i);
      u := WorkerDelivers(c, ev, st, v + 1, i, b);
    }
  }

  lemma {:induction false} TxCollects(c: Config, ev: nat -> Event, st: nat -> State, t: nat, i: nat, b: nat)
      returns (u: nat)
    requires FairRun(c, ev, st) && i < c.nPorts && Shape(c, st(t))
    requires Count(c, st(t), i).pushed >= b + c.txRead - 1
    ensures t <= u && Shape(c, st(u)) && Count(c, st(u), i).taken >= b
    decreases b - Count(c, st(t), i).taken
  {
    PortsEven(c);
    if Count(c, st(t), i).taken >= b {
      u := t;
    } else {
      var v := TxServes(c, ev, st, t, Peer(i));
      RunCounts(c, ev, st, t, v, i);
      RunCounts(c, ev, st, t, v + 1, i);
      assert Moves(c, ev, st, v);
      TxCounts(c, st(v), ev(v).accepted, i);
      u := TxCollects(c, ev, st, v + 1, i, b);
    }
  }

  /** A TX buffer that has reached the write size is being emptied, and a TX step takes that further. */
  lemma TxSendsOn(c: Config, s: State, accepted: nat, i: nat, b: nat)
    requires ValidConfig(c) && Inv(c, s) && accepted <= |s.mbufTx[s.txPort]| && i < c.nPorts
    requires Count(c, s, i).out < b && Count(c, s, i).taken >= b + c.txWrite - 1
    ensures Shape(c, TxStep(c, s, accepted))
    ensures var n, n' := Count(c, s, i).out, Count(c, TxStep(c, s, accepted), i).out;
            n < n' || (n == n' && TxInner(c, TxStep(c, s, accepted)) < TxInner(c, s))
  {
    PortsEven(c);
    assert !s.tx.TxPoll? && s.txPort == Peer(i);
    TxCounts(c, s, accepted, i);
  }

  lemma {:induction false} TxEmits(c: Config, ev: nat -> Event, st: nat -> State, t: nat, t1: nat, i: nat, b: nat)
      returns (u: nat)
    requires FairRun(c, ev, st) && i < c.nPorts && Shape(c, st(t)) && t <= t1 && CoreOf(ev(t1)) == TxCore
    requires Count(c, st(t), i).taken >= b + c.txWrite - 1
    ensures t <= u && Shape(c, st(u)) && Count(c, st(u), i).out >= b
    decreases b - Count(c, st(t), i).out, TxInner(c, st(t)), t1 - t
  {
    hide Inv, Count;
    MoveCounts(c, ev, st, t, i);
    if Count(c, st(t), i).out >= b {
      u := t;
    } else if ev(t).Tx? {
      RunInv(c, ev, st, t);
      TxSendsOn(c, st(t), ev(t).accepted, i, b);
      var t2 := NextMove(c, ev, st, TxCore, t + 1);
      u := TxEmits(c, ev, st, t + 1, t2, i, b);
    } else {
      PortsEven(c);
      TxWaits(c, ev, st, t, Peer(i));
      u := TxEmits(c, ev, st, t + 1, t1, i, b);
    }
  }

  /** How many packets of a lane can stay behind for want of a full burst. */
  function Residue(c: Config): nat
    requires c.workerRead >= 1 && c.txRead >= 1 && c.txWrite >= 1
  {
    (c.workerRead - 1) + (c.txRead - 1) + (c.txWrite - 1)
  }

  /**
   * On every fair run, the first `m` packets of a port leave, in order, on its peer once `Residue` more
   * have come in.
   */
  lemma Delivered(c: Config, ev: nat -> Event, st: nat -> State, t: nat, i: nat, m: nat) returns (u: nat)
    requires FairRun(c, ev, st) && RingsFit(c) && i < c.nPorts
    requires Shape(c, st(t)) && |st(t).received[i]| >= m + Residue(c)
    ensures t <= u && Shape(c, st(u)) && Peer(i) < c.nPorts
    ensures st(t).received[i][..m] <= Mbufs(st(u).done[Peer(i)])
  {
    PortsEven(c);
    var atSend := m + c.txWrite - 1;
    var atTx := atSend + c.txRead - 1;
    var a := RxDelivers(c, ev, st, t, i);
    var b := WorkerDelivers(c, ev, st, a, i, atTx);
    var d := TxCollects(c, ev, st, b, i, atSend);
    var t1 := NextMove(c, ev, st, TxCore, d);
    u := TxEmits(c, ev, st, d, t1, i, m);
    RunCounts(c, ev, st, t, u, i);
    RunInv(c, ev, st, u);
    assert st(u).received[i] == Lane(c, st(u), i);
    var out := Mbufs(st(u).done[Peer(i)]);
    assert out <= st(u).received[i];
    assert st(t).received[i][..m] == st(u).received[i][..m] == out[..m];
  }

  // ----- once reception stops -----

  /** Stages that the packets of lane `i` still have before them. */
  ghost function LaneWork(c: Config, s: State, i: nat): nat
    requires ValidConfig(c) && Shape(c, s) && i < c.nPorts
  {
    var n := Count(c, s, i);
    (n.queued - n.worked) + (n.queued - n.pushed) + (n.queued - n.taken) + (n.queued - n.out)
  }

  function Sum(xs: seq<nat>): nat {
    if xs == [] then 0 else xs[0] + Sum(xs[1..])
  }

  lemma {:induction false} SumShrinks(xs: seq<nat>, ys: seq<nat>)
    requires |xs| == |ys| && forall k | 0 <= k < |xs| :: ys[k] <= xs[k]
    ensures Sum(ys) <= Sum(xs)
    ensures (exists k :: 0 <= k < |xs| && ys[k] < xs[k]) ==> Sum(ys) < Sum(xs)
  {
    if xs != [] {
      SumShrinks(xs[1..], ys[1..]);
      if k :| 0 < k < |xs| && ys[k] < xs[k] {
        assert ys[1..][k - 1] < xs[1..][k - 1];
      }
    }
  }

  /** The work in hand, over all lanes. */
  ghost function Work(c: Config, s: State): nat
    requires ValidConfig(c) && Shape(c, s)
  {
    Sum(LaneWorks(c, s))
  }

  ghost function LaneWorks(c: Config, s: State): seq<nat>
    requires ValidConfig(c) && Shape(c, s)
  {
    seq(c.nPorts, i requires 0 <= i < c.nPorts => LaneWork(c, s, i))
  }

  /** The worker or the TX core moves at least one packet. */
  ghost predicate Effective(c: Config, s: State, e: Event)
    requires ValidConfig(c) && Shape(c, s) && ValidEvent(c, s, e)
  {
    match e
    case Rx(_) => false
    case Worker => WorkerTakes(c, s, e, s.workerPort) || WorkerPushes(c, s, e)
    case Tx(accepted) =>
      || TxTakes(c, s, e, s.txPort)
      || (s.tx.TxSend? && accepted > 0)
      || (s.tx.TxFree? && s.tx.k < |s.mbufTx[s.txPort]|)
  }

  lemma WorkerLaneWork(c: Config, s: State, i: nat)
    requires ValidConfig(c) && Shape(c, s) && Bounded(c, s) && i < c.nPorts
    ensures Shape(c, WorkerStep(c, s)) && LaneWork(c, WorkerStep(c, s), i) <= LaneWork(c, s, i)
    ensures Effective(c, s, Worker) && i == s.workerPort ==> LaneWork(c, WorkerStep(c, s), i) < LaneWork(c, s, i)
  {
    WorkerCounts(c, s, i);
  }

  lemma TxLaneWork(c: Config, s: State, accepted: nat, i: nat)
    requires ValidConfig(c) && Shape(c, s) && accepted <= |s.mbufTx[s.txPort]| && i < c.nPorts
    ensures Shape(c, TxStep(c, s, accepted)) && LaneWork(c, TxStep(c, s, accepted), i) <= LaneWork(c, s, i)
    ensures Effective(c, s, Tx(accepted)) && i == Peer(s.txPort) ==>
              LaneWork(c, TxStep(c, s, accepted), i) < LaneWork(c, s, i)
  {
    PortsEven(c);
    TxCounts(c, s, accepted, i);
    assert Count(c, TxStep(c, s, accepted), i).queued == Count(c, s, i).queued by {
      TxFrame(c, s, accepted, i);
    }
    PeerIsXor(s.txPort);
  }

  lemma LaneWorkShrinks(c: Config, s: State, e: Event, i: nat)
    requires ValidConfig(c) && Inv(c, s) && ValidEvent(c, s, e) && !e.Rx? && i < c.nPorts
    ensures Shape(c, Step(c, s, e)) && LaneWork(c, Step(c, s, e), i) <= LaneWork(c, s, i)
    ensures Effective(c, s, e) && i == (if e.Worker? then s.workerPort else Peer(s.txPort)) ==>
              LaneWork(c, Step(c, s, e), i) < LaneWork(c, s, i)
  {
    hide LaneWork, Effective;
    match e
    case Worker => WorkerLaneWork(c, s, i);
    case Tx(accepted) => TxLaneWork(c, s, accepted, i);
  }

  lemma WorkShrinks(c: Config, s: State, e: Event)
    requires ValidConfig(c) && Inv(c, s) && ValidEvent(c, s, e) && !e.Rx?
    ensures Shape(c, Step(c, s, e)) && Work(c, Step(c, s, e)) <= Work(c, s)
    ensures Effective(c, s, e) ==> Work(c, Step(c, s, e)) < Work(c, s)
  {
    PortsEven(c);
    var p := if e.Worker? then s.workerPort else Peer(s.txPort);
    LaneWorkShrinks(c, s, e, p);
    var xs, ys := LaneWorks(c, s), LaneWorks(c, Step(c, s, e));
    forall i | 0 <= i < c.nPorts ensures ys[i] <= xs[i] {
      LaneWorkShrinks(c, s, e, i);
    }
    assert Effective(c, s, e) ==> ys[p] < xs[p];
    SumShrinks(xs, ys);
  }

  /** The number of effective steps along a run from `s` that receives nothing. */
  ghost function EffectiveSteps(c: Config, s: State, events: seq<Event>): nat
    requires ValidConfig(c) && Shape(c, s)
    decreases |events|
  {
    if events == [] || !ValidEvent(c, s, events[0]) || events[0].Rx? then 0
    else
      StepCounts(c, s, events[0], 0);
      (if Effective(c, s, events[0]) then 1 else 0) + EffectiveSteps(c, Step(c, s, events[0]), events[1..])
  }

  /** Once reception stops, worker and TX can do at most the work in hand, whatever the interleaving. */
  lemma {:induction false} QuietRunEnds(c: Config, s: State, events: seq<Event>)
    requires ValidConfig(c) && Inv(c, s)
    ensures EffectiveSteps(c, s, events) <= Work(c, s)
    decreases |events|
  {
    if events != [] && ValidEvent(c, s, events[0]) && !events[0].Rx? {
      StepKeeps(c, s, events[0]);
      WorkShrinks(c, s, events[0]);
      QuietRunEnds(c, Step(c, s, events[0]), events[1..]);
    }
  }

  /** Nothing is going to move any more unless something comes in. */
  ghost predicate Quiet(c: Config, s: State)
    requires ValidConfig(c) && Shape(c, s)
  {
    forall events: seq<Event> :: EffectiveSteps(c, s, events) == 0
  }

  lemma QuietNext(c: Config, s: State, e: Event)
    requires ValidConfig(c) && Shape(c, s) && ValidEvent(c, s, e) && !e.Rx? && Quiet(c, s)
    ensures Shape(c, Step(c, s, e)) && !Effective(c, s, e) && Quiet(c, Step(c, s, e))
  {
    StepCounts(c, s, e, 0);
    hide Effective, Step, Shape, ValidEvent, Count;
    forall events: seq<Event> ensures EffectiveSteps(c, Step(c, s, e), events) == 0 {
      assert ([e] + events)[1..] == events;
      assert EffectiveSteps(c, s, [e] + events) == 0;
    }
    assert [e][1..] == [];
    assert EffectiveSteps(c, s, [e]) == 0;
  }

  /** In a quiet state TX would not pass over a ring that holds a burst for it. */
  lemma {:induction false} QuietTxRing(c: Config, s: State, j: nat)
    requires ValidConfig(c) && Shape(c, s) && Quiet(c, s) && j < c.nPorts
    ensures |s.ringsTx[j]| < c.txRead
    decreases TxDist(c, s, j), TxInner(c, s)
  {
    if |s.ringsTx[j]| >= c.txRead {
      QuietNext(c, s, Tx(0));
      if !TxTakes(c, s, Tx(0), j) {
        TxProgress(c, s, Tx(0), j);
        hide Quiet;
        QuietTxRing(c, Step(c, s, Tx(0)), j);
      }
    }
  }

  lemma QuietWorker(c: Config, s: State)
    requires ValidConfig(c) && TxRingFits(c) && Inv(c, s) && Quiet(c, s)
    ensures s.worker.WorkerPoll?
  {
    if s.worker.WorkerPush? {
      QuietNext(c, s, Worker);
      FullTxRingHoldsBurst(c, s);
      QuietTxRing(c, s, Peer(s.workerPort));
    }
  }

  lemma {:induction false} QuietRxRing(c: Config, s: State, i: nat)
    requires ValidConfig(c) && TxRingFits(c) && Inv(c, s) && Quiet(c, s) && i < c.nPorts
    ensures |s.ringsRx[i]| < c.workerRead
    decreases WorkerDist(c, s, i)
  {
    if |s.ringsRx[i]| >= c.workerRead {
      QuietWorker(c, s);
      QuietNext(c, s, Worker);
      if !WorkerTakes(c, s, Worker, i) {
        WorkerPollsOn(c, s, i);
        WorkerKeeps(c, s);
        hide Quiet, Inv;
        QuietRxRing(c, WorkerStep(c, s), i);
      }
    }
  }

  lemma QuietUnsent(c: Config, s: State, j: nat)
    requires ValidConfig(c) && Inv(c, s) && Quiet(c, s) && j < c.nPorts
    ensures |Unsent(c, s, j)| <= c.txWrite - 1
  {
    if j == s.txPort && !s.tx.TxPoll? {
      QuietNext(c, s, Tx(|s.mbufTx[j]|));
    }
  }

  /**
   * When neither the worker nor TX is ever going to move a packet again unless one comes in, the worker
   * polls, every ring holds less than a burst, and at most `Residue` packets are left in a lane.
   */
  lemma QuietResidue(c: Config, s: State, i: nat)
    requires ValidConfig(c) && TxRingFits(c) && Inv(c, s) && Quiet(c, s) && i < c.nPorts
    ensures s.worker.WorkerPoll? && |s.ringsRx[i]| < c.workerRead && |s.ringsTx[i]| < c.txRead
    ensures |Unsent(c, s, i)| < c.txWrite
    ensures Count(c, s, i).queued - Count(c, s, i).out <= Residue(c)
  {
    PortsEven(c);
    QuietWorker(c, s);
    QuietRxRing(c, s, i);
    QuietTxRing(c, s, i);
    QuietTxRing(c, s, Peer(i));
    QuietUnsent(c, s, i);
    QuietUnsent(c, s, Peer(i));
    hide Inv, Quiet, Unsent;
  }

  // ----- the exact ring size -----

  /** RX spins on a ring that the worker finds too empty, and nobody has anything to do. */
  ghost predicate Stuck(c: Config, s: State) {
    && ValidConfig(c) && Shape(c, s)
    && s.rx.RxPush? && !RxRoom(c, s) && s.worker.WorkerPoll? && s.tx.TxPoll?
    && (forall p: nat | p < c.nPorts :: |s.ringsRx[p]| < c.workerRead)
    && (forall p: nat | p < c.nPorts :: |s.ringsTx[p]| < c.txRead)
  }

  lemma StuckForEver(c: Config, s: State, e: Event)
    requires Stuck(c, s) && ValidEvent(c, s, e)
    ensures Stuck(c, Step(c, s, e)) && Step(c, s, e).received == s.received && Step(c, s, e).done == s.done
  {
  }

  ghost predicate Reachable(c: Config, s: State)
    requires ValidConfig(c)
  {
    exists events: seq<Event> :: Reaches(c, events, s)
  }

  lemma ReachStep(c: Config, s: State, e: Event)
    requires ValidConfig(c) && Reachable(c, s) && Shape(c, s) && ValidEvent(c, s, e)
    ensures Reachable(c, Step(c, s, e))
  {
    var events :| Reaches(c, events, s);
    assert (events + [e])[..|events|] == events;
    assert Reaches(c, events + [e], Step(c, s, e));
  }

  /** No buffer has come in twice. */
  ghost predicate Apart(s: State) {
    forall i, k, j, l | 0 <= i < |s.received| && 0 <= k < |s.received[i]| && 0 <= j < |s.received|
        && 0 <= l < |s.received[j]| && s.received[i][k] == s.received[j][l] :: i == j && k == l
  }

  /** Only port 0 has received anything, and its buffers carry their own numbers. */
  ghost predicate Numbered(s: State) {
    && |s.received| > 0
    && (forall k | 0 <= k < |s.received[0]| :: s.received[0][k] == k)
    && (forall i | 1 <= i < |s.received| :: s.received[i] == [])
  }

  lemma NumberedApart(s: State)
    requires Numbered(s)
    ensures Apart(s)
  {
  }

  /** The next `n` buffers that arrive on port 0. */
  ghost function Next(s: State, n: nat): (more: seq<Mbuf>)
    requires |s.received| > 0
    ensures |more| == n && forall k | 0 <= k < n :: more[k] == |s.received[0]| + k
  {
    seq(n, k requires 0 <= k < n => |s.received[0]| + k)
  }

  lemma NumberedNext(s: State, s': State, n: nat)
    requires |s.received| > 0 && Numbered(s)
    requires s'.received == s.received[0 := s.received[0] + Next(s, n)]
    ensures Numbered(s')
  {
  }

  /** RX goes on to port 0 when nothing arrives. */
  lemma {:induction false} PollRx(c: Config, s: State)
    requires ValidConfig(c) && Reachable(c, s) && Shape(c, s) && s.rx == RxPoll
    ensures Reachable(c, s.(rxPort := 0))
    decreases if s.rxPort == 0 then 0 else c.nPorts - s.rxPort
  {
    if s.rxPort > 0 {
      ReachStep(c, s, Rx([]));
      PollRx(c, Step(c, s, Rx([])));
    } else {
      assert s.(rxPort := 0) == s;
    }
  }

  ghost function Arrived(c: Config, s: State, n: nat): State
    requires Shape(c, s) && c.nPorts > 0
  {
    var more := Next(s, n);
    s.(ringsRx := s.ringsRx[0 := s.ringsRx[0] + more], received := s.received[0 := s.received[0] + more])
  }

  lemma ArriveNone(c: Config, s: State)
    requires Shape(c, s) && c.nPorts > 0
    ensures Arrived(c, s, 0) == s
  {
    assert Next(s, 0) == [];
    assert s.ringsRx[0] + [] == s.ringsRx[0] && s.received[0] + [] == s.received[0];
    assert s.ringsRx[0 := s.ringsRx[0]] == s.ringsRx && s.received[0 := s.received[0]] == s.received;
  }

  lemma ArriveOne(c: Config, s: State, n: nat)
    requires Shape(c, s) && c.nPorts > 0
    ensures Arrived(c, s, n + 1) == Arrived(c, Arrived(c, s, n), 1)
  {
    var more, one := Next(s, n), Next(Arrived(c, s, n), 1);
    assert more + one == Next(s, n + 1);
    assert s.ringsRx[0] + more + one == s.ringsRx[0] + (more + one)
        && s.received[0] + more + one == s.received[0] + (more + one);
    assert Arrived(c, s, n + 1).ringsRx == Arrived(c, Arrived(c, s, n), 1).ringsRx;
    assert Arrived(c, s, n + 1).received == Arrived(c, Arrived(c, s, n), 1).received;
  }

  /** One packet comes in on port 0. */
  lemma ReceiveOne(c: Config, s: State)
    requires ValidConfig(c) && Reachable(c, s) && Shape(c, s) && s.rx == RxPoll && s.rxPort == 0
    requires |s.ringsRx[0]| + 1 <= c.ringRxSize - 1
    ensures Reachable(c, Arrived(c, s, 1))
  {
    var one := Next(s, 1);
    ReachStep(c, s, Rx(one));
    var a := Step(c, s, Rx(one));
    ReachStep(c, a, Rx([]));
    var b := Step(c, a, Rx([]));
    PollRx(c, b);
    assert b.(rxPort := 0) == Arrived(c, s, 1);
  }

  lemma {:induction false} Receive(c: Config, s: State, n: nat)
    requires ValidConfig(c) && Reachable(c, s) && Shape(c, s) && s.rx == RxPoll && s.rxPort == 0
    requires |s.ringsRx[0]| + n <= c.ringRxSize - 1
    ensures Reachable(c, Arrived(c, s, n))
    decreases n
  {
    if n == 0 {
      ArriveNone(c, s);
    } else {
      Receive(c, s, n - 1);
      ReceiveOne(c, Arrived(c, s, n - 1));
      ArriveOne(c, s, n - 1);
    }
  }

  /** RX can come to spin while the worker waits for a burst exactly when the bursts of the two exceed the ring size. */
  lemma StuckIff(c: Config)
    requires ValidConfig(c)
    ensures (exists s: State :: Reachable(c, s) && Stuck(c, s)) <==> c.rxRead + c.workerRead > c.ringRxSize
    ensures c.rxRead + c.workerRead > c.ringRxSize ==> exists s: State :: Reachable(c, s) && Stuck(c, s) && Apart(s)
  {
    forall s: State | Reachable(c, s) && Stuck(c, s) ensures c.rxRead + c.workerRead > c.ringRxSize {
      var events :| Reaches(c, events, s);
      EveryRunConserves(c, events, s);
    }
    if c.rxRead + c.workerRead > c.ringRxSize {
      var s := ReachRxStuck(c);
      NumberedApart(s);
      assert Reachable(c, s) && Stuck(c, s) && Apart(s);
    }
  }

  /** `q` packets wait on port 0, and nothing else has happened. */
  ghost predicate Waiting(c: Config, s: State, q: nat) {
    && ValidConfig(c) && Shape(c, s)
    && s.rx == RxPoll && s.rxPort == 0 && s.worker == WorkerPoll && s.tx == TxPoll && Numbered(s)
    && forall p: nat | p < c.nPorts :: |s.ringsRx[p]| == (if p == 0 then q else 0) && s.ringsTx[p] == []
  }

  lemma InitWaits(c: Config)
    requires ValidConfig(c)
    ensures Reachable(c, Init(c)) && Waiting(c, Init(c), 0)
  {
    InitInv(c);
    assert Reaches(c, [], Init(c));
  }

  lemma ArrivedWaits(c: Config, s: State, n: nat)
    requires Waiting(c, s, 0)
    ensures Waiting(c, Arrived(c, s, n), n)
  {
    NumberedNext(s, Arrived(c, s, n), n);
    hide Numbered;
  }

  lemma ReachWaiting(c: Config, q: nat) returns (s: State)
    requires ValidConfig(c) && q <= c.ringRxSize - 1
    ensures Reachable(c, s) && Waiting(c, s, q)
  {
    hide Reachable;
    InitWaits(c);
    Receive(c, Init(c), q);
    s := Arrived(c, Init(c), q);
    ArrivedWaits(c, Init(c), q);
  }

  lemma WaitingBlocks(c: Config, s: State, q: nat, burst: seq<Mbuf>)
    requires Waiting(c, s, q) && q < c.workerRead && 1 <= |burst| <= c.rxRead && q + |burst| > c.ringRxSize - 1
    ensures ValidEvent(c, s, Rx(burst)) && Stuck(c, Step(c, s, Rx(burst)))
    ensures Step(c, s, Rx(burst)).received == s.received[0 := s.received[0] + burst] && Numbered(s)
  {
    hide Numbered;
  }

  /** Almost a worker burst waits on port 0 when a whole RX burst comes in. */
  lemma ReachRxStuck(c: Config) returns (s: State)
    requires ValidConfig(c) && c.rxRead + c.workerRead > c.ringRxSize
    ensures Reachable(c, s) && Stuck(c, s) && Numbered(s)
  {
    hide Reachable, Stuck, Numbered;
    var q := if c.workerRead <= c.ringRxSize then c.workerRead - 1 else c.ringRxSize - 1;
    var a := ReachWaiting(c, q);
    var burst := Next(a, c.rxRead);
    WaitingBlocks(c, a, q, burst);
    ReachStep(c, a, Rx(burst));
    s := Step(c, a, Rx(burst));
    NumberedNext(a, s, c.rxRead);
  }
}
