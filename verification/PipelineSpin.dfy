/**
 * Spinning for ever: on which configurations a core of the pipeline can stay where it is from some
 * moment on, although every core keeps moving. The answers are exact for each of the three cores.
 */
module PipelineSpin {
  import Divisors
  import opened Pipeline
  import opened PipelineLiveness
  import opened PipelineDelivery
  import opened PipelineTxRing

  /** A core is at the same port, in the same phase, with the same packets in hand. */
  predicate SamePlace(core: Core, s: State, s': State) {
    match core
    case RxCore => s.rxPort == s'.rxPort && s.rx == s'.rx
    case WorkerCore => s.workerPort == s'.workerPort && s.worker == s'.worker
    case TxCore => s.txPort == s'.txPort && s.tx == s'.tx
  }

  ghost predicate StaysFrom(st: nat -> State, core: Core, t: nat) {
    forall u: nat | t <= u :: SamePlace(core, st(t), st(u))
  }

  /** On some fair run the core stays where it is from some moment on. */
  ghost predicate CanSpin(c: Config, core: Core) {
    exists ev: nat -> Event, st: nat -> State, t: nat :: FairRun(c, ev, st) && StaysFrom(st, core, t)
  }

  /** The same, on a run on which no buffer comes in twice. */
  ghost predicate CanSpinApart(c: Config, core: Core) {
    exists ev: nat -> Event, st: nat -> State, t: nat ::
      FairRun(c, ev, st) && StaysFrom(st, core, t) && AlwaysApart(st)
  }

  ghost predicate AlwaysApart(st: nat -> State) {
    forall u: nat :: Apart(st(u))
  }

  lemma ApartSpins(c: Config, core: Core)
    ensures CanSpinApart(c, core) ==> CanSpin(c, core)
  {
    hide FairRun, StaysFrom, AlwaysApart;
  }

  // ----- what cannot happen -----

  lemma StepPolls(c: Config, s: State, e: Event)
    requires ValidConfig(c) && Shape(c, s) && ValidEvent(c, s, e)
    ensures SamePlace(CoreOf(e), s, Step(c, s, e)) ==>
              || (e.Rx? && s.rx.RxPush? && !RxRoom(c, s))
              || (e.Worker? && s.worker.WorkerPush? && !WorkerRoom(c, s))
  {
    PortsEven(c);
  }

  /** A core that stays where it is does so because its ring is full whenever it looks. */
  lemma StaysBlocked(c: Config, ev: nat -> Event, st: nat -> State, core: Core, t: nat, u: nat)
    requires FairRun(c, ev, st) && StaysFrom(st, core, t) && t <= u && CoreOf(ev(u)) == core
    ensures Shape(c, st(u))
    ensures || (core == RxCore && st(u).rx.RxPush? && !RxRoom(c, st(u)))
            || (core == WorkerCore && st(u).worker.WorkerPush? && !WorkerRoom(c, st(u)))
  {
    assert Moves(c, ev, st, u);
    assert SamePlace(core, st(t), st(u)) && SamePlace(core, st(t), st(u + 1));
    StepPolls(c, st(u), ev(u));
  }

  lemma TxNeverSpins(c: Config)
    ensures !CanSpin(c, TxCore)
  {
    if CanSpin(c, TxCore) {
      var ev: nat -> Event, st: nat -> State, t: nat :| FairRun(c, ev, st) && StaysFrom(st, TxCore, t);
      var u := NextMove(c, ev, st, TxCore, t);
      StaysBlocked(c, ev, st, TxCore, t, u);
    }
  }

  lemma RxMoves(c: Config)
    requires ValidConfig(c) && RingsFit(c)
    ensures !CanSpin(c, RxCore)
  {
    if CanSpin(c, RxCore) {
      var ev: nat -> Event, st: nat -> State, t: nat :| FairRun(c, ev, st) && StaysFrom(st, RxCore, t);
      var u := NextMove(c, ev, st, RxCore, t);
      StaysBlocked(c, ev, st, RxCore, t, u);
      var v := RxPushEnds(c, ev, st, u);
      StaysBlocked(c, ev, st, RxCore, t, v);
    }
  }

  lemma WorkerMoves(c: Config)
    requires ValidConfig(c) && TxRingFits(c)
    ensures !CanSpin(c, WorkerCore)
  {
    if CanSpin(c, WorkerCore) {
      var ev: nat -> Event, st: nat -> State, t: nat :| FairRun(c, ev, st) && StaysFrom(st, WorkerCore, t);
      var u := NextMove(c, ev, st, WorkerCore, t);
      StaysBlocked(c, ev, st, WorkerCore, t, u);
      var v := WorkerPushEnds(c, ev, st, u, 0);
      StaysBlocked(c, ev, st, WorkerCore, t, v);
    }
  }

  /** A worker with a burst in hand has found it in an RX ring. */
  lemma {:induction false} HeldFitted(c: Config, ev: nat -> Event, st: nat -> State, t: nat)
    requires FairRun(c, ev, st) && Shape(c, st(t)) && st(t).worker.WorkerPush?
    ensures c.workerRead <= c.ringRxSize - 1
    decreases t
  {
    if t > 0 {
      RunInv(c, ev, st, t - 1);
      if st(t - 1).worker.WorkerPush? {
        HeldFitted(c, ev, st, t - 1);
      }
    }
  }

  // ----- what can happen -----

  /** The events of a finite run, and then all three cores in turn with nothing coming in and nothing going out. */
  ghost function InTurn(events: seq<Event>): nat -> Event {
    (t: nat) => if t < |events| then events[t] else if t % 3 == 0 then Rx([]) else if t % 3 == 1 then Worker else Tx(0)
  }

  ghost function Trace(c: Config, events: seq<Event>, t: nat): State {
    if t == 0 || !ValidConfig(c) then Init(c)
    else
      var s, e := Trace(c, events, t - 1), InTurn(events)(t - 1);
      if Shape(c, s) && ValidEvent(c, s, e) then Step(c, s, e) else s
  }

  ghost function States(c: Config, events: seq<Event>): nat -> State {
    (t: nat) => Trace(c, events, t)
  }

  ghost predicate TraceMoves(c: Config, events: seq<Event>, t: nat)
    requires ValidConfig(c)
  {
    var s, e := Trace(c, events, t), InTurn(events)(t);
    Shape(c, s) && ValidEvent(c, s, e) && Trace(c, events, t + 1) == Step(c, s, e)
  }

  lemma TraceNext(c: Config, events: seq<Event>, t: nat)
    requires ValidConfig(c)
    requires Shape(c, Trace(c, events, t)) && ValidEvent(c, Trace(c, events, t), InTurn(events)(t))
    ensures TraceMoves(c, events, t)
  {
  }

  lemma LastStep(c: Config, events: seq<Event>, s: State) returns (r: State)
    requires ValidConfig(c) && Reaches(c, events, s) && events != []
    ensures Reaches(c, events[..|events| - 1], r) && Shape(c, r) && ValidEvent(c, r, events[|events| - 1])
    ensures s == Step(c, r, events[|events| - 1])
  {
    var last := |events| - 1;
    r :| Reaches(c, events[..last], r) && Shape(c, r) && ValidEvent(c, r, events[last])
        && s == Step(c, r, events[last]);
  }

  lemma InTurnAt(events: seq<Event>, t: nat)
    requires t < |events|
    ensures InTurn(events)(t) == events[t]
  {
  }

  lemma TraceStart(c: Config, events: seq<Event>, s: State)
    requires ValidConfig(c) && Reaches(c, [], s)
    ensures Trace(c, events, 0) == s
  {
  }

  lemma {:induction false} TraceFollows(c: Config, events: seq<Event>, s: State, n: nat)
    requires ValidConfig(c) && n <= |events| && Reaches(c, events[..n], s)
    ensures Trace(c, events, n) == s
    ensures forall t: nat | t < n :: TraceMoves(c, events, t)
    decreases n
  {
    hide *;
    if n == 0 {
      assert events[..0] == [];
      TraceStart(c, events, s);
    } else {
      var r := LastStep(c, events[..n], s);
      assert events[..n][..n - 1] == events[..n - 1];
      InTurnAt(events, n - 1);
      TraceFollows(c, events, r, n - 1);
      TraceNext(c, events, n - 1);
      TraceSteps(c, events, n - 1);
    }
  }

  lemma TraceSteps(c: Config, events: seq<Event>, t: nat)
    requires ValidConfig(c) && TraceMoves(c, events, t)
    ensures Shape(c, Trace(c, events, t)) && ValidEvent(c, Trace(c, events, t), InTurn(events)(t))
    ensures Trace(c, events, t + 1) == Step(c, Trace(c, events, t), InTurn(events)(t))
  {
  }

  /** No event changes the place of the core, nor makes room for it. */
  ghost predicate Blocked(c: Config, core: Core, s: State) {
    && ValidConfig(c) && Shape(c, s)
    && match core
       case RxCore => (Stuck(c, s) || WorkerStuck(c, s)) && s.rx.RxPush? && !RxRoom(c, s)
       case WorkerCore => WorkerStuck(c, s)
       case TxCore => false
  }

  lemma BlockedForEver(c: Config, core: Core, s: State, e: Event)
    requires Blocked(c, core, s) && ValidEvent(c, s, e)
    ensures Blocked(c, core, Step(c, s, e)) && SamePlace(core, s, Step(c, s, e))
  {
    if Stuck(c, s) {
      StuckForEver(c, s, e);
    } else {
      WorkerStuckForEver(c, s, e);
    }
  }

  lemma BlockedMoves(c: Config, core: Core, events: seq<Event>, t: nat)
    requires |events| <= t && Blocked(c, core, Trace(c, events, t))
    ensures TraceMoves(c, events, t)
  {
    hide Stuck, WorkerStuck;
  }

  lemma {:induction false} TraceBlocked(c: Config, core: Core, events: seq<Event>, t: nat)
    requires |events| <= t && Blocked(c, core, Trace(c, events, |events|))
    ensures Blocked(c, core, Trace(c, events, t)) && SamePlace(core, Trace(c, events, |events|), Trace(c, events, t))
    decreases t
  {
    hide Blocked, Trace;
    if |events| < t {
      TraceBlocked(c, core, events, t - 1);
      BlockedConfig(c, core, Trace(c, events, t - 1));
      BlockedMoves(c, core, events, t - 1);
      TraceSteps(c, events, t - 1);
      BlockedForEver(c, core, Trace(c, events, t - 1), InTurn(events)(t - 1));
    }
  }

  lemma BlockedConfig(c: Config, core: Core, s: State)
    requires Blocked(c, core, s)
    ensures ValidConfig(c) && Shape(c, s)
  {
  }

  lemma InTurnIsFair(events: seq<Event>, core: Core, t: nat)
    ensures MovesAfter(InTurn(events), core, t)
  {
    var n := |events| + t;
    var u := 3 * n + (if core == RxCore then 0 else if core == WorkerCore then 1 else 2);
    assert u % 3 == u - 3 * n;
    assert t <= u && CoreOf(InTurn(events)(u)) == core;
  }

  lemma TraceIsFair(c: Config, core: Core, events: seq<Event>)
    requires ValidConfig(c) && Blocked(c, core, Trace(c, events, |events|))
    requires forall t: nat | t < |events| :: TraceMoves(c, events, t)
    ensures FairRun(c, InTurn(events), States(c, events))
  {
    hide Blocked, Reaches, Shape, ValidEvent, Step, InTurn;
    var ev, st := InTurn(events), States(c, events);
    assert st(0) == Init(c);
    hide Trace;
    forall t: nat ensures Moves(c, ev, st, t) {
      if |events| <= t {
        TraceBlocked(c, core, events, t);
        BlockedMoves(c, core, events, t);
      }
      TraceSteps(c, events, t);
    }
    forall t: nat, k: Core ensures MovesAfter(ev, k, t) {
      InTurnIsFair(events, k, t);
    }
  }

  lemma TraceStays(c: Config, core: Core, events: seq<Event>)
    requires Blocked(c, core, Trace(c, events, |events|))
    ensures StaysFrom(States(c, events), core, |events|)
  {
    hide *;
    forall u: nat | |events| <= u ensures SamePlace(core, Trace(c, events, |events|), Trace(c, events, u)) {
      TraceBlocked(c, core, events, u);
    }
    StaysOnTrace(c, core, events);
  }

  lemma StaysOnTrace(c: Config, core: Core, events: seq<Event>)
    requires forall u: nat | |events| <= u :: SamePlace(core, Trace(c, events, |events|), Trace(c, events, u))
    ensures StaysFrom(States(c, events), core, |events|)
  {
    hide SamePlace, Trace;
  }

  /** A reachable state in which a core is blocked is the beginning of a fair run on which it stays so. */
  lemma BlockedSpins(c: Config, core: Core, s: State)
    requires ValidConfig(c) && Reachable(c, s) && Blocked(c, core, s) && Numbered(s)
    ensures CanSpin(c, core) && CanSpinApart(c, core)
  {
    hide Blocked, Reaches, FairRun, StaysFrom, Trace, TraceMoves, States, Numbered, AlwaysApart;
    var events :| Reaches(c, events, s);
    assert events[..|events|] == events;
    TraceFollows(c, events, s, |events|);
    TraceIsFair(c, core, events);
    TraceStays(c, core, events);
    TraceApart(c, events);
    ApartSpins(c, core);
  }

  /** What has been received stays received. */
  lemma ReceivedStays(c: Config, s: State, e: Event)
    requires ValidConfig(c) && Shape(c, s) && ValidEvent(c, s, e)
    ensures Shape(c, Step(c, s, e))
    ensures forall i | 0 <= i < c.nPorts :: s.received[i] <= Step(c, s, e).received[i]
    ensures !e.Rx? || e.burst == [] ==> Step(c, s, e).received == s.received
  {
  }

  lemma NumberedBefore(s: State, s': State)
    requires |s.received| == |s'.received| && forall i | 0 <= i < |s.received| :: s.received[i] <= s'.received[i]
    requires Numbered(s')
    ensures Numbered(s)
  {
    assert forall k | 0 <= k < |s.received[0]| :: s.received[0][k] == s'.received[0][k];
  }

  lemma TraceShape(c: Config, events: seq<Event>, t: nat)
    requires ValidConfig(c)
    ensures Shape(c, Trace(c, events, t))
    decreases t
  {
    if t == 0 {
      InitInv(c);
    } else {
      TraceShape(c, events, t - 1);
      var s, e := Trace(c, events, t - 1), InTurn(events)(t - 1);
      if ValidEvent(c, s, e) {
        ReceivedStays(c, s, e);
      }
    }
  }

  lemma TraceNumbered(c: Config, events: seq<Event>, t: nat)
    requires ValidConfig(c)
    ensures Numbered(Trace(c, events, t + 1)) ==> Numbered(Trace(c, events, t))
    ensures |events| <= t && Numbered(Trace(c, events, t)) ==> Numbered(Trace(c, events, t + 1))
  {
    hide Numbered;
    TraceShape(c, events, t);
    var s, e := Trace(c, events, t), InTurn(events)(t);
    if ValidEvent(c, s, e) {
      ReceivedStays(c, s, e);
      if Numbered(Step(c, s, e)) {
        NumberedBefore(s, Step(c, s, e));
      }
      if |events| <= t {
        SameArrivals(s, Step(c, s, e));
      }
    }
  }

  lemma {:induction false} NumberedDown(c: Config, events: seq<Event>, t: nat, u: nat)
    requires ValidConfig(c) && t <= u && Numbered(Trace(c, events, u))
    ensures Numbered(Trace(c, events, t))
    decreases u
  {
    hide Numbered, Trace;
    if t < u {
      TraceNumbered(c, events, u - 1);
      NumberedDown(c, events, t, u - 1);
    }
  }

  lemma {:induction false} NumberedUp(c: Config, events: seq<Event>, u: nat)
    requires ValidConfig(c) && |events| <= u && Numbered(Trace(c, events, |events|))
    ensures Numbered(Trace(c, events, u))
    decreases u
  {
    hide Numbered, Trace;
    if |events| < u {
      NumberedUp(c, events, u - 1);
      TraceNumbered(c, events, u - 1);
    }
  }

  lemma TraceApart(c: Config, events: seq<Event>)
    requires ValidConfig(c) && Numbered(Trace(c, events, |events|))
    ensures AlwaysApart(States(c, events))
  {
    hide Numbered, Trace, Apart;
    forall u: nat ensures Apart(States(c, events)(u)) {
      if u <= |events| {
        NumberedDown(c, events, u, |events|);
      } else {
        NumberedUp(c, events, u);
      }
      NumberedApart(Trace(c, events, u));
    }
  }

  /** Behind a worker that is stuck, RX fills its ring and is stuck as well. */
  lemma RxBehindWorker(c: Config, s: State) returns (s': State)
    requires WorkerStuck(c, s) && Reachable(c, s) && RxFree(s)
    ensures Reachable(c, s') && Blocked(c, RxCore, s') && Numbered(s')
  {
    hide Reachable, Numbered;
    Receive(c, s, c.ringRxSize - 1);
    var a := Arrived(c, s, c.ringRxSize - 1);
    NumberedNext(s, a, c.ringRxSize - 1);
    var one := Next(a, 1);
    ReachStep(c, a, Rx(one));
    s' := Step(c, a, Rx(one));
    NumberedNext(a, s', 1);
    assert a.ringsTx == s'.ringsTx == s.ringsTx && s'.worker == s.worker && s'.tx == s.tx;
  }

  // ----- the exact conditions -----

  /**
   * RX can spin for ever exactly when one of the two kinds of rings is too small: its own, or the TX rings
   * behind the worker.
   */
  lemma RxSpinIff(c: Config)
    requires ValidConfig(c)
    ensures CanSpin(c, RxCore) <==> !RingsFit(c)
    ensures CanSpinApart(c, RxCore) <==> !RingsFit(c)
  {
    ApartSpins(c, RxCore);
    hide CanSpin, CanSpinApart;
    if RingsFit(c) {
      RxMoves(c);
    } else if !RxRingFits(c) {
      var s := ReachRxStuck(c);
      BlockedSpins(c, RxCore, s);
    } else {
      var s := ReachStuck(c);
      s := RxBehindWorker(c, s);
      BlockedSpins(c, RxCore, s);
    }
  }

  /** The worker can spin for ever exactly when the TX rings are too small and it can get hold of a burst at all. */
  lemma WorkerSpinIff(c: Config)
    requires ValidConfig(c)
    ensures CanSpin(c, WorkerCore) <==> !TxRingFits(c) && c.workerRead <= c.ringRxSize - 1
    ensures CanSpinApart(c, WorkerCore) <==> !TxRingFits(c) && c.workerRead <= c.ringRxSize - 1
  {
    ApartSpins(c, WorkerCore);
    hide CanSpinApart;
    if TxRingFits(c) {
      WorkerMoves(c);
    } else if c.workerRead <= c.ringRxSize - 1 {
      var s := ReachStuck(c);
      BlockedSpins(c, WorkerCore, s);
    } else if CanSpin(c, WorkerCore) {
      var ev: nat -> Event, st: nat -> State, t: nat :| FairRun(c, ev, st) && StaysFrom(st, WorkerCore, t);
      var u := NextMove(c, ev, st, WorkerCore, t);
      StaysBlocked(c, ev, st, WorkerCore, t, u);
      HeldFitted(c, ev, st, u);
    }
  }

  /** No core ever spins for ever, on any fair run, exactly when both kinds of rings fit. */
  lemma NoSpinIff(c: Config)
    requires ValidConfig(c)
    ensures (forall core: Core :: !CanSpin(c, core)) <==>
            && c.rxRead + c.workerRead <= c.ringRxSize
            && c.workerWrite + c.txRead - Divisors.Gcd(c.workerWrite, c.txRead) < c.ringTxSize
    ensures (forall core: Core :: !CanSpinApart(c, core)) <==> RingsFit(c)
  {
    RxSpinIff(c);
    WorkerSpinIff(c);
    TxNeverSpins(c);
    ApartSpins(c, TxCore);
    hide CanSpin, CanSpinApart, Divisors.Gcd;
    forall core: Core ensures RingsFit(c) ==> !CanSpin(c, core) && !CanSpinApart(c, core) {
      match core
      case RxCore =>
      case WorkerCore =>
      case TxCore =>
    }
  }
}
