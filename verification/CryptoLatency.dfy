/**
 * The crypto latency runner: every accepted operation gets the next result slot through a pointer
 * kept in the operation object, refused operations go straight back to the pool, and operation
 * objects are recycled while slots are not.
 */
module CryptoLatency {
  import opened Devices

  datatype Slot = Slot(tscStart: nat, tscEnd: nat)

  /** One turn of the runner: the device's behaviour and the two clock readings around it. */
  datatype TimedTurn = TimedTurn(device: Turn, tscStart: nat, tscEnd: nat)

  /** The clock never runs backwards. */
  ghost predicate Monotone(turns: seq<TimedTurn>) {
    && (forall i | 0 <= i < |turns| :: turns[i].tscStart <= turns[i].tscEnd)
    && (forall i, j | 0 <= i < j < |turns| :: turns[i].tscEnd <= turns[j].tscStart)
  }

  /** What the device does in these turns. */
  ghost function DeviceTurns(turns: seq<TimedTurn>): (s: seq<Turn>)
    ensures |s| == |turns| && forall i | 0 <= i < |turns| :: s[i] == turns[i].device
  {
    seq(|turns|, i requires 0 <= i < |turns| => turns[i].device)
  }

  function Elements(ops: seq<OpId>): set<OpId> {
    set x | x in ops
  }

  function InFlight(ops: multiset<OpId>): set<OpId> {
    set x | x in ops
  }

  /** A write to a slot: on behalf of which submission, after which of the calls to the device. */
  datatype Stamp = Stamp(submission: nat, call: nat)

  /** Operation `x` was taken as number `k`, and not again after that. */
  ghost predicate Latest(taken: seq<OpId>, x: OpId, k: nat) {
    k < |taken| && taken[k] == x && forall j | k < j < |taken| :: taken[j] != x
  }

  /** The device took its `k`-th operation in call `p`. */
  ghost predicate TakenIn(calls: seq<Call>, k: nat, p: nat) {
    p < |calls| && calls[p].Enq? && |Taken(calls[..p])| <= k < |Taken(calls[..p + 1])|
  }

  /** The `k`-th operation came back in call `p`, where the operation had not been taken a second time since. */
  ghost predicate BackIn(calls: seq<Call>, k: nat, p: nat) {
    && p < |calls| && calls[p].Deq? && k < |Taken(calls[..p])|
    && Taken(calls[..p])[k] in calls[p].back && Latest(Taken(calls[..p]), Taken(calls[..p])[k], k)
  }

  /** Slot `k` was started once, with the time of the call that took submission `k`. */
  ghost predicate Started(stamps: seq<Stamp>, k: nat, slot: Slot, calls: seq<Call>, times: seq<nat>) {
    && |stamps| == 1 && stamps[0].submission == k && TakenIn(calls, k, stamps[0].call)
    && stamps[0].call < |times| && slot.tscStart == times[stamps[0].call]
  }

  /** Slot `k` was ended once, with the time of the call in which that operation came back. */
  ghost predicate Ended(stamps: seq<Stamp>, k: nat, slot: Slot, calls: seq<Call>, times: seq<nat>) {
    && |stamps| == 1 && stamps[0].submission == k && BackIn(calls, k, stamps[0].call)
    && stamps[0].call < |times| && slot.tscEnd == times[stamps[0].call]
  }

  /**
   * The slots, against the operations `held` by the device or waiting to be time-stamped, and
   * against the calls to the device and the clock readings that belong to them. `submission`
   * numbers what the device accepted, and `open` is its inverse on what is held. `started` and
   * `ended` record the writes to each slot. Each slot below `n` has been started once, for the
   * submission of that number; it is open, and its operation points back to it, or it has been
   * ended once, for the same submission.
   */
  ghost predicate Tracked(held: set<OpId>, open: map<nat, OpId>, n: nat, slotOf: map<OpId, nat>,
                          submission: map<OpId, nat>, res: seq<Slot>, started: seq<seq<Stamp>>,
                          ended: seq<seq<Stamp>>, calls: seq<Call>, times: seq<nat>) {
    && n <= |res| == |started| == |ended| && |calls| == |times|
    && (forall x | x in held :: x in submission && submission[x] in open && open[submission[x]] == x)
    && (forall x | x in held :: Latest(Taken(calls), x, submission[x]))
    && (forall k | k in open :: k < n && open[k] in held && open[k] in submission && submission[open[k]] == k)
    && (forall k | k in open :: open[k] in slotOf && slotOf[open[k]] == k && ended[k] == [])
    && (forall k | 0 <= k < n :: Started(started[k], k, res[k], calls, times))
    && (forall k | 0 <= k < n && k !in open :: Ended(ended[k], k, res[k], calls, times))
    && (forall k | n <= k < |res| :: started[k] == [] && ended[k] == [])
  }

  /** Submission numbers for the operations just accepted. */
  ghost function Numbered(submission: map<OpId, nat>, took: seq<OpId>, from: nat): map<OpId, nat> {
    if took == [] then submission else Numbered(submission, took[1..], from + 1)[took[0] := from]
  }

  lemma {:induction false} NumberedAt(submission: map<OpId, nat>, took: seq<OpId>, from: nat)
    requires forall i, j | 0 <= i < j < |took| :: took[i] != took[j]
    ensures forall i | 0 <= i < |took| ::
              took[i] in Numbered(submission, took, from) && Numbered(submission, took, from)[took[i]] == from + i
    ensures forall x | x !in took && x in submission ::
              x in Numbered(submission, took, from) && Numbered(submission, took, from)[x] == submission[x]
  {
    if took != [] {
      NumberedAt(submission, took[1..], from + 1);
      forall i | 0 < i < |took|
        ensures took[i] in Numbered(submission, took, from) && Numbered(submission, took, from)[took[i]] == from + i
      {
        assert took[i] == took[1..][i - 1];
      }
    }
  }

  lemma NothingTracked(slotOf: map<OpId, nat>, submission: map<OpId, nat>, res: seq<Slot>)
    ensures Tracked(InFlight(multiset{}), map[], 0, slotOf, submission, res, seq(|res|, _ => []), seq(|res|, _ => []),
                    [], [])
  {
  }

  /** Submission `n` starts slot `n`. */
  lemma TrackedStart(held: set<OpId>, open: map<nat, OpId>, n: nat, slotOf: map<OpId, nat>,
                     submission: map<OpId, nat>, res: seq<Slot>, started: seq<seq<Stamp>>, ended: seq<seq<Stamp>>,
                     calls: seq<Call>, times: seq<nat>, x: OpId, p: nat)
    requires Tracked(held, open, n, slotOf, submission, res, started, ended, calls, times)
    requires n < |res| && x !in held && x in submission && submission[x] == n
    requires Latest(Taken(calls), x, n) && p < |calls| && TakenIn(calls, n, p)
    ensures Tracked(held + {x}, open[n := x], n + 1, slotOf[x := n], submission,
                    res[n := res[n].(tscStart := times[p])], started[n := started[n] + [Stamp(n, p)]], ended,
                    calls, times)
  {
    hide Latest, TakenIn, BackIn, Taken;
  }

  /** Time-stamping a held operation ends the slot of its own submission. */
  lemma TrackedEnd(held: set<OpId>, open: map<nat, OpId>, n: nat, slotOf: map<OpId, nat>,
                   submission: map<OpId, nat>, res: seq<Slot>, started: seq<seq<Stamp>>, ended: seq<seq<Stamp>>,
                   calls: seq<Call>, times: seq<nat>, x: OpId, p: nat)
    requires Tracked(held, open, n, slotOf, submission, res, started, ended, calls, times) && x in held
    requires p < |calls| && BackIn(calls, submission[x], p)
    ensures var k := slotOf[x];
            Tracked(held - {x}, open - {k}, n, slotOf, submission,
                    res[k := res[k].(tscEnd := times[p])], started, ended[k := ended[k] + [Stamp(submission[x], p)]],
                    calls, times)
  {
    hide Latest, TakenIn, BackIn, Taken;
  }

  /** What has been recorded of the calls so far stays right when there is one more. */
  lemma TrackedCall(held: set<OpId>, open: map<nat, OpId>, n: nat, slotOf: map<OpId, nat>,
                    submission: map<OpId, nat>, res: seq<Slot>, started: seq<seq<Stamp>>, ended: seq<seq<Stamp>>,
                    calls: seq<Call>, times: seq<nat>, c: Call, tsc: nat)
    requires Tracked(held, open, n, slotOf, submission, res, started, ended, calls, times)
    requires forall x | x in Takes(c) :: x !in held
    ensures Tracked(held, open, n, slotOf, submission, res, started, ended, calls + [c], times + [tsc])
  {
    hide Latest, TakenIn, BackIn, Taken;
    forall x | x in held ensures Latest(Taken(calls + [c]), x, submission[x]) {
      LatestCall(calls, c, x, submission[x]);
    }
    forall k | 0 <= k < n ensures Started(started[k], k, res[k], calls + [c], times + [tsc]) {
      TakenInCall(calls, c, k, started[k][0].call);
    }
    forall k | 0 <= k < n && k !in open ensures Ended(ended[k], k, res[k], calls + [c], times + [tsc]) {
      BackInCall(calls, c, k, ended[k][0].call);
    }
  }

  lemma LatestCall(calls: seq<Call>, c: Call, x: OpId, k: nat)
    requires Latest(Taken(calls), x, k) && x !in Takes(c)
    ensures Latest(Taken(calls + [c]), x, k)
  {
    CallsNext(calls, c);
  }

  lemma TakenInCall(calls: seq<Call>, c: Call, k: nat, p: nat)
    requires TakenIn(calls, k, p)
    ensures TakenIn(calls + [c], k, p)
  {
    assert (calls + [c])[..p] == calls[..p] && (calls + [c])[..p + 1] == calls[..p + 1];
  }

  lemma BackInCall(calls: seq<Call>, c: Call, k: nat, p: nat)
    requires BackIn(calls, k, p)
    ensures BackIn(calls + [c], k, p)
  {
    assert (calls + [c])[..p] == calls[..p];
  }

  /** Operation `x` was submission `k`, accepted by the last call but one. */
  ghost predicate AcceptedAs(calls: seq<Call>, x: OpId, k: nat) {
    |calls| >= 2 && Latest(Taken(calls), x, k) && TakenIn(calls, k, |calls| - 2)
  }

  /** What the last call but one accepted, as the submissions from `first` on. */
  ghost predicate Accepted(calls: seq<Call>, xs: seq<OpId>, first: nat) {
    forall i | 0 <= i < |xs| :: AcceptedAs(calls, xs[i], first + i)
  }

  lemma AcceptedNow(calls: seq<Call>, offered: seq<OpId>, n: nat, deq: Call)
    requires n <= |offered| && !deq.Enq? && forall i, j | 0 <= i < j < n :: offered[i] != offered[j]
    ensures Accepted(calls + [Enq(offered, n)] + [deq], offered[..n], |Taken(calls)|)
  {
    hide Taken, Latest;
    var middle := calls + [Enq(offered, n)];
    var after := middle + [deq];
    var xs, first := offered[..n], |Taken(calls)|;
    CallsNext(calls, Enq(offered, n));
    CallsNext(middle, deq);
    assert after[..|calls|] == calls && after[..|calls| + 1] == middle && after[|calls|] == Enq(offered, n);
    assert Takes(Enq(offered, n)) == xs && Taken(middle) == Taken(calls) + xs && Taken(after) == Taken(calls) + xs;
    hide Accepted, TakenIn;
    AcceptedAll(after, xs, Taken(calls));
  }

  lemma AcceptedAll(calls: seq<Call>, xs: seq<OpId>, taken: seq<OpId>)
    requires |calls| >= 2 && calls[|calls| - 2].Enq? && forall i, j | 0 <= i < j < |xs| :: xs[i] != xs[j]
    requires Taken(calls[..|calls| - 2]) == taken && Taken(calls[..|calls| - 2 + 1]) == taken + xs
    requires Taken(calls) == taken + xs
    ensures Accepted(calls, xs, |taken|)
  {
    hide AcceptedAs;
    forall i | 0 <= i < |xs| ensures AcceptedAs(calls, xs[i], |taken| + i) {
      AcceptedOne(calls, xs, taken, i);
    }
  }

  lemma AcceptedOne(calls: seq<Call>, xs: seq<OpId>, taken: seq<OpId>, i: nat)
    requires |calls| >= 2 && calls[|calls| - 2].Enq? && forall i, j | 0 <= i < j < |xs| :: xs[i] != xs[j]
    requires Taken(calls[..|calls| - 2]) == taken && Taken(calls[..|calls| - 2 + 1]) == taken + xs
    requires Taken(calls) == taken + xs && i < |xs|
    ensures AcceptedAs(calls, xs[i], |taken| + i)
  {
    hide Taken, Latest;
    LatestFresh(taken, xs, i);
  }

  lemma LatestFresh(taken: seq<OpId>, xs: seq<OpId>, i: nat)
    requires i < |xs| && forall j, k | 0 <= j < k < |xs| :: xs[j] != xs[k]
    ensures Latest(taken + xs, xs[i], |taken| + i)
  {
    var all := taken + xs;
    forall j | |taken| + i < j < |all| ensures all[j] != xs[i] {
      assert all[j] == xs[j - |taken|];
    }
  }

  /** An operation that is given back by the last call is given back as the submission that it was last. */
  lemma BackNow(calls: seq<Call>, x: OpId, k: nat)
    requires |calls| > 0 && calls[|calls| - 1].Deq? && x in calls[|calls| - 1].back && Latest(Taken(calls), x, k)
    ensures BackIn(calls, k, |calls| - 1)
  {
    hide Taken, Latest;
    var last := |calls| - 1;
    CallsNext(calls[..last], calls[last]);
    assert calls[..last] + [calls[last]] == calls;
    assert Taken(calls[..last]) == Taken(calls);
    assert Taken(calls)[k] == x by {
      LatestAt(Taken(calls), x, k);
    }
  }

  lemma LatestAt(taken: seq<OpId>, x: OpId, k: nat)
    requires Latest(taken, x, k)
    ensures k < |taken| && taken[k] == x
  {
  }

  // ----- the clock readings, call by call -----

  /** The reading that belongs to call `p`: the one before an enqueue call, the one after a dequeue call. */
  ghost function Reading(turns: seq<TimedTurn>, m: nat, p: nat): nat
    requires m <= |turns| && p < m + |turns|
  {
    if p < 2 * m then (if p % 2 == 0 then turns[p / 2].tscStart else turns[p / 2].tscEnd) else turns[p - m].tscEnd
  }

  ghost predicate Timed(times: seq<nat>, turns: seq<TimedTurn>, m: nat, used: nat) {
    m <= used <= |turns| && |times| == m + used && forall p | 0 <= p < |times| :: times[p] == Reading(turns, m, p)
  }

  lemma TimedExchange(times: seq<nat>, turns: seq<TimedTurn>, m: nat)
    requires Timed(times, turns, m, m) && m < |turns|
    ensures Timed(times + [turns[m].tscStart] + [turns[m].tscEnd], turns, m + 1, m + 1)
  {
  }

  lemma TimedDrain(times: seq<nat>, turns: seq<TimedTurn>, m: nat, used: nat)
    requires Timed(times, turns, m, used) && used < |turns|
    ensures Timed(times + [turns[used].tscEnd], turns, m, used + 1)
  {
  }

  /**
   * A slot as it should be: it holds the time read before the call that took submission `k`, which
   * was in turn `u`, and the time read after the call in which that operation came back, in turn `v`.
   */
  ghost predicate Measured(slot: Slot, k: nat, turns: seq<TimedTurn>, calls: seq<Call>, m: nat, u: nat, v: nat) {
    && u < m && u <= v < |turns| && slot == Slot(turns[u].tscStart, turns[v].tscEnd)
    && TakenIn(calls, k, 2 * u) && BackIn(calls, k, if v < m then 2 * v + 1 else m + v)
  }

  /** As it should be, for turns among the first `used`. */
  ghost predicate Exact(slot: Slot, k: nat, turns: seq<TimedTurn>, calls: seq<Call>, m: nat, used: nat) {
    exists u: nat, v: nat :: v < used && Measured(slot, k, turns, calls, m, u, v)
  }

  /** Times of an operation that was taken in call `p` and came back in call `q`. */
  lemma Measures(slot: Slot, k: nat, turns: seq<TimedTurn>, calls: seq<Call>, times: seq<nat>, m: nat, used: nat,
                 size: nat, total: nat, start: seq<Stamp>, end: seq<Stamp>) returns (u: nat, v: nat)
    requires Timed(times, turns, m, used) && Talk(calls, DeviceTurns(turns), total, size, m, used)
    requires Started(start, k, slot, calls, times) && Ended(end, k, slot, calls, times)
    ensures v < used && Measured(slot, k, turns, calls, m, u, v)
  {
    hide Talk, Taken, Latest;
    TalkShape(calls, DeviceTurns(turns), total, size, m, used);
    var p, q := start[0].call, end[0].call;
    TakenFirst(calls, k, p, q);
    u, v := p / 2, if q < 2 * m then q / 2 else q - m;
  }

  lemma TakenFirst(calls: seq<Call>, k: nat, p: nat, q: nat)
    requires TakenIn(calls, k, p) && BackIn(calls, k, q)
    ensures p < q
  {
    hide Taken, Latest;
    if q <= p {
      assert calls[..p][..q] == calls[..q];
      TakenGrows(calls[..p], q);
    }
  }

  lemma {:induction false} TakenGrows(calls: seq<Call>, q: nat)
    requires q <= |calls|
    ensures |Taken(calls[..q])| <= |Taken(calls)|
  {
    if q < |calls| {
      TakenGrows(calls[..|calls| - 1], q);
      assert calls[..|calls| - 1][..q] == calls[..q];
    } else {
      assert calls[..q] == calls;
    }
  }

  /** Refused operations and processed ones go back to the pool, accepted ones stay with the device until then. */
  lemma AccountExchange(all: set<OpId>, free: multiset<OpId>, took: seq<OpId>, refused: seq<OpId>,
                        inflight: multiset<OpId>, inflight': multiset<OpId>, done: seq<OpId>)
    requires free + multiset(took + refused) + inflight == multiset(all)
    requires inflight' + multiset(done) == inflight + multiset(took)
    ensures free + multiset(refused) + multiset(done) + inflight' == multiset(all)
    ensures |inflight'| + |done| == |inflight| + |took|
  {
    assert |inflight' + multiset(done)| == |inflight + multiset(took)|;
    assert multiset(took + refused) == multiset(took) + multiset(refused);
    assert free + multiset(refused) + multiset(done) + inflight' ==
           free + multiset(refused) + (inflight + multiset(took));
  }

  /** A sequence of operations beside a multiset of others, all different. */
  ghost predicate Apart(xs: seq<OpId>, others: set<OpId>) {
    && (forall i | 0 <= i < |xs| :: xs[i] !in others)
    && (forall i, j | 0 <= i < j < |xs| :: xs[i] != xs[j])
  }

  lemma ApartWhenAccounted(all: set<OpId>, xs: seq<OpId>, others: multiset<OpId>)
    requires multiset(xs) + others <= multiset(all)
    ensures Apart(xs, InFlight(others))
  {
    DistinctSeq(xs, all);
    forall i | 0 <= i < |xs| ensures xs[i] !in others {
      assert xs[i] in multiset(xs);
      assert multiset(all)[xs[i]] <= 1;
    }
  }

  lemma SameOperations(inflight: multiset<OpId>, took: seq<OpId>, inflight': multiset<OpId>, done: seq<OpId>)
    requires inflight' + multiset(done) == inflight + multiset(took)
    ensures InFlight(inflight') + Elements(done) == InFlight(inflight) + Elements(took)
  {
    forall x ensures x in InFlight(inflight') + Elements(done) <==> x in InFlight(inflight) + Elements(took) {
      assert x in inflight' + multiset(done) <==> x in inflight + multiset(took);
    }
  }

  class Runner {
    const pool: Mempool
    const dev: Device
    const ops: array<OpId>
    const res: array<Slot>
    /** The result pointer in the private data of each operation object. */
    var slotOf: map<OpId, nat>
    var tscIdx: nat
    var enqd: nat
    var deqd: nat
    ghost var submission: map<OpId, nat>
    ghost var open: map<nat, OpId>
    ghost var started: seq<seq<Stamp>>
    ghost var ended: seq<seq<Stamp>>
    /** The calls to the device since the run began, and the clock readings that belong to them. */
    ghost var calls: seq<Call>
    ghost var times: seq<nat>

    constructor (pool: Mempool, dev: Device, maxBurst: nat, totalOps: nat)
      ensures this.pool == pool && this.dev == dev && fresh(ops) && fresh(res) && ops.Length == maxBurst
              && res.Length == totalOps
    {
      this.pool, this.dev := pool, dev;
      ops, res := new OpId[maxBurst], new Slot[totalOps](_ => Slot(0, 0));
      slotOf, tscIdx, enqd, deqd := map[], 0, 0, 0;
      submission, open, started, ended, calls, times := map[], map[], [], [], [], [];
    }

    ghost predicate Slots(held: set<OpId>)
      reads this`open, this`tscIdx, this`slotOf, this`submission, this`started, this`ended, this`calls, this`times, res
    {
      Tracked(held, open, tscIdx, slotOf, submission, res[..], started, ended, calls, times)
    }

    /** The counters are those of the calls. */
    ghost predicate Counted()
      reads this`calls, this`enqd, this`deqd, dev
    {
      Talked(calls, dev.inflight, enqd, deqd)
    }

    /** Between turns: every operation is free or in flight, the counters agree, and the slots are tracked. */
    ghost predicate Valid(all: set<OpId>)
      reads this, pool, dev, res
    {
      && pool.free + dev.inflight == multiset(all)
      && enqd == tscIdx <= res.Length
      && Counted() && Slots(InFlight(dev.inflight))
    }

    lemma Sizes(held: set<OpId>)
      requires Slots(held)
      ensures |started| == |ended| == res.Length && |calls| == |times|
      ensures forall x | x in held ::
                x in slotOf && x in submission && slotOf[x] == submission[x] < tscIdx <= res.Length
      ensures forall x | x in held :: Latest(Taken(calls), x, submission[x])
    {
      hide Latest, Started, Ended, Taken;
      forall x | x in held ensures x in slotOf && x in submission && slotOf[x] == submission[x] < tscIdx {
        assert open[submission[x]] == x;
      }
    }

    /** Gives the accepted operations their submission numbers. */
    ghost method Number(xs: seq<OpId>, held: set<OpId>)
      requires Slots(held) && Apart(xs, held)
      modifies this`submission
      ensures Slots(held)
      ensures forall i | 0 <= i < |xs| :: xs[i] in submission && submission[xs[i]] == tscIdx + i
    {
      hide Latest, Started, Ended, Taken;
      NumberedAt(submission, xs, tscIdx);
      submission := Numbered(submission, xs, tscIdx);
    }

    /** One more call, with the clock reading that belongs to it; it takes nothing that is `held`. */
    ghost method Note(c: Call, tsc: nat, held: set<OpId>)
      requires Slots(held) && forall x | x in Takes(c) :: x !in held
      modifies this`calls, this`times
      ensures Slots(held) && calls == old(calls) + [c] && times == old(times) + [tsc]
    {
      TrackedCall(held, open, tscIdx, slotOf, submission, res[..], started, ended, calls, times, c, tsc);
      calls, times := calls + [c], times + [tsc];
    }

    /** The loop that hands the next slots to the accepted operations. */
    method StartSlots(took: nat, tsc: nat, ghost held: set<OpId>)
      requires took <= ops.Length && tscIdx + took <= res.Length
      requires Slots(held) && Apart(ops[..took], held)
      requires forall i | 0 <= i < took :: ops[i] in submission && submission[ops[i]] == tscIdx + i
      requires |calls| >= 2 && Accepted(calls, ops[..took], tscIdx) && |calls| == |times| && tsc == times[|calls| - 2]
      modifies this`slotOf, this`tscIdx, this`started, this`open, res
      ensures Slots(held + Elements(ops[..took])) && tscIdx == old(tscIdx) + took
    {
      hide Tracked, Latest, TakenIn, Taken;
      ghost var first, xs := tscIdx, ops[..took];
      var i := 0;
      assert held + Elements(xs[..0]) == held;
      while i < took
        invariant i <= took && tscIdx == first + i
        invariant Slots(held + Elements(xs[..i]))
      {
        ghost var had, before, x := held + Elements(xs[..i]), res[..], xs[i];
        assert x !in had;
        Sizes(had);
        TrackedStart(had, open, tscIdx, slotOf, submission, before, started, ended, calls, times, x, |calls| - 2);
        started := started[tscIdx := started[tscIdx] + [Stamp(submission[x], |calls| - 2)]];
        open := open[tscIdx := x];
        res[tscIdx] := res[tscIdx].(tscStart := tsc);
        slotOf := slotOf[ops[i] := tscIdx];
        tscIdx := tscIdx + 1;
        assert res[..] == before[tscIdx - 1 := before[tscIdx - 1].(tscStart := tsc)];
        assert xs[..i + 1] == xs[..i] + [x];
        assert held + Elements(xs[..i + 1]) == had + {x};
        i := i + 1;
      }
      assert xs[..i] == xs;
    }

    /** `store_timestamp` on every operation the device returned. */
    method EndSlots(done: seq<OpId>, tsc: nat, ghost kept: set<OpId>)
      requires Slots(kept + Elements(done)) && Apart(done, kept)
      requires |calls| == |times| > 0 && calls[|calls| - 1].Deq? && calls[|calls| - 1].back == done
      requires tsc == times[|calls| - 1]
      modifies this`ended, this`open, res
      ensures Slots(kept)
    {
      hide Tracked, Latest, BackIn, Taken;
      var i := 0;
      assert done[0..] == done;
      while i < |done|
        invariant i <= |done|
        invariant Slots(kept + Elements(done[i..]))
      {
        ghost var had := kept + Elements(done[i..]);
        assert done[i..] == [done[i]] + done[i + 1..];
        assert done[i] !in done[i + 1..];
        assert had - {done[i]} == kept + Elements(done[i + 1..]);
        EndSlot(done[i], tsc, had);
        i := i + 1;
      }
      assert kept + Elements(done[i..]) == kept;
    }

    /** `store_timestamp` */
    method EndSlot(x: OpId, tsc: nat, ghost had: set<OpId>)
      requires Slots(had) && x in had
      requires |calls| == |times| > 0 && calls[|calls| - 1].Deq? && x in calls[|calls| - 1].back
      requires tsc == times[|calls| - 1]
      modifies this`ended, this`open, res
      ensures Slots(had - {x})
    {
      hide Tracked, Latest, BackIn, Taken;
      ghost var before := res[..];
      Sizes(had);
      BackNow(calls, x, submission[x]);
      TrackedEnd(had, open, tscIdx, slotOf, submission, before, started, ended, calls, times, x, |calls| - 1);
      var k := slotOf[x];
      ended := ended[k := ended[k] + [Stamp(submission[x], |calls| - 1)]];
      open := open - {k};
      res[k] := res[k].(tscEnd := tsc);
      assert res[..] == before[k := before[k].(tscEnd := tsc)];
    }

    /** Enqueues and dequeues once and puts refused operations back into the pool. */
    method Turnaround(burst: nat, size: nat, turn: Turn, ghost all: set<OpId>, ghost offered: seq<OpId>)
        returns (took: nat, done: seq<OpId>)
      requires burst <= ops.Length && offered == ops[..burst]
      requires pool.free + multiset(offered) + dev.inflight == multiset(all)
      modifies pool, dev
      ensures took <= burst && ops[..took] == offered[..took]
      ensures took == Min(turn.accepts, burst) && |done| == Min(Min(size, turn.gives), |old(dev.inflight)| + took)
      ensures dev.log == old(dev.log) + [Enq(offered, took)] + [Deq(size, done)]
      ensures dev.inflight + multiset(done) == old(dev.inflight) + multiset(offered[..took])
      ensures pool.free == old(pool.free) + multiset(offered[took..])
      ensures pool.free + multiset(done) + dev.inflight == multiset(all)
      ensures Apart(offered[..took], InFlight(old(dev.inflight))) && Apart(done, InFlight(dev.inflight))
      ensures InFlight(dev.inflight) + Elements(done) == InFlight(old(dev.inflight)) + Elements(offered[..took])
    {
      hide InFlight, Elements, Apart;
      ghost var free, inflight := pool.free, dev.inflight;
      took := dev.EnqueueBurst(ops[..burst], turn.accepts);
      done := dev.DequeueBurst(size, turn.gives);
      ghost var xs, refused := offered[..took], offered[took..];
      assert offered == xs + refused && ops[took..burst] == refused;
      assert multiset(xs) + inflight <= multiset(all);
      AccountExchange(all, free, xs, refused, inflight, dev.inflight, done);
      ApartWhenAccounted(all, xs, inflight);
      ApartWhenAccounted(all, done, dev.inflight);
      SameOperations(inflight, xs, dev.inflight, done);
      pool.PutBulk(ops[took..burst]);
    }

    /**
     * One turn: exchange operations with the device, hand out slots, and stamp and free what came
     * back. The enqueue call belongs to the first clock reading, the dequeue call to the second.
     */
    method Exchange(burst: nat, size: nat, turn: TimedTurn, ghost all: set<OpId>)
        returns (ghost enq: Call, ghost deq: Call)
      requires burst <= ops.Length && enqd < res.Length && enqd + burst <= res.Length
               && burst == Min(size, res.Length - enqd)
      requires pool.free + multiset(ops[..burst]) + dev.inflight == multiset(all)
      requires enqd == tscIdx && Talked(calls, dev.inflight, enqd, deqd) && Slots(InFlight(dev.inflight))
      modifies this, pool, dev, res
      ensures Valid(all) && enqd == old(enqd) + Min(turn.device.accepts, burst)
      ensures Exchanged(old(calls), enq, deq, turn.device, res.Length, size)
      ensures calls == old(calls) + [enq] + [deq] && dev.log == old(dev.log) + [enq] + [deq]
      ensures times == old(times) + [turn.tscStart] + [turn.tscEnd]
    {
      hide Min, Slots, Talked, Apart, InFlight, Elements, Exchanged, Taken, Given;
      ghost var inflight, offered := dev.inflight, ops[..burst];
      var took, done := Turnaround(burst, size, turn.device, all, offered);
      enq, deq := Enq(offered, took), Deq(size, done);
      Settle(inflight, offered, took, size, done, turn);
      pool.PutBulk(done);
    }

    /** The runner's part of a turn: slots, stamps and counters. */
    method Settle(ghost inflight: multiset<OpId>, ghost offered: seq<OpId>, took: nat, ghost size: nat,
                  done: seq<OpId>, turn: TimedTurn)
      requires Talked(calls, inflight, enqd, deqd) && enqd == tscIdx && enqd < res.Length && took <= ops.Length
      requires |offered| == Min(size, res.Length - enqd) && took == Min(turn.device.accepts, |offered|)
      requires ops[..took] == offered[..took]
      requires dev.inflight + multiset(done) == inflight + multiset(offered[..took])
      requires |done| == Min(Min(size, turn.device.gives), |inflight| + took)
      requires Slots(InFlight(inflight)) && Apart(offered[..took], InFlight(inflight))
      requires Apart(done, InFlight(dev.inflight))
      requires InFlight(dev.inflight) + Elements(done) == InFlight(inflight) + Elements(offered[..took])
      modifies this, res
      ensures enqd == tscIdx == old(enqd) + took && Slots(InFlight(dev.inflight))
      ensures Talked(calls, dev.inflight, enqd, deqd)
      ensures calls == old(calls) + [Enq(offered, took)] + [Deq(size, done)]
      ensures times == old(times) + [turn.tscStart] + [turn.tscEnd]
      ensures Exchanged(old(calls), Enq(offered, took), Deq(size, done), turn.device, res.Length, size)
    {
      hide Slots, Apart, InFlight, Elements, Exchanged, Talked, Accepted;
      assert forall i | 0 <= i < took :: ops[i] == offered[i] by {
        assert forall i | 0 <= i < took :: ops[i] == ops[..took][i] == offered[..took][i];
      }
      Register(inflight, size, done, offered, took, Enq(offered, took), Deq(size, done), turn, InFlight(inflight));
      StampSlots(took, done, turn, InFlight(inflight));
      deqd := deqd + |done|;
      enqd := enqd + took;
    }

    /** Slots for what was accepted, then time stamps for what came back. */
    method StampSlots(took: nat, done: seq<OpId>, turn: TimedTurn, ghost held: set<OpId>)
      requires took <= ops.Length && tscIdx + took <= res.Length
      requires Slots(held) && Apart(ops[..took], held) && Apart(done, InFlight(dev.inflight))
      requires InFlight(dev.inflight) + Elements(done) == held + Elements(ops[..took])
      requires forall i | 0 <= i < took :: ops[i] in submission && submission[ops[i]] == tscIdx + i
      requires |calls| >= 2 && Accepted(calls, ops[..took], tscIdx) && |calls| == |times|
               && turn.tscStart == times[|calls| - 2]
      requires calls[|calls| - 1].Deq? && calls[|calls| - 1].back == done && turn.tscEnd == times[|calls| - 1]
      modifies this`slotOf, this`tscIdx, this`started, this`ended, this`open, res
      ensures Slots(InFlight(dev.inflight)) && tscIdx == old(tscIdx) + took
    {
      hide Tracked, Taken, Latest, TakenIn, Apart, InFlight, Elements;
      StartSlots(took, turn.tscStart, held);
      EndSlots(done, turn.tscEnd, InFlight(dev.inflight));
    }

    /** Notes the two calls of a turn and numbers what was accepted. */
    ghost method Register(inflight: multiset<OpId>, size: nat, done: seq<OpId>, offered: seq<OpId>, took: nat,
                          enq: Call, deq: Call, turn: TimedTurn, held: set<OpId>)
      requires Talked(calls, inflight, enqd, deqd) && enqd == tscIdx && enqd < res.Length
      requires |offered| == Min(size, res.Length - enqd) && took == Min(turn.device.accepts, |offered|)
      requires dev.inflight + multiset(done) == inflight + multiset(offered[..took])
      requires |done| == Min(Min(size, turn.device.gives), |inflight| + took)
      requires enq == Enq(offered, took) && deq == Deq(size, done) && Slots(held) && Apart(offered[..took], held)
      modifies this`calls, this`times, this`submission
      ensures Slots(held) && calls == old(calls) + [enq] + [deq]
      ensures times == old(times) + [turn.tscStart] + [turn.tscEnd] && |calls| == |times|
      ensures Accepted(calls, offered[..took], tscIdx)
      ensures forall i | 0 <= i < took :: offered[i] in submission && submission[offered[i]] == tscIdx + i
      ensures Talked(calls, dev.inflight, enqd + took, deqd + |done|)
      ensures Exchanged(old(calls), enq, deq, turn.device, res.Length, size)
    {
      hide Tracked, Accepted, Taken, Given, Talked, Exchanged;
      ghost var xs := offered[..took];
      assert forall i | 0 <= i < took :: xs[i] == offered[i];
      CountsOf(calls, inflight, enqd, deqd);
      Spoken(calls, inflight, enqd, deqd, offered, took, size, turn.device, res.Length, done, dev.inflight);
      AcceptedNow(calls, offered, took, deq);
      Note(enq, turn.tscStart, held);
      Note(deq, turn.tscEnd, held);
      Number(xs, held);
      Sizes(held);
    }

    method Reset(ghost all: set<OpId>)
      requires pool.free == multiset(all) && dev.inflight == multiset{}
      modifies this
      ensures Valid(all) && enqd == 0 && calls == [] && times == []
    {
      hide Tracked, InFlight, Talked;
      tscIdx, enqd, deqd := 0, 0, 0;
      started, ended, open := seq(res.Length, _ => []), seq(res.Length, _ => []), map[];
      calls, times := [], [];
      TalkedNothing();
      NothingTracked(slotOf, submission, res[..]);
    }

    /** Nothing in flight and everything enqueued: every slot is complete. */
    lemma AllEnded(all: set<OpId>)
      requires Valid(all) && deqd == enqd == res.Length
      ensures dev.inflight == multiset{} && pool.free == multiset(all)
      ensures |started| == |ended| == res.Length
      ensures forall k | 0 <= k < res.Length ::
                Started(started[k], k, res[k], calls, times) && Ended(ended[k], k, res[k], calls, times)
    {
      hide Latest, Started, Ended;
      Totals(all);
      assert |dev.inflight| == 0;
      assert InFlight(dev.inflight) == {};
      assert res[..] == res[..res.Length];
      forall k | 0 <= k < res.Length
        ensures Started(started[k], k, res[k], calls, times) && Ended(ended[k], k, res[k], calls, times)
      {
        assert res[..][k] == res[k];
        assert k !in open;
      }
    }

    /** One dequeue burst, time-stamped. */
    method DrainTurn(size: nat, turn: TimedTurn, ghost all: set<OpId>) returns (ghost deq: Call)
      requires Valid(all) && size >= 1
      modifies this`ended, this`open, this`deqd, this`calls, this`times, pool, dev, res
      ensures Valid(all) && Dequeued(old(calls), deq, turn.device, size)
      ensures calls == old(calls) + [deq] && dev.log == old(dev.log) + [deq] && times == old(times) + [turn.tscEnd]
      ensures deqd == old(deqd) + Min(Min(size, turn.device.gives), |old(dev.inflight)|)
    {
      hide Tracked, InFlight, Elements, Apart, Taken, Given;
      ghost var inflight, none: seq<OpId> := dev.inflight, [];
      ghost var held := InFlight(inflight);
      var done := dev.DequeueBurst(size, turn.device.gives);
      deq := Deq(size, done);
      assert none + none == none;
      AccountExchange(all, pool.free, none, none, inflight, dev.inflight, done);
      ApartWhenAccounted(all, done, dev.inflight);
      SameOperations(inflight, none, dev.inflight, done);
      assert InFlight(inflight) + Elements(none) == InFlight(inflight) by {
        NoElements();
      }
      TalkedDeq(calls, inflight, enqd, deqd, size, done, dev.inflight);
      Note(deq, turn.tscEnd, held);
      Sizes(held);
      EndSlots(done, turn.tscEnd, InFlight(dev.inflight));
      pool.PutBulk(done);
      deqd := deqd + |done|;
    }

    /** The calls so far are those that the device has seen, in the order of a run, with their readings. */
    ghost predicate Followed(before: seq<Call>, turns: seq<TimedTurn>, size: nat, m: nat, used: nat)
      reads this`calls, this`times, dev
      requires m <= used <= |turns|
    {
      && dev.log == before + calls
      && Talk(calls, DeviceTurns(turns), res.Length, size, m, used) && Timed(times, turns, m, used)
    }

    /** One dequeue burst, as the next turn of the run. */
    method DrainNext(size: nat, turns: seq<TimedTurn>, ghost from: nat, used: nat, ghost all: set<OpId>,
                     ghost before: seq<Call>)
      requires enqd == res.Length && from <= used < |turns| && Valid(all) && size >= 1
      requires Followed(before, turns, size, from, used)
      modifies this`ended, this`open, this`deqd, this`calls, this`times, pool, dev, res
      ensures Valid(all) && Followed(before, turns, size, from, used + 1)
      ensures deqd >= old(deqd)
      ensures old(deqd) < res.Length && turns[used].device.gives >= 1 ==> deqd > old(deqd)
    {
      hide Valid, Talk, Timed, Dequeued, Taken, Given;
      Totals(all);
      ghost var calls', times' := calls, times;
      ghost var deq := DrainTurn(size, turns[used], all);
      TalkNext(calls', DeviceTurns(turns), res.Length, size, from, used, deq);
      TimedDrain(times', turns, from, used);
      assert before + calls' + [deq] == before + calls;
    }

    /** Dequeues and stamps whatever is still in the device. */
    method Drain(size: nat, turns: seq<TimedTurn>, from: nat, ghost all: set<OpId>, ghost before: seq<Call>)
        returns (used: nat)
      requires enqd == res.Length && from <= |turns| && Valid(all) && size >= 1
      requires from > 0 ==> Busy(Accepts(DeviceTurns(turns)), from - 1) < res.Length
      requires Followed(before, turns, size, from, from)
      modifies this`ended, this`open, this`deqd, this`calls, this`times, pool, dev, res
      ensures from <= used <= |turns| && deqd <= res.Length
      ensures deqd < res.Length ==> used == |turns| && !Steady(DeviceTurns(turns), res.Length)
      ensures Valid(all) && Followed(before, turns, size, from, used)
    {
      hide Valid, Followed, Busy, Steady, SteadyFrom, Taken, Given;
      ghost var moved := Gives(DeviceTurns(turns));
      used := from;
      while deqd < res.Length && used < |turns|
        invariant from <= used <= |turns| && Valid(all) && Followed(before, turns, size, from, used)
        invariant Busy(moved, used) - Busy(moved, from) <= deqd
      {
        BusyStep(moved, used);
        DrainNext(size, turns, from, used, all, before);
        used := used + 1;
      }
      Totals(all);
      if deqd < res.Length {
        NotSteady(DeviceTurns(turns), res.Length, from);
      }
    }

    /** How many operations there are at each place. */
    lemma Totals(all: set<OpId>)
      requires Valid(all)
      ensures |pool.free| + |dev.inflight| == |all| && |dev.inflight| + deqd == enqd <= res.Length
      ensures pool.free + dev.inflight == multiset(all)
      ensures |Taken(calls)| == enqd && |Given(calls)| == deqd
      ensures dev.inflight == multiset{} ==> multiset(Given(calls)) == multiset(Taken(calls))
    {
      hide Tracked;
      assert |pool.free + dev.inflight| == |multiset(all)|;
      CountsOf(calls, dev.inflight, enqd, deqd);
      hide Taken, Given;
    }

    lemma CountsOf(calls: seq<Call>, inflight: multiset<OpId>, enqd: nat, deqd: nat)
      requires Talked(calls, inflight, enqd, deqd)
      ensures |inflight| + deqd == enqd
      ensures |Taken(calls)| == enqd && |Given(calls)| == deqd
      ensures inflight == multiset{} ==> multiset(Given(calls)) == multiset(Taken(calls))
    {
      assert |multiset(Given(calls)) + inflight| == |multiset(Taken(calls))|;
    }

    /** One turn of the main loop: it allocates a burst and exchanges it, or the pool is too small. */
    method OneTurn(size: nat, turn: TimedTurn, ghost all: set<OpId>)
        returns (ok: bool, ghost enq: Call, ghost deq: Call)
      requires 1 <= size <= ops.Length && Valid(all) && enqd < res.Length
      modifies this, pool, dev, ops, res
      ensures Valid(all)
      ensures ok ==> enqd == old(enqd) + Min(turn.device.accepts, Min(size, res.Length - old(enqd)))
      ensures ok ==> Exchanged(old(calls), enq, deq, turn.device, res.Length, size)
      ensures ok ==> calls == old(calls) + [enq] + [deq] && dev.log == old(dev.log) + [enq] + [deq]
      ensures ok ==> times == old(times) + [turn.tscStart] + [turn.tscEnd]
      ensures !ok ==> |all| < res.Length && |all| < size + |dev.inflight|
      ensures !ok ==> calls == old(calls) && dev.log == old(dev.log) && times == old(times) && enqd == old(enqd)
    {
      hide Tracked, InFlight, Elements, Apart, Exchanged, Talked;
      Totals(all);
      enq, deq := Enq([], 0), Deq(0, []);
      var burst := if enqd + size <= res.Length then size else res.Length - enqd;
      ok := pool.GetBulk(ops, 0, burst);
      assert ops[0..burst] == ops[..burst];
      if ok {
        enq, deq := Exchange(burst, size, turn, all);
      }
    }

    /**
     * One burst size of the test. When it completes, every one of the `total` slots has been
     * started exactly once and ended exactly once, and holds the clock readings around the stay in
     * the device of the operation of that number; it never ends before it starts; and every
     * operation object is back in the pool. The pool can run out only if it is smaller than the
     * number of operations to do, and only if the device holds so many that one burst more does not
     * fit the pool. The device has been asked in the order that `Talk` describes.
     */
    method Run(size: nat, turns: seq<TimedTurn>, ghost all: set<OpId>)
        returns (outcome: Outcome, used: nat, ghost m: nat)
      requires 1 <= size <= ops.Length && Monotone(turns)
      requires pool.free == multiset(all) && dev.inflight == multiset{}
      modifies this, pool, dev, ops, res
      ensures m <= used <= |turns|
      ensures outcome.Stopped? ==> used == |turns| && !Steady(DeviceTurns(turns), res.Length)
      ensures Valid(all) && Followed(old(dev.log), turns, size, m, used)
      ensures outcome.Completed? ==>
                pool.free == multiset(all) && dev.inflight == multiset{} && enqd == deqd == res.Length
      ensures outcome.Completed? ==>
                |Taken(calls)| == |Given(calls)| == res.Length && multiset(Given(calls)) == multiset(Taken(calls))
      ensures outcome.Completed? ==> forall k | 0 <= k < res.Length ::
                Exact(res[k], k, turns, calls, m, used) && res[k].tscStart <= res[k].tscEnd
      ensures outcome.Completed? ==>
                |started| == |ended| == res.Length && forall k | 0 <= k < res.Length :: |started[k]| == |ended[k]| == 1
      ensures outcome.PoolExhausted? ==> |all| < res.Length && |all| < size + |dev.inflight|
    {
      hide Valid, Busy, Accepts, Gives, Steady, SteadyFrom, DeviceTurns, Followed, FollowedMain, Exact, Taken, Given;
      ghost var moved := Accepts(DeviceTurns(turns));
      ghost var before := dev.log;
      Reset(all);
      used, m := 0, 0;
      BusyStart(moved);
      NothingFollowed(before, turns, size);
      while enqd < res.Length
        invariant used <= |turns| && Valid(all) && enqd <= res.Length
        invariant Busy(moved, used) <= enqd && (used > 0 ==> Busy(moved, used - 1) < res.Length)
        invariant FollowedMain(before, turns, size, used)
        decreases |turns| - used
      {
        MainFollowed(before, turns, size, used);
        m := used;
        if used == |turns| {
          NotSteady(DeviceTurns(turns), res.Length, used);
          outcome := Stopped;
          return;
        }
        BusyStep(moved, used);
        var ok := MainTurn(size, turns, used, all, before);
        if !ok {
          outcome := PoolExhausted;
          return;
        }
        used := used + 1;
      }
      m := used;
      MainFollowed(before, turns, size, used);
      used := Drain(size, turns, used, all, before);
      if deqd < res.Length {
        outcome := Stopped;
      } else {
        outcome := Completed;
        Finished(all, turns, size, m, used, before);
      }
    }

    /** As `Followed`, in the main loop. */
    ghost predicate FollowedMain(before: seq<Call>, turns: seq<TimedTurn>, size: nat, used: nat)
      reads this`calls, this`times, dev
      requires used <= |turns|
    {
      && dev.log == before + calls
      && MainTalk(calls, DeviceTurns(turns), res.Length, size, used) && Timed(times, turns, used, used)
    }

    lemma MainFollowed(before: seq<Call>, turns: seq<TimedTurn>, size: nat, used: nat)
      requires used <= |turns| && FollowedMain(before, turns, size, used)
      ensures Followed(before, turns, size, used, used)
    {
      hide MainTalk, Talk, Timed;
      MainIsTalk(calls, DeviceTurns(turns), res.Length, size, used);
    }

    method MainTurn(size: nat, turns: seq<TimedTurn>, used: nat, ghost all: set<OpId>, ghost before: seq<Call>)
        returns (ok: bool)
      requires 1 <= size <= ops.Length && Valid(all) && enqd < res.Length && used < |turns|
      requires FollowedMain(before, turns, size, used)
      modifies this, pool, dev, ops, res
      ensures Valid(all) && old(enqd) <= enqd <= res.Length
      ensures ok && turns[used].device.accepts >= 1 ==> enqd > old(enqd)
      ensures ok ==> FollowedMain(before, turns, size, used + 1)
      ensures !ok ==> |all| < res.Length && |all| < size + |dev.inflight|
      ensures !ok ==> Followed(before, turns, size, used, used)
    {
      hide Valid, MainTalk, Talk, Timed, Exchanged;
      MainFollowed(before, turns, size, used);
      ghost var calls', times' := calls, times;
      ghost var enq, deq;
      ok, enq, deq := OneTurn(size, turns[used], all);
      if ok {
        MainTalkNext(calls', DeviceTurns(turns), res.Length, size, used, enq, deq);
        TimedExchange(times', turns, used);
        assert before + calls' + [enq] + [deq] == before + calls;
      }
    }

    lemma NothingFollowed(before: seq<Call>, turns: seq<TimedTurn>, size: nat)
      requires dev.log == before && calls == [] && times == []
      ensures FollowedMain(before, turns, size, 0)
    {
      assert before + [] == before;
    }

    /** A run in which everything has come back. */
    lemma Finished(all: set<OpId>, turns: seq<TimedTurn>, size: nat, m: nat, used: nat, before: seq<Call>)
      requires Valid(all) && deqd == enqd == res.Length && m <= used <= |turns| && Monotone(turns)
      requires Followed(before, turns, size, m, used)
      ensures dev.inflight == multiset{} && pool.free == multiset(all)
      ensures |Taken(calls)| == |Given(calls)| == res.Length && multiset(Given(calls)) == multiset(Taken(calls))
      ensures forall k | 0 <= k < res.Length ::
                Exact(res[k], k, turns, calls, m, used) && res[k].tscStart <= res[k].tscEnd
      ensures |started| == |ended| == res.Length && forall k | 0 <= k < res.Length :: |started[k]| == |ended[k]| == 1
    {
      hide Valid, Followed, Monotone, Taken, Given, Started, Ended, Exact;
      Totals(all);
      AllEnded(all);
      forall k | 0 <= k < res.Length
        ensures Exact(res[k], k, turns, calls, m, used) && res[k].tscStart <= res[k].tscEnd
        ensures |started[k]| == |ended[k]| == 1
      {
        One(res[k], k, started[k], ended[k], turns, size, m, used, before);
      }
    }

    lemma One(slot: Slot, k: nat, start: seq<Stamp>, end: seq<Stamp>, turns: seq<TimedTurn>, size: nat, m: nat,
              used: nat, before: seq<Call>)
      requires Started(start, k, slot, calls, times) && Ended(end, k, slot, calls, times)
      requires m <= used <= |turns| && Monotone(turns) && Followed(before, turns, size, m, used)
      ensures Exact(slot, k, turns, calls, m, used) && slot.tscStart <= slot.tscEnd && |start| == |end| == 1
    {
      hide Talk, Timed, Taken, TakenIn, BackIn;
      var u, v := Measures(slot, k, turns, calls, times, m, used, size, res.Length, start, end);
      assert v < used && Measured(slot, k, turns, calls, m, u, v);
    }
  }

  lemma NoElements()
    ensures Elements([]) == {}
  {
  }
}
