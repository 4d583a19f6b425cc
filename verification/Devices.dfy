/**
 * The library objects that the crypto test runners work with, by contract: a pool of operation
 * objects, and a device that accepts any prefix of a burst and hands operations back in any order.
 */
module Devices {

  type OpId = nat

  function Min(a: nat, b: nat): nat {
    if a <= b then a else b
  }

  /** What the device does in one turn of a runner: how many it would accept and how many it would return. */
  datatype Turn = Turn(accepts: nat, gives: nat)

  function Accepts(turns: seq<Turn>): (s: seq<nat>)
    ensures |s| == |turns| && forall i | 0 <= i < |turns| :: s[i] == turns[i].accepts
  {
    seq(|turns|, i requires 0 <= i < |turns| => turns[i].accepts)
  }

  function Gives(turns: seq<Turn>): (s: seq<nat>)
    ensures |s| == |turns| && forall i | 0 <= i < |turns| :: s[i] == turns[i].gives
  {
    seq(|turns|, i requires 0 <= i < |turns| => turns[i].gives)
  }

  /** In how many of the first `i` turns something was moved. */
  function Busy(moved: seq<nat>, i: nat): (n: nat)
    requires i <= |moved|
    ensures n <= i
  {
    if i == 0 then 0 else Busy(moved, i - 1) + if moved[i - 1] >= 1 then 1 else 0
  }

  /**
   * Long enough for `n` operations: the device accepts something in `n` turns, and after that gives
   * something back in another `n`, with any pauses in between.
   */
  ghost predicate Steady(turns: seq<Turn>, n: nat) {
    exists k :: 0 <= k <= |turns| && SteadyFrom(turns, n, k)
  }

  ghost predicate SteadyFrom(turns: seq<Turn>, n: nat, k: nat)
    requires k <= |turns|
  {
    Busy(Accepts(turns), k) >= n && Busy(Gives(turns), |turns|) - Busy(Gives(turns), k) >= n
  }

  lemma BusyStart(moved: seq<nat>)
    ensures Busy(moved, 0) == 0
  {
  }

  lemma BusyStep(moved: seq<nat>, i: nat)
    requires i < |moved|
    ensures Busy(moved, i + 1) == Busy(moved, i) + if moved[i] >= 1 then 1 else 0
  {
  }

  lemma {:induction false} BusyGrows(moved: seq<nat>, i: nat, j: nat)
    requires i <= j <= |moved|
    ensures Busy(moved, i) <= Busy(moved, j)
    decreases j - i
  {
    if i < j {
      BusyGrows(moved, i, j - 1);
    }
  }

  lemma {:induction false} BusyAlike(moved: seq<nat>, moved': seq<nat>, i: nat)
    requires i <= |moved| && i <= |moved'| && forall j | 0 <= j < i :: moved[j] == moved'[j]
    ensures Busy(moved, i) == Busy(moved', i)
  {
    if i > 0 {
      BusyAlike(moved, moved', i - 1);
    }
  }

  /** Too few turns to get everything in, or too few after that to get everything back. */
  lemma NotSteady(turns: seq<Turn>, n: nat, from: nat)
    requires from <= |turns| && (from > 0 ==> Busy(Accepts(turns), from - 1) < n)
    requires Busy(Accepts(turns), |turns|) < n || Busy(Gives(turns), |turns|) - Busy(Gives(turns), from) < n
    ensures !Steady(turns, n)
  {
    forall k | 0 <= k <= |turns| && SteadyFrom(turns, n, k) ensures false {
      BusyGrows(Accepts(turns), k, |turns|);
      if k < from {
        BusyGrows(Accepts(turns), k, from - 1);
      } else {
        BusyGrows(Gives(turns), from, k);
      }
    }
  }

  // ----- devices that go on for ever -----

  /** However long it pauses, the device accepts again and gives back again. */
  ghost predicate Fair(device: nat -> Turn) {
    forall i: nat :: AcceptsAfter(device, i) && GivesAfter(device, i)
  }

  ghost predicate AcceptsAfter(device: nat -> Turn, i: nat) {
    exists j: nat :: i <= j && device(j).accepts >= 1
  }

  ghost predicate GivesAfter(device: nat -> Turn, i: nat) {
    exists j: nat :: i <= j && device(j).gives >= 1
  }

  ghost function First(device: nat -> Turn, m: nat): (turns: seq<Turn>)
    ensures |turns| == m && forall i | 0 <= i < m :: turns[i] == device(i)
  {
    seq(m, i requires 0 <= i < m => device(i))
  }

  lemma {:induction false} AcceptsOften(device: nat -> Turn, n: nat) returns (k: nat)
    requires Fair(device)
    ensures Busy(Accepts(First(device, k)), k) >= n
  {
    k := 0;
    if n > 0 {
      var k0 := AcceptsOften(device, n - 1);
      assert AcceptsAfter(device, k0);
      var j: nat :| k0 <= j && device(j).accepts >= 1;
      k := j + 1;
      BusyAlike(Accepts(First(device, k0)), Accepts(First(device, k)), k0);
      BusyGrows(Accepts(First(device, k)), k0, j);
      assert Accepts(First(device, k))[j] == device(j).accepts;
    }
  }

  lemma {:induction false} GivesOften(device: nat -> Turn, from: nat, n: nat) returns (k: nat)
    requires Fair(device)
    ensures k >= from && Busy(Gives(First(device, k)), k) - Busy(Gives(First(device, k)), from) >= n
    decreases n
  {
    k := from;
    if n > 0 {
      var k0 := GivesOften(device, from, n - 1);
      assert GivesAfter(device, k0);
      var j: nat :| k0 <= j && device(j).gives >= 1;
      k := j + 1;
      BusyAlike(Gives(First(device, k0)), Gives(First(device, k)), k0);
      BusyAlike(Gives(First(device, k0)), Gives(First(device, k)), from);
      BusyGrows(Gives(First(device, k)), k0, j);
      assert Gives(First(device, k))[j] == device(j).gives;
    }
  }

  /** Every fair device is steady for any number of operations, if it is given the time. */
  lemma FairIsSteady(device: nat -> Turn, n: nat) returns (m: nat)
    requires Fair(device)
    ensures Steady(First(device, m), n)
  {
    var k := AcceptsOften(device, n);
    m := GivesOften(device, k, n);
    BusyAlike(Accepts(First(device, k)), Accepts(First(device, m)), k);
    assert SteadyFrom(First(device, m), n, k);
  }

  // ----- what a device has been asked for -----

  /** A call and its answer: a burst of which the first `n` were taken, or up to `max` operations given back. */
  datatype Call = Enq(offered: seq<OpId>, n: nat) | Deq(max: nat, back: seq<OpId>)

  function Takes(c: Call): seq<OpId> {
    if c.Enq? && c.n <= |c.offered| then c.offered[..c.n] else []
  }

  /** All that the device has taken, in order. */
  function Taken(calls: seq<Call>): seq<OpId> {
    if calls == [] then [] else Taken(calls[..|calls| - 1]) + Takes(calls[|calls| - 1])
  }

  /** All that it has given back, in order. */
  function Given(calls: seq<Call>): seq<OpId> {
    if calls == [] then []
    else Given(calls[..|calls| - 1]) + if calls[|calls| - 1].Deq? then calls[|calls| - 1].back else []
  }

  lemma CallsNext(calls: seq<Call>, c: Call)
    ensures Taken(calls + [c]) == Taken(calls) + Takes(c)
    ensures Given(calls + [c]) == Given(calls) + if c.Deq? then c.back else []
  {
    assert (calls + [c])[..|calls|] == calls;
  }

  /** The calls so far, against what the device still has and against counts of what went in and came back. */
  ghost predicate Talked(calls: seq<Call>, inflight: multiset<OpId>, enqd: nat, deqd: nat) {
    && |Taken(calls)| == enqd && |Given(calls)| == deqd
    && multiset(Given(calls)) + inflight == multiset(Taken(calls))
  }

  lemma TalkedNothing()
    ensures Talked([], multiset{}, 0, 0)
  {
  }

  lemma TalkedEnq(calls: seq<Call>, inflight: multiset<OpId>, enqd: nat, deqd: nat, offered: seq<OpId>, n: nat,
                  inflight': multiset<OpId>)
    requires Talked(calls, inflight, enqd, deqd) && n <= |offered| && inflight' == inflight + multiset(offered[..n])
    ensures Talked(calls + [Enq(offered, n)], inflight', enqd + n, deqd)
    ensures |inflight| + deqd == enqd && |inflight'| == |inflight| + n
  {
    CallsNext(calls, Enq(offered, n));
    assert |multiset(Given(calls)) + inflight| == |multiset(Taken(calls))|;
    assert |inflight'| == |inflight| + |multiset(offered[..n])|;
  }

  lemma TalkedDeq(calls: seq<Call>, inflight: multiset<OpId>, enqd: nat, deqd: nat, max: nat, back: seq<OpId>,
                  inflight': multiset<OpId>)
    requires Talked(calls, inflight, enqd, deqd) && inflight' + multiset(back) == inflight
    ensures Talked(calls + [Deq(max, back)], inflight', enqd, deqd + |back|)
    ensures |inflight| + deqd == enqd
  {
    CallsNext(calls, Deq(max, back));
    assert multiset(Given(calls) + back) == multiset(Given(calls)) + multiset(back);
    assert |multiset(Given(calls)) + inflight| == |multiset(Taken(calls))|;
    assert multiset(Given(calls)) + multiset(back) + inflight' == multiset(Given(calls)) + inflight;
  }

  // ----- the course of a run, as the device sees it -----

  /** A dequeue call for up to `size` operations, answered with as many as the device gives of those that it has. */
  ghost predicate Dequeued(before: seq<Call>, deq: Call, turn: Turn, size: nat) {
    && deq.Deq? && deq.max == size && |Given(before)| <= |Taken(before)|
    && |deq.back| == Min(Min(size, turn.gives), |Taken(before)| - |Given(before)|)
  }

  /** A burst of `size`, or of what is left of `total`, of which the device takes what it will; then a dequeue call. */
  ghost predicate Exchanged(before: seq<Call>, enq: Call, deq: Call, turn: Turn, total: nat, size: nat) {
    && |Taken(before)| < total && enq.Enq? && |enq.offered| == Min(size, total - |Taken(before)|)
    && enq.n == Min(turn.accepts, |enq.offered|)
    && Dequeued(before + [enq], deq, turn, size)
  }

  /** `m` turns of a main loop. */
  ghost predicate MainTalk(calls: seq<Call>, turns: seq<Turn>, total: nat, size: nat, m: nat)
    requires m <= |turns|
    decreases m
  {
    && |calls| == 2 * m
    && (m > 0 ==>
          && MainTalk(calls[..2 * m - 2], turns, total, size, m - 1)
          && Exchanged(calls[..2 * m - 2], calls[2 * m - 2], calls[2 * m - 1], turns[m - 1], total, size))
  }

  /** `m` turns of a main loop, then dequeue calls only. */
  ghost predicate Talk(calls: seq<Call>, turns: seq<Turn>, total: nat, size: nat, m: nat, used: nat)
    requires m <= used <= |turns|
    decreases used
  {
    && |calls| == m + used
    && if used == m then MainTalk(calls, turns, total, size, m)
       else
         && Talk(calls[..|calls| - 1], turns, total, size, m, used - 1)
         && Dequeued(calls[..|calls| - 1], calls[|calls| - 1], turns[used - 1], size)
  }

  lemma MainTalkNext(calls: seq<Call>, turns: seq<Turn>, total: nat, size: nat, m: nat, enq: Call, deq: Call)
    requires m < |turns| && MainTalk(calls, turns, total, size, m)
    requires Exchanged(calls, enq, deq, turns[m], total, size)
    ensures MainTalk(calls + [enq] + [deq], turns, total, size, m + 1)
  {
    var all := calls + [enq] + [deq];
    assert all[..2 * m] == calls && all[2 * m] == enq && all[2 * m + 1] == deq;
  }

  lemma TalkNext(calls: seq<Call>, turns: seq<Turn>, total: nat, size: nat, m: nat, used: nat, deq: Call)
    requires m <= used < |turns| && Talk(calls, turns, total, size, m, used)
    requires Dequeued(calls, deq, turns[used], size)
    ensures Talk(calls + [deq], turns, total, size, m, used + 1)
  {
    assert (calls + [deq])[..|calls|] == calls;
  }

  lemma TalkNothing(turns: seq<Turn>, total: nat, size: nat)
    ensures Talked([], multiset{}, 0, 0) && MainTalk([], turns, total, size, 0)
  {
  }

  lemma MainIsTalk(calls: seq<Call>, turns: seq<Turn>, total: nat, size: nat, m: nat)
    requires m <= |turns| && MainTalk(calls, turns, total, size, m)
    ensures Talk(calls, turns, total, size, m, m)
  {
  }

  /** One exchange of calls. */
  lemma Spoken(calls: seq<Call>, inflight: multiset<OpId>, enqd: nat, deqd: nat, offered: seq<OpId>, n: nat,
               size: nat, turn: Turn, total: nat, done: seq<OpId>, inflight': multiset<OpId>)
    requires Talked(calls, inflight, enqd, deqd) && enqd < total && |offered| == Min(size, total - enqd)
    requires n == Min(turn.accepts, |offered|) && inflight' + multiset(done) == inflight + multiset(offered[..n])
    requires |done| == Min(Min(size, turn.gives), |inflight| + n)
    ensures Talked(calls + [Enq(offered, n)] + [Deq(size, done)], inflight', enqd + n, deqd + |done|)
    ensures Exchanged(calls, Enq(offered, n), Deq(size, done), turn, total, size)
  {
    var middle := inflight + multiset(offered[..n]);
    TalkedEnq(calls, inflight, enqd, deqd, offered, n, middle);
    TalkedDeq(calls + [Enq(offered, n)], middle, enqd + n, deqd, size, done, inflight');
    hide Taken, Given;
  }

  lemma ExchangedShape(before: seq<Call>, enq: Call, deq: Call, turn: Turn, total: nat, size: nat)
    requires Exchanged(before, enq, deq, turn, total, size)
    ensures enq.Enq? && !deq.Enq?
  {
  }

  lemma DequeuedShape(before: seq<Call>, deq: Call, turn: Turn, size: nat)
    requires Dequeued(before, deq, turn, size)
    ensures !deq.Enq?
  {
  }

  /** Which calls of a run offer operations and which ask for them. */
  lemma {:induction false} MainShape(calls: seq<Call>, turns: seq<Turn>, total: nat, size: nat, m: nat)
    requires m <= |turns| && MainTalk(calls, turns, total, size, m)
    ensures forall p | 0 <= p < 2 * m :: calls[p].Enq? == (p % 2 == 0)
  {
    hide Exchanged;
    if m > 0 {
      var last := 2 * m - 2;
      MainShape(calls[..last], turns, total, size, m - 1);
      ExchangedShape(calls[..last], calls[last], calls[last + 1], turns[m - 1], total, size);
      assert forall p | 0 <= p < last :: calls[p] == calls[..last][p];
    }
  }

  lemma {:induction false} TalkShape(calls: seq<Call>, turns: seq<Turn>, total: nat, size: nat, m: nat, used: nat)
    requires m <= used <= |turns| && Talk(calls, turns, total, size, m, used)
    ensures |calls| == m + used
    ensures forall p | 0 <= p < |calls| :: calls[p].Enq? == (p < 2 * m && p % 2 == 0)
    decreases used
  {
    hide Dequeued, MainTalk;
    if m == used {
      MainShape(calls, turns, total, size, m);
    } else {
      var last := |calls| - 1;
      TalkShape(calls[..last], turns, total, size, m, used - 1);
      DequeuedShape(calls[..last], calls[last], turns[used - 1], size);
      assert forall p | 0 <= p < last :: calls[p] == calls[..last][p];
    }
  }

  /** How a run ends; `Stopped` means that the observed device behaviour was used up first. */
  datatype Outcome = Completed | PoolExhausted | Stopped

  /** A sequence that takes each of its operations from the pool at most once repeats none. */
  lemma DistinctSeq(s: seq<OpId>, all: set<OpId>)
    requires multiset(s) <= multiset(all)
    ensures forall i, j | 0 <= i < j < |s| :: s[i] != s[j]
    ensures forall i | 0 <= i < |s| :: s[i] in all
  {
    forall i, j | 0 <= i < j < |s| ensures s[i] != s[j] {
      assert s == s[..i] + [s[i]] + s[i + 1..j] + [s[j]] + s[j + 1..];
      assert multiset(s) ==
             multiset(s[..i]) + multiset{s[i]} + multiset(s[i + 1..j]) + multiset{s[j]} + multiset(s[j + 1..]);
      assert multiset(all)[s[i]] <= 1;
      assert s[i] == s[j] ==> multiset(s)[s[i]] >= 2;
    }
    forall i | 0 <= i < |s| ensures s[i] in all {
      assert s[i] in multiset(s);
    }
  }

  /** Where two arrays agree from some index on, they agree on every stretch behind it. */
  lemma SameBehind<T>(before: seq<T>, after: seq<T>, front: nat, at: nat, n: nat)
    requires |before| == |after| && front <= at && at + n <= |before|
    requires before[front..] == after[front..]
    ensures before[at..at + n] == after[at..at + n]
  {
    forall k | at <= k < at + n ensures before[k] == after[k] {
      assert before[k] == before[front..][k - front] && after[k] == after[front..][k - front];
    }
  }

  /** `rte_mempool`: bulk get is all or nothing, and which objects come out is up to the pool. */
  class Mempool {
    var free: multiset<OpId>

    constructor (ops: multiset<OpId>)
      ensures free == ops
    {
      free := ops;
    }

    method GetBulk(a: array<OpId>, at: nat, n: nat) returns (ok: bool)
      requires at + n <= a.Length
      modifies this, a
      ensures ok == (n <= |old(free)|)
      ensures ok ==> free + multiset(a[at..at + n]) == old(free)
      ensures !ok ==> free == old(free) && a[at..at + n] == old(a[at..at + n])
      ensures a[..at] == old(a[..at]) && a[at + n..] == old(a[at + n..])
    {
      ok := n <= |free|;
      if ok {
        var xs := Take(n);
        forall k | 0 <= k < n {
          a[at + k] := xs[k];
        }
        assert a[at..at + n] == xs;
      }
    }

    method Take(n: nat) returns (xs: seq<OpId>)
      requires n <= |free|
      modifies this
      ensures |xs| == n && free + multiset(xs) == old(free)
    {
      xs := [];
      while |xs| < n
        invariant |xs| <= n && |free| + |xs| == |old(free)|
        invariant free + multiset(xs) == old(free)
      {
        var x :| x in free;
        ghost var was := free;
        free := free - multiset{x};
        assert was == free + multiset{x};
        xs := xs + [x];
      }
    }

    method PutBulk(ops: seq<OpId>)
      modifies this
      ensures free == old(free) + multiset(ops)
    {
      free := free + multiset(ops);
    }
  }

  /** `rte_cryptodev`, one queue pair: in-flight operations, returned in no particular order. */
  class Device {
    var inflight: multiset<OpId>
    /** All calls so far. */
    ghost var log: seq<Call>

    constructor ()
      ensures inflight == multiset{} && log == []
    {
      inflight, log := multiset{}, [];
    }

    method EnqueueBurst(ops: seq<OpId>, accepts: nat) returns (n: nat)
      modifies this
      ensures n == Min(accepts, |ops|)
      ensures inflight == old(inflight) + multiset(ops[..n]) && log == old(log) + [Enq(ops, n)]
    {
      n := Min(accepts, |ops|);
      log := log + [Enq(ops, n)];
      inflight := inflight + multiset(ops[..n]);
    }

    method DequeueBurst(max: nat, gives: nat) returns (ops: seq<OpId>)
      modifies this
      ensures |ops| == Min(Min(max, gives), |old(inflight)|)
      ensures inflight + multiset(ops) == old(inflight) && log == old(log) + [Deq(max, ops)]
    {
      var n := Min(Min(max, gives), |inflight|);
      ops := [];
      while |ops| < n
        invariant |ops| <= n && |inflight| + |ops| == |old(inflight)| && log == old(log)
        invariant inflight + multiset(ops) == old(inflight)
      {
        var x :| x in inflight;
        ghost var was := inflight;
        inflight := inflight - multiset{x};
        assert was == inflight + multiset{x};
        ops := ops + [x];
      }
      log := log + [Deq(max, ops)];
    }
  }

  /** `memmove` inside one array of pointers. */
  method Memmove(a: array<OpId>, dst: nat, src: nat, n: nat)
    requires dst + n <= a.Length && src + n <= a.Length
    modifies a
    ensures a[dst..dst + n] == old(a[src..src + n])
    ensures a[..dst] == old(a[..dst]) && a[dst + n..] == old(a[dst + n..])
  {
    forall k | 0 <= k < n {
      a[dst + k] := a[src + k];
    }
  }
}
