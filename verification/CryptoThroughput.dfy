/**
 * The crypto throughput runner: every burst is made of freshly allocated operations in front and
 * the operations the device refused last time behind them, in one array that is shifted in place.
 */
module CryptoThroughput {
  import opened Devices

  /** Size of the next burst. */
  function BurstSize(total: nat, size: nat, enqd: nat): nat
    requires enqd <= total
  {
    if enqd + size <= total then size else total - enqd
  }

  /**
   * After a burst of which `enqd` were taken and the rest left over, the next burst needs at most
   * `enqd` new operations (so they fit in front of the left-overs) and no fewer than none.
   */
  lemma NewOpsFit(total: nat, size: nat, enqdBefore: nat, enqd: nat)
    requires enqdBefore + enqd <= total && enqd <= BurstSize(total, size, enqdBefore)
    ensures var unused := BurstSize(total, size, enqdBefore) - enqd;
            unused <= BurstSize(total, size, enqdBefore + enqd) <= unused + enqd
  {
  }

  /**
   * Conservation: each operation of the pool is free, left over or in flight, and only one of
   * these; whatever is not free has been set up; and the counters agree with the device.
   */
  ghost predicate Accounted(all: set<OpId>, free: multiset<OpId>, left: seq<OpId>, inflight: multiset<OpId>,
                            populated: set<OpId>, enqd: nat, deqd: nat) {
    && free + multiset(left) + inflight == multiset(all)
    && (forall x | x in left :: x in populated) && (forall x | x in inflight :: x in populated)
    && |inflight| + deqd == enqd
  }

  /** `news` leaves the pool, is set up, and goes in front of the left-overs. */
  lemma AccountGathered(all: set<OpId>, free: multiset<OpId>, free': multiset<OpId>, news: seq<OpId>, left: seq<OpId>,
                        inflight: multiset<OpId>, populated: set<OpId>, enqd: nat, deqd: nat)
    requires Accounted(all, free, left, inflight, populated, enqd, deqd) && free' + multiset(news) == free
    ensures Accounted(all, free', news + left, inflight, populated + (set x | x in news), enqd, deqd)
  {
  }

  /** Of a burst, `took` goes to the device, which gives back `done`, which goes back to the pool. */
  lemma AccountExchanged(all: set<OpId>, free: multiset<OpId>, took: seq<OpId>, left: seq<OpId>,
                         inflight: multiset<OpId>, inflight': multiset<OpId>, done: seq<OpId>, populated: set<OpId>,
                         enqd: nat, deqd: nat)
    requires Accounted(all, free, took + left, inflight, populated, enqd, deqd)
    requires inflight' + multiset(done) == inflight + multiset(took)
    ensures Accounted(all, free + multiset(done), left, inflight', populated - (set x | x in done),
                      enqd + |took|, deqd + |done|)
  {
    assert |inflight' + multiset(done)| == |inflight + multiset(took)|;
    assert multiset(took + left) == multiset(took) + multiset(left);
    assert free + multiset(done) + multiset(left) + inflight' == free + multiset(left) + (inflight + multiset(took));
    forall x | x in left || x in inflight' ensures x in populated && x !in done {
      assert x in left ==> x in took + left && x in multiset(left);
      assert x in inflight' ==> x in inflight' + multiset(done);
      assert multiset(all)[x] <= 1;
      assert x in done ==> x in multiset(done);
    }
  }

  lemma AllHome(all: set<OpId>, free: multiset<OpId>, inflight: multiset<OpId>, populated: set<OpId>, enqd: nat)
    requires Accounted(all, free, [], inflight, populated, enqd, enqd)
    ensures free == multiset(all) && inflight == multiset{}
  {
  }

  /** What the device refused of a burst. */
  ghost function Refused(c: Call): seq<OpId> {
    if c.Enq? && c.n <= |c.offered| then c.offered[c.n..] else []
  }

  predicate EndsWith(xs: seq<OpId>, end: seq<OpId>) {
    |end| <= |xs| && xs[|xs| - |end|..] == end
  }

  /** In each of `m` turns the end of the burst is what was refused in the turn before, in the same order. */
  ghost predicate OfferedAgain(calls: seq<Call>, m: nat) {
    && |calls| >= 2 * m
    && forall j: nat | j + 1 < m :: calls[2 * j + 2].Enq? && EndsWith(calls[2 * j + 2].offered, Refused(calls[2 * j]))
  }

  /** The refused operations of the last of `m` turns. */
  ghost function LastRefused(calls: seq<Call>, m: nat): seq<OpId>
    requires |calls| >= 2 * m
  {
    if m == 0 then [] else Refused(calls[2 * m - 2])
  }

  lemma OfferedNext(calls: seq<Call>, m: nat, enq: Call, deq: Call)
    requires OfferedAgain(calls, m) && |calls| == 2 * m && enq.Enq? && EndsWith(enq.offered, LastRefused(calls, m))
    ensures OfferedAgain(calls + [enq] + [deq], m + 1)
    ensures LastRefused(calls + [enq] + [deq], m + 1) == Refused(enq)
  {
    var after := calls + [enq] + [deq];
    forall j: nat | j + 1 < m + 1
      ensures after[2 * j + 2].Enq? && EndsWith(after[2 * j + 2].offered, Refused(after[2 * j]))
    {
      if j + 1 < m {
        assert after[2 * j + 2] == calls[2 * j + 2] && after[2 * j] == calls[2 * j];
      }
    }
  }

  class Runner {
    const pool: Mempool
    const dev: Device
    const ops: array<OpId>
    /** Operations set up since they were last allocated. */
    var populated: set<OpId>
    var enqdTotal: nat
    var deqdTotal: nat

    constructor (pool: Mempool, dev: Device, maxBurst: nat)
      ensures this.pool == pool && this.dev == dev && fresh(ops) && ops.Length == maxBurst
    {
      this.pool, this.dev := pool, dev;
      ops := new OpId[maxBurst];
      populated, enqdTotal, deqdTotal := {}, 0, 0;
    }

    /** Conservation, with `left` refused by the device. */
    ghost predicate Valid(all: set<OpId>, left: seq<OpId>)
      reads this, pool, dev
    {
      Accounted(all, pool.free, left, dev.inflight, populated, enqdTotal, deqdTotal)
    }

    /** `populate_ops` on the first `n` slots. */
    method Populate(n: nat)
      requires n <= ops.Length
      modifies this`populated
      ensures populated == old(populated) + (set x | x in ops[..n])
    {
      populated := populated + (set x | x in ops[..n]);
    }

    /** Bulk allocation into the front of the array; the left-overs behind it stay. */
    method Allocate(needed: nat, lastEnqd: nat, unused: nat) returns (ok: bool)
      requires needed <= ops.Length && lastEnqd + unused <= ops.Length
      requires unused == 0 || needed <= lastEnqd
      modifies pool, ops
      ensures ok == (needed <= |old(pool.free)|)
      ensures ok ==> pool.free + multiset(ops[..needed]) == old(pool.free)
      ensures !ok ==> pool.free == old(pool.free)
      ensures ops[lastEnqd..lastEnqd + unused] == old(ops[lastEnqd..lastEnqd + unused])
    {
      ok := pool.GetBulk(ops, 0, needed);
      assert ops[0..needed] == ops[..needed];
      if unused > 0 {
        SameBehind(old(ops[..]), ops[..], needed, lastEnqd, unused);
      }
    }

    /** When fewer new operations were needed than the device took, the left-overs move down behind them. */
    method Shift(needed: nat, lastEnqd: nat, unused: nat)
      requires needed + unused <= ops.Length && lastEnqd + unused <= ops.Length
      requires unused == 0 || needed <= lastEnqd
      modifies ops
      ensures ops[needed..needed + unused] == old(ops[lastEnqd..lastEnqd + unused])
      ensures ops[..needed] == old(ops[..needed])
    {
      if lastEnqd > needed {
        Memmove(ops, needed, lastEnqd, unused);
      }
    }

    /**
     * Gathers the next burst in `ops[..burst]`: allocate, set up, and move the left-overs from
     * behind the last accepted operation to behind the new ones. The burst is then made of
     * distinct operations, all set up and none of them free or in flight.
     */
    method Gather(burst: nat, lastEnqd: nat, unused: nat, ghost all: set<OpId>) returns (ok: bool)
      requires unused <= burst <= ops.Length && lastEnqd + unused <= ops.Length
      requires Valid(all, ops[lastEnqd..lastEnqd + unused])
      requires unused == 0 || burst - unused <= lastEnqd
      modifies this`populated, pool, ops
      ensures ok == (burst - unused <= |old(pool.free)|)
      ensures ok ==> Valid(all, ops[..burst])
      ensures ok ==> ops[..burst][burst - unused..] == old(ops[lastEnqd..lastEnqd + unused])
      ensures !ok ==> Valid(all, old(ops[lastEnqd..lastEnqd + unused])) && pool.free == old(pool.free)
    {
      hide Accounted;
      ghost var free, populatedBefore, left := pool.free, populated, ops[lastEnqd..lastEnqd + unused];
      var needed := burst - unused;
      ok := Allocate(needed, lastEnqd, unused);
      if ok {
        Populate(needed);
        ghost var news := ops[..needed];
        Shift(needed, lastEnqd, unused);
        assert ops[..burst] == news + left;
        AccountGathered(all, free, pool.free, news, left, dev.inflight, populatedBefore, enqdTotal, deqdTotal);
      }
    }

    /** Operations go back to the pool and lose their set-up. */
    method Release(done: seq<OpId>)
      modifies this`populated, this`deqdTotal, pool
      ensures pool.free == old(pool.free) + multiset(done)
      ensures populated == old(populated) - (set x | x in done)
      ensures deqdTotal == old(deqdTotal) + |done|
    {
      pool.PutBulk(done);
      populated := populated - (set x | x in done);
      deqdTotal := deqdTotal + |done|;
    }

    /** Enqueues the burst, dequeues what has been processed, and frees it. */
    method Exchange(burst: nat, size: nat, turn: Turn, ghost all: set<OpId>)
        returns (enqd: nat, unused: nat, ghost done: seq<OpId>)
      requires burst <= ops.Length && Valid(all, ops[..burst])
      modifies this`populated, this`enqdTotal, this`deqdTotal, pool, dev
      ensures enqd == Min(turn.accepts, burst) && enqd + unused == burst && enqdTotal == old(enqdTotal) + enqd
      ensures Valid(all, ops[enqd..enqd + unused])
      ensures dev.log == old(dev.log) + [Enq(old(ops[..burst]), enqd)] + [Deq(size, done)]
      ensures dev.inflight + multiset(done) == old(dev.inflight) + multiset(old(ops[..burst])[..enqd])
      ensures |done| == Min(Min(size, turn.gives), |old(dev.inflight)| + enqd)
      ensures deqdTotal == old(deqdTotal) + |done| && pool.free == old(pool.free) + multiset(done)
    {
      hide Accounted;
      ghost var free, inflight, populatedBefore := pool.free, dev.inflight, populated;
      enqd := dev.EnqueueBurst(ops[..burst], turn.accepts);
      unused := burst - enqd;
      var back := dev.DequeueBurst(size, turn.gives);
      done := back;
      ghost var took, left := ops[..burst][..enqd], ops[enqd..enqd + unused];
      assert ops[..burst] == took + left;
      AccountExchanged(all, free, took, left, inflight, dev.inflight, done, populatedBefore, enqdTotal, deqdTotal);
      enqdTotal := enqdTotal + enqd;
      Release(back);
    }

    method Reset(ghost all: set<OpId>)
      requires pool.free == multiset(all) && dev.inflight == multiset{}
      modifies this`populated, this`enqdTotal, this`deqdTotal
      ensures Valid(all, []) && enqdTotal == deqdTotal == 0
    {
      populated, enqdTotal, deqdTotal := {}, 0, 0;
    }

    lemma Counted(all: set<OpId>, left: seq<OpId>)
      requires Valid(all, left)
      ensures deqdTotal + |dev.inflight| == enqdTotal
      ensures left == [] && deqdTotal == enqdTotal ==> pool.free == multiset(all) && dev.inflight == multiset{}
    {
      if left == [] && deqdTotal == enqdTotal {
        AllHome(all, pool.free, dev.inflight, populated, enqdTotal);
      }
    }

    /** How many operations there are at each place. */
    lemma Sizes(all: set<OpId>, left: seq<OpId>)
      requires Valid(all, left)
      ensures |pool.free| + |left| + |dev.inflight| == |all|
      ensures |dev.inflight| + deqdTotal == enqdTotal
    {
      assert |pool.free + multiset(left) + dev.inflight| == |multiset(all)|;
    }

    /** Between two bursts: `left` is left over, behind the `lastEnqd` operations that the device took. */
    ghost predicate Between(all: set<OpId>, total: nat, size: nat, lastEnqd: nat, unused: nat, left: seq<OpId>)
      reads this, pool, dev, ops
    {
      && deqdTotal <= enqdTotal <= total && lastEnqd <= enqdTotal
      && unused <= size && lastEnqd + unused <= ops.Length
      && left == ops[lastEnqd..lastEnqd + unused] && Valid(all, left)
      && (unused > 0 ==> lastEnqd + unused == BurstSize(total, size, enqdTotal - lastEnqd))
    }

    /** The calls since the run began account for the counters and for what is in flight. */
    ghost predicate Said(calls: seq<Call>, before: seq<Call>)
      reads this`enqdTotal, this`deqdTotal, dev
    {
      dev.log == before + calls && Talked(calls, dev.inflight, enqdTotal, deqdTotal)
    }

    /** The next burst, as large as it may be; the pool can be too small for it. */
    method GatherNext(total: nat, size: nat, lastEnqd: nat, unused: nat, ghost left: seq<OpId>, ghost all: set<OpId>)
        returns (ok: bool)
      requires 1 <= size <= ops.Length && Between(all, total, size, lastEnqd, unused, left) && enqdTotal < total
      modifies this`populated, pool, ops
      ensures var burst := BurstSize(total, size, enqdTotal);
              && burst <= ops.Length
              && (ok ==> Valid(all, ops[..burst]) && EndsWith(ops[..burst], left))
      ensures !ok ==> |left| <= size && Valid(all, left) && |all| < total && |all| < size + |dev.inflight|
    {
      hide Valid, EndsWith;
      NewOpsFit(total, size, enqdTotal - lastEnqd, if unused > 0 then lastEnqd else 0);
      var burst := BurstSize(total, size, enqdTotal);
      Sizes(all, left);
      ok := Gather(burst, lastEnqd, unused, all);
      if ok {
        EndOf(ops[..burst], unused, left);
      }
    }

    /** One turn: gathers a burst, enqueues it and frees what has come back. */
    method OneTurn(total: nat, size: nat, turn: Turn, lastEnqd: nat, unused: nat, ghost left: seq<OpId>,
                   ghost all: set<OpId>, ghost calls: seq<Call>, ghost before: seq<Call>)
        returns (ok: bool, enqd: nat, unused': nat, ghost enq: Call, ghost deq: Call)
      requires 1 <= size <= ops.Length && Between(all, total, size, lastEnqd, unused, left) && enqdTotal < total
      requires Said(calls, before)
      modifies this, pool, dev, ops
      ensures ok ==> Between(all, total, size, enqd, unused', Refused(enq)) && enqdTotal >= old(enqdTotal)
      ensures ok && turn.accepts >= 1 ==> enqdTotal > old(enqdTotal)
      ensures ok ==> Said(calls + [enq] + [deq], before) && Exchanged(calls, enq, deq, turn, total, size)
      ensures ok ==> EndsWith(enq.offered, left)
      ensures !ok ==> |left| <= size && Valid(all, left) && deqdTotal <= enqdTotal <= total
      ensures !ok ==> |all| < total && |all| < size + |dev.inflight| && Said(calls, before)
    {
      hide Valid, Said, Exchanged, Refused, EndsWith;
      enqd, unused', enq, deq := 0, 0, Enq([], 0), Deq(0, []);
      var burst := BurstSize(total, size, enqdTotal);
      ok := GatherNext(total, size, lastEnqd, unused, left, all);
      if ok {
        enqd, unused', enq, deq := Ask(total, burst, size, turn, all, calls, before);
        Counted(all, Refused(enq));
      }
    }

    lemma EndOf(offered: seq<OpId>, unused: nat, left: seq<OpId>)
      requires unused <= |offered| && offered[|offered| - unused..] == left
      ensures EndsWith(offered, left)
    {
    }

    /** The exchange, with what it adds to the calls. */
    method Ask(total: nat, burst: nat, size: nat, turn: Turn, ghost all: set<OpId>, ghost calls: seq<Call>,
               ghost before: seq<Call>)
        returns (enqd: nat, unused: nat, ghost enq: Call, ghost deq: Call)
      requires burst <= ops.Length && Valid(all, ops[..burst]) && Said(calls, before)
      requires enqdTotal < total && burst == BurstSize(total, size, enqdTotal)
      modifies this`populated, this`enqdTotal, this`deqdTotal, pool, dev
      ensures enqd == Min(turn.accepts, burst) && enqd + unused == burst && enqdTotal == old(enqdTotal) + enqd
      ensures Valid(all, ops[enqd..enqd + unused])
      ensures Said(calls + [enq] + [deq], before) && Exchanged(calls, enq, deq, turn, total, size)
      ensures enq == Enq(ops[..burst], enqd) && Refused(enq) == ops[enqd..enqd + unused]
    {
      hide Valid, Talked, Exchanged;
      ghost var offered, inflight, enqd0, deqd0 := ops[..burst], dev.inflight, enqdTotal, deqdTotal;
      ghost var done;
      enqd, unused, done := Exchange(burst, size, turn, all);
      enq, deq := Enq(offered, enqd), Deq(size, done);
      Spoken(calls, inflight, enqd0, deqd0, offered, enqd, size, turn, total, done, dev.inflight);
      assert before + calls + [enq] + [deq] == before + (calls + [enq] + [deq]);
      assert offered[enqd..] == ops[enqd..enqd + unused];
    }

    /**
     * One burst size of the test: `total` operations, with the device behaving as `turns` says.
     * Wherever it ends, every operation is free, left over or in flight; a completed run has put
     * `total` operations through the device and all of them back into the pool. The pool can run
     * out only if it is smaller than the number of operations to do, and only if the device holds
     * so many that one burst more does not fit the pool. The device has been asked in the order that
     * `Talk` describes, and its answers are what the counters count.
     */
    method Run(total: nat, size: nat, turns: seq<Turn>, ghost all: set<OpId>)
        returns (outcome: Outcome, used: nat, ghost left: seq<OpId>, ghost calls: seq<Call>, ghost m: nat)
      requires 1 <= size <= ops.Length
      requires pool.free == multiset(all) && dev.inflight == multiset{}
      modifies this, pool, dev, ops
      ensures used <= |turns| && (outcome.Stopped? ==> used == |turns| && !Steady(turns, total))
      ensures deqdTotal <= enqdTotal <= total
      ensures |left| <= size && Valid(all, left)
      ensures outcome.Completed? ==>
                pool.free == multiset(all) && dev.inflight == multiset{} && enqdTotal == deqdTotal == total
      ensures outcome.PoolExhausted? ==> |all| < total && |all| < size + |dev.inflight|
      ensures Said(calls, old(dev.log)) && m <= used && Talk(calls, turns, total, size, m, used)
      ensures OfferedAgain(calls, m)
      ensures outcome.Completed? ==>
                |Taken(calls)| == |Given(calls)| == total && multiset(Given(calls)) == multiset(Taken(calls))
    {
      hide Talked, MainTalk, Talk, Taken, Given, Exchanged, Dequeued, OfferedAgain, EndsWith, Refused;
      hide Valid, Busy, Accepts, Gives, Steady, SteadyFrom;
      Reset(all);
      used, calls, m := 0, [], 0;
      ghost var before := dev.log;
      TalkNothing(turns, total, size);
      NothingOffered();
      assert before + calls == before;
      var enqd: nat, unused: nat := 0, 0;
      assert ops[0..0] == [];
      left := [];
      BusyStart(Accepts(turns));
      while enqdTotal < total
        invariant used <= |turns| && Between(all, total, size, enqd, unused, left)
        invariant Busy(Accepts(turns), used) <= enqdTotal
        invariant used > 0 ==> Busy(Accepts(turns), used - 1) < total
        invariant Said(calls, before) && |calls| == 2 * used && MainTalk(calls, turns, total, size, used)
        invariant OfferedAgain(calls, used) && LastRefused(calls, used) == left
        decreases |turns| - used
      {
        MainIsTalk(calls, turns, total, size, used);
        if used == |turns| {
          m := used;
          NotSteady(turns, total, used);
          outcome := Stopped;
          return;
        }
        BusyStep(Accepts(turns), used);
        var ok;
        ghost var enq, deq;
        ok, enqd, unused, enq, deq := OneTurn(total, size, turns[used], enqd, unused, left, all, calls, before);
        if !ok {
          outcome, m := PoolExhausted, used;
          return;
        }
        IsEnq(calls, enq, deq, turns[used], total, size);
        MainTalkNext(calls, turns, total, size, used, enq, deq);
        OfferedNext(calls, used, enq, deq);
        calls, left := calls + [enq] + [deq], Refused(enq);
        used := used + 1;
      }
      assert unused == 0 && left == [];
      MainIsTalk(calls, turns, total, size, used);
      m := used;
      ghost var main := calls;
      used, calls := Drain(total, size, turns, used, all, calls, before);
      OfferedBefore(main, calls, m);
      Counted(all, left);
      CameBack(calls, dev.inflight, enqdTotal, deqdTotal);
      outcome := if deqdTotal < total then Stopped else Completed;
    }

    lemma NothingOffered()
      ensures OfferedAgain([], 0) && LastRefused([], 0) == []
    {
    }

    lemma IsEnq(calls: seq<Call>, enq: Call, deq: Call, turn: Turn, total: nat, size: nat)
      requires Exchanged(calls, enq, deq, turn, total, size)
      ensures enq.Enq?
    {
    }

    lemma OfferedBefore(main: seq<Call>, calls: seq<Call>, m: nat)
      requires OfferedAgain(main, m) && main <= calls
      ensures OfferedAgain(calls, m)
    {
      hide EndsWith, Refused;
      forall j: nat | j + 1 < m
        ensures calls[2 * j + 2].Enq? && EndsWith(calls[2 * j + 2].offered, Refused(calls[2 * j]))
      {
        assert calls[2 * j + 2] == main[2 * j + 2] && calls[2 * j] == main[2 * j];
      }
    }

    lemma CameBack(calls: seq<Call>, inflight: multiset<OpId>, enqd: nat, deqd: nat)
      requires Talked(calls, inflight, enqd, deqd)
      ensures |Taken(calls)| == enqd && |Given(calls)| == deqd
      ensures inflight == multiset{} ==> multiset(Given(calls)) == multiset(Taken(calls))
    {
    }

    /** Dequeues whatever is still in the device. */
    method Drain(total: nat, size: nat, turns: seq<Turn>, from: nat, ghost all: set<OpId>,
                 ghost main: seq<Call>, ghost before: seq<Call>)
        returns (used: nat, ghost calls: seq<Call>)
      requires enqdTotal == total && Valid(all, []) && from <= |turns| && size >= 1
      requires from > 0 ==> Busy(Accepts(turns), from - 1) < total
      requires Said(main, before) && Talk(main, turns, total, size, from, from)
      modifies this`populated, this`deqdTotal, pool, dev
      ensures from <= used <= |turns| && Valid(all, [])
      ensures deqdTotal < total ==> used == |turns| && !Steady(turns, total)
      ensures main <= calls && Said(calls, before) && Talk(calls, turns, total, size, from, used)
    {
      hide Accounted, Busy, Accepts, Gives, Steady, SteadyFrom, Talk, MainTalk;
      used, calls := from, main;
      while deqdTotal < total && used < |turns|
        invariant from <= used <= |turns| && Valid(all, [])
        invariant Busy(Gives(turns), used) - Busy(Gives(turns), from) <= deqdTotal
        invariant main <= calls && Said(calls, before) && Talk(calls, turns, total, size, from, used)
      {
        Counted(all, []);
        BusyStep(Gives(turns), used);
        ghost var deq := DrainOne(total, size, turns[used], all, calls, before);
        TalkNext(calls, turns, total, size, from, used, deq);
        calls := calls + [deq];
        used := used + 1;
      }
      if deqdTotal < total {
        NotSteady(turns, total, from);
      }
    }

    /** One dequeue call. */
    method DrainOne(total: nat, size: nat, turn: Turn, ghost all: set<OpId>, ghost calls: seq<Call>,
                    ghost before: seq<Call>)
        returns (ghost deq: Call)
      requires enqdTotal == total && Valid(all, []) && Said(calls, before)
      modifies this`populated, this`deqdTotal, pool, dev
      ensures Valid(all, []) && Said(calls + [deq], before) && Dequeued(calls, deq, turn, size)
      ensures deqdTotal == old(deqdTotal) + Min(Min(size, turn.gives), |old(dev.inflight)|)
    {
      hide Accounted, Taken, Given;
      Counted(all, []);
      ghost var free, inflight, populatedBefore := pool.free, dev.inflight, populated;
      var done := dev.DequeueBurst(size, turn.gives);
      deq := Deq(size, done);
      ghost var none: seq<OpId> := [];
      assert none + none == none;
      AccountExchanged(all, free, none, none, inflight, dev.inflight, done, populatedBefore, enqdTotal, deqdTotal);
      TalkedDeq(calls, inflight, enqdTotal, deqdTotal, size, done, dev.inflight);
      assert dev.log == before + (calls + [deq]);
      Release(done);
    }

    /** Every burst size in turn, each starting from a full pool and an empty device. */
    method RunAll(total: nat, sizes: seq<nat>, turns: seq<seq<Turn>>, ghost all: set<OpId>)
        returns (outcome: Outcome, ghost left: seq<OpId>)
      requires |turns| == |sizes| && (forall size | size in sizes :: 1 <= size <= ops.Length)
      requires pool.free == multiset(all) && dev.inflight == multiset{}
      modifies this, pool, dev, ops
      ensures outcome.Completed? ==> left == [] && pool.free == multiset(all) && dev.inflight == multiset{}
      ensures pool.free + multiset(left) + dev.inflight == multiset(all)
    {
      outcome, left := Completed, [];
      var k := 0;
      while k < |sizes| && outcome.Completed?
        invariant k <= |sizes|
        invariant outcome.Completed? ==> pool.free == multiset(all) && dev.inflight == multiset{} && left == []
        invariant pool.free + multiset(left) + dev.inflight == multiset(all)
        decreases |sizes| - k
      {
        assert sizes[k] in sizes;
        var used;
        ghost var calls, m;
        outcome, used, left, calls, m := Run(total, sizes[k], turns[k], all);
        if outcome.Completed? {
          left := [];
        }
        k := k + 1;
      }
    }
  }
}
