/**
 * The crypto cycle-count runner: one array of operation pointers is filled from the pool,
 * enqueued from the front, and then overwritten in place with whatever the device hands back,
 * in any order, before the whole array is put back into the pool.
 */
module CryptoCyclecount {
  import opened Devices

  /** The device's answers to the enqueue bursts and to the dequeue bursts of one round. */
  datatype Round = Round(accepts: seq<nat>, gives: seq<nat>)

  /** What the device takes of the first burst of each round; when that is nothing the round is empty. */
  ghost function Offered(rounds: seq<Round>): (s: seq<nat>)
    ensures |s| == |rounds| && forall i | 0 <= i < |rounds| :: s[i] == FirstTaken(rounds[i])
  {
    seq(|rounds|, i requires 0 <= i < |rounds| => FirstTaken(rounds[i]))
  }

  function FirstTaken(round: Round): nat {
    Answer(round.accepts, 0)
  }

  /** The device gives something back often enough in a round for `n` operations. */
  ghost predicate GivesBack(round: Round, n: nat) {
    Busy(round.gives, |round.gives|) >= n
  }

  /**
   * A device that takes something in at least `total` of the rounds, with empty rounds in between,
   * and in each round gives back, with any pauses, up to `n` operations.
   */
  ghost predicate Responsive(rounds: seq<Round>, total: nat, n: nat) {
    && Busy(Offered(rounds), |rounds|) >= total
    && forall i | 0 <= i < |rounds| :: GivesBack(rounds[i], n)
  }

  // ----- the calls of a round -----

  function Answer(answers: seq<nat>, i: nat): nat {
    if i < |answers| then answers[i] else 0
  }

  /** The next burst of a batch of which `at` operations are in, and what the device takes of it. */
  function Offer(batch: seq<OpId>, at: nat, burst: nat, accepts: nat): Call
    requires at <= |batch|
  {
    var n := Min(|batch| - at, burst);
    Enq(batch[at..at + n], Min(accepts, n))
  }

  predicate Refused(calls: seq<Call>) {
    calls != [] && calls[|calls| - 1].Enq? && calls[|calls| - 1].n == 0
  }

  /** The batch is offered from the front, from where the device stopped taking, until it takes nothing. */
  ghost predicate Offers(calls: seq<Call>, batch: seq<OpId>, burst: nat, accepts: seq<nat>)
    decreases |calls|
  {
    calls != [] ==>
      var before := calls[..|calls| - 1];
      && Offers(before, batch, burst, accepts) && |Taken(before)| < |batch| && !Refused(before)
      && calls[|calls| - 1] == Offer(batch, |Taken(before)|, burst, Answer(accepts, |before|))
  }

  /** Operations are asked for until `needed` have come back. */
  ghost predicate Asks(calls: seq<Call>, needed: nat, burst: nat, gives: seq<nat>)
    decreases |calls|
  {
    calls != [] ==>
      var before, last := calls[..|calls| - 1], calls[|calls| - 1];
      && Asks(before, needed, burst, gives) && |Given(before)| < needed && |before| < |gives|
      && last.Deq? && last.max == Min(needed - |Given(before)|, burst)
      && |last.back| == Min(last.max, gives[|before|])
  }

  /** Bursts of which the device took a part, but not all. */
  function ShortOffers(calls: seq<Call>): nat {
    if calls == [] then 0
    else
      var c := calls[|calls| - 1];
      ShortOffers(calls[..|calls| - 1]) + if c.Enq? && 0 < c.n < |c.offered| then 1 else 0
  }

  /** Dequeue calls that brought less than they asked for. */
  function ShortAnswers(calls: seq<Call>): nat {
    if calls == [] then 0
    else
      var c := calls[|calls| - 1];
      ShortAnswers(calls[..|calls| - 1]) + if c.Deq? && |c.back| < c.max then 1 else 0
  }

  /** All that is counted of some calls. */
  ghost predicate Counts(calls: seq<Call>, enqd: nat, deqd: nat, enqShort: nat, deqShort: nat) {
    && |Taken(calls)| == enqd && |Given(calls)| == deqd
    && ShortOffers(calls) == enqShort && ShortAnswers(calls) == deqShort
  }

  lemma CountsNothing()
    ensures Counts([], 0, 0, 0, 0)
  {
  }

  lemma CountsNext(calls: seq<Call>, enqd: nat, deqd: nat, enqShort: nat, deqShort: nat, c: Call)
    requires Counts(calls, enqd, deqd, enqShort, deqShort)
    ensures Counts(calls + [c], enqd + |Takes(c)|, deqd + (if c.Deq? then |c.back| else 0),
                   enqShort + (if c.Enq? && 0 < c.n < |c.offered| then 1 else 0),
                   deqShort + (if c.Deq? && |c.back| < c.max then 1 else 0))
  {
    CallsNext(calls, c);
    hide Taken, Given;
    assert (calls + [c])[..|calls|] == calls;
  }

  lemma {:induction false} CountsBoth(calls: seq<Call>, more: seq<Call>, enqd: nat, deqd: nat, enqShort: nat,
                                      deqShort: nat, enqd': nat, deqd': nat, enqShort': nat, deqShort': nat)
    requires Counts(calls, enqd, deqd, enqShort, deqShort) && Counts(more, enqd', deqd', enqShort', deqShort')
    ensures Counts(calls + more, enqd + enqd', deqd + deqd', enqShort + enqShort', deqShort + deqShort')
    decreases |more|
  {
    hide Taken, Given, Counts, ShortOffers, ShortAnswers;
    if more == [] {
      CountsOnly(more, enqd', deqd', enqShort', deqShort');
      assert calls + more == calls;
    } else {
      var front, c := more[..|more| - 1], more[|more| - 1];
      var e, d, es, ds := CountsExist(front);
      CountsNext(front, e, d, es, ds, c);
      assert front + [c] == more;
      CountsSame(more, enqd', deqd', enqShort', deqShort', e + |Takes(c)|, d + (if c.Deq? then |c.back| else 0),
                 es + (if c.Enq? && 0 < c.n < |c.offered| then 1 else 0),
                 ds + (if c.Deq? && |c.back| < c.max then 1 else 0));
      CountsBoth(calls, front, enqd, deqd, enqShort, deqShort, e, d, es, ds);
      CountsNext(calls + front, enqd + e, deqd + d, enqShort + es, deqShort + ds, c);
      assert calls + front + [c] == calls + more;
    }
  }

  lemma CountsOnly(calls: seq<Call>, enqd: nat, deqd: nat, enqShort: nat, deqShort: nat)
    requires Counts(calls, enqd, deqd, enqShort, deqShort) && calls == []
    ensures enqd == deqd == enqShort == deqShort == 0
  {
  }

  lemma CountsExist(calls: seq<Call>) returns (enqd: nat, deqd: nat, enqShort: nat, deqShort: nat)
    ensures Counts(calls, enqd, deqd, enqShort, deqShort)
  {
    enqd, deqd, enqShort, deqShort := |Taken(calls)|, |Given(calls)|, ShortOffers(calls), ShortAnswers(calls);
  }

  lemma CountsSame(calls: seq<Call>, enqd: nat, deqd: nat, enqShort: nat, deqShort: nat, enqd': nat, deqd': nat,
                   enqShort': nat, deqShort': nat)
    requires Counts(calls, enqd, deqd, enqShort, deqShort) && Counts(calls, enqd', deqd', enqShort', deqShort')
    ensures enqd == enqd' && deqd == deqd' && enqShort == enqShort' && deqShort == deqShort'
  {
  }

  lemma OffersNext(calls: seq<Call>, batch: seq<OpId>, burst: nat, accepts: seq<nat>, c: Call, enqd: nat)
    requires Offers(calls, batch, burst, accepts) && |Taken(calls)| == enqd < |batch| && !Refused(calls)
    requires c == Offer(batch, enqd, burst, Answer(accepts, |calls|))
    ensures Offers(calls + [c], batch, burst, accepts)
  {
    assert (calls + [c])[..|calls|] == calls;
    hide Taken;
  }

  lemma AsksNext(calls: seq<Call>, needed: nat, burst: nat, gives: seq<nat>, c: Call, deqd: nat)
    requires Asks(calls, needed, burst, gives) && |Given(calls)| == deqd < needed && |calls| < |gives|
    requires c.Deq? && c.max == Min(needed - deqd, burst) && |c.back| == Min(c.max, gives[|calls|])
    ensures Asks(calls + [c], needed, burst, gives)
  {
    assert (calls + [c])[..|calls|] == calls;
    hide Given;
  }

  /** A round, as the device sees it: a batch, the offers of it, and the calls that got it back. */
  datatype Circuit = Circuit(batch: seq<OpId>, enqs: seq<Call>, deqs: seq<Call>)

  /** Offered until all is in or nothing is taken, and asked for until what went in is back or the answers are out. */
  ghost predicate InRound(c: Circuit, round: Round, needed: nat, burst: nat) {
    && |c.batch| == needed && Offers(c.enqs, c.batch, burst, round.accepts)
    && (Refused(c.enqs) || |Taken(c.enqs)| == needed)
    && Asks(c.deqs, |Taken(c.enqs)|, burst, round.gives)
    && (|Given(c.deqs)| == |Taken(c.enqs)| || |c.deqs| == |round.gives|)
  }

  function Calls(circuits: seq<Circuit>): seq<Call> {
    if circuits == [] then []
    else Calls(circuits[..|circuits| - 1]) + circuits[|circuits| - 1].enqs + circuits[|circuits| - 1].deqs
  }

  /** Each round is for as many operations as are still to do, up to the length of the array. */
  ghost predicate InRounds(circuits: seq<Circuit>, rounds: seq<Round>, total: nat, size: nat, burst: nat)
    decreases |circuits|
  {
    && |circuits| <= |rounds|
    && (circuits != [] ==>
          var before := circuits[..|circuits| - 1];
          var enqd, last := |Taken(Calls(before))|, |circuits| - 1;
          && InRounds(before, rounds, total, size, burst) && enqd < total
          && InRound(circuits[last], rounds[last], Min(size, total - enqd), burst))
  }

  lemma InRoundsNext(circuits: seq<Circuit>, rounds: seq<Round>, total: nat, size: nat, burst: nat, c: Circuit,
                     enqd: nat)
    requires InRounds(circuits, rounds, total, size, burst) && |circuits| < |rounds|
    requires |Taken(Calls(circuits))| == enqd < total
    requires InRound(c, rounds[|circuits|], Min(size, total - enqd), burst)
    ensures InRounds(circuits + [c], rounds, total, size, burst)
    ensures Calls(circuits + [c]) == Calls(circuits) + c.enqs + c.deqs
  {
    assert (circuits + [c])[..|circuits|] == circuits;
    hide Taken, InRound;
  }

  /** `back` leaves one place and is appended to the array. */
  lemma Appended(inflight: multiset<OpId>, inflight': multiset<OpId>, filled: seq<OpId>, back: seq<OpId>)
    requires inflight' + multiset(back) == inflight
    ensures inflight' + multiset(filled + back) == inflight + multiset(filled)
    ensures |inflight'| + |back| == |inflight|
  {
    assert |inflight' + multiset(back)| == |inflight|;
    assert multiset(filled + back) == multiset(filled) + multiset(back);
  }

  class Runner {
    const pool: Mempool
    const dev: Device
    const ops: array<OpId>
    var opsEnqd: nat
    var opsDeqd: nat
    var enqRetries: nat
    var deqRetries: nat

    constructor (pool: Mempool, dev: Device, nbDescriptors: nat)
      ensures this.pool == pool && this.dev == dev && fresh(ops) && ops.Length == nbDescriptors
    {
      this.pool, this.dev := pool, dev;
      ops := new OpId[nbDescriptors];
      opsEnqd, opsDeqd, enqRetries, deqRetries := 0, 0, 0, 0;
    }

    /** Allocates, builds and frees a stretch of operations, a burst-sized window at a time. */
    method BenchOps(curOp: nat, total: nat, burst: nat) returns (ok: bool)
      requires curOp < total && burst >= 1
      modifies pool, ops
      ensures pool.free == old(pool.free)
      ensures ok == (LargestWindow(total - curOp, burst) <= |pool.free|)
    {
      var needed := Min(ops.Length, total - curOp);
      ghost var all := pool.free;
      ok := true;
      var cur := 0;
      while cur < needed && ok
        invariant pool.free == all
        invariant ok == (cur == 0 || LargestWindow(total - curOp, burst) <= |all|)
        decreases needed - cur, ok
      {
        var n := Min(needed - cur, burst);
        ok := pool.GetBulk(ops, cur, n);
        if ok {
          pool.PutBulk(ops[cur..cur + n]);
        }
        cur := cur + burst;
      }
    }

    /** The most operations that are out of the pool at a time while `left` operations are dealt with. */
    function LargestWindow(left: nat, burst: nat): nat {
      Min(Min(ops.Length, left), burst)
    }

    /** The benchmark of allocation by itself: it leaves the pool as it was, or finds it smaller than a burst. */
    method BenchAllOps(total: nat, burst: nat) returns (ok: bool)
      requires ops.Length >= 1 && burst >= 1
      modifies pool, ops
      ensures pool.free == old(pool.free)
      ensures ok == (LargestWindow(total, burst) <= |pool.free|)
    {
      var curOp := 0;
      ok := true;
      while curOp < total && ok
        invariant pool.free == old(pool.free)
        invariant ok == (curOp == 0 || LargestWindow(total, burst) <= |pool.free|)
        decreases total - curOp, ok
      {
        ok := BenchOps(curOp, total, burst);
        curOp := curOp + ops.Length;
      }
    }

    /** Allocates `needed` operations, a burst-sized window at a time; it fails only when the pool holds fewer. */
    method BuildOps(needed: nat, burst: nat) returns (ok: bool)
      requires needed <= ops.Length && burst >= 1
      modifies pool, ops
      ensures ok == (needed <= |old(pool.free)|)
      ensures ok ==> pool.free + multiset(ops[..needed]) == old(pool.free)
    {
      var cur := 0;
      ok := true;
      ghost var all, filled: seq<OpId> := pool.free, [];
      NoneTaken(all);
      while cur < needed && ok
        invariant |filled| == cur <= needed && filled == ops[..][..cur]
        invariant ok ==> pool.free + multiset(filled) == all && |pool.free| + cur == |all|
        invariant !ok ==> |all| < needed
        decreases needed - cur, ok
      {
        ghost var free, back := pool.free, filled;
        var n := Min(needed - cur, burst);
        ok, back := GetInto(cur, n);
        if ok {
          Appended(free, pool.free, filled, back);
          filled := filled + back;
          cur := cur + n;
        }
      }
    }

    /** One bulk allocation straight into the array. */
    method GetInto(at: nat, n: nat) returns (ok: bool, ghost back: seq<OpId>)
      requires at + n <= ops.Length
      modifies pool, ops
      ensures ok == (n <= |old(pool.free)|) && ops[..][..at] == old(ops[..])[..at]
      ensures ok ==> pool.free + multiset(back) == old(pool.free) && |back| == n
      ensures ok ==> ops[..][..at + n] == old(ops[..])[..at] + back
    {
      ok := pool.GetBulk(ops, at, n);
      back := ops[at..at + n];
      assert ops[..][..at] == ops[..at] && ops[..][..at + n] == ops[..at] + back;
    }

    /** Enqueues from the front until all is in or the device takes nothing more; returns how many went in. */
    method BenchEnq(needed: nat, burst: nat, accepts: seq<nat>, ghost batch: seq<OpId>)
        returns (enqd: nat, ghost enqs: seq<Call>, ghost short: nat)
      requires needed <= ops.Length && burst >= 1 && batch == ops[..][..needed]
      modifies this`opsEnqd, this`enqRetries, dev
      ensures enqd <= needed && opsEnqd == old(opsEnqd) + enqd && enqRetries == old(enqRetries) + short
      ensures Holds(dev.inflight, old(dev.inflight), batch, enqd)
      ensures needed >= 1 ==> (enqd >= 1 <==> Answer(accepts, 0) >= 1)
      ensures dev.log == old(dev.log) + enqs && Offers(enqs, batch, burst, accepts)
      ensures (Refused(enqs) || enqd == needed) && Counts(enqs, enqd, 0, short, 0)
    {
      hide Taken, Given, Counts, Offers, Refused, ShortOffers, ShortAnswers, Min, Answer, Holds;
      enqd, enqs, short := 0, [], 0;
      ghost var log, before := dev.log, dev.inflight;
      var turn := 0;
      HoldsNone(before, batch);
      NoOffers(batch, burst, accepts);
      assert log + enqs == log;
      while enqd < needed
        invariant enqd <= needed && opsEnqd == old(opsEnqd) + enqd && enqRetries == old(enqRetries) + short
        invariant if turn == 0 then enqd == 0 else enqd > 0 && Answer(accepts, 0) >= 1
        invariant Holds(dev.inflight, before, batch, enqd)
        invariant dev.log == log + enqs && Offers(enqs, batch, burst, accepts) && !Refused(enqs) && |enqs| == turn
        invariant Counts(enqs, enqd, 0, short, 0)
        decreases needed - enqd
      {
        var n := Min(needed - enqd, burst);
        var taken;
        taken, enqs := EnqueueNext(enqd, n, Answer(accepts, turn), batch, burst, accepts, enqs, log, short, before);
        turn := turn + 1;
        if taken == 0 {
          return;
        }
        if taken < n {
          enqRetries, short := enqRetries + 1, short + 1;
        }
        opsEnqd := opsEnqd + taken;
        enqd := enqd + taken;
      }
    }

    /** One enqueue burst, with what it adds to the calls. */
    method EnqueueNext(enqd: nat, n: nat, accepts: nat, ghost batch: seq<OpId>, ghost burst: nat,
                       ghost answers: seq<nat>, ghost calls: seq<Call>, ghost log: seq<Call>, ghost short: nat,
                       ghost before: multiset<OpId>)
        returns (taken: nat, ghost enqs: seq<Call>)
      requires enqd < |batch| <= ops.Length && batch == ops[..][..|batch|] && n == Min(|batch| - enqd, burst)
      requires Offers(calls, batch, burst, answers) && !Refused(calls) && Counts(calls, enqd, 0, short, 0)
      requires dev.log == log + calls && accepts == Answer(answers, |calls|)
      requires Holds(dev.inflight, before, batch, enqd)
      modifies dev
      ensures enqd + taken <= |batch| && (burst >= 1 ==> (taken >= 1 <==> accepts >= 1))
      ensures Holds(dev.inflight, before, batch, enqd + taken)
      ensures dev.log == log + enqs && |enqs| == |calls| + 1
      ensures Offers(enqs, batch, burst, answers) && Refused(enqs) == (taken == 0)
      ensures Counts(enqs, enqd + taken, 0, short + if 0 < taken < n then 1 else 0, 0)
    {
      hide Taken, Given, Counts, Offers, Refused, ShortOffers, ShortAnswers;
      ghost var c, more;
      taken, more, c := EnqueueFrom(enqd, n, accepts);
      assert ops[..][enqd..enqd + n] == batch[enqd..enqd + n];
      MoreTaken(before, batch[..enqd], before + multiset(batch[..enqd]), more);
      assert batch[..enqd + taken] == batch[..enqd] + more;
      OfferNoted(calls, batch, burst, answers, c, enqd, n, taken, short);
      enqs := calls + [c];
      assert log + calls + [c] == log + enqs;
    }

    lemma NoOffers(batch: seq<OpId>, burst: nat, accepts: seq<nat>)
      ensures Offers([], batch, burst, accepts) && !Refused([]) && Counts([], 0, 0, 0, 0)
    {
    }

    lemma OfferNoted(calls: seq<Call>, batch: seq<OpId>, burst: nat, accepts: seq<nat>, c: Call, enqd: nat, n: nat,
                     taken: nat, short: nat)
      requires Offers(calls, batch, burst, accepts) && !Refused(calls) && Counts(calls, enqd, 0, short, 0)
      requires enqd < |batch| && n == Min(|batch| - enqd, burst) && n <= |batch| - enqd
      requires c == Enq(batch[enqd..enqd + n], taken) && taken == Min(Answer(accepts, |calls|), n)
      ensures Offers(calls + [c], batch, burst, accepts) && Refused(calls + [c]) == (taken == 0)
      ensures Counts(calls + [c], enqd + taken, 0, short + if 0 < taken < n then 1 else 0, 0)
    {
      hide Taken, Given, Offers, ShortOffers, ShortAnswers;
      assert |Takes(c)| == taken;
      OffersNext(calls, batch, burst, accepts, c, enqd);
      CountsNext(calls, enqd, 0, short, 0, c);
      hide Counts;
    }

    /** One enqueue burst straight from the array. */
    method EnqueueFrom(at: nat, n: nat, accepts: nat) returns (taken: nat, ghost more: seq<OpId>, ghost c: Call)
      requires at + n <= ops.Length
      modifies dev
      ensures taken == |more| == Min(accepts, n) && (taken == 0 ==> dev.inflight == old(dev.inflight))
      ensures ops[..][..at + taken] == ops[..][..at] + more
      ensures dev.inflight == old(dev.inflight) + multiset(more)
      ensures dev.log == old(dev.log) + [c] && c == Enq(ops[..][at..at + n], taken)
    {
      taken := dev.EnqueueBurst(ops[at..at + n], accepts);
      more, c := ops[at..at + n][..taken], Enq(ops[at..at + n], taken);
      assert ops[..][..at + taken] == ops[..][..at] + more;
      assert ops[..][at..at + n] == ops[at..at + n];
    }

    /** The device has the front of the array, besides what it had before. */
    ghost predicate Holds(inflight: multiset<OpId>, before: multiset<OpId>, all: seq<OpId>, enqd: nat) {
      enqd <= |all| && inflight == before + multiset(all[..enqd])
    }

    lemma HoldsNone(before: multiset<OpId>, all: seq<OpId>)
      ensures Holds(before, before, all, 0)
    {
      NoneTaken(before);
      assert all[..0] == [];
    }

    lemma NoneTaken(before: multiset<OpId>)
      ensures before == before + multiset([])
    {
    }

    lemma MoreTaken(before: multiset<OpId>, front: seq<OpId>, inflight: multiset<OpId>, more: seq<OpId>)
      requires inflight == before + multiset(front)
      ensures inflight + multiset(more) == before + multiset(front + more)
    {
      assert multiset(front + more) == multiset(front) + multiset(more);
    }

    /** Dequeues `needed` operations over the front of the array; what lies behind stays. */
    method BenchDeq(needed: nat, burst: nat, gives: seq<nat>)
        returns (deqd: nat, ghost deqs: seq<Call>, ghost short: nat)
      requires needed <= ops.Length && burst >= 1 && |dev.inflight| == needed
      modifies this`opsDeqd, this`deqRetries, dev, ops
      ensures deqd <= needed && opsDeqd == old(opsDeqd) + deqd && deqRetries == old(deqRetries) + short
      ensures dev.inflight + multiset(Given(deqs)) == old(dev.inflight) && |dev.inflight| + deqd == needed
      ensures ops[..][needed..] == old(ops[..])[needed..] && ops[..][..deqd] == Given(deqs)
      ensures Busy(gives, |gives|) >= needed ==> deqd == needed
      ensures dev.log == old(dev.log) + deqs && Asks(deqs, needed, burst, gives)
      ensures (deqd == needed || |deqs| == |gives|) && Counts(deqs, 0, deqd, 0, short)
    {
      hide Busy, Taken, Given, Counts, Asks, Overwritten, ShortOffers, ShortAnswers, Min;
      BusyStart(gives);
      deqd, deqs, short := 0, [], 0;
      var turn := 0;
      ghost var all, log, behind := dev.inflight, dev.log, ops[..][needed..];
      NoAsks(needed, burst, gives);
      NotOverwritten(ops[..], needed, all);
      assert log + deqs == log;
      while deqd < needed && turn < |gives|
        invariant deqd <= needed && opsDeqd == old(opsDeqd) + deqd && deqRetries == old(deqRetries) + short
        invariant turn <= |gives| && Busy(gives, turn) <= deqd
        invariant Overwritten(ops[..], deqd, needed, Given(deqs), behind, dev.inflight, all)
        invariant dev.log == log + deqs && Asks(deqs, needed, burst, gives) && |deqs| == turn
        invariant Counts(deqs, 0, deqd, 0, short)
        decreases |gives| - turn
      {
        BusyStep(gives, turn);
        var n := Min(needed - deqd, burst);
        var got;
        got, deqs := DequeueNext(deqd, n, turn, needed, burst, gives, deqs, log, short, all, behind);
        turn := turn + 1;
        if got < n {
          deqRetries, short := deqRetries + 1, short + 1;
        }
        opsDeqd := opsDeqd + got;
        deqd := deqd + got;
      }
      OverwrittenIs(ops[..], deqd, needed, Given(deqs), behind, dev.inflight, all);
    }

    /** The front of the array is what has come back, the end is as it was, and the rest is in flight. */
    ghost predicate Overwritten(a: seq<OpId>, deqd: nat, needed: nat, back: seq<OpId>, behind: seq<OpId>,
                                inflight: multiset<OpId>, all: multiset<OpId>) {
      && deqd <= needed <= |a| && a[..deqd] == back && a[needed..] == behind
      && inflight + multiset(back) == all && |inflight| + deqd == needed
    }

    lemma NotOverwritten(a: seq<OpId>, needed: nat, all: multiset<OpId>)
      requires needed <= |a| && |all| == needed
      ensures Overwritten(a, 0, needed, [], a[needed..], all, all)
    {
    }

    lemma OverwrittenIs(a: seq<OpId>, deqd: nat, needed: nat, back: seq<OpId>, behind: seq<OpId>,
                        inflight: multiset<OpId>, all: multiset<OpId>)
      requires Overwritten(a, deqd, needed, back, behind, inflight, all)
      ensures deqd <= needed <= |a| && a[..deqd] == back && a[needed..] == behind
      ensures inflight + multiset(back) == all && |inflight| + deqd == needed
    {
    }

    /** One dequeue burst, with what it adds to the calls. */
    method DequeueNext(deqd: nat, n: nat, turn: nat, ghost needed: nat, ghost burst: nat, gives: seq<nat>,
                       ghost calls: seq<Call>, ghost log: seq<Call>, ghost short: nat, ghost all: multiset<OpId>,
                       ghost behind: seq<OpId>)
        returns (got: nat, ghost deqs: seq<Call>)
      requires |calls| == turn < |gives| && burst >= 1
      requires deqd < needed && n == Min(needed - deqd, burst) && dev.log == log + calls
      requires Asks(calls, needed, burst, gives) && Counts(calls, 0, deqd, 0, short)
      requires Overwritten(ops[..], deqd, needed, Given(calls), behind, dev.inflight, all)
      modifies dev, ops
      ensures deqd + got <= needed && (gives[turn] >= 1 ==> got >= 1)
      ensures Overwritten(ops[..], deqd + got, needed, Given(deqs), behind, dev.inflight, all)
      ensures dev.log == log + deqs && |deqs| == |calls| + 1 && Asks(deqs, needed, burst, gives)
      ensures Counts(deqs, 0, deqd + got, 0, short + if got < n then 1 else 0)
    {
      hide Taken, Given, Counts, Asks, ShortOffers, ShortAnswers;
      ghost var inflight, back := dev.inflight, [];
      got, back := DequeueInto(deqd, n, gives[turn]);
      Appended(inflight, dev.inflight, Given(calls), back);
      AskNoted(calls, needed, burst, gives, n, back, deqd, short);
      deqs := calls + [Deq(n, back)];
      assert log + calls + [Deq(n, back)] == log + deqs;
      SameBehind(old(ops[..]), ops[..], deqd + n, needed, ops.Length - needed);
    }

    lemma NoAsks(needed: nat, burst: nat, gives: seq<nat>)
      ensures Asks([], needed, burst, gives) && Given([]) == [] && Counts([], 0, 0, 0, 0)
    {
    }

    lemma AskNoted(calls: seq<Call>, needed: nat, burst: nat, gives: seq<nat>, n: nat, back: seq<OpId>, deqd: nat,
                   short: nat)
      requires Asks(calls, needed, burst, gives) && Counts(calls, 0, deqd, 0, short)
      requires deqd < needed && |calls| < |gives| && n == Min(needed - deqd, burst)
      requires |back| == Min(Min(n, gives[|calls|]), needed - deqd)
      ensures Asks(calls + [Deq(n, back)], needed, burst, gives)
      ensures Given(calls + [Deq(n, back)]) == Given(calls) + back
      ensures Counts(calls + [Deq(n, back)], 0, deqd + |back|, 0, short + if |back| < n then 1 else 0)
    {
      AsksNext(calls, needed, burst, gives, Deq(n, back), deqd);
      CountsNext(calls, 0, deqd, 0, short, Deq(n, back));
      CallsNext(calls, Deq(n, back));
      hide Taken, Given, Counts, Asks;
    }

    /** One dequeue burst straight into the array. */
    method DequeueInto(at: nat, n: nat, gives: nat) returns (got: nat, ghost back: seq<OpId>)
      requires at + n <= ops.Length
      modifies dev, ops
      ensures got == |back| == Min(Min(n, gives), |old(dev.inflight)|)
      ensures dev.inflight + multiset(back) == old(dev.inflight) && dev.log == old(dev.log) + [Deq(n, back)]
      ensures ops[..][..at + got] == old(ops[..])[..at] + back && ops[..][at + n..] == old(ops[..])[at + n..]
    {
      var ops' := dev.DequeueBurst(n, gives);
      got, back := |ops'|, ops';
      forall k | 0 <= k < got {
        ops[at + k] := ops'[k];
      }
      assert ops[..][..at + got] == old(ops[..])[..at] + back;
    }

    /**
     * One round: fill, enqueue, dequeue over the same array, put the array back. Although the
     * device may return operations in any order, the array then holds exactly what was allocated.
     */
    method OneRound(needed: nat, burst: nat, round: Round, ghost all: set<OpId>, ghost calls: seq<Call>)
        returns (finished: bool, enqd: nat, ghost held: seq<OpId>, ghost c: Circuit)
      requires needed <= ops.Length <= |all| && burst >= 1
      requires pool.free == multiset(all) && dev.inflight == multiset{}
      requires Counts(calls, opsEnqd, opsDeqd, enqRetries, deqRetries)
      modifies this, pool, dev, ops
      ensures enqd <= needed && opsEnqd == old(opsEnqd) + enqd && opsDeqd <= old(opsDeqd) + enqd
      ensures finished ==> opsDeqd == old(opsDeqd) + enqd && pool.free == multiset(all) && dev.inflight == multiset{}
      ensures !finished ==> pool.free + multiset(held) + dev.inflight == multiset(all)
      ensures GivesBack(round, ops.Length) ==> finished
      ensures needed >= 1 ==> (enqd >= 1 <==> FirstTaken(round) >= 1)
      ensures InRound(c, round, needed, burst) && dev.log == old(dev.log) + c.enqs + c.deqs
      ensures multiset(c.batch) <= multiset(all)
      ensures Counts(calls + c.enqs + c.deqs, opsEnqd, opsDeqd, enqRetries, deqRetries)
    {
      hide InRound, Counts;
      var ok := BuildOps(needed, burst);
      assert ok;
      ghost var batch := multiset(ops[..][..needed]);
      assert ops[..][..needed] == ops[..needed];
      finished, enqd, held, c := Circulate(needed, burst, round, calls, ops[..][..needed]);
      Handed(all, pool.free, batch, held, dev.inflight);
      if finished {
        pool.PutBulk(ops[..needed]);
        assert ops[..][..needed] == ops[..needed];
      }
    }

    /** Enqueue and dequeue: `held` is what the array still owns, the whole array when all came back. */
    method Circulate(needed: nat, burst: nat, round: Round, ghost calls: seq<Call>, ghost batch: seq<OpId>)
        returns (finished: bool, enqd: nat, ghost held: seq<OpId>, ghost c: Circuit)
      requires needed <= ops.Length && burst >= 1 && dev.inflight == multiset{} && batch == ops[..][..needed]
      requires Counts(calls, opsEnqd, opsDeqd, enqRetries, deqRetries)
      modifies this, dev, ops
      ensures enqd <= needed && opsEnqd == old(opsEnqd) + enqd && opsDeqd <= old(opsDeqd) + enqd
      ensures multiset(held) + dev.inflight == multiset(batch)
      ensures finished ==> opsDeqd == old(opsDeqd) + enqd && dev.inflight == multiset{}
      ensures finished ==> held == ops[..][..needed] == Given(c.deqs) + batch[enqd..]
      ensures GivesBack(round, ops.Length) ==> finished
      ensures needed >= 1 ==> (enqd >= 1 <==> FirstTaken(round) >= 1)
      ensures InRound(c, round, needed, burst) && c.batch == batch
      ensures dev.log == old(dev.log) + c.enqs + c.deqs
      ensures Counts(calls + c.enqs + c.deqs, opsEnqd, opsDeqd, enqRetries, deqRetries)
    {
      hide Busy, Offers, Asks, Counts, InRound, Taken, Given, Refused, Min, Answer, Holds;
      ghost var none, e, d, es, ds := dev.inflight, opsEnqd, opsDeqd, enqRetries, deqRetries;
      ghost var enqs, deqs, es', ds';
      enqd, enqs, es' := BenchEnq(needed, burst, round.accepts, batch);
      HoldsFront(dev.inflight, none, batch, enqd);
      var deqd;
      deqd, deqs, ds', held := GetBack(needed, enqd, burst, round.gives, batch);
      c := Circuit(batch, enqs, deqs);
      finished := deqd == enqd;
      IsRound(calls, c, round, needed, burst, e, d, es, ds, enqd, deqd, es', ds');
    }

    /** The dequeue calls of a round, and what the array owns after them. */
    method GetBack(needed: nat, enqd: nat, burst: nat, gives: seq<nat>, ghost batch: seq<OpId>)
        returns (deqd: nat, ghost deqs: seq<Call>, ghost short: nat, ghost held: seq<OpId>)
      requires enqd <= needed <= ops.Length && burst >= 1 && batch == ops[..][..needed]
      requires dev.inflight == multiset(batch[..enqd]) && |dev.inflight| == enqd
      modifies this`opsDeqd, this`deqRetries, dev, ops
      ensures deqd <= enqd && opsDeqd == old(opsDeqd) + deqd && deqRetries == old(deqRetries) + short
      ensures multiset(held) + dev.inflight == multiset(batch)
      ensures deqd == enqd ==> dev.inflight == multiset{}
      ensures deqd == enqd ==> held == ops[..][..needed] == Given(deqs) + batch[enqd..]
      ensures Busy(gives, |gives|) >= enqd ==> deqd == enqd
      ensures dev.log == old(dev.log) + deqs && Asks(deqs, enqd, burst, gives)
      ensures (deqd == enqd || |deqs| == |gives|) && Counts(deqs, 0, deqd, 0, short)
    {
      hide Busy, Asks, Counts, Taken, Given;
      ghost var inflight := dev.inflight;
      ghost var before := ops[..];
      deqd, deqs, short := BenchDeq(enqd, burst, gives);
      SameBehind(before, ops[..], enqd, enqd, needed - enqd);
      held := Given(deqs) + batch[enqd..];
      Circulated(batch, ops[..][..needed], enqd, deqd, inflight, dev.inflight, Given(deqs));
    }

    lemma IsRound(calls: seq<Call>, c: Circuit, round: Round, needed: nat, burst: nat, e: nat, d: nat, es: nat, ds: nat,
                  enqd: nat, deqd: nat, es': nat, ds': nat)
      requires Counts(calls, e, d, es, ds)
      requires |c.batch| == needed && Offers(c.enqs, c.batch, burst, round.accepts)
      requires Asks(c.deqs, enqd, burst, round.gives) && (Refused(c.enqs) || enqd == needed)
      requires Counts(c.enqs, enqd, 0, es', 0) && Counts(c.deqs, 0, deqd, 0, ds')
      requires deqd == enqd || |c.deqs| == |round.gives|
      ensures InRound(c, round, needed, burst)
      ensures Counts(calls + c.enqs + c.deqs, e + enqd, d + deqd, es + es', ds + ds')
    {
      hide Offers, Asks, Taken, Given, ShortOffers, ShortAnswers;
      CountsBoth(calls, c.enqs, e, d, es, ds, enqd, 0, es', 0);
      CountsBoth(calls + c.enqs, c.deqs, e + enqd, d, es + es', ds, 0, deqd, 0, ds');
    }

    lemma HoldsFront(inflight: multiset<OpId>, none: multiset<OpId>, before: seq<OpId>, enqd: nat)
      requires Holds(inflight, none, before, enqd) && none == multiset{}
      ensures enqd <= |before| && inflight == multiset(before[..enqd]) && |inflight| == enqd
    {
    }

    /** The array before and after: what has come back lies over what went in, the rest is untouched. */
    lemma Circulated(batch: seq<OpId>, after: seq<OpId>, enqd: nat, deqd: nat, was: multiset<OpId>,
                     inflight: multiset<OpId>, back: seq<OpId>)
      requires |batch| == |after| && deqd <= enqd <= |batch| && batch[enqd..] == after[enqd..]
      requires was == multiset(batch[..enqd]) && back == after[..deqd] && inflight + multiset(back) == was
      ensures multiset(back + batch[enqd..]) + inflight == multiset(batch)
      ensures deqd == enqd ==> inflight == multiset{} && back + batch[enqd..] == after
    {
      assert batch == batch[..enqd] + batch[enqd..];
      Replaced(batch[..enqd], batch[enqd..], back, inflight);
      assert after == after[..enqd] + after[enqd..];
    }

    lemma Handed(all: set<OpId>, free: multiset<OpId>, batch: multiset<OpId>, held: seq<OpId>, inflight: multiset<OpId>)
      requires free + batch == multiset(all) && multiset(held) + inflight == batch
      ensures free + multiset(held) + inflight == multiset(all)
    {
      assert free + multiset(held) + inflight == free + (multiset(held) + inflight);
    }

    /** Whatever the device has handed back so far, it and the untouched rest account for the batch. */
    lemma Replaced(front: seq<OpId>, behind: seq<OpId>, back: seq<OpId>, inflight: multiset<OpId>)
      requires inflight + multiset(back) == multiset(front)
      ensures multiset(back + behind) + inflight == multiset(front + behind)
      ensures |back| == |front| ==> inflight == multiset{}
    {
      assert |inflight + multiset(back)| == |multiset(front)|;
      assert multiset(front + behind) == multiset(front) + multiset(behind);
      assert multiset(back + behind) == multiset(back) + multiset(behind);
      assert multiset(back + behind) + inflight == (inflight + multiset(back)) + multiset(behind);
    }

    /**
     * One burst size: the benchmark of allocation, then rounds until `total` operations have been
     * through the device. The pool holds at least one operation per descriptor, so nothing fails to
     * allocate. The device has been asked round by round, as `InRounds` describes, and every counter
     * is a count over those calls.
     */
    method Run(total: nat, burst: nat, rounds: seq<Round>, ghost all: set<OpId>)
        returns (outcome: Outcome, ghost held: seq<OpId>, ghost circuits: seq<Circuit>)
      requires 1 <= ops.Length <= |all| && burst >= 1
      requires pool.free == multiset(all) && dev.inflight == multiset{}
      modifies this, pool, dev, ops
      ensures !outcome.PoolExhausted? && opsDeqd <= opsEnqd <= total
      ensures outcome.Completed? ==>
                opsEnqd == opsDeqd == total && pool.free == multiset(all) && dev.inflight == multiset{}
      ensures outcome.Stopped? ==> pool.free + multiset(held) + dev.inflight == multiset(all)
      ensures outcome.Stopped? ==> !Responsive(rounds, total, ops.Length)
      ensures dev.log == old(dev.log) + Calls(circuits) && InRounds(circuits, rounds, total, ops.Length, burst)
      ensures Counts(Calls(circuits), opsEnqd, opsDeqd, enqRetries, deqRetries)
    {
      hide Busy, Counts, InRounds, InRound, Calls, Taken, Given, Responsive;
      opsEnqd, opsDeqd, enqRetries, deqRetries, held, circuits := 0, 0, 0, 0, [], [];
      ghost var log := dev.log;
      NoRounds(rounds, total, burst, log);
      var ok := BenchAllOps(total, burst);
      if !ok {
        return PoolExhausted, held, circuits;
      }
      var curOp, k := 0, 0;
      BusyStart(Offered(rounds));
      while curOp < total
        invariant k <= |rounds| && curOp == opsEnqd == opsDeqd <= total
        invariant Busy(Offered(rounds), k) <= curOp
        invariant pool.free == multiset(all) && dev.inflight == multiset{}
        invariant dev.log == log + Calls(circuits) && |circuits| == k
        invariant InRounds(circuits, rounds, total, ops.Length, burst)
        invariant Counts(Calls(circuits), opsEnqd, opsDeqd, enqRetries, deqRetries)
        decreases |rounds| - k
      {
        if k == |rounds| {
          held := [];
          NotResponsive(rounds, total, k);
          return Stopped, held, circuits;
        }
        BusyStep(Offered(rounds), k);
        var needed := Min(ops.Length, total - curOp);
        var finished, enqd;
        ghost var c;
        IsCounted(Calls(circuits));
        finished, enqd, held, c := OneRound(needed, burst, rounds[k], all, Calls(circuits));
        InRoundsNext(circuits, rounds, total, ops.Length, burst, c, curOp);
        assert log + Calls(circuits) + c.enqs + c.deqs == log + (Calls(circuits) + c.enqs + c.deqs);
        circuits := circuits + [c];
        if !finished {
          NotResponsive(rounds, total, k);
          return Stopped, held, circuits;
        }
        curOp := curOp + enqd;
        k := k + 1;
      }
      outcome := Completed;
    }

    lemma NoRounds(rounds: seq<Round>, total: nat, burst: nat, log: seq<Call>)
      ensures Calls([]) == [] && InRounds([], rounds, total, ops.Length, burst) && log + Calls([]) == log
      ensures Counts([], 0, 0, 0, 0)
    {
    }

    lemma IsCounted(calls: seq<Call>)
      requires Counts(calls, opsEnqd, opsDeqd, enqRetries, deqRetries)
      ensures |Taken(calls)| == opsEnqd
    {
    }

    /** The rounds are used up, or one of them does not give back what it took. */
    lemma NotResponsive(rounds: seq<Round>, total: nat, k: nat)
      requires k <= |rounds|
      requires k == |rounds| ==> Busy(Offered(rounds), k) < total
      requires k < |rounds| ==> !GivesBack(rounds[k], ops.Length)
      ensures !Responsive(rounds, total, ops.Length)
    {
      hide Busy;
    }
  }
}
