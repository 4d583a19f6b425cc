/**
 * One pass of the compression test engine: operations for consecutive buffers are enqueued in
 * bursts that the device may accept only in part, left-overs move to the front, and what comes
 * back is collected and trimmed. The device works first in, first out.
 */
module CompressEngine {
  import opened Chains
  import Devices

  type OpId = Devices.OpId

  type Turn = Devices.Turn
  datatype Outcome = Completed | OutOfSpace | Stopped

  /** What an operation object carries: its buffers (by number), source length and produced length. */
  datatype CompOp = CompOp(buf: nat, srcLen: nat, produced: nat)

  /** A packet that the device has worked on, and what it has made of it. */
  datatype Work = Work(packet: seq<Byte>, output: seq<Byte>)

  /** `rte_compressdev`: operations come back in the order in which they went in. */
  class Device {
    var queue: seq<OpId>
    /** All that has been done so far. */
    ghost var work: seq<Work>

    constructor ()
      ensures queue == [] && work == []
    {
      queue, work := [], [];
    }

    method EnqueueBurst(ops: seq<OpId>, accepts: nat) returns (n: nat)
      modifies this`queue
      ensures n == Min(accepts, |ops|) && queue == old(queue) + ops[..n]
    {
      n := Min(accepts, |ops|);
      queue := queue + ops[..n];
    }

    method DequeueBurst(max: nat, gives: nat) returns (ops: seq<OpId>)
      modifies this`queue
      ensures |ops| == Min(Min(max, gives), |old(queue)|) && ops + queue == old(queue)
    {
      var n := Min(Min(max, gives), |queue|);
      ops, queue := queue[..n], queue[n..];
    }

    ghost method Note(w: Work)
      modifies this`work
      ensures work == old(work) + [w]
    {
      work := work + [w];
    }
  }

  // ----- the plan of a pass -----

  /**
   * What a pass starts from: the operations of the pool, both kinds of buffers, and what the codec
   * makes of each input packet; `trim` says whether finished buffers are trimmed.
   */
  datatype Plan = Plan(all: set<OpId>, inputs: seq<Chain>, orig: seq<Chain>, outs: seq<seq<Byte>>, segSz: nat,
                       trim: bool)

  ghost predicate PlanOk(p: Plan, codec: seq<Byte> -> seq<Byte>, inSz: nat) {
    && |p.inputs| == |p.orig| == |p.outs| && |p.all| == 2 * |p.inputs|
    && (forall b | 0 <= b < |p.orig| :: Roomy(p.orig[b].segs, p.segSz))
    && (forall b | 0 <= b < |p.inputs| :: Readable(p.inputs[b], inSz) && p.outs[b] == codec(Packet(p.inputs[b], inSz)))
  }

  ghost predicate Sound(p: Plan) {
    |p.orig| == |p.outs| && forall b | 0 <= b < |p.orig| :: Roomy(p.orig[b].segs, p.segSz)
  }

  ghost predicate Fits(p: Plan, b: nat)
    requires b < |p.outs| == |p.orig|
  {
    |p.outs[b]| <= p.segSz * |p.orig[b].segs|
  }

  /**
   * Output buffers part-way through a pass: the first `done` are finished, those up to `written`
   * have been overwritten by the device, those up to `reset` are waiting for it.
   */
  ghost function Stages(p: Plan, done: nat, written: nat, reset: nat): (s: seq<Chain>)
    requires Sound(p)
    ensures |s| == |p.orig| && forall b | 0 <= b < |p.orig| :: s[b] == StageOf(p, b, b < done, b < written, b < reset)
  {
    seq(|p.orig|, b requires 0 <= b < |p.orig| && Sound(p) => StageOf(p, b, b < done, b < written, b < reset))
  }

  ghost function StageOf(p: Plan, b: nat, done: bool, written: bool, reset: bool): Chain
    requires Sound(p) && b < |p.orig|
  {
    var blank := Reset(p.orig[b], p.segSz);
    if done then Finished(blank, p.outs[b], p.segSz, p.trim)
    else if written then Finished(blank, p.outs[b], p.segSz, false)
    else if reset then blank
    else p.orig[b]
  }

  /** All the bytes of the first outputs, in order. */
  ghost function Concat(outs: seq<seq<Byte>>): seq<Byte> {
    if outs == [] then [] else Concat(outs[..|outs| - 1]) + outs[|outs| - 1]
  }

  lemma ConcatGrows(outs: seq<seq<Byte>>, n: nat)
    requires n < |outs|
    ensures Concat(outs[..n + 1]) == Concat(outs[..n]) + outs[n]
  {
    assert outs[..n + 1][..n] == outs[..n];
  }

  /** The live operations stand for consecutive buffers from `first` on. */
  ghost predicate InOrder(p: Plan, live: seq<OpId>, first: nat, desc: map<OpId, CompOp>) {
    && first + |live| <= |p.inputs|
    && forall k | 0 <= k < |live| ::
         live[k] in desc && desc[live[k]].buf == first + k && desc[live[k]].srcLen == p.inputs[first + k].pktLen
  }

  /** Each operation of the pool is free or live, and not both. */
  ghost predicate Accounted(all: set<OpId>, free: multiset<OpId>, live: seq<OpId>) {
    free + multiset(live) == multiset(all)
  }

  /** What has come back, the outputs of the first buffers, all of which fitted; and what went in, in order. */
  ghost predicate Collected(p: Plan, deqd: nat, enqd: nat, data: seq<Byte>, submitted: seq<nat>) {
    && deqd <= |p.outs| == |p.orig|
    && data == Concat(p.outs[..deqd]) && submitted == seq(enqd, i => i)
    && (forall b | 0 <= b < deqd :: Fits(p, b))
  }

  /** What is known of operations that the device has worked on. */
  ghost predicate Written(p: Plan, done: seq<OpId>, first: nat, desc: map<OpId, CompOp>) {
    && first + |done| <= |p.outs| == |p.orig|
    && forall k | 0 <= k < |done| ::
         && done[k] in desc && desc[done[k]].buf == first + k
         && desc[done[k]].produced == |p.outs[first + k]| && Fits(p, first + k)
  }

  lemma NothingWritten(p: Plan, first: nat, desc: map<OpId, CompOp>)
    requires first <= |p.outs| == |p.orig|
    ensures Written(p, [], first, desc)
  {
  }

  lemma WrittenGrows(p: Plan, done: seq<OpId>, live: seq<OpId>, first: nat, desc: map<OpId, CompOp>, x: OpId,
                     produced: nat)
    requires Written(p, done, first, desc) && InOrder(p, live, first, desc) && first + |done| < |p.outs|
             && Fits(p, first + |done|)
    requires x !in done && x in desc && desc[x].buf == first + |done| && produced == |p.outs[first + |done|]|
    ensures Written(p, done + [x], first, desc[x := desc[x].(produced := produced)])
    ensures InOrder(p, live, first, desc[x := desc[x].(produced := produced)])
  {
    var desc' := desc[x := desc[x].(produced := produced)];
    forall k | 0 <= k < |done + [x]|
      ensures var y := (done + [x])[k];
              && y in desc' && desc'[y].buf == first + k && desc'[y].produced == |p.outs[first + k]|
                   && Fits(p, first + k)
    {
      if k < |done| {
        assert done[k] in desc && done[k] != x;
      }
    }
  }

  /** The buffer numbers behind a stretch of operations. */
  ghost function Buffers(ops: seq<OpId>, desc: map<OpId, CompOp>): seq<nat> {
    seq(|ops|, i requires 0 <= i < |ops| => if ops[i] in desc then desc[ops[i]].buf else 0)
  }

  lemma SubmittedGrows(p: Plan, queue: seq<OpId>, took: seq<OpId>, rest: seq<OpId>, first: nat,
                       desc: map<OpId, CompOp>, submitted: seq<nat>)
    requires InOrder(p, queue + took + rest, first, desc) && submitted == seq(first + |queue|, i => i)
    ensures submitted + Buffers(took, desc) == seq(first + |queue| + |took|, i => i)
  {
    var live := queue + took + rest;
    forall i | 0 <= i < |took| ensures Buffers(took, desc)[i] == first + |queue| + i {
      assert took[i] == live[|queue| + i];
    }
  }

  lemma CollectedSubmits(p: Plan, deqd: nat, enqd: nat, data: seq<Byte>, submitted: seq<nat>, enqd': nat,
                         submitted': seq<nat>)
    requires Collected(p, deqd, enqd, data, submitted) && submitted' == seq(enqd', i => i)
    ensures Collected(p, deqd, enqd', data, submitted')
  {
  }

  lemma AccountSizes(all: set<OpId>, free: multiset<OpId>, live: seq<OpId>)
    requires Accounted(all, free, live)
    ensures |free| + |live| == |all|
    ensures forall i, j | 0 <= i < j < |live| :: live[i] != live[j]
  {
    assert |free + multiset(live)| == |multiset(all)|;
    Devices.DistinctSeq(live, all);
  }

  lemma AccountAllocated(all: set<OpId>, free: multiset<OpId>, free': multiset<OpId>, live: seq<OpId>, news: seq<OpId>)
    requires Accounted(all, free, live) && free' + multiset(news) == free
    ensures Accounted(all, free', live + news)
  {
    assert multiset(live + news) == multiset(live) + multiset(news);
  }

  lemma AccountReturned(all: set<OpId>, free: multiset<OpId>, done: seq<OpId>, live: seq<OpId>)
    requires Accounted(all, free, done + live)
    ensures Accounted(all, free + multiset(done), live)
  {
    assert multiset(done + live) == multiset(done) + multiset(live);
  }

  /** Setting up an operation that is not live does not disturb those that are. */
  lemma InOrderGrows(p: Plan, live: seq<OpId>, first: nat, desc: map<OpId, CompOp>, x: OpId, op: CompOp)
    requires InOrder(p, live, first, desc) && x !in live && first + |live| < |p.inputs|
    requires op.buf == first + |live| && op.srcLen == p.inputs[op.buf].pktLen
    ensures InOrder(p, live + [x], first, desc[x := op])
  {
  }

  /** The work on the first `n` packets of a pass. */
  ghost function Works(p: Plan, codec: seq<Byte> -> seq<Byte>, inSz: nat, n: nat): (s: seq<Work>)
    requires PlanOk(p, codec, inSz) && n <= |p.inputs|
    ensures |s| == n && forall b | 0 <= b < n :: s[b] == Work(Packet(p.inputs[b], inSz), p.outs[b])
  {
    seq(n, b requires 0 <= b < n && PlanOk(p, codec, inSz) => Work(Packet(p.inputs[b], inSz), p.outs[b]))
  }

  /** After `before`, the device has worked on the first `n` packets of the pass and on nothing else. */
  ghost predicate WorkDone(work: seq<Work>, before: seq<Work>, p: Plan, codec: seq<Byte> -> seq<Byte>, inSz: nat,
                           n: nat)
  {
    PlanOk(p, codec, inSz) && n <= |p.inputs| && work == before + Works(p, codec, inSz, n)
  }

  lemma WorkStarts(before: seq<Work>, p: Plan, codec: seq<Byte> -> seq<Byte>, inSz: nat)
    requires PlanOk(p, codec, inSz)
    ensures WorkDone(before, before, p, codec, inSz, 0)
  {
    assert before + Works(p, codec, inSz, 0) == before;
  }

  lemma WorkGoesOn(work: seq<Work>, before: seq<Work>, p: Plan, codec: seq<Byte> -> seq<Byte>, inSz: nat, n: nat)
    requires WorkDone(work, before, p, codec, inSz, n) && n < |p.inputs|
    ensures |p.outs| == |p.inputs| && Readable(p.inputs[n], inSz)
    ensures WorkDone(work + [Work(Packet(p.inputs[n], inSz), p.outs[n])], before, p, codec, inSz, n + 1)
  {
    hide Packet;
    assert Works(p, codec, inSz, n + 1) ==
           Works(p, codec, inSz, n) + [Work(Packet(p.inputs[n], inSz), p.outs[n])];
  }

  // ----- moving the stage boundaries -----

  lemma StageReset(p: Plan, done: nat, b: nat)
    requires Sound(p) && done <= b < |p.orig|
    ensures var s := Stages(p, done, done, b);
            |s| == |p.orig| && s[b] == p.orig[b] && Roomy(s[b].segs, p.segSz)
            && s[b := Reset(s[b], p.segSz)] == Stages(p, done, done, b + 1)
  {
  }

  lemma StageWritten(p: Plan, done: nat, b: nat, reset: nat)
    requires Sound(p) && done <= b < reset <= |p.orig|
    ensures var s := Stages(p, done, b, reset);
            |s| == |p.orig| && |s[b].segs| == |p.orig[b].segs| && s[b].pktLen == p.segSz * |s[b].segs|
            && Roomy(s[b].segs, p.segSz) && |Data(s[b].segs)| == p.segSz * |s[b].segs|
            && s[b := Chain(Overwrite(s[b].segs, p.outs[b]), s[b].pktLen)] == Stages(p, done, b + 1, reset)
  {
    FullSize(p.orig[b].segs, p.segSz);
  }

  lemma StageTrimmed(p: Plan, b: nat, written: nat, reset: nat)
    requires Sound(p) && p.trim && b < written <= reset <= |p.orig|
    ensures var s := Stages(p, b, written, reset);
            |s| == |p.orig| && |s[b].segs| == |p.orig[b].segs|
            && s[b := Chain(Trim(s[b].segs, |p.outs[b]|, p.segSz), |p.outs[b]|)] == Stages(p, b + 1, written, reset)
  {
    FullSize(p.orig[b].segs, p.segSz);
    OverwriteShape(Full(p.orig[b].segs), p.outs[b], p.segSz);
  }

  /** Without trimming, overwritten buffers are finished. */
  lemma StageUntrimmed(p: Plan, done: nat, written: nat, reset: nat)
    requires Sound(p) && !p.trim && done <= written
    ensures Stages(p, done, written, reset) == Stages(p, written, written, reset)
  {
  }

  /** What a reader finds in an overwritten buffer. */
  lemma StageReads(p: Plan, done: nat, b: nat, written: nat, reset: nat)
    requires Sound(p) && done <= b < written <= reset <= |p.orig| && Fits(p, b)
    ensures |Stages(p, done, written, reset)| == |p.orig|
    ensures var c := Stages(p, done, written, reset)[b];
            Readable(c, p.segSz) && |p.outs[b]| <= c.pktLen && Data(c.segs)[..|p.outs[b]|] == p.outs[b]
  {
    FullSize(p.orig[b].segs, p.segSz);
    OverwriteShape(Full(p.orig[b].segs), p.outs[b], p.segSz);
    OverwriteReads(Full(p.orig[b].segs), p.outs[b], p.segSz);
  }

  /** The loop that gives all segments of an output buffer their full length. */
  method ResetChain(c: Chain, segSz: nat) returns (r: Chain)
    requires Roomy(c.segs, segSz)
    ensures r == Reset(c, segSz)
  {
    var segs: seq<Segment>, j: nat := c.segs, 0;
    while j < |c.segs|
      invariant j <= |c.segs| == |segs|
      invariant segs[..j] == Full(c.segs)[..j] && segs[j..] == c.segs[j..]
    {
      segs := segs[j := segs[j].(dataLen := |segs[j].buf|)];
      assert segs[..j + 1] == segs[..j] + [segs[j]];
      j := j + 1;
    }
    assert segs == segs[..j];
    assert Full(c.segs) == Full(c.segs)[..j];
    r := Chain(segs, segSz * |c.segs|);
  }

  lemma {:induction false} TrimSplit(segs: seq<Segment>, n: nat, segSz: nat, j: nat)
    requires j < |segs| && segSz * j < n && segSz > 0
    ensures |Trim(segs, n, segSz)| == |segs|
    ensures Trim(segs, n, segSz)[j] == segs[j].(dataLen := Min(n - segSz * j, segSz))
  {
    if j > 0 {
      assert segSz * j == segSz + segSz * (j - 1);
      assert segSz * (j - 1) >= 0;
      TrimSplit(segs[1..], n - segSz, segSz, j - 1);
    } else {
      TrimLength(segs[1..], n - Min(n, segSz), segSz);
    }
  }

  lemma {:induction false} TrimLength(segs: seq<Segment>, n: nat, segSz: nat)
    ensures |Trim(segs, n, segSz)| == |segs|
  {
    if segs != [] && n > 0 {
      TrimLength(segs[1..], n - Min(n, segSz), segSz);
    }
  }

  lemma {:induction false} TrimRest(segs: seq<Segment>, n: nat, segSz: nat, j: nat)
    requires j <= |segs| && n <= segSz * j && segSz > 0
    ensures |Trim(segs, n, segSz)| == |segs| && Trim(segs, n, segSz)[j..] == segs[j..]
  {
    if segs != [] && n > 0 {
      assert j > 0;
      assert segSz * j == segSz + segSz * (j - 1);
      TrimRest(segs[1..], n - Min(n, segSz), segSz, j - 1);
    }
  }

  /** The trimming loop. The chain is long enough for it because the output fitted. */
  method TrimChain(c: Chain, produced: nat, segSz: nat) returns (r: Chain)
    requires produced <= segSz * |c.segs|
    ensures r == Chain(Trim(c.segs, produced, segSz), produced)
  {
    hide Trim;
    var segs: seq<Segment>, j: nat, remaining: nat := c.segs, 0, produced;
    ghost var goal, passed: nat := Trim(c.segs, produced, segSz), 0;
    TrimLength(c.segs, produced, segSz);
    NoTrim(c.segs, segSz);
    NoRoom(segSz, |c.segs|);
    while remaining > 0
      invariant j <= |c.segs| == |segs| == |goal| && remaining <= produced
      invariant passed == segSz * j && (remaining > 0 ==> remaining == produced - passed)
      invariant remaining == 0 ==> produced <= passed
      invariant segs[..j] == goal[..j] && segs[j..] == c.segs[j..]
    {
      if j == |c.segs| {
        assert false;
      }
      var toAppend := Min(remaining, segSz);
      TrimSplit(c.segs, produced, segSz, j);
      segs := segs[j := segs[j].(dataLen := toAppend)];
      assert segs[..j + 1] == segs[..j] + [segs[j]] && goal[..j + 1] == goal[..j] + [goal[j]];
      OneMore(segSz, j);
      remaining, j, passed := remaining - toAppend, j + 1, passed + segSz;
    }
    if produced > 0 {
      TrimRest(c.segs, produced, segSz, j);
    }
    assert segs == segs[..j] + segs[j..] && goal == goal[..j] + goal[j..];
    r := Chain(segs, produced);
  }

  lemma NoTrim(segs: seq<Segment>, segSz: nat)
    ensures Trim(segs, 0, segSz) == segs
  {
  }

  lemma NoRoom(segSz: nat, n: nat)
    ensures segSz == 0 ==> segSz * n == 0
  {
  }

  // ----- the engine -----

  class Engine {
    const inputs: array<Chain>
    const outputs: array<Chain>
    const inSz: nat        // segment size of the input buffers
    const segSz: nat       // segment size of the output buffers
    const codec: seq<Byte> -> seq<Byte>
    const pool: Devices.Mempool
    const dev: Device
    const ops: array<OpId>
    var desc: map<OpId, CompOp>
    var totalEnq: nat
    var totalDeq: nat
    var unused: nat
    var numEnq: nat
    /** The collected output; its length is the output size. */
    var data: seq<Byte>
    /** Numbers of the buffers whose operations the device has accepted. */
    ghost var submitted: seq<nat>
    /** What the device had done before the pass. */
    ghost var before: seq<Work>

    constructor (inputs: array<Chain>, outputs: array<Chain>, inSz: nat, segSz: nat, codec: seq<Byte> -> seq<Byte>,
                 pool: Devices.Mempool, dev: Device)
      ensures this.inputs == inputs && this.outputs == outputs && this.inSz == inSz && this.segSz == segSz
      ensures this.codec == codec && this.pool == pool && this.dev == dev
      ensures fresh(ops) && ops.Length == 2 * inputs.Length
    {
      this.inputs, this.outputs, this.inSz, this.segSz, this.codec := inputs, outputs, inSz, segSz, codec;
      this.pool, this.dev := pool, dev;
      ops := new OpId[2 * inputs.Length];
      desc, totalEnq, totalDeq, unused, numEnq, data, submitted, before := map[], 0, 0, 0, 0, [], [], [];
    }

    /** The arrays the pass works on are those of the plan. */
    ghost predicate Follows(p: Plan)
      reads inputs
    {
      && inputs != outputs && ops.Length == 2 * inputs.Length && inputs.Length == outputs.Length
      && inputs[..] == p.inputs && p.segSz == segSz && PlanOk(p, codec, inSz)
    }

    /**
     * The invariant of a pass. `live` are all the allocated operations, those in the queue first;
     * the first `setUp` of them have been set up and their output buffers reset.
     */
    ghost predicate State(p: Plan, live: seq<OpId>, setUp: nat)
      reads this, inputs, outputs, pool, dev
    {
      && Follows(p)
      && Tracked(p, live, setUp, |dev.queue|, totalDeq, totalEnq, desc, pool.free, outputs[..], data, submitted)
      && WorkDone(dev.work, before, p, codec, inSz, totalDeq)
    }

    lemma Sizes(p: Plan)
      requires Follows(p)
      ensures |p.outs| == |p.orig| == inputs.Length
      ensures inputs != outputs && ops.Length == |p.all| == 2 * inputs.Length
              && inputs.Length == outputs.Length == |p.inputs|
      ensures p.segSz == segSz && Sound(p)
    {
    }

    /** Left-overs to the front, unless nothing was accepted and they are there already. */
    method Shift()
      requires numEnq + unused <= ops.Length
      modifies ops
      ensures ops[..unused] == old(ops[numEnq..numEnq + unused])
    {
      if unused > 0 && numEnq > 0 {
        Devices.Memmove(ops, 0, numEnq, unused);
        assert ops[0..unused] == ops[..unused];
      }
    }

    /** New operations behind the left-overs. */
    method BulkAlloc(needed: nat) returns (ok: bool, ghost news: seq<OpId>)
      requires unused + needed <= ops.Length
      modifies pool, ops
      ensures ok == (needed <= |old(pool.free)|)
      ensures ok ==> ops[..unused + needed] == old(ops[..unused]) + news && pool.free + multiset(news) == old(pool.free)
    {
      ok := pool.GetBulk(ops, unused, needed);
      news := ops[unused..unused + needed];
      assert ops[..unused + needed] == ops[..unused] + news;
    }

    /** The pool always has enough operations for the rest of a burst. */
    method Allocate(needed: nat, ghost p: Plan) returns (ok: bool)
      requires unused + needed <= ops.Length && totalEnq + unused + needed <= inputs.Length
      requires State(p, dev.queue + ops[..unused], |dev.queue| + unused)
      modifies pool, ops
      ensures ok && State(p, dev.queue + ops[..unused + needed], |dev.queue| + unused)
    {
      hide Follows, Tracked, WorkDone;
      Sizes(p);
      ghost var live, free, news := dev.queue + ops[..unused], pool.free, [];
      ghost var setUp, queued, chains := |dev.queue| + unused, |dev.queue|, outputs[..];
      TrackedFree(p, live, setUp, queued, totalDeq, totalEnq, desc, free, chains, data, submitted);
      ok, news := BulkAlloc(needed);
      TrackedAllocated(p, live, setUp, queued, totalDeq, totalEnq, desc, free, pool.free, news, chains, data,
          submitted);
      assert dev.queue + ops[..unused + needed] == live + news;
    }

    /** The loop that attaches the next buffers to the new operations and resets their output buffers. */
    method SetUp(numOps: nat, ghost p: Plan)
      requires unused <= numOps <= ops.Length && totalEnq + numOps <= inputs.Length
      requires State(p, dev.queue + ops[..numOps], |dev.queue| + unused)
      modifies this`desc, outputs
      ensures State(p, dev.queue + ops[..numOps], |dev.queue| + numOps)
    {
      hide Tracked, PlanOk, WorkDone;
      Sizes(p);
      ghost var live := dev.queue + ops[..numOps];
      var i := unused;
      while i < numOps
        invariant unused <= i <= numOps
        invariant Follows(p)
                  && Tracked(p, live, |dev.queue| + i, |dev.queue|, totalDeq, totalEnq, desc, pool.free,
                             outputs[..], data, submitted)
      {
        var bufId := totalEnq + i;
        ghost var was := outputs[..];
        assert live[|dev.queue| + i] == ops[i];
        TrackedSetUp(p, live, |dev.queue| + i, |dev.queue|, totalDeq, totalEnq, desc, pool.free, was, data,
            submitted);
        assert outputs[bufId] == was[bufId] && inputs[bufId] == p.inputs[bufId];
        outputs[bufId] := ResetChain(outputs[bufId], segSz);
        assert outputs[..] == was[bufId := Reset(was[bufId], segSz)];
        desc := desc[ops[i] := CompOp(bufId, inputs[bufId].pktLen, 0)];
        i := i + 1;
      }
    }

    /** What the device took, and what it refused. */
    method Offer(numOps: nat, accepts: nat) returns (ghost took: seq<OpId>, ghost rest: seq<OpId>)
      requires numOps <= ops.Length
      modifies this`numEnq, this`unused, dev`queue
      ensures numEnq == Min(accepts, numOps) && numEnq + unused == numOps
      ensures |took| == numEnq && rest == ops[numEnq..numEnq + unused] && dev.queue == old(dev.queue) + took
      ensures old(dev.queue) + took + rest == old(dev.queue) + ops[..numOps]
    {
      numEnq := dev.EnqueueBurst(ops[..numOps], accepts);
      unused := numOps - numEnq;
      took, rest := ops[..numOps][..numEnq], ops[numEnq..numEnq + unused];
      assert took + rest == ops[..numOps];
      assert old(dev.queue) + took + rest == old(dev.queue) + (took + rest);
    }

    /** Hands a burst to the device; what it refuses stays behind what it took. */
    method Enqueue(numOps: nat, accepts: nat, ghost p: Plan)
      requires numOps <= ops.Length && totalEnq + numOps <= inputs.Length
      requires State(p, dev.queue + ops[..numOps], |dev.queue| + numOps)
      modifies this`numEnq, this`unused, this`totalEnq, this`submitted, dev`queue
      ensures numEnq == Min(accepts, numOps) && numEnq + unused == numOps && totalEnq == old(totalEnq) + numEnq
      ensures State(p, dev.queue + ops[numEnq..numEnq + unused], |dev.queue| + unused)
    {
      hide Follows, Sound, Stages, Accounted, InOrder, Collected, Buffers, WorkDone;
      Sizes(p);
      ghost var queue, live := dev.queue, dev.queue + ops[..numOps];
      assert live[..|live|] == live;
      ghost var took, rest;
      took, rest := Offer(numOps, accepts);
      Submit(p, queue, took, rest);
      totalEnq := totalEnq + numEnq;
    }

    ghost method Submit(p: Plan, queue: seq<OpId>, took: seq<OpId>, rest: seq<OpId>)
      requires InOrder(p, queue + took + rest, totalDeq, desc) && |queue| + totalDeq == totalEnq
      requires Collected(p, totalDeq, totalEnq, data, submitted)
      modifies this`submitted
      ensures Collected(p, totalDeq, totalEnq + |took|, data, submitted)
    {
      SubmittedGrows(p, queue, took, rest, totalDeq, desc, submitted);
      CollectedSubmits(p, totalDeq, totalEnq, data, submitted, totalEnq + |took|, submitted + Buffers(took, desc));
      submitted := submitted + Buffers(took, desc);
    }

    /** The device on one operation: the codec's output goes over the output buffer if there is room. */
    method DeviceWritesOne(x: OpId, ghost b: nat, ghost p: Plan, ghost reset: nat) returns (fits: bool, produced: nat)
      requires Follows(p) && Sound(p) && totalDeq <= b < reset <= inputs.Length
      requires x in desc && desc[x].buf == b && desc[x].srcLen == p.inputs[b].pktLen
      requires outputs[..] == Stages(p, totalDeq, b, reset) && WorkDone(dev.work, before, p, codec, inSz, b)
      modifies outputs, dev`work
      ensures fits == Fits(p, b) && produced == |p.outs[b]|
      ensures fits ==> outputs[..] == Stages(p, totalDeq, b + 1, reset)
      ensures fits ==> WorkDone(dev.work, before, p, codec, inSz, b + 1)
    {
      StageWritten(p, totalDeq, b, reset);
      var i := desc[x].buf;
      ghost var chains := outputs[..];
      assert inputs[i] == p.inputs[b] && outputs[i] == chains[b];
      hide Stages, Overwrite, Data, StageOf, WorkDone;
      var out := codec(Data(inputs[i].segs)[..desc[x].srcLen]);
      assert out == p.outs[b];
      produced := |out|;
      fits := produced <= |Data(outputs[i].segs)|;
      if fits {
        WorkGoesOn(dev.work, before, p, codec, inSz, b);
        dev.Note(Work(Data(inputs[i].segs)[..desc[x].srcLen], out));
        outputs[i] := Chain(Overwrite(outputs[i].segs, out), outputs[i].pktLen);
        assert outputs[..] == chains[b := Chain(Overwrite(chains[b].segs, out), chains[b].pktLen)];
      }
    }

    /** The device works on everything it is about to return. */
    method DeviceWrites(done: seq<OpId>, ghost p: Plan, ghost live: seq<OpId>) returns (fits: bool)
      requires Follows(p) && Sound(p) && done <= live && totalDeq + |live| <= inputs.Length
      requires InOrder(p, live, totalDeq, desc) && forall i, j | 0 <= i < j < |live| :: live[i] != live[j]
      requires outputs[..] == Stages(p, totalDeq, totalDeq, totalDeq + |live|)
      requires WorkDone(dev.work, before, p, codec, inSz, totalDeq)
      modifies this`desc, outputs, dev`work
      ensures fits ==> InOrder(p, live, totalDeq, desc)
      ensures fits ==> outputs[..] == Stages(p, totalDeq, totalDeq + |done|, totalDeq + |live|)
      ensures fits ==> Written(p, done, totalDeq, desc)
      ensures fits ==> WorkDone(dev.work, before, p, codec, inSz, totalDeq + |done|)
      ensures !fits ==> exists b :: 0 <= b < |p.outs| && !Fits(p, b)
    {
      hide Stages, Sound, Follows, Written, WorkDone;
      Sizes(p);
      var k := 0;
      fits := true;
      assert done[..0] == [];
      NothingWritten(p, totalDeq, desc);
      while k < |done| && fits
        invariant k <= |done| && Follows(p)
        invariant InOrder(p, live, totalDeq, desc)
        invariant fits ==> outputs[..] == Stages(p, totalDeq, totalDeq + k, totalDeq + |live|)
        invariant Written(p, done[..k], totalDeq, desc)
        invariant fits ==> WorkDone(dev.work, before, p, codec, inSz, totalDeq + k)
        invariant !fits ==> exists b :: 0 <= b < |p.outs| && !Fits(p, b)
        decreases |done| - k, fits
      {
        var x, produced := done[k], 0;
        assert x == live[k];
        fits, produced := DeviceWritesOne(x, totalDeq + k, p, totalDeq + |live|);
        if fits {
          assert x !in done[..k] by {
            forall i | 0 <= i < k ensures done[i] != x {
              assert live[i] == done[i];
            }
          }
          WrittenGrows(p, done[..k], live, totalDeq, desc, x, produced);
          desc := desc[x := desc[x].(produced := produced)];
          assert done[..k + 1] == done[..k] + [x];
          k := k + 1;
        }
      }
      assert done[..|done|] == done;
    }

    /** The loop that reads each output and appends it to the collected data. */
    method ReadOutputs(done: seq<OpId>, ghost p: Plan, ghost reset: nat) returns (ok: bool)
      requires Follows(p) && Sound(p) && Written(p, done, totalDeq, desc) && totalDeq + |done| <= reset <= inputs.Length
      requires outputs[..] == Stages(p, totalDeq, totalDeq + |done|, reset)
      requires data == Concat(p.outs[..totalDeq])
      modifies this`data
      ensures ok && data == Concat(p.outs[..totalDeq + |done|])
    {
      hide Stages, Follows, Sound, Concat, Data;
      Sizes(p);
      var k := 0;
      ok := true;
      while k < |done| && ok
        invariant k <= |done| && ok
        invariant data == Concat(p.outs[..totalDeq + k])
      {
        ghost var b := totalDeq + k;
        var op := desc[done[k]];
        StageReads(p, totalDeq, b, totalDeq + |done|, reset);
        assert op.buf == b && outputs[b] == outputs[..][b];
        ok := op.produced <= outputs[op.buf].pktLen;
        if ok {
          data := data + Data(outputs[op.buf].segs)[..op.produced];
          ConcatGrows(p.outs, b);
          k := k + 1;
        }
      }
    }

    /** The loop that trims the output buffers to what was produced. */
    method TrimOutputs(done: seq<OpId>, ghost p: Plan, ghost reset: nat)
      requires Follows(p) && Sound(p) && Written(p, done, totalDeq, desc)
               && totalDeq + |done| <= reset <= inputs.Length && p.trim
      requires outputs[..] == Stages(p, totalDeq, totalDeq + |done|, reset)
      modifies outputs
      ensures outputs[..] == Stages(p, totalDeq + |done|, totalDeq + |done|, reset)
    {
      hide Stages, Follows, Sound;
      Sizes(p);
      var k := 0;
      while k < |done|
        invariant k <= |done| && Follows(p)
        invariant outputs[..] == Stages(p, totalDeq + k, totalDeq + |done|, reset)
      {
        ghost var was, b := outputs[..], totalDeq + k;
        StageTrimmed(p, b, totalDeq + |done|, reset);
        var op := desc[done[k]];
        assert outputs[op.buf] == was[b];
        outputs[op.buf] := TrimChain(outputs[op.buf], op.produced, segSz);
        assert outputs[..] == was[b := Chain(Trim(was[b].segs, |p.outs[b]|, segSz), |p.outs[b]|)];
        k := k + 1;
      }
    }

    /** Dequeues once and deals with everything that came back: read it, trim it, and free the operations. */
    method Collect(burst: nat, gives: nat, trim: bool, ghost p: Plan, ghost rest: seq<OpId>) returns (fits: bool)
      requires State(p, dev.queue + rest, |dev.queue| + |rest|) && p.trim == trim
      modifies this`desc, this`data, this`totalDeq, outputs, pool, dev
      ensures fits ==> State(p, dev.queue + rest, |dev.queue| + |rest|)
      ensures fits ==> totalDeq == old(totalDeq) + Min(Min(burst, gives), |old(dev.queue)|)
      ensures !fits ==> |p.outs| == |p.orig| && exists b :: 0 <= b < |p.outs| && !Fits(p, b)
    {
      hide Follows, Sound, Stages, Accounted, InOrder, Collected, Written, WorkDone;
      Sizes(p);
      ghost var live := dev.queue + rest;
      assert live[..|live|] == live;
      AccountSizes(p.all, pool.free, live);
      var done := dev.DequeueBurst(burst, gives);
      ghost var after := dev.queue + rest;
      assert live == done + after;
      fits := DeviceWrites(done, p, live);
      if fits {
        TakeOut(done, trim, p, live, after);
      }
    }

    /** Reads the outputs, trims them if that is asked for, and frees the operations. */
    method TakeOut(done: seq<OpId>, trim: bool, ghost p: Plan, ghost live: seq<OpId>, ghost after: seq<OpId>)
      requires Follows(p) && Sound(p) && p.trim == trim && live == done + after && totalDeq + |live| <= inputs.Length
      requires |dev.queue| + |done| + totalDeq == totalEnq && dev.queue <= after
      requires InOrder(p, live, totalDeq, desc) && Accounted(p.all, pool.free, live)
      requires outputs[..] == Stages(p, totalDeq, totalDeq + |done|, totalDeq + |live|)
      requires Written(p, done, totalDeq, desc) && Collected(p, totalDeq, totalEnq, data, submitted)
      requires WorkDone(dev.work, before, p, codec, inSz, totalDeq + |done|)
      modifies this`data, this`totalDeq, outputs, pool
      ensures State(p, after, |after|) && totalDeq == old(totalDeq) + |done|
    {
      hide Follows, Sound, Stages, Accounted, InOrder, Collected, Written, WorkDone, Tracked;
      Sizes(p);
      CollectedData(p, totalDeq, totalEnq, data, submitted);
      WrittenFits(p, done, totalDeq, desc);
      ghost var collected := data;
      var ok := ReadOutputs(done, p, totalDeq + |live|);
      CollectedGrows(p, totalDeq, totalEnq, collected, submitted, |done|, data);
      if trim {
        TrimOutputs(done, p, totalDeq + |live|);
      } else {
        StageUntrimmed(p, totalDeq, totalDeq + |done|, totalDeq + |live|);
      }
      Retire(done, p, after);
    }

    /** The finished operations go back to the pool. */
    method Retire(done: seq<OpId>, ghost p: Plan, ghost after: seq<OpId>)
      requires Follows(p) && Sound(p) && totalDeq + |done| + |after| <= inputs.Length
      requires |dev.queue| + |done| + totalDeq == totalEnq && dev.queue <= after
      requires InOrder(p, done + after, totalDeq, desc) && Accounted(p.all, pool.free, done + after)
      requires outputs[..] == Stages(p, totalDeq + |done|, totalDeq + |done|, totalDeq + |done| + |after|)
      requires Collected(p, totalDeq + |done|, totalEnq, data, submitted)
      requires WorkDone(dev.work, before, p, codec, inSz, totalDeq + |done|)
      modifies this`totalDeq, pool
      ensures State(p, after, |after|) && totalDeq == old(totalDeq) + |done|
    {
      hide Follows, Sound, Stages, Accounted, InOrder, Collected, WorkDone;
      InOrderShrinks(p, done, after, totalDeq, desc);
      AccountReturned(p.all, pool.free, done, after);
      pool.PutBulk(done);
      totalDeq := totalDeq + |done|;
      assert after[..|after|] == after;
    }

    method Begin(ghost p: Plan)
      requires Follows(p) && Sound(p) && outputs[..] == p.orig && pool.free == multiset(p.all) && dev.queue == []
      modifies this
      ensures Between(p) && totalEnq == totalDeq == unused == numEnq == 0 && before == dev.work
    {
      totalEnq, totalDeq, unused, numEnq, data, submitted, before := 0, 0, 0, 0, [], [], dev.work;
      WorkStarts(before, p, codec, inSz);
      assert outputs[..] == Stages(p, 0, 0, 0);
      assert dev.queue + ops[0..0] == [];
    }

    /** Everything is back. */
    ghost predicate AllDone(p: Plan)
      reads this, inputs, outputs, pool, dev
    {
      && Follows(p) && Sound(p)
      && pool.free == multiset(p.all) && dev.queue == [] && unused == 0
      && outputs[..] == Stages(p, inputs.Length, inputs.Length, inputs.Length)
      && data == Concat(p.outs) && submitted == seq(inputs.Length, i => i)
      && (forall b | 0 <= b < inputs.Length :: Fits(p, b))
      && WorkDone(dev.work, before, p, codec, inSz, inputs.Length)
    }

    lemma End(p: Plan)
      requires State(p, dev.queue + [], |dev.queue|) && totalDeq == totalEnq == inputs.Length && unused == 0
      ensures AllDone(p)
    {
      assert dev.queue == [] && dev.queue + [] == [];
      assert p.outs[..|p.outs|] == p.outs;
    }

    /** Between two bursts, with the left-overs behind the last accepted operation. */
    ghost predicate Between(p: Plan)
      reads this, inputs, outputs, pool, dev, ops
    {
      && totalEnq + unused <= inputs.Length && numEnq + unused <= ops.Length && totalDeq <= totalEnq
      && State(p, dev.queue + ops[numEnq..numEnq + unused], |dev.queue| + unused)
    }

    /** Shift, allocate and set up: the whole burst is in front of the array. */
    method Fill(burst: nat, ghost p: Plan) returns (numOps: nat)
      requires Between(p) && unused <= burst
      modifies this`desc, outputs, pool, ops
      ensures numOps == Min(inputs.Length - totalEnq, burst) && numOps <= ops.Length
      ensures State(p, dev.queue + ops[..numOps], |dev.queue| + numOps)
    {
      hide State, Follows;
      Lengths(p);
      numOps := Min(inputs.Length - totalEnq, burst);
      Shift();
      var ok := Allocate(numOps - unused, p);
      SetUp(numOps, p);
    }

    lemma Lengths(p: Plan)
      requires Between(p)
      ensures ops.Length == 2 * inputs.Length
    {
    }

    /** Enqueue, then dequeue and collect. */
    method Exchange(numOps: nat, burst: nat, turn: Turn, trim: bool, ghost p: Plan) returns (fits: bool)
      requires totalEnq <= inputs.Length && numOps == Min(inputs.Length - totalEnq, burst) && numOps <= ops.Length
      requires State(p, dev.queue + ops[..numOps], |dev.queue| + numOps) && p.trim == trim
      modifies this, outputs, pool, dev
      ensures fits ==> Between(p) && unused <= burst && totalEnq == old(totalEnq) + Min(turn.accepts, numOps)
      ensures before == old(before)
      ensures !fits ==> |p.outs| == |p.orig| && exists b :: 0 <= b < |p.outs| && !Fits(p, b)
    {
      hide State;
      Enqueue(numOps, turn.accepts, p);
      fits := Collect(burst, turn.gives, trim, p, ops[numEnq..numEnq + unused]);
      if fits {
        Dequeued(p, ops[numEnq..numEnq + unused]);
      }
    }

    /** One turn of the first loop: a burst goes in, and what is ready comes out. */
    method OneTurn(burst: nat, turn: Turn, trim: bool, ghost p: Plan) returns (fits: bool)
      requires Between(p) && unused <= burst && p.trim == trim
      modifies this, outputs, pool, dev, ops
      ensures fits ==> Between(p) && unused <= burst && old(totalEnq) <= totalEnq <= inputs.Length
      ensures before == old(before)
      ensures fits && turn.accepts >= 1 && burst >= 1 && old(totalEnq) < inputs.Length ==> old(totalEnq) < totalEnq
      ensures !fits ==> |p.outs| == |p.orig| && exists b :: 0 <= b < |p.outs| && !Fits(p, b)
    {
      hide State, Follows, Sound, Stages, Between, Fits;
      Bounds(p);
      var numOps := Fill(burst, p);
      fits := Exchange(numOps, burst, turn, trim, p);
      if fits {
        Bounds(p);
      }
    }

    /**
     * One pass over all the buffers, with the device behaving as `turns` says. A completed pass
     * has enqueued every buffer once and in order, collected every output in order, finished every
     * output buffer, and returned every operation to the pool, and the device has worked on the packets of the
     * input buffers, each once and in order, and on nothing else; it runs out of space only when
     * some output does not fit its buffer, and never runs out of operations.
     */
    method Pass(burst: nat, turns: seq<Turn>, trim: bool, ghost p: Plan) returns (outcome: Outcome)
      requires Follows(p) && Sound(p) && p.trim == trim && burst >= 1
      requires outputs[..] == p.orig && pool.free == multiset(p.all) && dev.queue == []
      modifies this, outputs, pool, dev, ops
      ensures outcome.Completed? ==> AllDone(p)
      ensures outcome.OutOfSpace? ==> |p.outs| == |p.orig| && exists b :: 0 <= b < |p.outs| && !Fits(p, b)
      ensures outcome.Stopped? ==> !Devices.Steady(turns, inputs.Length)
      ensures before == old(dev.work)
    {
      Begin(p);
      hide State, Follows, Sound, Stages, AllDone, Between, Draining, Fits;
      hide Devices.Busy, Devices.Steady, Devices.SteadyFrom, Devices.Accepts, Devices.Gives;
      var used;
      outcome, used := EnqueueAll(burst, turns, trim, p);
      if outcome.Completed? {
        StartDraining(p);
        outcome := Drain(burst, turns, used, trim, p);
      }
    }

    /** Until everything is enqueued; it takes no more turns than it needs. */
    method EnqueueAll(burst: nat, turns: seq<Turn>, trim: bool, ghost p: Plan) returns (outcome: Outcome, used: nat)
      requires Between(p) && unused <= burst && p.trim == trim && burst >= 1 && totalEnq == 0
      modifies this, outputs, pool, dev, ops
      ensures used <= |turns| && before == old(before)
      ensures outcome.Completed? ==> Between(p) && totalEnq == inputs.Length
      ensures outcome.Completed? && used > 0 ==> Devices.Busy(Devices.Accepts(turns), used - 1) < inputs.Length
      ensures outcome.OutOfSpace? ==> |p.outs| == |p.orig| && exists b :: 0 <= b < |p.outs| && !Fits(p, b)
      ensures outcome.Stopped? ==> !Devices.Steady(turns, inputs.Length)
    {
      hide State, Follows, Sound, Stages, AllDone, Between, Draining, Fits;
      hide Devices.Busy, Devices.Steady, Devices.SteadyFrom, Devices.Accepts, Devices.Gives;
      ghost var moved := Devices.Accepts(turns);
      used := 0;
      Devices.BusyStart(moved);
      Bounds(p);
      while totalEnq < inputs.Length
        invariant used <= |turns| && totalEnq <= inputs.Length && Between(p) && unused <= burst && before == old(before)
        invariant Devices.Busy(moved, used) <= totalEnq
        invariant used > 0 ==> Devices.Busy(moved, used - 1) < inputs.Length
        decreases |turns| - used
      {
        if used == |turns| {
          Devices.NotSteady(turns, inputs.Length, used);
          return Stopped, used;
        }
        Devices.BusyStep(moved, used);
        var fits := OneTurn(burst, turns[used], trim, p);
        if !fits {
          return OutOfSpace, used;
        }
        used := used + 1;
      }
      outcome := Completed;
    }

    lemma Bounds(p: Plan)
      requires Between(p)
      ensures totalDeq <= totalEnq && totalEnq + unused <= inputs.Length
    {
    }

    /** Everything is enqueued, not everything is back. */
    ghost predicate Draining(p: Plan)
      reads this, inputs, outputs, pool, dev
    {
      && totalEnq == inputs.Length && unused == 0 && totalDeq <= totalEnq
      && State(p, dev.queue + [], |dev.queue|)
    }

    lemma StartDraining(p: Plan)
      requires Between(p) && totalEnq == inputs.Length
      ensures Draining(p)
    {
      assert ops[numEnq..numEnq + unused] == [];
    }

    method DrainTurn(burst: nat, gives: nat, trim: bool, ghost p: Plan) returns (fits: bool)
      requires Draining(p) && totalDeq < inputs.Length && p.trim == trim
      modifies this`desc, this`data, this`totalDeq, outputs, pool, dev
      ensures fits ==> Draining(p) && old(totalDeq) <= totalDeq <= inputs.Length
      ensures fits && burst >= 1 && gives >= 1 ==> totalDeq > old(totalDeq)
      ensures !fits ==> |p.outs| == |p.orig| && exists b :: 0 <= b < |p.outs| && !Fits(p, b)
    {
      hide State, Fits;
      Dequeued(p, []);
      fits := Collect(burst, gives, trim, p, []);
      if fits {
        Dequeued(p, []);
      }
    }

    /** Dequeues the last operations. */
    method Drain(burst: nat, turns: seq<Turn>, from: nat, trim: bool, ghost p: Plan) returns (outcome: Outcome)
      requires burst >= 1 && Draining(p) && from <= |turns| && p.trim == trim
      requires from > 0 ==> Devices.Busy(Devices.Accepts(turns), from - 1) < inputs.Length
      modifies this`desc, this`data, this`totalDeq, outputs, pool, dev
      ensures outcome.Completed? ==> AllDone(p)
      ensures outcome.OutOfSpace? ==> |p.outs| == |p.orig| && exists b :: 0 <= b < |p.outs| && !Fits(p, b)
      ensures outcome.Stopped? ==> !Devices.Steady(turns, inputs.Length)
    {
      hide State, AllDone, Fits;
      hide Devices.Busy, Devices.Steady, Devices.SteadyFrom, Devices.Accepts, Devices.Gives;
      ghost var moved := Devices.Gives(turns);
      var used := from;
      while totalDeq < inputs.Length
        invariant used <= |turns| && Draining(p)
        invariant Devices.Busy(moved, used) - Devices.Busy(moved, from) <= totalDeq <= inputs.Length
        decreases |turns| - used
      {
        if used == |turns| {
          Devices.NotSteady(turns, inputs.Length, from);
          return Stopped;
        }
        Devices.BusyStep(moved, used);
        var fits := DrainTurn(burst, turns[used].gives, trim, p);
        if !fits {
          return OutOfSpace;
        }
        used := used + 1;
      }
      End(p);
      outcome := Completed;
    }

    lemma Dequeued(p: Plan, rest: seq<OpId>)
      requires State(p, dev.queue + rest, |dev.queue| + |rest|)
      ensures totalDeq + |dev.queue| == totalEnq
    {
    }
  }

  /** The invariant on values. */
  ghost predicate Tracked(p: Plan, live: seq<OpId>, setUp: nat, queued: nat, totalDeq: nat, totalEnq: nat,
                          desc: map<OpId, CompOp>, free: multiset<OpId>, outputs: seq<Chain>, data: seq<Byte>,
                          submitted: seq<nat>) {
    && Sound(p) && setUp <= |live|
    && queued + totalDeq == totalEnq && totalDeq + |live| <= |p.inputs|
    && InOrder(p, live[..setUp], totalDeq, desc)
    && Accounted(p.all, free, live)
    && outputs == Stages(p, totalDeq, totalDeq, totalDeq + setUp)
    && Collected(p, totalDeq, totalEnq, data, submitted)
  }

  /** New operations do not disturb the old ones. */
  lemma TrackedAllocated(p: Plan, live: seq<OpId>, setUp: nat, queued: nat, totalDeq: nat, totalEnq: nat,
                         desc: map<OpId, CompOp>, free: multiset<OpId>, free': multiset<OpId>, news: seq<OpId>,
                         outputs: seq<Chain>, data: seq<Byte>, submitted: seq<nat>)
    requires Tracked(p, live, setUp, queued, totalDeq, totalEnq, desc, free, outputs, data, submitted)
    requires free' + multiset(news) == free && totalDeq + |live| + |news| <= |p.inputs|
    ensures Tracked(p, live + news, setUp, queued, totalDeq, totalEnq, desc, free', outputs, data, submitted)
  {
    hide Sound, Stages, Collected, InOrder, Accounted;
    AccountAllocated(p.all, free, free', live, news);
    assert (live + news)[..setUp] == live[..setUp];
  }

  /** The next buffer is attached to the next operation and its output chain reset. */
  lemma TrackedSetUp(p: Plan, live: seq<OpId>, k: nat, queued: nat, totalDeq: nat, totalEnq: nat,
                     desc: map<OpId, CompOp>, free: multiset<OpId>, outputs: seq<Chain>, data: seq<Byte>,
                     submitted: seq<nat>)
    requires Tracked(p, live, k, queued, totalDeq, totalEnq, desc, free, outputs, data, submitted)
    requires k < |live| && queued <= k && |p.inputs| == |p.orig|
    ensures var b := totalEnq + k - queued;
            && b < |outputs| && b < |p.inputs| && Roomy(outputs[b].segs, p.segSz)
            && Tracked(p, live, k + 1, queued, totalDeq, totalEnq,
                       desc[live[k] := CompOp(b, p.inputs[b].pktLen, 0)], free,
                       outputs[b := Reset(outputs[b], p.segSz)], data, submitted)
  {
    hide Sound, Stages, Collected, Reset, Roomy;
    var b := totalEnq + k - queued;
    AccountSizes(p.all, free, live);
    hide Accounted;
    assert live[..k + 1] == live[..k] + [live[k]];
    StageReset(p, totalDeq, b);
    InOrderGrows(p, live[..k], totalDeq, desc, live[k], CompOp(b, p.inputs[b].pktLen, 0));
  }

  lemma TrackedFree(p: Plan, live: seq<OpId>, setUp: nat, queued: nat, totalDeq: nat, totalEnq: nat,
                    desc: map<OpId, CompOp>, free: multiset<OpId>, outputs: seq<Chain>, data: seq<Byte>,
                    submitted: seq<nat>)
    requires Tracked(p, live, setUp, queued, totalDeq, totalEnq, desc, free, outputs, data, submitted)
    ensures |free| + |live| == |p.all| && queued + totalDeq == totalEnq
  {
    AccountSizes(p.all, free, live);
  }

  lemma CollectedData(p: Plan, deqd: nat, enqd: nat, data: seq<Byte>, submitted: seq<nat>)
    requires Collected(p, deqd, enqd, data, submitted)
    ensures deqd <= |p.outs| && data == Concat(p.outs[..deqd])
  {
  }

  lemma WrittenFits(p: Plan, done: seq<OpId>, first: nat, desc: map<OpId, CompOp>)
    requires Written(p, done, first, desc)
    ensures first + |done| <= |p.outs| == |p.orig| && forall b | first <= b < first + |done| :: Fits(p, b)
  {
    forall b | first <= b < first + |done| ensures Fits(p, b) {
      assert done[b - first] in desc;
    }
  }

  lemma CollectedGrows(p: Plan, deqd: nat, enqd: nat, data: seq<Byte>, submitted: seq<nat>, n: nat, data': seq<Byte>)
    requires Collected(p, deqd, enqd, data, submitted) && deqd + n <= |p.outs| && data' == Concat(p.outs[..deqd + n])
    requires forall b | deqd <= b < deqd + n :: Fits(p, b)
    ensures Collected(p, deqd + n, enqd, data', submitted)
  {
  }

  lemma InOrderShrinks(p: Plan, done: seq<OpId>, after: seq<OpId>, first: nat, desc: map<OpId, CompOp>)
    requires InOrder(p, done + after, first, desc)
    ensures InOrder(p, after, first + |done|, desc)
  {
    forall k | 0 <= k < |after|
      ensures after[k] in desc && desc[after[k]].buf == first + |done| + k
              && desc[after[k]].srcLen == p.inputs[first + |done| + k].pktLen
    {
      assert after[k] == (done + after)[|done| + k];
    }
  }
}
