/**
 * The compression test as a whole: repeated passes, the verification run (compress, decompress,
 * compare), the throughput run behind it, and one run after the other for a list of levels, all on
 * the buffers that were set up once.
 */
module CompressRuns {
  import opened Bits
  import opened Chains
  import opened CompressEngine
  import opened PrepareBufs
  import Devices

  // ----- several iterations of one pass -----

  ghost predicate AllFit(p: Plan) {
    |p.outs| == |p.orig| && forall b | 0 <= b < |p.outs| :: Fits(p, b)
  }

  ghost predicate AllSteady(turns: seq<seq<Turn>>, n: nat) {
    forall i | 0 <= i < |turns| :: Devices.Steady(turns[i], n)
  }

  /** Output buffers at the end of a pass. */
  ghost function Ended(p: Plan): (s: seq<Chain>)
    requires Sound(p)
    ensures |s| == |p.orig|
  {
    Stages(p, |p.orig|, |p.orig|, |p.orig|)
  }

  ghost predicate BadFit(p: Plan) {
    |p.outs| == |p.orig| && exists b :: 0 <= b < |p.outs| && !Fits(p, b)
  }

  /** The plan of a pass that starts from what an untrimmed pass left behind. */
  ghost function Again(p: Plan): Plan
    requires Sound(p)
  {
    p.(orig := Ended(p.(trim := false)))
  }

  lemma AgainOne(p: Plan, b: nat)
    requires Sound(p) && b < |p.orig| && Fits(p, b)
    ensures Ended(p)[b] == Finished(Reset(p.orig[b], p.segSz), p.outs[b], p.segSz, p.trim)
    ensures var c := Ended(p.(trim := false))[b];
            && Roomy(c.segs, p.segSz) && |c.segs| == |p.orig[b].segs|
            && Finished(Reset(c, p.segSz), p.outs[b], p.segSz, p.trim) ==
               Finished(Reset(p.orig[b], p.segSz), p.outs[b], p.segSz, p.trim)
  {
    FinishedAgain(p.orig[b], p.outs[b], p.segSz, p.trim);
    FullSize(p.orig[b].segs, p.segSz);
    OverwriteShape(Reset(p.orig[b], p.segSz).segs, p.outs[b], p.segSz);
  }

  lemma AgainSound(p: Plan)
    requires Sound(p) && AllFit(p)
    ensures Sound(Again(p)) && AllFit(Again(p))
  {
    hide Ended;
    forall b | 0 <= b < |p.orig|
      ensures Roomy(Again(p).orig[b].segs, p.segSz) && |Again(p).orig[b].segs| == |p.orig[b].segs| && Fits(p, b)
    {
      AgainOne(p, b);
    }
  }

  /** A pass over the output of an untrimmed pass comes to the same end as a pass over the original buffers. */
  lemma AgainSame(p: Plan, codec: seq<Byte> -> seq<Byte>, inSz: nat)
    requires PlanOk(p, codec, inSz) && AllFit(p) && Sound(p)
    ensures Sound(Again(p)) && PlanOk(Again(p), codec, inSz) && AllFit(Again(p)) && Ended(Again(p)) == Ended(p)
  {
    AgainSound(p);
    var q := Again(p);
    forall b | 0 <= b < |p.orig| ensures Ended(q)[b] == Ended(p)[b] {
      AgainOne(p, b);
      hide AllFit, Reset, Finished;
      assert Ended(q)[b] == Finished(Reset(q.orig[b], p.segSz), p.outs[b], p.segSz, p.trim);
    }
  }

  // ----- the work of the device -----

  /** All the work of one pass. */
  ghost function PassWork(p: Plan, codec: seq<Byte> -> seq<Byte>, inSz: nat): seq<Work>
    requires PlanOk(p, codec, inSz)
  {
    Works(p, codec, inSz, |p.inputs|)
  }

  ghost function Times(w: seq<Work>, n: nat): seq<Work> {
    if n == 0 then [] else Times(w, n - 1) + w
  }

  lemma TimesNext(before: seq<Work>, w: seq<Work>, n: nat)
    ensures before + Times(w, 0) == before
    ensures before + Times(w, n) + w == before + Times(w, n + 1)
  {
  }

  lemma TimesOnce(before: seq<Work>, w: seq<Work>)
    ensures before + Times(w, 1) == before + w
  {
    TimesNext(before, w, 0);
  }

  lemma {:induction false} TimesAdd(before: seq<Work>, w: seq<Work>, m: nat, n: nat)
    ensures before + Times(w, m) + Times(w, n) == before + Times(w, m + n)
  {
    if n == 0 {
      TimesNext(before + Times(w, m), w, 0);
    } else {
      TimesAdd(before, w, m, n - 1);
      TimesNext(before, w, m + n - 1);
      TimesNext(before + Times(w, m), w, n - 1);
    }
  }

  /**
   * The engine over `|turns|` iterations, of which only the last one trims: the same result as a
   * single trimming pass. Space can run out in the first iteration only. The device does the work of a pass in
   * each iteration.
   */
  method MainLoop(e: Engine, burst: nat, turns: seq<seq<Turn>>, ghost p: Plan) returns (outcome: CompressEngine.Outcome)
    requires e.Follows(p) && Sound(p) && p.trim && burst >= 1 && |turns| >= 1
    requires e.outputs[..] == p.orig && e.pool.free == multiset(p.all) && e.dev.queue == []
    modifies e, e.outputs, e.pool, e.dev, e.ops
    ensures outcome.Completed? ==> Finish(e, p)
    ensures outcome.Completed? ==> e.dev.work == old(e.dev.work) + Times(PassWork(p, e.codec, e.inSz), |turns|)
    ensures outcome.OutOfSpace? ==> BadFit(p)
    ensures outcome.Stopped? ==> !AllSteady(turns, e.inputs.Length)
  {
    hide Ended, AllFit, PassWork, Times;
    var iter: nat := 0;
    ghost var q, w, before := p, PassWork(p, e.codec, e.inSz), e.dev.work;
    TimesNext(before, w, 0);
    while iter < |turns|
      invariant iter <= |turns| && e.Follows(p)
      invariant e.pool.free == multiset(p.all) && e.dev.queue == []
      invariant iter == 0 ==> q == p
      invariant 0 < iter < |turns| ==> AllFit(p) && q == Again(p)
      invariant iter < |turns| ==> e.Follows(q) && Sound(q) && e.outputs[..] == q.orig
      invariant iter == |turns| ==> Finish(e, p)
      invariant e.dev.work == before + Times(w, iter)
    {
      ghost var last := iter == |turns| - 1;
      outcome := e.Pass(burst, turns[iter], iter == |turns| - 1, q.(trim := iter == |turns| - 1));
      if outcome != Completed {
        if 0 < iter {
          AgainSame(p, e.codec, e.inSz);
        }
        FitsAlike(q, last);
        return;
      }
      PassEnded(e, p, q, iter, last);
      TimesNext(before, w, iter);
      q := Again(p);
      iter := iter + 1;
    }
    outcome := Completed;
  }

  /** A finished pass over the plan, whatever number of iterations it took. */
  ghost predicate Finish(e: Engine, p: Plan)
    reads e, e.inputs, e.outputs, e.pool, e.dev
  {
    && e.Follows(p) && Sound(p) && e.pool.free == multiset(p.all) && e.dev.queue == []
    && e.outputs[..] == Ended(p) && AllFit(p) && e.data == Concat(p.outs)
    && e.submitted == seq(e.inputs.Length, i => i)
  }

  lemma FitsAlike(q: Plan, trim: bool)
    ensures AllFit(q) == AllFit(q.(trim := trim))
    ensures BadFit(q.(trim := trim)) == BadFit(q)
    ensures BadFit(q) ==> !AllFit(q)
  {
    assert forall b | 0 <= b < |q.outs| && |q.outs| == |q.orig| :: Fits(q, b) == Fits(q.(trim := trim), b);
    if BadFit(q) {
      var b :| 0 <= b < |q.outs| && !Fits(q, b);
      assert !Fits(q.(trim := trim), b);
    }
    if BadFit(q.(trim := trim)) {
      var b :| 0 <= b < |q.outs| && !Fits(q.(trim := trim), b);
      assert !Fits(q, b);
    }
  }

  /** After one more iteration. */
  lemma PassEnded(e: Engine, p: Plan, q: Plan, iter: nat, last: bool)
    requires e.Follows(p) && Sound(p) && p.trim && Sound(q.(trim := last))
    requires iter == 0 ==> q == p
    requires iter > 0 ==> AllFit(p) && q == Again(p)
    requires e.AllDone(q.(trim := last))
    ensures AllFit(p) && e.pool.free == multiset(p.all) && e.dev.queue == []
    ensures !last ==> e.Follows(Again(p)) && Sound(Again(p)) && e.outputs[..] == Again(p).orig
    ensures last ==> Finish(e, p)
    ensures e.dev.work == e.before + PassWork(p, e.codec, e.inSz)
  {
    var q' := q.(trim := last);
    assert AllFit(q') by {
      assert forall b | 0 <= b < |q'.outs| :: Fits(q', b);
    }
    FitsAlike(q, last);
    assert e.outputs[..] == Ended(q');
    assert PlanOk(p, e.codec, e.inSz);
    SameWork(p, q', e.codec, e.inSz);
    if iter > 0 {
      var r := p.(trim := last);
      FitsAlike(p, last);
      AgainSame(r, e.codec, e.inSz);
      assert Again(r) == q';
    }
    AgainSame(p, e.codec, e.inSz);
  }

  /** The work of a pass depends on its input and on the codec. */
  lemma SameWork(p: Plan, q: Plan, codec: seq<Byte> -> seq<Byte>, inSz: nat)
    requires PlanOk(p, codec, inSz) && PlanOk(q, codec, inSz) && p.inputs == q.inputs && p.outs == q.outs
    ensures PassWork(p, codec, inSz) == Works(q, codec, inSz, |p.inputs|)
  {
  }

  // ----- compress, decompress, compare -----

  datatype Codec = Codec(compress: seq<Byte> -> seq<Byte>, decompress: seq<Byte> -> seq<Byte>)

  /** The codec gives each of these packets back. */
  ghost predicate RoundTrips(c: Codec, decomp: seq<Chain>, segSz: nat) {
    && AllReadable(decomp, segSz)
    && forall b | 0 <= b < |decomp| ::
         c.decompress(c.compress(Packet(decomp[b], segSz))) == Packet(decomp[b], segSz)
  }

  ghost predicate AllReadable(chains: seq<Chain>, segSz: nat) {
    forall b | 0 <= b < |chains| :: Readable(chains[b], segSz)
  }

  ghost predicate AllLaidOut(chains: seq<Chain>, segSz: nat) {
    forall b | 0 <= b < |chains| :: Roomy(chains[b].segs, segSz) && LaidOut(chains[b].segs, chains[b].pktLen, segSz)
  }

  /** Output chains that can hold `segSz` bytes a segment, as many segments as the input chains. */
  ghost predicate Paired(decomp: seq<Chain>, comp: seq<Chain>, segSz: nat) {
    |decomp| == |comp| && forall b | 0 <= b < |comp| :: Roomy(comp[b].segs, segSz) && |comp[b].segs| == |decomp[b].segs|
  }

  /** Every compressed chain has room in its output chain. */
  ghost predicate Compressible(c: Codec, decomp: seq<Chain>, segSz: nat, outSegSz: nat) {
    && AllReadable(decomp, segSz)
    && forall b | 0 <= b < |decomp| :: |c.compress(Packet(decomp[b], segSz))| <= outSegSz * |decomp[b].segs|
  }

  /** What the codec makes of a packet is longer by no more than output segments are longer than input segments. */
  ghost predicate GrowsLittle(c: Codec, chain: Chain, segSz: nat, outSegSz: nat)
    requires Readable(chain, segSz) && segSz <= outSegSz
  {
    |c.compress(Packet(chain, segSz))| <= |Packet(chain, segSz)| + (outSegSz - segSz) * |chain.segs|
  }

  ghost predicate AllGrowLittle(c: Codec, decomp: seq<Chain>, segSz: nat, outSegSz: nat) {
    && AllReadable(decomp, segSz) && segSz <= outSegSz
    && forall b | 0 <= b < |decomp| :: GrowsLittle(c, decomp[b], segSz, outSegSz)
  }

  lemma GrowsLittleFits(c: Codec, chain: Chain, segSz: nat, outSegSz: nat)
    requires Readable(chain, segSz) && segSz <= outSegSz && |Packet(chain, segSz)| <= segSz * |chain.segs|
    ensures GrowsLittle(c, chain, segSz, outSegSz) ==>
              |c.compress(Packet(chain, segSz))| <= outSegSz * |chain.segs|
    ensures |Packet(chain, segSz)| == segSz * |chain.segs| ==>
              (GrowsLittle(c, chain, segSz, outSegSz) <==>
                |c.compress(Packet(chain, segSz))| <= outSegSz * |chain.segs|)
  {
    Slack(segSz, outSegSz, |chain.segs|);
  }

  lemma Slack(a: int, b: int, n: int)
    ensures a * n + (b - a) * n == b * n
  {
  }

  /** Such packets fit, and if all the chains are full, no others do. */
  lemma SlackFits(c: Codec, decomp: seq<Chain>, segSz: nat, outSegSz: nat)
    requires AllLaidOut(decomp, segSz) && AllReadable(decomp, segSz) && segSz <= outSegSz
    ensures AllGrowLittle(c, decomp, segSz, outSegSz) ==> Compressible(c, decomp, segSz, outSegSz)
    ensures (forall b | 0 <= b < |decomp| :: |Packet(decomp[b], segSz)| == segSz * |decomp[b].segs|) ==>
              (AllGrowLittle(c, decomp, segSz, outSegSz) <==> Compressible(c, decomp, segSz, outSegSz))
  {
    LaidOutReadable(decomp, segSz);
    hide GrowsLittle;
    forall b | 0 <= b < |decomp|
      ensures GrowsLittle(c, decomp[b], segSz, outSegSz) ==>
                |c.compress(Packet(decomp[b], segSz))| <= outSegSz * |decomp[b].segs|
      ensures |Packet(decomp[b], segSz)| == segSz * |decomp[b].segs| ==>
                (GrowsLittle(c, decomp[b], segSz, outSegSz) <==>
                  |c.compress(Packet(decomp[b], segSz))| <= outSegSz * |decomp[b].segs|)
    {
      GrowsLittleFits(c, decomp[b], segSz, outSegSz);
    }
  }

  /** The output chains hold the compressed input chains. */
  ghost predicate Compressed(c: Codec, decomp: seq<Chain>, comp: seq<Chain>, segSz: nat, outSegSz: nat)
    requires AllReadable(decomp, segSz)
  {
    && |comp| == |decomp| && AllReadable(comp, outSegSz)
    && forall b | 0 <= b < |comp| :: Packet(comp[b], outSegSz) == c.compress(Packet(decomp[b], segSz))
  }

  /** What the codec makes of each packet. */
  ghost function Parts(f: seq<Byte> -> seq<Byte>, inputs: seq<Chain>, inSz: nat): seq<seq<Byte>>
    requires AllReadable(inputs, inSz)
  {
    seq(|inputs|, b requires 0 <= b < |inputs| && AllReadable(inputs, inSz) => f(Packet(inputs[b], inSz)))
  }

  ghost function PlanOf(all: set<OpId>, inputs: seq<Chain>, orig: seq<Chain>, f: seq<Byte> -> seq<Byte>, inSz: nat,
                        segSz: nat): Plan
    requires AllReadable(inputs, inSz)
  {
    Plan(all, inputs, orig, Parts(f, inputs, inSz), segSz, true)
  }

  lemma LaidOutReadable(chains: seq<Chain>, segSz: nat)
    requires AllLaidOut(chains, segSz)
    ensures AllReadable(chains, segSz)
    ensures forall b | 0 <= b < |chains| :: Packet(chains[b], segSz) == Data(chains[b].segs)
    ensures forall b | 0 <= b < |chains| :: |Packet(chains[b], segSz)| <= segSz * |chains[b].segs|
  {
    forall b | 0 <= b < |chains|
      ensures Readable(chains[b], segSz) && Packet(chains[b], segSz) == Data(chains[b].segs)
      ensures |Packet(chains[b], segSz)| <= segSz * |chains[b].segs|
    {
      LaidOutData(chains[b].segs, chains[b].pktLen, segSz);
    }
  }

  /** A plan from readable inputs and roomy outputs can be run. */
  lemma PlanGood(all: set<OpId>, inputs: seq<Chain>, orig: seq<Chain>, f: seq<Byte> -> seq<Byte>, inSz: nat, segSz: nat)
    requires AllReadable(inputs, inSz) && |inputs| == |orig| && |all| == 2 * |inputs|
    requires forall b | 0 <= b < |orig| :: Roomy(orig[b].segs, segSz)
    ensures var p := PlanOf(all, inputs, orig, f, inSz, segSz);
            && p.all == all && p.inputs == inputs && p.orig == orig && p.segSz == segSz && p.trim
            && PlanOk(p, f, inSz) && Sound(p) && (BadFit(p) ==> !AllFit(p))
  {
    FitsAlike(PlanOf(all, inputs, orig, f, inSz, segSz), true);
  }

  lemma CompressPlan(all: set<OpId>, c: Codec, decomp: seq<Chain>, comp: seq<Chain>, segSz: nat, outSegSz: nat)
    requires AllReadable(decomp, segSz) && Paired(decomp, comp, outSegSz) && |all| == 2 * |decomp|
    ensures var p := PlanOf(all, decomp, comp, c.compress, segSz, outSegSz);
            && p.all == all && p.inputs == decomp && p.orig == comp && p.segSz == outSegSz && p.trim
            && p.outs == Parts(c.compress, decomp, segSz)
            && PlanOk(p, c.compress, segSz) && Sound(p)
            && (AllFit(p) <==> Compressible(c, decomp, segSz, outSegSz)) && (BadFit(p) ==> !AllFit(p))
  {
    var p := PlanOf(all, decomp, comp, c.compress, segSz, outSegSz);
    PlanGood(all, decomp, comp, c.compress, segSz, outSegSz);
    assert forall b | 0 <= b < |decomp| :: Fits(p, b) <==>
        |c.compress(Packet(decomp[b], segSz))| <= outSegSz * |decomp[b].segs|;
  }

  lemma CompressEnded(all: set<OpId>, c: Codec, decomp: seq<Chain>, comp: seq<Chain>, segSz: nat, outSegSz: nat)
    requires AllReadable(decomp, segSz) && Paired(decomp, comp, outSegSz)
    requires Sound(PlanOf(all, decomp, comp, c.compress, segSz, outSegSz))
             && AllFit(PlanOf(all, decomp, comp, c.compress, segSz, outSegSz))
    ensures var end := Ended(PlanOf(all, decomp, comp, c.compress, segSz, outSegSz));
            Paired(decomp, end, outSegSz) && Compressed(c, decomp, end, segSz, outSegSz)
  {
    var p := PlanOf(all, decomp, comp, c.compress, segSz, outSegSz);
    forall b | 0 <= b < |comp|
      ensures var e := Ended(p)[b];
              && Roomy(e.segs, outSegSz) && |e.segs| == |decomp[b].segs|
              && Readable(e, outSegSz) && Packet(e, outSegSz) == c.compress(Packet(decomp[b], segSz))
    {
      assert Fits(p, b);
      AgainOne(p, b);
      FinishedReads(comp[b], p.outs[b], outSegSz);
    }
  }

  /** What comes back when every chain has been compressed and decompressed. */
  ghost function Recovered(c: Codec, decomp: seq<Chain>, segSz: nat): seq<seq<Byte>>
    requires AllReadable(decomp, segSz)
  {
    seq(|decomp|, b requires 0 <= b < |decomp| && AllReadable(decomp, segSz) =>
        c.decompress(c.compress(Packet(decomp[b], segSz))))
  }

  lemma DecompressPlan(all: set<OpId>, c: Codec, decomp: seq<Chain>, comp: seq<Chain>, segSz: nat, outSegSz: nat)
    requires AllLaidOut(decomp, segSz) && AllReadable(decomp, segSz)
    requires |all| == 2 * |decomp| && Compressed(c, decomp, comp, segSz, outSegSz)
    ensures AllReadable(comp, outSegSz)
    ensures var p := PlanOf(all, comp, decomp, c.decompress, outSegSz, segSz);
            && p.all == all && p.inputs == comp && p.orig == decomp && p.segSz == segSz && p.trim
            && PlanOk(p, c.decompress, outSegSz) && Sound(p) && (BadFit(p) ==> !AllFit(p))
            && p.outs == Recovered(c, decomp, segSz)
  {
    PlanGood(all, comp, decomp, c.decompress, outSegSz, segSz);
    var p := PlanOf(all, comp, decomp, c.decompress, outSegSz, segSz);
    forall b | 0 <= b < |decomp| ensures p.outs[b] == c.decompress(c.compress(Packet(decomp[b], segSz))) {
      assert Packet(comp[b], outSegSz) == c.compress(Packet(decomp[b], segSz));
    }
  }

  /** With a codec that round-trips, what comes back is the input, fits, and restores the chains. */
  lemma RoundTripPlan(c: Codec, p: Plan, segSz: nat)
    requires RoundTrips(c, p.orig, segSz) && AllLaidOut(p.orig, segSz)
    requires Sound(p) && p.trim && p.segSz == segSz && p.outs == Recovered(c, p.orig, segSz)
    ensures AllFit(p) && Ended(p) == p.orig && Concat(p.outs) == Flatten(p.orig)
  {
    LaidOutReadable(p.orig, segSz);
    forall b | 0 <= b < |p.orig| ensures p.outs[b] == Data(p.orig[b].segs) == Packet(p.orig[b], segSz) && Fits(p, b) {
      assert p.outs[b] == c.decompress(c.compress(Packet(p.orig[b], segSz)));
    }
    forall b | 0 <= b < |p.orig| ensures Ended(p)[b] == p.orig[b] {
      AgainOne(p, b);
      FinishedRestores(p.orig[b], segSz);
    }
    ConcatFlatten(p.orig, p.outs);
  }

  lemma {:induction false} ConcatFlatten(chains: seq<Chain>, outs: seq<seq<Byte>>)
    requires |chains| == |outs|
    requires forall i | 0 <= i < |chains| :: forall j | 0 <= j < |chains[i].segs| ::
               chains[i].segs[j].dataLen <= |chains[i].segs[j].buf|
    requires forall i | 0 <= i < |chains| :: outs[i] == Data(chains[i].segs)
    ensures Concat(outs) == Flatten(chains)
  {
    if chains != [] {
      ConcatFlatten(chains[..|chains| - 1], outs[..|outs| - 1]);
    }
  }

  /** The device compresses each chain. */
  ghost function Forward(c: Codec, decomp: seq<Chain>, segSz: nat): (s: seq<Work>)
    requires AllReadable(decomp, segSz)
  {
    seq(|decomp|, b requires 0 <= b < |decomp| && AllReadable(decomp, segSz) =>
        Work(Packet(decomp[b], segSz), c.compress(Packet(decomp[b], segSz))))
  }

  /** The device decompresses what came of each chain. */
  ghost function Backward(c: Codec, decomp: seq<Chain>, segSz: nat): (s: seq<Work>)
    requires AllReadable(decomp, segSz)
  {
    seq(|decomp|, b requires 0 <= b < |decomp| && AllReadable(decomp, segSz) =>
        Work(c.compress(Packet(decomp[b], segSz)), c.decompress(c.compress(Packet(decomp[b], segSz)))))
  }

  lemma CompressWork(all: set<OpId>, c: Codec, decomp: seq<Chain>, comp: seq<Chain>, segSz: nat, outSegSz: nat)
    requires AllReadable(decomp, segSz)
    requires PlanOk(PlanOf(all, decomp, comp, c.compress, segSz, outSegSz), c.compress, segSz)
    ensures PassWork(PlanOf(all, decomp, comp, c.compress, segSz, outSegSz), c.compress, segSz) ==
            Forward(c, decomp, segSz)
  {
  }

  lemma DecompressWork(all: set<OpId>, c: Codec, decomp: seq<Chain>, comp: seq<Chain>, segSz: nat, outSegSz: nat)
    requires AllReadable(decomp, segSz) && Compressed(c, decomp, comp, segSz, outSegSz)
    requires PlanOk(PlanOf(all, comp, decomp, c.decompress, outSegSz, segSz), c.decompress, outSegSz)
    ensures PassWork(PlanOf(all, comp, decomp, c.decompress, outSegSz, segSz), c.decompress, outSegSz) ==
            Backward(c, decomp, segSz)
  {
    var p := PlanOf(all, comp, decomp, c.decompress, outSegSz, segSz);
    forall b | 0 <= b < |comp|
      ensures PassWork(p, c.decompress, outSegSz)[b] == Backward(c, decomp, segSz)[b]
    {
      assert Packet(comp[b], outSegSz) == c.compress(Packet(decomp[b], segSz));
    }
  }

  /** The work of a throughput run: a pass each way, then the timed loops. */
  ghost function RunWork(c: Codec, s: Script, decomp: seq<Chain>, segSz: nat): seq<Work>
    requires AllReadable(decomp, segSz) && Iterates(s)
  {
    var forth, back := Forward(c, decomp, segSz), Backward(c, decomp, segSz);
    forth + back + Times(forth, |s.compress[0]| + |s.compress[1]|) + Times(back, |s.decompress[0]| + |s.decompress[1]|)
  }

  /** ... and of one run after the other. */
  ghost function LevelsWork(levels: seq<Codec>, scripts: seq<Script>, decomp: seq<Chain>, segSz: nat): seq<Work>
    requires AllReadable(decomp, segSz) && |levels| == |scripts|
    requires forall k | 0 <= k < |scripts| :: Iterates(scripts[k])
  {
    if levels == [] then []
    else
      var last := |levels| - 1;
      LevelsWork(levels[..last], scripts[..last], decomp, segSz) + RunWork(levels[last], scripts[last], decomp, segSz)
  }

  lemma LevelsNext(levels: seq<Codec>, scripts: seq<Script>, decomp: seq<Chain>, segSz: nat, k: nat, before: seq<Work>)
    requires AllReadable(decomp, segSz) && k < |levels| == |scripts|
    requires forall k | 0 <= k < |scripts| :: Iterates(scripts[k])
    ensures before + LevelsWork(levels[..k], scripts[..k], decomp, segSz) +
            RunWork(levels[k], scripts[k], decomp, segSz) ==
            before + LevelsWork(levels[..k + 1], scripts[..k + 1], decomp, segSz)
  {
    hide RunWork;
    assert levels[..k + 1][..k] == levels[..k] && scripts[..k + 1][..k] == scripts[..k];
  }

  lemma NoLevels(levels: seq<Codec>, scripts: seq<Script>, decomp: seq<Chain>, segSz: nat, before: seq<Work>)
    requires AllReadable(decomp, segSz) && |levels| == |scripts|
    ensures before + LevelsWork(levels[..0], scripts[..0], decomp, segSz) == before
    ensures levels[..|levels|] == levels && scripts[..|scripts|] == scripts
  {
  }

  /** The operation objects of a pool of `n`. */
  function OpIds(n: nat): (ids: set<OpId>)
    ensures |ids| == n && forall x | x in ids :: x < n
  {
    if n == 0 then {} else OpIds(n - 1) + {n - 1}
  }

  datatype Result = Success | DoesNotFit | Mismatch | Interrupted

  /** The context of the verification and throughput tests. */
  class Session {
    const decomp: array<Chain>
    const comp: array<Chain>
    const segSz: nat
    const outSegSz: nat
    const pool: Devices.Mempool
    const dev: CompressEngine.Device
    const all: set<OpId>

    /**
     * Sizes, allocation and set-up: the input is cut into chains, and every output chain gets as many
     * segments, which are longer than those of the input and still fit a packet buffer.
     */
    constructor (input: seq<Byte>, segSz: nat, maxSegs: nat)
      requires 1 <= |input| <= UINT32_MAX && 1 <= segSz <= MAX_SEG_SIZE && maxSegs >= 1
      ensures Ready() && Flatten(decomp[..]) == input && this.segSz == segSz
      ensures Prepared(decomp[..], comp[..], segSz, outSegSz, maxSegs)
      ensures segSz < outSegSz <= MAX_MBUF_DATA_SIZE
      ensures if segSz < 32768 then IsPow2(outSegSz) && outSegSz <= 2 * segSz else outSegSz == 11 * segSz / 10
      ensures fresh(decomp) && fresh(comp) && fresh(pool) && fresh(dev)
    {
      var totalSegs := DivCeil(|input|, segSz);
      var totalBufs := DivCeil(totalSegs, maxSegs);
      var bufSize := FindBufSize(segSz);
      this.segSz, this.outSegSz := segSz, bufSize;
      decomp := new Chain[totalBufs];
      comp := new Chain[totalBufs];
      all := OpIds(2 * totalBufs);
      pool := new Devices.Mempool(multiset(OpIds(2 * totalBufs)));
      dev := new CompressEngine.Device();
      new;
      hide DivCeil;
      var decompPool := new SegmentPool(segSz, totalSegs);
      var compPool := new SegmentPool(outSegSz, totalSegs);
      var ok := PrepareBufs.PrepareBufs(input, segSz, outSegSz, maxSegs, decomp, comp, decompPool, compPool);
      LaidOutReadable(decomp[..], segSz);
    }

    /** The buffers are as the set-up left them, or as any number of runs since then left them. */
    ghost predicate Ready()
      reads decomp, comp, pool, dev
    {
      && decomp != comp && |all| == 2 * decomp.Length && segSz <= outSegSz
      && pool.free == multiset(all) && dev.queue == []
      && AllLaidOut(decomp[..], segSz) && AllReadable(decomp[..], segSz) && Paired(decomp[..], comp[..], outSegSz)
    }

    ghost predicate Holds(c: Codec)
      requires Ready()
      reads decomp, comp, pool, dev
    {
      Compressed(c, decomp[..], comp[..], segSz, outSegSz)
    }

    /** One compress pass, or several: completes only if everything fits. */
    method Compress(c: Codec, burst: nat, turns: seq<seq<Turn>>)
        returns (outcome: CompressEngine.Outcome, data: seq<Byte>)
      requires Ready() && burst >= 1 && |turns| >= 1
      modifies comp, pool, dev
      ensures outcome.Completed? ==> Ready() && Compressible(c, old(decomp[..]), segSz, outSegSz) && Holds(c)
      ensures outcome.Completed? ==> data == Concat(Parts(c.compress, old(decomp[..]), segSz))
      ensures outcome.Completed? ==>
                dev.work == old(dev.work) + Times(Forward(c, old(decomp[..]), segSz), |turns|)
      ensures outcome.OutOfSpace? ==> !Compressible(c, old(decomp[..]), segSz, outSegSz)
      ensures outcome.Stopped? ==> !AllSteady(turns, decomp.Length)
    {
      hide LaidOut, Readable, Roomy, Compressible, Compressed, PlanOk, Sound, AllFit, BadFit, Ended, PlanOf, Parts,
          Paired, AllLaidOut, AllReadable, PassWork, Forward, Times;
      ghost var p := PlanOf(all, decomp[..], comp[..], c.compress, segSz, outSegSz);
      CompressPlan(all, c, decomp[..], comp[..], segSz, outSegSz);
      CompressWork(all, c, decomp[..], comp[..], segSz, outSegSz);
      ghost var orig := comp[..];
      var e := new Engine(decomp, comp, segSz, outSegSz, c.compress, pool, dev);
      outcome := MainLoop(e, burst, turns, p);
      data := e.data;
      if outcome.Completed? {
        CompressEnded(all, c, decomp[..], orig, segSz, outSegSz);
      }
    }

    /**
     * One decompress pass, or several. With a codec that round-trips it always fits, and restores
     * the input chains to the last byte.
     */
    method Decompress(c: Codec, burst: nat, turns: seq<seq<Turn>>)
        returns (outcome: CompressEngine.Outcome, data: seq<Byte>)
      requires Ready() && Holds(c) && burst >= 1 && |turns| >= 1
      modifies decomp, pool, dev
      ensures outcome.OutOfSpace? ==> !RoundTrips(c, old(decomp[..]), segSz)
      ensures outcome.Stopped? ==> !AllSteady(turns, decomp.Length)
      ensures outcome.Completed? ==> data == Concat(Recovered(c, old(decomp[..]), segSz))
      ensures outcome.Completed? ==>
                dev.work == old(dev.work) + Times(Backward(c, old(decomp[..]), segSz), |turns|)
      ensures outcome.Completed? && RoundTrips(c, old(decomp[..]), segSz) ==>
                decomp[..] == old(decomp[..]) && Ready() && Holds(c) && data == Flatten(decomp[..])
    {
      hide LaidOut, Readable, Roomy, Compressible, Compressed, PlanOk, Sound, AllFit, BadFit, Ended, PlanOf, Paired,
          AllLaidOut, AllReadable, Recovered, RoundTrips, PassWork, Backward, Times;
      DecompressPlan(all, c, decomp[..], comp[..], segSz, outSegSz);
      DecompressWork(all, c, decomp[..], comp[..], segSz, outSegSz);
      ghost var p := PlanOf(all, comp[..], decomp[..], c.decompress, outSegSz, segSz);
      if RoundTrips(c, decomp[..], segSz) {
        RoundTripPlan(c, p, segSz);
      }
      var e := new Engine(comp, decomp, outSegSz, segSz, c.decompress, pool, dev);
      outcome := MainLoop(e, burst, turns, p);
      data := e.data;
    }

    /**
     * The verification run. The comparison tells whether compressing and decompressing gave back the
     * input. With a codec that round-trips it never fails, and unless the device behaviour ends
     * early the run succeeds exactly if every compressed chain fits, as it always does for a codec
     * that makes no chain longer than the output segments allow for.
     */
    method Verify(c: Codec, burst: nat, compressTurns: seq<Turn>, decompressTurns: seq<Turn>, input: seq<Byte>)
        returns (result: Result)
      requires Ready() && burst >= 1 && Flatten(decomp[..]) == input
      modifies decomp, comp, pool, dev
      ensures result.Success? ==>
                && Compressible(c, old(decomp[..]), segSz, outSegSz)
                && Concat(Recovered(c, old(decomp[..]), segSz)) == input
                && dev.work == old(dev.work) + Forward(c, old(decomp[..]), segSz) + Backward(c, old(decomp[..]), segSz)
      ensures result.Mismatch? ==>
                Concat(Recovered(c, old(decomp[..]), segSz)) != input && !RoundTrips(c, old(decomp[..]), segSz)
      ensures result.Success? && RoundTrips(c, old(decomp[..]), segSz) ==>
                Ready() && decomp[..] == old(decomp[..]) && Holds(c)
      ensures result.DoesNotFit? ==>
                !Compressible(c, old(decomp[..]), segSz, outSegSz) || !RoundTrips(c, old(decomp[..]), segSz)
      ensures RoundTrips(c, old(decomp[..]), segSz) && AllGrowLittle(c, old(decomp[..]), segSz, outSegSz) ==>
                result.Success? || result.Interrupted?
      ensures result.Interrupted? ==>
                !Devices.Steady(compressTurns, decomp.Length) || !Devices.Steady(decompressTurns, decomp.Length)
    {
      hide Forward, Backward, Times, Recovered;
      ReadyFits(c);
      ghost var before, forth, back := dev.work, Forward(c, decomp[..], segSz), Backward(c, decomp[..], segSz);
      TimesOnce(before, forth);
      TimesOnce(before + forth, back);
      var compressed, decompressed;
      var outcome;
      outcome, compressed := Compress(c, burst, [compressTurns]);
      if outcome != Completed {
        return if outcome == OutOfSpace then DoesNotFit else Interrupted;
      }
      outcome, decompressed := Decompress(c, burst, [decompressTurns]);
      if outcome != Completed {
        return if outcome == OutOfSpace then DoesNotFit else Interrupted;
      }
      if |decompressed| != |input| {
        return Mismatch;
      }
      if decompressed != input {
        return Mismatch;
      }
      result := Success;
    }

    /**
     * The throughput run: verification, then compressing twice and decompressing twice, each over several
     * iterations. A successful one has had the device compress and decompress all chains in every iteration.
     */
    method Throughput(c: Codec, burst: nat, s: Script, input: seq<Byte>) returns (result: Result)
      requires Ready() && RoundTrips(c, decomp[..], segSz) && burst >= 1 && Flatten(decomp[..]) == input && Iterates(s)
      modifies decomp, comp, pool, dev
      ensures !result.Mismatch?
      ensures result.Success? ==>
                && Compressible(c, old(decomp[..]), segSz, outSegSz)
                && Ready() && decomp[..] == old(decomp[..]) && Holds(c)
                && dev.work == old(dev.work) + RunWork(c, s, old(decomp[..]), segSz)
      ensures result.DoesNotFit? ==> !Compressible(c, old(decomp[..]), segSz, outSegSz)
      ensures AllGrowLittle(c, old(decomp[..]), segSz, outSegSz) ==> result.Success? || result.Interrupted?
      ensures result.Interrupted? ==> !SteadyScript(s, decomp.Length)
    {
      hide Holds, Compressible, RoundTrips, AllGrowLittle, Devices.Steady, Devices.SteadyFrom;
      hide Forward, Backward, Times, RunWork, Paired, AllLaidOut;
      ReadyFits(c);
      ghost var chains, before := decomp[..], dev.work;
      result := Verify(c, burst, s.verifyCompress, s.verifyDecompress, input);
      if result != Success {
        return;
      }
      result := CompressTwice(c, burst, s, chains);
      if result != Success {
        return;
      }
      result := DecompressTwice(c, burst, s, chains);
      if result == Success {
        RunWorkIs(c, s, chains, before);
      }
    }

    lemma RunWorkIs(c: Codec, s: Script, chains: seq<Chain>, before: seq<Work>)
      requires AllReadable(chains, segSz) && Iterates(s)
      ensures var forth, back := Forward(c, chains, segSz), Backward(c, chains, segSz);
              before + forth + back + Times(forth, |s.compress[0]| + |s.compress[1]|) +
              Times(back, |s.decompress[0]| + |s.decompress[1]|) == before + RunWork(c, s, chains, segSz)
    {
      hide Forward, Backward, Times;
    }

    /** The two timed loops of compression. */
    method CompressTwice(c: Codec, burst: nat, s: Script, ghost chains: seq<Chain>) returns (result: Result)
      requires Ready() && Holds(c) && burst >= 1 && Iterates(s) && decomp[..] == chains
      modifies comp, pool, dev
      ensures result == Success ==> Ready() && Holds(c)
      ensures result == Success ==>
                dev.work == old(dev.work) + Times(Forward(c, chains, segSz), |s.compress[0]| + |s.compress[1]|)
      ensures result != Mismatch && (result == DoesNotFit ==> !Compressible(c, chains, segSz, outSegSz))
      ensures result == Interrupted ==> !SteadyScript(s, decomp.Length)
    {
      hide Holds, Compressible, Devices.Steady, Devices.SteadyFrom, Forward, Times;
      ghost var before, forth, m: nat := dev.work, Forward(c, chains, segSz), 0;
      TimesNext(before, forth, 0);
      for i := 0 to 2
        invariant Ready() && Holds(c) && decomp[..] == chains
        invariant m == (if i > 0 then |s.compress[0]| else 0) + (if i > 1 then |s.compress[1]| else 0)
        invariant dev.work == before + Times(forth, m)
      {
        TimesAdd(before, forth, m, |s.compress[i]|);
        var outcome, data := Compress(c, burst, s.compress[i]);
        if outcome != Completed {
          return if outcome == OutOfSpace then DoesNotFit else Interrupted;
        }
        m := m + |s.compress[i]|;
      }
      result := Success;
    }

    /** The two timed loops of decompression. */
    method DecompressTwice(c: Codec, burst: nat, s: Script, ghost chains: seq<Chain>) returns (result: Result)
      requires Ready() && Holds(c) && burst >= 1 && Iterates(s) && decomp[..] == chains && RoundTrips(c, chains, segSz)
      modifies decomp, pool, dev
      ensures result == Success ==> Ready() && Holds(c) && decomp[..] == chains
      ensures result == Success ==>
                dev.work == old(dev.work) + Times(Backward(c, chains, segSz), |s.decompress[0]| + |s.decompress[1]|)
      ensures result == Success || (result == Interrupted && !SteadyScript(s, decomp.Length))
    {
      hide Holds, Compressible, RoundTrips, Devices.Steady, Devices.SteadyFrom, Backward, Times;
      ghost var before, back, m: nat := dev.work, Backward(c, chains, segSz), 0;
      TimesNext(before, back, 0);
      for i := 0 to 2
        invariant Ready() && Holds(c) && decomp[..] == chains
        invariant m == (if i > 0 then |s.decompress[0]| else 0) + (if i > 1 then |s.decompress[1]| else 0)
        invariant dev.work == before + Times(back, m)
      {
        TimesAdd(before, back, m, |s.decompress[i]|);
        var outcome, data := Decompress(c, burst, s.decompress[i]);
        if outcome != Completed {
          return Interrupted;
        }
        m := m + |s.decompress[i]|;
      }
      result := Success;
    }

    lemma ReadyFits(c: Codec)
      requires Ready()
      ensures AllGrowLittle(c, decomp[..], segSz, outSegSz) ==> Compressible(c, decomp[..], segSz, outSegSz)
    {
      SlackFits(c, decomp[..], segSz, outSegSz);
    }

    /** The levels one after the other, all from the same input. */
    method RunLevels(levels: seq<Codec>, burst: nat, scripts: seq<Script>, input: seq<Byte>) returns (result: Result)
      requires Ready() && burst >= 1 && Flatten(decomp[..]) == input && |scripts| == |levels|
      requires forall k | 0 <= k < |levels| :: RoundTrips(levels[k], decomp[..], segSz) && Iterates(scripts[k])
      modifies decomp, comp, pool, dev
      ensures !result.Mismatch?
      ensures result.Success? ==> Ready() && decomp[..] == old(decomp[..])
      ensures result.Success? ==>
                dev.work == old(dev.work) + LevelsWork(levels, scripts, old(decomp[..]), segSz)
      ensures result.Success? ==>
                forall k | 0 <= k < |levels| :: Compressible(levels[k], old(decomp[..]), segSz, outSegSz)
      ensures result.DoesNotFit? ==>
                exists k :: 0 <= k < |levels| && !Compressible(levels[k], old(decomp[..]), segSz, outSegSz)
      ensures (forall k | 0 <= k < |levels| :: AllGrowLittle(levels[k], old(decomp[..]), segSz, outSegSz)) ==>
                result.Success? || result.Interrupted?
      ensures result.Interrupted? ==> exists k :: 0 <= k < |levels| && !SteadyScript(scripts[k], decomp.Length)
    {
      hide Holds, Compressible, RoundTrips, Iterates, AllGrowLittle, RunWork, LevelsWork, Paired, AllLaidOut;
      ghost var chains, before := decomp[..], dev.work;
      NoLevels(levels, scripts, chains, segSz, before);
      for k := 0 to |levels|
        invariant Ready() && decomp[..] == chains
        invariant forall j | 0 <= j < k :: Compressible(levels[j], chains, segSz, outSegSz)
        invariant dev.work == before + LevelsWork(levels[..k], scripts[..k], chains, segSz)
      {
        LevelsNext(levels, scripts, chains, segSz, k, before);
        result := Throughput(levels[k], burst, scripts[k], input);
        if result != Success {
          return;
        }
      }
      result := Success;
    }
  }

  /** Device behaviour for one level. */
  datatype Script = Script(verifyCompress: seq<Turn>, verifyDecompress: seq<Turn>,
                           compress: seq<seq<seq<Turn>>>, decompress: seq<seq<seq<Turn>>>)

  ghost predicate SteadyScript(s: Script, n: nat) {
    && Devices.Steady(s.verifyCompress, n) && Devices.Steady(s.verifyDecompress, n)
    && (forall i | 0 <= i < |s.compress| :: AllSteady(s.compress[i], n))
    && (forall i | 0 <= i < |s.decompress| :: AllSteady(s.decompress[i], n))
  }

  /** Two loops of each kind, of at least one iteration each. */
  predicate Iterates(s: Script) {
    |s.compress| == |s.decompress| == 2 && forall i | 0 <= i < 2 :: |s.compress[i]| >= 1 && |s.decompress[i]| >= 1
  }
}
