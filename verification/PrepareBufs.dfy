/** Sizing and set-up of the buffers of the compression test: the input is cut into chains of segments. */
module PrepareBufs {
  import opened Bits
  import opened Chains

  // ----- sizes -----

  function DivCeil(a: nat, b: nat): nat
    requires b > 0
  {
    a / b + if a % b != 0 then 1 else 0
  }

  /** The ceiling is the least multiple that covers. */
  lemma DivCeilCovers(a: nat, b: nat)
    requires b > 0
    ensures DivCeil(a, b) * b >= a
    ensures a > 0 ==> DivCeil(a, b) > 0 && (DivCeil(a, b) - 1) * b < a
  {
    assert a == b * (a / b) + a % b;
    assert (a / b + 1) * b == b * (a / b) + b;
    if a > 0 && a % b == 0 {
      assert (a / b - 1) * b == b * (a / b) - b;
    }
  }

  const MIN_COMPRESSED_BUF_SIZE: nat := 8
  const UINT16_MAX: nat := 65535
  const MAX_MBUF_DATA_SIZE: nat := UINT16_MAX - 128
  const MAX_SEG_SIZE: nat := 59460

  /** 1.1 as a `double`. */
  const EXPANSE_RATIO: real := 4953959590107546.0 / 4503599627370496.0

  /**
   * What is known of a product that is rounded to a `double` below 2^17: half a unit in the last place,
   * and never past an integer.
   */
  ghost predicate Rounded(exact: real, y: real) {
    && -1.0 <= (y - exact) * 137438953472.0 <= 1.0
    && exact.Floor as real <= y
  }

  /** The product in floating point; nothing more is known of it than how far rounding can move it. */
  method Expanded(inputSize: nat) returns (y: real)
    requires inputSize <= UINT16_MAX
    ensures Rounded(inputSize as real * EXPANSE_RATIO, y)
  {
    y := inputSize as real * EXPANSE_RATIO;
  }

  lemma FloorIs(y: real, k: int)
    requires k as real <= y < k as real + 1.0
    ensures y.Floor == k
  {
  }

  lemma RatioOff(x: nat, k: int, r: int)
    requires x <= UINT16_MAX && 11 * x == 10 * k + r && 0 <= r <= 9
    ensures k as real <= x as real * EXPANSE_RATIO <= k as real + 0.92
  {
    Tenths(x, k, r);
    var y := x as real;
    assert 0.0 <= y <= 65535.0;
    assert 1.1 * y <= y * EXPANSE_RATIO <= 1.1 * y + 0.01;
  }

  lemma Tenths(x: int, k: int, r: int)
    requires 11 * x == 10 * k + r && 0 <= r <= 9
    ensures k as real <= 1.1 * (x as real) <= k as real + 0.9
  {
  }

  lemma RoundedNear(exact: real, y: real)
    requires Rounded(exact, y)
    ensures exact.Floor as real <= y <= exact + 0.01
  {
  }

  /** Neither the inexact ratio nor rounding shows in the truncated product. */
  lemma ExpandedTruncates(x: nat, y: real)
    requires x <= UINT16_MAX && Rounded(x as real * EXPANSE_RATIO, y)
    ensures y.Floor == 11 * x / 10
  {
    hide Rounded, EXPANSE_RATIO;
    var k, r := 11 * x / 10, 11 * x % 10;
    RatioOff(x, k, r);
    var e := x as real * EXPANSE_RATIO;
    FloorIs(e, k);
    RoundedNear(e, y);
    FloorIs(y, k);
  }

  /** Number of factors of two in the loop variable of the search. */
  lemma {:induction false} HighBit(i: nat, k: nat, size: nat)
    requires i == Pow2(k) && size < 2 * i
    ensures And(i, size) == (if size >= i then i else 0)
    decreases k
  {
    if k > 0 {
      assert i == 2 * Pow2(k - 1);
      if size > 0 {
        HighBit(Pow2(k - 1), k - 1, size / 2);
      }
    } else {
      assert size == 0 || size == 1;
      assert And(0, 0) == 0;
    }
  }

  /**
   * Size of an output segment: the power of two above the input size while that is below 2^16,
   * a tenth more than the input size from there on; never smaller than the input segment.
   */
  method FindBufSize(inputSize: nat) returns (bufSize: nat)
    requires inputSize <= UINT16_MAX
    ensures inputSize <= bufSize
    ensures inputSize == 0 ==> bufSize == MIN_COMPRESSED_BUF_SIZE
    ensures 0 < inputSize < 32768 ==> IsPow2(bufSize) && inputSize < bufSize <= 2 * inputSize
    ensures inputSize >= 32768 ==> bufSize == 11 * inputSize / 10
    ensures 0 < inputSize <= MAX_SEG_SIZE ==> inputSize < bufSize <= MAX_MBUF_DATA_SIZE
  {
    var size := if inputSize == 0 then MIN_COMPRESSED_BUF_SIZE else inputSize * 2;
    var i := UINT16_MAX + 1;
    ghost var k: nat := 16;
    PowersApart(k);
    HighBit(i, k, size);
    while And(i, size) == 0
      invariant i == Pow2(k) && size < 2 * i
      invariant And(i, size) == if size >= i then i else 0
      decreases k
    {
      assert k > 0;
      i, k := i / 2, k - 1;
      HighBit(i, k, size);
    }
    PowersApart(k);
    if i > (UINT16_MAX + 1) / 2 {
      var expanded := Expanded(inputSize);
      ExpandedTruncates(inputSize, expanded);
      bufSize := expanded.Floor;
    } else {
      bufSize := i;
    }
  }

  /** No power of two lies between 2^15 and 2^16. */
  lemma PowersApart(k: nat)
    ensures Pow2(k) > 32768 ==> Pow2(k) >= 65536
    ensures k == 16 ==> Pow2(k) == 65536
  {
    assert Pow2(15) == 32768 && Pow2(16) == 65536 by {
      Pow2Add(8, 7);
      Pow2Add(8, 8);
    }
    if k <= 15 {
      Pow2Mono(k, 15);
    } else {
      Pow2Mono(16, k);
    }
  }

  /** There is one least multiple that covers. */
  lemma DivCeilUnique(a: nat, b: nat, q: nat)
    requires b > 0 && a > 0 && q > 0 && (q - 1) * b < a <= q * b
    ensures q == DivCeil(a, b)
  {
    DivCeilCovers(a, b);
    var c := DivCeil(a, b);
    if q < c {
      MulMono(b, q, c - 1);
    } else if c < q {
      MulMono(b, c, q - 1);
    }
  }

  // ----- set-up -----

  /** A pool of empty segments; what their memory holds is not known. */
  class SegmentPool {
    const segSz: nat
    var left: nat

    constructor (segSz: nat, n: nat)
      ensures this.segSz == segSz && left == n
    {
      this.segSz, left := segSz, n;
    }

    method Alloc() returns (ok: bool, s: Segment)
      modifies this
      ensures ok == (old(left) > 0)
      ensures left == if ok then old(left) - 1 else old(left)
      ensures |s.buf| == segSz && s.dataLen == 0
    {
      ok := left > 0;
      if ok {
        left := left - 1;
      }
      s := Segment(seq(segSz, _ => 0), 0);
    }
  }

  /** `rte_pktmbuf_append` and the copy behind it. */
  method Append(s: Segment, bytes: seq<Byte>) returns (ok: bool, s': Segment)
    requires s.dataLen <= |s.buf|
    ensures ok == (s.dataLen + |bytes| <= |s.buf|)
    ensures ok ==> |s'.buf| == |s.buf| && s'.dataLen == s.dataLen + |bytes|
    ensures ok ==> s'.buf[..s'.dataLen] == s.buf[..s.dataLen] + bytes
  {
    ok := s.dataLen + |bytes| <= |s.buf|;
    s' := s;
    if ok {
      s' := Segment(s.buf[..s.dataLen] + bytes + s.buf[s.dataLen + |bytes|..], s.dataLen + |bytes|);
    }
  }

  lemma {:induction false} DataGrows(segs: seq<Segment>, s: Segment)
    requires (forall j | 0 <= j < |segs| :: segs[j].dataLen <= |segs[j].buf|) && s.dataLen <= |s.buf|
    ensures Data(segs + [s]) == Data(segs) + s.buf[..s.dataLen]
  {
    if segs == [] {
      assert [s][1..] == [] && [] + [s] == [s];
    } else {
      DataGrows(segs[1..], s);
      assert (segs + [s])[1..] == segs[1..] + [s];
    }
  }

  lemma {:induction false} LaidOutGrows(segs: seq<Segment>, n: nat, segSz: nat, s: Segment)
    requires Roomy(segs, segSz) && LaidOut(segs, n, segSz) && n == segSz * |segs|
    requires |s.buf| == segSz && 0 < s.dataLen <= segSz
    ensures Roomy(segs + [s], segSz) && LaidOut(segs + [s], n + s.dataLen, segSz)
  {
    if segs == [] {
      assert [s][1..] == [] && [] + [s] == [s];
    } else {
      OneMore(segSz, |segs[1..]|);
      LaidOutGrows(segs[1..], n - segSz, segSz, s);
      assert (segs + [s])[1..] == segs[1..] + [s];
    }
  }

  /** The segments hold the next `n` bytes of the input from `at` on, in the intended layout. */
  ghost predicate Filled(input: seq<Byte>, at: nat, segSz: nat, segs: seq<Segment>, n: nat) {
    && at + n <= |input|
    && Roomy(segs, segSz) && LaidOut(segs, n, segSz) && Data(segs) == input[at..at + n]
    && (at + n < |input| ==> n == segSz * |segs|)
    && (segs != [] ==> segSz * (|segs| - 1) < n <= segSz * |segs|)
  }

  lemma FilledGrows(input: seq<Byte>, at: nat, segSz: nat, segs: seq<Segment>, n: nat, s: Segment)
    requires Filled(input, at, segSz, segs, n) && at + n < |input| && segSz >= 1
    requires |s.buf| == segSz && s.dataLen == Min(|input| - at - n, segSz)
    requires s.buf[..s.dataLen] == input[at + n..at + n + s.dataLen]
    ensures Filled(input, at, segSz, segs + [s], n + s.dataLen)
  {
    LaidOutGrows(segs, n, segSz, s);
    DataGrows(segs, s);
    assert segSz * |segs + [s]| == segSz * |segs| + segSz;
    assert segSz * (|segs + [s]| - 1) == segSz * |segs|;
    assert input[at..at + n + s.dataLen] == input[at..at + n] + input[at + n..at + n + s.dataLen];
  }

  ghost predicate Covers(segs: nat, segSz: nat, bytes: int) {
    segs * segSz >= bytes
  }

  /** One input chain: takes segments from the pool until it has `maxSegs` of them or the data runs out. */
  method FillChain(input: seq<Byte>, at: nat, segSz: nat, maxSegs: nat, pool: SegmentPool) returns (ok: bool, c: Chain)
    requires at < |input| && segSz >= 1 && maxSegs >= 1 && pool.segSz == segSz
    modifies pool
    ensures ok ==> old(pool.left) == pool.left + |c.segs| && 1 <= |c.segs| <= maxSegs
    ensures ok ==> Filled(input, at, segSz, c.segs, c.pktLen)
    ensures ok && at + c.pktLen < |input| ==> |c.segs| == maxSegs
    ensures !ok ==> pool.left == 0 && !Covers(old(pool.left), segSz, |input| - at)
  {
    var segs: seq<Segment>, n: nat := [], 0;
    ghost var had := pool.left;
    ok := true;
    assert Filled(input, at, segSz, segs, n);
    hide Filled;
    while ok && |segs| < maxSegs && at + n < |input|
      invariant |segs| <= maxSegs && at + n <= |input| && Filled(input, at, segSz, segs, n)
      invariant had == pool.left + |segs|
      invariant at + n == |input| ==> segs != []
      invariant !ok ==> pool.left == 0 && !Covers(had, segSz, |input| - at)
      decreases maxSegs - |segs|, ok
    {
      var dataSz := Min(|input| - at - n, segSz);
      var seg, full;
      ok, seg := pool.Alloc();
      if ok {
        ok, full := Append(seg, input[at + n..at + n + dataSz]);
        assert seg.buf[..0] + input[at + n..at + n + dataSz] == input[at + n..at + n + dataSz];
        FilledGrows(input, at, segSz, segs, n, full);
        FilledBounds(input, at, segSz, segs + [full], n + dataSz);
        segs, n := segs + [full], n + dataSz;
      } else {
        FilledBounds(input, at, segSz, segs, n);
      }
    }
    c := Chain(segs, n);
  }

  lemma FilledOneChain(input: seq<Byte>, at: nat, segSz: nat, maxSegs: nat, used: nat, bufs: nat, segs: seq<Segment>,
                       n: nat)
    requires CutSoFar(|input|, segSz, maxSegs, at, used, bufs) && at < |input|
    requires Filled(input, at, segSz, segs, n) && 1 <= |segs| <= maxSegs
    requires at + n < |input| ==> |segs| == maxSegs
    ensures at + n <= |input| && CutSoFar(|input|, segSz, maxSegs, at + n, used + |segs|, bufs + 1)
  {
    CutMore(|input|, segSz, maxSegs, at, used, bufs, n, |segs|);
  }

  lemma FilledBounds(input: seq<Byte>, at: nat, segSz: nat, segs: seq<Segment>, n: nat)
    requires Filled(input, at, segSz, segs, n)
    ensures at + n <= |input| && (at + n < |input| ==> n == |segs| * segSz == segSz * |segs|)
  {
  }

  /** One output chain of `n` segments, all at full length. */
  method SpareChain(n: nat, outSegSz: nat, pool: SegmentPool) returns (ok: bool, c: Chain)
    requires pool.segSz == outSegSz
    modifies pool
    ensures ok == (n <= old(pool.left))
    ensures ok ==> old(pool.left) == pool.left + n
    ensures ok ==> |c.segs| == n && Roomy(c.segs, outSegSz) && c == Reset(c, outSegSz)
  {
    var segs: seq<Segment> := [];
    ok := true;
    while ok && |segs| < n
      invariant |segs| <= n && old(pool.left) == pool.left + |segs|
      invariant forall j | 0 <= j < |segs| :: |segs[j].buf| == outSegSz == segs[j].dataLen
      invariant !ok ==> old(pool.left) < n
      decreases n - |segs|, ok
    {
      var seg, full;
      ok, seg := pool.Alloc();
      if ok {
        full := seg.(dataLen := outSegSz);
        segs := segs + [full];
      }
    }
    c := Chain(segs, outSegSz * n);
    assert ok ==> Full(segs) == segs;
  }

  /** All the bytes of the chains, in order. */
  function Flatten(chains: seq<Chain>): seq<Byte>
    requires forall i | 0 <= i < |chains| :: forall j | 0 <= j < |chains[i].segs| ::
               chains[i].segs[j].dataLen <= |chains[i].segs[j].buf|
  {
    if chains == [] then [] else Flatten(chains[..|chains| - 1]) + Data(chains[|chains| - 1].segs)
  }

  /** What the set-up promises about the first `n` input and output chains. */
  ghost predicate Prepared(decomp: seq<Chain>, comp: seq<Chain>, segSz: nat, outSegSz: nat, maxSegs: nat) {
    && |decomp| == |comp|
    && (forall i | 0 <= i < |decomp| ::
          && 1 <= |decomp[i].segs| <= maxSegs && Roomy(decomp[i].segs, segSz)
          && LaidOut(decomp[i].segs, decomp[i].pktLen, segSz))
    && (forall i | 0 <= i < |decomp| - 1 :: |decomp[i].segs| == maxSegs && decomp[i].pktLen == segSz * maxSegs)
    && (forall i | 0 <= i < |comp| ::
          |comp[i].segs| == |decomp[i].segs| && Roomy(comp[i].segs, outSegSz) && comp[i] == Reset(comp[i], outSegSz))
  }

  /** The chains built so far are as they should be and hold the input up to `at`. */
  ghost predicate PreparedTo(input: seq<Byte>, at: nat, decomp: seq<Chain>, comp: seq<Chain>, segSz: nat,
                             outSegSz: nat, maxSegs: nat) {
    && at <= |input| && Prepared(decomp, comp, segSz, outSegSz, maxSegs)
    && Flatten(decomp) == input[..at]
    && (at < |input| && decomp != [] ==>
          |decomp[|decomp| - 1].segs| == maxSegs && decomp[|decomp| - 1].pktLen == segSz * maxSegs)
  }

  lemma PreparedGrows(input: seq<Byte>, at: nat, decomp: seq<Chain>, comp: seq<Chain>, segSz: nat, outSegSz: nat,
                      maxSegs: nat, c: Chain, d: Chain)
    requires PreparedTo(input, at, decomp, comp, segSz, outSegSz, maxSegs) && at < |input|
    requires Filled(input, at, segSz, c.segs, c.pktLen) && 1 <= |c.segs| <= maxSegs
    requires at + c.pktLen < |input| ==> |c.segs| == maxSegs
    requires |d.segs| == |c.segs| && Roomy(d.segs, outSegSz) && d == Reset(d, outSegSz)
    ensures at + c.pktLen <= |input|
    ensures PreparedTo(input, at + c.pktLen, decomp + [c], comp + [d], segSz, outSegSz, maxSegs)
  {
    assert Prepared(decomp + [c], comp + [d], segSz, outSegSz, maxSegs);
    assert (decomp + [c])[..|decomp|] == decomp;
    assert input[..at + c.pktLen] == input[..at] + input[at..at + c.pktLen];
  }

  lemma PreparedAll(input: seq<Byte>, decomp: seq<Chain>, comp: seq<Chain>, segSz: nat, outSegSz: nat, maxSegs: nat)
    requires PreparedTo(input, |input|, decomp, comp, segSz, outSegSz, maxSegs)
    ensures Prepared(decomp, comp, segSz, outSegSz, maxSegs) && Flatten(decomp) == input
  {
    assert input[..|input|] == input;
  }

  lemma NonePrepared(input: seq<Byte>, segSz: nat, outSegSz: nat, maxSegs: nat)
    ensures PreparedTo(input, 0, [], [], segSz, outSegSz, maxSegs)
  {
  }

  lemma CutStart(len: nat, segSz: nat, maxSegs: nat)
    requires len > 0
    ensures CutSoFar(len, segSz, maxSegs, 0, 0, 0)
  {
  }

  /** Cutting has come to `at` with `used` segments in `bufs` chains. */
  ghost predicate CutSoFar(len: nat, segSz: nat, maxSegs: nat, at: nat, used: nat, bufs: nat) {
    && at <= len && used <= bufs * maxSegs
    && (at < len ==> at == segSz * used && used == bufs * maxSegs)
    && (at == len ==> used > 0 && segSz * (used - 1) < len <= segSz * used)
  }

  lemma CutMore(len: nat, segSz: nat, maxSegs: nat, at: nat, used: nat, bufs: nat, n: nat, k: nat)
    requires CutSoFar(len, segSz, maxSegs, at, used, bufs) && at < len
    requires 1 <= k <= maxSegs && at + n <= len && segSz * (k - 1) < n <= segSz * k
    requires at + n < len ==> n == segSz * k && k == maxSegs
    ensures CutSoFar(len, segSz, maxSegs, at + n, used + k, bufs + 1)
  {
    assert segSz * (used + k) == segSz * used + segSz * k;
    assert segSz * (used + k - 1) == segSz * used + segSz * (k - 1);
    assert (bufs + 1) * maxSegs == bufs * maxSegs + maxSegs;
  }

  /** Whole units used so far, with some of `len` still to cover: more of them are needed, as many as cover the rest. */
  lemma UnitsLeft(len: nat, unit: nat, used: nat)
    requires unit >= 1 && used * unit < len
    ensures used < DivCeil(len, unit) && Covers(DivCeil(len, unit) - used, unit, len - used * unit)
  {
    DivCeilCovers(len, unit);
    var total := DivCeil(len, unit);
    hide DivCeil;
    if total <= used {
      MulMono(unit, total, used);
    }
    assert (total - used) * unit == total * unit - used * unit;
  }

  /** There is data left exactly while there are chains to fill. */
  lemma CutLeft(len: nat, segSz: nat, maxSegs: nat, at: nat, used: nat, bufs: nat)
    requires len > 0 && segSz >= 1 && maxSegs >= 1 && CutSoFar(len, segSz, maxSegs, at, used, bufs)
    ensures var totalSegs := DivCeil(len, segSz); var totalBufs := DivCeil(totalSegs, maxSegs);
            && (at < len ==> used < totalSegs && bufs < totalBufs && Covers(totalSegs - used, segSz, len - at))
            && (at == len ==> used == totalSegs && bufs >= totalBufs)
  {
    var totalSegs := DivCeil(len, segSz);
    hide DivCeil, Covers;
    if at < len {
      UnitsLeft(len, segSz, used);
      UnitsLeft(totalSegs, maxSegs, bufs);
    } else {
      DivCeilUnique(len, segSz, used);
      if bufs < DivCeil(totalSegs, maxSegs) {
        DivCeilCovers(totalSegs, maxSegs);
        MulMono(maxSegs, bufs, DivCeil(totalSegs, maxSegs) - 1);
      }
    }
  }

  /** The next input chain and an output chain with as many segments. */
  method CutOne(input: seq<Byte>, at: nat, segSz: nat, outSegSz: nat, maxSegs: nat, decompPool: SegmentPool,
                compPool: SegmentPool, ghost used: nat, ghost bufs: nat) returns (ok: bool, c: Chain, d: Chain)
    requires at < |input| && segSz >= 1 && maxSegs >= 1
    requires decompPool != compPool && decompPool.segSz == segSz && compPool.segSz == outSegSz
    requires CutSoFar(|input|, segSz, maxSegs, at, used, bufs)
    requires used <= DivCeil(|input|, segSz) && decompPool.left == compPool.left == DivCeil(|input|, segSz) - used
    modifies decompPool, compPool
    ensures ok && 1 <= |c.segs| <= maxSegs && Filled(input, at, segSz, c.segs, c.pktLen)
    ensures at + c.pktLen <= |input| && (at + c.pktLen < |input| ==> |c.segs| == maxSegs)
    ensures |d.segs| == |c.segs| && Roomy(d.segs, outSegSz) && d == Reset(d, outSegSz)
    ensures CutSoFar(|input|, segSz, maxSegs, at + c.pktLen, used + |c.segs|, bufs + 1)
    ensures used + |c.segs| <= DivCeil(|input|, segSz)
    ensures decompPool.left == compPool.left == DivCeil(|input|, segSz) - used - |c.segs|
  {
    hide Filled, CutSoFar, Covers, DivCeil, Roomy, Reset;
    CutLeft(|input|, segSz, maxSegs, at, used, bufs);
    ok, c := FillChain(input, at, segSz, maxSegs, decompPool);
    FilledOneChain(input, at, segSz, maxSegs, used, bufs, c.segs, c.pktLen);
    CutLeft(|input|, segSz, maxSegs, at + c.pktLen, used + |c.segs|, bufs + 1);
    ok, d := SpareChain(|c.segs|, outSegSz, compPool);
  }

  const UINT32_MAX: nat := 4294967295

  /** The set-up has come to `at`, with `used` segments of each pool in the chains built so far. */
  ghost predicate SetUpTo(input: seq<Byte>, segSz: nat, outSegSz: nat, maxSegs: nat, at: nat, used: nat,
                          decomp: seq<Chain>, comp: seq<Chain>, left: nat)
    requires segSz >= 1
  {
    && used <= DivCeil(|input|, segSz) && left == DivCeil(|input|, segSz) - used
    && CutSoFar(|input|, segSz, maxSegs, at, used, |decomp|)
    && PreparedTo(input, at, decomp, comp, segSz, outSegSz, maxSegs)
  }

  lemma SetUpStart(input: seq<Byte>, segSz: nat, outSegSz: nat, maxSegs: nat)
    requires |input| >= 1 && segSz >= 1
    ensures SetUpTo(input, segSz, outSegSz, maxSegs, 0, 0, [], [], DivCeil(|input|, segSz))
  {
    NonePrepared(input, segSz, outSegSz, maxSegs);
    CutStart(|input|, segSz, maxSegs);
  }

  /** There is data left exactly while there are chains to build, and at the end there are no segments left. */
  lemma SetUpLeft(input: seq<Byte>, segSz: nat, outSegSz: nat, maxSegs: nat, at: nat, used: nat, decomp: seq<Chain>,
                  comp: seq<Chain>, left: nat)
    requires |input| >= 1 && segSz >= 1 && maxSegs >= 1
             && SetUpTo(input, segSz, outSegSz, maxSegs, at, used, decomp, comp, left)
    ensures at <= |input|
    ensures |decomp| < DivCeil(DivCeil(|input|, segSz), maxSegs) <==> at < |input|
    ensures at == |input| ==> left == 0 && Prepared(decomp, comp, segSz, outSegSz, maxSegs) && Flatten(decomp) == input
  {
    CutLeft(|input|, segSz, maxSegs, at, used, |decomp|);
    if at == |input| {
      PreparedAll(input, decomp, comp, segSz, outSegSz, maxSegs);
    }
  }

  /** One round of the set-up: an input chain and its output chain. */
  method CutNext(input: seq<Byte>, at: nat, segSz: nat, outSegSz: nat, maxSegs: nat, decompPool: SegmentPool,
                 compPool: SegmentPool, ghost used: nat, ghost ds: seq<Chain>, ghost cs: seq<Chain>)
      returns (ok: bool, c: Chain, d: Chain)
    requires at < |input| && segSz >= 1 && maxSegs >= 1
    requires decompPool != compPool && decompPool.segSz == segSz && compPool.segSz == outSegSz
    requires SetUpTo(input, segSz, outSegSz, maxSegs, at, used, ds, cs, decompPool.left)
             && decompPool.left == compPool.left
    modifies decompPool, compPool
    ensures ok && decompPool.left == compPool.left
    ensures SetUpTo(input, segSz, outSegSz, maxSegs, at + c.pktLen, used + |c.segs|, ds + [c], cs + [d],
                    decompPool.left)
  {
    hide PreparedTo, Filled, CutSoFar, Roomy, Reset, DivCeil;
    ok, c, d := CutOne(input, at, segSz, outSegSz, maxSegs, decompPool, compPool, used, |ds|);
    PreparedGrows(input, at, ds, cs, segSz, outSegSz, maxSegs, c, d);
  }

  /**
   * The whole set-up, for pools that hold `total_segs` segments each: it never fails, uses up both
   * pools exactly, and the input chains, all full but the last, flatten to the input.
   */
  method PrepareBufs(input: seq<Byte>, segSz: nat, outSegSz: nat, maxSegs: nat, decomp: array<Chain>,
                     comp: array<Chain>, decompPool: SegmentPool, compPool: SegmentPool) returns (ok: bool)
    requires 1 <= |input| <= UINT32_MAX && segSz >= 1 && maxSegs >= 1
    requires decompPool != compPool && decompPool.segSz == segSz && compPool.segSz == outSegSz
    requires decompPool.left == compPool.left == DivCeil(|input|, segSz)
    requires decomp.Length == comp.Length == DivCeil(DivCeil(|input|, segSz), maxSegs) && decomp != comp
    modifies decomp, comp, decompPool, compPool
    ensures ok && decompPool.left == compPool.left == 0
    ensures Prepared(decomp[..], comp[..], segSz, outSegSz, maxSegs)
    ensures Flatten(decomp[..]) == input
  {
    hide SetUpTo, Prepared, Flatten, DivCeil;
    var at: nat, i: nat := 0, 0;
    ghost var used: nat := 0;
    ok := true;
    SetUpStart(input, segSz, outSegSz, maxSegs);
    assert decomp[..0] == [] && comp[..0] == [];
    while i < decomp.Length && ok
      invariant i <= decomp.Length && ok && decompPool.left == compPool.left
      invariant SetUpTo(input, segSz, outSegSz, maxSegs, at, used, decomp[..i], comp[..i], decompPool.left)
      decreases decomp.Length - i
    {
      ghost var ds, cs := decomp[..i], comp[..i];
      SetUpLeft(input, segSz, outSegSz, maxSegs, at, used, ds, cs, decompPool.left);
      var c, d;
      ok, c, d := CutNext(input, at, segSz, outSegSz, maxSegs, decompPool, compPool, used, ds, cs);
      decomp[i], comp[i] := c, d;
      assert decomp[..i + 1] == ds + [c] && comp[..i + 1] == cs + [d];
      at, i, used := at + c.pktLen, i + 1, used + |c.segs|;
    }
    assert decomp[..i] == decomp[..] && comp[..i] == comp[..];
    SetUpLeft(input, segSz, outSegSz, maxSegs, at, used, decomp[..], comp[..], decompPool.left);
  }
}
