/**
 * The routes that the FIB test generates: those of one prefix length are spread evenly over all prefixes of that
 * length, each drawn at random from its own share.
 */
module FibRoutes {
  import opened Bits

  const TWO32: nat := 4294967296

  datatype Rule = Rule(addr: nat, depth: nat, nh: nat)

  /** Only the first `depth` bits of the address are used. */
  ghost predicate IsPrefix(r: Rule) {
    r.depth <= 32 && r.addr < TWO32 && r.addr % Pow2(32 - r.depth) == 0
  }

  /** How far one share reaches. */
  function Step(depth: nat, count: nat): real {
    if count == 0 then 0.0 else Pow2(depth) as real / count as real
  }

  /** Where share `j` of `count` begins. */
  function Edge(depth: nat, count: nat, j: nat): real {
    j as real * Step(depth, count)
  }

  /** A cast to an unsigned integer. */
  function Whole(x: real): nat {
    if x < 0.0 then 0 else x.Floor
  }

  /** `get_rnd_rng` */
  function Draw(l: nat, u: nat, rnd: nat): (v: nat)
    requires l <= u
    ensures l <= v && (v < u || v == l == u)
  {
    if l == u then l else rnd % (u - l) + l
  }

  /** `get_max_nh`: next hops of 1, 2, 4 or 8 bytes less one bit, and no more than 21 bits. */
  function MaxHop(size: nat): nat {
    var own, all := Pow2(8 * Pow2(size) - 1) - 1, Pow2(21) - 1;
    if own <= all then own else all
  }

  function Hop(size: nat, rnd: nat): nat {
    And(rnd, MaxHop(size))
  }

  lemma MaskFits(rnd: nat, bits: nat)
    ensures And(rnd, Pow2(bits) - 1) <= Pow2(bits) - 1
  {
    AndMask(rnd, bits);
  }

  lemma HopFits(size: nat, rnd: nat)
    ensures Hop(size, rnd) <= MaxHop(size)
  {
    hide And, Pow2;
    var bits := 8 * Pow2(size) - 1;
    if Pow2(bits) <= Pow2(21) {
      MaskFits(rnd, bits);
    } else {
      MaskFits(rnd, 21);
    }
  }

  /** Which of the prefixes of its length route `j` of `count` is. */
  function Value(depth: nat, count: nat, j: nat, rnd: nat): nat
    requires j < count
  {
    EdgesAscend(depth, count, j, j + 1);
    Draw(Whole(Edge(depth, count, j)), Whole(Edge(depth, count, j + 1)), rnd)
  }

  function Route(depth: nat, count: nat, j: nat, rnd: nat, nh: nat): Rule
    requires j < count && depth <= 32
  {
    Rule(Value(depth, count, j, rnd) * Pow2(32 - depth), depth, nh)
  }

  // ----- the edges -----

  lemma StepIs(depth: nat, count: nat)
    ensures Step(depth, count) >= 0.0 && (count >= 1 ==> Step(depth, count) > 0.0)
    ensures count >= 1 ==> count as real * Step(depth, count) == Pow2(depth) as real
    ensures 1 <= count <= Pow2(depth) ==> Step(depth, count) >= 1.0
  {
    if count >= 1 {
      var p, c := Pow2(depth) as real, count as real;
      Quotient(p, c);
    }
  }

  lemma Quotient(p: real, c: real)
    requires p >= 1.0 && c >= 1.0
    ensures p / c > 0.0 && c * (p / c) == p && (c <= p ==> p / c >= 1.0)
  {
    var q := p / c;
    assert c * q == p;
    if q < 1.0 {
      TimesLess(c, q);
    }
  }

  lemma TimesLess(c: real, q: real)
    requires c > 0.0 && q < 1.0
    ensures c * q < c
  {
  }

  lemma Distribute(j: nat, step: real)
    ensures (j + 1) as real * step == j as real * step + step
  {
    assert (j + 1) as real == j as real + 1.0;
  }

  lemma EdgeNext(depth: nat, count: nat, j: nat)
    ensures Edge(depth, count, 0) == 0.0
    ensures Edge(depth, count, j + 1) == Edge(depth, count, j) + Step(depth, count)
  {
    Distribute(j, Step(depth, count));
  }

  lemma {:induction false} EdgesAscend(depth: nat, count: nat, j: nat, k: nat)
    requires j <= k
    ensures 0.0 <= Edge(depth, count, j) <= Edge(depth, count, k)
    ensures 0 <= Whole(Edge(depth, count, j)) <= Whole(Edge(depth, count, k))
    decreases k
  {
    StepIs(depth, count);
    hide Step;
    if j < k {
      EdgesAscend(depth, count, j, k - 1);
      EdgeNext(depth, count, k - 1);
    } else if j > 0 {
      EdgesAscend(depth, count, j - 1, j - 1);
      EdgeNext(depth, count, j - 1);
    }
  }

  /** With no more routes than prefixes, every share has a prefix of its own. */
  lemma EdgesApart(depth: nat, count: nat, j: nat)
    requires count <= Pow2(depth) && j < count
    ensures Whole(Edge(depth, count, j)) + 1 <= Whole(Edge(depth, count, j + 1))
  {
    StepIs(depth, count);
    EdgesAscend(depth, count, j, j + 1);
    EdgeNext(depth, count, j);
    hide Edge, Step;
  }

  /** The shares end with the last prefix. */
  lemma EdgesEnd(depth: nat, count: nat, j: nat)
    requires j < count
    ensures Whole(Edge(depth, count, j)) < Pow2(depth) && Whole(Edge(depth, count, j + 1)) <= Pow2(depth)
  {
    StepIs(depth, count);
    EdgesAscend(depth, count, j, j + 1);
    EdgesAscend(depth, count, j + 1, count);
    EdgeNext(depth, count, j);
    assert Edge(depth, count, count) == Pow2(depth) as real;
    hide Edge, Step;
  }

  // ----- the routes of one length -----

  lemma ValueFits(depth: nat, count: nat, j: nat, rnd: nat)
    requires j < count
    ensures Value(depth, count, j, rnd) < Pow2(depth)
  {
    EdgesEnd(depth, count, j);
    hide Edge, Whole;
  }

  /** A route is a prefix of its length: nothing is lost in 32 bits. */
  lemma RouteIsPrefix(depth: nat, count: nat, j: nat, rnd: nat, nh: nat)
    requires j < count && depth <= 32
    ensures IsPrefix(Route(depth, count, j, rnd, nh))
    ensures Route(depth, count, j, rnd, nh).addr / Pow2(32 - depth) == Value(depth, count, j, rnd)
  {
    ValueFits(depth, count, j, rnd);
    PowersOfTwo();
    Pow2Add(32 - depth, depth);
    Placed(Value(depth, count, j, rnd), Pow2(32 - depth), Pow2(depth));
  }

  lemma Placed(v: nat, p: nat, q: nat)
    requires v < q && p >= 1
    ensures v * p < p * q && v * p % p == 0 && v * p / p == v
  {
    MulMono(p, v + 1, q);
    DivModUnique(v * p, p, v, 0);
  }

  /** With no more routes than prefixes, a later route of the same length has a higher address. */
  lemma RoutesAscend(depth: nat, count: nat, j: nat, k: nat, rndJ: nat, rndK: nat, nhJ: nat, nhK: nat)
    requires j < k < count <= Pow2(depth) && depth <= 32
    ensures Route(depth, count, j, rndJ, nhJ).addr < Route(depth, count, k, rndK, nhK).addr
  {
    hide Value, Pow2;
    ValuesAscend(depth, count, j, k, rndJ, rndK);
    TimesAscend(Value(depth, count, j, rndJ), Value(depth, count, k, rndK), Pow2(32 - depth));
  }

  lemma TimesAscend(v: nat, w: nat, p: nat)
    requires v < w && p >= 1
    ensures v * p < w * p
  {
    MulMono(p, v + 1, w);
  }

  lemma ValuesAscend(depth: nat, count: nat, j: nat, k: nat, rndJ: nat, rndK: nat)
    requires j < k < count <= Pow2(depth)
    ensures Value(depth, count, j, rndJ) < Value(depth, count, k, rndK)
  {
    EdgesApart(depth, count, j);
    EdgesApart(depth, count, k);
    EdgesAscend(depth, count, j + 1, k);
    hide Edge, Whole;
  }

  /** Different numbers below a bound are no more than the bound. */
  lemma {:induction false} Pigeonholes(values: seq<nat>, bound: nat)
    requires forall j, k | 0 <= j < k < |values| :: values[j] != values[k]
    requires forall j | 0 <= j < |values| :: values[j] < bound
    ensures |values| <= bound
  {
    if |values| == 0 {
    } else if j :| 0 <= j < |values| && values[j] == bound - 1 {
      var others := values[..j] + values[j + 1..];
      assert forall k | 0 <= k < |others| :: others[k] == values[if k < j then k else k + 1];
      Pigeonholes(others, bound - 1);
    } else {
      assert values[0] < bound;
      Pigeonholes(values, bound - 1);
    }
  }
}
