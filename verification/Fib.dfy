/**
 * The route generator of the FIB test: routes per prefix length, the table they fill, and the batches it is
 * used in.
 */
module Fib {
  import opened Bits
  import opened FibRoutes

  const UINT8_MAX: nat := 255
  const DEPTHS: nat := 129

  function Min(a: nat, b: nat): nat {
    if a <= b then a else b
  }

  // ----- routes per depth -----

  ghost predicate Ratios(rpd: seq<nat>, nrpd: seq<nat>) {
    |rpd| == |nrpd| == DEPTHS && forall d | 0 <= d < DEPTHS :: rpd[d] <= UINT8_MAX && nrpd[d] < TWO32
  }

  /** What the user asked for at one depth; the product wraps around at 32 bits. */
  function Configured(n: nat, rpd: seq<nat>, nrpd: seq<nat>, d: nat): nat
    requires d < |rpd| == |nrpd|
  {
    if rpd[d] == 0 then 0 else if rpd[d] == UINT8_MAX then nrpd[d] else n * rpd[d] % TWO32 / 100
  }

  function ConfiguredSum(n: nat, rpd: seq<nat>, nrpd: seq<nat>, d: nat): nat
    requires d <= |rpd| == |nrpd|
  {
    if d == 0 then 0 else ConfiguredSum(n, rpd, nrpd, d - 1) + Configured(n, rpd, nrpd, d - 1)
  }

  /** How many of the first depths are configured. */
  function ConfiguredCount(rpd: seq<nat>, d: nat): nat
    requires d <= |rpd|
  {
    if d == 0 then 0 else ConfiguredCount(rpd, d - 1) + if rpd[d - 1] != 0 then 1 else 0
  }

  function FreeCount(rpd: seq<nat>, d: nat): nat
    requires d <= |rpd|
  {
    if d == 0 then 0 else FreeCount(rpd, d - 1) + if rpd[d - 1] == 0 then 1 else 0
  }

  function Sum(counts: seq<nat>): nat {
    if counts == [] then 0 else Sum(counts[..|counts| - 1]) + counts[|counts| - 1]
  }

  lemma {:induction false} CountsAddUp(rpd: seq<nat>, d: nat)
    requires d <= |rpd|
    ensures ConfiguredCount(rpd, d) + FreeCount(rpd, d) == d
    decreases d
  {
    if d > 0 {
      CountsAddUp(rpd, d - 1);
    }
  }

  lemma {:induction false} FreeCountMono(rpd: seq<nat>, d: nat, e: nat)
    requires d <= e <= |rpd|
    ensures FreeCount(rpd, d) <= FreeCount(rpd, e)
    ensures d < e && rpd[d] == 0 ==> FreeCount(rpd, d) + 1 <= FreeCount(rpd, e)
    decreases e
  {
    if d < e {
      FreeCountMono(rpd, d, e - 1);
    }
  }

  lemma SumGrows(counts: seq<nat>, d: nat)
    requires d < |counts|
    ensures Sum(counts[..d + 1]) == Sum(counts[..d]) + counts[d]
  {
    assert counts[..d + 1][..d] == counts[..d];
  }

  class Config {
    const nbRoutesPerDepth: array<nat>

    constructor ()
      ensures nbRoutesPerDepth.Length == DEPTHS && fresh(nbRoutesPerDepth)
      ensures forall d | 0 <= d < DEPTHS :: nbRoutesPerDepth[d] == 0
    {
      nbRoutesPerDepth := new nat[DEPTHS](_ => 0);
    }

    /** First loop: the configured depths, summed up in 32 bits. */
    method TakeConfigured(depthLim: nat, n: nat, rpd: seq<nat>, nrpd: seq<nat>) returns (nr: nat, m: nat)
      requires nbRoutesPerDepth.Length == DEPTHS && depthLim < DEPTHS && n < TWO32 && Ratios(rpd, nrpd)
      modifies nbRoutesPerDepth
      ensures nr == ConfiguredSum(n, rpd, nrpd, depthLim + 1) % TWO32 && m == ConfiguredCount(rpd, depthLim + 1)
      ensures forall d: nat | d <= depthLim && rpd[d] != 0 :: nbRoutesPerDepth[d] == Configured(n, rpd, nrpd, d)
    {
      nr, m := 0, 0;
      for depth: nat := 0 to depthLim + 1
        invariant nr == ConfiguredSum(n, rpd, nrpd, depth) % TWO32 && m == ConfiguredCount(rpd, depth)
        invariant forall d: nat | d < depth && rpd[d] != 0 :: nbRoutesPerDepth[d] == Configured(n, rpd, nrpd, d)
      {
        if rpd[depth] != 0 {
          nbRoutesPerDepth[depth] := if rpd[depth] == UINT8_MAX then nrpd[depth] else n * rpd[depth] % TWO32 / 100;
          WrappedSum(ConfiguredSum(n, rpd, nrpd, depth), nbRoutesPerDepth[depth]);
          nr := (nr + nbRoutesPerDepth[depth]) % TWO32;
          m := m + 1;
        }
      }
    }

    /** Second loop: what is left, in equal shares, no depth getting more routes than it has prefixes. */
    method TakeRest(depthLim: nat, n: nat, rpd: seq<nat>, nrpd: seq<nat>, configured: nat, m0: nat) returns (nr: nat)
      requires nbRoutesPerDepth.Length == DEPTHS && depthLim < DEPTHS && Ratios(rpd, nrpd)
      requires configured <= n && m0 == ConfiguredCount(rpd, depthLim + 1)
      modifies nbRoutesPerDepth
      ensures configured <= nr <= n
      ensures forall d: nat | d <= depthLim && rpd[d] != 0 :: nbRoutesPerDepth[d] == old(nbRoutesPerDepth[d])
      ensures forall d: nat | d <= depthLim && rpd[d] == 0 ::
                SharedOut(rpd, nbRoutesPerDepth[..], n - configured, FreeCount(rpd, depthLim + 1), d)
      ensures nr - configured == FreeSum(rpd, nbRoutesPerDepth[..], depthLim + 1)
    {
      hide FreeSum, FreeCount, ConfiguredCount, Cap, ConfiguredSum, Share, SharedOut;
      nr := configured;
      var m := m0;
      CountsAddUp(rpd, depthLim + 1);
      NothingFree(rpd, nbRoutesPerDepth[..]);
      for depth: nat := 0 to depthLim + 1
        invariant configured <= nr <= n && m == m0 + FreeCount(rpd, depth)
        invariant forall d: nat | d <= depthLim && rpd[d] != 0 :: nbRoutesPerDepth[d] == old(nbRoutesPerDepth[d])
        invariant forall d: nat | d < depth && rpd[d] == 0 ::
                    SharedOut(rpd, nbRoutesPerDepth[..], n - configured, FreeCount(rpd, depthLim + 1), d)
        invariant nr - configured == FreeSum(rpd, nbRoutesPerDepth[..], depth)
      {
        ghost var before := nbRoutesPerDepth[..];
        if rpd[depth] == 0 {
          FreeCountMono(rpd, depth, depthLim + 1);
          var left := depthLim + 1 - m;
          nbRoutesPerDepth[depth] := Min(Cap(depth), Share(n - nr, left));
          m := m + 1;
          nr := nr + nbRoutesPerDepth[depth];
        }
        FreeNext(rpd, before, nbRoutesPerDepth[..], depth);
        SharedOutNext(rpd, before, nbRoutesPerDepth[..], n - configured, FreeCount(rpd, depthLim + 1), depth);
      }
    }

    /**
     * The whole distribution. It is refused exactly if the configured routes, summed up in 32 bits,
     * are more than there are; otherwise the rest is never negative, and it is shared out to the last
     * route, or until every depth that is not configured has all its prefixes.
     */
    method CompleteDistrib(depthLim: nat, n: nat, rpd: seq<nat>, nrpd: seq<nat>) returns (ok: bool)
      requires nbRoutesPerDepth.Length == DEPTHS && depthLim < DEPTHS && n < TWO32 && Ratios(rpd, nrpd)
      modifies nbRoutesPerDepth
      ensures ok <==> ConfiguredSum(n, rpd, nrpd, depthLim + 1) % TWO32 <= n
      ensures ok ==> Distributed(depthLim, n, rpd, nrpd, nbRoutesPerDepth[..])
    {
      var nr, m := TakeConfigured(depthLim, n, rpd, nrpd);
      if nr > n {
        return false;
      }
      ghost var configured := nr;
      nr := TakeRest(depthLim, n, rpd, nrpd, nr, m);
      ok := true;
      SharedSum(rpd, nbRoutesPerDepth[..], n - configured, depthLim);
    }
  }

  /** No depth gets more routes than it has prefixes, as far as 64 bits can tell. */
  function Cap(d: nat): nat {
    Pow2(Min(d, 63))
  }

  /** How many routes the depths that are not configured can take together. */
  function CapSum(rpd: seq<nat>, d: nat): nat
    requires d <= |rpd|
  {
    if d == 0 then 0 else CapSum(rpd, d - 1) + if rpd[d - 1] == 0 then Cap(d - 1) else 0
  }

  /** Sum of the entries of the depths that are not configured. */
  function FreeSum(rpd: seq<nat>, counts: seq<nat>, d: nat): nat
    requires d <= |rpd| == |counts|
  {
    if d == 0 then 0 else FreeSum(rpd, counts, d - 1) + if rpd[d - 1] == 0 then counts[d - 1] else 0
  }

  lemma {:induction false} FreeSumSame(rpd: seq<nat>, before: seq<nat>, after: seq<nat>, d: nat)
    requires d <= |rpd| == |before| == |after| && before[..d] == after[..d]
    ensures FreeSum(rpd, before, d) == FreeSum(rpd, after, d)
    decreases d
  {
    if d > 0 {
      assert before[..d - 1] == before[..d][..d - 1] && after[..d - 1] == after[..d][..d - 1];
      assert before[d - 1] == before[..d][d - 1] && after[d - 1] == after[..d][d - 1];
      FreeSumSame(rpd, before, after, d - 1);
    }
  }

  lemma FreeNext(rpd: seq<nat>, before: seq<nat>, after: seq<nat>, d: nat)
    requires d < |rpd| == |before| == |after| && before[..d] == after[..d]
    ensures FreeSum(rpd, after, d + 1) == FreeSum(rpd, before, d) + if rpd[d] == 0 then after[d] else 0
    ensures FreeCount(rpd, d + 1) == FreeCount(rpd, d) + if rpd[d] == 0 then 1 else 0
  {
    FreeSumSame(rpd, before, after, d);
  }

  /** Depth `d` has got its share of what was left when its turn came, or all its prefixes if they are fewer. */
  ghost predicate SharedOut(rpd: seq<nat>, counts: seq<nat>, left: nat, free: nat, d: nat)
    requires d < |rpd| == |counts|
  {
    var given, before := FreeSum(rpd, counts, d), FreeCount(rpd, d);
    given <= left && before < free && counts[d] == Min(Cap(d), Share(left - given, free - before))
  }

  lemma SharedOutNext(rpd: seq<nat>, before: seq<nat>, after: seq<nat>, left: nat, free: nat, depth: nat)
    requires depth < |rpd| == |before| == |after| && before[..depth] == after[..depth]
    ensures forall d: nat | d < depth && SharedOut(rpd, before, left, free, d) :: SharedOut(rpd, after, left, free, d)
    ensures var given, used := FreeSum(rpd, before, depth), FreeCount(rpd, depth);
            given <= left && used < free && after[depth] == Min(Cap(depth), Share(left - given, free - used))
            ==> SharedOut(rpd, after, left, free, depth)
  {
    FreeSumSame(rpd, before, after, depth);
    forall d: nat | d < depth && SharedOut(rpd, before, left, free, d) ensures SharedOut(rpd, after, left, free, d) {
      assert before[..d] == before[..depth][..d] && after[..d] == after[..depth][..d];
      assert before[d] == before[..depth][d] && after[d] == after[..depth][d];
      FreeSumSame(rpd, before, after, d);
    }
  }

  lemma NothingFree(rpd: seq<nat>, counts: seq<nat>)
    requires |rpd| == |counts|
    ensures FreeSum(rpd, counts, 0) == 0 && FreeCount(rpd, 0) == 0
  {
  }

  lemma WrappedSum(a: nat, b: nat)
    ensures (a + b) % TWO32 == (a % TWO32 + b) % TWO32
  {
  }

  /** An equal share of what is left; the last one is all of it. */
  function Share(left: nat, shares: nat): (r: nat)
    requires shares >= 1
    ensures r <= left && (shares == 1 ==> r == left)
  {
    ShareBound(left, shares);
    left / shares
  }

  lemma ShareBound(left: nat, shares: nat)
    requires shares >= 1
    ensures left / shares <= left && (shares == 1 ==> left / shares == left)
  {
    var q, r := left / shares, left % shares;
    assert left == shares * q + r;
    MulMono(q, 1, shares);
  }

  lemma CapGrows(d: nat)
    ensures Cap(d) <= Cap(d + 1) && (d >= 32 ==> Cap(d) >= TWO32)
  {
    Pow2Mono(Min(d, 63), Min(d + 1, 63));
    if d >= 32 {
      PowersOfTwo();
      Pow2Mono(32, Min(d, 63));
    }
  }

  lemma {:induction false} CapSumReaches(rpd: seq<nat>, d: nat, e: nat)
    requires d < e <= |rpd| && rpd[d] == 0
    ensures CapSum(rpd, e) >= Cap(d)
    decreases e
  {
    if d < e - 1 {
      CapSumReaches(rpd, d, e - 1);
    }
  }

  /** `shares` depths to come, each of which can take `cap` routes, are enough for `left` routes. */
  ghost predicate Enough(left: int, shares: nat, cap: nat) {
    left <= shares * cap
  }

  /** A share that is taken in full leaves enough room for the rest: what is not shared evenly grows by one at most. */
  lemma ShareTaken(left: nat, shares: nat, cap: nat)
    requires shares >= 1 && Enough(left, shares, cap)
    ensures Share(left, shares) <= cap && Enough(left - Share(left, shares), shares - 1, cap)
  {
    var q, r := Divided(left, shares);
    hide Share;
    Products(cap, shares);
    Products(q, shares);
    if q > cap {
      MulMono(shares, cap + 1, q);
    } else if q == cap {
      assert r == 0;
    } else {
      MulMono(shares - 1, q + 1, cap);
      Products(q + 1, shares);
      assert (shares - 1) * (q + 1) == q * shares + shares - q - 1;
    }
  }

  lemma ShareBelow(left: nat, shares: nat, cap: nat)
    requires shares >= 1 && Share(left, shares) < cap
    ensures Enough(left, shares, cap)
  {
    var q, r := Divided(left, shares);
    hide Share;
    MulMono(shares, q + 1, cap);
    Products(q, shares);
  }

  lemma EnoughMore(left: int, shares: nat, cap: nat, cap': nat)
    requires Enough(left, shares, cap) && cap <= cap'
    ensures Enough(left, shares, cap')
  {
    MulMono(shares, cap, cap');
  }

  lemma EnoughForNone(left: int, cap: nat)
    requires Enough(left, 0, cap)
    ensures left <= 0
  {
  }

  /** Up to depth `d` every depth has been capped, or from there on none needs to be. */
  lemma {:induction false} SharedUpTo(rpd: seq<nat>, counts: seq<nat>, left: nat, free: nat, d: nat)
    requires d <= |rpd| == |counts| && FreeCount(rpd, d) <= free
    requires forall e: nat | e < d && rpd[e] == 0 :: SharedOut(rpd, counts, left, free, e)
    ensures FreeSum(rpd, counts, d) <= left && FreeSum(rpd, counts, d) <= CapSum(rpd, d)
    ensures || FreeSum(rpd, counts, d) == CapSum(rpd, d)
            || Enough(left - FreeSum(rpd, counts, d), free - FreeCount(rpd, d), Cap(d))
    decreases d
  {
    if d > 0 {
      var e := d - 1;
      FreeCountMono(rpd, e, d);
      SharedUpTo(rpd, counts, left, free, e);
      CapGrows(e);
      var given, shares := FreeSum(rpd, counts, e), free - FreeCount(rpd, e);
      hide Cap, Enough, Share;
      if rpd[e] == 0 {
        assert SharedOut(rpd, counts, left, free, e);
        if Enough(left - given, shares, Cap(e)) {
          ShareTaken(left - given, shares, Cap(e));
          EnoughMore(left - given - counts[e], shares - 1, Cap(e), Cap(d));
        } else if Share(left - given, shares) < Cap(e) {
          ShareBelow(left - given, shares, Cap(e));
        }
      } else if Enough(left - given, shares, Cap(e)) {
        EnoughMore(left - given, shares, Cap(e), Cap(d));
      }
    }
  }

  /** All is given away, or every depth that is not configured is full. */
  lemma SharedSum(rpd: seq<nat>, counts: seq<nat>, left: nat, depthLim: nat)
    requires depthLim < |rpd| == |counts|
    requires forall d: nat | d <= depthLim && rpd[d] == 0 ::
               SharedOut(rpd, counts, left, FreeCount(rpd, depthLim + 1), d)
    ensures FreeSum(rpd, counts, depthLim + 1) == Min(left, CapSum(rpd, depthLim + 1))
  {
    hide FreeSum, CapSum, FreeCount, SharedOut, Enough, Cap;
    var free := FreeCount(rpd, depthLim + 1);
    SharedUpTo(rpd, counts, left, free, depthLim + 1);
    var given := FreeSum(rpd, counts, depthLim + 1);
    if given != CapSum(rpd, depthLim + 1) {
      EnoughForNone(left - given, Cap(depthLim + 1));
    }
  }

  ghost predicate Distributed(depthLim: nat, n: nat, rpd: seq<nat>, nrpd: seq<nat>, counts: seq<nat>)
    requires depthLim < DEPTHS && Ratios(rpd, nrpd)
  {
    && |counts| == DEPTHS && ConfiguredSum(n, rpd, nrpd, depthLim + 1) % TWO32 <= n
    && (forall d: nat | d <= depthLim && rpd[d] != 0 :: counts[d] == Configured(n, rpd, nrpd, d))
    && (forall d: nat | d <= depthLim && rpd[d] == 0 ::
          SharedOut(rpd, counts, n - ConfiguredSum(n, rpd, nrpd, depthLim + 1) % TWO32,
                    FreeCount(rpd, depthLim + 1), d))
    && FreeSum(rpd, counts, depthLim + 1) ==
       Min(n - ConfiguredSum(n, rpd, nrpd, depthLim + 1) % TWO32, CapSum(rpd, depthLim + 1))
  }

  // ----- how even the distribution is -----

  /** Every one of `k` depths to come can have `q` routes. */
  ghost predicate AtLeast(left: int, k: int, q: nat) {
    q * k <= left
  }

  lemma ShareKeeps(left: nat, k: nat, q: nat, x: nat)
    requires k >= 1 && AtLeast(left, k, q) && x <= Share(left, k)
    ensures q <= Share(left, k) && AtLeast(left - x, k - 1, q)
  {
    var s, r := Divided(left, k);
    hide Share;
    if s < q {
      MulMono(k, s + 1, q);
    }
    Kept(left, k, q, s);
    MulMono(1, x, s);
  }

  lemma Kept(left: nat, k: nat, q: nat, s: nat)
    requires k >= 1 && k * s <= left && q <= s
    ensures q * (k - 1) <= left - s
  {
    MulMono(k - 1, q, s);
    assert (k - 1) * s == k * s - s;
  }

  /**
   * Of the depths that are not configured, those behind `d` have enough left, and not too much if `d` was
   * not capped.
   */
  lemma {:induction false} LeftBehind(rpd: seq<nat>, counts: seq<nat>, left: nat, free: nat, d: nat, e: nat)
    requires d < e <= |rpd| == |counts| && rpd[d] == 0 && FreeCount(rpd, e) <= free && FreeSum(rpd, counts, e) <= left
    requires forall f: nat | f < e && rpd[f] == 0 :: SharedOut(rpd, counts, left, free, f)
    ensures AtLeast(left - FreeSum(rpd, counts, e), free - FreeCount(rpd, e), counts[d])
    ensures counts[d] < Cap(d) ==> Even(left - FreeSum(rpd, counts, e), free - FreeCount(rpd, e), counts[d])
    decreases e
  {
    hide Cap, Even, AtLeast, Share, FreeSum, FreeCount, SharedOut;
    var f := e - 1;
    FreeNext(rpd, counts, counts, f);
    var rest, k := left - FreeSum(rpd, counts, f), free - FreeCount(rpd, f);
    if rpd[f] == 0 {
      assert SharedOut(rpd, counts, left, free, f);
      ShareIs(rpd, counts, left, free, f);
    }
    if d == f {
      EvenIsAtLeast(rest, k, counts[d]);
      FirstKeeps(rest, k, counts[d]);
    } else {
      LeftBehind(rpd, counts, left, free, d, f);
      if rpd[f] == 0 {
        CapsAscend(d, f);
        NextKeeps(rest, k, counts[d], counts[f], Cap(d), Cap(f));
      }
    }
  }

  lemma ShareIs(rpd: seq<nat>, counts: seq<nat>, left: nat, free: nat, d: nat)
    requires d < |rpd| == |counts| && SharedOut(rpd, counts, left, free, d)
    ensures FreeSum(rpd, counts, d) <= left && FreeCount(rpd, d) < free
    ensures counts[d] == Min(Cap(d), Share(left - FreeSum(rpd, counts, d), free - FreeCount(rpd, d)))
    ensures counts[d] < Cap(d) ==> counts[d] == Share(left - FreeSum(rpd, counts, d), free - FreeCount(rpd, d))
    ensures counts[d] <= Share(left - FreeSum(rpd, counts, d), free - FreeCount(rpd, d))
  {
    hide Cap, Share, FreeSum, FreeCount;
  }

  lemma EvenIsAtLeast(left: nat, k: nat, x: nat)
    requires k >= 1 && x <= Share(left, k)
    ensures AtLeast(left, k, x)
  {
    var s, r := Divided(left, k);
    hide Share;
    MulMono(k, x, s);
  }

  lemma FirstKeeps(left: nat, k: nat, x: nat)
    requires k >= 1 && x <= Share(left, k) && AtLeast(left, k, x)
    ensures AtLeast(left - x, k - 1, x)
    ensures x == Share(left, k) ==> Even(left - x, k - 1, x)
  {
    ShareKeeps(left, k, x, x);
    QuotientIs(left, k);
    if x == Share(left, k) {
      EvenStep(left, k, x);
    }
  }

  lemma NextKeeps(left: nat, k: nat, q: nat, x: nat, capD: nat, capF: nat)
    requires k >= 1 && AtLeast(left, k, q) && x == Min(capF, Share(left, k))
    requires capD <= capF && (q < capD ==> Even(left, k, q))
    ensures AtLeast(left - x, k - 1, q)
    ensures q < capD ==> Even(left - x, k - 1, q)
  {
    ShareKeeps(left, k, q, x);
    if q < capD {
      EvenStep(left, k, q);
    }
    hide Share, Even;
  }

  lemma {:induction false} CapsAscend(d: nat, e: nat)
    requires d <= e
    ensures Cap(d) <= Cap(e)
    decreases e
  {
    if d < e {
      CapsAscend(d, e - 1);
      CapGrows(e - 1);
    }
  }

  /**
   * The depths that are not configured are treated alike: a longer prefix length never gets fewer routes, and
   * at most one more than a shorter one that has prefixes to spare.
   */
  lemma EvenlyShared(depthLim: nat, n: nat, rpd: seq<nat>, nrpd: seq<nat>, counts: seq<nat>, d: nat, e: nat)
    requires depthLim < DEPTHS && n < TWO32 && Ratios(rpd, nrpd) && Distributed(depthLim, n, rpd, nrpd, counts)
    requires d < e <= depthLim && rpd[d] == 0 && rpd[e] == 0
    ensures counts[d] <= Pow2(Min(d, 63)) && counts[d] <= counts[e]
    ensures counts[d] < Pow2(Min(d, 63)) ==> counts[e] <= counts[d] + 1
  {
    var left, free := n - ConfiguredSum(n, rpd, nrpd, depthLim + 1) % TWO32, FreeCount(rpd, depthLim + 1);
    hide ConfiguredSum, FreeSum, FreeCount, CapSum, Pow2, SharedOut;
    assert forall f: nat | f <= depthLim && rpd[f] == 0 :: SharedOut(rpd, counts, left, free, f);
    hide Distributed;
    FreeCountMono(rpd, e, depthLim + 1);
    SharedAlike(rpd, counts, left, free, d, e);
  }

  lemma SharedAlike(rpd: seq<nat>, counts: seq<nat>, left: nat, free: nat, d: nat, e: nat)
    requires d < e < |rpd| == |counts| && rpd[d] == 0 && rpd[e] == 0 && FreeCount(rpd, e) <= free
    requires forall f: nat | f <= e && rpd[f] == 0 :: SharedOut(rpd, counts, left, free, f)
    ensures counts[d] <= Cap(d) && counts[d] <= counts[e]
    ensures counts[d] < Cap(d) ==> counts[e] <= counts[d] + 1
  {
    hide FreeSum, FreeCount, Share, Even, AtLeast, Cap, SharedOut;
    ShareIs(rpd, counts, left, free, d);
    ShareIs(rpd, counts, left, free, e);
    LeftBehind(rpd, counts, left, free, d, e);
    CapsAscend(d, e);
    ShareAfter(left - FreeSum(rpd, counts, e), free - FreeCount(rpd, e), counts[d], counts[d] < Cap(d));
  }

  lemma ShareAfter(left: nat, k: nat, q: nat, spare: bool)
    requires k >= 1 && AtLeast(left, k, q) && (spare ==> Even(left, k, q))
    ensures q <= Share(left, k) && (spare ==> Share(left, k) <= q + 1)
  {
    ShareKeeps(left, k, q, 0);
    if spare {
      EvenStep(left, k, q);
    }
  }

  /** A depth configured in percent gets that part of the routes, rounded down, unless the product is cut to 32 bits. */
  lemma PercentIs(n: nat, rpd: seq<nat>, nrpd: seq<nat>, d: nat)
    requires n < TWO32 && Ratios(rpd, nrpd) && d < DEPTHS && 0 < rpd[d] < UINT8_MAX
    ensures var c := Configured(n, rpd, nrpd, d);
            && 100 * c <= n * rpd[d]
            && (100 * c <= n * rpd[d] < 100 * c + 100 <==> n * rpd[d] < TWO32)
  {
    var p := n * rpd[d];
    MulMono(n, 0, rpd[d]);
    Cut(p);
  }

  lemma Cut(p: nat)
    ensures 100 * (p % TWO32 / 100) <= p
    ensures p < TWO32 <==> p < 100 * (p % TWO32 / 100) + 100
  {
    assert p == TWO32 * (p / TWO32) + p % TWO32;
  }

  // ----- without a configured distribution -----

  lemma {:induction false} NothingConfigured(n: nat, rpd: seq<nat>, nrpd: seq<nat>, counts: seq<nat>, d: nat)
    requires d <= |rpd| == |nrpd| == |counts| && forall i | 0 <= i < |rpd| :: rpd[i] == 0
    ensures ConfiguredSum(n, rpd, nrpd, d) == 0 && FreeSum(rpd, counts, d) == Sum(counts[..d])
    decreases d
  {
    if d > 0 {
      NothingConfigured(n, rpd, nrpd, counts, d - 1);
      SumGrows(counts, d - 1);
    }
  }

  lemma DefaultSum(depthLim: nat, n: nat, none: seq<nat>, counts: seq<nat>)
    requires 32 <= depthLim < DEPTHS && n < TWO32 && Ratios(none, none) && forall i | 0 <= i < DEPTHS :: none[i] == 0
    requires Distributed(depthLim, n, none, none, counts)
    ensures Sum(counts[..depthLim + 1]) == n
  {
    NothingConfigured(n, none, none, counts, depthLim + 1);
    hide ConfiguredSum, FreeSum, FreeCount, Sum, SharedOut, CapSum, Cap, Distributed;
    RestShared(depthLim, n, none, none, counts);
    CapSumReaches(none, depthLim, depthLim + 1);
    CapGrows(depthLim);
  }

  /** What the depths that are not configured get if the configured sum does not wrap around. */
  lemma RestShared(depthLim: nat, n: nat, rpd: seq<nat>, nrpd: seq<nat>, counts: seq<nat>)
    requires depthLim < DEPTHS && Ratios(rpd, nrpd) && Distributed(depthLim, n, rpd, nrpd, counts)
    ensures var c := ConfiguredSum(n, rpd, nrpd, depthLim + 1);
            c < TWO32 ==> c <= n && FreeSum(rpd, counts, depthLim + 1) == Min(n - c, CapSum(rpd, depthLim + 1))
  {
    var c := ConfiguredSum(n, rpd, nrpd, depthLim + 1);
    hide ConfiguredSum, FreeSum, FreeCount, CapSum, SharedOut;
    if c < TWO32 {
      DivModUnique(c, TWO32, 0, c);
    }
  }

  lemma DefaultShare(depthLim: nat, n: nat, none: seq<nat>, counts: seq<nat>, d: nat)
    requires d <= depthLim < DEPTHS && n < TWO32 && Ratios(none, none) && none[d] == 0
    requires Distributed(depthLim, n, none, none, counts)
    ensures counts[d] <= Cap(d)
  {
    hide Cap, Share, ConfiguredSum, FreeSum, FreeCount, Configured;
    var configured, free := ConfiguredSum(n, none, none, depthLim + 1) % TWO32, FreeCount(none, depthLim + 1);
    assert SharedOut(none, counts, n - configured, free, d);
  }

  /**
   * No depth gets more routes than it has prefixes, as far as 64 bits can tell, nor fewer than a shorter one, nor
   * more than one more than a shorter one that has prefixes to spare.
   */
  ghost predicate Alike(counts: seq<nat>, depthLim: nat)
    requires depthLim < |counts|
  {
    && (forall d: nat | d <= depthLim :: counts[d] <= Pow2(Min(d, 63)))
    && (forall d: nat, e: nat | d < e <= depthLim :: counts[d] <= counts[e])
    && (forall d: nat, e: nat | d < e <= depthLim && counts[d] < Pow2(Min(d, 63)) :: counts[e] <= counts[d] + 1)
  }

  lemma DefaultAlike(depthLim: nat, n: nat, none: seq<nat>, counts: seq<nat>)
    requires depthLim < DEPTHS && n < TWO32 && Ratios(none, none) && forall i | 0 <= i < DEPTHS :: none[i] == 0
    requires |counts| == DEPTHS && Distributed(depthLim, n, none, none, counts)
    ensures Alike(counts, depthLim)
  {
    hide Distributed, Pow2;
    forall d: nat | d <= depthLim ensures counts[d] <= Cap(d) {
      DefaultShare(depthLim, n, none, counts, d);
    }
    forall d: nat, e: nat | d < e <= depthLim
      ensures counts[d] <= counts[e] && (counts[d] < Pow2(Min(d, 63)) ==> counts[e] <= counts[d] + 1)
    {
      EvenlyShared(depthLim, n, none, none, counts, d, e);
    }
  }

  /** The default distribution, for IPv4 and IPv6: exactly `n` routes, all depths treated alike. */
  method DefaultDistrib(config: Config, depthLim: nat, n: nat) returns (ok: bool)
    requires config.nbRoutesPerDepth.Length == DEPTHS && 32 <= depthLim < DEPTHS && n < TWO32
    modifies config.nbRoutesPerDepth
    ensures ok && Sum(config.nbRoutesPerDepth[..depthLim + 1]) == n
    ensures Alike(config.nbRoutesPerDepth[..], depthLim)
  {
    hide Pow2, Distributed, ConfiguredSum, Sum, Alike;
    var none := seq(DEPTHS, _ => 0);
    NothingConfigured(n, none, none, none, depthLim + 1);
    ok := config.CompleteDistrib(depthLim, n, none, none);
    ghost var counts := config.nbRoutesPerDepth[..];
    DefaultSum(depthLim, n, none, counts);
    assert counts[..depthLim + 1] == config.nbRoutesPerDepth[..depthLim + 1];
    DefaultAlike(depthLim, n, none, counts);
  }

  /** With configured routes whose sum does not wrap around: never more than `n` in all. */
  lemma {:induction false} SumSplits(n: nat, rpd: seq<nat>, nrpd: seq<nat>, counts: seq<nat>, d: nat)
    requires d <= |rpd| == |nrpd| == |counts|
    requires forall i | 0 <= i < d && rpd[i] != 0 :: counts[i] == Configured(n, rpd, nrpd, i)
    ensures Sum(counts[..d]) == ConfiguredSum(n, rpd, nrpd, d) + FreeSum(rpd, counts, d)
    decreases d
  {
    if d > 0 {
      SumSplits(n, rpd, nrpd, counts, d - 1);
      SumGrows(counts, d - 1);
    }
  }

  /**
   * An accepted distribution has at most `n` routes exactly if the configured sum does not hide behind a
   * wrap-around.
   */
  lemma AtMostN(depthLim: nat, n: nat, rpd: seq<nat>, nrpd: seq<nat>, counts: seq<nat>)
    requires depthLim < DEPTHS && n < TWO32 && Ratios(rpd, nrpd) && Distributed(depthLim, n, rpd, nrpd, counts)
    ensures Sum(counts[..depthLim + 1]) <= n <==> ConfiguredSum(n, rpd, nrpd, depthLim + 1) < TWO32
  {
    SumSplits(n, rpd, nrpd, counts, depthLim + 1);
    var c := ConfiguredSum(n, rpd, nrpd, depthLim + 1);
    if c < TWO32 {
      DivModUnique(c, TWO32, 0, c);
    }
  }

  // ----- the route table -----

  /** Entries in front of those of depth `d`: one default route, whatever number was asked for, then depth by depth. */
  function Filled(counts: seq<nat>, d: nat): nat
    requires 1 <= d <= |counts|
  {
    if d == 1 then (if counts[0] != 0 then 1 else 0) else Filled(counts, d - 1) + counts[d - 1]
  }

  /** Entry `k` is one of those of depth `i`. */
  ghost predicate AtDepth(counts: seq<nat>, i: nat, k: nat) {
    1 <= i < |counts| && Filled(counts, i) <= k < Filled(counts, i) + counts[i]
  }

  /**
   * The table up to depth `d`, made with the random numbers `rnd` for the addresses and `nh` for the next
   * hops: at most one default route, then depth by depth the routes of that depth.
   */
  ghost predicate Generated(rt: seq<Rule>, counts: seq<nat>, d: nat, rnd: nat -> nat, nh: nat -> nat, size: nat)
    requires 1 <= d <= |counts| && d <= 33
  {
    && Filled(counts, d) <= |rt|
    && (counts[0] != 0 ==> |rt| > 0 && rt[0] == Rule(0, 0, Hop(size, nh(0))))
    && forall i: nat, k: nat | i < d && AtDepth(counts, i, k) ::
         k < |rt| && rt[k] == Route(i, counts[i], k - Filled(counts, i), rnd(k), Hop(size, nh(k)))
  }

  lemma {:induction false} FilledMono(counts: seq<nat>, d: nat, e: nat)
    requires 1 <= d <= e <= |counts|
    ensures Filled(counts, d) <= Filled(counts, e)
    decreases e
  {
    if d < e {
      FilledMono(counts, d, e - 1);
    }
  }

  /** The routes of one depth. */
  method GenDepth(rt: array<Rule>, counts: seq<nat>, i: nat, start: nat, rnd: nat -> nat, nh: nat -> nat, size: nat)
      returns (fits: bool, k: nat)
    requires |counts| == DEPTHS && 1 <= i <= 32 && start == Filled(counts, i) <= rt.Length
    requires Generated(rt[..], counts, i, rnd, nh, size)
    modifies rt
    ensures fits <==> Filled(counts, i + 1) <= rt.Length
    ensures if fits then k == Filled(counts, i + 1) && Generated(rt[..], counts, i + 1, rnd, nh, size)
            else k == rt.Length
  {
    k, fits := start, true;
    hide Filled, Generated, Edge, Step, Pow2, Value;
    FilledNext(counts, i);
    var edge, step := 0.0, if counts[i] == 0 then 0.0 else Pow2(i) as real / counts[i] as real;
    StepStart(i, counts[i]);
    for j: nat := 0 to counts[i]
      invariant k == start + j <= rt.Length && edge == Edge(i, counts[i], j)
      invariant rt[..start] == old(rt[..start])
      invariant forall k': nat | start <= k' < k ::
                  rt[k'] == Route(i, counts[i], k' - start, rnd(k'), Hop(size, nh(k')))
    {
      if k == rt.Length {
        return false, k;
      }
      EdgesAscend(i, counts[i], j, j + 1);
      EdgeNext(i, counts[i], j);
      var value := Draw(Whole(edge), Whole(edge + step), rnd(k));
      rt[k] := Rule(value * Pow2(32 - i) % TWO32, i, Hop(size, nh(k)));
      RouteIs(i, counts[i], j, rnd(k), Hop(size, nh(k)), value);
      k, edge := k + 1, edge + step;
    }
    GeneratedGrows(old(rt[..]), rt[..], counts, i, rnd, nh, size);
  }

  lemma StepStart(i: nat, count: nat)
    ensures Edge(i, count, 0) == 0.0
    ensures Step(i, count) == if count == 0 then 0.0 else Pow2(i) as real / count as real
  {
    EdgeNext(i, count, 0);
  }

  /** No bit is lost when the drawn value is shifted into place. */
  lemma RouteIs(i: nat, count: nat, j: nat, rnd: nat, nh: nat, value: nat)
    requires j < count && i <= 32
    requires Whole(Edge(i, count, j)) <= Whole(Edge(i, count, j + 1))
    requires value == Draw(Whole(Edge(i, count, j)), Whole(Edge(i, count, j + 1)), rnd)
    ensures Rule(value * Pow2(32 - i) % TWO32, i, nh) == Route(i, count, j, rnd, nh)
  {
    hide Edge, Whole, Draw, Pow2;
    RouteIsPrefix(i, count, j, rnd, nh);
  }

  lemma GeneratedGrows(before: seq<Rule>, after: seq<Rule>, counts: seq<nat>, i: nat, rnd: nat -> nat, nh: nat -> nat,
                       size: nat)
    requires 1 <= i < |counts| && i <= 32 && |before| == |after|
    requires Generated(before, counts, i, rnd, nh, size) && Filled(counts, i + 1) <= |after|
    requires before[..Filled(counts, i)] == after[..Filled(counts, i)]
    requires forall k: nat | Filled(counts, i) <= k < Filled(counts, i) + counts[i] ::
               after[k] == Route(i, counts[i], k - Filled(counts, i), rnd(k), Hop(size, nh(k)))
    ensures Generated(after, counts, i + 1, rnd, nh, size)
  {
    hide Route, Hop;
    var start := Filled(counts, i);
    FilledFirst(counts, i);
    assert forall k | 0 <= k < start :: after[k] == after[..start][k] && before[k] == before[..start][k];
    FilledNext(counts, i);
    forall i': nat, k: nat | i' < i + 1 && AtDepth(counts, i', k)
      ensures k < |after| && after[k] == Route(i', counts[i'], k - Filled(counts, i'), rnd(k), Hop(size, nh(k)))
    {
      if i' < i {
        FilledNext(counts, i');
        FilledMono(counts, i' + 1, i);
      }
    }
  }

  lemma FilledNext(counts: seq<nat>, i: nat)
    requires 1 <= i < |counts|
    ensures Filled(counts, i + 1) == Filled(counts, i) + counts[i]
  {
  }

  lemma FilledFirst(counts: seq<nat>, i: nat)
    requires 1 <= i <= |counts|
    ensures counts[0] != 0 ==> Filled(counts, i) >= 1
  {
    FilledMono(counts, 1, i);
  }

  /**
   * The generator for IPv4: depth by depth, one entry after the other, every entry drawn from its own share
   * of the prefixes of its depth. It `fits` as long as no entry is behind the end of the table; the code
   * does not look.
   */
  method GenRandomRt4(rt: array<Rule>, counts: seq<nat>, rnd: nat -> nat, nh: nat -> nat, size: nat)
      returns (fits: bool, k: nat)
    requires |counts| == DEPTHS
    modifies rt
    ensures fits <==> Filled(counts, 33) <= rt.Length
    ensures if fits then k == Filled(counts, 33) && Generated(rt[..], counts, 33, rnd, nh, size) else k == rt.Length
  {
    k, fits := 0, true;
    FilledMono(counts, 1, 33);
    if counts[0] != 0 {
      if rt.Length == 0 {
        return false, 0;
      }
      rt[0] := Rule(0, 0, Hop(size, nh(0)));
      k := 1;
    }
    hide Generated, Filled;
    GeneratedFirst(rt[..], counts, rnd, nh, size);
    for i: nat := 1 to 33
      invariant k == Filled(counts, i) <= rt.Length && Generated(rt[..], counts, i, rnd, nh, size)
    {
      FilledMono(counts, i + 1, 33);
      fits, k := GenDepth(rt, counts, i, k, rnd, nh, size);
      if !fits {
        return;
      }
    }
  }

  lemma GeneratedFirst(rt: seq<Rule>, counts: seq<nat>, rnd: nat -> nat, nh: nat -> nat, size: nat)
    requires |counts| == DEPTHS && Filled(counts, 1) <= |rt|
    requires counts[0] != 0 ==> rt[0] == Rule(0, 0, Hop(size, nh(0)))
    ensures Generated(rt, counts, 1, rnd, nh, size) && Filled(counts, 1) == if counts[0] != 0 then 1 else 0
  {
  }

  // ----- what is in the table -----

  /** The depth whose entries include entry `k`. */
  lemma {:induction false} DepthOf(counts: seq<nat>, d: nat, k: nat) returns (i: nat)
    requires 1 <= d <= |counts| && Filled(counts, 1) <= k < Filled(counts, d)
    ensures i < d && AtDepth(counts, i, k)
    decreases d
  {
    if Filled(counts, d - 1) <= k {
      i := d - 1;
    } else {
      i := DepthOf(counts, d - 1, k);
    }
  }

  /** No two of the first `n` entries are for the same prefix. */
  ghost predicate AllDifferent(rt: seq<Rule>, n: nat) {
    n <= |rt| && forall a, b | 0 <= a < b < n :: rt[a].depth != rt[b].depth || rt[a].addr != rt[b].addr
  }

  /** No depth has more routes than prefixes. */
  ghost predicate Roomy(counts: seq<nat>) {
    |counts| == DEPTHS && forall i: nat | 1 <= i <= 32 :: counts[i] <= Pow2(i)
  }

  /** What an entry is. */
  lemma EntryIs(rt: seq<Rule>, counts: seq<nat>, rnd: nat -> nat, nh: nat -> nat, size: nat, k: nat)
      returns (i: nat, j: nat)
    requires |counts| == DEPTHS && Generated(rt, counts, 33, rnd, nh, size) && k < Filled(counts, 33)
    ensures i == rt[k].depth <= 32 && IsPrefix(rt[k]) && rt[k].nh == Hop(size, nh(k)) <= MaxHop(size)
    ensures if i == 0 then k == 0 && rt[k].addr == 0
            else k == Filled(counts, i) + j && j < counts[i]
                 && rt[k] == Route(i, counts[i], j, rnd(k), Hop(size, nh(k)))
  {
    HopFits(size, nh(k));
    hide Hop, MaxHop, Pow2, Value;
    if k < Filled(counts, 1) {
      i, j := 0, 0;
      Placed(0, Pow2(32), 1);
    } else {
      i := DepthOf(counts, 33, k);
      j := k - Filled(counts, i);
      RouteIsPrefix(i, counts[i], j, rnd(k), Hop(size, nh(k)));
    }
  }

  /** Every entry is a prefix of its depth with a next hop of the size that was asked for. */
  lemma EntriesArePrefixes(rt: seq<Rule>, counts: seq<nat>, rnd: nat -> nat, nh: nat -> nat, size: nat)
    requires |counts| == DEPTHS && Generated(rt, counts, 33, rnd, nh, size)
    ensures forall k: nat | k < Filled(counts, 33) :: IsPrefix(rt[k]) && rt[k].nh <= MaxHop(size)
  {
    hide Generated, Filled, IsPrefix, MaxHop;
    assert Filled(counts, 33) <= |rt| by {
      Inside(rt, counts, rnd, nh, size);
    }
    forall k: nat | k < Filled(counts, 33) ensures IsPrefix(rt[k]) && rt[k].nh <= MaxHop(size) {
      var i, j := EntryIs(rt, counts, rnd, nh, size, k);
    }
  }

  lemma Inside(rt: seq<Rule>, counts: seq<nat>, rnd: nat -> nat, nh: nat -> nat, size: nat)
    requires |counts| == DEPTHS && Generated(rt, counts, 33, rnd, nh, size)
    ensures Filled(counts, 33) <= |rt|
    ensures forall i: nat, k: nat | i <= 32 && AtDepth(counts, i, k) ::
              k < Filled(counts, 33)
              && rt[k] == Route(i, counts[i], k - Filled(counts, i), rnd(k), Hop(size, nh(k)))
  {
    hide Route, Hop;
    forall i: nat, k: nat | i <= 32 && AtDepth(counts, i, k) ensures k < Filled(counts, 33) {
      FilledNext(counts, i);
      FilledMono(counts, i + 1, 33);
    }
  }

  /** No prefix is in the table twice exactly if no depth has more routes than prefixes, whatever was drawn. */
  lemma RoutesDiffer(rt: seq<Rule>, counts: seq<nat>, rnd: nat -> nat, nh: nat -> nat, size: nat)
    requires |counts| == DEPTHS && Generated(rt, counts, 33, rnd, nh, size)
    ensures AllDifferent(rt, Filled(counts, 33)) <==> Roomy(counts)
  {
    hide Generated, Filled, Roomy, AllDifferent;
    if Roomy(counts) {
      RoomyDiffers(rt, counts, rnd, nh, size);
    }
    if AllDifferent(rt, Filled(counts, 33)) {
      DifferentIsRoomy(rt, counts, rnd, nh, size);
    }
  }

  lemma RoomyDiffers(rt: seq<Rule>, counts: seq<nat>, rnd: nat -> nat, nh: nat -> nat, size: nat)
    requires |counts| == DEPTHS && Generated(rt, counts, 33, rnd, nh, size) && Roomy(counts)
    ensures AllDifferent(rt, Filled(counts, 33))
  {
    hide Generated, Filled, Hop, MaxHop, IsPrefix, Route, Pow2;
    Inside(rt, counts, rnd, nh, size);
    forall a: nat, b: nat | a < b < Filled(counts, 33)
      ensures rt[a].depth != rt[b].depth || rt[a].addr != rt[b].addr
    {
      var i, j := EntryIs(rt, counts, rnd, nh, size, a);
      var i', j' := EntryIs(rt, counts, rnd, nh, size, b);
      if i == i' && i > 0 {
        RoutesAscend(i, counts[i], j, j', rnd(a), rnd(b), Hop(size, nh(a)), Hop(size, nh(b)));
      }
    }
  }

  lemma DifferentIsRoomy(rt: seq<Rule>, counts: seq<nat>, rnd: nat -> nat, nh: nat -> nat, size: nat)
    requires |counts| == DEPTHS && Generated(rt, counts, 33, rnd, nh, size)
    requires AllDifferent(rt, Filled(counts, 33))
    ensures Roomy(counts)
  {
    hide Generated, Filled, Pow2, AllDifferent;
    forall i: nat | 1 <= i <= 32 ensures counts[i] <= Pow2(i) {
      NoneTwice(rt, counts, rnd, nh, size, i);
    }
  }

  lemma NoneTwice(rt: seq<Rule>, counts: seq<nat>, rnd: nat -> nat, nh: nat -> nat, size: nat, i: nat)
    requires |counts| == DEPTHS && Generated(rt, counts, 33, rnd, nh, size) && 1 <= i <= 32
    requires AllDifferent(rt, Filled(counts, 33))
    ensures counts[i] <= Pow2(i)
  {
    hide Generated, Filled, Hop, Value, Pow2;
    Inside(rt, counts, rnd, nh, size);
    var start, n := Filled(counts, i), counts[i];
    var values: seq<nat> := seq(n, j requires 0 <= j < n => Value(i, n, j, rnd(start + j)) as nat);
    forall j: nat | j < n
      ensures start + j < Filled(counts, 33) && values[j] < Pow2(i)
      ensures rt[start + j].depth == i && rt[start + j].addr == values[j] * Pow2(32 - i)
    {
      assert AtDepth(counts, i, start + j);
      ValueFits(i, n, j, rnd(start + j));
    }
    forall j: nat, k: nat | j < k < n ensures values[j] != values[k] {
      var a, b := start + j, start + k;
      assert values[j] < Pow2(i) && values[k] < Pow2(i);
      assert rt[a].depth == rt[b].depth;
    }
    Pigeonholes(values, Pow2(i));
  }

  /** Of the default routes that were asked for, one is made. */
  lemma {:induction false} FilledIs(counts: seq<nat>, d: nat)
    requires 1 <= d <= |counts|
    ensures Filled(counts, d) + counts[0] == Sum(counts[..d]) + if counts[0] != 0 then 1 else 0
    decreases d
  {
    SumGrows(counts, d - 1);
    if d > 1 {
      FilledIs(counts, d - 1);
    } else {
      assert counts[..0] == [];
    }
  }

  /** The table is filled to the last entry exactly if no more than one default route was asked for. */
  lemma FillsTable(counts: seq<nat>, d: nat)
    requires 1 <= d <= |counts|
    ensures Filled(counts, d) <= Sum(counts[..d])
    ensures Filled(counts, d) == Sum(counts[..d]) <==> counts[0] <= 1
  {
    FilledIs(counts, d);
  }

  // ----- from the configuration to the table -----

  /** Default routes asked for beyond the one that is made. */
  function Surplus(n: nat, rpd: seq<nat>, nrpd: seq<nat>): nat
    requires Ratios(rpd, nrpd)
  {
    var asked := Configured(n, rpd, nrpd, 0);
    if asked > 1 then asked - 1 else 0
  }

  /**
   * How many entries the generator makes, as far as the configuration tells: the configured routes
   * without surplus default routes, and what the other depths can take of the routes that seem to be
   * left after a comparison in 32 bits.
   */
  function Entries(n: nat, rpd: seq<nat>, nrpd: seq<nat>): int
    requires Ratios(rpd, nrpd) && ConfiguredSum(n, rpd, nrpd, 33) % TWO32 <= n
  {
    var c := ConfiguredSum(n, rpd, nrpd, 33);
    c - Surplus(n, rpd, nrpd) + Min(n - c % TWO32, CapSum(rpd, 33))
  }

  lemma FirstDepth(n: nat, rpd: seq<nat>, nrpd: seq<nat>, counts: seq<nat>)
    requires n < TWO32 && Ratios(rpd, nrpd) && Distributed(32, n, rpd, nrpd, counts)
    ensures counts[0] - Surplus(n, rpd, nrpd) == if counts[0] != 0 then 1 else 0
    ensures counts[0] <= 1 <==> Configured(n, rpd, nrpd, 0) <= 1
    ensures forall i | 0 <= i < 33 && rpd[i] != 0 :: counts[i] == Configured(n, rpd, nrpd, i)
  {
    hide ConfiguredSum, FreeSum, FreeCount, CapSum, Share;
    if rpd[0] == 0 {
      assert SharedOut(rpd, counts, n - ConfiguredSum(n, rpd, nrpd, 33) % TWO32, FreeCount(rpd, 33), 0);
      assert Cap(0) == 1;
    }
  }

  /** The entries that are made, from the configuration alone. */
  lemma EntriesAre(n: nat, rpd: seq<nat>, nrpd: seq<nat>, counts: seq<nat>)
    requires n < TWO32 && Ratios(rpd, nrpd) && Distributed(32, n, rpd, nrpd, counts)
    ensures Filled(counts, 33) == Entries(n, rpd, nrpd)
  {
    FirstDepth(n, rpd, nrpd, counts);
    SumSplits(n, rpd, nrpd, counts, 33);
    FilledIs(counts, 33);
    hide Filled, Sum, ConfiguredSum, FreeSum, CapSum, SharedOut, Surplus, Configured;
  }

  lemma {:induction false} SumIncludes(n: nat, rpd: seq<nat>, nrpd: seq<nat>, d: nat)
    requires 1 <= d <= |rpd| == |nrpd|
    ensures ConfiguredSum(n, rpd, nrpd, d) >= Configured(n, rpd, nrpd, 0)
    decreases d
  {
    if d > 1 {
      SumIncludes(n, rpd, nrpd, d - 1);
    } else {
      assert ConfiguredSum(n, rpd, nrpd, 0) == 0;
    }
  }

  lemma AskedFor(n: nat, rpd: seq<nat>, nrpd: seq<nat>)
    requires n < TWO32 && Ratios(rpd, nrpd)
    ensures Configured(n, rpd, nrpd, 0) < TWO32
  {
  }

  /**
   * Without a wrap-around the entries fit, and are as many as the table has exactly if the depths that are
   * not configured can take the rest and no default route is asked for twice. With the deepest length
   * free, nothing but a wrap-around makes them too many.
   */
  lemma EntriesFit(n: nat, rpd: seq<nat>, nrpd: seq<nat>)
    requires n < TWO32 && Ratios(rpd, nrpd) && ConfiguredSum(n, rpd, nrpd, 33) % TWO32 <= n
    ensures ConfiguredSum(n, rpd, nrpd, 33) < TWO32 ==>
              && Entries(n, rpd, nrpd) <= n
              && (Entries(n, rpd, nrpd) == n <==>
                    ConfiguredSum(n, rpd, nrpd, 33) + CapSum(rpd, 33) >= n && Configured(n, rpd, nrpd, 0) <= 1)
    ensures rpd[32] == 0 ==> (Entries(n, rpd, nrpd) <= n <==> ConfiguredSum(n, rpd, nrpd, 33) < TWO32)
  {
    SumIncludes(n, rpd, nrpd, 33);
    AskedFor(n, rpd, nrpd);
    if rpd[32] == 0 {
      CapSumReaches(rpd, 32, 33);
      CapGrows(32);
    }
    hide ConfiguredSum, CapSum, Configured, Cap, Ratios;
    EntriesBound(n, ConfiguredSum(n, rpd, nrpd, 33), CapSum(rpd, 33), Configured(n, rpd, nrpd, 0));
  }

  lemma EntriesBound(n: nat, c: nat, caps: nat, asked: nat)
    requires c % TWO32 <= n < TWO32 && asked <= c && asked < TWO32
    ensures var e := c - (if asked > 1 then asked - 1 else 0) + Min(n - c % TWO32, caps);
            && (c < TWO32 ==> e <= n && (e == n <==> c + caps >= n && asked <= 1))
            && (caps >= TWO32 ==> (e <= n <==> c < TWO32))
  {
    var q, w := c / TWO32, c % TWO32;
    assert c == TWO32 * q + w;
    Wrapped(n, c, q, w, caps, asked);
  }

  lemma Wrapped(n: nat, c: nat, q: nat, w: nat, caps: nat, asked: nat)
    requires c == TWO32 * q + w && w < TWO32 && w <= n < TWO32 && asked <= c && asked < TWO32
    ensures var e := c - (if asked > 1 then asked - 1 else 0) + Min(n - w, caps);
            && (c < TWO32 ==> e <= n && (e == n <==> c + caps >= n && asked <= 1))
            && (caps >= TWO32 ==> (e <= n <==> c < TWO32))
  {
  }

  /**
   * From a distribution to the table, for any configuration: how many entries are made, whether they stay
   * inside the table, and whether they fill it, all stated of the configuration.
   */
  method FillTable(config: Config, rt: array<Rule>, rpd: seq<nat>, nrpd: seq<nat>, rnd: nat -> nat, nh: nat -> nat,
                   size: nat)
      returns (ok: bool, fits: bool, k: nat)
    requires config.nbRoutesPerDepth.Length == DEPTHS && rt.Length < TWO32 && Ratios(rpd, nrpd)
    modifies config.nbRoutesPerDepth, rt
    ensures ok <==> ConfiguredSum(rt.Length, rpd, nrpd, 33) % TWO32 <= rt.Length
    ensures !ok ==> rt[..] == old(rt[..])
    ensures ok ==> Distributed(32, rt.Length, rpd, nrpd, config.nbRoutesPerDepth[..])
    ensures ok ==> (fits <==> Entries(rt.Length, rpd, nrpd) <= rt.Length)
    ensures ok ==> Filled(config.nbRoutesPerDepth[..], 33) == Entries(rt.Length, rpd, nrpd)
    ensures ok && fits ==>
              && k == Entries(rt.Length, rpd, nrpd)
              && Generated(rt[..], config.nbRoutesPerDepth[..], 33, rnd, nh, size)
              && (AllDifferent(rt[..], k) <==> Roomy(config.nbRoutesPerDepth[..]))
    ensures ok && ConfiguredSum(rt.Length, rpd, nrpd, 33) < TWO32 ==>
              && fits
              && (k == rt.Length <==>
                    && ConfiguredSum(rt.Length, rpd, nrpd, 33) + CapSum(rpd, 33) >= rt.Length
                    && Configured(rt.Length, rpd, nrpd, 0) <= 1)
    ensures ok && rpd[32] == 0 ==> (fits <==> ConfiguredSum(rt.Length, rpd, nrpd, 33) < TWO32)
  {
    fits, k := false, 0;
    ok := config.CompleteDistrib(32, rt.Length, rpd, nrpd);
    if ok {
      EntriesAre(rt.Length, rpd, nrpd, config.nbRoutesPerDepth[..]);
      EntriesFit(rt.Length, rpd, nrpd);
      hide Distributed, Filled, Generated, ConfiguredSum, CapSum, Configured, Entries, Ratios, AllDifferent, Roomy;
      fits, k := GenRandomRt4(rt, config.nbRoutesPerDepth[..], rnd, nh, size);
      if fits {
        RoutesDiffer(rt[..], config.nbRoutesPerDepth[..], rnd, nh, size);
      }
    }
  }

  /** The default table: every entry is generated, none is left over, and no prefix is there twice. */
  method FillDefault(config: Config, rt: array<Rule>, rnd: nat -> nat, nh: nat -> nat, size: nat) returns (k: nat)
    requires config.nbRoutesPerDepth.Length == DEPTHS && rt.Length < TWO32
    modifies config.nbRoutesPerDepth, rt
    ensures k == rt.Length && Generated(rt[..], config.nbRoutesPerDepth[..], 33, rnd, nh, size)
    ensures Filled(config.nbRoutesPerDepth[..], 33) == rt.Length && AllDifferent(rt[..], rt.Length)
  {
    hide Filled, Generated, Sum, AllDifferent, Roomy, Alike;
    var ok := DefaultDistrib(config, 32, rt.Length);
    ghost var counts := config.nbRoutesPerDepth[..];
    assert counts[..33] == config.nbRoutesPerDepth[..33];
    CapsAreRoomy(counts);
    FillsTable(counts, 33);
    var fits;
    fits, k := GenRandomRt4(rt, config.nbRoutesPerDepth[..], rnd, nh, size);
    RoutesDiffer(rt[..], counts, rnd, nh, size);
  }

  lemma CapsAreRoomy(counts: seq<nat>)
    requires |counts| == DEPTHS && Alike(counts, 32)
    ensures Roomy(counts) && counts[0] <= 1
  {
    assert Pow2(0) == 1;
  }

  // ----- some configurations -----

  /** Numbers of routes for the first depths, and none for the others. */
  function FirstDepths(xs: seq<nat>): seq<nat>
    requires |xs| <= DEPTHS
  {
    seq(DEPTHS, d requires 0 <= d < DEPTHS => if d < |xs| then xs[d] else 0)
  }

  function FirstFixed(n: nat): seq<nat> {
    seq(DEPTHS, d => if d < n then UINT8_MAX else 0)
  }

  lemma {:induction false} FirstSum(n: nat, xs: seq<nat>, d: nat)
    requires |xs| <= d <= DEPTHS
    ensures ConfiguredSum(n, FirstFixed(|xs|), FirstDepths(xs), d) == Sum(xs)
    decreases d
  {
    if d > |xs| {
      FirstSum(n, xs, d - 1);
    } else {
      FirstSumUpTo(n, xs, d);
      assert xs[..d] == xs;
    }
  }

  lemma {:induction false} FirstSumUpTo(n: nat, xs: seq<nat>, d: nat)
    requires d <= |xs| <= DEPTHS
    ensures ConfiguredSum(n, FirstFixed(|xs|), FirstDepths(xs), d) == Sum(xs[..d])
    decreases d
  {
    if d > 0 {
      FirstSumUpTo(n, xs, d - 1);
      SumGrows(xs, d - 1);
    } else {
      assert xs[..0] == [];
    }
  }

  lemma SumOfTwo(a: nat, b: nat)
    ensures Sum([a, b]) == a + b && Sum([a]) == a
  {
    var two, one: seq<nat> := [a, b], [a];
    assert two[..1] == one && one[..0] == [];
    assert Sum(two) == Sum(two[..1]) + b && Sum(one) == Sum(one[..0]) + a;
  }

  lemma WrappingSum()
    ensures ConfiguredSum(1000, FirstFixed(2), FirstDepths([4294967295, 2]), 33) == TWO32 + 1
    ensures Ratios(FirstFixed(2), FirstDepths([4294967295, 2]))
  {
    var xs: seq<nat> := [4294967295, 2];
    SumOfTwo(4294967295, 2);
    FirstSum(1000, xs, 33);
  }

  /** 4294967295 routes of depth 0 and 2 of depth 1 are accepted as part of 1000: their sum wraps around to 1. */
  method AcceptsWrappedSum(config: Config) returns (ok: bool)
    requires config.nbRoutesPerDepth.Length == DEPTHS
    modifies config.nbRoutesPerDepth
    ensures ok && Sum(config.nbRoutesPerDepth[..33]) > 1000
  {
    WrappingSum();
    hide ConfiguredSum, Sum, FreeSum, CapSum, SharedOut, Ratios;
    ok := config.CompleteDistrib(32, 1000, FirstFixed(2), FirstDepths([4294967295, 2]));
    AtMostN(32, 1000, FirstFixed(2), FirstDepths([4294967295, 2]), config.nbRoutesPerDepth[..]);
    assert config.nbRoutesPerDepth[..][..33] == config.nbRoutesPerDepth[..33];
  }

  /** ... and the generator then goes past the end of the table of 1000 entries. */
  method RunsPastTable(config: Config, rt: array<Rule>, rnd: nat -> nat, nh: nat -> nat, size: nat)
      returns (ok: bool, fits: bool)
    requires config.nbRoutesPerDepth.Length == DEPTHS && rt.Length == 1000
    modifies config.nbRoutesPerDepth, rt
    ensures ok && !fits && Filled(config.nbRoutesPerDepth[..], 33) > 1000
  {
    WrappingSum();
    hide ConfiguredSum, CapSum, Configured, Entries, Distributed, Generated, Filled, Ratios;
    var k;
    ok, fits, k := FillTable(config, rt, FirstFixed(2), FirstDepths([4294967295, 2]), rnd, nh, size);
  }

  lemma {:induction false} NoneFree(n: nat, d: nat)
    requires d <= 33
    ensures CapSum(FirstFixed(33), d) == 0 && ConfiguredSum(n, FirstFixed(33), FirstDepths([]), d) == 0
    decreases d
  {
    if d > 0 {
      NoneFree(n, d - 1);
    }
  }

  lemma AllFixed()
    ensures Ratios(FirstFixed(33), FirstDepths([])) && Configured(1000, FirstFixed(33), FirstDepths([]), 0) == 0
  {
  }

  /** All depths configured, with no routes: accepted, and none of the 1000 entries is made. */
  method LeavesAllUnfilled(config: Config, rt: array<Rule>, rnd: nat -> nat, nh: nat -> nat, size: nat)
      returns (ok: bool, fits: bool, k: nat)
    requires config.nbRoutesPerDepth.Length == DEPTHS && rt.Length == 1000
    modifies config.nbRoutesPerDepth, rt
    ensures ok && fits && k == 0
  {
    NoneFree(1000, 33);
    AllFixed();
    hide ConfiguredSum, CapSum, Configured, Distributed, Generated, Filled, Ratios;
    ok, fits, k := FillTable(config, rt, FirstFixed(33), FirstDepths([]), rnd, nh, size);
  }

  /** Two default routes asked for among 1000: 1000 are counted, 999 are made. */
  method LeavesOneUnfilled(config: Config) returns (ok: bool)
    requires config.nbRoutesPerDepth.Length == DEPTHS
    modifies config.nbRoutesPerDepth
    ensures ok && config.nbRoutesPerDepth[0] == 2
    ensures Sum(config.nbRoutesPerDepth[..33]) == 1000 && Filled(config.nbRoutesPerDepth[..], 33) == 999
  {
    var xs: seq<nat> := [2];
    SumOfTwo(2, 0);
    FirstSum(1000, xs, 33);
    hide ConfiguredSum, Sum, FreeSum, SharedOut, Filled;
    ok := config.CompleteDistrib(32, 1000, FirstFixed(1), FirstDepths(xs));
    ghost var counts := config.nbRoutesPerDepth[..];
    assert counts[0] == Configured(1000, FirstFixed(1), FirstDepths(xs), 0);
    SumSplits(1000, FirstFixed(1), FirstDepths(xs), counts, 33);
    FilledIs(counts, 33);
    assert counts[..33] == config.nbRoutesPerDepth[..33];
  }

  // ----- batches -----

  /** With `k` batches to go, `left` routes are between `q` and `q + 1` a batch. */
  ghost predicate Even(left: nat, k: nat, q: nat) {
    q * k <= left <= (q + 1) * k
  }

  lemma Products(q: int, k: int)
    ensures k * q == q * k && (q + 1) * k == q * k + k && k * (q + 1) == q * k + k
    ensures q * (k - 1) == q * k - q && (q + 1) * (k - 1) == q * k + k - q - 1
  {
  }

  /** A batch has `q` or `q + 1` routes. */
  lemma BatchSize(left: nat, k: nat, q: nat) returns (r: nat)
    requires k >= 1 && Even(left, k, q)
    ensures r < k && (Share(left, k) == q || Share(left, k) == q + 1)
    ensures Share(left, k) == q ==> left == q * k + r
    ensures Share(left, k) == q + 1 ==> left == q * k + k + r
  {
    var s;
    s, r := Divided(left, k);
    hide Share;
    Products(q, k);
    Products(q + 1, k);
    Products(s, k);
    if s < q {
      MulMono(k, s + 1, q);
    } else if s > q + 1 {
      MulMono(k, q + 2, s);
    }
  }

  lemma EvenStep(left: nat, k: nat, q: nat)
    requires k >= 1 && Even(left, k, q)
    ensures q <= Share(left, k) <= q + 1 && Even(left - Share(left, k), k - 1, q)
  {
    hide Share;
    var r := BatchSize(left, k, q);
    Products(q, k);
  }

  /** How a batch loop ends. */
  datatype Ending = Done | Refused | DividedByZero

  /**
   * The batch loop in which routes are added to or deleted from a table, and the average time of each
   * batch is printed: it divides by the size of the batch. `accepts` says whether the table takes the
   * route with a number; deleting never looks at that.
   */
  method InBatches(rt: seq<Rule>, fract: nat, accepts: nat -> bool)
      returns (end: Ending, visited: seq<Rule>, sizes: seq<nat>)
    requires fract >= 1
    ensures end.DividedByZero? <==> |rt| < fract
    ensures end.DividedByZero? ==> visited == []
    ensures end.Done? <==> |rt| >= fract && forall i: nat | i < |rt| :: accepts(i)
    ensures end.Done? ==> visited == rt && |sizes| == fract
    ensures end.Done? ==> forall a, b | 0 <= a < fract && 0 <= b < fract :: 1 <= sizes[a] <= sizes[b] + 1
    ensures end.Refused? ==> visited < rt && !accepts(|visited|) && forall i: nat | i < |visited| :: accepts(i)
  {
    visited, sizes := [], [];
    var i: nat, k := 0, fract;
    ghost var q := Share(|rt|, fract);
    QuotientIs(|rt|, fract);
    hide Even, Share;
    while k > 0
      invariant k <= fract && i <= |rt| && visited == rt[..i] && |sizes| == fract - k
      invariant Even(|rt| - i, k, q) && (q >= 1 <==> |rt| >= fract)
      invariant if k < fract then q >= 1 else i == 0
      invariant forall a | 0 <= a < |sizes| :: q <= sizes[a] <= q + 1
      invariant forall a: nat | a < i :: accepts(a)
    {
      EvenStep(|rt| - i, k, q);
      var batch := Share(|rt| - i, k);
      var j, refused := OneBatch(rt, i, batch, accepts);
      visited := visited + rt[i..i + j];
      if refused {
        return Refused, visited, sizes;
      }
      if j == 0 {
        QuotientIs(|rt|, fract);
        return DividedByZero, visited, sizes;
      }
      sizes, i, k := sizes + [j], i + j, k - 1;
    }
    NoneLeft(|rt| - i, q);
    assert rt[..|rt|] == rt;
    end := Done;
  }

  /** Five routes in ten batches: the first batch is empty, and its average is a division by zero. */
  method FiveInTen(rt: seq<Rule>, accepts: nat -> bool) returns (end: Ending)
    requires |rt| == 5
    ensures end == DividedByZero
  {
    var visited, sizes;
    end, visited, sizes := InBatches(rt, 10, accepts);
  }

  /** One batch: how many routes were taken, and whether the next one was refused. */
  method OneBatch(rt: seq<Rule>, i: nat, batch: nat, accepts: nat -> bool) returns (j: nat, refused: bool)
    requires i + batch <= |rt|
    ensures j <= batch && forall a: nat | i <= a < i + j :: accepts(a)
    ensures if refused then j < batch && !accepts(i + j) else j == batch
  {
    j, refused := 0, false;
    while j < batch && !refused
      invariant j <= batch && forall a: nat | i <= a < i + j :: accepts(a)
      invariant refused ==> j < batch && !accepts(i + j)
      decreases batch - j, !refused
    {
      if accepts(i + j) {
        j := j + 1;
      } else {
        refused := true;
      }
    }
  }

  lemma Divided(n: nat, k: nat) returns (q: nat, r: nat)
    requires k >= 1
    ensures q == Share(n, k) && n == k * q + r && r < k
  {
    q, r := n / k, n % k;
  }

  lemma QuotientIs(n: nat, fract: nat)
    requires fract >= 1
    ensures Even(n, fract, Share(n, fract)) && (Share(n, fract) >= 1 <==> n >= fract)
  {
    var q, r := Divided(n, fract);
    hide Share;
    Products(q, fract);
    if q >= 1 {
      MulMono(fract, 1, q);
    } else {
      assert fract * q == 0;
    }
  }

  lemma NoneLeft(left: nat, q: nat)
    requires Even(left, 0, q)
    ensures left == 0
  {
  }
}
