/** Distribution of the forwarding streams, one for each port and queue, over the worker cores. */
module Streams {
  import Bits

  const RTE_MAX_LCORE: nat := 128
  const MAX_STREAMS: nat := 64

  /** The same port and queue are used to receive and to send. */
  datatype Stream = Unused | Stream(port: nat, queue: nat)
  datatype Mode = Idle | Stats | Packets

  // ----- quotas -----

  /** How many streams the `i`-th worker may take. */
  function Quota(total: nat, workers: nat, i: nat): nat
    requires workers > 0
  {
    if workers >= total then 1 else total / workers + if i < total % workers then 1 else 0
  }

  /** How many streams the workers in front of the `i`-th one may take together. */
  function Start(total: nat, workers: nat, i: nat): nat
    requires workers > 0
  {
    if i == 0 then 0 else Start(total, workers, i - 1) + Quota(total, workers, i - 1)
  }

  lemma {:induction false} StartIs(total: nat, workers: nat, i: nat, per: nat, rem: nat)
    requires workers > 0 && per == total / workers && rem == total % workers
    ensures Start(total, workers, i) == if workers >= total then i else i * per + if i < rem then i else rem
    decreases i
  {
    if i > 0 {
      StartIs(total, workers, i - 1, per, rem);
      assert Quota(total, workers, i - 1) == if workers >= total then 1 else per + if i - 1 < rem then 1 else 0;
      hide Quota;
      Distribute(i - 1, per);
    }
  }

  lemma Distribute(i: nat, per: nat)
    ensures (i + 1) * per == i * per + per
  {
  }

  /** The quotas are enough, and exactly enough if no worker stays without a stream. */
  lemma QuotasSuffice(total: nat, workers: nat)
    requires workers > 0
    ensures Start(total, workers, workers) == if workers >= total then workers else total
  {
    var per, rem := total / workers, total % workers;
    StartIs(total, workers, workers, per, rem);
    assert total == workers * per + rem;
  }

  lemma {:induction false} StartMono(total: nat, workers: nat, i: nat, j: nat)
    requires workers > 0 && i <= j
    ensures Start(total, workers, i) <= Start(total, workers, j)
    ensures i < j ==> Start(total, workers, i) + Quota(total, workers, i) <= Start(total, workers, j)
    decreases j
  {
    if i < j {
      StartMono(total, workers, i, j - 1);
    }
  }

  /** Worker `i` has slot `k` for the stream with number `s`. */
  ghost predicate HomeOf(total: nat, workers: nat, s: nat, i: nat, k: nat) {
    workers > 0 && i < workers && k < Quota(total, workers, i) && s == Start(total, workers, i) + k
  }

  lemma {:induction false} HomeExists(total: nat, workers: nat, s: nat, n: nat) returns (i: nat, k: nat)
    requires workers > 0 && n <= workers && s < Start(total, workers, n)
    ensures HomeOf(total, workers, s, i, k) && i < n
    decreases n
  {
    if s < Start(total, workers, n - 1) {
      i, k := HomeExists(total, workers, s, n - 1);
    } else {
      i, k := n - 1, s - Start(total, workers, n - 1);
    }
  }

  /** Every stream has one home. */
  lemma HomeUnique(total: nat, workers: nat, s: nat, i: nat, k: nat, i': nat, k': nat)
    requires HomeOf(total, workers, s, i, k) && HomeOf(total, workers, s, i', k')
    ensures i == i' && k == k'
  {
    if i < i' {
      StartMono(total, workers, i, i');
    } else if i' < i {
      StartMono(total, workers, i', i);
    }
  }

  lemma HomeNumber(total: nat, workers: nat, s: nat, s': nat, i: nat, k: nat, i': nat, k': nat)
    requires HomeOf(total, workers, s, i, k) && HomeOf(total, workers, s', i', k')
    ensures s == s' <==> i == i' && k == k'
  {
    if s == s' {
      HomeUnique(total, workers, s, i, k, i', k');
    }
  }

  lemma HomesAscend(total: nat, workers: nat, s: nat, s': nat, i: nat, k: nat, i': nat, k': nat)
    requires HomeOf(total, workers, s, i, k) && HomeOf(total, workers, s', i', k')
    ensures s < s' <==> i < i' || (i == i' && k < k')
  {
    if i < i' {
      StartMono(total, workers, i, i');
    } else if i' < i {
      StartMono(total, workers, i', i);
    }
  }

  /** How many of the streams a worker gets. */
  ghost function Load(total: nat, workers: nat, i: nat): nat
    requires workers > 0
  {
    var start, quota := Start(total, workers, i), Quota(total, workers, i);
    if total <= start then 0 else if total - start < quota then total - start else quota
  }

  /** No quota is empty. */
  lemma QuotaPositive(total: nat, workers: nat, i: nat)
    requires workers > 0
    ensures Quota(total, workers, i) >= 1
  {
    assert total == workers * (total / workers) + total % workers;
    assert total / workers == 0 ==> workers * (total / workers) == 0;
  }

  lemma {:induction false} StartFlat(total: nat, workers: nat, i: nat)
    requires workers > 0 && workers >= total
    ensures Start(total, workers, i) == i
    decreases i
  {
    if i > 0 {
      StartFlat(total, workers, i - 1);
    }
  }

  lemma LoadIs(total: nat, workers: nat, i: nat)
    requires workers > 0 && i < workers
    ensures Load(total, workers, i) == if workers >= total && i >= total then 0 else Quota(total, workers, i)
  {
    hide Quota;
    QuotasSuffice(total, workers);
    StartMono(total, workers, i, workers);
    if workers >= total {
      StartFlat(total, workers, i);
      StartFlat(total, workers, i + 1);
    }
  }

  lemma LoadSlots(total: nat, workers: nat, i: nat, k: nat)
    requires workers > 0 && i < workers
    ensures k < Load(total, workers, i) <==>
              Start(total, workers, i) + k < total && HomeOf(total, workers, Start(total, workers, i) + k, i, k)
    ensures forall n | HomeOf(total, workers, n, i, k) :: n == Start(total, workers, i) + k
  {
  }

  /**
   * Any two workers differ by at most one stream, and the first ones have more; with at least as many streams as
   * workers, none stays idle.
   */
  lemma Balanced(total: nat, workers: nat, i: nat, j: nat)
    requires workers > 0 && i < workers && j < workers
    ensures Load(total, workers, i) <= Load(total, workers, j) + 1
    ensures i <= j ==> Load(total, workers, i) >= Load(total, workers, j)
    ensures total >= workers ==> Load(total, workers, i) >= 1
  {
    LoadIs(total, workers, i);
    LoadIs(total, workers, j);
    QuotaPositive(total, workers, i);
    hide Load, Start;
  }

  // ----- the table -----

  ghost predicate Ascending(ids: seq<nat>) {
    forall a, b | 0 <= a < b < |ids| :: ids[a] < ids[b]
  }

  class LcoreInfos {
    /** Ids of the cores in use, as `rte_get_next_lcore` goes through them. */
    const lcores: seq<nat>
    const mode: array<Mode>
    const streamsNb: array<nat>
    const streams: array2<Stream>

    constructor (lcores: seq<nat>)
      ensures this.lcores == lcores
      ensures fresh(mode) && fresh(streamsNb) && fresh(streams)
      ensures mode.Length == streamsNb.Length == streams.Length0 == RTE_MAX_LCORE && streams.Length1 == MAX_STREAMS
    {
      this.lcores := lcores;
      mode := new Mode[RTE_MAX_LCORE](_ => Idle);
      streamsNb := new nat[RTE_MAX_LCORE];
      streams := new Stream[RTE_MAX_LCORE, MAX_STREAMS];
    }

    function Workers(): nat
      requires |lcores| >= 1
    {
      |lcores| - 1
    }

    ghost predicate Valid() {
      && mode.Length == streamsNb.Length == streams.Length0 == RTE_MAX_LCORE && streams.Length1 == MAX_STREAMS
      && |lcores| >= 2 && Ascending(lcores) && (forall a | 0 <= a < |lcores| :: lcores[a] < RTE_MAX_LCORE)
    }

    ghost function Worker(i: nat): nat
      requires i + 1 < |lcores|
    {
      lcores[i + 1]
    }

    /** The quotas are set. */
    ghost predicate Sized(total: nat)
      requires Valid()
      reads streamsNb
    {
      && streamsNb[lcores[0]] == 0
      && forall i: nat | i + 1 < |lcores| :: streamsNb[Worker(i)] == Quota(total, Workers(), i)
    }

    /** Slot `k` of core `c` is the home of the stream, which is one of the first `n`. */
    ghost predicate Houses(total: nat, queues: nat, n: nat, c: nat, k: nat, s: Stream)
      requires Valid()
    {
      && s != Unused && s.queue < queues && Number(s, queues) < n
      && exists i :: Owns(total, Number(s, queues), c, k, i)
    }

    ghost predicate Owns(total: nat, n: nat, c: nat, k: nat, i: nat)
      requires Valid()
    {
      i + 1 < |lcores| && c == Worker(i) && HomeOf(total, Workers(), n, i, k)
    }

    /** The streams with numbers below `n` are in their homes, and nothing else is in the table. */
    ghost predicate Placed(total: nat, queues: nat, n: nat)
      requires Valid()
      reads streams
    {
      && (forall c: nat, k: nat, s | Houses(total, queues, n, c, k, s) && c < RTE_MAX_LCORE && k < MAX_STREAMS ::
           streams[c, k] == s)
      && (forall c: nat, k: nat | c < RTE_MAX_LCORE && k < MAX_STREAMS && streams[c, k] != Unused ::
            Houses(total, queues, n, c, k, streams[c, k]))
    }

    /** All cores without streams. */
    method Clear()
      requires Valid()
      modifies streams, streamsNb
      ensures forall c, k | 0 <= c < RTE_MAX_LCORE && 0 <= k < MAX_STREAMS :: streams[c, k] == Unused
      ensures forall c | 0 <= c < RTE_MAX_LCORE :: streamsNb[c] == 0
    {
      for c := 0 to RTE_MAX_LCORE
        invariant forall c', k | 0 <= c' < c && 0 <= k < MAX_STREAMS :: streams[c', k] == Unused
        invariant forall c' | 0 <= c' < c :: streamsNb[c'] == 0
      {
        for k := 0 to MAX_STREAMS
          invariant forall c', k' | 0 <= c' < c && 0 <= k' < MAX_STREAMS :: streams[c', k'] == Unused
          invariant forall k' | 0 <= k' < k :: streams[c, k'] == Unused
          invariant forall c' | 0 <= c' < c :: streamsNb[c'] == 0
          invariant k > 0 ==> streamsNb[c] == 0
        {
          streams[c, k] := Unused;
          streamsNb[c] := 0;
        }
      }
    }

    /** The quotas, the first cores getting one more while there is a remainder. */
    method Size(total: nat)
      requires Valid() && (forall c | 0 <= c < RTE_MAX_LCORE :: streamsNb[c] == 0)
      modifies streamsNb
      ensures Sized(total)
    {
      var workers := Workers();
      var unassigned := total % workers;
      for i := 0 to workers
        invariant workers < total ==> unassigned == if i < total % workers then total % workers - i else 0
        invariant streamsNb[lcores[0]] == 0
        invariant forall j: nat | j < i :: streamsNb[Worker(j)] == Quota(total, workers, j)
      {
        assert forall j: nat | j < i :: Worker(j) != Worker(i);
        if workers >= total {
          streamsNb[lcores[i + 1]] := 1;
        } else {
          streamsNb[lcores[i + 1]] := total / workers;
          if unassigned > 0 {
            streamsNb[lcores[i + 1]] := streamsNb[lcores[i + 1]] + 1;
            unassigned := unassigned - 1;
          }
        }
      }
    }

    lemma OwnsUnique(total: nat, n: nat, n': nat, c: nat, k: nat, i: nat, c': nat, k': nat, i': nat)
      requires Valid() && Owns(total, n, c, k, i) && Owns(total, n', c', k', i')
      ensures n == n' <==> c == c' && k == k'
    {
      HomeNumber(total, Workers(), n, n', i, k, i', k');
    }

    lemma HousesGrows(total: nat, queues: nat, n: nat, i: nat, k: nat, s: Stream, c: nat, k': nat, s': Stream)
      requires Valid() && s != Unused && s.queue < queues && Number(s, queues) == n
      requires i + 1 < |lcores| && Owns(total, n, Worker(i), k, i)
      ensures Houses(total, queues, n + 1, c, k', s') <==>
                Houses(total, queues, n, c, k', s') || (c == Worker(i) && k' == k && s' == s)
      ensures Houses(total, queues, n, c, k', s') ==> c != Worker(i) || k' != k
    {
      hide Owns, HomeOf;
      if Houses(total, queues, n + 1, c, k', s') {
        var i' :| Owns(total, Number(s', queues), c, k', i');
        OwnsUnique(total, n, Number(s', queues), Worker(i), k, i, c, k', i');
        if Number(s', queues) == n {
          NumberUnique(s, s', queues);
        }
      }
    }

    method Place(total: nat, queues: nat, ghost n: nat, ghost i: nat, c: nat, k: nat, port: nat, queue: nat)
      requires Valid() && Placed(total, queues, n) && queue < queues && port * queues + queue == n
      requires i + 1 < |lcores| && c == Worker(i) && k < MAX_STREAMS && HomeOf(total, Workers(), n, i, k)
      modifies streams
      ensures Placed(total, queues, n + 1)
    {
      hide Houses, HomeOf;
      ghost var s, m := Stream(port, queue), n + 1;
      streams[c, k] := Stream(port, queue);
      forall c': nat, k': nat, s' | Houses(total, queues, m, c', k', s') && c' < RTE_MAX_LCORE && k' < MAX_STREAMS
        ensures streams[c', k'] == s'
      {
        HousesGrows(total, queues, n, i, k, s, c', k', s');
      }
      forall c': nat, k': nat | c' < RTE_MAX_LCORE && k' < MAX_STREAMS && streams[c', k'] != Unused
        ensures Houses(total, queues, m, c', k', streams[c', k'])
      {
        HousesGrows(total, queues, n, i, k, s, c', k', streams[c', k']);
      }
    }

    /** The next stream: to the next core if the current one has its quota, or past the end of the core's row. */
    method PlaceNext(total: nat, queues: nat, cursor: nat, streamId: nat, port: nat, queue: nat, ghost n: nat,
                     ghost before: seq<Mode>)
        returns (fits: bool, cursor': nat, streamId': nat)
      requires Valid() && Sized(total) && queue < queues && port * queues + queue == n < total
      requires Placed(total, queues, n) && At(total, n, cursor, streamId)
      requires |before| == RTE_MAX_LCORE && Modes(before, cursor) && InRows(total, n)
      modifies streams, mode
      ensures fits <==> InRows(total, n + 1)
      ensures fits ==> Placed(total, queues, n + 1) && At(total, n + 1, cursor', streamId') && Modes(before, cursor')
    {
      hide Placed, HomeOf, Quota, Start, InRows;
      cursor', streamId' := cursor, streamId;
      var nb := streamsNb[lcores[cursor]];
      NextHome(total, n, cursor, streamId);
      if nb == 0 || streamId % nb == 0 {
        cursor' := cursor + 1;
        mode[lcores[cursor']] := Packets;
        streamId' := 0;
      }
      RowsGrow(total, n, cursor' - 1, streamId');
      fits := streamId' < MAX_STREAMS;
      if fits {
        Place(total, queues, n, cursor' - 1, lcores[cursor'], streamId', port, queue);
        streamId' := streamId' + 1;
      }
    }

    /** The streams with numbers below `n` have their homes inside the rows of the table. */
    ghost predicate InRows(total: nat, n: nat)
      requires Valid()
    {
      forall i, k: nat :: k >= MAX_STREAMS ==> !HomeBelow(total, n, i, k)
    }

    ghost predicate HomeBelow(total: nat, n: nat, i: nat, k: nat)
      requires Valid()
    {
      HomeOf(total, Workers(), Start(total, Workers(), i) + k, i, k) && Start(total, Workers(), i) + k < n
    }

    lemma RowsGrow(total: nat, n: nat, i: nat, k: nat)
      requires Valid() && InRows(total, n) && HomeOf(total, Workers(), n, i, k)
      ensures InRows(total, n + 1) <==> k < MAX_STREAMS
    {
      var m := n + 1;
      if k >= MAX_STREAMS {
        assert HomeBelow(total, m, i, k);
      } else {
        forall i': nat, k': nat | k' >= MAX_STREAMS ensures !HomeBelow(total, m, i', k') {
          assert !HomeBelow(total, n, i', k');
          if HomeBelow(total, m, i', k') {
            HomeUnique(total, Workers(), n, i, k, i', k');
          }
        }
      }
    }

    lemma RowsMono(total: nat, n: nat, m: nat)
      requires Valid() && n <= m
      ensures InRows(total, m) ==> InRows(total, n)
    {
      if InRows(total, m) {
        forall i: nat, k: nat | k >= MAX_STREAMS ensures !HomeBelow(total, n, i, k) {
          assert !HomeBelow(total, m, i, k);
        }
      }
    }

    lemma NoRows(total: nat)
      requires Valid()
      ensures InRows(total, 0)
    {
    }

    /** All streams are inside the rows exactly if no quota is longer than a row. */
    lemma RowsAreQuotas(total: nat)
      requires Valid()
      ensures InRows(total, total) <==> forall i: nat | i + 1 < |lcores| :: Quota(total, Workers(), i) <= MAX_STREAMS
    {
      if InRows(total, total) {
        forall i: nat | i + 1 < |lcores| ensures Quota(total, Workers(), i) <= MAX_STREAMS {
          if Quota(total, Workers(), i) > MAX_STREAMS {
            LoadIs(total, Workers(), i);
            LoadSlots(total, Workers(), i, MAX_STREAMS);
            assert HomeBelow(total, total, i, MAX_STREAMS);
          }
        }
      }
    }

    method PlacePort(total: nat, queues: nat, cursor: nat, streamId: nat, port: nat, ghost n: nat,
                     ghost before: seq<Mode>)
        returns (fits: bool, cursor': nat, streamId': nat)
      requires Valid() && Sized(total) && port * queues == n && n + queues <= total
      requires Placed(total, queues, n) && At(total, n, cursor, streamId)
      requires |before| == RTE_MAX_LCORE && Modes(before, cursor) && InRows(total, n)
      modifies streams, mode
      ensures fits <==> InRows(total, n + queues)
      ensures fits ==>
                Placed(total, queues, n + queues) && At(total, n + queues, cursor', streamId') && Modes(before, cursor')
    {
      hide Placed, Sized, At, Modes, InRows;
      fits, cursor', streamId' := true, cursor, streamId;
      for queue: nat := 0 to queues
        invariant fits && Sized(total) && InRows(total, n + queue)
        invariant Placed(total, queues, n + queue) && At(total, n + queue, cursor', streamId') && Modes(before, cursor')
      {
        fits, cursor', streamId' := PlaceNext(total, queues, cursor', streamId', port, queue, n + queue, before);
        if !fits {
          RowsMono(total, n + queue + 1, n + queues);
          return;
        }
      }
    }

    /** Everything in front of the placing of the streams. */
    method Prepare(total: nat, ghost queues: nat)
      requires Valid()
      modifies mode, streams, streamsNb
      ensures Sized(total) && Placed(total, queues, 0) && At(total, 0, 0, 0) && Modes(old(mode[..]), 0)
    {
      mode[lcores[0]] := Stats;
      Clear();
      Size(total);
      NonePlaced(total, queues);
    }

    /**
     * The whole initialisation. It stays inside the table exactly if no worker has more streams than a
     * row of the table; then each stream ends up in one slot of one core, no core gets more than its
     * quota, and the cursor never leaves the list of cores. Otherwise it stops here at the first stream
     * that the program writes past the end of a row.
     */
    method InitLcoreInfo(nrPort: nat, queues: nat) returns (fits: bool)
      requires Valid()
      modifies mode, streams, streamsNb
      ensures fits <==> forall i: nat | i + 1 < |lcores| :: Quota(nrPort * queues, Workers(), i) <= MAX_STREAMS
      ensures Sized(nrPort * queues)
      ensures fits ==> Placed(nrPort * queues, queues, nrPort * queues) && mode[lcores[0]] == Stats
      ensures fits ==> forall i: nat | i + 1 < |lcores| ::
                         mode[Worker(i)] ==
                         if Load(nrPort * queues, Workers(), i) > 0 then Packets else old(mode[Worker(i)])
      ensures fits ==> forall c | 0 <= c < RTE_MAX_LCORE && c !in lcores :: mode[c] == old(mode[c])
    {
      hide Placed, Sized, At, Modes, Quota, Load, InRows;
      var total := nrPort * queues;
      var cursor, streamId: nat := 0, 0;
      ghost var before := mode[..];
      fits := true;
      Prepare(total, queues);
      NoRows(total);
      RowsAreQuotas(total);
      ghost var n: nat := 0;
      for port: nat := 0 to nrPort
        invariant n == port * queues && fits
        invariant Sized(total) && Placed(total, queues, n) && At(total, n, cursor, streamId)
        invariant Modes(before, cursor) && InRows(total, n)
      {
        NextPort(port, nrPort, queues);
        fits, cursor, streamId := PlacePort(total, queues, cursor, streamId, port, n, before);
        n := n + queues;
        if !fits {
          RowsMono(total, n, total);
          return;
        }
      }
      FinalModes(total, cursor, streamId, before);
    }

    lemma FinalModes(total: nat, cursor: nat, streamId: nat, before: seq<Mode>)
      requires Valid() && At(total, total, cursor, streamId) && |before| == RTE_MAX_LCORE && Modes(before, cursor)
      ensures mode[lcores[0]] == Stats
      ensures forall c | 0 <= c < RTE_MAX_LCORE && c !in lcores :: mode[c] == before[c]
      ensures forall i: nat | i + 1 < |lcores| ::
                mode[Worker(i)] == if Load(total, Workers(), i) > 0 then Packets else before[Worker(i)]
    {
      forall i: nat | i + 1 < |lcores|
        ensures mode[Worker(i)] == if Load(total, Workers(), i) > 0 then Packets else before[Worker(i)]
      {
        CursorLoads(total, cursor, streamId, i);
      }
    }

    lemma NextPort(port: nat, nrPort: nat, queues: nat)
      requires port < nrPort
      ensures port * queues + queues == (port + 1) * queues <= nrPort * queues
    {
      Bits.MulMono(queues, port + 1, nrPort);
    }

    /** In the finished table each stream is in exactly one slot of one core, and in no other stream's place. */
    lemma EachStreamOnce(nrPort: nat, queues: nat, port: nat, queue: nat) returns (c: nat, k: nat)
      requires Valid() && Placed(nrPort * queues, queues, nrPort * queues) && port < nrPort && queue < queues
      requires forall i: nat | i + 1 < |lcores| :: Quota(nrPort * queues, Workers(), i) <= MAX_STREAMS
      ensures c < RTE_MAX_LCORE && k < MAX_STREAMS && c in lcores[1..]
      ensures forall c', k' | 0 <= c' < RTE_MAX_LCORE && 0 <= k' < MAX_STREAMS ::
                streams[c', k'] == Stream(port, queue) <==> c' == c && k' == k
    {
      var total, s := nrPort * queues, Stream(port, queue);
      Bits.MulMono(queues, port + 1, nrPort);
      var n := Number(s, queues);
      assert n < total;
      QuotasSuffice(total, Workers());
      var i;
      i, k := HomeExists(total, Workers(), n, Workers());
      c := Worker(i);
      assert Owns(total, n, c, k, i) && Houses(total, queues, total, c, k, s);
      assert c == lcores[1..][i];
      forall c': nat, k': nat | c' < RTE_MAX_LCORE && k' < MAX_STREAMS && streams[c', k'] == s
        ensures c' == c && k' == k
      {
        assert Houses(total, queues, total, c', k', s);
        var i' :| Owns(total, n, c', k', i');
        OwnsUnique(total, n, n, c, k, i, c', k', i');
      }
    }

    /** ... and the slots a worker uses are the first ones, as many as its load. */
    lemma UsedSlots(nrPort: nat, queues: nat, total: nat, i: nat, k: nat)
      requires Valid() && total == nrPort * queues && Placed(total, queues, total) && i + 1 < |lcores|
               && k < MAX_STREAMS
      ensures streams[Worker(i), k] != Unused <==> k < Load(total, Workers(), i)
    {
      LoadSlots(total, Workers(), i, k);
      var n := Start(total, Workers(), i) + k;
      hide Load, Start, Quota, HomeOf, Houses, Number;
      if streams[Worker(i), k] != Unused {
        OwnedBy(total, queues, total, i, k, streams[Worker(i), k]);
      }
      if k < Load(total, Workers(), i) {
        var s := StreamWith(n, nrPort, queues);
        HousedAt(total, queues, total, i, k, s);
        assert streams[Worker(i), k] == s;
      }
    }

    /** The streams go through the workers and their slots in the order of ports and queues. */
    lemma InPortOrder(queues: nat, total: nat, i: nat, k: nat, i': nat, k': nat)
      requires Valid() && Placed(total, queues, total) && i + 1 < |lcores| && i' + 1 < |lcores|
      requires k < MAX_STREAMS && k' < MAX_STREAMS
      requires streams[Worker(i), k] != Unused && streams[Worker(i'), k'] != Unused
      ensures var s, s' := streams[Worker(i), k], streams[Worker(i'), k'];
              (i < i' || (i == i' && k < k')) <==> (s.port < s'.port || (s.port == s'.port && s.queue < s'.queue))
    {
      var s, s' := streams[Worker(i), k], streams[Worker(i'), k'];
      OwnedBy(total, queues, total, i, k, s);
      OwnedBy(total, queues, total, i', k', s');
      NumbersAscend(s, s', queues);
      HomesAscend(total, Workers(), Number(s, queues), Number(s', queues), i, k, i', k');
    }

    lemma OwnedBy(total: nat, queues: nat, n: nat, i: nat, k: nat, s: Stream)
      requires Valid() && i + 1 < |lcores| && Houses(total, queues, n, Worker(i), k, s)
      ensures HomeOf(total, Workers(), Number(s, queues), i, k) && Number(s, queues) < n && s.queue < queues
    {
      var i' :| Owns(total, Number(s, queues), Worker(i), k, i');
      assert i' == i;
    }

    lemma HousedAt(total: nat, queues: nat, n: nat, i: nat, k: nat, s: Stream)
      requires Valid() && i + 1 < |lcores| && s != Unused && s.queue < queues && Number(s, queues) < n
      requires HomeOf(total, Workers(), Number(s, queues), i, k)
      ensures Houses(total, queues, n, Worker(i), k, s)
    {
      assert Owns(total, Number(s, queues), Worker(i), k, i);
    }

    lemma NonePlaced(total: nat, queues: nat)
      requires Valid() && forall c, k | 0 <= c < RTE_MAX_LCORE && 0 <= k < MAX_STREAMS :: streams[c, k] == Unused
      ensures Placed(total, queues, 0) && At(total, 0, 0, 0)
    {
    }

    /** The cores up to the cursor forward packets, the others are as they were. */
    ghost predicate Modes(before: seq<Mode>, cursor: nat)
      requires Valid() && |before| == RTE_MAX_LCORE
      reads mode
    {
      && mode[lcores[0]] == Stats
      && (forall i: nat | i + 1 < |lcores| :: mode[Worker(i)] == if i < cursor then Packets else before[Worker(i)])
      && forall c | 0 <= c < RTE_MAX_LCORE && c !in lcores :: mode[c] == before[c]
    }

    /** At the end, the workers in front of the cursor are those with streams. */
    lemma CursorLoads(total: nat, cursor: nat, streamId: nat, i: nat)
      requires Valid() && At(total, total, cursor, streamId) && i + 1 < |lcores|
      ensures i < cursor <==> Load(total, Workers(), i) > 0
    {
      QuotaPositive(total, Workers(), i);
      hide Quota;
      if i < cursor {
        StartMono(total, Workers(), i, cursor - 1);
      } else if cursor > 0 {
        StartMono(total, Workers(), cursor, i);
      }
    }

    /** Where the cursor is when the stream with number `n` is next. */
    ghost predicate At(total: nat, n: nat, cursor: nat, streamId: nat)
      requires Valid()
    {
      && cursor < |lcores|
      && (cursor == 0 ==> n == 0 && streamId == 0)
      && (cursor > 0 ==>
            && 1 <= streamId <= Quota(total, Workers(), cursor - 1)
            && n == Start(total, Workers(), cursor - 1) + streamId)
    }

    lemma NextHome(total: nat, n: nat, cursor: nat, streamId: nat)
      requires Valid() && Sized(total) && At(total, n, cursor, streamId) && n < total
      ensures var nb := streamsNb[lcores[cursor]];
              if nb == 0 || streamId % nb == 0 then
                && cursor + 1 < |lcores| && HomeOf(total, Workers(), n, cursor, 0)
                && At(total, n + 1, cursor + 1, 1)
              else
                && cursor > 0 && HomeOf(total, Workers(), n, cursor - 1, streamId)
                && At(total, n + 1, cursor, streamId + 1)
    {
      var nb := streamsNb[lcores[cursor]];
      QuotasSuffice(total, Workers());
      QuotaPositive(total, Workers(), cursor);
      hide Quota;
      if cursor > 0 {
        assert nb == streamsNb[Worker(cursor - 1)] == Quota(total, Workers(), cursor - 1);
        if streamId < nb {
          Bits.DivModUnique(streamId, nb, 0, streamId);
        } else {
          Bits.DivModUnique(streamId, nb, 1, 0);
        }
      }
    }
  }

  /** One port with 65 queues and a single worker: the last stream is written past the end of the row. */
  method RunsPastRow(infos: LcoreInfos) returns (fits: bool)
    requires infos.Valid() && |infos.lcores| == 2
    modifies infos.mode, infos.streams, infos.streamsNb
    ensures !fits
  {
    ghost var total, first: nat := 1 * 65, 0;
    assert first + 1 < |infos.lcores| && Quota(total, infos.Workers(), first) > MAX_STREAMS;
    fits := infos.InitLcoreInfo(1, 65);
  }

  function Number(s: Stream, queues: nat): nat
    requires s != Unused
  {
    s.port * queues + s.queue
  }

  lemma StreamWith(n: nat, nrPort: nat, queues: nat) returns (s: Stream)
    requires n < nrPort * queues
    ensures s != Unused && s.queue < queues && Number(s, queues) == n
  {
    assert queues == 0 ==> nrPort * queues == 0;
    assert n == queues * (n / queues) + n % queues;
    s := Stream(n / queues, n % queues);
  }

  lemma NumbersAscend(s: Stream, s': Stream, queues: nat)
    requires s != Unused && s' != Unused && s.queue < queues && s'.queue < queues
    ensures Number(s, queues) < Number(s', queues) <==>
              s.port < s'.port || (s.port == s'.port && s.queue < s'.queue)
  {
    if s.port < s'.port {
      Bits.MulMono(queues, s.port + 1, s'.port);
    } else if s'.port < s.port {
      Bits.MulMono(queues, s'.port + 1, s.port);
    }
  }

  lemma NumberUnique(s: Stream, s': Stream, queues: nat)
    requires s != Unused && s' != Unused && s.queue < queues && s'.queue < queues
             && Number(s, queues) == Number(s', queues)
    ensures s == s'
  {
    Bits.DivModUnique(Number(s, queues), queues, s.port, s.queue);
    Bits.DivModUnique(Number(s, queues), queues, s'.port, s'.queue);
  }
}
