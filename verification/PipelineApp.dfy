/**
 * The three polling loops of the pipeline in the form the application has them: shared rings,
 * a TX buffer array per port that is filled and emptied in place, and one cursor per core.
 * Every method is one access of one core to the shared state, and is proved to be a step of
 * the interleaving model.
 */
module PipelineApp {
  import opened Pipeline

  const ARRAY_SIZE: nat := 256  // APP_MBUF_ARRAY_SIZE

  class App {
    const c: Config
    const ringsRx: array<seq<Mbuf>>
    const ringsTx: array<seq<Mbuf>>
    const mbufTx: array2<Mbuf>    // one row of ARRAY_SIZE slots per port
    const nMbufs: array<nat>      // fill level of each row
    var rxPort: nat
    var rx: RxPc
    var workerPort: nat
    var worker: WorkerPc
    var txPort: nat
    var tx: TxPc
    var txCount: nat              // the TX loop's own n_mbufs once a row is ready to go
    ghost var received: seq<seq<Mbuf>>
    ghost var done: seq<seq<Fate>>

    ghost predicate Sized()
      reads this, nMbufs
    {
      && ringsRx.Length == ringsTx.Length == nMbufs.Length == mbufTx.Length0 == c.nPorts
      && ringsRx != ringsTx
      && mbufTx.Length1 == ARRAY_SIZE
      && txCount <= ARRAY_SIZE && (forall i | 0 <= i < c.nPorts :: nMbufs[i] <= ARRAY_SIZE)
    }

    ghost function Fill(i: nat): nat
      requires i < nMbufs.Length
      reads this, nMbufs
    {
      if i == txPort && !tx.TxPoll? then txCount else nMbufs[i]
    }

    ghost function Row(i: nat, n: nat): seq<Mbuf>
      requires i < mbufTx.Length0 && n <= mbufTx.Length1
      reads mbufTx
    {
      seq(n, k requires 0 <= k < n && n <= mbufTx.Length1 reads mbufTx => mbufTx[i, k])
    }

    ghost function Rows(): seq<seq<Mbuf>>
      requires Sized()
      reads this, nMbufs, mbufTx
    {
      seq(c.nPorts, i requires 0 <= i < c.nPorts && Sized() reads this, nMbufs, mbufTx => Row(i, Fill(i)))
    }

    /** The application state as a state of the interleaving model. */
    ghost function View(): State
      requires Sized()
      reads this, ringsRx, ringsTx, nMbufs, mbufTx
    {
      State(rxPort, rx, workerPort, worker, txPort, tx, ringsRx[..], ringsTx[..], Rows(), received, done)
    }

    ghost predicate Valid()
      reads this, ringsRx, ringsTx, nMbufs, mbufTx
    {
      && ValidConfig(c) && c.txWrite - 1 + c.txRead <= ARRAY_SIZE
      && Sized() && Inv(c, View())
    }

    constructor (config: Config)
      requires ValidConfig(config) && config.txWrite - 1 + config.txRead <= ARRAY_SIZE
      ensures Valid() && c == config && View() == Init(config)
      ensures fresh(ringsRx) && fresh(ringsTx) && fresh(nMbufs) && fresh(mbufTx)
    {
      c := config;
      ringsRx := new seq<Mbuf>[config.nPorts](_ => []);
      ringsTx := new seq<Mbuf>[config.nPorts](_ => []);
      mbufTx := new Mbuf[config.nPorts, ARRAY_SIZE]((_, _) => 0);
      nMbufs := new nat[config.nPorts](_ => 0);
      rxPort, rx, workerPort, worker, txPort, tx, txCount := 0, RxPoll, 0, WorkerPoll, 0, TxPoll, 0;
      received, done := seq(config.nPorts, _ => []), seq(config.nPorts, _ => []);
      new;
      assert forall i | 0 <= i < c.nPorts :: ringsRx[i] == [] && ringsTx[i] == [] && nMbufs[i] == 0;
      assert ringsRx[..] == Init(c).ringsRx && ringsTx[..] == Init(c).ringsTx;
      assert forall i | 0 <= i < c.nPorts :: Rows()[i] == [];
      assert Rows() == Init(c).mbufTx;
      assert View() == Init(c);
      InitInv(c);
    }

    method RxCore(burst: seq<Mbuf>)
      requires Valid() && |burst| <= c.rxRead
      modifies this, ringsRx
      ensures Valid() && View() == RxStep(c, old(View()), burst)
    {
      RxKeeps(c, View(), burst);
      match rx {
        case RxPoll =>
          if burst == [] {
            rxPort := NextPort(c, rxPort);
          } else {
            rx := RxPush(burst);
            received := received[rxPort := received[rxPort] + burst];
          }
        case RxPush(held) =>
          if |ringsRx[rxPort]| + |held| <= c.ringRxSize - 1 {
            ringsRx[rxPort] := ringsRx[rxPort] + held;
            rx := RxPoll;
            rxPort := NextPort(c, rxPort);
          }
      }
      assert View() == RxStep(c, old(View()), burst);
    }

    method WorkerCore()
      requires Valid()
      modifies this, ringsRx, ringsTx
      ensures Valid() && View() == WorkerStep(c, old(View()))
    {
      WorkerKeeps(c, View());
      PortsEven(c);
      match worker {
        case WorkerPoll =>
          var ring := ringsRx[workerPort];
          if |ring| < c.workerRead {
            workerPort := NextPort(c, workerPort);
          } else {
            worker := WorkerPush(ring[..c.workerRead]);
            ringsRx[workerPort] := ring[c.workerRead..];
          }
        case WorkerPush(held) =>
          var j := Peer(workerPort);
          if |ringsTx[j]| + |held| <= c.ringTxSize - 1 {
            ringsTx[j] := ringsTx[j] + held;
            worker := WorkerPoll;
            workerPort := NextPort(c, workerPort);
          }
      }
      assert View() == WorkerStep(c, old(View()));
    }

    method TxCore(accepted: nat)
      requires Valid() && accepted <= |View().mbufTx[txPort]|
      modifies this, ringsTx, nMbufs, mbufTx
      ensures Valid() && View() == TxStep(c, old(View()), accepted)
    {
      match tx {
        case TxPoll => TxPollCore(accepted);
        case TxSend => TxSendCore(accepted);
        case TxFree(k) => TxFreeCore(k, accepted);
      }
    }

    /** One event, if it can happen here. */
    method Move(e: Event) returns (possible: bool)
      requires Valid()
      modifies this, ringsRx, ringsTx, nMbufs, mbufTx
      ensures Valid() && possible == old(ValidEvent(c, View(), e))
      ensures View() == if possible then Step(c, old(View()), e) else old(View())
    {
      match e {
        case Rx(burst) =>
          possible := |burst| <= c.rxRead;
          if possible {
            RxCore(burst);
          }
        case Worker =>
          possible := true;
          WorkerCore();
        case Tx(accepted) =>
          possible := accepted <= if tx.TxPoll? then nMbufs[txPort] else txCount;
          if possible {
            TxCore(accepted);
          }
      }
    }

    /** Bulk dequeue of one TX burst behind the `n` packets already in row `i`. */
    method Collect(i: nat, n: nat)
      requires Sized() && i < c.nPorts && n + c.txRead <= ARRAY_SIZE && |ringsTx[i]| >= c.txRead
      modifies ringsTx, mbufTx
      ensures ringsTx[..] == old(ringsTx[..])[i := old(ringsTx[i])[c.txRead..]]
      ensures Row(i, n + c.txRead) == old(Row(i, n)) + old(ringsTx[i])[..c.txRead]
      ensures forall j, k | 0 <= j < c.nPorts && 0 <= k < ARRAY_SIZE && j != i :: mbufTx[j, k] == old(mbufTx[j, k])
    {
      var ring := ringsTx[i];
      forall k | 0 <= k < c.txRead {
        mbufTx[i, n + k] := ring[k];
      }
      ringsTx[i] := ring[c.txRead..];
    }

    method TxPollCore(ghost accepted: nat)
      requires Valid() && tx.TxPoll? && accepted <= |View().mbufTx[txPort]|
      modifies this, ringsTx, nMbufs, mbufTx
      ensures Valid() && View() == TxStep(c, old(View()), accepted)
    {
      TxKeeps(c, View(), accepted);
      ghost var s, s' := View(), TxStep(c, View(), accepted);
      var i, n := txPort, nMbufs[txPort];
      assert n == |s.mbufTx[i]| <= c.txWrite - 1;
      hide Inv;
      if |ringsTx[i]| < c.txRead {
        txPort := NextPort(c, i);
        assert Rows() == old(Rows());
      } else {
        Collect(i, n);
        n := n + c.txRead;
        if n < c.txWrite {
          nMbufs[i] := n;
          txPort := NextPort(c, i);
        } else {
          txCount, tx := n, TxSend;
        }
        OtherRowsKept(i);
        assert Rows() == s'.mbufTx;
      }
      assert View() == s';
    }

    /** Writing one row of the TX buffers leaves the other rows alone. */
    twostate lemma OtherRowsKept(i: nat)
      requires old(Sized()) && Sized() && i == old(txPort) && i < c.nPorts
      requires txPort == i || tx.TxPoll?
      requires old(tx).TxPoll? && forall j | 0 <= j < c.nPorts && j != i :: nMbufs[j] == old(nMbufs[j])
      requires forall j, k | 0 <= j < c.nPorts && 0 <= k < ARRAY_SIZE && j != i :: mbufTx[j, k] == old(mbufTx[j, k])
      ensures forall j | 0 <= j < c.nPorts && j != i :: Rows()[j] == old(Rows()[j])
    {
    }

    method TxSendCore(accepted: nat)
      requires Valid() && tx.TxSend? && accepted <= |View().mbufTx[txPort]|
      modifies this
      ensures Valid() && View() == TxStep(c, old(View()), accepted)
    {
      TxKeeps(c, View(), accepted);
      tx := TxFree(accepted);
      done := done[txPort := done[txPort] + AllSent(old(View()).mbufTx[txPort][..accepted])];
      assert View().mbufTx == old(View()).mbufTx;
    }

    method TxFreeCore(k: nat, ghost accepted: nat)
      requires Valid() && tx == TxFree(k) && accepted <= |View().mbufTx[txPort]|
      modifies this, nMbufs
      ensures Valid() && View() == TxStep(c, old(View()), accepted)
    {
      TxKeeps(c, View(), accepted);
      var i := txPort;
      ghost var rows := Rows();
      if k < txCount {
        done := done[i := done[i] + [Freed(mbufTx[i, k])]];
        tx := TxFree(k + 1);
        assert forall j | 0 <= j < c.nPorts :: Rows()[j] == rows[j];
        assert Rows() == rows;
      } else {
        nMbufs[i] := 0;
        tx, txPort := TxPoll, NextPort(c, i);
        assert forall j | 0 <= j < c.nPorts :: Rows()[j] == rows[i := []][j];
        assert Rows() == rows[i := []];
      }
      assert View() == TxStep(c, old(View()), accepted);
    }
  }

  lemma ReachesNext(c: Config, events: seq<Event>, n: nat, s: State)
    requires ValidConfig(c) && n < |events| && Reaches(c, events[..n], s)
    requires Shape(c, s) && ValidEvent(c, s, events[n])
    ensures Reaches(c, events[..n + 1], Step(c, s, events[n]))
  {
    assert events[..n + 1][..n] == events[..n];
  }

  /**
   * Any interleaving, run on the application: after `taken` events it is where the model says, with
   * everything conserved.
   */
  method Interleave(config: Config, events: seq<Event>) returns (app: App, taken: nat)
    requires ValidConfig(config) && config.txWrite - 1 + config.txRead <= ARRAY_SIZE
    ensures app.Valid() && app.c == config && taken <= |events|
    ensures Reaches(config, events[..taken], app.View()) && Conserved(config, app.View())
    ensures taken < |events| ==> !ValidEvent(config, app.View(), events[taken])
  {
    app := new App(config);
    taken := 0;
    assert events[..0] == [];
    var more := true;
    while more && taken < |events|
      invariant app.Valid() && app.c == config && taken <= |events|
      invariant fresh(app) && fresh(app.ringsRx) && fresh(app.ringsTx) && fresh(app.nMbufs) && fresh(app.mbufTx)
      invariant Reaches(config, events[..taken], app.View())
      invariant taken < |events| && !more ==> !ValidEvent(config, app.View(), events[taken])
      decreases |events| - taken, more
    {
      ghost var s := app.View();
      more := app.Move(events[taken]);
      if more {
        ReachesNext(config, events, taken, s);
        taken := taken + 1;
      }
    }
  }
}
