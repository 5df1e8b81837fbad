/** The gNB object whose FIFOs and thread variables the transmit pipeline updates in place. Each
    method is one atomic action of one thread and moves the abstract state by one step. */
module TxGnb {
  import opened Options
  import opened SlotSchedule
  import opened TxPipeline

  class Gnb {
    const cfg: Config
    var l1TxFree: seq<Token>
    var l1TxFilled: seq<Token>
    var threadPool: seq<Token>
    var l1TxOut: seq<Token>
    var resL1Reserve: Option<Token>
    var nextTxSlot: nat
    var pc: Pc
    var scheduled: nat
    var received: nat
    ghost var firstPulled: Option<Job>
    var radio: seq<Job>
    var faults: seq<Fault>

    ghost function View(): State
      reads this
    {
      State(l1TxFree, l1TxFilled, threadPool, l1TxOut, resL1Reserve, nextTxSlot, pc, scheduled, received, firstPulled,
            radio, faults)
    }

    /** init_gNB_Tpool: two elements, both free. */
    constructor (cfg: Config)
      ensures this.cfg == cfg && View() == Init()
    {
      this.cfg := cfg;
      l1TxFree, l1TxFilled, threadPool, l1TxOut := [], [], [], [];
      resL1Reserve, nextTxSlot, pc, scheduled, received := None, 0, Start, 0, 0;
      firstPulled, radio, faults := None, [], [];
      new;
      for i: nat := 0 to 2
        invariant View() == Init().(free := Init().free[..i])
      {
        l1TxFree := l1TxFree + [Token(i, Job(0, 0, 0))];
      }
    }

    /** nr_schedule_response, for the next slot the MAC schedules. */
    method ScheduleResponse()
      requires Enabled(cfg, View(), Fill)
      modifies this
      ensures View() == ApplyFill(cfg, old(View()))
    {
      var entry := cfg.plan[scheduled];
      if entry.downlink {
        var res := l1TxFree[0];
        l1TxFree := l1TxFree[1..];
        var msgTx := res.job;
        msgTx := msgTx.(slot := entry.job.slot);
        msgTx := msgTx.(frame := entry.job.frame);
        l1TxFilled := l1TxFilled + [res.(job := msgTx)];
      }
      scheduled := scheduled + 1;
    }

    /** The tail of rx_func. */
    method RxTail()
      requires Enabled(cfg, View(), Rx)
      modifies this
      ensures View() == ApplyRx(cfg, old(View()))
    {
      var info := cfg.plan[received];
      if info.downlink {
        var res := l1TxFilled[0];
        l1TxFilled := l1TxFilled[1..];
        res := res.(job := res.job.(timestamp := info.job.timestamp));
        threadPool := threadPool + [res];
      } else {
        var res := l1TxFree[0];
        l1TxFree := l1TxFree[1..];
        res := res.(job := res.job.(timestamp := info.job.timestamp));
        res := res.(job := res.job.(frame := info.job.frame));
        res := res.(job := res.job.(slot := info.job.slot));
        l1TxOut := l1TxOut + [res];
      }
      received := received + 1;
    }

    /** A pool thread has finished tx_func on one element. */
    method PoolThreadDone(k: nat)
      requires cfg.Valid() && Enabled(cfg, View(), Complete(k))
      modifies this
      ensures View() == Apply(cfg, old(View()), Complete(k))
    {
      var elt := threadPool[k];
      threadPool := threadPool[..k] + threadPool[k + 1..];
      l1TxOut := l1TxOut + [elt];
    }

    /** tx_reorder_thread up to its next scheduling point. */
    method ReorderSegment()
      requires cfg.Valid() && Enabled(cfg, View(), Reorder)
      modifies this
      ensures View() == ApplyReorder(cfg, old(View()))
    {
      match pc {
        case Start =>
          var resL1 := PullOut();
          resL1Reserve, nextTxSlot := Some(resL1), resL1.job.slot;
          firstPulled, pc := Some(resL1.job), Head;
        case Head =>
          if resL1Reserve.Some? {
            var resL1 := resL1Reserve.value;
            if resL1.job.slot != nextTxSlot {
              faults := faults + [OrderMistake];
              resL1Reserve, pc := None, PullAfterMistake;
            } else {
              pc := Hand(resL1);
            }
          } else {
            pc := PullFirst;
          }
        case PullFirst =>
          var resL1 := PullOut();
          if resL1.job.slot != nextTxSlot {
            if resL1Reserve.Some? {
              faults := faults + [StoredThenSecond];
            }
            resL1Reserve, pc := Some(resL1), PullSecond;
          } else {
            pc := Hand(resL1);
          }
        case PullSecond =>
          var resL1 := PullOut();
          if resL1.job.slot != nextTxSlot {
            faults := faults + [NoneIsGood];
          }
          pc := Hand(resL1);
        case PullAfterMistake =>
          var resL1 := PullOut();
          pc := Hand(resL1);
        case Hand(resL1) =>
          var syncMsgRU := resL1.job;
          var next: Option<nat>;
          if cfg.continuous {
            next := Some((syncMsgRU.slot + 1) % cfg.tdd.spf);
          } else if syncMsgRU.slot < cfg.tdd.spf {
            next := GetNextDownlinkSlot(cfg.tdd, syncMsgRU.frame, syncMsgRU.slot);
          } else {
            next := None;
          }
          if next.None? {
            pc := Aborted;
          } else {
            nextTxSlot := next.value;
            l1TxFree := l1TxFree + [resL1];
            if resL1Reserve.Some? && resL1Reserve.value.id == resL1.id {
              resL1Reserve := None;
            }
            pc := Sending(syncMsgRU);
          }
        case Sending(syncMsgRU) =>
          radio := radio + [syncMsgRU];
          pc := Head;
      }
    }

    /** pullTpool on L1_tx_out, once it is not empty. */
    method PullOut() returns (elt: Token)
      requires l1TxOut != []
      modifies this
      ensures elt == old(l1TxOut[0]) && View() == old(View()).(out := old(l1TxOut[1..]))
    {
      elt := l1TxOut[0];
      l1TxOut := l1TxOut[1..];
    }
  }
}
