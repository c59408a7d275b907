/** The Sovereign's side of a proposal as the calls that change its ledger. Every call is a
    run of the protocol's steps, so what holds of all runs holds of all call histories. */
module ProposalExecution {
  import opened ProposalReplay
  import opened JsonNumbers

  /** What a barrier over all bodies did: everything, or only these records. */
  datatype Barrier = Persisted | Failed(receipts: set<Identity>, slots: set<string>)

  /** Whether each bounded write of a record is accepted, and what the barrier does. */
  datatype PrepareIo = PrepareIo(receiptFits: bool, slotFits: bool, barrier: Barrier)
  datatype FinalizeIo = FinalizeIo(receiptFits: bool, barrier: Barrier)
  datatype AckIo = AckIo(slotFits: bool, fence: Barrier, deletes: bool, first: Barrier, retry: Barrier)

  datatype PrepareResult =
    | Replayed
    | InFlight
    | SlotBusy
    | Stale
    | Conflicting
    | LedgerFull
    | NotPersisted
    | Started

  datatype AckResult = AckedGc | Incomplete | NoSlot | Ahead | NoFence | Mismatch | NotDone | SlotConflict | AckFailed

  predicate Slotted(live: Ledger, req: AckRequest) {
    req.revision != 0 && SlotFor(req.origin, req.memoryId) in live.fences
  }

  function FenceOf(live: Ledger, req: AckRequest): Fence
    requires Slotted(live, req)
  {
    live.fences[SlotFor(req.origin, req.memoryId)]
  }

  predicate ReceiptFound(live: Ledger, req: AckRequest) {
    Slotted(live, req) && req.revision <= FenceOf(live, req).revision && req.receipt in live.receipts
  }

  predicate AckCompletes(io: AckIo) {
    io.slotFits && io.fence.Persisted? && io.deletes && (io.first.Persisted? || io.retry.Persisted?)
  }

  function Settle(b: Barrier, disk: Ledger, live: Ledger): Ledger {
    match b
    case Persisted => live
    case Failed(receipts, slots) => Reached(disk, live, receipts, slots)
  }

  // ---- What each call leaves behind ----------------------------------------------------

  ghost function AfterPrepare(s: State, id: Identity, io: PrepareIo): State {
    var written := PutReceipt(s.live, id, false);
    if !io.receiptFits then s
    else if !io.slotFits then s.(live := written)
    else
      var t := s.(live := PutFence(written, id), durable := Settle(io.barrier, s.durable, PutFence(written, id)));
      if io.barrier.Failed? then t
      else t.(executing := s.executing + {Slot(id)}, runs := s.runs[id := Prepared])
  }

  ghost function AfterFinalize(s: State, id: Identity, answer: bool, io: FinalizeIo): State {
    var t := s.(runs := s.runs - {id}, executing := s.executing - {Slot(id)});
    if !Finalizable(s.live, id) || !io.receiptFits then t
    else
      var written := PutReceipt(s.live, id, true);
      t.(live := written, durable := Settle(io.barrier, s.durable, written),
         answers := if answer && io.barrier.Persisted? then s.answers + {id} else s.answers)
  }

  ghost function AfterAck(s: State, req: AckRequest, io: AckIo): State
    requires AckAccepted(s.live, req)
  {
    var fenced := Acknowledge(s.live, SlotFor(req.origin, req.memoryId), req.revision);
    if !io.slotFits then s
    else if io.fence.Failed? then s.(live := fenced, durable := Settle(io.fence, s.durable, fenced))
    else if !io.deletes then s.(live := fenced, durable := fenced)
    else
      var gone := DropReceipt(fenced, req.receipt);
      var tried := Settle(io.first, fenced, gone);
      s.(live := gone, durable := if io.first.Failed? then Settle(io.retry, tried, gone) else tried)
  }

  lemma FlushReaches(s: State, b: Barrier)
    requires Reachable(s) && b.Failed?
    ensures Reachable(s.(durable := Settle(b, s.durable, s.live)))
  {
    ReachableStep(s, Flush(b.receipts, b.slots));
  }

  lemma PrepareReaches(s: State, id: Identity, io: PrepareIo)
    requires Reachable(s) && Enabled(s, PrepareBegin(id))
    ensures Reachable(AfterPrepare(s, id, io))
  {
    if io.receiptFits {
      ReachableStep(s, PrepareBegin(id));
      var a := Take(s, PrepareBegin(id));
      if !io.slotFits {
        ReachableStep(a, PrepareAbort);
      } else {
        ReachableStep(a, PrepareFence);
        var b := Take(a, PrepareFence);
        if io.barrier.Failed? {
          FlushReaches(b, io.barrier);
          ReachableStep(b.(durable := Settle(io.barrier, b.durable, b.live)), PrepareAbort);
        } else {
          ReachableStep(b, PrepareCommit);
        }
      }
    }
  }

  lemma FinalizeReaches(s: State, id: Identity, answer: bool, io: FinalizeIo)
    requires Reachable(s) && s.phase.Idle? && id in s.runs && s.runs[id].Dispatched?
    ensures Reachable(AfterFinalize(s, id, answer, io))
  {
    if !Finalizable(s.live, id) || !io.receiptFits {
      ReachableStep(s, FinalizeLost(id));
    } else {
      ReachableStep(s, FinalizeBegin(id));
      var a := Take(s, FinalizeBegin(id));
      if io.barrier.Failed? {
        FlushReaches(a, io.barrier);
        ReachableStep(a.(durable := Settle(io.barrier, a.durable, a.live)), FinalizeEnd(false, answer));
      } else {
        ReachableStep(a, FinalizeEnd(true, answer));
      }
    }
  }

  lemma AckReaches(s: State, req: AckRequest, io: AckIo)
    requires Reachable(s) && Enabled(s, AckBegin(req))
    ensures Reachable(AfterAck(s, req, io))
  {
    if io.slotFits {
      ReachableStep(s, AckBegin(req));
      var a := Take(s, AckBegin(req));
      if io.fence.Failed? {
        FlushReaches(a, io.fence);
        ReachableStep(a.(durable := Settle(io.fence, a.durable, a.live)), AckFencePersist(false));
      } else {
        ReachableStep(a, AckFencePersist(true));
        var b := Take(a, AckFencePersist(true));
        if !io.deletes {
          ReachableStep(b, AckAbandon);
        } else {
          ReachableStep(b, AckDelete);
          var c := Take(b, AckDelete);
          DeleteReaches(c, io);
        }
      }
    }
  }

  lemma DeleteReaches(s: State, io: AckIo)
    requires Reachable(s) && Enabled(s, AckEnd(true))
    ensures var tried := Settle(io.first, s.durable, s.live);
            Reachable(s.(durable := if io.first.Failed? then Settle(io.retry, tried, s.live) else tried, phase := Idle))
  {
    var a := s.(durable := Settle(io.first, s.durable, s.live));
    if io.first.Persisted? {
      ReachableStep(s, AckEnd(true));
    } else {
      FlushReaches(s, io.first);
      if io.retry.Persisted? {
        ReachableStep(a, AckEnd(true));
      } else {
        FlushReaches(a, io.retry);
        ReachableStep(a.(durable := Settle(io.retry, a.durable, a.live)), AckEnd(false));
      }
    }
  }

  class Sovereign {
    var live: Ledger
    var durable: Ledger
    var executing: set<string>
    const maxEntries: nat
    ghost var runs: map<Identity, Run>
    ghost var log: seq<Identity>
    ghost var answers: set<Identity>

    ghost function View(): State
      reads this
    {
      State(live, durable, executing, Idle, runs, log, answers)
    }

    /** Some history of the protocol led here. */
    ghost predicate Valid()
      reads this
    {
      Reachable(View())
    }

    constructor (maxEntries: nat)
      ensures Valid() && View() == Initial() && this.maxEntries == maxEntries
    {
      live := Ledger(map[], map[]);
      durable := Ledger(map[], map[]);
      executing := {};
      this.maxEntries := maxEntries;
      runs := map[];
      log := [];
      answers := {};
      new;
      assert IsRun(Initial(), []) && After(Initial(), []) == Initial();
    }

    /** A new process: the ledger is read back, no slot is executing, no run goes on. */
    method Restart()
      requires Valid()
      modifies this
      ensures Valid() && live == durable == old(durable) && executing == {} && log == old(log)
    {
      ReachableStep(View(), Crash);
      live, executing, runs, answers := durable, {}, map[], {};
    }

    /** Why a proposal is not executed, read off the ledger before anything is written. */
    method Check(id: Identity) returns (r: PrepareResult)
      ensures r.Replayed? <==> id in live.receipts && live.receipts[id].done
      ensures r.InFlight? <==> id in live.receipts && !live.receipts[id].done
      ensures r.SlotBusy? <==> id !in live.receipts && Slot(id) in executing
      ensures r.Stale? <==>
                id !in live.receipts && Slot(id) !in executing &&
                Slot(id) in live.fences && id.revision < live.fences[Slot(id)].revision
      ensures r.Conflicting? <==>
                id !in live.receipts && Slot(id) !in executing &&
                Slot(id) in live.fences && id.revision == live.fences[Slot(id)].revision
      ensures r.LedgerFull? <==>
                id !in live.receipts && Slot(id) !in executing &&
                (Slot(id) in live.fences ==> id.revision > live.fences[Slot(id)].revision) && |live.receipts| >= maxEntries
      ensures r.Started? <==>
                id !in live.receipts && Slot(id) !in executing &&
                (Slot(id) in live.fences ==> id.revision > live.fences[Slot(id)].revision) && |live.receipts| < maxEntries
      ensures !r.NotPersisted?
    {
      if id in live.receipts {
        return if live.receipts[id].done then Replayed else InFlight;
      }
      if Slot(id) in executing {
        return SlotBusy;
      }
      if Slot(id) in live.fences {
        if id.revision < live.fences[Slot(id)].revision {
          return Stale;
        }
        if id.revision == live.fences[Slot(id)].revision {
          return Conflicting;
        }
      }
      if |live.receipts| >= maxEntries {
        return LedgerFull;
      }
      return Started;
    }

    /** Fences the proposal with a durable executing receipt, or says why not: the receipt it
        has, a slot that is executing, a fence at or past its revision, a full ledger, or a
        write that failed, in this order. */
    method Prepare(id: Identity, io: PrepareIo) returns (r: PrepareResult)
      requires Valid()
      modifies this
      ensures Valid()
      ensures r.Replayed? <==> id in old(live).receipts && old(live).receipts[id].done
      ensures r.InFlight? <==> id in old(live).receipts && !old(live).receipts[id].done
      ensures r.SlotBusy? <==> id !in old(live).receipts && Slot(id) in old(executing)
      ensures r.Stale? <==>
                id !in old(live).receipts && Slot(id) !in old(executing) &&
                Slot(id) in old(live).fences && id.revision < old(live).fences[Slot(id)].revision
      ensures r.Conflicting? <==>
                id !in old(live).receipts && Slot(id) !in old(executing) &&
                Slot(id) in old(live).fences && id.revision == old(live).fences[Slot(id)].revision
      ensures r.LedgerFull? <==>
                id !in old(live).receipts && Slot(id) !in old(executing) &&
                (Slot(id) in old(live).fences ==> id.revision > old(live).fences[Slot(id)].revision) &&
                |old(live).receipts| >= maxEntries
      ensures r.Started? <==>
                id !in old(live).receipts && Slot(id) !in old(executing) &&
                (Slot(id) in old(live).fences ==> id.revision > old(live).fences[Slot(id)].revision) &&
                |old(live).receipts| < maxEntries &&
                io.receiptFits && io.slotFits && io.barrier.Persisted?
      ensures View() == if r.Started? || r.NotPersisted? then AfterPrepare(old(View()), id, io) else old(View())
      ensures r.Started? ==>
                && id !in log && log == old(log) && executing == old(executing) + {Slot(id)}
                && durable == live && live.receipts == old(live).receipts[id := Receipt(Slot(id), id.revision, false, 1)]
                && Slot(id) in live.fences && live.fences[Slot(id)].requestId == id
                && live.fences[Slot(id)].revision == JsonRevision(id.revision)
      ensures |old(live).receipts| <= maxEntries ==> |live.receipts| <= maxEntries
    {
      r := Check(id);
      if !r.Started? {
        return;
      }
      if !io.receiptFits {
        return NotPersisted;
      }
      PrepareReaches(View(), id, io);
      AtMostOnce(View());
      live := PutReceipt(live, id, false);
      if !io.slotFits {
        return NotPersisted;
      }
      live := PutFence(live, id);
      durable := Settle(io.barrier, durable, live);
      if io.barrier.Failed? {
        return NotPersisted;
      }
      executing := executing + {Slot(id)};
      runs := runs[id := Prepared];
      return Started;
    }

    /** Records the result of a dispatched proposal; true if it is durable. */
    method Finalize(id: Identity, answer: bool, io: FinalizeIo) returns (recorded: bool)
      requires Valid() && id in runs && runs[id].Dispatched?
      modifies this
      ensures Valid() && View() == AfterFinalize(old(View()), id, answer, io)
      ensures executing == old(executing) - {Slot(id)} && log == old(log)
      ensures recorded <==> Finalizable(old(live), id) && io.receiptFits && io.barrier.Persisted?
      ensures recorded ==> Done(durable, id)
    {
      FinalizeReaches(View(), id, answer, io);
      executing := executing - {Slot(id)};
      runs := runs - {id};
      if id !in live.receipts || live.receipts[id].slot != Slot(id) || live.receipts[id].memoryRevision != 1 {
        return false;
      }
      if !io.receiptFits {
        return false;
      }
      live := PutReceipt(live, id, true);
      durable := Settle(io.barrier, durable, live);
      if io.barrier.Failed? {
        return false;
      }
      if answer {
        answers := answers + {id};
      }
      return true;
    }

    /** Runs a proposal at most once: dispatched now, or never again. `framed` is whether the
        Frame took the request id, `succeeds` whether the dispatched program did. */
    method ExecuteOnce(id: Identity, framed: bool, succeeds: bool, prepare: PrepareIo, finalize: FinalizeIo)
      returns (r: PrepareResult, recorded: bool)
      requires Valid()
      modifies this
      ensures Valid()
      ensures log == old(log) + (if r.Started? && framed then [id] else [])
      ensures r.Started? <==>
                id !in old(live).receipts && Slot(id) !in old(executing) &&
                (Slot(id) in old(live).fences ==> id.revision > old(live).fences[Slot(id)].revision) &&
                |old(live).receipts| < maxEntries &&
                prepare.receiptFits && prepare.slotFits && prepare.barrier.Persisted?
      ensures r.Started? && framed ==> id !in old(log)
      ensures r.Replayed? ==> Done(live, id) && id in log
      ensures r.InFlight? ==> live == old(live) && durable == old(durable)
      ensures recorded <==> r.Started? && framed && finalize.receiptFits && finalize.barrier.Persisted?
      ensures recorded ==> Done(durable, id)
      ensures r.Started? ==> executing == if framed then old(executing) else old(executing) + {Slot(id)}
    {
      recorded := false;
      r := Prepare(id, prepare);
      if !r.Started? {
        if r.Replayed? {
          DoneWasDispatched(View(), id);
        }
        return;
      }
      recorded := RunPrepared(id, framed, succeeds, finalize);
    }

    /** Dispatches a prepared proposal if the Frame took its request id. One that the Frame
        refused keeps its slot. */
    method RunPrepared(id: Identity, framed: bool, succeeds: bool, io: FinalizeIo) returns (recorded: bool)
      requires Valid() && id in runs && runs[id].Prepared? && Finalizable(live, id)
      modifies this
      ensures Valid()
      ensures log == old(log) + (if framed then [id] else [])
      ensures executing == if framed then old(executing) - {Slot(id)} else old(executing)
      ensures recorded <==> framed && io.receiptFits && io.barrier.Persisted?
      ensures recorded ==> Done(durable, id)
      ensures !framed ==> live == old(live) && durable == old(durable)
    {
      if !framed {
        ReachableStep(View(), Drop(id));
        runs := runs - {id};
        return false;
      }
      ReachableStep(View(), Dispatch(id));
      runs := runs[id := Dispatched];
      log := log + [id];
      recorded := Finalize(id, succeeds, io);
    }

    /** Collects an acknowledged receipt after its fence is durable. */
    method Ack(req: AckRequest, io: AckIo) returns (r: AckResult)
      requires Valid()
      modifies this
      ensures Valid()
      ensures r.Incomplete? <==> req.revision == 0
      ensures r.NoSlot? <==> req.revision != 0 && SlotFor(req.origin, req.memoryId) !in old(live).fences
      ensures r.Ahead? <==> Slotted(old(live), req) && req.revision > FenceOf(old(live), req).revision
      ensures r.NoFence? <==>
                Slotted(old(live), req) && FenceOf(old(live), req).acked < req.revision <= FenceOf(old(live), req).revision &&
                req.receipt !in old(live).receipts
      ensures r.Mismatch? <==>
                ReceiptFound(old(live), req) &&
                !(old(live).receipts[req.receipt].slot == SlotFor(req.origin, req.memoryId) && old(live).receipts[req.receipt].revision == req.revision)
      ensures r.NotDone? ==> ReceiptFound(old(live), req) && !old(live).receipts[req.receipt].done
      ensures r.SlotConflict? ==> ReceiptFound(old(live), req) && FenceOf(old(live), req).revision == req.revision && FenceOf(old(live), req).requestId != req.receipt
      ensures r.AckFailed? <==> AckAccepted(old(live), req) && !AckCompletes(io)
      ensures View() == if AckAccepted(old(live), req) then AfterAck(old(View()), req, io) else old(View())
      ensures AckAlready(old(live), req) ==> r.AckedGc?
      ensures r.AckedGc? <==> (AckAlready(old(live), req) || (AckAccepted(old(live), req) && AckCompletes(io)))
      ensures r.AckedGc? && req.receipt in log ==> Fenced(durable, req.receipt)
    {
      if req.revision == 0 {
        return Incomplete;
      }
      var slot := SlotFor(req.origin, req.memoryId);
      if slot !in live.fences {
        return NoSlot;
      }
      if req.revision > live.fences[slot].revision {
        return Ahead;
      }
      if req.receipt !in live.receipts {
        if req.receipt in log {
          GoneIsAcknowledged(View(), req.receipt);
        }
        return if req.revision <= live.fences[slot].acked then AckedGc else NoFence;
      }
      if live.receipts[req.receipt].slot != slot || live.receipts[req.receipt].revision != req.revision {
        return Mismatch;
      }
      if !live.receipts[req.receipt].done {
        return NotDone;
      }
      if live.fences[slot].revision == req.revision && live.fences[slot].requestId != req.receipt {
        return SlotConflict;
      }
      var collected := Collect(req, io);
      return if collected then AckedGc else AckFailed;
    }

    /** Writes the fence, then deletes the receipt, each behind its own barrier; a failed
        deletion crosses the barrier once more. */
    method Collect(req: AckRequest, io: AckIo) returns (collected: bool)
      requires Valid() && AckAccepted(live, req)
      modifies this
      ensures Valid() && View() == AfterAck(old(View()), req, io)
      ensures collected <==> AckCompletes(io)
      ensures collected ==> req.receipt !in live.receipts && req.receipt !in durable.receipts
      ensures collected ==> Fenced(durable, req.receipt)
    {
      AckReaches(View(), req, io);
      DoneWasDispatched(View(), req.receipt);
      if !io.slotFits {
        return false;
      }
      live := Acknowledge(live, SlotFor(req.origin, req.memoryId), req.revision);
      durable := Settle(io.fence, durable, live);
      if io.fence.Failed? || !io.deletes {
        return false;
      }
      live := DropReceipt(live, req.receipt);
      durable := Settle(io.first, durable, live);
      if io.first.Failed? {
        durable := Settle(io.retry, durable, live);
        if io.retry.Failed? {
          return false;
        }
      }
      GoneIsAcknowledged(View(), req.receipt);
      return true;
    }
  }
}
