/** The Sovereign's ledger of Mesh proposals as a state machine whose steps are the points
    between which a crash, a failed persist or another request may fall. A request id is the
    digest of an identity, so identities stand for request ids. */
module ProposalReplay {
  import opened JsonNumbers

  /** What a request id digests. The fields are already trimmed, and tags are sorted before
      digesting, so only their multiset matters. */
  datatype Identity = Identity(memoryId: string, origin: string, digest: string, revision: nat, tags: multiset<string>)

  function SlotFor(origin: string, memoryId: string): string {
    origin + "\0" + memoryId
  }

  function Slot(id: Identity): string {
    SlotFor(id.origin, id.memoryId)
  }

  /** One execution receipt. `memoryRevision` is the revision of the Memory that holds it. */
  datatype Receipt = Receipt(slot: string, revision: nat, done: bool, memoryRevision: nat)

  /** One slot record: the latest proposal and how far the slot was acknowledged. Numbers
      are as they come back from the State map. */
  datatype Fence = Fence(requestId: Identity, revision: nat, acked: nat, memoryRevision: nat)

  datatype Ledger = Ledger(receipts: map<Identity, Receipt>, fences: map<string, Fence>)

  datatype AckStage = FenceWritten | FenceDurable | ReceiptDeleted

  /** Which mutex-protected call is under way, and how far it got. */
  datatype Phase =
    | Idle
    | Preparing(id: Identity, fenceWritten: bool)
    | Finalizing(id: Identity)
    | Acking(id: Identity, stage: AckStage)

  datatype Run = Prepared | Dispatched

  /** `live` is what the process sees, `durable` what a restart finds. `log` is the history
      of dispatches and survives everything; `answers` are the receipts this process may
      name in a reply. */
  datatype State = State(
    live: Ledger,
    durable: Ledger,
    executing: set<string>,
    phase: Phase,
    runs: map<Identity, Run>,
    log: seq<Identity>,
    answers: set<Identity>)

  datatype AckRequest = AckRequest(receipt: Identity, memoryId: string, origin: string, revision: nat)

  datatype Step =
    | PrepareBegin(id: Identity)
    | PrepareFence
    | PrepareCommit
    | PrepareAbort
    | Drop(id: Identity)
    | Dispatch(id: Identity)
    | FinalizeBegin(id: Identity)
    | FinalizeLost(id: Identity)
    | FinalizeEnd(ok: bool, answer: bool)
    | ReplayDone(id: Identity)
    | AckBegin(req: AckRequest)
    | AckFencePersist(ok: bool)
    | AckAbandon
    | AckDelete
    | AckEnd(ok: bool)
    | Flush(receipts: set<Identity>, slots: set<string>)
    | Crash

  function Initial(): State {
    var empty := Ledger(map[], map[]);
    State(empty, empty, {}, Idle, map[], [], {})
  }

  // ---- Ledger updates ------------------------------------------------------------------

  function PutReceipt(l: Ledger, id: Identity, done: bool): Ledger {
    l.(receipts := l.receipts[id := Receipt(Slot(id), id.revision, done, if done then 2 else 1)])
  }

  /** A new proposal takes the slot over and keeps the acknowledgement it carries. */
  function PutFence(l: Ledger, id: Identity): Ledger {
    var s := Slot(id);
    var acked := if s in l.fences then l.fences[s].acked else 0;
    var memoryRevision := if s in l.fences then l.fences[s].memoryRevision else 0;
    l.(fences := l.fences[s := Fence(id, JsonRevision(id.revision), acked, memoryRevision + 1)])
  }

  function Acknowledge(l: Ledger, s: string, revision: nat): Ledger
    requires s in l.fences
  {
    var f := l.fences[s];
    var acked := if revision > f.acked then revision else f.acked;
    l.(fences := l.fences[s := f.(acked := JsonRevision(acked), memoryRevision := f.memoryRevision + 1)])
  }

  function DropReceipt(l: Ledger, id: Identity): Ledger {
    l.(receipts := l.receipts - {id})
  }

  function Overwrite<K(!new), V>(base: map<K, V>, top: map<K, V>, keys: set<K>): (m: map<K, V>)
    ensures forall k :: k in m <==> if k in keys then k in top else k in base
    ensures forall k :: k in m ==> m[k] == if k in keys then top[k] else base[k]
  {
    map k | k in base.Keys + top.Keys && (if k in keys then k in top else k in base)
      :: if k in keys then top[k] else base[k]
  }

  /** Some of the live records reach the disk: a background save, or a persist that failed
      part way over several bodies. */
  function Reached(disk: Ledger, live: Ledger, receipts: set<Identity>, slots: set<string>): Ledger {
    Ledger(Overwrite(disk.receipts, live.receipts, receipts), Overwrite(disk.fences, live.fences, slots))
  }

  // ---- Steps ---------------------------------------------------------------------------

  predicate Enabled(s: State, step: Step) {
    match step
    case PrepareBegin(id) =>
      s.phase.Idle? && id !in s.live.receipts && Slot(id) !in s.executing &&
      (Slot(id) in s.live.fences ==> s.live.fences[Slot(id)].revision < id.revision)
    case PrepareFence => s.phase.Preparing? && !s.phase.fenceWritten
    case PrepareCommit => s.phase.Preparing? && s.phase.fenceWritten
    case PrepareAbort => s.phase.Preparing?
    case Drop(id) => id in s.runs && s.runs[id].Prepared?
    case Dispatch(id) => id in s.runs && s.runs[id].Prepared?
    case FinalizeBegin(id) => s.phase.Idle? && id in s.runs && s.runs[id].Dispatched? && Finalizable(s.live, id)
    case FinalizeLost(id) => s.phase.Idle? && id in s.runs && s.runs[id].Dispatched?
    case FinalizeEnd(_, _) => s.phase.Finalizing?
    case ReplayDone(id) => s.phase.Idle? && Done(s.live, id)
    case AckBegin(req) => s.phase.Idle? && AckAccepted(s.live, req)
    case AckFencePersist(_) => s.phase.Acking? && s.phase.stage.FenceWritten?
    case AckAbandon => s.phase.Acking? && s.phase.stage.FenceDurable?
    case AckDelete => s.phase.Acking? && s.phase.stage.FenceDurable?
    case AckEnd(_) => s.phase.Acking? && s.phase.stage.ReceiptDeleted?
    case Flush(_, _) => true
    case Crash => true
  }

  predicate Done(l: Ledger, id: Identity) {
    id in l.receipts && l.receipts[id].done
  }

  predicate Finalizable(l: Ledger, id: Identity) {
    id in l.receipts && l.receipts[id].slot == Slot(id) && l.receipts[id].memoryRevision == 1
  }

  /** The checks an ACK passes before anything is written. */
  predicate AckAccepted(l: Ledger, req: AckRequest) {
    var s := SlotFor(req.origin, req.memoryId);
    req.revision != 0 && s in l.fences && req.revision <= l.fences[s].revision && Done(l, req.receipt) &&
    l.receipts[req.receipt].slot == s && l.receipts[req.receipt].revision == req.revision &&
    (l.fences[s].revision == req.revision ==> l.fences[s].requestId == req.receipt)
  }

  /** An ACK whose receipt is gone is answered from the fence alone. */
  predicate AckAlready(l: Ledger, req: AckRequest) {
    var s := SlotFor(req.origin, req.memoryId);
    req.revision != 0 && s in l.fences && req.revision <= l.fences[s].revision &&
    req.receipt !in l.receipts && req.revision <= l.fences[s].acked
  }

  function Take(s: State, step: Step): State
    requires Enabled(s, step)
  {
    match step
    case PrepareBegin(id) => s.(live := PutReceipt(s.live, id, false), phase := Preparing(id, false))
    case PrepareFence => s.(live := PutFence(s.live, s.phase.id), phase := Preparing(s.phase.id, true))
    case PrepareCommit =>
      s.(durable := s.live, phase := Idle,
         executing := s.executing + {Slot(s.phase.id)}, runs := s.runs[s.phase.id := Prepared])
    case PrepareAbort => s.(phase := Idle)
    case Drop(id) => s.(runs := s.runs - {id})
    case Dispatch(id) => s.(runs := s.runs[id := Dispatched], log := s.log + [id])
    case FinalizeBegin(id) => s.(live := PutReceipt(s.live, id, true), phase := Finalizing(id))
    case FinalizeLost(id) => s.(runs := s.runs - {id}, executing := s.executing - {Slot(id)})
    case FinalizeEnd(ok, answer) =>
      s.(durable := if ok then s.live else s.durable, phase := Idle,
         runs := s.runs - {s.phase.id}, executing := s.executing - {Slot(s.phase.id)},
         answers := if ok && answer then s.answers + {s.phase.id} else s.answers)
    case ReplayDone(id) => s.(answers := s.answers + {id})
    case AckBegin(req) =>
      s.(live := Acknowledge(s.live, SlotFor(req.origin, req.memoryId), req.revision),
         phase := Acking(req.receipt, FenceWritten))
    case AckFencePersist(ok) =>
      if ok then s.(durable := s.live, phase := Acking(s.phase.id, FenceDurable)) else s.(phase := Idle)
    case AckAbandon => s.(phase := Idle)
    case AckDelete => s.(live := DropReceipt(s.live, s.phase.id), phase := Acking(s.phase.id, ReceiptDeleted))
    case AckEnd(ok) => s.(durable := if ok then s.live else s.durable, phase := Idle)
    case Flush(receipts, slots) => s.(durable := Reached(s.durable, s.live, receipts, slots))
    case Crash => s.(live := s.durable, executing := {}, phase := Idle, runs := map[], answers := {})
  }

  /** A run: every step taken from where it is enabled. */
  predicate IsRun(s: State, steps: seq<Step>)
    decreases |steps|
  {
    |steps| == 0 || (Enabled(s, steps[0]) && IsRun(Take(s, steps[0]), steps[1..]))
  }

  function After(s: State, steps: seq<Step>): State
    requires IsRun(s, steps)
    decreases |steps|
  {
    if |steps| == 0 then s else After(Take(s, steps[0]), steps[1..])
  }

  // ---- Invariant -----------------------------------------------------------------------

  predicate Fits(l: Ledger, id: Identity) {
    id in l.receipts ==>
      l.receipts[id].slot == Slot(id) && l.receipts[id].revision == id.revision &&
      l.receipts[id].memoryRevision == (if l.receipts[id].done then 2 else 1)
  }

  /** The slot refuses this identity and answers its ACK. */
  predicate Fenced(l: Ledger, id: Identity) {
    Slot(id) in l.fences && id.revision <= l.fences[Slot(id)].revision &&
    JsonRevision(id.revision) <= l.fences[Slot(id)].acked
  }

  predicate Tracked(s: State, id: Identity) {
    id in s.log || id in s.runs
  }

  predicate Kept(s: State, id: Identity) {
    && Fits(s.live, id)
    && Fits(s.durable, id)
    && (id in s.durable.receipts && id !in s.live.receipts ==> s.durable.receipts[id].done && Fenced(s.durable, id))
    && (Done(s.durable, id) && id in s.live.receipts ==> s.live.receipts[id].done)
    && (Done(s.live, id) || Done(s.durable, id) ==> id in s.log)
    && (Tracked(s, id) ==> (id in s.live.receipts && id in s.durable.receipts) || Fenced(s.durable, id))
    && (Tracked(s, id) && id in s.live.receipts && !s.live.receipts[id].done ==> id in s.durable.receipts)
    && (id in s.runs ==> (s.runs[id].Dispatched? <==> id in s.log))
    && (id in s.answers ==> Done(s.live, id) || Fenced(s.durable, id))
    && (id in s.answers ==> id in s.log)
    && (id in s.answers && id in s.live.receipts ==> s.live.receipts[id].done)
  }

  predicate PhaseKept(s: State) {
    match s.phase
    case Idle => true
    case Preparing(id, fenceWritten) =>
      !Tracked(s, id) && id in s.live.receipts && !s.live.receipts[id].done && Slot(id) !in s.executing &&
      (!fenceWritten && Slot(id) in s.live.fences ==> s.live.fences[Slot(id)].revision < id.revision)
    case Finalizing(id) => Done(s.live, id) && id in s.log && id in s.runs && id !in s.answers
    case Acking(id, stage) =>
      match stage
      case FenceWritten => Done(s.live, id) && Fenced(s.live, id)
      case FenceDurable => Done(s.live, id) && Done(s.durable, id) && Fenced(s.durable, id)
      case ReceiptDeleted => id !in s.live.receipts && Fenced(s.durable, id)
  }

  predicate FenceFits(l: Ledger, slot: string) {
    slot in l.fences ==>
      JsonRevision(l.fences[slot].revision) == l.fences[slot].revision &&
      JsonRevision(l.fences[slot].acked) == l.fences[slot].acked
  }

  predicate Advanced(from: Ledger, to: Ledger, slot: string) {
    slot in from.fences ==>
      slot in to.fences && from.fences[slot].revision <= to.fences[slot].revision &&
      from.fences[slot].acked <= to.fences[slot].acked
  }

  predicate SlotKept(s: State, slot: string) {
    FenceFits(s.live, slot) && FenceFits(s.durable, slot) && Advanced(s.durable, s.live, slot)
  }

  predicate RunsKept(s: State) {
    && (forall id :: id in s.runs ==> Slot(id) in s.executing)
    && (forall a, b :: a in s.runs && b in s.runs && a != b ==> Slot(a) != Slot(b))
  }

  predicate NoRepeats(log: seq<Identity>) {
    forall i, j :: 0 <= i < j < |log| ==> log[i] != log[j]
  }

  ghost predicate Inv(s: State) {
    && (forall id :: Kept(s, id))
    && (forall slot :: SlotKept(s, slot))
    && PhaseKept(s)
    && RunsKept(s)
    && NoRepeats(s.log)
  }

  // ---- Steps keep the invariant --------------------------------------------------------

  lemma PutFenceAt(l: Ledger, id: Identity, slot: string)
    requires FenceFits(l, slot)
    requires Slot(id) in l.fences ==> l.fences[Slot(id)].revision < id.revision
    ensures FenceFits(PutFence(l, id), slot)
    ensures Advanced(l, PutFence(l, id), slot)
  {
    if slot == Slot(id) {
      JsonIdempotent(id.revision);
      ExactBelow(0);
      if slot in l.fences {
        JsonMonotone(l.fences[slot].revision, id.revision);
      }
    }
  }

  lemma AcknowledgeAt(l: Ledger, s: string, revision: nat, slot: string)
    requires s in l.fences && FenceFits(l, slot)
    ensures FenceFits(Acknowledge(l, s, revision), slot)
    ensures Advanced(l, Acknowledge(l, s, revision), slot)
    ensures slot == s ==> JsonRevision(revision) <= Acknowledge(l, s, revision).fences[s].acked
  {
    if slot == s {
      var acked := l.fences[s].acked;
      JsonIdempotent(revision);
      if revision > acked {
        JsonMonotone(acked, revision);
      } else {
        JsonMonotone(revision, acked);
      }
    }
  }

  lemma StepSlot(s: State, step: Step, slot: string)
    requires PhaseKept(s) && SlotKept(s, slot) && Enabled(s, step)
    ensures SlotKept(Take(s, step), slot)
    ensures Advanced(s.durable, Take(s, step).durable, slot)
    ensures !step.Crash? ==> Advanced(s.live, Take(s, step).live, slot)
  {
    match step
    case PrepareFence => PutFenceAt(s.live, s.phase.id, slot);
    case AckBegin(req) => AcknowledgeAt(s.live, SlotFor(req.origin, req.memoryId), req.revision, slot);
    case _ =>
  }

  lemma FencedStays(a: Ledger, b: Ledger, id: Identity)
    requires Advanced(a, b, Slot(id)) && Fenced(a, id)
    ensures Fenced(b, id)
  {
  }

  predicate OfPrepare(step: Step) {
    step.PrepareBegin? || step.PrepareFence? || step.PrepareCommit? || step.PrepareAbort?
  }

  predicate OfRun(step: Step) {
    step.Drop? || step.Dispatch? || step.FinalizeBegin? || step.FinalizeLost? || step.FinalizeEnd? || step.ReplayDone?
  }

  predicate OfAck(step: Step) {
    step.AckBegin? || step.AckFencePersist? || step.AckAbandon? || step.AckDelete? || step.AckEnd?
  }

  lemma PrepareKept(s: State, step: Step, id: Identity)
    requires PhaseKept(s) && Kept(s, id) && SlotKept(s, Slot(id)) && Enabled(s, step) && OfPrepare(step)
    ensures Kept(Take(s, step), id)
  {
    StepSlot(s, step, Slot(id));
  }

  lemma RunKept(s: State, step: Step, id: Identity)
    requires PhaseKept(s) && Kept(s, id) && SlotKept(s, Slot(id)) && Enabled(s, step) && OfRun(step)
    ensures Kept(Take(s, step), id)
  {
    StepSlot(s, step, Slot(id));
  }

  lemma AckKept(s: State, step: Step, id: Identity)
    requires PhaseKept(s) && Kept(s, id) && SlotKept(s, Slot(id)) && Enabled(s, step) && OfAck(step)
    ensures Kept(Take(s, step), id)
  {
    StepSlot(s, step, Slot(id));
  }

  lemma FlushKept(s: State, step: Step, id: Identity)
    requires Kept(s, id) && SlotKept(s, Slot(id)) && step.Flush?
    ensures Kept(Take(s, step), id)
  {
    var t := Take(s, step);
    assert Fenced(s.durable, id) ==> Fenced(t.durable, id);
  }

  lemma StepKept(s: State, step: Step, id: Identity)
    requires PhaseKept(s) && Kept(s, id) && SlotKept(s, Slot(id)) && Enabled(s, step)
    ensures Kept(Take(s, step), id)
  {
    if OfPrepare(step) {
      PrepareKept(s, step, id);
    } else if OfRun(step) {
      RunKept(s, step, id);
    } else if OfAck(step) {
      AckKept(s, step, id);
    } else if step.Flush? {
      FlushKept(s, step, id);
    }
  }

  lemma PreparePhase(s: State, step: Step)
    requires Inv(s) && Enabled(s, step) && OfPrepare(step)
    ensures PhaseKept(Take(s, step))
  {
    if step.PrepareBegin? {
      assert Kept(s, step.id) && SlotKept(s, Slot(step.id));
    }
  }

  lemma RunPhase(s: State, step: Step)
    requires Inv(s) && Enabled(s, step) && OfRun(step)
    ensures PhaseKept(Take(s, step))
  {
    if step.FinalizeBegin? || step.Drop? {
      assert Kept(s, step.id);
    }
  }

  lemma AckBeginFences(l: Ledger, req: AckRequest)
    requires AckAccepted(l, req) && Fits(l, req.receipt) && FenceFits(l, Slot(req.receipt))
    ensures Fenced(Acknowledge(l, SlotFor(req.origin, req.memoryId), req.revision), req.receipt)
  {
    AcknowledgeAt(l, SlotFor(req.origin, req.memoryId), req.revision, Slot(req.receipt));
  }

  lemma AckPhase(s: State, step: Step)
    requires Inv(s) && Enabled(s, step) && OfAck(step)
    ensures PhaseKept(Take(s, step))
  {
    if step.AckBegin? {
      assert Kept(s, step.req.receipt) && SlotKept(s, Slot(step.req.receipt));
      AckBeginFences(s.live, step.req);
    }
  }

  lemma FlushPhase(s: State, step: Step)
    requires Inv(s) && step.Flush?
    ensures PhaseKept(Take(s, step))
  {
    if s.phase.Acking? {
      StepSlot(s, step, Slot(s.phase.id));
    }
  }

  lemma StepRuns(s: State, step: Step)
    requires PhaseKept(s) && RunsKept(s) && Enabled(s, step)
    ensures RunsKept(Take(s, step))
  {
  }

  lemma StepLog(s: State, step: Step)
    requires Inv(s) && Enabled(s, step)
    ensures NoRepeats(Take(s, step).log)
  {
    if step.Dispatch? {
      assert Kept(s, step.id);
    }
  }

  lemma StepInv(s: State, step: Step)
    requires Inv(s) && Enabled(s, step)
    ensures Inv(Take(s, step))
  {
    forall id ensures Kept(Take(s, step), id) {
      assert Kept(s, id) && SlotKept(s, Slot(id));
      StepKept(s, step, id);
    }
    forall slot ensures SlotKept(Take(s, step), slot) {
      StepSlot(s, step, slot);
    }
    if OfPrepare(step) {
      PreparePhase(s, step);
    } else if OfRun(step) {
      RunPhase(s, step);
    } else if OfAck(step) {
      AckPhase(s, step);
    } else if step.Flush? {
      FlushPhase(s, step);
    }
    StepRuns(s, step);
    StepLog(s, step);
  }

  lemma {:induction false} RunInv(s: State, steps: seq<Step>)
    requires Inv(s) && IsRun(s, steps)
    ensures Inv(After(s, steps))
    decreases |steps|
  {
    if |steps| > 0 {
      StepInv(s, steps[0]);
      RunInv(Take(s, steps[0]), steps[1..]);
    }
  }

  // ---- Main results --------------------------------------------------------------------

  /** A state some run from the empty ledger leads to. */
  ghost predicate Reachable(s: State) {
    exists steps :: IsRun(Initial(), steps) && After(Initial(), steps) == s
  }

  lemma InitialInv()
    ensures Inv(Initial())
  {
  }

  lemma ReachableInv(s: State)
    requires Reachable(s)
    ensures Inv(s)
  {
    var steps :| IsRun(Initial(), steps) && After(Initial(), steps) == s;
    InitialInv();
    RunInv(Initial(), steps);
  }

  lemma {:induction false} Snoc(s: State, steps: seq<Step>, step: Step)
    requires IsRun(s, steps) && Enabled(After(s, steps), step)
    ensures IsRun(s, steps + [step]) && After(s, steps + [step]) == Take(After(s, steps), step)
    decreases |steps|
  {
    if |steps| == 0 {
      assert steps + [step] == [step];
      assert [step][1..] == [];
    } else {
      Snoc(Take(s, steps[0]), steps[1..], step);
      assert (steps + [step])[1..] == steps[1..] + [step];
    }
  }

  lemma ReachableStep(s: State, step: Step)
    requires Reachable(s) && Enabled(s, step)
    ensures Reachable(Take(s, step))
  {
    var steps :| IsRun(Initial(), steps) && After(Initial(), steps) == s;
    Snoc(Initial(), steps, step);
  }

  /** Duplicates, crashes and failed persists included, no identity is dispatched twice, and
      one that was dispatched is refused from then on, its receipt collected or not. */
  lemma AtMostOnce(s: State)
    requires Reachable(s)
    ensures NoRepeats(s.log)
    ensures forall id :: id in s.log ==> !Enabled(s, PrepareBegin(id)) && !Enabled(s, Dispatch(id))
  {
    ReachableInv(s);
    forall id | id in s.log ensures !Enabled(s, PrepareBegin(id)) && !Enabled(s, Dispatch(id)) {
      assert Kept(s, id) && SlotKept(s, Slot(id));
    }
  }

  /** Nothing is dispatched before its receipt is durable, and a durable receipt outlives
      every crash until the slot durably refuses the identity. */
  lemma DispatchedIsHeld(s: State, id: Identity)
    requires Reachable(s) && Tracked(s, id)
    ensures id in s.durable.receipts || Fenced(s.durable, id)
    ensures id in s.live.receipts || Fenced(s.live, id)
  {
    ReachableInv(s);
    assert Kept(s, id) && SlotKept(s, Slot(id));
  }

  lemma DoneWasDispatched(s: State, id: Identity)
    requires Reachable(s) && (Done(s.live, id) || Done(s.durable, id))
    ensures id in s.log
  {
    ReachableInv(s);
    assert Kept(s, id);
  }

  /** At most one proposal per slot executes in one process. */
  lemma OneExecutionPerSlot(s: State, a: Identity, b: Identity)
    requires Reachable(s) && a in s.runs && b in s.runs && Slot(a) == Slot(b)
    ensures a == b && Slot(a) in s.executing
  {
    ReachableInv(s);
  }

  /** What a restart finds never goes back in any slot, whatever happens; what the process
      sees goes back only by a restart, and then to no less than the disk. */
  lemma {:induction false} FencesNeverGoBack(s: State, steps: seq<Step>, slot: string)
    requires Reachable(s) && IsRun(s, steps)
    ensures Advanced(s.durable, After(s, steps).durable, slot)
    ensures Advanced(s.durable, After(s, steps).live, slot)
    ensures (forall i :: 0 <= i < |steps| ==> !steps[i].Crash?) ==> Advanced(s.live, After(s, steps).live, slot)
    decreases |steps|
  {
    ReachableInv(s);
    assert SlotKept(s, slot);
    if |steps| > 0 {
      StepSlot(s, steps[0], slot);
      ReachableStep(s, steps[0]);
      FencesNeverGoBack(Take(s, steps[0]), steps[1..], slot);
    }
  }

  /** No step removes a receipt that is still executing: not from disk, and from the live
      ledger only by a restart, which drops it only if it was never dispatched. */
  lemma ExecutingIsNeverCollected(s: State, step: Step, id: Identity)
    requires Reachable(s) && Enabled(s, step)
    ensures id in s.durable.receipts && !s.durable.receipts[id].done ==> id in Take(s, step).durable.receipts
    ensures id in s.live.receipts && !s.live.receipts[id].done && id !in Take(s, step).live.receipts
            ==> step.Crash? && !Tracked(s, id)
  {
    ReachableInv(s);
    assert Kept(s, id);
    if id in s.live.receipts && !s.live.receipts[id].done {
      assert !Done(s.durable, id);
    }
  }

  function AckOf(id: Identity): AckRequest {
    AckRequest(id, id.memoryId, id.origin, id.revision)
  }

  /** A dispatched identity whose receipt is gone was acknowledged through its revision. */
  lemma GoneIsAcknowledged(s: State, id: Identity)
    requires Reachable(s) && id in s.log && (id !in s.live.receipts || id !in s.durable.receipts)
    ensures Fenced(s.durable, id) && Fenced(s.live, id)
  {
    ReachableInv(s);
    assert Kept(s, id) && SlotKept(s, Slot(id));
  }

  /** A number that doubles hold exactly, above any given one. */
  lemma ExactAbove(r: nat)
    ensures var big := EXACT * Ulp(r); r < big && JsonRevision(big) == big
  {
    if r < EXACT {
      ExactBelow(EXACT);
    } else {
      UlpOfTop(Ulp(r), r);
      assert EXACT * Ulp(r) == HALF * (2 * Ulp(r));
      RoundMultiple(EXACT * Ulp(r), HALF, 2 * Ulp(r));
    }
  }

  lemma Prepares(s: State, id: Identity) returns (t: State)
    requires Reachable(s) && Enabled(s, PrepareBegin(id))
    ensures Reachable(t)
    ensures t == s.(live := PutFence(PutReceipt(s.live, id, false), id),
                    durable := PutFence(PutReceipt(s.live, id, false), id),
                    executing := s.executing + {Slot(id)}, runs := s.runs[id := Prepared])
  {
    ReachableStep(s, PrepareBegin(id));
    var a := Take(s, PrepareBegin(id));
    ReachableStep(a, PrepareFence);
    var b := Take(a, PrepareFence);
    ReachableStep(b, PrepareCommit);
    t := Take(b, PrepareCommit);
  }

  lemma Executes(s: State, id: Identity) returns (t: State)
    requires Reachable(s) && s.phase.Idle? && id in s.runs && s.runs[id].Prepared? && Finalizable(s.live, id)
    ensures Reachable(t)
    ensures t == s.(live := PutReceipt(s.live, id, true), durable := PutReceipt(s.live, id, true),
                    executing := s.executing - {Slot(id)}, runs := s.runs - {id}, log := s.log + [id])
  {
    ReachableStep(s, Dispatch(id));
    var a := Take(s, Dispatch(id));
    ReachableStep(a, FinalizeBegin(id));
    var b := Take(a, FinalizeBegin(id));
    ReachableStep(b, FinalizeEnd(true, false));
    t := Take(b, FinalizeEnd(true, false));
    assert t.runs == s.runs - {id};
  }

  lemma Collects(s: State, req: AckRequest) returns (t: State)
    requires Reachable(s) && Enabled(s, AckBegin(req))
    ensures Reachable(t) && t.phase.Idle? && t.log == s.log
    ensures t.live == DropReceipt(Acknowledge(s.live, SlotFor(req.origin, req.memoryId), req.revision), req.receipt)
  {
    ReachableStep(s, AckBegin(req));
    var a := Take(s, AckBegin(req));
    ReachableStep(a, AckFencePersist(true));
    var b := Take(a, AckFencePersist(true));
    ReachableStep(b, AckDelete);
    var c := Take(b, AckDelete);
    ReachableStep(c, AckEnd(true));
    t := Take(c, AckEnd(true));
  }

  /** A revision that JSON rounds down can be collected once the slot moved on, and is then
      acknowledged only up to the rounded value. */
  lemma RoundedAckIsStranded(id: Identity) returns (s: State)
    requires JsonRevision(id.revision) < id.revision
    ensures Reachable(s) && id in s.log && id !in s.live.receipts && !AckAlready(s.live, AckOf(id))
  {
    assert Reachable(Initial()) by {
      assert IsRun(Initial(), []) && After(Initial(), []) == Initial();
    }
    var a := Prepares(Initial(), id);
    var b := Executes(a, id);
    ExactAbove(id.revision);
    var later := id.(revision := EXACT * Ulp(id.revision));
    assert later != id && Slot(later) == Slot(id);
    assert b.executing == {};
    var c := Prepares(b, later);
    assert Done(c.live, id);
    s := Collects(c, AckOf(id));
    assert s.live.fences[Slot(id)].acked == JsonRevision(id.revision);
  }

  /** Repeating the ACK of a collected receipt succeeds, in every reachable state, exactly
      for the revisions that JSON does not round down. */
  lemma RepeatedAckIff(id: Identity)
    requires id.revision != 0
    ensures id.revision <= JsonRevision(id.revision) <==>
            forall s :: Reachable(s) && id in s.log && id !in s.live.receipts ==> AckAlready(s.live, AckOf(id))
  {
    if id.revision <= JsonRevision(id.revision) {
      forall s | Reachable(s) && id in s.log && id !in s.live.receipts ensures AckAlready(s.live, AckOf(id)) {
        GoneIsAcknowledged(s, id);
      }
    } else {
      var s := RoundedAckIsStranded(id);
    }
  }
}
