/** Nodes and the Sovereign together. Requests stay in the network once sent, so they may be
    delivered late, often, out of order or never; replies likewise. */
module Mesh {
  import opened Strings
  import opened ProposalReplay
  import opened JsonNumbers
  import opened Spools

  datatype Writing = NotWriting | WritingTo(next: seq<Request>)

  /** `outbox` holds the copies of spooled requests that calls under way may send. */
  datatype Node = Node(
    journal: seq<Request>,
    record: seq<Request>,
    durable: seq<Request>,
    writing: Writing,
    outbox: set<Request>)

  /** `kept` is the history of requests that were durable in some spool. `unsaved` follows the
      writes of results: a result is unsaved from its write until a write to disk covers it.
      `early` is the history of receipts that were named in a reply while unsaved. */
  datatype System = System(
    sovereign: State,
    nodes: map<string, Node>,
    net: set<Request>,
    accepted: set<Request>,
    answered: set<Request>,
    kept: set<Request>,
    unsaved: set<Identity>,
    early: set<Identity>)

  datatype Event =
    | StartDefer(node: string, req: Request)
    | StartSwap(node: string, proposal: Request)
    | StartRemove(node: string, req: Request)
    | WriteSucceeds(node: string)
    | WriteFails(node: string)
    | NodeSaves(node: string)
    | NodeRestarts(node: string)
    | StartFlush(node: string)
    | Send(node: string, req: Request)
    | Decide(step: Step)
    | Accept(proposal: Request)
    | PersistAndAccept(proposal: Request)
    | CollectAndAnswer(ack: Request)
    | AnswerCollected(ack: Request)
    | AnswerOther(req: Request)

  function IdentityOf(p: Request): Identity
    requires p.Propose?
  {
    Identity(TrimSpace(p.memoryId), TrimSpace(p.origin), TrimSpace(p.digest), p.revision, multiset(p.tags))
  }

  predicate Complete(p: Request) {
    p.Propose? && TrimSpace(p.memoryId) != "" && TrimSpace(p.origin) != ""
  }

  function RequestOf(ack: Request): AckRequest
    requires ack.AckProposal?
  {
    AckRequest(ack.receipt, TrimSpace(ack.memoryId), TrimSpace(ack.origin), ack.revision)
  }

  predicate Settled(l: Ledger, id: Identity) {
    Done(l, id) || Fenced(l, id)
  }

  function Elements(spool: seq<Request>): set<Request> {
    set r | r in spool
  }

  function FullFlush(s: State): Step {
    Flush(s.live.receipts.Keys + s.durable.receipts.Keys, s.live.fences.Keys + s.durable.fences.Keys)
  }

  // ---- Events --------------------------------------------------------------------------

  /** Requests the Sovereign acts on come from the network; the rest of its steps are its own. */
  predicate Prompted(net: set<Request>, step: Step) {
    match step
    case PrepareBegin(id) => exists p :: p in net && Complete(p) && IdentityOf(p) == id
    case AckBegin(req) => exists a :: a in net && a.AckProposal? && RequestOf(a) == req
    case _ => true
  }

  predicate Occurs(s: System, e: Event) {
    match e
    case StartDefer(n, req) => n in s.nodes && s.nodes[n].writing.NotWriting? && !req.AckProposal?
    case StartSwap(n, p) =>
      n in s.nodes && s.nodes[n].writing.NotWriting? && p in s.nodes[n].journal && p in s.accepted &&
      Complete(p) && p.revision != 0
    case StartRemove(n, req) =>
      n in s.nodes && s.nodes[n].writing.NotWriting? && req in s.answered && !req.Propose?
    case WriteSucceeds(n) => n in s.nodes && s.nodes[n].writing.WritingTo?
    case WriteFails(n) => n in s.nodes && s.nodes[n].writing.WritingTo?
    case NodeSaves(n) => n in s.nodes
    case NodeRestarts(n) => n in s.nodes
    case StartFlush(n) => n in s.nodes
    case Send(n, req) => n in s.nodes && req in s.nodes[n].outbox
    case Decide(step) => Enabled(s.sovereign, step) && Prompted(s.net, step)
    case Accept(p) => p in s.net && Complete(p) && IdentityOf(p) in s.sovereign.answers
    case PersistAndAccept(p) => p in s.net && Complete(p) && IdentityOf(p) in s.sovereign.answers
    case CollectAndAnswer(a) =>
      a in s.net && a.AckProposal? && Enabled(s.sovereign, AckEnd(true)) && s.sovereign.phase.id == a.receipt
    case AnswerCollected(a) =>
      a in s.net && a.AckProposal? && s.sovereign.phase.Idle? && AckAlready(s.sovereign.live, RequestOf(a))
    case AnswerOther(req) => req in s.net && req.Other?
  }

  function Write(n: Node, next: seq<Request>): Node {
    n.(record := next, writing := WritingTo(next))
  }

  function NodeAfter(n: Node, e: Event): Node {
    match e
    case StartDefer(_, req) => Write(n, Deferred(n.journal, req))
    case StartSwap(_, p) => if p.Propose? then Write(n, Replaced(n.journal, p, AckFor(p, IdentityOf(p)))) else n
    case StartRemove(_, req) => Write(n, Removed(n.journal, req))
    case WriteSucceeds(_) =>
      if n.writing.WritingTo?
      then n.(journal := n.writing.next, durable := n.record, writing := NotWriting, outbox := n.outbox + Elements(n.writing.next))
      else n
    case WriteFails(_) => n.(writing := NotWriting)
    case NodeSaves(_) => n.(durable := n.record)
    case NodeRestarts(_) => Node(n.durable, n.durable, n.durable, NotWriting, {})
    case StartFlush(_) => n.(outbox := n.outbox + Elements(n.journal))
    case _ => n
  }

  /** The events alone decide what is unsaved: finalization writes a result, a barrier that
      succeeds or a restart settles all of them, a partial save settles what it writes. */
  function UnsavedAfter(unsaved: set<Identity>, step: Step): set<Identity> {
    match step
    case FinalizeBegin(id) => unsaved + {id}
    case PrepareCommit => {}
    case FinalizeEnd(ok, _) => if ok then {} else unsaved
    case AckFencePersist(ok) => if ok then {} else unsaved
    case AckEnd(ok) => if ok then {} else unsaved
    case Crash => {}
    case Flush(receipts, _) => unsaved - receipts
    case _ => unsaved
  }

  function Decided(s: System, step: Step): System
    requires Enabled(s.sovereign, step)
  {
    s.(sovereign := Take(s.sovereign, step), unsaved := UnsavedAfter(s.unsaved, step))
  }

  predicate AtNode(e: Event) {
    e.StartDefer? || e.StartSwap? || e.StartRemove? || e.WriteSucceeds? || e.WriteFails? || e.NodeSaves? ||
    e.NodeRestarts? || e.StartFlush?
  }

  function Next(s: System, e: Event): System
    requires Occurs(s, e)
  {
    if AtNode(e) then
      var n := NodeAfter(s.nodes[e.node], e);
      s.(nodes := s.nodes[e.node := n], kept := s.kept + Elements(n.durable))
    else
      match e
      case Send(_, req) => s.(net := s.net + {req})
      case Decide(step) => Decided(s, step)
      case Accept(p) =>
        s.(accepted := s.accepted + {p},
           early := if IdentityOf(p) in s.unsaved then s.early + {IdentityOf(p)} else s.early)
      case PersistAndAccept(p) => Decided(s, FullFlush(s.sovereign)).(accepted := s.accepted + {p})
      case CollectAndAnswer(a) => Decided(s, AckEnd(true)).(answered := s.answered + {a})
      case AnswerCollected(a) => s.(answered := s.answered + {a})
      case AnswerOther(req) => s.(answered := s.answered + {req})
      case _ => s
  }

  /** Empty spools, an empty ledger and nothing under way. */
  predicate Fresh(s: System) {
    s.sovereign == Initial() && s.net == {} && s.accepted == {} && s.answered == {} && s.kept == {} && s.unsaved == {} && s.early == {} &&
    forall n :: n in s.nodes ==> s.nodes[n] == Node([], [], [], NotWriting, {})
  }

  predicate IsHistory(s: System, events: seq<Event>)
    decreases |events|
  {
    |events| == 0 || (Occurs(s, events[0]) && IsHistory(Next(s, events[0]), events[1..]))
  }

  function Now(s: System, events: seq<Event>): System
    requires IsHistory(s, events)
    decreases |events|
  {
    if |events| == 0 then s else Now(Next(s, events[0]), events[1..])
  }

  // ---- Invariant -----------------------------------------------------------------------

  /** An ACK carries its receipt's own slot and revision, the receipt was dispatched, and
      unless it was named early it is durably done or fenced. */
  predicate Backed(s: State, early: set<Identity>, req: Request) {
    req.AckProposal? ==>
      req.revision == req.receipt.revision && TrimSpace(req.memoryId) == req.receipt.memoryId &&
      TrimSpace(req.origin) == req.receipt.origin && Vouched(s, early, req.receipt)
  }

  predicate Vouched(s: State, early: set<Identity>, id: Identity) {
    id in s.log && (id !in early ==> Settled(s.durable, id))
  }

  predicate SpoolBacked(s: State, early: set<Identity>, spool: seq<Request>) {
    OneProposalPerMemory(spool) && forall r :: r in spool ==> Backed(s, early, r)
  }

  predicate NodeBacked(s: State, early: set<Identity>, kept: set<Request>, n: Node) {
    && SpoolBacked(s, early, n.journal)
    && SpoolBacked(s, early, n.record)
    && SpoolBacked(s, early, n.durable)
    && (forall r :: r in n.journal ==> r in kept)
    && (forall r :: r in n.durable ==> r in kept)
    && (n.writing.WritingTo? ==> n.record == n.writing.next)
    && n.outbox <= kept
  }

  ghost predicate Proposed(s: State, kept: set<Request>, id: Identity) {
    Tracked(s, id) || s.phase == Preparing(id, true) || s.phase == Preparing(id, false) ==>
      exists p :: p in kept && Complete(p) && IdentityOf(p) == id
  }

  ghost predicate MeshInv(s: System) {
    && Inv(s.sovereign)
    && (forall n :: n in s.nodes ==> NodeBacked(s.sovereign, s.early, s.kept, s.nodes[n]))
    && (forall r :: r in s.kept ==> Backed(s.sovereign, s.early, r))
    && s.net <= s.kept
    && (forall p :: p in s.accepted ==> p.Propose? && Vouched(s.sovereign, s.early, IdentityOf(p)))
    && (forall a :: a in s.answered && a.AckProposal? ==> Fenced(s.sovereign.durable, a.receipt))
    && (forall id :: Proposed(s.sovereign, s.kept, id))
    && (forall id :: UnsavedFits(s.sovereign, s.unsaved, id))
  }

  predicate UnsavedFits(s: State, unsaved: set<Identity>, id: Identity) {
    id in unsaved <==> Done(s.live, id) && !Done(s.durable, id)
  }

  // ---- Sovereign steps keep what was promised ------------------------------------------

  lemma SettledStays(s: State, step: Step, id: Identity)
    requires Inv(s) && Enabled(s, step) && Settled(s.durable, id)
    ensures Settled(Take(s, step).durable, id)
  {
    var t := Take(s, step);
    assert Kept(s, id) && SlotKept(s, Slot(id));
    StepSlot(s, step, Slot(id));
    StepKept(s, step, id);
    if Fenced(s.durable, id) {
      FencedStays(s.durable, t.durable, id);
    }
  }

  lemma VouchedStays(s: State, step: Step, early: set<Identity>, id: Identity)
    requires Inv(s) && Enabled(s, step) && Vouched(s, early, id)
    ensures Vouched(Take(s, step), early, id)
  {
    if id !in early {
      SettledStays(s, step, id);
    }
  }

  lemma SpoolStays(s: State, step: Step, early: set<Identity>, spool: seq<Request>)
    requires Inv(s) && Enabled(s, step) && SpoolBacked(s, early, spool)
    ensures SpoolBacked(Take(s, step), early, spool)
  {
    forall r | r in spool ensures Backed(Take(s, step), early, r) {
      if r.AckProposal? {
        VouchedStays(s, step, early, r.receipt);
      }
    }
  }

  lemma ProposedStays(s: State, step: Step, kept: set<Request>, net: set<Request>, id: Identity)
    requires Inv(s) && Enabled(s, step) && Prompted(net, step) && net <= kept
    requires forall i :: Proposed(s, kept, i)
    ensures Proposed(Take(s, step), kept, id)
  {
    assert Proposed(s, kept, id);
    if step.PrepareBegin? && step.id == id {
      var p :| p in net && Complete(p) && IdentityOf(p) == id;
      assert p in kept;
    }
    if step.FinalizeBegin? || step.FinalizeEnd? {
      assert Kept(s, id);
    }
  }

  lemma UnsavedStays(s: State, step: Step, unsaved: set<Identity>, id: Identity)
    requires Inv(s) && Enabled(s, step) && UnsavedFits(s, unsaved, id)
    ensures UnsavedFits(Take(s, step), UnsavedAfter(unsaved, step), id)
  {
    assert Kept(s, id);
  }

  lemma SovereignMoves(s: System, step: Step)
    requires MeshInv(s) && Enabled(s.sovereign, step) && Prompted(s.net, step)
    ensures MeshInv(Decided(s, step))
  {
    var t := Decided(s, step);
    StepInv(s.sovereign, step);
    forall n | n in s.nodes ensures NodeBacked(t.sovereign, t.early, t.kept, t.nodes[n]) {
      SpoolStays(s.sovereign, step, s.early, s.nodes[n].journal);
      SpoolStays(s.sovereign, step, s.early, s.nodes[n].record);
      SpoolStays(s.sovereign, step, s.early, s.nodes[n].durable);
    }
    forall r | r in s.kept ensures Backed(t.sovereign, t.early, r) {
      if r.AckProposal? {
        VouchedStays(s.sovereign, step, s.early, r.receipt);
      }
    }
    forall p | p in s.accepted ensures p.Propose? && Vouched(t.sovereign, t.early, IdentityOf(p)) {
      VouchedStays(s.sovereign, step, s.early, IdentityOf(p));
    }
    forall a | a in s.answered && a.AckProposal? ensures Fenced(t.sovereign.durable, a.receipt) {
      assert SlotKept(s.sovereign, Slot(a.receipt));
      StepSlot(s.sovereign, step, Slot(a.receipt));
      FencedStays(s.sovereign.durable, t.sovereign.durable, a.receipt);
    }
    forall id ensures Proposed(t.sovereign, t.kept, id) {
      ProposedStays(s.sovereign, step, s.kept, s.net, id);
    }
    forall id ensures UnsavedFits(t.sovereign, t.unsaved, id) {
      assert UnsavedFits(s.sovereign, s.unsaved, id);
      UnsavedStays(s.sovereign, step, s.unsaved, id);
    }
  }

  // ---- Node steps ----------------------------------------------------------------------

  lemma WriteBacked(s: State, early: set<Identity>, kept: set<Request>, n: Node, next: seq<Request>, added: Request)
    requires NodeBacked(s, early, kept, n) && OneProposalPerMemory(next) && Backed(s, early, added)
    requires forall r :: r in next ==> r == added || r in n.journal
    ensures NodeBacked(s, early, kept, Write(n, next))
  {
  }

  lemma NodeMoves(s: System, e: Event)
    requires MeshInv(s) && AtNode(e) && Occurs(s, e)
    ensures var n := NodeAfter(s.nodes[e.node], e);
            NodeBacked(s.sovereign, s.early, s.kept + Elements(n.durable), n)
  {
    var n := s.nodes[e.node];
    assert NodeBacked(s.sovereign, s.early, s.kept, n);
    match e
    case StartDefer(_, req) =>
      DeferredKeeps(n.journal, req);
      WriteBacked(s.sovereign, s.early, s.kept, n, Deferred(n.journal, req), req);
    case StartSwap(_, p) =>
      var ack := AckFor(p, IdentityOf(p));
      ReplacedKeeps(n.journal, p, ack);
      WriteBacked(s.sovereign, s.early, s.kept, n, Replaced(n.journal, p, ack), ack);
    case StartRemove(_, req) =>
      RemovedKeeps(n.journal, req);
      WriteBacked(s.sovereign, s.early, s.kept, n, Removed(n.journal, req), Other("", ""));
    case _ =>
  }

  lemma KeptGrows(s: State, early: set<Identity>, kept: set<Request>, more: set<Request>, n: Node)
    requires NodeBacked(s, early, kept, n) && kept <= more
    ensures NodeBacked(s, early, more, n)
  {
  }

  lemma AtNodeInv(s: System, e: Event)
    requires MeshInv(s) && AtNode(e) && Occurs(s, e)
    ensures MeshInv(Next(s, e))
  {
    NodeMoves(s, e);
    var t := Next(s, e);
    forall n | n in t.nodes ensures NodeBacked(t.sovereign, t.early, t.kept, t.nodes[n]) {
      if n != e.node {
        KeptGrows(s.sovereign, s.early, s.kept, t.kept, s.nodes[n]);
      }
    }
    forall id ensures Proposed(t.sovereign, t.kept, id) {
      assert Proposed(s.sovereign, s.kept, id);
    }
  }

  // ---- Replies -------------------------------------------------------------------------

  lemma EarlyGrows(s: System, id: Identity)
    requires MeshInv(s)
    ensures MeshInv(s.(early := s.early + {id}))
  {
    var t := s.(early := s.early + {id});
    forall n | n in t.nodes ensures NodeBacked(t.sovereign, t.early, t.kept, t.nodes[n]) {
      assert NodeBacked(s.sovereign, s.early, s.kept, s.nodes[n]);
    }
    forall i ensures Proposed(t.sovereign, t.kept, i) && UnsavedFits(t.sovereign, t.unsaved, i) {
      assert Proposed(s.sovereign, s.kept, i) && UnsavedFits(s.sovereign, s.unsaved, i);
    }
  }

  lemma AcceptInv(s: System, e: Event)
    requires MeshInv(s) && e.Accept? && Occurs(s, e)
    ensures MeshInv(Next(s, e))
  {
    var id := IdentityOf(e.proposal);
    assert Kept(s.sovereign, id) && UnsavedFits(s.sovereign, s.unsaved, id);
    var t := s;
    if id in s.unsaved {
      EarlyGrows(s, id);
      t := s.(early := s.early + {id});
    }
    forall i ensures Proposed(t.sovereign, t.kept, i) && UnsavedFits(t.sovereign, t.unsaved, i) {
      assert Proposed(s.sovereign, s.kept, i) && UnsavedFits(s.sovereign, s.unsaved, i);
    }
  }

  lemma FullFlushSettles(s: State, id: Identity)
    requires Inv(s) && id in s.answers
    ensures Settled(Take(s, FullFlush(s)).durable, id)
  {
    assert Kept(s, id) && SlotKept(s, Slot(id));
    var t := Take(s, FullFlush(s));
    assert t.durable.receipts == s.live.receipts;
    StepSlot(s, FullFlush(s), Slot(id));
  }

  lemma PersistAndAcceptInv(s: System, e: Event)
    requires MeshInv(s) && e.PersistAndAccept? && Occurs(s, e)
    ensures MeshInv(Next(s, e))
  {
    var id := IdentityOf(e.proposal);
    assert Kept(s.sovereign, id);
    SovereignMoves(s, FullFlush(s.sovereign));
    FullFlushSettles(s.sovereign, id);
    var t := Decided(s, FullFlush(s.sovereign));
    forall i ensures Proposed(t.sovereign, t.kept, i) && UnsavedFits(t.sovereign, t.unsaved, i) {
    }
  }

  lemma AnswerInv(s: System, a: Request)
    requires MeshInv(s) && (a.AckProposal? ==> Fenced(s.sovereign.durable, a.receipt))
    ensures MeshInv(s.(answered := s.answered + {a}))
  {
    forall i ensures Proposed(s.sovereign, s.kept, i) {
    }
  }

  lemma CollectedIsFenced(s: State, early: set<Identity>, a: Request)
    requires Inv(s) && a.AckProposal? && Backed(s, early, a) && a.receipt !in s.live.receipts
    ensures Fenced(s.durable, a.receipt)
  {
    assert Kept(s, a.receipt);
  }

  lemma NextInv(s: System, e: Event)
    requires MeshInv(s) && Occurs(s, e)
    ensures MeshInv(Next(s, e))
  {
    if AtNode(e) {
      AtNodeInv(s, e);
    } else {
      match e
      case Send(n, req) =>
        assert NodeBacked(s.sovereign, s.early, s.kept, s.nodes[n]);
        forall i ensures Proposed(s.sovereign, s.kept, i) {
        }
      case Decide(step) => SovereignMoves(s, step);
      case Accept(_) => AcceptInv(s, e);
      case PersistAndAccept(_) => PersistAndAcceptInv(s, e);
      case CollectAndAnswer(a) =>
        SovereignMoves(s, AckEnd(true));
        FencedStaysDurable(s.sovereign, AckEnd(true), a.receipt);
        AnswerInv(Decided(s, AckEnd(true)), a);
      case AnswerCollected(a) =>
        CollectedIsFenced(s.sovereign, s.early, a);
        AnswerInv(s, a);
      case AnswerOther(req) => AnswerInv(s, req);
      case _ =>
    }
  }

  lemma FencedStaysDurable(s: State, step: Step, id: Identity)
    requires Inv(s) && Enabled(s, step) && Fenced(s.durable, id)
    ensures Fenced(Take(s, step).durable, id)
  {
    assert SlotKept(s, Slot(id));
    StepSlot(s, step, Slot(id));
    FencedStays(s.durable, Take(s, step).durable, id);
  }

  lemma FreshInv(s: System)
    requires Fresh(s)
    ensures MeshInv(s)
  {
    InitialInv();
  }

  lemma {:induction false} HistoryInv(s: System, events: seq<Event>)
    requires MeshInv(s) && IsHistory(s, events)
    ensures MeshInv(Now(s, events))
    decreases |events|
  {
    if |events| > 0 {
      NextInv(s, events[0]);
      HistoryInv(Next(s, events[0]), events[1..]);
    }
  }

  // ---- Main results --------------------------------------------------------------------

  /** A state some history of the Mesh leads to. */
  ghost predicate Arises(s: System) {
    exists start, events :: Fresh(start) && IsHistory(start, events) && Now(start, events) == s
  }

  lemma ArisesInv(s: System)
    requires Arises(s)
    ensures MeshInv(s)
  {
    var start, events :| Fresh(start) && IsHistory(start, events) && Now(start, events) == s;
    FreshInv(start);
    HistoryInv(start, events);
  }

  /** A request is on the network only after it was durable in a spool, and everything the
      Sovereign dispatched came from a proposal that was, with a Memory and an origin, each at
      most once. */
  lemma SentWasDurable(s: System)
    requires Arises(s)
    ensures s.net <= s.kept
    ensures NoRepeats(s.sovereign.log)
    ensures forall id :: id in s.sovereign.log ==> exists p :: p in s.kept && Complete(p) && IdentityOf(p) == id
    ensures forall id :: id in s.sovereign.log ==> id.memoryId != "" && id.origin != ""
  {
    ArisesInv(s);
    forall id | id in s.sovereign.log
      ensures (exists p :: p in s.kept && Complete(p) && IdentityOf(p) == id) && id.memoryId != "" && id.origin != ""
    {
      assert Proposed(s.sovereign, s.kept, id);
    }
  }

  /** No copy of a spool ever holds two proposals for one Memory. */
  lemma SpoolsHoldOneProposal(s: System, n: string)
    requires Arises(s) && n in s.nodes
    ensures OneProposalPerMemory(s.nodes[n].journal) && OneProposalPerMemory(s.nodes[n].record)
    ensures OneProposalPerMemory(s.nodes[n].durable)
  {
    ArisesInv(s);
    assert NodeBacked(s.sovereign, s.early, s.kept, s.nodes[n]);
  }

  /** Every ACK in any copy of a spool names a receipt the Sovereign holds durably or has
      durably fenced, with that receipt's own slot and revision; if the receipt was not
      named early, it is durably done or fenced. */
  lemma SpooledAckIsBacked(s: System, n: string, ack: Request)
    requires Arises(s) && n in s.nodes && ack.AckProposal?
    requires ack in s.nodes[n].journal || ack in s.nodes[n].record || ack in s.nodes[n].durable
    ensures ack.receipt in s.sovereign.durable.receipts || Fenced(s.sovereign.durable, ack.receipt)
    ensures SlotFor(TrimSpace(ack.origin), TrimSpace(ack.memoryId)) == Slot(ack.receipt)
    ensures ack.revision == ack.receipt.revision
    ensures ack.receipt !in s.early ==> Settled(s.sovereign.durable, ack.receipt)
  {
    ArisesInv(s);
    assert NodeBacked(s.sovereign, s.early, s.kept, s.nodes[n]);
    assert Kept(s.sovereign, ack.receipt);
  }

  /** An ACK leaves a spool only once the Sovereign durably refuses its proposal. */
  lemma RemovedAckIsFenced(s: System, n: string, ack: Request)
    requires Arises(s) && ack.AckProposal? && Occurs(s, StartRemove(n, ack))
    ensures Fenced(s.sovereign.durable, ack.receipt)
  {
    ArisesInv(s);
  }

  /** What the events call unsaved is done in memory and not on disk, and a reply names an
      unsettled receipt exactly if it is unsaved and its slot was not acknowledged past it. */
  lemma UnsavedIff(s: System, id: Identity)
    requires Arises(s)
    ensures id in s.unsaved <==> Done(s.sovereign.live, id) && !Done(s.sovereign.durable, id)
    ensures id in s.sovereign.answers ==>
              (!Settled(s.sovereign.durable, id) <==> id in s.unsaved && !Fenced(s.sovereign.durable, id))
  {
    ArisesInv(s);
    assert UnsavedFits(s.sovereign, s.unsaved, id) && Kept(s.sovereign, id);
  }

  // ---- When every acknowledgement is settled -------------------------------------------

  /** Durably done, or collected before. */
  predicate Recorded(s: State, id: Identity) {
    Done(s.durable, id) || id !in s.live.receipts
  }

  /** The receipt a reply names is recorded exactly if no result of it is unsaved. */
  lemma ReplyRecordedIff(s: State, unsaved: set<Identity>, id: Identity)
    requires Inv(s) && UnsavedFits(s, unsaved, id) && id in s.answers
    ensures Recorded(s, id) <==> id !in unsaved
  {
    assert Kept(s, id);
  }

  /** A reply after a full write of its own names a recorded receipt always. */
  lemma FullFlushRecords(s: State, id: Identity)
    requires Inv(s) && id in s.answers
    ensures Recorded(Take(s, FullFlush(s)), id)
  {
    assert Kept(s, id);
    assert Take(s, FullFlush(s)).durable.receipts == s.live.receipts;
  }

  /** Every reply of a history named a recorded receipt at the moment it was given. */
  predicate RepliesRecorded(s: System, events: seq<Event>)
    requires IsHistory(s, events)
    decreases |events|
  {
    |events| == 0 ||
    ((match events[0]
      case Accept(p) => Recorded(s.sovereign, IdentityOf(p))
      case PersistAndAccept(p) => Recorded(Next(s, events[0]).sovereign, IdentityOf(p))
      case _ => true) &&
     RepliesRecorded(Next(s, events[0]), events[1..]))
  }

  lemma {:induction false} EarlyStays(s: System, events: seq<Event>)
    requires IsHistory(s, events)
    ensures s.early <= Now(s, events).early
    decreases |events|
  {
    if |events| > 0 {
      EarlyStays(Next(s, events[0]), events[1..]);
    }
  }

  lemma {:induction false} RecordedKeeps(s: System, events: seq<Event>)
    requires MeshInv(s) && s.early == {} && IsHistory(s, events)
    ensures RepliesRecorded(s, events) <==> Now(s, events).early == {}
    decreases |events|
  {
    if |events| > 0 {
      var e := events[0];
      var t := Next(s, e);
      NextInv(s, e);
      if e.Accept? {
        assert UnsavedFits(s.sovereign, s.unsaved, IdentityOf(e.proposal));
        ReplyRecordedIff(s.sovereign, s.unsaved, IdentityOf(e.proposal));
      } else if e.PersistAndAccept? {
        FullFlushRecords(s.sovereign, IdentityOf(e.proposal));
      }
      if t.early == {} {
        RecordedKeeps(t, events[1..]);
      } else {
        EarlyStays(t, events[1..]);
      }
    }
  }

  /** Every ACK in any copy of a spool is durably done or fenced. */
  ghost predicate AcksSettled(s: System) {
    forall n, ack: Request :: n in s.nodes && ack.AckProposal? && Spooled(s.nodes[n], ack) ==> Settled(s.sovereign.durable, ack.receipt)
  }

  predicate Spooled(n: Node, r: Request) {
    r in n.journal || r in n.record || r in n.durable
  }

  /** For every history: each reply named a receipt that was durably done or collected, if
      and only if no reply named one whose result was unsaved; and then every spooled ACK is
      settled. */
  lemma RepliesRecordedIff(start: System, events: seq<Event>)
    requires Fresh(start) && IsHistory(start, events)
    ensures RepliesRecorded(start, events) <==> Now(start, events).early == {}
    ensures RepliesRecorded(start, events) ==> AcksSettled(Now(start, events))
  {
    FreshInv(start);
    RecordedKeeps(start, events);
    var s := Now(start, events);
    assert Arises(s);
    forall n, ack: Request | n in s.nodes && ack.AckProposal? && Spooled(s.nodes[n], ack) && s.early == {}
      ensures Settled(s.sovereign.durable, ack.receipt)
    {
      SpooledAckIsBacked(s, n, ack);
    }
  }

  predicate FailedFinalize(e: Event) {
    e.Decide? && e.step.FinalizeEnd? && !e.step.ok
  }

  /** A barrier over all bodies that succeeds, or a restart. */
  predicate Covers(e: Event) {
    e.PersistAndAccept? || e.CollectAndAnswer? ||
    (e.Decide? &&
     match e.step
     case PrepareCommit => true
     case FinalizeEnd(ok, _) => ok
     case AckFencePersist(ok) => ok
     case AckEnd(ok) => ok
     case Crash => true
     case _ => false)
  }

  function OpenAfter(open: bool, e: Event): bool {
    if FailedFinalize(e) then true else if Covers(e) then false else open
  }

  /** Between a failed finalization and the next reply without a write of its own, some
      barrier succeeded or the Sovereign restarted. */
  predicate Covered(open: bool, events: seq<Event>)
    decreases |events|
  {
    |events| == 0 || (!(open && events[0].Accept?) && Covered(OpenAfter(open, events[0]), events[1..]))
  }

  predicate OnlyFinalizing(s: System) {
    forall id :: id in s.unsaved ==> s.sovereign.phase == Finalizing(id)
  }

  lemma CoverStep(s: System, e: Event, open: bool)
    requires MeshInv(s) && Occurs(s, e) && (!open ==> OnlyFinalizing(s)) && !(open && e.Accept?)
    ensures !OpenAfter(open, e) ==> OnlyFinalizing(Next(s, e))
    ensures Next(s, e).early == s.early
  {
    if e.Decide? {
      CoverDecision(s, e.step, open);
    } else if e.Accept? || e.PersistAndAccept? || e.CollectAndAnswer? {
      CoverReply(s, e, open);
    }
  }

  lemma CoverReply(s: System, e: Event, open: bool)
    requires MeshInv(s) && Occurs(s, e) && (!open ==> OnlyFinalizing(s)) && !(open && e.Accept?)
    requires e.Accept? || e.PersistAndAccept? || e.CollectAndAnswer?
    ensures !OpenAfter(open, e) ==> OnlyFinalizing(Next(s, e))
    ensures Next(s, e).early == s.early
  {
    if e.Accept? {
      AnsweredIsSaved(s, IdentityOf(e.proposal));
    } else if e.PersistAndAccept? {
      FullFlushSaves(s);
    }
  }

  /** While only the result of a running finalization is unsaved, no reply names one. */
  lemma AnsweredIsSaved(s: System, id: Identity)
    requires Inv(s.sovereign) && OnlyFinalizing(s) && id in s.sovereign.answers
    ensures id !in s.unsaved
  {
    assert PhaseKept(s.sovereign);
  }

  lemma CoverDecision(s: System, step: Step, open: bool)
    requires PhaseKept(s.sovereign) && Enabled(s.sovereign, step) && (!open ==> OnlyFinalizing(s))
    ensures !OpenAfter(open, Decide(step)) ==> OnlyFinalizing(Decided(s, step))
  {
    if step.FinalizeBegin? && !open {
      assert s.sovereign.phase.Idle? && s.unsaved == {};
    }
  }

  lemma FullFlushSaves(s: System)
    requires MeshInv(s)
    ensures UnsavedAfter(s.unsaved, FullFlush(s.sovereign)) == {}
  {
    forall id | id in s.unsaved ensures id in s.sovereign.live.receipts {
      assert UnsavedFits(s.sovereign, s.unsaved, id);
    }
  }

  lemma {:induction false} CoveredKeeps(s: System, events: seq<Event>, open: bool)
    requires MeshInv(s) && IsHistory(s, events) && Covered(open, events) && (!open ==> OnlyFinalizing(s))
    ensures Now(s, events).early == s.early
    decreases |events|
  {
    if |events| > 0 {
      NextInv(s, events[0]);
      CoverStep(s, events[0], open);
      CoveredKeeps(Next(s, events[0]), events[1..], OpenAfter(open, events[0]));
    }
  }

  /** A discipline that suffices: a history in which every failed finalization is followed by
      a barrier or a restart before the next reply without a write of its own, one without
      failed finalizations in particular, names recorded receipts only. */
  lemma CoveredAcksSettle(start: System, events: seq<Event>)
    requires Fresh(start) && IsHistory(start, events) && Covered(false, events)
    ensures RepliesRecorded(start, events) && AcksSettled(Now(start, events))
  {
    FreshInv(start);
    CoveredKeeps(start, events, false);
    RepliesRecordedIff(start, events);
  }

  lemma {:induction false} NoFailureIsCovered(events: seq<Event>)
    requires forall i :: 0 <= i < |events| ==> !FailedFinalize(events[i])
    ensures Covered(false, events)
    decreases |events|
  {
    if |events| > 0 {
      NoFailureIsCovered(events[1..]);
    }
  }

  // ---- The receipt that was named too early --------------------------------------------

  lemma {:induction false} HistorySnoc(s: System, events: seq<Event>, e: Event)
    requires IsHistory(s, events) && Occurs(Now(s, events), e)
    ensures IsHistory(s, events + [e]) && Now(s, events + [e]) == Next(Now(s, events), e)
    decreases |events|
  {
    if |events| == 0 {
      assert events + [e] == [e];
      assert [e][1..] == [];
    } else {
      HistorySnoc(Next(s, events[0]), events[1..], e);
      assert (events + [e])[1..] == events[1..] + [e];
    }
  }

  lemma Happens(s: System, e: Event) returns (t: System)
    requires Arises(s) && Occurs(s, e)
    ensures Arises(t) && t == Next(s, e)
  {
    var start, events :| Fresh(start) && IsHistory(start, events) && Now(start, events) == s;
    HistorySnoc(start, events, e);
    t := Next(s, e);
  }

  lemma ProposalIsSent(s: System, n: string, p: Request) returns (t: System)
    requires Fresh(s) && n in s.nodes && Complete(p)
    ensures Arises(t) && p in t.net && t.sovereign == Initial() && n in t.nodes
    ensures t.nodes[n].journal == [p] && t.nodes[n].writing.NotWriting?
  {
    assert IsHistory(s, []) && Now(s, []) == s;
    t := Happens(s, StartDefer(n, p));
    t := Happens(t, WriteSucceeds(n));
    t := Happens(t, Send(n, p));
  }

  lemma Decides(s: System, step: Step) returns (t: System)
    requires Arises(s) && Enabled(s.sovereign, step) && Prompted(s.net, step)
    ensures Arises(t) && t == Decided(s, step)
  {
    t := Happens(s, Decide(step));
  }

  lemma ProposalIsPrepared(s: System, p: Request) returns (t: System)
    requires Arises(s) && p in s.net && Complete(p) && s.sovereign == Initial()
    ensures var id := IdentityOf(p); var l := PutFence(PutReceipt(Initial().live, id, false), id);
            Arises(t) && t == s.(sovereign := State(l, l, {Slot(id)}, Idle, map[id := Prepared], [], {}), unsaved := {})
  {
    t := Decides(s, PrepareBegin(IdentityOf(p)));
    t := Decides(t, PrepareFence);
    t := Decides(t, PrepareCommit);
  }

  /** The proposal runs, and the write of its result fails. */
  lemma ResultIsNotRecorded(s: System, id: Identity, l: Ledger) returns (t: System)
    requires Arises(s) && s.sovereign == State(l, l, {Slot(id)}, Idle, map[id := Prepared], [], {})
    requires Finalizable(l, id)
    ensures Arises(t)
    ensures t == s.(sovereign := State(PutReceipt(l, id, true), l, {}, Idle, map[], [id], {}), unsaved := s.unsaved + {id})
  {
    t := Decides(s, Dispatch(id));
    t := Decides(t, FinalizeBegin(id));
    t := Decides(t, FinalizeEnd(false, false));
    assert t.sovereign.runs == map[];
  }

  /** The result is replayed from memory and the receipt named before it is durable. */
  lemma ReceiptIsNamed(s: System, p: Request) returns (t: System)
    requires Arises(s) && p in s.net && Complete(p) && s.sovereign.phase.Idle? && Done(s.sovereign.live, IdentityOf(p))
    ensures Arises(t) && p in t.accepted && t.nodes == s.nodes
    ensures t.sovereign == s.sovereign.(answers := t.sovereign.answers)
  {
    t := Decides(s, ReplayDone(IdentityOf(p)));
    t := Happens(t, Accept(p));
  }

  lemma AckIsSpooled(s: System, n: string, p: Request) returns (t: System)
    requires Arises(s) && p in s.accepted && n in s.nodes && s.nodes[n].writing.NotWriting?
    requires s.nodes[n].journal == [p] && Complete(p) && p.revision != 0
    ensures Arises(t) && n in t.nodes && t.nodes[n].durable == [AckFor(p, IdentityOf(p))] && t.sovereign == s.sovereign
  {
    t := Happens(s, StartSwap(n, p));
    t := Happens(t, WriteSucceeds(n));
    assert Replaced([p], p, AckFor(p, IdentityOf(p))) == [AckFor(p, IdentityOf(p))] + [p][1..];
  }

  /** Once a reply is turned into a spooled ACK, that ACK is settled exactly if the result was
      saved when the reply was given, or the slot was durably acknowledged past it. */
  lemma SwappedAckSettledIff(s: System, n: string, p: Request) returns (t: System)
    requires Arises(s) && Occurs(s, Accept(p)) && p.revision != 0
    requires n in s.nodes && s.nodes[n].writing.NotWriting? && p in s.nodes[n].journal
    ensures Arises(t) && n in t.nodes && AckFor(p, IdentityOf(p)) in t.nodes[n].durable && t.sovereign == s.sovereign
    ensures Settled(t.sovereign.durable, IdentityOf(p)) <==>
            IdentityOf(p) !in s.unsaved || Fenced(s.sovereign.durable, IdentityOf(p))
  {
    var ack := AckFor(p, IdentityOf(p));
    UnsavedIff(s, IdentityOf(p));
    ReplacedHolds(s.nodes[n].journal, p, ack);
    t := Happens(s, Accept(p));
    t := Happens(t, StartSwap(n, p));
    t := Happens(t, WriteSucceeds(n));
  }

  lemma ReplacedHolds(spool: seq<Request>, p: Request, ack: Request)
    requires p in spool
    ensures ack in Replaced(spool, p, ack)
  {
  }

  lemma JsonPositive(r: nat)
    requires r > 0
    ensures JsonRevision(r) > 0
  {
    ExactBelow(1);
    JsonMonotone(1, r);
  }

  /** The stronger promise fails for every proposal: a history leads to its ACK in a durable
      spool while the Sovereign, restarted, finds the receipt executing and unfenced. */
  lemma EarlyAckIsStranded(start: System, n: string, p: Request) returns (s: System)
    requires Fresh(start) && n in start.nodes && Complete(p) && p.revision != 0
    ensures Arises(s) && n in s.nodes && AckFor(p, IdentityOf(p)) in s.nodes[n].durable
    ensures !Settled(s.sovereign.durable, IdentityOf(p)) && Abandoned(s.sovereign, IdentityOf(p))
  {
    var id := IdentityOf(p);
    var l := PutFence(PutReceipt(Initial().live, id, false), id);
    JsonPositive(p.revision);
    s := ProposalIsSent(start, n, p);
    s := ProposalIsPrepared(s, p);
    s := ResultIsNotRecorded(s, id, l);
    s := ReceiptIsNamed(s, p);
    s := AckIsSpooled(s, n, p);
    s := Decides(s, Crash);
  }

  /** Executing on disk and in the ledger, with nobody left to finish it. */
  predicate Abandoned(s: State, id: Identity) {
    id in s.log && id !in s.runs && id in s.live.receipts && !s.live.receipts[id].done &&
    id in s.durable.receipts && !s.durable.receipts[id].done
  }

  /** Nothing that can happen later finishes, collects or repeats such a proposal, so its
      ACK is refused for ever. */
  lemma {:induction false} AbandonedForEver(s: State, steps: seq<Step>, id: Identity)
    requires Reachable(s) && Abandoned(s, id) && IsRun(s, steps)
    ensures Abandoned(After(s, steps), id)
    ensures forall req: AckRequest :: req.receipt == id ==>
              !AckAccepted(After(s, steps).live, req) && !AckAlready(After(s, steps).live, req)
    decreases |steps|
  {
    if |steps| > 0 {
      ReachableInv(s);
      assert Kept(s, id);
      ReachableStep(s, steps[0]);
      AbandonedStep(s, steps[0], id);
      AbandonedForEver(Take(s, steps[0]), steps[1..], id);
    }
  }

  lemma AbandonedStep(s: State, step: Step, id: Identity)
    requires Inv(s) && Abandoned(s, id) && Enabled(s, step)
    ensures Abandoned(Take(s, step), id)
  {
    assert Kept(s, id);
  }
}
