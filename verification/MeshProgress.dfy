/** The node events of the Mesh are the calls on a spool, and what the Sovereign is ready to
    answer can leave the spool. */
module MeshProgress {
  import opened ProposalReplay
  import opened Spools
  import opened Mesh

  // ---- Node events and spool calls -----------------------------------------------------

  /** What a call on a spool sees of a node. */
  function ViewOf(n: Node): SpoolView {
    SpoolView(n.journal, n.record, n.durable)
  }

  /** The events of one write, by how it ends. */
  function Ending(n: Node, name: string, io: SpoolIo): Node {
    if io.persists then NodeAfter(n, WriteSucceeds(name))
    else if io.reaches then NodeAfter(NodeAfter(n, NodeSaves(name)), WriteFails(name))
    else NodeAfter(n, WriteFails(name))
  }

  /** Deferring, exchanging and removing an entry at a node are the spool's calls, whatever
      becomes of the write, and a restart is its recovery. */
  lemma NodeIsSpool(n: Node, name: string, req: Request, io: SpoolIo, max: nat)
    requires io.fits
    ensures |Deferred(n.journal, req)| <= max ==>
              ViewOf(Ending(NodeAfter(n, StartDefer(name, req)), name, io)) == AfterPersist(ViewOf(n), Deferred(n.journal, req), max, io)
    ensures req.Propose? && |n.journal| <= max ==>
              var next := Replaced(n.journal, req, AckFor(req, IdentityOf(req)));
              |next| <= max && ViewOf(Ending(NodeAfter(n, StartSwap(name, req)), name, io)) == AfterPersist(ViewOf(n), next, max, io)
    ensures |Removed(n.journal, req)| <= max ==>
              ViewOf(Ending(NodeAfter(n, StartRemove(name, req)), name, io)) == AfterPersist(ViewOf(n), Removed(n.journal, req), max, io)
    ensures ViewOf(NodeAfter(n, NodeRestarts(name))) == SpoolView(n.durable, n.durable, n.durable)
  {
    if req.Propose? {
      ReplacedLength(n.journal, req, AckFor(req, IdentityOf(req)));
    }
  }

  lemma {:induction false} ReplacedLength(spool: seq<Request>, from: Request, to: Request)
    ensures |Replaced(spool, from, to)| == |spool|
  {
    if |spool| > 0 && spool[0] != from {
      ReplacedLength(spool[1..], from, to);
    }
  }

  // ---- Progress ------------------------------------------------------------------------

  lemma {:induction false} Follow(s: System, events: seq<Event>, e: Event)
    requires IsHistory(s, events) && Occurs(Now(s, events), e)
    ensures IsHistory(s, events + [e]) && Now(s, events + [e]) == Next(Now(s, events), e)
    decreases |events|
  {
    if |events| == 0 {
      assert events + [e] == [e];
      assert [e][1..] == [];
    } else {
      Follow(Next(s, events[0]), events[1..], e);
      assert (events + [e])[1..] == events[1..] + [e];
    }
  }

  /** A spooled request is on the network after a flush started and sent it; nothing else that
      matters here has changed. */
  lemma Transmitted(s: System, n: string, req: Request) returns (events: seq<Event>, t: System)
    requires n in s.nodes && req in s.nodes[n].journal
    ensures IsHistory(s, events) && Now(s, events) == t && req in t.net
    ensures n in t.nodes && t.nodes[n] == s.nodes[n].(outbox := t.nodes[n].outbox)
    ensures t.sovereign == s.sovereign && t.answered == s.answered && t.accepted == s.accepted
  {
    events := [];
    Follow(s, events, StartFlush(n));
    events := events + [StartFlush(n)];
    assert req in Elements(s.nodes[n].journal);
    Follow(s, events, Send(n, req));
    events := events + [Send(n, req)];
    t := Now(s, events);
  }

  /** An answered request that needs no ACK leaves the spool durably. */
  lemma Leaves(s: System, n: string, req: Request) returns (events: seq<Event>)
    requires n in s.nodes && s.nodes[n].writing.NotWriting? && req in s.answered && !req.Propose?
    ensures IsHistory(s, events)
    ensures var t := Now(s, events);
            n in t.nodes && t.nodes[n].journal == t.nodes[n].durable == Removed(s.nodes[n].journal, req)
  {
    events := [];
    Follow(s, events, StartRemove(n, req));
    events := events + [StartRemove(n, req)];
    Follow(s, events, WriteSucceeds(n));
    events := events + [WriteSucceeds(n)];
  }

  lemma {:induction false} Chain(s: System, a: seq<Event>, b: seq<Event>)
    requires IsHistory(s, a) && IsHistory(Now(s, a), b)
    ensures IsHistory(s, a + b) && Now(s, a + b) == Now(Now(s, a), b)
    decreases |a|
  {
    if |a| == 0 {
      assert a + b == b;
    } else {
      Chain(Next(s, a[0]), a[1..], b);
      assert (a + b)[1..] == a[1..] + b;
    }
  }

  /** What the Sovereign can answer as things stand: any ordinary request, a proposal whose
      receipt it may name, and an ACK it has collected. */
  predicate Answerable(s: State, req: Request) {
    match req
    case Other(_, _) => true
    case Propose(_, _, _, _, _, _) => Complete(req) && req.revision != 0 && IdentityOf(req) in s.answers
    case AckProposal(_, _, _, _) => s.phase.Idle? && AckAlready(s.live, RequestOf(req))
  }

  /** Every spooled request that the Sovereign can answer can leave the spool: some history
      removes it, or exchanges a proposal for its ACK, durably. */
  lemma AnswerableCanLeave(s: System, n: string, req: Request) returns (events: seq<Event>)
    requires n in s.nodes && s.nodes[n].writing.NotWriting? && req in s.nodes[n].journal && Answerable(s.sovereign, req)
    ensures IsHistory(s, events)
    ensures var t := Now(s, events);
            n in t.nodes && t.nodes[n].journal == t.nodes[n].durable ==
              if req.Propose? then Replaced(s.nodes[n].journal, req, AckFor(req, IdentityOf(req))) else Removed(s.nodes[n].journal, req)
  {
    var t;
    events, t := Transmitted(s, n, req);
    if req.Propose? {
      Follow(s, events, Accept(req));
      events := events + [Accept(req)];
      Follow(s, events, StartSwap(n, req));
      events := events + [StartSwap(n, req)];
      Follow(s, events, WriteSucceeds(n));
      events := events + [WriteSucceeds(n)];
    } else {
      var answer := if req.Other? then AnswerOther(req) else AnswerCollected(req);
      Follow(s, events, answer);
      events := events + [answer];
      var rest := Leaves(Now(s, events), n, req);
      Chain(s, events, rest);
      events := events + rest;
    }
  }

  /** The steps of the Sovereign's side, taken one after the other. */
  lemma Decides(s: System, step: Step) returns (t: System)
    requires Enabled(s.sovereign, step) && Prompted(s.net, step)
    ensures Occurs(s, Decide(step)) && t == Next(s, Decide(step)) && t.sovereign == Take(s.sovereign, step)
    ensures t.net == s.net && t.accepted == s.accepted && t.answered == s.answered
  {
    t := Next(s, Decide(step));
  }

  lemma Two(s: System, a: Event, b: Event)
    requires Occurs(s, a) && Occurs(Next(s, a), b)
    ensures IsHistory(s, [a, b]) && Now(s, [a, b]) == Next(Next(s, a), b)
  {
    Follow(s, [], a);
    assert [] + [a] == [a];
    Follow(s, [a], b);
    assert [a] + [b] == [a, b];
  }

  /** An ACK that the Sovereign accepts can be collected, and is then answered. */
  lemma AcceptedCanBeCollected(s: System, a: Request) returns (events: seq<Event>)
    requires a in s.net && a.AckProposal? && s.sovereign.phase.Idle? && AckAccepted(s.sovereign.live, RequestOf(a))
    ensures IsHistory(s, events)
    ensures var t := Now(s, events);
            a in t.answered && a.receipt !in t.sovereign.live.receipts && a.receipt !in t.sovereign.durable.receipts
  {
    var begin, fence := Decide(AckBegin(RequestOf(a))), Decide(AckFencePersist(true));
    var t := Decides(s, AckBegin(RequestOf(a)));
    var u := Decides(t, AckFencePersist(true));
    Two(s, begin, fence);
    var v := Decides(u, AckDelete);
    var w := Next(v, CollectAndAnswer(a));
    Two(u, Decide(AckDelete), CollectAndAnswer(a));
    Chain(s, [begin, fence], [Decide(AckDelete), CollectAndAnswer(a)]);
    events := [begin, fence] + [Decide(AckDelete), CollectAndAnswer(a)];
    assert Now(s, events) == w;
  }

  /** A proposal with a newer revision for an idle slot can be started. */
  lemma FreshCanStart(s: System, p: Request) returns (events: seq<Event>, t: System)
    requires p in s.net && Complete(p) && s.sovereign.phase.Idle?
    requires var id := IdentityOf(p);
             && id !in s.sovereign.live.receipts && Slot(id) !in s.sovereign.executing
             && (Slot(id) in s.sovereign.live.fences ==> s.sovereign.live.fences[Slot(id)].revision < id.revision)
    ensures IsHistory(s, events) && Now(s, events) == t && p in t.net && t.sovereign.phase.Idle?
    ensures var id := IdentityOf(p);
            id in t.sovereign.runs && t.sovereign.runs[id].Dispatched? && id in t.sovereign.log && Finalizable(t.sovereign.live, id)
  {
    var id := IdentityOf(p);
    var begin, fence, commit, dispatch := Decide(PrepareBegin(id)), Decide(PrepareFence), Decide(PrepareCommit), Decide(Dispatch(id));
    var a := Decides(s, PrepareBegin(id));
    var b := Decides(a, PrepareFence);
    Two(s, begin, fence);
    var c := Decides(b, PrepareCommit);
    t := Decides(c, Dispatch(id));
    Two(b, commit, dispatch);
    Chain(s, [begin, fence], [commit, dispatch]);
    events := [begin, fence] + [commit, dispatch];
  }

  /** One that was started can be recorded durably and accepted. */
  lemma StartedCanBeAccepted(s: System, p: Request) returns (events: seq<Event>)
    requires p in s.net && Complete(p) && s.sovereign.phase.Idle?
    requires var id := IdentityOf(p); id in s.sovereign.runs && s.sovereign.runs[id].Dispatched? && Finalizable(s.sovereign.live, id)
    ensures IsHistory(s, events)
    ensures var t := Now(s, events); p in t.accepted && Done(t.sovereign.durable, IdentityOf(p)) && t.sovereign.log == s.sovereign.log
  {
    var id := IdentityOf(p);
    var begin, end := Decide(FinalizeBegin(id)), Decide(FinalizeEnd(true, true));
    var a := Decides(s, FinalizeBegin(id));
    var b := Decides(a, FinalizeEnd(true, true));
    Two(s, begin, end);
    Follow(s, [begin, end], Accept(p));
    events := [begin, end] + [Accept(p)];
  }
}
