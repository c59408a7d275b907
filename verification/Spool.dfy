/** A node's deferred requests: the spool in memory, the spool record in the body, and the
    record a restart finds. */
module Spools {
  import opened Strings
  import opened ProposalReplay

  datatype Request =
    | Propose(memoryId: string, origin: string, digest: string, revision: nat, tags: seq<string>, endpoint: string)
    | AckProposal(receipt: Identity, memoryId: string, origin: string, revision: nat)
    | Other(op: string, content: string)

  /** What a deferred request replaces: one proposal per Memory id and one ACK per receipt;
      any other request is keyed by its exact content. */
  datatype Key = ProposalKey(memoryId: string) | AckKey(receipt: Identity) | ExactKey(req: Request)

  function LogicalKey(req: Request): Key {
    match req
    case Propose(memoryId, _, _, _, _, _) =>
      if TrimSpace(memoryId) != "" then ProposalKey(TrimSpace(memoryId)) else ExactKey(req)
    case AckProposal(receipt, _, _, _) => AckKey(receipt)
    case Other(_, _) => ExactKey(req)
  }

  /** A request takes the place of its equals, a proposal of the one for the same Memory, and an
      ACK of the one for the same receipt. */
  predicate Supersedes(req: Request, r: Request) {
    || r == req
    || (r.Propose? && req.Propose? && TrimSpace(r.memoryId) == TrimSpace(req.memoryId) != "")
    || (r.AckProposal? && req.AckProposal? && r.receipt == req.receipt)
  }

  // ---- The three rewrites of a spool ---------------------------------------------------

  function Deferred(spool: seq<Request>, req: Request): seq<Request> {
    if |spool| == 0 then [req]
    else if LogicalKey(spool[0]) == LogicalKey(req) then [req] + spool[1..]
    else [spool[0]] + Deferred(spool[1..], req)
  }

  function Replaced(spool: seq<Request>, from: Request, to: Request): seq<Request> {
    if |spool| == 0 then []
    else if spool[0] == from then [to] + spool[1..]
    else [spool[0]] + Replaced(spool[1..], from, to)
  }

  function Removed(spool: seq<Request>, req: Request): seq<Request> {
    if |spool| == 0 then []
    else if spool[0] == req then spool[1..]
    else [spool[0]] + Removed(spool[1..], req)
  }

  /** No Memory id has two proposals. */
  predicate OneProposalPerMemory(spool: seq<Request>) {
    forall i, j :: 0 <= i < j < |spool| && spool[i].Propose? && spool[j].Propose? ==>
      LogicalKey(spool[i]) != LogicalKey(spool[j])
  }

  /** Where the rewrite of a deferral happened. */
  lemma {:induction false} DeferredAt(spool: seq<Request>, req: Request) returns (k: nat)
    ensures k <= |spool|
    ensures forall i :: 0 <= i < k ==> LogicalKey(spool[i]) != LogicalKey(req)
    ensures k < |spool| ==> LogicalKey(spool[k]) == LogicalKey(req) && Deferred(spool, req) == spool[k := req]
    ensures k == |spool| ==> Deferred(spool, req) == spool + [req]
  {
    if |spool| == 0 || LogicalKey(spool[0]) == LogicalKey(req) {
      k := 0;
    } else {
      var rest := DeferredAt(spool[1..], req);
      k := rest + 1;
      if k < |spool| {
        assert [spool[0]] + spool[1..][rest := req] == spool[k := req];
      } else {
        assert [spool[0]] + (spool[1..] + [req]) == spool + [req];
      }
    }
  }

  lemma ConsUpdate(spool: seq<Request>, k: nat, to: Request)
    requires 0 < k < |spool|
    ensures [spool[0]] + spool[1..][k - 1 := to] == spool[k := to]
  {
  }

  lemma ConsRemove(spool: seq<Request>, k: nat)
    requires 0 < k < |spool|
    ensures [spool[0]] + (spool[1..][..k - 1] + spool[1..][k..]) == spool[..k] + spool[k + 1..]
  {
  }

  /** The exchange happened at k, or the request is not there and k is the length. */
  ghost predicate ReplacedHere(spool: seq<Request>, from: Request, to: Request, k: nat) {
    && k <= |spool| && (forall i :: 0 <= i < k ==> spool[i] != from)
    && (k < |spool| ==> spool[k] == from && Replaced(spool, from, to) == spool[k := to])
    && (k == |spool| ==> Replaced(spool, from, to) == spool)
  }

  lemma {:induction false} ReplacedAt(spool: seq<Request>, from: Request, to: Request) returns (k: nat)
    ensures ReplacedHere(spool, from, to, k)
  {
    if |spool| == 0 {
      k := 0;
    } else if spool[0] == from {
      k := 0;
      assert [to] + spool[1..] == spool[0 := to];
    } else {
      var rest := ReplacedAt(spool[1..], from, to);
      k := rest + 1;
      ReplacedBehind(spool, from, to, rest);
    }
  }

  lemma ReplacedBehind(spool: seq<Request>, from: Request, to: Request, rest: nat)
    requires |spool| > 0 && spool[0] != from && ReplacedHere(spool[1..], from, to, rest)
    ensures ReplacedHere(spool, from, to, rest + 1)
  {
    var tail, k := spool[1..], rest + 1;
    forall i | 0 <= i < k ensures spool[i] != from {
      assert i > 0 ==> spool[i] == tail[i - 1];
    }
    assert Replaced(spool, from, to) == [spool[0]] + Replaced(tail, from, to);
    if k < |spool| {
      ConsUpdate(spool, k, to);
    } else {
      assert spool == [spool[0]] + tail;
    }
  }

  /** The removal happened at k, or the request is not there and k is the length. */
  ghost predicate RemovedHere(spool: seq<Request>, req: Request, k: nat) {
    && k <= |spool| && (forall i :: 0 <= i < k ==> spool[i] != req)
    && (k < |spool| ==> spool[k] == req && Removed(spool, req) == spool[..k] + spool[k + 1..])
    && (k == |spool| ==> Removed(spool, req) == spool)
  }

  lemma {:induction false} RemovedAt(spool: seq<Request>, req: Request) returns (k: nat)
    ensures RemovedHere(spool, req, k)
  {
    if |spool| == 0 {
      k := 0;
    } else if spool[0] == req {
      k := 0;
      assert spool[..0] + spool[1..] == spool[1..];
    } else {
      var rest := RemovedAt(spool[1..], req);
      k := rest + 1;
      RemovedBehind(spool, req, rest);
    }
  }

  lemma RemovedBehind(spool: seq<Request>, req: Request, rest: nat)
    requires |spool| > 0 && spool[0] != req && RemovedHere(spool[1..], req, rest)
    ensures RemovedHere(spool, req, rest + 1)
  {
    var tail, k := spool[1..], rest + 1;
    forall i | 0 <= i < k ensures spool[i] != req {
      assert i > 0 ==> spool[i] == tail[i - 1];
    }
    assert Removed(spool, req) == [spool[0]] + Removed(tail, req);
    if k < |spool| {
      ConsRemove(spool, k);
    } else {
      assert spool == [spool[0]] + tail;
    }
  }

  /** Deferring keeps one proposal per Memory, holds the request, and drops at most the
      entry that it supersedes. */
  lemma DeferredKeeps(spool: seq<Request>, req: Request)
    requires OneProposalPerMemory(spool)
    ensures OneProposalPerMemory(Deferred(spool, req))
    ensures req in Deferred(spool, req)
    ensures forall r :: r in Deferred(spool, req) ==> r == req || r in spool
    ensures forall r :: r in spool && LogicalKey(r) != LogicalKey(req) ==> r in Deferred(spool, req)
    ensures forall r :: r in spool && !Supersedes(req, r) ==> r in Deferred(spool, req)
    ensures forall i :: 0 <= i < |spool| && Supersedes(req, spool[i]) && (forall j :: 0 <= j < i ==> !Supersedes(req, spool[j])) ==>
              Deferred(spool, req) == spool[i := req]
    ensures (forall r :: r in spool ==> !Supersedes(req, r)) ==> Deferred(spool, req) == spool + [req]
  {
    forall r ensures LogicalKey(r) == LogicalKey(req) <==> Supersedes(req, r) {
    }
    var k := DeferredAt(spool, req);
    if k == |spool| {
      assert Deferred(spool, req)[k] == req;
    } else {
      assert Deferred(spool, req)[k] == req;
      forall r | r in spool && LogicalKey(r) != LogicalKey(req) ensures r in Deferred(spool, req) {
        var i :| 0 <= i < |spool| && spool[i] == r;
        assert Deferred(spool, req)[i] == r;
      }
    }
  }

  lemma ReplacedKeeps(spool: seq<Request>, from: Request, to: Request)
    requires OneProposalPerMemory(spool) && !to.Propose?
    ensures OneProposalPerMemory(Replaced(spool, from, to))
    ensures from in spool ==> to in Replaced(spool, from, to)
    ensures forall r :: r in Replaced(spool, from, to) ==> r == to || r in spool
    ensures forall r :: r in spool && r != from ==> r in Replaced(spool, from, to)
    ensures from.Propose? ==> from !in Replaced(spool, from, to)
  {
    var k := ReplacedAt(spool, from, to);
    if k < |spool| {
      var next := Replaced(spool, from, to);
      assert next[k] == to;
      forall r | r in spool && r != from ensures r in next {
        var i :| 0 <= i < |spool| && spool[i] == r;
        assert next[i] == r;
      }
    }
  }

  lemma RemovedKeeps(spool: seq<Request>, req: Request)
    requires OneProposalPerMemory(spool)
    ensures OneProposalPerMemory(Removed(spool, req))
    ensures forall r :: r in Removed(spool, req) ==> r in spool
    ensures forall r :: r in spool && r != req ==> r in Removed(spool, req)
  {
    var k := RemovedAt(spool, req);
  }

  /** The ACK a node spools for a proposal the Sovereign accepted under this receipt. */
  function AckFor(p: Request, receipt: Identity): Request
    requires p.Propose?
  {
    AckProposal(receipt, p.memoryId, p.origin, p.revision)
  }

  /** What the Sovereign answered to one request, and whether the ACK sent after an
      accepted proposal was answered too. */
  datatype Reply = NoReply | Handled(receipt: Receipts, ackAnswered: bool)
  datatype Receipts = NoReceipt | Named(id: Identity)

  /** What one write of the spool record does: the byte limit admits it, the barrier
      reports success, and, if it does not, whether the record reached the disk anyway. */
  datatype SpoolIo = SpoolIo(fits: bool, persists: bool, reaches: bool)

  /** A proposal is still spooled, or its ACK is, or its ACK was answered. */
  ghost predicate Accounted(p: Request, spool: seq<Request>, answered: set<Request>)
    requires p.Propose?
  {
    p in spool || exists receipt :: AckFor(p, receipt) in spool || AckFor(p, receipt) in answered
  }

  /** The spool in memory, the record in the body, and what a restart finds. */
  datatype SpoolView = SpoolView(journal: seq<Request>, record: seq<Request>, durable: seq<Request>)

  /** One write of the record. */
  function AfterPersist(v: SpoolView, next: seq<Request>, max: nat, io: SpoolIo): SpoolView {
    if |next| > max || !io.fits then v
    else if io.persists then SpoolView(next, next, next)
    else v.(record := next, durable := if io.reaches then next else v.durable)
  }

  class Spool {
    var journal: seq<Request>
    var record: seq<Request>
    var durable: seq<Request>
    const maxEntries: nat

    ghost function View(): SpoolView
      reads this
    {
      SpoolView(journal, record, durable)
    }

    ghost predicate Valid()
      reads this
    {
      OneProposalPerMemory(journal) && OneProposalPerMemory(record) && OneProposalPerMemory(durable)
    }

    /** A restart: the spool is read back from the record on disk. */
    constructor Recover(disk: seq<Request>, maxEntries: nat)
      requires OneProposalPerMemory(disk)
      ensures Valid() && journal == disk && record == disk && durable == disk && this.maxEntries == maxEntries
    {
      journal, record, durable := disk, disk, disk;
      this.maxEntries := maxEntries;
    }

    /** Writes the record and crosses the barrier; the spool in memory follows only then. */
    method Persist(next: seq<Request>, io: SpoolIo) returns (ok: bool)
      requires Valid() && OneProposalPerMemory(next)
      modifies this
      ensures Valid()
      ensures ok <==> |next| <= maxEntries && io.fits && io.persists
      ensures View() == AfterPersist(old(View()), next, maxEntries, io)
      ensures journal == if ok then next else old(journal)
      ensures record == if |next| <= maxEntries && io.fits then next else old(record)
      ensures durable == if ok || (|next| <= maxEntries && io.fits && io.reaches) then next else old(durable)
    {
      if |next| > maxEntries || !io.fits {
        return false;
      }
      record := next;
      if !io.persists {
        if io.reaches {
          durable := record;
        }
        return false;
      }
      durable := record;
      journal := next;
      return true;
    }

    method Defer(req: Request, io: SpoolIo) returns (ok: bool)
      requires Valid()
      modifies this
      ensures Valid()
      ensures View() == AfterPersist(old(View()), Deferred(old(journal), req), maxEntries, io)
      ensures journal == if ok then Deferred(old(journal), req) else old(journal)
      ensures ok ==> req in durable && durable == journal
      ensures ok <==> |Deferred(old(journal), req)| <= maxEntries && io.fits && io.persists
    {
      var next := journal;
      var i := 0;
      while i < |next| && LogicalKey(next[i]) != LogicalKey(req)
        invariant i <= |next|
        invariant forall k :: 0 <= k < i ==> LogicalKey(next[k]) != LogicalKey(req)
      {
        i := i + 1;
      }
      ghost var at := DeferredAt(journal, req);
      DeferredKeeps(journal, req);
      assert at == i;
      if i < |next| {
        next := next[i := req];
      } else {
        next := next + [req];
      }
      ok := Persist(next, io);
    }

    method RemoveExact(req: Request, io: SpoolIo) returns (ok: bool)
      requires Valid()
      modifies this
      ensures Valid()
      ensures req in old(journal) ==> View() == AfterPersist(old(View()), Removed(old(journal), req), maxEntries, io)
      ensures journal == if ok then Removed(old(journal), req) else old(journal)
      ensures req !in old(journal) ==> ok && durable == old(durable)
      ensures ok <==> req !in old(journal) || (|old(journal)| - 1 <= maxEntries && io.fits && io.persists)
      ensures ok && req in old(journal) ==> durable == journal
    {
      var i := 0;
      while i < |journal| && journal[i] != req
        invariant i <= |journal|
        invariant forall k :: 0 <= k < i ==> journal[k] != req
      {
        i := i + 1;
      }
      ghost var at := RemovedAt(journal, req);
      RemovedKeeps(journal, req);
      if i == |journal| {
        return true;
      }
      assert at == i;
      var next := journal[..i] + journal[i + 1..];
      assert next == Removed(journal, req) && |next| == |journal| - 1;
      ok := Persist(next, io);
    }

    method ReplaceExact(from: Request, to: Request, io: SpoolIo) returns (ok: bool)
      requires Valid() && !to.Propose?
      modifies this
      ensures Valid()
      ensures from in old(journal) ==> View() == AfterPersist(old(View()), Replaced(old(journal), from, to), maxEntries, io)
      ensures journal == if ok then Replaced(old(journal), from, to) else old(journal)
      ensures ok ==> from in old(journal) && to in durable && durable == journal
      ensures ok <==> from in old(journal) && |old(journal)| <= maxEntries && io.fits && io.persists
    {
      var i := 0;
      while i < |journal| && journal[i] != from
        invariant i <= |journal|
        invariant forall k :: 0 <= k < i ==> journal[k] != from
      {
        i := i + 1;
      }
      ghost var at := ReplacedAt(journal, from, to);
      ReplacedKeeps(journal, from, to);
      if i == |journal| {
        return false;
      }
      ok := Persist(journal[i := to], io);
    }

    /** What becomes of one entry: a proposal with an acceptable reply turns into its ACK, which
        is sent at once; any other request that was answered is removed. A write that fails
        ends the flush, except the removal of an ACK that was sent. */
    method FlushOne(req: Request, reply: Reply, io: (SpoolIo, SpoolIo), ghost all: seq<Request>, ghost before: set<Request>)
      returns (stopped: bool, ghost answered: set<Request>)
      requires Valid() && req in journal && AllAccounted(all, journal, before)
      modifies this
      ensures Valid() && AllAccounted(all, journal, answered)
      ensures journal == Flushed(old(journal), req, reply, io, maxEntries)
      ensures stopped ==> journal == old(journal)
      ensures |old(journal)| <= maxEntries ==> (stopped <==> StopsAt(req, reply, io))
    {
      answered := before;
      if reply.NoReply? {
        return false, answered;
      }
      if req.Propose? {
        if !Acceptable(req, reply.receipt) {
          return false, answered;
        }
        var ack := AckFor(req, reply.receipt.id);
        SwapAccounts(all, journal, before, req, ack);
        ReplacedCounts(journal, req, ack);
        var swapped := ReplaceExact(req, ack, io.0);
        if !swapped {
          return true, answered;
        }
        if reply.ackAnswered {
          answered := DropAck(ack, io.1, all, before);
        }
        return false, answered;
      }
      RemovalAccounts(all, journal, before, req);
      var removed := RemoveExact(req, io.0);
      return !removed, before + {req};
    }

    /** The ACK was answered; whether its removal succeeds does not end the flush. */
    method DropAck(ack: Request, io: SpoolIo, ghost all: seq<Request>, ghost before: set<Request>) returns (ghost answered: set<Request>)
      requires Valid() && ack.AckProposal? && ack in journal && |journal| <= maxEntries && AllAccounted(all, journal, before)
      modifies this
      ensures Valid() && AllAccounted(all, journal, answered)
      ensures journal == if Saves(io) then Removed(old(journal), ack) else old(journal)
    {
      RemovalAccounts(all, journal, before, ack);
      var _ := RemoveExact(ack, io);
      answered := before + {ack};
    }

    /** Sends every spooled request; `replies[i]` and `ios[i]` are what becomes of the i-th.
        Whatever the outcome, no proposal is dropped: it is spooled, or its ACK is, or its
        ACK was answered. What is left is exactly what each reply leaves, up to the first
        failing write, and everything from there on. */
    method FlushAll(replies: seq<Reply>, ios: seq<(SpoolIo, SpoolIo)>) returns (drained: bool, ghost answered: set<Request>)
      requires Valid() && |replies| == |ios| == |journal|
      modifies this
      ensures Valid()
      ensures forall p :: p in old(journal) && p.Propose? ==> Accounted(p, journal, answered)
      ensures drained <==> journal == []
      ensures |old(journal)| <= maxEntries ==> multiset(journal) == LeftAll(old(journal), replies, ios)
      ensures |old(journal)| <= maxEntries && AllSettle(old(journal), replies, ios) ==> drained
    {
      answered := {};
      var pending := journal;
      var i := 0;
      ghost var left: multiset<Request> := multiset{};
      AllSettledLeave(pending, replies, ios);
      assert pending[0..] == pending && replies[0..] == replies && ios[0..] == ios;
      while i < |pending|
        invariant i <= |pending| && Valid() && AllAccounted(old(journal), journal, answered)
        invariant Flushing(pending, replies, ios, maxEntries, i, left, journal)
      {
        FlushingNext(pending, replies, ios, maxEntries, i, left, journal);
        var stopped;
        stopped, answered := FlushOne(pending[i], replies[i], ios[i], old(journal), answered);
        if stopped {
          return false, answered;
        }
        left := left + multiset(LeftOf(pending[i], replies[i], ios[i]));
        i := i + 1;
      }
      assert pending[i..] == [];
      return |journal| == 0, answered;
    }
  }

  /** A flush at its i-th entry: the later ones are still there, and the earlier ones left
      what they leave. */
  ghost predicate Flushing(pending: seq<Request>, replies: seq<Reply>, ios: seq<(SpoolIo, SpoolIo)>, max: nat, i: nat, left: multiset<Request>, spool: seq<Request>)
    requires |replies| == |ios| == |pending| && i <= |pending|
  {
    && multiset(pending[i..]) <= multiset(spool)
    && (|pending| <= max ==>
          && |spool| <= max && multiset(spool) == left + multiset(pending[i..])
          && LeftAll(pending, replies, ios) == left + LeftAll(pending[i..], replies[i..], ios[i..]))
  }

  /** What a flush makes of the spool at one entry. */
  function Flushed(spool: seq<Request>, req: Request, reply: Reply, io: (SpoolIo, SpoolIo), max: nat): seq<Request> {
    if reply.NoReply? then spool
    else if req.Propose? then
      if !Acceptable(req, reply.receipt) || |spool| > max || !Saves(io.0) then spool
      else
        var ack := AckFor(req, reply.receipt.id);
        var swapped := Replaced(spool, req, ack);
        if reply.ackAnswered && Saves(io.1) then Removed(swapped, ack) else swapped
    else if |spool| - 1 <= max && Saves(io.0) then Removed(spool, req)
    else spool
  }

  /** `b` is `a` with one entry exchanged for some others. */
  ghost predicate Exchanged(a: multiset<Request>, b: multiset<Request>, req: Request, left: seq<Request>) {
    b == a - multiset{req} + multiset(left)
  }

  lemma Unexchanged(a: multiset<Request>, req: Request)
    requires req in a
    ensures Exchanged(a, a, req, [req])
  {
  }

  lemma SwapThenDrop(spool: seq<Request>, req: Request, ack: Request)
    requires req in spool
    ensures Exchanged(multiset(spool), multiset(Replaced(spool, req, ack)), req, [ack])
    ensures Exchanged(multiset(spool), multiset(Removed(Replaced(spool, req, ack), ack)), req, [])
    ensures |Removed(Replaced(spool, req, ack), ack)| <= |Replaced(spool, req, ack)| == |spool|
  {
    var swapped := Replaced(spool, req, ack);
    ReplacedCounts(spool, req, ack);
    assert ack in multiset(swapped);
    RemovedCounts(swapped, ack);
  }

  /** The entry is exchanged for what it leaves; beyond the limit it may stay. */
  lemma FlushedCounts(spool: seq<Request>, req: Request, reply: Reply, io: (SpoolIo, SpoolIo), max: nat)
    requires req in spool
    ensures |Flushed(spool, req, reply, io, max)| <= |spool|
    ensures exists left :: Exchanged(multiset(spool), multiset(Flushed(spool, req, reply, io, max)), req, left)
    ensures |spool| <= max ==>
              Exchanged(multiset(spool), multiset(Flushed(spool, req, reply, io, max)), req, LeftOf(req, reply, io))
  {
    var next := Flushed(spool, req, reply, io, max);
    Unexchanged(multiset(spool), req);
    if reply.NoReply? {
      assert next == spool;
    } else if req.Propose? {
      FlushedProposal(spool, req, reply, io, max);
    } else {
      RemovalExchanges(spool, req);
    }
  }

  lemma FlushedProposal(spool: seq<Request>, req: Request, reply: Reply, io: (SpoolIo, SpoolIo), max: nat)
    requires req in spool && req.Propose? && reply.Handled?
    ensures |Flushed(spool, req, reply, io, max)| <= |spool|
    ensures exists left :: Exchanged(multiset(spool), multiset(Flushed(spool, req, reply, io, max)), req, left)
    ensures |spool| <= max ==>
              Exchanged(multiset(spool), multiset(Flushed(spool, req, reply, io, max)), req, LeftOf(req, reply, io))
  {
    Unexchanged(multiset(spool), req);
    if Acceptable(req, reply.receipt) && |spool| <= max && Saves(io.0) {
      SwapThenDrop(spool, req, AckFor(req, reply.receipt.id));
    } else {
      assert Flushed(spool, req, reply, io, max) == spool;
    }
  }

  lemma RemovalExchanges(spool: seq<Request>, req: Request)
    requires req in spool
    ensures Exchanged(multiset(spool), multiset(Removed(spool, req)), req, []) && |Removed(spool, req)| <= |spool|
  {
    RemovedCounts(spool, req);
  }

  lemma RestStays(a: multiset<Request>, b: multiset<Request>, req: Request, left: seq<Request>, rest: multiset<Request>)
    requires Exchanged(a, b, req, left) && multiset{req} + rest <= a
    ensures rest <= b
  {
  }

  lemma SumNext(a: multiset<Request>, b: multiset<Request>, req: Request, leaves: seq<Request>, left: multiset<Request>, rest: multiset<Request>)
    requires Exchanged(a, b, req, leaves) && a == left + (multiset{req} + rest)
    ensures b == left + multiset(leaves) + rest
  {
  }

  /** One more entry. */
  lemma FlushingNext(pending: seq<Request>, replies: seq<Reply>, ios: seq<(SpoolIo, SpoolIo)>, max: nat, i: nat, left: multiset<Request>, spool: seq<Request>)
    requires |replies| == |ios| == |pending| && i < |pending| && Flushing(pending, replies, ios, max, i, left, spool)
    ensures pending[i] in spool
    ensures |pending| <= max && StopsAt(pending[i], replies[i], ios[i]) ==> multiset(spool) == LeftAll(pending, replies, ios)
    ensures (|pending| <= max ==> !StopsAt(pending[i], replies[i], ios[i])) ==>
              Flushing(pending, replies, ios, max, i + 1,
                left + multiset(LeftOf(pending[i], replies[i], ios[i])), Flushed(spool, pending[i], replies[i], ios[i], max))
  {
    var req, reply, io := pending[i], replies[i], ios[i];
    SuffixNext(pending, replies, ios, i);
    assert req in multiset(spool);
    FlushedCounts(spool, req, reply, io, max);
    var next := Flushed(spool, req, reply, io, max);
    var rest := multiset(pending[i + 1..]);
    assert rest <= multiset(next) by {
      var stays :| Exchanged(multiset(spool), multiset(next), req, stays);
      RestStays(multiset(spool), multiset(next), req, stays, rest);
    }
    if |pending| <= max {
      SumNext(multiset(spool), multiset(next), req, LeftOf(req, reply, io), left, multiset(pending[i + 1..]));
    }
  }

  lemma SuffixNext(pending: seq<Request>, replies: seq<Reply>, ios: seq<(SpoolIo, SpoolIo)>, i: nat)
    requires |replies| == |ios| == |pending| && i < |pending|
    ensures multiset(pending[i..]) == multiset{pending[i]} + multiset(pending[i + 1..])
    ensures LeftAll(pending[i..], replies[i..], ios[i..]) ==
            if StopsAt(pending[i], replies[i], ios[i]) then multiset(pending[i..])
            else multiset(LeftOf(pending[i], replies[i], ios[i])) + LeftAll(pending[i + 1..], replies[i + 1..], ios[i + 1..])
  {
    assert pending[i..] == [pending[i]] + pending[i + 1..];
    assert pending[i..][1..] == pending[i + 1..] && replies[i..][1..] == replies[i + 1..] && ios[i..][1..] == ios[i + 1..];
  }

  ghost predicate AllAccounted(all: seq<Request>, spool: seq<Request>, answered: set<Request>) {
    forall p :: p in all && p.Propose? ==> Accounted(p, spool, answered)
  }

  predicate Saves(io: SpoolIo) {
    io.fits && io.persists
  }

  /** What a flush leaves of one entry. */
  function LeftOf(req: Request, reply: Reply, io: (SpoolIo, SpoolIo)): seq<Request> {
    if reply.NoReply? then [req]
    else if req.Propose? then
      if !Acknowledgeable(req, reply) || !Saves(io.0) then [req]
      else if reply.ackAnswered && Saves(io.1) then []
      else [AckFor(req, reply.receipt.id)]
    else if Saves(io.0) then []
    else [req]
  }

  /** The entry was answered and the spool could not be updated. */
  predicate StopsAt(req: Request, reply: Reply, io: (SpoolIo, SpoolIo)) {
    reply.Handled? && !Saves(io.0) && (req.Propose? ==> Acknowledgeable(req, reply))
  }

  /** The reply names a receipt and the proposal has its whole identity. */
  predicate Acknowledgeable(req: Request, reply: Reply)
    requires req.Propose?
  {
    && reply.Handled? && reply.receipt.Named?
    && TrimSpace(req.memoryId) != "" && TrimSpace(req.origin) != "" && req.revision != 0
  }

  function LeftAll(pending: seq<Request>, replies: seq<Reply>, ios: seq<(SpoolIo, SpoolIo)>): multiset<Request>
    requires |replies| == |ios| == |pending|
  {
    if |pending| == 0 then multiset{}
    else if StopsAt(pending[0], replies[0], ios[0]) then multiset(pending)
    else multiset(LeftOf(pending[0], replies[0], ios[0])) + LeftAll(pending[1..], replies[1..], ios[1..])
  }

  /** Every entry was answered, every proposal under a receipt and with its ACK answered too,
      and every write of the spool succeeds. A proposal without its identity has no ACK. */
  ghost predicate AllSettle(pending: seq<Request>, replies: seq<Reply>, ios: seq<(SpoolIo, SpoolIo)>)
    requires |replies| == |ios| == |pending|
  {
    forall i :: 0 <= i < |pending| ==>
      && replies[i].Handled? && ios[i].0.fits && ios[i].0.persists
      && (pending[i].Propose? ==>
            && replies[i].receipt.Named? && replies[i].ackAnswered && ios[i].1.fits && ios[i].1.persists
            && TrimSpace(pending[i].memoryId) != "" && TrimSpace(pending[i].origin) != "" && pending[i].revision != 0)
  }

  lemma {:induction false} AllSettledLeave(pending: seq<Request>, replies: seq<Reply>, ios: seq<(SpoolIo, SpoolIo)>)
    requires |replies| == |ios| == |pending|
    ensures AllSettle(pending, replies, ios) ==> LeftAll(pending, replies, ios) == multiset{}
  {
    if |pending| > 0 && AllSettle(pending, replies, ios) {
      assert AllSettle(pending[1..], replies[1..], ios[1..]);
      AllSettledLeave(pending[1..], replies[1..], ios[1..]);
    }
  }

  lemma ReplacedCounts(spool: seq<Request>, from: Request, to: Request)
    requires from in spool
    ensures |Replaced(spool, from, to)| == |spool|
    ensures multiset(Replaced(spool, from, to)) == multiset(spool) - multiset{from} + multiset{to}
  {
    var k := ReplacedAt(spool, from, to);
    assert spool == spool[..k] + [from] + spool[k + 1..];
    assert Replaced(spool, from, to) == spool[..k] + [to] + spool[k + 1..];
  }

  lemma RemovedCounts(spool: seq<Request>, req: Request)
    requires req in spool
    ensures |Removed(spool, req)| == |spool| - 1
    ensures multiset(Removed(spool, req)) == multiset(spool) - multiset{req}
  {
    var k := RemovedAt(spool, req);
    var a, b := spool[..k], spool[k + 1..];
    assert spool == a + [req] + b;
    assert multiset(spool) == multiset(a) + multiset{req} + multiset(b);
    assert multiset(Removed(spool, req)) == multiset(a) + multiset(b);
  }

  predicate Acceptable(p: Request, receipt: Receipts)
    requires p.Propose?
  {
    receipt.Named? && TrimSpace(p.memoryId) != "" && TrimSpace(p.origin) != "" && p.revision != 0
  }

  lemma SwapAccounts(all: seq<Request>, spool: seq<Request>, answered: set<Request>, p: Request, ack: Request)
    requires p.Propose? && ack.AckProposal? && ack == AckFor(p, ack.receipt) && p in spool && OneProposalPerMemory(spool)
    requires forall q :: q in all && q.Propose? ==> Accounted(q, spool, answered)
    ensures forall q :: q in all && q.Propose? ==> Accounted(q, Replaced(spool, p, ack), answered)
  {
    ReplacedKeeps(spool, p, ack);
    forall q | q in all && q.Propose? ensures Accounted(q, Replaced(spool, p, ack), answered) {
      if q == p {
        assert AckFor(q, ack.receipt) in Replaced(spool, p, ack);
      } else if q !in spool {
        var receipt :| AckFor(q, receipt) in spool || AckFor(q, receipt) in answered;
        assert AckFor(q, receipt) in Replaced(spool, p, ack) || AckFor(q, receipt) in answered;
      }
    }
  }

  lemma RemovalAccounts(all: seq<Request>, spool: seq<Request>, answered: set<Request>, req: Request)
    requires !req.Propose? && OneProposalPerMemory(spool)
    requires forall q :: q in all && q.Propose? ==> Accounted(q, spool, answered)
    ensures forall q :: q in all && q.Propose? ==> Accounted(q, Removed(spool, req), answered + {req})
    ensures forall q :: q in all && q.Propose? ==> Accounted(q, spool, answered + {req})
  {
    RemovedKeeps(spool, req);
    forall q | q in all && q.Propose?
      ensures Accounted(q, Removed(spool, req), answered + {req}) && Accounted(q, spool, answered + {req})
    {
      if q !in spool {
        var receipt :| AckFor(q, receipt) in spool || AckFor(q, receipt) in answered;
        var ack := AckFor(q, receipt);
        assert ack in Removed(spool, req) || ack in answered + {req};
      }
    }
  }
}
