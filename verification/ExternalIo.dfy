/** External I/O requests: persisted before and after the physical adapter is called, so that
    no request reaches the adapter twice. */
module ExternalIo {
  import opened Strings

  datatype Status = Pending | Executing | ResponseReady | Ambiguous | Failed | Done

  const LIFECYCLE := {
    "io.external.request.pending", "io.external.request.executing", "io.external.request.response-ready",
    "io.external.request.ambiguous", "io.external.request.failed", "io.external.request.done"}

  // ---- Tags ----------------------------------------------------------------------------

  /** The tag a rewrite to this status adds; a finished request has only the done tag. */
  function TagFor(s: Status): string {
    match s
    case Pending => "io.external.request.pending"
    case Executing => "io.external.request.executing"
    case ResponseReady => "io.external.request.response-ready"
    case Ambiguous => "io.external.request.ambiguous"
    case Failed => "io.external.request.failed"
    case Done => ""
  }

  /** The lifecycle tags that identify a status. */
  function TagsFor(s: Status): set<string> {
    match s
    case ResponseReady => {"io.external.request.response-ready", "io.external.request.done"}
    case Done => {"io.external.request.done"}
    case _ => {TagFor(s)}
  }

  function Unmarked(tags: seq<string>): seq<string> {
    if |tags| == 0 then []
    else (if tags[0] in LIFECYCLE then [] else [tags[0]]) + Unmarked(tags[1..])
  }

  function AddTag(tags: seq<string>, t: string): seq<string> {
    if t == "" || t in tags then tags else tags + [t]
  }

  /** The tags of `replaceExternalRequestLifecycle`. */
  function Rewrite(tags: seq<string>, s: Status): seq<string> {
    var marked := AddTag(Unmarked(tags), TagFor(s));
    if s.ResponseReady? || s.Done? then AddTag(marked, "io.external.request.done") else marked
  }

  lemma {:induction false} UnmarkedKeeps(tags: seq<string>, t: string)
    ensures t in Unmarked(tags) <==> t in tags && t !in LIFECYCLE
  {
    if |tags| > 0 {
      UnmarkedKeeps(tags[1..], t);
    }
  }

  /** A rewrite leaves exactly the lifecycle tags of the new status, so listing by tag finds
      a request exactly in its status, and keeps every other tag. */
  lemma RewriteMarks(tags: seq<string>, s: Status, t: string)
    ensures t in LIFECYCLE ==> (t in Rewrite(tags, s) <==> t in TagsFor(s))
    ensures t !in LIFECYCLE && t != "" ==> (t in Rewrite(tags, s) <==> t in tags)
  {
    UnmarkedKeeps(tags, t);
    UnmarkedKeeps(tags, TagFor(s));
    UnmarkedKeeps(tags, "io.external.request.done");
    assert s.Pending? ==> TagFor(s) in LIFECYCLE;
  }

  // ---- The lifecycle -------------------------------------------------------------------

  datatype Request = Request(adapter: string, responseEvent: string, status: Status)

  /** One pass works on one request at a time, under the I/O mutex. */
  datatype Worker = Idle | Fencing(id: string) | Armed(id: string) | Called(id: string)

  /** `log` is the history of requests handed to the physical adapter. */
  datatype State = State(
    live: map<string, Request>, durable: map<string, Request>, worker: Worker, log: seq<string>)

  datatype Step =
    | Submit(id: string, adapter: string, responseEvent: string)
    | Refuse(id: string)
    | Begin(id: string)
    | FencePersist(ok: bool)
    | CallAdapter
    | Finish(ok: bool)
    | LoseResult
    | Deliver(id: string)
    | Quarantine(id: string)
    | Flush(ids: set<string>)
    | Crash

  predicate In(m: map<string, Request>, id: string, s: Status) {
    id in m && m[id].status == s
  }

  function SetStatus(m: map<string, Request>, id: string, s: Status): map<string, Request>
    requires id in m
  {
    m[id := m[id].(status := s)]
  }

  predicate Enabled(s: State, step: Step) {
    match step
    case Submit(id, _, _) => id !in s.live && id !in s.durable && id !in s.log
    case Refuse(id) => s.worker.Idle? && In(s.live, id, Pending) && (s.live[id].adapter == "" || s.live[id].responseEvent == "")
    case Begin(id) => s.worker.Idle? && In(s.live, id, Pending) && s.live[id].adapter != "" && s.live[id].responseEvent != ""
    case FencePersist(_) => s.worker.Fencing?
    case CallAdapter => s.worker.Armed?
    case Finish(_) => s.worker.Called? && s.worker.id in s.live
    case LoseResult => s.worker.Called?
    case Deliver(id) => s.worker.Idle? && In(s.live, id, ResponseReady)
    case Quarantine(id) => s.worker.Idle? && In(s.live, id, Executing)
    case Flush(_) => true
    case Crash => true
  }

  function Take(s: State, step: Step): State
    requires Enabled(s, step)
  {
    match step
    case Submit(id, adapter, event) => s.(live := s.live[id := Request(adapter, event, Pending)])
    case Refuse(id) => s.(live := SetStatus(s.live, id, Failed))
    case Begin(id) => s.(live := SetStatus(s.live, id, Executing), worker := Fencing(id))
    case FencePersist(ok) =>
      if ok then s.(durable := s.live, worker := Armed(s.worker.id)) else s.(worker := Idle)
    case CallAdapter => s.(log := s.log + [s.worker.id], worker := Called(s.worker.id))
    case Finish(ok) =>
      s.(live := SetStatus(s.live, s.worker.id, if ok then ResponseReady else Failed), worker := Idle)
    case LoseResult => s.(worker := Idle)
    case Deliver(id) => s.(live := SetStatus(s.live, id, Done))
    case Quarantine(id) => s.(live := SetStatus(s.live, id, Ambiguous))
    case Flush(ids) =>
      s.(durable := map id | id in s.durable.Keys + s.live.Keys && (if id in ids then id in s.live else id in s.durable)
                      :: if id in ids then s.live[id] else s.durable[id])
    case Crash => s.(live := s.durable, worker := Idle)
  }

  function Rank(s: Status): nat {
    match s
    case Pending => 0
    case Executing => 1
    case ResponseReady => 2
    case _ => 3
  }

  /** The disk is never ahead of the process, and what was handed out is past pending in
      both. */
  predicate Kept(s: State, id: string) {
    && (id in s.durable ==> id in s.live && Rank(s.durable[id].status) <= Rank(s.live[id].status))
    && (id in s.log ==> id in s.durable && !s.durable[id].status.Pending?)
  }

  predicate WorkerKept(s: State) {
    match s.worker
    case Idle => true
    case Fencing(id) => In(s.live, id, Executing) && id !in s.log
    case Armed(id) => In(s.live, id, Executing) && In(s.durable, id, Executing) && id !in s.log
    case Called(id) => In(s.live, id, Executing) && id in s.log
  }

  ghost predicate Inv(s: State) {
    && (forall id :: Kept(s, id))
    && WorkerKept(s)
    && forall i, j :: 0 <= i < j < |s.log| ==> s.log[i] != s.log[j]
  }

  lemma StepKept(s: State, step: Step, id: string)
    requires Inv(s) && Enabled(s, step)
    ensures Kept(Take(s, step), id)
    ensures id in s.durable ==>
              id in Take(s, step).durable && Rank(s.durable[id].status) <= Rank(Take(s, step).durable[id].status)
  {
    assert Kept(s, id);
  }

  lemma StepWorker(s: State, step: Step)
    requires Inv(s) && Enabled(s, step)
    ensures WorkerKept(Take(s, step))
  {
    if step.Begin? {
      assert Kept(s, step.id);
    }
  }

  lemma StepInv(s: State, step: Step)
    requires Inv(s) && Enabled(s, step)
    ensures Inv(Take(s, step))
  {
    forall id ensures Kept(Take(s, step), id) {
      StepKept(s, step, id);
    }
    StepWorker(s, step);
  }

  // ---- Main results --------------------------------------------------------------------

  predicate IsRun(s: State, steps: seq<Step>)
    decreases |steps|
  {
    |steps| == 0 || (Enabled(s, steps[0]) && IsRun(Take(s, steps[0]), steps[1..]))
  }

  function After(s: State, steps: seq<Step>): State
    requires IsRun(s, steps)
    decreases |steps|
  {
    if |steps| == 0 then s else After(Take(s, steps[0]), steps[1..])
  }

  function Initial(): State {
    State(map[], map[], Idle, [])
  }

  ghost predicate Reachable(s: State) {
    exists steps :: IsRun(Initial(), steps) && After(Initial(), steps) == s
  }

  lemma {:induction false} RunInv(s: State, steps: seq<Step>)
    requires Inv(s) && IsRun(s, steps)
    ensures Inv(After(s, steps))
    decreases |steps|
  {
    if |steps| > 0 {
      StepInv(s, steps[0]);
      RunInv(Take(s, steps[0]), steps[1..]);
    }
  }

  lemma ReachableInv(s: State)
    requires Reachable(s)
    ensures Inv(s)
  {
    var steps :| IsRun(Initial(), steps) && After(Initial(), steps) == s;
    RunInv(Initial(), steps);
  }

  /** Over all crashes and failed writes, each request reaches the adapter at most once, and
      only after its executing mark was durable. */
  lemma AdapterAtMostOnce(s: State)
    requires Reachable(s)
    ensures forall i, j :: 0 <= i < j < |s.log| ==> s.log[i] != s.log[j]
    ensures forall id :: id in s.log ==> id in s.durable && !s.durable[id].status.Pending?
  {
    ReachableInv(s);
    forall id | id in s.log ensures id in s.durable && !s.durable[id].status.Pending? {
      assert Kept(s, id);
    }
  }

  /** No step of any run takes a durable request back towards pending. */
  lemma {:induction false} NeverBackToPending(s: State, steps: seq<Step>, id: string)
    requires Inv(s) && IsRun(s, steps) && id in s.durable
    ensures id in After(s, steps).durable
    ensures Rank(s.durable[id].status) <= Rank(After(s, steps).durable[id].status)
    decreases |steps|
  {
    if |steps| > 0 {
      StepKept(s, steps[0], id);
      StepInv(s, steps[0]);
      NeverBackToPending(Take(s, steps[0]), steps[1..], id);
    }
  }

  predicate WorkedOn(w: Worker, id: string) {
    (w.Fencing? || w.Armed?) && w.id == id
  }

  /** A request found past pending on disk, with no call to it under way, is never handed
      to the adapter (again). */
  lemma {:induction false} FoundIsNeverCalled(s: State, steps: seq<Step>, id: string)
    requires Inv(s) && IsRun(s, steps) && id in s.durable && !s.durable[id].status.Pending? && !WorkedOn(s.worker, id)
    ensures id in After(s, steps).log ==> id in s.log
    decreases |steps|
  {
    if |steps| > 0 {
      assert Kept(s, id);
      StepKept(s, steps[0], id);
      StepInv(s, steps[0]);
      FoundIsNeverCalled(Take(s, steps[0]), steps[1..], id);
    }
  }

  lemma {:induction false} Snoc(s: State, steps: seq<Step>, step: Step)
    requires IsRun(s, steps) && Enabled(After(s, steps), step)
    ensures IsRun(s, steps + [step]) && After(s, steps + [step]) == Take(After(s, steps), step)
    decreases |steps|
  {
    if |steps| == 0 {
      assert steps + [step] == [step];
      assert [step][1..] == [];
    } else {
      Snoc(Take(s, steps[0]), steps[1..], step);
      assert (steps + [step])[1..] == steps[1..] + [step];
    }
  }

  lemma Then(s: State, step: Step)
    requires Reachable(s) && Enabled(s, step)
    ensures Reachable(Take(s, step))
  {
    var steps :| IsRun(Initial(), steps) && After(Initial(), steps) == s;
    Snoc(Initial(), steps, step);
  }

  // ---- The processing calls ------------------------------------------------------------

  /** How a rewrite of a request ends: refused before it is live, live without its barrier, or
      durable. */
  datatype Write = Refused | Unpersisted | Persisted

  /** What happens outside: the first write, the adapter, the write of its result, the delivery
      of the response event, and the last write. */
  datatype Io = Io(mark: Write, adapter: bool, result: Write, delivered: bool, done: Write)

  predicate Complete(r: Request) {
    r.adapter != "" && r.responseEvent != ""
  }

  /** How a pending request ends. */
  function Outcome(r: Request, io: Io): Status {
    if io.mark.Refused? then Pending
    else if !Complete(r) then Failed
    else if io.mark.Unpersisted? || io.result.Refused? then Executing
    else if !io.adapter then Failed
    else if io.result.Unpersisted? || !io.delivered || io.done.Refused? then ResponseReady
    else Done
  }

  /** A turn of an executing request that an earlier process left, and of one whose response is
      ready. */
  function Quarantined(r: Request, w: Write): Request {
    if r.status.Executing? && !w.Refused? then r.(status := Ambiguous) else r
  }

  function Delivered(r: Request, delivered: bool, w: Write): Request {
    if r.status.ResponseReady? && delivered && !w.Refused? then r.(status := Done) else r
  }

  function Executed(r: Request, io: Io): Request {
    r.(status := Outcome(r, io))
  }

  /** A request after one pass. */
  function Passed(r: Request, quarantine: Write, delivered: bool, delivery: Write, io: Io): Request {
    r.(status :=
      match r.status
      case Executing => if quarantine.Refused? then Executing else Ambiguous
      case ResponseReady => if delivered && !delivery.Refused? then Done else ResponseReady
      case Pending => Outcome(r, io)
      case other => other)
  }

  /** Some of the requests have taken their turn. */
  ghost function Turned(m: map<string, Request>, ids: set<string>, turn: (string, Request) -> Request): (r: map<string, Request>)
    ensures r.Keys == m.Keys
    ensures forall id :: id in m ==> r[id] == if id in ids then turn(id, m[id]) else m[id]
  {
    map id | id in m :: if id in ids then turn(id, m[id]) else m[id]
  }

  ghost function Executions(ios: string -> Io): (string, Request) -> Request {
    (id, r) => Executed(r, ios(id))
  }

  lemma TurnedNext(m: map<string, Request>, ids: set<string>, turn: (string, Request) -> Request, id: string)
    requires id in m && id !in ids
    ensures Turned(m, ids + {id}, turn) == Turned(m, ids, turn)[id := turn(id, m[id])]
    ensures Turned(m, ids, turn)[id] == m[id]
  {
  }

  class Processor {
    var live: map<string, Request>
    var durable: map<string, Request>
    ghost var log: seq<string>

    ghost function View(): State
      reads this
    {
      State(live, durable, Idle, log)
    }

    ghost predicate Valid()
      reads this
    {
      Reachable(View())
    }

    constructor ()
      ensures Valid() && View() == Initial()
    {
      live, durable, log := map[], map[], [];
      new;
      assert IsRun(Initial(), []) && After(Initial(), []) == Initial();
    }

    /** A new process finds what was durable. */
    method Restart()
      requires Valid()
      modifies this`live
      ensures Valid() && live == durable
    {
      Then(View(), Crash);
      live := durable;
    }

    /** A barrier over everything the process sees. */
    method Barrier(ok: bool)
      requires Valid()
      modifies this`durable
      ensures Valid() && durable == if ok then live else old(durable)
    {
      if ok {
        ghost var all := live.Keys + durable.Keys;
        Then(View(), Flush(all));
        FlushAll(View(), all);
        durable := live;
      }
    }

    method QuarantineOne(id: string, w: Write)
      requires Valid() && id in live
      modifies this`live, this`durable
      ensures Valid() && live == old(live)[id := Quarantined(old(live)[id], w)]
      ensures durable == if live != old(live) && w.Persisted? then live else old(durable)
    {
      assert live == live[id := live[id]];
      if live[id].status.Executing? && !w.Refused? {
        Then(View(), Quarantine(id));
        live := SetStatus(live, id, Ambiguous);
        Barrier(w.Persisted?);
        assert live[id] != old(live)[id];
      }
    }

    /** Requests left executing by an earlier process become ambiguous. */
    method QuarantineAll(writes: string -> Write)
      requires Valid()
      modifies this`live, this`durable
      ensures Valid() && live.Keys == old(live).Keys
      ensures forall id :: id in live ==>
                live[id] == if old(live)[id].status.Executing? && !writes(id).Refused?
                            then old(live)[id].(status := Ambiguous) else old(live)[id]
    {
      ghost var turn := (id, r) => Quarantined(r, writes(id));
      ghost var all := live;
      var todo := live.Keys;
      while todo != {}
        invariant Valid() && todo <= all.Keys && live == Turned(all, all.Keys - todo, turn)
        decreases todo
      {
        var id :| id in todo;
        TurnedNext(all, all.Keys - todo, turn, id);
        QuarantineOne(id, writes(id));
        assert all.Keys - (todo - {id}) == all.Keys - todo + {id};
        todo := todo - {id};
      }
    }

    method DeliverOne(id: string, delivered: bool, w: Write)
      requires Valid() && id in live
      modifies this`live, this`durable
      ensures Valid() && live == old(live)[id := Delivered(old(live)[id], delivered, w)]
      ensures durable == if live != old(live) && w.Persisted? then live else old(durable)
    {
      assert live == live[id := live[id]];
      if live[id].status.ResponseReady? && delivered && !w.Refused? {
        Then(View(), Deliver(id));
        live := SetStatus(live, id, Done);
        Barrier(w.Persisted?);
        assert live[id] != old(live)[id];
      }
    }

    /** `processResponseReadyExternalRequests`: responses that were not delivered, or whose
        delivery was not recorded, are delivered again. */
    method DeliverReady(delivered: string -> bool, writes: string -> Write)
      requires Valid()
      modifies this`live, this`durable
      ensures Valid() && live.Keys == old(live).Keys
      ensures forall id :: id in live ==>
                live[id] == if old(live)[id].status.ResponseReady? && delivered(id) && !writes(id).Refused?
                            then old(live)[id].(status := Done) else old(live)[id]
    {
      ghost var turn := (id, r) => Delivered(r, delivered(id), writes(id));
      ghost var all := live;
      var todo := live.Keys;
      while todo != {}
        invariant Valid() && todo <= all.Keys && live == Turned(all, all.Keys - todo, turn)
        decreases todo
      {
        var id :| id in todo;
        TurnedNext(all, all.Keys - todo, turn, id);
        DeliverOne(id, delivered(id), writes(id));
        assert all.Keys - (todo - {id}) == all.Keys - todo + {id};
        todo := todo - {id};
      }
    }

    /** `executePendingExternalRequest`. The adapter is called exactly when the request is
        complete and its executing mark became durable; the request ends failed exactly if it
        was incomplete or the adapter failed, and done exactly if every step succeeded; the
        disk follows up to the last write that became durable. */
    method ExecutePending(id: string, io: Io)
      requires Valid() && In(live, id, Pending)
      modifies this
      ensures Valid()
      ensures log == old(log) + (if Complete(old(live)[id]) && io.mark.Persisted? then [id] else [])
      ensures id !in old(log)
      ensures live == old(live)[id := old(live)[id].(status := Outcome(old(live)[id], io))]
      ensures live[id].status.Pending? <==> io.mark.Refused?
      ensures live[id].status.Failed? <==>
                !io.mark.Refused? && (!Complete(old(live)[id]) || (io.mark.Persisted? && !io.adapter && !io.result.Refused?))
      ensures live[id].status.Executing? <==>
                Complete(old(live)[id]) && (io.mark.Unpersisted? || (io.mark.Persisted? && io.result.Refused?))
      ensures live[id].status.ResponseReady? <==>
                Complete(old(live)[id]) && io.mark.Persisted? && io.adapter &&
                (io.result.Unpersisted? || (io.result.Persisted? && (!io.delivered || io.done.Refused?)))
      ensures live[id].status.Done? <==>
                Complete(old(live)[id]) && io.mark.Persisted? && io.adapter && io.result.Persisted? && io.delivered && !io.done.Refused?
      ensures !io.mark.Persisted? ==> durable == old(durable)
      ensures io.mark.Persisted? ==>
                durable == live[id := live[id].(status :=
                  if !Complete(old(live)[id]) then Failed
                  else if !io.result.Persisted? then Executing
                  else if !io.adapter then Failed
                  else if io.delivered && io.done.Persisted? then Done
                  else ResponseReady)]
    {
      NotYetCalled(View(), id);
      if io.mark.Refused? {
        return;
      }
      if live[id].adapter == "" || live[id].responseEvent == "" {
        Then(View(), Refuse(id));
        live := SetStatus(live, id, Failed);
        Barrier(io.mark.Persisted?);
        return;
      }
      MarkExecuting(id, io.mark.Persisted?);
      if io.mark.Persisted? {
        RecordResult(id, io);
      }
    }

    /** The executing mark, and the call if the mark is durable. */
    method MarkExecuting(id: string, persisted: bool)
      requires Valid() && In(live, id, Pending) && Complete(live[id])
      modifies this
      ensures live == old(live)[id := old(live)[id].(status := Executing)]
      ensures durable == if persisted then live else old(durable)
      ensures log == old(log) + (if persisted then [id] else [])
      ensures if persisted then Reachable(State(live, durable, Called(id), log)) else Valid()
    {
      Then(View(), Begin(id));
      ghost var s := Take(View(), Begin(id));
      live := SetStatus(live, id, Executing);
      Then(s, FencePersist(persisted));
      if persisted {
        durable := live;
        s := Take(s, FencePersist(true));
        Then(s, CallAdapter);
        log := log + [id];
      }
    }

    /** The adapter was called: record what it returned, and deliver it. */
    method RecordResult(id: string, io: Io)
      requires Reachable(State(live, durable, Called(id), log)) && In(live, id, Executing) && durable == live
      modifies this`live, this`durable
      ensures Valid()
      ensures live == old(live)[id := old(live)[id].(status :=
                if io.result.Refused? then Executing
                else if !io.adapter then Failed
                else if io.result.Persisted? && io.delivered && !io.done.Refused? then Done
                else ResponseReady)]
      ensures durable == live[id := live[id].(status :=
                if !io.result.Persisted? then Executing
                else if !io.adapter then Failed
                else if io.delivered && io.done.Persisted? then Done
                else ResponseReady)]
    {
      ghost var s := State(live, durable, Called(id), log);
      if io.result.Refused? {
        Then(s, LoseResult);
        return;
      }
      Then(s, Finish(io.adapter));
      live := SetStatus(live, id, if io.adapter then ResponseReady else Failed);
      Barrier(io.result.Persisted?);
      if !io.adapter || !io.result.Persisted? || !io.delivered || io.done.Refused? {
        return;
      }
      Then(View(), Deliver(id));
      live := SetStatus(live, id, Done);
      Barrier(io.done.Persisted?);
    }

    method ExecuteNext(id: string, io: Io)
      requires Valid() && In(live, id, Pending)
      modifies this
      ensures Valid() && live == old(live)[id := Executed(old(live)[id], io)]
      ensures log == old(log) + (if Complete(old(live)[id]) && io.mark.Persisted? then [id] else [])
    {
      ExecutePending(id, io);
    }

    /** The loop over the pending requests, in id order. */
    method ExecuteAll(ids: seq<string>, ios: string -> Io)
      requires Valid() && Sorted(ids) && forall id :: id in ids ==> In(live, id, Pending)
      modifies this
      ensures Valid() && live == Turned(old(live), Elems(ids), Executions(ios))
      ensures log == old(log) + Calls(old(live), ids, ios)
    {
      ghost var all := live;
      for k := 0 to |ids|
        invariant Valid() && live == Turned(all, Elems(ids[..k]), Executions(ios))
        invariant log == old(log) + Calls(all, ids[..k], ios)
      {
        ExecutionNext(all, ids, ios, k);
        ExecuteNext(ids[k], ios(ids[k]));
      }
      assert ids[..|ids|] == ids;
    }

    /** The first two turns of a pass. */
    method Recover(quarantine: string -> Write, delivered: string -> bool, deliveries: string -> Write)
      requires Valid()
      modifies this`live, this`durable
      ensures Valid() && live.Keys == old(live).Keys
      ensures forall id :: id in live ==>
                live[id] == Quarantined(Delivered(old(live)[id], delivered(id), deliveries(id)), quarantine(id))
    {
      QuarantineAll(quarantine);
      DeliverReady(delivered, deliveries);
    }

    /** What is listed under the pending tag. */
    method PendingIds() returns (ids: seq<string>)
      ensures Sorted(ids) && forall id :: id in ids <==> In(live, id, Pending)
    {
      ids := SortIds(set id | id in live && live[id].status.Pending?);
      forall id ensures id in ids <==> In(live, id, Pending) {
        assert id in ids <==> id in Elems(ids);
      }
    }

    /** `processExternalIORequests`: one pass. Each request takes at most one turn, decided by
        its status at the start: what was executing becomes ambiguous and is not called, what
        was ready is delivered, and exactly the complete pending requests with a durable mark
        reach the adapter, in id order. */
    method Process(quarantine: string -> Write, delivered: string -> bool, deliveries: string -> Write, ios: string -> Io)
      returns (ghost called: seq<string>)
      requires Valid()
      modifies this
      ensures Valid() && live.Keys == old(live).Keys
      ensures forall id :: id in live ==>
                live[id] == Passed(old(live)[id], quarantine(id), delivered(id), deliveries(id), ios(id))
      ensures log == old(log) + called && Sorted(called)
      ensures forall id :: id in called <==> In(old(live), id, Pending) && Complete(old(live)[id]) && ios(id).mark.Persisted?
    {
      ghost var all := live;
      Recover(quarantine, delivered, deliveries);
      var ids := PendingIds();
      ghost var recovered := live;
      CallsAre(recovered, ids, ios);
      called := Calls(recovered, ids, ios);
      ExecuteAll(ids, ios);
      forall id | id in all
        ensures live[id] == Passed(all[id], quarantine(id), delivered(id), deliveries(id), ios(id))
        ensures In(all, id, Pending) <==> In(recovered, id, Pending)
        ensures In(all, id, Pending) ==> recovered[id] == all[id]
      {
        assert recovered[id] == Quarantined(Delivered(all[id], delivered(id), deliveries(id)), quarantine(id));
      }
    }
  }

  ghost predicate Calling(m: map<string, Request>, id: string, ios: string -> Io) {
    id in m && Complete(m[id]) && ios(id).mark.Persisted?
  }

  /** The listed requests that reach the adapter. */
  ghost function Calls(m: map<string, Request>, ids: seq<string>, ios: string -> Io): seq<string> {
    if |ids| == 0 then []
    else Calls(m, ids[..|ids| - 1], ios) + (if Calling(m, ids[|ids| - 1], ios) then [ids[|ids| - 1]] else [])
  }

  /** One more pending request of a sorted list. */
  lemma ExecutionNext(m: map<string, Request>, ids: seq<string>, ios: string -> Io, k: nat)
    requires k < |ids| && Sorted(ids) && In(m, ids[k], Pending)
    ensures var now := Turned(m, Elems(ids[..k]), Executions(ios));
            && ids[k] in now && now[ids[k]] == m[ids[k]]
            && Turned(m, Elems(ids[..k + 1]), Executions(ios)) == now[ids[k] := Executed(m[ids[k]], ios(ids[k]))]
    ensures Calls(m, ids[..k + 1], ios) == Calls(m, ids[..k], ios) + (if Calling(m, ids[k], ios) then [ids[k]] else [])
  {
    SortedLength(ids);
    ElemsNext(ids, k);
    assert ids[..k + 1][..k] == ids[..k];
    assert ids[k] !in ids[..k];
    TurnedNext(m, Elems(ids[..k]), Executions(ios), ids[k]);
  }

  lemma {:induction false} CallsAre(m: map<string, Request>, ids: seq<string>, ios: string -> Io)
    requires Sorted(ids)
    ensures Sorted(Calls(m, ids, ios))
    ensures forall id :: id in Calls(m, ids, ios) <==> id in ids && Calling(m, id, ios)
  {
    if |ids| > 0 {
      var n := |ids| - 1;
      CallsAre(m, ids[..n], ios);
      assert ids == ids[..n] + [ids[n]];
      forall x | x in Calls(m, ids[..n], ios) ensures StringLess(x, ids[n]) {
        var i :| 0 <= i < n && ids[..n][i] == x;
      }
    }
  }

  lemma FlushAll(s: State, all: set<string>)
    requires all == s.live.Keys + s.durable.Keys
    ensures Take(s, Flush(all)).durable == s.live
  {
  }

  lemma NotYetCalled(s: State, id: string)
    requires Reachable(s) && In(s.live, id, Pending)
    ensures id !in s.log
  {
    ReachableInv(s);
    assert Kept(s, id);
  }
}
