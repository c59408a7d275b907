/** Commits one transaction diff over all the bodies that own its records. */
module SpeculativeCommit {
  import opened Records
  import opened Strings
  import opened Bodies
  import opened Plans
  import opened Engines

  datatype Diff = Diff(
    changed: map<string, Memory>,
    deleted: set<string>,
    created: map<string, Memory>,
    execDelta: map<string, nat>)

  function DeltaOf(d: Diff, id: string): nat {
    if id in d.execDelta then d.execDelta[id] else 0
  }

  /** The ids with a structural plan. */
  function Structurals(d: Diff): set<string> {
    d.changed.Keys + d.deleted
  }

  /** The ids with an execution-only plan. */
  function Counted(d: Diff): set<string> {
    set id | id in d.execDelta && d.execDelta[id] != 0 && id !in Structurals(d)
  }

  function PlanOf(d: Diff, id: string): (p: Plan)
    ensures p.id == id
  {
    if id in d.changed then Restructure(id, d.changed[id], DeltaOf(d, id))
    else if id in d.deleted then Discard(id)
    else Count(id, DeltaOf(d, id))
  }

  /** A validated plan with the record read under the owner's lock. */
  datatype Job = Job(owner: Engine, plan: Plan, current: Memory)

  /** What the jobs make of one body. */
  ghost function Worked(b: Body, e: Engine, jobs: seq<Job>): Body {
    if |jobs| == 0 then b
    else
      var last := jobs[|jobs| - 1];
      var r := Worked(b, e, jobs[..|jobs| - 1]);
      if last.owner == e then ApplyPlan(r, last.plan, last.current) else r
  }

  ghost predicate DistinctIds(jobs: seq<Job>) {
    forall i, j :: 0 <= i < j < |jobs| ==> jobs[i].plan.id != jobs[j].plan.id
  }

  /** Jobs for distinct ids do not disturb each other: each id of a body ends as its own job
      leaves it. */
  lemma {:induction false} WorkedAt(b: Body, e: Engine, jobs: seq<Job>, x: string)
    requires DistinctIds(jobs)
    ensures (forall k :: 0 <= k < |jobs| ==> !(jobs[k].owner == e && jobs[k].plan.id == x)) ==>
              At(Worked(b, e, jobs), x) == At(b, x)
    ensures forall k :: 0 <= k < |jobs| && jobs[k].owner == e && jobs[k].plan.id == x ==>
              At(Worked(b, e, jobs), x) == PlanSlice(At(b, x), jobs[k].plan, jobs[k].current)
  {
    if |jobs| > 0 {
      var n := |jobs| - 1;
      WorkedAt(b, e, jobs[..n], x);
      ApplyPlanAt(Worked(b, e, jobs[..n]), jobs[n].plan, jobs[n].current, x);
    }
  }

  /** Every job is backed by the body it was read from. */
  ghost predicate JobsFit(b: Body, e: Engine, jobs: seq<Job>) {
    DistinctIds(jobs) && forall k :: 0 <= k < |jobs| && jobs[k].owner == e ==> Live(b, jobs[k].plan.id) == Some(jobs[k].current)
  }

  lemma WorkedLive(b: Body, e: Engine, jobs: seq<Job>, x: string)
    requires JobsFit(b, e, jobs)
    ensures (forall k :: 0 <= k < |jobs| ==> !(jobs[k].owner == e && jobs[k].plan.id == x)) ==>
              Live(Worked(b, e, jobs), x) == Live(b, x)
    ensures forall k :: 0 <= k < |jobs| && jobs[k].owner == e && jobs[k].plan.id == x ==>
              Live(Worked(b, e, jobs), x) == Left(b, jobs[k].plan, jobs[k].current)
  {
    WorkedAt(b, e, jobs, x);
    assert Live(Worked(b, e, jobs), x) == SliceLive(At(Worked(b, e, jobs), x));
    assert Live(b, x) == SliceLive(At(b, x));
    forall k | 0 <= k < |jobs| && jobs[k].owner == e && jobs[k].plan.id == x
      ensures Live(Worked(b, e, jobs), x) == Left(b, jobs[k].plan, jobs[k].current)
    {
      PlanSliceLeft(b, jobs[k].plan, jobs[k].current);
    }
  }

  lemma {:induction false} WorkedSound(b: Body, e: Engine, jobs: seq<Job>)
    requires JobsFit(b, e, jobs) && Sound(b) && NewIsUnstored(b)
    requires forall k :: 0 <= k < |jobs| && jobs[k].plan.Restructure? ==> jobs[k].plan.changed.id == jobs[k].plan.id
    ensures Sound(Worked(b, e, jobs)) && NewIsUnstored(Worked(b, e, jobs)) && Worked(b, e, jobs).store == b.store
  {
    if |jobs| > 0 {
      var n := |jobs| - 1;
      WorkedSound(b, e, jobs[..n]);
      if jobs[n].owner == e {
        WorkedLive(b, e, jobs[..n], jobs[n].plan.id);
        ApplyPlanSound(Worked(b, e, jobs[..n]), jobs[n].plan, jobs[n].current);
      }
    }
  }

  // ---- The commit ----------------------------------------------------------------------

  /** Everything the validation phase establishes for one id. */
  ghost predicate ReadyAt(b: Body, base: map<string, Memory>, d: Diff, id: string) {
    id in base && Live(b, id).Some? && (id in Structurals(d) ==> NoExec(Live(b, id).value) == NoExec(base[id]))
  }

  /** Plans need a recorded owner and a baseline. */
  method Owned(ids: set<string>, base: map<string, Memory>, owners: map<string, Engine>)
    returns (ok: bool, order: seq<string>)
    ensures ok <==> ids <= owners.Keys && ids <= base.Keys
    ensures ok ==> (forall id :: id in order <==> id in ids) && forall i, j :: 0 <= i < j < |order| ==> order[i] != order[j]
  {
    order := [];
    var todo := ids;
    while todo != {}
      invariant todo <= ids
      invariant forall id :: id in order <==> id in ids - todo
      invariant forall id :: id in order ==> id in owners && id in base
      invariant forall i, j :: 0 <= i < j < |order| ==> order[i] != order[j]
      decreases todo
    {
      var id :| id in todo;
      if id !in owners || id !in base {
        return false, [];
      }
      order := order + [id];
      todo := todo - {id};
    }
    return true, order;
  }

  /** The first phase: only reads. */
  method Validate(order: seq<string>, base: map<string, Memory>, d: Diff, owners: map<string, Engine>)
    returns (ok: bool, jobs: seq<Job>)
    requires forall id :: id in order ==> id in owners && id in base
    ensures ok <==> forall id :: id in order ==> ReadyAt(owners[id].Overlay(), base, d, id)
    ensures ok ==> |jobs| == |order|
    ensures ok ==> forall i :: 0 <= i < |jobs| ==>
              Live(owners[order[i]].Overlay(), order[i]).Some? &&
              jobs[i] == Job(owners[order[i]], PlanOf(d, order[i]), Live(owners[order[i]].Overlay(), order[i]).value)
  {
    jobs := [];
    for i := 0 to |order|
      invariant |jobs| == i
      invariant forall k :: 0 <= k < i ==> ReadyAt(owners[order[k]].Overlay(), base, d, order[k])
      invariant forall k :: 0 <= k < i ==>
                  Live(owners[order[k]].Overlay(), order[k]).Some? &&
                  jobs[k] == Job(owners[order[k]], PlanOf(d, order[k]), Live(owners[order[k]].Overlay(), order[k]).value)
    {
      var id := order[i];
      var current := owners[id].PhysicalOwnerMemory(id);
      if current.None? || (id in Structurals(d) && NoExec(current.value) != NoExec(base[id])) {
        assert !ReadyAt(owners[id].Overlay(), base, d, id);
        return false, [];
      }
      jobs := jobs + [Job(owners[id], PlanOf(d, id), current.value)];
    }
    return true, jobs;
  }

  /** The second phase: only writes. */
  method ApplyAll(jobs: seq<Job>, ghost bodies: map<Engine, Body>)
    requires forall i :: 0 <= i < |jobs| ==> jobs[i].owner in bodies
    requires forall e :: e in bodies ==> e.Overlay() == bodies[e]
    modifies bodies.Keys
    ensures forall e :: e in bodies ==> e.Overlay() == Worked(bodies[e], e, jobs) && e.disk == old(e.disk)
  {
    for i := 0 to |jobs|
      invariant forall e :: e in bodies ==> e.Overlay() == Worked(bodies[e], e, jobs[..i]) && e.disk == old(e.disk)
    {
      assert jobs[..i + 1][..i] == jobs[..i];
      jobs[i].owner.ApplySpeculative(jobs[i].plan, jobs[i].current);
    }
    assert jobs[..|jobs|] == jobs;
  }

  // ---- All or nothing -------------------------------------------------------------------

  function Planned(d: Diff): set<string> {
    Structurals(d) + Counted(d)
  }

  /** The bodies as values. */
  ghost function Overlays(owners: map<string, Engine>): map<Engine, Body>
    reads owners.Values
  {
    map e | e in owners.Values :: e.Overlay()
  }

  /** Each planned id has exactly one job, at its owner, with the record read there. */
  ghost predicate JobsFor(d: Diff, owners: map<string, Engine>, bodies: map<Engine, Body>, jobs: seq<Job>) {
    && DistinctIds(jobs)
    && (forall k :: 0 <= k < |jobs| ==> JobFor(d, owners, bodies, jobs[k]))
    && (forall id :: id in Planned(d) ==> exists k :: 0 <= k < |jobs| && jobs[k].plan.id == id)
  }

  ghost predicate JobFor(d: Diff, owners: map<string, Engine>, bodies: map<Engine, Body>, j: Job) {
    j.plan.id in Planned(d) && j.plan.id in owners && j.owner == owners[j.plan.id] && j.owner in bodies &&
    j.plan == PlanOf(d, j.plan.id) && Live(bodies[j.owner], j.plan.id) == Some(j.current)
  }

  /** What a committed diff leaves at one id of one body. */
  ghost function Expected(b: Body, e: Engine, d: Diff, owners: map<string, Engine>, x: string): Option<Memory> {
    if x in Planned(d) && x in owners && owners[x] == e && Live(b, x).Some?
    then Left(b, PlanOf(d, x), Live(b, x).value)
    else Live(b, x)
  }

  lemma FinishedAt(d: Diff, owners: map<string, Engine>, bodies: map<Engine, Body>, jobs: seq<Job>, e: Engine, x: string)
    requires JobsFor(d, owners, bodies, jobs) && e in bodies
    ensures Live(Worked(bodies[e], e, jobs), x) == Expected(bodies[e], e, d, owners, x)
  {
    WorkedLive(bodies[e], e, jobs, x);
    if x in Planned(d) && x in owners && owners[x] == e {
      var k :| 0 <= k < |jobs| && jobs[k].plan.id == x;
      assert JobFor(d, owners, bodies, jobs[k]);
    }
  }

  lemma FinishedSound(d: Diff, owners: map<string, Engine>, bodies: map<Engine, Body>, jobs: seq<Job>, e: Engine)
    requires JobsFor(d, owners, bodies, jobs) && e in bodies && Sound(bodies[e]) && NewIsUnstored(bodies[e])
    requires forall id :: id in d.changed ==> d.changed[id].id == id
    ensures Sound(Worked(bodies[e], e, jobs)) && NewIsUnstored(Worked(bodies[e], e, jobs))
  {
    forall k | 0 <= k < |jobs| && jobs[k].plan.Restructure? ensures jobs[k].plan.changed.id == jobs[k].plan.id {
      assert JobFor(d, owners, bodies, jobs[k]);
    }
    WorkedSound(bodies[e], e, jobs);
  }

  lemma JobsComplete(d: Diff, owners: map<string, Engine>, bodies: map<Engine, Body>, order: seq<string>, execs: seq<string>, jobs: seq<Job>)
    requires forall id :: id in order <==> id in Structurals(d)
    requires forall id :: id in execs <==> id in Counted(d)
    requires forall i, j :: 0 <= i < j < |order| ==> order[i] != order[j]
    requires forall i, j :: 0 <= i < j < |execs| ==> execs[i] != execs[j]
    requires |jobs| == |order + execs|
    requires forall i :: 0 <= i < |jobs| ==>
               jobs[i].plan.id == (order + execs)[i] && JobFor(d, owners, bodies, jobs[i])
    ensures JobsFor(d, owners, bodies, jobs)
  {
    var all := order + execs;
    forall i, j | 0 <= i < j < |jobs| ensures jobs[i].plan.id != jobs[j].plan.id {
      assert all[i] in order || all[i] in execs;
      assert all[j] in order || all[j] in execs;
    }
    forall id | id in Planned(d) ensures exists k :: 0 <= k < |jobs| && jobs[k].plan.id == id {
      assert id in all;
      var k :| 0 <= k < |all| && all[k] == id;
      assert jobs[k].plan.id == id;
    }
  }

  /** The commit goes through exactly when nothing is created and every planned id has an
      owner, a baseline and a live record that, if changed or deleted, equals the baseline. */
  ghost predicate Ready(bodies: map<Engine, Body>, base: map<string, Memory>, d: Diff, owners: map<string, Engine>) {
    d.created == map[] &&
    forall id :: id in Planned(d) ==> id in owners && owners[id] in bodies && ReadyAt(bodies[owners[id]], base, d, id)
  }

  /** Plans and validates: the jobs of a commit that will go through, or none. */
  method Admit(base: map<string, Memory>, d: Diff, owners: map<string, Engine>) returns (ok: bool, jobs: seq<Job>)
    ensures ok <==> Ready(Overlays(owners), base, d, owners)
    ensures ok ==> JobsFor(d, owners, Overlays(owners), jobs)
  {
    jobs := [];
    if d.created != map[] {
      return false, [];
    }
    var structural, order := Owned(Structurals(d), base, owners);
    if !structural {
      assert exists id :: id in Structurals(d) && (id !in owners || id !in base);
      return false, [];
    }
    var counted, execs := Owned(Counted(d), base, owners);
    if !counted {
      assert exists id :: id in Counted(d) && (id !in owners || id !in base);
      return false, [];
    }
    ok, jobs := Validate(order + execs, base, d, owners);
    if ok {
      JobsComplete(d, owners, Overlays(owners), order, execs, jobs);
    }
  }

  /** All or nothing: if the diff is ready, each planned id is left as planned, with the
      counter read under the lock plus the run's own delta, and nothing else changes;
      otherwise no body changes at all. */
  method Commit(base: map<string, Memory>, d: Diff, owners: map<string, Engine>) returns (ok: bool)
    modifies owners.Values
    ensures ok <==> Ready(old(Overlays(owners)), base, d, owners)
    ensures !ok ==> Overlays(owners) == old(Overlays(owners))
    ensures ok ==> forall e, x :: e in owners.Values ==>
              Live(Overlays(owners)[e], x) == Expected(old(Overlays(owners))[e], e, d, owners, x)
    ensures (forall id :: id in d.changed ==> d.changed[id].id == id) ==>
            forall e :: e in owners.Values && Sound(old(Overlays(owners))[e]) && NewIsUnstored(old(Overlays(owners))[e]) ==>
              Sound(Overlays(owners)[e]) && NewIsUnstored(Overlays(owners)[e])
    ensures forall e :: e in owners.Values ==> e.disk == old(e.disk)
  {
    var jobs;
    ok, jobs := Admit(base, d, owners);
    if !ok {
      return;
    }
    ghost var bodies := Overlays(owners);
    ApplyAll(jobs, bodies);
    forall e, x | e in owners.Values ensures Live(Overlays(owners)[e], x) == Expected(bodies[e], e, d, owners, x) {
      FinishedAt(d, owners, bodies, jobs, e, x);
    }
    if forall id :: id in d.changed ==> d.changed[id].id == id {
      forall e | e in owners.Values && Sound(bodies[e]) && NewIsUnstored(bodies[e])
        ensures Sound(Overlays(owners)[e]) && NewIsUnstored(Overlays(owners)[e])
      {
        FinishedSound(d, owners, bodies, jobs, e);
      }
    }
  }
}
