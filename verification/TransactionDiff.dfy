/** From the private snapshot to the committed bodies: the diff of a run, and the agreement
    between the commit over owner bodies and the commit on the Fabric's live view. */
module TransactionDiff {
  import opened Records
  import opened Bodies
  import opened Plans
  import opened Engines
  import C = SpeculativeCommit
  import S = Serializability

  function DiffOf(s: S.Private): C.Diff {
    C.Diff(
      map id | id in s.base && S.Changed(s, id) :: s.cache[id],
      set id | id in s.base && S.Deleted(s, id),
      map id | id in s.cache && S.Created(s, id) :: s.cache[id],
      map id | id in s.base && S.Delta(s, id) > 0 :: S.Delta(s, id))
  }

  /** One baseline's entry in each part of the diff. */
  ghost predicate Entered(s: S.Private, changed: map<string, Memory>, deleted: set<string>, execDelta: map<string, nat>, id: string) {
    && (id in changed <==> S.Changed(s, id))
    && (id in changed ==> changed[id] == s.cache[id])
    && (id in deleted <==> S.Deleted(s, id))
    && (id in execDelta <==> S.Delta(s, id) > 0)
    && (id in execDelta ==> execDelta[id] == S.Delta(s, id))
  }

  /** Walks the baselines. */
  method DiffBaselines(s: S.Private)
    returns (changed: map<string, Memory>, deleted: set<string>, execDelta: map<string, nat>)
    ensures forall id :: id in s.base ==> Entered(s, changed, deleted, execDelta, id)
    ensures changed.Keys <= s.base.Keys && deleted <= s.base.Keys && execDelta.Keys <= s.base.Keys
  {
    changed, deleted, execDelta := map[], {}, map[];
    var todo := s.base.Keys;
    while todo != {}
      invariant todo <= s.base.Keys
      invariant changed.Keys <= s.base.Keys - todo && deleted <= s.base.Keys - todo && execDelta.Keys <= s.base.Keys - todo
      invariant forall id :: id in s.base && id !in todo ==> Entered(s, changed, deleted, execDelta, id)
      decreases todo
    {
      var id :| id in todo;
      todo := todo - {id};
      if id in s.deleted || id !in s.cache {
        deleted := deleted + {id};
      } else {
        if s.cache[id].execCount > s.base[id].execCount {
          execDelta := execDelta[id := s.cache[id].execCount - s.base[id].execCount];
        }
        if NoExec(s.cache[id]) != NoExec(s.base[id]) {
          changed := changed[id := s.cache[id]];
        }
      }
    }
  }

  /** Walks the working copies. */
  method DiffCreated(s: S.Private) returns (created: map<string, Memory>)
    ensures forall id :: id in created <==> S.Created(s, id)
    ensures forall id :: id in created ==> id in s.cache && created[id] == s.cache[id]
  {
    created := map[];
    var todo := s.cache.Keys;
    while todo != {}
      invariant todo <= s.cache.Keys
      invariant forall id :: id in created <==> id !in todo && S.Created(s, id)
      invariant forall id :: id in created ==> id in s.cache && created[id] == s.cache[id]
      decreases todo
    {
      var id :| id in todo;
      todo := todo - {id};
      if id !in s.base && id !in s.deleted {
        created := created[id := s.cache[id]];
      }
    }
  }

  method DiffSnapshot(s: S.Private) returns (d: C.Diff)
    ensures d == DiffOf(s)
  {
    var changed, deleted, execDelta := DiffBaselines(s);
    var created := DiffCreated(s);
    d := C.Diff(changed, deleted, created, execDelta);
  }

  /** Each recorded owner shows the Fabric's record of its id. */
  ghost predicate Shows(shared: S.Fabric, bodies: map<Engine, Body>, owners: map<string, Engine>) {
    forall id :: id in owners ==> owners[id] in bodies && Live(bodies[owners[id]], id) == S.Lookup(shared, id)
  }

  lemma PlannedIff(s: S.Private, id: string)
    ensures id in C.Structurals(DiffOf(s)) <==> S.Changed(s, id) || S.Deleted(s, id)
    ensures id in C.Counted(DiffOf(s)) <==> S.Delta(s, id) > 0 && !S.Changed(s, id) && !S.Deleted(s, id)
    ensures C.DeltaOf(DiffOf(s), id) == S.Delta(s, id)
  {
  }

  lemma CreatedNone(s: S.Private)
    ensures DiffOf(s).created == map[] <==> forall id :: id in s.cache ==> !S.Created(s, id)
  {
    if id :| id in s.cache && S.Created(s, id) {
      assert id in DiffOf(s).created;
    } else {
      assert DiffOf(s).created.Keys == {};
    }
  }

  /** The lock-held validation over owner bodies decides what the view-level one does. */
  lemma ReadyIffValidates(s: S.Private, shared: S.Fabric, bodies: map<Engine, Body>, owners: map<string, Engine>)
    requires Shows(shared, bodies, owners) && s.base.Keys <= owners.Keys
    ensures C.Ready(bodies, s.base, DiffOf(s), owners) <==> S.Validates(s, shared)
  {
    CreatedNone(s);
    var d := DiffOf(s);
    forall id | id in s.base
      ensures id in C.Planned(d) ==>
                (C.ReadyAt(bodies[owners[id]], s.base, d, id) <==>
                 id in shared && (S.Changed(s, id) || S.Deleted(s, id) ==> NoExec(shared[id]) == NoExec(s.base[id])))
    {
      PlannedIff(s, id);
    }
    forall id ensures id in C.Planned(d) <==> id in s.base && (S.Changed(s, id) || S.Deleted(s, id) || S.Delta(s, id) > 0) {
      PlannedIff(s, id);
    }
  }

  /** A committed diff leaves every owner showing the committed Fabric. */
  lemma CommitShows(s: S.Private, shared: S.Fabric, bodies: map<Engine, Body>, owners: map<string, Engine>, id: string)
    requires Shows(shared, bodies, owners) && S.Validates(s, shared) && S.Counters(shared, 0)
    requires id in owners && s.base.Keys <= owners.Keys && NewIsUnstored(bodies[owners[id]])
    ensures C.Expected(bodies[owners[id]], owners[id], DiffOf(s), owners, id) == S.Lookup(S.Committed(s, shared), id)
  {
    PlannedIff(s, id);
    assert S.InRange(S.Lookup(shared, id), 0);
    var b := bodies[owners[id]];
    if id in C.Planned(DiffOf(s)) {
      assert id in shared && Live(b, id) == Some(shared[id]);
      PlanShows(s, shared, b, id);
    } else {
      assert !S.Changed(s, id) && !S.Deleted(s, id) && S.Delta(s, id) == 0;
    }
  }

  lemma PlanShows(s: S.Private, shared: S.Fabric, b: Body, id: string)
    requires id in shared && id in C.Planned(DiffOf(s)) && NewIsUnstored(b)
    ensures Left(b, C.PlanOf(DiffOf(s), id), shared[id]) == S.Lookup(S.Committed(s, shared), id)
  {
    PlannedIff(s, id);
  }

  /** The scheduler's commit: diff the private run, then commit it over the owners. On
      success the owners show exactly the Fabric that the view-level commit gives. */
  method CommitRun(s: S.Private, owners: map<string, Engine>, ghost shared: S.Fabric) returns (ok: bool)
    requires s.base.Keys <= owners.Keys && S.Counters(shared, 0)
    requires Shows(shared, C.Overlays(owners), owners)
    requires forall e :: e in owners.Values ==> NewIsUnstored(e.Overlay())
    modifies owners.Values
    ensures ok <==> S.Validates(s, shared)
    ensures Shows(if ok then S.Committed(s, shared) else shared, C.Overlays(owners), owners)
  {
    var d := DiffSnapshot(s);
    ghost var bodies := C.Overlays(owners);
    ReadyIffValidates(s, shared, bodies, owners);
    ok := C.Commit(s.base, d, owners);
    if ok {
      forall id | id in owners
        ensures Live(C.Overlays(owners)[owners[id]], id) == S.Lookup(S.Committed(s, shared), id)
      {
        CommitShows(s, shared, bodies, owners, id);
      }
    }
  }
}
