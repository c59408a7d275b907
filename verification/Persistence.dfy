/** Full rewrite of a body while it keeps changing: the record-by-record snapshot, the
    mutations that race with it, and the reconciliation after the rename. */
module Persistence {
  import opened Records
  import opened Strings
  import opened Bodies
  import opened Plans

  /** `localIDs` as a set: stored or new, and not tombstoned. */
  function LocalIds(b: Body): set<string> {
    (b.store.Keys + b.newIds) - b.deletedIds
  }

  /** The tag deltas one pending id has against the Store already in the body. */
  function AddedFor(b: Body, id: string): set<(string, string)> {
    var persisted := if id in b.store then NonEmpty(b.store[id].tags) else {};
    if id in b.deletedIds || id !in b.cache then {}
    else set t | t in NonEmpty(b.cache[id].tags) - persisted :: (t, id)
  }

  function RemovedFor(b: Body, id: string): set<(string, string)> {
    var persisted := if id in b.store then NonEmpty(b.store[id].tags) else {};
    if id in b.deletedIds then set t | t in persisted :: (t, id)
    else if id in b.cache then set t | t in persisted - NonEmpty(b.cache[id].tags) :: (t, id)
    else {}
  }

  /** `rebuildPendingTagDeltasLocked`. */
  function RebuildTags(b: Body): Body {
    var added := set id, p | id in Pending(b) && p in AddedFor(b, id) :: p;
    var removed := set id, p | id in Pending(b) && p in RemovedFor(b, id) :: p;
    b.(tagAdded := added, tagRemoved := removed)
  }

  /** Mutations that the written records do not cover. */
  function StaleIds(b: Body, written: map<string, Memory>): set<string> {
    set id | id in Pending(b) && id !in b.deletedIds
             && (id !in b.cache || id !in written || Structural(b.cache[id]) != Structural(written[id]))
  }

  /** Tombstones of records that were written all the same. */
  function UndeletedIds(b: Body, written: map<string, Memory>): set<string> {
    set id | id in b.deletedIds && id in written
  }

  /** The overlay of `finalizePersistedBody` before its tag deltas are rebuilt. */
  function Rebound(b: Body, written: map<string, Memory>): Body {
    var stale, undeleted := StaleIds(b, written), UndeletedIds(b, written);
    b.(store := written, dirtyIds := stale, newIds := stale - written.Keys, deletedIds := undeleted,
       dirty := stale != {} || undeleted != {})
  }

  /** `finalizePersistedBody`: rebind to the written records and keep pending exactly what
      they do not cover. */
  function Finalize(b: Body, written: map<string, Memory>): Body {
    RebuildTags(Rebound(b, written))
  }

  function RebuildSlice(s: Slice): Slice {
    var before := if s.stored.Some? then NonEmpty(s.stored.value.tags) else {};
    var after := if s.cached.Some? then NonEmpty(s.cached.value.tags) else {};
    if !IsPending(s) then s.(added := {}, removed := {})
    else if s.deleted then s.(added := {}, removed := before)
    else if s.cached.None? then s.(added := {}, removed := {})
    else s.(added := after - before, removed := before - after)
  }

  function FinalizeSlice(s: Slice, written: Option<Memory>): Slice {
    var stale := IsPending(s) && !s.deleted
                 && (s.cached.None? || written.None? || Structural(s.cached.value) != Structural(written.value));
    RebuildSlice(s.(stored := written, changed := stale, unsaved := stale && written.None?,
                    deleted := s.deleted && written.Some?))
  }

  lemma RebuildTagsAt(b: Body, x: string)
    ensures At(RebuildTags(b), x) == RebuildSlice(At(b, x))
  {
    var r, rs := RebuildTags(b), RebuildSlice(At(b, x));
    forall t
      ensures t in TagsOf(r.tagAdded, x) <==> t in rs.added
      ensures t in TagsOf(r.tagRemoved, x) <==> t in rs.removed
    {
      var p := (t, x);
      assert t in TagsOf(r.tagAdded, x) <==> p in r.tagAdded;
      assert t in TagsOf(r.tagRemoved, x) <==> p in r.tagRemoved;
      assert p in r.tagAdded <==> x in Pending(b) && p in AddedFor(b, x);
      assert p in r.tagRemoved <==> x in Pending(b) && p in RemovedFor(b, x);
    }
  }

  lemma FinalizeAt(b: Body, written: map<string, Memory>, x: string)
    ensures At(Finalize(b, written), x) == FinalizeSlice(At(b, x), Lookup(written, x))
  {
    RebuildTagsAt(Rebound(b, written), x);
  }

  /** A save in progress: the body as it is now, the ids still to be copied and the copies
      taken so far. */
  datatype Save = Save(body: Body, todo: set<string>, written: map<string, Memory>)

  datatype SaveStep =
    | Capture(id: string)
    | Mutated(mu: Mutation)
    | Committed(plan: Plan, current: Memory)

  function BeginSave(b: Body): Save {
    Save(b, LocalIds(b), map[])
  }

  /** Discarding a never-stored record leaves no tombstone, so it must not hit a record
      that is already among the copies. */
  predicate StepEnabled(s: Save, step: SaveStep) {
    match step
    case Capture(id) => id in s.todo
    case Mutated(mu) => Enabled(s.body, mu)
    case Committed(p, current) =>
      && Applicable(s.body, p, current)
      && !(p.Discard? && p.id in s.body.newIds && p.id in s.written)
  }

  /** `snapshotMemoriesForPersistence` copies one record at a time under its own lock. */
  function SaveNext(s: Save, step: SaveStep): Save
    requires StepEnabled(s, step)
  {
    match step
    case Capture(id) =>
      var b := PageIn(s.body, id);
      (match Live(b, id)
       case None => Save(b, s.todo - {id}, s.written)
       case Some(m) => Save(b, s.todo - {id}, s.written[id := m]))
    case Mutated(mu) => s.(body := Mutate(s.body, mu))
    case Committed(p, current) => s.(body := ApplyPlan(s.body, p, current))
  }

  /** What the copies know about one id: a record that is not pending is structurally the
      copy, and it is absent when the page passed without copying it. */
  ghost predicate Covered(id: string, s: Slice, todo: bool, copy: Option<Memory>) {
    && (copy.Some? ==> copy.value.id == id)
    && (!IsPending(s) ==>
          && (copy.Some? ==> StructuralView(SliceLive(s)) == StructuralView(copy))
          && (copy.None? && !todo ==> SliceLive(s).None?))
  }

  ghost predicate SaveInv(s: Save) {
    && Sound(s.body)
    && forall id :: Covered(id, At(s.body, id), id in s.todo, Lookup(s.written, id))
  }

  lemma BeginSaveInv(b: Body)
    requires Sound(b)
    ensures SaveInv(BeginSave(b))
  {
    forall id
      ensures Covered(id, At(b, id), id in LocalIds(b), None)
    {
      assert SliceSound(id, At(b, id));
    }
  }

  lemma CaptureInv(s: Save, id: string)
    requires SaveInv(s) && id in s.todo
    ensures SaveInv(SaveNext(s, Capture(id)))
  {
    var s' := SaveNext(s, Capture(id));
    PageInSound(s.body, id);
    forall x
      ensures Covered(x, At(s'.body, x), x in s'.todo, Lookup(s'.written, x))
    {
      assert Covered(x, At(s.body, x), x in s.todo, Lookup(s.written, x));
      assert SliceSound(x, At(s.body, x));
      PageInAt(s.body, id, x);
      assert Live(s'.body, id) == SliceLive(At(s'.body, id));
    }
  }

  lemma PageInAt(b: Body, id: string, x: string)
    ensures At(PageIn(b, id), x) ==
            var s := At(b, x);
            if x == id && !s.deleted && s.cached.None? then s.(cached := s.stored) else s
  {
  }

  /** A mutation leaves the slice of every other id alone; on its own id it either leaves
      the structural view alone or ends up pending, and it never un-pends an id. */
  lemma MutatedSlice(b: Body, mu: Mutation, x: string)
    requires Sound(b) && Enabled(b, mu)
    ensures var s, s' := At(b, x), At(Mutate(b, mu), x);
            !IsPending(s') ==> !IsPending(s) && StructuralView(SliceLive(s')) == StructuralView(SliceLive(s))
  {
    assert SliceSound(x, At(b, x));
    match mu
    case Resolve(id) =>
    case Put(q) => UpsertAt(b, q, x);
    case Insert(m) => AddRuntimeAt(b, m, x);
    case Remove(id) => DeleteAt(b, id, x);
    case EditRecord(m) => EditAt(b, m, x);
    case AddTag(id, t) =>
      if t != "" && t !in b.cache[id].tags {
        assert SliceSound(id, At(b, id));
        var m := b.cache[id];
        var m1 := m.(tags := m.tags + [t], sig := "", revision := Add64(m.revision, 1));
        EditAt(b, m1, x);
        AddTagsAt(Edit(b, m1), id, [t], x);
      }
    case RemoveTag(id, t) =>
      if t in b.cache[id].tags {
        assert SliceSound(id, At(b, id));
        var m := b.cache[id];
        var m1 := m.(tags := WithoutTag(m.tags, t), sig := "", revision := Add64(m.revision, 1));
        EditAt(b, m1, x);
        RemoveTagsAt(Edit(b, m1), id, [t], x);
      }
    case Executed(id) =>
    case DropCached(id) =>
  }

  lemma MutatedInv(s: Save, mu: Mutation)
    requires SaveInv(s) && Enabled(s.body, mu)
    ensures SaveInv(SaveNext(s, Mutated(mu)))
    ensures NoShadow(s.body) ==> NoShadow(SaveNext(s, Mutated(mu)).body)
  {
    MutateSound(s.body, mu);
    forall x
      ensures Covered(x, At(Mutate(s.body, mu), x), x in s.todo, Lookup(s.written, x))
    {
      assert Covered(x, At(s.body, x), x in s.todo, Lookup(s.written, x));
      MutatedSlice(s.body, mu, x);
    }
  }

  lemma CommittedInv(s: Save, p: Plan, current: Memory)
    requires SaveInv(s) && StepEnabled(s, Committed(p, current))
    ensures SaveInv(SaveNext(s, Committed(p, current)))
    ensures NoShadow(s.body) ==> NoShadow(SaveNext(s, Committed(p, current)).body)
  {
    ApplyPlanSound(s.body, p, current);
    forall x
      ensures Covered(x, At(ApplyPlan(s.body, p, current), x), x in s.todo, Lookup(s.written, x))
    {
      assert Covered(x, At(s.body, x), x in s.todo, Lookup(s.written, x));
      assert SliceSound(x, At(s.body, x));
      ApplyPlanAt(s.body, p, current, x);
    }
  }

  /** A run of a save from the moment the id page was taken. */
  ghost predicate SaveRun(s: Save, steps: seq<SaveStep>, s': Save)
    decreases |steps|
  {
    if steps == [] then s == s'
    else StepEnabled(s, steps[0]) && SaveRun(SaveNext(s, steps[0]), steps[1..], s')
  }

  lemma {:induction false} SaveRunInv(s: Save, steps: seq<SaveStep>, s': Save)
    requires SaveInv(s) && SaveRun(s, steps, s')
    ensures SaveInv(s')
    ensures NoShadow(s.body) ==> NoShadow(s'.body)
    decreases |steps|
  {
    if steps != [] {
      match steps[0] {
        case Capture(id) => CaptureInv(s, id);
        case Mutated(mu) => MutatedInv(s, mu);
        case Committed(p, current) => CommittedInv(s, p, current);
      }
      SaveRunInv(SaveNext(s, steps[0]), steps[1..], s');
    }
  }

  /** What finalization does once the whole page is copied: nobody can tell, and every id
      whose live record differs from the new Store is still pending. */
  lemma FinalizeKeepsView(s: Save)
    requires SaveInv(s) && s.todo == {} && NoShadow(s.body)
    ensures var f := Finalize(s.body, s.written); Sound(f) && NewIsUnstored(f) && NoShadow(f)
    ensures forall id :: StructuralView(Live(Finalize(s.body, s.written), id)) == StructuralView(Live(s.body, id))
    ensures forall id :: id !in Pending(Finalize(s.body, s.written)) ==>
              StructuralView(Live(s.body, id)) == StructuralView(Lookup(s.written, id))
  {
    var f := Finalize(s.body, s.written);
    forall id
      ensures SliceSound(id, At(f, id))
      ensures StructuralView(SliceLive(At(f, id))) == StructuralView(SliceLive(At(s.body, id)))
      ensures !IsPending(At(f, id)) ==>
                StructuralView(SliceLive(At(s.body, id))) == StructuralView(Lookup(s.written, id))
    {
      FinalizeAt(s.body, s.written, id);
      assert SliceSound(id, At(s.body, id));
      assert Covered(id, At(s.body, id), false, Lookup(s.written, id));
      FinalizeSliceSound(id, At(s.body, id), Lookup(s.written, id));
    }
    forall id
      ensures Live(f, id) == SliceLive(At(f, id)) && Live(s.body, id) == SliceLive(At(s.body, id))
      ensures id in Pending(f) <==> IsPending(At(f, id))
    {
    }
  }

  lemma FinalizeSliceSound(id: string, s: Slice, copy: Option<Memory>)
    requires SliceSound(id, s) && Covered(id, s, false, copy)
    requires !(s.cached.Some? && s.deleted)
    ensures var f := FinalizeSlice(s, copy);
            && SliceSound(id, f)
            && StructuralView(SliceLive(f)) == StructuralView(SliceLive(s))
            && (!IsPending(f) ==> StructuralView(SliceLive(s)) == StructuralView(copy))
  {
  }

  /** Saving is invisible: for every interleaving of captures, mutations and speculative
      applies between the id page and finalization. */
  lemma SaveIsInvisible(b: Body, steps: seq<SaveStep>, s': Save)
    requires Sound(b) && NoShadow(b)
    requires SaveRun(BeginSave(b), steps, s') && s'.todo == {}
    ensures var f := Finalize(s'.body, s'.written);
            && Sound(f)
            && (forall id :: StructuralView(Live(f, id)) == StructuralView(Live(s'.body, id)))
            && (forall id :: StructuralView(Live(f, id)) != StructuralView(Lookup(f.store, id)) ==> id in Pending(f))
  {
    BeginSaveInv(b);
    SaveRunInv(BeginSave(b), steps, s');
    FinalizeKeepsView(s');
  }

  /** The one step left out of the runs above really breaks the claim: an already copied
      record that was never stored and is discarded speculatively comes back. */
  lemma UntombstonedDiscardResurrects(s: Save, id: string, current: Memory)
    requires SaveInv(s)
    requires Live(s.body, id) == Some(current)
    requires id in s.body.newIds && id !in s.body.store && id in s.written
    ensures var gone := ApplyPlan(s.body, Discard(id), current);
            && Live(gone, id).None?
            && Live(Finalize(gone, s.written), id) == Some(s.written[id])
  {
    var gone := ApplyPlan(s.body, Discard(id), current);
    ApplyPlanAt(s.body, Discard(id), current, id);
    assert SliceSound(id, At(s.body, id));
    FinalizeAt(gone, s.written, id);
    assert Live(Finalize(gone, s.written), id) == SliceLive(At(Finalize(gone, s.written), id));
  }

  /** An insert over a tombstone: reported as done, invisible until the next rewrite, and
      then visible without being pending or stored, so a restart loses it. */
  lemma ShadowedInsertIsLost(s: Save, m: Memory)
    requires SaveInv(s)
    requires m.id in s.body.deletedIds && m.id !in s.written
    ensures var b := AddRuntime(s.body, m);
            var f := Finalize(b, s.written);
            && Live(b, m.id).None?
            && Live(f, m.id) == Some(m)
            && m.id !in Pending(f) && m.id !in f.store
  {
    var b := AddRuntime(s.body, m);
    AddRuntimeAt(s.body, m, m.id);
    FinalizeAt(b, s.written, m.id);
    var f := Finalize(b, s.written);
    assert Live(f, m.id) == SliceLive(At(f, m.id));
    assert m.id in Pending(f) <==> IsPending(At(f, m.id));
    assert m.id in f.store <==> At(f, m.id).stored.Some?;
  }
}
