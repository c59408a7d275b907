/** What a speculative commit does to one owner body. */
module Plans {
  import opened Records
  import opened Strings
  import opened Bodies

  /** One id of a transaction diff. `Restructure` and `Discard` are the structural plans;
      `Count` is an execution-only plan. */
  datatype Plan =
    | Restructure(id: string, changed: Memory, execDelta: nat)
    | Discard(id: string)
    | Count(id: string, delta: nat)

  /** `applySpeculativeStructuralPlanLocked` and `applySpeculativeExecPlanLocked`, given
      the record that the validation phase read under the owner lock. */
  function ApplyPlan(b: Body, p: Plan, current: Memory): Body {
    match p
    case Discard(id) =>
      RemoveTags(b, id, current.tags).(
        cache := b.cache - {id},
        newIds := b.newIds - {id},
        dirtyIds := b.dirtyIds - {id},
        deletedIds := if id in b.newIds then b.deletedIds - {id} else b.deletedIds + {id},
        dirty := true)
    case Restructure(id, changed, execDelta) =>
      var q := changed.(execCount := Add64(current.execCount, execDelta));
      AddTags(RemoveTags(b, id, current.tags), id, q.tags).(
        cache := b.cache[id := q],
        deletedIds := b.deletedIds - {id},
        dirtyIds := b.dirtyIds + {id},
        dirty := true)
    case Count(id, delta) =>
      var m := if id in b.cache then b.cache[id] else current;
      b.(cache := b.cache[id := m.(execCount := Add64(m.execCount, delta))])
  }

  function PlanSlice(s: Slice, p: Plan, current: Memory): Slice {
    match p
    case Discard(id) =>
      RemoveSliceTags(s, current.tags).(
        cached := None, unsaved := false, changed := false, deleted := !s.unsaved)
    case Restructure(id, changed, execDelta) =>
      var q := changed.(execCount := Add64(current.execCount, execDelta));
      AddSliceTags(RemoveSliceTags(s, current.tags), q.tags).(
        cached := Some(q), changed := true, deleted := false)
    case Count(id, delta) =>
      var m := if s.cached.Some? then s.cached.value else current;
      s.(cached := Some(m.(execCount := Add64(m.execCount, delta))))
  }

  lemma ApplyPlanAt(b: Body, p: Plan, current: Memory, x: string)
    ensures At(ApplyPlan(b, p, current), x) ==
            if x == p.id then PlanSlice(At(b, x), p, current) else At(b, x)
  {
    match p
    case Discard(id) => RemoveTagsAt(b, id, current.tags, x);
    case Restructure(id, changed, execDelta) =>
      RemoveTagsAt(b, id, current.tags, x);
      AddTagsAt(RemoveTags(b, id, current.tags), id, changed.tags, x);
    case Count(id, delta) =>
  }

  /** A plan is applied to the record it was validated against, and a restructured record
      keeps its id. */
  predicate Validated(b: Body, p: Plan, current: Memory) {
    Live(b, p.id) == Some(current) && (p.Restructure? ==> p.changed.id == p.id)
  }

  /** And a discarded record is not a stored one that is marked new. */
  predicate Applicable(b: Body, p: Plan, current: Memory) {
    Validated(b, p, current) && (p.Discard? ==> !(p.id in b.newIds && p.id in b.store))
  }

  function Outcome(p: Plan, current: Memory): Option<Memory> {
    match p
    case Discard(_) => None
    case Restructure(_, changed, execDelta) => Some(changed.(execCount := Add64(current.execCount, execDelta)))
    case Count(_, delta) => Some(current.(execCount := Add64(current.execCount, delta)))
  }

  /** Applying a plan keeps the body sound and changes the live view of its id only, to
      the planned record with the locked counter plus the run's delta. */
  lemma ApplyPlanSound(b: Body, p: Plan, current: Memory)
    requires Sound(b) && Applicable(b, p, current)
    ensures Sound(ApplyPlan(b, p, current))
    ensures ApplyPlan(b, p, current).store == b.store
    ensures NewIsUnstored(b) ==> NewIsUnstored(ApplyPlan(b, p, current))
    ensures NoShadow(b) ==> NoShadow(ApplyPlan(b, p, current))
    ensures forall x :: Live(ApplyPlan(b, p, current), x) == if x == p.id then Outcome(p, current) else Live(b, x)
  {
    forall x
      ensures SliceSound(x, At(ApplyPlan(b, p, current), x))
      ensures Live(ApplyPlan(b, p, current), x) == if x == p.id then Outcome(p, current) else Live(b, x)
    {
      ApplyPlanEach(b, p, current, x);
    }
    ApplyPlanPending(b, p, current);
  }

  lemma ApplyPlanEach(b: Body, p: Plan, current: Memory, x: string)
    requires Sound(b) && Applicable(b, p, current)
    ensures SliceSound(x, At(ApplyPlan(b, p, current), x))
    ensures Live(ApplyPlan(b, p, current), x) == if x == p.id then Outcome(p, current) else Live(b, x)
  {
    ApplyPlanAt(b, p, current, x);
    assert SliceSound(x, At(b, x));
    if x == p.id {
      PlanSliceSound(x, At(b, x), p, current);
    }
    assert Live(ApplyPlan(b, p, current), x) == SliceLive(At(ApplyPlan(b, p, current), x));
    assert Live(b, x) == SliceLive(At(b, x));
  }

  lemma ApplyPlanPending(b: Body, p: Plan, current: Memory)
    requires Pending(b) != {} ==> b.dirty
    requires Applicable(b, p, current)
    ensures Pending(ApplyPlan(b, p, current)) != {} ==> ApplyPlan(b, p, current).dirty
    ensures ApplyPlan(b, p, current).store == b.store
    ensures NewIsUnstored(b) ==> NewIsUnstored(ApplyPlan(b, p, current))
    ensures NoShadow(b) ==> NoShadow(ApplyPlan(b, p, current))
  {
  }

  lemma PlanSliceSound(id: string, s: Slice, p: Plan, current: Memory)
    requires SliceSound(id, s) && id == p.id
    requires SliceLive(s) == Some(current)
    requires p.Restructure? ==> p.changed.id == id
    requires p.Discard? ==> !(s.unsaved && s.stored.Some?)
    ensures SliceSound(id, PlanSlice(s, p, current))
    ensures SliceLive(PlanSlice(s, p, current)) == Outcome(p, current)
  {
  }

  /** Applying any validated plan changes the live view of its id only, to the planned record
      or, for a discarded one that was marked new although stored, to the stored version. The
      body stays sound exactly if it is not the latter, or that version carries no tag. */
  lemma ValidatedPlanSoundIff(b: Body, p: Plan, current: Memory)
    requires Sound(b) && Validated(b, p, current)
    ensures forall x :: Live(ApplyPlan(b, p, current), x) == if x == p.id then Left(b, p, current) else Live(b, x)
    ensures Sound(ApplyPlan(b, p, current)) <==>
            Applicable(b, p, current) || forall t :: t in b.store[p.id].tags ==> t == "" && (t, p.id) !in b.tagRemoved
  {
    if Applicable(b, p, current) {
      ApplyPlanSound(b, p, current);
    } else {
      var r := ApplyPlan(b, p, current);
      forall x ensures Live(r, x) == if x == p.id then Left(b, p, current) else Live(b, x) {
      }
      assert SliceSound(p.id, At(b, p.id));
      ShownAgainSound(At(b, p.id), p, current);
      ApplyPlanAt(b, p, current, p.id);
      assert forall t :: (t, p.id) in b.tagRemoved <==> t in At(b, p.id).removed;
      forall x | x != p.id ensures SliceSound(x, At(r, x)) {
        ApplyPlanAt(b, p, current, x);
        assert SliceSound(x, At(b, x));
      }
    }
  }

  lemma ShownAgainSound(s: Slice, p: Plan, current: Memory)
    requires SliceSound(p.id, s) && SliceLive(s) == Some(current) && p.Discard? && s.unsaved && s.stored.Some?
    ensures SliceSound(p.id, PlanSlice(s, p, current)) <==>
            forall t :: t in s.stored.value.tags ==> t == "" && t !in s.removed
  {
    var r := PlanSlice(s, p, current);
    assert s.cached == Some(current);
    if t :| t in s.stored.value.tags && (t != "" || t in s.removed) {
      assert t in r.removed;
    }
  }

  /** Discarding leaves the id absent exactly when the body did not
      mark a stored record as new, which a failed durable move can leave behind. */
  lemma DiscardAbsentIff(b: Body, id: string, current: Memory)
    requires Live(b, id) == Some(current)
    ensures Live(ApplyPlan(b, Discard(id), current), id).None? <==> !(id in b.newIds && id in b.store)
  {
  }

  /** The live record an id is left with. A discarded record that was marked new although
      the Store holds it shows the stored version again. */
  function Left(b: Body, p: Plan, current: Memory): Option<Memory> {
    if p.Discard? && p.id in b.newIds && p.id in b.store then Some(b.store[p.id]) else Outcome(p, current)
  }

  lemma PlanSliceLeft(b: Body, p: Plan, current: Memory)
    requires Live(b, p.id) == Some(current)
    ensures SliceLive(PlanSlice(At(b, p.id), p, current)) == Left(b, p, current)
  {
  }
}
