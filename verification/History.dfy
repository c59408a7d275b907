/** The whole life of one body: mutations, speculative applies, saves that end or fail, and
    restarts from a base image with its journal, in any order. */
module BodyHistory {
  import opened Strings
  import opened Records
  import opened Bodies
  import opened Plans
  import P = Persistence
  import J = MutationJournal
  import E = Engines
  import S = StoreIndex

  /** `kind` is that of the image the Store was opened from. */
  datatype Life = Running(body: Body, kind: S.Kind) | Saving(save: P.Save, kind: S.Kind)

  datatype Event =
    | Happens(step: P.SaveStep)
    | StartSave
    | FinishSave
    | FailSave
    | Restart(base: map<string, Memory>, kind: S.Kind, entries: seq<J.Entry>)

  function BodyOf(l: Life): Body {
    match l
    case Running(b, _) => b
    case Saving(s, _) => s.body
  }

  /** What can happen next. Any live record may be discarded, also one that was copied by the
      running save and never stored. */
  ghost predicate Possible(l: Life, e: Event) {
    match e
    case Happens(Capture(id)) => l.Saving? && id in l.save.todo
    case Happens(Mutated(mu)) => Enabled(BodyOf(l), mu)
    case Happens(Committed(p, current)) => Validated(BodyOf(l), p, current)
    case StartSave => l.Running?
    case FinishSave => l.Saving? && l.save.todo == {}
    case FailSave => l.Saving?
    case Restart(base, _, entries) => (forall id :: id in base ==> base[id].id == id) && J.EntriesNamed(entries)
  }

  function WithBody(l: Life, b: Body): Life {
    match l
    case Running(_, kind) => Running(b, kind)
    case Saving(s, kind) => Saving(s.(body := b), kind)
  }

  /** Every rewrite is by the current source, so its image lists features. */
  function Next(l: Life, e: Event): Life {
    match e
    case Happens(Capture(id)) =>
      if l.Saving? && id in l.save.todo then Saving(P.SaveNext(l.save, P.Capture(id)), l.kind) else l
    case Happens(Mutated(mu)) => if Enabled(BodyOf(l), mu) then WithBody(l, Mutate(BodyOf(l), mu)) else l
    case Happens(Committed(p, current)) => WithBody(l, ApplyPlan(BodyOf(l), p, current))
    case StartSave => if l.Running? then Saving(P.BeginSave(l.body), l.kind) else l
    case FinishSave => if l.Saving? then Running(P.Finalize(l.save.body, l.save.written), S.Featured) else l
    case FailSave => Running(BodyOf(l), l.kind)
    case Restart(base, kind, entries) => Running(J.Restore(Opened(base), entries), kind)
  }

  ghost predicate Lived(l: Life, events: seq<Event>, to: Life)
    decreases |events|
  {
    if |events| == 0 then l == to else Possible(l, events[0]) && Lived(Next(l, events[0]), events[1..], to)
  }

  /** What a save's copies know about one id, or nothing is left of it but its copy. */
  ghost predicate Copied(id: string, s: Slice, todo: bool, copy: Option<Memory>) {
    && (copy.Some? ==> copy.value.id == id)
    && (s.stored.Some? || s.cached.Some? ==> P.Covered(id, s, todo, copy))
  }

  ghost predicate CopiesFit(s: P.Save) {
    forall id :: Copied(id, At(s.body, id), id in s.todo, Lookup(s.written, id))
  }

  ghost predicate Orderly(b: Body) {
    Sound(b) && NoShadow(b) && NewIsUnstored(b)
  }

  ghost predicate Healthy(l: Life) {
    Orderly(BodyOf(l)) && (l.Saving? ==> CopiesFit(l.save))
  }

  lemma {:induction false} RestoreAllOrderly(b: Body, es: seq<J.Entry>)
    requires NoShadow(b) && NewIsUnstored(b)
    ensures NoShadow(J.RestoreAll(b, es)) && NewIsUnstored(J.RestoreAll(b, es)) && J.RestoreAll(b, es).store == b.store
    decreases |es|
  {
    if |es| > 0 {
      RestoreAllOrderly(b, es[..|es| - 1]);
    }
  }

  lemma CommittedHealthy(l: Life, p: Plan, current: Memory)
    requires Healthy(l) && Validated(BodyOf(l), p, current)
    ensures Healthy(WithBody(l, ApplyPlan(BodyOf(l), p, current)))
  {
    var b := BodyOf(l);
    ApplyPlanSound(b, p, current);
    if l.Saving? {
      forall id ensures Copied(id, At(ApplyPlan(b, p, current), id), id in l.save.todo, Lookup(l.save.written, id)) {
        assert Copied(id, At(b, id), id in l.save.todo, Lookup(l.save.written, id));
        assert SliceSound(id, At(b, id));
        assert !(id in b.newIds && id in b.store);
        ApplyPlanAt(b, p, current, id);
      }
    }
  }

  lemma MutatedHealthy(l: Life, mu: Mutation)
    requires Healthy(l) && Enabled(BodyOf(l), mu)
    ensures Healthy(WithBody(l, Mutate(BodyOf(l), mu)))
  {
    var b := BodyOf(l);
    MutateSound(b, mu);
    if l.Saving? {
      forall id ensures Copied(id, At(Mutate(b, mu), id), id in l.save.todo, Lookup(l.save.written, id)) {
        assert Copied(id, At(b, id), id in l.save.todo, Lookup(l.save.written, id));
        P.MutatedSlice(b, mu, id);
      }
    }
  }

  lemma CaptureHealthy(s: P.Save, id: string)
    requires Orderly(s.body) && CopiesFit(s) && id in s.todo
    ensures Orderly(P.SaveNext(s, P.Capture(id)).body) && CopiesFit(P.SaveNext(s, P.Capture(id)))
  {
    var t := P.SaveNext(s, P.Capture(id));
    PageInSound(s.body, id);
    forall x ensures Copied(x, At(t.body, x), x in t.todo, Lookup(t.written, x)) {
      assert Copied(x, At(s.body, x), x in s.todo, Lookup(s.written, x));
      assert SliceSound(x, At(s.body, x));
      P.PageInAt(s.body, id, x);
      assert Live(t.body, id) == SliceLive(At(t.body, id));
    }
  }

  lemma FinishedSlice(id: string, s: Slice, copy: Option<Memory>)
    requires SliceSound(id, s) && Copied(id, s, false, copy) && !(s.cached.Some? && s.deleted)
    ensures SliceSound(id, P.FinalizeSlice(s, copy))
  {
    if s.stored.Some? || s.cached.Some? {
      P.FinalizeSliceSound(id, s, copy);
    }
  }

  lemma FinishHealthy(s: P.Save)
    requires Orderly(s.body) && CopiesFit(s) && s.todo == {}
    ensures Orderly(P.Finalize(s.body, s.written))
  {
    forall id ensures SliceSound(id, At(P.Finalize(s.body, s.written), id)) {
      P.FinalizeAt(s.body, s.written, id);
      assert SliceSound(id, At(s.body, id)) && Copied(id, At(s.body, id), false, Lookup(s.written, id));
      FinishedSlice(id, At(s.body, id), Lookup(s.written, id));
    }
  }

  lemma StartHealthy(b: Body)
    requires Orderly(b)
    ensures CopiesFit(P.BeginSave(b))
  {
    P.BeginSaveInv(b);
  }

  lemma NextHealthy(l: Life, e: Event)
    requires Healthy(l) && Possible(l, e)
    ensures Healthy(Next(l, e))
  {
    match e
    case Happens(Capture(id)) => CaptureHealthy(l.save, id);
    case Happens(Mutated(mu)) => MutatedHealthy(l, mu);
    case Happens(Committed(p, current)) => CommittedHealthy(l, p, current);
    case StartSave => StartHealthy(l.body);
    case FinishSave => FinishHealthy(l.save);
    case FailSave =>
    case Restart(base, _, entries) =>
      J.RestoreSound(base, entries);
      RestoreAllOrderly(Opened(base), entries);
  }

  /** After a failed save the body is as it was and can be saved again. */
  lemma FailedSaveRepeats(l: Life)
    requires Possible(l, FailSave)
    ensures BodyOf(Next(l, FailSave)) == BodyOf(l) && Possible(Next(l, FailSave), StartSave)
    ensures Next(Next(l, FailSave), StartSave) == Saving(P.BeginSave(BodyOf(l)), l.kind)
  {
  }

  lemma {:induction false} LivedHealthy(l: Life, events: seq<Event>, to: Life)
    requires Healthy(l) && Lived(l, events, to)
    ensures Healthy(to)
    decreases |events|
  {
    if |events| > 0 {
      NextHealthy(l, events[0]);
      LivedHealthy(Next(l, events[0]), events[1..], to);
    }
  }

  /** After any life of a body, the three loops of a tag listing collect every live record
      that carries the tag, and only those exactly if none is listed for a feature alone; the
      ids a page goes through are the live ids. */
  lemma ListingIsExact(base: map<string, Memory>, kind: S.Kind, events: seq<Event>, l: Life, tag: string)
    requires (forall id :: id in base ==> base[id].id == id) && tag != ""
    requires Lived(Running(Opened(base), kind), events, l)
    ensures var b := BodyOf(l);
            && E.LiveTagged(b, tag) <= E.Listed(b, l.kind, tag)
            && (E.Listed(b, l.kind, tag) == E.LiveTagged(b, tag) <==> E.NoFeatureOnly(b, l.kind, tag))
            && (l.kind.TagsOnly? || !HasPrefix(tag, S.PHYSICAL_PREFIX) ==> E.Listed(b, l.kind, tag) == E.LiveTagged(b, tag))
            && P.LocalIds(b) == LiveIds(b)
  {
    E.OpenedSound(base);
    LivedHealthy(Running(Opened(base), kind), events, l);
    E.ListedExactIff(BodyOf(l), l.kind, tag);
    E.LocalIdsAreLive(BodyOf(l));
  }
}
