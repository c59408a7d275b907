/** The mounted body as the kernel mutates it: the overlay fields updated in place, and the
    file they are persisted to. */
module Engines {
  import opened Records
  import opened Strings
  import opened Bodies
  import opened Plans
  import opened Persistence
  import opened MutationJournal
  import S = StoreIndex
  import F = Features

  /** How one write to the body file ends. A write can land and still be reported as failed.
      An interrupted slot write ends as one of these unless its bytes can complete an earlier
      attempt (`JournalBytes.TornWriteRefines`). */
  datatype WriteResult = Written | NotWritten | LandedButFailed | FinalizedButFailed

  /** The physical conditions of one persist call: which path it must take, whether the file
      can be read at all, and how its write ends. */
  datatype PersistIo = PersistIo(fileReadable: bool, fitsSlot: bool, write: WriteResult)

  /** Two overlays that serve structurally the same record for every id. */
  ghost predicate SameView(a: Body, b: Body) {
    forall id :: StructuralView(Live(a, id)) == StructuralView(Live(b, id))
  }

  /** The live records that carry a tag. */
  ghost function LiveTagged(b: Body, tag: string): set<string> {
    set id | id in b.store.Keys + b.cache.Keys && Live(b, id).Some? && tag in Live(b, id).value.tags
  }

  lemma LocalIdsAreLive(b: Body)
    requires Sound(b)
    ensures LocalIds(b) == LiveIds(b)
  {
    forall id
      ensures id in LocalIds(b) <==> id in LiveIds(b)
    {
      assert SliceSound(id, At(b, id));
    }
  }

  /** First loop of a tag listing: what the Store's index lists under the tag, reserved keys
      included, unless a tombstone or a removal hides it. */
  ghost function StoredPart(b: Body, kind: S.Kind, tag: string): set<string> {
    set id | id in S.Postings(kind, b.store, tag) && id !in b.deletedIds && (tag, id) !in b.tagRemoved
  }

  ghost function AddedPart(b: Body, tag: string): set<string> {
    set p | p in b.tagAdded && p.0 == tag && p.1 !in b.deletedIds :: p.1
  }

  ghost function CachedPart(b: Body, tag: string): set<string> {
    set id | id in b.cache && id !in b.deletedIds && tag in b.cache[id].tags
  }

  /** What the three loops of `listTagLocal` collect. */
  ghost function Listed(b: Body, kind: S.Kind, tag: string): set<string> {
    StoredPart(b, kind, tag) + AddedPart(b, tag) + CachedPart(b, tag)
  }

  /** The tag spells a reserved key of the stored version, and nothing hides its posting. */
  ghost predicate ListedAsFeature(b: Body, kind: S.Kind, tag: string, id: string)
    requires id in b.store
    ensures ListedAsFeature(b, kind, tag, id) ==> Live(b, id).Some?
  {
    kind.Featured? && tag in S.FeatureKeys(b.store[id]) && id !in b.deletedIds && (tag, id) !in b.tagRemoved
  }

  /** No record is listed for a feature alone: one that is listed as a feature carries the
      tag live too. */
  ghost predicate NoFeatureOnly(b: Body, kind: S.Kind, tag: string) {
    forall id :: id in b.store && ListedAsFeature(b, kind, tag, id) ==> tag in Live(b, id).value.tags
  }

  lemma ListedAt(b: Body, kind: S.Kind, tag: string, id: string)
    requires Sound(b) && tag != ""
    ensures id in LiveTagged(b, tag) ==> id in Listed(b, kind, tag)
    ensures id in Listed(b, kind, tag) && id !in LiveTagged(b, tag) <==>
            id in b.store && ListedAsFeature(b, kind, tag, id) && tag !in Live(b, id).value.tags
  {
    var s := At(b, id);
    assert SliceSound(id, s);
    assert (tag, id) in b.tagAdded <==> tag in s.added;
    assert (tag, id) in b.tagRemoved <==> tag in s.removed;
    assert Live(b, id) == SliceLive(s);
    assert id in AddedPart(b, tag) <==> (tag, id) in b.tagAdded && id !in b.deletedIds by {
      var p := (tag, id);
      assert p.0 == tag && p.1 == id;
    }
  }

  /** A listing finds every live record with the tag, and nothing else exactly if no record
      is listed for a feature alone. Tags outside the reserved prefix and images without
      features meet this always. */
  lemma ListedExactIff(b: Body, kind: S.Kind, tag: string)
    requires Sound(b) && tag != ""
    ensures LiveTagged(b, tag) <= Listed(b, kind, tag)
    ensures Listed(b, kind, tag) == LiveTagged(b, tag) <==> NoFeatureOnly(b, kind, tag)
    ensures kind.TagsOnly? || !HasPrefix(tag, S.PHYSICAL_PREFIX) ==> Listed(b, kind, tag) == LiveTagged(b, tag)
  {
    forall id
      ensures id in LiveTagged(b, tag) ==> id in Listed(b, kind, tag)
      ensures id in Listed(b, kind, tag) && id !in LiveTagged(b, tag) <==>
              id in b.store && ListedAsFeature(b, kind, tag, id) && tag !in Live(b, id).value.tags
    {
      ListedAt(b, kind, tag, id);
    }
    if !HasPrefix(tag, S.PHYSICAL_PREFIX) {
      forall id | id in b.store ensures tag !in S.FeatureKeys(b.store[id]) {
        S.FeatureKeysReserved(b.store[id], tag);
      }
    }
  }

  /** A tag that was added is found, and one that was removed is not, whatever the index of
      the Store still lists. */
  lemma TagEditsAreListed(b: Body, id: string, t: string, kind: S.Kind)
    requires Sound(b) && Resolved(b, id) && t != ""
    ensures id in LiveTagged(TagAdd(b, id, t), t) && id in Listed(TagAdd(b, id, t), kind, t)
    ensures id !in LiveTagged(TagRemove(b, id, t), t)
    ensures t in b.cache[id].tags ==> id !in Listed(TagRemove(b, id, t), kind, t)
  {
    var more, less := TagAdd(b, id, t), TagRemove(b, id, t);
    TagAddSound(b, id, t);
    assert t in Elems(Live(more, id).value.tags) && id in more.cache;
    ListedAt(more, kind, t, id);
    TagRemoveSound(b, id, t);
    assert t !in Elems(b.cache[id].tags) - {t};
    if t in b.cache[id].tags {
      ListedAt(less, kind, t, id);
      assert (t, id) in TagPairs(id, [t]);
    }
  }

  /** The promise fails for every record and every feature of it that is not also a tag: a
      body opened from its current image lists it under the reserved key. */
  lemma FeatureIsListed(m: Memory, f: string)
    requires f in F.FeaturesOf(m) && S.PHYSICAL_PREFIX + f !in m.tags
    ensures var b := Opened(map[m.id := m]);
            Sound(b) && Listed(b, S.Featured, S.PHYSICAL_PREFIX + f) == {m.id} && LiveTagged(b, S.PHYSICAL_PREFIX + f) == {}
  {
    OpenedSound(map[m.id := m]);
    var b, tag := Opened(map[m.id := m]), S.PHYSICAL_PREFIX + f;
    assert tag in S.FeatureKeys(b.store[m.id]);
    assert m.id in StoredPart(b, S.Featured, tag);
  }

  /** A discarded record that a failed move had marked new shows its stored version again,
      listed under none of the tags it shares with the discarded one. */
  lemma DiscardUnlists(b: Body, id: string, current: Memory, kind: S.Kind, tag: string)
    requires Live(b, id) == Some(current) && id in b.newIds && id in b.store
    requires tag != "" && tag in current.tags && tag in b.store[id].tags
    ensures var r := ApplyPlan(b, Discard(id), current);
            Live(r, id) == Some(b.store[id]) && id in LiveTagged(r, tag) && id !in Listed(r, kind, tag)
  {
    var p := (tag, id);
    assert p in TagPairs(id, current.tags);
  }

  /** Two inserts over one tombstone leave the tags of the first behind: after an upsert the
      record is listed under a tag it does not carry. */
  lemma ShadowedInsertsMislist(b: Body, first: Memory, second: Memory, q: Memory, kind: S.Kind, tag: string)
    requires first.id == second.id == q.id && q.id in b.deletedIds
    requires tag != "" && tag in first.tags && tag !in second.tags && tag !in q.tags
    ensures var r := Upsert(AddRuntime(AddRuntime(b, first), second), q);
            q.id in Listed(r, kind, tag) && q.id !in LiveTagged(r, tag)
  {
    var one := AddRuntime(b, first);
    var two := AddRuntime(one, second);
    var r := Upsert(two, q);
    assert (tag, q.id) in TagPairs(q.id, first.tags);
    assert (tag, q.id) in two.tagAdded;
    assert CurrentTags(two, q.id) == second.tags;
    var p := (tag, q.id);
    assert p in r.tagAdded && p.0 == tag && p.1 == q.id;
    assert q.id in AddedPart(r, tag);
  }

  class Engine {
    var store: map<string, Memory>
    var cache: map<string, Memory>
    var newIds: set<string>
    var dirtyIds: set<string>
    var deletedIds: set<string>
    var tagAdded: set<(string, string)>
    var tagRemoved: set<(string, string)>
    var dirty: bool
    var disk: Disk

    function Overlay(): Body
      reads this
    {
      Body(store, cache, newIds, dirtyIds, deletedIds, tagAdded, tagRemoved, dirty)
    }

    /** The file at the body path serves the live view wherever nothing is pending, and its
        journal, if any, belongs to its base. */
    ghost predicate Backed()
      reads this
    {
      BaseServes(disk.base, Overlay()) && !ForeignRecord(disk)
    }

    ghost predicate Valid()
      reads this
    {
      Sound(Overlay()) && Backed()
    }

    /** `tagDeltaAddLocked` for each tag of a record. */
    method TagDeltaAdd(id: string, tags: seq<string>)
      modifies this`tagAdded, this`tagRemoved
      ensures Overlay() == AddTags(old(Overlay()), id, tags)
    {
      for i := 0 to |tags|
        invariant Overlay() == AddTags(old(Overlay()), id, tags[..i])
      {
        ghost var done := TagPairs(id, tags[..i]);
        if tags[i] != "" {
          tagAdded := tagAdded + {(tags[i], id)};
          tagRemoved := tagRemoved - {(tags[i], id)};
          assert TagPairs(id, tags[..i + 1]) == done + {(tags[i], id)} by {
            TagPairsSnoc(id, tags, i);
          }
        } else {
          assert TagPairs(id, tags[..i + 1]) == done by {
            TagPairsSnoc(id, tags, i);
          }
        }
      }
      assert tags[..|tags|] == tags;
    }

    /** `tagDeltaRemoveLocked` for each tag of a record. */
    method TagDeltaRemove(id: string, tags: seq<string>)
      modifies this`tagAdded, this`tagRemoved
      ensures Overlay() == RemoveTags(old(Overlay()), id, tags)
    {
      for i := 0 to |tags|
        invariant Overlay() == RemoveTags(old(Overlay()), id, tags[..i])
      {
        ghost var done := TagPairs(id, tags[..i]);
        if tags[i] != "" {
          tagRemoved := tagRemoved + {(tags[i], id)};
          tagAdded := tagAdded - {(tags[i], id)};
          assert TagPairs(id, tags[..i + 1]) == done + {(tags[i], id)} by {
            TagPairsSnoc(id, tags, i);
          }
        } else {
          assert TagPairs(id, tags[..i + 1]) == done by {
            TagPairsSnoc(id, tags, i);
          }
        }
      }
      assert tags[..|tags|] == tags;
    }

    /** `resolveIDLocal`. */
    method ResolveIdLocal(id: string) returns (m: Option<Memory>)
      modifies this`cache
      ensures m == Live(old(Overlay()), id)
      ensures Overlay() == PageIn(old(Overlay()), id)
    {
      if id in deletedIds {
        return None;
      }
      if id in cache {
        return Some(cache[id]);
      }
      if id !in store {
        return None;
      }
      cache := cache[id := store[id]];
      return Some(store[id]);
    }

    /** `upsertExplicitMemoryOnOwner`. */
    method UpsertOnOwner(q: Memory)
      requires Sound(Overlay())
      modifies this
      ensures disk == old(disk)
      ensures Overlay() == Upsert(old(Overlay()), q)
      ensures Sound(Overlay())
      ensures forall x :: Live(Overlay(), x) == if x == q.id then Some(q) else Live(old(Overlay()), x)
    {
      UpsertSound(Overlay(), q);
      if q.id in cache {
        TagDeltaRemove(q.id, cache[q.id].tags);
      } else if q.id in store {
        TagDeltaRemove(q.id, store[q.id].tags);
      } else {
        assert Overlay() == RemoveTags(Overlay(), q.id, []);
      }
      cache := cache[q.id := q];
      TagDeltaAdd(q.id, q.tags);
      if q.id !in store {
        newIds := newIds + {q.id};
      } else {
        newIds := newIds - {q.id};
      }
      deletedIds := deletedIds - {q.id};
      dirtyIds := dirtyIds + {q.id};
      dirty := true;
    }

    /** `deleteExplicitMemoryBounded` on the owning body. */
    method DeleteExplicit(id: string) returns (found: bool)
      requires Sound(Overlay())
      modifies this
      ensures disk == old(disk)
      ensures found == Live(old(Overlay()), id).Some?
      ensures Sound(Overlay())
      ensures forall x :: Live(Overlay(), x) == if x == id then None else Live(old(Overlay()), x)
      ensures found ==> id in deletedIds
    {
      ghost var b0 := Overlay();
      PageInSound(b0, id);
      var m := ResolveIdLocal(id);
      DeleteSound(Overlay(), id);
      if m.None? {
        return false;
      }
      TombstoneResolved(id, m.value);
      return true;
    }

    /** Replace a resolved record by a tombstone. */
    method TombstoneResolved(id: string, m: Memory)
      requires Live(Overlay(), id) == Some(m)
      modifies this
      ensures disk == old(disk)
      ensures Overlay() == Delete(old(Overlay()), id)
    {
      TagDeltaRemove(id, m.tags);
      deletedIds := deletedIds + {id};
      cache := cache - {id};
      newIds := newIds - {id};
      dirtyIds := dirtyIds - {id};
      dirty := true;
    }

    /** `addRuntimeMemory`. */
    method AddRuntimeMemory(m: Memory)
      modifies this
      ensures disk == old(disk)
      ensures Overlay() == AddRuntime(old(Overlay()), m)
    {
      cache := cache[m.id := m];
      newIds := newIds + {m.id};
      dirtyIds := dirtyIds + {m.id};
      dirty := true;
      TagDeltaAdd(m.id, m.tags);
    }

    /** First loop of `listTagLocal` over what `storeTagIDs` returned: stored postings that
        were not removed since. */
    method CollectStored(listed: seq<string>, ghost kind: S.Kind, tag: string) returns (seen: set<string>)
      requires Elems(listed) == S.Postings(kind, store, tag)
      ensures seen == StoredPart(Overlay(), kind, tag)
    {
      seen := {};
      for k := 0 to |listed|
        invariant seen == set id | id in Elems(listed[..k]) && id !in deletedIds && (tag, id) !in tagRemoved
      {
        ElemsNext(listed, k);
        if !(listed[k] in deletedIds || (tag, listed[k]) in tagRemoved) {
          seen := seen + {listed[k]};
        }
      }
      assert listed[..|listed|] == listed;
    }

    /** Second loop: the added deltas. */
    method CollectAdded(tag: string, before: set<string>) returns (seen: set<string>)
      ensures seen == before + AddedPart(Overlay(), tag)
    {
      var additions := set p | p in tagAdded && p.0 == tag :: p.1;
      var rest := additions;
      seen := before;
      while rest != {}
        invariant rest <= additions
        invariant seen == before + set id | id in additions - rest && id !in deletedIds
        decreases rest
      {
        var id :| id in rest;
        rest := rest - {id};
        if id !in deletedIds && id !in seen {
          seen := seen + {id};
        }
      }
    }

    /** Third loop: cached records that carry the tag. */
    method CollectCached(tag: string, before: set<string>) returns (seen: set<string>)
      ensures seen == before + CachedPart(Overlay(), tag)
    {
      var rest := cache.Keys;
      seen := before;
      while rest != {}
        invariant rest <= cache.Keys
        invariant seen == before + set id | id in cache.Keys - rest && id !in deletedIds && tag in cache[id].tags
        decreases rest
      {
        var id :| id in rest;
        rest := rest - {id};
        if id !in deletedIds && tag in cache[id].tags && id !in seen {
          seen := seen + {id};
        }
      }
    }

    /** `listTagLocal` of a non-empty tag, given what the Store's index lists under it: every
        live record that carries it, and only those exactly if none is listed for a feature
        alone. */
    method ListTagLocal(listed: seq<string>, ghost kind: S.Kind, tag: string) returns (out: seq<string>)
      requires Sound(Overlay()) && tag != "" && Elems(listed) == S.Postings(kind, store, tag)
      ensures Sorted(out) && LiveTagged(Overlay(), tag) <= Elems(out)
      ensures Elems(out) == LiveTagged(Overlay(), tag) <==> NoFeatureOnly(Overlay(), kind, tag)
      ensures Elems(out) == Listed(Overlay(), kind, tag)
    {
      var seen := CollectStored(listed, kind, tag);
      seen := CollectAdded(tag, seen);
      seen := CollectCached(tag, seen);
      ListedExactIff(Overlay(), kind, tag);
      out := SortIds(seen);
    }

    /** `localIDs`. */
    method LocalIDs() returns (out: seq<string>)
      requires Sound(Overlay())
      ensures Sorted(out)
      ensures Elems(out) == LiveIds(Overlay())
    {
      var seen: set<string> := {};
      var rest := store.Keys;
      while rest != {}
        invariant rest <= store.Keys
        invariant seen == (store.Keys - rest) - deletedIds
        decreases rest
      {
        var id :| id in rest;
        rest := rest - {id};
        if id !in deletedIds {
          seen := seen + {id};
        }
      }
      rest := newIds;
      while rest != {}
        invariant rest <= newIds
        invariant seen == (store.Keys + (newIds - rest)) - deletedIds
        decreases rest
      {
        var id :| id in rest;
        rest := rest - {id};
        if id !in deletedIds {
          seen := seen + {id};
        }
      }
      LocalIdsAreLive(Overlay());
      out := SortIds(seen);
    }

    /** `physicalOwnerMemoryLocked`: the live view without paging in. */
    method PhysicalOwnerMemory(id: string) returns (m: Option<Memory>)
      ensures m == Live(Overlay(), id)
    {
      if id in deletedIds {
        return None;
      }
      if id in cache {
        return Some(cache[id]);
      }
      return if id in store then Some(store[id]) else None;
    }

    /** The two apply functions of a speculative commit, on a validated plan. */
    method ApplySpeculative(p: Plan, current: Memory)
      modifies this
      ensures disk == old(disk)
      ensures Overlay() == ApplyPlan(old(Overlay()), p, current)
    {
      match p
      case Count(id, delta) =>
        var m := if id in cache then cache[id] else current;
        cache := cache[id := m.(execCount := Add64(m.execCount, delta))];
      case Discard(id) =>
        TagDeltaRemove(id, current.tags);
        var wasNew := id in newIds;
        cache := cache - {id};
        newIds := newIds - {id};
        dirtyIds := dirtyIds - {id};
        if wasNew {
          deletedIds := deletedIds - {id};
        } else {
          deletedIds := deletedIds + {id};
        }
        dirty := true;
      case Restructure(id, changed, execDelta) =>
        TagDeltaRemove(id, current.tags);
        var q := changed.(execCount := Add64(current.execCount, execDelta));
        cache := cache[id := q];
        TagDeltaAdd(id, q.tags);
        deletedIds := deletedIds - {id};
        dirtyIds := dirtyIds + {id};
        dirty := true;
    }

    /** `loadEngineWithMutationJournal`. A record that its own base already holds is cleared. */
    constructor Load(d: Disk)
      requires Reload(d).Some?
      requires forall id :: id in d.base ==> d.base[id].id == id
      requires d.region.Journal? && d.region.record.Some? ==> EntriesNamed(d.region.record.value.payload.entries)
      ensures Overlay() == Reload(d).value
      ensures disk == if ForeignRecord(d) then d.(region := Journal(None)) else d
      ensures Valid()
    {
      store, cache, newIds, dirtyIds, deletedIds := d.base, map[], {}, {}, {};
      tagAdded, tagRemoved, dirty := {}, {}, false;
      disk := d;
      new;
      assert Overlay() == Opened(d.base);
      OpenedSound(d.base);
      if d.region.Journal? && d.region.record.Some? {
        var rec := d.region.record.value;
        if rec.payload.base != d.base {
          disk := d.(region := Journal(None));
        } else {
          RestoreEntries(rec.payload.entries);
          RestoreSound(d.base, rec.payload.entries);
          RestoreAllAt(d.base, rec.payload.entries, "");
        }
      }
      StoreServes(Overlay());
    }

    /** `restoreMutationJournal`: replay the entries in order, then rebuild the tag deltas. */
    method RestoreEntries(es: seq<Entry>)
      modifies this
      ensures disk == old(disk)
      ensures Overlay() == Restore(old(Overlay()), es)
    {
      for i := 0 to |es|
        invariant disk == old(disk)
        invariant Overlay() == RestoreAll(old(Overlay()), es[..i])
      {
        assert es[..i + 1][..i] == es[..i];
        match es[i] {
          case Erase(id) =>
            cache := cache - {id};
            newIds := newIds - {id};
            dirtyIds := dirtyIds + {id};
            deletedIds := deletedIds + {id};
          case Write(id, m) =>
            cache := cache[id := m];
            dirtyIds := dirtyIds + {id};
            deletedIds := deletedIds - {id};
            if id !in store {
              newIds := newIds + {id};
            }
        }
      }
      assert es[..|es|] == es;
      RebuildPendingTagDeltas();
      dirty := |es| > 0;
    }

    /** `rebuildPendingTagDeltasLocked`. */
    method RebuildPendingTagDeltas()
      modifies this`tagAdded, this`tagRemoved
      ensures Overlay() == RebuildTags(old(Overlay()))
    {
      ghost var b := Overlay();
      tagAdded := {};
      tagRemoved := {};
      var pending := dirtyIds + newIds + deletedIds;
      var rest := pending;
      while rest != {}
        invariant rest <= pending
        invariant forall p :: p in tagAdded <==> p.1 in pending - rest && p in AddedFor(b, p.1)
        invariant forall p :: p in tagRemoved <==> p.1 in pending - rest && p in RemovedFor(b, p.1)
        decreases rest
      {
        var id :| id in rest;
        rest := rest - {id};
        tagAdded := tagAdded + AddedFor(Overlay(), id);
        tagRemoved := tagRemoved + RemovedFor(Overlay(), id);
        assert AddedFor(Overlay(), id) == AddedFor(b, id) && RemovedFor(Overlay(), id) == RemovedFor(b, id);
      }
      assert tagAdded == RebuildTags(b).tagAdded;
      assert tagRemoved == RebuildTags(b).tagRemoved;
    }

    /** The reconciliation loop of `finalizePersistedBody`. */
    method Reconcile(written: map<string, Memory>) returns (newDirty: set<string>, newDeleted: set<string>)
      ensures newDirty == StaleIds(Overlay(), written)
      ensures newDeleted == UndeletedIds(Overlay(), written)
    {
      newDirty, newDeleted := {}, {};
      var candidates := dirtyIds + newIds + deletedIds;
      var rest := candidates;
      while rest != {}
        invariant rest <= candidates
        invariant newDirty == StaleIds(Overlay(), written) - rest
        invariant newDeleted == UndeletedIds(Overlay(), written) - rest
        decreases rest
      {
        var id :| id in rest;
        rest := rest - {id};
        if id in deletedIds {
          if id in written {
            newDeleted := newDeleted + {id};
          }
        } else if id !in cache || id !in written || Structural(cache[id]) != Structural(written[id]) {
          newDirty := newDirty + {id};
        }
      }
    }

    /** `finalizePersistedBody`: reconcile the mutation sets as they are now with the
        records that were written. */
    method FinalizePersisted(written: map<string, Memory>)
      modifies this
      ensures disk == old(disk)
      ensures Overlay() == Finalize(old(Overlay()), written)
    {
      var newDirty, newDeleted := Reconcile(written);
      store := written;
      dirtyIds := newDirty;
      newIds := newDirty - written.Keys;
      deletedIds := newDeleted;
      dirty := newDirty != {} || newDeleted != {};
      RebuildPendingTagDeltas();
    }

    /** The copy of one record under its own lock. */
    method CopyRecord(id: string, ghost todo: set<string>, written: map<string, Memory>) returns (more: map<string, Memory>)
      requires SaveInv(Save(Overlay(), todo, written)) && id in todo
      modifies this`cache
      ensures SaveInv(Save(Overlay(), todo - {id}, more))
      ensures old(NoShadow(Overlay())) ==> NoShadow(Overlay())
      ensures forall x :: Live(Overlay(), x) == Live(old(Overlay()), x)
      ensures more == if Live(Overlay(), id).Some? then written[id := Live(Overlay(), id).value] else written
    {
      ghost var s := Save(Overlay(), todo, written);
      CaptureInv(s, id);
      PageInSound(Overlay(), id);
      var m := ResolveIdLocal(id);
      more := if m.Some? then written[id := m.value] else written;
      assert SaveNext(s, Capture(id)) == Save(Overlay(), todo - {id}, more);
    }

    /** `snapshotMemoriesForPersistence` with no concurrent writer. */
    method CopyForPersistence() returns (written: map<string, Memory>)
      requires Sound(Overlay())
      modifies this`cache
      ensures SaveInv(Save(Overlay(), {}, written))
      ensures forall id :: Live(Overlay(), id) == Live(old(Overlay()), id)
      ensures Pending(Overlay()) == Pending(old(Overlay()))
      ensures old(NoShadow(Overlay())) ==> NoShadow(Overlay())
      ensures forall id :: Lookup(written, id) == Live(Overlay(), id)
    {
      var ids := LocalIDs();
      LocalIdsAreLive(Overlay());
      BeginSaveInv(Overlay());
      written := map[];
      for i := 0 to |ids|
        invariant SaveInv(Save(Overlay(), Elems(ids[i..]), written))
        invariant old(NoShadow(Overlay())) ==> NoShadow(Overlay())
        invariant forall id :: Live(Overlay(), id) == Live(old(Overlay()), id)
        invariant forall id :: Lookup(written, id) == if id in ids[..i] then Live(Overlay(), id) else None
      {
        SortedSplit(ids, i);
        written := CopyRecord(ids[i], Elems(ids[i..]), written);
      }
      assert ids[..|ids|] == ids;
      forall id
        ensures Lookup(written, id) == Live(Overlay(), id)
      {
        assert id in Elems(ids) <==> id in ids;
        assert SliceSound(id, At(old(Overlay()), id));
      }
    }

    /** `snapshotMutationJournal`. */
    method SnapshotMutationJournal() returns (es: seq<Entry>)
      requires Sound(Overlay())
      ensures IsSnapshot(Overlay(), es)
    {
      var ids := SortIds(dirtyIds + newIds + deletedIds);
      forall id | id in Pending(Overlay())
        ensures id in deletedIds || id in cache
      {
        assert SliceSound(id, At(Overlay(), id));
      }
      es := [];
      for i := 0 to |ids|
        invariant Ids(es) == ids[..i]
        invariant forall k :: 0 <= k < |es| ==> es[k].id in Pending(Overlay()) && es[k] == EntryFor(Overlay(), es[k].id)
      {
        assert ids[i] in Elems(ids);
        es := es + [if ids[i] in deletedIds then Erase(ids[i]) else Write(ids[i], cache[ids[i]])];
      }
      assert Ids(es) == ids;
    }

    /** `persistEngineIncremental`. It succeeds exactly if there is nothing to do, or the file
        can be read and what is pending is there already or is written now; and what lands is
        durable, also if its write is reported as failed. */
    method PersistIncremental(io: PersistIo) returns (ok: bool)
      requires Valid()
      modifies this
      ensures ok <==>
                || !old(dirty)
                || (io.fileReadable && (old(Pending(Overlay())) == {} || io.write == Written ||
                                        (io.fitsSlot && IsJournaled(old(disk), old(Overlay())))))
      ensures io.fileReadable && old(Pending(Overlay())) != {} && io.write != NotWritten ==> Durable(disk, old(Overlay()))
      ensures !io.fileReadable ==> disk == old(disk) && Overlay() == old(Overlay())
      ensures old(NoShadow(Overlay())) ==> Valid() && NoShadow(Overlay()) && SameView(Overlay(), old(Overlay()))
      ensures !ForeignRecord(disk)
      ensures (disk == old(disk) && store == old(store)) || Durable(disk, old(Overlay()))
      ensures ok && old(Pending(Overlay())) != {} ==> Durable(disk, old(Overlay()))
      ensures old(Pending(Overlay())) == {} ==> disk == old(disk) && Overlay() == old(Overlay())
      ensures io.fitsSlot && old(disk).region.Journal? ==>
                disk == old(disk) ||
                exists es :: IsSnapshot(old(Overlay()), es) && disk == Journaled(old(disk), Payload(old(disk).base, es))
    {
      if !dirty {
        return true;
      }
      if !io.fileReadable {
        return false;
      }
      var es := SnapshotMutationJournal();
      if |es| == 0 {
        assert Pending(Overlay()) == Elems(Ids(es)) == {};
        return true;
      }
      assert Ids(es)[0] in Elems(Ids(es));
      if !io.fitsSlot || disk.region.NoRegion? {
        ok := RewriteBody(io.write);
        return;
      }
      ghost var b := Overlay();
      var current := disk.region.record;
      var previousSeq := 0;
      if current.Some? {
        if IsSnapshot(b, current.value.payload.entries) {
          SnapshotUnique(b, current.value.payload.entries, es);
        }
        if current.value.payload.entries == es {
          JournalIsDurable(disk.base, b, es, current.value.seqNo);
          assert disk == Disk(disk.base, Journal(Some(Record(current.value.seqNo, Payload(disk.base, es)))));
          return true;
        }
        previousSeq := current.value.seqNo;
      }
      if io.write != NotWritten {
        JournalIsDurable(disk.base, b, es, previousSeq + 1);
        disk := Journaled(disk, Payload(disk.base, es));
      }
      return io.write == Written;
    }

    /** `saveBody` to the body's own path. */
    method RewriteBody(write: WriteResult) returns (ok: bool)
      requires Valid()
      modifies this
      ensures ok <==> write == Written
      ensures if write == NotWritten then disk == old(disk) else Durable(disk, old(Overlay()))
      ensures old(NoShadow(Overlay())) ==> Valid() && NoShadow(Overlay()) && SameView(Overlay(), old(Overlay()))
      ensures !ForeignRecord(disk)
      ensures (disk == old(disk) && store == old(store)) || Durable(disk, old(Overlay()))
      ensures ok ==> Durable(disk, old(Overlay()))
      ensures ok && old(NoShadow(Overlay())) ==> Pending(Overlay()) == {}
    {
      var written := CopyForPersistence();
      ghost var s := Save(Overlay(), {}, written);
      assert BaseServes(disk.base, Overlay());
      if write == NotWritten {
        return false;
      }
      CopyIsDurable(s);
      disk := Disk(written, Journal(None));
      if write == LandedButFailed {
        return false;
      }
      if NoShadow(Overlay()) {
        CopyIsComplete(s);
      }
      FinalizePersisted(written);
      return write == Written;
    }
  }

  lemma OpenedSound(store: map<string, Memory>)
    requires forall id :: id in store ==> store[id].id == id
    ensures Sound(Opened(store))
  {
    forall id
      ensures SliceSound(id, At(Opened(store), id))
    {
    }
  }

  lemma SortedSplit(ids: seq<string>, i: nat)
    requires Sorted(ids) && i < |ids|
    ensures Elems(ids[i + 1..]) == Elems(ids[i..]) - {ids[i]}
    ensures forall x :: x in ids[..i + 1] <==> x in ids[..i] || x == ids[i]
  {
    assert ids[..i + 1] == ids[..i] + [ids[i]];
    assert Sorted(ids[i..]);
    SortedTail(ids[i..]);
    assert ids[i..][1..] == ids[i + 1..];
  }

  /** Copies of a body at rest: the file holds the live view, also of a body that is not yet
      rebound to it. */
  lemma CopyIsDurable(s: Save)
    requires SaveInv(s) && s.todo == {}
    requires forall id :: Lookup(s.written, id) == Live(s.body, id)
    ensures Durable(Disk(s.written, Journal(None)), s.body)
    ensures BaseServes(s.written, s.body)
  {
    forall id
      ensures id in s.written ==> s.written[id].id == id
      ensures Live(Opened(s.written), id) == Live(s.body, id)
    {
      assert Covered(id, At(s.body, id), false, Lookup(s.written, id));
    }
  }

  /** And rebinding leaves nothing pending. */
  lemma CopyIsComplete(s: Save)
    requires SaveInv(s) && s.todo == {} && NoShadow(s.body)
    requires forall id :: Lookup(s.written, id) == Live(s.body, id)
    ensures var f := Finalize(s.body, s.written);
            Sound(f) && NoShadow(f) && Pending(f) == {} && SameView(f, s.body) && BaseServes(s.written, f)
  {
    var f := Finalize(s.body, s.written);
    FinalizeKeepsView(s);
    forall id
      ensures id !in Pending(f)
      ensures id in s.written ==> s.written[id].id == id
    {
      FinalizeAt(s.body, s.written, id);
      assert SliceSound(id, At(s.body, id));
      assert Live(s.body, id) == SliceLive(At(s.body, id));
      assert id in Pending(f) <==> IsPending(At(f, id));
      assert Covered(id, At(s.body, id), false, Lookup(s.written, id));
    }
  }

  lemma TagPairsSnoc(id: string, tags: seq<string>, i: nat)
    requires i < |tags|
    ensures TagPairs(id, tags[..i + 1]) ==
            if tags[i] == "" then TagPairs(id, tags[..i]) else TagPairs(id, tags[..i]) + {(tags[i], id)}
  {
    assert tags[..i + 1] == tags[..i] + [tags[i]];
  }
}
