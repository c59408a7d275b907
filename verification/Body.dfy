/** The Memory record and its structural identities. */
module Records {

  /** A Memory. `structure` stands for the remaining fields that the structural
      digest covers and no operation here inspects. */
  datatype Memory = Memory(
    id: string,
    tags: seq<string>,
    triggers: seq<string>,
    state: map<string, StateValue>,
    structure: string,
    revision: nat,
    sig: string,
    execCount: nat)

  /** A State field: a scalar in its printed form, or a nested JSON value. */
  datatype StateValue = Scalar(text: string) | Nested(json: string)

  datatype Option<+T> = None | Some(value: T)

  /** What `memoryJSONDigest` identifies: everything but the execution counter
      and the capability signature. */
  function Structural(m: Memory): Memory {
    m.(execCount := 0, sig := "")
  }

  /** What `memoryDigestNoRuntimeExec` identifies: everything but the counter. */
  function NoExec(m: Memory): Memory {
    m.(execCount := 0)
  }

  function StructuralView(m: Option<Memory>): Option<Memory> {
    match m
    case None => None
    case Some(v) => Some(Structural(v))
  }

  /** `uint64` addition. */
  function Add64(a: nat, b: nat): nat {
    (a + b) % 0x1_0000_0000_0000_0000
  }
}

/** One physical body as a value: an immutable Store under a live overlay. */
module Bodies {
  import opened Records
  import opened Strings

  /** `tagAdded` and `tagRemoved` hold pairs (tag, id). */
  datatype Body = Body(
    store: map<string, Memory>,
    cache: map<string, Memory>,
    newIds: set<string>,
    dirtyIds: set<string>,
    deletedIds: set<string>,
    tagAdded: set<(string, string)>,
    tagRemoved: set<(string, string)>,
    dirty: bool)

  const EmptyOverlay := Body(map[], map[], {}, {}, {}, {}, {}, false)

  /** A body just opened from disk. */
  function Opened(store: map<string, Memory>): Body {
    EmptyOverlay.(store := store)
  }

  /** The live view of an id: tombstone, then cache, then Store. */
  function Live(b: Body, id: string): Option<Memory> {
    if id in b.deletedIds then None
    else if id in b.cache then Some(b.cache[id])
    else if id in b.store then Some(b.store[id])
    else None
  }

  function LiveIds(b: Body): set<string> {
    set id | id in b.store.Keys + b.cache.Keys && Live(b, id).Some?
  }

  /** The ids with an unpersisted mutation. */
  function Pending(b: Body): set<string> {
    b.dirtyIds + b.newIds + b.deletedIds
  }

  /** Everything a body holds about one id. The operations below act on one id at a
      time, so their invariants are stated and proved on this slice. */
  datatype Slice = Slice(
    stored: Option<Memory>,
    cached: Option<Memory>,
    unsaved: bool,
    changed: bool,
    deleted: bool,
    added: set<string>,
    removed: set<string>)

  function Lookup<T>(m: map<string, T>, id: string): Option<T> {
    if id in m then Some(m[id]) else None
  }

  /** The tags paired with an id. */
  function TagsOf(pairs: set<(string, string)>, x: string): set<string> {
    set p | p in pairs && p.1 == x :: p.0
  }

  function At(b: Body, id: string): Slice {
    Slice(Lookup(b.store, id), Lookup(b.cache, id),
          id in b.newIds, id in b.dirtyIds, id in b.deletedIds,
          TagsOf(b.tagAdded, id), TagsOf(b.tagRemoved, id))
  }

  function SliceLive(s: Slice): Option<Memory> {
    if s.deleted then None else if s.cached.Some? then s.cached else s.stored
  }

  function SliceTags(s: Slice): seq<string> {
    if s.cached.Some? then s.cached.value.tags
    else if s.stored.Some? then s.stored.value.tags
    else []
  }

  predicate IsPending(s: Slice) {
    s.changed || s.unsaved || s.deleted
  }

  /** What every operation keeps about one id. A cached record that is not pending is a
      paged-in copy of the stored one, so it differs from it in telemetry at most. */
  ghost predicate Coherent(id: string, s: Slice) {
    && (s.stored.Some? ==> s.stored.value.id == id)
    && (s.cached.Some? ==> s.cached.value.id == id)
    && (s.cached.Some? ==> s.stored.Some? || s.unsaved)
    && (s.changed || s.unsaved ==> s.cached.Some? || s.deleted)
    && (s.cached.Some? && s.deleted ==> s.changed || s.unsaved)
    && (s.cached.Some? && !IsPending(s) ==>
          s.stored.Some? && Structural(s.cached.value) == Structural(s.stored.value))
  }

  /** The invariant behind tag listing, for every non-empty tag. */
  ghost predicate TagsCoherent(s: Slice) {
    && (forall t :: t in s.added ==> t != "" && t in SliceTags(s) && (s.cached.None? ==> !s.deleted))
    && (s.cached.Some? && s.stored.Some? ==>
          forall t :: t in s.stored.value.tags && t != "" && t !in s.cached.value.tags ==> t in s.removed)
    && (!IsPending(s) && s.stored.Some? ==> forall t :: t in s.removed ==> t !in s.stored.value.tags)
    && (s.deleted && s.cached.None? && s.stored.Some? ==> NonEmpty(s.stored.value.tags) <= s.removed)
  }

  ghost predicate SliceSound(id: string, s: Slice) {
    Coherent(id, s) && TagsCoherent(s)
  }

  /** No id is marked as never stored while the Store holds it. Every operation but the
      recovery of a failed durable move keeps this. */
  ghost predicate NewIsUnstored(b: Body) {
    b.newIds !! b.store.Keys
  }

  /** No cached record hides behind a tombstone. Every operation but an insert over a
      tombstone keeps this. */
  ghost predicate NoShadow(b: Body) {
    b.cache.Keys !! b.deletedIds
  }

  /** Every reachable body is sound. */
  ghost predicate Sound(b: Body) {
    && (forall id :: SliceSound(id, At(b, id)))
    && (Pending(b) != {} ==> b.dirty)
  }

  function NonEmpty(tags: seq<string>): set<string> {
    set t | t in tags && t != ""
  }

  function TagPairs(id: string, tags: seq<string>): set<(string, string)> {
    set t | t in tags && t != "" :: (t, id)
  }

  function AddTags(b: Body, id: string, tags: seq<string>): Body {
    b.(tagAdded := b.tagAdded + TagPairs(id, tags), tagRemoved := b.tagRemoved - TagPairs(id, tags))
  }

  function RemoveTags(b: Body, id: string, tags: seq<string>): Body {
    b.(tagRemoved := b.tagRemoved + TagPairs(id, tags), tagAdded := b.tagAdded - TagPairs(id, tags))
  }

  /** `resolveIDLocal`: a miss in the cache pages the stored record in. */
  function PageIn(b: Body, id: string): Body {
    if id !in b.deletedIds && id !in b.cache && id in b.store then
      b.(cache := b.cache[id := b.store[id]])
    else
      b
  }

  function CurrentTags(b: Body, id: string): seq<string> {
    if id in b.cache then b.cache[id].tags
    else if id in b.store then b.store[id].tags
    else []
  }

  /** `upsertExplicitMemoryOnOwner`. */
  function Upsert(b: Body, q: Memory): Body {
    var b1 := AddTags(RemoveTags(b, q.id, CurrentTags(b, q.id)), q.id, q.tags);
    b1.(cache := b.cache[q.id := q],
        newIds := if q.id in b.store then b.newIds - {q.id} else b.newIds + {q.id},
        deletedIds := b.deletedIds - {q.id},
        dirtyIds := b.dirtyIds + {q.id},
        dirty := true)
  }

  /** `deleteExplicitMemoryBounded` and the `memory_delete` primitive. */
  function Delete(b: Body, id: string): Body {
    match Live(b, id)
    case None => b
    case Some(m) =>
      RemoveTags(b, id, m.tags).(
        cache := b.cache - {id},
        newIds := b.newIds - {id},
        dirtyIds := b.dirtyIds - {id},
        deletedIds := b.deletedIds + {id},
        dirty := true)
  }

  /** `addRuntimeMemory`: does not look at tombstones. */
  function AddRuntime(b: Body, m: Memory): Body {
    AddTags(b, m.id, m.tags).(
      cache := b.cache[m.id := m],
      newIds := b.newIds + {m.id},
      dirtyIds := b.dirtyIds + {m.id},
      dirty := true)
  }

  /** State, content and history edits of a resolved record: the tags stay. */
  function Edit(b: Body, m: Memory): Body {
    b.(cache := b.cache[m.id := m], dirtyIds := b.dirtyIds + {m.id}, dirty := true)
  }

  function WithoutTag(tags: seq<string>, t: string): (r: seq<string>)
    ensures forall x :: x in r <==> x in tags && x != t
    ensures multiset(r) == multiset(tags)[t := 0]
  {
    if tags == [] then []
    else
      assert tags == [tags[0]] + tags[1..];
      if tags[0] == t then WithoutTag(tags[1..], t)
      else [tags[0]] + WithoutTag(tags[1..], t)
  }

  /** The `memory_tag_add` primitive on a resolved record. */
  function TagAdd(b: Body, id: string, t: string): Body
    requires id in b.cache
  {
    var m := b.cache[id];
    if t == "" || t in m.tags then b
    else AddTags(Edit(b, m.(tags := m.tags + [t], sig := "", revision := Add64(m.revision, 1))), id, [t])
  }

  /** The `memory_tag_remove` primitive on a resolved record. */
  function TagRemove(b: Body, id: string, t: string): Body
    requires id in b.cache
  {
    var m := b.cache[id];
    if t !in m.tags then b
    else RemoveTags(Edit(b, m.(tags := WithoutTag(m.tags, t), sig := "", revision := Add64(m.revision, 1))), id, [t])
  }

  /** An execution counts on the resolved record and is not a mutation. */
  function CountExec(b: Body, id: string): Body
    requires id in b.cache
  {
    var m := b.cache[id];
    b.(cache := b.cache[id := m.(execCount := Add64(m.execCount, 1))])
  }

  /** `cache_drop`. */
  function CacheDrop(b: Body, id: string): Body {
    if id in b.dirtyIds || id in b.newIds then b else b.(cache := b.cache - {id})
  }

  /** One mutation of a body by the running kernel, outside persistence and
      speculative commit. */
  datatype Mutation =
    | Resolve(id: string)
    | Put(q: Memory)
    | Insert(m: Memory)
    | Remove(id: string)
    | EditRecord(m: Memory)
    | AddTag(id: string, tag: string)
    | RemoveTag(id: string, tag: string)
    | Executed(id: string)
    | DropCached(id: string)

  predicate Resolved(b: Body, id: string) {
    id in b.cache && id !in b.deletedIds
  }

  /** What the callers of each primitive have established: edits work on a record
      that was resolved, and an insert is preceded by a lookup that missed.
      `addRuntimeMemory` additionally needs the body not to hold a tombstone. */
  predicate Enabled(b: Body, mu: Mutation) {
    match mu
    case Resolve(_) => true
    case Put(_) => true
    case Insert(m) => Live(b, m.id).None? && m.id !in b.deletedIds
    case Remove(_) => true
    case EditRecord(m) => Resolved(b, m.id) && m.tags == b.cache[m.id].tags
    case AddTag(id, _) => Resolved(b, id)
    case RemoveTag(id, _) => Resolved(b, id)
    case Executed(id) => Resolved(b, id)
    case DropCached(_) => true
  }

  function Mutate(b: Body, mu: Mutation): Body
    requires Enabled(b, mu)
  {
    match mu
    case Resolve(id) => PageIn(b, id)
    case Put(q) => Upsert(b, q)
    case Insert(m) => AddRuntime(b, m)
    case Remove(id) => Delete(b, id)
    case EditRecord(m) => Edit(b, m)
    case AddTag(id, t) => TagAdd(b, id, t)
    case RemoveTag(id, t) => TagRemove(b, id, t)
    case Executed(id) => CountExec(b, id)
    case DropCached(id) => CacheDrop(b, id)
  }

  /** Tag deltas of one id. */
  lemma AddTagsAt(b: Body, id: string, tags: seq<string>, x: string)
    ensures At(AddTags(b, id, tags), x) ==
            if x != id then At(b, x)
            else At(b, x).(added := At(b, x).added + NonEmpty(tags), removed := At(b, x).removed - NonEmpty(tags))
  {
    PairsOf(b.tagAdded, id, tags, x);
    PairsOf(b.tagRemoved, id, tags, x);
  }

  lemma RemoveTagsAt(b: Body, id: string, tags: seq<string>, x: string)
    ensures At(RemoveTags(b, id, tags), x) ==
            if x != id then At(b, x)
            else At(b, x).(removed := At(b, x).removed + NonEmpty(tags), added := At(b, x).added - NonEmpty(tags))
  {
    PairsOf(b.tagAdded, id, tags, x);
    PairsOf(b.tagRemoved, id, tags, x);
  }

  lemma PairsOf(pairs: set<(string, string)>, id: string, tags: seq<string>, x: string)
    ensures TagsOf(pairs + TagPairs(id, tags), x) ==
            if x == id then TagsOf(pairs, x) + NonEmpty(tags) else TagsOf(pairs, x)
    ensures TagsOf(pairs - TagPairs(id, tags), x) ==
            if x == id then TagsOf(pairs, x) - NonEmpty(tags) else TagsOf(pairs, x)
  {
    var more := pairs + TagPairs(id, tags);
    var less := pairs - TagPairs(id, tags);
    forall t
      ensures t in TagsOf(more, x) <==> (t, x) in more
      ensures t in TagsOf(less, x) <==> (t, x) in less
      ensures t in TagsOf(pairs, x) <==> (t, x) in pairs
    {
    }
    forall t
      ensures (t, x) in TagPairs(id, tags) <==> x == id && t in NonEmpty(tags)
    {
    }
  }

  function AddSliceTags(s: Slice, tags: seq<string>): Slice {
    s.(added := s.added + NonEmpty(tags), removed := s.removed - NonEmpty(tags))
  }

  function RemoveSliceTags(s: Slice, tags: seq<string>): Slice {
    s.(removed := s.removed + NonEmpty(tags), added := s.added - NonEmpty(tags))
  }

  lemma PageInSound(b: Body, id: string)
    requires Sound(b)
    ensures Sound(PageIn(b, id))
    ensures forall x :: Live(PageIn(b, id), x) == Live(b, x)
  {
    var r := PageIn(b, id);
    forall x
      ensures SliceSound(x, At(r, x))
    {
      var s := At(b, x);
      assert SliceSound(x, s);
      assert At(r, x) == if x == id && !s.deleted && s.cached.None? then s.(cached := s.stored) else s;
    }
  }

  lemma UpsertAt(b: Body, q: Memory, x: string)
    ensures At(Upsert(b, q), x) ==
            var s := At(b, x);
            if x != q.id then s
            else AddSliceTags(RemoveSliceTags(s, SliceTags(s)), q.tags).(
                   cached := Some(q), unsaved := s.stored.None?, deleted := false, changed := true)
  {
    var b1 := RemoveTags(b, q.id, CurrentTags(b, q.id));
    RemoveTagsAt(b, q.id, CurrentTags(b, q.id), x);
    AddTagsAt(b1, q.id, q.tags, x);
  }

  lemma UpsertSound(b: Body, q: Memory)
    requires Sound(b)
    ensures Sound(Upsert(b, q))
    ensures forall x :: Live(Upsert(b, q), x) == if x == q.id then Some(q) else Live(b, x)
  {
    forall x
      ensures SliceSound(x, At(Upsert(b, q), x))
    {
      UpsertAt(b, q, x);
      assert SliceSound(x, At(b, x));
    }
  }

  lemma DeleteAt(b: Body, id: string, x: string)
    ensures At(Delete(b, id), x) ==
            var s := At(b, x);
            if x != id || SliceLive(s).None? then s
            else RemoveSliceTags(s, SliceLive(s).value.tags).(
                   cached := None, unsaved := false, changed := false, deleted := true)
  {
    if Live(b, id).Some? {
      RemoveTagsAt(b, id, Live(b, id).value.tags, x);
    }
  }

  lemma DeleteSound(b: Body, id: string)
    requires Sound(b)
    ensures Sound(Delete(b, id))
    ensures forall x :: Live(Delete(b, id), x) == if x == id then None else Live(b, x)
  {
    forall x
      ensures SliceSound(x, At(Delete(b, id), x))
    {
      DeleteAt(b, id, x);
      assert SliceSound(x, At(b, x));
    }
  }

  lemma AddRuntimeAt(b: Body, m: Memory, x: string)
    ensures At(AddRuntime(b, m), x) ==
            var s := At(b, x);
            if x != m.id then s
            else AddSliceTags(s, m.tags).(cached := Some(m), unsaved := true, changed := true)
  {
    AddTagsAt(b, m.id, m.tags, x);
  }

  lemma AddRuntimeSound(b: Body, m: Memory)
    requires Sound(b) && Live(b, m.id).None? && m.id !in b.cache
    ensures Sound(AddRuntime(b, m))
    ensures forall x :: x != m.id ==> Live(AddRuntime(b, m), x) == Live(b, x)
    ensures m.id !in b.deletedIds ==> Live(AddRuntime(b, m), m.id) == Some(m)
  {
    forall x
      ensures SliceSound(x, At(AddRuntime(b, m), x))
    {
      AddRuntimeAt(b, m, x);
      assert SliceSound(x, At(b, x));
    }
  }

  lemma EditAt(b: Body, m: Memory, x: string)
    ensures At(Edit(b, m), x) ==
            var s := At(b, x);
            if x != m.id then s else s.(cached := Some(m), changed := true)
  {
  }

  lemma EditSound(b: Body, m: Memory)
    requires Sound(b) && Enabled(b, EditRecord(m))
    ensures Sound(Edit(b, m))
    ensures forall x :: Live(Edit(b, m), x) == if x == m.id then Some(m) else Live(b, x)
  {
    forall x
      ensures SliceSound(x, At(Edit(b, m), x))
    {
      EditAt(b, m, x);
      assert SliceSound(x, At(b, x));
    }
    assert SliceSound(m.id, At(b, m.id));
  }

  /** A record whose tags were edited: nothing else of it changes but the signature and the
      revision, and those exactly if the tags did. */
  ghost predicate Retagged(m: Memory, n: Memory, tags: set<string>) {
    && Elems(n.tags) == tags
    && n == m.(tags := n.tags, sig := n.sig, revision := n.revision)
    && (tags == Elems(m.tags) ==> n == m)
    && (tags != Elems(m.tags) ==> n.sig == "" && n.revision == (m.revision + 1) % 0x1_0000_0000_0000_0000)
  }

  /** The record of one id is edited as `Retagged` says, and is pending if its tags changed;
      no other id shows or waits for anything new. */
  ghost predicate RetagShows(b: Body, r: Body, id: string, tags: set<string>)
    requires Resolved(b, id)
  {
    && (forall x :: x != id ==> Live(r, x) == Live(b, x))
    && Live(r, id).Some? && Retagged(b.cache[id], Live(r, id).value, tags)
    && (tags == Elems(b.cache[id].tags) ==> r == b)
    && (tags != Elems(b.cache[id].tags) ==> r.dirty && r.dirtyIds == b.dirtyIds + {id})
    && r.newIds == b.newIds && r.deletedIds == b.deletedIds
  }

  /** Adding a tag adds exactly it, unless it is empty, behind the tags the record had. */
  lemma TagAddSound(b: Body, id: string, t: string)
    requires Sound(b) && Resolved(b, id)
    ensures Sound(TagAdd(b, id, t))
    ensures RetagShows(b, TagAdd(b, id, t), id, Elems(b.cache[id].tags) + (if t == "" then {} else {t}))
    ensures b.cache[id].tags <= Live(TagAdd(b, id, t), id).value.tags
  {
    var m := b.cache[id];
    if t != "" && t !in m.tags {
      var m1 := m.(tags := m.tags + [t], sig := "", revision := Add64(m.revision, 1));
      forall x
        ensures SliceSound(x, At(TagAdd(b, id, t), x))
      {
        assert SliceSound(x, At(b, x));
        assert SliceSound(id, At(b, id));
        EditAt(b, m1, x);
        AddTagsAt(Edit(b, m1), id, [t], x);
      }
    }
    TagAddShows(b, id, t);
  }

  lemma TagAddShows(b: Body, id: string, t: string)
    requires Sound(b) && Resolved(b, id)
    ensures RetagShows(b, TagAdd(b, id, t), id, Elems(b.cache[id].tags) + (if t == "" then {} else {t}))
    ensures b.cache[id].tags <= Live(TagAdd(b, id, t), id).value.tags
  {
    var m := b.cache[id];
    assert SliceSound(id, At(b, id));
    if t != "" && t !in m.tags {
      assert t in Elems(m.tags + [t]);
    } else {
      assert Elems(m.tags) + (if t == "" then {} else {t}) == Elems(m.tags);
    }
  }

  /** Removing a tag removes exactly it, every time the record has it. */
  lemma TagRemoveSound(b: Body, id: string, t: string)
    requires Sound(b) && Resolved(b, id)
    ensures Sound(TagRemove(b, id, t))
    ensures RetagShows(b, TagRemove(b, id, t), id, Elems(b.cache[id].tags) - {t})
    ensures multiset(Live(TagRemove(b, id, t), id).value.tags) == multiset(b.cache[id].tags)[t := 0]
  {
    var m := b.cache[id];
    if t in m.tags {
      var m1 := m.(tags := WithoutTag(m.tags, t), sig := "", revision := Add64(m.revision, 1));
      forall x
        ensures SliceSound(x, At(TagRemove(b, id, t), x))
      {
        assert SliceSound(x, At(b, x));
        assert SliceSound(id, At(b, id));
        EditAt(b, m1, x);
        RemoveTagsAt(Edit(b, m1), id, [t], x);
      }
    }
    TagRemoveShows(b, id, t);
  }

  lemma TagRemoveShows(b: Body, id: string, t: string)
    requires Sound(b) && Resolved(b, id)
    ensures RetagShows(b, TagRemove(b, id, t), id, Elems(b.cache[id].tags) - {t})
    ensures multiset(Live(TagRemove(b, id, t), id).value.tags) == multiset(b.cache[id].tags)[t := 0]
  {
    var m := b.cache[id];
    assert SliceSound(id, At(b, id));
    if t in m.tags {
      assert t in Elems(m.tags);
    } else {
      assert Elems(m.tags) - {t} == Elems(m.tags);
      assert multiset(m.tags)[t := 0] == multiset(m.tags);
    }
  }

  /** An execution counts one, modulo the width of the counter, and changes nothing that is
      persisted or pending. */
  lemma CountExecSound(b: Body, id: string)
    requires Sound(b) && Resolved(b, id)
    ensures Sound(CountExec(b, id))
    ensures var r, m := CountExec(b, id), b.cache[id];
            && (forall x :: StructuralView(Live(r, x)) == StructuralView(Live(b, x)))
            && (forall x :: x != id ==> Live(r, x) == Live(b, x))
            && Live(r, id) == Some(m.(execCount := (m.execCount + 1) % 0x1_0000_0000_0000_0000))
            && Pending(r) == Pending(b) && r.dirty == b.dirty
  {
    var r := CountExec(b, id);
    forall x
      ensures SliceSound(x, At(r, x))
    {
      assert SliceSound(x, At(b, x));
      assert At(r, x) == if x == id then At(b, x).(cached := Some(r.cache[id])) else At(b, x);
    }
  }

  /** Dropping a cached record keeps every structural view, and what is pending. */
  lemma CacheDropSound(b: Body, id: string)
    requires Sound(b)
    ensures Sound(CacheDrop(b, id))
    ensures var r := CacheDrop(b, id);
            && (forall x :: StructuralView(Live(r, x)) == StructuralView(Live(b, x)))
            && r.cache == (if id in b.dirtyIds + b.newIds then b.cache else b.cache - {id})
            && r == b.(cache := r.cache)
  {
    var r := CacheDrop(b, id);
    forall x
      ensures SliceSound(x, At(r, x))
      ensures StructuralView(Live(r, x)) == StructuralView(Live(b, x))
    {
      var s := At(b, x);
      assert SliceSound(x, s);
      assert At(r, x) == if x == id && !s.changed && !s.unsaved then s.(cached := None) else s;
      assert Live(r, x) == SliceLive(At(r, x)) && Live(b, x) == SliceLive(s);
    }
  }

  /** What every mutation shows for the id it names. */
  ghost predicate Shows(b: Body, mu: Mutation, r: Body)
    requires Enabled(b, mu)
  {
    match mu
    case Resolve(id) => Live(r, id) == Live(b, id)
    case Put(q) => Live(r, q.id) == Some(q) && q.id in r.dirtyIds
    case Insert(m) => Live(r, m.id) == Some(m) && m.id in r.dirtyIds && m.id in r.newIds
    case Remove(id) => Live(r, id).None? && (Live(b, id).Some? ==> id in r.deletedIds)
    case EditRecord(m) => Live(r, m.id) == Some(m) && m.id in r.dirtyIds
    case AddTag(id, t) => RetagShows(b, r, id, Elems(b.cache[id].tags) + (if t == "" then {} else {t}))
    case RemoveTag(id, t) => RetagShows(b, r, id, Elems(b.cache[id].tags) - {t})
    case Executed(id) =>
      Live(r, id) == Some(b.cache[id].(execCount := (b.cache[id].execCount + 1) % 0x1_0000_0000_0000_0000))
    case DropCached(id) => StructuralView(Live(r, id)) == StructuralView(Live(b, id))
  }

  function Named(mu: Mutation): string {
    match mu
    case Resolve(id) => id
    case Put(q) => q.id
    case Insert(m) => m.id
    case Remove(id) => id
    case EditRecord(m) => m.id
    case AddTag(id, _) => id
    case RemoveTag(id, _) => id
    case Executed(id) => id
    case DropCached(id) => id
  }

  /** Every mutation shows what it is for, and nothing new under any other id. */
  lemma MutateShows(b: Body, mu: Mutation)
    requires Sound(b) && Enabled(b, mu)
    ensures Shows(b, mu, Mutate(b, mu))
    ensures forall x :: x != Named(mu) ==> Live(Mutate(b, mu), x) == Live(b, x)
  {
    match mu
    case Resolve(id) => PageInSound(b, id);
    case Put(q) => UpsertSound(b, q);
    case Insert(m) =>
      assert SliceSound(m.id, At(b, m.id));
      AddRuntimeSound(b, m);
    case Remove(id) => DeleteSound(b, id);
    case EditRecord(m) => EditSound(b, m);
    case AddTag(id, t) => TagAddSound(b, id, t);
    case RemoveTag(id, t) => TagRemoveSound(b, id, t);
    case Executed(id) => CountExecSound(b, id);
    case DropCached(id) => CacheDropSound(b, id);
  }

  /** Every mutation keeps the body sound and leaves the Store alone. */
  lemma MutateSound(b: Body, mu: Mutation)
    requires Sound(b) && Enabled(b, mu)
    ensures Sound(Mutate(b, mu))
    ensures Mutate(b, mu).store == b.store
    ensures NewIsUnstored(b) ==> NewIsUnstored(Mutate(b, mu))
    ensures NoShadow(b) ==> NoShadow(Mutate(b, mu))
  {
    MutateKeeps(b, mu);
    match mu
    case Resolve(id) => PageInSound(b, id);
    case Put(q) => UpsertSound(b, q);
    case Insert(m) => AddRuntimeSound(b, m);
    case Remove(id) => DeleteSound(b, id);
    case EditRecord(m) => EditSound(b, m);
    case AddTag(id, t) => TagAddSound(b, id, t);
    case RemoveTag(id, t) => TagRemoveSound(b, id, t);
    case Executed(id) => CountExecSound(b, id);
    case DropCached(id) => CacheDropSound(b, id);
  }

  lemma MutateKeeps(b: Body, mu: Mutation)
    requires Sound(b) && Enabled(b, mu)
    ensures Mutate(b, mu).store == b.store
    ensures NewIsUnstored(b) ==> NewIsUnstored(Mutate(b, mu))
    ensures NoShadow(b) ==> NoShadow(Mutate(b, mu))
  {
    if mu.AddTag? || mu.RemoveTag? {
      assert SliceSound(mu.id, At(b, mu.id));
    }
  }

  /** Explicit creation in a body: the record can be read back exactly when that body
      holds no tombstone for the id. */
  lemma InsertVisibleIff(b: Body, m: Memory)
    ensures Live(AddRuntime(b, m), m.id) == Some(m) <==> m.id !in b.deletedIds
  {
  }
}
