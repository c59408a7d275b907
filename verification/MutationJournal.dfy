/** Incremental durability: the pending mutations of a body as one journal record beside
    the base image, restored on load and consulted by physical verification. */
module MutationJournal {
  import opened Records
  import opened Strings
  import opened Bodies
  import opened Persistence
  import Plans

  datatype Entry = Erase(id: string) | Write(id: string, memory: Memory)

  /** A base fingerprint is a digest of the base image, so it is represented by it. */
  datatype Payload = Payload(base: map<string, Memory>, entries: seq<Entry>)

  /** A body file: its base image, and the newest valid journal record of its reserved
      region. Older images have no such region. */
  datatype Disk = Disk(base: map<string, Memory>, region: Region)

  datatype Region = NoRegion | Journal(record: Option<Record>)

  datatype Record = Record(seqNo: nat, payload: Payload)

  ghost predicate EntriesNamed(es: seq<Entry>) {
    forall i :: 0 <= i < |es| && es[i].Write? ==> es[i].memory.id == es[i].id
  }

  /** The journal entry of one pending id. */
  function EntryFor(b: Body, id: string): Entry
    requires id in b.deletedIds || id in b.cache
  {
    if id in b.deletedIds then Erase(id) else Write(id, b.cache[id])
  }

  /** `snapshotMutationJournal`: one entry per pending id, in id order. */
  ghost predicate IsSnapshot(b: Body, es: seq<Entry>) {
    && (forall id :: id in Pending(b) ==> id in b.deletedIds || id in b.cache)
    && Sorted(Ids(es))
    && Elems(Ids(es)) == Pending(b)
    && forall i :: 0 <= i < |es| ==> es[i].id in Pending(b) && es[i] == EntryFor(b, es[i].id)
  }

  /** The journal holds what is pending. */
  ghost predicate IsJournaled(d: Disk, b: Body) {
    d.region.Journal? && d.region.record.Some? && IsSnapshot(b, d.region.record.value.payload.entries)
  }

  lemma SnapshotUnique(b: Body, a: seq<Entry>, c: seq<Entry>)
    requires IsSnapshot(b, a) && IsSnapshot(b, c)
    ensures a == c
  {
    SortedUnique(Ids(a), Ids(c));
    assert |a| == |Ids(a)| == |Ids(c)| == |c|;
    forall i | 0 <= i < |a| ensures a[i] == c[i] {
      assert a[i].id == Ids(a)[i] == Ids(c)[i] == c[i].id;
    }
  }

  function Ids(es: seq<Entry>): (r: seq<string>)
    ensures |r| == |es|
    ensures forall i :: 0 <= i < |es| ==> r[i] == es[i].id
  {
    seq(|es|, i requires 0 <= i < |es| => es[i].id)
  }

  function RestoreOne(b: Body, e: Entry): Body {
    match e
    case Erase(id) =>
      b.(cache := b.cache - {id}, newIds := b.newIds - {id},
         dirtyIds := b.dirtyIds + {id}, deletedIds := b.deletedIds + {id})
    case Write(id, m) =>
      b.(cache := b.cache[id := m], dirtyIds := b.dirtyIds + {id}, deletedIds := b.deletedIds - {id},
         newIds := if id in b.store then b.newIds else b.newIds + {id})
  }

  function RestoreAll(b: Body, es: seq<Entry>): Body
    decreases |es|
  {
    if es == [] then b else RestoreOne(RestoreAll(b, es[..|es| - 1]), es[|es| - 1])
  }

  /** `restoreMutationJournal` for a record whose base fingerprint matches. */
  function Restore(b: Body, es: seq<Entry>): Body {
    RebuildTags(RestoreAll(b, es)).(dirty := |es| > 0)
  }

  /** The newest entry for an id: the backward scan of `physicalMemoryWithJournal`. */
  function Newest(es: seq<Entry>, id: string): Option<Entry>
    decreases |es|
  {
    if es == [] then None
    else if es[|es| - 1].id == id then Some(es[|es| - 1])
    else Newest(es[..|es| - 1], id)
  }

  /** `mutationJournalMatchesBase`: the base already holds everything the record says. */
  predicate MatchesBase(base: map<string, Memory>, es: seq<Entry>) {
    forall e :: e in es ==>
      match e
      case Erase(id) => id !in base
      case Write(id, m) => id in base && Structural(base[id]) == Structural(m)
  }

  /** Loading a body. A record for another base is dropped when the base already holds it,
      and refuses the load otherwise. */
  function Reload(d: Disk): Option<Body> {
    match d.region
    case NoRegion => Some(Opened(d.base))
    case Journal(None) => Some(Opened(d.base))
    case Journal(Some(rec)) =>
      if rec.payload.base == d.base then Some(Restore(Opened(d.base), rec.payload.entries))
      else if MatchesBase(d.base, rec.payload.entries) then Some(Opened(d.base))
      else None
  }

  predicate ForeignRecord(d: Disk) {
    d.region.Journal? && d.region.record.Some? && d.region.record.value.payload.base != d.base
  }

  datatype DiskState = Unknown | Absent | Present(memory: Memory)

  /** `physicalMemoryWithJournal`. */
  function PhysicalMemory(d: Disk, id: string): DiskState {
    var base := if id in d.base then Present(d.base[id]) else Absent;
    match d.region
    case NoRegion => base
    case Journal(None) => base
    case Journal(Some(rec)) =>
      if rec.payload.base != d.base then Unknown
      else match Newest(rec.payload.entries, id)
        case None => base
        case Some(Erase(_)) => Absent
        case Some(Write(_, m)) => Present(m)
  }

  function AsDiskState(m: Option<Memory>): DiskState {
    match m
    case None => Absent
    case Some(v) => Present(v)
  }

  function RestoredSlice(s: Slice, e: Option<Entry>): Slice {
    match e
    case None => s
    case Some(Erase(_)) => s.(cached := None, unsaved := false, changed := true, deleted := true)
    case Some(Write(_, m)) => s.(cached := Some(m), changed := true, deleted := false, unsaved := s.stored.None? || s.unsaved)
  }

  /** Replaying forward and scanning backward meet: only the newest entry of an id counts. */
  lemma {:induction false} RestoreAllAt(store: map<string, Memory>, es: seq<Entry>, x: string)
    ensures At(RestoreAll(Opened(store), es), x) == RestoredSlice(At(Opened(store), x), Newest(es, x))
    ensures RestoreAll(Opened(store), es).store == store
    decreases |es|
  {
    if es != [] {
      var b := RestoreAll(Opened(store), es[..|es| - 1]);
      RestoreAllAt(store, es[..|es| - 1], x);
      var e := es[|es| - 1];
      assert At(RestoreOne(b, e), x) == if e.id != x then At(b, x) else RestoredSlice(At(b, x), Some(e));
    }
  }

  lemma NewestIsEntry(es: seq<Entry>, id: string)
    ensures Newest(es, id).Some? ==> Newest(es, id).value in es && Newest(es, id).value.id == id
    ensures Newest(es, id).None? ==> forall i :: 0 <= i < |es| ==> es[i].id != id
    decreases |es|
  {
    if es != [] {
      NewestIsEntry(es[..|es| - 1], id);
    }
  }

  lemma RestoreSound(store: map<string, Memory>, es: seq<Entry>)
    requires forall id :: id in store ==> store[id].id == id
    requires EntriesNamed(es)
    ensures Sound(Restore(Opened(store), es))
  {
    var r := RestoreAll(Opened(store), es);
    forall id
      ensures SliceSound(id, At(Restore(Opened(store), es), id))
      ensures |es| == 0 ==> !IsPending(At(r, id))
    {
      RestoreAllAt(store, es, id);
      NewestIsEntry(es, id);
      RebuildTagsAt(r, id);
      assert At(Restore(Opened(store), es), id) == At(RebuildTags(r), id);
    }
    if Pending(r) != {} {
      var id :| id in Pending(r);
      assert IsPending(At(r, id));
    }
  }

  /** Physical verification sees, id by id, what a reload would serve; it is undecided
      exactly on a record for another base. */
  lemma PhysicalAgreesWithReload(d: Disk, id: string)
    ensures PhysicalMemory(d, id).Unknown? <==> ForeignRecord(d)
    ensures !ForeignRecord(d) ==> Reload(d).Some? && PhysicalMemory(d, id) == AsDiskState(Live(Reload(d).value, id))
  {
    match d.region
    case NoRegion =>
    case Journal(None) =>
    case Journal(Some(rec)) =>
      if rec.payload.base == d.base {
        var r := RestoreAll(Opened(d.base), rec.payload.entries);
        RestoreAllAt(d.base, rec.payload.entries, id);
        RebuildTagsAt(r, id);
        assert Live(Restore(Opened(d.base), rec.payload.entries), id) == SliceLive(At(RebuildTags(r), id));
      }
  }

  lemma NewestInSnapshot(b: Body, es: seq<Entry>, id: string)
    requires IsSnapshot(b, es)
    ensures Newest(es, id) == if id in Pending(b) then Some(EntryFor(b, id)) else None
  {
    NewestIsEntry(es, id);
    if id in Pending(b) {
      assert id in Elems(Ids(es));
      var i :| 0 <= i < |es| && Ids(es)[i] == id;
      assert es[i].id == id;
      var e := Newest(es, id).value;
      var j :| 0 <= j < |es| && es[j] == e;
    } else {
      forall i | 0 <= i < |es|
        ensures es[i].id != id
      {
      }
    }
  }

  /** The durable structural view a loader would serve. */
  ghost predicate Durable(d: Disk, b: Body) {
    && Reload(d).Some?
    && forall id :: StructuralView(Live(Reload(d).value, id)) == StructuralView(Live(b, id))
  }

  /** The base image serves the live view wherever nothing is pending: it is the Store the
      body was opened from, or the copies of a save whose finalization did not complete. */
  ghost predicate BaseServes(base: map<string, Memory>, b: Body) {
    && (forall id :: id in base ==> base[id].id == id)
    && forall id :: id !in Pending(b) ==> StructuralView(Live(b, id)) == StructuralView(Lookup(base, id))
  }

  /** The journal branch of a persist: the payload under the next number. */
  function Journaled(d: Disk, p: Payload): Disk {
    var previous := if d.region.Journal? && d.region.record.Some? then d.region.record.value.seqNo else 0;
    d.(region := Journal(Some(Record(previous + 1, p))))
  }

  lemma StoreServes(b: Body)
    requires Sound(b)
    ensures BaseServes(b.store, b)
  {
    forall id
      ensures id in b.store ==> b.store[id].id == id
      ensures id !in Pending(b) ==> StructuralView(Live(b, id)) == StructuralView(Lookup(b.store, id))
    {
      assert SliceSound(id, At(b, id));
    }
  }

  /** Journal branch: the record that holds every pending mutation makes the whole live
      view durable. */
  lemma JournalIsDurable(base: map<string, Memory>, b: Body, es: seq<Entry>, seqNo: nat)
    requires Sound(b) && BaseServes(base, b) && IsSnapshot(b, es)
    ensures Durable(Disk(base, Journal(Some(Record(seqNo, Payload(base, es))))), b)
  {
    var d := Disk(base, Journal(Some(Record(seqNo, Payload(base, es)))));
    forall id
      ensures StructuralView(Live(Reload(d).value, id)) == StructuralView(Live(b, id))
    {
      PhysicalAgreesWithReload(d, id);
      NewestInSnapshot(b, es, id);
      assert SliceSound(id, At(b, id));
    }
  }

  /** Rewrite branch: the copies of a finished save, under an empty journal, hold the live
      view of every id that finalization no longer considers pending. */
  lemma RewriteIsDurable(s: Save)
    requires SaveInv(s) && s.todo == {} && NoShadow(s.body)
    ensures var d := Disk(s.written, Journal(None));
            && Reload(d).Some?
            && forall id :: id !in Pending(Finalize(s.body, s.written)) ==>
                 StructuralView(Live(Reload(d).value, id)) == StructuralView(Live(Finalize(s.body, s.written), id))
  {
    FinalizeKeepsView(s);
    forall id
      ensures Live(Opened(s.written), id) == Lookup(s.written, id)
    {
    }
  }

  /** What an entry leaves of its id. */
  function Left(e: Entry): Option<Memory> {
    if e.Erase? then None else Some(e.memory)
  }

  /** With nothing pending the persist call writes nothing, so the file serves the live view
      exactly if it did: every journaled id must show what the base shows. */
  lemma NothingPendingDurableIff(d: Disk, b: Body, rec: Record)
    requires Sound(b) && Pending(b) == {} && BaseServes(d.base, b)
    requires d.region == Journal(Some(rec)) && rec.payload.base == d.base
    ensures Durable(d, b) <==>
            forall id :: Newest(rec.payload.entries, id).Some? ==>
              StructuralView(Left(Newest(rec.payload.entries, id).value)) == StructuralView(Lookup(d.base, id))
  {
    forall id
      ensures StructuralView(Live(b, id)) == StructuralView(Lookup(d.base, id))
      ensures Live(Reload(d).value, id) ==
              if Newest(rec.payload.entries, id).Some? then Left(Newest(rec.payload.entries, id).value) else Lookup(d.base, id)
    {
      ReloadedAt(d, rec, id);
    }
  }

  lemma ReloadedAt(d: Disk, rec: Record, id: string)
    requires d.region == Journal(Some(rec)) && rec.payload.base == d.base
    ensures Reload(d).Some?
    ensures Live(Reload(d).value, id) ==
            if Newest(rec.payload.entries, id).Some? then Left(Newest(rec.payload.entries, id).value) else Lookup(d.base, id)
  {
    var r := RestoreAll(Opened(d.base), rec.payload.entries);
    RestoreAllAt(d.base, rec.payload.entries, id);
    RebuildTagsAt(r, id);
    assert Live(Restore(Opened(d.base), rec.payload.entries), id) == SliceLive(At(RebuildTags(r), id));
  }

  /** A record of another base is dropped on load exactly if replaying it would show nothing
      that the base does not, and refuses the load otherwise. */
  lemma ForeignDroppedIff(d: Disk, rec: Record)
    requires d.region == Journal(Some(rec)) && rec.payload.base != d.base
    requires forall i, j :: 0 <= i < j < |rec.payload.entries| ==> rec.payload.entries[i].id != rec.payload.entries[j].id
    ensures Reload(d) == Some(Opened(d.base)) || Reload(d) == None
    ensures Reload(d).Some? <==>
            forall id :: StructuralView(Live(Restore(Opened(d.base), rec.payload.entries), id)) == StructuralView(Lookup(d.base, id))
  {
    var es := rec.payload.entries;
    var own := Record(rec.seqNo, Payload(d.base, es));
    forall id
      ensures Live(Restore(Opened(d.base), es), id) ==
              if Newest(es, id).Some? then Left(Newest(es, id).value) else Lookup(d.base, id)
    {
      ReloadedAt(Disk(d.base, Journal(Some(own))), own, id);
    }
    forall id ensures Newest(es, id).Some? ==> Newest(es, id).value in es && Newest(es, id).value.id == id {
      NewestIsEntry(es, id);
    }
    forall e | e in es ensures Newest(es, e.id) == Some(e) {
      NewestIsEntry(es, e.id);
    }
    forall e | e in es
      ensures (match e case Erase(id) => id !in d.base case Write(id, m) => id in d.base && Structural(d.base[id]) == Structural(m)) <==>
              StructuralView(Left(e)) == StructuralView(Lookup(d.base, e.id))
    {
    }
    if Reload(d).None? {
      var e :| e in es && StructuralView(Left(e)) != StructuralView(Lookup(d.base, e.id));
      assert Newest(es, e.id) == Some(e);
    }
  }

  /** A family where it does not: a record was journaled, then discarded speculatively before
      it ever reached the Store. */
  lemma NothingPendingNothingWritten(m: Memory)
    requires m.tags == []
    ensures var b := AddRuntime(Opened(map[]), m);
            var gone := Plans.ApplyPlan(b, Plans.Discard(m.id), m);
            var d := Disk(map[], Journal(Some(Record(1, Payload(map[], [Write(m.id, m)])))));
            && Sound(gone) && gone.dirty && Pending(gone) == {}
            && Durable(d, b)
            && !Durable(d, gone)
  {
    var b0 := Opened(map[]);
    forall id
      ensures SliceSound(id, At(b0, id))
    {
    }
    var b := AddRuntime(b0, m);
    AddRuntimeSound(b0, m);
    Plans.ApplyPlanSound(b, Plans.Discard(m.id), m);
    var es := [Write(m.id, m)];
    assert Pending(b) == {m.id};
    assert Ids(es) == [m.id] && Elems(Ids(es)) == {m.id};
    StoreServes(b);
    JournalIsDurable(map[], b, es, 1);
    var d := Disk(map[], Journal(Some(Record(1, Payload(map[], es)))));
    assert StructuralView(Live(Reload(d).value, m.id)) == StructuralView(Live(b, m.id));
  }
}
