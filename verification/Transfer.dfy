/** Moving a Memory between two bodies: copy, make the copy durable, verify it on disk, and
    only then delete the source durably. */
module Transfer {
  import opened Records
  import opened Strings
  import opened Bodies
  import opened Persistence
  import opened MutationJournal
  import opened Engines

  /** The durable view of a file holds this version of a record. */
  ghost predicate Holds(d: Disk, id: string, version: Memory) {
    PhysicalMemory(d, id).Present? && Structural(PhysicalMemory(d, id).memory) == Structural(version)
  }

  /** A crash here loses nothing: one of the two files still holds the version. */
  ghost predicate Survives(files: (Disk, Disk), id: string, version: Memory) {
    Holds(files.0, id, version) || Holds(files.1, id, version)
  }

  ghost predicate AllSurvive(points: seq<(Disk, Disk)>, id: string, version: Memory) {
    forall k :: 0 <= k < |points| ==> Survives(points[k], id, version)
  }

  /** What a durable body guarantees about one id of its file. */
  lemma DurableHolds(d: Disk, b: Body, id: string)
    requires Durable(d, b) && !ForeignRecord(d)
    ensures Live(b, id).Some? ==> Holds(d, id, Live(b, id).value)
    ensures Live(b, id).None? ==> PhysicalMemory(d, id).Absent?
  {
    PhysicalAgreesWithReload(d, id);
    assert StructuralView(Live(Reload(d).value, id)) == StructuralView(Live(b, id));
  }

  /** The physical conditions a transfer meets, in order: how the destination persists and is
      read back, and the same for the source. */
  datatype TransferIo = TransferIo(
    capacity: bool, dstPersist: PersistIo, dstRead: bool, probe: bool, srcPersist: PersistIo, srcRead: bool)

  datatype Outcome =
    | NotFound
    | SameBody
    | Done
    | Conflict
    | TargetFull
    | TargetNotDurable
    | TargetUnverified
    | SourceKept

  /** When a persist of a dirty body succeeds: the file can be read, and what is pending is
      there already or is written now. */
  ghost predicate Persists(d: Disk, b: Body, io: PersistIo) {
    !b.dirty || (io.fileReadable && (Pending(b) == {} || io.write.Written? || (io.fitsSlot && IsJournaled(d, b))))
  }

  /** The overlay that the destination persists: a held record paged in, or a new candidate. */
  function Prepared(b: Body, m: Memory): Body {
    if Live(b, m.id).Some? then PageIn(b, m.id) else AddRuntime(b, m)
  }

  /** Nothing on the way fails. */
  predicate Smooth(io: TransferIo) {
    && io.capacity && io.dstPersist.fileReadable && io.dstPersist.write.Written? && io.dstRead
    && io.srcPersist.fileReadable && io.srcPersist.write.Written? && io.srcRead
  }

  /** `physicalMemoryWithJournal`, which can also fail to read the file. */
  method ReadPhysical(e: Engine, id: string, readable: bool) returns (state: DiskState)
    ensures state == if readable then PhysicalMemory(e.disk, id) else Unknown
  {
    state := if readable then PhysicalMemory(e.disk, id) else Unknown;
  }

  /** `durableTargetMatches`. */
  method DurableTargetMatches(dst: Engine, id: string, intended: Memory, readable: bool) returns (ok: bool)
    ensures ok <==> readable && Holds(dst.disk, id, intended)
  {
    var state := ReadPhysical(dst, id, readable);
    return state.Present? && Structural(state.memory) == Structural(intended);
  }

  /** `markTransferSourceDeletedIfUnchanged`. */
  method MarkSourceDeletedIfUnchanged(owner: Engine, snapshot: Memory) returns (ok: bool)
    requires owner.Valid() && NoShadow(owner.Overlay())
    modifies owner
    ensures owner.Valid() && NoShadow(owner.Overlay()) && owner.disk == old(owner.disk)
    ensures ok <==> old(StructuralView(Live(owner.Overlay(), snapshot.id))) == Some(Structural(snapshot))
    ensures forall x :: Live(owner.Overlay(), x) == if ok && x == snapshot.id then None else old(Live(owner.Overlay(), x))
    ensures ok ==> snapshot.id in owner.deletedIds && snapshot.id !in owner.cache
    ensures ok ==> owner.Overlay() == Delete(PageIn(old(owner.Overlay()), snapshot.id), snapshot.id)
  {
    var id := snapshot.id;
    ghost var b0 := owner.Overlay();
    PageInServed(owner.disk.base, b0, id);
    var current := owner.ResolveIdLocal(id);
    if current.None? || Structural(current.value) != Structural(snapshot) {
      return false;
    }
    DeleteServed(owner.disk.base, owner.Overlay(), id);
    owner.TombstoneResolved(id, current.value);
    return true;
  }

  lemma DeleteServed(base: map<string, Memory>, b: Body, id: string)
    requires Sound(b) && BaseServes(base, b)
    ensures Sound(Delete(b, id)) && BaseServes(base, Delete(b, id))
    ensures NoShadow(b) ==> NoShadow(Delete(b, id))
    ensures forall x :: Live(Delete(b, id), x) == if x == id then None else Live(b, x)
  {
    DeleteSound(b, id);
    ServesAfter(base, b, Delete(b, id));
  }

  /** The base image keeps serving a body whose other changes are pending. */
  lemma ServesAfter(base: map<string, Memory>, b: Body, b': Body)
    requires BaseServes(base, b)
    requires forall id :: id !in Pending(b') ==> id !in Pending(b) && StructuralView(Live(b', id)) == StructuralView(Live(b, id))
    ensures BaseServes(base, b')
  {
  }

  /** `restoreTransferSourceAfterDeleteFailure`. It marks the record as new even when the
      Store holds it. */
  method RestoreSource(owner: Engine, snapshot: Memory)
    requires owner.Valid() && NoShadow(owner.Overlay())
    modifies owner
    ensures owner.Valid() && NoShadow(owner.Overlay()) && owner.disk == old(owner.disk)
    ensures forall x :: x != snapshot.id ==> Live(owner.Overlay(), x) == old(Live(owner.Overlay(), x))
    ensures old(snapshot.id in owner.deletedIds) ==> Live(owner.Overlay(), snapshot.id) == Some(snapshot)
    ensures old(snapshot.id !in owner.deletedIds) ==> owner.Overlay() == old(owner.Overlay())
  {
    var id := snapshot.id;
    if id !in owner.deletedIds || id in owner.cache {
      return;
    }
    ghost var b0 := owner.Overlay();
    owner.cache := owner.cache[id := snapshot];
    owner.newIds := owner.newIds + {id};
    owner.dirtyIds := owner.dirtyIds + {id};
    owner.deletedIds := owner.deletedIds - {id};
    owner.TagDeltaAdd(id, snapshot.tags);
    owner.dirty := true;
    RestoredSourceSound(b0, owner.Overlay(), snapshot);
    ServesAfter(owner.disk.base, b0, owner.Overlay());
  }

  lemma RestoredSourceSound(b: Body, b': Body, m: Memory)
    requires Sound(b) && NoShadow(b) && m.id in b.deletedIds
    requires b' == AddRuntime(b, m).(deletedIds := b.deletedIds - {m.id})
    ensures Sound(b') && NoShadow(b')
    ensures forall x :: Live(b', x) == if x == m.id then Some(m) else Live(b, x)
    ensures forall x :: x !in Pending(b') ==> x !in Pending(b)
  {
    forall x
      ensures SliceSound(x, At(b', x))
    {
      AddRuntimeAt(b, m, x);
      assert SliceSound(x, At(b, x));
      assert At(b', x) == At(AddRuntime(b, m), x).(deleted := x in b.deletedIds && x != m.id);
    }
  }

  /** `durableDeleteTransferSource`. It succeeds exactly if the record is as it was copied, the
      tombstone persists and the file can be read back; then the file no longer holds it. On
      failure it is live as before, unless the persist already rebound the body to a file
      without it, which clears the tombstone that the recovery looks for. */
  method DurableDeleteSource(owner: Engine, snapshot: Memory, io: TransferIo) returns (ok: bool)
    requires owner.Valid() && NoShadow(owner.Overlay())
    modifies owner
    ensures owner.Valid() && NoShadow(owner.Overlay())
    ensures ok <==>
              && old(StructuralView(Live(owner.Overlay(), snapshot.id))) == Some(Structural(snapshot))
              && Persists(old(owner.disk), Delete(PageIn(old(owner.Overlay()), snapshot.id), snapshot.id), io.srcPersist)
              && io.srcRead
    ensures ok ==> PhysicalMemory(owner.disk, snapshot.id).Absent? && Live(owner.Overlay(), snapshot.id).None?
    ensures !ok ==>
              || StructuralView(Live(owner.Overlay(), snapshot.id)) == old(StructuralView(Live(owner.Overlay(), snapshot.id)))
              || (old(StructuralView(Live(owner.Overlay(), snapshot.id))) == Some(Structural(snapshot))
                  && Live(owner.Overlay(), snapshot.id).None? && snapshot.id !in owner.deletedIds)
    ensures ok ==> old(StructuralView(Live(owner.Overlay(), snapshot.id))) == Some(Structural(snapshot))
    ensures old(StructuralView(Live(owner.Overlay(), snapshot.id))) != Some(Structural(snapshot)) ==>
              owner.disk == old(owner.disk) && SameView(owner.Overlay(), old(owner.Overlay()))
  {
    var id := snapshot.id;
    var marked := MarkSourceDeletedIfUnchanged(owner, snapshot);
    if !marked {
      return false;
    }
    ghost var b1 := owner.Overlay();
    assert id in Pending(b1);
    var persisted := owner.PersistIncremental(io.srcPersist);
    assert StructuralView(Live(owner.Overlay(), id)) == StructuralView(Live(b1, id)) == None;
    if !persisted {
      RestoreSource(owner, snapshot);
      return false;
    }
    DurableHolds(owner.disk, b1, id);
    var state := ReadPhysical(owner, id, io.srcRead);
    if !state.Absent? {
      RestoreSource(owner, snapshot);
      return false;
    }
    return true;
  }

  /** `rollbackUnpersistedTransferCandidate`: forget a candidate that never reached the file. */
  method RollbackCandidate(dst: Engine, candidate: Memory) returns (rolled: bool)
    modifies dst
    ensures dst.disk == old(dst.disk)
    ensures !rolled ==> dst.Overlay() == old(dst.Overlay())
    ensures rolled <==>
              old(candidate.id in dst.newIds && candidate.id in dst.cache &&
                  StructuralView(Live(dst.Overlay(), candidate.id)) == Some(Structural(candidate)))
    ensures old(dst.Valid() && NoShadow(dst.Overlay()))
              && candidate.id !in old(dst.store) && candidate.id !in dst.disk.base ==>
              && dst.Valid() && NoShadow(dst.Overlay())
              && (forall x :: x != candidate.id ==> Live(dst.Overlay(), x) == old(Live(dst.Overlay(), x)))
              && (rolled ==> Live(dst.Overlay(), candidate.id).None?)
  {
    var id := candidate.id;
    ghost var b0 := dst.Overlay();
    if id !in dst.cache || id !in dst.newIds || id in dst.deletedIds || Structural(dst.cache[id]) != Structural(candidate) {
      return false;
    }
    ForgetCandidate(dst, candidate);
    if Sound(b0) && NoShadow(b0) && BaseServes(dst.disk.base, b0) && id !in b0.store && id !in dst.disk.base {
      RolledBackSound(b0, dst.Overlay(), candidate);
      RolledBackServed(dst.disk.base, b0, dst.Overlay(), id);
    }
    return true;
  }

  method ForgetCandidate(dst: Engine, m: Memory)
    modifies dst
    ensures dst.disk == old(dst.disk)
    ensures var b := old(dst.Overlay());
            dst.Overlay() == b.(cache := b.cache - {m.id}, newIds := b.newIds - {m.id}, dirtyIds := b.dirtyIds - {m.id},
                                deletedIds := b.deletedIds - {m.id}, tagAdded := b.tagAdded - TagPairs(m.id, m.tags),
                                dirty := dst.dirty)
    ensures dst.dirty == old(dst.dirty) || Pending(dst.Overlay()) == {}
  {
    dst.cache := dst.cache - {m.id};
    dst.newIds := dst.newIds - {m.id};
    dst.dirtyIds := dst.dirtyIds - {m.id};
    dst.deletedIds := dst.deletedIds - {m.id};
    dst.tagAdded := dst.tagAdded - TagPairs(m.id, m.tags);
    if dst.newIds == {} && dst.dirtyIds == {} && dst.deletedIds == {} && dst.tagAdded == {} && dst.tagRemoved == {} {
      dst.dirty := false;
    }
  }

  lemma RolledBackSound(b: Body, b': Body, m: Memory)
    requires Sound(b) && NoShadow(b) && m.id in b.cache && m.id !in b.store && m.id !in b.deletedIds
    requires Structural(b.cache[m.id]) == Structural(m)
    requires Pending(b') != {} ==> b'.dirty
    requires b' == b.(cache := b.cache - {m.id}, newIds := b.newIds - {m.id}, dirtyIds := b.dirtyIds - {m.id},
                      tagAdded := b.tagAdded - TagPairs(m.id, m.tags), dirty := b'.dirty)
    ensures Sound(b')
    ensures forall x :: Live(b', x) == if x == m.id then None else Live(b, x)
  {
    forall x
      ensures SliceSound(x, At(b', x))
    {
      PairsOf(b.tagAdded, m.id, m.tags, x);
      assert SliceSound(x, At(b, x));
      assert At(b', x) == if x != m.id then At(b, x)
                          else At(b, x).(cached := None, unsaved := false, changed := false,
                                         added := At(b, x).added - NonEmpty(m.tags));
    }
  }

  lemma RolledBackServed(base: map<string, Memory>, b: Body, b': Body, id: string)
    requires BaseServes(base, b) && id !in base
    requires Pending(b') == Pending(b) - {id}
    requires forall x :: Live(b', x) == if x == id then None else Live(b, x)
    ensures BaseServes(base, b')
  {
  }

  /** Paging a record in changes neither the view nor what the file has to serve. */
  lemma PageInServed(base: map<string, Memory>, b: Body, id: string)
    requires Sound(b) && BaseServes(base, b)
    ensures Sound(PageIn(b, id)) && BaseServes(base, PageIn(b, id))
    ensures NoShadow(b) ==> NoShadow(PageIn(b, id))
    ensures forall x :: Live(PageIn(b, id), x) == Live(b, x)
  {
    PageInSound(b, id);
    ServesAfter(base, b, PageIn(b, id));
  }

  lemma InsertServed(base: map<string, Memory>, b: Body, m: Memory)
    requires Sound(b) && BaseServes(base, b) && Live(b, m.id).None? && m.id !in b.cache
    ensures Sound(AddRuntime(b, m)) && BaseServes(base, AddRuntime(b, m))
    ensures m.id !in b.deletedIds && NoShadow(b) ==> NoShadow(AddRuntime(b, m))
  {
    AddRuntimeSound(b, m);
    ServesAfter(base, b, AddRuntime(b, m));
  }

  /** Something another thread does to a body. */
  method Interfere(e: Engine, mu: Mutation)
    requires e.Valid() && NoShadow(e.Overlay())
    modifies e
    ensures e.Valid() && NoShadow(e.Overlay()) && e.disk == old(e.disk)
    ensures Enabled(old(e.Overlay()), mu) ==> e.Overlay() == Mutate(old(e.Overlay()), mu)
    ensures !Enabled(old(e.Overlay()), mu) ==> e.Overlay() == old(e.Overlay())
  {
    var b := e.Overlay();
    if Enabled(b, mu) {
      MutateSound(b, mu);
      forall x | x !in Pending(Mutate(b, mu))
        ensures x !in Pending(b) && StructuralView(Live(Mutate(b, mu), x)) == StructuralView(Live(b, x))
      {
        MutatedSlice(b, mu, x);
        assert Live(b, x) == SliceLive(At(b, x)) && Live(Mutate(b, mu), x) == SliceLive(At(Mutate(b, mu), x));
        assert x in Pending(Mutate(b, mu)) <==> IsPending(At(Mutate(b, mu), x));
      }
      ServesAfter(e.disk.base, b, Mutate(b, mu));
      var r := Mutate(b, mu);
      e.cache, e.newIds, e.dirtyIds, e.deletedIds := r.cache, r.newIds, r.dirtyIds, r.deletedIds;
      e.tagAdded, e.tagRemoved, e.dirty := r.tagAdded, r.tagRemoved, r.dirty;
    }
  }

  method InterfereAll(e: Engine, mus: seq<Mutation>)
    requires e.Valid() && NoShadow(e.Overlay())
    modifies e
    ensures e.Valid() && NoShadow(e.Overlay()) && e.disk == old(e.disk)
  {
    for i := 0 to |mus|
      invariant e.Valid() && NoShadow(e.Overlay()) && e.disk == old(e.disk)
    {
      Interfere(e, mus[i]);
    }
  }

  /** The destination half of a transfer: reuse an equal record or insert the candidate, make
      it durable and verify it on disk. A candidate inserted over a pending tombstone is
      invisible, so the verification refuses it and the source stays. */
  method PrepareTarget(dst: Engine, candidate: Memory, io: TransferIo) returns (ready: Outcome)
    requires dst.Valid() && NoShadow(dst.Overlay())
    modifies dst
    ensures ready in {Done, Conflict, TargetFull, TargetNotDurable, TargetUnverified}
    ensures ready.Conflict? <==>
              old(Live(dst.Overlay(), candidate.id)).Some? &&
              Structural(old(Live(dst.Overlay(), candidate.id)).value) != Structural(candidate)
    ensures ready.TargetFull? <==> old(Live(dst.Overlay(), candidate.id)).None? && !io.capacity
    ensures ready.Done? || ready.TargetUnverified? <==>
              !ready.Conflict? && !ready.TargetFull? && Persists(old(dst.disk), Prepared(old(dst.Overlay()), candidate), io.dstPersist)
    ensures ready.Done? || ready.TargetUnverified? ==> (ready.Done? <==> io.dstRead && Holds(dst.disk, candidate.id, candidate))
    ensures ready.Done? ==> Holds(dst.disk, candidate.id, candidate)
    ensures Smooth(io) && old(Live(dst.Overlay(), candidate.id)).None? && candidate.id !in old(dst.deletedIds) ==> ready.Done?
    ensures candidate.id !in old(dst.deletedIds) ==> dst.Valid() && NoShadow(dst.Overlay())
    ensures ready.Conflict? || ready.TargetFull? ==> dst.disk == old(dst.disk)
  {
    var id := candidate.id;
    PageInServed(dst.disk.base, dst.Overlay(), id);
    var existing := dst.ResolveIdLocal(id);
    if existing.Some? {
      if Structural(existing.value) != Structural(candidate) {
        return Conflict;
      }
      var kept := dst.PersistIncremental(io.dstPersist);
      if !kept {
        return TargetNotDurable;
      }
      var matches := DurableTargetMatches(dst, id, candidate, io.dstRead);
      return if matches then Done else TargetUnverified;
    }
    if !io.capacity {
      return TargetFull;
    }
    assert id !in dst.cache && (id !in dst.deletedIds ==> id !in Pending(dst.Overlay())) by {
      assert SliceSound(id, At(dst.Overlay(), id));
    }
    InsertServed(dst.disk.base, dst.Overlay(), candidate);
    dst.AddRuntimeMemory(candidate);
    ready := PersistTarget(dst, candidate, io);
  }

  /** Persist, verify, and on failure roll the candidate back when the file is known not to
      hold it. */
  method PersistTarget(dst: Engine, candidate: Memory, io: TransferIo) returns (ready: Outcome)
    requires dst.Valid() && candidate.id in dst.cache && dst.cache[candidate.id] == candidate
    requires candidate.id in dst.newIds
    requires NoShadow(dst.Overlay()) ==> candidate.id !in dst.store && candidate.id !in dst.disk.base
    modifies dst
    ensures ready in {Done, TargetNotDurable, TargetUnverified}
    ensures ready.TargetNotDurable? <==> !Persists(old(dst.disk), old(dst.Overlay()), io.dstPersist)
    ensures !ready.TargetNotDurable? ==> (ready.Done? <==> io.dstRead && Holds(dst.disk, candidate.id, candidate))
    ensures Smooth(io) && candidate.id !in old(dst.deletedIds) ==> ready.Done?
    ensures old(NoShadow(dst.Overlay())) ==> dst.Valid() && NoShadow(dst.Overlay())
  {
    ghost var b := dst.Overlay();
    var persisted := dst.PersistIncremental(io.dstPersist);
    if !persisted {
      var state := ReadPhysical(dst, candidate.id, io.probe);
      if state.Absent? {
        if NoShadow(b) && Durable(dst.disk, b) {
          DurableHolds(dst.disk, b, candidate.id);
          assert false;
        }
        var rolled := RollbackCandidate(dst, candidate);
      }
      return TargetNotDurable;
    }
    if Smooth(io) {
      DurableHolds(dst.disk, b, candidate.id);
    }
    var matches := DurableTargetMatches(dst, candidate.id, candidate, io.dstRead);
    return if matches then Done else TargetUnverified;
  }

  /** The record to move; paging it in changes nothing else. */
  method ResolveSource(src: Engine, id: string) returns (source: Option<Memory>)
    requires src.Valid() && NoShadow(src.Overlay())
    modifies src
    ensures src.Valid() && NoShadow(src.Overlay()) && src.disk == old(src.disk)
    ensures source == old(Live(src.Overlay(), id)) == Live(src.Overlay(), id) && (source.Some? ==> source.value.id == id)
    ensures SameView(src.Overlay(), old(src.Overlay()))
  {
    PageInServed(src.disk.base, src.Overlay(), id);
    assert SliceSound(id, At(src.Overlay(), id));
    source := src.ResolveIdLocal(id);
  }

  /** What other threads do to the source, then its deletion, if it is to be deleted. */
  method EditThenDelete(src: Engine, source: Memory, remove: bool, io: TransferIo, edits: seq<Mutation>)
    returns (deleted: bool, ghost atDeletion: Body)
    requires src.Valid() && NoShadow(src.Overlay())
    modifies src
    ensures src.Valid() && NoShadow(src.Overlay())
    ensures !remove ==> !deleted && src.disk == old(src.disk) && SameView(src.Overlay(), atDeletion)
    ensures deleted ==> PhysicalMemory(src.disk, source.id).Absent? && Live(src.Overlay(), source.id).None?
    ensures StructuralView(Live(atDeletion, source.id)) != Some(Structural(source)) ==>
              !deleted && src.disk == old(src.disk) && SameView(src.Overlay(), atDeletion)
    ensures remove && Smooth(io) && StructuralView(Live(atDeletion, source.id)) == Some(Structural(source)) ==> deleted
  {
    InterfereAll(src, edits);
    atDeletion := src.Overlay();
    deleted := false;
    if remove {
      deleted := DurableDeleteSource(src, source, io);
    }
  }

  /** The rest of a transfer of a resolved record. */
  method TransferResolved(src: Engine, dst: Engine, source: Memory, move: bool, io: TransferIo, edits: seq<Mutation>)
    returns (outcome: Outcome, ghost crashPoints: seq<(Disk, Disk)>, ghost atDeletion: Body)
    requires src.Valid() && NoShadow(src.Overlay()) && dst.Valid() && NoShadow(dst.Overlay())
    requires src != dst && Live(src.Overlay(), source.id) == Some(source)
    modifies src, dst
    ensures src.Valid() && NoShadow(src.Overlay()) && !outcome.NotFound? && !outcome.SameBody?
    ensures source.id !in old(dst.deletedIds) ==> dst.Valid() && NoShadow(dst.Overlay())
    ensures |crashPoints| > 0 && crashPoints[0] == (old(src.disk), old(dst.disk))
    ensures crashPoints[|crashPoints| - 1] == (src.disk, dst.disk)
    ensures Holds(old(src.disk), source.id, source) ==> AllSurvive(crashPoints, source.id, source)
    ensures outcome.Done? ==> Holds(dst.disk, source.id, source)
    ensures outcome.Done? && move ==> PhysicalMemory(src.disk, source.id).Absent? && Live(src.Overlay(), source.id).None?
    ensures outcome !in {Done, SourceKept} ==> src.disk == old(src.disk)
    ensures StructuralView(Live(atDeletion, source.id)) != Some(Structural(source)) ==>
              && !(outcome.Done? && move)
              && src.disk == old(src.disk) && SameView(src.Overlay(), atDeletion)
    ensures Smooth(io) && old(Live(dst.Overlay(), source.id)).None? && source.id !in old(dst.deletedIds)
              && (move ==> StructuralView(Live(atDeletion, source.id)) == Some(Structural(source))) ==>
              outcome.Done?
  {
    crashPoints := [(src.disk, dst.disk)];
    outcome := PrepareTarget(dst, source, io);
    crashPoints := crashPoints + [(src.disk, dst.disk)];
    var deleted;
    deleted, atDeletion := EditThenDelete(src, source, outcome.Done? && move, io, edits);
    crashPoints := crashPoints + [(src.disk, dst.disk)];
    if outcome.Done? && move && !deleted {
      outcome := SourceKept;
    }
  }

  /** `transferMemoryDurable`. `edits` are what other threads do to the source between the
      copy and the source deletion; `crashPoints` lists the pair of files (source,
      destination) after every write, so a crash finds one of them, and `atDeletion` is the
      source as the deletion finds it. */
  method TransferMemory(src: Engine, dst: Engine, id: string, move: bool, io: TransferIo, edits: seq<Mutation>)
    returns (outcome: Outcome, ghost crashPoints: seq<(Disk, Disk)>, ghost atDeletion: Body)
    requires src.Valid() && NoShadow(src.Overlay())
    requires dst.Valid() && NoShadow(dst.Overlay())
    modifies src, dst
    ensures src.Valid() && NoShadow(src.Overlay())
    ensures id !in old(dst.deletedIds) ==> dst.Valid() && NoShadow(dst.Overlay())
    ensures |crashPoints| > 0 && crashPoints[0] == (old(src.disk), old(dst.disk))
    ensures crashPoints[|crashPoints| - 1] == (src.disk, dst.disk)
    ensures outcome.NotFound? <==> old(Live(src.Overlay(), id)).None?
    ensures outcome.SameBody? <==> old(Live(src.Overlay(), id)).Some? && src == dst
    ensures Smooth(io) && src != dst && old(Live(src.Overlay(), id)).Some?
              && old(Live(dst.Overlay(), id)).None? && id !in old(dst.deletedIds)
              && (move ==> StructuralView(Live(atDeletion, id)) == old(StructuralView(Live(src.Overlay(), id)))) ==>
              outcome.Done?
    ensures old(Live(src.Overlay(), id)).Some? && Holds(old(src.disk), id, old(Live(src.Overlay(), id)).value) ==>
              AllSurvive(crashPoints, id, old(Live(src.Overlay(), id)).value)
    ensures outcome.Done? ==> Holds(dst.disk, id, old(Live(src.Overlay(), id)).value)
    ensures outcome.Done? && move ==> PhysicalMemory(src.disk, id).Absent? && Live(src.Overlay(), id).None?
    ensures outcome !in {Done, SourceKept} ==> src.disk == old(src.disk)
    ensures old(Live(src.Overlay(), id)).Some?
              && StructuralView(Live(atDeletion, id)) != old(StructuralView(Live(src.Overlay(), id))) ==>
              && !(outcome.Done? && move)
              && src.disk == old(src.disk) && SameView(src.Overlay(), atDeletion)
  {
    crashPoints := [(src.disk, dst.disk)];
    atDeletion := src.Overlay();
    var source := ResolveSource(src, id);
    atDeletion := src.Overlay();
    if source.None? {
      return NotFound, crashPoints, atDeletion;
    }
    if src == dst {
      return SameBody, crashPoints, atDeletion;
    }
    outcome, crashPoints, atDeletion := TransferResolved(src, dst, source.value, move, io, edits);
  }
}
