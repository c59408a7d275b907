/** Bounded placement of new records over the primary body and its storage shards. */
module ShardPlacement {
  import opened Records
  import opened Strings
  import opened Bodies
  import P = Persistence
  import opened Engines

  lemma CardUnion(a: set<string>, b: set<string>)
    ensures |a + b| == |a| + |b| - |a * b|
  {
    assert a + b == a + (b - a);
    assert |b| == |b - a| + |a * b| by { assert b == (b - a) + (a * b); }
  }

  /** What the counting formula adds up, for stored, new, deleted and readable ids. */
  lemma CountSets(stored: set<string>, added: set<string>, deleted: set<string>, readable: set<string>)
    ensures |(stored + added) - deleted| <= |stored| + |added - deleted| - |deleted * (stored * readable)|
    ensures added !! stored && deleted <= readable ==>
              |(stored + added) - deleted| == |stored| + |added - deleted| - |deleted * (stored * readable)|
  {
    var kept, extra, gone := stored - deleted, added - deleted, deleted * stored;
    assert (stored + added) - deleted == kept + extra;
    CardUnion(kept, extra);
    assert stored == kept + gone && kept * gone == {};
    CardUnion(kept, gone);
    assert deleted * (stored * readable) == gone * readable;
    SubsetSize(gone * readable, gone);
    if added !! stored && deleted <= readable {
      assert kept * extra == {} && gone * readable == gone;
    }
  }

  function NonNegative(n: int): nat {
    if n < 0 then 0 else n
  }

  /** Counts the ids that are not deleted. */
  method CountLive(ids: set<string>, deleted: set<string>) returns (n: nat)
    ensures n == |ids - deleted|
  {
    n := 0;
    var todo := ids;
    ghost var kept: set<string> := {};
    while todo != {}
      invariant todo <= ids && kept == (ids - todo) - deleted && n == |kept|
      decreases todo
    {
      var id :| id in todo;
      todo := todo - {id};
      if id !in deleted {
        n := n + 1;
        kept := kept + {id};
      }
    }
  }

  /** Counts the ids whose index read finds a record. */
  method CountFound(ids: set<string>, found: set<string>) returns (n: nat)
    ensures n == |ids * found|
  {
    n := 0;
    var todo := ids;
    ghost var kept: set<string> := {};
    while todo != {}
      invariant todo <= ids && kept == (ids - todo) * found && n == |kept|
      decreases todo
    {
      var id :| id in todo;
      todo := todo - {id};
      if id in found {
        n := n + 1;
        kept := kept + {id};
      }
    }
  }

  /** What the count adds up for a body; `readable` are the ids whose index read does not fail. */
  ghost function Counted(b: Body, readable: set<string>): int {
    |b.store.Keys| + |b.newIds - b.deletedIds| - |b.deletedIds * (b.store.Keys * readable)|
  }

  /** Never below the number of live records, and exact if no new id is stored and all reads
      succeed. */
  lemma CountedIsLive(b: Body, readable: set<string>)
    requires Sound(b)
    ensures Counted(b, readable) >= |LiveIds(b)|
    ensures NewIsUnstored(b) && b.deletedIds <= readable ==> Counted(b, readable) == |LiveIds(b)|
  {
    LocalIdsAreLive(b);
    CountSets(b.store.Keys, b.newIds, b.deletedIds, readable);
  }

  /** `localMemoryCountFast`. */
  method LocalMemoryCountFast(e: Engine, readable: set<string>) returns (count: nat)
    ensures count == Counted(e.Overlay(), readable)
    ensures Sound(e.Overlay()) ==> count >= |LiveIds(e.Overlay())|
    ensures Sound(e.Overlay()) && NewIsUnstored(e.Overlay()) && e.deletedIds <= readable ==> count == |LiveIds(e.Overlay())|
  {
    if Sound(e.Overlay()) {
      CountedIsLive(e.Overlay(), readable);
    }
    var added := CountLive(e.newIds, e.deletedIds);
    var persisted := CountFound(e.deletedIds, e.store.Keys * readable);
    SubsetSize(e.deletedIds * (e.store.Keys * readable), e.store.Keys);
    var total := |e.store.Keys| + added - persisted;
    count := NonNegative(total);
  }

  /** There is room for one more record by the count. */
  ghost predicate Fits(b: Body, readable: set<string>, max: nat) {
    Counted(b, readable) < max
  }

  /** `shardHasCapacity`. */
  method HasCapacity(e: Engine, readable: set<string>, max: nat) returns (ok: bool)
    ensures ok <==> Fits(e.Overlay(), readable, max)
  {
    var count := LocalMemoryCountFast(e, readable);
    return count + 1 <= max;
  }

  /** Room by the count is room, and the other way round where the count is exact. */
  lemma FitsIsRoomy(b: Body, readable: set<string>, max: nat)
    requires Sound(b)
    ensures Fits(b, readable, max) ==> Roomy(b, max)
    ensures NewIsUnstored(b) && b.deletedIds <= readable ==> (Fits(b, readable, max) <==> Roomy(b, max))
  {
    CountedIsLive(b, readable);
  }

  /** The first of some paths in order. */
  ghost predicate First(paths: set<string>, path: string) {
    path in paths && forall other :: other in paths ==> other == path || StringLess(path, other)
  }

  lemma FirstListed(all: seq<string>, i: nat, paths: set<string>)
    requires Sorted(all) && paths <= Elems(all) && i < |all|
    requires Elems(all[..i]) !! paths && all[i] in paths
    ensures First(paths, all[i])
  {
    forall k | 0 <= k < i ensures all[k] !in paths {
      assert all[..i][k] in Elems(all[..i]);
    }
    forall other | other in paths ensures other == all[i] || StringLess(all[i], other) {
      var k :| 0 <= k < |all| && all[k] == other;
    }
  }

  lemma InsertGrowsByOne(b: Body, m: Memory)
    ensures LiveIds(AddRuntime(b, m)) <= LiveIds(b) + {m.id}
    ensures |LiveIds(AddRuntime(b, m))| <= |LiveIds(b)| + 1
  {
    SubsetSize(LiveIds(AddRuntime(b, m)), LiveIds(b) + {m.id});
  }

  ghost predicate Within(b: Body, max: nat) {
    Sound(b) && |LiveIds(b)| <= max
  }

  ghost predicate Roomy(b: Body, max: nat) {
    |LiveIds(b)| + 1 <= max
  }

  /** The lookup before an insert missed, and no earlier insert hides behind a tombstone. */
  predicate Free(b: Body, id: string) {
    Live(b, id).None? && id !in b.cache
  }

  lemma PlacedWithin(b: Body, m: Memory, max: nat)
    requires Sound(b) && Roomy(b, max) && Free(b, m.id)
    ensures Within(AddRuntime(b, m), max)
    ensures Live(AddRuntime(b, m), m.id) == if m.id in b.deletedIds then None else Some(m)
  {
    AddRuntimeSound(b, m);
    InsertGrowsByOne(b, m);
  }

  method InsertInto(target: Engine, ghost all: set<Engine>, m: Memory, ghost max: nat)
    requires target in all && forall e :: e in all ==> Sound(e.Overlay())
    requires Roomy(target.Overlay(), max) && Free(target.Overlay(), m.id)
    modifies target
    ensures Placed(old(target.Overlay()), target.Overlay(), m, max)
    ensures forall e :: e in all ==> Sound(e.Overlay())
    ensures forall e :: e in all && e != target ==> e.Overlay() == old(e.Overlay())
  {
    AddRuntimeSound(target.Overlay(), m);
    PlacedWithin(target.Overlay(), m, max);
    target.AddRuntimeMemory(m);
  }

  /** The primary body with its mounted shards. */
  class ShardedFabric {
    const primary: Engine
    const spaces: map<string, Engine>
    var writeSpace: string
    const max: nat

    ghost function Bodies(): set<Engine> {
      {primary} + spaces.Values
    }

    ghost predicate AllSound()
      reads Bodies()
    {
      forall e :: e in Bodies() ==> Sound(e.Overlay())
    }

    /** Every body is within the shard maximum. */
    ghost predicate Bounded()
      reads Bodies()
    {
      forall e :: e in Bodies() ==> Within(e.Overlay(), max)
    }

    /** The mounted shards that have room by the count. */
    ghost function WithRoom(readable: set<string>): set<string>
      reads spaces.Values
    {
      set path | path in spaces && Fits(spaces[path].Overlay(), readable, max)
    }

    constructor (primary: Engine, spaces: map<string, Engine>, writeSpace: string, max: nat)
      ensures this.primary == primary && this.spaces == spaces && this.writeSpace == writeSpace && this.max == max
    {
      this.primary, this.spaces, this.writeSpace, this.max := primary, spaces, writeSpace, max;
    }

    /** `mountedWritableShard`: the selected shard, else the primary, else the first mounted
        storage shard in path order, which is then selected; nothing only if none has room. */
    method MountedWritableShard(storage: set<string>, readable: set<string>, ghost room: set<string>) returns (target: Engine?)
      requires room == WithRoom(readable)
      modifies this`writeSpace
      ensures if old(writeSpace) in room * storage then SelectedIs(target, old(writeSpace))
              else if Fits(primary.Overlay(), readable, max) then target == primary && writeSpace == old(writeSpace)
              else if room * storage == {} then target == null && writeSpace == old(writeSpace)
              else First(room * storage, writeSpace) && SelectedIs(target, writeSpace)
      ensures target == null <==> !Fits(primary.Overlay(), readable, max) && room * storage == {}
      ensures target != null ==> target in Bodies() && Fits(target.Overlay(), readable, max)
    {
      if writeSpace in spaces && writeSpace in storage {
        var fits := HasCapacity(spaces[writeSpace], readable, max);
        if fits {
          return spaces[writeSpace];
        }
      }
      var fits := HasCapacity(primary, readable, max);
      if fits {
        return primary;
      }
      var found, path := FirstWithRoom(storage, readable, room);
      if !found {
        return null;
      }
      writeSpace := path;
      return spaces[path];
    }

    ghost predicate SelectedIs(target: Engine?, path: string)
      reads this`writeSpace
    {
      path in spaces && target == spaces[path] && writeSpace == path
    }

    /** The search in path order. */
    method FirstWithRoom(storage: set<string>, readable: set<string>, ghost room: set<string>) returns (found: bool, path: string)
      requires room == WithRoom(readable)
      ensures if found then First(room * storage, path) && path in spaces else room * storage == {}
    {
      var paths := SortIds(spaces.Keys);
      for i := 0 to |paths|
        invariant Elems(paths[..i]) !! room * storage
      {
        ElemsNext(paths, i);
        assert paths[i] in Elems(paths);
        if paths[i] in storage {
          var fits := HasCapacity(spaces[paths[i]], readable, max);
          if fits {
            FirstListed(paths, i, room * storage);
            return true, paths[i];
          }
        }
      }
      assert paths[..|paths|] == paths;
      return false, "";
    }

    /** `placeRuntimeMemory` under the placement mutex: no placement takes a body over the
        maximum, no body but the chosen one changes, and one is chosen unless none has room. */
    method PlaceRuntimeMemory(m: Memory, storage: set<string>, readable: set<string>, ghost all: set<Engine>)
      returns (target: Engine?)
      requires all == Bodies() && AllSound() && forall e :: e in all ==> Free(e.Overlay(), m.id)
      modifies this`writeSpace, all
      ensures AllSound()
      ensures target == null <==> !Fits(old(primary.Overlay()), readable, max) && old(WithRoom(readable)) * storage == {}
      ensures target != null ==> target in all && Placed(old(target.Overlay()), target.Overlay(), m, max)
      ensures forall e :: e in all && e != target ==> e.Overlay() == old(e.Overlay())
      ensures old(Bounded()) ==> Bounded()
    {
      ghost var room := WithRoom(readable);
      target := MountedWritableShard(storage, readable, room);
      forall e | e in all ensures Sound(e.Overlay()) && Free(e.Overlay(), m.id) {
        assert e.Overlay() == old(e.Overlay());
      }
      if target != null {
        FitsIsRoomy(target.Overlay(), readable, max);
        InsertInto(target, all, m, max);
      }
      if old(Bounded()) {
        forall e | e in all ensures Within(e.Overlay(), max) {
          assert old(Within(e.Overlay(), max));
          assert e != target ==> e.Overlay() == old(e.Overlay());
        }
      }
    }
  }

  /** The record was added to a body that had room for it. */
  ghost predicate Placed(before: Body, after: Body, m: Memory, max: nat) {
    && Within(after, max)
    && Live(after, m.id) == (if m.id in before.deletedIds then None else Some(m))
    && forall x :: x != m.id ==> Live(after, x) == Live(before, x)
  }
}
