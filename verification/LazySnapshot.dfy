/** The read-set of one speculative run: baselines are recorded at first read and never
    rewritten, together with the body that owned the record then. */
module LazySnapshots {
  import opened Records
  import opened Engines
  import S = Serializability

  datatype Recording = Recorded | DuplicateIdentity | LimitExceeded

  class LazySnapshot {
    var base: map<string, Memory>
    var cache: map<string, Memory>
    var deleted: set<string>
    var owners: map<string, Engine>
    const max: nat

    /** Working copies have baselines, baselines have owners, and the working set is within
        its limit (none if zero). */
    ghost predicate Valid()
      reads this
    {
      cache.Keys <= base.Keys <= owners.Keys && (max > 0 ==> |base| <= max)
    }

    /** What a step of the run may not do to what was read before. */
    twostate predicate Frozen()
      reads this
    {
      forall id :: id in old(base) && id in old(owners) ==>
        id in base && base[id] == old(base)[id] && id in owners && owners[id] == old(owners)[id]
    }

    /** `snapshotForSpeculationLazy`: copies of the pending records and the tombstones of the
        origin, unless they alone exceed the limit. */
    constructor (pending: map<string, Memory>, tombstones: set<string>, origin: Engine, max: nat)
      requires max > 0 ==> |pending| <= max
      ensures Valid() && base == pending && cache == pending && deleted == tombstones && this.max == max
      ensures owners.Keys == pending.Keys && forall id :: id in owners ==> owners[id] == origin
    {
      base, cache, deleted, this.max := pending, pending, tombstones, max;
      owners := map id | id in pending :: origin;
    }

    /** `recordSpeculativeBaselineOwned`: the first version read stays the baseline. */
    method RecordBaseline(id: string, m: Memory, owner: Engine) returns (r: Recording)
      requires Valid()
      modifies this`base, this`owners
      ensures Valid() && Frozen()
      ensures r.LimitExceeded? <==> id !in old(base) && max > 0 && |old(base)| >= max
      ensures r.DuplicateIdentity? <==> !r.LimitExceeded? && id in old(owners) && old(owners)[id] != owner
      ensures r.Recorded? ==> owners == old(owners)[id := owner] && base == if id in old(base) then old(base) else old(base)[id := m]
      ensures !r.Recorded? ==> base == old(base) && owners == old(owners)
    {
      if id in base {
        return if owners[id] != owner then DuplicateIdentity else Recorded;
      }
      if max > 0 && |base| >= max {
        return LimitExceeded;
      }
      if id in owners && owners[id] != owner {
        return DuplicateIdentity;
      }
      base := base[id := m];
      owners := owners[id := owner];
      return Recorded;
    }

    /** `recordSpeculativeOwnerHints` for one id: a hint may move only while the id has no
        baseline. */
    method RecordHint(id: string, owner: Engine) returns (r: Recording)
      requires Valid()
      modifies this`owners
      ensures Valid() && Frozen() && base == old(base)
      ensures r == if id in old(base) && old(owners)[id] != owner then DuplicateIdentity else Recorded
      ensures owners == if r.Recorded? then old(owners)[id := owner] else old(owners)
    {
      if id in owners && owners[id] != owner && id in base {
        return DuplicateIdentity;
      }
      owners := owners[id := owner];
      return Recorded;
    }

    /** `clearSpeculativeOwnerHint`: forgets the hint of an id without a baseline, if it is the
        expected one or none is expected, and nothing else. */
    method ClearHint(id: string, expected: Engine?)
      requires Valid()
      modifies this`owners
      ensures Valid() && Frozen() && base == old(base)
      ensures owners == if id != "" && id !in base && id in old(owners) && (expected == null || old(owners)[id] == expected)
                        then old(owners) - {id} else old(owners)
    {
      if id == "" || id in base {
        return;
      }
      if expected == null || (id in owners && owners[id] == expected) {
        owners := owners - {id};
      }
    }

    /** Paging a record in, as the run sees it: the private snapshot takes the lazy step of
        the transaction model, or the run is refused. A record with a baseline whose working
        copy was dropped is read again and keeps its baseline. */
    method PageIn(id: string, m: Memory, owner: Engine, ghost fabric: S.Fabric, ghost s: S.Private) returns (r: Recording)
      requires Valid() && id in fabric && fabric[id] == m
      requires s.base == base && s.cache == cache && s.deleted == deleted
      modifies this
      ensures Valid() && Frozen()
      ensures r.Recorded? ==> cache == S.PageIn(s, fabric, id).cache && deleted == S.PageIn(s, fabric, id).deleted
      ensures r.Recorded? ==> base == if id in old(base) then old(base) else S.PageIn(s, fabric, id).base
      ensures !r.Recorded? ==> base == old(base) && cache == old(cache) && deleted == old(deleted)
      ensures r.Recorded? <==>
                || id in old(deleted) || id in old(cache)
                || ((id in old(owners) ==> old(owners)[id] == owner) && (id in old(base) || max == 0 || |old(base)| < max))
    {
      if id in deleted || id in cache {
        return Recorded;
      }
      r := RecordBaseline(id, m, owner);
      if r.Recorded? {
        cache := cache[id := m];
      }
    }
  }
}
