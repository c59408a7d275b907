/** Fabric-wide activation from the persisted feature indexes with each body's live overlay,
    and the full scan that it must agree with. */
module Activation {
  import opened Strings
  import opened Records
  import opened Bodies
  import opened Features
  import S = StoreIndex

  /** A mounted body with the image its Store was opened from, of either kind. */
  datatype Mounted = Mounted(body: Body, image: S.Image, kind: S.Kind)

  datatype Candidate = Candidate(id: string, hits: nat)

  datatype Answer = Answer(candidates: seq<Candidate>, count: nat)

  /** Either an answer, or the refusal of an id that two bodies hold. */
  datatype Outcome<T> = Duplicate | Ok(value: T)

  // ---- What is asked for ---------------------------------------------------------------

  /** The live records of one body that have a feature. */
  ghost function WithFeature(b: Body, f: string): set<string> {
    set id | id in b.store.Keys + b.cache.Keys && Live(b, id).Some? && f in FeaturesOf(Live(b, id).value)
  }

  /** No id is live in two bodies. */
  ghost predicate UniqueOwners(fabric: seq<Mounted>) {
    Apart(Livings(fabric))
  }

  ghost predicate Mountable(c: S.Codec, fabric: seq<Mounted>) {
    S.ValidCodec(c) && forall i {:trigger Healthy(c, fabric[i])} :: 0 <= i < |fabric| ==> Healthy(c, fabric[i])
  }

  ghost predicate Healthy(c: S.Codec, x: Mounted) {
    Sound(x.body) && "" !in LiveIds(x.body) && exists ms :: Backs(c, x, ms)
  }

  /** The image holds exactly the Store's records. */
  ghost predicate Backs(c: S.Codec, x: Mounted, ms: seq<Memory>) {
    && S.DistinctIds(ms)
    && S.Holds(c, x.kind, ms, x.image)
    && S.Mirrors(ms, x.body.store)
  }

  /** The live records of the whole Fabric. */
  ghost predicate IsView(fabric: seq<Mounted>, view: map<string, Memory>) {
    && (forall id :: id in view <==> exists i :: 0 <= i < |fabric| && id in LiveIds(fabric[i].body))
    && (forall i, id :: 0 <= i < |fabric| && id in LiveIds(fabric[i].body) ==>
          id in view && Live(fabric[i].body, id) == Some(view[id]))
  }

  /** Which records are reported under which feature of a query. */
  type Reports = map<string, set<string>>

  /** The features a record is reported under. */
  ghost function Matching(reports: Reports, id: string): set<string> {
    set f | f in reports && id in reports[f]
  }

  /** The hit counts of what is reported. */
  ghost predicate Counts(hit: map<string, nat>, reports: Reports) {
    forall id :: CountsAt(hit, reports, id)
  }

  ghost predicate CountsAt(hit: map<string, nat>, reports: Reports, id: string) {
    (id in hit <==> Matching(reports, id) != {}) && (id in hit ==> hit[id] == |Matching(reports, id)|)
  }

  /** A cap of zero is none. */
  function PageSize(cap: nat, count: nat): nat {
    if 0 < cap < count then cap else count
  }

  /** The page of the sorted ids, each with its count, and the size of the whole set. */
  ghost predicate IsPage(hit: map<string, nat>, cap: nat, ids: seq<string>, r: Answer) {
    && Sorted(ids) && Elems(ids) == hit.Keys
    && r.count == |ids| && |r.candidates| == PageSize(cap, |ids|)
    && forall k :: 0 <= k < |r.candidates| ==> ids[k] in hit && r.candidates[k] == Candidate(ids[k], hit[ids[k]])
  }

  /** The answer that follows from what is reported: all records that are, with the number of
      their features. */
  ghost predicate IsAnswer(reports: Reports, cap: nat, r: Answer) {
    exists hit, ids :: Counts(hit, reports) && IsPage(hit, cap, ids, r)
  }

  // ---- What a query means --------------------------------------------------------------

  /** The page for a trimmed query over the live records: the ids of the records that answer
      it, sorted and cut at the cap, each with the number of its hits, and how many answer. */
  ghost predicate PagesHits(view: map<string, Memory>, t: string, cap: nat, ids: seq<string>, r: Answer) {
    && Sorted(ids) && (forall id :: id in ids <==> id in view && HitsOf(view[id], t) > 0)
    && r.count == |ids| && |r.candidates| == (if 0 < cap < |ids| then cap else |ids|)
    && forall k :: 0 <= k < |r.candidates| ==> ids[k] in view && r.candidates[k] == Candidate(ids[k], HitsOf(view[ids[k]], t))
  }

  ghost predicate IsScan(view: map<string, Memory>, t: string, cap: nat, r: Answer) {
    exists ids :: PagesHits(view, t, cap, ids, r)
  }

  lemma MatchingIsHits(fabric: seq<Mounted>, view: map<string, Memory>, q: string, id: string)
    requires IsView(fabric, view)
    ensures |Matching(FabricReports(fabric, QueryFeatures(q)), id)| == if id in view then HitsOf(view[id], TrimSpace(q)) else 0
  {
    MatchingIsMet(fabric, view, QueryFeatures(q), id);
    if id in view {
      QueryHits(view[id], q);
    }
  }

  /** What the live records are reported under follows from what the query means. */
  lemma ScanIsHits(fabric: seq<Mounted>, view: map<string, Memory>, q: string, cap: nat, r: Answer)
    requires IsView(fabric, view) && IsAnswer(FabricReports(fabric, QueryFeatures(q)), cap, r)
    ensures IsScan(view, TrimSpace(q), cap, r)
  {
    var t, reports := TrimSpace(q), FabricReports(fabric, QueryFeatures(q));
    var hit, ids :| Counts(hit, reports) && IsPage(hit, cap, ids, r);
    forall id
      ensures id in hit <==> id in view && HitsOf(view[id], t) > 0
      ensures id in hit ==> hit[id] == HitsOf(view[id], t)
    {
      assert CountsAt(hit, reports, id);
      MatchingIsHits(fabric, view, q, id);
    }
    assert forall id :: id in ids <==> id in Elems(ids);
    assert PagesHits(view, t, cap, ids, r);
  }

  /** If the page holds the answer whole, the candidates are the live records that answer. */
  lemma CandidateIff(view: map<string, Memory>, t: string, cap: nat, r: Answer, id: string)
    requires IsScan(view, t, cap, r) && cap >= r.count
    ensures (exists k :: 0 <= k < |r.candidates| && r.candidates[k].id == id) <==> id in view && HitsOf(view[id], t) > 0
  {
    var ids :| PagesHits(view, t, cap, ids, r);
    if id in ids {
      var k :| 0 <= k < |ids| && ids[k] == id;
      assert r.candidates[k].id == id;
    }
  }

  /** Every record is reported under as many features in both. */
  ghost predicate SameCounts(a: Reports, b: Reports) {
    forall id :: |Matching(a, id)| == |Matching(b, id)|
  }

  lemma CountsUnique(hit: map<string, nat>, more: map<string, nat>, a: Reports, b: Reports)
    requires Counts(hit, a) && Counts(more, b)
    ensures SameCounts(a, b) <==> hit == more
  {
    forall id ensures |Matching(a, id)| == |Matching(b, id)| <==> Lookup(hit, id) == Lookup(more, id) {
      assert CountsAt(hit, a, id) && CountsAt(more, b, id);
    }
    if hit == more {
      forall id ensures |Matching(a, id)| == |Matching(b, id)| {
        assert Lookup(hit, id) == Lookup(more, id);
      }
    }
    if SameCounts(a, b) {
      forall id ensures Lookup(hit, id) == Lookup(more, id) {
        assert |Matching(a, id)| == |Matching(b, id)|;
      }
      MapsEqual(hit, more);
    }
  }

  lemma MapsEqual(a: map<string, nat>, b: map<string, nat>)
    requires forall id :: Lookup(a, id) == Lookup(b, id)
    ensures a == b
  {
    forall id ensures id in a <==> id in b {
      assert Lookup(a, id) == Lookup(b, id);
    }
    forall id | id in a ensures a[id] == b[id] {
      assert Lookup(a, id) == Lookup(b, id);
    }
  }

  /** The answer depends on the counts alone, and a page that holds them all shows them. */
  lemma AnswersAgreeIff(a: Reports, b: Reports, cap: nat, x: Answer, y: Answer)
    requires IsAnswer(a, cap, x) && IsAnswer(b, cap, y)
    ensures SameCounts(a, b) ==> x == y
    ensures cap >= x.count && cap >= y.count ==> (x == y <==> SameCounts(a, b))
  {
    var h, p :| Counts(h, a) && IsPage(h, cap, p, x);
    var g, q :| Counts(g, b) && IsPage(g, cap, q, y);
    CountsUnique(h, g, a, b);
    if h == g {
      SortedUnique(p, q);
    }
    if x == y && cap >= x.count {
      FullPage(h, g, cap, p, q, x);
    }
  }

  lemma FullPage(h: map<string, nat>, g: map<string, nat>, cap: nat, p: seq<string>, q: seq<string>, r: Answer)
    requires IsPage(h, cap, p, r) && IsPage(g, cap, q, r) && cap >= r.count
    ensures h == g
  {
    assert p == q;
    forall id | id in h ensures h[id] == g[id] {
      assert id in Elems(p);
      var k :| 0 <= k < |p| && p[k] == id;
      assert r.candidates[k] == Candidate(id, h[id]);
    }
  }

  // ---- One body ------------------------------------------------------------------------

  /** The index of a body answers for a feature as a scan would, or is not used. */
  ghost predicate IndexExact(c: S.Codec, x: Mounted, f: string) {
    S.IndexFits(x.kind, x.body.store, Pending(x.body), S.ProbeAccepts(c, x.image, x.kind, x.body.store), f)
  }

  ghost predicate AllExact(c: S.Codec, fabric: seq<Mounted>, f: string) {
    forall i {:trigger IndexExact(c, fabric[i], f)} :: 0 <= i < |fabric| ==> IndexExact(c, fabric[i], f)
  }

  ghost predicate NoReservedTags(fabric: seq<Mounted>) {
    forall i :: 0 <= i < |fabric| ==> S.Unreserved(fabric[i].body.store)
  }

  /** A Fabric without authored tags under the reserved prefix is always answered exactly. */
  lemma UnreservedIsExact(c: S.Codec, fabric: seq<Mounted>, f: string)
    requires NoReservedTags(fabric)
    ensures AllExact(c, fabric, f)
  {
    forall i | 0 <= i < |fabric| ensures IndexExact(c, fabric[i], f) {
      var x := fabric[i];
      S.ProbeIsRight(c, x.image, x.kind, x.body.store, Pending(x.body), f);
    }
  }

  /** The overlay's records with a feature. */
  ghost function OverlayWith(b: Body, f: string): set<string> {
    set id | id in Pending(b) && id !in b.deletedIds && id in b.cache && f in FeaturesOf(b.cache[id])
  }

  /** Postings outside the overlay, then the overlay itself: exactly the live records. */
  lemma OverlayIsExact(b: Body, f: string)
    requires Sound(b)
    ensures (S.StoredWith(b.store, f) - Pending(b)) +
            OverlayWith(b, f) == WithFeature(b, f)
  {
    forall id
      ensures (id in S.StoredWith(b.store, f) && id !in Pending(b)) ||
              (id in Pending(b) && id !in b.deletedIds && id in b.cache && f in FeaturesOf(b.cache[id])) <==>
              id in WithFeature(b, f)
    {
      assert SliceSound(id, At(b, id));
      assert id in Pending(b) <==> IsPending(At(b, id));
      if id in b.cache && id in b.store && Structural(b.cache[id]) == Structural(b.store[id]) {
        SameFeatures(b.cache[id], b.store[id]);
      }
    }
  }

  lemma SameFeatures(m: Memory, n: Memory)
    requires Structural(m) == Structural(n)
    ensures FeaturesOf(m) == FeaturesOf(n)
  {
    assert m.id == n.id && m.tags == n.tags && m.triggers == n.triggers && m.state == n.state by {
      assert Structural(m).id == m.id && Structural(n).id == n.id;
      assert Structural(m).tags == m.tags && Structural(n).tags == n.tags;
      assert Structural(m).triggers == m.triggers && Structural(n).triggers == n.triggers;
      assert Structural(m).state == m.state && Structural(n).state == n.state;
    }
  }

  /** The persisted index where the probe finds one, else a scan of the stored records:
      the unshadowed records with the feature, exactly under `IndexExact`. */
  method StoredFeatureIds(c: S.Codec, x: Mounted, f: string) returns (ids: set<string>)
    requires S.ValidCodec(c) && Healthy(c, x)
    ensures ids == S.Answered(x.kind, x.body.store, S.ProbeAccepts(c, x.image, x.kind, x.body.store), f) - Pending(x.body)
    ensures ids == S.StoredWith(x.body.store, f) - Pending(x.body) <==> IndexExact(c, x, f)
  {
    ghost var ms :| Backs(c, x, ms);
    var indexed := S.HasPhysicalFeatureIndex(c, x.image, x.kind, ms, x.body.store);
    S.FeatureAnswerExactIff(x.kind, x.body.store, Pending(x.body), indexed, f);
    if indexed {
      S.TagPostings(x.kind, ms, x.body.store, S.PHYSICAL_PREFIX + f);
      var found := S.PhysicalFeatureIDs(c, x.image, x.kind, ms, f);
      ids := Unshadowed(found.value, x.body);
    } else {
      ids := ScanStored(c, x, ms, f);
    }
  }

  /** The listed ids that the overlay does not shadow. */
  method Unshadowed(listed: seq<string>, b: Body) returns (ids: set<string>)
    ensures ids == Elems(listed) - Pending(b)
  {
    ids := {};
    for k := 0 to |listed|
      invariant ids == Elems(listed[..k]) - Pending(b)
    {
      ElemsNext(listed, k);
      if listed[k] !in Pending(b) {
        ids := ids + {listed[k]};
      }
    }
    assert listed[..|listed|] == listed;
  }

  /** The scan of a body without the index: every stored id, record by record. */
  method ScanStored(c: S.Codec, x: Mounted, ghost ms: seq<Memory>, f: string) returns (ids: set<string>)
    requires S.ValidCodec(c) && Backs(c, x, ms)
    ensures ids == S.StoredWith(x.body.store, f) - Pending(x.body)
  {
    var all := S.AllIDs(c, x.image, x.kind, ms);
    var listed := all.value;
    var recs := ReadRecords(c, x, ms, listed);
    ids := Carrying(listed, recs, f, Pending(x.body), x.body.store);
    assert S.StoredWith(x.body.store, f) * Elems(listed) == S.StoredWith(x.body.store, f);
  }

  method ReadRecords(c: S.Codec, x: Mounted, ghost ms: seq<Memory>, listed: seq<string>) returns (recs: seq<Memory>)
    requires S.ValidCodec(c) && Backs(c, x, ms)
    requires forall k :: 0 <= k < |listed| ==> listed[k] in S.IdsOf(ms)
    ensures |recs| == |listed|
    ensures forall k :: 0 <= k < |listed| ==> listed[k] in x.body.store && recs[k] == x.body.store[listed[k]]
  {
    recs := [];
    for k := 0 to |listed|
      invariant |recs| == k
      invariant forall j :: 0 <= j < k ==> listed[j] in x.body.store && recs[j] == x.body.store[listed[j]]
    {
      var m := ReadStored(c, x, ms, listed[k]);
      recs := recs + [m];
    }
  }

  method ReadStored(c: S.Codec, x: Mounted, ghost ms: seq<Memory>, id: string) returns (m: Memory)
    requires S.ValidCodec(c) && Backs(c, x, ms) && id in S.IdsOf(ms)
    ensures id in x.body.store && m == x.body.store[id]
  {
    var r := S.GetID(c, x.image, x.kind, ms, id);
    assert r.Ok?;
    m := r.value;
  }

  /** The listed ids whose record has the feature, without those the overlay shadows. */
  method Carrying(listed: seq<string>, recs: seq<Memory>, f: string, shadowed: set<string>, ghost store: map<string, Memory>)
    returns (ids: set<string>)
    requires |recs| == |listed|
    requires forall k :: 0 <= k < |listed| ==> listed[k] in store && recs[k] == store[listed[k]]
    ensures ids == (S.StoredWith(store, f) * Elems(listed)) - shadowed
  {
    ghost var want := S.StoredWith(store, f);
    ids := {};
    for k := 0 to |listed|
      invariant ids == (want * Elems(listed[..k])) - shadowed
    {
      WantNext(want, listed, k);
      if listed[k] !in shadowed {
        var has := MemoryHasFeature(recs[k], f);
        if has {
          ids := ids + {listed[k]};
        }
      }
    }
    assert listed[..|listed|] == listed;
  }

  /** `memoryHasActivationFeature`. */
  method MemoryHasFeature(m: Memory, f: string) returns (has: bool)
    ensures has <==> f in FeaturesOf(m)
  {
    var fs := ActivationFeatures(m);
    assert f in fs <==> f in Elems(fs);
    return f in fs;
  }

  lemma WantNext(want: set<string>, listed: seq<string>, k: nat)
    requires k < |listed|
    ensures want * Elems(listed[..k + 1]) == (want * Elems(listed[..k])) + if listed[k] in want then {listed[k]} else {}
  {
    ElemsNext(listed, k);
  }

  method OverlayFeatureIds(b: Body, f: string) returns (ids: set<string>)
    ensures ids == OverlayWith(b, f)
  {
    ids := {};
    var todo := Pending(b);
    while todo != {}
      invariant todo <= Pending(b)
      invariant ids == set id | id in Pending(b) && id !in todo && id !in b.deletedIds && id in b.cache && f in FeaturesOf(b.cache[id])
      decreases todo
    {
      var id :| id in todo;
      todo := todo - {id};
      if id !in b.deletedIds && id in b.cache {
        var fs := ActivationFeatures(b.cache[id]);
        assert f in fs <==> f in FeaturesOf(b.cache[id]);
        if f in fs {
          ids := ids + {id};
        }
      }
    }
  }

  // ---- All bodies ----------------------------------------------------------------------

  ghost function Union(sets: seq<set<string>>): set<string> {
    set i, id | 0 <= i < |sets| && id in sets[i] :: id
  }

  ghost predicate Apart(sets: seq<set<string>>) {
    forall i, j :: 0 <= i < j < |sets| ==> sets[i] !! sets[j]
  }

  /** One more set: apart from the rest exactly if it misses their union. */
  lemma UnionNext(sets: seq<set<string>>, x: set<string>)
    ensures Union(sets + [x]) == Union(sets) + x
    ensures Apart(sets + [x]) <==> Apart(sets) && Union(sets) !! x
  {
    var more := sets + [x];
    forall id ensures id in Union(more) <==> id in Union(sets) || id in x {
      if i :| 0 <= i < |sets| && id in sets[i] {
        assert id in more[i];
      }
      if id in x {
        assert id in more[|sets|];
      }
    }
    if Apart(more) {
      forall i | 0 <= i < |sets| ensures sets[i] !! x {
        assert more[i] !! more[|sets|];
      }
      forall i, j | 0 <= i < j < |sets| ensures sets[i] !! sets[j] {
        assert more[i] !! more[j];
      }
    }
  }

  lemma PrefixNext(sets: seq<set<string>>, i: nat)
    requires i < |sets|
    ensures Union(sets[..i + 1]) == Union(sets[..i]) + sets[i]
    ensures Apart(sets[..i]) && Union(sets[..i]) * sets[i] == {} ==> Apart(sets[..i + 1])
    ensures Union(sets[..i]) * sets[i] != {} ==> !Apart(sets)
  {
    assert sets[..i + 1] == sets[..i] + [sets[i]];
    UnionNext(sets[..i], sets[i]);
    assert forall id :: id in Union(sets[..i]) && id in sets[i] ==> id in Union(sets[..i]) * sets[i];
    if id :| id in Union(sets[..i]) * sets[i] {
      var k :| 0 <= k < i && id in sets[..i][k];
      assert id in sets[k] && id in sets[i];
    }
  }

  /** What each body holds live, and what it holds live with a feature. */
  ghost function Livings(fabric: seq<Mounted>): (sets: seq<set<string>>)
    ensures |sets| == |fabric| && forall i :: 0 <= i < |fabric| ==> sets[i] == LiveIds(fabric[i].body)
  {
    seq(|fabric|, i requires 0 <= i < |fabric| => LiveIds(fabric[i].body))
  }

  ghost function Holdings(fabric: seq<Mounted>, f: string): (sets: seq<set<string>>)
    ensures |sets| == |fabric| && forall i :: 0 <= i < |fabric| ==> sets[i] == WithFeature(fabric[i].body, f)
  {
    seq(|fabric|, i requires 0 <= i < |fabric| => WithFeature(fabric[i].body, f))
  }

  ghost function FabricWith(fabric: seq<Mounted>, f: string): set<string> {
    Union(Holdings(fabric, f))
  }

  /** `addFabricOwner` for each id. */
  method AddOwners(seen: map<string, nat>, ids: set<string>, owner: nat) returns (r: Outcome<map<string, nat>>)
    requires "" !in ids && forall id :: id in seen ==> seen[id] < owner
    ensures r.Duplicate? <==> seen.Keys * ids != {}
    ensures r.Ok? ==> r.value.Keys == seen.Keys + ids && forall id :: id in r.value ==> r.value[id] <= owner
  {
    var out := seen;
    var todo := ids;
    while todo != {}
      invariant todo <= ids && seen.Keys * ids <= todo
      invariant out.Keys == seen.Keys + (ids - todo)
      invariant forall id :: id in out ==> out[id] == if id in seen then seen[id] else owner
      decreases todo
    {
      var id :| id in todo;
      if id in out && out[id] != owner {
        assert id in seen.Keys * ids;
        return Duplicate;
      }
      out := out[id := owner];
      todo := todo - {id};
    }
    return Ok(out);
  }

  /** What one body reports for a feature. */
  ghost function BodyAnswer(c: S.Codec, x: Mounted, f: string): set<string> {
    (S.Answered(x.kind, x.body.store, S.ProbeAccepts(c, x.image, x.kind, x.body.store), f) - Pending(x.body)) +
    OverlayWith(x.body, f)
  }

  /** Live records of its own, and those with the feature exactly under `IndexExact`. */
  lemma BodyAnswerFits(c: S.Codec, x: Mounted, f: string)
    requires Healthy(c, x)
    ensures BodyAnswer(c, x, f) <= LiveIds(x.body) && "" !in BodyAnswer(c, x, f)
    ensures BodyAnswer(c, x, f) == WithFeature(x.body, f) <==> IndexExact(c, x, f)
  {
    BodyAnswerIsLive(c, x, f);
    BodyAnswerExactIff(c, x, f);
  }

  lemma BodyAnswerIsLive(c: S.Codec, x: Mounted, f: string)
    ensures BodyAnswer(c, x, f) <= LiveIds(x.body)
  {
  }

  lemma BodyAnswerExactIff(c: S.Codec, x: Mounted, f: string)
    requires Sound(x.body)
    ensures BodyAnswer(c, x, f) == WithFeature(x.body, f) <==> IndexExact(c, x, f)
  {
    var b := x.body;
    var stored := S.Answered(x.kind, b.store, S.ProbeAccepts(c, x.image, x.kind, b.store), f) - Pending(b);
    S.FeatureAnswerExactIff(x.kind, b.store, Pending(b), S.ProbeAccepts(c, x.image, x.kind, b.store), f);
    OverlayIsExact(b, f);
    SplitSets(stored, S.StoredWith(b.store, f) - Pending(b), OverlayWith(b, f), Pending(b));
  }

  method BodyFeatureIds(c: S.Codec, x: Mounted, f: string) returns (ids: set<string>)
    requires S.ValidCodec(c) && Healthy(c, x)
    ensures ids == BodyAnswer(c, x, f)
  {
    var stored := StoredFeatureIds(c, x, f);
    var overlay := OverlayFeatureIds(x.body, f);
    ids := stored + overlay;
  }

  lemma SplitSets(a: set<string>, b: set<string>, more: set<string>, within: set<string>)
    requires a !! within && b !! within && more <= within
    ensures a + more == b + more <==> a == b
  {
    if a + more == b + more {
      forall x ensures x in a <==> x in b {
        assert x in a + more <==> x in b + more;
      }
    }
  }

  ghost function BodyAnswers(c: S.Codec, fabric: seq<Mounted>, f: string): (sets: seq<set<string>>)
    ensures |sets| == |fabric| && forall i :: 0 <= i < |fabric| ==> sets[i] == BodyAnswer(c, fabric[i], f)
  {
    seq(|fabric|, i requires 0 <= i < |fabric| => BodyAnswer(c, fabric[i], f))
  }

  ghost function FabricAnswer(c: S.Codec, fabric: seq<Mounted>, f: string): set<string> {
    Union(BodyAnswers(c, fabric, f))
  }

  ghost predicate AnsweredBy(c: S.Codec, x: Mounted, f: string, ids: set<string>) {
    ids == BodyAnswer(c, x, f)
  }

  method FeatureIdsAt(c: S.Codec, fabric: seq<Mounted>, i: nat, f: string) returns (ids: set<string>)
    requires Mountable(c, fabric) && i < |fabric|
    ensures AnsweredBy(c, fabric[i], f, ids)
  {
    assert Healthy(c, fabric[i]);
    ids := BodyFeatureIds(c, fabric[i], f);
  }

  method BodiesFeatureIds(c: S.Codec, fabric: seq<Mounted>, f: string) returns (sets: seq<set<string>>)
    requires Mountable(c, fabric)
    ensures |sets| == |fabric|
    ensures forall i {:trigger AnsweredBy(c, fabric[i], f, sets[i])} :: 0 <= i < |sets| ==> AnsweredBy(c, fabric[i], f, sets[i])
  {
    sets := [];
    for i := 0 to |fabric|
      invariant |sets| == i
      invariant forall k {:trigger AnsweredBy(c, fabric[k], f, sets[k])} :: 0 <= k < i ==> AnsweredBy(c, fabric[k], f, sets[k])
    {
      var ids := FeatureIdsAt(c, fabric, i, f);
      sets := sets + [ids];
    }
  }

  lemma AnsweredIsAnswers(c: S.Codec, fabric: seq<Mounted>, f: string, sets: seq<set<string>>)
    requires |sets| == |fabric|
    requires forall i {:trigger AnsweredBy(c, fabric[i], f, sets[i])} :: 0 <= i < |sets| ==> AnsweredBy(c, fabric[i], f, sets[i])
    ensures sets == BodyAnswers(c, fabric, f)
  {
    forall i | 0 <= i < |sets| ensures sets[i] == BodyAnswers(c, fabric, f)[i] {
      assert AnsweredBy(c, fabric[i], f, sets[i]);
    }
  }

  /** Bodies whose live records are apart report the Fabric's records with the feature exactly
      if each of them does. */
  lemma FabricAnswerExactIff(c: S.Codec, fabric: seq<Mounted>, f: string)
    requires Mountable(c, fabric)
    ensures forall i :: 0 <= i < |fabric| ==> "" !in BodyAnswers(c, fabric, f)[i]
    ensures AllExact(c, fabric, f) <==> BodyAnswers(c, fabric, f) == Holdings(fabric, f)
    ensures UniqueOwners(fabric) ==> Apart(BodyAnswers(c, fabric, f))
    ensures UniqueOwners(fabric) ==> (FabricAnswer(c, fabric, f) == FabricWith(fabric, f) <==> AllExact(c, fabric, f))
  {
    var sets := BodyAnswers(c, fabric, f);
    forall i | 0 <= i < |sets|
      ensures "" !in sets[i] && sets[i] <= LiveIds(fabric[i].body)
      ensures IndexExact(c, fabric[i], f) <==> sets[i] == Holdings(fabric, f)[i]
    {
      assert Healthy(c, fabric[i]);
      BodyAnswerFits(c, fabric[i], f);
    }
    if UniqueOwners(fabric) {
      PartsApart(fabric, sets);
      if Union(sets) == FabricWith(fabric, f) {
        forall i | 0 <= i < |sets| ensures sets[i] == Holdings(fabric, f)[i] {
          SamePart(fabric, sets, Holdings(fabric, f), i);
        }
      }
    }
  }

  ghost predicate PartsOf(fabric: seq<Mounted>, sets: seq<set<string>>) {
    |sets| == |fabric| && forall i :: 0 <= i < |sets| ==> sets[i] <= LiveIds(fabric[i].body)
  }

  lemma PartsApart(fabric: seq<Mounted>, sets: seq<set<string>>)
    requires UniqueOwners(fabric) && PartsOf(fabric, sets)
    ensures Apart(sets)
  {
    forall i, j | 0 <= i < j < |sets| ensures sets[i] !! sets[j] {
      assert Livings(fabric)[i] !! Livings(fabric)[j];
    }
  }

  /** Equal unions of parts of disjoint sets are equal part by part. */
  lemma SamePart(fabric: seq<Mounted>, a: seq<set<string>>, b: seq<set<string>>, i: nat)
    requires UniqueOwners(fabric) && PartsOf(fabric, a) && |b| == |a| && Union(a) == Union(b) && i < |a|
    requires forall k, id :: 0 <= k < |b| && id in b[k] ==> id in LiveIds(fabric[k].body)
    ensures a[i] == b[i]
  {
    forall id ensures id in a[i] <==> id in b[i] {
      if id in a[i] {
        assert id in Union(a);
        var k :| 0 <= k < |b| && id in b[k];
        OwnerOf(fabric, i, k, id);
      }
      if id in b[i] {
        assert id in Union(b);
        var k :| 0 <= k < |a| && id in a[k];
        OwnerOf(fabric, i, k, id);
      }
    }
  }

  lemma OwnerOf(fabric: seq<Mounted>, i: nat, k: nat, id: string)
    requires UniqueOwners(fabric) && i < |fabric| && k < |fabric|
    requires id in LiveIds(fabric[i].body) && id in LiveIds(fabric[k].body)
    ensures i == k
  {
    var sets := Livings(fabric);
    assert id in sets[i] && id in sets[k];
  }

  /** `physicalFeatureIDsAcrossEngines`: what the bodies report, refused exactly if two of them
      report one id. */
  method PhysicalFeatureIds(c: S.Codec, fabric: seq<Mounted>, f: string) returns (r: Outcome<seq<string>>)
    requires Mountable(c, fabric)
    ensures r.Ok? <==> Apart(BodyAnswers(c, fabric, f))
    ensures r.Ok? ==> Sorted(r.value) && Elems(r.value) == FabricAnswer(c, fabric, f)
    ensures r.Ok? && AllExact(c, fabric, f) ==> Elems(r.value) == FabricWith(fabric, f)
    ensures AllExact(c, fabric, f) ==> (r.Ok? <==> Apart(Holdings(fabric, f)))
    ensures UniqueOwners(fabric) ==> r.Ok? && (Elems(r.value) == FabricWith(fabric, f) <==> AllExact(c, fabric, f))
  {
    var sets := BodiesFeatureIds(c, fabric, f);
    AnsweredIsAnswers(c, fabric, f, sets);
    FabricAnswerExactIff(c, fabric, f);
    r := MergeOwned(sets);
  }

  /** Merges what the bodies hold, refusing an id that two of them do. */
  method MergeOwned(sets: seq<set<string>>) returns (r: Outcome<seq<string>>)
    requires forall i :: 0 <= i < |sets| ==> "" !in sets[i]
    ensures r.Ok? ==> Sorted(r.value) && Elems(r.value) == Union(sets)
    ensures r.Ok? <==> Apart(sets)
  {
    var seen: map<string, nat> := map[];
    for i := 0 to |sets|
      invariant seen.Keys == Union(sets[..i]) && (forall id :: id in seen ==> seen[id] < i) && Apart(sets[..i])
    {
      PrefixNext(sets, i);
      var merged := AddOwners(seen, sets[i], i);
      if merged.Duplicate? {
        return Duplicate;
      }
      seen := merged.value;
    }
    assert sets[..|sets|] == sets;
    var ids := SortIds(seen.Keys);
    return Ok(ids);
  }

  lemma WithIsLive(b: Body, f: string, id: string)
    ensures id in WithFeature(b, f) ==> id in LiveIds(b)
  {
  }

  lemma FabricWithIsView(fabric: seq<Mounted>, view: map<string, Memory>, f: string)
    requires IsView(fabric, view)
    ensures forall id :: id in FabricWith(fabric, f) <==> id in view && f in FeaturesOf(view[id])
  {
    forall id ensures id in FabricWith(fabric, f) <==> id in view && f in FeaturesOf(view[id]) {
      if id in FabricWith(fabric, f) {
        var i :| 0 <= i < |fabric| && id in Holdings(fabric, f)[i];
        WithIsLive(fabric[i].body, f, id);
      }
      if id in view && f in FeaturesOf(view[id]) {
        var i :| 0 <= i < |fabric| && id in LiveIds(fabric[i].body);
        assert id in Holdings(fabric, f)[i];
      }
    }
  }

  // ---- Activation ----------------------------------------------------------------------

  function CountOf(hit: map<string, nat>, id: string): nat {
    if id in hit then hit[id] else 0
  }

  lemma HitsNext(hit: map<string, nat>, out: map<string, nat>, done: set<string>, x: string)
    requires x !in done && out.Keys == hit.Keys + done
    requires forall id :: CountOf(out, id) == CountOf(hit, id) + OneIf(id in done)
    ensures var more := out[x := CountOf(out, x) + 1];
            more.Keys == hit.Keys + (done + {x}) &&
            forall id :: CountOf(more, id) == CountOf(hit, id) + OneIf(id in done + {x})
  {
    var more := out[x := CountOf(out, x) + 1];
    forall id ensures CountOf(more, id) == CountOf(hit, id) + OneIf(id in done + {x}) {
      assert CountOf(out, id) == CountOf(hit, id) + OneIf(id in done);
    }
  }

  method AddHits(hit: map<string, nat>, ids: seq<string>) returns (out: map<string, nat>)
    requires Sorted(ids)
    ensures out.Keys == hit.Keys + Elems(ids)
    ensures forall id :: CountOf(out, id) == CountOf(hit, id) + OneIf(id in Elems(ids))
  {
    SortedLength(ids);
    out := hit;
    ghost var done: set<string> := {};
    for i := 0 to |ids|
      invariant done == Elems(ids[..i]) && out.Keys == hit.Keys + done
      invariant forall id :: CountOf(out, id) == CountOf(hit, id) + OneIf(id in done)
    {
      NextElem(ids, i);
      HitsNext(hit, out, done, ids[i]);
      out := out[ids[i] := CountOf(out, ids[i]) + 1];
      done := done + {ids[i]};
    }
    assert ids[..|ids|] == ids;
  }

  lemma NextElem(ids: seq<string>, i: nat)
    requires i < |ids| && forall j, k :: 0 <= j < k < |ids| ==> ids[j] != ids[k]
    ensures Elems(ids[..i + 1]) == Elems(ids[..i]) + {ids[i]} && ids[i] !in Elems(ids[..i])
  {
  }

  lemma MatchingAdd(reports: Reports, f: string, ids: set<string>, id: string)
    requires f !in reports
    ensures |Matching(reports[f := ids], id)| == |Matching(reports, id)| + OneIf(id in ids)
  {
    assert Matching(reports[f := ids], id) == Matching(reports, id) + if id in ids then {f} else {};
  }

  /** One more feature of the query. */
  lemma CountsAdd(hit: map<string, nat>, out: map<string, nat>, reports: Reports, f: string, ids: set<string>)
    requires Counts(hit, reports) && f !in reports
    requires out.Keys == hit.Keys + ids
    requires forall id :: CountOf(out, id) == CountOf(hit, id) + OneIf(id in ids)
    ensures Counts(out, reports[f := ids])
  {
    var more := reports[f := ids];
    forall id ensures CountsAt(out, more, id) {
      assert CountsAt(hit, reports, id);
      assert CountOf(out, id) == CountOf(hit, id) + OneIf(id in ids);
      MatchingAdd(reports, f, ids, id);
    }
  }

  method Candidates(page: seq<string>, hit: map<string, nat>) returns (out: seq<Candidate>)
    requires forall k :: 0 <= k < |page| ==> page[k] in hit
    ensures |out| == |page| && forall k :: 0 <= k < |page| ==> out[k] == Candidate(page[k], hit[page[k]])
  {
    out := [];
    for k := 0 to |page|
      invariant |out| == k && forall j :: 0 <= j < k ==> out[j] == Candidate(page[j], hit[page[j]])
    {
      out := out + [Candidate(page[k], hit[page[k]])];
    }
  }

  /** The sorted page with the count of the whole set. */
  method Paged(hit: map<string, nat>, cap: nat, ghost reports: Reports) returns (r: Answer)
    requires Counts(hit, reports)
    ensures IsAnswer(reports, cap, r) && r.count == |hit|
  {
    var ids := SortIds(hit.Keys);
    SortedLength(ids);
    var page := ids[..PageSize(cap, |ids|)];
    forall k | 0 <= k < |page| ensures page[k] in hit {
      assert ids[k] in Elems(ids);
    }
    var out := Candidates(page, hit);
    r := Answer(out, |ids|);
    assert IsPage(hit, cap, ids, r);
  }

  function CapOf(pageCap: int, defaultCap: nat): nat {
    if pageCap <= 0 then defaultCap else pageCap
  }

  /** What the indexes report for the features of a query, and what the Fabric holds. */
  ghost function IndexReports(c: S.Codec, fabric: seq<Mounted>, qf: seq<string>): Reports {
    map f | f in qf :: FabricAnswer(c, fabric, f)
  }

  ghost function FabricReports(fabric: seq<Mounted>, qf: seq<string>): Reports {
    map f | f in qf :: FabricWith(fabric, f)
  }

  lemma IndexReportsNext(c: S.Codec, fabric: seq<Mounted>, qf: seq<string>, i: nat)
    requires i < |qf|
    ensures IndexReports(c, fabric, qf[..i + 1]) == IndexReports(c, fabric, qf[..i])[qf[i] := FabricAnswer(c, fabric, qf[i])]
  {
    assert qf[..i + 1] == qf[..i] + [qf[i]];
  }

  method AddFeature(c: S.Codec, fabric: seq<Mounted>, qf: seq<string>, i: nat, hit: map<string, nat>) returns (out: map<string, nat>)
    requires Mountable(c, fabric) && UniqueOwners(fabric) && i < |qf| && qf[i] !in qf[..i]
    requires Counts(hit, IndexReports(c, fabric, qf[..i]))
    ensures Counts(out, IndexReports(c, fabric, qf[..i + 1]))
  {
    var ids := PhysicalFeatureIds(c, fabric, qf[i]);
    out := AddHits(hit, ids.value);
    CountsAdd(hit, out, IndexReports(c, fabric, qf[..i]), qf[i], Elems(ids.value));
    IndexReportsNext(c, fabric, qf, i);
  }

  /** Persistent-mode `Activate`: feature by feature, from indexes and overlays. Without
      authored tags under the reserved prefix this is what the query means. */
  method Activate(c: S.Codec, fabric: seq<Mounted>, query: string, pageCap: int, defaultCap: nat, ghost view: map<string, Memory>)
    returns (r: Outcome<Answer>)
    requires Mountable(c, fabric) && UniqueOwners(fabric) && IsView(fabric, view)
    ensures r.Ok? && IsAnswer(IndexReports(c, fabric, QueryFeatures(query)), CapOf(pageCap, defaultCap), r.value)
    ensures NoReservedTags(fabric) ==> IsScan(view, TrimSpace(query), if pageCap <= 0 then defaultCap else pageCap, r.value)
  {
    var qf := QueryFeatures(query);
    var hit: map<string, nat> := map[];
    assert Counts(hit, IndexReports(c, fabric, qf[..0]));
    for i := 0 to |qf|
      invariant Counts(hit, IndexReports(c, fabric, qf[..i]))
    {
      hit := AddFeature(c, fabric, qf, i, hit);
    }
    assert qf[..|qf|] == qf;
    var page := Paged(hit, CapOf(pageCap, defaultCap), IndexReports(c, fabric, qf));
    if NoReservedTags(fabric) {
      ExactIsScan(c, fabric, view, query, CapOf(pageCap, defaultCap), page);
    }
    return Ok(page);
  }

  // ---- The full scan -------------------------------------------------------------------

  /** The nodes of a corpus carry the features of the records they stand for. */
  ghost predicate NodesFit(corpus: map<string, seq<string>>, view: map<string, Memory>) {
    forall id :: id in corpus ==> id in view && Sorted(corpus[id]) && Elems(corpus[id]) == FeaturesOf(view[id])
  }

  lemma NodesFitAdd(corpus: map<string, seq<string>>, view: map<string, Memory>, id: string, features: seq<string>)
    requires NodesFit(corpus, view) && id in view && Sorted(features) && Elems(features) == FeaturesOf(view[id])
    ensures NodesFit(corpus[id := features], view)
  {
  }

  lemma LiveIff(b: Body, id: string)
    ensures id in b.store.Keys + b.cache.Keys ==> (id in LiveIds(b) <==> id !in b.deletedIds)
    ensures id in LiveIds(b) ==> id in b.store.Keys + b.cache.Keys
    ensures id in LiveIds(b) <==> Live(b, id).Some?
  {
  }

  /** One body of the scan; refused if another body already holds one of its ids. */
  method ScanBody(corpus: map<string, seq<string>>, b: Body, ghost view: map<string, Memory>)
    returns (r: Outcome<map<string, seq<string>>>)
    requires NodesFit(corpus, view) && forall id :: id in LiveIds(b) ==> id in view && Live(b, id) == Some(view[id])
    ensures r.Duplicate? <==> corpus.Keys * LiveIds(b) != {}
    ensures r.Ok? ==> r.value.Keys == corpus.Keys + LiveIds(b) && NodesFit(r.value, view)
  {
    var out := corpus;
    ghost var live := LiveIds(b);
    var todo := b.store.Keys + b.cache.Keys;
    while todo != {}
      invariant todo <= b.store.Keys + b.cache.Keys
      invariant forall x :: x in out <==> x in corpus || (x in live && x !in todo)
      invariant NodesFit(out, view)
      invariant forall x :: x in corpus && x in live ==> x in todo
      decreases todo
    {
      var id :| id in todo;
      LiveIff(b, id);
      if id !in b.deletedIds {
        if id in corpus {
          assert id in corpus.Keys * live;
          return Duplicate;
        }
        var features := ActivationFeatures(Live(b, id).value);
        NodesFitAdd(out, view, id, features);
        out := out[id := features];
      }
      todo := todo - {id};
    }
    return Ok(out);
  }

  /** `buildReferenceActivationCorpus`. */
  method BuildCorpus(fabric: seq<Mounted>, ghost view: map<string, Memory>) returns (r: Outcome<map<string, seq<string>>>)
    requires IsView(fabric, view)
    ensures r.Ok? ==> r.value.Keys == view.Keys && NodesFit(r.value, view)
    ensures r.Ok? <==> UniqueOwners(fabric)
  {
    var corpus: map<string, seq<string>> := map[];
    ghost var sets := Livings(fabric);
    for i := 0 to |fabric|
      invariant corpus.Keys == Union(sets[..i]) && NodesFit(corpus, view) && Apart(sets[..i])
    {
      PrefixNext(sets, i);
      var scanned := ScanBody(corpus, fabric[i].body, view);
      if scanned.Duplicate? {
        return Duplicate;
      }
      corpus := scanned.value;
    }
    assert sets[..|fabric|] == sets;
    ViewIsUnion(fabric, view);
    return Ok(corpus);
  }

  lemma ViewIsUnion(fabric: seq<Mounted>, view: map<string, Memory>)
    requires IsView(fabric, view)
    ensures Union(Livings(fabric)) == view.Keys
  {
    forall id | id in view ensures id in Union(Livings(fabric)) {
      var i :| 0 <= i < |fabric| && id in LiveIds(fabric[i].body);
      assert id in Livings(fabric)[i];
    }
  }

  lemma MeetNext(qset: set<string>, a: set<string>, x: string)
    requires x !in a
    ensures qset * (a + {x}) == if x in qset then qset * a + {x} else qset * a
  {
  }

  /** Counts the features of one node that the query asks for. */
  method CountHits(features: seq<string>, qset: set<string>) returns (n: nat)
    requires Sorted(features)
    ensures n == |qset * Elems(features)|
  {
    SortedLength(features);
    n := 0;
    ghost var found: set<string> := {};
    for i := 0 to |features|
      invariant found == qset * Elems(features[..i]) && n == |found|
    {
      NextElem(features, i);
      MeetNext(qset, Elems(features[..i]), features[i]);
      if features[i] in qset {
        n := n + 1;
        found := found + {features[i]};
      }
    }
    assert features[..|features|] == features;
  }

  /** The features a live record of the Fabric is reported under are those of the query it has. */
  lemma MatchingIsMet(fabric: seq<Mounted>, view: map<string, Memory>, qf: seq<string>, id: string)
    requires IsView(fabric, view)
    ensures Matching(FabricReports(fabric, qf), id) == if id in view then Elems(qf) * FeaturesOf(view[id]) else {}
  {
    forall f | f in qf ensures id in FabricWith(fabric, f) <==> id in view && f in FeaturesOf(view[id]) {
      FabricWithIsView(fabric, view, f);
    }
  }

  /** A record is reported under the features of the query that it has. */
  ghost predicate Meets(reports: Reports, view: map<string, Memory>, qset: set<string>) {
    forall id :: Matching(reports, id) == if id in view then qset * FeaturesOf(view[id]) else {}
  }

  lemma CountsSet(hit: map<string, nat>, reports: Reports, id: string, n: nat)
    requires id !in hit && n == |Matching(reports, id)|
    ensures var out := if n > 0 then hit[id := n] else hit;
            CountsAt(out, reports, id) &&
            forall x :: x != id ==> (x in out <==> x in hit) && (CountsAt(hit, reports, x) ==> CountsAt(out, reports, x))
  {
    assert n == 0 <==> Matching(reports, id) == {};
  }

  method ScanHits(corpus: map<string, seq<string>>, qset: set<string>, ghost view: map<string, Memory>, ghost reports: Reports)
    returns (hit: map<string, nat>)
    requires NodesFit(corpus, view) && corpus.Keys == view.Keys && Meets(reports, view, qset)
    ensures Counts(hit, reports)
  {
    hit := map[];
    var todo := corpus.Keys;
    while todo != {}
      invariant todo <= corpus.Keys
      invariant forall id :: if id in todo then id !in hit else CountsAt(hit, reports, id)
      decreases todo
    {
      var id :| id in todo;
      var hits := CountHits(corpus[id], qset);
      assert hits == |Matching(reports, id)|;
      CountsSet(hit, reports, id, hits);
      if hits > 0 {
        hit := hit[id := hits];
      }
      todo := todo - {id};
    }
  }

  /** `referenceActivationFullScanCorpus`: node by node. */
  method ReferenceScan(corpus: map<string, seq<string>>, query: string, pageCap: nat, ghost fabric: seq<Mounted>, ghost view: map<string, Memory>)
    returns (r: Answer)
    requires IsView(fabric, view) && NodesFit(corpus, view) && corpus.Keys == view.Keys
    ensures IsAnswer(FabricReports(fabric, QueryFeatures(query)), pageCap, r)
    ensures IsScan(view, TrimSpace(query), pageCap, r)
  {
    var qf := QueryFeatures(query);
    var qset := set f | f in qf;
    assert qset == Elems(qf);
    ghost var reports := FabricReports(fabric, qf);
    forall id ensures Matching(reports, id) == if id in view then qset * FeaturesOf(view[id]) else {} {
      MatchingIsMet(fabric, view, qf, id);
    }
    var hit := ScanHits(corpus, qset, view, reports);
    r := Paged(hit, pageCap, reports);
    ScanIsHits(fabric, view, query, pageCap, r);
  }

  /** Every Fabric with unique ownership has a view. */
  lemma {:induction false} ViewOf(fabric: seq<Mounted>) returns (view: map<string, Memory>)
    requires UniqueOwners(fabric)
    ensures IsView(fabric, view)
  {
    if |fabric| == 0 {
      view := map[];
    } else {
      var n := |fabric| - 1;
      var init := fabric[..n];
      var rest := ViewOf(init);
      var b := fabric[n].body;
      view := rest + map id | id in LiveIds(b) :: Live(b, id).value;
      ViewNext(fabric, rest, view);
    }
  }

  lemma ViewNext(fabric: seq<Mounted>, rest: map<string, Memory>, view: map<string, Memory>)
    requires |fabric| > 0 && UniqueOwners(fabric) && IsView(fabric[..|fabric| - 1], rest)
    requires var b := fabric[|fabric| - 1].body; view == rest + map id | id in LiveIds(b) :: Live(b, id).value
    ensures IsView(fabric, view)
  {
    var n := |fabric| - 1;
    var init := fabric[..n];
    forall i, id | 0 <= i < |fabric| && id in LiveIds(fabric[i].body)
      ensures id in view && Live(fabric[i].body, id) == Some(view[id])
    {
      if i < n {
        assert init[i] == fabric[i];
        assert Livings(fabric)[i] !! Livings(fabric)[n];
      }
    }
    forall id | id in view ensures exists i :: 0 <= i < |fabric| && id in LiveIds(fabric[i].body) {
      if id !in LiveIds(fabric[n].body) {
        var i :| 0 <= i < |init| && id in LiveIds(init[i].body);
        assert fabric[i] == init[i];
      }
    }
  }

  ghost predicate EveryExact(c: S.Codec, fabric: seq<Mounted>, qf: seq<string>) {
    forall f :: f in qf ==> AllExact(c, fabric, f)
  }

  /** The reports are the same exactly if every body answers every feature exactly. */
  lemma ReportsAgreeIff(c: S.Codec, fabric: seq<Mounted>, qf: seq<string>)
    requires Mountable(c, fabric) && UniqueOwners(fabric)
    ensures IndexReports(c, fabric, qf) == FabricReports(fabric, qf) <==> EveryExact(c, fabric, qf)
  {
    var a, b := IndexReports(c, fabric, qf), FabricReports(fabric, qf);
    forall f | f in qf ensures a[f] == b[f] <==> AllExact(c, fabric, f) {
      FabricAnswerExactIff(c, fabric, f);
    }
    if a == b {
      forall f | f in qf ensures AllExact(c, fabric, f) {
        assert a[f] == b[f];
      }
    }
  }

  lemma ExactIsScan(c: S.Codec, fabric: seq<Mounted>, view: map<string, Memory>, q: string, cap: nat, r: Answer)
    requires Mountable(c, fabric) && UniqueOwners(fabric) && IsView(fabric, view) && NoReservedTags(fabric)
    requires IsAnswer(IndexReports(c, fabric, QueryFeatures(q)), cap, r)
    ensures IsScan(view, TrimSpace(q), cap, r)
  {
    forall f | f in QueryFeatures(q) ensures AllExact(c, fabric, f) {
      UnreservedIsExact(c, fabric, f);
    }
    ReportsAgreeIff(c, fabric, QueryFeatures(q));
    ScanIsHits(fabric, view, q, cap, r);
  }

  /** A query of one feature counts the same hits exactly if it is answered exactly. */
  lemma OneFeatureIff(a: Reports, b: Reports, f: string)
    requires a.Keys == b.Keys == {f}
    ensures SameCounts(a, b) <==> a == b
  {
    if SameCounts(a, b) {
      forall id ensures id in a[f] <==> id in b[f] {
        assert Matching(a, id) == if id in a[f] then {f} else {};
        assert Matching(b, id) == if id in b[f] then {f} else {};
        assert |Matching(a, id)| == |Matching(b, id)|;
      }
      assert a[f] == b[f] && forall k :: k in a ==> k == f;
    }
  }

  /** For every Fabric with unique ownership, every query and every positive page cap: the full
      scan answers what the query means, and the index answers with the same ids, order, count and hit numbers as the full scan if both
      count the same hits, in particular if every index answers every feature of the query
      exactly; if the page holds both answers whole, only if they count the same; and for a
      query of one feature only if every index answers it exactly. */
  method Qualify(c: S.Codec, fabric: seq<Mounted>, query: string, pageCap: nat, defaultCap: nat, ghost view: map<string, Memory>)
    returns (fast: Outcome<Answer>, reference: Outcome<Answer>)
    requires Mountable(c, fabric) && UniqueOwners(fabric) && IsView(fabric, view) && pageCap > 0
    ensures fast.Ok? && reference.Ok? && IsScan(view, TrimSpace(query), pageCap, reference.value)
    ensures EveryExact(c, fabric, QueryFeatures(query)) ==> fast == reference
    ensures SameCounts(IndexReports(c, fabric, QueryFeatures(query)), FabricReports(fabric, QueryFeatures(query))) ==> fast == reference
    ensures pageCap >= fast.value.count && pageCap >= reference.value.count && fast == reference ==>
              SameCounts(IndexReports(c, fabric, QueryFeatures(query)), FabricReports(fabric, QueryFeatures(query)))
    ensures |QueryFeatures(query)| == 1 && pageCap >= fast.value.count && pageCap >= reference.value.count ==>
              (fast == reference <==> EveryExact(c, fabric, QueryFeatures(query)))
  {
    ghost var qf := QueryFeatures(query);
    fast := Activate(c, fabric, query, pageCap, defaultCap, view);
    var corpus := BuildCorpus(fabric, view);
    var scanned := ReferenceScan(corpus.value, query, pageCap, fabric, view);
    reference := Ok(scanned);
    ReportsAgreeIff(c, fabric, qf);
    AnswersAgreeIff(IndexReports(c, fabric, qf), FabricReports(fabric, qf), pageCap, fast.value, scanned);
    if |qf| == 1 {
      OneFeatureIff(IndexReports(c, fabric, qf), FabricReports(fabric, qf), qf[0]);
    }
  }
}
