/** Listing a body from the bytes of its image and the overlay above it. */
module Listing {
  import opened Records
  import opened Strings
  import opened Bodies
  import opened Engines
  import S = StoreIndex
  import P = Persistence

  /** `listTagLocal` over the persisted tag index, for images of either kind, any hash function
      and any non-empty tag: every live record with the tag, and only those exactly if none is
      listed for a feature alone; so always for a tag outside the reserved prefix. */
  method ListTag(c: S.Codec, im: S.Image, ghost kind: S.Kind, ghost ms: seq<Memory>, e: Engine, tag: string) returns (out: seq<string>)
    requires S.ValidCodec(c) && S.Holds(c, kind, ms, im) && S.Mirrors(ms, e.store) && Sound(e.Overlay())
    requires tag != ""
    ensures Sorted(out) && LiveTagged(e.Overlay(), tag) <= Elems(out)
    ensures Elems(out) == LiveTagged(e.Overlay(), tag) <==> NoFeatureOnly(e.Overlay(), kind, tag)
    ensures kind.TagsOnly? || !HasPrefix(tag, S.PHYSICAL_PREFIX) ==> Elems(out) == LiveTagged(e.Overlay(), tag)
  {
    var postings := S.TagIDs(c, im, kind, ms, tag);
    S.TagPostings(kind, ms, e.store, tag);
    ListedExactIff(e.Overlay(), kind, tag);
    out := e.ListTagLocal(postings.value, kind, tag);
  }

  /** `localIDs` over the persisted id index. */
  method ListIds(c: S.Codec, im: S.Image, ghost kind: S.Kind, ghost ms: seq<Memory>, e: Engine) returns (out: seq<string>)
    requires S.ValidCodec(c) && S.Holds(c, kind, ms, im) && S.Mirrors(ms, e.store) && Sound(e.Overlay())
    ensures Sorted(out) && Elems(out) == LiveIds(e.Overlay())
  {
    var stored := S.AllIDs(c, im, kind, ms);
    var seen := NotDeleted(stored.value, e.deletedIds);
    var added := e.newIds - e.deletedIds;
    LocalIdsAreLive(e.Overlay());
    assert seen + added == P.LocalIds(e.Overlay());
    out := SortIds(seen + added);
  }

  method NotDeleted(listed: seq<string>, deleted: set<string>) returns (seen: set<string>)
    ensures seen == Elems(listed) - deleted
  {
    seen := {};
    for k := 0 to |listed|
      invariant seen == Elems(listed[..k]) - deleted
    {
      ElemsNext(listed, k);
      if listed[k] !in deleted {
        seen := seen + {listed[k]};
      }
    }
    assert listed[..|listed|] == listed;
  }
}
