/** The persisted Store: records and tag lists as bytes, each with its hash index. */
module StoreIndex {
  import opened Bytes
  import opened Strings
  import opened Records
  import opened Features
  import opened IndexTables

  const RECORD_CEILING := 16 * 0x10_0000
  const LIST_CEILING := 64 * 0x10_0000
  const PHYSICAL_PREFIX := "\U{1f}memoryai.phys.v1:"

  /** JSON encoding of records and of tag lists. */
  datatype Codec = Codec(
    hashing: Hashing,
    marshal: Memory -> seq<byte>,
    unmarshal: seq<byte> -> Memory,
    list: (string, seq<string>) -> seq<byte>,
    unlist: seq<byte> -> (string, seq<string>))

  ghost predicate ValidCodec(c: Codec) {
    ValidHashing(c.hashing) && (forall m :: c.unmarshal(c.marshal(m)) == m) &&
    forall key, ids :: c.unlist(c.list(key, ids)) == (key, ids)
  }

  /** The four sections of a body. */
  datatype Image = Image(records: seq<byte>, ids: seq<byte>, tagLists: seq<byte>, tags: seq<byte>)

  function RecordPayloads(c: Codec): Payloads {
    Payloads((b: seq<byte>) => c.unmarshal(b).id, RECORD_CEILING)
  }

  function ListPayloads(c: Codec): Payloads {
    Payloads((b: seq<byte>) => c.unlist(b).0, LIST_CEILING)
  }

  ghost predicate DistinctIds(ms: seq<Memory>) {
    forall i, j :: 0 <= i < j < |ms| ==> ms[i].id != ms[j].id
  }

  /** What the tag lists of an image hold: images written by the current source list reserved
      physical features beside the tags, older ones the tags only. */
  datatype Kind = Featured | TagsOnly

  /** The keys a record is listed under. */
  function KeysOf(kind: Kind, m: Memory): set<string> {
    (set t | t in m.tags) + if kind.Featured? then FeatureKeys(m) else {}
  }

  function FeatureKeys(m: Memory): set<string> {
    set f | f in FeaturesOf(m) :: PHYSICAL_PREFIX + f
  }

  function IdsOf(ms: seq<Memory>): set<string> {
    set m | m in ms :: m.id
  }

  /** The ids a scan would find under a key. */
  function IdsUnder(kind: Kind, ms: seq<Memory>, key: string): set<string> {
    set m | m in ms && key in KeysOf(kind, m) :: m.id
  }

  // ---- What an image holds -------------------------------------------------------------

  function RecordItem(c: Codec, m: Memory): Item {
    Item(m.id, c.marshal(m), 0)
  }

  ghost predicate IsRecord(c: Codec, ms: seq<Memory>, item: Item) {
    exists m :: m in ms && item == RecordItem(c, m)
  }

  ghost predicate RecordItems(c: Codec, ms: seq<Memory>, items: seq<Item>) {
    && |items| == |ms|
    && (forall j {:trigger IsRecord(c, ms, items[j])} :: 0 <= j < |items| ==> IsRecord(c, ms, items[j]))
    && (forall m {:trigger RecordItem(c, m)} :: m in ms ==> RecordItem(c, m) in items)
    && Readable(RecordPayloads(c), items)
  }

  ghost predicate IsList(c: Codec, kind: Kind, ms: seq<Memory>, item: Item) {
    exists ids :: Sorted(ids) && Elems(ids) == IdsUnder(kind, ms, item.key) && item.payload == c.list(item.key, ids)
  }

  ghost predicate ListItems(c: Codec, kind: Kind, ms: seq<Memory>, items: seq<Item>) {
    && (forall j {:trigger IsList(c, kind, ms, items[j])} :: 0 <= j < |items| ==> IsList(c, kind, ms, items[j]))
    && (forall key :: IdsUnder(kind, ms, key) != {} ==> exists j :: 0 <= j < |items| && items[j].key == key)
    && Readable(ListPayloads(c), items)
  }

  ghost predicate Tabled(c: Codec, items: seq<Item>, data: seq<byte>, index: seq<byte>) {
    exists es :: |es| == |items| && Lists(index, es) && Indexes(c.hashing, items, data, es)
  }

  /** The image holds exactly these records. */
  ghost predicate Holds(c: Codec, kind: Kind, ms: seq<Memory>, im: Image) {
    && (exists items :: RecordItems(c, ms, items) && Tabled(c, items, im.records, im.ids))
    && (exists items :: ListItems(c, kind, ms, items) && Tabled(c, items, im.tagLists, im.tags))
  }

  /** The list and the Store have the same records. */
  ghost predicate Mirrors(ms: seq<Memory>, store: map<string, Memory>) {
    IdsOf(ms) == store.Keys && forall m :: m in ms ==> m.id in store && store[m.id] == m
  }

  lemma MirroredAt(ms: seq<Memory>, store: map<string, Memory>, id: string)
    requires Mirrors(ms, store) && id in store
    ensures store[id] in ms && store[id].id == id
  {
    assert id in IdsOf(ms);
    var m :| m in ms && m.id == id;
  }

  /** The stored records an image lists under a key. */
  function Postings(kind: Kind, store: map<string, Memory>, key: string): set<string> {
    set id | id in store && key in KeysOf(kind, store[id])
  }

  /** What an image of either kind lists under any key are the Store's postings. */
  lemma TagPostings(kind: Kind, ms: seq<Memory>, store: map<string, Memory>, key: string)
    requires Mirrors(ms, store)
    ensures IdsUnder(kind, ms, key) == Postings(kind, store, key)
  {
    forall id | id in store ensures store[id] in ms && store[id].id == id {
      MirroredAt(ms, store, id);
    }
  }

  /** Only keys under the reserved prefix are listed for a feature. */
  lemma FeatureKeysReserved(m: Memory, key: string)
    ensures key in FeatureKeys(m) ==> HasPrefix(key, PHYSICAL_PREFIX)
  {
    if f :| f in FeaturesOf(m) && PHYSICAL_PREFIX + f == key {
      assert (PHYSICAL_PREFIX + f)[..|PHYSICAL_PREFIX|] == PHYSICAL_PREFIX;
    }
  }

  // ---- Reading -------------------------------------------------------------------------

  datatype Reading<T> = Absent | Damaged | Ok(value: T)

  /** `GetID`: the record of the list with this id, or nothing if there is none. */
  method GetID(c: Codec, im: Image, ghost kind: Kind, ghost ms: seq<Memory>, id: string) returns (r: Reading<Memory>)
    requires ValidCodec(c) && Holds(c, kind, ms, im)
    ensures !r.Damaged?
    ensures r.Ok? ==> r.value in ms && r.value.id == id
    ensures r.Absent? ==> forall m :: m in ms ==> m.id != id
  {
    ghost var items :| RecordItems(c, ms, items) && Tabled(c, items, im.records, im.ids);
    ghost var es :| |es| == |items| && Lists(im.ids, es) && Indexes(c.hashing, items, im.records, es);
    var found := Lookup(c.hashing, RecordPayloads(c), im.records, im.ids, items, es, id);
    match found
    case Corrupt => return Damaged;
    case Missing =>
      forall m | m in ms ensures m.id != id {
        var j :| 0 <= j < |items| && items[j] == RecordItem(c, m);
      }
      return Absent;
    case Payload(b) =>
      ghost var j :| 0 <= j < |items| && items[j].key == id && items[j].payload == b;
      assert IsRecord(c, ms, items[j]);
      ghost var m :| m in ms && items[j] == RecordItem(c, m);
      assert c.unmarshal(b) == m;
      return Ok(c.unmarshal(b));
  }

  /** `TagIDs`: the sorted ids of the records of the list under this key. */
  method TagIDs(c: Codec, im: Image, ghost kind: Kind, ghost ms: seq<Memory>, tag: string) returns (r: Reading<seq<string>>)
    requires ValidCodec(c) && Holds(c, kind, ms, im)
    ensures r.Ok? && Sorted(r.value) && Elems(r.value) == IdsUnder(kind, ms, tag)
  {
    ghost var items :| ListItems(c, kind, ms, items) && Tabled(c, items, im.tagLists, im.tags);
    ghost var es :| |es| == |items| && Lists(im.tags, es) && Indexes(c.hashing, items, im.tagLists, es);
    var found := Lookup(c.hashing, ListPayloads(c), im.tagLists, im.tags, items, es, tag);
    match found
    case Corrupt => return Damaged;
    case Missing =>
      assert IdsUnder(kind, ms, tag) == {};
      return Ok([]);
    case Payload(b) =>
      ghost var j :| 0 <= j < |items| && items[j].key == tag && items[j].payload == b;
      assert IsList(c, kind, ms, items[j]);
      ghost var ids :| Sorted(ids) && Elems(ids) == IdsUnder(kind, ms, tag) && b == c.list(tag, ids);
      assert c.unlist(b) == (tag, ids);
      return Ok(c.unlist(b).1);
  }

  /** `PhysicalFeatureIDs`: a lookup under the reserved key. */
  method PhysicalFeatureIDs(c: Codec, im: Image, ghost kind: Kind, ghost ms: seq<Memory>, feature: string) returns (r: Reading<seq<string>>)
    requires ValidCodec(c) && Holds(c, kind, ms, im)
    ensures r.Ok? && Sorted(r.value) && Elems(r.value) == IdsUnder(kind, ms, PHYSICAL_PREFIX + feature)
  {
    r := TagIDs(c, im, kind, ms, PHYSICAL_PREFIX + feature);
  }

  /** A record is listed under a feature's key for having the feature, in an image that lists
      features, or for an authored tag that spells the key. */
  lemma FeatureKeyIff(kind: Kind, m: Memory, feature: string)
    ensures PHYSICAL_PREFIX + feature in KeysOf(kind, m) <==>
            PHYSICAL_PREFIX + feature in m.tags || (kind.Featured? && feature in FeaturesOf(m))
  {
    var key := PHYSICAL_PREFIX + feature;
    if f :| f in FeaturesOf(m) && PHYSICAL_PREFIX + f == key {
      assert (PHYSICAL_PREFIX + f)[|PHYSICAL_PREFIX|..] == f && key[|PHYSICAL_PREFIX|..] == feature;
    }
  }

  /** The stored records a scan for a feature finds. */
  function StoredWith(store: map<string, Memory>, feature: string): set<string> {
    set id | id in store && feature in FeaturesOf(store[id])
  }

  /** What a body's Store answers for a feature: its index, if the probe accepted it, else a
      scan of its records. */
  function Answered(kind: Kind, store: map<string, Memory>, indexed: bool, feature: string): set<string> {
    if indexed then Postings(kind, store, PHYSICAL_PREFIX + feature) else StoredWith(store, feature)
  }

  /** The index is not used; or it lists features, and no record without this one carries its
      key as a tag; or it lists tags only, and exactly the records with the feature carry its
      key as a tag. Records that the overlay shadows do not matter. */
  ghost predicate IndexFits(kind: Kind, store: map<string, Memory>, shadowed: set<string>, indexed: bool, feature: string) {
    var key := PHYSICAL_PREFIX + feature;
    || !indexed
    || (kind.Featured? &&
        forall id :: id in store && id !in shadowed && key in store[id].tags ==> feature in FeaturesOf(store[id]))
    || (kind.TagsOnly? &&
        forall id :: id in store && id !in shadowed ==> (key in store[id].tags <==> feature in FeaturesOf(store[id])))
  }

  /** A Store answers a feature as a scan of its records would, exactly under that condition,
      for images of both kinds and whatever the probe said. */
  lemma FeatureAnswerExactIff(kind: Kind, store: map<string, Memory>, shadowed: set<string>, indexed: bool, feature: string)
    ensures Answered(kind, store, indexed, feature) - shadowed == StoredWith(store, feature) - shadowed <==>
            IndexFits(kind, store, shadowed, indexed, feature)
  {
    var key := PHYSICAL_PREFIX + feature;
    var found, want := Answered(kind, store, indexed, feature) - shadowed, StoredWith(store, feature) - shadowed;
    forall id | id in store
      ensures key in KeysOf(kind, store[id]) <==> key in store[id].tags || (kind.Featured? && feature in FeaturesOf(store[id]))
    {
      FeatureKeyIff(kind, store[id], feature);
    }
    if found == want {
      forall id | id in store && id !in shadowed ensures id in found <==> id in want {
      }
    }
  }

  // ---- Telling the two kinds apart -----------------------------------------------------

  /** The id of the record that the first index entry points to. */
  function FirstIn(c: Codec, im: Image): Option<string> {
    if |im.ids| < ENTRY then None
    else
      match ReadPayload(c.hashing, RecordPayloads(c), im.records, EntryAt(im.ids, 0))
      case Payload(b) => Some(c.unmarshal(b).id)
      case _ => None
  }

  /** `FirstID`: the record of the first index entry. */
  method FirstID(c: Codec, im: Image, ghost kind: Kind, ghost ms: seq<Memory>) returns (r: Reading<string>)
    requires ValidCodec(c) && Holds(c, kind, ms, im)
    ensures r.Absent? <==> |ms| == 0
    ensures r.Absent? || (r.Ok? && r.value in IdsOf(ms) && FirstIn(c, im) == Some(r.value))
  {
    ghost var items :| RecordItems(c, ms, items) && Tabled(c, items, im.records, im.ids);
    ghost var es :| |es| == |items| && Lists(im.ids, es) && Indexes(c.hashing, items, im.records, es);
    var n := EntryCount(im.ids, es);
    if n == 0 {
      return Absent;
    }
    var e := ReadIndex(im.ids, es, 0);
    var id := ReadRecord(c, im.records, items, e);
    NamedIsRecord(c, ms, items, im.records, e, id);
    FirstIsIn(c, im, es, id);
    return Ok(id);
  }

  lemma FirstIsIn(c: Codec, im: Image, es: seq<Entry>, id: string)
    requires Lists(im.ids, es) && |es| > 0
    requires var found := ReadPayload(c.hashing, RecordPayloads(c), im.records, es[0]);
             found.Payload? && id == c.unmarshal(found.bytes).id
    ensures FirstIn(c, im) == Some(id)
  {
    assert EntryAt(im.ids, 0) == es[0];
  }

  lemma NamedIsRecord(c: Codec, ms: seq<Memory>, items: seq<Item>, data: seq<byte>, e: Entry, id: string)
    requires RecordItems(c, ms, items) && Names(c, items, data, e, id)
    ensures id in IdsOf(ms)
  {
    var j :| 0 <= j < |items| && Describes(c.hashing, data, e, items[j]);
    assert IsRecord(c, ms, items[j]);
  }

  /** The probe's answer: the first record is listed under its own id feature. */
  predicate ProbeAccepts(c: Codec, im: Image, kind: Kind, store: map<string, Memory>) {
    store == map[] ||
    (FirstIn(c, im).Some? && var id := FirstIn(c, im).value; id in Postings(kind, store, PHYSICAL_PREFIX + ("id:" + id)))
  }

  /** `HasPhysicalFeatureIndex`. */
  method HasPhysicalFeatureIndex(c: Codec, im: Image, ghost kind: Kind, ghost ms: seq<Memory>, ghost store: map<string, Memory>)
    returns (indexed: bool)
    requires ValidCodec(c) && Holds(c, kind, ms, im) && Mirrors(ms, store)
    ensures indexed <==> ProbeAccepts(c, im, kind, store)
    ensures store != map[] ==> FirstIn(c, im).Some? && FirstIn(c, im).value in store
  {
    MirroredEmpty(ms, store);
    var first := FirstID(c, im, kind, ms);
    if first.Absent? {
      return true;
    }
    var id := first.value;
    TagPostings(kind, ms, store, PHYSICAL_PREFIX + ("id:" + id));
    var ids := PhysicalFeatureIDs(c, im, kind, ms, "id:" + id);
    indexed := IsListed(ids.value, id);
  }

  method IsListed(ids: seq<string>, id: string) returns (found: bool)
    ensures found <==> id in Elems(ids)
  {
    for k := 0 to |ids|
      invariant id !in ids[..k]
    {
      if ids[k] == id {
        return true;
      }
    }
    assert ids[..|ids|] == ids;
    return false;
  }

  lemma MirroredEmpty(ms: seq<Memory>, store: map<string, Memory>)
    requires Mirrors(ms, store)
    ensures |ms| == 0 <==> store == map[]
  {
    if |ms| > 0 {
      assert ms[0] in ms;
    } else {
      assert IdsOf(ms) == {};
    }
  }

  /** No authored tag lives under the reserved prefix. */
  ghost predicate Unreserved(store: map<string, Memory>) {
    forall id, t :: id in store && t in store[id].tags ==> !HasPrefix(t, PHYSICAL_PREFIX)
  }

  /** Without authored tags under the reserved prefix the probe is right: it accepts no
      non-empty older image, and every feature is answered as by a scan. */
  lemma ProbeIsRight(c: Codec, im: Image, kind: Kind, store: map<string, Memory>, shadowed: set<string>, feature: string)
    requires Unreserved(store)
    ensures kind.TagsOnly? && store != map[] ==> !ProbeAccepts(c, im, kind, store)
    ensures IndexFits(kind, store, shadowed, ProbeAccepts(c, im, kind, store), feature)
  {
    assert forall f :: HasPrefix(PHYSICAL_PREFIX + f, PHYSICAL_PREFIX);
  }

  /** An older image is taken for a current one exactly if its first record carries the
      reserved key of its own id as a tag. */
  lemma OlderAcceptedIff(c: Codec, im: Image, store: map<string, Memory>, id: string)
    requires FirstIn(c, im) == Some(id) && id in store
    ensures ProbeAccepts(c, im, TagsOnly, store) <==> PHYSICAL_PREFIX + ("id:" + id) in store[id].tags
  {
  }

  /** And then it misses every record that has a feature without carrying its key. */
  lemma OlderAcceptedMisses(c: Codec, im: Image, a: Memory, b: Memory, feature: string)
    requires FirstIn(c, im) == Some(a.id) && PHYSICAL_PREFIX + ("id:" + a.id) in a.tags && a.id != b.id
    requires feature in FeaturesOf(b) && PHYSICAL_PREFIX + feature !in b.tags
    ensures var store := map[a.id := a, b.id := b];
            && ProbeAccepts(c, im, TagsOnly, store)
            && b.id in StoredWith(store, feature)
            && b.id !in Answered(TagsOnly, store, ProbeAccepts(c, im, TagsOnly, store), feature)
  {
    var store := map[a.id := a, b.id := b];
    OlderAcceptedIff(c, im, store, a.id);
    FeatureKeyIff(TagsOnly, b, feature);
  }

  /** On images of the current source the probe misses only ids that trimming changes; those
      bodies are scanned. */
  lemma ProbeMisses(c: Codec, im: Image, store: map<string, Memory>, id: string)
    requires FirstIn(c, im) == Some(id) && id in store && store[id].id == id
    requires !ProbeAccepts(c, im, Featured, store)
    ensures TrimSpace("id:" + id) != "id:" + id
  {
    FeatureKeyIff(Featured, store[id], "id:" + id);
    assert "id:" + id in FeatureTexts(store[id]);
  }

  /** `readRecord`. */
  method ReadRecord(c: Codec, data: seq<byte>, ghost items: seq<Item>, e: Entry) returns (id: string)
    requires Readable(RecordPayloads(c), items) && DescribesOne(c.hashing, items, data, e)
    ensures Names(c, items, data, e, id)
    ensures var found := ReadPayload(c.hashing, RecordPayloads(c), data, e); found.Payload? && id == c.unmarshal(found.bytes).id
  {
    ghost var j :| 0 <= j < |items| && Describes(c.hashing, data, e, items[j]);
    DescribedIsRead(c.hashing, RecordPayloads(c), data, e, items[j]);
    var b := ReadPayload(c.hashing, RecordPayloads(c), data, e).bytes;
    id := c.unmarshal(b).id;
    assert id == RecordPayloads(c).key(b);
  }

  /** `AllIDs`: every id of the list, each once. */
  method AllIDs(c: Codec, im: Image, ghost kind: Kind, ghost ms: seq<Memory>) returns (r: Reading<seq<string>>)
    requires ValidCodec(c) && Holds(c, kind, ms, im)
    ensures r.Ok? && |r.value| == |ms| && Elems(r.value) == IdsOf(ms)
  {
    ghost var items :| RecordItems(c, ms, items) && Tabled(c, items, im.records, im.ids);
    ghost var es :| |es| == |items| && Lists(im.ids, es) && Indexes(c.hashing, items, im.records, es);
    var out := EntryIds(c, im, items, es);
    EveryIdNamed(c, ms, items, im.records, es, out);
    return Ok(out);
  }

  method EntryIds(c: Codec, im: Image, ghost items: seq<Item>, ghost es: seq<Entry>) returns (out: seq<string>)
    requires Lists(im.ids, es) && Indexes(c.hashing, items, im.records, es) && Readable(RecordPayloads(c), items)
    ensures |out| == |es| && forall k :: 0 <= k < |es| ==> Names(c, items, im.records, es[k], out[k])
  {
    var n := EntryCount(im.ids, es);
    out := [];
    for i := 0 to n
      invariant |out| == i && forall k :: 0 <= k < i ==> Names(c, items, im.records, es[k], out[k])
    {
      var e := ReadIndex(im.ids, es, i);
      var id := ReadRecord(c, im.records, items, e);
      out := out + [id];
    }
  }

  /** Every item an entry describes has this key. */
  ghost predicate Names(c: Codec, items: seq<Item>, data: seq<byte>, e: Entry, id: string) {
    DescribesOne(c.hashing, items, data, e) &&
    forall j :: 0 <= j < |items| && Describes(c.hashing, data, e, items[j]) ==> items[j].key == id
  }

  lemma AllNamed(c: Codec, ms: seq<Memory>, items: seq<Item>, data: seq<byte>, es: seq<Entry>, out: seq<string>, id: string)
    requires RecordItems(c, ms, items) && Indexes(c.hashing, items, data, es) && |out| == |es|
    requires forall k :: 0 <= k < |es| ==> Names(c, items, data, es[k], out[k])
    ensures id in out <==> exists m :: m in ms && m.id == id
  {
    if id in out {
      var k :| 0 <= k < |out| && out[k] == id;
      assert Names(c, items, data, es[k], id);
      var j :| 0 <= j < |items| && Describes(c.hashing, data, es[k], items[j]);
      assert IsRecord(c, ms, items[j]);
    }
    if m :| m in ms && m.id == id {
      var j :| 0 <= j < |items| && items[j] == RecordItem(c, m);
      assert IsDescribed(c.hashing, items[j], data, es);
      var k :| 0 <= k < |es| && Describes(c.hashing, data, es[k], items[j]);
      assert Names(c, items, data, es[k], out[k]);
    }
  }

  lemma EveryIdNamed(c: Codec, ms: seq<Memory>, items: seq<Item>, data: seq<byte>, es: seq<Entry>, out: seq<string>)
    requires RecordItems(c, ms, items) && Indexes(c.hashing, items, data, es) && |out| == |es|
    requires forall k :: 0 <= k < |es| ==> Names(c, items, data, es[k], out[k])
    ensures Elems(out) == IdsOf(ms)
  {
    forall id ensures id in Elems(out) <==> id in IdsOf(ms) {
      AllNamed(c, ms, items, data, es, out, id);
    }
  }

  // ---- Building ------------------------------------------------------------------------

  ghost predicate SortedById(ms: seq<Memory>) {
    forall i, j :: 0 <= i < j < |ms| ==> StringLess(ms[i].id, ms[j].id)
  }

  function InsertById(m: Memory, ms: seq<Memory>): (out: seq<Memory>)
    ensures multiset(out) == multiset(ms) + multiset{m}
  {
    if |ms| == 0 then [m]
    else if StringLess(m.id, ms[0].id) then
      assert multiset([m] + ms) == multiset{m} + multiset(ms);
      [m] + ms
    else
      assert ms == [ms[0]] + ms[1..];
      [ms[0]] + InsertById(m, ms[1..])
  }

  lemma {:induction false} InsertByIdSorted(m: Memory, ms: seq<Memory>)
    requires SortedById(ms) && forall i :: 0 <= i < |ms| ==> ms[i].id != m.id
    ensures SortedById(InsertById(m, ms))
  {
    if |ms| > 0 {
      if StringLess(m.id, ms[0].id) {
        forall i | 0 < i < |ms| ensures StringLess(m.id, ms[i].id) {
          StringLessTransitive(m.id, ms[0].id, ms[i].id);
        }
      } else {
        StringLessConnected(m.id, ms[0].id);
        var rest := InsertById(m, ms[1..]);
        InsertByIdSorted(m, ms[1..]);
        forall j | 0 <= j < |rest| ensures StringLess(ms[0].id, rest[j].id) {
          assert rest[j] in multiset(ms[1..]) + multiset{m};
        }
      }
    }
  }

  /** The records in id order. */
  method SortById(ms: seq<Memory>) returns (out: seq<Memory>)
    requires DistinctIds(ms)
    ensures multiset(out) == multiset(ms) && SortedById(out)
  {
    out := [];
    for i := 0 to |ms|
      invariant multiset(out) == multiset(ms[..i]) && SortedById(out)
    {
      assert ms[..i + 1] == ms[..i] + [ms[i]];
      forall k | 0 <= k < |out| ensures out[k].id != ms[i].id {
        assert out[k] in multiset(ms[..i]);
      }
      InsertByIdSorted(ms[i], out);
      out := InsertById(ms[i], out);
    }
    assert ms[..|ms|] == ms;
  }

  /** The ids under a key, in the order of the records. */
  function IdsWith(ms: seq<Memory>, key: string): seq<string> {
    if |ms| == 0 then []
    else IdsWith(ms[..|ms| - 1], key) + if key in KeysOf(Featured, ms[|ms| - 1]) then [ms[|ms| - 1].id] else []
  }

  lemma {:induction false} IdsWithSorted(ms: seq<Memory>, key: string)
    requires SortedById(ms)
    ensures Sorted(IdsWith(ms, key))
    ensures forall id :: id in IdsWith(ms, key) <==> id in IdsUnder(Featured, ms, key)
    ensures |IdsWith(ms, key)| <= |ms|
  {
    if |ms| > 0 {
      var n := |ms| - 1;
      var init, last := ms[..n], ms[n];
      IdsWithSorted(init, key);
      var before := IdsWith(init, key);
      IdsUnderNext(ms, key);
      forall id | id in before ensures StringLess(id, last.id) {
        UnderIsLess(ms, key, id);
      }
      SortedSnoc(before, last.id);
      assert IdsWith(ms, key) == before + if key in KeysOf(Featured, last) then [last.id] else [];
    }
  }

  lemma SortedSnoc(a: seq<string>, x: string)
    requires Sorted(a) && forall y :: y in a ==> StringLess(y, x)
    ensures Sorted(a + [x])
  {
  }

  lemma IdsUnderNext(ms: seq<Memory>, key: string)
    requires |ms| > 0
    ensures var init, last := ms[..|ms| - 1], ms[|ms| - 1];
            IdsUnder(Featured, ms, key) == IdsUnder(Featured, init, key) + if key in KeysOf(Featured, last) then {last.id} else {}
  {
    var init, last := ms[..|ms| - 1], ms[|ms| - 1];
    assert ms == init + [last];
  }

  lemma UnderIsLess(ms: seq<Memory>, key: string, id: string)
    requires SortedById(ms) && |ms| > 0 && id in IdsUnder(Featured, ms[..|ms| - 1], key)
    ensures StringLess(id, ms[|ms| - 1].id)
  {
    var m :| m in ms[..|ms| - 1] && m.id == id;
  }

  /** The tag lists of some of the records, by key. */
  ghost predicate Listed(tags: map<string, seq<string>>, ms: seq<Memory>, key: string) {
    (key in tags <==> IdsWith(ms, key) != []) && (key in tags ==> tags[key] == IdsWith(ms, key))
  }

  /** Adds one record's id under each of its keys. */
  method AddKeys(tags: map<string, seq<string>>, ghost ms: seq<Memory>, m: Memory) returns (out: map<string, seq<string>>)
    requires forall key :: Listed(tags, ms, key)
    ensures forall key :: Listed(out, ms + [m], key)
  {
    out := tags;
    var todo := KeysOf(Featured, m);
    while todo != {}
      invariant todo <= KeysOf(Featured, m)
      invariant forall key :: if key in KeysOf(Featured, m) && key !in todo then Listed(out, ms + [m], key) else Listed(out, ms, key)
      decreases todo
    {
      var key :| key in todo;
      assert Listed(out, ms, key);
      ListedNext(out, ms, m, key);
      out := out[key := (if key in out then out[key] else []) + [m.id]];
      todo := todo - {key};
    }
    forall key ensures Listed(out, ms + [m], key) {
      IdsWithSnoc(ms, m, key);
    }
  }

  lemma ListedNext(tags: map<string, seq<string>>, ms: seq<Memory>, m: Memory, key: string)
    requires Listed(tags, ms, key) && key in KeysOf(Featured, m)
    ensures var out := tags[key := (if key in tags then tags[key] else []) + [m.id]];
            Listed(out, ms + [m], key) &&
            forall k, list :: k != key ==> (Listed(tags, list, k) <==> Listed(out, list, k))
  {
    IdsWithSnoc(ms, m, key);
  }

  lemma IdsWithSnoc(ms: seq<Memory>, m: Memory, key: string)
    ensures IdsWith(ms + [m], key) == IdsWith(ms, key) + if key in KeysOf(Featured, m) then [m.id] else []
  {
    assert (ms + [m])[..|ms|] == ms;
  }

  method TagMap(ms: seq<Memory>) returns (tags: map<string, seq<string>>)
    ensures forall key :: Listed(tags, ms, key)
  {
    tags := map[];
    for i := 0 to |ms|
      invariant forall key :: Listed(tags, ms[..i], key)
    {
      tags := AddKeys(tags, ms[..i], ms[i]);
      assert ms[..i + 1] == ms[..i] + [ms[i]];
    }
    assert ms[..|ms|] == ms;
  }

  function ListItem(c: Codec, key: string, ids: seq<string>): Item {
    Item(key, c.list(key, ids), |ids|)
  }

  ghost function AllKeys(ms: seq<Memory>): set<string> {
    set m, key | m in ms && key in KeysOf(Featured, m) :: key
  }

  datatype BuildResult = Refused | Packed(image: Image)

  ghost predicate OversizedRecord(c: Codec, ms: seq<Memory>) {
    exists m :: m in ms && |c.marshal(m)| > RECORD_CEILING
  }

  ghost predicate OversizedList(c: Codec, ms: seq<Memory>) {
    exists key, ids :: IdsUnder(Featured, ms, key) != {} && Sorted(ids) && Elems(ids) == IdsUnder(Featured, ms, key) && |c.list(key, ids)| > LIST_CEILING
  }

  /** `buildIndexedSections`: an image of exactly these records, refused exactly when a
      record or a tag list exceeds its ceiling. */
  method BuildIndexedSections(c: Codec, memories: seq<Memory>) returns (r: BuildResult)
    requires ValidCodec(c) && DistinctIds(memories) && |memories| < HALFWORD && |AllKeys(memories)| < HALFWORD
    ensures r.Packed? ==> Holds(c, Featured, memories, r.image)
    ensures r.Refused? <==> OversizedRecord(c, memories) || OversizedList(c, memories)
  {
    var ms := SortById(memories);
    SameRecords(memories, ms);
    var records := BuildRecords(c, ms, memories);
    if records.TooLarge? {
      return Refused;
    }
    var lists := BuildLists(c, ms, memories);
    if lists.TooLarge? {
      return Refused;
    }
    return Packed(Image(records.data, records.index, lists.data, lists.index));
  }

  ghost predicate SameContents(a: seq<Memory>, b: seq<Memory>) {
    |a| == |b| && (forall m :: m in a <==> m in b) && forall key :: IdsUnder(Featured, a, key) == IdsUnder(Featured, b, key)
  }

  method BuildRecords(c: Codec, ms: seq<Memory>, ghost memories: seq<Memory>) returns (r: Built)
    requires ValidCodec(c) && SortedById(ms) && SameContents(memories, ms) && |ms| < HALFWORD
    ensures r.TooLarge? <==> OversizedRecord(c, memories)
    ensures r.Sections? ==> exists items :: RecordItems(c, memories, items) && Tabled(c, items, r.data, r.index)
  {
    var items := BuildRecordItems(c, ms);
    ghost var es;
    r, es := Build(c.hashing, RecordPayloads(c), items);
    if r.TooLarge? {
      ghost var j :| 0 <= j < |items| && |items[j].payload| > RECORD_CEILING;
      assert ms[j] in memories;
    } else {
      forall m | m in memories ensures RecordItem(c, m) in items && |c.marshal(m)| <= RECORD_CEILING {
        var k :| 0 <= k < |ms| && ms[k] == m;
        assert items[k] == RecordItem(c, m);
      }
      forall j | 0 <= j < |items| ensures IsRecord(c, memories, items[j]) && |items[j].payload| <= RECORD_CEILING {
        assert ms[j] in memories;
      }
      assert Readable(RecordPayloads(c), items);
      assert RecordItems(c, memories, items) && Tabled(c, items, r.data, r.index);
    }
  }

  method BuildLists(c: Codec, ms: seq<Memory>, ghost memories: seq<Memory>) returns (r: Built)
    requires ValidCodec(c) && SortedById(ms) && SameContents(memories, ms) && |ms| < HALFWORD && |AllKeys(ms)| < HALFWORD
    ensures r.TooLarge? <==> OversizedList(c, memories)
    ensures r.Sections? ==> exists items :: ListItems(c, Featured, memories, items) && Tabled(c, items, r.data, r.index)
  {
    var tags := TagMap(ms);
    var items := BuildListItems(c, ms, tags);
    ghost var es;
    r, es := Build(c.hashing, ListPayloads(c), items);
    ListsSized(c, ms, memories, items);
    if r.Sections? {
      forall j | 0 <= j < |items| ensures IsList(c, Featured, memories, items[j]) {
        assert IsList(c, Featured, ms, items[j]);
      }
      assert ListItems(c, Featured, memories, items) && Tabled(c, items, r.data, r.index);
    }
  }

  lemma ListsSized(c: Codec, ms: seq<Memory>, memories: seq<Memory>, items: seq<Item>)
    requires SameContents(memories, ms)
    requires forall j :: 0 <= j < |items| ==> IsList(c, Featured, ms, items[j]) && IdsUnder(Featured, ms, items[j].key) != {}
    requires forall key :: IdsUnder(Featured, ms, key) != {} ==> exists j :: 0 <= j < |items| && items[j].key == key
    ensures OversizedList(c, memories) <==> exists j :: 0 <= j < |items| && |items[j].payload| > LIST_CEILING
  {
    if j :| 0 <= j < |items| && |items[j].payload| > LIST_CEILING {
      assert IsList(c, Featured, ms, items[j]);
    }
    if OversizedList(c, memories) {
      var key, ids :| IdsUnder(Featured, memories, key) != {} && Sorted(ids) && Elems(ids) == IdsUnder(Featured, memories, key) &&
        |c.list(key, ids)| > LIST_CEILING;
      var j :| 0 <= j < |items| && items[j].key == key;
      assert IsList(c, Featured, ms, items[j]);
      var own :| Sorted(own) && Elems(own) == IdsUnder(Featured, ms, key) && items[j].payload == c.list(key, own);
      SortedUnique(ids, own);
    }
  }

  lemma SameRecords(a: seq<Memory>, b: seq<Memory>)
    requires multiset(a) == multiset(b)
    ensures SameContents(a, b) && AllKeys(a) == AllKeys(b)
  {
    assert |multiset(a)| == |multiset(b)|;
    forall m ensures m in a <==> m in b {
      assert m in multiset(a) <==> m in multiset(b);
    }
  }

  method BuildRecordItems(c: Codec, ms: seq<Memory>) returns (items: seq<Item>)
    requires ValidCodec(c) && SortedById(ms)
    ensures |items| == |ms| && forall k :: 0 <= k < |ms| ==> items[k] == RecordItem(c, ms[k])
    ensures DistinctKeys(items)
    ensures forall k :: 0 <= k < |items| ==> RecordPayloads(c).key(items[k].payload) == items[k].key
  {
    items := [];
    for i := 0 to |ms|
      invariant |items| == i && forall k :: 0 <= k < i ==> items[k] == RecordItem(c, ms[k])
    {
      items := items + [RecordItem(c, ms[i])];
    }
    forall i, j | 0 <= i < j < |items| ensures items[i].key != items[j].key {
      StringLessIrreflexive(ms[i].id);
    }
  }

  method BuildListItems(c: Codec, ghost ms: seq<Memory>, tags: map<string, seq<string>>) returns (items: seq<Item>)
    requires ValidCodec(c) && SortedById(ms) && forall key :: Listed(tags, ms, key)
    ensures forall j :: 0 <= j < |items| ==>
              IsList(c, Featured, ms, items[j]) && items[j].count <= |ms| && IdsUnder(Featured, ms, items[j].key) != {}
    ensures forall key :: IdsUnder(Featured, ms, key) != {} ==> exists j :: 0 <= j < |items| && items[j].key == key
    ensures DistinctKeys(items) && |items| <= |AllKeys(ms)|
    ensures forall k :: 0 <= k < |items| ==> ListPayloads(c).key(items[k].payload) == items[k].key
  {
    var names := SortIds(tags.Keys);
    items := [];
    for i := 0 to |names|
      invariant |items| == i
      invariant forall k :: 0 <= k < i ==> names[k] in tags && items[k] == ListItem(c, names[k], tags[names[k]])
    {
      assert names[i] in Elems(names);
      items := items + [ListItem(c, names[i], tags[names[i]])];
    }
    forall j | 0 <= j < |items|
      ensures IsList(c, Featured, ms, items[j]) && items[j].count <= |ms| && IdsUnder(Featured, ms, items[j].key) != {}
    {
      ListItemFits(c, ms, tags, names[j]);
    }
    ListItemsComplete(c, ms, tags, names, items);
  }

  lemma ListItemsComplete(c: Codec, ms: seq<Memory>, tags: map<string, seq<string>>, names: seq<string>, items: seq<Item>)
    requires SortedById(ms) && (forall key :: Listed(tags, ms, key)) && Sorted(names) && Elems(names) == tags.Keys
    requires |items| == |names| && forall k :: 0 <= k < |names| ==> items[k].key == names[k]
    ensures forall key :: IdsUnder(Featured, ms, key) != {} ==> exists j :: 0 <= j < |items| && items[j].key == key
    ensures DistinctKeys(items) && |items| <= |AllKeys(ms)|
  {
    SortedLength(names);
    KeysBound(ms, tags);
    forall key | IdsUnder(Featured, ms, key) != {} ensures exists j :: 0 <= j < |items| && items[j].key == key {
      IdsWithSorted(ms, key);
      assert Listed(tags, ms, key);
      assert key in Elems(names);
      var j :| 0 <= j < |names| && names[j] == key;
      assert items[j].key == key;
    }
  }

  lemma ListItemFits(c: Codec, ms: seq<Memory>, tags: map<string, seq<string>>, key: string)
    requires SortedById(ms) && key in tags && Listed(tags, ms, key)
    ensures var item := ListItem(c, key, tags[key]); IsList(c, Featured, ms, item) && item.count <= |ms| && IdsUnder(Featured, ms, key) != {}
  {
    IdsWithSorted(ms, key);
    assert tags[key][0] in IdsUnder(Featured, ms, key);
    assert Elems(tags[key]) == IdsUnder(Featured, ms, key);
  }

  lemma KeysBound(ms: seq<Memory>, tags: map<string, seq<string>>)
    requires SortedById(ms) && forall key :: Listed(tags, ms, key)
    ensures |tags.Keys| <= |AllKeys(ms)|
  {
    forall key | key in tags ensures key in AllKeys(ms) {
      assert Listed(tags, ms, key);
      IdsWithSorted(ms, key);
      assert IdsWith(ms, key)[0] in IdsUnder(Featured, ms, key);
    }
    SubsetSize(tags.Keys, AllKeys(ms));
  }
}
