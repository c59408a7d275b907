/** A hash index over variable-length payloads, as bytes: fixed-width entries sorted by hash,
    found by binary search and told apart by the key inside the payload. */
module IndexTables {
  import opened Bytes
  import opened Strings

  const ENTRY := 56
  const WORD := 0x1_0000_0000_0000_0000
  const HALFWORD := 0x1_0000_0000

  datatype Entry = Entry(hash: nat, off: nat, length: nat, count: nat, digest: seq<byte>)

  /** The hash may collide; the digest is compared, never trusted to be injective here. */
  datatype Hashing = Hashing(hash: string -> nat, sha: seq<byte> -> seq<byte>)

  ghost predicate ValidHashing(h: Hashing) {
    (forall s :: h.hash(s) < WORD) && forall b :: |h.sha(b)| == 32
  }

  /** What is indexed: a key, the payload that contains it, and the entry's list length. */
  datatype Item = Item(key: string, payload: seq<byte>, count: nat)

  predicate Fits(e: Entry) {
    e.hash < WORD && e.off < WORD && e.length < HALFWORD && e.count < HALFWORD && |e.digest| == 32
  }

  function EncodeEntry(e: Entry): (b: seq<byte>)
    requires |e.digest| == 32
    ensures |b| == ENTRY
  {
    LittleEndian(e.hash, 8) + LittleEndian(e.off, 8) + LittleEndian(e.length, 4) + LittleEndian(e.count, 4) + e.digest
  }

  function DecodeEntry(b: seq<byte>): Entry
    requires |b| == ENTRY
  {
    Entry(Value(b[0..8]), Value(b[8..16]), Value(b[16..20]), Value(b[20..24]), b[24..56])
  }

  lemma EntryRoundTrip(e: Entry)
    requires Fits(e)
    ensures DecodeEntry(EncodeEntry(e)) == e
  {
    Widths();
    LittleEndianRoundTrip(e.hash, 8);
    LittleEndianRoundTrip(e.off, 8);
    LittleEndianRoundTrip(e.length, 4);
    LittleEndianRoundTrip(e.count, 4);
    var b := EncodeEntry(e);
    assert b[0..8] == LittleEndian(e.hash, 8);
    assert b[8..16] == LittleEndian(e.off, 8);
    assert b[16..20] == LittleEndian(e.length, 4);
    assert b[20..24] == LittleEndian(e.count, 4);
    assert b[24..56] == e.digest;
  }

  // ---- An index section ----------------------------------------------------------------

  function EntryAt(index: seq<byte>, i: nat): Entry
    requires ENTRY * (i + 1) <= |index|
  {
    DecodeEntry(index[ENTRY * i..ENTRY * (i + 1)])
  }

  /** The section holds these entries, one after the other. */
  ghost predicate Lists(index: seq<byte>, es: seq<Entry>) {
    |index| == ENTRY * |es| && forall i {:trigger EntryAt(index, i)} :: 0 <= i < |es| ==> EntryAt(index, i) == es[i]
  }

  lemma SameSlice(a: seq<byte>, b: seq<byte>, i: nat)
    requires ENTRY * (i + 1) <= |a|
    ensures EntryAt(a + b, i) == EntryAt(a, i)
  {
    assert (a + b)[ENTRY * i..ENTRY * (i + 1)] == a[ENTRY * i..ENTRY * (i + 1)];
  }

  lemma LastSlice(a: seq<byte>, e: Entry, i: nat)
    requires |a| == ENTRY * i && Fits(e)
    ensures EntryAt(a + EncodeEntry(e), i) == e
  {
    assert (a + EncodeEntry(e))[ENTRY * i..ENTRY * (i + 1)] == EncodeEntry(e);
    EntryRoundTrip(e);
  }

  lemma ListsAppend(index: seq<byte>, b: seq<byte>, es: seq<Entry>, e: Entry)
    requires Lists(index, es) && |b| == ENTRY && EntryAt(index + b, |es|) == e
    ensures Lists(index + b, es + [e])
  {
    forall i | 0 <= i < |es| + 1 ensures EntryAt(index + b, i) == (es + [e])[i] {
      if i < |es| {
        SameSlice(index, b, i);
      }
    }
  }

  lemma ListsSnoc(index: seq<byte>, es: seq<Entry>, e: Entry)
    requires Lists(index, es) && Fits(e)
    ensures Lists(index + EncodeEntry(e), es + [e])
  {
    LastSlice(index, e, |es|);
    ListsAppend(index, EncodeEntry(e), es, e);
  }

  /** `readIndex`. */
  method ReadIndex(index: seq<byte>, ghost es: seq<Entry>, i: nat) returns (e: Entry)
    requires Lists(index, es) && i < |es|
    ensures e == es[i]
  {
    return EntryAt(index, i);
  }

  method EntryCount(index: seq<byte>, ghost es: seq<Entry>) returns (n: nat)
    requires Lists(index, es)
    ensures n == |es|
  {
    return |index| / ENTRY;
  }

  ghost predicate SortedByHash(es: seq<Entry>) {
    forall i, j :: 0 <= i < j < |es| ==> es[i].hash <= es[j].hash
  }

  lemma Around(es: seq<Entry>, mid: nat)
    requires SortedByHash(es) && mid < |es|
    ensures forall i :: 0 <= i <= mid ==> es[i].hash <= es[mid].hash
    ensures forall i :: mid <= i < |es| ==> es[i].hash >= es[mid].hash
  {
  }

  /** `findHash`: the first entry with this hash, or -1. */
  method FindHash(index: seq<byte>, ghost es: seq<Entry>, h: nat) returns (r: int)
    requires Lists(index, es) && SortedByHash(es)
    ensures -1 <= r < |es|
    ensures r < 0 ==> forall i :: 0 <= i < |es| ==> es[i].hash != h
    ensures r >= 0 ==> es[r].hash == h && forall i :: 0 <= i < r ==> es[i].hash < h
  {
    var n := EntryCount(index, es);
    var lo, hi := 0, n;
    while lo < hi
      invariant 0 <= lo <= hi <= n
      invariant forall i :: 0 <= i < lo ==> es[i].hash < h
      invariant forall i :: hi <= i < n ==> es[i].hash >= h
    {
      var mid := (lo + hi) / 2;
      var e := ReadIndex(index, es, mid);
      Around(es, mid);
      if e.hash < h {
        lo := mid + 1;
      } else {
        hi := mid;
      }
    }
    if lo >= n {
      return -1;
    }
    var e := ReadIndex(index, es, lo);
    return if e.hash == h then lo else -1;
  }

  // ---- Index and payloads --------------------------------------------------------------

  predicate Describes(h: Hashing, data: seq<byte>, e: Entry, item: Item) {
    && e.hash == h.hash(item.key)
    && e.length == |item.payload|
    && e.count == item.count
    && e.digest == h.sha(item.payload)
    && e.off + e.length <= |data|
    && data[e.off..e.off + e.length] == item.payload
  }

  ghost predicate DescribesOne(h: Hashing, items: seq<Item>, data: seq<byte>, e: Entry) {
    exists j :: 0 <= j < |items| && Describes(h, data, e, items[j])
  }

  ghost predicate IsDescribed(h: Hashing, item: Item, data: seq<byte>, es: seq<Entry>) {
    exists i :: 0 <= i < |es| && Describes(h, data, es[i], item)
  }

  /** The entries describe exactly these items. */
  ghost predicate Indexes(h: Hashing, items: seq<Item>, data: seq<byte>, es: seq<Entry>) {
    && SortedByHash(es)
    && (forall i {:trigger DescribesOne(h, items, data, es[i])} :: 0 <= i < |es| ==> DescribesOne(h, items, data, es[i]))
    && (forall j {:trigger IsDescribed(h, items[j], data, es)} :: 0 <= j < |items| ==> IsDescribed(h, items[j], data, es))
  }

  ghost predicate DistinctKeys(items: seq<Item>) {
    forall i, j :: 0 <= i < j < |items| ==> items[i].key != items[j].key
  }

  /** The key inside a payload, and the ceiling on payload sizes. */
  datatype Payloads = Payloads(key: seq<byte> -> string, ceiling: nat)

  ghost predicate Readable(p: Payloads, items: seq<Item>) {
    DistinctKeys(items) &&
    forall j :: 0 <= j < |items| ==> p.key(items[j].payload) == items[j].key && |items[j].payload| <= p.ceiling
  }

  datatype Found = Missing | Corrupt | Payload(bytes: seq<byte>)

  /** Reads one entry's payload, checking its bounds and digest. */
  function ReadPayload(h: Hashing, p: Payloads, data: seq<byte>, e: Entry): Found {
    if e.length > p.ceiling || e.off > |data| || e.length > |data| - e.off then Corrupt
    else if h.sha(data[e.off..e.off + e.length]) != e.digest then Corrupt
    else Payload(data[e.off..e.off + e.length])
  }

  lemma DescribedIsRead(h: Hashing, p: Payloads, data: seq<byte>, e: Entry, item: Item)
    requires Describes(h, data, e, item) && |item.payload| <= p.ceiling
    ensures ReadPayload(h, p, data, e) == Payload(item.payload)
  {
  }

  /** What a scan of the items would return. */
  ghost predicate IsLookup(items: seq<Item>, key: string, r: Found) {
    match r
    case Corrupt => false
    case Missing => forall j :: 0 <= j < |items| ==> items[j].key != key
    case Payload(b) => exists j :: 0 <= j < |items| && items[j].key == key && items[j].payload == b
  }

  /** No item with this key is described by the entry. */
  ghost predicate Unlike(h: Hashing, items: seq<Item>, data: seq<byte>, e: Entry, key: string) {
    forall j :: 0 <= j < |items| && Describes(h, data, e, items[j]) ==> items[j].key != key
  }

  /** The payload of one entry, and what it says about the key. */
  method ReadDescribed(h: Hashing, p: Payloads, data: seq<byte>, ghost items: seq<Item>, e: Entry, ghost key: string)
    returns (b: seq<byte>)
    requires DescribesOne(h, items, data, e) && Readable(p, items)
    ensures p.key(b) == key ==> IsLookup(items, key, Payload(b))
    ensures p.key(b) != key ==> Unlike(h, items, data, e, key)
  {
    ghost var j :| 0 <= j < |items| && Describes(h, data, e, items[j]);
    DescribedIsRead(h, p, data, e, items[j]);
    b := ReadPayload(h, p, data, e).bytes;
    if p.key(b) != key {
      SameBytes(h, p, items, data, e, j, key);
    }
  }

  /** Binary search for the hash, then a scan over its collisions: finds exactly the item
      with the key, whatever the hash function. */
  method Lookup(h: Hashing, p: Payloads, data: seq<byte>, index: seq<byte>, ghost items: seq<Item>, ghost es: seq<Entry>, key: string)
    returns (r: Found)
    requires Lists(index, es) && Indexes(h, items, data, es) && Readable(p, items)
    ensures IsLookup(items, key, r)
  {
    var n := EntryCount(index, es);
    var i := FindHash(index, es, h.hash(key));
    if i < 0 {
      OtherHashes(h, items, data, es, 0, |es|, key);
      NoneLike(h, items, data, es, key);
      return Missing;
    }
    OtherHashes(h, items, data, es, 0, i, key);
    ghost var first := i;
    while i < n
      invariant first <= i <= n
      invariant forall k :: 0 <= k < i ==> Unlike(h, items, data, es[k], key)
      decreases n - i
    {
      var e := ReadIndex(index, es, i);
      if e.hash != h.hash(key) {
        HashesPassed(es, first, i);
        break;
      }
      var b := ReadDescribed(h, p, data, items, e, key);
      if p.key(b) == key {
        return Payload(b);
      }
      i := i + 1;
    }
    OtherHashes(h, items, data, es, i, n, key);
    NoneLike(h, items, data, es, key);
    return Missing;
  }

  /** Past the run of one hash, that hash does not come back. */
  lemma HashesPassed(es: seq<Entry>, first: nat, i: nat)
    requires first <= i < |es| && SortedByHash(es) && es[i].hash != es[first].hash
    ensures forall k :: i <= k < |es| ==> es[k].hash != es[first].hash
  {
  }

  lemma OtherHashes(h: Hashing, items: seq<Item>, data: seq<byte>, es: seq<Entry>, from: nat, to: nat, key: string)
    requires from <= to <= |es| && SortedByHash(es)
    requires forall k :: from <= k < to ==> es[k].hash != h.hash(key)
    ensures forall k :: from <= k < to ==> Unlike(h, items, data, es[k], key)
  {
  }

  lemma SameBytes(h: Hashing, p: Payloads, items: seq<Item>, data: seq<byte>, e: Entry, j: nat, key: string)
    requires j < |items| && Readable(p, items) && Describes(h, data, e, items[j]) && items[j].key != key
    ensures Unlike(h, items, data, e, key)
  {
    forall i | 0 <= i < |items| && Describes(h, data, e, items[i]) ensures items[i].key != key {
      assert p.key(items[i].payload) == items[i].key && p.key(items[j].payload) == items[j].key;
    }
  }

  lemma NoneLike(h: Hashing, items: seq<Item>, data: seq<byte>, es: seq<Entry>, key: string)
    requires Indexes(h, items, data, es) && forall k :: 0 <= k < |es| ==> Unlike(h, items, data, es[k], key)
    ensures forall j :: 0 <= j < |items| ==> items[j].key != key
  {
    forall j | 0 <= j < |items| ensures items[j].key != key {
      assert IsDescribed(h, items[j], data, es);
    }
  }

  // ---- Building ------------------------------------------------------------------------

  /** `buildRec`. */
  datatype Rec = Rec(entry: Entry, key: string)

  predicate Before(a: Rec, b: Rec) {
    a.entry.hash < b.entry.hash || (a.entry.hash == b.entry.hash && StringLess(a.key, b.key))
  }

  ghost predicate HashSorted(recs: seq<Rec>) {
    forall i, j :: 0 <= i < j < |recs| ==> recs[i].entry.hash <= recs[j].entry.hash
  }

  function InsertRec(r: Rec, recs: seq<Rec>): (out: seq<Rec>)
    ensures multiset(out) == multiset(recs) + multiset{r}
  {
    if |recs| == 0 then [r]
    else if Before(r, recs[0]) then
      assert multiset([r] + recs) == multiset{r} + multiset(recs);
      [r] + recs
    else
      assert recs == [recs[0]] + recs[1..];
      [recs[0]] + InsertRec(r, recs[1..])
  }

  lemma {:induction false} InsertRecSorted(r: Rec, recs: seq<Rec>)
    requires HashSorted(recs)
    ensures HashSorted(InsertRec(r, recs))
  {
    if |recs| > 0 && !Before(r, recs[0]) {
      var rest := InsertRec(r, recs[1..]);
      InsertRecSorted(r, recs[1..]);
      forall j | 0 <= j < |rest| ensures recs[0].entry.hash <= rest[j].entry.hash {
        assert rest[j] in multiset(recs[1..]) + multiset{r};
      }
    }
  }

  /** The records in (hash, key) order. */
  method SortRecs(recs: seq<Rec>) returns (out: seq<Rec>)
    ensures multiset(out) == multiset(recs) && HashSorted(out)
  {
    out := [];
    for i := 0 to |recs|
      invariant multiset(out) == multiset(recs[..i]) && HashSorted(out)
    {
      assert recs[..i + 1] == recs[..i] + [recs[i]];
      InsertRecSorted(recs[i], out);
      out := InsertRec(recs[i], out);
    }
    assert recs[..|recs|] == recs;
  }

  function EntriesOf(recs: seq<Rec>): (es: seq<Entry>)
    ensures |es| == |recs| && forall i :: 0 <= i < |recs| ==> es[i] == recs[i].entry
  {
    seq(|recs|, i requires 0 <= i < |recs| => recs[i].entry)
  }

  /** `encodeIndex`. */
  method EncodeIndex(recs: seq<Rec>) returns (index: seq<byte>)
    requires forall i :: 0 <= i < |recs| ==> Fits(recs[i].entry)
    ensures Lists(index, EntriesOf(recs))
  {
    index := [];
    for i := 0 to |recs|
      invariant Lists(index, EntriesOf(recs)[..i])
    {
      ListsSnoc(index, EntriesOf(recs)[..i], recs[i].entry);
      assert EntriesOf(recs)[..i + 1] == EntriesOf(recs)[..i] + [recs[i].entry];
      index := index + EncodeEntry(recs[i].entry);
    }
    assert EntriesOf(recs)[..|recs|] == EntriesOf(recs);
  }

  ghost function TotalSize(items: seq<Item>): nat {
    if |items| == 0 then 0 else TotalSize(items[..|items| - 1]) + |items[|items| - 1].payload|
  }

  lemma {:induction false} TotalBounded(items: seq<Item>, ceiling: nat)
    requires forall j :: 0 <= j < |items| ==> |items[j].payload| <= ceiling
    ensures TotalSize(items) <= |items| * ceiling
  {
    if |items| > 0 {
      TotalBounded(items[..|items| - 1], ceiling);
    }
  }

  lemma DescribesLonger(h: Hashing, data: seq<byte>, more: seq<byte>, e: Entry, item: Item)
    requires Describes(h, data, e, item)
    ensures Describes(h, data + more, e, item)
  {
    assert (data + more)[e.off..e.off + e.length] == data[e.off..e.off + e.length];
  }

  /** Lays the payloads out one after the other and notes where each went. */
  method Lay(h: Hashing, items: seq<Item>) returns (data: seq<byte>, recs: seq<Rec>)
    ensures |recs| == |items| && |data| == TotalSize(items)
    ensures forall k :: 0 <= k < |items| ==> recs[k].key == items[k].key && Describes(h, data, recs[k].entry, items[k])
  {
    data, recs := [], [];
    for i := 0 to |items|
      invariant |recs| == i && |data| == TotalSize(items[..i])
      invariant forall k :: 0 <= k < i ==> recs[k].key == items[k].key && Describes(h, data, recs[k].entry, items[k])
    {
      var payload := items[i].payload;
      forall k | 0 <= k < i ensures Describes(h, data + payload, recs[k].entry, items[k]) {
        DescribesLonger(h, data, payload, recs[k].entry, items[k]);
      }
      assert (data + payload)[|data|..|data| + |payload|] == payload;
      assert items[..i + 1][..i] == items[..i];
      var e := Entry(h.hash(items[i].key), |data|, |payload|, items[i].count, h.sha(payload));
      recs := recs + [Rec(e, items[i].key)];
      data := data + payload;
    }
    assert items[..|items|] == items;
  }

  datatype Built = TooLarge | Sections(data: seq<byte>, index: seq<byte>)

  /** One data section with its index, unless a payload exceeds the ceiling. */
  method Build(h: Hashing, p: Payloads, items: seq<Item>) returns (r: Built, ghost es: seq<Entry>)
    requires ValidHashing(h) && p.ceiling < HALFWORD && |items| < HALFWORD
    requires forall j :: 0 <= j < |items| ==> items[j].count < HALFWORD
    ensures r.TooLarge? <==> exists j :: 0 <= j < |items| && |items[j].payload| > p.ceiling
    ensures r.Sections? ==> Lists(r.index, es) && |es| == |items| && Indexes(h, items, r.data, es)
  {
    es := [];
    for i := 0 to |items|
      invariant forall j :: 0 <= j < i ==> |items[j].payload| <= p.ceiling
    {
      if |items[i].payload| > p.ceiling {
        return TooLarge, [];
      }
    }
    TotalBounded(items, HALFWORD - 1);
    var data, recs := Lay(h, items);
    var sorted := SortRecs(recs);
    SortedFits(h, items, data, recs, sorted);
    var index := EncodeIndex(sorted);
    es := EntriesOf(sorted);
    SortedIndexes(h, items, data, recs, sorted, es);
    return Sections(data, index), es;
  }

  lemma SortedFits(h: Hashing, items: seq<Item>, data: seq<byte>, recs: seq<Rec>, sorted: seq<Rec>)
    requires ValidHashing(h) && multiset(sorted) == multiset(recs) && |data| < WORD
    requires |recs| == |items| && forall k :: 0 <= k < |items| ==> Describes(h, data, recs[k].entry, items[k])
    requires forall j :: 0 <= j < |items| ==> items[j].count < HALFWORD && |items[j].payload| < HALFWORD
    ensures |sorted| == |items| && forall i :: 0 <= i < |sorted| ==> Fits(sorted[i].entry)
  {
    assert |multiset(sorted)| == |multiset(recs)|;
    forall i | 0 <= i < |sorted| ensures Fits(sorted[i].entry) {
      assert sorted[i] in multiset(recs);
      var k :| 0 <= k < |recs| && recs[k] == sorted[i];
    }
  }

  lemma SortedIndexes(h: Hashing, items: seq<Item>, data: seq<byte>, recs: seq<Rec>, sorted: seq<Rec>, es: seq<Entry>)
    requires multiset(sorted) == multiset(recs) && HashSorted(sorted)
    requires |recs| == |items| && forall k :: 0 <= k < |items| ==> Describes(h, data, recs[k].entry, items[k])
    requires |es| == |sorted| && forall i :: 0 <= i < |sorted| ==> es[i] == sorted[i].entry
    ensures Indexes(h, items, data, es)
  {
    forall i | 0 <= i < |es| ensures DescribesOne(h, items, data, es[i]) {
      assert sorted[i] in multiset(recs);
      var k :| 0 <= k < |recs| && recs[k] == sorted[i];
      assert Describes(h, data, es[i], items[k]);
    }
    forall j | 0 <= j < |items| ensures IsDescribed(h, items[j], data, es) {
      assert recs[j] in multiset(sorted);
      var i :| 0 <= i < |sorted| && sorted[i] == recs[j];
      assert Describes(h, data, es[i], items[j]);
    }
  }
}
