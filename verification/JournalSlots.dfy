/** The journal region in the archive comment: two slots, a checksum over the payload, and a
    writer that always overwrites the older slot. */
module JournalSlots {
  import opened Bytes
  import opened Records

  /** The comment length field of a ZIP end record is two bytes wide (section 4.3.16 of
      PKWARE APPNOTE.TXT), and two slots are laid out inside it. */
  const REGION_SIZE := 65535
  const SLOT_SIZE := 32760
  const HEADER_SIZE := 64
  const CAPACITY := SLOT_SIZE - HEADER_SIZE
  const MAGIC: seq<byte> := [77, 65, 74, 82, 78, 48, 48, 49]

  /** SHA-256 and the JSON check, as parameters. */
  datatype Codec = Codec(sha: seq<byte> -> seq<byte>, parses: seq<byte> -> bool)

  ghost predicate ValidCodec(c: Codec) {
    forall x :: |c.sha(x)| == 32
  }

  datatype SlotRecord = SlotRecord(seqNo: nat, raw: seq<byte>)

  /** What `writeMutationJournal` accepts and can still number. */
  predicate Writable(c: Codec, r: SlotRecord) {
    0 < r.seqNo < 0x1_0000_0000_0000_0000 && 0 < |r.raw| <= CAPACITY && c.parses(r.raw)
  }

  function Header(c: Codec, r: SlotRecord): seq<byte> {
    MAGIC + LittleEndian(r.seqNo, 8) + LittleEndian(|r.raw|, 4) + c.sha(r.raw) + Zeros(12)
  }

  function EncodeSlot(c: Codec, r: SlotRecord): seq<byte>
    requires |r.raw| <= CAPACITY
  {
    Header(c, r) + r.raw + Zeros(CAPACITY - |r.raw|)
  }

  /** The checks of a slot header, before the payload is looked at. */
  predicate PlausibleHeader(h: seq<byte>)
    requires |h| == HEADER_SIZE
  {
    && h[..8] == MAGIC
    && Value(h[8..16]) != 0
    && 0 < Value(h[16..20]) <= CAPACITY
  }

  /** `decodeMutationJournalSlot`. */
  function DecodeSlot(c: Codec, slot: seq<byte>): Option<SlotRecord>
  {
    if |slot| != SLOT_SIZE || !PlausibleHeader(slot[..HEADER_SIZE]) then None
    else
      var n := Value(slot[16..20]);
      HeaderFields(slot);
      var raw := slot[HEADER_SIZE..HEADER_SIZE + n];
      if slot[20..52] != c.sha(raw) || !c.parses(raw) then None
      else Some(SlotRecord(Value(slot[8..16]), raw))
  }

  lemma HeaderFields(slot: seq<byte>)
    requires |slot| == SLOT_SIZE
    ensures slot[..HEADER_SIZE][..8] == slot[..8]
    ensures slot[..HEADER_SIZE][8..16] == slot[8..16]
    ensures slot[..HEADER_SIZE][16..20] == slot[16..20]
    ensures slot[..HEADER_SIZE][20..52] == slot[20..52]
  {
  }

  lemma EncodedHeader(c: Codec, r: SlotRecord)
    requires ValidCodec(c) && Writable(c, r)
    ensures var h := Header(c, r);
            && |h| == HEADER_SIZE
            && PlausibleHeader(h)
            && Value(h[8..16]) == r.seqNo && Value(h[16..20]) == |r.raw| && h[20..52] == c.sha(r.raw)
  {
    Widths();
    LittleEndianRoundTrip(r.seqNo, 8);
    LittleEndianRoundTrip(|r.raw|, 4);
    Fields(MAGIC, LittleEndian(r.seqNo, 8), LittleEndian(|r.raw|, 4), c.sha(r.raw), Zeros(12));
  }

  lemma Fields(magic: seq<byte>, seqNo: seq<byte>, length: seq<byte>, digest: seq<byte>, pad: seq<byte>)
    requires |magic| == 8 && |seqNo| == 8 && |length| == 4 && |digest| == 32
    ensures var h := magic + seqNo + length + digest + pad;
            h[..8] == magic && h[8..16] == seqNo && h[16..20] == length && h[20..52] == digest
  {
  }

  /** Decoding inverts encoding for every payload a slot can hold. */
  lemma DecodeEncodedSlot(c: Codec, r: SlotRecord)
    requires ValidCodec(c) && Writable(c, r)
    ensures |EncodeSlot(c, r)| == SLOT_SIZE
    ensures DecodeSlot(c, EncodeSlot(c, r)) == Some(r)
  {
    var slot := EncodeSlot(c, r);
    EncodedHeader(c, r);
    HeaderFields(slot);
    assert slot[..HEADER_SIZE] == Header(c, r);
    assert slot[HEADER_SIZE..HEADER_SIZE + |r.raw|] == r.raw;
  }

  /** Any slot that starts with a record's header: it decodes to that record exactly when the
      payload is there, provided the checksum does not collide on what is there instead. */
  lemma DecodeUnderHeader(c: Codec, slot: seq<byte>, r: SlotRecord)
    requires ValidCodec(c) && Writable(c, r)
    requires |slot| == SLOT_SIZE && slot[..HEADER_SIZE] == Header(c, r)
    requires NoCollision(c, r.raw, slot[HEADER_SIZE..HEADER_SIZE + |r.raw|])
    ensures DecodeSlot(c, slot) == if slot[HEADER_SIZE..HEADER_SIZE + |r.raw|] == r.raw then Some(r) else None
  {
    EncodedHeader(c, r);
    HeaderFields(slot);
  }

  /** The checksum tells these two payloads apart. */
  predicate NoCollision(c: Codec, a: seq<byte>, b: seq<byte>) {
    c.sha(a) == c.sha(b) ==> a == b
  }

  function SlotAt(region: seq<byte>, i: nat): seq<byte>
    requires |region| == REGION_SIZE && i < 2
  {
    region[i * SLOT_SIZE..(i + 1) * SLOT_SIZE]
  }

  function Newer(a: Option<SlotRecord>, b: Option<SlotRecord>): Option<SlotRecord> {
    if b.Some? && (a.None? || b.value.seqNo > a.value.seqNo) then b else a
  }

  function Decoder(c: Codec): seq<byte> -> Option<SlotRecord> {
    slot => DecodeSlot(c, slot)
  }

  /** `readMutationJournal`, over any slot decoder. */
  function ReadWith(dec: seq<byte> -> Option<SlotRecord>, region: seq<byte>): Option<SlotRecord>
    requires |region| == REGION_SIZE
  {
    Newer(dec(SlotAt(region, 0)), dec(SlotAt(region, 1)))
  }

  function ReadRegion(c: Codec, region: seq<byte>): Option<SlotRecord>
    requires |region| == REGION_SIZE
  {
    ReadWith(Decoder(c), region)
  }

  function SlotOf(seqNo: nat): nat
    requires seqNo > 0
  {
    (seqNo - 1) % 2
  }

  /** A record with sequence s sits in slot (s - 1) mod 2. */
  ghost predicate PlacedWith(dec: seq<byte> -> Option<SlotRecord>, region: seq<byte>) {
    |region| == REGION_SIZE && InSlot(dec(SlotAt(region, 0)), 0) && InSlot(dec(SlotAt(region, 1)), 1)
  }

  ghost predicate Placed(c: Codec, region: seq<byte>) {
    PlacedWith(Decoder(c), region)
  }

  predicate InSlot(d: Option<SlotRecord>, i: nat) {
    d.Some? ==> d.value.seqNo > 0 && SlotOf(d.value.seqNo) == i
  }

  function NextSeq(best: Option<SlotRecord>): nat {
    if best.Some? then best.value.seqNo + 1 else 1
  }

  function PutSlot(region: seq<byte>, i: nat, slot: seq<byte>): seq<byte>
    requires |region| == REGION_SIZE && i < 2 && |slot| == SLOT_SIZE
  {
    region[..i * SLOT_SIZE] + slot + region[(i + 1) * SLOT_SIZE..]
  }

  lemma PutSlotAt(region: seq<byte>, i: nat, slot: seq<byte>)
    requires |region| == REGION_SIZE && i < 2 && |slot| == SLOT_SIZE
    ensures |PutSlot(region, i, slot)| == REGION_SIZE
    ensures SlotAt(PutSlot(region, i, slot), i) == slot
    ensures SlotAt(PutSlot(region, i, slot), 1 - i) == SlotAt(region, 1 - i)
  {
  }

  /** A fresh region of zeros holds no record. */
  lemma BlankRegion(c: Codec)
    ensures Stamped(Zeros(REGION_SIZE)) && ReadRegion(c, Zeros(REGION_SIZE)).None?
  {
    BlankSlot(0);
    BlankSlot(1);
  }

  lemma BlankSlot(i: nat)
    requires i < 2
    ensures !PlausibleHeader(SlotAt(Zeros(REGION_SIZE), i)[..HEADER_SIZE])
  {
    var slot := SlotAt(Zeros(REGION_SIZE), i);
    assert slot[0] == Zeros(REGION_SIZE)[i * SLOT_SIZE] == 0;
    assert slot[..HEADER_SIZE][..8][0] == slot[0];
    assert MAGIC[0] == 77;
  }

  /** A header that could belong to a record sits in the slot of its number, whether or not
      its payload is there. */
  predicate Stamped(region: seq<byte>) {
    |region| == REGION_SIZE && StampFits(HeaderAt(region, 0), 0) && StampFits(HeaderAt(region, 1), 1)
  }

  function HeaderAt(region: seq<byte>, i: nat): (h: seq<byte>)
    requires |region| == REGION_SIZE && i < 2
    ensures |h| == HEADER_SIZE
  {
    SlotAt(region, i)[..HEADER_SIZE]
  }

  predicate StampFits(h: seq<byte>, i: nat)
    requires |h| == HEADER_SIZE
  {
    PlausibleHeader(h) ==> SlotOf(Value(h[8..16])) == i
  }

  /** An interrupted write: the header is old or new as a whole, and of the payload any
      subset of the bytes arrived. */
  ghost predicate Torn(before: seq<byte>, after: seq<byte>, slot: seq<byte>) {
    && |before| == |after| == |slot| == SLOT_SIZE
    && (slot[..HEADER_SIZE] == before[..HEADER_SIZE] || slot[..HEADER_SIZE] == after[..HEADER_SIZE])
    && forall k :: HEADER_SIZE <= k < SLOT_SIZE ==> slot[k] == before[k] || slot[k] == after[k]
  }

  lemma DecodedFits(c: Codec, slot: seq<byte>)
    requires DecodeSlot(c, slot).Some?
    ensures var o := DecodeSlot(c, slot).value;
            && |slot| == SLOT_SIZE && 0 < |o.raw| <= CAPACITY && o.seqNo > 0
            && |o.raw| == Value(slot[16..20]) && o.seqNo == Value(slot[8..16])
            && o.raw == slot[HEADER_SIZE..HEADER_SIZE + |o.raw|]
            && slot[20..52] == c.sha(o.raw) && c.parses(o.raw)
  {
    HeaderFields(slot);
  }

  /** The slot's header is that of record `x`, whatever the payload is. */
  predicate Titled(c: Codec, slot: seq<byte>, x: SlotRecord) {
    && |slot| == SLOT_SIZE
    && PlausibleHeader(slot[..HEADER_SIZE])
    && Value(slot[8..16]) == x.seqNo
    && Value(slot[16..20]) == |x.raw|
    && slot[20..52] == c.sha(x.raw)
    && c.parses(x.raw)
  }

  /** A slot decodes to the records it is titled by whose payload is there. */
  lemma DecodesIff(c: Codec, slot: seq<byte>, x: SlotRecord)
    ensures DecodeSlot(c, slot) == Some(x) <==>
            Titled(c, slot, x) && |x.raw| <= CAPACITY && slot[HEADER_SIZE..HEADER_SIZE + |x.raw|] == x.raw
  {
    if |slot| == SLOT_SIZE {
      HeaderFields(slot);
    }
  }

  lemma TitleFollowsHeader(c: Codec, a: seq<byte>, b: seq<byte>, x: SlotRecord)
    requires Titled(c, a, x) && |b| == SLOT_SIZE && a[..HEADER_SIZE] == b[..HEADER_SIZE]
    ensures Titled(c, b, x)
  {
    HeaderFields(a);
    HeaderFields(b);
  }

  /** Under the new header the checksum is not fooled by the bytes that are there. */
  predicate ChecksumHolds(c: Codec, r: SlotRecord, slot: seq<byte>)
    requires |r.raw| <= CAPACITY
  {
    |slot| == SLOT_SIZE &&
    (slot[..HEADER_SIZE] == EncodeSlot(c, r)[..HEADER_SIZE] ==> NoCollision(c, r.raw, slot[HEADER_SIZE..HEADER_SIZE + |r.raw|]))
  }

  /** Each payload byte of `x` is already there or is the byte that the write of `r` brings. */
  predicate Completable(c: Codec, before: seq<byte>, x: SlotRecord, r: SlotRecord)
    requires |before| == SLOT_SIZE && |x.raw| <= CAPACITY && |r.raw| <= CAPACITY && |EncodeSlot(c, r)| == SLOT_SIZE
  {
    forall k :: 0 <= k < |x.raw| ==>
      before[HEADER_SIZE + k] == x.raw[k] || EncodeSlot(c, r)[HEADER_SIZE + k] == x.raw[k]
  }

  /** What a torn write over any slot can decode to: the new record, nothing, or, if the old
      header stayed, a record of that header which the new bytes complete. */
  lemma TornSlotDecodes(c: Codec, before: seq<byte>, r: SlotRecord, slot: seq<byte>)
    requires ValidCodec(c) && Writable(c, r) && Torn(before, EncodeSlot(c, r), slot) && ChecksumHolds(c, r, slot)
    ensures DecodeSlot(c, slot).None? || DecodeSlot(c, slot) == Some(r) ||
            (before[..HEADER_SIZE] != Header(c, r) && slot[..HEADER_SIZE] == before[..HEADER_SIZE] &&
             var x := DecodeSlot(c, slot).value;
             Titled(c, before, x) && |x.raw| <= CAPACITY && Completable(c, before, x, r))
  {
    DecodeEncodedSlot(c, r);
    EncodedHeader(c, r);
    assert EncodeSlot(c, r)[..HEADER_SIZE] == Header(c, r);
    if slot[..HEADER_SIZE] == Header(c, r) {
      DecodeUnderHeader(c, slot, r);
    } else if DecodeSlot(c, slot).Some? {
      var x := DecodeSlot(c, slot).value;
      DecodesIff(c, slot, x);
      TitleFollowsHeader(c, slot, before, x);
      CompletedBy(c, before, r, slot, x);
    }
  }

  lemma CompletedBy(c: Codec, before: seq<byte>, r: SlotRecord, slot: seq<byte>, x: SlotRecord)
    requires |r.raw| <= CAPACITY && Torn(before, EncodeSlot(c, r), slot)
    requires |x.raw| <= CAPACITY && slot[HEADER_SIZE..HEADER_SIZE + |x.raw|] == x.raw
    ensures Completable(c, before, x, r)
  {
    TakenFromEither(before, EncodeSlot(c, r), slot, x.raw);
  }

  lemma TakenFromEither(before: seq<byte>, after: seq<byte>, slot: seq<byte>, raw: seq<byte>)
    requires Torn(before, after, slot) && |raw| <= CAPACITY && slot[HEADER_SIZE..HEADER_SIZE + |raw|] == raw
    ensures forall k :: 0 <= k < |raw| ==> before[HEADER_SIZE + k] == raw[k] || after[HEADER_SIZE + k] == raw[k]
  {
    forall k | 0 <= k < |raw| ensures before[HEADER_SIZE + k] == raw[k] || after[HEADER_SIZE + k] == raw[k] {
      assert slot[HEADER_SIZE..HEADER_SIZE + |raw|][k] == slot[HEADER_SIZE + k];
    }
  }

  /** The tear that keeps the old header and takes from the write just the bytes `x` lacks. */
  function Completion(before: seq<byte>, x: SlotRecord): seq<byte>
    requires |before| == SLOT_SIZE && |x.raw| <= CAPACITY
  {
    before[..HEADER_SIZE] + x.raw + before[HEADER_SIZE + |x.raw|..]
  }

  lemma CompletionRevives(c: Codec, before: seq<byte>, x: SlotRecord, r: SlotRecord)
    requires ValidCodec(c) && Writable(c, r) && Titled(c, before, x) && |x.raw| <= CAPACITY
    requires |EncodeSlot(c, r)| == SLOT_SIZE && Completable(c, before, x, r) && before[..HEADER_SIZE] != Header(c, r)
    ensures var slot := Completion(before, x);
            Torn(before, EncodeSlot(c, r), slot) && ChecksumHolds(c, r, slot) && DecodeSlot(c, slot) == Some(x)
  {
    var slot := Completion(before, x);
    assert slot[..HEADER_SIZE] == before[..HEADER_SIZE];
    assert slot[HEADER_SIZE..HEADER_SIZE + |x.raw|] == x.raw;
    TitleFollowsHeader(c, before, slot, x);
    DecodesIff(c, slot, x);
    EncodedHeader(c, r);
    assert EncodeSlot(c, r)[..HEADER_SIZE] == Header(c, r);
    forall k | HEADER_SIZE <= k < SLOT_SIZE ensures slot[k] == before[k] || slot[k] == EncodeSlot(c, r)[k] {
      if k < HEADER_SIZE + |x.raw| {
        var i := k - HEADER_SIZE;
        assert slot[k] == x.raw[i];
        assert before[HEADER_SIZE + i] == x.raw[i] || EncodeSlot(c, r)[HEADER_SIZE + i] == x.raw[i];
      }
    }
  }

  // ---- One write -----------------------------------------------------------------------

  lemma StampedIsPlaced(c: Codec, region: seq<byte>)
    requires Stamped(region)
    ensures Placed(c, region)
  {
    StampedSlotPlaced(c, SlotAt(region, 0), 0);
    StampedSlotPlaced(c, SlotAt(region, 1), 1);
  }

  lemma StampedSlotPlaced(c: Codec, slot: seq<byte>, i: nat)
    requires |slot| == SLOT_SIZE && StampFits(slot[..HEADER_SIZE], i)
    ensures InSlot(DecodeSlot(c, slot), i)
  {
    HeaderFields(slot);
    if DecodeSlot(c, slot).Some? {
      DecodedFits(c, slot);
    }
  }

  function LastSeq(best: Option<SlotRecord>): nat {
    if best.Some? then best.value.seqNo else 0
  }

  /** The next record written, and the slot it goes over. */
  function NextRecord(c: Codec, region: seq<byte>, raw: seq<byte>): SlotRecord
    requires |region| == REGION_SIZE
  {
    SlotRecord(NextSeq(ReadRegion(c, region)), raw)
  }

  function Older(c: Codec, region: seq<byte>): seq<byte>
    requires |region| == REGION_SIZE
  {
    SlotAt(region, LastSeq(ReadRegion(c, region)) % 2)
  }

  /** An earlier attempt left its header over the older slot, numbered past the current
      record, and the bytes of this write can complete its payload. */
  ghost predicate Revivable(c: Codec, region: seq<byte>, r: SlotRecord)
    requires |region| == REGION_SIZE && |r.raw| <= CAPACITY && |EncodeSlot(c, r)| == SLOT_SIZE
  {
    var older := Older(c, region);
    older[..HEADER_SIZE] != Header(c, r) &&
    exists x :: x != r && Titled(c, older, x) && |x.raw| <= CAPACITY &&
      x.seqNo > LastSeq(ReadRegion(c, region)) && Completable(c, older, x, r)
  }

  /** The write of the next record, of which `slot` arrived: all of it, or any part. */
  ghost predicate IsWrite(c: Codec, region: seq<byte>, r: SlotRecord, slot: seq<byte>)
    requires |region| == REGION_SIZE
  {
    && r == NextRecord(c, region, r.raw)
    && Writable(c, r)
    && Torn(Older(c, region), EncodeSlot(c, r), slot)
    && ChecksumHolds(c, r, slot)
  }

  function Written(c: Codec, region: seq<byte>, slot: seq<byte>): seq<byte>
    requires |region| == REGION_SIZE && |slot| == SLOT_SIZE
  {
    PutSlot(region, LastSeq(ReadRegion(c, region)) % 2, slot)
  }

  lemma WrittenStamped(c: Codec, region: seq<byte>, r: SlotRecord, slot: seq<byte>)
    requires ValidCodec(c) && Stamped(region) && IsWrite(c, region, r, slot)
    ensures StampFits(slot[..HEADER_SIZE], LastSeq(ReadRegion(c, region)) % 2)
    ensures Stamped(Written(c, region, slot))
  {
    WriteStamp(c, region, r, slot);
    PutStamped(region, LastSeq(ReadRegion(c, region)) % 2, slot);
  }

  lemma WriteStamp(c: Codec, region: seq<byte>, r: SlotRecord, slot: seq<byte>)
    requires ValidCodec(c) && Stamped(region) && IsWrite(c, region, r, slot)
    ensures StampFits(slot[..HEADER_SIZE], LastSeq(ReadRegion(c, region)) % 2)
  {
    var i := LastSeq(ReadRegion(c, region)) % 2;
    assert Older(c, region)[..HEADER_SIZE] == HeaderAt(region, i);
    StampOfWrite(c, Older(c, region), r, slot, i);
  }

  lemma PutStamped(region: seq<byte>, i: nat, slot: seq<byte>)
    requires Stamped(region) && i < 2 && |slot| == SLOT_SIZE && StampFits(slot[..HEADER_SIZE], i)
    ensures Stamped(PutSlot(region, i, slot))
  {
    PutHeaderAt(region, i, slot);
    if i == 0 {
      assert StampFits(HeaderAt(PutSlot(region, 0, slot), 0), 0);
    } else {
      assert StampFits(HeaderAt(PutSlot(region, 1, slot), 1), 1);
    }
  }

  lemma PutHeaderAt(region: seq<byte>, i: nat, slot: seq<byte>)
    requires |region| == REGION_SIZE && i < 2 && |slot| == SLOT_SIZE
    ensures |PutSlot(region, i, slot)| == REGION_SIZE
    ensures HeaderAt(PutSlot(region, i, slot), i) == slot[..HEADER_SIZE]
    ensures HeaderAt(PutSlot(region, i, slot), 1 - i) == HeaderAt(region, 1 - i)
  {
    PutSlotAt(region, i, slot);
  }

  lemma StampOfWrite(c: Codec, before: seq<byte>, r: SlotRecord, slot: seq<byte>, i: nat)
    requires ValidCodec(c) && Writable(c, r) && Torn(before, EncodeSlot(c, r), slot)
    requires StampFits(before[..HEADER_SIZE], i) && SlotOf(r.seqNo) == i
    ensures StampFits(slot[..HEADER_SIZE], i)
  {
    EncodedHeader(c, r);
    EncodedStarts(c, r);
  }

  lemma EncodedStarts(c: Codec, r: SlotRecord)
    requires |r.raw| <= CAPACITY && |Header(c, r)| == HEADER_SIZE
    ensures |EncodeSlot(c, r)| >= HEADER_SIZE && EncodeSlot(c, r)[..HEADER_SIZE] == Header(c, r)
  {
  }

  /** What the reader finds once the older slot decodes to `d`. */
  lemma ReadWritten(c: Codec, region: seq<byte>, slot: seq<byte>)
    requires Stamped(region) && |slot| == SLOT_SIZE
    ensures var best := ReadRegion(c, region); var d := DecodeSlot(c, slot); var found := ReadRegion(c, Written(c, region, slot));
            found == (if d.Some? && d.value.seqNo > LastSeq(best) then d else best) ||
            (d.Some? && d.value.seqNo == LastSeq(best))
  {
    StampedIsPlaced(c, region);
    PickWritten(Decoder(c), region, slot);
  }

  lemma PickWritten(dec: seq<byte> -> Option<SlotRecord>, region: seq<byte>, slot: seq<byte>)
    requires PlacedWith(dec, region) && |slot| == SLOT_SIZE
    ensures var best := ReadWith(dec, region);
            var found := ReadWith(dec, PutSlot(region, LastSeq(best) % 2, slot));
            found == (if dec(slot).Some? && dec(slot).value.seqNo > LastSeq(best) then dec(slot) else best) ||
            (dec(slot).Some? && dec(slot).value.seqNo == LastSeq(best))
  {
    var i := LastSeq(ReadWith(dec, region)) % 2;
    Pick(dec(SlotAt(region, 0)), dec(SlotAt(region, 1)), dec(slot));
    if i == 0 {
      PutSlotAt(region, 0, slot);
    } else {
      PutSlotAt(region, 1, slot);
    }
  }

  /** The record in the slot that stays is the best one so far, if there is one. */
  lemma Pick(d0: Option<SlotRecord>, d1: Option<SlotRecord>, d: Option<SlotRecord>)
    requires InSlot(d0, 0) && InSlot(d1, 1)
    ensures var best := Newer(d0, d1);
            var found := if LastSeq(best) % 2 == 0 then Newer(d, d1) else Newer(d0, d);
            found == (if d.Some? && d.value.seqNo > LastSeq(best) then d else best) ||
            (d.Some? && d.value.seqNo == LastSeq(best))
  {
  }

  /** Crash atomicity: unless an earlier attempt can be completed, whatever part of the write
      arrived, a reader finds the previous record or the new one. */
  lemma TornWriteIsAtomic(c: Codec, region: seq<byte>, r: SlotRecord, slot: seq<byte>)
    requires ValidCodec(c) && Stamped(region) && IsWrite(c, region, r, slot)
    requires |EncodeSlot(c, r)| == SLOT_SIZE && !Revivable(c, region, r)
    ensures ReadRegion(c, Written(c, region, slot)) in {ReadRegion(c, region), Some(r)}
  {
    TornSlotDecodes(c, Older(c, region), r, slot);
    ReadWritten(c, region, slot);
    if DecodeSlot(c, slot).Some? {
      NumberedApart(c, region, r, slot);
    }
  }

  /** Neither header can carry the number of the record in the other slot. */
  lemma NumberedApart(c: Codec, region: seq<byte>, r: SlotRecord, slot: seq<byte>)
    requires ValidCodec(c) && Stamped(region) && IsWrite(c, region, r, slot) && DecodeSlot(c, slot).Some?
    ensures DecodeSlot(c, slot).value.seqNo != LastSeq(ReadRegion(c, region))
  {
    WrittenStamped(c, region, r, slot);
    DecodedFits(c, slot);
    HeaderFields(slot);
    ApartBySlot(DecodeSlot(c, slot).value.seqNo, LastSeq(ReadRegion(c, region)));
  }

  lemma ApartBySlot(a: nat, last: nat)
    requires a > 0 && SlotOf(a) == last % 2
    ensures a != last
  {
  }

  /** Exactly when a write is crash-atomic: every tear of it leaves the previous or the new
      record if and only if no earlier attempt at a newer number can be completed by it. */
  lemma AtomicIff(c: Codec, region: seq<byte>, r: SlotRecord)
    requires ValidCodec(c) && Stamped(region) && Writable(c, r) && r == NextRecord(c, region, r.raw)
    requires |EncodeSlot(c, r)| == SLOT_SIZE
    ensures !Revivable(c, region, r) <==>
            forall slot :: IsWrite(c, region, r, slot) ==>
              ReadRegion(c, Written(c, region, slot)) in {ReadRegion(c, region), Some(r)}
  {
    if Revivable(c, region, r) {
      var x := Revived(c, region, r);
    } else {
      forall slot | IsWrite(c, region, r, slot)
        ensures ReadRegion(c, Written(c, region, slot)) in {ReadRegion(c, region), Some(r)}
      {
        TornWriteIsAtomic(c, region, r, slot);
      }
    }
  }

  /** The tear that brings the earlier attempt back, as the reader sees it. */
  lemma Revived(c: Codec, region: seq<byte>, r: SlotRecord) returns (x: SlotRecord)
    requires ValidCodec(c) && Stamped(region) && Writable(c, r) && r == NextRecord(c, region, r.raw)
    requires |EncodeSlot(c, r)| == SLOT_SIZE && Revivable(c, region, r)
    ensures |x.raw| <= CAPACITY && x != r && x.seqNo > LastSeq(ReadRegion(c, region))
    ensures var slot := Completion(Older(c, region), x);
            IsWrite(c, region, r, slot) && ReadRegion(c, Written(c, region, slot)) == Some(x) &&
            Some(x) !in {ReadRegion(c, region), Some(r)}
  {
    var older := Older(c, region);
    x :| x != r && Titled(c, older, x) && |x.raw| <= CAPACITY &&
      x.seqNo > LastSeq(ReadRegion(c, region)) && Completable(c, older, x, r);
    CompletionRevives(c, older, x, r);
    ReadWritten(c, region, Completion(older, x));
  }

  lemma EncodedPayload(c: Codec, r: SlotRecord)
    requires ValidCodec(c) && Writable(c, r)
    ensures |EncodeSlot(c, r)| == SLOT_SIZE
    ensures EncodeSlot(c, r)[..HEADER_SIZE] == Header(c, r)
    ensures EncodeSlot(c, r)[HEADER_SIZE..HEADER_SIZE + |r.raw|] == r.raw
    ensures forall k :: 0 <= k < |r.raw| ==> EncodeSlot(c, r)[HEADER_SIZE + k] == r.raw[k]
  {
    EncodedHeader(c, r);
  }

  /** A write that arrived whole is what the next reader finds. */
  lemma CompleteWriteIsRead(c: Codec, region: seq<byte>, r: SlotRecord)
    requires ValidCodec(c) && Stamped(region) && Writable(c, r) && r == NextRecord(c, region, r.raw)
    ensures |EncodeSlot(c, r)| == SLOT_SIZE
    ensures IsWrite(c, region, r, EncodeSlot(c, r))
    ensures ReadRegion(c, Written(c, region, EncodeSlot(c, r))) == Some(r)
  {
    DecodeEncodedSlot(c, r);
    EncodedPayload(c, r);
    var slot := EncodeSlot(c, r);
    assert slot[HEADER_SIZE..HEADER_SIZE + |r.raw|] == r.raw;
    ReadWritten(c, region, slot);
  }

  /** What makes a write revivable: the header of an attempt at its own number or a later
      one, over a slot that does not decode. */
  ghost predicate Remnant(c: Codec, region: seq<byte>)
    requires |region| == REGION_SIZE
  {
    var h := HeaderAt(region, LastSeq(ReadRegion(c, region)) % 2);
    PlausibleHeader(h) && Value(h[8..16]) > LastSeq(ReadRegion(c, region))
  }

  lemma RevivableNeedsRemnant(c: Codec, region: seq<byte>, r: SlotRecord)
    requires |region| == REGION_SIZE && |r.raw| <= CAPACITY && |EncodeSlot(c, r)| == SLOT_SIZE && Revivable(c, region, r)
    ensures Remnant(c, region)
  {
    HeaderFields(Older(c, region));
  }

  /** Why the condition is needed. A first write of `x` is interrupted after its header and
      its first `j` payload bytes, and the reader still finds the old record; a second one, of
      `y`, is interrupted so that only later bytes arrive. Where `x` and `y` agree on those,
      the reader now finds `x`, neither the previous nor the new record. */
  lemma TwiceTornRevives(c: Codec, region: seq<byte>, x: seq<byte>, y: seq<byte>, j: nat) returns (first: seq<byte>, second: seq<byte>)
    requires ValidCodec(c) && Stamped(region)
    requires Writable(c, NextRecord(c, region, x)) && Writable(c, NextRecord(c, region, y))
    requires |x| == |y| && j <= |x| && x[j..] == y[j..] && c.sha(x) != c.sha(y)
    requires Older(c, region)[HEADER_SIZE + j..HEADER_SIZE + |x|] != x[j..]
    requires NoCollision(c, x, x[..j] + Older(c, region)[HEADER_SIZE + j..HEADER_SIZE + |x|])
    ensures var rx, ry := NextRecord(c, region, x), NextRecord(c, region, y);
            && IsWrite(c, region, rx, first)
            && ReadRegion(c, Written(c, region, first)) == ReadRegion(c, region)
            && IsWrite(c, Written(c, region, first), ry, second)
            && ReadRegion(c, Written(c, Written(c, region, first), second)) == Some(rx)
            && Some(rx) !in {ReadRegion(c, region), Some(ry)}
  {
    var rx, ry := NextRecord(c, region, x), NextRecord(c, region, y);
    first := FirstTear(c, Older(c, region), rx, j);
    UnreadWrite(c, region, rx, first);
    TearCompletable(c, Older(c, region), first, rx, ry, j);
    second := Completion(first, rx);
    CompletionRevives(c, first, rx, ry);
    ReadWritten(c, Written(c, region, first), second);
  }

  /** A torn write that decodes to nothing leaves what the reader finds, and its bytes in the
      slot that the next write goes to. */
  lemma UnreadWrite(c: Codec, region: seq<byte>, r: SlotRecord, slot: seq<byte>)
    requires ValidCodec(c) && Stamped(region) && IsWrite(c, region, r, slot) && DecodeSlot(c, slot).None?
    ensures Stamped(Written(c, region, slot)) && ReadRegion(c, Written(c, region, slot)) == ReadRegion(c, region)
    ensures Older(c, Written(c, region, slot)) == slot
  {
    ReadWritten(c, region, slot);
    PutSlotAt(region, LastSeq(ReadRegion(c, region)) % 2, slot);
    WrittenStamped(c, region, r, slot);
  }

  /** The header and the first `j` payload bytes of a write arrive. */
  lemma FirstTear(c: Codec, older: seq<byte>, r: SlotRecord, j: nat) returns (first: seq<byte>)
    requires ValidCodec(c) && Writable(c, r) && |older| == SLOT_SIZE && j <= |r.raw|
    requires older[HEADER_SIZE + j..HEADER_SIZE + |r.raw|] != r.raw[j..]
    requires NoCollision(c, r.raw, r.raw[..j] + older[HEADER_SIZE + j..HEADER_SIZE + |r.raw|])
    ensures first == Header(c, r) + r.raw[..j] + older[HEADER_SIZE + j..] && |first| == SLOT_SIZE
    ensures first[..HEADER_SIZE] == Header(c, r) && Titled(c, first, r)
    ensures Torn(older, EncodeSlot(c, r), first) && ChecksumHolds(c, r, first) && DecodeSlot(c, first).None?
  {
    PaddedHeader(c, r);
    first := Header(c, r) + r.raw[..j] + older[HEADER_SIZE + j..];
    TearSlices(Header(c, r), r.raw[..j], older, |r.raw|);
    TearUndecoded(c, first, r, j);
    TearIsTorn(c, older, r, j);
  }

  lemma TearIsTorn(c: Codec, older: seq<byte>, r: SlotRecord, j: nat)
    requires ValidCodec(c) && Writable(c, r) && |older| == SLOT_SIZE && j <= |r.raw|
    ensures Torn(older, EncodeSlot(c, r), Header(c, r) + r.raw[..j] + older[HEADER_SIZE + j..])
  {
    PaddedHeader(c, r);
    TearSlices(Header(c, r), r.raw[..j], older, |r.raw|);
    EncodedPrefix(c, r, j);
    PrefixTorn(older, EncodeSlot(c, r), Header(c, r) + r.raw[..j] + older[HEADER_SIZE + j..], HEADER_SIZE + j);
  }

  lemma EncodedPrefix(c: Codec, r: SlotRecord, j: nat)
    requires ValidCodec(c) && Writable(c, r) && j <= |r.raw|
    ensures |EncodeSlot(c, r)| == SLOT_SIZE && EncodeSlot(c, r)[..HEADER_SIZE + j] == Header(c, r) + r.raw[..j]
  {
    EncodedHeader(c, r);
  }

  lemma TearUndecoded(c: Codec, slot: seq<byte>, r: SlotRecord, j: nat)
    requires ValidCodec(c) && Writable(c, r) && |slot| == SLOT_SIZE && j <= |r.raw|
    requires slot[..HEADER_SIZE] == Header(c, r)
    requires slot[HEADER_SIZE..HEADER_SIZE + |r.raw|][j..] != r.raw[j..]
    requires NoCollision(c, r.raw, slot[HEADER_SIZE..HEADER_SIZE + |r.raw|])
    ensures Titled(c, slot, r) && ChecksumHolds(c, r, slot) && DecodeSlot(c, slot).None?
  {
    EncodedPayload(c, r);
    DecodeEncodedSlot(c, r);
    DecodesIff(c, EncodeSlot(c, r), r);
    TitleFollowsHeader(c, EncodeSlot(c, r), slot, r);
    DecodeUnderHeader(c, slot, r);
  }

  lemma TearSlices(h: seq<byte>, a: seq<byte>, older: seq<byte>, n: nat)
    requires |h| == HEADER_SIZE && |a| <= n <= CAPACITY && |older| == SLOT_SIZE
    ensures var f := h + a + older[HEADER_SIZE + |a|..]; var p := f[HEADER_SIZE..HEADER_SIZE + n];
            && |f| == SLOT_SIZE && f[..HEADER_SIZE] == h
            && f[..HEADER_SIZE + |a|] == h + a && f[HEADER_SIZE + |a|..] == older[HEADER_SIZE + |a|..]
            && p == a + older[HEADER_SIZE + |a|..HEADER_SIZE + n]
            && p[|a|..] == older[HEADER_SIZE + |a|..HEADER_SIZE + n]
  {
  }

  /** A prefix of the write arrives. */
  lemma PrefixTorn(before: seq<byte>, after: seq<byte>, slot: seq<byte>, n: nat)
    requires |before| == |after| == |slot| == SLOT_SIZE && HEADER_SIZE <= n <= SLOT_SIZE
    requires slot[..n] == after[..n] && slot[n..] == before[n..]
    ensures Torn(before, after, slot)
  {
    assert slot[..n][..HEADER_SIZE] == after[..n][..HEADER_SIZE];
    forall k | HEADER_SIZE <= k < SLOT_SIZE ensures slot[k] == before[k] || slot[k] == after[k] {
      if k < n {
        assert slot[..n][k] == after[..n][k];
      } else {
        assert slot[n..][k - n] == before[n..][k - n];
      }
    }
  }

  lemma TearCompletable(c: Codec, older: seq<byte>, first: seq<byte>, rx: SlotRecord, ry: SlotRecord, j: nat)
    requires ValidCodec(c) && Writable(c, rx) && Writable(c, ry) && |older| == SLOT_SIZE && j <= |rx.raw| == |ry.raw|
    requires rx.raw[j..] == ry.raw[j..] && c.sha(rx.raw) != c.sha(ry.raw)
    requires first == Header(c, rx) + rx.raw[..j] + older[HEADER_SIZE + j..] && |first| == SLOT_SIZE
    requires first[..HEADER_SIZE] == Header(c, rx)
    ensures |EncodeSlot(c, ry)| == SLOT_SIZE && Completable(c, first, rx, ry) && Header(c, rx) != Header(c, ry)
  {
    EncodedHeader(c, rx);
    EncodedHeader(c, ry);
    EncodedPayload(c, ry);
    forall k | 0 <= k < |rx.raw|
      ensures first[HEADER_SIZE + k] == rx.raw[k] || EncodeSlot(c, ry)[HEADER_SIZE + k] == rx.raw[k]
    {
      if k >= j {
        assert rx.raw[j..][k - j] == ry.raw[j..][k - j];
      }
    }
  }

  // ---- Runs of writes ------------------------------------------------------------------

  /** One write of a run: the record, and what arrived of it. */
  datatype Write = Write(r: SlotRecord, slot: seq<byte>)

  ghost predicate WriteRun(c: Codec, region: seq<byte>, ws: seq<Write>)
    requires |region| == REGION_SIZE
    decreases |ws|
  {
    |ws| == 0 ||
    (IsWrite(c, region, ws[0].r, ws[0].slot) && |Written(c, region, ws[0].slot)| == REGION_SIZE &&
     WriteRun(c, Written(c, region, ws[0].slot), ws[1..]))
  }

  ghost function RegionAfter(c: Codec, region: seq<byte>, ws: seq<Write>): (after: seq<byte>)
    requires |region| == REGION_SIZE && WriteRun(c, region, ws)
    ensures |after| == REGION_SIZE
    decreases |ws|
  {
    if |ws| == 0 then region else RegionAfter(c, Written(c, region, ws[0].slot), ws[1..])
  }

  /** No write of the run can complete an earlier attempt. */
  ghost predicate Careful(c: Codec, region: seq<byte>, ws: seq<Write>)
    requires |region| == REGION_SIZE && WriteRun(c, region, ws)
    decreases |ws|
  {
    |ws| == 0 ||
    (|EncodeSlot(c, ws[0].r)| == SLOT_SIZE && !Revivable(c, region, ws[0].r) &&
     Careful(c, Written(c, region, ws[0].slot), ws[1..]))
  }

  /** After every write the reader finds what it found before, or the record just written. */
  ghost predicate Faithful(c: Codec, region: seq<byte>, ws: seq<Write>)
    requires |region| == REGION_SIZE && WriteRun(c, region, ws)
    decreases |ws|
  {
    |ws| == 0 ||
    (ReadRegion(c, Written(c, region, ws[0].slot)) in {ReadRegion(c, region), Some(ws[0].r)} &&
     Faithful(c, Written(c, region, ws[0].slot), ws[1..]))
  }

  /** Any sequence of complete and torn writes: it is atomic write by write if none of them
      can complete an earlier attempt, and in any case the reader's number never goes back. */
  lemma {:induction false} RunIsAtomic(c: Codec, region: seq<byte>, ws: seq<Write>)
    requires ValidCodec(c) && Stamped(region) && WriteRun(c, region, ws)
    ensures Stamped(RegionAfter(c, region, ws))
    ensures LastSeq(ReadRegion(c, region)) <= LastSeq(ReadRegion(c, RegionAfter(c, region, ws)))
    ensures Careful(c, region, ws) ==> Faithful(c, region, ws)
    decreases |ws|
  {
    if |ws| > 0 {
      var w := ws[0];
      var next := Written(c, region, w.slot);
      WrittenStamped(c, region, w.r, w.slot);
      ReadWritten(c, region, w.slot);
      if DecodeSlot(c, w.slot).Some? {
        NumberedApart(c, region, w.r, w.slot);
      }
      if Careful(c, region, ws) {
        TornWriteIsAtomic(c, region, w.r, w.slot);
      }
      RunIsAtomic(c, next, ws[1..]);
    }
  }

  // ---- Crashes one at a time -----------------------------------------------------------

  predicate NumberFits(h: seq<byte>, last: nat)
    requires |h| == HEADER_SIZE
  {
    PlausibleHeader(h) ==> Value(h[8..16]) <= last + 1
  }

  /** No header runs ahead of the next number. */
  predicate Numbered(c: Codec, region: seq<byte>) {
    |region| == REGION_SIZE && NumberFits(HeaderAt(region, 0), LastSeq(ReadRegion(c, region))) &&
    NumberFits(HeaderAt(region, 1), LastSeq(ReadRegion(c, region)))
  }

  lemma NumberOfWrite(c: Codec, before: seq<byte>, r: SlotRecord, slot: seq<byte>, last: nat)
    requires ValidCodec(c) && Writable(c, r) && Torn(before, EncodeSlot(c, r), slot)
    requires NumberFits(before[..HEADER_SIZE], last) && r.seqNo == last + 1
    ensures NumberFits(slot[..HEADER_SIZE], last)
  {
    EncodedPayload(c, r);
    EncodedHeader(c, r);
  }

  /** Once a record has landed, its number is the last one and no header is past it. */
  lemma LandedLeavesNoRemnant(c: Codec, region: seq<byte>, r: SlotRecord, slot: seq<byte>)
    requires ValidCodec(c) && Stamped(region) && Numbered(c, region) && IsWrite(c, region, r, slot)
    requires ReadRegion(c, Written(c, region, slot)) == Some(r)
    ensures Numbered(c, Written(c, region, slot)) && !Remnant(c, Written(c, region, slot))
  {
    var last := LastSeq(ReadRegion(c, region));
    WriteNumbered(c, region, r, slot);
    NoRemnantFrom(c, Written(c, region, slot), last);
  }

  lemma WriteNumbered(c: Codec, region: seq<byte>, r: SlotRecord, slot: seq<byte>)
    requires ValidCodec(c) && Numbered(c, region) && IsWrite(c, region, r, slot)
    ensures |Written(c, region, slot)| == REGION_SIZE
    ensures NumberFits(HeaderAt(Written(c, region, slot), 0), LastSeq(ReadRegion(c, region)))
    ensures NumberFits(HeaderAt(Written(c, region, slot), 1), LastSeq(ReadRegion(c, region)))
  {
    var last := LastSeq(ReadRegion(c, region));
    var i := last % 2;
    assert Older(c, region)[..HEADER_SIZE] == HeaderAt(region, i);
    assert i == 0 || i == 1;
    NumberOfWrite(c, Older(c, region), r, slot, last);
    PutNumbered(region, i, slot, last);
  }

  lemma NoRemnantFrom(c: Codec, region: seq<byte>, last: nat)
    requires |region| == REGION_SIZE && LastSeq(ReadRegion(c, region)) == last + 1
    requires NumberFits(HeaderAt(region, 0), last) && NumberFits(HeaderAt(region, 1), last)
    ensures Numbered(c, region) && !Remnant(c, region)
  {
    NothingPast(HeaderAt(region, 0), last);
    NothingPast(HeaderAt(region, 1), last);
    var i := (last + 1) % 2;
    assert i == 0 || i == 1;
  }

  lemma NothingPast(h: seq<byte>, last: nat)
    requires |h| == HEADER_SIZE && NumberFits(h, last)
    ensures NumberFits(h, last + 1) && !(PlausibleHeader(h) && Value(h[8..16]) > last + 1)
  {
  }

  lemma PutNumbered(region: seq<byte>, i: nat, slot: seq<byte>, last: nat)
    requires |region| == REGION_SIZE && i < 2 && |slot| == SLOT_SIZE
    requires NumberFits(HeaderAt(region, 0), last) && NumberFits(HeaderAt(region, 1), last) && NumberFits(slot[..HEADER_SIZE], last)
    ensures |PutSlot(region, i, slot)| == REGION_SIZE
    ensures NumberFits(HeaderAt(PutSlot(region, i, slot), 0), last)
    ensures NumberFits(HeaderAt(PutSlot(region, i, slot), 1), last)
  {
    PutHeaderAt(region, i, slot);
    if i == 0 {
      assert NumberFits(HeaderAt(PutSlot(region, 0, slot), 0), last);
    } else {
      assert NumberFits(HeaderAt(PutSlot(region, 1, slot), 1), last);
    }
  }

  /** Every write but the last one landed. */
  ghost predicate CrashesOnce(c: Codec, region: seq<byte>, ws: seq<Write>)
    requires |region| == REGION_SIZE && WriteRun(c, region, ws)
    decreases |ws|
  {
    |ws| <= 1 ||
    (ReadRegion(c, Written(c, region, ws[0].slot)) == Some(ws[0].r) &&
     CrashesOnce(c, Written(c, region, ws[0].slot), ws[1..]))
  }

  /** Any number of writes that landed and then one that may be torn: atomic throughout,
      whatever the payloads are. */
  lemma {:induction false} OneCrashIsAtomic(c: Codec, region: seq<byte>, ws: seq<Write>)
    requires ValidCodec(c) && Stamped(region) && Numbered(c, region) && !Remnant(c, region)
    requires WriteRun(c, region, ws) && CrashesOnce(c, region, ws)
    ensures Careful(c, region, ws) && Faithful(c, region, ws)
    decreases |ws|
  {
    RunIsAtomic(c, region, ws);
    if |ws| > 0 {
      var w := ws[0];
      EncodedPayload(c, w.r);
      if Revivable(c, region, w.r) {
        RevivableNeedsRemnant(c, region, w.r);
      }
      if |ws| > 1 {
        WrittenStamped(c, region, w.r, w.slot);
        LandedLeavesNoRemnant(c, region, w.r, w.slot);
        OneCrashIsAtomic(c, Written(c, region, w.slot), ws[1..]);
      }
    }
  }

  /** A fresh region is where such runs start. */
  lemma BlankStarts(c: Codec)
    ensures Stamped(Zeros(REGION_SIZE)) && Numbered(c, Zeros(REGION_SIZE)) && !Remnant(c, Zeros(REGION_SIZE))
  {
    BlankRegion(c);
    BlankSlot(0);
    BlankSlot(1);
  }

  /** `writeMutationJournal`: build the slot in a buffer and write it over the slot that the
      previous number does not occupy. The number is a `uint64` and wraps. */
  method WriteMutationJournal(c: Codec, region: array<byte>, previousSeq: nat, raw: seq<byte>) returns (ok: bool)
    requires ValidCodec(c) && region.Length == REGION_SIZE && previousSeq < 0x1_0000_0000_0000_0000
    modifies region
    ensures ok <==> 0 < |raw| <= CAPACITY
    ensures !ok ==> region[..] == old(region[..])
    ensures ok ==> |EncodeSlot(c, SlotRecord(Add64(previousSeq, 1), raw))| == SLOT_SIZE
    ensures ok ==> region[..] == PutSlot(old(region[..]), previousSeq % 2,
                                         EncodeSlot(c, SlotRecord(Add64(previousSeq, 1), raw)))
    ensures ok && LastSeq(ReadRegion(c, old(region[..]))) == previousSeq ==>
              region[..] == Written(c, old(region[..]), EncodeSlot(c, SlotRecord(Add64(previousSeq, 1), raw)))
  {
    if |raw| == 0 || |raw| > CAPACITY {
      return false;
    }
    var slot := BuildSlot(c, SlotRecord(Add64(previousSeq, 1), raw));
    var slotIndex := previousSeq % 2;
    CopyInto(region, slotIndex * SLOT_SIZE, slot[..]);
    return true;
  }

  /** The number after the last one is zero, which no reader accepts. */
  lemma WrappedIsUnreadable(c: Codec, raw: seq<byte>)
    requires ValidCodec(c) && |raw| <= CAPACITY
    ensures Add64(0xFFFF_FFFF_FFFF_FFFF, 1) == 0
    ensures DecodeSlot(c, EncodeSlot(c, SlotRecord(0, raw))).None?
  {
    var r := SlotRecord(0, raw);
    PaddedHeader(c, r);
    var slot := EncodeSlot(c, r);
    Widths();
    LittleEndianRoundTrip(0, 8);
    if |slot| == SLOT_SIZE {
      assert slot[..HEADER_SIZE] == Header(c, r);
      assert slot[..HEADER_SIZE][8..16] == LittleEndian(0, 8);
    }
  }

  method BuildSlot(c: Codec, r: SlotRecord) returns (slot: array<byte>)
    requires ValidCodec(c) && |r.raw| <= CAPACITY
    ensures fresh(slot) && slot[..] == EncodeSlot(c, r) && slot.Length == SLOT_SIZE
  {
    slot := new byte[SLOT_SIZE](_ => 0);
    var number, length, sum := LittleEndian(r.seqNo, 8), LittleEndian(|r.raw|, 4), c.sha(r.raw);
    assert slot[..] == [] + Zeros(SLOT_SIZE);
    Fill(slot, 0, [], MAGIC);
    Fill(slot, 8, [] + MAGIC, number);
    Fill(slot, 16, [] + MAGIC + number, length);
    Fill(slot, 20, [] + MAGIC + number + length, sum);
    PaddedHeader(c, r);
    Fill(slot, HEADER_SIZE, Header(c, r), r.raw);
  }

  lemma PaddedHeader(c: Codec, r: SlotRecord)
    requires ValidCodec(c)
    ensures |Header(c, r)| == HEADER_SIZE
    ensures [] + MAGIC + LittleEndian(r.seqNo, 8) + LittleEndian(|r.raw|, 4) + c.sha(r.raw) + Zeros(SLOT_SIZE - 52) ==
            Header(c, r) + Zeros(CAPACITY)
  {
    assert Zeros(12) + Zeros(CAPACITY) == Zeros(SLOT_SIZE - 52);
  }

  /** Writes the next field of a slot that is still zero behind the fields before it. */
  method Fill(slot: array<byte>, off: nat, ghost prefix: seq<byte>, field: seq<byte>)
    requires off == |prefix| && off + |field| <= slot.Length && slot[..] == prefix + Zeros(slot.Length - off)
    modifies slot
    ensures slot[..] == prefix + field + Zeros(slot.Length - off - |field|)
  {
    ghost var was := slot[..];
    CopyInto(slot, off, field);
    assert was[..off] == prefix;
    assert was[off + |field|..] == Zeros(slot.Length - off - |field|);
  }

  /** `readMutationJournal`. */
  method ReadMutationJournal(c: Codec, region: array<byte>) returns (best: Option<SlotRecord>)
    requires region.Length == REGION_SIZE
    ensures best == ReadRegion(c, region[..])
    ensures Placed(c, region[..]) && best.Some? ==> DecodeSlot(c, SlotAt(region[..], SlotOf(best.value.seqNo))) == best
  {
    best := None;
    var i := 0;
    while i < 2
      invariant 0 <= i <= 2
      invariant i >= 1 ==> best == if i == 1 then DecodeSlot(c, SlotAt(region[..], 0)) else ReadRegion(c, region[..])
      invariant i == 0 ==> best.None?
    {
      var start := i * SLOT_SIZE;
      var rec := DecodeSlot(c, region[start..start + SLOT_SIZE]);
      assert region[start..start + SLOT_SIZE] == SlotAt(region[..], i);
      if rec.Some? && (best.None? || rec.value.seqNo > best.value.seqNo) {
        best := rec;
      }
      i := i + 1;
    }
  }
}
