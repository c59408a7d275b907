/** A body file as bytes: the base image with the journal region behind it. Ties the journal
    record that the engine works with to the two slots it is written in. */
module JournalBytes {
  import opened Records
  import opened Bytes
  import J = JournalSlots
  import M = MutationJournal

  /** JSON of a payload, beside the slot format's own parameters. */
  datatype Packing = Packing(slots: J.Codec, marshal: M.Payload -> seq<byte>, unmarshal: seq<byte> -> M.Payload)

  ghost predicate ValidPacking(k: Packing) {
    J.ValidCodec(k.slots) && forall p :: k.unmarshal(k.marshal(p)) == p && k.slots.parses(k.marshal(p))
  }

  datatype File = File(base: map<string, Memory>, region: seq<byte>)

  predicate WellFormed(f: File) {
    J.Stamped(f.region)
  }

  function RecordOf(k: Packing, r: Option<J.SlotRecord>): Option<M.Record> {
    if r.Some? then Some(M.Record(r.value.seqNo, k.unmarshal(r.value.raw))) else None
  }

  /** The file as the engine sees it. */
  function DiskOf(k: Packing, f: File): M.Disk
    requires |f.region| == J.REGION_SIZE
  {
    M.Disk(f.base, M.Journal(RecordOf(k, J.ReadRegion(k.slots, f.region))))
  }

  /** The slot record of the next payload. */
  function NextSlot(k: Packing, f: File, p: M.Payload): J.SlotRecord
    requires |f.region| == J.REGION_SIZE
  {
    J.NextRecord(k.slots, f.region, k.marshal(p))
  }

  function WrittenFile(k: Packing, f: File, slot: seq<byte>): File
    requires |f.region| == J.REGION_SIZE && |slot| == J.SLOT_SIZE
  {
    f.(region := J.Written(k.slots, f.region, slot))
  }

  lemma WriteKeepsForm(k: Packing, f: File, p: M.Payload, slot: seq<byte>)
    requires ValidPacking(k) && WellFormed(f) && J.IsWrite(k.slots, f.region, NextSlot(k, f, p), slot)
    ensures |WrittenFile(k, f, slot).region| == J.REGION_SIZE && WellFormed(WrittenFile(k, f, slot))
  {
    J.WrittenStamped(k.slots, f.region, NextSlot(k, f, p), slot);
  }

  lemma NextNumber(k: Packing, f: File, p: M.Payload)
    requires ValidPacking(k) && |f.region| == J.REGION_SIZE
    ensures M.Journaled(DiskOf(k, f), p) == M.Disk(f.base, M.Journal(RecordOf(k, Some(NextSlot(k, f, p)))))
  {
  }

  /** A slot write that arrived whole is the engine's successful journal write. */
  lemma CompleteWriteRefines(k: Packing, f: File, p: M.Payload)
    requires ValidPacking(k) && WellFormed(f) && J.Writable(k.slots, NextSlot(k, f, p))
    ensures |J.EncodeSlot(k.slots, NextSlot(k, f, p))| == J.SLOT_SIZE
    ensures var g := WrittenFile(k, f, J.EncodeSlot(k.slots, NextSlot(k, f, p)));
            |g.region| == J.REGION_SIZE && DiskOf(k, g) == M.Journaled(DiskOf(k, f), p)
  {
    var r := NextSlot(k, f, p);
    J.CompleteWriteIsRead(k.slots, f.region, r);
    WriteKeepsForm(k, f, p, J.EncodeSlot(k.slots, r));
    NextNumber(k, f, p);
  }

  /** An interrupted slot write that cannot complete an earlier attempt is one of the
      engine's two failed outcomes: the disk as before, or the record landed. */
  lemma TornWriteRefines(k: Packing, f: File, p: M.Payload, slot: seq<byte>)
    requires ValidPacking(k) && WellFormed(f) && J.IsWrite(k.slots, f.region, NextSlot(k, f, p), slot)
    requires |J.EncodeSlot(k.slots, NextSlot(k, f, p))| == J.SLOT_SIZE
    requires !J.Revivable(k.slots, f.region, NextSlot(k, f, p))
    ensures var g := WrittenFile(k, f, slot);
            |g.region| == J.REGION_SIZE && DiskOf(k, g) in {DiskOf(k, f), M.Journaled(DiskOf(k, f), p)}
  {
    var r := NextSlot(k, f, p);
    J.TornWriteIsAtomic(k.slots, f.region, r, slot);
    WriteKeepsForm(k, f, p, slot);
    NextNumber(k, f, p);
  }

  /** Otherwise some interruption leaves the engine a record of an earlier attempt. */
  lemma RevivedDisk(k: Packing, f: File, p: M.Payload) returns (x: J.SlotRecord, slot: seq<byte>)
    requires ValidPacking(k) && WellFormed(f) && J.Writable(k.slots, NextSlot(k, f, p))
    requires |J.EncodeSlot(k.slots, NextSlot(k, f, p))| == J.SLOT_SIZE
    requires J.Revivable(k.slots, f.region, NextSlot(k, f, p))
    ensures J.IsWrite(k.slots, f.region, NextSlot(k, f, p), slot) && x != NextSlot(k, f, p)
    ensures var g := WrittenFile(k, f, slot);
            |g.region| == J.REGION_SIZE && DiskOf(k, g).region == M.Journal(RecordOf(k, Some(x))) && DiskOf(k, g) != DiskOf(k, f)
  {
    var r := NextSlot(k, f, p);
    x := J.Revived(k.slots, f.region, r);
    slot := J.Completion(J.Older(k.slots, f.region), x);
    WriteKeepsForm(k, f, p, slot);
  }

  /** A rewritten file starts with a blank region and no record. */
  lemma RewriteRefines(k: Packing, base: map<string, Memory>)
    ensures var f := File(base, Zeros(J.REGION_SIZE));
            WellFormed(f) && DiskOf(k, f) == M.Disk(base, M.Journal(None)) && !J.Remnant(k.slots, f.region)
  {
    J.BlankRegion(k.slots);
    J.BlankStarts(k.slots);
  }
}
