/** What a passed home inspection establishes about the volume. */
module ZifsHomeTheorems {
  import opened Status
  import opened Layout
  import opened ZifsFormat
  import opened ZifsHome

  // Ownership.

  /** The marks record exactly the blocks of ranges that lie inside the volume and apart. */
  ghost predicate Recorded(total: nat, marks: Marks, ranges: seq<Range>) {
    && |marks| == total
    && Apart(NoMarks(total), ranges)
    && forall b :: 0 <= b < total ==> (marks[b] != 0 <==> Owned(ranges, b))
  }

  function ExtentsOf(records: seq<Option<FileRecord>>): seq<Range> {
    if records == [] then []
    else ExtentsOf(records[..|records| - 1]) + RangesOf(records[|records| - 1])
  }

  function RangesOf(r: Option<FileRecord>): seq<Range> {
    if r.Some? then Extents(r.value) else []
  }

  lemma OwnedConcat(a: seq<Range>, b: seq<Range>, x: int)
    ensures Owned(a + b, x) <==> Owned(a, x) || Owned(b, x)
  {
    if Owned(a, x) {
      var i :| 0 <= i < |a| && a[i].Has(x);
      assert (a + b)[i].Has(x);
    }
    if Owned(b, x) {
      var i :| 0 <= i < |b| && b[i].Has(x);
      assert (a + b)[|a| + i].Has(x);
    }
    if Owned(a + b, x) {
      var i :| 0 <= i < |a + b| && (a + b)[i].Has(x);
      if i < |a| { assert a[i].Has(x); } else { assert b[i - |a|].Has(x); }
    }
  }

  /** An unmarked range shares no block with a recorded one. */
  lemma FreeIsApart(total: nat, marks: Marks, ranges: seq<Range>, r: Range, i: nat)
    requires Recorded(total, marks, ranges) && Inside(r, total) && Free(marks, r) && i < |ranges|
    ensures !Overlap(ranges[i], r)
  {
    var s := ranges[i];
    OverlapMeansShared(s, r);
    forall b: int | s.Has(b)
      ensures !r.Has(b)
    {
      assert Inside(s, total);
      assert Owned(ranges, b);
      assert marks[b] != 0;
    }
  }

  lemma RecordedExtends(total: nat, marks: Marks, ranges: seq<Range>, more: seq<Range>, marker: nat)
    requires Recorded(total, marks, ranges) && marker != 0
    requires MarkAll(marks, more, marker).Some?
    ensures Recorded(total, MarkAll(marks, more, marker).value, ranges + more)
  {
    hide MarkAll, Overlap, Free;
    var next := MarkAll(marks, more, marker).value;
    MarkAllIff(marks, more, marker);
    forall b | 0 <= b < total
      ensures next[b] != 0 <==> Owned(ranges + more, b)
    {
      MarkAllMarks(marks, more, marker, b);
      OwnedConcat(ranges, more, b);
    }
    var all := ranges + more;
    forall i | 0 <= i < |all|
      ensures Inside(all[i], total) && Free(NoMarks(total), all[i])
    {
      if i >= |ranges| {
        assert all[i] == more[i - |ranges|];
        NothingMarked(total, all[i]);
      }
    }
    forall i, j | 0 <= i < j < |all|
      ensures !Overlap(all[i], all[j])
    {
      if j >= |ranges| {
        assert all[j] == more[j - |ranges|];
        if i < |ranges| {
          FreeIsApart(total, marks, ranges, all[j], i);
        } else {
          assert all[i] == more[i - |ranges|];
        }
      }
    }
  }

  lemma NothingMarked(total: nat, r: Range)
    requires Inside(r, total)
    ensures Free(NoMarks(total), r)
  {
  }

  lemma RecordedNothing(total: nat)
    ensures Recorded(total, NoMarks(total), [])
  {
  }

  lemma {:induction false} ScanRecorded(rd: Readers, id: Identity, ids: seq<u64>, table: seq<Block>, i: nat, done: Scan, ranges: seq<Range>)
    requires i <= 16 * |table| && |done.records| == i
    requires Recorded(id.total, done.marks, ranges + ExtentsOf(done.records))
    requires ScanFrom(rd, id, ids, table, i, done).Ok?
    ensures var scan := ScanFrom(rd, id, ids, table, i, done).value;
            |scan.records| == 16 * |table| && Recorded(id.total, scan.marks, ranges + ExtentsOf(scan.records))
    decreases 16 * |table| - i
  {
    hide Recorded, RecordValid, MarkAll, Slot, AllZero, Extents;
    if i < 16 * |table| {
      var slot := Slot(table, i);
      var (record, marks) := ScanSlot(rd, id, ids, slot, done.marks).value;
      var records := done.records + [record];
      assert records[..|records| - 1] == done.records;
      var before := ranges + ExtentsOf(done.records);
      if record.Some? {
        RecordedExtends(id.total, done.marks, before, Extents(record.value), 2);
      }
      assert ranges + ExtentsOf(records) == before + RangesOf(record);
      assert before + [] == before;
      ScanRecorded(rd, id, ids, table, i + 1, Scan(records, marks), ranges);
    }
  }

  /**
   * When the namespace check passes, the metadata tables and all file extents lie inside the
   * volume, no two share a block, and the marks are exactly their blocks.
   */
  lemma NamespaceOwnsApart(rd: Readers, dev: Device, id: Identity, ids: seq<u64>)
    requires MarkAll(NoMarks(id.total), MetadataRanges(id), 1).Some?
    requires Namespace(rd, dev, id, ids, MarkAll(NoMarks(id.total), MetadataRanges(id), 1).value).Ok?
    ensures var names := Namespace(rd, dev, id, ids, MarkAll(NoMarks(id.total), MetadataRanges(id), 1).value).value;
            Recorded(id.total, names.scan.marks, MetadataRanges(id) + ExtentsOf(names.scan.records))
  {
    hide Recorded, MarkAll, MetadataRanges, ScanFrom, InspectDirectories;
    var marks := MarkAll(NoMarks(id.total), MetadataRanges(id), 1).value;
    RecordedNothing(id.total);
    RecordedExtends(id.total, NoMarks(id.total), [], MetadataRanges(id), 1);
    assert [] + MetadataRanges(id) == MetadataRanges(id) == MetadataRanges(id) + ExtentsOf([]);
    ScanRecorded(rd, id, ids, Part(dev, id.recordStart, id.recordBlocks), 0, Scan([], marks), MetadataRanges(id));
  }

  // Directory links.

  /** The entries seen so far: each matches its record and directory, no record is named twice. */
  ghost predicate VisitsGood(rd: Readers, records: seq<Option<FileRecord>>, visits: seq<Visit>) {
    && (forall k :: 0 <= k < |visits| ==>
          && visits[k].dir < |records| && IsDirectory(records[visits[k].dir])
          && EntryMatches(records, records[visits[k].dir].value, visits[k].entry))
    && (forall j, k :: 0 <= j < k < |visits| ==> visits[j].entry.index != visits[k].entry.index)
    && (forall j, k :: 0 <= j < k < |visits| && visits[j].dir == visits[k].dir ==>
          !rd.sameName(visits[k].entry.name, visits[j].entry.name))
  }

  lemma {:induction false} EntriesGood(rd: Readers, records: seq<Option<FileRecord>>, dir: nat, entries: seq<Entry>, visits: seq<Visit>)
    requires dir < |records| && IsDirectory(records[dir])
    requires VisitsGood(rd, records, visits)
    requires InspectEntries(rd, records, dir, entries, visits).Ok?
    ensures VisitsGood(rd, records, InspectEntries(rd, records, dir, entries, visits).value)
    decreases |entries|
  {
    hide EntryMatches;
    if entries != [] {
      var next := visits + [Visit(dir, entries[0])];
      assert VisitsGood(rd, records, next);
      EntriesGood(rd, records, dir, entries[1..], next);
    }
  }

  lemma {:induction false} BlocksGood(rd: Readers, dev: Device, records: seq<Option<FileRecord>>, dir: nat, k: nat, visits: seq<Visit>)
    requires dir < |records| && IsDirectory(records[dir])
    requires VisitsGood(rd, records, visits)
    requires InspectBlocks(rd, dev, records, dir, k, visits).Ok?
    ensures VisitsGood(rd, records, InspectBlocks(rd, dev, records, dir, k, visits).value)
    decreases DirectoryLength(records[dir].value) - k
  {
    hide VisitsGood, InspectEntries, DirectoryBlockAt;
    if k < DirectoryLength(records[dir].value) {
      var b := DirectoryBlockAt(records[dir].value, k).value;
      var entries := rd.directory(dev[b], records[dir].value.fileId).value;
      EntriesGood(rd, records, dir, entries, visits);
      BlocksGood(rd, dev, records, dir, k + 1, InspectEntries(rd, records, dir, entries, visits).value);
    }
  }

  lemma {:induction false} DirectoriesGood(rd: Readers, dev: Device, records: seq<Option<FileRecord>>, i: nat, visits: seq<Visit>)
    requires i <= |records| && VisitsGood(rd, records, visits)
    requires InspectDirectories(rd, dev, records, i, visits).Ok?
    ensures VisitsGood(rd, records, InspectDirectories(rd, dev, records, i, visits).value)
    decreases |records| - i
  {
    hide VisitsGood, InspectBlocks;
    if i < |records| {
      if IsDirectory(records[i]) {
        BlocksGood(rd, dev, records, i, 0, visits);
        DirectoriesGood(rd, dev, records, i + 1, InspectBlocks(rd, dev, records, i, 0, visits).value);
      } else {
        DirectoriesGood(rd, dev, records, i + 1, visits);
      }
    }
  }

  /**
   * When the namespace check passes, every live record but the root is named by exactly one
   * directory entry, in the directory its parent identifier names, and the root by none.
   */
  lemma EveryRecordLinkedOnce(rd: Readers, dev: Device, id: Identity, ids: seq<u64>, marks: Marks)
    requires Namespace(rd, dev, id, ids, marks).Ok?
    ensures var names := Namespace(rd, dev, id, ids, marks).value;
            && VisitsGood(rd, names.scan.records, names.visits)
            && LinksRight(names.scan.records, id.root, names.visits)
            && IdsDistinct(names.scan.records)
            && DirectoryBlocksDistinct(names.scan.records)
  {
    hide ScanFrom, InspectDirectories, VisitsGood, LinksRight, IdsDistinct, DirectoryBlocksDistinct;
    var scan := ScanRecords(rd, id, ids, Part(dev, id.recordStart, id.recordBlocks), marks).value;
    NoVisits(rd, scan.records);
    DirectoriesGood(rd, dev, scan.records, 0, []);
  }

  lemma NoVisits(rd: Readers, records: seq<Option<FileRecord>>)
    ensures VisitsGood(rd, records, [])
  {
  }

  // Allocation.

  ghost function Referenced(marks: Marks): set<int> {
    set b | 0 <= b < |marks| && marks[b] != 0
  }

  ghost function AllocatedBits(bitmap: seq<Block>, total: nat): set<int>
    requires total <= |bitmap| * BLOCK_SIZE * 8
  {
    set b | 0 <= b < total && BitOf(bitmap, b)
  }

  ghost predicate PaddingClear(bitmap: seq<Block>, total: nat) {
    forall b :: total <= b < |bitmap| * BLOCK_SIZE * 8 ==> !BitOf(bitmap, b)
  }

  /** Each verdict, exactly when it is given, in terms of the two sets of blocks. */
  lemma AllocationVerdict(bitmap: seq<Block>, marks: Marks)
    requires |marks| <= |bitmap| * BLOCK_SIZE * 8
    ensures var owned, bits := Referenced(marks), AllocatedBits(bitmap, |marks|);
            var clear := PaddingClear(bitmap, |marks|);
            && (Reconcile(bitmap, marks) == Success <==> bits == owned && clear)
            && (Reconcile(bitmap, marks) == RecoveryRequired <==> owned < bits && clear)
            && (Reconcile(bitmap, marks) == CorruptFilesystem <==> !(owned <= bits) || !clear)
  {
    hide BitOf;
    var owned, bits := Referenced(marks), AllocatedBits(bitmap, |marks|);
    if exists b :: 0 <= b < |marks| && marks[b] != 0 && !BitOf(bitmap, b) {
      var b :| 0 <= b < |marks| && marks[b] != 0 && !BitOf(bitmap, b);
      assert b in owned && b !in bits;
    } else {
      assert owned <= bits;
      if exists b :: 0 <= b < |marks| && BitOf(bitmap, b) && marks[b] == 0 {
        var b :| 0 <= b < |marks| && BitOf(bitmap, b) && marks[b] == 0;
        assert b in bits && b !in owned;
      } else {
        assert bits <= owned;
      }
    }
  }

  // What the inspection reads.

  /** The blocks that repair may touch: the superblock copies and the journal. */
  ghost predicate Guarded(id: Identity, b: int) {
    b == 0 || b == id.backup || Range(id.journalStart, id.journalBlocks).Has(b)
  }

  ghost predicate SameHome(id: Identity, d: Device, e: Device) {
    && |d| == |e| == id.total
    && forall b :: 0 <= b < |d| && !Guarded(id, b) ==> d[b] == e[b]
  }

  lemma PartSame(id: Identity, d: Device, e: Device, start: nat, count: nat)
    requires SameHome(id, d, e)
    requires forall b :: start <= b < start + count ==> !Guarded(id, b)
    ensures Part(d, start, count) == Part(e, start, count)
  {
  }

  lemma TableUnguarded(id: Identity, i: nat)
    requires RangesValid(id) && i < 5 && i != 3
    ensures forall b :: Tables(id)[i].start <= b < Tables(id)[i].start + Tables(id)[i].count ==> !Guarded(id, b)
  {
    hide SizesValid;
    var t := Tables(id);
    assert !Overlap(t[i], Range(0, 1)) && !Overlap(t[i], Range(id.backup, 1));
    if i < 3 { assert !Overlap(t[i], t[3]); } else { assert !Overlap(t[3], t[i]); }
  }

  lemma ExtentUnguarded(id: Identity, e: Extent, b: int)
    requires ExtentValid(id, e) && Placed(e).Has(b)
    ensures !Guarded(id, b)
  {
    var m := MetadataRanges(id);
    assert !Overlap(Placed(e), m[0]) && !Overlap(Placed(e), m[4]) && !Overlap(Placed(e), m[6]);
  }

  lemma {:induction false} PhysicalUnguarded(id: Identity, extents: seq<Extent>, k: nat)
    requires forall i :: 0 <= i < |extents| ==> ExtentValid(id, extents[i])
    requires PhysicalOf(extents, k).Some?
    ensures PhysicalOf(extents, k).value < id.total && !Guarded(id, PhysicalOf(extents, k).value)
  {
    hide Guarded;
    if extents[0].logical <= k && k - extents[0].logical < extents[0].count {
      ExtentUnguarded(id, extents[0], PhysicalOf(extents, k).value);
    } else {
      PhysicalUnguarded(id, extents[1..], k);
    }
  }

  /** Every block a directory is read from lies outside the superblocks and the journal. */
  lemma DirectoryUnguarded(id: Identity, r: FileRecord, k: nat)
    requires RangesValid(id) && RecordValid(id, r) && r.kind == DIRECTORY
    requires DirectoryBlockAt(r, k).Some?
    ensures DirectoryBlockAt(r, k).value < id.total && !Guarded(id, DirectoryBlockAt(r, k).value)
  {
    hide Guarded, Overlap, Shaped, TablesDisjoint;
    if k == 0 {
      TableUnguarded(id, 1);
    } else {
      PhysicalUnguarded(id, r.extents, k);
    }
  }

  ghost predicate RecordsValid(id: Identity, records: seq<Option<FileRecord>>) {
    forall i :: 0 <= i < |records| && records[i].Some? ==> RecordValid(id, records[i].value)
  }

  lemma {:induction false} ScanValid(rd: Readers, id: Identity, ids: seq<u64>, table: seq<Block>, i: nat, done: Scan)
    requires i <= 16 * |table| && RecordsValid(id, done.records)
    requires ScanFrom(rd, id, ids, table, i, done).Ok?
    ensures RecordsValid(id, ScanFrom(rd, id, ids, table, i, done).value.records)
    decreases 16 * |table| - i
  {
    hide RecordValid, MarkAll, Slot, AllZero;
    if i < 16 * |table| {
      var (record, marks) := ScanSlot(rd, id, ids, Slot(table, i), done.marks).value;
      ScanValid(rd, id, ids, table, i + 1, Scan(done.records + [record], marks));
    }
  }

  lemma {:induction false} BlocksSame(
        rd: Readers, id: Identity, d: Device, e: Device, records: seq<Option<FileRecord>>, dir: nat, k: nat,
        visits: seq<Visit>)
    requires SameHome(id, d, e) && RangesValid(id)
    requires dir < |records| && IsDirectory(records[dir]) && RecordValid(id, records[dir].value)
    ensures InspectBlocks(rd, d, records, dir, k, visits) == InspectBlocks(rd, e, records, dir, k, visits)
    decreases DirectoryLength(records[dir].value) - k
  {
    hide InspectEntries, DirectoryBlockAt, RangesValid, RecordValid, Guarded;
    var r := records[dir].value;
    if k < DirectoryLength(r) && DirectoryBlockAt(r, k).Some? {
      DirectoryUnguarded(id, r, k);
      var b := DirectoryBlockAt(r, k).value;
      assert d[b] == e[b];
      var entries := rd.directory(d[b], r.fileId);
      if entries.Ok? {
        var next := InspectEntries(rd, records, dir, entries.value, visits);
        if next.Ok? {
          BlocksSame(rd, id, d, e, records, dir, k + 1, next.value);
        }
      }
    }
  }

  lemma {:induction false} DirectoriesSame(
        rd: Readers, id: Identity, d: Device, e: Device, records: seq<Option<FileRecord>>, i: nat, visits: seq<Visit>)
    requires SameHome(id, d, e) && RangesValid(id) && RecordsValid(id, records) && i <= |records|
    ensures InspectDirectories(rd, d, records, i, visits) == InspectDirectories(rd, e, records, i, visits)
    decreases |records| - i
  {
    hide InspectBlocks, RangesValid, RecordValid, SameHome;
    if i < |records| {
      if IsDirectory(records[i]) {
        BlocksSame(rd, id, d, e, records, i, 0, visits);
        var next := InspectBlocks(rd, d, records, i, 0, visits);
        if next.Ok? {
          DirectoriesSame(rd, id, d, e, records, i + 1, next.value);
        }
      } else {
        DirectoriesSame(rd, id, d, e, records, i + 1, visits);
      }
    }
  }

  lemma PartsSame(id: Identity, d: Device, e: Device)
    requires SameHome(id, d, e) && RangesValid(id)
    ensures Part(d, id.recordStart, id.recordBlocks) == Part(e, id.recordStart, id.recordBlocks)
    ensures Part(d, id.securityStart, id.securityBlocks) == Part(e, id.securityStart, id.securityBlocks)
    ensures Part(d, id.bitmapStart, id.bitmapBlocks) == Part(e, id.bitmapStart, id.bitmapBlocks)
  {
    hide RangesValid, Guarded;
    TableUnguarded(id, 0);
    TableUnguarded(id, 2);
    TableUnguarded(id, 4);
    PartSame(id, d, e, id.recordStart, id.recordBlocks);
    PartSame(id, d, e, id.bitmapStart, id.bitmapBlocks);
    PartSame(id, d, e, id.securityStart, id.securityBlocks);
  }

  lemma NamespaceSame(rd: Readers, id: Identity, d: Device, e: Device, ids: seq<u64>, marks: Marks)
    requires SameHome(id, d, e) && RangesValid(id)
    ensures Namespace(rd, d, id, ids, marks) == Namespace(rd, e, id, ids, marks)
  {
    hide RangesValid, SameHome, ScanFrom, InspectDirectories, Part, LinksRight, IdsDistinct, DirectoryBlocksDistinct;
    PartsSame(id, d, e);
    var table := Part(d, id.recordStart, id.recordBlocks);
    var scan := ScanRecords(rd, id, ids, table, marks);
    if scan.Ok? {
      assert RecordsValid(id, []);
      ScanValid(rd, id, ids, table, 0, Scan([], marks));
      DirectoriesSame(rd, id, d, e, scan.value.records, 0, []);
    }
  }

  /**
   * Inspection of the home metadata never reads a superblock or a journal block: two devices that
   * agree on all the others get the same verdicts.
   */
  lemma HomeSame(rd: Readers, id: Identity, d: Device, e: Device)
    requires SameHome(id, d, e) && RangesValid(id)
    ensures InspectHome(rd, d, id) == InspectHome(rd, e, id)
  {
    hide RangesValid, SameHome, Namespace, Part, MarkAll, MetadataRanges, Reconcile;
    PartsSame(id, d, e);
    var ids := Security(rd, d, id);
    if ids.Ok? && MarkAll(NoMarks(id.total), MetadataRanges(id), 1).Some? {
      NamespaceSame(rd, id, d, e, ids.value, MarkAll(NoMarks(id.total), MetadataRanges(id), 1).value);
    }
  }
}
