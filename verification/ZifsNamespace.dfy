/**
 * When the inspection of the home metadata (tools/zifsinspect/inspect.c) passes: exactly for a record
 * table, directories and a bitmap that describe one consistent volume.
 */
module ZifsNamespace {
  import opened Status
  import opened Layout
  import opened ZifsFormat
  import opened ZifsHome
  import opened ZifsHomeTheorems
  import opened ZifsFormatted

  // Records.

  /** The extents map consecutive logical blocks from a first one on. */
  ghost predicate InSequence(extents: seq<Extent>, first: nat) {
    forall i :: 0 <= i < |extents| ==> Follows(extents, first, i)
  }

  ghost predicate Follows(extents: seq<Extent>, first: nat, i: nat)
    requires i < |extents|
  {
    && extents[i].logical == (if i == 0 then first else extents[i - 1].logical + extents[i - 1].count)
    && 0 < extents[i].count <= MAX64 - extents[i].logical
  }

  ghost function MappedBlocks(extents: seq<Extent>, first: nat): int {
    if extents == [] then 0 else extents[|extents| - 1].logical + extents[|extents| - 1].count - first
  }

  lemma {:induction false} SequenceExactly(extents: seq<Extent>, first: nat)
    ensures Contiguous(extents, first) <==> InSequence(extents, first)
    ensures InSequence(extents, first) ==> ExtentBlocks(extents) == MappedBlocks(extents, first)
    decreases |extents|
  {
    hide InSequence;
    SequenceStep(extents, first);
    if extents != [] {
      SequenceExactly(extents[1..], first + extents[0].count);
    }
  }

  lemma SequenceStep(extents: seq<Extent>, first: nat)
    ensures extents == [] ==> InSequence(extents, first)
    ensures extents != [] ==>
      (InSequence(extents, first) <==>
         && extents[0].logical == first && 0 < extents[0].count <= MAX64 - first
         && InSequence(extents[1..], first + extents[0].count))
  {
    if extents != [] {
      var rest, next := extents[1..], first + extents[0].count;
      assert Follows(extents, first, 0) <==> extents[0].logical == first && 0 < extents[0].count <= MAX64 - first;
      if extents[0].logical == first {
        forall i | 0 <= i < |rest|
          ensures Follows(rest, next, i) <==> Follows(extents, first, i + 1)
        {
          assert rest[i] == extents[i + 1] && (i > 0 ==> rest[i - 1] == extents[i]);
        }
        FollowRest(extents, first, rest, next);
      }
    }
  }

  lemma FollowRest(extents: seq<Extent>, first: nat, rest: seq<Extent>, next: nat)
    requires |extents| == |rest| + 1
    requires forall i :: 0 <= i < |rest| ==> (Follows(rest, next, i) <==> Follows(extents, first, i + 1))
    ensures InSequence(extents, first) <==> Follows(extents, first, 0) && InSequence(rest, next)
  {
    hide Follows;
    if Follows(extents, first, 0) && InSequence(rest, next) {
      forall i | 0 <= i < |extents|
        ensures Follows(extents, first, i)
      {
        assert i > 0 ==> Follows(rest, next, i - 1);
      }
    }
  }

  /** The blocks that the volume needs for itself. */
  ghost predicate Metadata(id: Identity, b: int) {
    b == 0 || b == id.backup || exists i :: 0 <= i < 5 && Tables(id)[i].Has(b)
  }

  /** Every block of an extent is one of the volume that it does not need for itself. */
  ghost predicate OutsideMetadata(id: Identity, e: Extent) {
    forall b: int :: Placed(e).Has(b) ==> b < id.total && !Metadata(id, b)
  }

  ghost predicate ShareBlock(e: Extent, f: Extent) {
    exists b: int :: Placed(e).Has(b) && Placed(f).Has(b)
  }

  ghost predicate OnOwnBlocks(id: Identity, extents: seq<Extent>) {
    && (forall i :: 0 <= i < |extents| ==> OutsideMetadata(id, extents[i]))
    && forall i, j :: 0 <= i < j < |extents| ==> !ShareBlock(extents[i], extents[j])
  }

  lemma ExtentExactly(id: Identity, e: Extent)
    requires e.count > 0
    ensures ExtentValid(id, e) <==> OutsideMetadata(id, e)
  {
    var m, t := MetadataRanges(id), Tables(id);
    assert m[1] == t[0] && m[2] == t[1] && m[3] == t[2] && m[4] == t[3] && m[5] == t[4];
    forall b: int
      ensures Metadata(id, b) <==> exists i :: 0 <= i < 7 && m[i].Has(b)
    {
      if Metadata(id, b) && b != 0 && b != id.backup {
        var i :| 0 <= i < 5 && t[i].Has(b);
        assert m[i + 1].Has(b);
      }
      assert b == 0 ==> m[0].Has(b);
      assert b == id.backup ==> m[6].Has(b);
      if i :| 0 <= i < 7 && m[i].Has(b) {
        assert 0 < i < 6 ==> t[i - 1].Has(b);
      }
    }
    forall i | 0 <= i < 7
      ensures Overlap(Placed(e), m[i]) <==> exists b: int :: Placed(e).Has(b) && m[i].Has(b)
    {
      OverlapMeansShared(Placed(e), m[i]);
    }
    assert Placed(e).Has(e.physical as int + e.count - 1) && Placed(e).Has(e.physical);
  }

  lemma ExtentsExactly(id: Identity, extents: seq<Extent>)
    requires forall i :: 0 <= i < |extents| ==> extents[i].count > 0
    ensures ExtentsValid(id, extents) <==> OnOwnBlocks(id, extents)
  {
    hide ExtentValid, OutsideMetadata, Overlap, ShareBlock;
    forall i | 0 <= i < |extents|
      ensures ExtentValid(id, extents[i]) <==> OutsideMetadata(id, extents[i])
    {
      ExtentExactly(id, extents[i]);
    }
    forall i, j | 0 <= i < j < |extents|
      ensures Overlap(Placed(extents[i]), Placed(extents[j])) <==> ShareBlock(extents[i], extents[j])
    {
      SharedExactly(extents[i], extents[j]);
    }
  }

  lemma SharedExactly(e: Extent, f: Extent)
    ensures Overlap(Placed(e), Placed(f)) <==> ShareBlock(e, f)
  {
    OverlapMeansShared(Placed(e), Placed(f));
  }

  /** A file, with the blocks for its size; a directory, with one block of the table and further ones; or something without blocks. */
  ghost predicate ProperRecord(id: Identity, r: FileRecord) {
    var first := if r.kind == DIRECTORY then 1 else 0;
    && r.fileId != 0 && r.securityId != 0 && 1 <= r.kind <= 4 && |r.extents| <= 4
    && InSequence(r.extents, first) && OnOwnBlocks(id, r.extents)
    && r.allocatedSize == MappedBlocks(r.extents, first) * BLOCK_SIZE
    && (r.kind == REGULAR ==> r.fileSize <= r.allocatedSize && (r.fileSize == 0 ==> r.extents == []))
    && (r.kind != REGULAR ==> r.fileSize == 0)
    && (r.kind != REGULAR && r.kind != DIRECTORY ==> r.extents == [])
    && if r.kind == DIRECTORY then
         && r.directoryBlock != 0 && Range(id.directoryStart, id.directoryBlocks).Has(r.directoryBlock)
         && MappedBlocks(r.extents, first) < 256 && (r.extents != [] ==> UsesDirectoryExtents(id))
       else r.directoryBlock == 0
  }

  /** The tests made of a record are those of a proper one. */
  lemma RecordsAre(id: Identity, r: FileRecord)
    ensures RecordValid(id, r) <==> ProperRecord(id, r)
  {
    hide ExtentsValid, OnOwnBlocks, Contiguous, InSequence, ExtentBlocks, HasBit;
    var first := if r.kind == DIRECTORY then 1 else 0;
    SequenceExactly(r.extents, first);
    if InSequence(r.extents, first) {
      PositiveCounts(r.extents, first);
      ExtentsExactly(id, r.extents);
    }
    NothingMapped(id, first);
  }

  lemma PositiveCounts(extents: seq<Extent>, first: nat)
    requires InSequence(extents, first)
    ensures forall i :: 0 <= i < |extents| ==> extents[i].count > 0
    ensures extents != [] ==> MappedBlocks(extents, first) > 0
  {
    SequenceExactly(extents, first);
    forall i | 0 <= i < |extents|
      ensures extents[i].count > 0
    {
      assert Follows(extents, first, i);
    }
  }

  lemma NothingMapped(id: Identity, first: nat)
    ensures InSequence([], first) && OnOwnBlocks(id, []) && MappedBlocks([], first) == 0 && ExtentBlocks([]) == 0
  {
  }

  // The record table.

  /** Each slot is empty or holds a valid record with a known security identifier. */
  ghost predicate TableHolds(rd: Readers, id: Identity, ids: seq<u64>, table: seq<Block>, records: seq<Option<FileRecord>>) {
    && |records| == 16 * |table|
    && forall k :: 0 <= k < |records| ==> SlotHolds(rd, Slot(table, k), records[k]) && RecordOk(id, ids, records[k])
  }

  lemma {:induction false} ScanHolds(rd: Readers, id: Identity, ids: seq<u64>, table: seq<Block>, i: nat, done: Scan)
    requires i <= 16 * |table| && |done.records| == i && ScanFrom(rd, id, ids, table, i, done).Ok?
    ensures var records := ScanFrom(rd, id, ids, table, i, done).value.records;
            && |records| == 16 * |table| && records[..i] == done.records
            && forall k :: i <= k < |records| ==> SlotHolds(rd, Slot(table, k), records[k]) && RecordOk(id, ids, records[k])
    decreases 16 * |table| - i
  {
    hide RecordValid, AllZero, MarkAll, Slot, Extents;
    if i < 16 * |table| {
      var (record, marks) := ScanSlot(rd, id, ids, Slot(table, i), done.marks).value;
      var next := Scan(done.records + [record], marks);
      ScanHolds(rd, id, ids, table, i + 1, next);
      var records := ScanFrom(rd, id, ids, table, i, done).value.records;
      assert records[..i] == records[..i + 1][..i] == done.records;
      assert records[i] == records[..i + 1][i] == record;
    }
  }

  // The directories.

  function In(dir: nat, entries: seq<Entry>): (visits: seq<Visit>)
    ensures |visits| == |entries|
  {
    seq(|entries|, j requires 0 <= j < |entries| => Visit(dir, entries[j]))
  }

  /** All entries, directory by directory from a slot on, if all of them can be read. */
  ghost function Listed(rd: Readers, dev: Device, records: seq<Option<FileRecord>>, i: nat): Option<seq<Visit>>
    requires i <= |records|
    decreases |records| - i
  {
    if i == |records| then Some([])
    else
      var rest := Listed(rd, dev, records, i + 1);
      if !IsDirectory(records[i]) then rest
      else
        var here := ReadEntries(rd, dev, records[i].value, 0);
        if here.None? || rest.None? then None else Some(In(i, here.value) + rest.value)
  }

  /** The entry of a directory names a live record of its number and kind, whose parent is that directory. */
  ghost predicate PointsBack(records: seq<Option<FileRecord>>, v: Visit) {
    && v.dir < |records| && v.entry.index < |records| && records[v.dir].Some? && records[v.entry.index].Some?
    && var d, r := records[v.dir].value, records[v.entry.index].value;
       && d.kind == DIRECTORY && r.parentId == d.fileId
       && r.fileId == v.entry.fileId && r.kind == v.entry.kind && v.entry.flags == 0
  }

  /** No two entries name one record, and no two of one directory have the same name. */
  ghost predicate Consistent(rd: Readers, records: seq<Option<FileRecord>>, visits: seq<Visit>) {
    && (forall k :: 0 <= k < |visits| ==> PointsBack(records, visits[k]))
    && (forall j, k :: 0 <= j < k < |visits| ==> visits[j].entry.index != visits[k].entry.index)
    && (forall j, k :: 0 <= j < k < |visits| && visits[j].dir == visits[k].dir ==>
          !rd.sameName(visits[k].entry.name, visits[j].entry.name))
  }

  lemma ConsistentPrefix(rd: Readers, records: seq<Option<FileRecord>>, a: seq<Visit>, b: seq<Visit>)
    requires Consistent(rd, records, a + b)
    ensures Consistent(rd, records, a)
  {
    hide PointsBack;
    forall k | 0 <= k < |a|
      ensures a[k] == (a + b)[k]
    {
    }
  }

  /** The tests made of one more entry. */
  lemma OneMore(rd: Readers, records: seq<Option<FileRecord>>, dir: nat, e: Entry, visits: seq<Visit>)
    requires dir < |records| && IsDirectory(records[dir]) && Consistent(rd, records, visits)
    ensures Consistent(rd, records, visits + [Visit(dir, e)]) <==>
      EntryMatches(records, records[dir].value, e) && !Linked(visits, e.index) && !NameTaken(rd, visits, dir, e.name)
  {
    var next := visits + [Visit(dir, e)];
    var n := |visits|;
    assert next[n] == Visit(dir, e) && next[..n] == visits;
    assert PointsBack(records, next[n]) <==> EntryMatches(records, records[dir].value, e);
    if Consistent(rd, records, next) {
      forall k | 0 <= k < n
        ensures visits[k].entry.index != e.index && (visits[k].dir == dir ==> !rd.sameName(e.name, visits[k].entry.name))
      {
        assert next[k] == visits[k];
      }
    }
  }

  lemma {:induction false} EntriesExactly(rd: Readers, records: seq<Option<FileRecord>>, dir: nat, entries: seq<Entry>, visits: seq<Visit>)
    requires dir < |records| && IsDirectory(records[dir]) && Consistent(rd, records, visits)
    ensures InspectEntries(rd, records, dir, entries, visits).Ok? <==> Consistent(rd, records, visits + In(dir, entries))
    ensures var r := InspectEntries(rd, records, dir, entries, visits); r.Ok? ==> r.value == visits + In(dir, entries)
    decreases |entries|
  {
    hide Consistent, EntryMatches, Linked, NameTaken;
    if entries == [] {
      assert visits + In(dir, entries) == visits;
    } else {
      var next := visits + [Visit(dir, entries[0])];
      OneMore(rd, records, dir, entries[0], visits);
      assert visits + In(dir, entries) == next + In(dir, entries[1..]);
      if Consistent(rd, records, next) {
        EntriesExactly(rd, records, dir, entries[1..], next);
      } else if Consistent(rd, records, visits + In(dir, entries)) {
        ConsistentPrefix(rd, records, next, In(dir, entries[1..]));
      }
    }
  }

  lemma {:induction false} BlocksReadable(rd: Readers, dev: Device, records: seq<Option<FileRecord>>, dir: nat, k: nat, visits: seq<Visit>)
    requires dir < |records| && records[dir].Some? && InspectBlocks(rd, dev, records, dir, k, visits).Ok?
    ensures ReadEntries(rd, dev, records[dir].value, k).Some?
    decreases DirectoryLength(records[dir].value) - k
  {
    hide InspectEntries, DirectoryBlockAt;
    var r := records[dir].value;
    if k < DirectoryLength(r) {
      var entries := rd.directory(dev[DirectoryBlockAt(r, k).value], r.fileId).value;
      BlocksReadable(rd, dev, records, dir, k + 1, InspectEntries(rd, records, dir, entries, visits).value);
    }
  }

  lemma DirectoryExactly(rd: Readers, dev: Device, records: seq<Option<FileRecord>>, dir: nat, visits: seq<Visit>)
    requires dir < |records| && IsDirectory(records[dir]) && Consistent(rd, records, visits)
    ensures var entries, r := ReadEntries(rd, dev, records[dir].value, 0), InspectBlocks(rd, dev, records, dir, 0, visits);
            && (r.Ok? <==> entries.Some? && Consistent(rd, records, visits + In(dir, entries.value)))
            && (r.Ok? ==> r.value == visits + In(dir, entries.value))
  {
    hide Consistent, InspectBlocks, InspectEntries, ReadEntries;
    if InspectBlocks(rd, dev, records, dir, 0, visits).Ok? {
      BlocksReadable(rd, dev, records, dir, 0, visits);
    }
    var entries := ReadEntries(rd, dev, records[dir].value, 0);
    if entries.Some? {
      BlocksAreRead(rd, dev, records, dir, 0, visits);
      EntriesExactly(rd, records, dir, entries.value, visits);
    }
  }

  lemma {:induction false} DirectoriesExactly(rd: Readers, dev: Device, records: seq<Option<FileRecord>>, i: nat, visits: seq<Visit>)
    requires i <= |records| && Consistent(rd, records, visits)
    ensures var all, r := Listed(rd, dev, records, i), InspectDirectories(rd, dev, records, i, visits);
            && (r.Ok? <==> all.Some? && Consistent(rd, records, visits + all.value))
            && (r.Ok? ==> r.value == visits + all.value)
    decreases |records| - i
  {
    hide Consistent, InspectBlocks, ReadEntries;
    if i == |records| {
      assert visits + [] == visits;
    } else if !IsDirectory(records[i]) {
      DirectoriesExactly(rd, dev, records, i + 1, visits);
    } else {
      DirectoryExactly(rd, dev, records, i, visits);
      var here, rest := ReadEntries(rd, dev, records[i].value, 0), Listed(rd, dev, records, i + 1);
      if here.Some? {
        var next := visits + In(i, here.value);
        if Consistent(rd, records, next) {
          DirectoriesExactly(rd, dev, records, i + 1, next);
        }
        if rest.Some? {
          assert visits + (In(i, here.value) + rest.value) == next + rest.value;
          if Consistent(rd, records, next + rest.value) {
            ConsistentPrefix(rd, records, next, rest.value);
          }
        }
      }
    }
  }

  // The whole.

  /** File numbers and first blocks of directories are different ones. */
  ghost predicate Different(records: seq<Option<FileRecord>>) {
    forall i, j :: 0 <= i < j < |records| && records[i].Some? && records[j].Some? ==>
      && records[i].value.fileId != records[j].value.fileId
      && (records[i].value.kind == DIRECTORY == records[j].value.kind ==>
            records[i].value.directoryBlock != records[j].value.directoryBlock)
  }

  /** Every live record but the root is named by an entry, and the root by none. */
  ghost predicate AllNamed(records: seq<Option<FileRecord>>, root: nat, visits: seq<Visit>) {
    forall i :: 0 <= i < |records| && records[i].Some? ==>
      (i != root <==> exists k :: 0 <= k < |visits| && visits[k].entry.index == i)
  }

  /** The records and the entries make up one namespace. */
  ghost predicate WholeNamespace(
    rd: Readers, dev: Device, id: Identity, ids: seq<u64>, records: seq<Option<FileRecord>>, visits: seq<Visit>)
  {
    && 0 < id.recordBlocks <= 4096 && id.root < |records|
    && TableHolds(rd, id, ids, Part(dev, id.recordStart, id.recordBlocks), records)
    && Apart(NoMarks(id.total), MetadataRanges(id) + ExtentsOf(records))
    && Different(records) && records[id.root].Some? && records[id.root].value.kind == DIRECTORY
    && Listed(rd, dev, records, 0) == Some(visits) && Consistent(rd, records, visits) && AllNamed(records, id.root, visits)
  }

  lemma ScanSound(rd: Readers, id: Identity, ids: seq<u64>, table: seq<Block>, marks: Marks)
    requires Recorded(id.total, marks, MetadataRanges(id)) && ScanFrom(rd, id, ids, table, 0, Scan([], marks)).Ok?
    ensures var scan := ScanFrom(rd, id, ids, table, 0, Scan([], marks)).value;
            && TableHolds(rd, id, ids, table, scan.records)
            && Recorded(id.total, scan.marks, MetadataRanges(id) + ExtentsOf(scan.records))
  {
    hide ScanFrom, SlotHolds, RecordOk, Recorded, MetadataRanges, Slot;
    assert MetadataRanges(id) + ExtentsOf([]) == MetadataRanges(id);
    ScanHolds(rd, id, ids, table, 0, Scan([], marks));
    ScanRecorded(rd, id, ids, table, 0, Scan([], marks), MetadataRanges(id));
  }

  lemma ScanComplete(rd: Readers, id: Identity, ids: seq<u64>, table: seq<Block>, marks: Marks, records: seq<Option<FileRecord>>)
    requires Recorded(id.total, marks, MetadataRanges(id)) && TableHolds(rd, id, ids, table, records)
    requires Apart(NoMarks(id.total), MetadataRanges(id) + ExtentsOf(records))
    ensures var r := ScanFrom(rd, id, ids, table, 0, Scan([], marks)); r.Ok? && r.value.records == records
  {
    hide ScanFrom, SlotHolds, RecordOk, Recorded, MetadataRanges, Slot, Apart;
    assert MetadataRanges(id) + ExtentsOf(records[..0]) == MetadataRanges(id);
    ScanSucceeds(rd, id, ids, table, 0, Scan([], marks), records, MetadataRanges(id));
  }

  lemma TestsMean(records: seq<Option<FileRecord>>, root: nat, visits: seq<Visit>)
    ensures IdsDistinct(records) && DirectoryBlocksDistinct(records) <==> Different(records)
    ensures LinksRight(records, root, visits) <==> AllNamed(records, root, visits)
  {
  }

  /** The namespace check passes with some records and entries if and only if they make up one namespace. */
  lemma NamespaceExactly(
    rd: Readers, dev: Device, id: Identity, ids: seq<u64>, marks: Marks, records: seq<Option<FileRecord>>, visits: seq<Visit>)
    requires Recorded(id.total, marks, MetadataRanges(id))
    ensures var r := Namespace(rd, dev, id, ids, marks);
            && (r.Ok? && r.value.scan.records == records && r.value.visits == visits
                <==> WholeNamespace(rd, dev, id, ids, records, visits))
            && (r.Ok? ==> Recorded(id.total, r.value.scan.marks, MetadataRanges(id) + ExtentsOf(r.value.scan.records)))
  {
    hide ScanFrom, TableHolds, Recorded, MetadataRanges, Apart, Different, AllNamed, IdsDistinct, DirectoryBlocksDistinct;
    hide LinksRight, InspectDirectories, Consistent, Listed, Part, ExtentsOf;
    var table := Part(dev, id.recordStart, id.recordBlocks);
    PartSize(dev, id.recordStart, id.recordBlocks);
    if WholeNamespace(rd, dev, id, ids, records, visits) {
      ScanComplete(rd, id, ids, table, marks, records);
      HoldsSize(rd, id, ids, table, records);
    }
    var r := ScanFrom(rd, id, ids, table, 0, Scan([], marks));
    if r.Ok? {
      ScanSound(rd, id, ids, table, marks);
      HoldsSize(rd, id, ids, table, r.value.records);
      RecordedApart(id.total, r.value.marks, MetadataRanges(id) + ExtentsOf(r.value.records));
      Listing(rd, dev, r.value.records);
      TestsMean(r.value.records, id.root, if r.value.records == records then visits else []);
      var found := InspectDirectories(rd, dev, r.value.records, 0, []);
      if found.Ok? {
        TestsMean(r.value.records, id.root, found.value);
      }
    }
  }

  lemma PartSize(dev: Device, start: nat, count: nat)
    ensures |Part(dev, start, count)| <= count
  {
  }

  lemma HoldsSize(rd: Readers, id: Identity, ids: seq<u64>, table: seq<Block>, records: seq<Option<FileRecord>>)
    requires TableHolds(rd, id, ids, table, records)
    ensures |records| == 16 * |table|
  {
  }

  lemma RecordedApart(total: nat, marks: Marks, ranges: seq<Range>)
    requires Recorded(total, marks, ranges)
    ensures Apart(NoMarks(total), ranges)
  {
  }

  lemma Listing(rd: Readers, dev: Device, records: seq<Option<FileRecord>>)
    ensures var all, r := Listed(rd, dev, records, 0), InspectDirectories(rd, dev, records, 0, []);
            && (r.Ok? <==> all.Some? && Consistent(rd, records, all.value))
            && (r.Ok? ==> r.value == all.value)
  {
    hide InspectDirectories, Listed;
    DirectoriesExactly(rd, dev, records, 0, []);
    var all := Listed(rd, dev, records, 0);
    if all.Some? {
      assert [] + all.value == all.value;
    }
  }

  /** The bitmap is of the right size and has exactly the bits of the blocks of some ranges. */
  ghost predicate BitmapExact(dev: Device, id: Identity, ranges: seq<Range>) {
    && 0 < id.total && id.bitmapBlocks == BitmapBlocks(id.total) && id.bitmapStart + id.bitmapBlocks <= |dev|
    && var bitmap := dev[id.bitmapStart..id.bitmapStart + id.bitmapBlocks];
       forall b :: 0 <= b < |bitmap| * BLOCK_SIZE * 8 ==> (BitOf(bitmap, b) <==> b < id.total && Owned(ranges, b))
  }

  /** All that the inspection of the home metadata looks for. */
  ghost predicate SoundHome(
    rd: Readers, dev: Device, id: Identity, ids: seq<u64>, records: seq<Option<FileRecord>>, visits: seq<Visit>)
  {
    && Security(rd, dev, id) == Ok(ids) && id.total <= MAXIMUM_BLOCKS
    && WholeNamespace(rd, dev, id, ids, records, visits)
    && BitmapExact(dev, id, MetadataRanges(id) + ExtentsOf(records))
  }

  lemma AllocationExactly(dev: Device, id: Identity, marks: Marks, ranges: seq<Range>)
    requires Recorded(id.total, marks, ranges)
    ensures Allocation(dev, id, marks) == Success <==> BitmapExact(dev, id, ranges)
  {
    hide BitOf, Owned, Apart;
    if 0 < id.total && id.bitmapBlocks == BitmapBlocks(id.total) {
      EnoughBits(id.total);
    }
  }

  lemma EnoughBits(total: nat)
    requires total > 0
    ensures BitmapBlocks(total) > 0 && total <= BitmapBlocks(total) * BLOCK_SIZE * 8
  {
  }

  /**
   * Security table, namespace and allocation all pass if and only if the home metadata is sound: every slot
   * of the record table is empty or a valid record with a known security identifier, no block is used twice,
   * numbers and directory blocks are different, every record but the root is named once in its parent's
   * directory under a name of its own, and the bitmap has exactly the blocks in use.
   */
  lemma HomeExactly(rd: Readers, dev: Device, id: Identity)
    ensures InspectHome(rd, dev, id) == Home(Success, Success, Success) <==>
      exists ids, records, visits :: SoundHome(rd, dev, id, ids, records, visits)
  {
    hide Security, MarkAll, MetadataRanges, Recorded, Apart, Allocation, BitmapExact, WholeNamespace, ExtentsOf, Namespace;
    var meta := MetadataRanges(id);
    var marked := MarkAll(NoMarks(id.total), meta, 1);
    MarkAllIff(NoMarks(id.total), meta, 1);
    if marked.Some? {
      RecordedNothing(id.total);
      RecordedExtends(id.total, NoMarks(id.total), [], meta, 1);
      assert [] + meta == meta;
    }
    if ids, records, visits :| SoundHome(rd, dev, id, ids, records, visits) {
      WholeApart(rd, dev, id, ids, records, visits);
      ApartPrefix(id.total, meta, ExtentsOf(records));
      NamespaceExactly(rd, dev, id, ids, marked.value, records, visits);
      AllocationExactly(dev, id, Namespace(rd, dev, id, ids, marked.value).value.scan.marks, meta + ExtentsOf(records));
    }
    if InspectHome(rd, dev, id) == Home(Success, Success, Success) {
      var ids := Security(rd, dev, id).value;
      var names := Namespace(rd, dev, id, ids, marked.value).value;
      NamespaceExactly(rd, dev, id, ids, marked.value, names.scan.records, names.visits);
      AllocationExactly(dev, id, names.scan.marks, meta + ExtentsOf(names.scan.records));
      assert SoundHome(rd, dev, id, ids, names.scan.records, names.visits);
    }
  }

  lemma WholeApart(rd: Readers, dev: Device, id: Identity, ids: seq<u64>, records: seq<Option<FileRecord>>, visits: seq<Visit>)
    requires WholeNamespace(rd, dev, id, ids, records, visits)
    ensures Apart(NoMarks(id.total), MetadataRanges(id) + ExtentsOf(records))
  {
    hide Apart, TableHolds, Listed, Consistent, AllNamed, Different;
  }
}
