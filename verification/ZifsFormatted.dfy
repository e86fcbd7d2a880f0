/**
 * A freshly formatted volume under inspection: the whole read-only inspection finds it clean, and
 * repair has nothing to do.
 */
module ZifsFormatted {
  import opened Status
  import opened Unicode
  import opened Layout
  import opened ZifsFormat
  import opened ZifsJournal
  import opened ZifsHome
  import opened ZifsHomeTheorems
  import opened ZifsInspect
  import opened ZifsRepair
  import opened ZifsRepairTheorems
  import opened ZifsCrash
  import opened ZifsFormatter

  // The record table.

  ghost predicate SlotHolds(rd: Readers, slot: seq<byte>, r: Option<FileRecord>) {
    match r
    case None => AllZero(slot)
    case Some(record) => !AllZero(slot) && rd.record(slot) == Ok(record)
  }

  ghost predicate RecordOk(id: Identity, ids: seq<u64>, r: Option<FileRecord>) {
    r.Some? ==> RecordValid(id, r.value) && r.value.securityId in ids
  }

  lemma ApartPrefix(total: nat, a: seq<Range>, b: seq<Range>)
    requires Apart(NoMarks(total), a + b)
    ensures Apart(NoMarks(total), a)
  {
    hide Free, Overlap;
    forall i | 0 <= i < |a|
      ensures Inside(a[i], total) && Free(NoMarks(total), a[i])
    {
      assert (a + b)[i] == a[i];
    }
    forall i, j | 0 <= i < j < |a|
      ensures !Overlap(a[i], a[j])
    {
      assert (a + b)[i] == a[i] && (a + b)[j] == a[j];
    }
  }

  /** Ranges apart from the recorded ones can be marked on top of them. */
  lemma ApartIsFree(total: nat, marks: Marks, a: seq<Range>, b: seq<Range>)
    requires Recorded(total, marks, a) && Apart(NoMarks(total), a + b)
    ensures Apart(marks, b)
  {
    hide Overlap, Owned;
    forall i | 0 <= i < |b|
      ensures Inside(b[i], total) && Free(marks, b[i])
    {
      assert (a + b)[|a| + i] == b[i];
      forall x | b[i].start <= x < b[i].start + b[i].count
        ensures marks[x] == 0
      {
        NotOwned(total, a, b, i, x);
      }
    }
    forall i, j | 0 <= i < j < |b|
      ensures !Overlap(b[i], b[j])
    {
      assert (a + b)[|a| + i] == b[i] && (a + b)[|a| + j] == b[j];
    }
  }

  lemma NotOwned(total: nat, a: seq<Range>, b: seq<Range>, i: nat, x: int)
    requires Apart(NoMarks(total), a + b) && i < |b| && b[i].Has(x)
    ensures !Owned(a, x)
  {
    hide Free;
    forall j | 0 <= j < |a|
      ensures !a[j].Has(x)
    {
      assert (a + b)[j] == a[j] && (a + b)[|a| + i] == b[i];
      OverlapMeansShared(a[j], b[i]);
    }
  }

  lemma ExtentsStep(records: seq<Option<FileRecord>>, i: nat)
    requires i < |records|
    ensures ExtentsOf(records[..i + 1]) == ExtentsOf(records[..i]) + RangesOf(records[i])
  {
    assert records[..i + 1][..i] == records[..i];
  }

  /** The extents of the first records come first. */
  lemma {:induction false} ExtentsPrefix(records: seq<Option<FileRecord>>, n: nat) returns (rest: seq<Range>)
    requires n <= |records|
    ensures ExtentsOf(records) == ExtentsOf(records[..n]) + rest
    decreases |records|
  {
    hide RangesOf;
    if n == |records| {
      assert records[..n] == records;
      rest := [];
    } else {
      var front := records[..|records| - 1];
      assert front[..n] == records[..n];
      var middle := ExtentsPrefix(front, n);
      rest := middle + RangesOf(records[|records| - 1]);
    }
  }

  lemma NextApart(total: nat, ranges: seq<Range>, records: seq<Option<FileRecord>>, i: nat)
    requires i < |records| && Apart(NoMarks(total), ranges + ExtentsOf(records))
    ensures Apart(NoMarks(total), ranges + ExtentsOf(records[..i]) + RangesOf(records[i]))
  {
    hide Apart, RangesOf, ExtentsOf;
    var rest := ExtentsPrefix(records, i + 1);
    ExtentsStep(records, i);
    var a, b := ExtentsOf(records[..i]), RangesOf(records[i]);
    assert ranges + (a + b + rest) == (ranges + a + b) + rest;
    ApartPrefix(total, ranges + a + b, rest);
  }

  /** One slot, given that its record's extents are apart from everything recorded. */
  lemma SlotSucceeds(
        rd: Readers, id: Identity, ids: seq<u64>, slot: seq<byte>, marks: Marks, record: Option<FileRecord>,
        ranges: seq<Range>)
    returns (next: Marks)
    requires SlotHolds(rd, slot, record) && RecordOk(id, ids, record)
    requires Recorded(id.total, marks, ranges) && Apart(NoMarks(id.total), ranges + RangesOf(record))
    ensures ScanSlot(rd, id, ids, slot, marks) == Ok((record, next))
    ensures Recorded(id.total, next, ranges + RangesOf(record))
  {
    hide Recorded, RecordValid, MarkAll, AllZero, Extents, Apart;
    if record.Some? {
      ApartIsFree(id.total, marks, ranges, RangesOf(record));
      MarkAllIff(marks, RangesOf(record), 2);
      RecordedExtends(id.total, marks, ranges, RangesOf(record), 2);
      next := MarkAll(marks, RangesOf(record), 2).value;
    } else {
      assert ranges + RangesOf(record) == ranges;
      next := marks;
    }
  }

  /** A table that holds valid records with extents apart from each other passes the scan. */
  lemma {:induction false} ScanSucceeds(
      rd: Readers, id: Identity, ids: seq<u64>, table: seq<Block>, i: nat, done: Scan,
      records: seq<Option<FileRecord>>, ranges: seq<Range>)
    requires i <= 16 * |table| == |records| && done.records == records[..i]
    requires forall k :: i <= k < |records| ==> SlotHolds(rd, Slot(table, k), records[k]) && RecordOk(id, ids, records[k])
    requires Recorded(id.total, done.marks, ranges + ExtentsOf(records[..i]))
    requires Apart(NoMarks(id.total), ranges + ExtentsOf(records))
    ensures var r := ScanFrom(rd, id, ids, table, i, done);
            r.Ok? && r.value.records == records && Recorded(id.total, r.value.marks, ranges + ExtentsOf(records))
    decreases 16 * |table| - i
  {
    hide Recorded, ScanSlot, Slot, SlotHolds, RecordOk, Apart, ExtentsOf, RangesOf;
    if i == |records| {
      assert records[..i] == records;
    } else {
      NextApart(id.total, ranges, records, i);
      var before := ranges + ExtentsOf(records[..i]);
      var marks := SlotSucceeds(rd, id, ids, Slot(table, i), done.marks, records[i], before);
      ExtentsStep(records, i);
      assert ranges + (ExtentsOf(records[..i]) + RangesOf(records[i])) == before + RangesOf(records[i]);
      assert done.records + [records[i]] == records[..i + 1];
      ScanSucceeds(rd, id, ids, table, i + 1, Scan(done.records + [records[i]], marks), records, ranges);
    }
  }

  // What the formatter writes.

  /** The built-in directories and the input files, with the name and the security number of each record. */
  datatype Tree = Tree(nodes: seq<Node>, files: seq<InputFile>, names: seq<seq<byte>>, security: seq<u64>)

  function Count(t: Tree): nat { |t.nodes| + |t.files| }

  function Parent(t: Tree, i: nat): nat
    requires i < Count(t)
  {
    if i < |t.nodes| then t.nodes[i].parent else t.files[i - |t.nodes|].parent
  }

  function KindAt(t: Tree, i: nat): u16 { if i < |t.nodes| then DIRECTORY else REGULAR }

  ghost predicate TreeOk(t: Tree) {
    && 1 <= |t.nodes| <= 0xffff && |t.files| <= MAXIMUM_FILES && RecordBlocks(Count(t)) * 16 <= MAXIMUM_SLOTS
    && |t.names| == |t.security| == Count(t)
    && (forall i :: 0 <= i < Count(t) ==> Parent(t, i) < |t.nodes| && t.security[i] != 0)
    && (forall i :: 0 <= i < |t.files| ==> t.files[i].size <= MAX64)
  }

  /** A layout as the formatter computes it. */
  ghost predicate Laid(f: Formatted, t: Tree) {
    && TreeOk(t)
    && |f.continuations| == |t.nodes| && |f.files| == |t.files|
    && f.id.directoryBlocks == |t.nodes| && 0 < f.id.total <= 0x8_0000 && f.id.bitmapBlocks == BitmapBlocks(f.id.total)
    && f.id.recordBlocks == RecordBlocks(Count(t))
    && Constants(f.id)
    && var low := f.id.directoryStart + f.id.directoryBlocks;
       && TablesPlaced(f.id, low)
       && (forall i :: 0 <= i < |t.nodes| ==> f.continuations[i].count < 256 && Between(f.continuations[i], low, f.id.backup))
       && (forall i :: 0 <= i < |t.files| ==> f.files[i].count == DataBlocks(t.files[i].size) && Between(f.files[i], low, f.id.backup))
  }

  lemma FormatIsLaid(sizeMib: nat, t: Tree)
    requires 8 <= sizeMib <= 2048 && TreeOk(t) && Format(sizeMib, t.nodes, t.files).Ok?
    ensures Laid(Format(sizeMib, t.nodes, t.files).value, t)
  {
    FormatPlaces(sizeMib, t.nodes, t.files);
    FormatInside(sizeMib, t.nodes, t.files);
    FormatConstants(sizeMib, t.nodes, t.files);
    FormatCounts(sizeMib, t.nodes, t.files);
    hide Format, Constants, TablesPlaced, Between, DataBlocks, Ascending;
  }

  lemma FormatCounts(sizeMib: nat, nodes: seq<Node>, files: seq<InputFile>)
    requires 8 <= sizeMib <= 2048 && 1 <= |nodes| <= 0xffff && |files| <= MAXIMUM_FILES
    requires Format(sizeMib, nodes, files).Ok?
    ensures var id := Format(sizeMib, nodes, files).value.id;
            id.directoryBlocks == |nodes| && id.recordBlocks == RecordBlocks(|nodes| + |files|)
  {
    hide AssignFrom, PlaceFrom;
  }

  lemma LaidRecord(f: Formatted, t: Tree, i: nat)
    requires Laid(f, t) && i < Count(t)
    ensures i < |t.nodes| ==>
      && t.nodes[i].parent < |t.nodes| && f.continuations[i].count < 256 && f.id.directoryStart + i <= MAX64
      && (f.continuations[i].count != 0 ==> f.continuations[i].start + f.continuations[i].count <= MAX64)
      && RecordValid(f.id, DirectoryRecord(f.id, t.nodes, f.continuations[i], i, t.security[i]))
    ensures i >= |t.nodes| ==>
      var r := f.files[i - |t.nodes|];
      && t.files[i - |t.nodes|].parent < |t.nodes| && r.count <= 0x8_0000 && (r.count != 0 ==> r.start + r.count <= MAX64)
      && RecordValid(f.id, RegularRecord(t.nodes, t.files, r, i - |t.nodes|, t.security[i]))
  {
    hide RecordValid, Constants, DataBlocks;
    var low := f.id.directoryStart + f.id.directoryBlocks;
    assert Parent(t, i) < |t.nodes| && t.security[i] != 0;
    if i < |t.nodes| {
      DirectoryRecordValid(f.id, t.nodes, f.continuations[i], i, t.security[i], low);
    } else {
      RegularRecordValid(f.id, t.nodes, t.files, f.files[i - |t.nodes|], i - |t.nodes|, t.security[i], low);
    }
  }

  /** The record written for a directory or a file. */
  ghost function RecordOf(f: Formatted, t: Tree, i: nat): FileRecord
    requires Laid(f, t) && i < Count(t)
  {
    LaidRecord(f, t, i);
    if i < |t.nodes| then DirectoryRecord(f.id, t.nodes, f.continuations[i], i, t.security[i])
    else RegularRecord(t.nodes, t.files, f.files[i - |t.nodes|], i - |t.nodes|, t.security[i])
  }

  ghost function SlotOf(f: Formatted, t: Tree, i: nat): Option<FileRecord>
    requires Laid(f, t)
  {
    if i < Count(t) then Some(RecordOf(f, t, i)) else None
  }

  ghost function Records(f: Formatted, t: Tree): (r: seq<Option<FileRecord>>)
    requires Laid(f, t)
    ensures |r| == f.id.recordBlocks * 16
  {
    seq(f.id.recordBlocks * 16, i requires 0 <= i => SlotOf(f, t, i))
  }

  lemma RecordRanges(f: Formatted, t: Tree, i: nat)
    requires Laid(f, t)
    ensures RangesOf(SlotOf(f, t, i)) ==
      if i >= Count(t) then []
      else
        var r := if i < |t.nodes| then f.continuations[i] else f.files[i - |t.nodes|];
        if r.count == 0 then [] else [r]
  {
    hide Constants, TablesPlaced, Between, DataBlocks;
  }

  /** The first n of the formatter's own ranges. */
  ghost function FirstRanges(f: Formatted, n: nat): seq<Range> {
    var d := |f.continuations|;
    if n <= d then NonEmpty(f.continuations[..n])
    else NonEmpty(f.continuations) + NonEmpty(f.files[..if n - d <= |f.files| then n - d else |f.files|])
  }

  ghost function RangeAt(f: Formatted, i: nat): seq<Range> {
    var d := |f.continuations|;
    if i >= d + |f.files| then []
    else
      var r := if i < d then f.continuations[i] else f.files[i - d];
      if r.count == 0 then [] else [r]
  }

  lemma FirstRangesStep(f: Formatted, i: nat)
    ensures FirstRanges(f, i + 1) == FirstRanges(f, i) + RangeAt(f, i)
  {
    hide NonEmpty;
    var d := |f.continuations|;
    if i < d {
      NonEmptyStep(f.continuations, i);
    } else {
      NoneEmpty();
      assert f.continuations[..d] == f.continuations && f.files[..0] == [];
      if i - d < |f.files| {
        NonEmptyStep(f.files, i - d);
      }
    }
  }

  /** The extents of the first n records are the first n of the formatter's own ranges. */
  lemma {:induction false} WrittenExtents(f: Formatted, t: Tree, n: nat)
    requires Laid(f, t) && n <= f.id.recordBlocks * 16
    ensures ExtentsOf(Records(f, t)[..n]) == FirstRanges(f, n)
    decreases n
  {
    hide Laid, RecordOf, NonEmpty, ExtentsOf, RangesOf, Records, SlotOf;
    if n == 0 {
      NoneEmpty();
      assert f.continuations[..0] == [];
      assert Records(f, t)[..0] == [];
    } else {
      hide FirstRanges;
      LaidSizes(f, t);
      WrittenExtents(f, t, n - 1);
      ExtentsStep(Records(f, t), n - 1);
      RecordAt(f, t, n - 1);
      RecordRanges(f, t, n - 1);
      FirstRangesStep(f, n - 1);
    }
  }

  lemma NoneEmpty()
    ensures NonEmpty([]) == [] && ExtentsOf([]) == []
  {
  }

  lemma NonEmptyStep(ranges: seq<Range>, i: nat)
    requires i < |ranges|
    ensures NonEmpty(ranges[..i + 1]) == NonEmpty(ranges[..i]) + if ranges[i].count == 0 then [] else [ranges[i]]
  {
    assert ranges[..i + 1][..i] == ranges[..i];
  }

  lemma LaidSizes(f: Formatted, t: Tree)
    requires Laid(f, t)
    ensures |f.continuations| == |t.nodes| && |f.files| == |t.files| && Count(t) <= f.id.recordBlocks * 16
    ensures 1 <= |t.nodes| && f.id.recordBlocks * 16 <= MAXIMUM_SLOTS
  {
  }

  lemma RecordAt(f: Formatted, t: Tree, i: nat)
    requires Laid(f, t) && i < f.id.recordBlocks * 16
    ensures Records(f, t)[i] == SlotOf(f, t, i)
  {
    hide Laid, SlotOf;
  }

  lemma AllExtents(f: Formatted, t: Tree)
    requires Laid(f, t)
    ensures MetadataRanges(f.id) + ExtentsOf(Records(f, t)) == Owns(f)
  {
    hide Laid, NonEmpty, ExtentsOf, Records;
    LaidSizes(f, t);
    var n := f.id.recordBlocks * 16;
    WrittenExtents(f, t, n);
    assert Records(f, t)[..n] == Records(f, t);
    assert f.continuations[..|t.nodes|] == f.continuations;
    assert f.files[..|t.files|] == f.files;
    if n == |t.nodes| {
      assert f.files == [];
      NoneEmpty();
    }
  }

  lemma RecordFields(f: Formatted, t: Tree, i: nat)
    requires Laid(f, t) && i < Count(t)
    ensures var r := RecordOf(f, t, i);
            && RecordValid(f.id, r) && r.fileId == i + 1 && r.kind == KindAt(t, i) && r.securityId == t.security[i]
            && Parent(t, i) < |t.nodes| && r.parentId == Parent(t, i) + 1
            && (i < |t.nodes| ==> r.directoryBlock == f.id.directoryStart + i)
  {
    hide RecordValid, Constants, TablesPlaced, Between, DataBlocks, RecordBlocks, BitmapBlocks;
    LaidRecord(f, t, i);
    assert Parent(t, i) < |t.nodes|;
  }

  /** Identifiers and directory blocks are given out once. */
  lemma IdentifiersDistinct(f: Formatted, t: Tree)
    requires Laid(f, t)
    ensures IdsDistinct(Records(f, t)) && DirectoryBlocksDistinct(Records(f, t))
  {
    hide Laid, RecordOf, RecordValid;
    LaidSizes(f, t);
    var records := Records(f, t);
    forall i, j | 0 <= i < j < |records| && records[i].Some? && records[j].Some?
      ensures records[i].value.fileId != records[j].value.fileId
      ensures IsDirectory(records[i]) && IsDirectory(records[j]) ==> records[i].value.directoryBlock != records[j].value.directoryBlock
    {
      RecordFields(f, t, i);
      RecordFields(f, t, j);
    }
  }

  // Directories.

  /** The entries of a directory from block k on, if all its blocks can be read. */
  ghost function ReadEntries(rd: Readers, dev: Device, r: FileRecord, k: nat): Option<seq<Entry>>
    decreases DirectoryLength(r) - k
  {
    if k >= DirectoryLength(r) then Some([])
    else
      var b := DirectoryBlockAt(r, k);
      if b.None? || b.value >= |dev| then None
      else
        var here := rd.directory(dev[b.value], r.fileId);
        var rest := ReadEntries(rd, dev, r, k + 1);
        if here.Err? || rest.None? then None else Some(here.value + rest.value)
  }

  ghost function Onwards(rd: Readers, records: seq<Option<FileRecord>>, dir: nat, entries: seq<Entry>, c: Checked<seq<Visit>>)
    : Checked<seq<Visit>>
    requires dir < |records| && records[dir].Some?
  {
    if c.Err? then c else InspectEntries(rd, records, dir, entries, c.value)
  }

  lemma {:induction false} EntriesConcat(
        rd: Readers, records: seq<Option<FileRecord>>, dir: nat, a: seq<Entry>, b: seq<Entry>, visits: seq<Visit>)
    requires dir < |records| && records[dir].Some?
    ensures InspectEntries(rd, records, dir, a + b, visits)
         == Onwards(rd, records, dir, b, InspectEntries(rd, records, dir, a, visits))
    decreases |a|
  {
    hide EntryMatches, Linked, NameTaken;
    if a == [] {
      assert a + b == b;
    } else {
      assert (a + b)[1..] == a[1..] + b;
      EntriesConcat(rd, records, dir, a[1..], b, visits + [Visit(dir, a[0])]);
    }
  }

  /** Going through the blocks one by one is going through all their entries. */
  lemma {:induction false} BlocksAreRead(rd: Readers, dev: Device, records: seq<Option<FileRecord>>, dir: nat, k: nat, visits: seq<Visit>)
    requires dir < |records| && records[dir].Some? && ReadEntries(rd, dev, records[dir].value, k).Some?
    ensures InspectBlocks(rd, dev, records, dir, k, visits)
         == InspectEntries(rd, records, dir, ReadEntries(rd, dev, records[dir].value, k).value, visits)
    decreases DirectoryLength(records[dir].value) - k
  {
    hide InspectEntries, DirectoryBlockAt, DirectoryLength;
    var r := records[dir].value;
    if k < DirectoryLength(r) {
      var here := rd.directory(dev[DirectoryBlockAt(r, k).value], r.fileId).value;
      var rest := ReadEntries(rd, dev, r, k + 1).value;
      EntriesConcat(rd, records, dir, here, rest, visits);
      var next := InspectEntries(rd, records, dir, here, visits);
      if next.Ok? {
        BlocksAreRead(rd, dev, records, dir, k + 1, next.value);
      }
    } else {
      NoEntries(rd, records, dir, visits);
    }
  }

  lemma NoEntries(rd: Readers, records: seq<Option<FileRecord>>, dir: nat, visits: seq<Visit>)
    requires dir < |records| && records[dir].Some?
    ensures InspectEntries(rd, records, dir, [], visits) == Ok(visits)
  {
  }

  function EntryFor(t: Tree, i: nat): Entry
    requires i < Count(t) <= 0x1_ffff && |t.names| == Count(t)
  {
    Entry(i + 1, i, KindAt(t, i), 0, t.names[i])
  }

  /** The entries written into a directory: its children in the order of their records. */
  function Children(t: Tree, d: nat, from: nat): seq<Entry>
    requires from <= Count(t) <= 0x1_ffff && |t.names| == Count(t)
    decreases Count(t) - from
  {
    if from == Count(t) then []
    else if from >= 1 && Parent(t, from) == d then [EntryFor(t, from)] + Children(t, d, from + 1)
    else Children(t, d, from + 1)
  }

  /** Siblings have different names. */
  ghost predicate NamesApart(rd: Readers, t: Tree)
    requires |t.names| == Count(t)
  {
    forall i, j :: 1 <= i < j < Count(t) && Parent(t, i) == Parent(t, j) ==> !rd.sameName(t.names[j], t.names[i])
  }

  ghost predicate Matches(t: Tree, records: seq<Option<FileRecord>>) {
    && Count(t) <= |records|
    && (forall i :: 0 <= i < Count(t) ==>
          && records[i].Some? && records[i].value.fileId == i + 1 && records[i].value.kind == KindAt(t, i)
          && Parent(t, i) < |t.nodes| && records[i].value.parentId == Parent(t, i) + 1)
    && (forall i :: Count(t) <= i < |records| ==> records[i].None?)
  }

  /** The directories before d, and the records before `from` in d, have been visited. */
  ghost predicate Before(t: Tree, d: nat, from: nat, i: nat)
    requires i < Count(t)
  {
    i >= 1 && (Parent(t, i) < d || (Parent(t, i) == d && i < from))
  }

  ghost predicate Visited(t: Tree, d: nat, from: nat, visits: seq<Visit>)
    requires Count(t) <= 0x1_ffff && |t.names| == Count(t)
  {
    && (forall k :: 0 <= k < |visits| ==> VisitOk(t, d, from, visits[k]))
    && (forall i :: 0 <= i < Count(t) && Before(t, d, from, i) ==> Linked(visits, i))
  }

  ghost predicate VisitOk(t: Tree, d: nat, from: nat, v: Visit)
    requires Count(t) <= 0x1_ffff && |t.names| == Count(t)
  {
    && v.entry.index < Count(t) && v.entry == EntryFor(t, v.entry.index)
    && v.dir == Parent(t, v.entry.index) && Before(t, d, from, v.entry.index)
  }

  lemma {:induction false} InspectChildren(rd: Readers, t: Tree, records: seq<Option<FileRecord>>, d: nat, from: nat, visits: seq<Visit>)
    requires Count(t) <= 0x1_ffff && |t.names| == Count(t) && NamesApart(rd, t) && Matches(t, records)
    requires d < |t.nodes| && from <= Count(t) && Visited(t, d, from, visits)
    ensures records[d].Some?
    ensures var r := InspectEntries(rd, records, d, Children(t, d, from), visits);
            r.Ok? && Visited(t, d + 1, 0, r.value)
    decreases Count(t) - from
  {
    hide Linked, NameTaken, Visited, Matches, NamesApart, EntryMatches, EntryFor, InspectEntries;
    DirectoryThere(t, records, d);
    if from == Count(t) {
      AllOfDirectory(t, d, visits);
      NoEntries(rd, records, d, visits);
    } else if from >= 1 && Parent(t, from) == d {
      var e := EntryFor(t, from);
      EntryIs(t, from);
      NextEntry(rd, t, records, d, from, visits);
      FirstEntry(rd, records, d, e, Children(t, d, from + 1), visits);
      InspectChildren(rd, t, records, d, from + 1, visits + [Visit(d, e)]);
    } else {
      SkipChild(t, d, from, visits);
      InspectChildren(rd, t, records, d, from + 1, visits);
    }
  }

  lemma FirstEntry(rd: Readers, records: seq<Option<FileRecord>>, d: nat, e: Entry, rest: seq<Entry>, visits: seq<Visit>)
    requires d < |records| && records[d].Some? && EntryMatches(records, records[d].value, e)
    requires !Linked(visits, e.index) && !NameTaken(rd, visits, d, e.name)
    ensures InspectEntries(rd, records, d, [e] + rest, visits) == InspectEntries(rd, records, d, rest, visits + [Visit(d, e)])
  {
    hide Linked, NameTaken, EntryMatches;
    assert ([e] + rest)[1..] == rest;
  }

  lemma EntryIs(t: Tree, i: nat)
    requires i < Count(t) <= 0x1_ffff && |t.names| == Count(t)
    ensures EntryFor(t, i).index == i && EntryFor(t, i).name == t.names[i]
  {
  }

  lemma DirectoryThere(t: Tree, records: seq<Option<FileRecord>>, d: nat)
    requires Matches(t, records) && d < |t.nodes|
    ensures d < |records| && records[d].Some?
  {
  }

  lemma AllOfDirectory(t: Tree, d: nat, visits: seq<Visit>)
    requires Count(t) <= 0x1_ffff && |t.names| == Count(t) && Visited(t, d, Count(t), visits)
    ensures Visited(t, d + 1, 0, visits)
  {
    hide Linked;
  }

  lemma SkipChild(t: Tree, d: nat, from: nat, visits: seq<Visit>)
    requires Count(t) <= 0x1_ffff && |t.names| == Count(t) && from < Count(t) && Visited(t, d, from, visits)
    requires from == 0 || Parent(t, from) != d
    ensures Visited(t, d, from + 1, visits)
  {
    hide Linked;
  }

  /** The next child is new, agrees with its record, and has a name of its own. */
  lemma NextEntry(rd: Readers, t: Tree, records: seq<Option<FileRecord>>, d: nat, from: nat, visits: seq<Visit>)
    requires Count(t) <= 0x1_ffff && |t.names| == Count(t) && NamesApart(rd, t) && Matches(t, records)
    requires d < |t.nodes| && 1 <= from < Count(t) && Parent(t, from) == d && Visited(t, d, from, visits)
    ensures records[d].Some? && EntryMatches(records, records[d].value, EntryFor(t, from))
    ensures !Linked(visits, from) && !NameTaken(rd, visits, d, t.names[from])
    ensures Visited(t, d, from + 1, visits + [Visit(d, EntryFor(t, from))])
  {
    assert records[d].Some? && records[from].Some?;
    var after := visits + [Visit(d, EntryFor(t, from))];
    forall k | 0 <= k < |visits|
      ensures visits[k].entry.index != from
      ensures visits[k].dir == d ==> !rd.sameName(t.names[from], visits[k].entry.name)
    {
      assert VisitOk(t, d, from, visits[k]);
    }
    forall i | 0 <= i < Count(t) && Before(t, d, from + 1, i)
      ensures Linked(after, i)
    {
      if i == from {
        assert after[|visits|].entry.index == from;
      } else {
        assert Before(t, d, from, i) && Linked(visits, i);
        var k :| 0 <= k < |visits| && visits[k].entry.index == i;
        assert after[k].entry.index == i;
      }
    }
    forall k | 0 <= k < |after|
      ensures VisitOk(t, d, from + 1, after[k])
    {
      if k < |visits| {
        assert VisitOk(t, d, from, visits[k]);
      }
    }
  }

  /** Directories read back as they were written. */
  ghost predicate DirectoriesHold(rd: Readers, dev: Device, t: Tree, records: seq<Option<FileRecord>>)
    requires Count(t) <= 0x1_ffff && |t.names| == Count(t) && Matches(t, records)
  {
    forall d :: 0 <= d < |t.nodes| ==> ReadEntries(rd, dev, records[d].value, 0) == Some(Children(t, d, 0))
  }

  lemma {:induction false} InspectTree(rd: Readers, dev: Device, t: Tree, records: seq<Option<FileRecord>>, i: nat, visits: seq<Visit>)
    requires Count(t) <= 0x1_ffff && |t.names| == Count(t) && NamesApart(rd, t) && Matches(t, records)
    requires DirectoriesHold(rd, dev, t, records)
    requires i <= |records| && Visited(t, if i < |t.nodes| then i else |t.nodes|, 0, visits)
    ensures var r := InspectDirectories(rd, dev, records, i, visits);
            r.Ok? && Visited(t, |t.nodes|, 0, r.value)
    decreases |records| - i
  {
    hide Visited, InspectBlocks, InspectEntries, Children, NamesApart, ReadEntries;
    if i < |records| {
      if i < |t.nodes| {
        assert IsDirectory(records[i]);
        BlocksAreRead(rd, dev, records, i, 0, visits);
        InspectChildren(rd, t, records, i, 0, visits);
        InspectTree(rd, dev, t, records, i + 1, InspectBlocks(rd, dev, records, i, 0, visits).value);
      } else {
        assert !IsDirectory(records[i]);
        InspectTree(rd, dev, t, records, i + 1, visits);
      }
    }
  }

  lemma AllLinked(t: Tree, records: seq<Option<FileRecord>>, visits: seq<Visit>)
    requires Count(t) <= 0x1_ffff && |t.names| == Count(t) && Matches(t, records) && Visited(t, |t.nodes|, 0, visits)
    ensures LinksRight(records, 0, visits)
  {
    forall i | 0 <= i < |records| && records[i].Some?
      ensures Linked(visits, i) <==> i != 0
    {
      if i >= 1 {
        assert Before(t, |t.nodes|, 0, i);
      } else {
        forall k | 0 <= k < |visits|
          ensures visits[k].entry.index != 0
        {
          assert VisitOk(t, |t.nodes|, 0, visits[k]);
        }
      }
    }
  }

  lemma RecordsMatch(f: Formatted, t: Tree)
    requires Laid(f, t)
    ensures Count(t) <= 0x1_ffff && |t.names| == Count(t) && Matches(t, Records(f, t))
  {
    LaidSizes(f, t);
    assert Count(t) <= 0x1_ffff && |t.names| == Count(t);
    hide Laid, RecordOf, RecordValid;
    var records := Records(f, t);
    forall i | 0 <= i < Count(t)
      ensures records[i].Some? && records[i].value.fileId == i + 1 && records[i].value.kind == KindAt(t, i)
      ensures Parent(t, i) < |t.nodes| && records[i].value.parentId == Parent(t, i) + 1
    {
      RecordFields(f, t, i);
    }
  }

  /** The tables of a formatted volume, as they read back. */
  ghost predicate TablesHold(rd: Readers, dev: Device, f: Formatted, t: Tree, ids: seq<u64>)
    requires Laid(f, t)
  {
    RecordsMatch(f, t);
    && |dev| == f.id.total && |Part(dev, f.id.recordStart, f.id.recordBlocks)| == f.id.recordBlocks
    && (forall i :: 0 <= i < 16 * f.id.recordBlocks ==>
          SlotHolds(rd, Slot(Part(dev, f.id.recordStart, f.id.recordBlocks), i), SlotOf(f, t, i)))
    && DirectoriesHold(rd, dev, t, Records(f, t)) && NamesApart(rd, t)
    && rd.security(Part(dev, f.id.securityStart, f.id.securityBlocks)) == Ok(ids)
    && (forall i :: 0 <= i < Count(t) ==> t.security[i] in ids)
  }

  lemma ScanPasses(rd: Readers, dev: Device, f: Formatted, t: Tree, ids: seq<u64>, marks: Marks)
    requires Laid(f, t) && TablesHold(rd, dev, f, t, ids)
    requires Apart(NoMarks(f.id.total), Owns(f)) && Recorded(f.id.total, marks, MetadataRanges(f.id))
    ensures var r := ScanRecords(rd, f.id, ids, Part(dev, f.id.recordStart, f.id.recordBlocks), marks);
            r.Ok? && r.value.records == Records(f, t) && Recorded(f.id.total, r.value.marks, Owns(f))
  {
    var table := Part(dev, f.id.recordStart, f.id.recordBlocks);
    var records := Records(f, t);
    hide Recorded, Apart, MetadataRanges, ScanFrom, Laid, TablesHold, Part, RecordOf, Slot, ExtentsOf, IdsDistinct;
    hide DirectoryBlocksDistinct;
    AllExtents(f, t);
    NoneEmpty();
    assert records[..0] == [];
    assert MetadataRanges(f.id) + [] == MetadataRanges(f.id);
    forall k | 0 <= k < |records|
      ensures SlotHolds(rd, Slot(table, k), records[k]) && RecordOk(f.id, ids, records[k])
    {
      SlotThere(rd, dev, f, t, ids, k);
    }
    ScanSucceeds(rd, f.id, ids, table, 0, Scan([], marks), records, MetadataRanges(f.id));
    IdentifiersDistinct(f, t);
  }

  lemma SlotThere(rd: Readers, dev: Device, f: Formatted, t: Tree, ids: seq<u64>, k: nat)
    requires Laid(f, t) && TablesHold(rd, dev, f, t, ids) && k < 16 * f.id.recordBlocks
    ensures |Part(dev, f.id.recordStart, f.id.recordBlocks)| == f.id.recordBlocks
    ensures SlotHolds(rd, Slot(Part(dev, f.id.recordStart, f.id.recordBlocks), k), Records(f, t)[k])
    ensures RecordOk(f.id, ids, Records(f, t)[k])
  {
    hide SlotHolds, DirectoriesHold, NamesApart, Slot, RecordOf, RecordValid, Laid;
    if k < Count(t) {
      RecordFields(f, t, k);
    }
  }

  lemma NamespacePasses(rd: Readers, dev: Device, f: Formatted, t: Tree, ids: seq<u64>, marks: Marks)
    requires Laid(f, t) && TablesHold(rd, dev, f, t, ids)
    requires Apart(NoMarks(f.id.total), Owns(f)) && Recorded(f.id.total, marks, MetadataRanges(f.id))
    ensures var r := Namespace(rd, dev, f.id, ids, marks);
            r.Ok? && Recorded(f.id.total, r.value.scan.marks, Owns(f))
  {
    hide Laid, ScanRecords, Recorded, Apart, MetadataRanges, Part, Records, Visited, NamesApart, DirectoriesHold, Slot;
    hide SlotHolds, SlotOf;
    ScanPasses(rd, dev, f, t, ids, marks);
    LaidSizes(f, t);
    LaidConstants(f, t);
    RecordsMatch(f, t);
    TreeStart(t);
    var records := Records(f, t);
    assert IsDirectory(records[0]) by { assert KindAt(t, 0) == DIRECTORY; }
    InspectTree(rd, dev, t, records, 0, []);
    AllLinked(t, records, InspectDirectories(rd, dev, records, 0, []).value);
  }

  lemma TreeStart(t: Tree)
    requires Count(t) <= 0x1_ffff && |t.names| == Count(t)
    ensures Visited(t, 0, 0, [])
  {
  }

  /** The bitmap as the formatter writes it. */
  ghost predicate BitmapHolds(dev: Device, f: Formatted, bytes: seq<byte>) {
    && |bytes| == f.id.bitmapBlocks * BLOCK_SIZE
    && (forall m: nat :: m / 8 < |bytes| ==> (FlatBit(bytes, m) <==> Owned(Marked(f), m)))
    && Part(dev, f.id.bitmapStart, f.id.bitmapBlocks) == Chunks(bytes, f.id.bitmapBlocks)
  }

  /** The home metadata of a formatted volume passes all three checks. */
  lemma HomePasses(sizeMib: nat, t: Tree, rd: Readers, dev: Device, ids: seq<u64>, bytes: seq<byte>)
    requires 8 <= sizeMib <= 2048 && TreeOk(t) && Format(sizeMib, t.nodes, t.files).Ok?
    requires var f := Format(sizeMib, t.nodes, t.files).value;
             (FormatIsLaid(sizeMib, t); TablesHold(rd, dev, f, t, ids) && BitmapHolds(dev, f, bytes))
    ensures InspectHome(rd, dev, Format(sizeMib, t.nodes, t.files).value.id) == Home(Success, Success, Success)
  {
    hide Format, Laid, TreeOk, Apart, MetadataRanges, Namespace, Allocation, MarkAll, Recorded, NoMarks, Chunks;
    hide FlatBit, Owned, Marked, Part, Owns;
    TreeBounds(t);
    var f := Format(sizeMib, t.nodes, t.files).value;
    FormatIsApart(sizeMib, t.nodes, t.files);
    FormatIsLaid(sizeMib, t);
    LaidConstants(f, t);
    var marks := MetadataMarked(f);
    NamespacePasses(rd, dev, f, t, ids, marks);
    FormatPassesAllocation(sizeMib, t.nodes, t.files, dev, bytes, Namespace(rd, dev, f.id, ids, marks).value.scan.marks);
  }

  lemma LaidConstants(f: Formatted, t: Tree)
    requires Laid(f, t)
    ensures UsesSecurity(f.id) && UsesJournal(f.id) && UsesCleanUnmount(f.id) && OnlyKnownFeatures(f.id)
    ensures f.id.securityBlocks == 1 && f.id.total <= 0x8_0000 && f.id.root == 0
    ensures RecordCapacity(f.id.journalBlocks) == Some(32)
    ensures 0 < f.id.journalStart && f.id.journalStart + 66 < f.id.backup == f.id.total - 1
    ensures f.id.recordBlocks > 0
  {
    FeatureBits();
    hide Between, DataBlocks, TreeOk, HasBit;
  }

  lemma MetadataMarked(f: Formatted) returns (marks: Marks)
    requires Apart(NoMarks(f.id.total), Owns(f))
    ensures MarkAll(NoMarks(f.id.total), MetadataRanges(f.id), 1) == Some(marks)
    ensures Recorded(f.id.total, marks, MetadataRanges(f.id))
  {
    hide Apart, MetadataRanges, NonEmpty, Recorded, NoMarks, MarkAll;
    var meta := MetadataRanges(f.id);
    ApartPrefix(f.id.total, meta, NonEmpty(f.continuations) + NonEmpty(f.files));
    MarkAllIff(NoMarks(f.id.total), meta, 1);
    marks := MarkAll(NoMarks(f.id.total), meta, 1).value;
    RecordedNothing(f.id.total);
    RecordedExtends(f.id.total, NoMarks(f.id.total), [], meta, 1);
    assert [] + meta == meta;
  }

  // The whole volume.

  function FreshSuper(f: Formatted): Superblock { Superblock(f.id, 1, 0, STATE_NONE) }

  /** The journal headers differ in their sequence number only. */
  function FreshHeader(sequence: u64): (h: JournalHeader)
    ensures h.sequence == sequence && h.head == h.tail < h.capacity == 32 && h.volumeGeneration == 1
    ensures h.lastCommitted == h.lastCheckpoint == 0 && h.nextTransaction == 1
  {
    JournalHeader(sequence, 1, 32, 0, 0, 1, 1, 0, 0, 0)
  }

  lemma FreshHeaderValid(sequence: u64)
    requires sequence != 0
    ensures HeaderValid(FreshHeader(sequence)) && Occupied(FreshHeader(sequence)) == 0
  {
  }

  /** A device that holds what the formatter writes. */
  ghost predicate HoldsFormat(dev: Device, f: Formatted, t: Tree, rd: Readers, ids: seq<u64>, bytes: seq<byte>)
    requires Laid(f, t)
  {
    && TablesHold(rd, dev, f, t, ids) && BitmapHolds(dev, f, bytes)
    && SuperblocksHold(dev, f) && HeadersHold(dev, f.id.journalStart, FreshHeader(1), FreshHeader(2))
    && rd.mountSecurity(f.id, Part(dev, f.id.securityStart, f.id.securityBlocks), Part(dev, f.id.recordStart, f.id.recordBlocks)) == Success
  }

  ghost predicate SuperblocksHold(dev: Device, f: Formatted) {
    |dev| >= 2 && EncodeSuperblock(FreshSuper(f)) == Ok(dev[0]) && dev[|dev| - 1] == dev[0]
  }

  ghost predicate HeadersHold(dev: Device, start: nat, a: JournalHeader, b: JournalHeader) {
    start + 1 < |dev| && EncodeHeader(a) == Ok(dev[start]) && EncodeHeader(b) == Ok(dev[start + 1])
  }

  lemma SuperblocksDecode(dev: Device, f: Formatted)
    requires SuperblocksHold(dev, f) && Decodable(FreshSuper(f))
    ensures |dev| >= 2 && DecodeSuperblock(dev[0]) == Ok(FreshSuper(f)) && DecodeSuperblock(dev[|dev| - 1]) == Ok(FreshSuper(f))
  {
    hide DecodeSuperblock, EncodeSuperblock, Decodable, FreshSuper;
    SuperblockRoundTrip(FreshSuper(f));
  }

  lemma HeadersDecode(dev: Device, start: nat, a: JournalHeader, b: JournalHeader)
    requires HeadersHold(dev, start, a, b) && HeaderValid(a) && HeaderValid(b)
    ensures start + 1 < |dev| && HeaderAt(dev, start) == Ok(a) && HeaderAt(dev, start + 1) == Ok(b)
  {
    hide DecodeHeader, EncodeHeader, HeaderValid, Occupied;
    HeaderRoundTrip(a);
    HeaderRoundTrip(b);
  }

  /** The headers of an empty journal, of which the second is the newer one. */
  ghost predicate EmptyJournal(a: JournalHeader, b: JournalHeader) {
    && HeaderValid(b) && SameHeaderState(b, a) && a.sequence < b.sequence && b.head == b.tail < b.capacity == 32
    && b.volumeGeneration == 1 && b.lastCommitted == b.lastCheckpoint == 0 && b.nextTransaction == 1
  }

  lemma FreshJournal(rd: Readers, dev: Device, f: Formatted, a: JournalHeader, b: JournalHeader)
    requires HeaderAt(dev, f.id.journalStart) == Ok(a) && HeaderAt(dev, f.id.journalStart + 1) == Ok(b) && EmptyJournal(a, b)
    requires RecordCapacity(f.id.journalBlocks) == Some(32) && f.id.journalStart + 1 < |dev|
    ensures !JournalNeedsRecovery(dev, FreshSuper(f))
    ensures InspectJournal(rd, dev, FreshSuper(f))
         == JournalView(Success, [Success, Success], Some(Chosen(1, b)), 0, false, false, [])
  {
    hide HeaderAt, RecordCapacity, HasBit, HeaderValid;
    assert SameHeaderState(b, a);
    assert a.capacity == a.(sequence := 0).capacity == b.capacity;
  }

  lemma FreshMounts(rd: Readers, dev: Device, f: Formatted, t: Tree, ids: seq<u64>)
    requires Laid(f, t) && TablesHold(rd, dev, f, t, ids) && MountSecurity(rd, dev, f.id) == Success
    ensures MountStatus(rd, dev, FreshSuper(f)) == Success
  {
    LaidSizes(f, t);
    LaidConstants(f, t);
    SlotThere(rd, dev, f, t, ids, 0);
    RecordFields(f, t, 0);
    RecordAt(f, t, 0);
    hide Laid, TablesHold, RecordValid, RecordOf, Records, Part, Slot, HasBit, MountSecurity;
  }

  /** What the parts of an inspection find on such a device. */
  ghost predicate ReadsFresh(rd: Readers, dev: Device, f: Formatted, a: JournalHeader, b: JournalHeader) {
    && |dev| == f.id.total >= 2 && f.id.total <= 0x8_0000 && f.id.backup == |dev| - 1
    && DecodeSuperblock(dev[0]) == Ok(FreshSuper(f)) && DecodeSuperblock(dev[|dev| - 1]) == Ok(FreshSuper(f))
    && f.id.journalStart + 1 < |dev| && RecordCapacity(f.id.journalBlocks) == Some(32)
    && HeaderAt(dev, f.id.journalStart) == Ok(a) && HeaderAt(dev, f.id.journalStart + 1) == Ok(b) && EmptyJournal(a, b)
    && UsesSecurity(f.id) && UsesCleanUnmount(f.id) && OnlyKnownFeatures(f.id)
    && MountStatus(rd, dev, FreshSuper(f)) == Success
    && InspectHome(rd, dev, f.id) == Home(Success, Success, Success)
  }

  function FreshReport(f: Formatted, b: JournalHeader): Report {
    Report(Success, Success, Success, Success, Some(Volume(FreshSuper(f), false, false)),
           JournalView(Success, [Success, Success], Some(Chosen(1, b)), 0, false, false, []),
           Home(Success, Success, Success), false)
  }

  lemma ReportIsFresh(rd: Readers, dev: Device, f: Formatted, a: JournalHeader, b: JournalHeader)
    requires ReadsFresh(rd, dev, f, a, b)
    ensures |dev| >= 2 && Inspect(rd, dev) == FreshReport(f, b)
  {
    hide DecodeSuperblock, InspectHome, InspectJournal, MountStatus, HeaderAt, HasBit, EmptyJournal;
    hide JournalNeedsRecovery, RecordCapacity;
    hide View, FreshSuper;
    FreshJournal(rd, dev, f, a, b);
    FreshVolume(f);
  }

  lemma FreshVolume(f: Formatted)
    ensures var s := FreshSuper(f);
            s.id == f.id && s.state == STATE_NONE && Select(Ok(s), Ok(s)) == Ok(Selection(s, false, false))
  {
  }

  lemma NothingToDraft(rd: Readers, dev: Device, f: Formatted, a: JournalHeader, b: JournalHeader)
    requires ReadsFresh(rd, dev, f, a, b) && SuperblocksHold(dev, f)
    ensures var plan := Draft(dev, Volume(FreshSuper(f), false, false), Chosen(1, b), [Success, Success]);
            |dev| >= 2 && plan.Ok? && plan.value.actions == []
  {
    hide DecodeSuperblock, EncodeSuperblock, EncodeHeader, InspectHome, MountStatus, HeaderAt, HasBit, RecordCapacity, Images;
    assert FreshSuper(f).(state := STATE_NONE) == FreshSuper(f);
    assert SameHeaderState(b, a);
    assert JournalActions(dev, f.id, Chosen(1, b)) == Ok([]);
    assert SuperActions(dev, f.id, 0, dev[0]) == [];
  }

  lemma NothingToPlan(rd: Readers, dev: Device, f: Formatted, a: JournalHeader, b: JournalHeader)
    requires ReadsFresh(rd, dev, f, a, b) && SuperblocksHold(dev, f)
    ensures |dev| >= 2 && Clean(Inspect(rd, dev))
    ensures MakePlan(rd, dev).Ok? && MakePlan(rd, dev).value.actions == []
  {
    hide SuperblocksHold, Draft, Inspect, HasBit, View, Images, FreshSuper;
    hide DecodeSuperblock, InspectHome, MountStatus, HeaderAt, RecordCapacity;
    ReportIsFresh(rd, dev, f, a, b);
    NothingToDraft(rd, dev, f, a, b);
    NoImages(dev);
    FreshVolume(f);
  }

  lemma HeldParts(dev: Device, f: Formatted, t: Tree, rd: Readers, ids: seq<u64>, bytes: seq<byte>)
    requires Laid(f, t) && HoldsFormat(dev, f, t, rd, ids, bytes)
    ensures TablesHold(rd, dev, f, t, ids) && BitmapHolds(dev, f, bytes)
    ensures SuperblocksHold(dev, f) && HeadersHold(dev, f.id.journalStart, FreshHeader(1), FreshHeader(2)) && |dev| == f.id.total
    ensures UsesSecurity(f.id) && f.id.securityBlocks == 1 ==> MountSecurity(rd, dev, f.id) == Success
  {
    hide Laid, BitmapHolds, SuperblocksHold, HeadersHold, SlotHolds, DirectoriesHold, NamesApart, Slot, Part;
  }

  /**
   * For every accepted size and file list, a device that holds what the formatter writes passes the
   * whole inspection as clean, and the repair plan for it is empty.
   */
  lemma FormatIsClean(sizeMib: nat, t: Tree, rd: Readers, dev: Device, ids: seq<u64>, bytes: seq<byte>)
    requires 8 <= sizeMib <= 2048 && TreeOk(t) && Format(sizeMib, t.nodes, t.files).Ok?
    requires (FormatIsLaid(sizeMib, t); HoldsFormat(dev, Format(sizeMib, t.nodes, t.files).value, t, rd, ids, bytes))
    ensures |dev| >= 2 && Clean(Inspect(rd, dev))
    ensures MakePlan(rd, dev).Ok? && MakePlan(rd, dev).value.actions == []
  {
    hide Format, TreeOk, Laid, HoldsFormat, TablesHold, BitmapHolds, SuperblocksHold, HeadersHold, Inspect, InspectHome, MakePlan;
    hide EncodeHeader, DecodeHeader, HeaderAt, HeaderValid, FreshHeader, EncodeSuperblock, DecodeSuperblock, Decodable, EmptyJournal;
    hide MountStatus, MountSecurity, RecordCapacity, ReadsFresh, Clean, HasBit;
    TreeBounds(t);
    var f := Format(sizeMib, t.nodes, t.files).value;
    FormatIsLaid(sizeMib, t);
    HeldParts(dev, f, t, rd, ids, bytes);
    FormatDecodes(sizeMib, t.nodes, t.files);
    HomePasses(sizeMib, t, rd, dev, ids, bytes);
    LaidConstants(f, t);
    FreshMounts(rd, dev, f, t, ids);
    SuperblocksDecode(dev, f);
    FreshIsEmpty();
    HeadersDecode(dev, f.id.journalStart, FreshHeader(1), FreshHeader(2));
    AssembleFresh(rd, dev, f, FreshHeader(1), FreshHeader(2));
    NothingToPlan(rd, dev, f, FreshHeader(1), FreshHeader(2));
  }

  lemma TreeBounds(t: Tree)
    requires TreeOk(t)
    ensures 1 <= |t.nodes| <= 0xffff && |t.files| <= MAXIMUM_FILES
  {
  }

  lemma FreshIsEmpty()
    ensures EmptyJournal(FreshHeader(1), FreshHeader(2)) && HeaderValid(FreshHeader(1)) && HeaderValid(FreshHeader(2))
  {
    hide HeaderValid;
    FreshHeaderValid(1);
    FreshHeaderValid(2);
  }

  lemma AssembleFresh(rd: Readers, dev: Device, f: Formatted, a: JournalHeader, b: JournalHeader)
    requires |dev| == f.id.total <= 0x8_0000 && f.id.backup == f.id.total - 1 && 2 <= |dev| && f.id.journalStart + 1 < |dev|
    requires DecodeSuperblock(dev[0]) == Ok(FreshSuper(f)) && DecodeSuperblock(dev[|dev| - 1]) == Ok(FreshSuper(f))
    requires RecordCapacity(f.id.journalBlocks) == Some(32)
    requires HeaderAt(dev, f.id.journalStart) == Ok(a) && HeaderAt(dev, f.id.journalStart + 1) == Ok(b) && EmptyJournal(a, b)
    requires UsesSecurity(f.id) && UsesCleanUnmount(f.id) && OnlyKnownFeatures(f.id)
    requires MountStatus(rd, dev, FreshSuper(f)) == Success && InspectHome(rd, dev, f.id) == Home(Success, Success, Success)
    ensures ReadsFresh(rd, dev, f, a, b)
  {
    hide DecodeSuperblock, InspectHome, MountStatus, HeaderAt, HasBit, RecordCapacity, EmptyJournal;
  }

  /** A formatted volume that loses a superblock copy is repaired to what was formatted. */
  lemma FormatSurvivesLoss(sizeMib: nat, t: Tree, rd: Readers, dev: Device, ids: seq<u64>, bytes: seq<byte>, copy: nat, junk: Block)
    requires 8 <= sizeMib <= 2048 && TreeOk(t) && Format(sizeMib, t.nodes, t.files).Ok?
    requires (FormatIsLaid(sizeMib, t); HoldsFormat(dev, Format(sizeMib, t.nodes, t.files).value, t, rd, ids, bytes))
    requires copy <= 1 && DecodeSuperblock(junk).Err?
    ensures |dev| >= 2
    ensures var d := LoseCopy(dev, copy, junk);
            var plan := MakePlan(rd, d);
            plan.Ok? && After(d, plan.value.actions, |plan.value.actions|) == dev
  {
    hide *;
    FormatIsClean(sizeMib, t, rd, dev, ids, bytes);
    LostCopyIsRestored(rd, dev, copy, junk);
  }
}
