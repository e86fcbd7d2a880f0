/**
 * The home metadata checks of tools/zifsinspect/inspect.c: which blocks the metadata tables and
 * file extents own, how directories link records, and whether the bitmap agrees.
 *
 * The readers below stand for the per-structure parsers. They are arbitrary functions of the bytes
 * they are given, so everything proved here holds whatever they accept.
 */
module ZifsHome {
  import opened Status
  import opened Unicode
  import opened Layout
  import opened ZifsFormat
  import opened ZifsJournal

  datatype Extent = Extent(logical: u64, physical: u64, count: u64)

  const REGULAR: u16 := 1
  const DIRECTORY: u16 := 2
  const DEVICE: u16 := 4

  datatype FileRecord = FileRecord(
    fileId: u64, parentId: u64, kind: u16, fileSize: u64, allocatedSize: u64,
    securityId: u64, directoryBlock: u64, extents: seq<Extent>)

  datatype Entry = Entry(fileId: u64, index: u64, kind: u16, flags: u16, name: seq<byte>)

  datatype Readers = Readers(
    /* the security identifiers of a table, or why it is refused */
    security: seq<Block> -> Checked<seq<u64>>,
    /* the mount-time check of the security table against the record table */
    mountSecurity: (Identity, seq<Block>, seq<Block>) -> Status,
    record: seq<byte> -> Checked<FileRecord>,
    directory: (Block, u64) -> Checked<seq<Entry>>,
    sameName: (seq<byte>, seq<byte>) -> bool,
    journal: (Block, Block) -> Checked<JournalRecord>)

  // File records.

  /** Extents that map consecutive logical blocks from a first one. */
  predicate Contiguous(extents: seq<Extent>, first: nat) {
    extents != [] ==>
      && extents[0].count != 0
      && extents[0].logical == first
      && first + extents[0].count <= MAX64
      && Contiguous(extents[1..], first + extents[0].count)
  }

  function ExtentBlocks(extents: seq<Extent>): nat {
    if extents == [] then 0 else extents[0].count + ExtentBlocks(extents[1..])
  }

  predicate Shaped(r: FileRecord) {
    && r.fileId != 0 && r.securityId != 0 && REGULAR <= r.kind <= DEVICE && |r.extents| <= 4
    && if r.kind == DIRECTORY then
         && r.fileSize == 0 && r.directoryBlock != 0
         && Contiguous(r.extents, 1)
         && ExtentBlocks(r.extents) < 256
         && r.allocatedSize == ExtentBlocks(r.extents) * BLOCK_SIZE
       else if r.kind != REGULAR then
         r.fileSize == 0 && r.allocatedSize == 0 && r.extents == [] && r.directoryBlock == 0
       else if r.fileSize == 0 then
         r.directoryBlock == 0 && r.allocatedSize == 0 && r.extents == []
       else
         && r.directoryBlock == 0 && r.extents != [] && r.allocatedSize >= r.fileSize
         && Contiguous(r.extents, 0)
         && r.allocatedSize == ExtentBlocks(r.extents) * BLOCK_SIZE
  }

  function Placed(e: Extent): Range { Range(e.physical, e.count) }

  function MetadataRanges(id: Identity): (r: seq<Range>)
    ensures |r| == 7
  {
    [Range(0, 1), Range(id.recordStart, id.recordBlocks), Range(id.directoryStart, id.directoryBlocks),
     Range(id.bitmapStart, id.bitmapBlocks), Range(id.journalStart, id.journalBlocks),
     Range(id.securityStart, id.securityBlocks), Range(id.backup, 1)]
  }

  predicate ExtentValid(id: Identity, e: Extent) {
    && e.physical < id.total && e.count <= id.total - e.physical
    && forall i :: 0 <= i < 7 ==> !Overlap(Placed(e), MetadataRanges(id)[i])
  }

  predicate ExtentsValid(id: Identity, extents: seq<Extent>) {
    && (forall i :: 0 <= i < |extents| ==> ExtentValid(id, extents[i]))
    && (forall i, j :: 0 <= i < j < |extents| ==> !Overlap(Placed(extents[i]), Placed(extents[j])))
  }

  predicate RecordValid(id: Identity, r: FileRecord) {
    && Shaped(r)
    && if r.kind == DIRECTORY then
         && id.directoryStart <= r.directoryBlock < id.directoryStart + id.directoryBlocks
         && (r.extents != [] ==> UsesDirectoryExtents(id))
         && ExtentsValid(id, r.extents)
       else
         r.kind == REGULAR ==> ExtentsValid(id, r.extents)
  }

  // Marking of owned blocks.

  type Marks = seq<nat>

  predicate Inside(r: Range, total: nat) {
    r.count != 0 && r.start < total && r.count <= total - r.start
  }

  predicate Free(marks: Marks, r: Range)
    requires Inside(r, |marks|)
  {
    forall b :: r.start <= b < r.start + r.count ==> marks[b] == 0
  }

  function Painted(marks: Marks, r: Range, marker: nat): (m: Marks)
    ensures |m| == |marks|
  {
    seq(|marks|, b requires 0 <= b < |marks| => if r.start <= b < r.start + r.count then marker else marks[b])
  }

  function MarkRange(marks: Marks, r: Range, marker: nat): (m: Option<Marks>)
    ensures m.Some? ==> |m.value| == |marks|
  {
    if !Inside(r, |marks|) || !Free(marks, r) then None else Some(Painted(marks, r, marker))
  }

  function MarkAll(marks: Marks, ranges: seq<Range>, marker: nat): (m: Option<Marks>)
    ensures m.Some? ==> |m.value| == |marks|
    decreases |ranges|
  {
    if ranges == [] then Some(marks)
    else match MarkRange(marks, ranges[0], marker)
      case None => None
      case Some(next) => MarkAll(next, ranges[1..], marker)
  }

  /** Ranges that lie inside the volume, on unmarked blocks, and apart from each other. */
  ghost predicate Apart(marks: Marks, ranges: seq<Range>) {
    && (forall i :: 0 <= i < |ranges| ==> Inside(ranges[i], |marks|) && Free(marks, ranges[i]))
    && (forall i, j :: 0 <= i < j < |ranges| ==> !Overlap(ranges[i], ranges[j]))
  }

  ghost predicate Owned(ranges: seq<Range>, b: int) {
    exists i :: 0 <= i < |ranges| && ranges[i].Has(b)
  }

  lemma PaintedFree(marks: Marks, r: Range, s: Range, marker: nat)
    requires marker != 0 && Inside(r, |marks|) && Inside(s, |marks|)
    ensures Free(Painted(marks, r, marker), s) <==> Free(marks, s) && !Overlap(r, s)
  {
    var m := Painted(marks, r, marker);
    if Overlap(r, s) {
      var b := if r.start <= s.start then s.start else r.start;
      assert m[b] != 0;
    } else {
      assert forall b :: s.start <= b < s.start + s.count ==> m[b] == marks[b];
    }
  }

  /** Marking a list of ranges succeeds exactly when they are apart. */
  lemma {:induction false} MarkAllIff(marks: Marks, ranges: seq<Range>, marker: nat)
    requires marker != 0
    ensures MarkAll(marks, ranges, marker).Some? <==> Apart(marks, ranges)
    decreases |ranges|
  {
    hide Overlap, Painted, Free;
    if ranges != [] {
      var r, rest := ranges[0], ranges[1..];
      if Inside(r, |marks|) && Free(marks, r) {
        var next := Painted(marks, r, marker);
        MarkAllIff(next, rest, marker);
        forall i | 0 <= i < |rest| && Inside(rest[i], |marks|)
          ensures Free(next, rest[i]) <==> Free(marks, rest[i]) && !Overlap(r, rest[i])
        {
          PaintedFree(marks, r, rest[i], marker);
        }
        ApartSplit(marks, next, ranges);
      }
    }
  }

  lemma ApartSplit(marks: Marks, next: Marks, ranges: seq<Range>)
    requires ranges != [] && |next| == |marks|
    requires Inside(ranges[0], |marks|) && Free(marks, ranges[0])
    requires forall i :: 1 <= i < |ranges| && Inside(ranges[i], |marks|) ==>
      (Free(next, ranges[i]) <==> Free(marks, ranges[i]) && !Overlap(ranges[0], ranges[i]))
    ensures Apart(marks, ranges) <==> Apart(next, ranges[1..])
  {
    hide Overlap, Free;
    var rest := ranges[1..];
    if Apart(next, rest) {
      forall i | 0 <= i < |ranges|
        ensures Inside(ranges[i], |marks|) && Free(marks, ranges[i])
      {
        if i > 0 {
          assert rest[i - 1] == ranges[i];
        }
      }
      forall i, j | 0 <= i < j < |ranges|
        ensures !Overlap(ranges[i], ranges[j])
      {
        assert rest[j - 1] == ranges[j];
        if i > 0 {
          assert rest[i - 1] == ranges[i];
        }
      }
    }
    if Apart(marks, ranges) {
      forall i | 0 <= i < |rest|
        ensures Inside(rest[i], |next|) && Free(next, rest[i])
      {
        assert rest[i] == ranges[i + 1];
      }
    }
  }

  /** Afterwards the marked blocks are those marked before and those of the ranges. */
  lemma {:induction false} MarkAllMarks(marks: Marks, ranges: seq<Range>, marker: nat, b: int)
    requires marker != 0 && 0 <= b < |marks| && MarkAll(marks, ranges, marker).Some?
    ensures MarkAll(marks, ranges, marker).value[b] != 0 <==> marks[b] != 0 || Owned(ranges, b)
    decreases |ranges|
  {
    if ranges != [] {
      var next := Painted(marks, ranges[0], marker);
      MarkAllMarks(next, ranges[1..], marker, b);
      OwnedSplit(ranges, b);
    }
  }

  lemma OwnedSplit(ranges: seq<Range>, b: int)
    requires ranges != []
    ensures Owned(ranges, b) <==> ranges[0].Has(b) || Owned(ranges[1..], b)
  {
    var rest := ranges[1..];
    if Owned(rest, b) {
      var i :| 0 <= i < |rest| && rest[i].Has(b);
      assert ranges[i + 1].Has(b);
    }
    if Owned(ranges, b) && !ranges[0].Has(b) {
      var i :| 0 <= i < |ranges| && ranges[i].Has(b);
      assert rest[i - 1].Has(b);
    }
  }

  // The record table.

  function Slot(table: seq<Block>, i: nat): (s: seq<byte>)
    requires i < 16 * |table|
    ensures |s| == 256
  {
    table[i / 16][i % 16 * 256..i % 16 * 256 + 256]
  }

  predicate AllZero(s: seq<byte>) {
    forall i :: 0 <= i < |s| ==> s[i] == 0
  }

  datatype Scan = Scan(records: seq<Option<FileRecord>>, marks: Marks)

  /** One slot of the table: empty, refused, or a record whose extents are then marked. */
  function ScanSlot(rd: Readers, id: Identity, ids: seq<u64>, slot: seq<byte>, marks: Marks)
    : (r: Checked<(Option<FileRecord>, Marks)>)
  {
    if AllZero(slot) then Ok((None, marks))
    else match rd.record(slot)
      case Err(status) => Err(status)
      case Ok(record) =>
        if !RecordValid(id, record) || record.securityId !in ids then Err(CorruptFilesystem)
        else match MarkAll(marks, Extents(record), 2)
          case None => Err(CorruptFilesystem)
          case Some(next) => Ok((Some(record), next))
  }

  function Extents(r: FileRecord): (s: seq<Range>)
    ensures |s| == |r.extents|
  {
    seq(|r.extents|, i requires 0 <= i < |r.extents| => Placed(r.extents[i]))
  }

  function ScanFrom(rd: Readers, id: Identity, ids: seq<u64>, table: seq<Block>, i: nat, done: Scan): Checked<Scan>
    requires i <= 16 * |table|
    decreases 16 * |table| - i
  {
    if i == 16 * |table| then Ok(done)
    else match ScanSlot(rd, id, ids, Slot(table, i), done.marks)
      case Err(status) => Err(status)
      case Ok((record, marks)) => ScanFrom(rd, id, ids, table, i + 1, Scan(done.records + [record], marks))
  }

  predicate IdsDistinct(records: seq<Option<FileRecord>>) {
    forall i, j :: 0 <= i < j < |records| && records[i].Some? && records[j].Some? ==>
      records[i].value.fileId != records[j].value.fileId
  }

  predicate IsDirectory(r: Option<FileRecord>) {
    r.Some? && r.value.kind == DIRECTORY
  }

  predicate DirectoryBlocksDistinct(records: seq<Option<FileRecord>>) {
    forall i, j :: 0 <= i < j < |records| && IsDirectory(records[i]) && IsDirectory(records[j]) ==>
      records[i].value.directoryBlock != records[j].value.directoryBlock
  }

  function ScanRecords(rd: Readers, id: Identity, ids: seq<u64>, table: seq<Block>, marks: Marks): Checked<Scan> {
    match ScanFrom(rd, id, ids, table, 0, Scan([], marks))
    case Err(status) => Err(status)
    case Ok(scan) =>
      if IdsDistinct(scan.records) && DirectoryBlocksDistinct(scan.records) then Ok(scan) else Err(CorruptFilesystem)
  }

  // Directories.

  /** The device block that holds a logical block of a directory. */
  function PhysicalOf(extents: seq<Extent>, k: nat): Option<nat> {
    if extents == [] then None
    else if extents[0].logical <= k && k - extents[0].logical < extents[0].count then
      Some(extents[0].physical + (k - extents[0].logical))
    else PhysicalOf(extents[1..], k)
  }

  function DirectoryBlockAt(r: FileRecord, k: nat): Option<nat> {
    if k == 0 then Some(r.directoryBlock) else PhysicalOf(r.extents, k)
  }

  function DirectoryLength(r: FileRecord): nat {
    r.allocatedSize / BLOCK_SIZE + 1
  }

  /** One entry seen in one directory. */
  datatype Visit = Visit(dir: nat, entry: Entry)

  predicate Linked(visits: seq<Visit>, index: nat) {
    exists k :: 0 <= k < |visits| && visits[k].entry.index == index
  }

  predicate NameTaken(rd: Readers, visits: seq<Visit>, dir: nat, name: seq<byte>) {
    exists k :: 0 <= k < |visits| && visits[k].dir == dir && rd.sameName(name, visits[k].entry.name)
  }

  /** The entry names a live record that agrees with it, points back, and has no other link. */
  predicate EntryMatches(records: seq<Option<FileRecord>>, dir: FileRecord, e: Entry) {
    && e.index < |records| && e.flags == 0 && records[e.index].Some?
    && records[e.index].value.fileId == e.fileId
    && records[e.index].value.kind == e.kind
    && records[e.index].value.parentId == dir.fileId
  }

  function InspectEntries(rd: Readers, records: seq<Option<FileRecord>>, dir: nat, entries: seq<Entry>, visits: seq<Visit>)
    : Checked<seq<Visit>>
    requires dir < |records| && records[dir].Some?
    decreases |entries|
  {
    if entries == [] then Ok(visits)
    else if !EntryMatches(records, records[dir].value, entries[0]) || Linked(visits, entries[0].index)
      || NameTaken(rd, visits, dir, entries[0].name) then Err(CorruptFilesystem)
    else InspectEntries(rd, records, dir, entries[1..], visits + [Visit(dir, entries[0])])
  }

  function InspectBlocks(rd: Readers, dev: Device, records: seq<Option<FileRecord>>, dir: nat, k: nat, visits: seq<Visit>)
    : Checked<seq<Visit>>
    requires dir < |records| && records[dir].Some?
    decreases DirectoryLength(records[dir].value) - k
  {
    var r := records[dir].value;
    if k >= DirectoryLength(r) then Ok(visits)
    else match DirectoryBlockAt(r, k)
      case None => Err(CorruptFilesystem)
      case Some(b) =>
        if b >= |dev| then Err(OutOfBounds)
        else match rd.directory(dev[b], r.fileId)
          case Err(status) => Err(status)
          case Ok(entries) =>
            match InspectEntries(rd, records, dir, entries, visits)
            case Err(status) => Err(status)
            case Ok(next) => InspectBlocks(rd, dev, records, dir, k + 1, next)
  }

  function InspectDirectories(rd: Readers, dev: Device, records: seq<Option<FileRecord>>, i: nat, visits: seq<Visit>)
    : Checked<seq<Visit>>
    requires i <= |records|
    decreases |records| - i
  {
    if i == |records| then Ok(visits)
    else if !IsDirectory(records[i]) then InspectDirectories(rd, dev, records, i + 1, visits)
    else match InspectBlocks(rd, dev, records, i, 0, visits)
      case Err(status) => Err(status)
      case Ok(next) => InspectDirectories(rd, dev, records, i + 1, next)
  }

  predicate LinksRight(records: seq<Option<FileRecord>>, root: nat, visits: seq<Visit>) {
    forall i :: 0 <= i < |records| && records[i].Some? ==> (Linked(visits, i) <==> i != root)
  }

  // The whole of the home metadata.

  const MAXIMUM_SLOTS := 65536
  const MAXIMUM_BLOCKS := 16777216

  function Part(dev: Device, start: nat, count: nat): (r: seq<Block>)
  {
    if start + count <= |dev| then dev[start..start + count] else []
  }

  datatype Names = Names(scan: Scan, visits: seq<Visit>)

  function Namespace(rd: Readers, dev: Device, id: Identity, ids: seq<u64>, marks: Marks): Checked<Names> {
    var capacity := id.recordBlocks * 16;
    if capacity == 0 || capacity > MAXIMUM_SLOTS || id.root >= capacity then Err(BufferTooSmall)
    else match ScanRecords(rd, id, ids, Part(dev, id.recordStart, id.recordBlocks), marks)
      case Err(status) => Err(status)
      case Ok(scan) =>
        if id.root >= |scan.records| || !IsDirectory(scan.records[id.root]) then Err(CorruptFilesystem)
        else match InspectDirectories(rd, dev, scan.records, 0, [])
          case Err(status) => Err(status)
          case Ok(visits) =>
            if LinksRight(scan.records, id.root, visits) then Ok(Names(scan, visits)) else Err(CorruptFilesystem)
  }

  /** Whether bit k of a number is set: bit k - 1 of its half. */
  predicate NumberBit(v: nat, k: nat) {
    if k == 0 then v % 2 == 1 else NumberBit(v / 2, k - 1)
  }

  /** Bit n of a bitmap: bit n mod 8 of byte n / 8. */
  predicate BitOf(bitmap: seq<Block>, n: nat)
    requires n < |bitmap| * BLOCK_SIZE * 8
  {
    NumberBit(bitmap[n / 8 / BLOCK_SIZE][n / 8 % BLOCK_SIZE], n % 8)
  }

  function BitmapBlocks(total: nat): nat
    requires total > 0
  {
    1 + (total - 1) / (BLOCK_SIZE * 8)
  }

  /** The verdict on a bitmap that is long enough for its marks. */
  function Reconcile(bitmap: seq<Block>, marks: Marks): (r: Status)
    requires |marks| <= |bitmap| * BLOCK_SIZE * 8
  {
    if exists b :: 0 <= b < |marks| && marks[b] != 0 && !BitOf(bitmap, b) then CorruptFilesystem
    else if exists b :: |marks| <= b < |bitmap| * BLOCK_SIZE * 8 && BitOf(bitmap, b) then CorruptFilesystem
    else if exists b :: 0 <= b < |marks| && BitOf(bitmap, b) && marks[b] == 0 then RecoveryRequired
    else Success
  }

  function Allocation(dev: Device, id: Identity, marks: Marks): Status {
    var bitmap := Part(dev, id.bitmapStart, id.bitmapBlocks);
    if id.total == 0 || BitmapBlocks(id.total) != id.bitmapBlocks then CorruptFilesystem
    else if |marks| > |bitmap| * BLOCK_SIZE * 8 then OutOfBounds
    else Reconcile(bitmap, marks)
  }

  function NoMarks(total: nat): (m: Marks)
    ensures |m| == total
  {
    seq(total, _ => 0)
  }

  datatype Home = Home(security: Status, namespace: Status, allocation: Status)

  function Security(rd: Readers, dev: Device, id: Identity): Checked<seq<u64>> {
    if !UsesSecurity(id) || id.securityBlocks == 0 || id.securityBlocks > 16 then Err(CorruptFilesystem)
    else rd.security(Part(dev, id.securityStart, id.securityBlocks))
  }

  function InspectHome(rd: Readers, dev: Device, id: Identity): Home {
    match Security(rd, dev, id)
    case Err(status) => Home(status, InvalidState, InvalidState)
    case Ok(ids) =>
      if id.total > MAXIMUM_BLOCKS then Home(Success, InvalidState, InvalidState)
      else match MarkAll(NoMarks(id.total), MetadataRanges(id), 1)
        case None => Home(Success, CorruptFilesystem, InvalidState)
        case Some(marks) =>
          match Namespace(rd, dev, id, ids, marks)
          case Err(status) => Home(Success, status, InvalidState)
          case Ok(names) => Home(Success, Success, Allocation(dev, id, names.scan.marks))
  }
}
