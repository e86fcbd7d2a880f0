/**
 * The contents of files: how they are read through their records (kernel/fs/zifs/zifs.c), and that the
 * formatter (tools/mkzifs/main.c) leaves every file it was given to be read back byte for byte.
 */
module ZifsFiles {
  import opened Status
  import opened Unicode
  import opened Layout
  import opened ZifsFormat
  import opened ZifsHome
  import opened ZifsInspect
  import opened ZifsRepairTheorems
  import opened ZifsFormatter
  import opened ZifsCodecs
  import opened ZifsFormatted
  import opened ZifsVolume

  // Reading.

  /** The byte at a place in a file, where the record says it is. */
  function FileByte(dev: Device, r: FileRecord, p: nat): Option<byte> {
    match PhysicalOf(r.extents, p / BLOCK_SIZE)
    case None => None
    case Some(b) => if b < |dev| then Some(dev[b][p % BLOCK_SIZE]) else None
  }

  lemma {:induction false} PhysicalFound(id: Identity, extents: seq<Extent>, first: nat, k: nat)
    requires Contiguous(extents, first) && first <= k < first + ExtentBlocks(extents)
    requires forall i :: 0 <= i < |extents| ==> ExtentValid(id, extents[i])
    ensures PhysicalOf(extents, k).Some? && PhysicalOf(extents, k).value < id.total
    decreases |extents|
  {
    assert ExtentValid(id, extents[0]);
    if k >= first + extents[0].count {
      PhysicalFound(id, extents[1..], first + extents[0].count, k);
    }
  }

  /** Every byte of a valid file has its place on the volume. */
  lemma FileMapped(id: Identity, r: FileRecord, p: nat)
    requires RecordValid(id, r) && r.kind == REGULAR && p < r.fileSize
    ensures PhysicalOf(r.extents, p / BLOCK_SIZE).Some? && PhysicalOf(r.extents, p / BLOCK_SIZE).value < id.total
  {
    hide ExtentBlocks, Contiguous, PhysicalOf, ExtentValid;
    assert p / BLOCK_SIZE < ExtentBlocks(r.extents);
    PhysicalFound(id, r.extents, 0, p / BLOCK_SIZE);
  }

  /** The extent that a logical block lies in, and the block it is. */
  method FindBlock(extents: seq<Extent>, k: nat) returns (b: Option<nat>)
    ensures b == PhysicalOf(extents, k)
  {
    var index := 0;
    while index < |extents|
      invariant index <= |extents| && PhysicalOf(extents, k) == PhysicalOf(extents[index..], k)
    {
      var e := extents[index];
      if e.logical <= k && k - e.logical < e.count {
        return Some(e.physical + (k - e.logical));
      }
      assert extents[index..][1..] == extents[index + 1..];
      index := index + 1;
    }
    return None;
  }

  function Min(a: nat, b: nat): nat { if a <= b then a else b }

  /** How many bytes a read gives. */
  function ReadSize(r: FileRecord, offset: nat, size: nat): nat {
    if offset >= r.fileSize then 0 else Min(size, r.fileSize - offset)
  }

  /** A read of a valid file always gives all the bytes asked for that the file has. */
  method ReadFile(dev: Device, id: Identity, r: FileRecord, offset: nat, size: nat) returns (status: Status, out: seq<byte>)
    requires |dev| == id.total
    ensures !RecordValid(id, r) ==> status == CorruptFilesystem && out == []
    ensures RecordValid(id, r) && r.kind != REGULAR ==> status == InvalidArgument && out == []
    ensures RecordValid(id, r) && r.kind == REGULAR ==>
      status == Success && |out| == ReadSize(r, offset, size) && Reads(dev, r, offset, out)
  {
    hide RecordValid, PhysicalOf, Reads;
    out := [];
    NothingRead(dev, r, offset);
    if !RecordValid(id, r) {
      return CorruptFilesystem, [];
    }
    if r.kind != REGULAR {
      return InvalidArgument, [];
    }
    status := Success;
    if size == 0 || offset >= r.fileSize {
      return;
    }
    var end := offset + Min(size, r.fileSize - offset);
    while offset + |out| < end
      invariant offset + |out| <= end <= r.fileSize
      invariant Reads(dev, r, offset, out)
      decreases end - (offset + |out|)
    {
      var at := offset + |out|;
      FileMapped(id, r, at);
      var block := FindBlock(r.extents, at / BLOCK_SIZE);
      var within := at % BLOCK_SIZE;
      var count := Min(BLOCK_SIZE - within, end - at);
      var piece := dev[block.value][within..within + count];
      PieceIs(dev, r, at, count);
      AppendPiece(dev, r, offset, out, piece);
      out := out + piece;
    }
  }

  /** The bytes from a place in a file on are these. */
  ghost predicate Reads(dev: Device, r: FileRecord, offset: nat, out: seq<byte>) {
    forall i :: 0 <= i < |out| ==> FileByte(dev, r, offset + i) == Some(out[i])
  }

  lemma NothingRead(dev: Device, r: FileRecord, offset: nat)
    ensures Reads(dev, r, offset, [])
  {
  }

  lemma SameBlock(at: nat, i: nat)
    requires at % BLOCK_SIZE + i < BLOCK_SIZE
    ensures (at + i) / BLOCK_SIZE == at / BLOCK_SIZE && (at + i) % BLOCK_SIZE == at % BLOCK_SIZE + i
  {
  }

  lemma PieceIs(dev: Device, r: FileRecord, at: nat, count: nat)
    requires at % BLOCK_SIZE + count <= BLOCK_SIZE && PhysicalOf(r.extents, at / BLOCK_SIZE).Some?
    requires PhysicalOf(r.extents, at / BLOCK_SIZE).value < |dev|
    ensures Reads(dev, r, at, dev[PhysicalOf(r.extents, at / BLOCK_SIZE).value][at % BLOCK_SIZE..at % BLOCK_SIZE + count])
  {
    hide PhysicalOf;
    var piece := dev[PhysicalOf(r.extents, at / BLOCK_SIZE).value][at % BLOCK_SIZE..at % BLOCK_SIZE + count];
    forall i | 0 <= i < count
      ensures FileByte(dev, r, at + i) == Some(piece[i])
    {
      SameBlock(at, i);
    }
  }

  lemma AppendPiece(dev: Device, r: FileRecord, offset: nat, out: seq<byte>, piece: seq<byte>)
    requires Reads(dev, r, offset, out) && Reads(dev, r, offset + |out|, piece)
    ensures Reads(dev, r, offset, out + piece)
  {
    hide FileByte;
    forall i | 0 <= i < |out + piece|
      ensures FileByte(dev, r, offset + i) == Some((out + piece)[i])
    {
      if i >= |out| {
        assert FileByte(dev, r, offset + |out| + (i - |out|)) == Some(piece[i - |out|]);
      }
    }
  }

  // Writing.

  /** A block of a file, filled up with zeros at its end. */
  function PaddedBlock(bytes: seq<byte>, k: nat): Block
    requires k < DataBlocks(|bytes|)
  {
    var piece := bytes[k * BLOCK_SIZE..Min((k + 1) * BLOCK_SIZE, |bytes|)];
    piece + Zeros(BLOCK_SIZE - |piece|)
  }

  function FileBlocks(bytes: seq<byte>): (blocks: seq<Block>)
    ensures |blocks| == DataBlocks(|bytes|)
  {
    seq(DataBlocks(|bytes|), k requires 0 <= k < DataBlocks(|bytes|) => PaddedBlock(bytes, k))
  }

  /** The loop that cuts a host file into blocks. */
  method CutFile(bytes: seq<byte>) returns (blocks: seq<Block>)
    ensures blocks == FileBlocks(bytes)
  {
    blocks := [];
    var remaining := |bytes|;
    while |blocks| < DataBlocks(|bytes|)
      invariant |blocks| <= DataBlocks(|bytes|) && blocks == FileBlocks(bytes)[..|blocks|]
      invariant remaining == if |blocks| * BLOCK_SIZE <= |bytes| then |bytes| - |blocks| * BLOCK_SIZE else 0
    {
      var copied := if remaining > BLOCK_SIZE then BLOCK_SIZE else remaining;
      var at := |blocks| * BLOCK_SIZE;
      var block := bytes[at..at + copied] + Zeros(BLOCK_SIZE - copied);
      assert block == PaddedBlock(bytes, |blocks|);
      blocks := blocks + [block];
      remaining := remaining - copied;
    }
  }

  lemma PaddedAt(bytes: seq<byte>, p: nat)
    requires p < |bytes|
    ensures p / BLOCK_SIZE < DataBlocks(|bytes|)
    ensures FileBlocks(bytes)[p / BLOCK_SIZE][p % BLOCK_SIZE] == bytes[p]
  {
    var k := p / BLOCK_SIZE;
    assert k * BLOCK_SIZE + p % BLOCK_SIZE == p && p < (k + 1) * BLOCK_SIZE;
    assert FileBlocks(bytes)[k] == PaddedBlock(bytes, k);
  }

  /** The files follow one another. */
  ghost predicate InOrder(ranges: seq<Range>) {
    forall i, j :: 0 <= i < j < |ranges| ==> Precedes(ranges[i], ranges[j])
  }

  lemma FilesInOrder(sizeMib: nat, t: Tree)
    requires 8 <= sizeMib <= 2048 && TreeOk(t) && Format(sizeMib, t.nodes, t.files).Ok?
    ensures InOrder(Format(sizeMib, t.nodes, t.files).value.files)
  {
    hide Format, AssignFrom, PlaceFrom, Chain, Precedes, TreeOk, ShiftAll, Middle;
    TreeBounds(t);
    var f := Format(sizeMib, t.nodes, t.files).value;
    var data := FormatPieces(sizeMib, t);
    ChainNothing(0);
    PlaceChains(t.files, f.id.backup, Placed([], 0));
    var mid := Middle(sizeMib, t);
    ShiftChains(data.ranges, 0, data.next, mid);
    forall i, j | 0 <= i < j < |f.files|
      ensures Precedes(f.files[i], f.files[j])
    {
      ChainOrdered(f.files, mid, mid + data.next, i, j);
    }
  }

  /** Each block of each file is where the file was placed. */
  lemma {:induction false} FilesLaid(dev: Device, f: Formatted, t: Tree, mid: nat, c: Contents, n: nat, i: nat, k: nat)
    requires Divided(f, t, mid) && ContentsOk(f, t, c) && InOrder(f.files) && |dev| == f.id.total
    requires i < n <= |f.files| && k < |c.data[i]|
    ensures f.files[i].start + k < |dev| && Lay(dev, FileWrites(f, c.data, n))[f.files[i].start + k] == c.data[i][k]
    decreases n
  {
    hide Put, Packed, Laid, NamesSized;
    FileInside(f, t, mid, c, i);
    FileInside(f, t, mid, c, n - 1);
    var b := f.files[i].start + k;
    var before, one := FileWrites(f, c.data, n - 1), Write(f.files[n - 1].start, c.data[n - 1]);
    assert (before + [one])[..|before|] == before;
    PutAt(Lay(dev, before), one, b);
    if i < n - 1 {
      assert Precedes(f.files[i], f.files[n - 1]);
      FilesLaid(dev, f, t, mid, c, n - 1, i, k);
    }
  }

  lemma FileInside(f: Formatted, t: Tree, mid: nat, c: Contents, i: nat)
    requires Divided(f, t, mid) && ContentsOk(f, t, c) && i < |f.files|
    ensures |f.files| == |c.data| == |t.files| && f.id.backup < f.id.total
    ensures |c.data[i]| != 0 ==> f.files[i].start + |c.data[i]| <= f.id.backup
  {
    hide Packed, TreeOk;
    Zones(f, t, mid);
    assert Between(f.files[i], mid, f.id.backup);
  }

  lemma ImageFiles(f: Formatted, t: Tree, wr: Writers, mid: nat, c: Contents, i: nat, k: nat)
    requires Divided(f, t, mid) && ContentsOk(f, t, c) && InOrder(f.files) && i < |f.files| && k < |c.data[i]|
    ensures f.files[i].start + k < f.id.total && Image(f, t, wr, mid, c)[f.files[i].start + k] == c.data[i][k]
  {
    hide Divided, ContentsOk, InOrder, Image, Lay, FirstWrites, DirectoryWrites, LaterWrites, FileWrites;
    var first, second, third := Stages(f, t, wr, mid, c);
    FilesLaid(third, f, t, mid, c, |f.files|, i, k);
  }

  /** The blocks of a file are those that its record maps them to. */
  ghost predicate BlocksHeld(dev: Device, r: FileRecord, blocks: seq<Block>) {
    forall k :: 0 <= k < |blocks| ==>
      && PhysicalOf(r.extents, k).Some? && PhysicalOf(r.extents, k).value < |dev|
      && dev[PhysicalOf(r.extents, k).value] == blocks[k]
  }

  lemma FileRecordIs(f: Formatted, t: Tree, i: nat)
    requires Laid(f, t) && i < |t.files|
    ensures i < |f.files| && f.files[i].count == DataBlocks(t.files[i].size) && |t.nodes| + i < Count(t) <= 16 * f.id.recordBlocks
    ensures var r := RecordOf(f, t, |t.nodes| + i);
            && r.kind == REGULAR && r.fileSize == t.files[i].size && RecordValid(f.id, r)
            && forall k :: 0 <= k < f.files[i].count ==> PhysicalOf(r.extents, k) == Some(f.files[i].start + k)
  {
    hide Constants, TablesPlaced, Between, DataBlocks, RecordValid;
    LaidRecord(f, t, |t.nodes| + i);
    LaidSizes(f, t);
  }

  /** The slot of the record table that a file's record is in. */
  ghost function FileSlot(dev: Device, id: Identity, t: Tree, i: nat): Option<RecordBytes> {
    var table := Part(dev, id.recordStart, id.recordBlocks);
    if |t.nodes| + i < 16 * |table| then Some(Slot(table, |t.nodes| + i)) else None
  }

  lemma ImageFile(rd: Readers, wr: Writers, f: Formatted, t: Tree, mid: nat, c: Contents, i: nat)
    requires Divided(f, t, mid) && ContentsOk(f, t, c) && InOrder(f.files) && i < |t.files|
    requires Laid(f, t) && ReadsRecords(rd, wr, f, t)
    ensures var dev := Image(f, t, wr, mid, c);
            var r := RecordOf(f, t, |t.nodes| + i);
            && |c.data| == |t.files| && |c.data[i]| == DataBlocks(t.files[i].size)
            && FileSlot(dev, f.id, t, i).Some? && rd.record(FileSlot(dev, f.id, t, i).value) == Ok(r)
            && r.kind == REGULAR && r.fileSize == t.files[i].size && RecordValid(f.id, r) && BlocksHeld(dev, r, c.data[i])
  {
    hide Divided, InOrder, Image, RecordTable, Laid, RecordOf, PhysicalOf, Part, Slot, Chunks, DataBlocks, RecordValid;
    Zones(f, t, mid);
    FileRecordIs(f, t, i);
    ImageParts(f, t, wr, mid, c);
    SlotsHold(rd, wr, f, t, |t.nodes| + i);
    var dev, r := Image(f, t, wr, mid, c), RecordOf(f, t, |t.nodes| + i);
    forall k | 0 <= k < |c.data[i]|
      ensures PhysicalOf(r.extents, k) == Some(f.files[i].start + k)
      ensures f.files[i].start + k < |dev| && dev[f.files[i].start + k] == c.data[i][k]
    {
      ImageFiles(f, t, wr, mid, c, i, k);
    }
  }

  /**
   * In the volume that the formatter leaves, the record of every file says its size, and each block of
   * its contents is where that record maps it to.
   */
  lemma FileHeld(sizeMib: nat, t: Tree, wr: Writers, rd: Readers, c: Contents, i: nat) returns (r: FileRecord)
    requires 8 <= sizeMib <= 2048 && TreeOk(t) && NamesSized(t) && Format(sizeMib, t.nodes, t.files).Ok?
    requires ContentsOk(Format(sizeMib, t.nodes, t.files).value, t, c) && i < |t.files|
    requires (FormatIsLaid(sizeMib, t); ReadsRecords(rd, wr, Format(sizeMib, t.nodes, t.files).value, t))
    ensures var dev, id := ZifsVolume.Volume(sizeMib, t, wr, c), Format(sizeMib, t.nodes, t.files).value.id;
            && |c.data| == |t.files| && |c.data[i]| == DataBlocks(t.files[i].size)
            && FileSlot(dev, id, t, i).Some? && rd.record(FileSlot(dev, id, t, i).value) == Ok(r)
            && r.kind == REGULAR && r.fileSize == t.files[i].size && RecordValid(id, r) && BlocksHeld(dev, r, c.data[i])
  {
    hide TreeOk, NamesSized, Format, ContentsOk, ReadsRecords, Laid, Divided, InOrder, Image, Middle, FileSlot, RecordOf, BlocksHeld;
    hide RecordValid, DataBlocks;
    TreeBounds(t);
    FormatIsLaid(sizeMib, t);
    FormatDivides(sizeMib, t);
    FilesInOrder(sizeMib, t);
    var f := Format(sizeMib, t.nodes, t.files).value;
    Zones(f, t, Middle(sizeMib, t));
    FileRecordIs(f, t, i);
    r := RecordOf(f, t, |t.nodes| + i);
    ImageFile(rd, wr, f, t, Middle(sizeMib, t), c, i);
  }

  lemma HeldReads(dev: Device, r: FileRecord, bytes: seq<byte>)
    requires BlocksHeld(dev, r, FileBlocks(bytes))
    ensures Reads(dev, r, 0, bytes)
  {
    hide PhysicalOf, FileBlocks;
    forall p | 0 <= p < |bytes|
      ensures FileByte(dev, r, 0 + p) == Some(bytes[p])
    {
      PaddedAt(bytes, p);
    }
  }

  /**
   * A file that the formatter was given reads back byte for byte: its superblock is selected, the
   * record in its slot decodes to a valid one of its size, and the bytes that this maps are the file's.
   */
  lemma FormattedFileReads(sizeMib: nat, t: Tree, rd: Readers, c: Contents, files: seq<seq<byte>>, i: nat)
    returns (id: Identity, r: FileRecord)
    requires 8 <= sizeMib <= 2048 && TreeOk(t) && NamesSized(t) && Format(sizeMib, t.nodes, t.files).Ok?
    requires ContentsOk(Format(sizeMib, t.nodes, t.files).value, t, c) && OwnReaders(rd)
    requires i < |t.files| == |files| && |files[i]| == t.files[i].size && |c.data| == |files| && c.data[i] == FileBlocks(files[i])
    ensures var dev := ZifsVolume.Volume(sizeMib, t, OWN_WRITERS, c);
            && |dev| >= 2 && Selected(dev).Ok? && Selected(dev).value.super.id == id && |dev| == id.total
            && FileSlot(dev, id, t, i).Some? && DecodeRecord(FileSlot(dev, id, t, i).value) == Ok(r)
            && RecordValid(id, r) && r.kind == REGULAR && r.fileSize == |files[i]| && Reads(dev, r, 0, files[i])
  {
    hide TreeOk, NamesSized, Format, ContentsOk, Laid, Divided, Image, Middle, FileSlot, BlocksHeld, RecordValid, Reads;
    hide DecodeRecord, Selected, HeaderAt, ReadsRecords, FileBlocks, DecodeDirectory;
    TreeBounds(t);
    FormatIsLaid(sizeMib, t);
    var f := Format(sizeMib, t.nodes, t.files).value;
    id := f.id;
    OwnRecords(rd, f, t);
    r := FileHeld(sizeMib, t, OWN_WRITERS, rd, c, i);
    HeldReads(ZifsVolume.Volume(sizeMib, t, OWN_WRITERS, c), r, files[i]);
    VolumeHeaders(sizeMib, t, OWN_WRITERS, c);
    FormatDivides(sizeMib, t);
  }
}
