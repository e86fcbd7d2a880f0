/**
 * The volume that the formatter leaves behind (tools/mkzifs/main.c): its writes over an image of zeros,
 * in its own order, with the entries of each directory packed into the blocks reserved for them.
 */
module ZifsVolume {
  import opened Status
  import opened Unicode
  import opened Layout
  import opened ZifsFormat
  import opened ZifsHome
  import opened ZifsInspect
  import opened ZifsRepair
  import opened ZifsRepairTheorems
  import opened ZifsFormatter
  import opened ZifsCodecs
  import opened ZifsCrash
  import opened ZifsFormatted

  // Packing entries into the blocks of a directory.

  /** Appends an entry to the last block, or starts another one with it. */
  function Append(done: seq<seq<Entry>>, e: Entry): (groups: seq<seq<Entry>>)
    requires done != []
    ensures groups != []
  {
    var last := |done| - 1;
    if HEADER_SIZE + SizeOf(done[last]) + EntrySize(|e.name|) <= BLOCK_SIZE then done[..last] + [done[last] + [e]]
    else done + [[e]]
  }

  function Pack(done: seq<seq<Entry>>, entries: seq<Entry>): (groups: seq<seq<Entry>>)
    requires done != []
    ensures groups != []
    decreases |entries|
  {
    if entries == [] then done else Pack(Append(done, entries[0]), entries[1..])
  }

  function Flat(groups: seq<seq<Entry>>): seq<Entry> {
    if groups == [] then [] else groups[0] + Flat(groups[1..])
  }

  function NameSizes(entries: seq<Entry>): (sizes: seq<nat>)
    ensures |sizes| == |entries|
  {
    seq(|entries|, i requires 0 <= i < |entries| => |entries[i].name|)
  }

  lemma {:induction false} FlatConcat(a: seq<seq<Entry>>, b: seq<seq<Entry>>)
    ensures Flat(a + b) == Flat(a) + Flat(b)
    decreases |a|
  {
    if a == [] {
      assert a + b == b;
    } else {
      assert (a + b)[1..] == a[1..] + b;
      FlatConcat(a[1..], b);
    }
  }

  lemma FlatOne(g: seq<Entry>)
    ensures Flat([g]) == g
  {
    assert [g][1..] == [];
  }

  function FillOf(groups: seq<seq<Entry>>): Fill
    requires groups != []
  {
    Fill(HEADER_SIZE + SizeOf(groups[|groups| - 1]), |groups|)
  }

  lemma AppendIs(done: seq<seq<Entry>>, limit: nat, e: Entry)
    requires done != [] && forall i :: 0 <= i < |done| ==> FitsBlock(done[i])
    requires AppendEntry(FillOf(done), limit, |e.name|).Ok?
    ensures var groups := Append(done, e);
            && Flat(groups) == Flat(done) + [e] && (forall i :: 0 <= i < |groups| ==> FitsBlock(groups[i]))
            && AppendEntry(FillOf(done), limit, |e.name|) == Ok(FillOf(groups))
  {
    hide FitsBlock, Flat, SizeOf;
    var last := |done| - 1;
    OneMore(done[last], e);
    OneMore([], e);
    NothingFits();
    assert done[..last] + [done[last]] == done && [] + [e] == [e];
    FlatConcat(done[..last], [done[last]]);
    FlatOne(done[last]);
    if HEADER_SIZE + SizeOf(done[last]) + EntrySize(|e.name|) <= BLOCK_SIZE {
      FitsMore(done[last], e);
      FlatConcat(done[..last], [done[last] + [e]]);
      FlatOne(done[last] + [e]);
    } else {
      FitsMore([], e);
      FlatConcat(done, [[e]]);
      FlatOne([e]);
    }
  }

  /** Packing keeps the entries and their order, overfills no block, and takes as many blocks as the appending pass. */
  lemma {:induction false} PackIs(done: seq<seq<Entry>>, limit: nat, entries: seq<Entry>)
    requires done != [] && forall i :: 0 <= i < |done| ==> FitsBlock(done[i])
    requires AppendAll(FillOf(done), limit, NameSizes(entries)).Ok?
    ensures var groups := Pack(done, entries);
            && Flat(groups) == Flat(done) + entries && (forall i :: 0 <= i < |groups| ==> FitsBlock(groups[i]))
            && |groups| == AppendAll(FillOf(done), limit, NameSizes(entries)).value.blocks
    decreases |entries|
  {
    hide FitsBlock, Flat, Append, AppendEntry, FillOf;
    if entries == [] {
      FillBlocks(done);
    } else {
      assert NameSizes(entries)[1..] == NameSizes(entries[1..]) && [entries[0]] + entries[1..] == entries;
      AppendIs(done, limit, entries[0]);
      PackIs(Append(done, entries[0]), limit, entries[1..]);
    }
  }

  lemma FillBlocks(groups: seq<seq<Entry>>)
    requires groups != []
    ensures FillOf(groups).blocks == |groups|
  {
  }

  lemma NothingFits()
    ensures FitsBlock([]) && SizeOf([]) == 0
  {
  }

  lemma FitsMore(entries: seq<Entry>, e: Entry)
    requires FitsBlock(entries) && HEADER_SIZE + SizeOf(entries) + EntrySize(|e.name|) <= BLOCK_SIZE && 1 <= |e.name| <= 255
    ensures FitsBlock(entries + [e])
  {
    OneMore(entries, e);
  }

  // The names the formatter accounted for are those it writes.

  function NameSize(t: Tree, i: nat): nat
    requires i < Count(t)
  {
    if i < |t.nodes| then t.nodes[i].nameSize else t.files[i - |t.nodes|].nameSize
  }

  ghost predicate NamesSized(t: Tree) {
    |t.names| == Count(t) && forall i :: 0 <= i < Count(t) ==> |t.names[i]| == NameSize(t, i)
  }

  lemma {:induction false} FileSizes(t: Tree, d: nat, k: nat)
    requires k <= |t.files| && Count(t) <= 0x1_ffff && NamesSized(t) && 1 <= |t.nodes|
    ensures NameSizes(Children(t, d, |t.nodes| + k)) == ChildFiles(t.files, d, k)
    decreases |t.files| - k
  {
    hide NameSizes, EntryFor;
    if k == |t.files| {
      NoSizes();
    } else {
      FileSizes(t, d, k + 1);
      OneSize(t, d, |t.nodes| + k);
    }
  }

  lemma {:induction false} ChildSizes(t: Tree, d: nat, from: nat)
    requires from <= |t.nodes| && Count(t) <= 0x1_ffff && NamesSized(t) && 1 <= |t.nodes|
    ensures NameSizes(Children(t, d, from)) == ChildDirectories(t.nodes, d, from) + ChildFiles(t.files, d, 0)
    decreases |t.nodes| - from
  {
    hide NameSizes, EntryFor;
    if from == |t.nodes| {
      FileSizes(t, d, 0);
    } else {
      ChildSizes(t, d, from + 1);
      OneSize(t, d, from);
    }
  }

  lemma NoSizes()
    ensures NameSizes([]) == []
  {
  }

  lemma OneSize(t: Tree, d: nat, from: nat)
    requires from < Count(t) <= 0x1_ffff && NamesSized(t)
    ensures NameSizes(Children(t, d, from)) ==
      (if from >= 1 && Parent(t, from) == d then [NameSize(t, from)] else []) + NameSizes(Children(t, d, from + 1))
  {
    hide NameSizes;
    if from >= 1 && Parent(t, from) == d {
      FirstSize(EntryFor(t, from), Children(t, d, from + 1));
    }
  }

  lemma FirstSize(e: Entry, rest: seq<Entry>)
    ensures NameSizes([e] + rest) == [|e.name|] + NameSizes(rest)
  {
  }

  lemma {:induction false} AssignCounts(nodes: seq<Node>, files: seq<InputFile>, backup: nat, done: Placed)
    requires |done.ranges| <= |nodes| && AssignFrom(nodes, files, backup, done).Ok?
    ensures var p := AssignFrom(nodes, files, backup, done).value;
            && |p.ranges| == |nodes| && p.ranges[..|done.ranges|] == done.ranges
            && forall i :: |done.ranges| <= i < |nodes| ==> Accounted(nodes, files, i, p.ranges[i].count)
    decreases |nodes| - |done.ranges|
  {
    hide AccountAll, ChildNames;
    var i := |done.ranges|;
    if i < |nodes| {
      var count := AccountAll(EMPTY_DIRECTORY, ChildNames(nodes, files, i)).value.blocks - 1;
      var next := Placed(done.ranges + [Range(if count != 0 then done.next else 0, count)], done.next + count);
      AssignCounts(nodes, files, backup, next);
      var p := AssignFrom(nodes, files, backup, next).value;
      assert p.ranges[i] == p.ranges[..i + 1][i] == next.ranges[i];
      assert p.ranges[..i] == p.ranges[..i + 1][..i];
    }
  }

  /** The blocks past the first that a directory was given are those its entries were accounted to need. */
  ghost predicate Accounted(nodes: seq<Node>, files: seq<InputFile>, i: nat, count: nat) {
    var a := AccountAll(EMPTY_DIRECTORY, ChildNames(nodes, files, i));
    a.Ok? && a.value.blocks == count + 1
  }

  /** The entries of a directory, block by block. */
  function Packed(t: Tree, d: nat): seq<seq<Entry>>
    requires Count(t) <= 0x1_ffff && |t.names| == Count(t)
  {
    Pack([[]], Children(t, d, 0))
  }

  /** They fill exactly the blocks reserved for the directory. */
  lemma PackedFits(t: Tree, d: nat, count: nat)
    requires Count(t) <= 0x1_ffff && NamesSized(t) && 1 <= |t.nodes| && Accounted(t.nodes, t.files, d, count)
    ensures |Packed(t, d)| == count + 1 && Flat(Packed(t, d)) == Children(t, d, 0)
    ensures forall i :: 0 <= i < |Packed(t, d)| ==> FitsBlock(Packed(t, d)[i])
  {
    hide FitsBlock, Children, AppendAll, AccountAll, Flat;
    ChildSizes(t, d, 0);
    ReservedIsEnough(EMPTY_DIRECTORY, ChildNames(t.nodes, t.files, d));
    NothingFits();
    FlatOne([]);
    PackIs([[]], count, Children(t, d, 0));
  }

  // Writing.

  datatype Write = Write(start: nat, blocks: seq<Block>)

  predicate Covers(w: Write, b: nat) { w.start <= b < w.start + |w.blocks| }

  function Put(dev: Device, w: Write): (d: Device)
    ensures |d| == |dev|
  {
    if w.start + |w.blocks| <= |dev| then dev[..w.start] + w.blocks + dev[w.start + |w.blocks|..] else dev
  }

  /** The device after some writes. */
  function Lay(dev: Device, writes: seq<Write>): (d: Device)
    ensures |d| == |dev|
    decreases |writes|
  {
    if writes == [] then dev else Put(Lay(dev, writes[..|writes| - 1]), writes[|writes| - 1])
  }

  lemma PutAt(dev: Device, w: Write, b: nat)
    requires b < |dev|
    ensures Put(dev, w)[b] == if Covers(w, b) && w.start + |w.blocks| <= |dev| then w.blocks[b - w.start] else dev[b]
  {
  }

  lemma {:induction false} LayElsewhere(dev: Device, writes: seq<Write>, b: nat)
    requires b < |dev| && forall i :: 0 <= i < |writes| ==> !Covers(writes[i], b)
    ensures Lay(dev, writes)[b] == dev[b]
    decreases |writes|
  {
    hide Put;
    if writes != [] {
      var front := writes[..|writes| - 1];
      LayElsewhere(dev, front, b);
      PutAt(Lay(dev, front), writes[|writes| - 1], b);
    }
  }

  lemma {:induction false} LayConcat(dev: Device, a: seq<Write>, b: seq<Write>)
    ensures Lay(dev, a + b) == Lay(Lay(dev, a), b)
    decreases |b|
  {
    hide Put;
    if b == [] {
      assert a + b == a;
    } else {
      assert (a + b)[..|a + b| - 1] == a + b[..|b| - 1];
      LayConcat(dev, a, b[..|b| - 1]);
    }
  }

  lemma LayTwo(dev: Device, v: Write, w: Write)
    ensures Lay(dev, [v, w]) == Put(Put(dev, v), w)
  {
    hide Put;
    assert [v, w][..1] == [v] && [v][..0] == [];
    assert Lay(dev, [v]) == Put(dev, v);
  }

  lemma LayThree(dev: Device, u: Write, v: Write, w: Write)
    ensures Lay(dev, [u, v, w]) == Put(Put(Put(dev, u), v), w)
  {
    hide Put;
    assert [u, v, w][..2] == [u, v];
    LayTwo(dev, u, v);
  }

  // What the formatter writes.

  /** How records and directory blocks are encoded. */
  datatype Writers = Writers(record: FileRecord -> RecordBytes, directory: (u64, seq<Entry>) -> Block)

  /** What does not follow from the tree: the security table and the contents of the files. */
  datatype Contents = Contents(security: Block, data: seq<seq<Block>>)

  /** The bitmap of everything that was laid out. */
  ghost function Bitmap(f: Formatted): (bytes: seq<byte>)
    ensures |bytes| == f.id.bitmapBlocks * BLOCK_SIZE
  {
    BitmapOf(f.id.bitmapBlocks * BLOCK_SIZE, Marked(f))
  }

  /** Where everything goes: the continuations below some block, the files above it. */
  ghost predicate Divided(f: Formatted, t: Tree, mid: nat) {
    && Laid(f, t) && NamesSized(t) && Count(t) <= 0x1_ffff
    && f.id.directoryStart + f.id.directoryBlocks <= mid <= f.id.backup
    && (forall d :: 0 <= d < |t.nodes| ==>
          && |Packed(t, d)| == f.continuations[d].count + 1
          && Between(f.continuations[d], f.id.directoryStart + f.id.directoryBlocks, mid))
    && (forall i, j :: 0 <= i < j < |t.nodes| ==> Precedes(f.continuations[i], f.continuations[j]))
    && (forall i :: 0 <= i < |t.files| ==> Between(f.files[i], mid, f.id.backup))
  }

  predicate Precedes(r: Range, s: Range) {
    r.count != 0 && s.count != 0 ==> r.start + r.count <= s.start
  }

  ghost predicate ContentsOk(f: Formatted, t: Tree, c: Contents) {
    && |c.data| == |f.files| && forall i :: 0 <= i < |c.data| ==> |c.data[i]| == f.files[i].count
  }

  function DirectoryBlock(t: Tree, wr: Writers, d: nat, k: nat): Block
    requires Count(t) <= 0x1_ffff && |t.names| == Count(t) && d < |t.nodes| && k < |Packed(t, d)|
  {
    wr.directory(d + 1, Packed(t, d)[k])
  }

  function DirectoryBlocks(t: Tree, wr: Writers, d: nat): (r: seq<Block>)
    requires Count(t) <= 0x1_ffff && |t.names| == Count(t) && d < |t.nodes|
    ensures |r| == |Packed(t, d)|
  {
    seq(|Packed(t, d)|, k requires 0 <= k < |Packed(t, d)| => DirectoryBlock(t, wr, d, k))
  }

  ghost function OneDirectory(f: Formatted, t: Tree, wr: Writers, mid: nat, d: nat): seq<Write>
    requires Divided(f, t, mid) && d < |t.nodes|
  {
    var blocks := DirectoryBlocks(t, wr, d);
    [Write(f.id.directoryStart + d, blocks[..1]), Write(f.continuations[d].start, blocks[1..])]
  }

  ghost function DirectoryWrites(f: Formatted, t: Tree, wr: Writers, mid: nat, n: nat): seq<Write>
    requires Divided(f, t, mid) && n <= |t.nodes|
  {
    if n == 0 then [] else DirectoryWrites(f, t, wr, mid, n - 1) + OneDirectory(f, t, wr, mid, n - 1)
  }

  function FileWrites(f: Formatted, data: seq<seq<Block>>, n: nat): seq<Write>
    requires n <= |f.files| == |data|
  {
    if n == 0 then [] else FileWrites(f, data, n - 1) + [Write(f.files[n - 1].start, data[n - 1])]
  }

  function DirectoryAt(f: Formatted, d: nat, k: nat): nat
    requires d < |f.continuations|
  {
    if k == 0 then f.id.directoryStart + d else f.continuations[d].start + k - 1
  }

  lemma {:induction false} DirectoriesElsewhere(f: Formatted, t: Tree, wr: Writers, mid: nat, n: nat, b: nat)
    requires Divided(f, t, mid) && n <= |t.nodes| && (b < f.id.directoryStart || b >= mid)
    ensures forall i :: 0 <= i < |DirectoryWrites(f, t, wr, mid, n)| ==> !Covers(DirectoryWrites(f, t, wr, mid, n)[i], b)
  {
    hide Constants, TreeOk, TablesPlaced, Packed;
    if n > 0 {
      DirectoriesElsewhere(f, t, wr, mid, n - 1, b);
    }
  }

  lemma {:induction false} FilesElsewhere(f: Formatted, t: Tree, c: Contents, mid: nat, n: nat, b: nat)
    requires Divided(f, t, mid) && ContentsOk(f, t, c) && n <= |f.files| && (b < mid || b >= f.id.backup)
    ensures forall i :: 0 <= i < |FileWrites(f, c.data, n)| ==> !Covers(FileWrites(f, c.data, n)[i], b)
  {
    hide Constants, TreeOk, TablesPlaced, Packed;
    if n > 0 {
      FilesElsewhere(f, t, c, mid, n - 1, b);
    }
  }

  /** Each block of each directory is where its record will say. */
  lemma {:induction false} DirectoriesLaid(dev: Device, f: Formatted, t: Tree, wr: Writers, mid: nat, n: nat, d: nat, k: nat)
    requires Divided(f, t, mid) && |dev| == f.id.total && d < n <= |t.nodes| && k < |Packed(t, d)|
    ensures DirectoryAt(f, d, k) < |dev|
    ensures Lay(dev, DirectoryWrites(f, t, wr, mid, n))[DirectoryAt(f, d, k)] == DirectoryBlocks(t, wr, d)[k]
    decreases n
  {
    hide Constants, TreeOk, Lay, Put, Packed;
    var before, one := DirectoryWrites(f, t, wr, mid, n - 1), OneDirectory(f, t, wr, mid, n - 1);
    LayConcat(dev, before, one);
    var v := Lay(dev, before);
    LayTwo(v, one[0], one[1]);
    assert one == [one[0], one[1]];
    var b := DirectoryAt(f, d, k);
    assert b < |dev|;
    PutAt(v, one[0], b);
    PutAt(Put(v, one[0]), one[1], b);
    if d < n - 1 {
      DirectoriesLaid(dev, f, t, wr, mid, n - 1, d, k);
    }
  }

  ghost function SlotBytes(f: Formatted, t: Tree, wr: Writers, i: nat): RecordBytes
    requires Laid(f, t)
  {
    if i < Count(t) then wr.record(RecordOf(f, t, i)) else Zeros(256)
  }

  /** The first n records of a block of the record table. */
  ghost function RowBytes(f: Formatted, t: Tree, wr: Writers, j: nat, n: nat): (r: seq<byte>)
    requires Laid(f, t)
    ensures |r| == 256 * n
  {
    if n == 0 then [] else RowBytes(f, t, wr, j, n - 1) + SlotBytes(f, t, wr, 16 * j + n - 1)
  }

  ghost function RecordTable(f: Formatted, t: Tree, wr: Writers): (r: seq<Block>)
    requires Laid(f, t)
    ensures |r| == f.id.recordBlocks
  {
    seq(f.id.recordBlocks, j requires 0 <= j => RowBlock(f, t, wr, j))
  }

  ghost function RowBlock(f: Formatted, t: Tree, wr: Writers, j: nat): Block
    requires Laid(f, t)
  {
    RowBytes(f, t, wr, j, 16)
  }

  lemma {:induction false} RowSlot(f: Formatted, t: Tree, wr: Writers, j: nat, n: nat, k: nat)
    requires Laid(f, t) && k < n
    ensures RowBytes(f, t, wr, j, n)[k * 256..k * 256 + 256] == SlotBytes(f, t, wr, 16 * j + k)
    decreases n
  {
    hide Laid, SlotBytes;
    var front := RowBytes(f, t, wr, j, n - 1);
    if k < n - 1 {
      RowSlot(f, t, wr, j, n - 1, k);
      assert (front + SlotBytes(f, t, wr, 16 * j + n - 1))[k * 256..k * 256 + 256] == front[k * 256..k * 256 + 256];
    }
  }

  lemma TableSlot(f: Formatted, t: Tree, wr: Writers, i: nat)
    requires Laid(f, t) && i < 16 * f.id.recordBlocks
    ensures Slot(RecordTable(f, t, wr), i) == SlotBytes(f, t, wr, i)
  {
    hide Laid, SlotBytes, RowBytes;
    RowSlot(f, t, wr, i / 16, 16, i % 16);
    assert RecordTable(f, t, wr)[i / 16] == RowBlock(f, t, wr, i / 16) == RowBytes(f, t, wr, i / 16, 16);
    assert 16 * (i / 16) + i % 16 == i;
  }

  function Encoded(c: Checked<Block>): Block { if c.Ok? then c.value else Zeros(4096) }

  ghost function FirstWrites(f: Formatted, t: Tree, wr: Writers): seq<Write>
    requires Laid(f, t)
  {
    var super := Encoded(EncodeSuperblock(FreshSuper(f)));
    [Write(0, [super]), Write(f.id.backup, [super]), Write(f.id.recordStart, RecordTable(f, t, wr))]
  }

  ghost function LaterWrites(f: Formatted, c: Contents): seq<Write> {
    [Write(f.id.bitmapStart, Chunks(Bitmap(f), f.id.bitmapBlocks)),
     Write(f.id.journalStart, [Encoded(EncodeHeader(FreshHeader(1))), Encoded(EncodeHeader(FreshHeader(2)))]),
     Write(f.id.securityStart, [c.security])]
  }

  function Blank(total: nat): (dev: Device)
    ensures |dev| == total
  {
    seq(total, _ => ZeroBlock())
  }

  function ZeroBlock(): Block { Zeros(4096) }

  /** The formatter's writes, in its order. */
  ghost function AllWrites(f: Formatted, t: Tree, wr: Writers, mid: nat, c: Contents): seq<Write>
    requires Divided(f, t, mid) && ContentsOk(f, t, c)
  {
    FirstWrites(f, t, wr) + (DirectoryWrites(f, t, wr, mid, |t.nodes|) + (LaterWrites(f, c) + FileWrites(f, c.data, |f.files|)))
  }

  ghost function Image(f: Formatted, t: Tree, wr: Writers, mid: nat, c: Contents): (dev: Device)
    requires Divided(f, t, mid) && ContentsOk(f, t, c)
    ensures |dev| == f.id.total
  {
    Lay(Blank(f.id.total), AllWrites(f, t, wr, mid, c))
  }

  /** The image in four stages. */
  lemma Stages(f: Formatted, t: Tree, wr: Writers, mid: nat, c: Contents)
    returns (first: Device, second: Device, third: Device)
    requires Divided(f, t, mid) && ContentsOk(f, t, c)
    ensures first == Lay(Blank(f.id.total), FirstWrites(f, t, wr))
    ensures second == Lay(first, DirectoryWrites(f, t, wr, mid, |t.nodes|))
    ensures third == Lay(second, LaterWrites(f, c))
    ensures Image(f, t, wr, mid, c) == Lay(third, FileWrites(f, c.data, |f.files|))
    ensures |first| == |second| == |third| == f.id.total
  {
    assert Laid(f, t) && |f.files| == |c.data|;
    hide Lay, Divided, ContentsOk, FirstWrites, DirectoryWrites, LaterWrites, FileWrites, Blank;
    var a, b, d, e := FirstWrites(f, t, wr), DirectoryWrites(f, t, wr, mid, |t.nodes|), LaterWrites(f, c), FileWrites(f, c.data, |f.files|);
    first := Lay(Blank(f.id.total), a);
    second := Lay(first, b);
    third := Lay(second, d);
    LayConcat(Blank(f.id.total), a, b + (d + e));
    LayConcat(first, b, d + e);
    LayConcat(second, d, e);
  }

  lemma Zones(f: Formatted, t: Tree, mid: nat)
    requires Divided(f, t, mid)
    ensures f.id.recordStart == 1 && f.id.bitmapStart == 1 + f.id.recordBlocks
    ensures f.id.journalStart == f.id.bitmapStart + f.id.bitmapBlocks && f.id.securityStart == f.id.journalStart + 66
    ensures f.id.directoryStart == f.id.securityStart + 1 && f.id.directoryStart + |t.nodes| <= mid <= f.id.backup == f.id.total - 1
    ensures |f.continuations| == |t.nodes| && |f.files| == |t.files| && Laid(f, t) && f.id.securityBlocks == 1
    ensures Count(t) <= 0x1_ffff && |t.names| == Count(t)
  {
    hide TreeOk, Packed, Between, Precedes;
  }

  /** What the blocks before the directories, and the backup, end up with. */
  lemma LaterKeeps(f: Formatted, t: Tree, wr: Writers, mid: nat, c: Contents, third: Device, b: nat)
    requires Divided(f, t, mid) && ContentsOk(f, t, c) && |third| == f.id.total && b < f.id.total && (b < mid || b == f.id.backup)
    ensures Lay(third, FileWrites(f, c.data, |f.files|))[b] == third[b]
  {
    hide Lay, Divided, FileWrites;
    Zones(f, t, mid);
    FilesElsewhere(f, t, c, mid, |f.files|, b);
    LayElsewhere(third, FileWrites(f, c.data, |f.files|), b);
  }

  lemma LaterAt(f: Formatted, t: Tree, mid: nat, c: Contents, second: Device, b: nat)
    requires Divided(f, t, mid) && ContentsOk(f, t, c) && |second| == f.id.total && b < f.id.total
    ensures var third := Lay(second, LaterWrites(f, c));
            third[b] ==
              if f.id.bitmapStart <= b < f.id.journalStart then Chunks(Bitmap(f), f.id.bitmapBlocks)[b - f.id.bitmapStart]
              else if b == f.id.journalStart then Encoded(EncodeHeader(FreshHeader(1)))
              else if b == f.id.journalStart + 1 then Encoded(EncodeHeader(FreshHeader(2)))
              else if b == f.id.securityStart then c.security
              else second[b]
  {
    hide Lay, Divided, Put, EncodeHeader, Chunks, FreshHeader, Bitmap, Encoded;
    Zones(f, t, mid);
    var w := LaterWrites(f, c);
    LayThree(second, w[0], w[1], w[2]);
    PutAt(second, w[0], b);
    PutAt(Put(second, w[0]), w[1], b);
    PutAt(Put(Put(second, w[0]), w[1]), w[2], b);
  }

  lemma FirstAt(f: Formatted, t: Tree, wr: Writers, mid: nat, blank: Device, b: nat)
    requires Divided(f, t, mid) && |blank| == f.id.total && b < f.id.total
    ensures var first := Lay(blank, FirstWrites(f, t, wr));
            first[b] ==
              if b == 0 || b == f.id.backup then Encoded(EncodeSuperblock(FreshSuper(f)))
              else if 1 <= b < f.id.bitmapStart then RecordTable(f, t, wr)[b - 1]
              else blank[b]
  {
    hide Lay, Divided, Put, EncodeSuperblock, RecordTable, FreshSuper, Laid, Encoded;
    Zones(f, t, mid);
    var w := FirstWrites(f, t, wr);
    LayThree(blank, w[0], w[1], w[2]);
    PutAt(blank, w[0], b);
    PutAt(Put(blank, w[0]), w[1], b);
    PutAt(Put(Put(blank, w[0]), w[1]), w[2], b);
  }

  /** What the image holds in the tables. */
  lemma ImageTables(f: Formatted, t: Tree, wr: Writers, mid: nat, c: Contents, b: nat)
    requires Divided(f, t, mid) && ContentsOk(f, t, c) && (b <= f.id.journalStart + 1 || b == f.id.securityStart || b == f.id.backup)
    ensures b < f.id.total
    ensures Image(f, t, wr, mid, c)[b] ==
              if b == 0 || b == f.id.backup then Encoded(EncodeSuperblock(FreshSuper(f)))
              else if b < f.id.bitmapStart then RecordTable(f, t, wr)[b - 1]
              else if b < f.id.journalStart then Chunks(Bitmap(f), f.id.bitmapBlocks)[b - f.id.bitmapStart]
              else if b == f.id.journalStart then Encoded(EncodeHeader(FreshHeader(1)))
              else if b == f.id.journalStart + 1 then Encoded(EncodeHeader(FreshHeader(2)))
              else c.security
  {
    Zones(f, t, mid);
    hide Lay, Divided, EncodeSuperblock, EncodeHeader, RecordTable, Chunks, FreshSuper, FreshHeader, Laid, Image;
    hide FirstWrites, DirectoryWrites, LaterWrites, FileWrites;
    var first, second, third := Stages(f, t, wr, mid, c);
    LaterKeeps(f, t, wr, mid, c, third, b);
    LaterAt(f, t, mid, c, second, b);
    DirectoriesElsewhere(f, t, wr, mid, |t.nodes|, b);
    LayElsewhere(first, DirectoryWrites(f, t, wr, mid, |t.nodes|), b);
    FirstAt(f, t, wr, mid, Blank(f.id.total), b);
  }

  lemma ImageDirectories(f: Formatted, t: Tree, wr: Writers, mid: nat, c: Contents, d: nat, k: nat)
    requires Divided(f, t, mid) && ContentsOk(f, t, c) && d < |t.nodes| && k < |Packed(t, d)|
    ensures d < |f.continuations| && DirectoryAt(f, d, k) < f.id.total
    ensures Image(f, t, wr, mid, c)[DirectoryAt(f, d, k)] == DirectoryBlocks(t, wr, d)[k]
  {
    Zones(f, t, mid);
    DirectoryPlace(f, t, mid, d, k);
    hide Lay, Divided, Laid, Image, FirstWrites, DirectoryWrites, LaterWrites, FileWrites, Packed, DirectoryAt;
    var first, second, third := Stages(f, t, wr, mid, c);
    var b := DirectoryAt(f, d, k);
    LaterKeeps(f, t, wr, mid, c, third, b);
    LaterAt(f, t, mid, c, second, b);
    DirectoriesLaid(first, f, t, wr, mid, |t.nodes|, d, k);
  }

  lemma DirectoryPlace(f: Formatted, t: Tree, mid: nat, d: nat, k: nat)
    requires Divided(f, t, mid) && d < |t.nodes| && k < |Packed(t, d)|
    ensures d < |f.continuations| && f.id.directoryStart <= DirectoryAt(f, d, k) < mid
  {
    Zones(f, t, mid);
    hide TreeOk, Packed, TablesPlaced, Constants;
  }

  // Reading it back.

  /** The records of the tree are read as they were written. */
  ghost predicate ReadsRecords(rd: Readers, wr: Writers, f: Formatted, t: Tree)
    requires Laid(f, t)
  {
    forall i :: 0 <= i < Count(t) ==>
      !AllZero(wr.record(RecordOf(f, t, i))) && rd.record(wr.record(RecordOf(f, t, i))) == Ok(RecordOf(f, t, i))
  }

  /** And so are the blocks of its directories. */
  ghost predicate ReadsDirectories(rd: Readers, wr: Writers, t: Tree)
    requires Count(t) <= 0x1_ffff && |t.names| == Count(t)
  {
    forall d, k :: 0 <= d < |t.nodes| && 0 <= k < |Packed(t, d)| ==>
      rd.directory(DirectoryBlock(t, wr, d, k), d + 1) == Ok(Packed(t, d)[k])
  }

  /** What is asked of the codecs and the security table: that what the formatter writes can be read. */
  ghost predicate Readable(rd: Readers, wr: Writers, f: Formatted, t: Tree, c: Contents, ids: seq<u64>)
    requires Laid(f, t) && Count(t) <= 0x1_ffff && |t.names| == Count(t)
  {
    && ReadsRecords(rd, wr, f, t) && ReadsDirectories(rd, wr, t) && NamesApart(rd, t)
    && rd.security([c.security]) == Ok(ids) && (forall i :: 0 <= i < Count(t) ==> t.security[i] in ids)
    && rd.mountSecurity(f.id, [c.security], RecordTable(f, t, wr)) == Success
  }

  lemma PartIs(dev: Device, start: nat, blocks: seq<Block>)
    requires start + |blocks| <= |dev| && forall i :: 0 <= i < |blocks| ==> dev[start + i] == blocks[i]
    ensures Part(dev, start, |blocks|) == blocks
  {
  }

  lemma ImageParts(f: Formatted, t: Tree, wr: Writers, mid: nat, c: Contents)
    requires Divided(f, t, mid) && ContentsOk(f, t, c)
    ensures var dev := Image(f, t, wr, mid, c);
            && Part(dev, f.id.recordStart, f.id.recordBlocks) == RecordTable(f, t, wr)
            && Part(dev, f.id.bitmapStart, f.id.bitmapBlocks) == Chunks(Bitmap(f), f.id.bitmapBlocks)
            && Part(dev, f.id.securityStart, f.id.securityBlocks) == [c.security]
  {
    hide Divided, Image, RecordTable, Chunks, Laid, EncodeSuperblock, EncodeHeader, FreshHeader, Part, Encoded;
    Zones(f, t, mid);
    var dev := Image(f, t, wr, mid, c);
    var records, bitmap := RecordTable(f, t, wr), Chunks(Bitmap(f), f.id.bitmapBlocks);
    forall i | 0 <= i < |records|
      ensures dev[f.id.recordStart + i] == records[i]
    {
      ImageTables(f, t, wr, mid, c, 1 + i);
    }
    forall i | 0 <= i < |bitmap|
      ensures dev[f.id.bitmapStart + i] == bitmap[i]
    {
      ImageTables(f, t, wr, mid, c, f.id.bitmapStart + i);
    }
    ImageTables(f, t, wr, mid, c, f.id.securityStart);
    PartIs(dev, f.id.recordStart, records);
    PartIs(dev, f.id.bitmapStart, bitmap);
    PartIs(dev, f.id.securityStart, [c.security]);
  }

  lemma PackedSome(t: Tree, d: nat)
    requires Count(t) <= 0x1_ffff && |t.names| == Count(t)
    ensures Packed(t, d) != []
  {
    hide Children;
  }

  lemma RecordPlaces(f: Formatted, t: Tree, mid: nat, d: nat, k: nat)
    requires Divided(f, t, mid) && d < |t.nodes| && k < |Packed(t, d)|
    ensures d < |f.continuations|
    ensures var r := RecordOf(f, t, d);
            r.fileId == d + 1 && DirectoryLength(r) == |Packed(t, d)| && DirectoryBlockAt(r, k) == Some(DirectoryAt(f, d, k))
  {
    Zones(f, t, mid);
    hide TreeOk, Packed, TablesPlaced, Constants, RecordValid;
    assert DirectoryLength(RecordOf(f, t, d)) == f.continuations[d].count + 1;
  }

  /** The blocks of a directory read back as all its entries. */
  lemma {:induction false} ReadsBack(
      rd: Readers, wr: Writers, f: Formatted, t: Tree, mid: nat, c: Contents, d: nat, k: nat)
    requires Divided(f, t, mid) && ContentsOk(f, t, c) && ReadsDirectories(rd, wr, t) && d < |t.nodes| && k <= |Packed(t, d)|
    ensures ReadEntries(rd, Image(f, t, wr, mid, c), RecordOf(f, t, d), k) == Some(Flat(Packed(t, d)[k..]))
    decreases |Packed(t, d)| - k
  {
    hide Divided, ContentsOk, Image, Laid, RecordOf, DirectoryAt, DirectoryBlockAt, DirectoryLength, FitsBlock, Packed;
    Zones(f, t, mid);
    var groups := Packed(t, d);
    if k == |groups| {
      PackedSome(t, d);
      RecordPlaces(f, t, mid, d, 0);
      assert groups[k..] == [];
    } else {
      RecordPlaces(f, t, mid, d, k);
      ReadsBack(rd, wr, f, t, mid, c, d, k + 1);
      ImageDirectories(f, t, wr, mid, c, d, k);
      assert DirectoryBlocks(t, wr, d)[k] == DirectoryBlock(t, wr, d, k);
      assert rd.directory(DirectoryBlock(t, wr, d, k), d + 1) == Ok(groups[k]);
      assert groups[k..][0] == groups[k] && groups[k..][1..] == groups[k + 1..];
    }
  }

  // The formatter's volume.

  lemma {:induction false} ChainOrdered(ranges: seq<Range>, at: nat, end: nat, i: nat, j: nat)
    requires Chain(ranges, at, end) && i < j < |ranges|
    ensures Precedes(ranges[i], ranges[j])
    decreases |ranges|
  {
    var front, r := ranges[..|ranges| - 1], ranges[|ranges| - 1];
    ChainForward(front, at, end - r.count);
    if j < |ranges| - 1 {
      assert front[i] == ranges[i] && front[j] == ranges[j];
      ChainOrdered(front, at, end - r.count, i, j);
    } else if ranges[i].count != 0 {
      assert front[i] == ranges[i];
      ChainInside(front, at, end - r.count, i);
    }
  }

  /** Where the formatter changes from continuations to files. */
  function Middle(sizeMib: nat, t: Tree): nat
    requires 8 <= sizeMib <= 2048 && TreeOk(t) && Format(sizeMib, t.nodes, t.files).Ok?
  {
    var id := Format(sizeMib, t.nodes, t.files).value.id;
    AssignFrom(t.nodes, t.files, id.backup, Placed([], id.directoryStart + id.directoryBlocks)).value.next
  }

  lemma FormatDivides(sizeMib: nat, t: Tree)
    requires 8 <= sizeMib <= 2048 && TreeOk(t) && NamesSized(t) && Format(sizeMib, t.nodes, t.files).Ok?
    ensures Divided(Format(sizeMib, t.nodes, t.files).value, t, Middle(sizeMib, t))
  {
    hide Format, Laid, AssignFrom, PlaceFrom, Chain, Accounted, Precedes, TreeOk, ShiftAll, Packed, Middle, NamesSized, Between;
    TreeBounds(t);
    var f := Format(sizeMib, t.nodes, t.files).value;
    var low, mid := f.id.directoryStart + f.id.directoryBlocks, Middle(sizeMib, t);
    var data := FormatPieces(sizeMib, t);
    TreeSmall(t);
    FormatIsLaid(sizeMib, t);
    LaidSizes(f, t);
    ChainNothing(low);
    ChainNothing(0);
    AssignChains(t.nodes, t.files, f.id.backup, Placed([], low), low);
    AssignCounts(t.nodes, t.files, f.id.backup, Placed([], low));
    PlaceChains(t.files, f.id.backup, Placed([], 0));
    ChainForward(f.continuations, low, mid);
    ShiftChains(data.ranges, 0, data.next, mid);
    DirectoriesDivided(t, f, low, mid);
    FilesDivided(f.files, mid, mid + data.next, f.id.backup);
  }

  lemma TreeSmall(t: Tree)
    requires TreeOk(t)
    ensures Count(t) <= 0x1_ffff && |t.names| == Count(t)
  {
  }

  lemma FormatPieces(sizeMib: nat, t: Tree) returns (data: Placed)
    requires 8 <= sizeMib <= 2048 && TreeOk(t) && Format(sizeMib, t.nodes, t.files).Ok?
    ensures var f := Format(sizeMib, t.nodes, t.files).value;
            var low, mid := f.id.directoryStart + f.id.directoryBlocks, Middle(sizeMib, t);
            && AssignFrom(t.nodes, t.files, f.id.backup, Placed([], low)) == Ok(Placed(f.continuations, mid))
            && PlaceFrom(t.files, f.id.backup, Placed([], 0)) == Ok(data)
            && f.files == ShiftAll(data.ranges, mid) && data.next <= f.id.backup - mid && mid <= f.id.backup
  {
    hide AssignFrom, PlaceFrom, ShiftAll;
    data := PlaceFrom(t.files, Format(sizeMib, t.nodes, t.files).value.id.backup, Placed([], 0)).value;
  }

  lemma DirectoriesDivided(t: Tree, f: Formatted, low: nat, mid: nat)
    requires Count(t) <= 0x1_ffff && NamesSized(t) && 1 <= |t.nodes| == |f.continuations| && Chain(f.continuations, low, mid)
    requires forall i :: 0 <= i < |t.nodes| ==> Accounted(t.nodes, t.files, i, f.continuations[i].count)
    ensures forall d :: 0 <= d < |t.nodes| ==>
      |Packed(t, d)| == f.continuations[d].count + 1 && Between(f.continuations[d], low, mid)
    ensures forall i, j :: 0 <= i < j < |t.nodes| ==> Precedes(f.continuations[i], f.continuations[j])
  {
    hide Chain, Accounted, Precedes, Packed;
    forall d | 0 <= d < |t.nodes|
      ensures |Packed(t, d)| == f.continuations[d].count + 1 && Between(f.continuations[d], low, mid)
    {
      PackedFits(t, d, f.continuations[d].count);
      if f.continuations[d].count != 0 {
        ChainInside(f.continuations, low, mid, d);
      }
    }
    forall i, j | 0 <= i < j < |t.nodes|
      ensures Precedes(f.continuations[i], f.continuations[j])
    {
      ChainOrdered(f.continuations, low, mid, i, j);
    }
  }

  lemma FilesDivided(files: seq<Range>, mid: nat, end: nat, backup: nat)
    requires Chain(files, mid, end) && end <= backup
    ensures forall i :: 0 <= i < |files| ==> Between(files[i], mid, backup)
  {
    hide Chain;
    forall i | 0 <= i < |files|
      ensures Between(files[i], mid, backup)
    {
      if files[i].count != 0 {
        ChainInside(files, mid, end, i);
      }
    }
  }

  /** The device that the formatter leaves for a tree. */
  ghost function Volume(sizeMib: nat, t: Tree, wr: Writers, c: Contents): (dev: Device)
    requires 8 <= sizeMib <= 2048 && TreeOk(t) && NamesSized(t) && Format(sizeMib, t.nodes, t.files).Ok?
    requires ContentsOk(Format(sizeMib, t.nodes, t.files).value, t, c)
  {
    FormatDivides(sizeMib, t);
    Image(Format(sizeMib, t.nodes, t.files).value, t, wr, Middle(sizeMib, t), c)
  }

  lemma SlotsHold(rd: Readers, wr: Writers, f: Formatted, t: Tree, i: nat)
    requires Laid(f, t) && ReadsRecords(rd, wr, f, t) && i < 16 * f.id.recordBlocks
    ensures SlotHolds(rd, Slot(RecordTable(f, t, wr), i), SlotOf(f, t, i))
  {
    hide RecordTable, Slot, RecordOf, Laid;
    TableSlot(f, t, wr, i);
  }

  lemma ImageHolds(rd: Readers, wr: Writers, f: Formatted, t: Tree, mid: nat, c: Contents, ids: seq<u64>)
    requires Divided(f, t, mid) && ContentsOk(f, t, c)
    requires Count(t) <= 0x1_ffff && |t.names| == Count(t) && Readable(rd, wr, f, t, c, ids)
    requires forall d :: 0 <= d < |t.nodes| ==> Accounted(t.nodes, t.files, d, f.continuations[d].count)
    requires EncodeSuperblock(FreshSuper(f)).Ok?
    ensures HoldsFormat(Image(f, t, wr, mid, c), f, t, rd, ids, Bitmap(f))
  {
    hide Divided, Laid, Image, RecordTable, Chunks, FlatBit, Owned, Marked, Accounted, Slot, SlotHolds, Bitmap;
    hide NamesApart, Part, RecordOf;
    hide DirectoriesHold, EncodeSuperblock, EncodeHeader, FreshHeader, FreshSuper, Packed, Children, FitsBlock, Flat, ReadEntries;
    Zones(f, t, mid);
    ImageParts(f, t, wr, mid, c);
    forall i | 0 <= i < 16 * f.id.recordBlocks
      ensures SlotHolds(rd, Slot(RecordTable(f, t, wr), i), SlotOf(f, t, i))
    {
      SlotsHold(rd, wr, f, t, i);
    }
    forall m: nat | m / 8 < |Bitmap(f)|
      ensures FlatBit(Bitmap(f), m) <==> Owned(Marked(f), m)
    {
      BitmapBits(f, m);
    }
    DirectoriesRead(rd, wr, f, t, mid, c);
    ImageSupers(f, t, wr, mid, c);
    ImageHeaders(f, t, wr, mid, c);
  }

  lemma BitmapBits(f: Formatted, m: nat)
    requires m / 8 < |Bitmap(f)|
    ensures FlatBit(Bitmap(f), m) <==> Owned(Marked(f), m)
  {
    hide Owned, FlatBit, BitmapOf, Marked;
    BitmapBit(f.id.bitmapBlocks * BLOCK_SIZE, Marked(f), m);
  }

  lemma DirectoriesRead(rd: Readers, wr: Writers, f: Formatted, t: Tree, mid: nat, c: Contents)
    requires Divided(f, t, mid) && ContentsOk(f, t, c)
    requires Count(t) <= 0x1_ffff && |t.names| == Count(t) && ReadsDirectories(rd, wr, t)
    requires forall d :: 0 <= d < |t.nodes| ==> Accounted(t.nodes, t.files, d, f.continuations[d].count)
    ensures Laid(f, t) && Count(t) <= 0x1_ffff && |t.names| == Count(t) && Matches(t, Records(f, t))
    ensures DirectoriesHold(rd, Image(f, t, wr, mid, c), t, Records(f, t))
  {
    Zones(f, t, mid);
    assert NamesSized(t) && 1 <= |t.nodes|;
    hide Divided, ContentsOk, Laid, Image, Accounted, ReadsDirectories, RecordOf, Packed, Children, FitsBlock, Flat;
    hide ReadEntries, NamesSized;
    RecordsMatch(f, t);
    LaidSizes(f, t);
    forall d | 0 <= d < |t.nodes|
      ensures ReadEntries(rd, Image(f, t, wr, mid, c), Records(f, t)[d].value, 0) == Some(Children(t, d, 0))
    {
      PackedFits(t, d, f.continuations[d].count);
      ReadsBack(rd, wr, f, t, mid, c, d, 0);
      assert Packed(t, d)[0..] == Packed(t, d);
      RecordAt(f, t, d);
    }
  }

  lemma ImageSupers(f: Formatted, t: Tree, wr: Writers, mid: nat, c: Contents)
    requires Divided(f, t, mid) && ContentsOk(f, t, c) && EncodeSuperblock(FreshSuper(f)).Ok?
    ensures SuperblocksHold(Image(f, t, wr, mid, c), f)
  {
    hide Divided, ContentsOk, Image, RecordTable, Chunks, Laid, EncodeSuperblock, EncodeHeader, FreshHeader, FreshSuper;
    Zones(f, t, mid);
    ImageTables(f, t, wr, mid, c, 0);
    ImageTables(f, t, wr, mid, c, f.id.backup);
  }

  lemma ImageHeaders(f: Formatted, t: Tree, wr: Writers, mid: nat, c: Contents)
    requires Divided(f, t, mid) && ContentsOk(f, t, c)
    ensures HeadersHold(Image(f, t, wr, mid, c), f.id.journalStart, FreshHeader(1), FreshHeader(2))
  {
    hide Divided, ContentsOk, Image, RecordTable, Chunks, Laid, EncodeSuperblock, EncodeHeader, FreshHeader, FreshSuper;
    hide HeaderValid, DecodeHeader;
    Zones(f, t, mid);
    ImageTables(f, t, wr, mid, c, f.id.journalStart);
    ImageTables(f, t, wr, mid, c, f.id.journalStart + 1);
    FreshHeaderValid(1);
    FreshHeaderValid(2);
    HeaderRoundTrip(FreshHeader(1));
    HeaderRoundTrip(FreshHeader(2));
  }

  /**
   * For every accepted size and tree, the volume that the formatter's writes leave over zeros passes
   * the whole inspection as clean, and the repair plan for it is empty.
   */
  lemma FormattedIsClean(sizeMib: nat, t: Tree, wr: Writers, rd: Readers, c: Contents, ids: seq<u64>)
    requires 8 <= sizeMib <= 2048 && TreeOk(t) && NamesSized(t) && Format(sizeMib, t.nodes, t.files).Ok?
    requires var f := Format(sizeMib, t.nodes, t.files).value;
             (FormatIsLaid(sizeMib, t); TreeSmall(t); ContentsOk(f, t, c) && Readable(rd, wr, f, t, c, ids))
    ensures var dev := Volume(sizeMib, t, wr, c);
            && |dev| >= 2 && Clean(Inspect(rd, dev))
            && MakePlan(rd, dev).Ok? && MakePlan(rd, dev).value.actions == []
  {
    hide TreeOk, NamesSized, Format, ContentsOk, Readable, Laid, Divided, Image, Middle, Accounted, AssignFrom, Inspect;
    hide MakePlan, Clean;
    hide HoldsFormat, EncodeSuperblock, Decodable, DecodeSuperblock, FreshSuper;
    TreeBounds(t);
    TreeSmall(t);
    var f := Format(sizeMib, t.nodes, t.files).value;
    FormatIsLaid(sizeMib, t);
    FormatDivides(sizeMib, t);
    FormatAccounts(sizeMib, t);
    FreshEncodes(sizeMib, t);
    ImageHolds(rd, wr, f, t, Middle(sizeMib, t), c, ids);
    FormatIsClean(sizeMib, t, rd, Volume(sizeMib, t, wr, c), ids, Bitmap(f));
  }

  lemma FreshEncodes(sizeMib: nat, t: Tree)
    requires 8 <= sizeMib <= 2048 && TreeOk(t) && Format(sizeMib, t.nodes, t.files).Ok?
    ensures EncodeSuperblock(FreshSuper(Format(sizeMib, t.nodes, t.files).value)).Ok?
  {
    hide Format, EncodeSuperblock, DecodeSuperblock, Decodable;
    FormatDecodes(sizeMib, t.nodes, t.files);
    SuperblockRoundTrip(FreshSuper(Format(sizeMib, t.nodes, t.files).value));
  }

  lemma FormatAccounts(sizeMib: nat, t: Tree)
    requires 8 <= sizeMib <= 2048 && TreeOk(t) && Format(sizeMib, t.nodes, t.files).Ok?
    ensures var f := Format(sizeMib, t.nodes, t.files).value;
            |f.continuations| == |t.nodes|
            && forall d :: 0 <= d < |t.nodes| ==> Accounted(t.nodes, t.files, d, f.continuations[d].count)
  {
    hide Format, AssignFrom, PlaceFrom, Accounted, Middle, ShiftAll, TreeOk;
    TreeBounds(t);
    var f := Format(sizeMib, t.nodes, t.files).value;
    var data := FormatPieces(sizeMib, t);
    AssignCounts(t.nodes, t.files, f.id.backup, Placed([], f.id.directoryStart + f.id.directoryBlocks));
  }

  /** A formatted volume that loses a superblock copy is repaired to what was formatted. */
  lemma FormattedSurvivesLoss(
      sizeMib: nat, t: Tree, wr: Writers, rd: Readers, c: Contents, ids: seq<u64>, copy: nat, junk: Block)
    requires 8 <= sizeMib <= 2048 && TreeOk(t) && NamesSized(t) && Format(sizeMib, t.nodes, t.files).Ok?
    requires var f := Format(sizeMib, t.nodes, t.files).value;
             (FormatIsLaid(sizeMib, t); TreeSmall(t); ContentsOk(f, t, c) && Readable(rd, wr, f, t, c, ids))
    requires copy <= 1 && DecodeSuperblock(junk).Err?
    ensures var dev := Volume(sizeMib, t, wr, c);
            && |dev| >= 2
            && var d := LoseCopy(dev, copy, junk);
               var plan := MakePlan(rd, d);
               plan.Ok? && After(d, plan.value.actions, |plan.value.actions|) == dev
  {
    hide *;
    FormattedIsClean(sizeMib, t, wr, rd, c, ids);
    LostCopyIsRestored(rd, Volume(sizeMib, t, wr, c), copy, junk);
  }

  // The bitmap can be built.

  lemma {:induction false} EmptyAtZero(files: seq<InputFile>, backup: nat, done: Placed)
    requires |done.ranges| <= |files| && PlaceFrom(files, backup, done).Ok?
    requires forall i :: 0 <= i < |done.ranges| && done.ranges[i].count == 0 ==> done.ranges[i].start == 0
    ensures var p := PlaceFrom(files, backup, done).value;
            forall i :: 0 <= i < |p.ranges| && p.ranges[i].count == 0 ==> p.ranges[i].start == 0
    decreases |files| - |done.ranges|
  {
    var i := |done.ranges|;
    if i < |files| {
      var count := DataBlocks(files[i].size);
      EmptyAtZero(files, backup, Placed(done.ranges + [Range(if count == 0 then 0 else done.next, count)], done.next + count));
    }
  }

  /** A range that is empty and starts nowhere, or that lies inside the volume. */
  ghost predicate Low(id: Identity, r: Range) {
    if r.count == 0 then r.start == 0 else r.start + r.count <= id.total
  }

  /** Every range the formatter marks has its place in the bitmap it reserved, so building it succeeds. */
  lemma MarkedRepresentable(sizeMib: nat, t: Tree)
    requires 8 <= sizeMib <= 2048 && TreeOk(t) && Format(sizeMib, t.nodes, t.files).Ok?
    ensures var f := Format(sizeMib, t.nodes, t.files).value;
            forall i :: 0 <= i < |Marked(f)| ==> Representable(f.id.bitmapBlocks * BLOCK_SIZE, Marked(f)[i])
  {
    hide Format, TreeOk, Laid, PlaceFrom, AssignFrom, Middle, Marked, Representable, Low;
    TreeBounds(t);
    var f := Format(sizeMib, t.nodes, t.files).value;
    FormatIsLaid(sizeMib, t);
    LaidRoom(f, t);
    var data := FormatPieces(sizeMib, t);
    EmptyAtZero(t.files, f.id.backup, Placed([], 0));
    RangesLow(f, t);
    forall i | 0 <= i < |Marked(f)|
      ensures Representable(f.id.bitmapBlocks * BLOCK_SIZE, Marked(f)[i])
    {
      LowRepresentable(f.id, Marked(f)[i]);
    }
  }

  lemma LaidRoom(f: Formatted, t: Tree)
    requires Laid(f, t)
    ensures 0 < f.id.total <= 0x8_0000 && f.id.bitmapBlocks == BitmapBlocks(f.id.total)
  {
    hide Constants, TablesPlaced, Between, TreeOk;
  }

  lemma LowRepresentable(id: Identity, r: Range)
    requires 0 < id.total <= 0x8_0000 && id.bitmapBlocks == BitmapBlocks(id.total) && Low(id, r)
    ensures Representable(id.bitmapBlocks * BLOCK_SIZE, r)
  {
  }

  lemma RangesLow(f: Formatted, t: Tree)
    requires Laid(f, t) && forall i :: 0 <= i < |f.files| && f.files[i].count == 0 ==> f.files[i].start == 0
    ensures forall i :: 0 <= i < |Marked(f)| ==> Low(f.id, Marked(f)[i])
  {
    hide Constants, TreeOk, DataBlocks;
    NonEmptyFrom(f.continuations);
    var m, c := MetadataRanges(f.id), NonEmpty(f.continuations);
    forall i | 0 <= i < |Marked(f)|
      ensures Low(f.id, Marked(f)[i])
    {
      if 6 <= i < 6 + |c| {
        assert Marked(f)[i] == c[i - 6];
        assert c[i - 6] in f.continuations;
      } else if 6 + |c| <= i < 6 + |c| + |f.files| {
        assert Marked(f)[i] == f.files[i - 6 - |c|];
      }
    }
  }

  lemma {:induction false} NonEmptyFrom(ranges: seq<Range>)
    ensures forall i :: 0 <= i < |NonEmpty(ranges)| ==> NonEmpty(ranges)[i].count != 0 && NonEmpty(ranges)[i] in ranges
    decreases |ranges|
  {
    if ranges != [] {
      NonEmptyFrom(ranges[..|ranges| - 1]);
    }
  }

  // The program's own codecs.

  function RecordBytesOf(r: FileRecord): RecordBytes {
    if EncodeRecord(r).Ok? then EncodeRecord(r).value else Zeros(256)
  }

  function BlockOf(owner: u64, entries: seq<Entry>): Block {
    if HEADER_SIZE + SizeOf(entries) <= BLOCK_SIZE then EncodeDirectory(owner, 1, entries) else ZeroBlock()
  }

  /** What the formatter writes records and directory blocks with. */
  const OWN_WRITERS := Writers(RecordBytesOf, BlockOf)

  /** Readers that read records, directories and names as the inspector does. */
  ghost predicate OwnReaders(rd: Readers) {
    && (forall b: RecordBytes :: rd.record(b) == DecodeRecord(b))
    && (forall b: Block, owner: u64 :: rd.directory(b, owner) == DecodeDirectory(b, owner))
    && (forall a: seq<byte>, b: seq<byte> :: rd.sameName(a, b) <==> a == b)
  }

  /** The names of a tree that can be formatted: proper ones, and different ones among siblings. */
  ghost predicate NamesFit(t: Tree)
    requires |t.names| == Count(t)
  {
    && (forall i :: 1 <= i < Count(t) ==> NameOk(t.names[i]))
    && (forall i, j :: 1 <= i < j < Count(t) && Parent(t, i) == Parent(t, j) ==> t.names[i] != t.names[j])
  }

  lemma OwnRecords(rd: Readers, f: Formatted, t: Tree)
    requires Laid(f, t) && OwnReaders(rd)
    ensures ReadsRecords(rd, OWN_WRITERS, f, t)
  {
    hide Laid, RecordOf, EncodeRecord, DecodeRecord, AllZero, Shaped;
    forall i | 0 <= i < Count(t)
      ensures !AllZero(OWN_WRITERS.record(RecordOf(f, t, i)))
      ensures rd.record(OWN_WRITERS.record(RecordOf(f, t, i))) == Ok(RecordOf(f, t, i))
    {
      RecordFields(f, t, i);
      RecordRoundTrip(RecordOf(f, t, i));
    }
  }

  /** Where a group begins in the list of all entries. */
  lemma {:induction false} GroupAt(groups: seq<seq<Entry>>, k: nat) returns (at: nat)
    requires k < |groups|
    ensures at + |groups[k]| <= |Flat(groups)| && Flat(groups)[at..at + |groups[k]|] == groups[k]
  {
    if k == 0 {
      at := 0;
    } else {
      var rest := GroupAt(groups[1..], k - 1);
      at := |groups[0]| + rest;
      var all, tail := Flat(groups), Flat(groups[1..]);
      assert all == groups[0] + tail;
      assert all[at..at + |groups[k]|] == tail[rest..rest + |groups[k]|];
    }
  }

  /** The children of a directory are proper entries, in the order of their records, with different names. */
  lemma {:induction false} ChildrenFit(t: Tree, d: nat, from: nat)
    requires from <= Count(t) <= 0x1_ffff && |t.names| == Count(t) && NamesFit(t)
    ensures forall i :: 0 <= i < |Children(t, d, from)| ==>
      var e := Children(t, d, from)[i];
      EntryOk(e) && from <= e.index < Count(t) && e.index >= 1 && Parent(t, e.index) == d && e.name == t.names[e.index]
    ensures NamesDiffer(Children(t, d, from))
    decreases Count(t) - from
  {
    hide NameOk;
    if from < Count(t) {
      ChildrenFit(t, d, from + 1);
    }
  }

  ghost predicate PackedWell(t: Tree, d: nat)
    requires Count(t) <= 0x1_ffff && |t.names| == Count(t)
  {
    Flat(Packed(t, d)) == Children(t, d, 0) && forall k :: 0 <= k < |Packed(t, d)| ==> FitsBlock(Packed(t, d)[k])
  }

  lemma PackedFit(t: Tree, d: nat, k: nat)
    requires Count(t) <= 0x1_ffff && |t.names| == Count(t) && NamesFit(t) && d < |t.nodes| && k < |Packed(t, d)|
    requires PackedWell(t, d)
    ensures EntriesOk(Packed(t, d)[k]) && NamesDiffer(Packed(t, d)[k])
  {
    hide EntryOk, Children, Flat, Packed, SizeOf, NamesFit;
    ChildrenFit(t, d, 0);
    var all, g := Children(t, d, 0), Packed(t, d)[k];
    var at := GroupAt(Packed(t, d), k);
    assert forall i :: 0 <= i < |g| ==> g[i] == all[at + i];
  }

  lemma OwnDirectories(rd: Readers, t: Tree)
    requires Count(t) <= 0x1_ffff && |t.names| == Count(t) && NamesFit(t) && OwnReaders(rd)
    requires forall d :: 0 <= d < |t.nodes| ==> PackedWell(t, d)
    ensures ReadsDirectories(rd, OWN_WRITERS, t)
  {
    hide EntryOk, Children, Flat, Packed, SizeOf, NamesFit, EncodeDirectory, DecodeDirectory;
    forall d, k | 0 <= d < |t.nodes| && 0 <= k < |Packed(t, d)|
      ensures rd.directory(DirectoryBlock(t, OWN_WRITERS, d, k), d + 1) == Ok(Packed(t, d)[k])
    {
      PackedFit(t, d, k);
      DirectoryRoundTrip(d + 1, 1, Packed(t, d)[k], d + 1);
    }
  }

  /** Each block of a directory is what adding its entries one by one to an empty block gives. */
  lemma PackedBuilds(t: Tree, d: nat, k: nat)
    requires Count(t) <= 0x1_ffff && |t.names| == Count(t) && NamesFit(t) && d < |t.nodes| && k < |Packed(t, d)|
    requires PackedWell(t, d)
    ensures AddAll(EmptyDirectory(d + 1, 1), Packed(t, d)[k]) == Ok(DirectoryBlock(t, OWN_WRITERS, d, k))
  {
    hide Packed, NamesFit, EncodeDirectory, AddAll, SizeOf, EntryOk, NamesDiffer, PackedWell;
    PackedFit(t, d, k);
    assert [] + Packed(t, d)[k] == Packed(t, d)[k];
    BuiltBlock(d + 1, 1, [], Packed(t, d)[k]);
  }

  lemma AllPackedWell(sizeMib: nat, t: Tree)
    requires 8 <= sizeMib <= 2048 && TreeOk(t) && NamesSized(t) && Format(sizeMib, t.nodes, t.files).Ok?
    ensures Count(t) <= 0x1_ffff && |t.names| == Count(t)
    ensures forall d :: 0 <= d < |t.nodes| ==> PackedWell(t, d)
  {
    hide TreeOk, NamesSized, Format, Packed, Children, Flat, FitsBlock, Accounted;
    TreeSmall(t);
    TreeBounds(t);
    FormatAccounts(sizeMib, t);
    forall d | 0 <= d < |t.nodes|
      ensures PackedWell(t, d)
    {
      PackedFits(t, d, Format(sizeMib, t.nodes, t.files).value.continuations[d].count);
    }
  }

  /** The security table can be read and covers the tree. */
  ghost predicate SecurityFits(rd: Readers, f: Formatted, t: Tree, c: Contents, ids: seq<u64>)
    requires Laid(f, t)
  {
    && rd.security([c.security]) == Ok(ids) && (forall i :: 0 <= i < Count(t) ==> t.security[i] in ids)
    && rd.mountSecurity(f.id, [c.security], RecordTable(f, t, OWN_WRITERS)) == Success
  }

  lemma OwnReadable(sizeMib: nat, t: Tree, rd: Readers, c: Contents, ids: seq<u64>)
    requires 8 <= sizeMib <= 2048 && TreeOk(t) && NamesSized(t) && Format(sizeMib, t.nodes, t.files).Ok?
    requires |t.names| == Count(t) && NamesFit(t) && OwnReaders(rd)
    requires (FormatIsLaid(sizeMib, t); SecurityFits(rd, Format(sizeMib, t.nodes, t.files).value, t, c, ids))
    ensures var f := Format(sizeMib, t.nodes, t.files).value;
            Laid(f, t) && Count(t) <= 0x1_ffff && Readable(rd, OWN_WRITERS, f, t, c, ids)
  {
    hide TreeOk, NamesSized, Format, Laid, NameOk, ReadsRecords, ReadsDirectories, RecordTable, PackedWell;
    TreeBounds(t);
    FormatIsLaid(sizeMib, t);
    AllPackedWell(sizeMib, t);
    OwnRecords(rd, Format(sizeMib, t.nodes, t.files).value, t);
    OwnDirectories(rd, t);
  }

  /**
   * Written and read with the program's own record and directory codecs, the volume of every accepted
   * size and tree with proper names inspects clean and needs no repair.
   */
  lemma OwnFormatIsClean(sizeMib: nat, t: Tree, rd: Readers, c: Contents, ids: seq<u64>)
    requires 8 <= sizeMib <= 2048 && TreeOk(t) && NamesSized(t) && Format(sizeMib, t.nodes, t.files).Ok?
    requires |t.names| == Count(t) && NamesFit(t) && OwnReaders(rd)
    requires ContentsOk(Format(sizeMib, t.nodes, t.files).value, t, c)
    requires (FormatIsLaid(sizeMib, t); SecurityFits(rd, Format(sizeMib, t.nodes, t.files).value, t, c, ids))
    ensures var dev := Volume(sizeMib, t, OWN_WRITERS, c);
            && |dev| >= 2 && Clean(Inspect(rd, dev))
            && MakePlan(rd, dev).Ok? && MakePlan(rd, dev).value.actions == []
  {
    hide *;
    OwnReadable(sizeMib, t, rd, c, ids);
    FormattedIsClean(sizeMib, t, OWN_WRITERS, rd, c, ids);
  }

  // A volume on which repair does not restore what was planned.

  lemma VolumeHeaders(sizeMib: nat, t: Tree, wr: Writers, c: Contents)
    requires 8 <= sizeMib <= 2048 && TreeOk(t) && NamesSized(t) && Format(sizeMib, t.nodes, t.files).Ok?
    requires ContentsOk(Format(sizeMib, t.nodes, t.files).value, t, c)
    ensures var dev, id := Volume(sizeMib, t, wr, c), Format(sizeMib, t.nodes, t.files).value.id;
            && |dev| >= 2 && Selected(dev).Ok? && Selected(dev).value.super.id == id
            && HeaderAt(dev, id.journalStart + 1) == Ok(FreshHeader(2))
  {
    hide TreeOk, NamesSized, Format, ContentsOk, Laid, Divided, Image, Middle, EncodeSuperblock, Decodable, DecodeSuperblock;
    hide EncodeHeader, DecodeHeader, HeaderAt, FreshHeader;
    TreeBounds(t);
    var f := Format(sizeMib, t.nodes, t.files).value;
    FormatDivides(sizeMib, t);
    FreshEncodes(sizeMib, t);
    FormatDecodes(sizeMib, t.nodes, t.files);
    ImageSupers(f, t, wr, Middle(sizeMib, t), c);
    ImageHeaders(f, t, wr, Middle(sizeMib, t), c);
    SuperblocksDecode(Volume(sizeMib, t, wr, c), f);
    FreshIsEmpty();
    HeadersDecode(Volume(sizeMib, t, wr, c), f.id.journalStart, FreshHeader(1), FreshHeader(2));
    FreshVolume(f);
  }

  /** The smallest tree: a root without anything in it. */
  const ROOT_ONLY := Tree([Node(0, 0)], [], [[]], [1])

  lemma RootFormats()
    ensures TreeOk(ROOT_ONLY) && NamesSized(ROOT_ONLY) && NamesFit(ROOT_ONLY) && Format(8, ROOT_ONLY.nodes, ROOT_ONLY.files).Ok?
    ensures ContentsOk(Format(8, ROOT_ONLY.nodes, ROOT_ONLY.files).value, ROOT_ONLY, Contents(ZeroBlock(), []))
  {
    var id := Geometry(2048, 9, 1, 1);
    assert RecordBlocks(1) == 9 && BitmapBlocks(2048) == 1;
    RootAssigned(id.backup, id.directoryStart + id.directoryBlocks);
    assert PlaceFrom([], id.backup, Placed([], 0)) == Ok(Placed([], 0));
  }

  lemma RootAssigned(backup: nat, low: nat)
    requires low <= backup
    ensures AssignFrom([Node(0, 0)], [], backup, Placed([], low)) == Ok(Placed([Range(0, 0)], low))
  {
    var nodes := [Node(0, 0)];
    assert ChildNames(nodes, [], 0) == [] by {
      assert ChildDirectories(nodes, 0, 1) == [];
      assert ChildDirectories(nodes, 0, 0) == [] && ChildFiles([], 0, 0) == [];
    }
    assert AccountAll(EMPTY_DIRECTORY, []) == Ok(EMPTY_DIRECTORY);
    assert AssignFrom(nodes, [], backup, Placed([Range(0, 0)], low)) == Ok(Placed([Range(0, 0)], low));
    assert [] + [Range(0, 0)] == [Range(0, 0)];
  }

  function RecordReader(b: seq<byte>): Checked<FileRecord> { if |b| == 256 then DecodeRecord(b) else Err(InvalidArgument) }

  /** The program's readers, with a security table that has one entry. */
  function SimpleReaders(): (rd: Readers)
    ensures OwnReaders(rd)
  {
    Readers(_ => Ok([1]), (_, _, _) => Success, RecordReader, DecodeDirectory, (a, b) => a == b, (_, _) => Err(CorruptFilesystem))
  }

  lemma ZerosAreNoHeader()
    ensures DecodeHeader(ZeroBlock()).Err?
  {
    hide Checksum, HeaderValid;
    var b := ZeroBlock();
    JournalTotal();
    assert HeaderOf(b)[0] == b[..124][..4];
    assert b[..124][..4][0] == 0 && JOURNAL_MAGIC[0] == 0x5a;
  }

  /** There is a device with a plan and a tear of it after which repair does not end in the planned volume. */
  lemma TornHeaderWitness() returns (rd: Readers, dev: Device, t: Block)
    ensures |dev| >= 2 && MakePlan(rd, dev).Ok? && |MakePlan(rd, dev).value.actions| == 1
    ensures var actions := MakePlan(rd, dev).value.actions;
            var torn := Torn(dev, actions, 0, t);
            var again := MakePlan(rd, torn);
            && Tearable(actions[0], t) && again.Ok?
            && After(torn, again.value.actions, |again.value.actions|) != After(dev, actions, |actions|)
  {
    hide *;
    rd := SimpleReaders();
    var tree, c := ROOT_ONLY, Contents(ZeroBlock(), []);
    RootFormats();
    RootSecurity();
    OwnFormatIsClean(8, tree, rd, c, [1]);
    VolumeHeaders(8, tree, OWN_WRITERS, c);
    ZerosAreNoHeader();
    var clean := Volume(8, tree, OWN_WRITERS, c);
    var id, kept := LostHeaderIsRenewed(rd, clean, 0, ZeroBlock());
    dev := LoseHeader(clean, id, 0, ZeroBlock());
    OtherOfFirst();
    RenewedAction(rd, dev, id, kept);
    t := TornHeaderStays(rd, dev, 0);
  }

  lemma OtherOfFirst()
    ensures OtherCopy(0) == 1
  {
  }

  lemma RenewedAction(rd: Readers, dev: Device, id: Identity, kept: JournalHeader)
    requires |dev| >= 2 && Renews(rd, dev, Renewal(id, 0, ZeroBlock(), kept), kept) && kept == FreshHeader(2)
    ensures MakePlan(rd, dev).Ok? && |MakePlan(rd, dev).value.actions| == 1
    ensures MakePlan(rd, dev).value.actions[0].kind == JournalHeaderCopy
  {
    hide MakePlan, NextHeader;
  }

  lemma RootSecurity()
    ensures TreeOk(ROOT_ONLY) && Format(8, ROOT_ONLY.nodes, ROOT_ONLY.files).Ok?
    ensures Laid(Format(8, ROOT_ONLY.nodes, ROOT_ONLY.files).value, ROOT_ONLY)
    ensures SecurityFits(SimpleReaders(), Format(8, ROOT_ONLY.nodes, ROOT_ONLY.files).value, ROOT_ONLY, Contents(ZeroBlock(), []), [1])
  {
    RootFormats();
    hide Format, Laid, RecordTable;
    FormatIsLaid(8, ROOT_ONLY);
  }
}
