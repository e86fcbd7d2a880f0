/**
 * The shape of a namespace that passes the inspection (tools/zifsinspect/inspect.c): it need not be a tree,
 * and is one exactly when no directory is its own ancestor.
 */
module ZifsTrees {
  import opened Status
  import opened Layout
  import opened ZifsFormat
  import opened ZifsHome
  import opened ZifsFormatted
  import opened ZifsHomeTheorems
  import opened ZifsNamespace
  import opened ZifsFormatter
  import opened ZifsCodecs
  import opened ZifsVolume
  import opened Unicode

  ghost predicate ChildOf(visits: seq<Visit>, dir: nat, i: nat) {
    exists k :: 0 <= k < |visits| && visits[k].dir == dir && visits[k].entry.index == i
  }

  /** Record i is so many levels below directory d. */
  ghost predicate Below(visits: seq<Visit>, d: nat, i: nat, levels: nat)
    decreases levels
  {
    if levels == 0 then i == d else exists p: nat :: ChildOf(visits, p, i) && Below(visits, d, p, levels - 1)
  }

  ghost predicate Under(visits: seq<Visit>, d: nat, i: nat) {
    exists levels: nat :: levels > 0 && Below(visits, d, i, levels)
  }

  /** Every live record can be found from the root. */
  ghost predicate Rooted(records: seq<Option<FileRecord>>, root: nat, visits: seq<Visit>) {
    forall i :: 0 <= i < |records| && records[i].Some? ==> exists levels: nat :: Below(visits, root, i, levels)
  }

  ghost predicate NoLoop(visits: seq<Visit>) {
    forall i: nat :: !Under(visits, i, i)
  }

  lemma {:induction false} OneLevelMore(visits: seq<Visit>, p: nat, d: nat, i: nat, levels: nat)
    requires ChildOf(visits, p, d) && Below(visits, d, i, levels)
    ensures Below(visits, p, i, levels + 1)
    decreases levels
  {
    if levels == 0 {
      assert Below(visits, p, p, 0);
    } else {
      var q: nat :| ChildOf(visits, q, i) && Below(visits, d, q, levels - 1);
      OneLevelMore(visits, p, d, q, levels - 1);
    }
  }

  lemma OneParent(rd: Readers, records: seq<Option<FileRecord>>, visits: seq<Visit>, p: nat, q: nat, i: nat)
    requires Consistent(rd, records, visits) && ChildOf(visits, p, i) && ChildOf(visits, q, i)
    ensures p == q && i < |records| && records[i].Some? && p < |records| && records[p].Some?
  {
    var j :| 0 <= j < |visits| && visits[j].dir == p && visits[j].entry.index == i;
    var k :| 0 <= k < |visits| && visits[k].dir == q && visits[k].entry.index == i;
    assert PointsBack(records, visits[j]);
    assert j == k;
  }

  /** What can be found from the root is on no loop. */
  lemma {:induction false} NotOnLoop(
    rd: Readers, records: seq<Option<FileRecord>>, root: nat, visits: seq<Visit>, i: nat, levels: nat, around: nat)
    requires Consistent(rd, records, visits) && AllNamed(records, root, visits) && around > 0
    requires root < |records| && records[root].Some? && Below(visits, root, i, levels)
    ensures !Below(visits, i, i, around)
    decreases levels
  {
    hide Consistent;
    if Below(visits, i, i, around) {
      var p: nat :| ChildOf(visits, p, i) && Below(visits, i, p, around - 1);
      if levels > 0 {
        var q: nat :| ChildOf(visits, q, i) && Below(visits, root, q, levels - 1);
        OneParent(rd, records, visits, p, q, i);
        OneLevelMore(visits, p, i, p, around - 1);
        NotOnLoop(rd, records, root, visits, p, levels - 1, around);
      }
    }
  }

  /** Going up from a record, past some that are below it, without meeting one again, leads to the root. */
  lemma {:induction false} LeadsToRoot(
    rd: Readers, records: seq<Option<FileRecord>>, root: nat, visits: seq<Visit>, i: nat, passed: set<nat>) returns (levels: nat)
    requires Consistent(rd, records, visits) && AllNamed(records, root, visits) && NoLoop(visits)
    requires i < |records| && records[i].Some? && (forall v :: v in passed ==> v < |records| && Under(visits, i, v))
    ensures Below(visits, root, i, levels)
    decreases |records| - |passed|
  {
    hide Consistent, Below;
    AtMost(passed, |records|);
    assert i !in passed;
    if i == root {
      levels := 0;
      Itself(visits, root);
    } else {
      var k :| 0 <= k < |visits| && visits[k].entry.index == i;
      var p := visits[k].dir;
      assert ChildOf(visits, p, i);
      OneParent(rd, records, visits, p, p, i);
      forall v | v in passed + {i}
        ensures Under(visits, p, v)
      {
        PassedOn(visits, p, i, v, v == i);
      }
      AtMost(passed + {i}, |records|);
      var up := LeadsToRoot(rd, records, root, visits, p, passed + {i});
      levels := up + 1;
      ChildBelow(visits, root, p, i, up);
    }
  }

  lemma PassedOn(visits: seq<Visit>, p: nat, i: nat, v: nat, same: bool)
    requires ChildOf(visits, p, i) && if same then v == i else Under(visits, i, v)
    ensures Under(visits, p, v)
  {
    hide ChildOf;
    if same {
      assert Below(visits, i, v, 0);
      OneLevelMore(visits, p, i, v, 0);
    } else {
      var n: nat :| n > 0 && Below(visits, i, v, n);
      OneLevelMore(visits, p, i, v, n);
    }
  }

  lemma Itself(visits: seq<Visit>, d: nat)
    ensures Below(visits, d, d, 0)
  {
  }

  lemma ChildBelow(visits: seq<Visit>, d: nat, p: nat, i: nat, levels: nat)
    requires ChildOf(visits, p, i) && Below(visits, d, p, levels)
    ensures Below(visits, d, i, levels + 1)
  {
  }

  lemma {:induction false} AtMost(numbers: set<nat>, n: nat)
    requires forall v :: v in numbers ==> v < n
    ensures |numbers| <= n
    decreases n
  {
    if n > 0 {
      AtMost(numbers - {n - 1}, n - 1);
    } else {
      assert numbers == {};
    }
  }

  /** A namespace that passes the inspection is a tree below its root if and only if no directory is its own ancestor. */
  lemma TreeExactly(rd: Readers, dev: Device, id: Identity, ids: seq<u64>, records: seq<Option<FileRecord>>, visits: seq<Visit>)
    requires WholeNamespace(rd, dev, id, ids, records, visits)
    ensures Rooted(records, id.root, visits) <==> NoLoop(visits)
  {
    hide Consistent, TableHolds, Apart, Different, Listed, Below, AllNamed;
    if Rooted(records, id.root, visits) {
      forall i: nat
        ensures !Under(visits, i, i)
      {
        if around: nat :| around > 0 && Below(visits, i, i, around) {
          OnLoopIsLive(rd, records, visits, i, around);
          var levels: nat :| Below(visits, id.root, i, levels);
          NotOnLoop(rd, records, id.root, visits, i, levels, around);
        }
      }
    }
    if NoLoop(visits) {
      forall i | 0 <= i < |records| && records[i].Some?
        ensures exists levels: nat :: Below(visits, id.root, i, levels)
      {
        var levels := LeadsToRoot(rd, records, id.root, visits, i, {});
      }
    }
  }

  lemma OnLoopIsLive(rd: Readers, records: seq<Option<FileRecord>>, visits: seq<Visit>, i: nat, around: nat)
    requires Consistent(rd, records, visits) && around > 0 && Below(visits, i, i, around)
    ensures i < |records| && records[i].Some?
  {
    hide Consistent;
    var p: nat :| ChildOf(visits, p, i) && Below(visits, i, p, around - 1);
    OneParent(rd, records, visits, p, p, i);
  }

  // A loop that passes.

  /** A volume of sixteen blocks, with its records in block 1 and three directories in the blocks from 2 on. */
  const LOOPED := Identity(0, 1, 12, 1, 0, 0, 15, UUID, 16, 0, 1, 1, 2, 3, 5, 1, 6, 4, 10, 1, 15, NAME)

  function Folder(number: u64, parent: u64): FileRecord
    requires number <= 3
  {
    FileRecord(number, parent, DIRECTORY, 0, 0, 1, number + 1, [])
  }

  const TO_THIRD := Entry(3, 2, DIRECTORY, 0, [0x61])
  const TO_SECOND := Entry(2, 1, DIRECTORY, 0, [0x61])

  /** The root, which is empty, and two directories that each hold the other. */
  function Folders(): (r: seq<Option<FileRecord>>)
    ensures |r| == 16 && r[0] == Some(Folder(1, 1)) && r[1] == Some(Folder(2, 3)) && r[2] == Some(Folder(3, 2))
    ensures forall i :: 3 <= i < 16 ==> r[i] == None
  {
    [Some(Folder(1, 1)), Some(Folder(2, 3)), Some(Folder(3, 2))] + seq(13, _ => None)
  }

  function Looped(): (dev: Device)
    ensures |dev| == 16 && dev[1] == LoopTable() && dev[2] == BlockOf(1, [])
    ensures dev[3] == BlockOf(2, [TO_THIRD]) && dev[4] == BlockOf(3, [TO_SECOND])
  {
    FourBlocks(LoopTable(), BlockOf(1, []), BlockOf(2, [TO_THIRD]), BlockOf(3, [TO_SECOND]))
  }

  function FourBlocks(a: Block, b: Block, c: Block, d: Block): (dev: Device)
    ensures |dev| == 16 && dev[1] == a && dev[2] == b && dev[3] == c && dev[4] == d
  {
    [ZeroBlock(), a, b, c, d] + Blank(11)
  }

  function LoopTable(): Block {
    ThreeSlots(RecordBytesOf(Folder(1, 1)), RecordBytesOf(Folder(2, 3)), RecordBytesOf(Folder(3, 2)))
  }

  function ThreeSlots(a: RecordBytes, b: RecordBytes, c: RecordBytes): (block: Block)
    ensures block[..256] == a && block[256..512] == b && block[512..768] == c
    ensures forall i :: 768 <= i < 4096 ==> block[i] == 0
  {
    a + b + c + Zeros(3328)
  }

  lemma FolderRead(number: u64, parent: u64)
    requires 1 <= number <= 3
    ensures RecordValid(LOOPED, Folder(number, parent))
    ensures SlotHolds(SimpleReaders(), RecordBytesOf(Folder(number, parent)), Some(Folder(number, parent)))
  {
    hide EncodeRecord, DecodeRecord, AllZero;
    RecordRoundTrip(Folder(number, parent));
  }

  lemma SlotsRead(k: nat)
    requires k < 16
    ensures SlotHolds(SimpleReaders(), Slot([LoopTable()], k), Folders()[k]) && RecordOk(LOOPED, [1], Folders()[k])
  {
    hide ThreeSlots, RecordBytesOf, SlotHolds, RecordValid, SimpleReaders;
    var slot := Slot([LoopTable()], k);
    assert slot == LoopTable()[k * 256..k * 256 + 256];
    if k < 3 {
      FolderRead(k + 1, if k == 0 then 1 else if k == 1 then 3 else 2);
    } else {
      ZeroSlot(slot);
    }
  }

  lemma ZeroSlot(slot: seq<byte>)
    requires forall i :: 0 <= i < |slot| ==> slot[i] == 0
    ensures SlotHolds(SimpleReaders(), slot, None)
  {
  }

  lemma BlockRead(number: u64, entries: seq<Entry>)
    requires 1 <= number && |entries| <= 1 && (entries != [] ==> entries[0] == TO_THIRD || entries[0] == TO_SECOND)
    ensures SimpleReaders().directory(BlockOf(number, entries), number) == Ok(entries)
  {
    hide EncodeDirectory, DecodeDirectory, NameOk;
    AsciiName(0x61);
    DirectoryRoundTrip(number, 1, entries, number);
  }

  lemma OneBlockRead(rd: Readers, dev: Device, r: FileRecord, entries: seq<Entry>)
    requires r.allocatedSize == 0 && r.directoryBlock < |dev| && rd.directory(dev[r.directoryBlock], r.fileId) == Ok(entries)
    ensures ReadEntries(rd, dev, r, 0) == Some(entries)
  {
    assert DirectoryLength(r) == 1 && ReadEntries(rd, dev, r, 1) == Some([]);
    assert entries + [] == entries;
  }

  lemma FolderListed(number: u64, parent: u64, entries: seq<Entry>)
    requires 1 <= number <= 3 && |entries| <= 1 && (entries != [] ==> entries[0] == TO_THIRD || entries[0] == TO_SECOND)
    requires Looped()[number + 1] == BlockOf(number, entries)
    ensures ReadEntries(SimpleReaders(), Looped(), Folder(number, parent), 0) == Some(entries)
  {
    hide Looped, BlockOf, SimpleReaders;
    BlockRead(number, entries);
    OneBlockRead(SimpleReaders(), Looped(), Folder(number, parent), entries);
  }

  lemma {:induction false} NoneListed(rd: Readers, dev: Device, records: seq<Option<FileRecord>>, i: nat)
    requires i <= |records| && forall k :: i <= k < |records| ==> records[k].None?
    ensures Listed(rd, dev, records, i) == Some([])
    decreases |records| - i
  {
    if i < |records| {
      NoneListed(rd, dev, records, i + 1);
    }
  }

  /** The entries of three directories in the first three slots. */
  lemma ThreeListed(
    rd: Readers, dev: Device, records: seq<Option<FileRecord>>, a: seq<Entry>, b: seq<Entry>, c: seq<Entry>)
    requires |records| >= 3 && (forall k :: 3 <= k < |records| ==> records[k].None?)
    requires IsDirectory(records[0]) && ReadEntries(rd, dev, records[0].value, 0) == Some(a)
    requires IsDirectory(records[1]) && ReadEntries(rd, dev, records[1].value, 0) == Some(b)
    requires IsDirectory(records[2]) && ReadEntries(rd, dev, records[2].value, 0) == Some(c)
    ensures Listed(rd, dev, records, 0) == Some(In(0, a) + (In(1, b) + In(2, c)))
  {
    hide ReadEntries;
    NoneListed(rd, dev, records, 3);
    assert In(2, c) + [] == In(2, c);
    assert Listed(rd, dev, records, 2) == Some(In(2, c));
    assert Listed(rd, dev, records, 1) == Some(In(1, b) + In(2, c));
  }

  const AROUND := [Visit(1, TO_THIRD), Visit(2, TO_SECOND)]

  lemma AroundIs()
    ensures In(0, []) + (In(1, [TO_THIRD]) + In(2, [TO_SECOND])) == AROUND
  {
  }

  lemma FoldersListed(dev: Device, first: FileRecord, second: FileRecord, third: FileRecord)
    requires dev == Looped() && first == Folder(1, 1) && second == Folder(2, 3) && third == Folder(3, 2)
    ensures ReadEntries(SimpleReaders(), dev, first, 0) == Some([])
    ensures ReadEntries(SimpleReaders(), dev, second, 0) == Some([TO_THIRD])
    ensures ReadEntries(SimpleReaders(), dev, third, 0) == Some([TO_SECOND])
  {
    hide Looped, SimpleReaders, BlockOf, ReadEntries, LoopTable;
    FolderListed(1, 1, []);
    FolderListed(2, 3, [TO_THIRD]);
    FolderListed(3, 2, [TO_SECOND]);
  }

  lemma AllListed()
    ensures Listed(SimpleReaders(), Looped(), Folders(), 0) == Some(AROUND)
  {
    hide Looped, SimpleReaders, Folders, Listed, BlockOf, ReadEntries, LoopTable, In;
    var r := Folders();
    FoldersListed(Looped(), r[0].value, r[1].value, r[2].value);
    ThreeListed(SimpleReaders(), Looped(), r, [], [TO_THIRD], [TO_SECOND]);
    AroundIs();
  }

  lemma TableRead()
    ensures TableHolds(SimpleReaders(), LOOPED, [1], Part(Looped(), 1, 1), Folders())
  {
    hide SimpleReaders, SlotHolds, RecordOk, Slot, LoopTable, Looped, Folders, BlockOf;
    assert Part(Looped(), 1, 1) == [LoopTable()];
    forall k | 0 <= k < 16
      ensures SlotHolds(SimpleReaders(), Slot([LoopTable()], k), Folders()[k]) && RecordOk(LOOPED, [1], Folders()[k])
    {
      SlotsRead(k);
    }
  }

  lemma AsciiName(b: byte)
    requires 0x61 <= b <= 0x7a
    ensures NameOk([b])
  {
    AsciiStep([b]);
    assert [b][1..] == [];
  }

  lemma {:induction false} NoExtentsOf(records: seq<Option<FileRecord>>)
    requires forall i :: 0 <= i < |records| && records[i].Some? ==> records[i].value.extents == []
    ensures ExtentsOf(records) == []
    decreases |records|
  {
    if records != [] {
      NoExtentsOf(records[..|records| - 1]);
    }
  }

  lemma LoopApart()
    ensures Apart(NoMarks(16), MetadataRanges(LOOPED) + ExtentsOf(Folders()))
  {
    hide Folders, Free;
    NoExtentsOf(Folders());
    var m := MetadataRanges(LOOPED);
    assert m + [] == m;
    forall i | 0 <= i < 7
      ensures Inside(m[i], 16) && Free(NoMarks(16), m[i])
    {
      NothingMarked(16, m[i]);
    }
  }

  lemma LoopConsistent()
    ensures Consistent(SimpleReaders(), Folders(), AROUND) && Different(Folders()) && AllNamed(Folders(), 0, AROUND)
  {
    hide SimpleReaders;
    var v := AROUND;
    assert v[0].entry.index == 2 && v[1].entry.index == 1;
    assert v[0].dir == 1 && v[1].dir == 2;
  }

  lemma GoesAround()
    ensures !NoLoop(AROUND)
  {
    hide Below;
    var v := AROUND;
    assert v[0].dir == 1 && v[0].entry.index == 2 && v[1].dir == 2 && v[1].entry.index == 1;
    assert ChildOf(v, 1, 2) && ChildOf(v, 2, 1);
    Itself(v, 1);
    ChildBelow(v, 1, 1, 2, 0);
    ChildBelow(v, 1, 2, 1, 1);
    assert Under(v, 1, 1);
  }

  /** The inspection passes a volume of which two directories cannot be found from the root. */
  lemma LoopPasses() returns (marks: Marks)
    ensures OwnReaders(SimpleReaders())
    ensures WholeNamespace(SimpleReaders(), Looped(), LOOPED, [1], Folders(), AROUND)
    ensures Recorded(16, marks, MetadataRanges(LOOPED)) && Namespace(SimpleReaders(), Looped(), LOOPED, [1], marks).Ok?
    ensures !Rooted(Folders(), LOOPED.root, AROUND)
  {
    hide Looped, Listed, SimpleReaders, Apart, TableHolds, Part, Consistent, Different, AllNamed, Below, BlockOf, LoopTable, Folders;
    hide ExtentsOf, MetadataRanges, Rooted, NoLoop, Recorded, Namespace;
    AllListed();
    TableRead();
    LoopApart();
    LoopConsistent();
    GoesAround();
    TreeExactly(SimpleReaders(), Looped(), LOOPED, [1], Folders(), AROUND);
    marks := LoopMarks();
    NamespaceExactly(SimpleReaders(), Looped(), LOOPED, [1], marks, Folders(), AROUND);
  }

  lemma LoopMarks() returns (marks: Marks)
    ensures Recorded(16, marks, MetadataRanges(LOOPED))
  {
    hide Apart, MarkAll, Recorded, MetadataRanges, Folders, ExtentsOf;
    var meta := MetadataRanges(LOOPED);
    LoopApart();
    ApartPrefix(16, meta, ExtentsOf(Folders()));
    MarkAllIff(NoMarks(16), meta, 1);
    RecordedNothing(16);
    RecordedExtends(16, NoMarks(16), [], meta, 1);
    assert [] + meta == meta;
    marks := MarkAll(NoMarks(16), meta, 1).value;
  }
}
