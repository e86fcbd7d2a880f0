/**
 * The volume formatter's layout (tools/mkzifs/main.c): where it puts the tables, the directory
 * continuations and the files, and the allocation bitmap it writes for them.
 */
module ZifsFormatter {
  import opened Status
  import opened Unicode
  import opened Layout
  import opened ZifsFormat
  import opened ZifsHome
  import opened ZifsHomeTheorems

  /** A directory of the built-in tree: node 0 is the root. */
  datatype Node = Node(parent: nat, nameSize: nat)

  datatype InputFile = InputFile(parent: nat, nameSize: nat, size: nat)

  const HEADER_SIZE := 64
  const JOURNAL_BLOCKS := 66
  const MAXIMUM_FILES := 64

  // Directory continuations.

  function EntrySize(nameSize: nat): nat { (24 + nameSize + 7) / 8 * 8 }

  datatype Fill = Fill(used: nat, blocks: nat)

  const EMPTY_DIRECTORY := Fill(HEADER_SIZE, 1)

  function AccountEntry(f: Fill, nameSize: nat): Checked<Fill> {
    if nameSize == 0 || nameSize > 255 || f.used < HEADER_SIZE || f.used > BLOCK_SIZE then Err(InvalidArgument)
    else
      var size := EntrySize(nameSize);
      if size > BLOCK_SIZE - f.used then
        if f.blocks == MAX64 then Err(OutOfBounds) else Ok(Fill(HEADER_SIZE + size, f.blocks + 1))
      else Ok(Fill(f.used + size, f.blocks))
  }

  function AccountAll(f: Fill, names: seq<nat>): Checked<Fill>
    decreases |names|
  {
    if names == [] then Ok(f)
    else match AccountEntry(f, names[0])
      case Err(status) => Err(status)
      case Ok(next) => AccountAll(next, names[1..])
  }

  /** The later pass that really appends the entries, moving to the next reserved block when full. */
  function AppendEntry(f: Fill, limit: nat, nameSize: nat): Checked<Fill> {
    var size := EntrySize(nameSize);
    if f.used > BLOCK_SIZE || nameSize == 0 || nameSize > 255 then Err(InvalidArgument)
    else if size <= BLOCK_SIZE - f.used then Ok(Fill(f.used + size, f.blocks))
    else if f.blocks - 1 >= limit then Err(BufferTooSmall)
    else Ok(Fill(HEADER_SIZE + size, f.blocks + 1))
  }

  function AppendAll(f: Fill, limit: nat, names: seq<nat>): Checked<Fill>
    decreases |names|
  {
    if names == [] then Ok(f)
    else match AppendEntry(f, limit, names[0])
      case Err(status) => Err(status)
      case Ok(next) => AppendAll(next, limit, names[1..])
  }

  lemma {:induction false} AccountGrows(f: Fill, names: seq<nat>)
    requires AccountAll(f, names).Ok?
    ensures AccountAll(f, names).value.blocks >= f.blocks
    decreases |names|
  {
    if names != [] {
      AccountGrows(AccountEntry(f, names[0]).value, names[1..]);
    }
  }

  /** The blocks reserved by the accounting pass are exactly those the appending pass fills. */
  lemma {:induction false} ReservedIsEnough(f: Fill, names: seq<nat>)
    requires f.blocks >= 1 && AccountAll(f, names).Ok?
    ensures AccountAll(f, names).value.blocks >= 1
    ensures AppendAll(f, AccountAll(f, names).value.blocks - 1, names) == AccountAll(f, names)
    decreases |names|
  {
    if names != [] {
      var next := AccountEntry(f, names[0]).value;
      AccountGrows(next, names[1..]);
      ReservedIsEnough(next, names[1..]);
    }
  }

  function ChildDirectories(nodes: seq<Node>, parent: nat, i: nat): seq<nat>
    requires i <= |nodes|
    decreases |nodes| - i
  {
    if i == |nodes| then []
    else if i >= 1 && nodes[i].parent == parent then [nodes[i].nameSize] + ChildDirectories(nodes, parent, i + 1)
    else ChildDirectories(nodes, parent, i + 1)
  }

  function ChildFiles(files: seq<InputFile>, parent: nat, i: nat): seq<nat>
    requires i <= |files|
    decreases |files| - i
  {
    if i == |files| then []
    else if files[i].parent == parent then [files[i].nameSize] + ChildFiles(files, parent, i + 1)
    else ChildFiles(files, parent, i + 1)
  }

  function ChildNames(nodes: seq<Node>, files: seq<InputFile>, parent: nat): seq<nat> {
    ChildDirectories(nodes, parent, 0) + ChildFiles(files, parent, 0)
  }

  datatype Placed = Placed(ranges: seq<Range>, next: nat)

  function AssignFrom(nodes: seq<Node>, files: seq<InputFile>, backup: nat, done: Placed): Checked<Placed>
    requires |done.ranges| <= |nodes|
    decreases |nodes| - |done.ranges|
  {
    var i := |done.ranges|;
    if i == |nodes| then Ok(done)
    else match AccountAll(EMPTY_DIRECTORY, ChildNames(nodes, files, i))
      case Err(status) => Err(status)
      case Ok(fill) =>
        if fill.blocks < 1 then Err(InvalidArgument)
        else
          var count := fill.blocks - 1;
          if fill.blocks > 256 || done.next > backup || count > backup - done.next then Err(BufferTooSmall)
          else AssignFrom(nodes, files, backup,
                          Placed(done.ranges + [Range(if count != 0 then done.next else 0, count)], done.next + count))
  }

  // Files.

  function DataBlocks(size: nat): nat { (size + BLOCK_SIZE - 1) / BLOCK_SIZE }

  function PlaceFrom(files: seq<InputFile>, backup: nat, done: Placed): Checked<Placed>
    requires |done.ranges| <= |files|
    decreases |files| - |done.ranges|
  {
    var i := |done.ranges|;
    if i == |files| then Ok(done)
    else
      var count := DataBlocks(files[i].size);
      if done.next > backup || count > backup - done.next then Err(BufferTooSmall)
      else PlaceFrom(files, backup, Placed(done.ranges + [Range(if count == 0 then 0 else done.next, count)], done.next + count))
  }

  function Shifted(r: Range, base: nat): Range { if r.count == 0 then r else Range(r.start + base, r.count) }

  function ShiftAll(ranges: seq<Range>, base: nat): (s: seq<Range>)
    ensures |s| == |ranges|
  {
    seq(|ranges|, i requires 0 <= i < |ranges| => Shifted(ranges[i], base))
  }

  // The whole layout.

  datatype Formatted = Formatted(id: Identity, continuations: seq<Range>, files: seq<Range>)

  const UUID: Uuid := [0x21, 0x5a, 0x69, 0x46, 0x53, 0x00, 0x40, 0x01, 0x80, 0x00, 0x64, 0x96, 0xe6, 0xd1, 0xec, 0xfc]

  const NAME: seq<byte> := [0x5a, 0x69, 0x7a, 0x69, 0x75, 0x6d]

  function RecordBlocks(records: nat): nat { (records + 15) / 16 + 8 }

  /** The size of the volume in blocks, and everything that follows from it and the counts. */
  function Geometry(total: u64, recordBlocks: u64, bitmapBlocks: u64, directoryBlocks: u64): Identity
    requires total >= 1
    requires 1 + recordBlocks + bitmapBlocks + JOURNAL_BLOCKS + 1 + directoryBlocks <= MAX64
  {
    var bitmapStart: int := 1 + recordBlocks;
    var journalStart: int := bitmapStart + bitmapBlocks;
    var securityStart: int := journalStart + JOURNAL_BLOCKS;
    Identity(0, 1, 12, 1, 0, 0, 15, UUID, total, 0, 1, recordBlocks, securityStart + 1, directoryBlocks,
             bitmapStart, bitmapBlocks, journalStart, JOURNAL_BLOCKS, securityStart, 1, total - 1, NAME)
  }

  function Format(sizeMib: nat, nodes: seq<Node>, files: seq<InputFile>): Checked<Formatted>
    requires 8 <= sizeMib <= 2048 && 1 <= |nodes| <= 0xffff && |files| <= MAXIMUM_FILES
  {
    var total := sizeMib * 256;
    var id := Geometry(total, RecordBlocks(|nodes| + |files|), BitmapBlocks(total), |nodes|);
    if id.directoryStart + id.directoryBlocks >= id.backup then Err(BufferTooSmall)
    else match PlaceFrom(files, id.backup, Placed([], 0))
      case Err(status) => Err(status)
      case Ok(data) =>
        match AssignFrom(nodes, files, id.backup, Placed([], id.directoryStart + id.directoryBlocks))
        case Err(status) => Err(status)
        case Ok(continuations) =>
          if continuations.next > id.backup || data.next > id.backup - continuations.next then Err(BufferTooSmall)
          else Ok(Formatted(id, continuations.ranges, ShiftAll(data.ranges, continuations.next)))
  }

  // Everything is apart.

  /** Ranges laid end to end from one block to another, the empty ones taking no room. */
  ghost predicate Chain(ranges: seq<Range>, at: nat, end: nat)
    decreases |ranges|
  {
    if ranges == [] then at == end
    else
      var r := ranges[|ranges| - 1];
      && at + r.count <= end
      && (r.count != 0 ==> r.start == end - r.count)
      && Chain(ranges[..|ranges| - 1], at, end - r.count)
  }

  lemma ChainAppend(ranges: seq<Range>, at: nat, end: nat, r: Range)
    requires Chain(ranges, at, end) && (r.count != 0 ==> r.start == end)
    ensures Chain(ranges + [r], at, end + r.count)
  {
    ChainForward(ranges, at, end);
    assert (ranges + [r])[..|ranges|] == ranges;
  }

  lemma {:induction false} ChainForward(ranges: seq<Range>, at: nat, end: nat)
    requires Chain(ranges, at, end)
    ensures at <= end
    decreases |ranges|
  {
    if ranges != [] {
      ChainForward(ranges[..|ranges| - 1], at, end - ranges[|ranges| - 1].count);
    }
  }

  function NonEmpty(ranges: seq<Range>): seq<Range>
    decreases |ranges|
  {
    if ranges == [] then []
    else NonEmpty(ranges[..|ranges| - 1]) + (if ranges[|ranges| - 1].count != 0 then [ranges[|ranges| - 1]] else [])
  }

  /** Non-empty ranges in ascending order between two blocks. */
  ghost predicate Ascending(ranges: seq<Range>, lo: nat, hi: nat) {
    && (forall i :: 0 <= i < |ranges| ==> ranges[i].count != 0 && lo <= ranges[i].start && ranges[i].start + ranges[i].count <= hi)
    && (forall i, j :: 0 <= i < j < |ranges| ==> ranges[i].start + ranges[i].count <= ranges[j].start)
  }

  lemma {:induction false} ChainAscends(ranges: seq<Range>, at: nat, end: nat)
    requires Chain(ranges, at, end)
    ensures Ascending(NonEmpty(ranges), at, end)
    decreases |ranges|
  {
    if ranges != [] {
      var r := ranges[|ranges| - 1];
      ChainForward(ranges[..|ranges| - 1], at, end - r.count);
      ChainAscends(ranges[..|ranges| - 1], at, end - r.count);
    }
  }

  lemma {:induction false} AssignChains(nodes: seq<Node>, files: seq<InputFile>, backup: nat, done: Placed, first: nat)
    requires |done.ranges| <= |nodes| && Chain(done.ranges, first, done.next)
    requires AssignFrom(nodes, files, backup, done).Ok?
    ensures var p := AssignFrom(nodes, files, backup, done).value;
            && Chain(p.ranges, first, p.next) && |p.ranges| == |nodes| && (done.next <= backup ==> p.next <= backup)
            && (forall i :: 0 <= i < |done.ranges| ==> p.ranges[i] == done.ranges[i])
            && (forall i :: |done.ranges| <= i < |nodes| ==> p.ranges[i].count < 256)
    decreases |nodes| - |done.ranges|
  {
    hide AccountAll, ChildNames, Chain;
    var i := |done.ranges|;
    if i < |nodes| {
      var count := AccountAll(EMPTY_DIRECTORY, ChildNames(nodes, files, i)).value.blocks - 1;
      var r := Range(if count != 0 then done.next else 0, count);
      ChainAppend(done.ranges, first, done.next, r);
      AssignChains(nodes, files, backup, Placed(done.ranges + [r], done.next + count), first);
    }
  }

  lemma {:induction false} PlaceChains(files: seq<InputFile>, backup: nat, done: Placed)
    requires |done.ranges| <= |files| && Chain(done.ranges, 0, done.next)
    requires PlaceFrom(files, backup, done).Ok?
    ensures var p := PlaceFrom(files, backup, done).value;
            && Chain(p.ranges, 0, p.next) && |p.ranges| == |files|
            && (forall i :: 0 <= i < |done.ranges| ==> p.ranges[i] == done.ranges[i])
            && (forall i :: |done.ranges| <= i < |files| ==> p.ranges[i].count == DataBlocks(files[i].size))
    decreases |files| - |done.ranges|
  {
    hide Chain;
    var i := |done.ranges|;
    if i < |files| {
      var count := DataBlocks(files[i].size);
      var r := Range(if count == 0 then 0 else done.next, count);
      ChainAppend(done.ranges, 0, done.next, r);
      PlaceChains(files, backup, Placed(done.ranges + [r], done.next + count));
    }
  }

  lemma {:induction false} ShiftChains(ranges: seq<Range>, at: nat, end: nat, base: nat)
    requires Chain(ranges, at, end)
    ensures Chain(ShiftAll(ranges, base), at + base, end + base)
    decreases |ranges|
  {
    if ranges != [] {
      var front, r := ranges[..|ranges| - 1], ranges[|ranges| - 1];
      ChainForward(front, at, end - r.count);
      ShiftChains(front, at, end - r.count, base);
      assert ShiftAll(ranges, base)[..|ranges| - 1] == ShiftAll(front, base);
    }
  }

  /** The ranges the inspector will mark: the tables, then the extents of directories and files. */
  function Owns(f: Formatted): seq<Range> {
    MetadataRanges(f.id) + (NonEmpty(f.continuations) + NonEmpty(f.files))
  }

  lemma AscendingJoin(a: seq<Range>, b: seq<Range>, lo: nat, mid: nat, hi: nat)
    requires Ascending(a, lo, mid) && Ascending(b, mid, hi) && lo <= mid <= hi
    ensures Ascending(a + b, lo, hi)
  {
  }

  /** The tables of a formatted volume: six below the first free block, the backup above the rest. */
  ghost predicate TablesPlaced(id: Identity, low: nat) {
    && id.recordStart == 1
    && id.bitmapStart == 1 + id.recordBlocks
    && id.journalStart == id.bitmapStart + id.bitmapBlocks
    && id.securityStart == id.journalStart + id.journalBlocks
    && id.directoryStart == id.securityStart + id.securityBlocks
    && low == id.directoryStart + id.directoryBlocks
    && low < id.backup == id.total - 1
    && id.recordBlocks > 0 && id.bitmapBlocks > 0 && id.journalBlocks > 0 && id.securityBlocks > 0 && id.directoryBlocks > 0
  }

  lemma TablesApart(id: Identity, low: nat)
    requires TablesPlaced(id, low)
    ensures var m := MetadataRanges(id);
            && (forall i :: 0 <= i < 7 ==> Inside(m[i], id.total) && (m[i].start + m[i].count <= low || m[i].start == id.backup))
            && (forall i, j :: 0 <= i < j < 7 ==> !Overlap(m[i], m[j]))
  {
  }

  /** Ascending ranges between the tables and the backup are apart from both and from each other. */
  lemma AllApart(id: Identity, low: nat, extents: seq<Range>)
    requires TablesPlaced(id, low) && Ascending(extents, low, id.backup)
    ensures Apart(NoMarks(id.total), MetadataRanges(id) + extents)
  {
    hide MetadataRanges;
    TablesApart(id, low);
    var m := MetadataRanges(id);
    var all := m + extents;
    forall i | 0 <= i < |all|
      ensures Inside(all[i], id.total) && Free(NoMarks(id.total), all[i])
    {
      if i >= 7 {
        assert all[i] == extents[i - 7];
      }
      NothingMarked(id.total, all[i]);
    }
    forall i, j | 0 <= i < j < |all|
      ensures !Overlap(all[i], all[j])
    {
      if j >= 7 {
        assert all[j] == extents[j - 7];
        if i >= 7 {
          assert all[i] == extents[i - 7];
        }
      }
    }
  }

  lemma FormatPlaces(sizeMib: nat, nodes: seq<Node>, files: seq<InputFile>)
    requires 8 <= sizeMib <= 2048 && 1 <= |nodes| <= 0xffff && |files| <= MAXIMUM_FILES
    requires Format(sizeMib, nodes, files).Ok?
    ensures var f := Format(sizeMib, nodes, files).value;
            && TablesPlaced(f.id, f.id.directoryStart + f.id.directoryBlocks)
            && Ascending(NonEmpty(f.continuations) + NonEmpty(f.files), f.id.directoryStart + f.id.directoryBlocks, f.id.backup)
            && |f.continuations| == |nodes| && |f.files| == |files|
            && f.id.total == sizeMib * 256 && f.id.bitmapBlocks == BitmapBlocks(f.id.total)
            && f.id.recordBlocks * 16 >= |nodes| + |files|
  {
    hide AssignFrom, PlaceFrom, Chain, NonEmpty, Ascending, ShiftAll;
    var f := Format(sizeMib, nodes, files).value;
    var low := f.id.directoryStart + f.id.directoryBlocks;
    var data := PlaceFrom(files, f.id.backup, Placed([], 0)).value;
    var continuations := AssignFrom(nodes, files, f.id.backup, Placed([], low)).value;
    ChainNothing(0);
    ChainNothing(low);
    PlaceChains(files, f.id.backup, Placed([], 0));
    AssignChains(nodes, files, f.id.backup, Placed([], low), low);
    ShiftChains(data.ranges, 0, data.next, continuations.next);
    ChainForward(continuations.ranges, low, continuations.next);
    ChainForward(data.ranges, 0, data.next);
    ChainAscends(f.continuations, low, continuations.next);
    ChainAscends(f.files, continuations.next, continuations.next + data.next);
    AscendsBelow(NonEmpty(f.files), continuations.next, continuations.next + data.next, f.id.backup);
    AscendingJoin(NonEmpty(f.continuations), NonEmpty(f.files), low, continuations.next, f.id.backup);
  }

  lemma ChainNothing(at: nat)
    ensures Chain([], at, at)
  {
  }

  lemma AscendsBelow(ranges: seq<Range>, lo: nat, hi: nat, limit: nat)
    requires Ascending(ranges, lo, hi) && hi <= limit
    ensures Ascending(ranges, lo, limit)
  {
  }

  /**
   * For every accepted size and file list, the formatter's tables, directory continuations and
   * files lie inside the volume, share no block, and all but the backup end before the backup.
   */
  lemma FormatIsApart(sizeMib: nat, nodes: seq<Node>, files: seq<InputFile>)
    requires 8 <= sizeMib <= 2048 && 1 <= |nodes| <= 0xffff && |files| <= MAXIMUM_FILES
    requires Format(sizeMib, nodes, files).Ok?
    ensures var f := Format(sizeMib, nodes, files).value;
            && Apart(NoMarks(f.id.total), Owns(f))
            && forall i :: 0 <= i < |Owns(f)| && i != 6 ==> Owns(f)[i].start + Owns(f)[i].count <= f.id.backup
  {
    hide Format, NonEmpty, Overlap, Free;
    FormatPlaces(sizeMib, nodes, files);
    var f := Format(sizeMib, nodes, files).value;
    var low := f.id.directoryStart + f.id.directoryBlocks;
    AllApart(f.id, low, NonEmpty(f.continuations) + NonEmpty(f.files));
    EndsBelow(f.id, low, NonEmpty(f.continuations) + NonEmpty(f.files));
  }

  lemma EndsBelow(id: Identity, low: nat, extents: seq<Range>)
    requires TablesPlaced(id, low) && Ascending(extents, low, id.backup)
    ensures var all := MetadataRanges(id) + extents;
            forall i :: 0 <= i < |all| && i != 6 ==> all[i].start + all[i].count <= id.backup
  {
    var all := MetadataRanges(id) + extents;
    forall i | 0 <= i < |all| && i != 6
      ensures all[i].start + all[i].count <= id.backup
    {
      if i >= 7 {
        assert all[i] == extents[i - 7];
      }
    }
  }

  lemma PlacedTablesValid(id: Identity, low: nat)
    requires TablesPlaced(id, low)
    ensures TablesDisjoint(id)
  {
    TablesApart(id, low);
    var t, m := Tables(id), MetadataRanges(id);
    assert t == [m[1], m[2], m[3], m[4], m[5]];
    forall i | 0 <= i < 5
      ensures !Overlap(t[i], Range(0, 1)) && !Overlap(t[i], Range(id.backup, 1))
    {
      assert t[i] == m[i + 1];
      assert !Overlap(m[0], m[i + 1]) && !Overlap(m[i + 1], m[6]);
    }
    forall i, j | 0 <= i < j < 5
      ensures !Overlap(t[i], t[j])
    {
      assert t[i] == m[i + 1] && t[j] == m[j + 1];
    }
  }

  /** The superblock the formatter writes is one that every decoder accepts. */
  lemma FormatDecodes(sizeMib: nat, nodes: seq<Node>, files: seq<InputFile>)
    requires 8 <= sizeMib <= 2048 && 1 <= |nodes| <= 0xffff && |files| <= MAXIMUM_FILES
    requires Format(sizeMib, nodes, files).Ok?
    ensures Decodable(Superblock(Format(sizeMib, nodes, files).value.id, 1, 0, STATE_NONE))
  {
    hide Format, NonEmpty, Ascending, Decodable;
    FormatPlaces(sizeMib, nodes, files);
    FormatConstants(sizeMib, nodes, files);
    var id := Format(sizeMib, nodes, files).value.id;
    IdentityDecodes(id, id.directoryStart + id.directoryBlocks);
  }

  /** The fields that do not depend on the input. */
  ghost predicate Constants(id: Identity) {
    && FormatKnown(id) && id.incompatible == 15 && id.name == NAME && id.root == 0
    && id.securityBlocks == 1 && id.journalBlocks == JOURNAL_BLOCKS && id.recordBlocks <= 0x1_0000
  }

  lemma FormatConstants(sizeMib: nat, nodes: seq<Node>, files: seq<InputFile>)
    requires 8 <= sizeMib <= 2048 && 1 <= |nodes| <= 0xffff && |files| <= MAXIMUM_FILES
    requires Format(sizeMib, nodes, files).Ok?
    ensures Constants(Format(sizeMib, nodes, files).value.id)
  {
    hide AssignFrom, PlaceFrom;
  }

  lemma IdentityDecodes(id: Identity, low: nat)
    requires TablesPlaced(id, low) && Constants(id) && id.bitmapBlocks == BitmapBlocks(id.total)
    ensures Decodable(Superblock(id, 1, 0, STATE_NONE))
  {
    hide TablesDisjoint, Valid;
    PlacedTablesValid(id, low);
    NameValid();
    FeatureBits();
    assert SizesValid(id) by { hide Valid; }
  }

  lemma FeatureBits()
    ensures HasBit(15, 1) && HasBit(15, 2) && HasBit(15, 4) && HasBit(15, 8)
  {
  }

  lemma NameValid()
    ensures Valid(NAME)
  {
    var n := NAME;
    AsciiStep(n);
    AsciiStep(n[1..]);
    AsciiStep(n[1..][1..]);
    AsciiStep(n[1..][1..][1..]);
    AsciiStep(n[1..][1..][1..][1..]);
    AsciiStep(n[1..][1..][1..][1..][1..]);
    assert n[1..][1..][1..][1..][1..][1..] == [];
  }

  lemma AsciiStep(s: seq<byte>)
    requires s != [] && s[0] <= 0x7f
    ensures Valid(s[1..]) ==> Valid(s)
  {
  }

  lemma {:induction false} ChainInside(ranges: seq<Range>, at: nat, end: nat, i: nat)
    requires Chain(ranges, at, end) && i < |ranges| && ranges[i].count != 0
    ensures at <= ranges[i].start && ranges[i].start + ranges[i].count <= end
    decreases |ranges|
  {
    var front, r := ranges[..|ranges| - 1], ranges[|ranges| - 1];
    ChainForward(front, at, end - r.count);
    if i < |ranges| - 1 {
      assert front[i] == ranges[i];
      ChainInside(front, at, end - r.count, i);
    }
  }

  /** Each continuation and file range is empty or lies between the tables and the backup. */
  lemma FormatInside(sizeMib: nat, nodes: seq<Node>, files: seq<InputFile>)
    requires 8 <= sizeMib <= 2048 && 1 <= |nodes| <= 0xffff && |files| <= MAXIMUM_FILES
    requires Format(sizeMib, nodes, files).Ok?
    ensures var f := Format(sizeMib, nodes, files).value;
            var low := f.id.directoryStart + f.id.directoryBlocks;
            && |f.continuations| == |nodes| && |f.files| == |files|
            && (forall i :: 0 <= i < |nodes| ==> f.continuations[i].count < 256 && Between(f.continuations[i], low, f.id.backup))
            && (forall i :: 0 <= i < |files| ==> f.files[i].count == DataBlocks(files[i].size) && Between(f.files[i], low, f.id.backup))
  {
    hide AssignFrom, PlaceFrom, Chain;
    var f := Format(sizeMib, nodes, files).value;
    var low := f.id.directoryStart + f.id.directoryBlocks;
    var data := PlaceFrom(files, f.id.backup, Placed([], 0)).value;
    var continuations := AssignFrom(nodes, files, f.id.backup, Placed([], low)).value;
    ChainNothing(0);
    ChainNothing(low);
    PlaceChains(files, f.id.backup, Placed([], 0));
    AssignChains(nodes, files, f.id.backup, Placed([], low), low);
    ChainForward(continuations.ranges, low, continuations.next);
    forall i | 0 <= i < |nodes|
      ensures Between(f.continuations[i], low, f.id.backup)
    {
      if f.continuations[i].count != 0 {
        ChainInside(f.continuations, low, continuations.next, i);
      }
    }
    forall i | 0 <= i < |files|
      ensures Between(f.files[i], low, f.id.backup)
    {
      if data.ranges[i].count != 0 {
        ChainInside(data.ranges, 0, data.next, i);
      }
    }
  }

  /** An empty range or one between two blocks. */
  ghost predicate Between(r: Range, lo: nat, hi: nat) {
    r.count != 0 ==> lo <= r.start && r.start + r.count <= hi
  }

  lemma BetweenIsValid(id: Identity, low: nat, e: Extent)
    requires TablesPlaced(id, low) && low <= e.physical && e.physical + e.count <= id.backup
    ensures ExtentValid(id, e)
  {
    TablesApart(id, low);
    hide MetadataRanges;
  }

  // The records.

  function ExtentOf(logical: u64, r: Range): seq<Extent>
    requires r.count != 0 ==> r.start + r.count <= MAX64
  {
    if r.count == 0 then [] else [Extent(logical, r.start, r.count)]
  }

  /** The record written for a directory. */
  function DirectoryRecord(id: Identity, nodes: seq<Node>, c: Range, i: nat, securityId: u64): FileRecord
    requires i < |nodes| <= 0xffff && nodes[i].parent < |nodes|
    requires c.count < 256 && (c.count != 0 ==> c.start + c.count <= MAX64)
    requires id.directoryStart + i <= MAX64
  {
    FileRecord(i + 1, nodes[i].parent + 1, DIRECTORY, 0, c.count * BLOCK_SIZE, securityId, id.directoryStart + i, ExtentOf(1, c))
  }

  /** The record written for a file. */
  function RegularRecord(nodes: seq<Node>, files: seq<InputFile>, r: Range, i: nat, securityId: u64): FileRecord
    requires i < |files| <= MAXIMUM_FILES && |nodes| <= 0xffff && files[i].parent < |nodes|
    requires r.count <= 0x8_0000 && (r.count != 0 ==> r.start + r.count <= MAX64) && files[i].size <= MAX64
  {
    FileRecord(|nodes| + i + 1, files[i].parent + 1, REGULAR, files[i].size, r.count * BLOCK_SIZE, securityId, 0, ExtentOf(0, r))
  }

  lemma OneExtent(e: Extent)
    ensures ExtentBlocks([e]) == e.count
    ensures Contiguous([e], e.logical) <==> e.count != 0 && e.logical + e.count <= MAX64
  {
    assert [e][1..] == [];
  }

  lemma DirectoryRecordValid(id: Identity, nodes: seq<Node>, c: Range, i: nat, securityId: u64, low: nat)
    requires TablesPlaced(id, low) && Constants(id) && id.directoryBlocks == |nodes|
    requires i < |nodes| <= 0xffff && nodes[i].parent < |nodes| && securityId != 0
    requires c.count < 256 && Between(c, low, id.backup)
    ensures RecordValid(id, DirectoryRecord(id, nodes, c, i, securityId))
  {
    hide Contiguous, ExtentBlocks, ExtentValid;
    FeatureBits();
    if c.count == 0 {
      NoExtents(1);
    } else {
      var e := Extent(1, c.start, c.count);
      OneExtent(e);
      BetweenIsValid(id, low, e);
    }
  }

  lemma NoExtents(first: nat)
    ensures Contiguous([], first) && ExtentBlocks([]) == 0
  {
  }

  lemma RegularRecordValid(id: Identity, nodes: seq<Node>, files: seq<InputFile>, r: Range, i: nat, securityId: u64, low: nat)
    requires TablesPlaced(id, low) && id.total <= 0x8_0000
    requires i < |files| <= MAXIMUM_FILES && |nodes| <= 0xffff && files[i].parent < |nodes| && securityId != 0
    requires r.count == DataBlocks(files[i].size) && Between(r, low, id.backup) && files[i].size <= MAX64
    ensures r.count <= 0x8_0000 && RecordValid(id, RegularRecord(nodes, files, r, i, securityId))
  {
    hide Contiguous, ExtentBlocks, ExtentValid;
    if r.count != 0 {
      var e := Extent(0, r.start, r.count);
      OneExtent(e);
      BetweenIsValid(id, low, e);
    }
  }

  // The bitmap.

  /** The value of a byte with one bit set. */
  function SetNumberBit(v: nat, k: nat): nat {
    if k == 0 then (if v % 2 == 1 then v else v + 1) else 2 * SetNumberBit(v / 2, k - 1) + v % 2
  }

  lemma {:induction false} SetNumberBitBound(v: nat, k: nat, bits: nat)
    requires k < bits && v < Exp2(bits)
    ensures SetNumberBit(v, k) < Exp2(bits)
  {
    if k > 0 {
      SetNumberBitBound(v / 2, k - 1, bits - 1);
    }
  }

  function Exp2(n: nat): nat { if n == 0 then 1 else 2 * Exp2(n - 1) }

  lemma {:induction false} SetNumberBitBits(v: nat, k: nat, j: nat)
    ensures NumberBit(SetNumberBit(v, k), j) <==> NumberBit(v, j) || j == k
    decreases k
  {
    if k > 0 && j > 0 {
      SetNumberBitBits(v / 2, k - 1, j - 1);
    } else if k == 0 && j > 0 {
      assert (if v % 2 == 1 then v else v + 1) / 2 == v / 2;
    }
  }

  function SetByteBit(b: byte, k: nat): byte
    requires k < 8
  {
    assert Exp2(8) == 256 by { assert Exp2(4) == 16; assert Exp2(6) == 64; }
    SetNumberBitBound(b, k, 8);
    SetNumberBit(b, k)
  }

  predicate FlatBit(bytes: seq<byte>, n: nat)
    requires n / 8 < |bytes|
  {
    NumberBit(bytes[n / 8], n % 8)
  }

  /** Sets one bit; the other bits keep their value. */
  method SetBit(bitmap: array<byte>, n: nat) returns (status: Status)
    modifies bitmap
    ensures n / 8 >= bitmap.Length ==> status == InvalidArgument && bitmap[..] == old(bitmap[..])
    ensures n / 8 < bitmap.Length ==>
      && status == Success
      && forall m: nat :: m / 8 < bitmap.Length ==> (FlatBit(bitmap[..], m) <==> old(FlatBit(bitmap[..], m)) || m == n)
  {
    if n / 8 >= bitmap.Length {
      return InvalidArgument;
    }
    ghost var was := bitmap[..];
    bitmap[n / 8] := SetByteBit(bitmap[n / 8], n % 8);
    forall m: nat | m / 8 < bitmap.Length
      ensures FlatBit(bitmap[..], m) <==> FlatBit(was, m) || m == n
    {
      if m / 8 == n / 8 {
        SetNumberBitBits(was[n / 8], n % 8, m % 8);
      }
    }
    status := Success;
  }

  /** Whether a bitmap of this many bytes can hold the bits of a range. */
  predicate Representable(size: nat, r: Range) {
    size != 0 && r.start + r.count <= MAX64 && (r.count == 0 || r.start + r.count <= 8 * size)
  }

  /** Marks one range; it is refused exactly when some of its bits have no place in the bitmap. */
  method MarkExtent(bitmap: array<byte>, r: Range) returns (status: Status)
    modifies bitmap
    ensures status == if Representable(bitmap.Length, r) then Success else InvalidArgument
    ensures status == Success ==>
      forall m: nat :: m / 8 < bitmap.Length ==> (FlatBit(bitmap[..], m) <==> old(FlatBit(bitmap[..], m)) || r.Has(m))
  {
    hide FlatBit;
    if bitmap.Length == 0 || r.start > MAX64 - r.count {
      return InvalidArgument;
    }
    var offset := 0;
    while offset < r.count
      invariant offset <= r.count
      invariant offset == 0 || r.start + offset <= 8 * bitmap.Length
      invariant forall m: nat :: m / 8 < bitmap.Length ==>
        (FlatBit(bitmap[..], m) <==> old(FlatBit(bitmap[..], m)) || r.start <= m < r.start + offset)
    {
      status := SetBit(bitmap, r.start + offset);
      if status.Failed() {
        return;
      }
      offset := offset + 1;
    }
    status := Success;
  }

  /** The number that bits k to 7 of a byte make, a bit being set if its block is in a range. */
  ghost function BitsFrom(ranges: seq<Range>, j: nat, k: nat): (v: nat)
    requires k <= 8
    ensures v < Exp2(8 - k)
    decreases 8 - k
  {
    if k == 8 then 0 else (if Owned(ranges, 8 * j + k) then 1 else 0) + 2 * BitsFrom(ranges, j, k + 1)
  }

  ghost function BitmapByte(ranges: seq<Range>, j: nat): byte {
    assert Exp2(8) == 256 by { assert Exp2(4) == 16; assert Exp2(6) == 64; }
    BitsFrom(ranges, j, 0)
  }

  /** The bitmap of some ranges. */
  ghost function BitmapOf(size: nat, ranges: seq<Range>): (bytes: seq<byte>)
    ensures |bytes| == size
  {
    seq(size, j requires 0 <= j => BitmapByte(ranges, j))
  }

  lemma {:induction false} BitsFromBit(ranges: seq<Range>, j: nat, k: nat, i: nat)
    requires k + i < 8
    ensures NumberBit(BitsFrom(ranges, j, k), i) <==> Owned(ranges, 8 * j + (k + i))
    decreases i
  {
    hide Owned;
    if i > 0 {
      BitsFromBit(ranges, j, k + 1, i - 1);
      assert BitsFrom(ranges, j, k) / 2 == BitsFrom(ranges, j, k + 1);
    }
  }

  lemma BitmapBit(size: nat, ranges: seq<Range>, m: nat)
    requires m / 8 < size
    ensures FlatBit(BitmapOf(size, ranges), m) <==> Owned(ranges, m)
  {
    hide Owned, BitsFrom, NumberBit;
    BitsFromBit(ranges, m / 8, 0, m % 8);
    assert 8 * (m / 8) + (0 + m % 8) == m;
  }

  lemma {:induction false} SameBits(v: nat, w: nat, bits: nat)
    requires v < Exp2(bits) && w < Exp2(bits) && forall k: nat :: k < bits ==> (NumberBit(v, k) <==> NumberBit(w, k))
    ensures v == w
    decreases bits
  {
    if bits > 0 {
      assert NumberBit(v, 0) <==> NumberBit(w, 0);
      forall k: nat | k < bits - 1
        ensures NumberBit(v / 2, k) <==> NumberBit(w / 2, k)
      {
        assert NumberBit(v, k + 1) <==> NumberBit(w, k + 1);
      }
      SameBits(v / 2, w / 2, bits - 1);
    }
  }

  /** A bitmap is determined by its bits. */
  lemma BitmapIs(bytes: seq<byte>, ranges: seq<Range>)
    requires forall m: nat :: m / 8 < |bytes| ==> (FlatBit(bytes, m) <==> Owned(ranges, m))
    ensures bytes == BitmapOf(|bytes|, ranges)
  {
    hide Owned, NumberBit, BitmapOf;
    var other := BitmapOf(|bytes|, ranges);
    assert Exp2(8) == 256 by { assert Exp2(4) == 16; assert Exp2(6) == 64; }
    forall j | 0 <= j < |bytes|
      ensures bytes[j] == other[j]
    {
      forall k: nat | k < 8
        ensures NumberBit(bytes[j], k) <==> NumberBit(other[j], k)
      {
        var m := 8 * j + k;
        assert m / 8 == j && m % 8 == k;
        BitmapBit(|bytes|, ranges, m);
        assert FlatBit(bytes, m) <==> Owned(ranges, m);
      }
      SameBits(bytes[j], other[j], 8);
    }
  }

  /** Marks ranges one after another in a cleared bitmap. */
  method BuildBitmap(bitmap: array<byte>, ranges: seq<Range>) returns (status: Status)
    modifies bitmap
    ensures status == if forall i :: 0 <= i < |ranges| ==> Representable(bitmap.Length, ranges[i]) then Success else InvalidArgument
    ensures status == Success ==> forall m: nat :: m / 8 < bitmap.Length ==> (FlatBit(bitmap[..], m) <==> Owned(ranges, m))
    ensures status == Success ==> bitmap[..] == BitmapOf(bitmap.Length, ranges)
  {
    hide FlatBit, Representable, Owned, BitmapOf;
    ClearBitmap(bitmap);
    OwnedNone();
    status := Success;
    var index := 0;
    while index < |ranges|
      invariant index <= |ranges| && status == Success
      invariant forall i :: 0 <= i < index ==> Representable(bitmap.Length, ranges[i])
      invariant forall m: nat :: m / 8 < bitmap.Length ==> (FlatBit(bitmap[..], m) <==> Owned(ranges[..index], m))
    {
      status := MarkExtent(bitmap, ranges[index]);
      if status.Failed() {
        return;
      }
      forall m: nat
        ensures Owned(ranges[..index + 1], m) <==> Owned(ranges[..index], m) || ranges[index].Has(m)
      {
        OwnedLast(ranges, index, m);
      }
      index := index + 1;
    }
    assert ranges[..index] == ranges;
    BitmapIs(bitmap[..], ranges);
  }

  lemma OwnedNone()
    ensures forall m: int :: !Owned([], m)
  {
  }

  lemma OwnedLast(ranges: seq<Range>, k: nat, m: nat)
    requires k < |ranges|
    ensures Owned(ranges[..k + 1], m) <==> Owned(ranges[..k], m) || ranges[k].Has(m)
  {
    assert ranges[..k + 1] == ranges[..k] + [ranges[k]];
    OwnedConcat(ranges[..k], [ranges[k]], m);
    assert [ranges[k]][0].Has(m) <==> ranges[k].Has(m);
  }

  method ClearBitmap(bitmap: array<byte>)
    modifies bitmap
    ensures forall m: nat :: m / 8 < bitmap.Length ==> !FlatBit(bitmap[..], m)
  {
    var i := 0;
    while i < bitmap.Length
      invariant i <= bitmap.Length
      invariant forall k :: 0 <= k < i ==> bitmap[k] == 0
    {
      bitmap[i] := 0;
      i := i + 1;
    }
    forall m: nat | m / 8 < bitmap.Length
      ensures !FlatBit(bitmap[..], m)
    {
      ZeroBits(m % 8);
    }
  }

  lemma {:induction false} ZeroBits(k: nat)
    ensures !NumberBit(0, k)
  {
    if k > 0 {
      ZeroBits(k - 1);
    }
  }

  /** What the formatter marks, in its own order; files without data add nothing. */
  function Marked(f: Formatted): seq<Range> {
    var m := MetadataRanges(f.id);
    [m[0], m[1], m[3], m[4], m[5], m[2]] + (NonEmpty(f.continuations) + (f.files + [m[6]]))
  }

  lemma {:induction false} OwnedNonEmpty(ranges: seq<Range>, b: int)
    ensures Owned(NonEmpty(ranges), b) <==> Owned(ranges, b)
    decreases |ranges|
  {
    hide Owned;
    if ranges != [] {
      var k := |ranges| - 1;
      var last := if ranges[k].count != 0 then [ranges[k]] else [];
      OwnedNonEmpty(ranges[..k], b);
      OwnedConcat(NonEmpty(ranges[..k]), last, b);
      OwnedConcat(ranges[..k], [ranges[k]], b);
      assert ranges[..k] + [ranges[k]] == ranges;
      OwnedOne(ranges[k], b);
    }
  }

  lemma OwnedOne(r: Range, b: int)
    ensures Owned([r], b) <==> r.Has(b)
    ensures Owned(if r.count != 0 then [r] else [], b) <==> r.Has(b)
  {
    assert [r][0] == r;
  }

  /** The formatter marks exactly the blocks the inspector expects. */
  lemma MarkedIsOwned(f: Formatted, b: int)
    ensures Owned(Marked(f), b) <==> Owned(Owns(f), b)
  {
    hide Owned, NonEmpty;
    var m := MetadataRanges(f.id);
    var tables := [m[0], m[1], m[3], m[4], m[5], m[2]];
    OwnedConcat(tables, NonEmpty(f.continuations) + (f.files + [m[6]]), b);
    OwnedConcat(NonEmpty(f.continuations), f.files + [m[6]], b);
    OwnedConcat(f.files, [m[6]], b);
    OwnedConcat(m, NonEmpty(f.continuations) + NonEmpty(f.files), b);
    OwnedConcat(NonEmpty(f.continuations), NonEmpty(f.files), b);
    OwnedNonEmpty(f.files, b);
    TablesOwned(f.id, b);
  }

  lemma TablesOwned(id: Identity, b: int)
    ensures var m := MetadataRanges(id);
            Owned(m, b) <==> Owned([m[0], m[1], m[3], m[4], m[5], m[2]], b) || Owned([m[6]], b)
  {
    var m := MetadataRanges(id);
    var t := [m[0], m[1], m[3], m[4], m[5], m[2]];
    assert t[0] == m[0] && t[1] == m[1] && t[2] == m[3] && t[3] == m[4] && t[4] == m[5] && t[5] == m[2] && [m[6]][0] == m[6];
  }

  /** The blocks in which a bitmap of this many bytes is written. */
  function Chunks(bytes: seq<byte>, blocks: nat): (r: seq<Block>)
    requires |bytes| == blocks * BLOCK_SIZE
    ensures |r| == blocks
  {
    seq(blocks, j requires 0 <= j < blocks => Chunk(bytes, blocks, j))
  }

  function Chunk(bytes: seq<byte>, blocks: nat, j: nat): Block
    requires |bytes| == blocks * BLOCK_SIZE && j < blocks
  {
    bytes[j * BLOCK_SIZE..j * BLOCK_SIZE + BLOCK_SIZE]
  }

  lemma ChunkBits(bytes: seq<byte>, blocks: nat, n: nat)
    requires |bytes| == blocks * BLOCK_SIZE && n < blocks * BLOCK_SIZE * 8
    ensures BitOf(Chunks(bytes, blocks), n) <==> FlatBit(bytes, n)
  {
    hide NumberBit;
    var q, r := n / 8 / BLOCK_SIZE, n / 8 % BLOCK_SIZE;
    assert Chunks(bytes, blocks)[q] == Chunk(bytes, blocks, q);
    assert Chunk(bytes, blocks, q)[r] == bytes[q * BLOCK_SIZE + r];
  }

  /**
   * The bitmap the formatter writes makes the inspector's allocation check succeed, on any device
   * that holds it and for any marks that record the formatter's own ranges.
   */
  lemma FormatPassesAllocation(sizeMib: nat, nodes: seq<Node>, files: seq<InputFile>, dev: Device, bytes: seq<byte>, marks: Marks)
    requires 8 <= sizeMib <= 2048 && 1 <= |nodes| <= 0xffff && |files| <= MAXIMUM_FILES
    requires Format(sizeMib, nodes, files).Ok?
    requires var f := Format(sizeMib, nodes, files).value;
             && |bytes| == f.id.bitmapBlocks * BLOCK_SIZE
             && (forall m: nat :: m / 8 < |bytes| ==> (FlatBit(bytes, m) <==> Owned(Marked(f), m)))
             && Part(dev, f.id.bitmapStart, f.id.bitmapBlocks) == Chunks(bytes, f.id.bitmapBlocks)
             && Recorded(f.id.total, marks, Owns(f))
    ensures Allocation(dev, Format(sizeMib, nodes, files).value.id, marks) == Success
  {
    hide Format, Part, Chunks, FlatBit, BitOf, Owned, Marked, Owns, Ascending, NonEmpty, Apart;
    var f := Format(sizeMib, nodes, files).value;
    FormatPlaces(sizeMib, nodes, files);
    FormatIsApart(sizeMib, nodes, files);
    var bitmap := Part(dev, f.id.bitmapStart, f.id.bitmapBlocks);
    forall b | 0 <= b < |bitmap| * BLOCK_SIZE * 8
      ensures BitOf(bitmap, b) <==> b < |marks| && marks[b] != 0
    {
      ChunkBits(bytes, f.id.bitmapBlocks, b);
      MarkedIsOwned(f, b);
      OwnedInside(f.id.total, Owns(f), b);
    }
  }

  lemma OwnedInside(total: nat, ranges: seq<Range>, b: int)
    requires Apart(NoMarks(total), ranges)
    ensures Owned(ranges, b) ==> 0 <= b < total
  {
    hide Overlap;
  }

  // The formatter's loops.

  function AccountThen(c: Checked<Fill>, names: seq<nat>): Checked<Fill> {
    if c.Err? then c else AccountAll(c.value, names)
  }

  lemma {:induction false} AccountConcat(f: Fill, a: seq<nat>, b: seq<nat>)
    ensures AccountAll(f, a + b) == AccountThen(AccountAll(f, a), b)
    decreases |a|
  {
    hide AccountEntry;
    if a == [] {
      assert a + b == b;
    } else {
      assert (a + b)[1..] == a[1..] + b;
      if AccountEntry(f, a[0]).Ok? {
        AccountConcat(AccountEntry(f, a[0]).value, a[1..], b);
      }
    }
  }

  lemma AccountFirst(f: Fill, name: nat, rest: seq<nat>)
    ensures AccountAll(f, [name] + rest) == AccountThen(AccountEntry(f, name), rest)
  {
    hide AccountEntry;
    assert ([name] + rest)[1..] == rest;
  }

  method AccountDirectories(nodes: seq<Node>, parent: nat, start: Fill) returns (r: Checked<Fill>)
    ensures r == AccountAll(start, ChildDirectories(nodes, parent, 0))
  {
    hide AccountEntry, AccountAll;
    var fill := start;
    if |nodes| > 0 {
      var child := 1;
      while child < |nodes|
        invariant 1 <= child <= |nodes|
        invariant AccountAll(fill, ChildDirectories(nodes, parent, child)) == AccountAll(start, ChildDirectories(nodes, parent, 0))
      {
        if nodes[child].parent == parent {
          AccountFirst(fill, nodes[child].nameSize, ChildDirectories(nodes, parent, child + 1));
          var next := AccountEntry(fill, nodes[child].nameSize);
          if next.Err? {
            return next;
          }
          fill := next.value;
        }
        child := child + 1;
      }
    }
    AccountNothing(fill);
    return Ok(fill);
  }

  lemma AccountNothing(f: Fill)
    ensures AccountAll(f, []) == Ok(f)
  {
  }

  method AccountFiles(files: seq<InputFile>, parent: nat, start: Fill) returns (r: Checked<Fill>)
    ensures r == AccountAll(start, ChildFiles(files, parent, 0))
  {
    hide AccountEntry, AccountAll;
    var fill := start;
    var index := 0;
    while index < |files|
      invariant index <= |files|
      invariant AccountAll(fill, ChildFiles(files, parent, index)) == AccountAll(start, ChildFiles(files, parent, 0))
    {
      if files[index].parent == parent {
        AccountFirst(fill, files[index].nameSize, ChildFiles(files, parent, index + 1));
        var next := AccountEntry(fill, files[index].nameSize);
        if next.Err? {
          return next;
        }
        fill := next.value;
      }
      index := index + 1;
    }
    AccountNothing(fill);
    return Ok(fill);
  }

  /** Reserves the continuation blocks of every directory, one directory after another. */
  method AssignContinuations(nodes: seq<Node>, files: seq<InputFile>, first: nat, backup: nat) returns (r: Checked<Placed>)
    ensures r == if first >= backup then Err(InvalidArgument) else AssignFrom(nodes, files, backup, Placed([], first))
  {
    hide AccountAll;
    if first >= backup {
      return Err(InvalidArgument);
    }
    var ranges: seq<Range> := [];
    var next: nat := first;
    while |ranges| < |nodes|
      invariant |ranges| <= |nodes|
      invariant AssignFrom(nodes, files, backup, Placed(ranges, next)) == AssignFrom(nodes, files, backup, Placed([], first))
      decreases |nodes| - |ranges|
    {
      var parent := |ranges|;
      AccountConcat(EMPTY_DIRECTORY, ChildDirectories(nodes, parent, 0), ChildFiles(files, parent, 0));
      var fill := AccountDirectories(nodes, parent, EMPTY_DIRECTORY);
      if fill.Err? {
        return Err(fill.status);
      }
      fill := AccountFiles(files, parent, fill.value);
      if fill.Err? {
        return Err(fill.status);
      }
      if fill.value.blocks < 1 {
        return Err(InvalidArgument);
      }
      var count := fill.value.blocks - 1;
      if fill.value.blocks > 256 || next > backup || count > backup - next {
        return Err(BufferTooSmall);
      }
      ranges := ranges + [Range(if count != 0 then next else 0, count)];
      next := next + count;
    }
    return Ok(Placed(ranges, next));
  }

  /** Places the data of every file, one after another. */
  method PlaceFiles(files: seq<InputFile>, backup: nat) returns (r: Checked<Placed>)
    ensures r == PlaceFrom(files, backup, Placed([], 0))
  {
    var ranges: seq<Range> := [];
    var next: nat := 0;
    while |ranges| < |files|
      invariant |ranges| <= |files|
      invariant PlaceFrom(files, backup, Placed(ranges, next)) == PlaceFrom(files, backup, Placed([], 0))
      decreases |files| - |ranges|
    {
      var count := DataBlocks(files[|ranges|].size);
      if next > backup || count > backup - next {
        return Err(BufferTooSmall);
      }
      ranges := ranges + [Range(if count == 0 then 0 else next, count)];
      next := next + count;
    }
    return Ok(Placed(ranges, next));
  }
}
