/** What fits on a volume: when the formatter (tools/mkzifs/main.c) has room for everything it is given. */
module ZifsSizes {
  import opened Status
  import opened Layout
  import opened ZifsFormat
  import opened ZifsHome
  import opened ZifsFormatter

  ghost predicate Sized(names: seq<nat>) {
    forall k :: 0 <= k < |names| ==> 1 <= names[k] <= 255
  }

  /** The blocks that entries take after the one being filled: each goes to the next block if it does not fit this one. */
  ghost function MoreBlocks(used: nat, names: seq<nat>): nat
    decreases |names|
  {
    if names == [] then 0
    else
      var size := EntrySize(names[0]);
      if used + size <= BLOCK_SIZE then MoreBlocks(used + size, names[1..]) else 1 + MoreBlocks(HEADER_SIZE + size, names[1..])
  }

  lemma EntrySizes(nameSize: nat)
    requires nameSize <= 255
    ensures EntrySize(nameSize) <= 280
  {
  }

  lemma {:induction false} AccountExactly(f: Fill, names: seq<nat>)
    requires HEADER_SIZE <= f.used <= BLOCK_SIZE && f.blocks + |names| < MAX64
    ensures AccountAll(f, names).Ok? <==> Sized(names)
    ensures AccountAll(f, names).Ok? ==> AccountAll(f, names).value.blocks == f.blocks + MoreBlocks(f.used, names)
    decreases |names|
  {
    hide EntrySize;
    if names != [] {
      var n := names[0];
      if 1 <= n <= 255 {
        EntrySizes(n);
        AccountExactly(AccountEntry(f, n).value, names[1..]);
        assert Sized(names) <==> Sized(names[1..]) by {
          assert names == [n] + names[1..];
        }
      }
    }
  }

  lemma {:induction false} ChildCounts(nodes: seq<Node>, files: seq<InputFile>, parent: nat, i: nat, j: nat)
    requires i <= |nodes| && j <= |files|
    ensures |ChildDirectories(nodes, parent, i)| <= |nodes| - i && |ChildFiles(files, parent, j)| <= |files| - j
    decreases |nodes| - i + |files| - j
  {
    if i < |nodes| {
      ChildCounts(nodes, files, parent, i + 1, j);
    } else if j < |files| {
      ChildCounts(nodes, files, parent, i, j + 1);
    }
  }

  /** The blocks of directory i beyond its first. */
  ghost function Continuations(nodes: seq<Node>, files: seq<InputFile>, i: nat): nat {
    MoreBlocks(HEADER_SIZE, ChildNames(nodes, files, i))
  }

  ghost predicate DirectoryOk(nodes: seq<Node>, files: seq<InputFile>, i: nat) {
    Sized(ChildNames(nodes, files, i)) && Continuations(nodes, files, i) < 256
  }

  ghost function AllContinuations(nodes: seq<Node>, files: seq<InputFile>, i: nat): nat
    requires i <= |nodes|
    decreases |nodes| - i
  {
    if i == |nodes| then 0 else Continuations(nodes, files, i) + AllContinuations(nodes, files, i + 1)
  }

  ghost function AllData(files: seq<InputFile>, i: nat): nat
    requires i <= |files|
    decreases |files| - i
  {
    if i == |files| then 0 else DataBlocks(files[i].size) + AllData(files, i + 1)
  }

  lemma DirectoryAccounts(nodes: seq<Node>, files: seq<InputFile>, i: nat)
    requires |nodes| <= 0xffff && |files| <= MAXIMUM_FILES
    ensures var r := AccountAll(EMPTY_DIRECTORY, ChildNames(nodes, files, i));
            && (r.Ok? <==> Sized(ChildNames(nodes, files, i)))
            && (r.Ok? ==> r.value.blocks == 1 + Continuations(nodes, files, i))
  {
    ChildCounts(nodes, files, i, 0, 0);
    AccountExactly(EMPTY_DIRECTORY, ChildNames(nodes, files, i));
  }

  lemma {:induction false} AssignExactly(nodes: seq<Node>, files: seq<InputFile>, backup: nat, done: Placed)
    requires |nodes| <= 0xffff && |files| <= MAXIMUM_FILES && |done.ranges| <= |nodes| && done.next <= backup
    ensures var r, i := AssignFrom(nodes, files, backup, done), |done.ranges|;
            && (r.Ok? <==>
                  && (forall k :: i <= k < |nodes| ==> DirectoryOk(nodes, files, k))
                  && done.next + AllContinuations(nodes, files, i) <= backup)
            && (r.Ok? ==> r.value.next == done.next + AllContinuations(nodes, files, i))
    decreases |nodes| - |done.ranges|
  {
    hide AccountAll, ChildNames, Continuations;
    var i := |done.ranges|;
    if i < |nodes| {
      DirectoryAccounts(nodes, files, i);
      if DirectoryOk(nodes, files, i) && done.next + Continuations(nodes, files, i) <= backup {
        var count := Continuations(nodes, files, i);
        AssignExactly(nodes, files, backup, Placed(done.ranges + [Range(if count != 0 then done.next else 0, count)], done.next + count));
      }
    }
  }

  lemma {:induction false} PlaceExactly(files: seq<InputFile>, backup: nat, done: Placed)
    requires |done.ranges| <= |files| && done.next <= backup
    ensures var r, i := PlaceFrom(files, backup, done), |done.ranges|;
            && (r.Ok? <==> done.next + AllData(files, i) <= backup)
            && (r.Ok? ==> r.value.next == done.next + AllData(files, i))
    decreases |files| - |done.ranges|
  {
    hide DataBlocks;
    var i := |done.ranges|;
    if i < |files| && done.next + DataBlocks(files[i].size) <= backup {
      var count := DataBlocks(files[i].size);
      PlaceExactly(files, backup, Placed(done.ranges + [Range(if count == 0 then 0 else done.next, count)], done.next + count));
    }
  }

  /** The superblock, records with room for 128 more, the bitmap, the journal, one block for security and one per directory. */
  ghost function TableBlocks(sizeMib: nat, nodes: seq<Node>, files: seq<InputFile>): nat
    requires sizeMib > 0
  {
    1 + ((|nodes| + |files| + 15) / 16 + 8) + BitmapBlocks(sizeMib * 256) + 66 + 1 + |nodes|
  }

  lemma TablesEnd(sizeMib: nat, nodes: seq<Node>, files: seq<InputFile>)
    requires 8 <= sizeMib <= 2048 && 1 <= |nodes| <= 0xffff && |files| <= MAXIMUM_FILES
    ensures RecordBlocks(|nodes| + |files|) <= 0x2000 && BitmapBlocks(sizeMib * 256) <= 0x8_0000
    ensures var id := Geometry(sizeMib * 256, RecordBlocks(|nodes| + |files|), BitmapBlocks(sizeMib * 256), |nodes|);
            id.directoryStart + id.directoryBlocks == TableBlocks(sizeMib, nodes, files) && id.backup == sizeMib * 256 - 1
  {
    assert BitmapBlocks(sizeMib * 256) <= sizeMib * 256;
  }

  /**
   * A tree is laid out if and only if its names have 1 to 255 bytes, no directory needs more than 256 blocks,
   * and the tables, all further directory blocks and all files fit below the backup superblock.
   */
  lemma FormatExactly(sizeMib: nat, nodes: seq<Node>, files: seq<InputFile>)
    requires 8 <= sizeMib <= 2048 && 1 <= |nodes| <= 0xffff && |files| <= MAXIMUM_FILES
    ensures Format(sizeMib, nodes, files).Ok? <==>
      && (forall i :: 0 <= i < |nodes| ==> DirectoryOk(nodes, files, i))
      && TableBlocks(sizeMib, nodes, files) < sizeMib * 256 - 1
      && TableBlocks(sizeMib, nodes, files) + AllContinuations(nodes, files, 0) + AllData(files, 0) <= sizeMib * 256 - 1
  {
    hide AssignFrom, PlaceFrom, AllContinuations, AllData, DirectoryOk, ShiftAll, BitmapBlocks, Geometry, RecordBlocks, TableBlocks;
    var total := sizeMib * 256;
    var low := TableBlocks(sizeMib, nodes, files);
    TablesEnd(sizeMib, nodes, files);
    PlaceExactly(files, total - 1, Placed([], 0));
    if low < total - 1 {
      AssignExactly(nodes, files, total - 1, Placed([], low));
    }
  }
}
