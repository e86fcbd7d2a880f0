/**
 * The loops of tools/zifsinspect/inspect.c that mark owned blocks in place, scan the record table,
 * link directory entries and reconcile the bitmap, proved against their pure readings.
 */
module ZifsMarking {
  import opened Status
  import opened Unicode
  import opened Layout
  import opened ZifsFormat
  import opened ZifsHome
  import opened ZifsHomeTheorems

  /** Marks one range, refusing blocks that are already marked when asked to. */
  method MarkExpectedRange(expected: array<nat>, first: nat, count: nat, marker: nat, rejectExisting: bool)
    returns (status: Status)
    requires marker != 0
    modifies expected
    ensures status == Success || status == CorruptFilesystem
    ensures rejectExisting ==>
      match MarkRange(old(expected[..]), Range(first, count), marker)
      case None => status == CorruptFilesystem
      case Some(marks) => status == Success && expected[..] == marks
    ensures !rejectExisting ==>
      if Inside(Range(first, count), expected.Length)
      then status == Success && expected[..] == Painted(old(expected[..]), Range(first, count), marker)
      else status == CorruptFilesystem
  {
    if count == 0 || first >= expected.Length || count > expected.Length - first {
      return CorruptFilesystem;
    }
    var offset := 0;
    while offset < count
      invariant offset <= count
      invariant forall b :: 0 <= b < expected.Length ==>
        expected[b] == if first <= b < first + offset then marker else old(expected[b])
      invariant rejectExisting ==> forall b :: first <= b < first + offset ==> old(expected[b]) == 0
    {
      if rejectExisting && expected[first + offset] != 0 {
        assert old(expected[..])[first + offset] != 0;
        return CorruptFilesystem;
      }
      expected[first + offset] := marker;
      offset := offset + 1;
    }
    return Success;
  }

  /** Marks ranges one after another until one is refused. */
  method MarkRanges(expected: array<nat>, ranges: seq<Range>, marker: nat) returns (status: Status)
    requires marker != 0
    modifies expected
    ensures match MarkAll(old(expected[..]), ranges, marker)
            case None => status == CorruptFilesystem
            case Some(marks) => status == Success && expected[..] == marks
  {
    hide MarkRange;
    var index := 0;
    while index < |ranges|
      invariant index <= |ranges|
      invariant MarkAll(expected[..], ranges[index..], marker) == MarkAll(old(expected[..]), ranges, marker)
    {
      assert ranges[index..][0] == ranges[index] && ranges[index..][1..] == ranges[index + 1..];
      status := MarkExpectedRange(expected, ranges[index].start, ranges[index].count, marker, true);
      if status.Failed() {
        return;
      }
      index := index + 1;
    }
    return Success;
  }

  method MarkMetadataBlocks(id: Identity, expected: array<nat>) returns (status: Status)
    modifies expected
    ensures match MarkAll(old(expected[..]), MetadataRanges(id), 1)
            case None => status == CorruptFilesystem
            case Some(marks) => status == Success && expected[..] == marks
  {
    status := MarkRanges(expected, MetadataRanges(id), 1);
  }

  /** The scan of the record table: every live record is checked and its extents marked in place. */
  method ScanTable(rd: Readers, id: Identity, ids: seq<u64>, table: seq<Block>, expected: array<nat>)
    returns (r: Checked<seq<Option<FileRecord>>>)
    modifies expected
    ensures match ScanFrom(rd, id, ids, table, 0, Scan([], old(expected[..])))
            case Err(status) => r == Err(status)
            case Ok(scan) => r == Ok(scan.records) && expected[..] == scan.marks
  {
    hide ScanSlot, Slot;
    var records: seq<Option<FileRecord>> := [];
    ghost var whole := ScanFrom(rd, id, ids, table, 0, Scan([], expected[..]));
    var index := 0;
    while index < 16 * |table|
      invariant index <= 16 * |table|
      invariant ScanFrom(rd, id, ids, table, index, Scan(records, expected[..])) == whole
    {
      var record := ScanOne(rd, id, ids, Slot(table, index), expected);
      if record.Err? {
        return Err(record.status);
      }
      records := records + [record.value];
      index := index + 1;
    }
    return Ok(records);
  }

  method ScanOne(rd: Readers, id: Identity, ids: seq<u64>, slot: seq<byte>, expected: array<nat>)
    returns (r: Checked<Option<FileRecord>>)
    modifies expected
    ensures match ScanSlot(rd, id, ids, slot, old(expected[..]))
            case Err(status) => r == Err(status)
            case Ok((record, marks)) => r == Ok(record) && expected[..] == marks
  {
    hide MarkAll, RecordValid;
    if AllZero(slot) {
      return Ok(None);
    }
    var decoded := rd.record(slot);
    if decoded.Err? {
      return Err(decoded.status);
    }
    if !RecordValid(id, decoded.value) || decoded.value.securityId !in ids {
      return Err(CorruptFilesystem);
    }
    var status := MarkRanges(expected, Extents(decoded.value), 2);
    r := if status.Failed() then Err(CorruptFilesystem) else Ok(Some(decoded.value));
  }

  ghost predicate Sorted(s: seq<u64>) {
    forall i, j :: 0 <= i < j < |s| ==> s[i] <= s[j]
  }

  ghost predicate AllDistinct(s: seq<u64>) {
    forall i, j :: 0 <= i < j < |s| ==> s[i] != s[j]
  }

  lemma {:induction false} DistinctCounts(s: seq<u64>)
    ensures AllDistinct(s) <==> forall x :: multiset(s)[x] <= 1
  {
    if s != [] {
      var rest := s[1..];
      DistinctCounts(rest);
      assert s == [s[0]] + rest;
      assert multiset(s) == multiset{s[0]} + multiset(rest);
      if AllDistinct(s) {
        forall i | 0 <= i < |rest|
          ensures rest[i] != s[0]
        {
          assert rest[i] == s[i + 1];
        }
        assert s[0] !in rest;
        assert multiset(rest)[s[0]] == 0;
      }
      if forall x :: multiset(s)[x] <= 1 {
        assert multiset(s)[s[0]] <= 1;
        assert forall x :: multiset(rest)[x] <= multiset(s)[x];
        assert s[0] !in multiset(rest);
        forall i, j | 0 <= i < j < |s|
          ensures s[i] != s[j]
        {
          assert s[j] == rest[j - 1] && rest[j - 1] in multiset(rest);
        }
      }
    }
  }

  /** On a sorted rearrangement, comparing neighbours finds every duplicate. */
  lemma NeighboursDecide(values: seq<u64>, sorted: seq<u64>)
    requires multiset(values) == multiset(sorted) && Sorted(sorted)
    ensures (forall i :: 0 < i < |sorted| ==> sorted[i - 1] != sorted[i]) <==> AllDistinct(values)
  {
    DistinctCounts(values);
    DistinctCounts(sorted);
    if forall i :: 0 < i < |sorted| ==> sorted[i - 1] != sorted[i] {
      forall i, j | 0 <= i < j < |sorted|
        ensures sorted[i] != sorted[j]
      {
        assert sorted[j - 1] != sorted[j] && sorted[i] <= sorted[j - 1] <= sorted[j];
      }
    }
  }

  // Reconciling the bitmap.

  lemma OneMoreBit(bitmap: seq<Block>, n: nat)
    requires n + 1 <= |bitmap| * BLOCK_SIZE * 8
    ensures AllocatedBits(bitmap, n + 1) == AllocatedBits(bitmap, n) + (if BitOf(bitmap, n) then {n} else {})
    ensures n !in AllocatedBits(bitmap, n)
  {
    hide BitOf;
  }

  /** The pass over the volume's own bits: counts, and a stop at an owned block that is free. */
  method CountBlocks(bitmap: seq<Block>, expected: array<nat>)
    returns (status: Status, taken: nat, free: nat, unreferenced: nat)
    requires expected.Length <= |bitmap| * BLOCK_SIZE * 8
    ensures status == if exists b :: 0 <= b < expected.Length && expected[b] != 0 && !BitOf(bitmap, b)
                      then CorruptFilesystem else Success
    ensures status == Success ==>
      && taken == |AllocatedBits(bitmap, expected.Length)|
      && taken + free == expected.Length
      && unreferenced == |AllocatedBits(bitmap, expected.Length) - Referenced(expected[..])|
  {
    hide BitOf, AllocatedBits;
    taken, free, unreferenced := 0, 0, 0;
    NoBits(bitmap);
    ghost var owned := Referenced(expected[..]);
    assert {} - owned == {};
    var block := 0;
    while block < expected.Length
      invariant block <= expected.Length
      invariant forall b :: 0 <= b < block ==> expected[b] == 0 || BitOf(bitmap, b)
      invariant taken == |AllocatedBits(bitmap, block)| && taken + free == block
      invariant unreferenced == |AllocatedBits(bitmap, block) - owned|
    {
      OneMoreBit(bitmap, block);
      ghost var before, bits := AllocatedBits(bitmap, block), AllocatedBits(bitmap, block + 1);
      if BitOf(bitmap, block) {
        taken := taken + 1;
        if expected[block] == 0 {
          assert bits - owned == (before - owned) + {block};
          unreferenced := unreferenced + 1;
        } else {
          assert bits - owned == before - owned;
        }
      } else {
        assert bits == before;
        free := free + 1;
        if expected[block] != 0 {
          return CorruptFilesystem, taken, free, unreferenced;
        }
      }
      block := block + 1;
    }
    status := Success;
  }

  lemma NoBits(bitmap: seq<Block>)
    ensures AllocatedBits(bitmap, 0) == {}
  {
  }

  /** The pass over the padding bits past the end of the volume. */
  method CheckPadding(bitmap: seq<Block>, total: nat) returns (status: Status)
    ensures status == if PaddingClear(bitmap, total) then Success else CorruptFilesystem
  {
    hide BitOf;
    var block := total;
    while block < |bitmap| * BLOCK_SIZE * 8
      invariant total <= block
      invariant forall b :: total <= b < block && b < |bitmap| * BLOCK_SIZE * 8 ==> !BitOf(bitmap, b)
    {
      if BitOf(bitmap, block) {
        return CorruptFilesystem;
      }
      block := block + 1;
    }
    status := Success;
  }

  method InspectAllocation(dev: Device, id: Identity, expected: array<nat>)
    returns (status: Status, taken: nat, free: nat, unreferenced: nat)
    ensures status == Allocation(dev, id, expected[..])
    ensures status == Success || status == RecoveryRequired ==>
      var bitmap := Part(dev, id.bitmapStart, id.bitmapBlocks);
      && expected.Length <= |bitmap| * BLOCK_SIZE * 8
      && taken == |AllocatedBits(bitmap, expected.Length)|
      && taken + free == expected.Length
      && unreferenced == |AllocatedBits(bitmap, expected.Length) - Referenced(expected[..])|
  {
    hide BitOf, AllocatedBits, PaddingClear, Referenced, Reconcile, Part;
    taken, free, unreferenced := 0, 0, 0;
    var bitmap := Part(dev, id.bitmapStart, id.bitmapBlocks);
    if id.total == 0 || BitmapBlocks(id.total) != id.bitmapBlocks {
      return CorruptFilesystem, 0, 0, 0;
    }
    if expected.Length > |bitmap| * BLOCK_SIZE * 8 {
      return OutOfBounds, 0, 0, 0;
    }
    status, taken, free, unreferenced := CountBlocks(bitmap, expected);
    Verdict(bitmap, expected[..]);
    if status.Failed() {
      return;
    }
    status := CheckPadding(bitmap, expected.Length);
    if status.Ok() && unreferenced != 0 {
      status := RecoveryRequired;
    }
  }

  /** The verdict in the order in which the loops reach it. */
  lemma Verdict(bitmap: seq<Block>, marks: Marks)
    requires |marks| <= |bitmap| * BLOCK_SIZE * 8
    ensures var missing := exists b :: 0 <= b < |marks| && marks[b] != 0 && !BitOf(bitmap, b);
            Reconcile(bitmap, marks) ==
              if missing || !PaddingClear(bitmap, |marks|) then CorruptFilesystem
              else if |AllocatedBits(bitmap, |marks|) - Referenced(marks)| != 0 then RecoveryRequired
              else Success
  {
    hide BitOf;
    var leaked := AllocatedBits(bitmap, |marks|) - Referenced(marks);
    if exists b :: 0 <= b < |marks| && BitOf(bitmap, b) && marks[b] == 0 {
      var b :| 0 <= b < |marks| && BitOf(bitmap, b) && marks[b] == 0;
      assert b in leaked;
    } else {
      assert leaked == {};
    }
  }

  // Linking directory entries.

  /** The link flags and the names of one directory are those of the entries visited. */
  ghost predicate Follows(records: seq<Option<FileRecord>>, dir: nat, visits: seq<Visit>, links: seq<bool>, names: seq<seq<byte>>) {
    && |links| == |records|
    && (forall i :: 0 <= i < |links| ==> (links[i] <==> Linked(visits, i)))
    && (forall n :: n in names <==> exists k :: 0 <= k < |visits| && visits[k].dir == dir && visits[k].entry.name == n)
  }

  lemma FollowsNext(records: seq<Option<FileRecord>>, dir: nat, visits: seq<Visit>, links: seq<bool>, names: seq<seq<byte>>, e: Entry)
    requires Follows(records, dir, visits, links, names) && e.index < |records|
    ensures Follows(records, dir, visits + [Visit(dir, e)], links[e.index := true], names + [e.name])
  {
    var next := visits + [Visit(dir, e)];
    forall i | 0 <= i < |links|
      ensures links[e.index := true][i] <==> Linked(next, i)
    {
      if Linked(visits, i) {
        var k :| 0 <= k < |visits| && visits[k].entry.index == i;
        assert next[k].entry.index == i;
      }
      assert next[|visits|].entry.index == e.index;
    }
    forall n
      ensures n in names + [e.name] <==> exists k :: 0 <= k < |next| && next[k].dir == dir && next[k].entry.name == n
    {
      if n in names {
        var k :| 0 <= k < |visits| && visits[k].dir == dir && visits[k].entry.name == n;
        assert next[k].entry.name == n;
      }
      assert next[|visits|].entry.name == e.name;
    }
  }

  lemma NameTakenFollows(
        rd: Readers, records: seq<Option<FileRecord>>, dir: nat, visits: seq<Visit>, links: seq<bool>,
        names: seq<seq<byte>>, name: seq<byte>)
    requires Follows(records, dir, visits, links, names)
    ensures NameTaken(rd, visits, dir, name) <==> exists i :: 0 <= i < |names| && rd.sameName(name, names[i])
  {
    if NameTaken(rd, visits, dir, name) {
      var k :| 0 <= k < |visits| && visits[k].dir == dir && rd.sameName(name, visits[k].entry.name);
      assert visits[k].entry.name in names;
    }
    if exists i :: 0 <= i < |names| && rd.sameName(name, names[i]) {
      var i :| 0 <= i < |names| && rd.sameName(name, names[i]);
      assert names[i] in names;
    }
  }

  /** The entries of one directory block, linked in place. */
  method LinkEntries(rd: Readers, records: seq<Option<FileRecord>>, dir: nat, entries: seq<Entry>,
                     links: array<bool>, names0: seq<seq<byte>>, ghost visits: seq<Visit>)
    returns (status: Status, names: seq<seq<byte>>)
    requires dir < |records| && records[dir].Some?
    requires Follows(records, dir, visits, links[..], names0)
    modifies links
    ensures match InspectEntries(rd, records, dir, entries, visits)
            case Err(why) => status == why
            case Ok(after) => status == Success && Follows(records, dir, after, links[..], names)
  {
    hide Follows, EntryMatches, NameTaken;
    names := names0;
    ghost var seen := visits;
    var index := 0;
    while index < |entries|
      invariant index <= |entries|
      invariant Follows(records, dir, seen, links[..], names)
      invariant InspectEntries(rd, records, dir, entries[index..], seen) == InspectEntries(rd, records, dir, entries, visits)
    {
      var e := entries[index];
      assert entries[index..][0] == e && entries[index..][1..] == entries[index + 1..];
      NameTakenFollows(rd, records, dir, seen, links[..], names, e.name);
      LinkedFollows(records, dir, seen, links[..], names, e);
      if !EntryMatches(records, records[dir].value, e) || links[e.index] {
        return CorruptFilesystem, names;
      }
      var prior := 0;
      while prior < |names|
        invariant prior <= |names|
        invariant forall i :: 0 <= i < prior ==> !rd.sameName(e.name, names[i])
      {
        if rd.sameName(e.name, names[prior]) {
          return CorruptFilesystem, names;
        }
        prior := prior + 1;
      }
      FollowsNext(records, dir, seen, links[..], names, e);
      links[e.index] := true;
      names := names + [e.name];
      seen := seen + [Visit(dir, e)];
      index := index + 1;
    }
    status := Success;
  }

  lemma LinkedFollows(records: seq<Option<FileRecord>>, dir: nat, visits: seq<Visit>, links: seq<bool>, names: seq<seq<byte>>, e: Entry)
    requires dir < |records| && records[dir].Some? && Follows(records, dir, visits, links, names)
    ensures |links| == |records|
    ensures EntryMatches(records, records[dir].value, e) ==> e.index < |links| && (links[e.index] <==> Linked(visits, e.index))
  {
  }
}
