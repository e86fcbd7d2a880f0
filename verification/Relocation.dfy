/**
 * Base relocation of a mapped PE image (kernel/pe/pe.c), by the block and entry format of the PE/COFF
 * specification, section "The .reloc Section (Image Only)", in arithmetic modulo 2^64.
 */
module Relocation {
  import opened Status
  import opened Unicode
  import opened Layout

  const ABSOLUTE := 0
  const DIR64 := 10
  const WORD := 0x1_0000_0000_0000_0000

  /** The parts of a parsed image that relocation uses. */
  datatype Image = Image(size: u32, base: u64, directory: u32, directorySize: u32)

  function Delta(from: u64, to: u64): u64 { (to - from) % WORD }

  // What the directory says.

  datatype Meaning = Nothing | Fix(target: nat) | Refuse(why: Failure)

  function Classify(entry: u16, page: u32, size: nat): Meaning {
    var kind, offset := entry / 0x1000, entry % 0x1000;
    if kind == ABSOLUTE then Nothing
    else if kind != DIR64 || page > 0xffff_ffff - offset then Refuse(ImageRelocationFailed)
    else if page + offset + 8 > size then Refuse(BadImageFormat)
    else Fix(page + offset)
  }

  function EntryAt(mem: seq<byte>, at: nat): u16
    requires at + 2 <= |mem|
  {
    U16(mem[at..at + 2])
  }

  function WordAt(mem: seq<byte>, at: nat): u32
    requires at + 4 <= |mem|
  {
    U32(mem[at..at + 4])
  }

  function QwordAt(mem: seq<byte>, at: nat): u64
    requires at + 8 <= |mem|
  {
    U64(mem[at..at + 8])
  }

  predicate BlockFits(blockSize: nat, room: nat) {
    blockSize >= 8 && blockSize % 2 == 0 && blockSize <= room
  }

  /** The targets that a directory names, up to the first thing wrong with it. */
  datatype Parsed = Parsed(targets: seq<nat>, status: Status)

  function ParseEntries(mem: seq<byte>, size: nat, page: u32, at: nat, n: nat): Parsed
    requires at + 2 * n <= |mem|
    decreases n
  {
    if n == 0 then Parsed([], Success)
    else match Classify(EntryAt(mem, at), page, size)
      case Refuse(why) => Parsed([], why)
      case Nothing => ParseEntries(mem, size, page, at + 2, n - 1)
      case Fix(t) =>
        var rest := ParseEntries(mem, size, page, at + 2, n - 1);
        Parsed([t] + rest.targets, rest.status)
  }

  function ParseBlocks(mem: seq<byte>, size: nat, cursor: nat, end: nat): Parsed
    requires cursor <= end <= |mem|
    decreases end - cursor
  {
    if cursor == end then Parsed([], Success)
    else if cursor + 8 > end then Parsed([], BadImageFormat)
    else
      var page, blockSize := WordAt(mem, cursor), WordAt(mem, cursor + 4);
      if !BlockFits(blockSize, end - cursor) then Parsed([], BadImageFormat)
      else
        var entries := ParseEntries(mem, size, page, cursor + 8, (blockSize - 8) / 2);
        if entries.status.Failed() then entries
        else
          var rest := ParseBlocks(mem, size, cursor + blockSize, end);
          Parsed(entries.targets + rest.targets, rest.status)
  }

  // What relocation does.

  function Put(mem: seq<byte>, at: nat, s: seq<byte>): (m: seq<byte>)
    requires at + |s| <= |mem|
    ensures |m| == |mem|
  {
    mem[..at] + s + mem[at + |s|..]
  }

  function AddAt(mem: seq<byte>, t: nat, delta: u64): (m: seq<byte>)
    requires t + 8 <= |mem|
    ensures |m| == |mem|
  {
    Put(mem, t, LE(8, (QwordAt(mem, t) + delta) % WORD))
  }

  ghost predicate InRange(targets: seq<nat>, size: nat) {
    forall i :: 0 <= i < |targets| ==> targets[i] + 8 <= size
  }

  function AddAll(mem: seq<byte>, targets: seq<nat>, delta: u64): (m: seq<byte>)
    requires forall i :: 0 <= i < |targets| ==> targets[i] + 8 <= |mem|
    ensures |m| == |mem|
    decreases |targets|
  {
    if targets == [] then mem else AddAll(AddAt(mem, targets[0], delta), targets[1..], delta)
  }

  /** The walk as the source makes it, reading the directory from the memory it is changing. */
  datatype Walked = Walked(mem: seq<byte>, status: Status)

  function WalkEntries(mem: seq<byte>, size: nat, page: u32, at: nat, n: nat, delta: u64): (w: Walked)
    requires at + 2 * n <= |mem| && size <= |mem|
    ensures |w.mem| == |mem|
    decreases n
  {
    if n == 0 then Walked(mem, Success)
    else match Classify(EntryAt(mem, at), page, size)
      case Refuse(why) => Walked(mem, why)
      case Nothing => WalkEntries(mem, size, page, at + 2, n - 1, delta)
      case Fix(t) => WalkEntries(AddAt(mem, t, delta), size, page, at + 2, n - 1, delta)
  }

  function WalkBlocks(mem: seq<byte>, size: nat, cursor: nat, end: nat, delta: u64): (w: Walked)
    requires cursor <= end <= |mem| && size <= |mem|
    ensures |w.mem| == |mem|
    decreases end - cursor
  {
    if cursor == end then Walked(mem, Success)
    else if cursor + 8 > end then Walked(mem, BadImageFormat)
    else
      var page, blockSize := WordAt(mem, cursor), WordAt(mem, cursor + 4);
      if !BlockFits(blockSize, end - cursor) then Walked(mem, BadImageFormat)
      else
        var entries := WalkEntries(mem, size, page, cursor + 8, (blockSize - 8) / 2, delta);
        if entries.status.Failed() then entries
        else WalkBlocks(entries.mem, size, cursor + blockSize, end, delta)
  }

  predicate DirectoryUsable(image: Image) {
    image.directory != 0 && image.directorySize != 0 && image.directory + image.directorySize <= image.size
  }

  function Relocate(image: Image, mem: seq<byte>, newBase: u64): (w: Walked)
    requires image.size <= |mem|
    ensures |w.mem| == |mem|
  {
    if newBase == image.base then Walked(mem, Success)
    else if !DirectoryUsable(image) then Walked(mem, ImageRelocationFailed)
    else WalkBlocks(mem, image.size, image.directory, image.directory + image.directorySize, Delta(image.base, newBase))
  }

  // The targets.

  ghost predicate Avoids(targets: seq<nat>, lo: nat, hi: nat) {
    forall i :: 0 <= i < |targets| ==> targets[i] + 8 <= lo || hi <= targets[i]
  }

  ghost predicate Disjoint(targets: seq<nat>) {
    forall i, j :: 0 <= i < j < |targets| ==> targets[i] + 8 <= targets[j] || targets[j] + 8 <= targets[i]
  }

  ghost predicate Covered(targets: seq<nat>, b: int) {
    exists i :: 0 <= i < |targets| && targets[i] <= b < targets[i] + 8
  }

  lemma {:induction false} EntriesInRange(mem: seq<byte>, size: nat, page: u32, at: nat, n: nat)
    requires at + 2 * n <= |mem|
    ensures InRange(ParseEntries(mem, size, page, at, n).targets, size)
    decreases n
  {
    hide EntryAt;
    if n > 0 {
      EntriesInRange(mem, size, page, at + 2, n - 1);
    }
  }

  lemma {:induction false} BlocksInRange(mem: seq<byte>, size: nat, cursor: nat, end: nat)
    requires cursor <= end <= |mem|
    ensures InRange(ParseBlocks(mem, size, cursor, end).targets, size)
    decreases end - cursor
  {
    hide ParseEntries, WordAt;
    if cursor + 8 <= end && cursor < end {
      var page, blockSize := WordAt(mem, cursor), WordAt(mem, cursor + 4);
      if BlockFits(blockSize, end - cursor) {
        EntriesInRange(mem, size, page, cursor + 8, (blockSize - 8) / 2);
        BlocksInRange(mem, size, cursor + blockSize, end);
      }
    }
  }

  lemma {:induction false} EntriesSame(a: seq<byte>, b: seq<byte>, size: nat, page: u32, at: nat, n: nat)
    requires |a| == |b| && at + 2 * n <= |a|
    requires forall i :: at <= i < at + 2 * n ==> a[i] == b[i]
    ensures ParseEntries(a, size, page, at, n) == ParseEntries(b, size, page, at, n)
    decreases n
  {
    hide Classify;
    if n > 0 {
      assert a[at..at + 2] == b[at..at + 2];
      EntriesSame(a, b, size, page, at + 2, n - 1);
    }
  }

  /** What a directory says depends only on its own bytes. */
  lemma {:induction false} BlocksSame(a: seq<byte>, b: seq<byte>, size: nat, cursor: nat, end: nat)
    requires |a| == |b| && cursor <= end <= |a|
    requires forall i :: cursor <= i < end ==> a[i] == b[i]
    ensures ParseBlocks(a, size, cursor, end) == ParseBlocks(b, size, cursor, end)
    decreases end - cursor
  {
    hide ParseEntries;
    if cursor + 8 <= end && cursor < end {
      assert a[cursor..cursor + 4] == b[cursor..cursor + 4];
      assert a[cursor + 4..cursor + 8] == b[cursor + 4..cursor + 8];
      var page, blockSize := WordAt(a, cursor), WordAt(a, cursor + 4);
      if BlockFits(blockSize, end - cursor) {
        EntriesSame(a, b, size, page, cursor + 8, (blockSize - 8) / 2);
        BlocksSame(a, b, size, cursor + blockSize, end);
      }
    }
  }

  lemma AddAtBytes(mem: seq<byte>, t: nat, delta: u64, b: nat)
    requires t + 8 <= |mem| && b < |mem| && !(t <= b < t + 8)
    ensures AddAt(mem, t, delta)[b] == mem[b]
  {
    hide LE;
  }

  lemma AddAtQword(mem: seq<byte>, t: nat, delta: u64)
    requires t + 8 <= |mem|
    ensures QwordAt(AddAt(mem, t, delta), t) == (QwordAt(mem, t) + delta) % WORD
  {
    hide LE, U64;
    var v := (QwordAt(mem, t) + delta) % WORD;
    assert AddAt(mem, t, delta)[t..t + 8] == LE(8, v);
    RoundTrip64(v);
  }

  lemma {:induction false} AddAllBytes(mem: seq<byte>, targets: seq<nat>, delta: u64, b: nat)
    requires InRange(targets, |mem|) && b < |mem| && !Covered(targets, b)
    ensures AddAll(mem, targets, delta)[b] == mem[b]
    decreases |targets|
  {
    hide AddAt;
    if targets != [] {
      assert targets[0] <= b < targets[0] + 8 ==> Covered(targets, b);
      CoveredRest(targets, b);
      AddAtBytes(mem, targets[0], delta, b);
      AddAllBytes(AddAt(mem, targets[0], delta), targets[1..], delta, b);
    }
  }

  lemma CoveredRest(targets: seq<nat>, b: int)
    requires targets != []
    ensures Covered(targets[1..], b) ==> Covered(targets, b)
  {
    var rest := targets[1..];
    if Covered(rest, b) {
      var i :| 0 <= i < |rest| && rest[i] <= b < rest[i] + 8;
      assert targets[i + 1] <= b < targets[i + 1] + 8;
    }
  }

  lemma QwordSame(a: seq<byte>, b: seq<byte>, t: nat)
    requires |a| == |b| && t + 8 <= |a| && forall i :: t <= i < t + 8 ==> a[i] == b[i]
    ensures QwordAt(a, t) == QwordAt(b, t)
  {
    assert a[t..t + 8] == b[t..t + 8];
  }

  /** Adding at targets that do not overlap changes each one exactly once. */
  lemma {:induction false} AddAllQword(mem: seq<byte>, targets: seq<nat>, delta: u64, k: nat)
    requires InRange(targets, |mem|) && Disjoint(targets) && k < |targets|
    ensures QwordAt(AddAll(mem, targets, delta), targets[k]) == (QwordAt(mem, targets[k]) + delta) % WORD
    decreases |targets|
  {
    hide AddAt, QwordAt;
    var t, rest := targets[0], targets[1..];
    var next := AddAt(mem, t, delta);
    if k == 0 {
      AddAtQword(mem, t, delta);
      forall i | t <= i < t + 8
        ensures AddAll(next, rest, delta)[i] == next[i]
      {
        Uncovered(targets, i);
        AddAllBytes(next, rest, delta, i);
      }
      QwordSame(AddAll(next, rest, delta), next, t);
    } else {
      AddAllQword(next, rest, delta, k - 1);
      var u := targets[k];
      forall i | u <= i < u + 8
        ensures next[i] == mem[i]
      {
        AddAtBytes(mem, t, delta, i);
      }
      QwordSame(next, mem, u);
    }
  }

  lemma Uncovered(targets: seq<nat>, b: int)
    requires targets != [] && Disjoint(targets) && targets[0] <= b < targets[0] + 8
    ensures !Covered(targets[1..], b)
  {
    var rest := targets[1..];
    forall i | 0 <= i < |rest|
      ensures !(rest[i] <= b < rest[i] + 8)
    {
      assert rest[i] == targets[i + 1];
    }
  }

  // The walk follows the directory.

  lemma {:induction false} WalkEntriesParsed(mem: seq<byte>, size: nat, page: u32, at: nat, n: nat, delta: u64, lo: nat, hi: nat)
    requires lo <= at && at + 2 * n <= hi <= |mem| && size <= |mem|
    requires Avoids(ParseEntries(mem, size, page, at, n).targets, lo, hi)
    ensures InRange(ParseEntries(mem, size, page, at, n).targets, |mem|)
    ensures var p := ParseEntries(mem, size, page, at, n);
            WalkEntries(mem, size, page, at, n, delta) == Walked(AddAll(mem, p.targets, delta), p.status)
    decreases n
  {
    hide Classify, EntryAt, AddAt;
    EntriesInRange(mem, size, page, at, n);
    if n > 0 {
      var meaning := Classify(EntryAt(mem, at), page, size);
      var p := ParseEntries(mem, size, page, at, n);
      if meaning.Fix? {
        var t := meaning.target;
        var rest := ParseEntries(mem, size, page, at + 2, n - 1);
        assert p.targets[0] == t && p.targets[1..] == rest.targets;
        var next := AddAt(mem, t, delta);
        forall i | lo <= i < hi
          ensures next[i] == mem[i]
        {
          AddAtBytes(mem, t, delta, i);
        }
        EntriesSame(next, mem, size, page, at + 2, n - 1);
        AvoidsRest(p.targets, lo, hi);
        WalkEntriesParsed(next, size, page, at + 2, n - 1, delta, lo, hi);
      } else if meaning.Nothing? {
        WalkEntriesParsed(mem, size, page, at + 2, n - 1, delta, lo, hi);
      }
    }
  }

  lemma AvoidsRest(targets: seq<nat>, lo: nat, hi: nat)
    requires targets != [] && Avoids(targets, lo, hi)
    ensures Avoids(targets[1..], lo, hi)
  {
  }

  lemma {:induction false} AddAllConcat(mem: seq<byte>, a: seq<nat>, b: seq<nat>, delta: u64)
    requires InRange(a, |mem|) && InRange(b, |mem|)
    ensures InRange(a + b, |mem|)
    ensures AddAll(mem, a + b, delta) == AddAll(AddAll(mem, a, delta), b, delta)
    decreases |a|
  {
    hide AddAt;
    if a == [] {
      assert a + b == b;
    } else {
      assert (a + b)[1..] == a[1..] + b;
      AddAllConcat(AddAt(mem, a[0], delta), a[1..], b, delta);
    }
  }

  lemma AvoidsSplit(a: seq<nat>, b: seq<nat>, lo: nat, hi: nat)
    requires Avoids(a + b, lo, hi)
    ensures Avoids(a, lo, hi) && Avoids(b, lo, hi)
  {
    assert forall i :: 0 <= i < |a| ==> (a + b)[i] == a[i];
    assert forall i :: 0 <= i < |b| ==> (a + b)[|a| + i] == b[i];
  }

  lemma AvoidsUntouched(mem: seq<byte>, targets: seq<nat>, delta: u64, lo: nat, hi: nat, b: nat)
    requires InRange(targets, |mem|) && Avoids(targets, lo, hi) && lo <= b < hi <= |mem|
    ensures AddAll(mem, targets, delta)[b] == mem[b]
  {
    hide AddAll;
    AddAllBytes(mem, targets, delta, b);
  }

  /**
   * When no target overlaps the directory, the walk does what the directory said before the walk
   * began: it adds the delta at each target, in order, up to the first thing wrong.
   */
  lemma {:induction false} WalkBlocksParsed(mem: seq<byte>, size: nat, cursor: nat, end: nat, delta: u64, lo: nat)
    requires lo <= cursor <= end <= |mem| && size <= |mem|
    requires Avoids(ParseBlocks(mem, size, cursor, end).targets, lo, end)
    ensures InRange(ParseBlocks(mem, size, cursor, end).targets, |mem|)
    ensures var p := ParseBlocks(mem, size, cursor, end);
            WalkBlocks(mem, size, cursor, end, delta) == Walked(AddAll(mem, p.targets, delta), p.status)
    decreases end - cursor
  {
    hide WordAt, AddAll, ParseEntries, WalkEntries;
    BlocksInRange(mem, size, cursor, end);
    AddNothing(mem, delta);
    if cursor < end && cursor + 8 <= end {
      var page, blockSize := WordAt(mem, cursor), WordAt(mem, cursor + 4);
      if BlockFits(blockSize, end - cursor) {
        var n := (blockSize - 8) / 2;
        var entries := ParseEntries(mem, size, page, cursor + 8, n);
        if entries.status.Failed() {
          WalkEntriesParsed(mem, size, page, cursor + 8, n, delta, lo, end);
        } else {
          var rest := ParseBlocks(mem, size, cursor + blockSize, end);
          AvoidsSplit(entries.targets, rest.targets, lo, end);
          WalkEntriesParsed(mem, size, page, cursor + 8, n, delta, lo, end);
          var next := AddAll(mem, entries.targets, delta);
          forall i | lo <= i < end
            ensures next[i] == mem[i]
          {
            AvoidsUntouched(mem, entries.targets, delta, lo, end, i);
          }
          BlocksSame(next, mem, size, cursor + blockSize, end);
          WalkBlocksParsed(next, size, cursor + blockSize, end, delta, lo);
          AddAllConcat(mem, entries.targets, rest.targets, delta);
        }
      }
    }
  }

  lemma AddNothing(mem: seq<byte>, delta: u64)
    ensures AddAll(mem, [], delta) == mem
  {
  }

  // The properties of relocation.

  /** The directory of an image as its memory has it, usable and clear of its own targets. */
  ghost predicate WellPlaced(image: Image, mem: seq<byte>) {
    && image.size <= |mem| && DirectoryUsable(image)
    && var p := ParseBlocks(mem, image.size, image.directory, image.directory + image.directorySize);
       && p.status == Success
       && Disjoint(p.targets)
       && Avoids(p.targets, image.directory, image.directory + image.directorySize)
  }

  function TargetsOf(image: Image, mem: seq<byte>): seq<nat>
    requires image.directory + image.directorySize <= |mem|
  {
    ParseBlocks(mem, image.size, image.directory, image.directory + image.directorySize).targets
  }

  /** Every target is moved by the base delta, and no other byte changes. */
  ghost predicate Moved(targets: seq<nat>, was: seq<byte>, now: seq<byte>, delta: int) {
    && |was| == |now| && InRange(targets, |was|)
    && (forall k :: 0 <= k < |targets| ==> QwordAt(now, targets[k]) == (QwordAt(was, targets[k]) + delta) % WORD)
    && (forall b :: 0 <= b < |was| && !Covered(targets, b) ==> now[b] == was[b])
  }

  lemma AddAllMoves(mem: seq<byte>, targets: seq<nat>, delta: u64)
    requires InRange(targets, |mem|) && Disjoint(targets)
    ensures Moved(targets, mem, AddAll(mem, targets, delta), delta)
  {
    hide AddAll, QwordAt, Covered;
    forall k | 0 <= k < |targets|
      ensures QwordAt(AddAll(mem, targets, delta), targets[k]) == (QwordAt(mem, targets[k]) + delta) % WORD
    {
      AddAllQword(mem, targets, delta, k);
    }
    forall b | 0 <= b < |mem| && !Covered(targets, b)
      ensures AddAll(mem, targets, delta)[b] == mem[b]
    {
      AddAllBytes(mem, targets, delta, b);
    }
  }

  lemma QwordsMovedByZero(mem: seq<byte>, targets: seq<nat>)
    requires InRange(targets, |mem|)
    ensures Moved(targets, mem, mem, 0)
  {
    hide QwordAt, Covered;
  }

  lemma UsableRange(image: Image, mem: seq<byte>)
    requires WellPlaced(image, mem)
    ensures image.directory + image.directorySize <= |mem| && image.size <= |mem|
    ensures InRange(TargetsOf(image, mem), |mem|)
  {
    hide ParseBlocks;
    BlocksInRange(mem, image.size, image.directory, image.directory + image.directorySize);
  }

  /** Relocating changes exactly the target qwords, each by the base delta modulo 2^64. */
  lemma RelocateExact(image: Image, mem: seq<byte>, newBase: u64)
    requires WellPlaced(image, mem)
    ensures Relocate(image, mem, newBase).status == Success
    ensures image.directory + image.directorySize <= |mem|
    ensures Moved(TargetsOf(image, mem), mem, Relocate(image, mem, newBase).mem, newBase - image.base)
  {
    hide ParseBlocks, WalkBlocks, AddAll, Moved, Disjoint, Avoids;
    UsableRange(image, mem);
    var targets := TargetsOf(image, mem);
    if newBase == image.base {
      QwordsMovedByZero(mem, targets);
    } else {
      var delta := Delta(image.base, newBase);
      WalkBlocksParsed(mem, image.size, image.directory, image.directory + image.directorySize, delta, image.directory);
      AddAllMoves(mem, targets, delta);
      MovedModulo(targets, mem, AddAll(mem, targets, delta), delta, newBase - image.base);
    }
  }

  lemma MovedModulo(targets: seq<nat>, was: seq<byte>, now: seq<byte>, a: int, b: int)
    requires Moved(targets, was, now, a) && a % WORD == b % WORD
    ensures Moved(targets, was, now, b)
  {
    hide QwordAt, Covered;
    forall k | 0 <= k < |targets|
      ensures QwordAt(now, targets[k]) == (QwordAt(was, targets[k]) + b) % WORD
    {
      SameRemainder(QwordAt(was, targets[k]), a, b);
    }
  }

  lemma SameRemainder(x: int, a: int, b: int)
    requires a % WORD == b % WORD
    ensures (x + a) % WORD == (x + b) % WORD
  {
    assert a - b == WORD * (a / WORD - b / WORD);
    Multiples(x + b, a / WORD - b / WORD);
  }

  lemma {:induction false} Multiples(x: int, k: int)
    ensures (x + WORD * k) % WORD == x % WORD
    decreases if k < 0 then -k else k
  {
    if k > 0 {
      Multiples(x, k - 1);
      assert x + WORD * k == (x + WORD * (k - 1)) + WORD;
    } else if k < 0 {
      Multiples(x, k + 1);
      assert x + WORD * k == (x + WORD * (k + 1)) - WORD;
    }
  }

  lemma MovedCompose(targets: seq<nat>, a: seq<byte>, b: seq<byte>, c: seq<byte>, d: int, e: int)
    requires Moved(targets, a, b, d) && Moved(targets, b, c, e)
    ensures Moved(targets, a, c, d + e)
  {
    hide QwordAt, Covered;
    forall k | 0 <= k < |targets|
      ensures QwordAt(c, targets[k]) == (QwordAt(a, targets[k]) + (d + e)) % WORD
    {
      var x := QwordAt(a, targets[k]);
      Reduce(x + d, e);
    }
  }

  lemma Reduce(x: int, e: int)
    ensures (x % WORD + e) % WORD == (x + e) % WORD
  {
    assert x % WORD + e == (x + e) + WORD * (-(x / WORD));
    Multiples(x + e, -(x / WORD));
  }

  /** A memory is determined by its target qwords and its other bytes. */
  lemma MovedUnique(targets: seq<nat>, was: seq<byte>, a: seq<byte>, b: seq<byte>, d: int)
    requires Moved(targets, was, a, d) && Moved(targets, was, b, d)
    ensures a == b
  {
    hide QwordAt;
    forall i | 0 <= i < |a|
      ensures a[i] == b[i]
    {
      if Covered(targets, i) {
        var k :| 0 <= k < |targets| && targets[k] <= i < targets[k] + 8;
        QwordBytes(a, b, targets[k], i);
      }
    }
  }

  lemma QwordBytes(a: seq<byte>, b: seq<byte>, t: nat, i: nat)
    requires |a| == |b| && t + 8 <= |a| && t <= i < t + 8 && QwordAt(a, t) == QwordAt(b, t)
    ensures a[i] == b[i]
  {
    LEOfNumber(a[t..t + 8]);
    LEOfNumber(b[t..t + 8]);
    assert a[i] == a[t..t + 8][i - t] && b[i] == b[t..t + 8][i - t];
  }

  /** The relocated memory still carries the same directory, so it can be relocated again. */
  lemma StillPlaced(image: Image, mem: seq<byte>, newBase: u64)
    requires WellPlaced(image, mem)
    ensures var moved := image.(base := newBase);
            var after := Relocate(image, mem, newBase).mem;
            && WellPlaced(moved, after)
            && image.directory + image.directorySize <= |mem|
            && TargetsOf(moved, after) == TargetsOf(image, mem)
  {
    hide ParseBlocks, Relocate;
    UsableRange(image, mem);
    RelocateExact(image, mem, newBase);
    var after := Relocate(image, mem, newBase).mem;
    var lo, hi := image.directory, image.directory + image.directorySize;
    forall b | lo <= b < hi
      ensures after[b] == mem[b]
    {
      NotCovered(TargetsOf(image, mem), lo, hi, b);
    }
    BlocksSame(after, mem, image.size, lo, hi);
  }

  lemma NotCovered(targets: seq<nat>, lo: nat, hi: nat, b: nat)
    requires Avoids(targets, lo, hi) && lo <= b < hi
    ensures !Covered(targets, b)
  {
  }

  /** Relocating from A to B and then from B to C is relocating from A to C. */
  lemma RelocateComposes(image: Image, mem: seq<byte>, b: u64, c: u64)
    requires WellPlaced(image, mem)
    ensures Relocate(image.(base := b), Relocate(image, mem, b).mem, c) == Relocate(image, mem, c)
  {
    hide Relocate, WellPlaced, Moved, TargetsOf;
    UsableRange(image, mem);
    RelocateExact(image, mem, b);
    StillPlaced(image, mem, b);
    var middle := Relocate(image, mem, b).mem;
    RelocateExact(image.(base := b), middle, c);
    RelocateExact(image, mem, c);
    var targets := TargetsOf(image, mem);
    var last := Relocate(image.(base := b), middle, c);
    MovedCompose(targets, mem, middle, last.mem, b - image.base, c - b);
    MovedUnique(targets, mem, last.mem, Relocate(image, mem, c).mem, c - image.base);
  }

  /** Relocating away and back restores every byte. */
  lemma RelocateRestores(image: Image, mem: seq<byte>, b: u64)
    requires WellPlaced(image, mem)
    ensures Relocate(image.(base := b), Relocate(image, mem, b).mem, image.base).mem == mem
  {
    hide WellPlaced, WalkBlocks;
    RelocateComposes(image, mem, b, image.base);
  }

  // The loops.

  method ApplyBlock(mem: array<byte>, size: nat, cursor: nat, end: nat, delta: u64) returns (status: Status, blockSize: nat)
    requires cursor < end <= size <= mem.Length
    modifies mem
    ensures var w := WalkBlocks(old(mem[..]), size, cursor, end, delta);
            if status.Failed() then w == Walked(mem[..], status)
            else cursor + blockSize <= end && blockSize >= 8 && w == WalkBlocks(mem[..], size, cursor + blockSize, end, delta)
  {
    hide WordAt, EntryAt, Classify, AddAt;
    blockSize := 0;
    if cursor + 8 > end {
      return BadImageFormat, 0;
    }
    var page := WordAt(mem[..], cursor);
    var declared := WordAt(mem[..], cursor + 4);
    if declared < 8 || declared % 2 != 0 || declared > end - cursor {
      return BadImageFormat, 0;
    }
    var count := (declared - 8) / 2;
    ghost var whole := WalkEntries(mem[..], size, page, cursor + 8, count, delta);
    var index := 0;
    while index < count
      invariant index <= count
      invariant WalkEntries(mem[..], size, page, cursor + 8 + 2 * index, count - index, delta) == whole
    {
      var meaning := Classify(EntryAt(mem[..], cursor + 8 + 2 * index), page, size);
      match meaning {
        case Nothing =>
        case Refuse(why) => return why, 0;
        case Fix(target) =>
          ClassifyInside(EntryAt(mem[..], cursor + 8 + 2 * index), page, size);
          AddInPlace(mem, target, delta);
      }
      index := index + 1;
    }
    blockSize := declared;
    status := Success;
  }

  lemma ClassifyInside(entry: u16, page: u32, size: nat)
    ensures Classify(entry, page, size).Fix? ==> Classify(entry, page, size).target + 8 <= size
  {
  }

  /** Reads the qword, adds, and writes its eight bytes back. */
  method AddInPlace(mem: array<byte>, t: nat, delta: u64)
    requires t + 8 <= mem.Length
    modifies mem
    ensures mem[..] == AddAt(old(mem[..]), t, delta)
  {
    hide LE, U64;
    var bytes := LE(8, (QwordAt(mem[..], t) + delta) % WORD);
    ghost var was := mem[..];
    var i := 0;
    while i < 8
      invariant i <= 8
      invariant forall k :: 0 <= k < mem.Length ==> mem[k] == if t <= k < t + i then bytes[k - t] else was[k]
    {
      mem[t + i] := bytes[i];
      i := i + 1;
    }
  }

  lemma WalkEnds(mem: seq<byte>, size: nat, end: nat, delta: u64)
    requires end <= |mem| && size <= |mem|
    ensures WalkBlocks(mem, size, end, end, delta) == Walked(mem, Success)
  {
  }

  /** The whole relocation; the cursor never passes the end, so the walk stops exactly there or fails. */
  method ApplyRelocations(image: Image, mem: array<byte>, newBase: u64) returns (status: Status)
    requires image.size <= mem.Length
    modifies mem
    ensures Walked(mem[..], status) == Relocate(image, old(mem[..]), newBase)
  {
    hide WalkBlocks;
    if newBase == image.base {
      return Success;
    }
    if image.directory == 0 || image.directorySize == 0 || image.directory + image.directorySize > image.size {
      return ImageRelocationFailed;
    }
    var delta := Delta(image.base, newBase);
    var cursor: nat := image.directory;
    var end := cursor + image.directorySize;
    ghost var whole := WalkBlocks(mem[..], image.size, cursor, end, delta);
    while cursor < end
      invariant cursor <= end
      invariant WalkBlocks(mem[..], image.size, cursor, end, delta) == whole
      decreases end - cursor
    {
      var blockSize;
      status, blockSize := ApplyBlock(mem, image.size, cursor, end, delta);
      if status.Failed() {
        return;
      }
      cursor := cursor + blockSize;
    }
    WalkEnds(mem[..], image.size, end, delta);
    status := Success;
  }

  // Directories as linkers write them.

  /** Relocations of one page, and the entries without meaning that fill the block up. */
  datatype PageBlock = PageBlock(page: u32, offsets: seq<nat>, padding: nat)

  ghost predicate BlockOk(b: PageBlock, size: nat) {
    && 8 + 2 * (|b.offsets| + b.padding) < 0x1_0000_0000
    && forall i :: 0 <= i < |b.offsets| ==> b.offsets[i] < 0x1000 && b.page + b.offsets[i] + 8 <= size
  }

  /** The entries: type 10 in the high four bits, the offset in the others. */
  function EntriesOf(offsets: seq<nat>, padding: nat): (s: seq<byte>)
    ensures |s| == 2 * (|offsets| + padding)
    decreases |offsets| + padding
  {
    if offsets != [] then LE(2, 0xa000 + offsets[0]) + EntriesOf(offsets[1..], padding)
    else if padding > 0 then LE(2, 0) + EntriesOf([], padding - 1)
    else []
  }

  function BlockBytes(b: PageBlock): (s: seq<byte>)
    ensures |s| == 8 + 2 * (|b.offsets| + b.padding)
  {
    LE(4, b.page) + LE(4, 8 + 2 * (|b.offsets| + b.padding)) + EntriesOf(b.offsets, b.padding)
  }

  function DirectoryBytes(blocks: seq<PageBlock>): seq<byte> {
    if blocks == [] then [] else BlockBytes(blocks[0]) + DirectoryBytes(blocks[1..])
  }

  function PageTargets(page: u32, offsets: seq<nat>): seq<nat> {
    if offsets == [] then [] else [page + offsets[0]] + PageTargets(page, offsets[1..])
  }

  /** The places that a directory names. */
  function TargetsNamed(blocks: seq<PageBlock>): seq<nat> {
    if blocks == [] then [] else PageTargets(blocks[0].page, blocks[0].offsets) + TargetsNamed(blocks[1..])
  }

  lemma EntryMeans(mem: seq<byte>, at: nat, v: u16)
    requires at + 2 <= |mem| && mem[at..at + 2] == LE(2, v)
    ensures EntryAt(mem, at) == v
  {
    RoundTrip16(v);
  }

  lemma {:induction false} EntriesParse(mem: seq<byte>, size: nat, page: u32, at: nat, offsets: seq<nat>, padding: nat)
    requires at + 2 * (|offsets| + padding) <= |mem| && size < 0x1_0000_0000
    requires mem[at..at + 2 * (|offsets| + padding)] == EntriesOf(offsets, padding)
    requires forall i :: 0 <= i < |offsets| ==> offsets[i] < 0x1000 && page + offsets[i] + 8 <= size
    ensures ParseEntries(mem, size, page, at, |offsets| + padding) == Parsed(PageTargets(page, offsets), Success)
    decreases |offsets| + padding
  {
    hide EntryAt, LE;
    var n := |offsets| + padding;
    if n > 0 {
      var all := EntriesOf(offsets, padding);
      assert mem[at..at + 2] == mem[at..at + 2 * n][..2];
      assert mem[at + 2..at + 2 * n] == mem[at..at + 2 * n][2..];
      if offsets != [] {
        assert all[..2] == LE(2, 0xa000 + offsets[0]) && all[2..] == EntriesOf(offsets[1..], padding);
        EntryMeans(mem, at, 0xa000 + offsets[0]);
        EntriesParse(mem, size, page, at + 2, offsets[1..], padding);
      } else {
        assert all[..2] == LE(2, 0) && all[2..] == EntriesOf([], padding - 1);
        EntryMeans(mem, at, 0);
        EntriesParse(mem, size, page, at + 2, [], padding - 1);
      }
    }
  }

  /** A directory names the places that it was written for, in order. */
  lemma {:induction false} DirectoryNames(mem: seq<byte>, size: nat, cursor: nat, blocks: seq<PageBlock>)
    requires cursor + |DirectoryBytes(blocks)| <= |mem| && size < 0x1_0000_0000
    requires mem[cursor..cursor + |DirectoryBytes(blocks)|] == DirectoryBytes(blocks)
    requires forall i :: 0 <= i < |blocks| ==> BlockOk(blocks[i], size)
    ensures ParseBlocks(mem, size, cursor, cursor + |DirectoryBytes(blocks)|) == Parsed(TargetsNamed(blocks), Success)
    decreases |blocks|
  {
    hide ParseEntries, EntriesOf, PageTargets, WordAt, BlockBytes;
    if blocks != [] {
      var b, end := blocks[0], cursor + |DirectoryBytes(blocks)|;
      var first := BlockBytes(b);
      assert BlockOk(b, size);
      BlockReads(mem, cursor, b, DirectoryBytes(blocks[1..]));
      EntriesParse(mem, size, b.page, cursor + 8, b.offsets, b.padding);
      DirectoryNames(mem, size, cursor + |first|, blocks[1..]);
    }
  }

  lemma BlockReads(mem: seq<byte>, cursor: nat, b: PageBlock, rest: seq<byte>)
    requires 8 + 2 * (|b.offsets| + b.padding) < 0x1_0000_0000 && cursor + |BlockBytes(b)| + |rest| <= |mem|
    requires mem[cursor..cursor + |BlockBytes(b)| + |rest|] == BlockBytes(b) + rest
    ensures WordAt(mem, cursor) == b.page && WordAt(mem, cursor + 4) == |BlockBytes(b)|
    ensures mem[cursor + 8..cursor + |BlockBytes(b)|] == EntriesOf(b.offsets, b.padding)
    ensures mem[cursor + |BlockBytes(b)|..cursor + |BlockBytes(b)| + |rest|] == rest
  {
    hide LE, EntriesOf, U32;
    var n := |BlockBytes(b)|;
    var s := mem[cursor..cursor + n + |rest|];
    var head, size, entries := LE(4, b.page), LE(4, n), EntriesOf(b.offsets, b.padding);
    FourPieces(head, size, entries, rest);
    SliceOfSlice(mem, cursor, cursor + n + |rest|, 0, 4);
    SliceOfSlice(mem, cursor, cursor + n + |rest|, 4, 8);
    SliceOfSlice(mem, cursor, cursor + n + |rest|, 8, n);
    SliceOfSlice(mem, cursor, cursor + n + |rest|, n, n + |rest|);
    RoundTrip32(b.page);
    RoundTrip32(n);
  }

  lemma FourPieces(a: seq<byte>, b: seq<byte>, c: seq<byte>, d: seq<byte>)
    ensures var s := a + b + c + d;
            && s[0..|a|] == a && s[|a|..|a| + |b|] == b && s[|a| + |b|..|a| + |b| + |c|] == c
            && s[|a| + |b| + |c|..|a| + |b| + |c| + |d|] == d
  {
  }
}
