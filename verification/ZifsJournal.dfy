/**
 * The active transaction of the journal as tools/zifsinspect/inspect.c validates it, and the
 * replay overlay through which the home metadata is then read.
 */
module ZifsJournal {
  import opened Status
  import opened Unicode
  import opened Layout
  import opened ZifsFormat

  // Overlays.

  datatype Image = Image(target: nat, block: Block)

  function Lookup(images: seq<Image>, b: nat): Option<Block> {
    if images == [] then None
    else if images[0].target == b then Some(images[0].block)
    else Lookup(images[1..], b)
  }

  /** A device seen through an overlay: the first image for a block hides the block itself. */
  function View(dev: Device, images: seq<Image>): (v: Device)
    ensures |v| == |dev|
  {
    seq(|dev|, b requires 0 <= b < |dev| => Seen(dev, images, b))
  }

  function Seen(dev: Device, images: seq<Image>, b: nat): Block
    requires b < |dev|
  {
    match Lookup(images, b)
    case Some(block) => block
    case None => dev[b]
  }

  lemma ViewAt(dev: Device, images: seq<Image>, b: nat)
    requires b < |dev|
    ensures View(dev, images)[b] == match Lookup(images, b) case Some(block) => block case None => dev[b]
  {
    hide Lookup;
  }

  function WriteAll(dev: Device, images: seq<Image>): (d: Device)
    ensures |d| == |dev|
    decreases |images|
  {
    if images == [] then dev
    else if images[0].target < |dev| then WriteAll(dev[images[0].target := images[0].block], images[1..])
    else WriteAll(dev, images[1..])
  }

  ghost predicate TargetsDistinct(images: seq<Image>) {
    forall i, j :: 0 <= i < j < |images| ==> images[i].target != images[j].target
  }

  predicate Targets(images: seq<Image>, b: int) {
    exists i :: 0 <= i < |images| && images[i].target == b
  }

  lemma TargetsSplit(images: seq<Image>, b: int)
    requires images != []
    ensures Targets(images, b) <==> images[0].target == b || Targets(images[1..], b)
  {
    var rest := images[1..];
    if Targets(rest, b) {
      var i :| 0 <= i < |rest| && rest[i].target == b;
      assert images[i + 1].target == b;
    }
    if Targets(images, b) && images[0].target != b {
      var i :| 0 <= i < |images| && images[i].target == b;
      assert rest[i - 1].target == b;
    }
  }

  lemma {:induction false} LookupFinds(images: seq<Image>, b: nat)
    ensures Lookup(images, b).Some? <==> Targets(images, b)
    ensures Lookup(images, b).Some? ==> Image(b, Lookup(images, b).value) in images
  {
    if images != [] {
      LookupFinds(images[1..], b);
      TargetsSplit(images, b);
    }
  }

  /** After the writes a block holds one of the images for it, or what it held before. */
  lemma {:induction false} WriteAllAt(dev: Device, images: seq<Image>, b: nat)
    requires b < |dev|
    ensures Targets(images, b) ==> Image(b, WriteAll(dev, images)[b]) in images
    ensures !Targets(images, b) ==> WriteAll(dev, images)[b] == dev[b]
    decreases |images|
  {
    if images != [] {
      var rest := images[1..];
      var next := if images[0].target < |dev| then dev[images[0].target := images[0].block] else dev;
      WriteAllAt(next, rest, b);
      TargetsSplit(images, b);
    }
  }

  /**
   * The overlay view is the device after the images are written, in any order and with any
   * repetition, as long as no two images name the same block.
   */
  lemma AnyOrder(dev: Device, images: seq<Image>, order: seq<Image>)
    requires TargetsDistinct(images)
    requires forall x :: x in order <==> x in images
    ensures WriteAll(dev, order) == View(dev, images)
  {
    hide WriteAll, Lookup;
    forall b | 0 <= b < |dev|
      ensures WriteAll(dev, order)[b] == View(dev, images)[b]
    {
      SameTargets(order, images, b);
      WriteAllAt(dev, order, b);
      LookupFinds(images, b);
      if Targets(images, b) {
        OneImage(images, Image(b, WriteAll(dev, order)[b]), Image(b, Lookup(images, b).value));
      }
    }
  }

  lemma OneImage(images: seq<Image>, x: Image, y: Image)
    requires TargetsDistinct(images) && x in images && y in images && x.target == y.target
    ensures x == y
  {
    var i :| 0 <= i < |images| && images[i] == x;
    var j :| 0 <= j < |images| && images[j] == y;
    if i < j {} else if j < i {}
  }

  lemma SameTargets(a: seq<Image>, b: seq<Image>, t: int)
    requires forall x :: x in a <==> x in b
    ensures Targets(a, t) <==> Targets(b, t)
  {
    if Targets(a, t) {
      var i :| 0 <= i < |a| && a[i].target == t;
      assert a[i] in b;
    }
    if Targets(b, t) {
      var i :| 0 <= i < |b| && b[i].target == t;
      assert b[i] in a;
    }
  }

  /** Reading a run of blocks through an overlay, one block at a time. */
  method ReadThrough(dev: Device, images: seq<Image>, first: nat, count: nat) returns (r: Checked<seq<Block>>)
    ensures count == 0 || first >= |dev| || count > |dev| - first ==> r == Err(InvalidArgument)
    ensures count != 0 && first + count <= |dev| ==> r == Ok(View(dev, images)[first..first + count])
  {
    hide Lookup, View;
    ghost var view := View(dev, images);
    if count == 0 || first >= |dev| || count > |dev| - first {
      return Err(InvalidArgument);
    }
    var output: seq<Block> := [];
    var offset := 0;
    while offset < count
      invariant offset <= count && output == view[first..first + offset]
    {
      var image := FindImage(images, first + offset);
      var block := if image.Some? then image.value else dev[first + offset];
      ViewAt(dev, images, first + offset);
      assert view[first..first + offset + 1] == view[first..first + offset] + [view[first + offset]];
      output := output + [block];
      offset := offset + 1;
    }
    return Ok(output);
  }

  method FindImage(images: seq<Image>, b: nat) returns (r: Option<Block>)
    ensures r == Lookup(images, b)
  {
    var index := 0;
    while index < |images|
      invariant index <= |images|
      invariant Lookup(images, b) == Lookup(images[index..], b)
    {
      if images[index].target == b {
        return Some(images[index].block);
      }
      assert images[index..][1..] == images[index + 1..];
      index := index + 1;
    }
    return None;
  }

  // The active transaction.

  const BEGIN: u16 := 1
  const BLOCK_IMAGE: u16 := 2
  const COMMIT: u16 := 3
  const CHECKPOINT: u16 := 4
  const MAXIMUM_IMAGES := 28

  datatype JournalRecord = JournalRecord(
    kind: u16, flags: u16, transaction: u64, sequence: u64, target: u64,
    sourceGeneration: u64, targetGeneration: u64, images: u32, checksum: u32, payload: seq<byte>)

  predicate RecordOk(r: JournalRecord) {
    && r.transaction != 0 && r.sequence != 0 && r.sourceGeneration != 0 && r.sourceGeneration != MAX64
    && r.targetGeneration == r.sourceGeneration + 1 && r.flags == 0 && |r.payload| <= BLOCK_SIZE
    && if r.kind == BLOCK_IMAGE then
         r.target != MAX64 && |r.payload| == BLOCK_SIZE && r.images == 0 && r.checksum == 0
       else
         && r.target == MAX64 && r.payload == [] && r.images != 0
         && if r.kind == BEGIN then r.checksum == 0
            else (r.kind == COMMIT || r.kind == CHECKPOINT) && r.checksum != 0
  }

  function ExtendChecksum(sum: u32, image: JournalRecord): u32 {
    Checksum(sum, LE(8, image.transaction) + LE(8, image.sequence) + LE(8, image.target)
                  + LE(4, Checksum(0, image.payload)) + Zeros(4))
  }

  /** A journalled image may not replace a superblock copy or a block of the journal. */
  predicate TargetValid(id: Identity, target: nat) {
    && target < id.total && target != 0 && target != id.backup
    && !(target >= id.journalStart && target - id.journalStart < id.journalBlocks)
  }

  predicate ImageMatches(id: Identity, begin: JournalRecord, image: JournalRecord, index: nat) {
    && image.kind == BLOCK_IMAGE
    && image.transaction == begin.transaction
    && image.sourceGeneration == begin.sourceGeneration
    && image.targetGeneration == begin.targetGeneration
    && image.sequence == begin.sequence + index + 1
    && TargetValid(id, image.target)
  }

  datatype Collected = Collected(images: seq<Image>, sum: u32)

  function Collect(id: Identity, begin: JournalRecord, records: seq<JournalRecord>, done: Collected): Checked<Collected>
    requires |done.images| <= |records|
    decreases |records| - |done.images|
  {
    var index := |done.images|;
    if index == |records| then Ok(done)
    else
      var image := records[index];
      if !ImageMatches(id, begin, image, index) || Targets(done.images, image.target) then Err(CorruptFilesystem)
      else if !RecordOk(image) then Err(InvalidArgument)
      else Collect(id, begin, records,
                   Collected(done.images + [Image(image.target, image.payload)], ExtendChecksum(done.sum, image)))
  }

  function Finalise(sum: u32): u32 { if sum == 0 then 0xffff_ffff else sum }

  predicate BeginMatches(super: Superblock, header: JournalHeader, begin: JournalRecord, count: nat) {
    && begin.kind == BEGIN
    && 0 < begin.images <= MAXIMUM_IMAGES && count == begin.images + 2
    && begin.sourceGeneration != MAX64
    && begin.targetGeneration == begin.sourceGeneration + 1
    && begin.targetGeneration == super.generation
    && begin.targetGeneration == header.volumeGeneration
    && begin.sequence <= MAX64 - begin.images - 1
  }

  predicate CommitMatches(header: JournalHeader, begin: JournalRecord, commit: JournalRecord, sum: u32) {
    && commit.kind == COMMIT
    && commit.transaction == begin.transaction
    && commit.sourceGeneration == begin.sourceGeneration
    && commit.targetGeneration == begin.targetGeneration
    && commit.sequence == begin.sequence + begin.images + 1
    && commit.checksum == sum
    && header.lastCommitted == begin.transaction
    && commit.sequence != MAX64 && header.nextSequence == commit.sequence + 1
  }

  /** The images of a whole committed transaction, or why the records are not one. */
  function Transaction(super: Superblock, header: JournalHeader, records: seq<JournalRecord>): Checked<seq<Image>> {
    var n := |records|;
    if n < 3 || !BeginMatches(super, header, records[0], n) then Err(CorruptFilesystem)
    else match Collect(super.id, records[0], records[1..n - 1], Collected([], 0))
      case Err(status) => Err(status)
      case Ok(c) =>
        if CommitMatches(header, records[0], records[n - 1], Finalise(c.sum)) then Ok(c.images) else Err(CorruptFilesystem)
  }

  /** The loop over the image records, with its scan of the targets seen so far. */
  method CollectImages(id: Identity, begin: JournalRecord, records: seq<JournalRecord>) returns (r: Checked<Collected>)
    ensures r == Collect(id, begin, records, Collected([], 0))
  {
    hide ImageMatches, RecordOk, ExtendChecksum;
    var images: seq<Image>, sum: u32 := [], 0;
    while |images| < |records|
      invariant |images| <= |records|
      invariant Collect(id, begin, records, Collected(images, sum)) == Collect(id, begin, records, Collected([], 0))
    {
      var image := records[|images|];
      if !ImageMatches(id, begin, image, |images|) {
        return Err(CorruptFilesystem);
      }
      var prior := 0;
      while prior < |images|
        invariant prior <= |images|
        invariant forall i :: 0 <= i < prior ==> images[i].target != image.target
      {
        if images[prior].target == image.target {
          return Err(CorruptFilesystem);
        }
        prior := prior + 1;
      }
      if !RecordOk(image) {
        return Err(InvalidArgument);
      }
      assert |image.payload| == BLOCK_SIZE by { ImageIsBlock(id, begin, image, |images|); }
      images, sum := images + [Image(image.target, image.payload)], ExtendChecksum(sum, image);
    }
    return Ok(Collected(images, sum));
  }

  lemma ImageIsBlock(id: Identity, begin: JournalRecord, image: JournalRecord, index: nat)
    requires ImageMatches(id, begin, image, index) && RecordOk(image)
    ensures |image.payload| == BLOCK_SIZE
  {
  }

  ghost predicate ImagesGood(id: Identity, images: seq<Image>) {
    && TargetsDistinct(images)
    && forall i :: 0 <= i < |images| ==> TargetValid(id, images[i].target)
  }

  lemma {:induction false} CollectGood(id: Identity, begin: JournalRecord, records: seq<JournalRecord>, done: Collected)
    requires |done.images| <= |records| && ImagesGood(id, done.images)
    requires Collect(id, begin, records, done).Ok?
    ensures var c := Collect(id, begin, records, done).value;
            && ImagesGood(id, c.images) && |c.images| == |records|
            && (forall i :: 0 <= i < |done.images| ==> c.images[i] == done.images[i])
            && (forall i :: |done.images| <= i < |records| ==>
                  c.images[i].target == records[i].target && c.images[i].block == records[i].payload)
    decreases |records| - |done.images|
  {
    hide TargetValid, ExtendChecksum;
    var index := |done.images|;
    if index < |records| {
      var image := records[index];
      var next := Collected(done.images + [Image(image.target, image.payload)], ExtendChecksum(done.sum, image));
      assert ImagesGood(id, next.images);
      CollectGood(id, begin, records, next);
    }
  }

  /** A validated transaction's images are those its records carry, for distinct home blocks. */
  lemma TransactionGood(super: Superblock, header: JournalHeader, records: seq<JournalRecord>)
    requires Transaction(super, header, records).Ok?
    ensures var images := Transaction(super, header, records).value;
            && ImagesGood(super.id, images) && |images| == |records| - 2
            && forall i :: 0 <= i < |images| ==>
                 images[i].target == records[i + 1].target && images[i].block == records[i + 1].payload
  {
    hide BeginMatches, CommitMatches, TargetValid, Collect;
    CollectGood(super.id, records[0], records[1..|records| - 1], Collected([], 0));
  }

  /** The checksum over the first n of the image records. */
  ghost function SumOver(records: seq<JournalRecord>, n: nat): u32
    requires n <= |records|
    decreases n
  {
    if n == 0 then 0 else ExtendChecksum(SumOver(records, n - 1), records[n - 1])
  }

  ghost predicate ImageFollows(id: Identity, begin: JournalRecord, records: seq<JournalRecord>, i: nat)
    requires i < |records|
  {
    && ImageMatches(id, begin, records[i], i) && RecordOk(records[i])
    && forall j :: 0 <= j < i ==> records[j].target != records[i].target
  }

  ghost predicate CollectedFrom(records: seq<JournalRecord>, done: Collected) {
    && |done.images| <= |records| && done.sum == SumOver(records, |done.images|)
    && forall i :: 0 <= i < |done.images| ==> done.images[i].target == records[i].target
  }

  lemma {:induction false} CollectExactly(id: Identity, begin: JournalRecord, records: seq<JournalRecord>, done: Collected)
    requires CollectedFrom(records, done)
    ensures Collect(id, begin, records, done).Ok? <==>
      forall i :: |done.images| <= i < |records| ==> ImageFollows(id, begin, records, i)
    ensures Collect(id, begin, records, done).Ok? ==>
      Collect(id, begin, records, done).value.sum == SumOver(records, |records|)
    decreases |records| - |done.images|
  {
    hide ImageMatches, ExtendChecksum;
    var index := |done.images|;
    if index < |records| {
      var image := records[index];
      assert Targets(done.images, image.target) <==> exists j :: 0 <= j < index && records[j].target == image.target;
      if ImageFollows(id, begin, records, index) {
        ImageIsBlock(id, begin, image, index);
        CollectExactly(id, begin, records,
                       Collected(done.images + [Image(image.target, image.payload)], ExtendChecksum(done.sum, image)));
      }
    }
  }

  /** What a record has to be at its place among all those of a transaction. */
  ghost predicate InPlace(super: Superblock, header: JournalHeader, records: seq<JournalRecord>, i: nat)
    requires i < |records|
  {
    var r := records[i];
    && r.transaction == header.lastCommitted && r.sequence == records[0].sequence + i
    && r.targetGeneration == super.generation == header.volumeGeneration
    && r.kind == (if i == 0 then BEGIN else if i == |records| - 1 then COMMIT else BLOCK_IMAGE)
    && (r.kind == BLOCK_IMAGE ==>
          && TargetValid(super.id, r.target)
          && forall j :: 0 < j < i ==> records[j].target != r.target)
  }

  ghost predicate WholeTransaction(super: Superblock, header: JournalHeader, records: seq<JournalRecord>) {
    && 3 <= |records| <= MAXIMUM_IMAGES + 2 && records[0].images == |records| - 2
    && (forall i :: 0 <= i < |records| ==> InPlace(super, header, records, i))
    && records[|records| - 1].checksum == Finalise(SumOver(records[1..|records| - 1], |records| - 2))
    && header.nextSequence == records[0].sequence + |records|
  }

  /**
   * Of records that can be read, those are a transaction that are numbered without a gap up to the header's
   * next number, all of its last transaction and generation, from a begin record with their count over images
   * for distinct home blocks to a commit record with the checksum over them. Nothing else is replayed.
   */
  lemma TransactionExactly(super: Superblock, header: JournalHeader, records: seq<JournalRecord>)
    requires forall i :: 0 <= i < |records| ==> RecordOk(records[i])
    ensures Transaction(super, header, records).Ok? <==> WholeTransaction(super, header, records)
  {
    hide Collect, Finalise, SumOver, InPlace, BeginMatches, CommitMatches, ImageFollows, RecordOk;
    var n := |records|;
    if n >= 3 {
      var middle := records[1..n - 1];
      var sum := Finalise(SumOver(middle, n - 2));
      NoneSummed(middle);
      CollectExactly(super.id, records[0], middle, Collected([], 0));
      EndsPlaced(super, header, records, sum);
      if InPlace(super, header, records, 0) {
        forall i | 1 <= i < n - 1
          ensures InPlace(super, header, records, i) <==> ImageFollows(super.id, records[0], middle, i - 1)
        {
          ImagePlaced(super, header, records, i);
        }
        MiddlePlaced(super, header, records, middle);
      }
    }
  }

  lemma NoneSummed(records: seq<JournalRecord>)
    ensures SumOver(records, 0) == 0
  {
  }

  lemma EndsPlaced(super: Superblock, header: JournalHeader, records: seq<JournalRecord>, sum: u32)
    requires |records| >= 3 && RecordOk(records[0]) && RecordOk(records[|records| - 1])
    ensures BeginMatches(super, header, records[0], |records|) && CommitMatches(header, records[0], records[|records| - 1], sum)
      <==> && |records| <= MAXIMUM_IMAGES + 2 && records[0].images == |records| - 2
           && InPlace(super, header, records, 0) && InPlace(super, header, records, |records| - 1)
           && records[|records| - 1].checksum == sum && header.nextSequence == records[0].sequence + |records|
  {
  }

  lemma ImagePlaced(super: Superblock, header: JournalHeader, records: seq<JournalRecord>, i: nat)
    requires 1 <= i < |records| - 1 && InPlace(super, header, records, 0)
    requires RecordOk(records[0]) && RecordOk(records[i])
    ensures InPlace(super, header, records, i) <==>
      ImageFollows(super.id, records[0], records[1..|records| - 1], i - 1)
  {
    hide TargetValid;
    var middle := records[1..|records| - 1];
    assert middle[i - 1] == records[i];
    if ImageFollows(super.id, records[0], middle, i - 1) {
      forall j | 0 < j < i
        ensures records[j].target != records[i].target
      {
        assert middle[j - 1] == records[j];
      }
    }
  }

  lemma MiddlePlaced(super: Superblock, header: JournalHeader, records: seq<JournalRecord>, middle: seq<JournalRecord>)
    requires |records| >= 3 && |middle| == |records| - 2
    requires forall i :: 1 <= i < |records| - 1 ==>
      (InPlace(super, header, records, i) <==> ImageFollows(super.id, records[0], middle, i - 1))
    ensures (forall i :: 1 <= i < |records| - 1 ==> InPlace(super, header, records, i)) <==>
      forall i :: 0 <= i < |middle| ==> ImageFollows(super.id, records[0], middle, i)
  {
    hide InPlace, ImageFollows;
    if forall i :: 1 <= i < |records| - 1 ==> InPlace(super, header, records, i) {
      forall i | 0 <= i < |middle|
        ensures ImageFollows(super.id, records[0], middle, i)
      {
        assert InPlace(super, header, records, i + 1);
      }
    }
  }

  /**
   * What the inspector sees through the overlay of a validated transaction is the device with all
   * the block images written, in any order; superblocks and journal blocks are seen unchanged.
   */
  lemma ReplayView(dev: Device, super: Superblock, header: JournalHeader, records: seq<JournalRecord>, order: seq<Image>)
    requires Transaction(super, header, records).Ok?
    requires forall x :: x in order <==> x in Transaction(super, header, records).value
    ensures WriteAll(dev, order) == View(dev, Transaction(super, header, records).value)
    ensures forall b :: 0 <= b < |dev| && !TargetValid(super.id, b) ==>
      View(dev, Transaction(super, header, records).value)[b] == dev[b]
  {
    hide Transaction, TargetValid, WriteAll, Lookup;
    var images := Transaction(super, header, records).value;
    TransactionGood(super, header, records);
    AnyOrder(dev, images, order);
    forall b | 0 <= b < |dev| && !TargetValid(super.id, b)
      ensures View(dev, images)[b] == dev[b]
    {
      LookupFinds(images, b);
    }
  }

  // The records that a commit writes (kernel/fs/zifs/transaction.c).

  datatype Commit = Commit(transaction: u64, sequence: u64, source: u64, images: seq<Image>)

  /** What the kernel makes sure of before it writes a record. */
  ghost predicate CommitOk(id: Identity, c: Commit) {
    && c.transaction != 0 && c.sequence != 0 && c.source != 0 && c.source < MAX64
    && 1 <= |c.images| <= MAXIMUM_IMAGES && c.sequence <= MAX64 - |c.images| - 3
    && ImagesGood(id, c.images)
  }

  function ImageRecord(c: Commit, i: nat): JournalRecord
    requires i < |c.images| && c.sequence + 1 + i <= MAX64 && c.source < MAX64 && c.images[i].target <= MAX64
  {
    JournalRecord(BLOCK_IMAGE, 0, c.transaction, c.sequence + 1 + i, c.images[i].target, c.source, c.source + 1, 0, 0, c.images[i].block)
  }

  ghost function ImageRecords(id: Identity, c: Commit): (r: seq<JournalRecord>)
    requires CommitOk(id, c)
    ensures |r| == |c.images|
  {
    seq(|c.images|, i requires 0 <= i < |c.images| => ImageRecord(c, i))
  }

  /** The checksum over the first n images. */
  ghost function SumOf(id: Identity, c: Commit, n: nat): u32
    requires CommitOk(id, c) && n <= |c.images|
    decreases n
  {
    if n == 0 then 0 else ExtendChecksum(SumOf(id, c, n - 1), ImageRecord(c, n - 1))
  }

  ghost function Bracket(id: Identity, c: Commit, kind: u16, sequence: u64, checksum: u32): JournalRecord
    requires CommitOk(id, c)
  {
    JournalRecord(kind, 0, c.transaction, sequence, MAX64, c.source, c.source + 1, |c.images|, checksum, [])
  }

  ghost function Journalled(id: Identity, c: Commit): seq<JournalRecord>
    requires CommitOk(id, c)
  {
    [Bracket(id, c, BEGIN, c.sequence, 0)] + ImageRecords(id, c)
      + [Bracket(id, c, COMMIT, c.sequence + |c.images| + 1, Finalise(SumOf(id, c, |c.images|)))]
  }

  lemma ImageTaken(id: Identity, c: Commit, n: nat)
    requires CommitOk(id, c) && n < |c.images|
    ensures var r := ImageRecord(c, n);
            && ImageMatches(id, Bracket(id, c, BEGIN, c.sequence, 0), r, n) && RecordOk(r)
            && !Targets(c.images[..n], r.target) && Image(r.target, r.payload) == c.images[n]
  {
    assert TargetValid(id, c.images[n].target);
    forall i | 0 <= i < n
      ensures c.images[..n][i].target != c.images[n].target
    {
    }
  }

  lemma {:induction false} CollectsCommit(id: Identity, c: Commit, n: nat)
    requires CommitOk(id, c) && n <= |c.images|
    ensures Collect(id, Bracket(id, c, BEGIN, c.sequence, 0), ImageRecords(id, c), Collected(c.images[..n], SumOf(id, c, n)))
         == Ok(Collected(c.images, SumOf(id, c, |c.images|)))
    decreases |c.images| - n
  {
    hide ExtendChecksum, CommitOk, ImageMatches, RecordOk, Targets, Bracket, ImageRecord;
    if n == |c.images| {
      assert c.images[..n] == c.images;
    } else {
      RecordIs(id, c, n);
      ImageTaken(id, c, n);
      assert c.images[..n + 1] == c.images[..n] + [c.images[n]];
      CollectsCommit(id, c, n + 1);
    }
  }

  lemma RecordIs(id: Identity, c: Commit, n: nat)
    requires CommitOk(id, c) && n < |c.images|
    ensures c.sequence + 1 + n <= MAX64 && c.source < MAX64 && c.images[n].target <= MAX64
    ensures ImageRecords(id, c)[n] == ImageRecord(c, n)
    ensures SumOf(id, c, n + 1) == ExtendChecksum(SumOf(id, c, n), ImageRecord(c, n))
  {
    hide ExtendChecksum;
    assert TargetValid(id, c.images[n].target);
  }

  lemma BracketsMatch(super: Superblock, header: JournalHeader, c: Commit, sum: u32)
    requires CommitOk(super.id, c) && super.generation == c.source + 1 && header.volumeGeneration == c.source + 1
    requires header.lastCommitted == c.transaction && header.nextSequence == c.sequence + |c.images| + 2
    ensures c.sequence + |c.images| + 1 <= MAX64
    ensures var begin := Bracket(super.id, c, BEGIN, c.sequence, 0);
            && BeginMatches(super, header, begin, |c.images| + 2)
            && CommitMatches(header, begin, Bracket(super.id, c, COMMIT, c.sequence + |c.images| + 1, sum), sum)
  {
    hide ImagesGood;
  }

  /**
   * The records a commit writes are a transaction to the inspector, under the header it then writes,
   * and the images replayed are exactly those committed.
   */
  lemma CommitReplays(super: Superblock, header: JournalHeader, c: Commit)
    requires CommitOk(super.id, c) && super.generation == c.source + 1 && header.volumeGeneration == c.source + 1
    requires header.lastCommitted == c.transaction && header.nextSequence == c.sequence + |c.images| + 2
    ensures Transaction(super, header, Journalled(super.id, c)) == Ok(c.images)
  {
    hide CommitOk, Collect, ImageRecords, SumOf, Bracket, BeginMatches, CommitMatches, Finalise;
    var sum := Finalise(SumOf(super.id, c, |c.images|));
    CollectsCommit(super.id, c, 0);
    BracketsMatch(super, header, c, sum);
    var records := Journalled(super.id, c);
    var images := ImageRecords(super.id, c);
    assert |records| == |c.images| + 2 && |c.images| >= 1 by { assert CommitOk(super.id, c); AtLeastOne(super.id, c); }
    assert c.images[..0] == [];
    assert SumOf(super.id, c, 0) == 0 by { NoSum(super.id, c); }
    assert records[1..|records| - 1] == images;
  }

  lemma AtLeastOne(id: Identity, c: Commit)
    requires CommitOk(id, c)
    ensures |c.images| >= 1
  {
  }

  lemma NoSum(id: Identity, c: Commit)
    requires CommitOk(id, c)
    ensures SumOf(id, c, 0) == 0
  {
  }
}
