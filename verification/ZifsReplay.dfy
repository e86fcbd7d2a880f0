/**
 * What an inspection (tools/zifsinspect/inspect.c) makes of a volume whose journal holds a committed
 * transaction (kernel/fs/zifs/transaction.c): it sees the home as replaying the transaction leaves it.
 */
module ZifsReplay {
  import opened Status
  import opened ZifsFormat
  import opened ZifsJournal
  import opened ZifsHome
  import opened ZifsInspect

  // Reading the ring.

  /** The records from one place of the journal's ring on are these. */
  ghost predicate RingHolds(rd: Readers, dev: Device, start: nat, capacity: nat, index: nat, records: seq<JournalRecord>) {
    forall j :: 0 <= j < |records| ==> RecordHeld(rd, dev, start + 2 + 2 * Along(capacity, index, j), records[j])
  }

  ghost predicate RecordHeld(rd: Readers, dev: Device, b: nat, r: JournalRecord) {
    b + 1 < |dev| && rd.journal(dev[b], dev[b + 1]) == Ok(r)
  }

  lemma {:induction false} RingRead(rd: Readers, dev: Device, start: nat, capacity: nat, index: nat, records: seq<JournalRecord>)
    requires RingHolds(rd, dev, start, capacity, index, records)
    ensures ReadRecords(rd, dev, start, capacity, index, |records|) == Ok(records)
    decreases |records|
  {
    if records != [] {
      assert RecordHeld(rd, dev, start + 2 + 2 * Along(capacity, index, 0), records[0]);
      forall j | 0 <= j < |records[1..]|
        ensures RecordHeld(rd, dev, start + 2 + 2 * Along(capacity, NextRecord(capacity, index), j), records[1..][j])
      {
        assert RecordHeld(rd, dev, start + 2 + 2 * Along(capacity, index, j + 1), records[j + 1]);
      }
      RingRead(rd, dev, start, capacity, NextRecord(capacity, index), records[1..]);
      assert records == [records[0]] + records[1..];
    }
  }

  // Inspecting through the overlay.

  /** The superblock that a device is mounted with, and the journal header in force. */
  ghost predicate InForce(dev: Device, sel: Selection, chosen: Chosen)
    requires |dev| >= 2
  {
    var id := sel.super.id;
    && Select(DecodeSuperblock(dev[0]), DecodeSuperblock(dev[|dev| - 1])) == Ok(sel)
    && id.total == |dev| && OnlyKnownFeatures(id) && UsesSecurity(id)
    && HeaderValid(chosen.header) && RecordCapacity(id.journalBlocks).Some?
    && var capacity := RecordCapacity(id.journalBlocks).value;
       ChooseHeader(JournalCopy(dev, id.journalStart, capacity), JournalCopy(dev, id.journalStart + 1, capacity)) == Ok(chosen)
  }

  /** The journal holds a transaction with these images. */
  ghost predicate Active(rd: Readers, dev: Device, s: Superblock, h: JournalHeader, images: seq<Image>)
    requires HeaderValid(h)
  {
    exists records :: Journals(rd, dev, s, h, records) && Transaction(s, h, records) == Ok(images)
  }

  ghost predicate Journals(rd: Readers, dev: Device, s: Superblock, h: JournalHeader, records: seq<JournalRecord>)
    requires HeaderValid(h)
  {
    && RingHolds(rd, dev, s.id.journalStart, h.capacity, h.tail, records)
    && |records| == Occupied(h) && 0 < |records| <= MAXIMUM_IMAGES + 2
  }

  lemma ActiveJournal(rd: Readers, dev: Device, sel: Selection, chosen: Chosen, images: seq<Image>)
    requires |dev| >= 2 && InForce(dev, sel, chosen) && Active(rd, dev, sel.super, chosen.header, images)
    ensures ImagesGood(sel.super.id, images) && images != []
    ensures var v := InspectJournal(rd, dev, sel.super);
            v.status == Success && v.chosen == Some(chosen) && v.images == images && v.needsRecovery
            && v.occupied == Occupied(chosen.header)
  {
    hide DecodeSuperblock, HeaderAt, HeaderValid, Transaction, ImagesGood, RecordCapacity;
    var s, h := sel.super, chosen.header;
    var records :| Journals(rd, dev, s, h, records) && Transaction(s, h, records) == Ok(images);
    ValidCapacity(h);
    RingRead(rd, dev, s.id.journalStart, h.capacity, h.tail, records);
    TransactionGood(s, h, records);
    EnoughRecords(s, h, records);
  }

  lemma ValidCapacity(h: JournalHeader)
    requires HeaderValid(h)
    ensures h.head < h.capacity && h.tail < h.capacity
  {
  }

  lemma EnoughRecords(s: Superblock, h: JournalHeader, records: seq<JournalRecord>)
    requires Transaction(s, h, records).Ok?
    ensures |records| >= 3
  {
    hide BeginMatches, Collect, CommitMatches;
  }

  lemma MountedWith(rd: Readers, dev: Device, sel: Selection, chosen: Chosen)
    requires |dev| >= 2 && InForce(dev, sel, chosen)
    ensures Mount(rd, dev) == Mounted(MountStatus(rd, dev, sel.super), Some(MountVolume(dev, sel)))
  {
    hide DecodeSuperblock, HeaderAt, HeaderValid, RecordCapacity, MountStatus, MountVolume;
  }

  /**
   * If the journal holds a transaction that validates, the home that is inspected is the one that
   * writing the images, in any order, would leave, and the volume needs recovery.
   */
  lemma InspectsReplay(rd: Readers, dev: Device, sel: Selection, chosen: Chosen, images: seq<Image>, order: seq<Image>)
    requires |dev| >= 2 && InForce(dev, sel, chosen) && Active(rd, dev, sel.super, chosen.header, images)
    requires forall x :: x in order <==> x in images
    ensures var r := Inspect(rd, dev);
            && r.home == InspectHome(rd, WriteAll(dev, order), sel.super.id) && r.needsRecovery
            && r.journal.status == Success && r.journal.images == images && r.mount == MountStatus(rd, dev, sel.super)
  {
    hide DecodeSuperblock, InForce, Active, InspectHome, InspectJournal, MountStatus, MountVolume, View, WriteAll, ImagesGood;
    hide Overall, Mount;
    ActiveJournal(rd, dev, sel, chosen, images);
    MountedWith(rd, dev, sel, chosen);
    GoodDistinct(sel.super.id, images);
    AnyOrder(dev, images, order);
    MountsSelected(dev, sel);
  }

  lemma GoodDistinct(id: Identity, images: seq<Image>)
    requires ImagesGood(id, images)
    ensures TargetsDistinct(images)
  {
  }

  lemma MountsSelected(dev: Device, sel: Selection)
    ensures MountVolume(dev, sel).super == sel.super
  {
    hide JournalNeedsRecovery;
  }

  // A commit that was interrupted.

  /** The records of a commit are in the journal, under the superblock and the header that it wrote. */
  ghost predicate Committed(rd: Readers, dev: Device, sel: Selection, chosen: Chosen, c: Commit)
    requires |dev| >= 2
  {
    var s, h := sel.super, chosen.header;
    && InForce(dev, sel, chosen) && CommitOk(s.id, c)
    && s.generation == c.source + 1 && h.volumeGeneration == c.source + 1
    && h.lastCommitted == c.transaction && h.nextSequence == c.sequence + |c.images| + 2
    && Journals(rd, dev, s, h, Journalled(s.id, c))
  }

  /** Two devices agree but for the blocks that a commit has images of. */
  ghost predicate AgreeElsewhere(dev: Device, base: Device, images: seq<Image>) {
    |dev| == |base| && forall b :: 0 <= b < |dev| && !Targets(images, b) ==> dev[b] == base[b]
  }

  lemma CommitActive(rd: Readers, dev: Device, sel: Selection, chosen: Chosen, c: Commit)
    requires |dev| >= 2 && Committed(rd, dev, sel, chosen, c)
    ensures HeaderValid(chosen.header) && Active(rd, dev, sel.super, chosen.header, c.images)
  {
    hide Transaction, Journals, CommitOk, HeaderValid, DecodeSuperblock, HeaderAt, RecordCapacity, Journalled;
    CommitReplays(sel.super, chosen.header, c);
  }

  lemma NotTarget(id: Identity, images: seq<Image>, b: nat)
    requires ImagesGood(id, images)
    requires b == 0 || b == id.backup || (id.journalStart <= b < id.journalStart + id.journalBlocks)
    ensures !Targets(images, b)
  {
    forall i | 0 <= i < |images|
      ensures images[i].target != b
    {
      assert TargetValid(id, images[i].target);
    }
  }

  lemma InForceFacts(dev: Device, sel: Selection, chosen: Chosen)
    requires |dev| >= 2 && InForce(dev, sel, chosen)
    ensures sel.super.id.backup == |dev| - 1 && chosen.header.tail < chosen.header.capacity
    ensures sel.super.id.journalBlocks == 2 + 2 * chosen.header.capacity && HeaderValid(chosen.header)
  {
    hide DecodeSuperblock, HeaderAt, HeaderValid;
    SelectedDecodable(dev, sel);
    ValidCapacity(chosen.header);
  }

  lemma SelectedDecodable(dev: Device, sel: Selection)
    requires |dev| >= 2 && Select(DecodeSuperblock(dev[0]), DecodeSuperblock(dev[|dev| - 1])) == Ok(sel)
    ensures sel.super.id.backup == sel.super.id.total - 1
  {
    hide DecodeSuperblock, FormatKnown, StateValid, TablesDisjoint;
    if DecodeSuperblock(dev[0]).Ok? {
      DecodedIsDecodable(dev[0]);
    }
    if DecodeSuperblock(dev[|dev| - 1]).Ok? {
      DecodedIsDecodable(dev[|dev| - 1]);
    }
  }

  lemma SameInForce(dev: Device, base: Device, sel: Selection, chosen: Chosen, images: seq<Image>)
    requires |base| >= 2 && InForce(base, sel, chosen) && ImagesGood(sel.super.id, images) && AgreeElsewhere(dev, base, images)
    ensures |dev| == |base| && InForce(dev, sel, chosen)
  {
    hide DecodeSuperblock, DecodeHeader, HeaderValid, ImagesGood, Targets, RecordCapacity;
    var id := sel.super.id;
    InForceFacts(base, sel, chosen);
    NotTarget(id, images, 0);
    NotTarget(id, images, id.backup);
    NotTarget(id, images, id.journalStart);
    NotTarget(id, images, id.journalStart + 1);
  }

  lemma SameRing(
    rd: Readers, dev: Device, base: Device, sel: Selection, chosen: Chosen, images: seq<Image>, records: seq<JournalRecord>)
    requires |base| >= 2 && InForce(base, sel, chosen) && ImagesGood(sel.super.id, images) && AgreeElsewhere(dev, base, images)
    requires HeaderValid(chosen.header) && Journals(rd, base, sel.super, chosen.header, records)
    ensures Journals(rd, dev, sel.super, chosen.header, records)
  {
    hide InForce, ImagesGood, Targets, HeaderValid, Along;
    var id, h := sel.super.id, chosen.header;
    InForceFacts(base, sel, chosen);
    ValidCapacity(h);
    forall j | 0 <= j < |records|
      ensures RecordHeld(rd, dev, id.journalStart + 2 + 2 * Along(h.capacity, h.tail, j), records[j])
    {
      var b := id.journalStart + 2 + 2 * Along(h.capacity, h.tail, j);
      assert RecordHeld(rd, base, b, records[j]);
      AlongRing(h.capacity, h.tail, j);
      NotTarget(id, images, b);
      NotTarget(id, images, b + 1);
    }
  }

  /** What the blocks that a commit has images of hold does not matter. */
  lemma StillCommitted(rd: Readers, dev: Device, base: Device, sel: Selection, chosen: Chosen, c: Commit)
    requires |base| >= 2 && Committed(rd, base, sel, chosen, c) && AgreeElsewhere(dev, base, c.images)
    ensures |dev| == |base| && Committed(rd, dev, sel, chosen, c) && WriteAll(dev, c.images) == WriteAll(base, c.images)
  {
    hide InForce, Journals, Journalled, Targets, WriteAll, HeaderValid;
    assert ImagesGood(sel.super.id, c.images) && TargetsDistinct(c.images);
    hide CommitOk, ImagesGood;
    InForceFacts(base, sel, chosen);
    SameInForce(dev, base, sel, chosen, c.images);
    SameRing(rd, dev, base, sel, chosen, c.images, Journalled(sel.super.id, c));
    forall b | 0 <= b < |dev|
      ensures WriteAll(dev, c.images)[b] == WriteAll(base, c.images)[b]
    {
      SameWritten(dev, base, c.images, b);
    }
  }

  lemma SameWritten(dev: Device, base: Device, images: seq<Image>, b: nat)
    requires TargetsDistinct(images) && AgreeElsewhere(dev, base, images) && b < |dev|
    ensures WriteAll(dev, images)[b] == WriteAll(base, images)[b]
  {
    hide WriteAll, Targets;
    WriteAllAt(dev, images, b);
    WriteAllAt(base, images, b);
    if Targets(images, b) {
      OneImage(images, Image(b, WriteAll(dev, images)[b]), Image(b, WriteAll(base, images)[b]));
    }
  }

  /**
   * After a crash between a commit and the end of its checkpoint, whatever the blocks that the commit
   * was to write hold, the inspection finds the home that the commit leaves. If that is sound, it says
   * so, and that the volume needs recovery, unless the volume says that it is not mounted and the mount,
   * which does not look through the journal, fails on one of those blocks.
   */
  lemma CommittedInspects(rd: Readers, dev: Device, base: Device, sel: Selection, chosen: Chosen, c: Commit)
    requires |base| >= 2 && Committed(rd, base, sel, chosen, c) && AgreeElsewhere(dev, base, c.images)
    requires InspectHome(rd, WriteAll(base, c.images), sel.super.id) == Home(Success, Success, Success)
    ensures |dev| >= 2
    ensures var r := Inspect(rd, dev);
            && r.home == Home(Success, Success, Success)
            && r.overall == (if sel.super.state == STATE_NONE && r.mount.Failed() then r.mount else RecoveryRequired)
  {
    hide DecodeSuperblock, Active, InspectHome, InspectJournal, WriteAll, InForce, Committed, AgreeElsewhere, Inspect, Mount, MountSecurity;
    hide RootReadable;
    StillCommitted(rd, dev, base, sel, chosen, c);
    CommitActive(rd, dev, sel, chosen, c);
    CommittedInForce(rd, dev, sel, chosen, c);
    InspectsReplay(rd, dev, sel, chosen, c.images, c.images);
    MountedWith(rd, dev, sel, chosen);
    ReportsSelected(rd, dev, sel);
    SmallHome(rd, WriteAll(base, c.images), sel.super.id);
    FirstProblem(rd, dev);
  }

  lemma ReportsSelected(rd: Readers, dev: Device, sel: Selection)
    requires |dev| >= 2 && Mount(rd, dev) == Mounted(MountStatus(rd, dev, sel.super), Some(MountVolume(dev, sel)))
    ensures Inspect(rd, dev).volume.Some? && Inspect(rd, dev).volume.value.super == sel.super
  {
    hide DecodeSuperblock, InspectHome, InspectJournal, MountStatus, JournalNeedsRecovery, Overall, Mount;
  }

  lemma SmallHome(rd: Readers, dev: Device, id: Identity)
    requires InspectHome(rd, dev, id).namespace == Success
    ensures id.total <= MAXIMUM_BLOCKS
  {
  }

  lemma CommittedInForce(rd: Readers, dev: Device, sel: Selection, chosen: Chosen, c: Commit)
    requires |dev| >= 2 && Committed(rd, dev, sel, chosen, c)
    ensures InForce(dev, sel, chosen)
  {
    hide InForce, Journals, CommitOk;
  }

  // The verdict.

  /** Nothing failed and nothing was found that calls for recovery. */
  ghost predicate AllWell(r: Report) {
    && r.primary.Ok() && r.backup.Ok() && r.mount.Ok() && r.volume.Some? && r.volume.value.super.id.total <= MAXIMUM_BLOCKS
    && !r.volume.value.needsRecovery && r.journal.status.Ok() && !r.journal.needsRecovery
    && r.home.security.Ok() && r.home.namespace.Ok() && r.home.allocation.Ok()
  }

  /** An inspection that could start says success if and only if all is well. */
  lemma SuccessExactly(rd: Readers, dev: Device)
    requires |dev| >= 2
    ensures var r := Inspect(rd, dev);
            && (r.volume.None? ==> r.overall == r.mount && r.overall.Failed())
            && (r.overall.Ok() <==> AllWell(r))
  {
    hide DecodeSuperblock, InspectHome, InspectJournal, MountStatus, MountVolume;
  }

  /** What the report leads with is the first that went wrong, in the order of the checks; a need of recovery comes last. */
  lemma FirstProblem(rd: Readers, dev: Device)
    requires |dev| >= 2 && Inspect(rd, dev).volume.Some?
    ensures var r := Inspect(rd, dev);
            var total := r.volume.value.super.id.total;
            r.overall ==
              if total > MAXIMUM_BLOCKS then BufferTooSmall
              else if r.mount.Failed() && r.mount != RecoveryRequired then r.mount
              else if r.journal.status.Failed() then r.journal.status
              else if r.home.security.Failed() then r.home.security
              else if r.home.namespace.Failed() then r.home.namespace
              else if r.home.allocation.Failed() then r.home.allocation
              else if r.needsRecovery then RecoveryRequired
              else Success
  {
    hide DecodeSuperblock, InspectHome, InspectJournal, MountStatus, MountVolume;
  }

  /** The newer of the two headers that can be read, the first if they are of one age. */
  ghost predicate Newer(h: JournalHeader, isFirst: bool, other: Checked<JournalHeader>) {
    other.Ok? ==> if isFirst then h.sequence >= other.value.sequence else h.sequence > other.value.sequence
  }

  ghost predicate Vouches(s: Superblock, h: JournalHeader) {
    && s.id.journalBlocks == 2 + 2 * h.capacity && SettledBy(s, h)
  }

  /**
   * A mount says that the volume needs recovery unless its superblocks agree, it was left clean, and the newer
   * of its readable journal headers fits the journal and belongs to this state of the volume.
   */
  lemma MountNeeds(dev: Device, sel: Selection)
    requires UsesJournal(sel.super.id) && sel.super.id.journalStart + 2 <= |dev| && sel.super.id.journalBlocks > 2
    ensures var s := sel.super;
            var first, second := HeaderAt(dev, s.id.journalStart), HeaderAt(dev, s.id.journalStart + 1);
            !MountVolume(dev, sel).needsRecovery <==>
              && !sel.mismatch && s.state == STATE_NONE
              && ((first.Ok? && Newer(first.value, true, second) && Vouches(s, first.value))
                  || (second.Ok? && Newer(second.value, false, first) && Vouches(s, second.value)))
  {
    hide DecodeHeader;
  }

  /** A volume of which the inspection says success can be mounted: it is clean, and its root is a directory that can be read. */
  lemma SuccessMounts(rd: Readers, dev: Device)
    requires |dev| >= 2 && Inspect(rd, dev).overall.Ok()
    ensures DecodeSuperblock(dev[0]).Ok? && DecodeSuperblock(dev[|dev| - 1]).Ok?
    ensures var s, b := DecodeSuperblock(dev[0]).value, DecodeSuperblock(dev[|dev| - 1]).value;
            && s.id == b.id && s.id.total == |dev| && s.state == STATE_NONE == b.state && s.generation == b.generation
            && s.lastCommitted == b.lastCommitted
    ensures var id := DecodeSuperblock(dev[0]).value.id;
            var table := Part(dev, id.recordStart, id.recordBlocks);
            && id.root < 16 * |table| && rd.record(Slot(table, id.root)).Ok?
            && rd.record(Slot(table, id.root)).value.kind == DIRECTORY && RecordValid(id, rd.record(Slot(table, id.root)).value)
  {
    hide DecodeSuperblock, InspectHome, InspectJournal, RecordValid, MountSecurity, JournalNeedsRecovery, Part, Slot;
    SuccessExactly(rd, dev);
  }

  ghost predicate SettledBy(s: Superblock, h: JournalHeader) {
    h.volumeGeneration == s.generation && h.lastCheckpoint == s.lastCommitted
  }

  /** And its journal is settled: both headers can be read, and the newer one belongs to this state of the volume. */
  lemma SuccessSettled(rd: Readers, dev: Device, s: Superblock)
    requires |dev| >= 2 && Inspect(rd, dev).overall.Ok() && DecodeSuperblock(dev[0]) == Ok(s)
    ensures HeaderAt(dev, s.id.journalStart).Ok? && HeaderAt(dev, s.id.journalStart + 1).Ok?
    ensures var a, b := HeaderAt(dev, s.id.journalStart).value, HeaderAt(dev, s.id.journalStart + 1).value;
            && s.id.journalBlocks == 2 + 2 * a.capacity == 2 + 2 * b.capacity
            && (a.sequence >= b.sequence ==> SettledBy(s, a)) && (b.sequence >= a.sequence ==> SettledBy(s, b))
  {
    hide DecodeSuperblock, InspectHome, MountStatus, DecodeHeader, ActiveTransaction, HeaderValid, Occupied, JournalNeedsRecovery;
    SuccessExactly(rd, dev);
  }
}
