/**
 * A whole read-only inspection (tools/zifsinspect/inspect.c): the read-only mount it starts from
 * (kernel/fs/zifs/zifs.c), the choice of journal header, and the verdicts it reports.
 */
module ZifsInspect {
  import opened Status
  import opened ZifsFormat
  import opened ZifsJournal
  import opened ZifsHome

  // Mounting without write support.

  datatype Selection = Selection(super: Superblock, fromBackup: bool, mismatch: bool)

  predicate SameRecoveryState(a: Superblock, b: Superblock) {
    a.generation == b.generation && a.state == b.state && a.lastCommitted == b.lastCommitted
  }

  predicate PrefersBackup(primary: Superblock, backup: Superblock) {
    || backup.generation > primary.generation
    || (backup.generation == primary.generation && backup.state == STATE_NONE && primary.state != STATE_NONE)
  }

  function Select(primary: Checked<Superblock>, backup: Checked<Superblock>): Checked<Selection> {
    if primary.Err? && backup.Err? then Err(backup.status)
    else if primary.Err? then Ok(Selection(backup.value, true, true))
    else if backup.Err? then Ok(Selection(primary.value, false, true))
    else if primary.value.id != backup.value.id then Err(CorruptFilesystem)
    else
      var fromBackup := PrefersBackup(primary.value, backup.value);
      Ok(Selection(if fromBackup then backup.value else primary.value, fromBackup,
                   !SameRecoveryState(primary.value, backup.value)))
  }

  /**
   * Of two readable copies of one volume the newer is selected, and of two equally new ones a clean
   * one; the copies disagree exactly when their recovery states do. One readable copy is enough.
   */
  lemma SelectsNewest(primary: Checked<Superblock>, backup: Checked<Superblock>)
    requires primary.Ok? || backup.Ok?
    ensures var r := Select(primary, backup);
            && (primary.Err? ==> r == Ok(Selection(backup.value, true, true)))
            && (backup.Err? ==> r == Ok(Selection(primary.value, false, true)))
            && (primary.Ok? && backup.Ok? ==>
                  var p, b := primary.value, backup.value;
                  && (r.Err? <==> p.id != b.id)
                  && (r.Ok? ==>
                        var s := r.value.super;
                        && s == (if r.value.fromBackup then b else p)
                        && p.generation <= s.generation && b.generation <= s.generation
                        && (p.generation == b.generation && (p.state == STATE_NONE || b.state == STATE_NONE) ==> s.state == STATE_NONE)
                        && (!r.value.mismatch <==>
                              p.generation == b.generation && p.state == b.state && p.lastCommitted == b.lastCommitted)))
  {
  }

  function RecordCapacity(journalBlocks: nat): Option<nat> {
    if journalBlocks <= 2 || (journalBlocks - 2) % 2 != 0 then None else Some((journalBlocks - 2) / 2)
  }

  function HeaderAt(dev: Device, b: nat): Checked<JournalHeader> {
    if b < |dev| then DecodeHeader(dev[b]) else Err(OutOfBounds)
  }

  /** The mount's choice of journal header: the valid one with the higher sequence number. */
  function LoadHeader(dev: Device, start: nat): Option<JournalHeader> {
    var first, second := HeaderAt(dev, start), HeaderAt(dev, start + 1);
    if start + 2 > |dev| then None
    else if first.Err? then if second.Ok? then Some(second.value) else None
    else if second.Ok? && second.value.sequence > first.value.sequence then Some(second.value)
    else Some(first.value)
  }

  predicate JournalNeedsRecovery(dev: Device, s: Superblock) {
    UsesJournal(s.id) &&
      var capacity := RecordCapacity(s.id.journalBlocks);
      var header := LoadHeader(dev, s.id.journalStart);
      || capacity.None? || header.None?
      || header.value.capacity != capacity.value
      || header.value.volumeGeneration != s.generation
      || header.value.lastCheckpoint != s.lastCommitted
  }

  predicate RootReadable(rd: Readers, dev: Device, id: Identity) {
    var table := Part(dev, id.recordStart, id.recordBlocks);
    && id.root < 16 * |table|
    && var r := rd.record(Slot(table, id.root));
       r.Ok? && RecordValid(id, r.value) && r.value.kind == DIRECTORY
  }

  datatype Volume = Volume(super: Superblock, fromBackup: bool, needsRecovery: bool)

  /** The result of a mount, with the volume that it fills in once a superblock is selected. */
  datatype Mounted = Mounted(status: Status, volume: Option<Volume>)

  function Mount(rd: Readers, dev: Device): Mounted
    requires |dev| >= 2
  {
    match Select(DecodeSuperblock(dev[0]), DecodeSuperblock(dev[|dev| - 1]))
    case Err(status) => Mounted(status, None)
    case Ok(sel) =>
      var id := sel.super.id;
      if id.total != |dev| || !OnlyKnownFeatures(id) || !UsesSecurity(id) then Mounted(CorruptFilesystem, None)
      else Mounted(MountStatus(rd, dev, sel.super), Some(MountVolume(dev, sel)))
  }

  function MountVolume(dev: Device, sel: Selection): Volume {
    Volume(sel.super, sel.fromBackup,
           sel.mismatch || sel.super.state != STATE_NONE || JournalNeedsRecovery(dev, sel.super))
  }

  function MountStatus(rd: Readers, dev: Device, s: Superblock): Status {
    if s.state != STATE_NONE then RecoveryRequired
    else
      var security := MountSecurity(rd, dev, s.id);
      if security.Failed() then security
      else if !RootReadable(rd, dev, s.id) then CorruptFilesystem
      else Success
  }

  function MountSecurity(rd: Readers, dev: Device, id: Identity): Status {
    if !UsesSecurity(id) || id.securityBlocks == 0 || id.securityBlocks > 16 then CorruptFilesystem
    else rd.mountSecurity(id, Part(dev, id.securityStart, id.securityBlocks), Part(dev, id.recordStart, id.recordBlocks))
  }

  // The journal.

  /** A header copy as the inspector judges it, which also holds its capacity against the volume. */
  function JournalCopy(dev: Device, b: nat, capacity: nat): Checked<JournalHeader> {
    var h := HeaderAt(dev, b);
    if h.Ok? && h.value.capacity != capacity then Err(CorruptFilesystem) else h
  }

  datatype Chosen = Chosen(copy: nat, header: JournalHeader)

  function ChooseHeader(first: Checked<JournalHeader>, second: Checked<JournalHeader>): Checked<Chosen> {
    if first.Err? && second.Err? then Err(second.status)
    else if first.Ok? && second.Ok? && first.value.sequence == second.value.sequence
      && !SameHeaderState(first.value, second.value) then Err(CorruptFilesystem)
    else if first.Ok? && (second.Err? || first.value.sequence >= second.value.sequence) then Ok(Chosen(0, first.value))
    else Ok(Chosen(1, second.value))
  }

  /** The header chosen is a readable one with the highest sequence number, which names one state. */
  lemma ChoosesNewest(first: Checked<JournalHeader>, second: Checked<JournalHeader>)
    ensures var r := ChooseHeader(first, second);
            && (r.Err? <==>
                  || (first.Err? && second.Err?)
                  || (first.Ok? && second.Ok? && first.value.sequence == second.value.sequence
                      && !SameHeaderState(first.value, second.value)))
            && (r.Ok? ==>
                  && r.value.copy <= 1 && (if r.value.copy == 0 then first else second) == Ok(r.value.header)
                  && (first.Ok? ==> first.value.sequence <= r.value.header.sequence)
                  && (second.Ok? ==> second.value.sequence <= r.value.header.sequence))
  {
  }

  function StatusOf<T>(c: Checked<T>): (s: Status)
    ensures s.Failed() <==> c.Err?
  {
    if c.Ok? then Success else c.status
  }

  function NextRecord(capacity: nat, index: nat): nat {
    if index + 1 >= capacity then 0 else index + 1
  }

  /** The record so many places after another on the ring. */
  function Along(capacity: nat, index: nat, n: nat): nat
    decreases n
  {
    if n == 0 then index else Along(capacity, NextRecord(capacity, index), n - 1)
  }

  lemma {:induction false} AlongRing(capacity: nat, index: nat, n: nat)
    requires index < capacity && n <= capacity
    ensures Along(capacity, index, n) == if index + n < capacity then index + n else index + n - capacity
    decreases n
  {
    if n > 0 {
      AlongRing(capacity, NextRecord(capacity, index), n - 1);
    }
  }

  /** Reading as many records as a header says it has, from its tail, ends at its head. */
  lemma WalkEndsAtHead(h: JournalHeader)
    requires HeaderValid(h)
    ensures Along(h.capacity, h.tail, Occupied(h)) == h.head
  {
    AlongRing(h.capacity, h.tail, Occupied(h));
  }

  function ReadRecords(rd: Readers, dev: Device, start: nat, capacity: nat, index: nat, count: nat): Checked<seq<JournalRecord>>
    decreases count
  {
    if count == 0 then Ok([])
    else
      var b := start + 2 + 2 * index;
      if b + 1 >= |dev| then Err(OutOfBounds)
      else match rd.journal(dev[b], dev[b + 1])
        case Err(status) => Err(status)
        case Ok(r) =>
          match ReadRecords(rd, dev, start, capacity, NextRecord(capacity, index), count - 1)
          case Err(status) => Err(status)
          case Ok(rest) => Ok([r] + rest)
  }

  function ActiveTransaction(rd: Readers, dev: Device, s: Superblock, h: JournalHeader, occupied: nat): Checked<seq<Image>> {
    if occupied > MAXIMUM_IMAGES + 2 then Err(CorruptFilesystem)
    else match ReadRecords(rd, dev, s.id.journalStart, h.capacity, h.tail, occupied)
      case Err(status) => Err(status)
      case Ok(records) => Transaction(s, h, records)
  }

  datatype JournalView = JournalView(
    status: Status, copies: seq<Status>, chosen: Option<Chosen>, occupied: nat,
    needsRecovery: bool, uncleanMount: bool, images: seq<Image>)

  predicate Checkpointed(s: Superblock, h: JournalHeader) {
    h.volumeGeneration == s.generation && h.lastCheckpoint == s.lastCommitted
  }

  function JournalFailure(status: Failure, copies: seq<Status>): JournalView {
    JournalView(status, copies, None, 0, false, false, [])
  }

  function InspectJournal(rd: Readers, dev: Device, s: Superblock): (v: JournalView)
    ensures |v.copies| == 2
  {
    match RecordCapacity(s.id.journalBlocks)
    case None => JournalFailure(InvalidArgument, [InvalidState, InvalidState])
    case Some(capacity) =>
      var first := JournalCopy(dev, s.id.journalStart, capacity);
      var second := JournalCopy(dev, s.id.journalStart + 1, capacity);
      var copies := [StatusOf(first), StatusOf(second)];
      match ChooseHeader(first, second)
      case Err(status) => JournalFailure(status, copies)
      case Ok(chosen) => JournalWith(rd, dev, s, chosen, copies, first.Err? || second.Err?)
  }

  function JournalWith(rd: Readers, dev: Device, s: Superblock, chosen: Chosen, copies: seq<Status>, lost: bool): (v: JournalView)
    ensures v.copies == copies
  {
    var h := chosen.header;
    var needs := lost || !Checkpointed(s, h);
    if !HeaderValid(h) then JournalView(InvalidArgument, copies, Some(chosen), 0, needs, false, [])
    else
      var occupied := Occupied(h);
      if occupied == 0 then
        JournalView(Success, copies, Some(chosen), 0, needs,
                    UsesCleanUnmount(s.id) && s.state == STATE_MOUNTED && Checkpointed(s, h), [])
      else match ActiveTransaction(rd, dev, s, h, occupied)
        case Err(status) => JournalView(status, copies, Some(chosen), occupied, true, false, [])
        case Ok(images) => JournalView(Success, copies, Some(chosen), occupied, true, false, images)
  }

  // The report.

  datatype Report = Report(
    primary: Status, backup: Status, mount: Status, overall: Status,
    volume: Option<Volume>, journal: JournalView, home: Home, needsRecovery: bool)

  function FirstFailure(a: Status, b: Status): Status {
    if a.Failed() then a else b
  }

  const NOTHING_INSPECTED := JournalView(InvalidState, [InvalidState, InvalidState], None, 0, false, false, [])

  function Inspect(rd: Readers, dev: Device): (r: Report)
    requires |dev| >= 2
  {
    var primary, backup := DecodeSuperblock(dev[0]), DecodeSuperblock(dev[|dev| - 1]);
    var mounted := Mount(rd, dev);
    match mounted.volume
    case None =>
      Report(StatusOf(primary), StatusOf(backup), mounted.status, mounted.status, None, NOTHING_INSPECTED,
             Home(InvalidState, InvalidState, InvalidState), mounted.status == RecoveryRequired)
    case Some(volume) =>
      InspectVolume(rd, dev, StatusOf(primary), StatusOf(backup), mounted.status, volume)
  }

  function InspectVolume(rd: Readers, dev: Device, primary: Status, backup: Status, mount: Status, volume: Volume): Report {
    var s := volume.super;
    var journal := InspectJournal(rd, dev, s);
    var seen := if journal.status.Ok() && journal.images != [] then View(dev, journal.images) else dev;
    var home := InspectHome(rd, seen, s.id);
    var needs := || volume.needsRecovery || primary.Failed() || backup.Failed() || mount == RecoveryRequired
                 || journal.needsRecovery || home.allocation == RecoveryRequired;
    var early := if s.id.total > MAXIMUM_BLOCKS then BufferTooSmall
                 else if mount == RecoveryRequired then Success else mount;
    Report(primary, backup, mount, Overall(early, journal.status, home, s.id, needs), Some(volume), journal, home, needs)
  }

  /** The first failure in the order of the checks that were made, then any need of recovery. */
  function Overall(early: Status, journal: Status, home: Home, id: Identity, needs: bool): Status {
    var found := FirstFailure(early, FirstFailure(journal, HomeFailure(home, id)));
    if found.Ok() && needs then RecoveryRequired else found
  }

  function HomeFailure(home: Home, id: Identity): Status {
    if home.security.Failed() then home.security
    else if id.total > MAXIMUM_BLOCKS then Success
    else if home.namespace.Failed() then home.namespace
    else if home.allocation.Failed() then home.allocation
    else Success
  }
}
