/**
 * Offline repair (tools/zifsrepair/repair.c): a plan of at most four block replacements, checked
 * through an overlay before it is offered, and its ordered application to the device.
 */
module ZifsRepair {
  import opened Status
  import opened Layout
  import opened ZifsFormat
  import opened ZifsJournal
  import opened ZifsHome
  import opened ZifsInspect

  datatype ActionKind = JournalHeaderCopy | SuperblockCopy

  datatype Action = Action(kind: ActionKind, copy: nat, block: nat, expected: Block, replacement: Block)

  datatype Plan = Plan(
    superblockRedundancy: bool, journalRedundancy: bool, uncleanMount: bool, actions: seq<Action>,
    uuid: Uuid, total: u64, generation: u64, lastCommitted: u64, superCopy: nat, journalCopy: nat)

  function ImageOf(a: Action): Image { Image(a.block, a.replacement) }

  function Images(actions: seq<Action>): (r: seq<Image>)
    ensures |r| == |actions|
  {
    seq(|actions|, i requires 0 <= i < |actions| => ImageOf(actions[i]))
  }

  /** Why a report rules repair out, if it does. */
  function Refusal(r: Report): (why: Option<Failure>)
    ensures why.None? ==> r.volume.Some? && r.journal.chosen.Some?
  {
    if r.mount.Failed() && r.mount != RecoveryRequired then Some(r.mount)
    else if r.journal.status != Success || r.home != Home(Success, Success, Success) then
      if r.overall.Failed() then Some(r.overall) else Some(CorruptFilesystem)
    else if r.volume.None? || r.journal.chosen.None? then Some(InvalidState)
    else
      var s := r.volume.value.super;
      if || !UsesCleanUnmount(s.id) || r.journal.occupied != 0 || r.journal.images != []
         || (s.state != STATE_NONE && s.state != STATE_MOUNTED)
         || (s.state == STATE_MOUNTED && !r.journal.uncleanMount)
      then Some(RecoveryRequired) else None
  }

  /** The selected header must describe an empty journal, checkpointed at the superblock's state. */
  predicate Settled(s: Superblock, h: JournalHeader) {
    && RecordCapacity(s.id.journalBlocks) == Some(h.capacity)
    && h.head == h.tail
    && h.volumeGeneration == s.generation
    && h.lastCommitted == s.lastCommitted
    && h.lastCheckpoint == h.lastCommitted
    && h.lastCommitted != MAX64 && h.nextTransaction == h.lastCommitted + 1
  }

  function BlockAt(dev: Device, b: nat): Block {
    if b < |dev| then dev[b] else Zeros(4096)
  }

  function JournalActions(dev: Device, id: Identity, chosen: Chosen): Checked<seq<Action>> {
    var copy := 1 - chosen.copy;
    if copy < 0 then Err(InvalidState)
    else
      var b := id.journalStart + copy;
      var other := HeaderAt(dev, b);
      if other.Ok? && SameHeaderState(chosen.header, other.value) then Ok([])
      else if other.Ok? && chosen.header.sequence <= other.value.sequence then Err(CorruptFilesystem)
      else if chosen.header.sequence == MAX64 then Err(CorruptFilesystem)
      else match EncodeHeader(chosen.header.(sequence := chosen.header.sequence + 1))
        case Err(status) => Err(status)
        case Ok(replacement) => Ok([Action(JournalHeaderCopy, copy, b, BlockAt(dev, b), replacement)])
  }

  function SuperBlockNumber(id: Identity, copy: nat): nat {
    if copy == 0 then 0 else id.backup
  }

  /** The action, if one is needed, that makes a superblock copy equal to the replacement. */
  function SuperAction(dev: Device, id: Identity, copy: nat, replacement: Block): (a: seq<Action>)
    ensures |a| <= 1
  {
    var b := SuperBlockNumber(id, copy);
    if BlockAt(dev, b) == replacement then [] else [Action(SuperblockCopy, copy, b, BlockAt(dev, b), replacement)]
  }

  /** The non-authoritative copy first, then the authoritative one. */
  function SuperActions(dev: Device, id: Identity, selected: nat, replacement: Block): (a: seq<Action>)
    ensures |a| <= 2
  {
    SuperAction(dev, id, if selected == 0 then 1 else 0, replacement) + SuperAction(dev, id, selected, replacement)
  }

  predicate Clean(r: Report) {
    && r.overall == Success && !r.needsRecovery && r.mount == Success && r.journal.status == Success
    && r.home == Home(Success, Success, Success)
    && r.volume.Some? && r.volume.value.super.state == STATE_NONE
  }

  function CopyNumber(fromBackup: bool): nat { if fromBackup then 1 else 0 }

  predicate SuperblocksDisagree(dev: Device, selected: Superblock, other: nat)
    requires |dev| >= 2
  {
    var o := DecodeSuperblock(if other == 0 then dev[0] else dev[|dev| - 1]);
    o.Err? || !SameRecoveryState(selected, o.value)
  }

  /** The plan before its overlay is checked. */
  function Draft(dev: Device, volume: Volume, chosen: Chosen, copies: seq<Status>): (p: Checked<Plan>)
    requires |dev| >= 2 && |copies| == 2
  {
    var s := volume.super;
    var selected := CopyNumber(volume.fromBackup);
    if || StatusOf(HeaderAt(dev, s.id.journalStart)) != copies[0]
       || StatusOf(HeaderAt(dev, s.id.journalStart + 1)) != copies[1] then Err(InvalidState)
    else if !Settled(s, chosen.header) then Err(RecoveryRequired)
    else match JournalActions(dev, s.id, chosen)
      case Err(status) => Err(status)
      case Ok(journal) =>
        match EncodeSuperblock(s.(state := STATE_NONE))
        case Err(status) => Err(status)
        case Ok(replacement) =>
          Ok(Plan(SuperblocksDisagree(dev, s, 1 - selected), journal != [], s.state == STATE_MOUNTED,
                  journal + SuperActions(dev, s.id, selected, replacement),
                  s.id.uuid, s.id.total, s.generation, s.lastCommitted, selected, chosen.copy))
  }

  function MakePlan(rd: Readers, dev: Device): (p: Checked<Plan>)
    requires |dev| >= 2
  {
    var report := Inspect(rd, dev);
    match Refusal(report)
    case Some(why) => Err(why)
    case None =>
      match Draft(dev, report.volume.value, report.journal.chosen.value, report.journal.copies)
        case Err(status) => Err(status)
        case Ok(plan) => Approve(rd, dev, report.overall, plan)
  }

  /** A plan is offered only if the volume it proposes passes a full inspection as clean. */
  function Approve(rd: Readers, dev: Device, overall: Status, plan: Plan): (p: Checked<Plan>)
    requires |dev| >= 2
    ensures p.Ok? ==> p.value == plan
  {
    if overall == RecoveryRequired && plan.actions == [] then Err(RecoveryRequired)
    else
      var proposed := Inspect(rd, View(dev, Images(plan.actions)));
      if Clean(proposed) then Ok(plan)
      else if proposed.overall.Failed() then Err(proposed.overall) else Err(CorruptFilesystem)
  }
}
