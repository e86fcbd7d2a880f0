/** Repair is safe to interrupt at any point and ends in a volume that needs no repair. */
module ZifsRepairTheorems {
  import opened Status
  import opened Unicode
  import opened Layout
  import opened ZifsFormat
  import opened ZifsJournal
  import opened ZifsHome
  import opened ZifsHomeTheorems
  import opened ZifsInspect
  import opened ZifsRepair

  // What the copies on a device say.

  function Selected(dev: Device): Checked<Selection>
    requires |dev| >= 2
  {
    Select(DecodeSuperblock(dev[0]), DecodeSuperblock(dev[|dev| - 1]))
  }

  function Headers(dev: Device, id: Identity): (Checked<JournalHeader>, Checked<JournalHeader>) {
    (HeaderAt(dev, id.journalStart), HeaderAt(dev, id.journalStart + 1))
  }

  /** A header copy is either unreadable or has the capacity the volume calls for. */
  predicate CapacityFits(h: Checked<JournalHeader>, capacity: nat) {
    h.Ok? ==> h.value.capacity == capacity
  }

  /**
   * The facts that decide a plan: the clean superblock to be left behind, the header in force, and
   * a home that passes inspection.
   */
  ghost predicate Sound(rd: Readers, dev: Device, s: Superblock, h: JournalHeader) {
    && |dev| == s.id.total >= 2
    && Decodable(s) && s.state == STATE_NONE
    && OnlyKnownFeatures(s.id) && UsesSecurity(s.id) && UsesCleanUnmount(s.id)
    && HeaderValid(h) && Settled(s, h)
    && InspectHome(rd, dev, s.id) == Home(Success, Success, Success)
    && MountStatus(rd, dev, s) == Success
  }

  /** The superblock a mount selects is the clean one, or the same one still marked as mounted. */
  ghost predicate Selects(dev: Device, s: Superblock, copy: nat, state: u32)
    requires |dev| >= 2
  {
    && (state == STATE_NONE || state == STATE_MOUNTED)
    && Selected(dev).Ok?
    && Selected(dev).value.super == s.(state := state)
    && CopyNumber(Selected(dev).value.fromBackup) == copy
  }

  /** The inspector chooses this header copy, which carries the state in force. */
  ghost predicate Chooses(dev: Device, id: Identity, h: JournalHeader, chosen: Chosen) {
    var (first, second) := Headers(dev, id);
    && CapacityFits(first, h.capacity) && CapacityFits(second, h.capacity)
    && ChooseHeader(first, second) == Ok(chosen)
    && SameHeaderState(chosen.header, h) && HeaderValid(chosen.header)
  }

  lemma ChosenJournal(rd: Readers, dev: Device, s: Superblock, state: u32, h: JournalHeader, chosen: Chosen)
    requires HeaderValid(h) && Settled(s, h) && UsesCleanUnmount(s.id) && Chooses(dev, s.id, h, chosen)
    requires state == STATE_NONE || state == STATE_MOUNTED
    ensures var v := InspectJournal(rd, dev, s.(state := state));
            var (first, second) := Headers(dev, s.id);
            && v.status == Success && v.chosen == Some(chosen) && v.occupied == 0 && v.images == []
            && v.copies == [StatusOf(first), StatusOf(second)]
            && v.uncleanMount == (state == STATE_MOUNTED)
            && v.needsRecovery == (first.Err? || second.Err?)
  {
    hide ActiveTransaction, HeaderAt, ChooseHeader, HasBit;
  }

  lemma SoundReport(rd: Readers, dev: Device, s: Superblock, h: JournalHeader, copy: nat, state: u32, chosen: Chosen)
    requires Sound(rd, dev, s, h) && Selects(dev, s, copy, state) && Chooses(dev, s.id, h, chosen)
    ensures var r := Inspect(rd, dev);
            && r.mount == (if state == STATE_NONE then Success else RecoveryRequired)
            && r.volume.Some? && r.volume.value.super == s.(state := state)
            && CopyNumber(r.volume.value.fromBackup) == copy
            && r.journal == InspectJournal(rd, dev, s.(state := state))
            && r.home == Home(Success, Success, Success)
            && Refusal(r) == None
  {
    hide InspectHome, InspectJournal, RootReadable, MountSecurity, JournalNeedsRecovery, Select, HasBit, Decodable, Settled;
    ChosenJournal(rd, dev, s, state, h, chosen);
  }

  lemma DraftFor(dev: Device, volume: Volume, s: Superblock, h: JournalHeader, chosen: Chosen, journal: seq<Action>)
    requires |dev| >= 2 && volume.super.(state := STATE_NONE) == s
    requires Settled(s, h) && SameHeaderState(chosen.header, h)
    requires JournalActions(dev, s.id, chosen) == Ok(journal) && EncodeSuperblock(s).Ok?
    ensures var (first, second) := Headers(dev, s.id);
            var p := Draft(dev, volume, chosen, [StatusOf(first), StatusOf(second)]);
            && p.Ok?
            && p.value.actions == journal + SuperActions(dev, s.id, CopyNumber(volume.fromBackup), EncodeSuperblock(s).value)
  {
    hide HeaderAt, JournalActions, EncodeSuperblock, SuperActions, SuperblocksDisagree;
  }

  lemma Planned(rd: Readers, dev: Device, plan: Plan)
    requires |dev| >= 2
    requires var r := Inspect(rd, dev);
             && Refusal(r) == None && r.volume.Some? && r.journal.chosen.Some?
             && Draft(dev, r.volume.value, r.journal.chosen.value, r.journal.copies) == Ok(plan)
             && (plan.actions == [] ==> r.overall != RecoveryRequired)
    requires Clean(Inspect(rd, View(dev, Images(plan.actions))))
    ensures MakePlan(rd, dev) == Ok(plan)
  {
    hide Inspect, Refusal, Draft, View, Images, Clean;
  }

  lemma NoImages(dev: Device)
    ensures View(dev, Images([])) == dev
  {
    assert Images([]) == [];
    forall b | 0 <= b < |dev|
      ensures View(dev, [])[b] == dev[b]
    {
    }
  }

  /**
   * The plan that such a device gets: the journal action and the superblock actions its copies
   * call for, provided the volume they propose is clean.
   */
  lemma PlanFor(rd: Readers, dev: Device, s: Superblock, h: JournalHeader, copy: nat, state: u32, chosen: Chosen, journal: seq<Action>)
    requires Sound(rd, dev, s, h) && Selects(dev, s, copy, state) && Chooses(dev, s.id, h, chosen)
    requires JournalActions(dev, s.id, chosen) == Ok(journal)
    requires EncodeSuperblock(s).Ok?
    requires var actions := journal + SuperActions(dev, s.id, copy, EncodeSuperblock(s).value);
             Clean(Inspect(rd, View(dev, Images(actions))))
    ensures MakePlan(rd, dev).Ok?
    ensures MakePlan(rd, dev).value.actions == journal + SuperActions(dev, s.id, copy, EncodeSuperblock(s).value)
  {
    hide InspectHome, InspectJournal, View, SuperActions, EncodeSuperblock, Settled, Inspect, Refusal, Draft;
    hide JournalActions, Decodable, OnlyKnownFeatures, UsesSecurity, UsesCleanUnmount, MountStatus, HeaderValid;
    hide SameHeaderState, HeaderAt, Selected, ChooseHeader, Images;
    SoundReport(rd, dev, s, h, copy, state, chosen);
    ChosenJournal(rd, dev, s, state, h, chosen);
    var r := Inspect(rd, dev);
    DraftFor(dev, r.volume.value, s, h, chosen, journal);
    var plan := Draft(dev, r.volume.value, chosen, r.journal.copies).value;
    if plan.actions == [] {
      NoImages(dev);
    }
    Planned(rd, dev, plan);
  }

  // The blocks a plan may touch.

  ghost predicate BlocksDistinct(actions: seq<Action>) {
    forall i, j :: 0 <= i < j < |actions| ==> actions[i].block != actions[j].block
  }

  lemma ImagesDistinct(actions: seq<Action>)
    requires BlocksDistinct(actions)
    ensures TargetsDistinct(Images(actions))
  {
  }

  /** The overlay shows the replacement of the one action on a block. */
  lemma ViewOfAction(dev: Device, actions: seq<Action>, i: nat)
    requires BlocksDistinct(actions) && i < |actions| && actions[i].block < |dev|
    ensures View(dev, Images(actions))[actions[i].block] == actions[i].replacement
  {
    hide Lookup;
    var b := actions[i].block;
    var images := Images(actions);
    assert images[i] == ImageOf(actions[i]);
    LookupFinds(images, b);
    ImagesDistinct(actions);
    OneImage(images, images[i], Image(b, Lookup(images, b).value));
  }

  lemma ViewElsewhere(dev: Device, actions: seq<Action>, b: nat)
    requires b < |dev|
    requires forall i :: 0 <= i < |actions| ==> actions[i].block != b
    ensures View(dev, Images(actions))[b] == dev[b]
  {
    hide Lookup;
    LookupFinds(Images(actions), b);
  }

  /** Where things are: the superblock copies and the two journal headers are four distinct blocks. */
  lemma FourBlocks(id: Identity)
    requires RangesValid(id) && RecordCapacity(id.journalBlocks).Some?
    ensures id.journalStart + 1 < id.total && id.backup == id.total - 1
    ensures id.journalStart != 0 && id.journalStart != id.backup && id.journalStart + 1 != id.backup && id.backup != 0
    ensures Guarded(id, id.journalStart) && Guarded(id, id.journalStart + 1)
  {
    var t := Tables(id);
    assert !Overlap(t[3], Range(0, 1)) && !Overlap(t[3], Range(id.backup, 1));
  }

  /** A list of actions of the kind a plan consists of: at most one per copy, journal first. */
  ghost predicate Shape(
        id: Identity, jother: nat, first: nat, second: nat, actions: seq<Action>, journal: seq<Action>, a: seq<Action>,
        b: seq<Action>)
  {
    && actions == journal + (a + b)
    && |journal| <= 1 && |a| <= 1 && |b| <= 1
    && (journal != [] ==> journal[0].block == id.journalStart + jother)
    && (a != [] ==> a[0].block == SuperBlockNumber(id, first))
    && (b != [] ==> b[0].block == SuperBlockNumber(id, second))
  }

  lemma ShapeDistinct(
        id: Identity, jother: nat, first: nat, second: nat, actions: seq<Action>, journal: seq<Action>, a: seq<Action>,
        b: seq<Action>)
    requires RangesValid(id) && RecordCapacity(id.journalBlocks).Some? && jother <= 1
    requires (first == 0 && second == 1) || (first == 1 && second == 0)
    requires Shape(id, jother, first, second, actions, journal, a, b)
    ensures BlocksDistinct(actions)
    ensures forall i :: 0 <= i < |actions| ==> actions[i].block < id.total && Guarded(id, actions[i].block)
  {
    hide RangesValid, Guarded;
    FourBlocks(id);
    SuperblocksGuarded(id);
  }

  lemma SuperblocksGuarded(id: Identity)
    ensures Guarded(id, 0) && Guarded(id, id.backup)
  {
  }

  // From a successful plan to the facts that decided it.

  datatype Basis = Basis(super: Superblock, chosen: Chosen, copy: nat, state: u32, journal: seq<Action>)

  ghost predicate Decides(dev: Device, c: Basis)
    requires |dev| >= 2
  {
    && c.copy <= 1 && c.chosen.copy <= 1
    && Selects(dev, c.super, c.copy, c.state)
    && Chooses(dev, c.super.id, c.chosen.header, c.chosen)
    && JournalActions(dev, c.super.id, c.chosen) == Ok(c.journal)
  }

  function Replacement(s: Superblock): Block {
    var e := EncodeSuperblock(s);
    if e.Ok? then e.value else Zeros(4096)
  }

  /** A journal group, then the superblock actions for a selected copy. */
  function Actions(d: Device, c: Basis, copy: nat, journal: seq<Action>): seq<Action> {
    journal + SuperActions(d, c.super.id, copy, Replacement(c.super))
  }

  function PlanActions(dev: Device, c: Basis): seq<Action> { Actions(dev, c, c.copy, c.journal) }

  /** Everything but the mount check, which the plan made only of the proposed volume. */
  ghost predicate NearlySound(rd: Readers, dev: Device, s: Superblock, h: JournalHeader) {
    && |dev| == s.id.total >= 2
    && Decodable(s) && s.state == STATE_NONE
    && OnlyKnownFeatures(s.id) && UsesSecurity(s.id) && UsesCleanUnmount(s.id)
    && HeaderValid(h) && Settled(s, h)
    && InspectHome(rd, dev, s.id) == Home(Success, Success, Success)
  }

  lemma CleanStateValid(s: Superblock)
    requires Decodable(s)
    ensures Decodable(s.(state := STATE_NONE))
  {
    hide RangesValid, FormatKnown, Valid;
  }

  lemma SelectedDecodes(dev: Device)
    requires |dev| >= 2 && Selected(dev).Ok?
    ensures Decodable(Selected(dev).value.super)
    ensures DecodeSuperblock(if Selected(dev).value.fromBackup then dev[|dev| - 1] else dev[0]) == Ok(Selected(dev).value.super)
  {
    hide Decodable, DecodeSuperblock;
    if DecodeSuperblock(dev[0]).Ok? {
      DecodedIsDecodable(dev[0]);
    }
    if DecodeSuperblock(dev[|dev| - 1]).Ok? {
      DecodedIsDecodable(dev[|dev| - 1]);
    }
  }

  /** How a report with a volume comes about. */
  lemma ReportOf(rd: Readers, dev: Device)
    requires |dev| >= 2 && Inspect(rd, dev).volume.Some?
    ensures var r := Inspect(rd, dev);
            var s := r.volume.value.super;
            && Selected(dev).Ok?
            && s == Selected(dev).value.super
            && r.volume.value.fromBackup == Selected(dev).value.fromBackup
            && s.id.total == |dev| && OnlyKnownFeatures(s.id) && UsesSecurity(s.id)
            && r.mount == MountStatus(rd, dev, s)
            && r.journal == InspectJournal(rd, dev, s)
            && (r.journal.images == [] ==> r.home == InspectHome(rd, dev, s.id))
  {
    hide InspectHome, InspectJournal, MountStatus, JournalNeedsRecovery, Select, HasBit, Overall, DecodeSuperblock;
  }

  lemma NotRefused(r: Report)
    requires Refusal(r) == None
    ensures r.volume.Some? && r.journal.chosen.Some?
    ensures var s := r.volume.value.super;
            && r.journal.status == Success && r.home == Home(Success, Success, Success)
            && UsesCleanUnmount(s.id) && r.journal.images == []
            && (s.state == STATE_NONE || s.state == STATE_MOUNTED)
  {
    hide HasBit;
  }

  lemma AcceptedJournal(rd: Readers, dev: Device, s: Superblock)
    requires InspectJournal(rd, dev, s).status == Success && InspectJournal(rd, dev, s).chosen.Some?
    requires var (first, second) := Headers(dev, s.id);
             InspectJournal(rd, dev, s).copies == [StatusOf(first), StatusOf(second)]
    ensures var chosen := InspectJournal(rd, dev, s).chosen.value;
            && chosen.copy <= 1
            && RecordCapacity(s.id.journalBlocks) == Some(chosen.header.capacity)
            && Chooses(dev, s.id, chosen.header, chosen)
  {
    hide HeaderAt, JournalWith;
    var (first, second) := Headers(dev, s.id);
    var capacity := RecordCapacity(s.id.journalBlocks).value;
    CopiesFit(dev, s.id, capacity, first, second);
    assert ChooseHeader(first, second).Ok?;
    JournalKeepsChosen(rd, dev, s, ChooseHeader(first, second).value, [StatusOf(first), StatusOf(second)], first.Err? || second.Err?);
  }

  lemma JournalKeepsChosen(rd: Readers, dev: Device, s: Superblock, chosen: Chosen, copies: seq<Status>, lost: bool)
    ensures JournalWith(rd, dev, s, chosen, copies, lost).chosen == Some(chosen)
    ensures JournalWith(rd, dev, s, chosen, copies, lost).status == Success ==> HeaderValid(chosen.header)
  {
    hide ActiveTransaction, HeaderValid;
  }

  /** When the planner's reading of the copies agrees with the inspector's, capacities are right. */
  lemma CopiesFit(dev: Device, id: Identity, capacity: nat, first: Checked<JournalHeader>, second: Checked<JournalHeader>)
    requires (first, second) == Headers(dev, id)
    requires StatusOf(JournalCopy(dev, id.journalStart, capacity)) == StatusOf(first)
    requires StatusOf(JournalCopy(dev, id.journalStart + 1, capacity)) == StatusOf(second)
    ensures CapacityFits(first, capacity) && CapacityFits(second, capacity)
    ensures JournalCopy(dev, id.journalStart, capacity) == first && JournalCopy(dev, id.journalStart + 1, capacity) == second
  {
    hide HeaderAt;
  }

  lemma DraftFacts(dev: Device, volume: Volume, chosen: Chosen, copies: seq<Status>)
    requires |dev| >= 2 && |copies| == 2 && Draft(dev, volume, chosen, copies).Ok?
    ensures var s := volume.super.(state := STATE_NONE);
            var (first, second) := Headers(dev, s.id);
            && copies == [StatusOf(first), StatusOf(second)]
            && Settled(s, chosen.header)
            && JournalActions(dev, s.id, chosen).Ok?
            && EncodeSuperblock(s).Ok?
            && Draft(dev, volume, chosen, copies).value.actions ==
                 JournalActions(dev, s.id, chosen).value
                 + SuperActions(dev, s.id, CopyNumber(volume.fromBackup), EncodeSuperblock(s).value)
  {
    hide HeaderAt, JournalActions, EncodeSuperblock, SuperActions, SuperblocksDisagree;
  }

  lemma PlanParts(rd: Readers, dev: Device)
    requires |dev| >= 2 && MakePlan(rd, dev).Ok?
    ensures var r := Inspect(rd, dev);
            && Refusal(r) == None && r.volume.Some? && r.journal.chosen.Some?
            && Draft(dev, r.volume.value, r.journal.chosen.value, r.journal.copies) == MakePlan(rd, dev)
            && Clean(Inspect(rd, View(dev, Images(MakePlan(rd, dev).value.actions))))
  {
    hide Inspect, Refusal, Draft, View, Images, Clean;
  }

  /** A successful plan was decided by a basis on a nearly sound device. */
  lemma PlanBasis(rd: Readers, dev: Device) returns (c: Basis)
    requires |dev| >= 2 && MakePlan(rd, dev).Ok?
    ensures NearlySound(rd, dev, c.super, c.chosen.header) && Decides(dev, c)
    ensures MakePlan(rd, dev).value.actions == PlanActions(dev, c)
    ensures Clean(Inspect(rd, View(dev, Images(PlanActions(dev, c)))))
  {
    hide Inspect, Refusal, Draft, View, Images, Clean, MakePlan, InspectJournal, InspectHome, MountStatus;
    hide JournalActions, SuperActions, EncodeSuperblock, Settled, Decodable, Select, HasBit, Chooses, HeaderAt;
    hide HeaderValid, RecordCapacity, DecodeSuperblock, OnlyKnownFeatures, UsesSecurity, UsesCleanUnmount;
    PlanParts(rd, dev);
    var r := Inspect(rd, dev);
    NotRefused(r);
    ReportOf(rd, dev);
    var marked := r.volume.value.super;
    var chosen := r.journal.chosen.value;
    DraftFacts(dev, r.volume.value, chosen, r.journal.copies);
    AcceptedJournal(rd, dev, marked);
    ChosenValid(dev, marked.id, chosen);
    SelectedDecodes(dev);
    CleanStateValid(marked);
    var s := marked.(state := STATE_NONE);
    c := Basis(s, chosen, CopyNumber(r.volume.value.fromBackup), marked.state, JournalActions(dev, s.id, chosen).value);
  }

  lemma ChosenValid(dev: Device, id: Identity, chosen: Chosen)
    requires Chooses(dev, id, chosen.header, chosen)
    ensures HeaderValid(chosen.header)
  {
    hide HeaderAt;
  }

  /** What a plan says of the volume, beside its actions, is what can be read in the copies it names. */
  ghost predicate Describes(dev: Device, plan: Plan)
    requires |dev| >= 2
  {
    && plan.superCopy <= 1 && plan.journalCopy <= 1 && plan.total == |dev|
    && DecodeSuperblock(SuperAt(dev, plan.superCopy)).Ok?
    && var s := DecodeSuperblock(SuperAt(dev, plan.superCopy)).value;
       var other := DecodeSuperblock(SuperAt(dev, OtherCopy(plan.superCopy)));
       var h := HeaderAt(dev, s.id.journalStart + plan.journalCopy);
       && plan.uuid == s.id.uuid && plan.generation == s.generation && plan.lastCommitted == s.lastCommitted
       && h.Ok? && h.value.volumeGeneration == plan.generation && h.value.lastCommitted == plan.lastCommitted
       && (plan.uncleanMount <==> s.state == STATE_MOUNTED)
       && (plan.superblockRedundancy <==> other.Err? || !SameRecoveryState(s, other.value))
       && (plan.journalRedundancy <==> exists a :: a in plan.actions && a.kind == JournalHeaderCopy)
  }

  lemma PlanDescribes(rd: Readers, dev: Device)
    requires |dev| >= 2 && MakePlan(rd, dev).Ok?
    ensures Describes(dev, MakePlan(rd, dev).value)
  {
    hide Inspect, Refusal, Draft, View, Images, Clean, MakePlan, InspectJournal, InspectHome, MountStatus;
    hide JournalActions, SuperActions, EncodeSuperblock, Settled, Decodable, Select, HasBit, HeaderAt, Headers;
    hide HeaderValid, RecordCapacity, DecodeSuperblock, OnlyKnownFeatures, UsesSecurity, UsesCleanUnmount;
    PlanParts(rd, dev);
    var r := Inspect(rd, dev);
    NotRefused(r);
    ReportOf(rd, dev);
    var chosen := r.journal.chosen.value;
    DraftFacts(dev, r.volume.value, chosen, r.journal.copies);
    AcceptedJournal(rd, dev, r.volume.value.super);
    SelectedDecodes(dev);
    DraftDescribes(dev, r.volume.value, chosen, r.journal.copies);
  }

  lemma DraftDescribes(dev: Device, volume: Volume, chosen: Chosen, copies: seq<Status>)
    requires |dev| >= 2 && |copies| == 2 && Draft(dev, volume, chosen, copies).Ok?
    requires chosen.copy <= 1 && Chooses(dev, volume.super.id, chosen.header, chosen)
    requires DecodeSuperblock(SuperAt(dev, CopyNumber(volume.fromBackup))) == Ok(volume.super) && volume.super.id.total == |dev|
    ensures Describes(dev, Draft(dev, volume, chosen, copies).value)
  {
    hide EncodeSuperblock, DecodeSuperblock, SameRecoveryState, HeaderAt, SuperActions, EncodeHeader, RecordCapacity;
    var plan := Draft(dev, volume, chosen, copies).value;
    var journal := JournalActions(dev, volume.super.id, chosen).value;
    OnlySupers(dev, volume.super.id, plan.superCopy, EncodeSuperblock(volume.super.(state := STATE_NONE)).value);
    if journal != [] {
      assert plan.actions[0] in plan.actions && plan.actions[0].kind == JournalHeaderCopy;
    }
  }

  lemma OnlySupers(dev: Device, id: Identity, selected: nat, replacement: Block)
    ensures forall a :: a in SuperActions(dev, id, selected, replacement) ==> a.kind == SuperblockCopy
  {
  }

  // Devices part of the way through a repair.

  function OtherCopy(copy: nat): nat { if copy == 0 then 1 else 0 }

  function SuperAt(dev: Device, copy: nat): Block
    requires |dev| >= 2
  {
    if copy == 0 then dev[0] else dev[|dev| - 1]
  }

  /** The block that a journal action would write, the successor of the header in force. */
  function NextHeader(h: JournalHeader): Block {
    if h.sequence == MAX64 then Zeros(4096)
    else
      var e := EncodeHeader(h.(sequence := h.sequence + 1));
      if e.Ok? then e.value else Zeros(4096)
  }

  function OtherHeader(c: Basis): nat { c.super.id.journalStart + OtherCopy(c.chosen.copy) }

  /** A header copy that reads like the one a journal action writes. */
  predicate ReadsNext(h: JournalHeader, b: Block) { DecodeHeader(b) == DecodeHeader(NextHeader(h)) }

  /** The other journal header may have been renewed, or torn so that it reads as before, as renewed or not at all. */
  ghost predicate HeaderPartial(dev: Device, c: Basis, d: Device)
    requires OtherHeader(c) < |dev| == |d|
  {
    var jo := OtherHeader(c);
    || d[jo] == dev[jo]
    || (c.journal != []
        && (ReadsNext(c.chosen.header, d[jo]) || DecodeHeader(d[jo]).Err? || DecodeHeader(d[jo]) == DecodeHeader(dev[jo])))
  }

  /** And so may the superblock copies, the authoritative one only once the other reads as the replacement. */
  ghost predicate SupersPartial(dev: Device, c: Basis, d: Device)
    requires |dev| >= 2 && |d| >= 2
  {
    var r := DecodeSuperblock(Replacement(c.super));
    var o, s := DecodeSuperblock(SuperAt(d, OtherCopy(c.copy))), DecodeSuperblock(SuperAt(d, c.copy));
    && (o == DecodeSuperblock(SuperAt(dev, OtherCopy(c.copy))) || o == r || o.Err?)
    && (s == DecodeSuperblock(SuperAt(dev, c.copy)) || (o == r && (s == r || s.Err?)))
  }

  /** A device on which some of a plan's writes may have happened and others may have been torn. */
  ghost predicate Partial(dev: Device, c: Basis, d: Device)
    requires |dev| >= 2
  {
    var id := c.super.id;
    var js, jo := id.journalStart + c.chosen.copy, OtherHeader(c);
    && SameHome(id, dev, d)
    && (forall b :: 0 <= b < |dev| && Guarded(id, b) && b != jo && b != 0 && b != id.backup ==> d[b] == dev[b])
    && js < |dev| && jo < |dev|
    && HeaderPartial(dev, c, d) && SupersPartial(dev, c, d)
  }

  lemma ReplacementDecodes(s: Superblock)
    requires Decodable(s)
    ensures EncodeSuperblock(s).Ok? && DecodeSuperblock(Replacement(s)) == Ok(s)
  {
    hide EncodeSuperblock, DecodeSuperblock, Decodable;
    SuperblockRoundTrip(s);
  }

  lemma NextHeaderDecodes(h: JournalHeader)
    requires HeaderValid(h) && h.sequence != MAX64
    ensures EncodeHeader(h.(sequence := h.sequence + 1)) == Ok(NextHeader(h))
    ensures DecodeHeader(NextHeader(h)) == Ok(h.(sequence := h.sequence + 1))
    ensures HeaderValid(h.(sequence := h.sequence + 1))
  {
    hide EncodeHeader, DecodeHeader;
    HeaderRoundTrip(h.(sequence := h.sequence + 1));
  }

  /** Selection on a part-way device still finds the same superblock, up to its state. */
  lemma SelectsPartial(dev: Device, c: Basis, d: Device) returns (copy: nat, state: u32)
    requires |dev| >= 2 && |d| == |dev| && c.copy <= 1 && Decodable(c.super) && c.super.state == STATE_NONE
    requires Selects(dev, c.super, c.copy, c.state) && SupersPartial(dev, c, d)
    ensures Selects(d, c.super, copy, state) && copy <= 1
    ensures SuperAt(d, 0) == SuperAt(dev, 0) && SuperAt(d, 1) == SuperAt(dev, 1) ==> copy == c.copy
  {
    hide DecodeSuperblock, Replacement, Decodable, EncodeSuperblock;
    ReplacementDecodes(c.super);
    SelectedDecodes(dev);
    var sel := Selected(d).value;
    copy, state := CopyNumber(sel.fromBackup), sel.super.state;
  }

  /** And so does the choice of journal header; what is left of the journal action follows. */
  lemma ChoosesPartial(dev: Device, c: Basis, d: Device) returns (chosen: Chosen)
    requires |dev| >= 2 && |d| == |dev| && c.chosen.copy <= 1
    requires HeaderValid(c.chosen.header) && Chooses(dev, c.super.id, c.chosen.header, c.chosen)
    requires JournalActions(dev, c.super.id, c.chosen) == Ok(c.journal)
    requires var js := c.super.id.journalStart + c.chosen.copy;
             js < |dev| && OtherHeader(c) < |dev| && d[js] == dev[js] && HeaderPartial(dev, c, d)
    ensures Chooses(d, c.super.id, c.chosen.header, chosen) && chosen.copy <= 1
    ensures JournalActions(d, c.super.id, chosen) == Ok(JournalLeft(d, c))
  {
    hide DecodeHeader, HeaderValid, EncodeHeader, NextHeader;
    var id := c.super.id;
    if c.journal != [] {
      NextHeaderDecodes(c.chosen.header);
    }
    chosen := ChooseHeader(HeaderAt(d, id.journalStart), HeaderAt(d, id.journalStart + 1)).value;
  }

  /** What is left of a plan's journal group on a part-way device. */
  function JournalLeft(d: Device, c: Basis): seq<Action> {
    var b := BlockAt(d, OtherHeader(c));
    if c.journal == [] || ReadsNext(c.chosen.header, b) then [] else [c.journal[0].(expected := b)]
  }

  // The volume that a repair ends in.

  /** The final volume: both superblock copies replaced, the other header renewed if it was planned. */
  ghost predicate FinalVolume(dev: Device, c: Basis, next: Block, v: Device)
    requires |dev| >= 2
  {
    && |v| == |dev|
    && SuperAt(v, 0) == Replacement(c.super) && SuperAt(v, 1) == Replacement(c.super)
    && forall b :: 0 < b < |dev| - 1 ==> v[b] == if b == OtherHeader(c) && c.journal != [] then next else dev[b]
  }

  /** Two final volumes differ in the renewed header only. */
  lemma FinalDiffer(dev: Device, c: Basis, first: Block, v: Device, second: Block, w: Device)
    requires |dev| >= 2 && 0 < OtherHeader(c) < |dev| - 1 && FinalVolume(dev, c, first, v) && FinalVolume(dev, c, second, w)
    ensures w == if c.journal != [] then v[OtherHeader(c) := second] else v
  {
    hide Replacement;
    forall b | 0 <= b < |v|
      ensures w[b] == (if c.journal != [] then v[OtherHeader(c) := second] else v)[b]
    {
    }
  }

  /** The actions as three groups, in the order they are applied. */
  lemma ActionShape(d: Device, c: Basis, copy: nat, journal: seq<Action>)
    requires |d| == c.super.id.total >= 2 && c.super.id.backup == |d| - 1 && copy <= 1 && c.chosen.copy <= 1
    requires journal == [] || (|journal| == 1 && journal[0].block == c.super.id.journalStart + OtherCopy(c.chosen.copy))
    ensures var id, r := c.super.id, Replacement(c.super);
            Shape(id, OtherCopy(c.chosen.copy), OtherCopy(copy), copy, journal + SuperActions(d, id, copy, r), journal,
                  SuperAction(d, id, OtherCopy(copy), r), SuperAction(d, id, copy, r))
  {
    hide Replacement;
  }

  /** A journal group as a plan has it: nothing, or the renewal of the other header. */
  ghost predicate JournalGroup(c: Basis, journal: seq<Action>) {
    || journal == []
    || (&& |journal| == 1 && c.journal != []
        && journal[0].block == c.super.id.journalStart + OtherCopy(c.chosen.copy)
        && journal[0].replacement == NextHeader(c.chosen.header))
  }

  ghost predicate Placed4(d: Device, c: Basis) {
    && |d| == c.super.id.total >= 2 && RangesValid(c.super.id) && RecordCapacity(c.super.id.journalBlocks).Some?
    && c.chosen.copy <= 1
  }

  lemma ActionsDistinct(d: Device, c: Basis, copy: nat, journal: seq<Action>)
    requires Placed4(d, c) && copy <= 1 && JournalGroup(c, journal)
    ensures BlocksDistinct(Actions(d, c, copy, journal))
    ensures forall i :: 0 <= i < |Actions(d, c, copy, journal)| ==>
      var b := Actions(d, c, copy, journal)[i].block; b < |d| && Guarded(c.super.id, b)
  {
    hide Replacement, NextHeader, RangesValid, Guarded, Shape, SuperAction, SuperActions, BlocksDistinct;
    var id, r := c.super.id, Replacement(c.super);
    FourBlocks(id);
    ActionShape(d, c, copy, journal);
    ShapeDistinct(id, OtherCopy(c.chosen.copy), OtherCopy(copy), copy, Actions(d, c, copy, journal), journal,
                  SuperAction(d, id, OtherCopy(copy), r), SuperAction(d, id, copy, r));
  }

  lemma OtherFinal(d: Device, c: Basis, copy: nat, journal: seq<Action>)
    requires Placed4(d, c) && copy <= 1 && JournalGroup(c, journal)
    ensures SuperAt(View(d, Images(Actions(d, c, copy, journal))), OtherCopy(copy)) == Replacement(c.super)
  {
    hide Replacement, NextHeader, View, RangesValid, Images, BlocksDistinct;
    FourBlocks(c.super.id);
    ActionsDistinct(d, c, copy, journal);
    SuperSeen(d, c, Actions(d, c, copy, journal), OtherCopy(copy), |journal|,
              SuperAction(d, c.super.id, OtherCopy(copy), Replacement(c.super)));
  }

  lemma SelectedFinal(d: Device, c: Basis, copy: nat, journal: seq<Action>)
    requires Placed4(d, c) && copy <= 1 && JournalGroup(c, journal)
    ensures SuperAt(View(d, Images(Actions(d, c, copy, journal))), copy) == Replacement(c.super)
  {
    hide Replacement, NextHeader, View, RangesValid, Images, BlocksDistinct;
    FourBlocks(c.super.id);
    ActionsDistinct(d, c, copy, journal);
    var first := SuperAction(d, c.super.id, OtherCopy(copy), Replacement(c.super));
    SuperSeen(d, c, Actions(d, c, copy, journal), copy, |journal| + |first|,
              SuperAction(d, c.super.id, copy, Replacement(c.super)));
  }

  lemma SupersFinal(d: Device, c: Basis, copy: nat, journal: seq<Action>)
    requires Placed4(d, c) && copy <= 1 && JournalGroup(c, journal)
    ensures var v := View(d, Images(Actions(d, c, copy, journal)));
            SuperAt(v, 0) == Replacement(c.super) && SuperAt(v, 1) == Replacement(c.super)
  {
    hide Replacement, View, RangesValid, Images, Actions, JournalGroup, SuperAt;
    OtherFinal(d, c, copy, journal);
    SelectedFinal(d, c, copy, journal);
  }

  lemma ElsewhereFinal(d: Device, c: Basis, copy: nat, journal: seq<Action>, b: nat)
    requires Placed4(d, c) && copy <= 1 && JournalGroup(c, journal) && 0 < b < |d| - 1
    ensures View(d, Images(Actions(d, c, copy, journal)))[b]
         == if journal != [] && b == c.super.id.journalStart + OtherCopy(c.chosen.copy) then NextHeader(c.chosen.header) else d[b]
  {
    hide Replacement, NextHeader, View, RangesValid, Images, BlocksDistinct;
    var actions := Actions(d, c, copy, journal);
    FourBlocks(c.super.id);
    if journal != [] && b == journal[0].block {
      ActionsDistinct(d, c, copy, journal);
      assert actions[0] == journal[0];
      ViewOfAction(d, actions, 0);
    } else {
      ViewElsewhere(d, actions, b);
    }
  }

  /** The overlay of such a list shows the final volume. */
  lemma ViewIsFinal(dev: Device, d: Device, c: Basis, copy: nat, journal: seq<Action>, next: Block)
    requires Placed4(d, c) && |d| == |dev| && copy <= 1 && JournalGroup(c, journal)
    requires journal != [] ==> next == NextHeader(c.chosen.header)
    requires forall b :: 0 < b < |dev| - 1 && !(b == OtherHeader(c) && journal != []) ==>
               d[b] == if b == OtherHeader(c) && c.journal != [] then next else dev[b]
    ensures FinalVolume(dev, c, next, View(d, Images(Actions(d, c, copy, journal))))
  {
    hide Replacement, NextHeader, View, RangesValid, Images, Actions;
    SupersFinal(d, c, copy, journal);
    var v := View(d, Images(Actions(d, c, copy, journal)));
    forall b | 0 < b < |dev| - 1
      ensures v[b] == if b == OtherHeader(c) && c.journal != [] then next else dev[b]
    {
      ElsewhereFinal(d, c, copy, journal, b);
    }
  }

  /** Either the copy already is the replacement and nothing touches it, or its action writes it. */
  lemma SuperSeen(d: Device, c: Basis, actions: seq<Action>, copy: nat, at: nat, a: seq<Action>)
    requires |d| == c.super.id.total >= 2 && c.super.id.backup == |d| - 1 && copy <= 1
    requires BlocksDistinct(actions)
    requires a == SuperAction(d, c.super.id, copy, Replacement(c.super))
    requires at + |a| <= |actions| && (a != [] ==> actions[at] == a[0])
    requires a == [] ==> forall i :: 0 <= i < |actions| ==> actions[i].block != SuperBlockNumber(c.super.id, copy)
    ensures SuperAt(View(d, Images(actions)), copy) == Replacement(c.super)
  {
    hide Replacement, View, Images;
    var b := SuperBlockNumber(c.super.id, copy);
    if a == [] {
      ViewElsewhere(d, actions, b);
    } else {
      ViewOfAction(d, actions, at);
    }
  }

  lemma JournalActionsGroup(dev: Device, c: Basis)
    requires c.chosen.copy <= 1 && HeaderValid(c.chosen.header)
    requires JournalActions(dev, c.super.id, c.chosen) == Ok(c.journal)
    ensures JournalGroup(c, c.journal)
  {
    hide HeaderAt, HeaderValid, EncodeHeader, NextHeader;
    if c.journal != [] {
      NextHeaderDecodes(c.chosen.header);
    }
  }

  lemma FinalSameHome(dev: Device, c: Basis, next: Block, v: Device)
    requires |dev| == c.super.id.total >= 2 && RangesValid(c.super.id) && RecordCapacity(c.super.id.journalBlocks).Some?
    requires c.chosen.copy <= 1 && FinalVolume(dev, c, next, v)
    ensures SameHome(c.super.id, dev, v)
  {
    hide Replacement, NextHeader, RangesValid;
    FourBlocks(c.super.id);
  }

  lemma MountSame(rd: Readers, d: Device, e: Device, s: Superblock)
    requires SameHome(s.id, d, e) && RangesValid(s.id)
    ensures MountStatus(rd, d, s) == MountStatus(rd, e, s)
  {
    hide RangesValid, SameHome, Part, HasBit, RecordValid, Slot;
    PartsSame(s.id, d, e);
  }

  lemma FinalSelects(c: Basis, dev: Device, next: Block, v: Device)
    requires |dev| >= 2 && FinalVolume(dev, c, next, v) && Decodable(c.super)
    ensures |v| == |dev| && Selected(v).Ok? && Selected(v).value.super == c.super
  {
    hide Decodable, DecodeSuperblock, Replacement, NextHeader, EncodeSuperblock;
    ReplacementDecodes(c.super);
    var super := DecodeSuperblock(Replacement(c.super));
    assert DecodeSuperblock(v[0]) == super && DecodeSuperblock(v[|v| - 1]) == super;
    SelectSame(c.super);
  }

  lemma SelectSame(s: Superblock)
    ensures Select(Ok(s), Ok(s)) == Ok(Selection(s, false, false))
  {
  }

  /** The plan's overlay passed inspection, so the volume it started from mounts cleanly too. */
  lemma MountsCleanly(rd: Readers, dev: Device, c: Basis, next: Block, v: Device)
    requires |dev| >= 2 && NearlySound(rd, dev, c.super, c.chosen.header) && c.chosen.copy <= 1
    requires FinalVolume(dev, c, next, v) && Clean(Inspect(rd, v))
    ensures MountStatus(rd, dev, c.super) == Success
  {
    hide Inspect, MountStatus, InspectHome, InspectJournal, FinalVolume, RangesValid, SameHome, Selected;
    hide OnlyKnownFeatures, UsesSecurity, UsesCleanUnmount, HeaderValid, Settled;
    SettledCapacity(c.super, c.chosen.header);
    FinalSelects(c, dev, next, v);
    ReportOf(rd, v);
    FinalSameHome(dev, c, next, v);
    MountSame(rd, dev, v, c.super);
  }

  lemma SettledCapacity(s: Superblock, h: JournalHeader)
    requires Settled(s, h)
    ensures RecordCapacity(s.id.journalBlocks).Some?
  {
  }

  lemma SuperOrder(d: Device, id: Identity, copy: nat, other: nat, r: Block)
    requires |d| == id.total >= 2 && id.backup == |d| - 1 && copy <= 1 && other <= 1
    requires SuperAt(d, 0) != r && SuperAt(d, 1) != r ==> copy == other
    ensures SuperActions(d, id, copy, r) == SuperActions(d, id, other, r)
  {
    if copy != other {
      var a, b := SuperAction(d, id, copy, r), SuperAction(d, id, other, r);
      if SuperAt(d, copy) == r {
        assert a == [];
      } else {
        assert b == [];
      }
      assert a + b == b + a;
    }
  }

  /** The actions still to be made on a part-way device, in the order of the original plan. */
  function Remaining(d: Device, c: Basis): seq<Action> { Actions(d, c, c.copy, JournalLeft(d, c)) }

  /** The plan that was made, with the facts about it that the proofs below start from. */
  ghost predicate PlannedFrom(rd: Readers, dev: Device, c: Basis)
    requires |dev| >= 2
  {
    && NearlySound(rd, dev, c.super, c.chosen.header) && Decides(dev, c)
    && Clean(Inspect(rd, View(dev, Images(PlanActions(dev, c)))))
  }

  lemma BasisFacts(rd: Readers, dev: Device, c: Basis)
    requires |dev| >= 2 && PlannedFrom(rd, dev, c)
    ensures Placed4(dev, c) && c.copy <= 1 && JournalGroup(c, c.journal)
    ensures c.super.id.backup == |dev| - 1
  {
    hide Inspect, InspectHome, View, Images, Replacement, JournalActions, Selects, Chooses, HeaderValid, StateValid, TablesDisjoint;
    JournalActionsGroup(dev, c);
    SettledCapacity(c.super, c.chosen.header);
  }

  lemma PlanIsFinal(rd: Readers, dev: Device, c: Basis)
    requires |dev| >= 2 && PlannedFrom(rd, dev, c)
    ensures FinalVolume(dev, c, NextHeader(c.chosen.header), View(dev, Images(PlanActions(dev, c))))
    ensures BlocksDistinct(PlanActions(dev, c))
  {
    hide View, Images, Replacement, FinalVolume, BlocksDistinct, Actions, PlannedFrom, NextHeader, Placed4;
    BasisFacts(rd, dev, c);
    ActionsDistinct(dev, c, c.copy, c.journal);
    ViewIsFinal(dev, dev, c, c.copy, c.journal, NextHeader(c.chosen.header)) by { Sizes(rd, dev, c); }
  }

  lemma Sizes(rd: Readers, dev: Device, c: Basis)
    requires |dev| >= 2 && PlannedFrom(rd, dev, c)
    ensures |dev| == c.super.id.total && RangesValid(c.super.id) && RecordCapacity(c.super.id.journalBlocks).Some?
    ensures Decodable(c.super) && c.super.state == STATE_NONE && HeaderValid(c.chosen.header)
  {
    hide Inspect, InspectHome, View, Images, Replacement, JournalActions, Selects, Chooses, HeaderValid, StateValid, TablesDisjoint;
    SettledCapacity(c.super, c.chosen.header);
  }

  /** Any part-way device is sound: its home is untouched and still passes. */
  lemma PartialSound(rd: Readers, dev: Device, c: Basis, d: Device)
    requires |dev| >= 2 && PlannedFrom(rd, dev, c) && SameHome(c.super.id, dev, d)
    ensures Sound(rd, d, c.super, c.chosen.header)
  {
    hide Inspect, InspectHome, View, Images, FinalVolume, MountStatus, SameHome, RangesValid, Settled, HeaderValid;
    hide Selects, Chooses, JournalActions, PlanActions, UsesSecurity, UsesCleanUnmount, OnlyKnownFeatures, Clean;
    PlanIsFinal(rd, dev, c);
    MountsCleanly(rd, dev, c, NextHeader(c.chosen.header), View(dev, Images(PlanActions(dev, c))));
    MountSame(rd, dev, d, c.super);
    HomeSame(rd, c.super.id, dev, d);
    SameSizes(c.super.id, dev, d);
  }

  lemma SameSizes(id: Identity, d: Device, e: Device)
    requires SameHome(id, d, e)
    ensures |d| == |e| == id.total
  {
  }

  lemma PartialFacts(rd: Readers, dev: Device, c: Basis, d: Device)
    requires |dev| >= 2 && PlannedFrom(rd, dev, c) && Partial(dev, c, d)
    ensures SameHome(c.super.id, dev, d) && |d| == |dev|
    ensures var id := c.super.id;
            var js, jo := id.journalStart + c.chosen.copy, id.journalStart + OtherCopy(c.chosen.copy);
            && js < |dev| && 0 < jo < |dev| - 1 && d[js] == dev[js] && (c.journal == [] ==> d[jo] == dev[jo])
            && forall b :: 0 < b < |dev| - 1 && b != jo ==> d[b] == dev[b]
  {
    hide PlannedFrom, Replacement, NextHeader, DecodeHeader, DecodeSuperblock, RangesValid;
    Sizes(rd, dev, c);
    BasisFacts(rd, dev, c);
    FourBlocks(c.super.id);
  }

  /** The header block that the other copy ends up with. */
  function Landed(d: Device, c: Basis): Block {
    var b := BlockAt(d, OtherHeader(c));
    if ReadsNext(c.chosen.header, b) then b else NextHeader(c.chosen.header)
  }

  /**
   * Planning again on a part-way device succeeds. It plans the journal action unless the header reads
   * as renewed, and what the superblock copies call for, and it leads to the same final volume.
   */
  lemma Replan(rd: Readers, dev: Device, c: Basis, d: Device) returns (copy: nat)
    requires |dev| >= 2 && PlannedFrom(rd, dev, c) && Partial(dev, c, d)
    ensures |d| == |dev| && copy <= 1 && MakePlan(rd, d).Ok?
    ensures MakePlan(rd, d).value.actions == Actions(d, c, copy, JournalLeft(d, c))
    ensures BlocksDistinct(Actions(d, c, copy, JournalLeft(d, c)))
    ensures SuperAt(d, 0) == SuperAt(dev, 0) && SuperAt(d, 1) == SuperAt(dev, 1) ==> copy == c.copy
    ensures OtherHeader(c) < |dev|
    ensures var v := View(dev, Images(PlanActions(dev, c)));
            View(d, Images(Actions(d, c, copy, JournalLeft(d, c))))
            == if c.journal != [] then v[OtherHeader(c) := Landed(d, c)] else v
  {
    hide Inspect, View, Images, FinalVolume, Replacement, NextHeader, RangesValid, Settled, HeaderValid, SameHome, Landed;
    hide PlanActions, Actions, MakePlan, Sound, JournalActions, DecodeHeader, DecodeSuperblock, SuperActions, EncodeSuperblock;
    hide Selects, Chooses, Clean, NearlySound, Decodable, BlocksDistinct, RecordCapacity, HeaderPartial, SupersPartial, JournalLeft;
    Sizes(rd, dev, c);
    BasisFacts(rd, dev, c);
    PartialFacts(rd, dev, c, d);
    PartialSound(rd, dev, c, d);
    ReplacementDecodes(c.super);
    var state;
    copy, state := SelectsPartial(dev, c, d);
    var chosen := ChoosesPartial(dev, c, d);
    var journal := JournalLeft(d, c);
    RemainingFinal(dev, c, d, copy);
    PlanIsFinal(rd, dev, c);
    var v, w := View(dev, Images(PlanActions(dev, c))), View(d, Images(Actions(d, c, copy, journal)));
    FinalDiffer(dev, c, NextHeader(c.chosen.header), v, Landed(d, c), w);
    FinalClean(rd, dev, c, Landed(d, c), w) by { LandedReads(c, d); }
    ActionsAre(d, c, copy, journal);
    PlanFor(rd, d, c.super, c.chosen.header, copy, state, chosen, journal);
  }

  lemma LandedReads(c: Basis, d: Device)
    ensures ReadsNext(c.chosen.header, Landed(d, c))
  {
    hide NextHeader, DecodeHeader;
  }

  lemma ActionsAre(d: Device, c: Basis, copy: nat, journal: seq<Action>)
    requires EncodeSuperblock(c.super).Ok?
    ensures Actions(d, c, copy, journal) == journal + SuperActions(d, c.super.id, copy, EncodeSuperblock(c.super).value)
  {
    hide EncodeSuperblock, SuperActions;
  }

  lemma RemainingFinal(dev: Device, c: Basis, d: Device, copy: nat)
    requires Placed4(dev, c) && |d| == |dev| && copy <= 1 && JournalGroup(c, c.journal)
    requires OtherHeader(c) < |d| && (c.journal == [] ==> d[OtherHeader(c)] == dev[OtherHeader(c)])
    requires forall b :: 0 < b < |dev| - 1 && b != OtherHeader(c) ==> d[b] == dev[b]
    ensures FinalVolume(dev, c, Landed(d, c), View(d, Images(Actions(d, c, copy, JournalLeft(d, c)))))
    ensures BlocksDistinct(Actions(d, c, copy, JournalLeft(d, c)))
  {
    hide View, Images, FinalVolume, Actions, NextHeader, BlocksDistinct, DecodeHeader;
    ActionsDistinct(d, c, copy, JournalLeft(d, c));
    ViewIsFinal(dev, d, c, copy, JournalLeft(d, c), Landed(d, c));
  }

  /** A final volume is clean whatever block the renewed header was read from. */
  lemma FinalClean(rd: Readers, dev: Device, c: Basis, next: Block, w: Device)
    requires |dev| >= 2 && PlannedFrom(rd, dev, c) && FinalVolume(dev, c, next, w) && ReadsNext(c.chosen.header, next)
    ensures Clean(Inspect(rd, w))
  {
    hide Inspect, View, Images, Replacement, NextHeader, RangesValid, Settled, HeaderValid, SameHome, DecodeHeader;
    hide DecodeSuperblock;
    hide PlanActions, Actions, Sound, Clean, Decodable, BlocksDistinct, RecordCapacity, PlannedFrom, JournalGroup;
    hide Guarded, Selected;
    Sizes(rd, dev, c);
    BasisFacts(rd, dev, c);
    PlanIsFinal(rd, dev, c);
    var v := View(dev, Images(PlanActions(dev, c)));
    FourBlocks(c.super.id);
    FinalSameHome(dev, c, NextHeader(c.chosen.header), v);
    FinalSelects(c, dev, NextHeader(c.chosen.header), v);
    FinalTwin(c.super.id, dev, c, NextHeader(c.chosen.header), v, next, w);
    var chosen := FinalChooses(rd, dev, c, v);
    InspectTwin(rd, v, w, c.super, c.chosen.header, chosen) by { PlannedSettled(rd, dev, c); }
    PlannedClean(rd, dev, c);
  }

  lemma PlannedClean(rd: Readers, dev: Device, c: Basis)
    requires |dev| >= 2 && PlannedFrom(rd, dev, c)
    ensures Clean(Inspect(rd, View(dev, Images(PlanActions(dev, c)))))
  {
    hide Inspect, View, Images, PlanActions, Clean, NearlySound, Decides;
  }

  lemma PlannedSettled(rd: Readers, dev: Device, c: Basis)
    requires |dev| >= 2 && PlannedFrom(rd, dev, c)
    ensures Settled(c.super, c.chosen.header) && UsesCleanUnmount(c.super.id)
  {
    hide Inspect, View, Images, PlanActions, Clean, Decides, Settled, UsesCleanUnmount, InspectHome, Decodable, HeaderValid;
  }

  lemma FinalTwin(id: Identity, dev: Device, c: Basis, first: Block, v: Device, next: Block, w: Device)
    requires |dev| == id.total >= 2 && 0 < OtherHeader(c) < |dev| - 1 && Guarded(id, OtherHeader(c))
    requires FinalVolume(dev, c, first, v) && FinalVolume(dev, c, next, w) && DecodeHeader(first) == DecodeHeader(next)
    ensures v[0] == w[0] && v[|v| - 1] == w[|w| - 1] && SameHome(id, v, w)
    ensures Headers(v, id) == Headers(w, id)
  {
    hide Replacement, DecodeHeader, Guarded;
    FinalDiffer(dev, c, first, v, next, w);
  }

  /** The headers of the final volume choose a header of the state in force. */
  lemma FinalChooses(rd: Readers, dev: Device, c: Basis, v: Device) returns (chosen: Chosen)
    requires |dev| >= 2 && PlannedFrom(rd, dev, c) && FinalVolume(dev, c, NextHeader(c.chosen.header), v)
    ensures Chooses(v, c.super.id, c.chosen.header, chosen)
  {
    hide Inspect, InspectHome, View, Images, Replacement, NextHeader, DecodeHeader, HeaderValid, Settled, Selects;
    hide Decodable, EncodeHeader;
    hide RangesValid, Clean, PlanActions, RecordCapacity, UsesCleanUnmount, UsesSecurity, OnlyKnownFeatures;
    Sizes(rd, dev, c);
    FourBlocks(c.super.id);
    if c.journal != [] {
      NextHeaderDecodes(c.chosen.header);
    }
    chosen := ChooseHeader(HeaderAt(v, c.super.id.journalStart), HeaderAt(v, c.super.id.journalStart + 1)).value;
  }

  /** Inspection sees the journal headers only as they decode. */
  lemma InspectTwin(rd: Readers, v: Device, w: Device, s: Superblock, h: JournalHeader, chosen: Chosen)
    requires |v| == |w| >= 2 && v[0] == w[0] && v[|v| - 1] == w[|w| - 1] && SameHome(s.id, v, w) && Headers(v, s.id) == Headers(w, s.id)
    requires Selected(v).Ok? && Selected(v).value.super == s && s.state == STATE_NONE && RangesValid(s.id)
    requires HeaderValid(h) && Settled(s, h) && UsesCleanUnmount(s.id) && Chooses(v, s.id, h, chosen)
    ensures Inspect(rd, w) == Inspect(rd, v)
  {
    hide InspectHome, InspectJournal, MountStatus, HeaderAt, DecodeSuperblock, Select, HasBit, RangesValid, SameHome;
    hide HeaderValid, Settled, View;
    assert s.(state := STATE_NONE) == s;
    ChosenJournal(rd, v, s, STATE_NONE, h, chosen);
    ChosenJournal(rd, w, s, STATE_NONE, h, chosen);
    MountSame(rd, v, w, s);
    HomeSame(rd, s.id, v, w);
  }
}
