/**
 * The guarantees of offline repair, stated of plans: where they write, what they leave, and what
 * every interruption of their application leaves behind.
 */
module ZifsCrash {
  import opened Status
  import opened Layout
  import opened ZifsFormat
  import opened ZifsJournal
  import opened ZifsHome
  import opened ZifsHomeTheorems
  import opened ZifsInspect
  import opened ZifsRepair
  import opened ZifsRepairTheorems

  /** The device after the first k actions of a list. */
  function After(dev: Device, actions: seq<Action>, k: nat): (d: Device)
    requires k <= |actions|
    ensures |d| == |dev|
  {
    WriteAll(dev, Images(actions[..k]))
  }

  lemma PrefixDistinct(actions: seq<Action>, k: nat)
    requires BlocksDistinct(actions) && k <= |actions|
    ensures BlocksDistinct(actions[..k])
  {
  }

  /** Written blocks hold their replacement; the others are as they were. */
  lemma AfterAt(dev: Device, actions: seq<Action>, k: nat, i: nat)
    requires BlocksDistinct(actions) && k <= |actions| && i < |actions| && actions[i].block < |dev|
    ensures After(dev, actions, k)[actions[i].block] == if i < k then actions[i].replacement else dev[actions[i].block]
  {
    hide WriteAll, View, Images;
    PrefixDistinct(actions, k);
    ImagesDistinct(actions[..k]);
    AnyOrder(dev, Images(actions[..k]), Images(actions[..k]));
    if i < k {
      ViewOfAction(dev, actions[..k], i);
    } else {
      ViewElsewhere(dev, actions[..k], actions[i].block);
    }
  }

  lemma AfterElsewhere(dev: Device, actions: seq<Action>, k: nat, b: nat)
    requires BlocksDistinct(actions) && k <= |actions| && b < |dev|
    requires forall i :: 0 <= i < |actions| ==> actions[i].block != b
    ensures After(dev, actions, k)[b] == dev[b]
  {
    hide WriteAll, View, Images;
    PrefixDistinct(actions, k);
    ImagesDistinct(actions[..k]);
    AnyOrder(dev, Images(actions[..k]), Images(actions[..k]));
    ViewElsewhere(dev, actions[..k], b);
  }

  lemma AfterAll(dev: Device, actions: seq<Action>)
    requires BlocksDistinct(actions)
    ensures After(dev, actions, |actions|) == View(dev, Images(actions))
  {
    hide WriteAll, View, Images;
    assert actions[..|actions|] == actions;
    ImagesDistinct(actions);
    AnyOrder(dev, Images(actions), Images(actions));
  }

  /** The three groups of a plan's actions. */
  datatype Groups = Groups(journal: seq<Action>, other: seq<Action>, selected: seq<Action>)

  function GroupsOf(dev: Device, c: Basis): Groups {
    Groups(c.journal,
           SuperAction(dev, c.super.id, OtherCopy(c.copy), Replacement(c.super)),
           SuperAction(dev, c.super.id, c.copy, Replacement(c.super)))
  }

  /** Whether the first k of a plan's actions include those of each group. */
  predicate JournalDone(g: Groups, k: nat) { g.journal != [] && k >= 1 }
  predicate OtherDone(g: Groups, k: nat) { g.other != [] && k >= |g.journal| + 1 }
  predicate SelectedDone(g: Groups, k: nat) { g.selected != [] && k >= |g.journal| + |g.other| + 1 }

  ghost predicate Ready(dev: Device, c: Basis) {
    && |dev| == c.super.id.total >= 2 && c.super.id.backup == |dev| - 1
    && c.copy <= 1 && c.chosen.copy <= 1
    && 0 < OtherHeader(c) < |dev| - 1
    && JournalGroup(c, c.journal)
    && BlocksDistinct(PlanActions(dev, c))
  }

  lemma PlanReady(rd: Readers, dev: Device, c: Basis)
    requires |dev| >= 2 && PlannedFrom(rd, dev, c)
    ensures Ready(dev, c)
  {
    hide PlannedFrom, PlanActions, Actions, NextHeader, RangesValid, BlocksDistinct, RecordCapacity;
    Sizes(rd, dev, c);
    BasisFacts(rd, dev, c);
    PlanIsFinal(rd, dev, c);
    FourBlocks(c.super.id);
  }

  lemma GroupedActions(dev: Device, c: Basis)
    ensures var g := GroupsOf(dev, c);
            PlanActions(dev, c) == g.journal + (g.other + g.selected)
  {
    hide Replacement, SuperAction;
  }

  lemma AfterJournal(dev: Device, c: Basis, k: nat)
    requires Ready(dev, c) && k <= |PlanActions(dev, c)|
    ensures After(dev, PlanActions(dev, c), k)[OtherHeader(c)]
         == if JournalDone(GroupsOf(dev, c), k) then NextHeader(c.chosen.header) else dev[OtherHeader(c)]
  {
    hide Replacement, NextHeader, BlocksDistinct, After, PlanActions;
    var actions, g := PlanActions(dev, c), GroupsOf(dev, c);
    GroupedActions(dev, c);
    if g.journal != [] {
      assert actions[0] == g.journal[0];
      AfterAt(dev, actions, k, 0);
    } else {
      AfterElsewhere(dev, actions, k, OtherHeader(c));
    }
  }

  lemma AfterOtherSuper(dev: Device, c: Basis, k: nat)
    requires Ready(dev, c) && k <= |PlanActions(dev, c)|
    ensures SuperAt(After(dev, PlanActions(dev, c), k), OtherCopy(c.copy))
         == if OtherDone(GroupsOf(dev, c), k) then Replacement(c.super) else SuperAt(dev, OtherCopy(c.copy))
  {
    hide Replacement, NextHeader, BlocksDistinct, After, PlanActions;
    var g := GroupsOf(dev, c);
    GroupedActions(dev, c);
    AfterSuper(dev, c, PlanActions(dev, c), k, OtherCopy(c.copy), |g.journal|, g.other);
  }

  lemma AfterSelectedSuper(dev: Device, c: Basis, k: nat)
    requires Ready(dev, c) && k <= |PlanActions(dev, c)|
    ensures SuperAt(After(dev, PlanActions(dev, c), k), c.copy)
         == if SelectedDone(GroupsOf(dev, c), k) then Replacement(c.super) else SuperAt(dev, c.copy)
  {
    hide Replacement, NextHeader, BlocksDistinct, After, PlanActions;
    var g := GroupsOf(dev, c);
    GroupedActions(dev, c);
    AfterSuper(dev, c, PlanActions(dev, c), k, c.copy, |g.journal| + |g.other|, g.selected);
  }

  lemma AfterOthers(dev: Device, c: Basis, k: nat, b: nat)
    requires Ready(dev, c) && k <= |PlanActions(dev, c)| && 0 < b < |dev| - 1 && b != OtherHeader(c)
    ensures After(dev, PlanActions(dev, c), k)[b] == dev[b]
  {
    hide Replacement, NextHeader, BlocksDistinct, After, PlanActions;
    GroupedActions(dev, c);
    AfterElsewhere(dev, PlanActions(dev, c), k, b);
  }

  lemma AfterSuper(dev: Device, c: Basis, actions: seq<Action>, k: nat, copy: nat, at: nat, a: seq<Action>)
    requires |dev| == c.super.id.total >= 2 && c.super.id.backup == |dev| - 1 && copy <= 1
    requires BlocksDistinct(actions) && k <= |actions|
    requires a == SuperAction(dev, c.super.id, copy, Replacement(c.super))
    requires at + |a| <= |actions| && (a != [] ==> actions[at] == a[0])
    requires a == [] ==> forall i :: 0 <= i < |actions| ==> actions[i].block != SuperBlockNumber(c.super.id, copy)
    ensures SuperAt(After(dev, actions, k), copy) == if a != [] && k >= at + 1 then Replacement(c.super) else SuperAt(dev, copy)
  {
    hide Replacement, After;
    if a == [] {
      AfterElsewhere(dev, actions, k, SuperBlockNumber(c.super.id, copy));
    } else {
      AfterAt(dev, actions, k, at);
    }
  }

  lemma OthersSameHome(dev: Device, c: Basis, d: Device)
    requires Ready(dev, c) && |d| == |dev| && RangesValid(c.super.id) && RecordCapacity(c.super.id.journalBlocks).Some?
    requires forall b :: 0 < b < |dev| - 1 && b != OtherHeader(c) ==> d[b] == dev[b]
    ensures SameHome(c.super.id, dev, d)
    ensures forall b :: 0 <= b < |dev| && Guarded(c.super.id, b) && b != OtherHeader(c) && b != 0 && b != c.super.id.backup ==>
      d[b] == dev[b]
  {
    hide JournalGroup, BlocksDistinct, PlanActions, RangesValid;
    FourBlocks(c.super.id);
  }

  /** A device that agrees with a plan's progress on the four blocks and elsewhere is part-way. */
  lemma ToPartial(rd: Readers, dev: Device, c: Basis, d: Device)
    requires |dev| >= 2 && PlannedFrom(rd, dev, c) && Ready(dev, c) && |d| == |dev|
    requires forall b :: 0 < b < |dev| - 1 && b != OtherHeader(c) ==> d[b] == dev[b]
    requires HeaderPartial(dev, c, d) && SupersPartial(dev, c, d)
    ensures Partial(dev, c, d)
  {
    hide PlannedFrom, Ready, SameHome, Guarded, Replacement, NextHeader, DecodeHeader, DecodeSuperblock, RangesValid;
    Sizes(rd, dev, c);
    OthersSameHome(dev, c, d);
    FourBlocks(c.super.id);
    BasisFacts(rd, dev, c);
  }

  /** No action is planned for a copy that already holds its replacement. */
  lemma SuperUntouched(dev: Device, c: Basis, copy: nat)
    requires |dev| == c.super.id.total >= 2 && c.super.id.backup == |dev| - 1 && copy <= 1
    ensures SuperAction(dev, c.super.id, copy, Replacement(c.super)) == [] <==> SuperAt(dev, copy) == Replacement(c.super)
  {
    hide Replacement;
  }

  lemma HeaderNotNext(dev: Device, c: Basis)
    requires c.chosen.copy <= 1 && HeaderValid(c.chosen.header) && OtherHeader(c) < |dev|
    requires JournalActions(dev, c.super.id, c.chosen) == Ok(c.journal) && c.journal != []
    ensures !ReadsNext(c.chosen.header, dev[OtherHeader(c)])
    ensures c.journal[0].expected == dev[OtherHeader(c)] && c.journal[0].kind == JournalHeaderCopy
  {
    hide HeaderValid, EncodeHeader, NextHeader, DecodeHeader;
    NextHeaderDecodes(c.chosen.header);
  }

  lemma JournalBasis(rd: Readers, dev: Device, c: Basis)
    requires |dev| >= 2 && PlannedFrom(rd, dev, c)
    ensures JournalActions(dev, c.super.id, c.chosen) == Ok(c.journal) && HeaderValid(c.chosen.header)
  {
    hide Inspect, InspectHome, View, Images, Replacement, JournalActions, Selects, Chooses, HeaderValid, Settled, Decodable;
  }

  lemma PrefixPartial(rd: Readers, dev: Device, c: Basis, k: nat)
    requires |dev| >= 2 && PlannedFrom(rd, dev, c) && k <= |PlanActions(dev, c)|
    ensures Partial(dev, c, After(dev, PlanActions(dev, c), k))
  {
    hide PlannedFrom, Replacement, NextHeader, After, PlanActions, BlocksDistinct, JournalGroup, DecodeHeader;
    hide DecodeSuperblock, Partial, SuperAction;
    PlanReady(rd, dev, c);
    var d := After(dev, PlanActions(dev, c), k);
    AfterJournal(dev, c, k);
    AfterOtherSuper(dev, c, k);
    AfterSelectedSuper(dev, c, k);
    forall b | 0 < b < |dev| - 1 && b != OtherHeader(c)
      ensures d[b] == dev[b]
    {
      AfterOthers(dev, c, k, b);
    }
    SuperUntouched(dev, c, OtherCopy(c.copy));
    ToPartial(rd, dev, c, d);
  }

  /** What is left of a superblock group after k actions. */
  lemma SuperLeft(dev: Device, c: Basis, d: Device, copy: nat, done: bool)
    requires |d| == |dev| == c.super.id.total >= 2 && c.super.id.backup == |dev| - 1 && copy <= 1
    requires var a := SuperAction(dev, c.super.id, copy, Replacement(c.super));
             SuperAt(d, copy) == (if a != [] && done then Replacement(c.super) else SuperAt(dev, copy))
    ensures SuperAction(d, c.super.id, copy, Replacement(c.super))
         == if done then [] else SuperAction(dev, c.super.id, copy, Replacement(c.super))
  {
    hide Replacement;
  }

  lemma DropGroups(j: seq<Action>, a: seq<Action>, b: seq<Action>, k: nat)
    requires |j| <= 1 && |a| <= 1 && |b| <= 1 && k <= |j| + |a| + |b|
    ensures (j + (a + b))[k..] ==
      (if k >= 1 then [] else j) + ((if k >= |j| + 1 then [] else a) + (if k >= |j| + |a| + 1 then [] else b))
  {
  }

  /** After k actions, exactly the rest of the plan remains. */
  lemma PrefixRemaining(rd: Readers, dev: Device, c: Basis, k: nat)
    requires |dev| >= 2 && PlannedFrom(rd, dev, c) && k <= |PlanActions(dev, c)|
    ensures Remaining(After(dev, PlanActions(dev, c), k), c) == PlanActions(dev, c)[k..]
  {
    hide PlannedFrom, Replacement, NextHeader, After, PlanActions, BlocksDistinct, SuperAction, JournalActions, HeaderValid;
    PlanReady(rd, dev, c);
    JournalBasis(rd, dev, c);
    var d, g := After(dev, PlanActions(dev, c), k), GroupsOf(dev, c);
    GroupedActions(dev, c);
    AfterJournal(dev, c, k);
    AfterOtherSuper(dev, c, k);
    AfterSelectedSuper(dev, c, k);
    SuperLeft(dev, c, d, OtherCopy(c.copy), k >= |g.journal| + 1);
    SuperLeft(dev, c, d, c.copy, k >= |g.journal| + |g.other| + 1);
    DropGroups(g.journal, g.other, g.selected, k);
    if c.journal != [] {
      HeaderNotNext(dev, c);
    }
    RemainingGroups(d, c, if k >= 1 then [] else c.journal,
                    if k >= |g.journal| + 1 then [] else g.other, if k >= |g.journal| + |g.other| + 1 then [] else g.selected);
  }

  lemma RemainingGroups(d: Device, c: Basis, j: seq<Action>, a: seq<Action>, b: seq<Action>)
    requires OtherHeader(c) < |d| && |c.journal| <= 1
    requires a == SuperAction(d, c.super.id, OtherCopy(c.copy), Replacement(c.super))
    requires b == SuperAction(d, c.super.id, c.copy, Replacement(c.super))
    requires c.journal == [] ==> j == []
    requires c.journal != [] ==>
      if ReadsNext(c.chosen.header, d[OtherHeader(c)]) then j == [] else j == [c.journal[0].(expected := d[OtherHeader(c)])]
    ensures Remaining(d, c) == j + (a + b)
  {
    hide Replacement, ReadsNext, SuperAction;
  }

  // The guarantees.

  /**
   * Planning again after any number of a plan's actions succeeds and plans exactly the others; in
   * particular, after all of them it plans none.
   */
  lemma ReplanAfterPrefix(rd: Readers, dev: Device, k: nat)
    requires |dev| >= 2 && MakePlan(rd, dev).Ok? && k <= |MakePlan(rd, dev).value.actions|
    ensures var actions := MakePlan(rd, dev).value.actions;
            var again := MakePlan(rd, After(dev, actions, k));
            again.Ok? && again.value.actions == actions[k..]
  {
    hide MakePlan, PlannedFrom, After, PlanActions, View, Images, BlocksDistinct, Partial, NearlySound, Decides, Clean, Inspect;
    hide Actions, Replacement, JournalLeft, Landed, SuperActions, Ready;
    var c := PlanBasis(rd, dev);
    BasisPlans(rd, dev, c);
    PlanReady(rd, dev, c);
    PrefixPartial(rd, dev, c, k);
    var d := After(dev, PlanActions(dev, c), k);
    var copy := Replan(rd, dev, c, d);
    PrefixSupers(dev, c, k);
    SameOrder(d, c, copy);
    PrefixRemaining(rd, dev, c, k);
  }

  lemma PrefixSupers(dev: Device, c: Basis, k: nat)
    requires Ready(dev, c) && k <= |PlanActions(dev, c)|
    ensures var d, r := After(dev, PlanActions(dev, c), k), Replacement(c.super);
            && |d| == c.super.id.total && c.super.id.backup == |d| - 1 && c.copy <= 1
            && (SuperAt(d, 0) == SuperAt(dev, 0) || SuperAt(d, 0) == r) && (SuperAt(d, 1) == SuperAt(dev, 1) || SuperAt(d, 1) == r)
  {
    hide Replacement, After, PlanActions, BlocksDistinct, JournalGroup;
    AfterOtherSuper(dev, c, k);
    AfterSelectedSuper(dev, c, k);
  }

  /** The order of the superblock actions does not matter once one of the copies is in place. */
  lemma SameOrder(d: Device, c: Basis, copy: nat)
    requires |d| == c.super.id.total >= 2 && c.super.id.backup == |d| - 1 && copy <= 1 && c.copy <= 1
    requires SuperAt(d, 0) != Replacement(c.super) && SuperAt(d, 1) != Replacement(c.super) ==> copy == c.copy
    ensures Actions(d, c, copy, JournalLeft(d, c)) == Remaining(d, c)
  {
    hide Replacement, JournalLeft, SuperActions;
    SuperOrder(d, c.super.id, copy, c.copy, Replacement(c.super));
  }

  lemma BasisPlans(rd: Readers, dev: Device, c: Basis)
    requires |dev| >= 2 && NearlySound(rd, dev, c.super, c.chosen.header) && Decides(dev, c)
    requires Clean(Inspect(rd, View(dev, Images(PlanActions(dev, c)))))
    ensures PlannedFrom(rd, dev, c)
  {
    hide NearlySound, Decides, Clean, Inspect, View, Images, PlanActions;
  }

  /** The device after k actions, with the block of the next one torn to arbitrary contents. */
  function Torn(dev: Device, actions: seq<Action>, k: nat, t: Block): (d: Device)
    requires k < |actions|
    ensures |d| == |dev|
  {
    var b := actions[k].block;
    var d := After(dev, actions, k);
    if b < |d| then d[b := t] else d
  }

  /** The torn contents do not decode, or they decode to what was there before or what was to be written. */
  predicate Tearable(a: Action, t: Block) {
    if a.kind == JournalHeaderCopy then
      DecodeHeader(t).Err? || DecodeHeader(t) == DecodeHeader(a.expected) || DecodeHeader(t) == DecodeHeader(a.replacement)
    else
      || DecodeSuperblock(t).Err? || DecodeSuperblock(t) == DecodeSuperblock(a.expected)
      || DecodeSuperblock(t) == DecodeSuperblock(a.replacement)
  }

  /** The k-th action is the journal's, the other superblock's or the selected superblock's. */
  lemma ActionAt(dev: Device, c: Basis, k: nat)
    requires Ready(dev, c) && k < |PlanActions(dev, c)|
    ensures var g, a := GroupsOf(dev, c), PlanActions(dev, c)[k];
            || (k < |g.journal| && a == g.journal[0] && a.block == OtherHeader(c))
            || (k == |g.journal| && g.other != [] && a == g.other[0] && a.kind == SuperblockCopy
                && a.block == SuperBlockNumber(c.super.id, OtherCopy(c.copy)))
            || (k == |g.journal| + |g.other| && g.selected != [] && a == g.selected[0] && a.kind == SuperblockCopy
                && a.block == SuperBlockNumber(c.super.id, c.copy))
  {
    hide Replacement, NextHeader, BlocksDistinct, PlanActions;
    GroupedActions(dev, c);
  }

  /** Which of the four blocks a tear can hit, and what the others then hold. */
  lemma TornBlocks(dev: Device, c: Basis, k: nat, t: Block)
    requires Ready(dev, c) && k < |PlanActions(dev, c)|
    ensures var d, b := Torn(dev, PlanActions(dev, c), k, t), PlanActions(dev, c)[k].block;
            var o, s := SuperAt(d, OtherCopy(c.copy)), SuperAt(d, c.copy);
            var r := Replacement(c.super);
            && (forall x :: 0 < x < |dev| - 1 && x != OtherHeader(c) ==> d[x] == dev[x])
            && (if b == OtherHeader(c) then c.journal != [] && d[b] == t
                else d[OtherHeader(c)] == dev[OtherHeader(c)] || (c.journal != [] && d[OtherHeader(c)] == NextHeader(c.chosen.header)))
            && (if b == SuperBlockNumber(c.super.id, OtherCopy(c.copy)) then o == t
                else o == SuperAt(dev, OtherCopy(c.copy)) || o == r)
            && (if b == SuperBlockNumber(c.super.id, c.copy) then s == t && o == r
                else s == SuperAt(dev, c.copy))
  {
    hide Replacement, NextHeader, After, PlanActions, BlocksDistinct, SuperAction, JournalGroup;
    ActionAt(dev, c, k);
    AfterJournal(dev, c, k);
    AfterOtherSuper(dev, c, k);
    AfterSelectedSuper(dev, c, k);
    SuperUntouched(dev, c, OtherCopy(c.copy));
    var d := Torn(dev, PlanActions(dev, c), k, t);
    forall x | 0 < x < |dev| - 1 && x != OtherHeader(c)
      ensures d[x] == dev[x]
    {
      AfterOthers(dev, c, k, x);
    }
  }

  lemma TornPartial(rd: Readers, dev: Device, c: Basis, k: nat, t: Block)
    requires |dev| >= 2 && PlannedFrom(rd, dev, c) && k < |PlanActions(dev, c)|
    requires Tearable(PlanActions(dev, c)[k], t)
    ensures Partial(dev, c, Torn(dev, PlanActions(dev, c), k, t))
  {
    hide PlannedFrom, Replacement, NextHeader, Torn, PlanActions, BlocksDistinct, DecodeHeader, DecodeSuperblock, Partial;
    hide JournalActions, HeaderValid;
    PlanReady(rd, dev, c);
    JournalBasis(rd, dev, c);
    ActionAt(dev, c, k);
    TornBlocks(dev, c, k, t);
    if c.journal != [] {
      HeaderNotNext(dev, c);
    }
    ToPartial(rd, dev, c, Torn(dev, PlanActions(dev, c), k, t));
  }

  /** A torn journal header that reads as the new one is left as it is. */
  predicate ReadsWritten(a: Action, t: Block) {
    a.kind == JournalHeaderCopy && DecodeHeader(t) == DecodeHeader(a.replacement)
  }

  /**
   * A crash that tears the block being written so that it decodes to the old contents, to the new or
   * to nothing can be repaired: planning again succeeds, and applying the new plan ends in the very
   * volume the first one would have left, but for a torn journal header that reads as the new one.
   */
  lemma ReplanAfterTear(rd: Readers, dev: Device, k: nat, t: Block)
    requires |dev| >= 2 && MakePlan(rd, dev).Ok? && k < |MakePlan(rd, dev).value.actions|
    requires Tearable(MakePlan(rd, dev).value.actions[k], t)
    ensures var actions := MakePlan(rd, dev).value.actions;
            var torn, final := Torn(dev, actions, k, t), After(dev, actions, |actions|);
            var again := MakePlan(rd, torn);
            && again.Ok? && actions[k].block < |dev|
            && After(torn, again.value.actions, |again.value.actions|)
               == if ReadsWritten(actions[k], t) then final[actions[k].block := t] else final
  {
    hide MakePlan, PlannedFrom, After, PlanActions, View, Images, BlocksDistinct, Partial, NearlySound, Decides, Clean;
    hide Inspect, Torn;
    hide Tearable, ReadsWritten, Actions, JournalLeft, Landed, Ready;
    var c := PlanBasis(rd, dev);
    BasisPlans(rd, dev, c);
    TornPartial(rd, dev, c, k, t);
    var torn := Torn(dev, PlanActions(dev, c), k, t);
    var copy := Replan(rd, dev, c, torn);
    PlanIsFinal(rd, dev, c);
    AfterAll(dev, PlanActions(dev, c));
    AfterAll(torn, Actions(torn, c, copy, JournalLeft(torn, c)));
    TornLands(rd, dev, c, k, t, View(dev, Images(PlanActions(dev, c))));
  }

  lemma TornLands(rd: Readers, dev: Device, c: Basis, k: nat, t: Block, final: Device)
    requires |dev| >= 2 && PlannedFrom(rd, dev, c) && k < |PlanActions(dev, c)|
    requires FinalVolume(dev, c, NextHeader(c.chosen.header), final)
    ensures OtherHeader(c) < |dev| == |final|
    ensures var a := PlanActions(dev, c)[k];
            && a.block < |dev|
            && (if c.journal != [] then final[OtherHeader(c) := Landed(Torn(dev, PlanActions(dev, c), k, t), c)] else final)
               == if ReadsWritten(a, t) then final[a.block := t] else final
  {
    hide PlannedFrom, Replacement, NextHeader, Torn, PlanActions, BlocksDistinct, JournalActions, HeaderValid, DecodeHeader;
    PlanReady(rd, dev, c);
    JournalBasis(rd, dev, c);
    ActionAt(dev, c, k);
    TornBlocks(dev, c, k, t);
    if c.journal != [] {
      HeaderNotNext(dev, c);
    }
  }

  /**
   * Repair after a tear need not end in the planned volume: for every plan with a journal action there
   * is a tear of it that repair leaves in place.
   */
  lemma TornHeaderStays(rd: Readers, dev: Device, k: nat) returns (t: Block)
    requires |dev| >= 2 && MakePlan(rd, dev).Ok? && k < |MakePlan(rd, dev).value.actions|
    requires MakePlan(rd, dev).value.actions[k].kind == JournalHeaderCopy
    ensures var actions := MakePlan(rd, dev).value.actions;
            var torn := Torn(dev, actions, k, t);
            var again := MakePlan(rd, torn);
            && Tearable(actions[k], t) && again.Ok?
            && After(torn, again.value.actions, |again.value.actions|) != After(dev, actions, |actions|)
  {
    hide MakePlan, After, Torn, DecodeHeader, DecodeSuperblock, ActionsGood, BlocksDistinct;
    var actions := MakePlan(rd, dev).value.actions;
    var a := actions[k];
    t := a.replacement[4095 := if a.replacement[4095] == 0 then 1 else 0];
    assert t[..128] == a.replacement[..128];
    HeaderReads(t, a.replacement);
    ReplanAfterTear(rd, dev, k, t);
    PlannedBlocks(rd, dev);
    GoodDistinct(dev, actions);
    AfterAt(dev, actions, |actions|, k);
  }

  /** The bytes of a write that stopped after n of them. */
  function Stopped(a: Action, n: nat): Block
    requires n <= 4096
  {
    a.replacement[..n] + a.expected[n..]
  }

  /** How much of a block its decoder reads. */
  function ReadSize(a: Action): nat { if a.kind == JournalHeaderCopy then 128 else 256 }

  /** A write that stops before its first byte, or anywhere after the encoded part, leaves nothing unforeseen. */
  lemma SectorTear(a: Action, n: nat)
    requires n == 0 || ReadSize(a) <= n <= 4096
    ensures Tearable(a, Stopped(a, n))
  {
    hide DecodeHeader, DecodeSuperblock;
    if n == 0 {
      assert Stopped(a, n) == a.expected;
    } else {
      assert Stopped(a, n)[..ReadSize(a)] == a.replacement[..ReadSize(a)];
      if a.kind == JournalHeaderCopy {
        HeaderReads(Stopped(a, n), a.replacement);
      } else {
        SuperReads(Stopped(a, n), a.replacement);
      }
    }
  }

  lemma NothingPlanned(dev: Device, c: Basis)
    requires Ready(dev, c) && PlanActions(dev, c) == []
    ensures c.journal == [] && SuperAt(dev, 0) == Replacement(c.super) && SuperAt(dev, 1) == Replacement(c.super)
  {
    hide Replacement, PlanActions, BlocksDistinct, JournalGroup;
    GroupedActions(dev, c);
    SuperUntouched(dev, c, 0);
    SuperUntouched(dev, c, 1);
  }

  /** A device with one superblock copy overwritten. */
  function LoseCopy(dev: Device, copy: nat, junk: Block): (d: Device)
    requires |dev| >= 2
    ensures |d| == |dev|
  {
    dev[if copy == 0 then 0 else |dev| - 1 := junk]
  }

  /**
   * A volume with nothing to repair that loses either superblock copy to contents that do not decode
   * is repaired to what it was, bit for bit.
   */
  lemma LostCopyIsRestored(rd: Readers, dev: Device, copy: nat, junk: Block)
    requires |dev| >= 2 && MakePlan(rd, dev).Ok? && MakePlan(rd, dev).value.actions == []
    requires copy <= 1 && DecodeSuperblock(junk).Err?
    ensures var d := LoseCopy(dev, copy, junk);
            var plan := MakePlan(rd, d);
            plan.Ok? && After(d, plan.value.actions, |plan.value.actions|) == dev
  {
    hide MakePlan, PlannedFrom, After, PlanActions, Remaining, View, Images, BlocksDistinct, Partial, NearlySound;
    hide Decides, Clean, Inspect, Ready, DecodeSuperblock, Replacement;
    var c := PlanBasis(rd, dev);
    BasisPlans(rd, dev, c);
    PlanReady(rd, dev, c);
    NothingPlanned(dev, c);
    var d := LoseCopy(dev, copy, junk);
    LostIsPartial(rd, dev, c, copy, junk);
    var selected := Replan(rd, dev, c, d);
    AfterAll(d, Actions(d, c, selected, JournalLeft(d, c)));
    NoImages(dev);
  }

  lemma LostIsPartial(rd: Readers, dev: Device, c: Basis, copy: nat, junk: Block)
    requires |dev| >= 2 && PlannedFrom(rd, dev, c) && Ready(dev, c) && copy <= 1 && DecodeSuperblock(junk).Err?
    requires SuperAt(dev, 0) == Replacement(c.super) && SuperAt(dev, 1) == Replacement(c.super)
    ensures Partial(dev, c, LoseCopy(dev, copy, junk))
  {
    hide PlannedFrom, Partial, DecodeSuperblock, Replacement, BlocksDistinct, PlanActions, JournalGroup, NextHeader, DecodeHeader;
    ToPartial(rd, dev, c, LoseCopy(dev, copy, junk));
  }

  // Losing a journal header.

  /** A device with a journal header copy overwritten. */
  function LoseHeader(dev: Device, id: Identity, copy: nat, junk: Block): (d: Device)
    requires id.journalStart + copy < |dev|
    ensures |d| == |dev|
  {
    dev[id.journalStart + copy := junk]
  }

  /** Both headers can be read and say the same. */
  ghost predicate Agree(dev: Device, id: Identity, h: JournalHeader) {
    var (first, second) := Headers(dev, id);
    && first.Ok? && second.Ok? && HeaderValid(first.value) && HeaderValid(second.value)
    && SameHeaderState(first.value, h) && SameHeaderState(second.value, h)
    && 0 < id.journalStart && id.journalStart + 1 < |dev| - 1
  }

  lemma BasisChooses(rd: Readers, dev: Device, c: Basis)
    requires |dev| >= 2 && PlannedFrom(rd, dev, c)
    ensures Chooses(dev, c.super.id, c.chosen.header, c.chosen) && c.chosen.copy <= 1
    ensures Selects(dev, c.super, c.copy, c.state)
  {
    hide NearlySound, Clean, Inspect, View, Images, PlanActions, Selects, Chooses, JournalActions;
  }

  lemma NoActionAgree(dev: Device, id: Identity, chosen: Chosen)
    requires Chooses(dev, id, chosen.header, chosen) && chosen.copy <= 1 && JournalActions(dev, id, chosen) == Ok([])
    requires 0 < id.journalStart && id.journalStart + 1 < |dev| - 1
    ensures Agree(dev, id, chosen.header)
  {
    hide DecodeHeader, HeaderValid;
    if DecodeHeader(dev[id.journalStart]).Ok? {
      DecodedHeaderValid(dev[id.journalStart]);
    }
    if DecodeHeader(dev[id.journalStart + 1]).Ok? {
      DecodedHeaderValid(dev[id.journalStart + 1]);
    }
  }

  /** The headers of a volume with nothing to repair agree. */
  lemma HeadersAgree(rd: Readers, dev: Device, c: Basis)
    requires |dev| >= 2 && PlannedFrom(rd, dev, c) && c.journal == []
    ensures Agree(dev, c.super.id, c.chosen.header)
  {
    hide PlannedFrom, Agree, Chooses, Selects, JournalActions, HeaderValid;
    HeadersInside(rd, dev, c);
    BasisChooses(rd, dev, c);
    JournalBasis(rd, dev, c);
    NoActionAgree(dev, c.super.id, c.chosen);
  }

  /** The action that makes a header copy the successor of the other one. */
  function Renewal(id: Identity, copy: nat, was: Block, kept: JournalHeader): Action {
    Action(JournalHeaderCopy, copy, id.journalStart + copy, was, NextHeader(kept))
  }

  /** What is left of two agreeing headers when one is lost. */
  lemma HeaderLost(dev: Device, id: Identity, h: JournalHeader, copy: nat, junk: Block) returns (chosen: Chosen)
    requires Agree(dev, id, h) && copy <= 1 && DecodeHeader(junk).Err?
    ensures var d := LoseHeader(dev, id, copy, junk);
            && chosen.copy == OtherCopy(copy) && HeaderAt(dev, id.journalStart + chosen.copy) == Ok(chosen.header)
            && HeaderValid(chosen.header) && SameHeaderState(chosen.header, h) && Chooses(d, id, h, chosen)
            && JournalActions(d, id, chosen) ==
                 if chosen.header.sequence == MAX64 then Err(CorruptFilesystem)
                 else Ok([Renewal(id, copy, junk, chosen.header)])
  {
    hide DecodeHeader, HeaderValid, EncodeHeader;
    chosen := Chosen(OtherCopy(copy), HeaderAt(dev, id.journalStart + OtherCopy(copy)).value);
    if chosen.header.sequence != MAX64 {
      NextHeaderDecodes(chosen.header);
    }
  }

  /** A sound volume whose copies agree inspects clean. */
  lemma SoundIsClean(rd: Readers, w: Device, s: Superblock, h: JournalHeader, chosen: Chosen)
    requires Sound(rd, w, s, h) && Selected(w) == Ok(Selection(s, false, false)) && s.id.total <= MAXIMUM_BLOCKS
    requires DecodeSuperblock(w[0]).Ok? && DecodeSuperblock(w[|w| - 1]).Ok?
    requires Chooses(w, s.id, h, chosen) && s.id.journalStart + 2 <= |w|
    requires var (first, second) := Headers(w, s.id);
             first.Ok? && second.Ok? && SameHeaderState(first.value, h) && SameHeaderState(second.value, h)
    ensures Clean(Inspect(rd, w))
  {
    hide InspectHome, InspectJournal, MountStatus, DecodeSuperblock, HeaderAt, HasBit, HeaderValid, Decodable, RecordCapacity, View;
    assert s.(state := STATE_NONE) == s;
    SoundReport(rd, w, s, h, 0, STATE_NONE, chosen);
    ChosenJournal(rd, w, s, STATE_NONE, h, chosen);
  }

  lemma RenewedAgrees(dev: Device, id: Identity, h: JournalHeader, copy: nat, kept: JournalHeader) returns (chosen: Chosen)
    requires Agree(dev, id, h) && copy <= 1 && HeaderAt(dev, id.journalStart + OtherCopy(copy)) == Ok(kept)
    requires HeaderValid(kept) && SameHeaderState(kept, h) && kept.sequence != MAX64
    ensures var v := LoseHeader(dev, id, copy, NextHeader(kept));
            Agree(v, id, h) && Chooses(v, id, h, chosen)
  {
    hide DecodeHeader, HeaderValid, EncodeHeader, NextHeader;
    NextHeaderDecodes(kept);
    chosen := Chosen(copy, kept.(sequence := kept.sequence + 1));
  }

  lemma HeaderSameHome(rd: Readers, dev: Device, c: Basis, copy: nat, b: Block)
    requires |dev| >= 2 && PlannedFrom(rd, dev, c) && copy <= 1
    ensures c.super.id.journalStart + copy < |dev| == c.super.id.total
    ensures var d := LoseHeader(dev, c.super.id, copy, b); SameHome(c.super.id, dev, d) && d[0] == dev[0] && d[|d| - 1] == dev[|dev| - 1]
  {
    hide PlannedFrom, RangesValid, Guarded, RecordCapacity;
    Sizes(rd, dev, c);
    FourBlocks(c.super.id);
  }

  lemma HomeBounded(rd: Readers, dev: Device, id: Identity)
    requires InspectHome(rd, dev, id) == Home(Success, Success, Success)
    ensures id.total <= MAXIMUM_BLOCKS
  {
    hide Namespace, Allocation, Security;
  }

  lemma AgreeInside(dev: Device, id: Identity, h: JournalHeader)
    requires Agree(dev, id, h)
    ensures 0 < id.journalStart && id.journalStart + 1 < |dev| - 1
    ensures HeaderAt(dev, id.journalStart).Ok? && HeaderAt(dev, id.journalStart + 1).Ok?
  {
    hide HeaderAt, HeaderValid;
  }

  lemma BasisSelected(rd: Readers, dev: Device, c: Basis)
    requires |dev| >= 2 && PlannedFrom(rd, dev, c)
    ensures Selected(dev).Ok? && Selected(dev).value.super.id == c.super.id
  {
    hide PlannedFrom, Selected, DecodeSuperblock, HeaderAt, ChooseHeader;
    BasisCopies(rd, dev, c);
  }

  /** With both superblock copies in place, the primary is selected. */
  lemma FinalSupers(rd: Readers, dev: Device, c: Basis, d: Device)
    requires |dev| >= 2 && PlannedFrom(rd, dev, c) && |d| == |dev| && d[0] == dev[0] && d[|d| - 1] == dev[|dev| - 1]
    requires SuperAt(dev, 0) == Replacement(c.super) && SuperAt(dev, 1) == Replacement(c.super)
    ensures Selected(d) == Ok(Selection(c.super, false, false)) && Selects(d, c.super, 0, STATE_NONE)
    ensures DecodeSuperblock(d[0]).Ok? && DecodeSuperblock(d[|d| - 1]).Ok? && EncodeSuperblock(c.super).Ok?
    ensures SuperActions(d, c.super.id, 0, EncodeSuperblock(c.super).value) == []
  {
    hide PlannedFrom, DecodeSuperblock, EncodeSuperblock, Decodable, RangesValid, HeaderValid;
    Sizes(rd, dev, c);
    BasisFacts(rd, dev, c);
    ReplacementDecodes(c.super);
    SelectSame(c.super);
  }

  lemma NoPlan(rd: Readers, d: Device, s: Superblock, h: JournalHeader, chosen: Chosen)
    requires Sound(rd, d, s, h) && Selects(d, s, 0, STATE_NONE) && Chooses(d, s.id, h, chosen)
    requires JournalActions(d, s.id, chosen).Err?
    ensures MakePlan(rd, d).Err?
  {
    hide Inspect, InspectHome, InspectJournal, MakePlan, JournalActions, MountStatus, HeaderAt, HeaderValid, Settled, Decodable, HasBit;
    hide Selected, ChooseHeader, SameHeaderState, Refusal, Clean, View, Images, Draft;
    SoundReport(rd, d, s, h, 0, STATE_NONE, chosen);
    ChosenJournal(rd, d, s, STATE_NONE, h, chosen);
    if MakePlan(rd, d).Ok? {
      PlanParts(rd, d);
      var r := Inspect(rd, d);
      DraftFacts(d, r.volume.value, r.journal.chosen.value, r.journal.copies);
      assert false;
    }
  }

  lemma RenewedClean(rd: Readers, dev: Device, c: Basis, copy: nat, kept: JournalHeader) returns (v: Device)
    requires |dev| >= 2 && PlannedFrom(rd, dev, c) && copy <= 1 && Agree(dev, c.super.id, c.chosen.header)
    requires SuperAt(dev, 0) == Replacement(c.super) && SuperAt(dev, 1) == Replacement(c.super)
    requires c.super.id.journalStart + 1 < |dev| && HeaderAt(dev, c.super.id.journalStart + OtherCopy(copy)) == Ok(kept)
    requires HeaderValid(kept) && SameHeaderState(kept, c.chosen.header) && kept.sequence != MAX64
    ensures v == LoseHeader(dev, c.super.id, copy, NextHeader(kept)) && |v| >= 2 && Clean(Inspect(rd, v))
  {
    hide PlannedFrom, Selects, Chooses, HeaderAt, HeaderValid, NextHeader, SameHome, DecodeHeader;
    hide Inspect, DecodeSuperblock, EncodeSuperblock, Decodable, SameHeaderState, LoseHeader, Clean, InspectHome, MountStatus, Selected;
    var id, h := c.super.id, c.chosen.header;
    v := LoseHeader(dev, id, copy, NextHeader(kept));
    var chosen := RenewedAgrees(dev, id, h, copy, kept);
    HeaderSameHome(rd, dev, c, copy, NextHeader(kept));
    PartialSound(rd, dev, c, v);
    FinalSupers(rd, dev, c, v);
    HomeBounded(rd, v, id);
    SoundIsClean(rd, v, c.super, h, chosen);
  }

  lemma LoneAction(dev: Device, d: Device, c: Basis, copy: nat, junk: Block, kept: JournalHeader, v: Device)
    requires copy <= 1 && c.super.id.journalStart + copy < |dev| && d == LoseHeader(dev, c.super.id, copy, junk)
    requires v == LoseHeader(dev, c.super.id, copy, NextHeader(kept))
    ensures var a := Renewal(c.super.id, copy, junk, kept);
            View(d, Images([a] + [])) == v && [a] + [] == [a]
  {
    hide NextHeader;
    var a := Renewal(c.super.id, copy, junk, kept);
    assert [a] + [] == [a];
    forall b | 0 <= b < |d|
      ensures View(d, Images([a]))[b] == v[b]
    {
      if b == a.block {
        ViewOfAction(d, [a], 0);
      } else {
        ViewElsewhere(d, [a], b);
      }
    }
  }

  /** Planning succeeds unless the header left has the last sequence number, and then renews the other one. */
  ghost predicate Renews(rd: Readers, d: Device, a: Action, kept: JournalHeader)
    requires |d| >= 2
  {
    var plan := MakePlan(rd, d);
    (plan.Ok? <==> kept.sequence != MAX64) && (plan.Ok? ==> plan.value.actions == [a])
  }

  lemma RenewsLost(rd: Readers, dev: Device, c: Basis, copy: nat, junk: Block, kept: JournalHeader)
    requires |dev| >= 2 && PlannedFrom(rd, dev, c) && c.journal == [] && copy <= 1 && DecodeHeader(junk).Err?
    requires SuperAt(dev, 0) == Replacement(c.super) && SuperAt(dev, 1) == Replacement(c.super)
    requires HeaderAt(dev, c.super.id.journalStart + OtherCopy(copy)) == Ok(kept) && c.super.id.journalStart + 1 < |dev|
    ensures Renews(rd, LoseHeader(dev, c.super.id, copy, junk), Renewal(c.super.id, copy, junk, kept), kept)
  {
    hide PlannedFrom, Agree, Selects, Chooses, JournalActions, HeaderAt, DecodeHeader, HeaderValid, NextHeader, MakePlan, Sound, SameHome;
    hide Inspect, View, Images, DecodeSuperblock, EncodeSuperblock, Decodable, SameHeaderState, LoseHeader, Renewal;
    var id, h := c.super.id, c.chosen.header;
    HeadersAgree(rd, dev, c);
    var chosen := HeaderLost(dev, id, h, copy, junk);
    HeaderSameHome(rd, dev, c, copy, junk);
    var d := LoseHeader(dev, id, copy, junk);
    PartialSound(rd, dev, c, d);
    FinalSupers(rd, dev, c, d);
    if kept.sequence == MAX64 {
      NoPlan(rd, d, c.super, h, chosen);
    } else {
      var renewed := RenewedClean(rd, dev, c, copy, kept);
      LoneAction(dev, d, c, copy, junk, kept, renewed);
      PlanFor(rd, d, c.super, h, 0, STATE_NONE, chosen, [Renewal(id, copy, junk, kept)]);
    }
  }

  /**
   * A volume with nothing to repair that loses either journal header to contents that do not decode is
   * planned to have it renewed from the other one, if and only if that one's sequence number is not the
   * last there is.
   */
  lemma LostHeaderIsRenewed(rd: Readers, dev: Device, copy: nat, junk: Block) returns (id: Identity, kept: JournalHeader)
    requires |dev| >= 2 && MakePlan(rd, dev).Ok? && MakePlan(rd, dev).value.actions == []
    requires copy <= 1 && DecodeHeader(junk).Err?
    ensures Selected(dev).Ok? && id == Selected(dev).value.super.id && id.journalStart + 1 < |dev|
    ensures HeaderAt(dev, id.journalStart + OtherCopy(copy)) == Ok(kept)
    ensures Renews(rd, LoseHeader(dev, id, copy, junk), Renewal(id, copy, junk, kept), kept)
  {
    hide MakePlan, PlannedFrom, PlanActions, View, Images, NearlySound, Decides, Clean, Inspect, Ready, DecodeSuperblock, Replacement;
    hide DecodeHeader, HeaderAt, Renews, Renewal, LoseHeader, Agree, HeaderValid;
    var c := PlanBasis(rd, dev);
    BasisPlans(rd, dev, c);
    PlanReady(rd, dev, c);
    NothingPlanned(dev, c);
    HeadersAgree(rd, dev, c);
    AgreeInside(dev, c.super.id, c.chosen.header);
    BasisSelected(rd, dev, c);
    id := c.super.id;
    kept := HeaderAt(dev, id.journalStart + OtherCopy(copy)).value;
    RenewsLost(rd, dev, c, copy, junk, kept);
  }

  /** A copy that still holds the selected superblock, up to its state flag. */
  predicate HoldsSuper(d: Device, s: Superblock, copy: nat)
    requires |d| >= 2
  {
    var x := DecodeSuperblock(SuperAt(d, copy));
    x.Ok? && x.value.(state := STATE_NONE) == s.(state := STATE_NONE)
  }

  /** A journal header copy that still holds the selected header's state. */
  predicate HoldsHeader(d: Device, id: Identity, h: JournalHeader, copy: nat) {
    var x := HeaderAt(d, id.journalStart + copy);
    x.Ok? && SameHeaderState(x.value, h)
  }

  /** What was selected on one device is still to be found on another. */
  predicate Survives(dev: Device, d: Device)
    requires |dev| >= 2 && |d| >= 2
  {
    Selected(dev).Ok? &&
      var s := Selected(dev).value.super;
      var chosen := ChooseHeader(HeaderAt(dev, s.id.journalStart), HeaderAt(dev, s.id.journalStart + 1));
      && chosen.Ok?
      && (HoldsSuper(d, s, 0) || HoldsSuper(d, s, 1))
      && (HoldsHeader(d, s.id, chosen.value.header, 0) || HoldsHeader(d, s.id, chosen.value.header, 1))
  }

  lemma BasisCopies(rd: Readers, dev: Device, c: Basis)
    requires |dev| >= 2 && PlannedFrom(rd, dev, c)
    ensures var id := c.super.id;
            && Selected(dev).Ok? && Selected(dev).value.super.(state := STATE_NONE) == c.super
            && DecodeSuperblock(SuperAt(dev, c.copy)).Ok?
            && DecodeSuperblock(SuperAt(dev, c.copy)).value.(state := STATE_NONE) == c.super
            && HeaderAt(dev, id.journalStart + c.chosen.copy) == Ok(c.chosen.header)
            && ChooseHeader(HeaderAt(dev, id.journalStart), HeaderAt(dev, id.journalStart + 1)) == Ok(c.chosen)
  {
    hide Inspect, InspectHome, View, Images, Replacement, JournalActions, HeaderValid, Settled, DecodeSuperblock;
    hide HeaderAt, Decodable;
    SelectedDecodes(dev);
  }

  lemma ChosenHeaderKept(dev: Device, c: Basis, d: Device)
    requires Ready(dev, c) && |d| == |dev|
    requires HeaderAt(dev, c.super.id.journalStart + c.chosen.copy) == Ok(c.chosen.header)
    requires 0 < c.super.id.journalStart && c.super.id.journalStart + 1 < |dev| - 1
    requires forall x :: 0 < x < |dev| - 1 && x != OtherHeader(c) ==> d[x] == dev[x]
    ensures HoldsHeader(d, c.super.id, c.chosen.header, c.chosen.copy)
  {
    hide DecodeHeader, BlocksDistinct, PlanActions, JournalGroup;
  }

  lemma HeadersInside(rd: Readers, dev: Device, c: Basis)
    requires |dev| >= 2 && PlannedFrom(rd, dev, c)
    ensures 0 < c.super.id.journalStart && c.super.id.journalStart + 1 < |dev| - 1
  {
    hide PlannedFrom, RangesValid, RecordCapacity;
    Sizes(rd, dev, c);
    BasisFacts(rd, dev, c);
    FourBlocks(c.super.id);
  }

  /** The two copies that a tear leaves intact. */
  lemma TornHolds(rd: Readers, dev: Device, c: Basis, k: nat, t: Block) returns (copy: nat)
    requires |dev| >= 2 && PlannedFrom(rd, dev, c) && k < |PlanActions(dev, c)|
    ensures copy <= 1
    ensures var torn := Torn(dev, PlanActions(dev, c), k, t);
            HoldsSuper(torn, c.super, copy) && HoldsHeader(torn, c.super.id, c.chosen.header, c.chosen.copy)
  {
    hide PlannedFrom, PlanActions, BlocksDistinct, Torn, DecodeSuperblock, HoldsHeader;
    hide HeaderAt, Replacement, NextHeader, Selected, ChooseHeader, JournalGroup, Decodable, HeaderValid, EncodeSuperblock;
    PlanReady(rd, dev, c);
    BasisCopies(rd, dev, c);
    Sizes(rd, dev, c);
    HeadersInside(rd, dev, c);
    ReplacementDecodes(c.super);
    TornBlocks(dev, c, k, t);
    var torn := Torn(dev, PlanActions(dev, c), k, t);
    copy := if PlanActions(dev, c)[k].block == SuperBlockNumber(c.super.id, c.copy) then OtherCopy(c.copy) else c.copy;
    ChosenHeaderKept(dev, c, torn);
  }

  /**
   * At every point of the application, even with the block being written torn to anything at all,
   * one superblock copy and one journal header still carry the selected state.
   */
  lemma SurvivesTear(rd: Readers, dev: Device, k: nat, t: Block)
    requires |dev| >= 2 && MakePlan(rd, dev).Ok? && k < |MakePlan(rd, dev).value.actions|
    ensures Survives(dev, Torn(dev, MakePlan(rd, dev).value.actions, k, t))
  {
    hide MakePlan, PlannedFrom, PlanActions, View, Images, NearlySound, Decides, Clean, Inspect, Torn, DecodeSuperblock;
    hide HeaderAt, Selected, ChooseHeader;
    var c := PlanBasis(rd, dev);
    BasisPlans(rd, dev, c);
    BasisCopies(rd, dev, c);
    var copy := TornHolds(rd, dev, c, k, t);
    BasisCopyNumbers(rd, dev, c);
  }

  lemma BasisCopyNumbers(rd: Readers, dev: Device, c: Basis)
    requires |dev| >= 2 && PlannedFrom(rd, dev, c)
    ensures c.copy <= 1 && c.chosen.copy <= 1
  {
    hide NearlySound, Clean, Inspect, View, Images, PlanActions, Selects, Chooses, JournalActions;
  }

  /** What an action of a plan may be. */
  ghost predicate ActionGood(dev: Device, s: Superblock, copy: nat, a: Action) {
    && a.block < |dev| && a.expected == dev[a.block] && a.replacement != a.expected
    && (a.block == 0 || a.block == |dev| - 1 || a.block == s.id.journalStart + OtherCopy(copy))
  }

  lemma PlanActionsGood(rd: Readers, dev: Device, c: Basis, k: nat)
    requires |dev| >= 2 && PlannedFrom(rd, dev, c) && k < |PlanActions(dev, c)|
    ensures ActionGood(dev, c.super, c.chosen.copy, PlanActions(dev, c)[k])
  {
    hide PlannedFrom, Replacement, NextHeader, PlanActions, BlocksDistinct, JournalActions, HeaderValid;
    PlanReady(rd, dev, c);
    JournalBasis(rd, dev, c);
    ActionAt(dev, c, k);
    if c.journal != [] {
      HeaderNotNext(dev, c);
    }
  }

  /** The actions are for distinct blocks, each one of the three that repair may write. */
  ghost predicate ActionsGood(dev: Device, actions: seq<Action>)
    requires |dev| >= 2
  {
    Selected(dev).Ok? &&
      var s := Selected(dev).value.super;
      var chosen := ChooseHeader(HeaderAt(dev, s.id.journalStart), HeaderAt(dev, s.id.journalStart + 1));
      && chosen.Ok? && |actions| <= 3 && BlocksDistinct(actions)
      && forall k :: 0 <= k < |actions| ==> ActionGood(dev, s, chosen.value.copy, actions[k])
  }

  /**
   * Whenever planning succeeds, its actions are at most three and on distinct blocks: the two
   * superblock copies and the journal header that was not selected. Each expects what the device
   * holds and would change it.
   */
  lemma PlannedBlocks(rd: Readers, dev: Device)
    requires |dev| >= 2 && MakePlan(rd, dev).Ok?
    ensures ActionsGood(dev, MakePlan(rd, dev).value.actions)
  {
    hide MakePlan, PlannedFrom, View, Images, NearlySound, Decides, Clean, Inspect, PlanActions, ActionsGood;
    var c := PlanBasis(rd, dev);
    BasisPlans(rd, dev, c);
    BasisActionsGood(rd, dev, c);
  }

  lemma BasisActionsGood(rd: Readers, dev: Device, c: Basis)
    requires |dev| >= 2 && PlannedFrom(rd, dev, c)
    ensures ActionsGood(dev, PlanActions(dev, c))
  {
    hide PlannedFrom, View, Images, HeaderAt, Selected, ChooseHeader, BlocksDistinct, PlanActions, ActionGood;
    hide FinalVolume, DecodeSuperblock;
    BasisCopies(rd, dev, c);
    PlanIsFinal(rd, dev, c);
    PlanSize(rd, dev, c);
    var actions := PlanActions(dev, c);
    var s := Selected(dev).value.super;
    forall k | 0 <= k < |actions|
      ensures ActionGood(dev, s, c.chosen.copy, actions[k])
    {
      PlanActionsGood(rd, dev, c, k);
      GoodUpToState(dev, c.super, s, c.chosen.copy, actions[k]);
    }
  }

  lemma GoodDistinct(dev: Device, actions: seq<Action>)
    requires |dev| >= 2 && ActionsGood(dev, actions)
    ensures BlocksDistinct(actions) && |actions| <= 3
    ensures forall k :: 0 <= k < |actions| ==>
      actions[k].block < |dev| && actions[k].expected == dev[actions[k].block] != actions[k].replacement
  {
    hide HeaderAt, Selected, ChooseHeader, BlocksDistinct;
  }

  /** The overlay is the device after the writes, in any order, and differs nowhere else. */
  ghost predicate OverlayExact(dev: Device, actions: seq<Action>, order: seq<Image>) {
    var seen := View(dev, Images(actions));
    && WriteAll(dev, order) == seen
    && forall b :: 0 <= b < |dev| && (forall k :: 0 <= k < |actions| ==> actions[k].block != b) ==> seen[b] == dev[b]
  }

  lemma OverlayOfDistinct(dev: Device, actions: seq<Action>, order: seq<Image>)
    requires BlocksDistinct(actions) && forall x :: x in order <==> x in Images(actions)
    ensures OverlayExact(dev, actions, order)
  {
    hide View, Images, WriteAll, BlocksDistinct;
    ImagesDistinct(actions);
    AnyOrder(dev, Images(actions), order);
    forall b | 0 <= b < |dev| && (forall k :: 0 <= k < |actions| ==> actions[k].block != b)
      ensures View(dev, Images(actions))[b] == dev[b]
    {
      ViewElsewhere(dev, actions, b);
    }
  }

  /** The overlay that planning inspects, and finds clean, is what applying the plan leaves. */
  lemma OverlayIsResult(rd: Readers, dev: Device, order: seq<Image>)
    requires |dev| >= 2 && MakePlan(rd, dev).Ok?
    requires forall x :: x in order <==> x in Images(MakePlan(rd, dev).value.actions)
    ensures var actions := MakePlan(rd, dev).value.actions;
            OverlayExact(dev, actions, order) && Clean(Inspect(rd, View(dev, Images(actions))))
  {
    hide MakePlan, View, Images, Clean, Inspect, ActionsGood, BlocksDistinct, OverlayExact;
    PlannedBlocks(rd, dev);
    var actions := MakePlan(rd, dev).value.actions;
    GoodDistinct(dev, actions);
    OverlayOfDistinct(dev, actions, order);
    PlanParts(rd, dev);
  }

  lemma GoodUpToState(dev: Device, s: Superblock, s': Superblock, copy: nat, a: Action)
    requires s'.(state := STATE_NONE) == s && ActionGood(dev, s, copy, a)
    ensures ActionGood(dev, s', copy, a)
  {
  }

  lemma PlanSize(rd: Readers, dev: Device, c: Basis)
    requires |dev| >= 2 && PlannedFrom(rd, dev, c)
    ensures |PlanActions(dev, c)| <= 3
  {
    hide PlannedFrom, Replacement, NextHeader, BlocksDistinct, PlanActions, SuperAction;
    PlanReady(rd, dev, c);
    GroupedActions(dev, c);
  }
}
