/** Applying a repair plan to a device whose writes and barriers may fail (tools/zifsrepair/repair.c). */
module ZifsApply {
  import opened Status
  import opened ZifsFormat
  import opened ZifsJournal
  import opened ZifsHome
  import opened ZifsRepair
  import opened ZifsRepairTheorems
  import opened ZifsCrash

  /** How one device operation turns out. A write that fails may leave its block in any state. */
  datatype Outcome = Works | Fails | Tears(left: Block)

  class Disk {
    var blocks: Device
    /** The outcomes of the operations to come; those past its end work. */
    var script: seq<Outcome>

    constructor (blocks: Device, script: seq<Outcome>)
      ensures this.blocks == blocks && this.script == script
    {
      this.blocks, this.script := blocks, script;
    }

    function Next(): Outcome
      reads this
    {
      if script == [] then Works else script[0]
    }

    predicate Reliable()
      reads this
    {
      forall i :: 0 <= i < |script| ==> script[i] == Works
    }

    method Write(b: nat, block: Block) returns (status: Status)
      requires b < |blocks|
      modifies this
      ensures script == if old(script) == [] then [] else old(script)[1..]
      ensures old(Next()).Works? ==> status == Success && blocks == old(blocks)[b := block]
      ensures old(Next()).Fails? ==> status == DeviceError && blocks == old(blocks)
      ensures old(Next()).Tears? ==> status == DeviceError && blocks == old(blocks)[b := old(Next()).left]
    {
      var outcome := Next();
      script := if script == [] then [] else script[1..];
      match outcome {
        case Works => blocks := blocks[b := block]; status := Success;
        case Fails => status := DeviceError;
        case Tears(left) => blocks := blocks[b := left]; status := DeviceError;
      }
    }

    method Barrier() returns (status: Status)
      modifies this
      ensures script == (if old(script) == [] then [] else old(script)[1..]) && blocks == old(blocks)
      ensures status == if old(Next()).Works? then Success else DeviceError
    {
      status := if Next().Works? then Success else DeviceError;
      script := if script == [] then [] else script[1..];
    }
  }

  /** One action: leave a block that already holds the replacement, refuse an unexpected one. */
  method ApplyAction(disk: Disk, a: Action, applied0: nat, present0: nat) returns (status: Status, applied: nat, present: nat)
    requires a.block < |disk.blocks|
    modifies disk
    ensures |disk.blocks| == old(|disk.blocks|)
    ensures disk.blocks == old(disk.blocks)[a.block := disk.blocks[a.block]]
    ensures var was := old(disk.blocks[a.block]);
            && (was == a.replacement ==> disk.blocks == old(disk.blocks) && (status == Success || status == DeviceError))
            && (was != a.replacement && was != a.expected ==> disk.blocks == old(disk.blocks) && status == InvalidState)
            && (was != a.replacement && was == a.expected ==>
                  && (status == Success || status == DeviceError)
                  && (status == Success ==> disk.blocks[a.block] == a.replacement))
            && (status == Success && was == a.replacement ==> applied == applied0 && present == present0 + 1)
            && (status == Success && was != a.replacement ==> applied == applied0 + 1 && present == present0)
    ensures old(disk.Reliable()) ==> disk.Reliable() && (status == Success || status == InvalidState)
  {
    var was := disk.blocks[a.block];
    applied, present := applied0, present0;
    if was == a.replacement {
      status := disk.Barrier();
      if status.Ok() {
        present := present + 1;
      }
      return;
    }
    if was != a.expected {
      status := InvalidState;
      return;
    }
    status := disk.Write(a.block, a.replacement);
    assert disk.blocks == old(disk.blocks)[a.block := disk.blocks[a.block]];
    if status.Ok() {
      status := disk.Barrier();
    }
    if status.Ok() {
      applied := applied + 1;
    }
  }

  /** Where an application of a plan may have got to: k actions made, and possibly the next one torn. */
  ghost predicate Reached(dev: Device, actions: seq<Action>, k: nat, d: Device) {
    || (k <= |actions| && d == After(dev, actions, k))
    || (k < |actions| && actions[k].block < |d| && d == Torn(dev, actions, k, d[actions[k].block]))
  }

  lemma AfterNext(dev: Device, actions: seq<Action>, k: nat)
    requires k < |actions| && actions[k].block < |dev|
    ensures After(dev, actions, k + 1) == After(dev, actions, k)[actions[k].block := actions[k].replacement]
  {
    hide WriteAll;
    assert Images(actions[..k + 1]) == Images(actions[..k]) + [ImageOf(actions[k])];
    WriteLast(dev, Images(actions[..k]), ImageOf(actions[k]));
  }

  lemma {:induction false} WriteLast(dev: Device, images: seq<Image>, last: Image)
    requires last.target < |dev|
    ensures WriteAll(dev, images + [last]) == WriteAll(dev, images)[last.target := last.block]
    decreases |images|
  {
    if images == [] {
      assert [last][1..] == [];
      assert images + [last] == [last];
    } else {
      assert (images + [last])[1..] == images[1..] + [last];
      var next := if images[0].target < |dev| then dev[images[0].target := images[0].block] else dev;
      WriteLast(next, images[1..], last);
    }
  }

  lemma NeverTooMany(rd: Readers, dev: Device)
    requires |dev| >= 2 && MakePlan(rd, dev).Ok?
    ensures |MakePlan(rd, dev).value.actions| <= 3
  {
    hide MakePlan, ActionsGood;
    PlannedBlocks(rd, dev);
    GoodDistinct(dev, MakePlan(rd, dev).value.actions);
  }

  /** Wherever an application stops, what was selected before it is still to be found. */
  lemma ReachedSurvives(rd: Readers, dev: Device, k: nat, d: Device)
    requires |dev| >= 2 && |d| == |dev| && MakePlan(rd, dev).Ok? && MakePlan(rd, dev).value.actions != []
    requires Reached(dev, MakePlan(rd, dev).value.actions, k, d)
    ensures Survives(dev, d)
  {
    hide MakePlan, After, Survives, ActionsGood, BlocksDistinct;
    var actions := MakePlan(rd, dev).value.actions;
    PlannedBlocks(rd, dev);
    GoodDistinct(dev, actions);
    if k <= |actions| && d == After(dev, actions, k) {
      var i := if k < |actions| then k else k - 1;
      var t := d[actions[i].block];
      if k == |actions| {
        AfterNext(dev, actions, i);
      }
      assert Torn(dev, actions, i, t) == d;
      SurvivesTear(rd, dev, i, t);
    } else {
      SurvivesTear(rd, dev, k, d[actions[k].block]);
    }
  }

  /** The loop over the actions: it stops only where the device does. */
  method ApplyActions(rd: Readers, disk: Disk, actions: seq<Action>) returns (status: Status, applied: nat, present: nat)
    requires |disk.blocks| >= 2 && MakePlan(rd, disk.blocks).Ok? && MakePlan(rd, disk.blocks).value.actions == actions
    modifies disk
    ensures |disk.blocks| == old(|disk.blocks|)
    ensures status == Success || status == DeviceError
    ensures exists k: nat :: Reached(old(disk.blocks), actions, k, disk.blocks)
    ensures status == Success ==>
      disk.blocks == After(old(disk.blocks), actions, |actions|) && applied == |actions| && present == 0
    ensures old(disk.Reliable()) ==> status == Success
  {
    hide MakePlan, After, ActionsGood, BlocksDistinct, Torn;
    ghost var dev := disk.blocks;
    PlannedBlocks(rd, dev);
    GoodDistinct(dev, actions);
    AfterNone(dev, actions);
    status, applied, present := Success, 0, 0;
    var k := 0;
    while k < |actions|
      invariant k <= |actions| && applied == k && present == 0 && status == Success
      invariant |disk.blocks| == |dev| && disk.blocks == After(dev, actions, k)
      invariant old(disk.Reliable()) ==> disk.Reliable()
    {
      AfterAt(dev, actions, k, k);
      AfterNext(dev, actions, k);
      status, applied, present := ApplyAction(disk, actions[k], applied, present);
      if status.Failed() {
        TornIs(dev, actions, k, disk.blocks);
        assert Reached(dev, actions, k, disk.blocks);
        return;
      }
      k := k + 1;
    }
    assert Reached(dev, actions, k, disk.blocks);
  }

  lemma AfterNone(dev: Device, actions: seq<Action>)
    ensures After(dev, actions, 0) == dev
  {
    assert Images(actions[..0]) == [];
  }

  lemma TornIs(dev: Device, actions: seq<Action>, k: nat, d: Device)
    requires k < |actions| && |d| == |dev| && actions[k].block < |dev|
    requires d == After(dev, actions, k)[actions[k].block := d[actions[k].block]]
    ensures d == Torn(dev, actions, k, d[actions[k].block])
  {
    hide After;
  }

  /** Plans once more: only a device with nothing left to repair passes. */
  method Recheck(rd: Readers, disk: Disk) returns (status: Status)
    requires |disk.blocks| >= 2
    ensures status == Success <==> MakePlan(rd, disk.blocks).Ok? && MakePlan(rd, disk.blocks).value.actions == []
    ensures MakePlan(rd, disk.blocks).Err? ==> status == MakePlan(rd, disk.blocks).status
    ensures MakePlan(rd, disk.blocks).Ok? && MakePlan(rd, disk.blocks).value.actions != [] ==> status == InvalidState
  {
    hide MakePlan;
    var final := MakePlan(rd, disk.blocks);
    if final.Err? {
      return final.status;
    }
    status := if final.value.actions != [] then InvalidState else Success;
  }

  /**
   * Applying a plan. Nothing is written unless the device still calls for exactly this plan. At
   * every stop the selected superblock and journal state survive; success means the device is what
   * the plan's overlay showed and needs no further repair; and only the device can make it fail.
   */
  method Apply(rd: Readers, disk: Disk, plan: Plan) returns (status: Status, applied: nat, present: nat)
    requires |disk.blocks| >= 2
    modifies disk
    ensures plan.actions == [] || |plan.actions| > 4 ==> status == InvalidArgument && disk.blocks == old(disk.blocks)
    ensures MakePlan(rd, old(disk.blocks)) != Ok(plan) ==> status.Failed() && disk.blocks == old(disk.blocks)
    ensures MakePlan(rd, old(disk.blocks)) == Ok(plan) && plan.actions != [] ==>
      && |disk.blocks| == old(|disk.blocks|)
      && (exists k: nat :: Reached(old(disk.blocks), plan.actions, k, disk.blocks))
      && Survives(old(disk.blocks), disk.blocks)
      && (status == Success ==>
            && disk.blocks == View(old(disk.blocks), Images(plan.actions))
            && MakePlan(rd, disk.blocks).Ok? && MakePlan(rd, disk.blocks).value.actions == []
            && applied == |plan.actions| && present == 0)
      && (old(disk.Reliable()) ==> status == Success)
  {
    hide MakePlan, After, View, Images, BlocksDistinct, Reached, Survives, ActionsGood;
    ghost var dev := disk.blocks;
    status, applied, present := InvalidArgument, 0, 0;
    if plan.actions == [] || |plan.actions| > 4 {
      if MakePlan(rd, dev) == Ok(plan) && plan.actions != [] {
        NeverTooMany(rd, dev);
      }
      return;
    }
    var current := MakePlan(rd, disk.blocks);
    if current.Err? {
      return current.status, 0, 0;
    }
    if current.value != plan {
      return InvalidState, 0, 0;
    }
    status, applied, present := ApplyActions(rd, disk, plan.actions);
    ghost var k :| Reached(dev, plan.actions, k, disk.blocks);
    ReachedSurvives(rd, dev, k, disk.blocks);
    if status.Failed() {
      return;
    }
    ReplanAfterPrefix(rd, dev, |plan.actions|);
    PlannedBlocks(rd, dev);
    GoodDistinct(dev, plan.actions);
    AfterAll(dev, plan.actions);
    status := Recheck(rd, disk);
  }
}
