/**
 * Generation-tagged handle tables (kernel/executive/handle/handle.c).
 *
 * `Table` is the value of a table; `HandleTable` is the table itself, an array updated in place,
 * with every method proved against a function on that value. Objects are named by number.
 *
 * Three fields are history, kept for the statements only: `issued` (every handle value ever
 * returned by an open), `swept` (a close_all has finished) and an entry's `origin` (the mask of the
 * first open from which the entry descends through duplications).
 */
module HandleTables {
  import opened Status
  import opened AccessCheck
  import opened Sums

  const TWO32 := 0x1_0000_0000
  const UINT32_MAX := 0xffff_ffff

  datatype Entry = Entry(obj: Option<nat>, access: Mask, generation: nat, inUse: bool, origin: Mask)

  datatype Table = Table(entries: seq<Entry>, active: nat, closing: bool, issued: set<nat>, swept: bool)

  const FRESH_ENTRY := Entry(None, {}, 1, false, {})

  function NextGeneration(generation: nat): nat {
    if generation == UINT32_MAX then 0 else generation + 1
  }

  function Encode(index: nat, generation: nat): nat {
    generation * TWO32 + index + 1
  }

  /** decode_handle for a table of the given capacity: slot index and generation. */
  function Decode(capacity: nat, handle: nat): Option<(nat, nat)> {
    var slot := handle % TWO32;
    var generation := handle / TWO32;
    if handle == 0 || slot == 0 || generation == 0 || slot - 1 >= capacity then None
    else Some((slot - 1, generation))
  }

  lemma EncodeDecode(capacity: nat, index: nat, generation: nat)
    requires index < capacity < UINT32_MAX
    requires 1 <= generation
    ensures Decode(capacity, Encode(index, generation)) == Some((index, generation))
  {
    var slot := index + 1;
    assert 0 < slot < TWO32;
    assert Encode(index, generation) == generation * TWO32 + slot;
    assert Encode(index, generation) % TWO32 == slot;
    assert Encode(index, generation) / TWO32 == generation;
  }

  lemma DecodeEncode(capacity: nat, handle: nat)
    requires Decode(capacity, handle).Some?
    ensures Encode(Decode(capacity, handle).value.0, Decode(capacity, handle).value.1) == handle
  {
  }

  /** How far a slot's generations have been used up: 0 after a wrap means all of them. */
  function Horizon(e: Entry): nat {
    if e.generation == 0 then TWO32 else e.generation
  }

  predicate EntryValid(e: Entry) {
    && e.generation < TWO32
    && (e.inUse ==> e.generation != 0 && e.obj.Some? && e.access <= e.origin && e.access != {})
    && (!e.inUse ==> e.obj.None? && e.access == {})
  }

  function InUse(): Entry -> nat {
    (e: Entry) => if e.inUse then 1 else 0
  }

  /** An issued value names a slot of the table and a generation that has been used up, or is in use. */
  predicate IssuedOnce(t: Table, handle: nat) {
    var d := Decode(|t.entries|, handle);
    && d.Some?
    && d.value.0 < |t.entries|
    && var e := t.entries[d.value.0];
       d.value.1 < Horizon(e) || (d.value.1 == e.generation && e.inUse)
  }

  ghost predicate TableValid(t: Table) {
    && 1 <= |t.entries| < UINT32_MAX
    && (forall i :: 0 <= i < |t.entries| ==> EntryValid(t.entries[i]))
    && t.active == Sum(InUse(), t.entries)
    && (forall h :: h in t.issued ==> IssuedOnce(t, h))
    && (forall i :: 0 <= i < |t.entries| && t.entries[i].inUse ==>
          Encode(i, t.entries[i].generation) in t.issued)
    && (t.swept ==> t.closing && forall i :: 0 <= i < |t.entries| ==> !t.entries[i].inUse)
  }

  /** The entry a handle names, if it is live: the test shared by lookup, duplicate and close. */
  function Resolve(t: Table, handle: nat): Option<nat> {
    var d := Decode(|t.entries|, handle);
    if d.None? then None
    else
      var e := t.entries[d.value.0];
      if e.inUse && e.generation == d.value.1 && e.obj.Some? then Some(d.value.0) else None
  }

  predicate Free(e: Entry) { !e.inUse && e.generation != 0 }

  /** The first index at or after `from` whose entry can be reused, or the capacity. */
  function FirstFree(entries: seq<Entry>, from: nat): (i: nat)
    requires from <= |entries|
    ensures from <= i <= |entries|
    ensures i < |entries| ==> Free(entries[i])
    ensures forall j :: from <= j < i ==> !Free(entries[j])
    decreases |entries| - from
  {
    if from == |entries| || Free(entries[from]) then from else FirstFree(entries, from + 1)
  }

  function FirstInUse(entries: seq<Entry>, from: nat): (i: nat)
    requires from <= |entries|
    ensures from <= i <= |entries|
    ensures i < |entries| ==> entries[i].inUse
    ensures forall j :: from <= j < i ==> !entries[j].inUse
    decreases |entries| - from
  {
    if from == |entries| || entries[from].inUse then from else FirstInUse(entries, from + 1)
  }

  function Fresh(capacity: nat): Table {
    Table(seq(capacity, _ => FRESH_ENTRY), 0, false, {}, false)
  }

  /** Fills slot `i`. */
  function Fill(t: Table, i: nat, obj: nat, access: Mask, origin: Mask): Table
    requires i < |t.entries|
  {
    var e := t.entries[i];
    t.(entries := t.entries[i := Entry(Some(obj), access, e.generation, true, origin)],
       active := t.active + 1,
       issued := t.issued + {Encode(i, e.generation)})
  }

  /** Empties slot `i` and moves its generation on. */
  function Vacate(t: Table, i: nat): Table
    requires i < |t.entries|
  {
    var e := t.entries[i];
    t.(entries := t.entries[i := Entry(None, {}, NextGeneration(e.generation), false, e.origin)],
       active := if t.active == 0 then 0 else t.active - 1)
  }

  /** The transitions of a table: open, close and the marks set by close_all. */
  datatype TableStep =
    | Open(obj: nat, access: Mask, origin: Mask)
    | Close(handle: nat)
    | BeginSweep
    | EndSweep

  predicate CanStep(t: Table, step: TableStep) {
    match step
    case Open(_, access, origin) =>
      !t.closing && access != {} && access <= origin && FirstFree(t.entries, 0) < |t.entries|
    case Close(h) => Resolve(t, h).Some?
    case BeginSweep => true
    case EndSweep => t.closing && FirstInUse(t.entries, 0) == |t.entries|
  }

  function Next(t: Table, step: TableStep): Table
    requires CanStep(t, step)
  {
    match step
    case Open(obj, access, origin) => Fill(t, FirstFree(t.entries, 0), obj, access, origin)
    case Close(h) => Vacate(t, Resolve(t, h).value)
    case BeginSweep => t.(closing := true)
    case EndSweep => t.(swept := true)
  }

  /** The handle value an open would return. */
  function Issues(t: Table): nat
    requires FirstFree(t.entries, 0) < |t.entries|
  {
    var i := FirstFree(t.entries, 0);
    Encode(i, t.entries[i].generation)
  }

  lemma FreshValid(capacity: nat)
    requires 1 <= capacity < UINT32_MAX
    ensures TableValid(Fresh(capacity))
  {
    SumZero(InUse(), Fresh(capacity).entries);
  }

  /** An open never issues a value that was issued before, and the value it issues is live at once. */
  lemma FillIsFresh(t: Table, i: nat, obj: nat, access: Mask, origin: Mask)
    requires TableValid(t)
    requires i < |t.entries| && Free(t.entries[i])
    requires !t.swept && access != {} && access <= origin
    ensures Encode(i, t.entries[i].generation) !in t.issued
    ensures TableValid(Fill(t, i, obj, access, origin))
    ensures Resolve(Fill(t, i, obj, access, origin), Encode(i, t.entries[i].generation)) == Some(i)
  {
    var h := Encode(i, t.entries[i].generation);
    EncodeDecode(|t.entries|, i, t.entries[i].generation);
    var u := Fill(t, i, obj, access, origin);
    SumUpdate(InUse(), t.entries, i, u.entries[i]);
    forall k | k in u.issued ensures IssuedOnce(u, k) {
      if k in t.issued { assert IssuedOnce(t, k); }
    }
  }

  lemma VacateValid(t: Table, i: nat)
    requires TableValid(t)
    requires i < |t.entries| && t.entries[i].inUse
    ensures TableValid(Vacate(t, i))
    ensures t.active >= 1
    ensures Resolve(Vacate(t, i), Encode(i, t.entries[i].generation)).None?
  {
    var u := Vacate(t, i);
    EncodeDecode(|t.entries|, i, t.entries[i].generation);
    SumUpdate(InUse(), t.entries, i, u.entries[i]);
    SumBounds(InUse(), t.entries, i);
    forall k | k in u.issued ensures IssuedOnce(u, k) {
      assert IssuedOnce(t, k);
    }
    forall j | 0 <= j < |u.entries| && u.entries[j].inUse
      ensures Encode(j, u.entries[j].generation) in u.issued
    {
      assert t.entries[j] == u.entries[j];
    }
  }

  lemma ResolveNames(t: Table, handle: nat)
    requires Resolve(t, handle).Some?
    ensures var i := Resolve(t, handle).value;
            i < |t.entries| && t.entries[i].inUse && handle == Encode(i, t.entries[i].generation)
  {
    DecodeEncode(|t.entries|, handle);
  }

  /** A live handle was issued. */
  lemma LiveWasIssued(t: Table, handle: nat)
    requires TableValid(t)
    requires Resolve(t, handle).Some?
    ensures handle in t.issued
  {
    ResolveNames(t, handle);
  }

  lemma StepValid(t: Table, step: TableStep)
    requires TableValid(t) && CanStep(t, step)
    ensures TableValid(Next(t, step))
    ensures step.Open? ==> Issues(t) !in t.issued && Issues(t) in Next(t, step).issued
    ensures t.issued <= Next(t, step).issued
    ensures t.closing ==> Next(t, step).closing
  {
    match step
    case Open(obj, access, origin) =>
      FillIsFresh(t, FirstFree(t.entries, 0), obj, access, origin);
    case Close(h) =>
      ResolveNames(t, h);
      VacateValid(t, Resolve(t, h).value);
    case BeginSweep =>
    case EndSweep =>
      assert forall i :: 0 <= i < |t.entries| ==> !t.entries[i].inUse;
  }

  /** Once issued and no longer live, a handle stays dead through any step. */
  lemma DeadStaysDead(t: Table, step: TableStep, handle: nat)
    requires TableValid(t) && CanStep(t, step)
    requires handle in t.issued && Resolve(t, handle).None?
    ensures Resolve(Next(t, step), handle).None?
  {
    assert IssuedOnce(t, handle);
    if step.Close? { ResolveNames(t, step.handle); }
  }

  /** A run of table steps, and the values its opens issue, in order. */
  ghost predicate TableRun(t: Table, steps: seq<TableStep>, u: Table, values: seq<nat>)
    decreases |steps|
  {
    if steps == [] then u == t && values == []
    else
      && CanStep(t, steps[0])
      && (if steps[0].Open? then
            values != [] && values[0] == Issues(t) && TableRun(Next(t, steps[0]), steps[1..], u, values[1..])
          else TableRun(Next(t, steps[0]), steps[1..], u, values))
  }

  /**
   * Over a table's whole life: no value is issued twice, a handle that is closed at any point never
   * resolves again, and the count of active entries is the number of entries in use.
   */
  lemma {:induction false} LifeOfATable(t: Table, steps: seq<TableStep>, u: Table, values: seq<nat>)
    requires TableValid(t) && TableRun(t, steps, u, values)
    ensures TableValid(u) && u.active == Sum(InUse(), u.entries)
    ensures t.issued <= u.issued
    ensures forall i, j :: 0 <= i < j < |values| ==> values[i] != values[j]
    ensures forall i :: 0 <= i < |values| ==> values[i] !in t.issued && values[i] in u.issued
    ensures forall h :: h in t.issued && Resolve(t, h).None? ==> Resolve(u, h).None?
    ensures t.closing ==> u.closing && values == []
    decreases |steps|
  {
    if steps != [] {
      var n := Next(t, steps[0]);
      StepValid(t, steps[0]);
      forall h | h in t.issued && Resolve(t, h).None? ensures Resolve(n, h).None? {
        DeadStaysDead(t, steps[0], h);
      }
      if steps[0].Open? {
        LifeOfATable(n, steps[1..], u, values[1..]);
        assert forall i :: 1 <= i < |values| ==> values[i] == values[1..][i - 1];
      } else {
        LifeOfATable(n, steps[1..], u, values);
      }
    }
  }

  /** A slot whose generation has wrapped to zero is never reused. */
  lemma RetiredSlot(t: Table, step: TableStep, i: nat)
    requires TableValid(t) && CanStep(t, step)
    requires i < |t.entries| && t.entries[i].generation == 0
    ensures Next(t, step).entries[i] == t.entries[i]
  {
    if step.Close? { ResolveNames(t, step.handle); }
  }

  /** The table itself: entries in an array, updated in place. */
  class HandleTable {
    var entries: array<Entry>
    var active: nat
    var closing: bool
    ghost var issued: set<nat>
    ghost var swept: bool

    ghost function Value(): Table
      reads this, entries
    {
      Table(entries[..], active, closing, issued, swept)
    }

    ghost predicate Valid()
      reads this, entries
    {
      TableValid(Value())
    }

    /** zi_handle_table_initialise, for an accepted capacity. */
    constructor (capacity: nat)
      requires 1 <= capacity < UINT32_MAX
      ensures Valid() && fresh(entries)
      ensures Value() == Fresh(capacity)
    {
      entries := new Entry[capacity](_ => FRESH_ENTRY);
      active, closing, issued, swept := 0, false, {}, false;
      new;
      assert entries[..] == Fresh(capacity).entries;
      FreshValid(capacity);
    }

    /**
     * The locked part of zi_handle_open, after the access check granted `access`. `added` says
     * whether zi_object_add_handle accepts the object when a slot is found.
     */
    method Open(obj: nat, access: Mask, origin: Mask, added: bool) returns (status: Status, handle: nat)
      requires Valid() && access != {} && access <= origin
      modifies this, entries
      ensures Valid() && entries == old(entries)
      ensures status.Success? <==>
              old(CanStep(Value(), TableStep.Open(obj, access, origin))) && added
      ensures status.Success? ==>
                && Value() == Next(old(Value()), TableStep.Open(obj, access, origin))
                && handle == Issues(old(Value()))
                && handle !in old(issued)
      ensures !status.Success? ==> Value() == old(Value()) && handle == 0
      ensures old(closing) ==> status.ProcessTerminated?
    {
      handle := 0;
      if closing {
        return ProcessTerminated, 0;
      }
      var index := 0;
      while index < entries.Length
        invariant 0 <= index <= entries.Length
        invariant Value() == old(Value())
        invariant FirstFree(entries[..], 0) == FirstFree(entries[..], index)
      {
        var entry := entries[index];
        if entry.inUse || entry.generation == 0 {
          index := index + 1;
          continue;
        }
        if !added {
          return InvalidState, 0;
        }
        FillIsFresh(Value(), index, obj, access, origin);
        assert index == FirstFree(entries[..], 0);
        entries[index] := Entry(Some(obj), access, entry.generation, true, origin);
        active := active + 1;
        handle := Encode(index, entry.generation);
        issued := issued + {handle};
        assert entries[..] == old(entries[..])[index := Entry(Some(obj), access, entry.generation, true, origin)];
        return Success, handle;
      }
      return HandleTableFull, 0;
    }

    /** The locked part of zi_handle_lookup and zi_handle_duplicate, up to the object reference. */
    method Find(handle: nat) returns (status: Status, obj: nat, access: Mask)
      requires Valid()
      ensures status.Success? <==> !closing && Resolve(Value(), handle).Some?
      ensures status.Success? ==>
                && handle in issued
                && entries[Resolve(Value(), handle).value].obj == Some(obj)
                && entries[Resolve(Value(), handle).value].access == access
    {
      obj, access := 0, {};
      var d := Decode(entries.Length, handle);
      if d.None? {
        return InvalidHandle, 0, {};
      }
      if closing {
        return ProcessTerminated, 0, {};
      }
      var entry := entries[d.value.0];
      if !entry.inUse || entry.generation != d.value.1 || entry.obj.None? {
        return InvalidHandle, 0, {};
      }
      LiveWasIssued(Value(), handle);
      return Success, entry.obj.value, entry.access;
    }

    /** The locked part of zi_handle_close: the object whose handle is now to be removed. */
    method Close(handle: nat) returns (status: Status, obj: nat)
      requires Valid()
      modifies this, entries
      ensures Valid() && entries == old(entries)
      ensures status.Success? <==> old(Resolve(Value(), handle)).Some?
      ensures status.Success? ==>
                && Value() == Next(old(Value()), TableStep.Close(handle))
                && old(entries[Resolve(Value(), handle).value].obj) == Some(obj)
                && active == old(active) - 1
      ensures !status.Success? ==> Value() == old(Value()) && status.InvalidHandle?
      ensures Resolve(Value(), handle).None?
    {
      obj := 0;
      var d := Decode(entries.Length, handle);
      if d.None? {
        return InvalidHandle, 0;
      }
      var index := d.value.0;
      var entry := entries[index];
      if !entry.inUse || entry.generation != d.value.1 || entry.obj.None? {
        return InvalidHandle, 0;
      }
      ResolveNames(Value(), handle);
      VacateValid(Value(), index);
      obj := entry.obj.value;
      entries[index] := Entry(None, {}, NextGeneration(entry.generation), false, entry.origin);
      active := active - 1;
      assert entries[..] == old(entries[..])[index := Entry(None, {}, NextGeneration(entry.generation), false, entry.origin)];
      status := Success;
    }

    /**
     * One locked round of zi_handle_table_close_all: from `from` on, empties the first entry in use
     * and reports its object; the caller then removes that handle without the lock and comes back.
     */
    method SweepFrom(from: nat) returns (obj: Option<nat>, next: nat)
      requires Valid() && from <= entries.Length
      modifies this, entries
      ensures Valid() && entries == old(entries) && closing
      ensures next <= entries.Length && from <= next
      ensures obj.Some? ==>
                && from < next
                && old(entries[next - 1].obj) == obj
                && Value() == Vacate(old(Value()).(closing := true), next - 1)
      ensures obj.None? ==>
                && next == entries.Length
                && Value() == old(Value()).(closing := true)
      ensures forall j :: from <= j < next ==> !entries[j].inUse
    {
      closing := true;
      assert TableValid(Value()) by { StepValid(old(Value()), BeginSweep); }
      ghost var t := Value();
      var index := from;
      while index < entries.Length
        invariant from <= index <= entries.Length
        invariant Value() == t
        invariant forall j :: from <= j < index ==> !entries[j].inUse
      {
        var entry := entries[index];
        if !entry.inUse {
          index := index + 1;
          continue;
        }
        VacateValid(t, index);
        entries[index] := Entry(None, {}, NextGeneration(entry.generation), false, entry.origin);
        active := active - 1;
        assert entries[..] == t.entries[index := Entry(None, {}, NextGeneration(entry.generation), false, entry.origin)];
        return entry.obj, index + 1;
      }
      return None, index;
    }
  }
}
