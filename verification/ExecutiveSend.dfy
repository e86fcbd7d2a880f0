/**
 * A whole send, followed from its first region to its return while no other thread runs: it delivers
 * or it leaves every object as it was, and what it delivers a receive hands over.
 */
module ExecutiveSend {
  import opened Status
  import opened AccessCheck
  import opened HandleTables
  import opened Sums
  import opened Executive
  import opened ExecutiveInvariant
  import opened ExecutiveLedger
  import opened ExecutiveTheorems

  // One thread running alone.

  ghost function At(s: State, i: nat, k: Kernel, stack: seq<Task>): State
    requires i < |s.threads|
  {
    State(k, s.threads[i := stack])
  }

  /** The state in which thread i has returned from all its calls, the others not having moved. */
  ghost function Alone(s: State, i: nat): State
    requires Inv(s) && i < |s.threads|
    decreases Potential(s)
  {
    if s.threads[i] == [] then s
    else
      CanGoOn(s, i);
      StepKeeps(s, i);
      Alone(Do(s, Step(i)), i)
  }

  lemma CanGoOn(s: State, i: nat)
    requires Inv(s) && i < |s.threads| && s.threads[i] != []
    ensures Enabled(s, Step(i)) && EntriesHaveObjects(s.k) && TaskOk(s.k, s.threads[i][0])
  {
    hide Exec, Do, Run, Reachable;
    EntriesFollow(s.k);
    assert TaskOk(s.k, s.threads[i][0]);
  }

  /** Running alone is one of the runs of the machine. */
  lemma {:induction false} AloneIsRun(s: State, i: nat) returns (actions: seq<Action>)
    requires Inv(s) && i < |s.threads|
    ensures OnlySteps(actions) && Run(s, actions, Alone(s, i)) && Inv(Alone(s, i))
    decreases Potential(s)
  {
    hide Inv, Potential, Enabled, Do;
    if s.threads[i] == [] {
      return [];
    }
    CanGoOn(s, i);
    StepKeeps(s, i);
    DoKeepsThreads(s, i);
    var rest := AloneIsRun(Do(s, Step(i)), i);
    actions := [Step(i)] + rest;
    assert actions[1..] == rest;
  }

  lemma DoKeepsThreads(s: State, i: nat)
    requires Enabled(s, Step(i))
    ensures |Do(s, Step(i)).threads| == |s.threads|
  {
    hide Exec;
  }

  /** One region further along. */
  lemma Advance(s: State, i: nat, k: Kernel, stack: seq<Task>)
    requires i < |s.threads| && Inv(At(s, i, k, stack)) && stack != []
    ensures EntriesHaveObjects(k) && TaskOk(k, stack[0])
    ensures var (k', push) := Exec(k, stack[0]);
            && Inv(At(s, i, k', push + stack[1..]))
            && Alone(At(s, i, k, stack), i) == Alone(At(s, i, k', push + stack[1..]), i)
  {
    hide Inv, Exec, Potential;
    var u := At(s, i, k, stack);
    CanGoOn(u, i);
    StepKeeps(u, i);
    var (k', push) := Exec(k, stack[0]);
    assert Do(u, Step(i)) == At(s, i, k', push + stack[1..]);
  }

  lemma Returned(s: State, i: nat, k: Kernel)
    requires i < |s.threads| && Inv(At(s, i, k, []))
    ensures Alone(At(s, i, k, []), i) == At(s, i, k, [])
  {
    hide Exec, Do, Run, Reachable, Enabled;
    hide Inv, Potential;
  }

  // What a send does.

  /** The channel, its peer and the message pass the tests of the first region. */
  ghost predicate Accepts(k: Kernel, c: Id, m: Msg) {
    && IsChannel(k, c) && MsgValid(m)
    && k.objs[c].body.open && !k.objs[c].body.peerClosed && k.objs[c].body.peer.Some?
    && var p := k.objs[c].body.peer.value;
       p != c && IsChannel(k, p) && k.objs[p].body.open && CanReference(k.objs[p])
  }

  ghost predicate HasRoom(k: Kernel, p: Id)
    requires IsChannel(k, p)
  {
    |k.objs[p].body.queue| != k.objs[p].body.limit
  }

  /** The sender's handle grants the access, and the receiver may hold it and has a slot for it. */
  ghost predicate CanCarry(k: Kernel, c: Id, m: Msg)
    requires Accepts(k, c, m)
  {
    var ch := k.objs[c].body;
    var p := ch.peer.value;
    var dst := k.objs[p].body.owner;
    && ch.owner < |k.tables| && dst < |k.tables|
    && !k.tables[ch.owner].closing && Resolve(k.tables[ch.owner], m.handle).Some?
    && var e := k.tables[ch.owner].entries[Resolve(k.tables[ch.owner], m.handle).value];
       && m.access <= e.access && e.obj.value < |k.objs|
       && k.objs[e.obj.value].refs + 1 + (if e.obj.value == p then 1 else 0) < UINT32_MAX
       && InsertHandle(k, dst, e.obj.value, k.objs[p].body.token, m.access, e.origin).Some?
  }

  /** The kernel with the duplicate in the receiver's table, and its handle. */
  ghost function Carried(k: Kernel, c: Id, m: Msg): (Kernel, nat)
    requires Accepts(k, c, m) && CanCarry(k, c, m)
  {
    var ch := k.objs[c].body;
    var p := ch.peer.value;
    var dst := k.objs[p].body.owner;
    var e := k.tables[ch.owner].entries[Resolve(k.tables[ch.owner], m.handle).value];
    var (k', h) := InsertHandle(k, dst, e.obj.value, k.objs[p].body.token, m.access, e.origin).value;
    (k'.(transferred := k'.transferred + multiset{(dst, h)}), h)
  }

  /** The kernel with a message at the end of a queue. */
  ghost function Enqueued(k: Kernel, p: Id, m: Msg): Kernel
    requires IsChannel(k, p)
  {
    var x := k.objs[p];
    SetObj(k, p, x.(body := x.body.(queue := x.body.queue + [m], signal := |x.body.queue| + 1, sent := x.body.sent + [m])))
  }

  /**
   * A send that is not accepted, or whose handle cannot be carried over, changes nothing. One that
   * finds the queue full leaves every object as it was and closes the duplicate again. Any other
   * ends with the message, and the receiver's own handle in it, at the end of the peer's queue.
   */
  ghost predicate SendOutcome(k: Kernel, c: Id, m: Msg, u: Kernel) {
    if !Accepts(k, c, m) then u == k
    else
      var p := k.objs[c].body.peer.value;
      if !m.transfers then u == if HasRoom(k, p) then Enqueued(k, p, m) else k
      else if !CanCarry(k, c, m) then u == k
      else
        var (k', h) := Carried(k, c, m);
        var dst := k.objs[p].body.owner;
        if HasRoom(k, p) then IsChannel(k', p) && u == Enqueued(k', p, m.(handle := h))
        else
          && u.objs == k.objs && u.delivered == k.delivered && u.faults == k.faults
          && u.transferred == k.transferred + multiset{(dst, h)} && u.disposed == k.disposed + multiset{(dst, h)}
          && |u.tables| == |k.tables| && (forall t :: 0 <= t < |k.tables| && t != dst ==> u.tables[t] == k.tables[t])
          && Withdrawn(k.tables[dst], k'.tables[dst], h, u.tables[dst])
  }

  /** A table that is as before but for the slot of a handle that came and went. */
  ghost predicate Withdrawn(before: Table, during: Table, h: nat, after: Table) {
    && Resolve(during, h).Some? && after == Vacate(during, Resolve(during, h).value)
    && Resolve(after, h).None? && after.active == before.active
    && (forall g :: Resolve(before, g).Some? ==> Resolve(after, g) == Resolve(before, g))
  }

  lemma Living(s: State, i: nat, k: Kernel, stack: seq<Task>, o: Id)
    requires i < |s.threads| && Inv(At(s, i, k, stack)) && o < |k.objs|
    ensures KInv(k) && HeaderOk(k.objs[o]) && BodyOk(k, o)
    ensures !k.objs[o].destroyed <==> k.objs[o].refs >= 1
  {
    InvObj(k, o);
  }

  /** The last region of a send that finds the channel as the first one did. */
  lemma LastRegion(k: Kernel, c: Id, p: Id, dst: TableId, m: Msg)
    requires IsChannel(k, c) && IsChannel(k, p) && k.objs[c].body.open && !k.objs[c].body.peerClosed
    requires k.objs[c].body.peer == Some(p) && k.objs[p].body.open
    ensures ExecSendFinish(k, c, p, dst, m)
         == if HasRoom(k, p) then (Enqueued(k, p, m), [Release(p)])
            else (k, if m.transfers then [DisposeHandle(dst, m.handle), Release(p)] else [Release(p)])
  {
    assert [] + [Release(p)] == [Release(p)];
    assert [DisposeHandle(dst, m.handle)] + [Release(p)] == [DisposeHandle(dst, m.handle), Release(p)];
  }

  ghost function Counted(k: Kernel, o: Id, n: nat): Kernel
    requires o < |k.objs|
  {
    SetObj(k, o, k.objs[o].(refs := k.objs[o].refs + n))
  }

  /** A plain message. */
  lemma PlainSend(s: State, i: nat, k: Kernel, c: Id, m: Msg)
    requires i < |s.threads| && Inv(At(s, i, k, [SendBegin(c, m)])) && Accepts(k, c, m) && !m.transfers
    ensures SendOutcome(k, c, m, Alone(At(s, i, k, [SendBegin(c, m)]), i).k)
  {
    hide Inv, Alone, KInv, EntriesHaveObjects, BodyOk;
    var p := k.objs[c].body.peer.value;
    Living(s, i, k, [SendBegin(c, m)], p);
    Advance(s, i, k, [SendBegin(c, m)]);
    var x := k.objs[p];
    var k1 := Counted(k, p, 1);
    var finish := SendFinish(c, p, x.body.owner, m);
    assert Exec(k, SendBegin(c, m)) == (k1, [finish]);
    assert [finish] + [SendBegin(c, m)][1..] == [finish];
    Advance(s, i, k1, [finish]);
    LastRegion(k1, c, p, x.body.owner, m);
    var k2 := if HasRoom(k, p) then Enqueued(k1, p, m) else k1;
    assert Exec(k1, finish) == (k2, [Release(p)]);
    assert [Release(p)] + [finish][1..] == [Release(p)] + [];
    var u := if HasRoom(k, p) then Enqueued(k, p, m) else k;
    GiveBack(s, i, k2, p, [], u);
    Returned(s, i, u);
  }

  /** Giving back one reference of several changes the count and nothing else. */
  lemma GiveBack(s: State, i: nat, k: Kernel, o: Id, rest: seq<Task>, k': Kernel)
    requires i < |s.threads| && Inv(At(s, i, k, [Release(o)] + rest)) && o < |k.objs| && k.objs[o].refs >= 2
    requires k' == SetObj(k, o, k.objs[o].(refs := k.objs[o].refs - 1))
    ensures Inv(At(s, i, k', rest))
    ensures Alone(At(s, i, k, [Release(o)] + rest), i) == Alone(At(s, i, k', rest), i)
  {
    hide Alone, KInv, EntriesHaveObjects, Inv, BodyOk;
    Living(s, i, k, [Release(o)] + rest, o);
    Advance(s, i, k, [Release(o)] + rest);
    assert Exec(k, Release(o)) == (k', []);
    assert [] + ([Release(o)] + rest)[1..] == rest;
  }

  // A message that carries a handle.

  function EntryOf(k: Kernel, t: TableId, h: nat): (e: Entry)
    requires t < |k.tables| && Resolve(k.tables[t], h).Some?
    ensures e.obj.Some?
  {
    k.tables[t].entries[Resolve(k.tables[t], h).value]
  }

  /** A live handle counts among the handles of its object. */
  lemma LiveHandleCounts(s: State, t: TableId, h: nat)
    requires Inv(s) && t < |s.k.tables| && Resolve(s.k.tables[t], h).Some?
    ensures var e := EntryOf(s.k, t, h);
            e.obj.Some? && e.obj.value < |s.k.objs| && s.k.objs[e.obj.value].handles >= 1
    ensures var e := EntryOf(s.k, t, h); e.access <= e.origin && e.access != {}
  {
    hide RefLedger, KeyLedger, DoomLedger, TasksOk;
    var table := s.k.tables[t];
    var j := Resolve(table, h).value;
    InvTable(s.k, t);
    ResolveNames(table, h);
    assert EntryValid(table.entries[j]);
    var o := table.entries[j].obj.value;
    SumBounds(EntryHolds(o), table.entries, j);
    SumBounds(TableHolds(o), s.k.tables, t);
    assert Handles(s.k, o) == Entries(s.k, o) + Removing(s, o);
  }

  /** The duplicate goes in just as well while the call holds references to objects. */
  lemma InsertCounted(k: Kernel, p: Id, t: TableId, o: Id, token: Token, access: Mask, origin: Mask)
    requires t < |k.tables| && o < |k.objs| && p < |k.objs|
    requires k.objs[p].refs + 1 <= UINT32_MAX
    ensures var r, r' := InsertHandle(k, t, o, token, access, origin), InsertHandle(Counted(k, p, 1), t, o, token, access, origin);
            && (r'.Some? <==> r.Some? && (o == p ==> k.objs[o].refs + 1 != UINT32_MAX))
            && (r.Some? && r'.Some? ==>
                  r'.value.1 == r.value.1 && p < |r.value.0.objs| && r'.value.0 == Counted(r.value.0, p, 1))
  {
    hide Grant, Encode, FirstFree;
    var r, r' := InsertHandle(k, t, o, token, access, origin), InsertHandle(Counted(k, p, 1), t, o, token, access, origin);
    if r.Some? && r'.Some? {
      assert r'.value.0.objs == Counted(r.value.0, p, 1).objs;
    }
  }

  /** The same with a reference to the peer and one to the object. */
  lemma InsertHeld(k: Kernel, p: Id, t: TableId, o: Id, token: Token, access: Mask, origin: Mask)
    requires t < |k.tables| && o < |k.objs| && p < |k.objs| && KInv(k)
    requires CanReference(k.objs[p]) && CanReference(Counted(k, p, 1).objs[o])
    ensures var r, r' := InsertHandle(k, t, o, token, access, origin), InsertHandle(Holding(k, p, o), t, o, token, access, origin);
            && (r'.Some? <==> r.Some? && k.objs[o].refs + 1 + (if o == p then 1 else 0) < UINT32_MAX)
            && (r.Some? && r'.Some? ==>
                  && r'.value.1 == r.value.1 && p < |r.value.0.objs| && o < |r.value.0.objs|
                  && r'.value.0 == Holding(r.value.0, p, o))
  {
    hide KInv, InsertHandle;
    InvObj(k, o);
    InvObj(k, p);
    hide BodyOk;
    InsertCounted(k, p, t, o, token, access, origin);
    InsertCounted(Counted(k, p, 1), o, t, o, token, access, origin);
  }

  /** A call that holds one reference to each of two objects. */
  ghost function Holding(k: Kernel, p: Id, o: Id): Kernel
    requires p < |k.objs| && o < |k.objs|
  {
    Counted(Counted(k, p, 1), o, 1)
  }

  lemma ReleaseBoth(s: State, i: nat, k: Kernel, p: Id, o: Id)
    requires p < |k.objs| && o < |k.objs| && k.objs[p].refs >= 1 && k.objs[o].refs >= 1
    requires i < |s.threads| && Inv(At(s, i, Holding(k, p, o), [Release(o), Release(p)]))
    ensures Inv(At(s, i, k, []))
    ensures Alone(At(s, i, Holding(k, p, o), [Release(o), Release(p)]), i) == At(s, i, k, [])
  {
    hide Inv, Alone;
    assert [Release(o), Release(p)] == [Release(o)] + [Release(p)];
    GiveBack(s, i, Holding(k, p, o), o, [Release(p)], Counted(k, p, 1));
    assert [Release(p)] == [Release(p)] + [];
    GiveBack(s, i, Counted(k, p, 1), p, [], k);
    Returned(s, i, k);
  }

  lemma WithdrawnTable(t: Table, j: nat, o: Id, access: Mask, origin: Mask)
    requires TableValid(t) && j < |t.entries| && Free(t.entries[j]) && !t.swept && access != {} && access <= origin
    ensures Withdrawn(t, Fill(t, j, o, access, origin), Encode(j, t.entries[j].generation),
                      Vacate(Fill(t, j, o, access, origin), j))
    ensures Resolve(Fill(t, j, o, access, origin), Encode(j, t.entries[j].generation)) == Some(j)
  {
    FillIsFresh(t, j, o, access, origin);
    hide Sum, IssuedOnce;
    var during := Fill(t, j, o, access, origin);
    VacateValid(during, j);
  }

  /** What the call has to do once the receiver's handle exists. */
  lemma CarriedFinish(s: State, i: nat, k: Kernel, c: Id, m: Msg, o: Id)
    requires Accepts(k, c, m) && CanCarry(k, c, m) && m.transfers && i < |s.threads| && KInv(k)
    requires var ch := k.objs[c].body; Some(o) == EntryOf(k, ch.owner, m.handle).obj && o < |k.objs|
    requires k.objs[o].refs >= 1 && k.objs[k.objs[c].body.peer.value].refs >= 1
    requires var p := k.objs[c].body.peer.value;
             var (k', h) := Carried(k, c, m);
             && p < |k'.objs| && o < |k'.objs|
             && Inv(At(s, i, Holding(k', p, o), [Release(o), SendFinish(c, p, k.objs[p].body.owner, m.(handle := h))]))
    requires HasRoom(k, k.objs[c].body.peer.value)
    ensures var p := k.objs[c].body.peer.value;
            var (k', h) := Carried(k, c, m);
            && IsChannel(k', p)
            && Alone(At(s, i, Holding(k', p, o), [Release(o), SendFinish(c, p, k.objs[p].body.owner, m.(handle := h))]), i).k
                 == Enqueued(k', p, m.(handle := h))
  {
    hide Inv, Alone, KInv, Grant, Encode, FirstFree, Resolve, EntriesHaveObjects;
    var p := k.objs[c].body.peer.value;
    var (k', h) := Carried(k, c, m);
    var finish := SendFinish(c, p, k.objs[p].body.owner, m.(handle := h));
    assert [Release(o), finish] == [Release(o)] + [finish];
    var k1 := Counted(k', p, 1);
    GiveBack(s, i, Holding(k', p, o), o, [finish], k1);
    Advance(s, i, k1, [finish]);
    LastRegion(k1, c, p, k.objs[p].body.owner, m.(handle := h));
    var u := Enqueued(k', p, m.(handle := h));
    assert Exec(k1, finish) == (Enqueued(k1, p, m.(handle := h)), [Release(p)]);
    assert [Release(p)] + [finish][1..] == [Release(p)] + [];
    GiveBack(s, i, Enqueued(k1, p, m.(handle := h)), p, [], u);
    Returned(s, i, u);
  }

  ghost predicate Granted(k: Kernel, t: TableId, o: Id, token: Token, access: Mask, origin: Mask, k': Kernel, h: nat) {
    && t < |k.tables| && o < |k.objs|
    && InsertHandle(k, t, o, token, access, origin) == Some((k', h))
  }

  /** The duplicate is closed again: its object and its table are as they were. */
  lemma WithdrawDuplicate(
        s: State, i: nat, k: Kernel, t: TableId, o: Id, token: Token, access: Mask, origin: Mask, k': Kernel, h: nat,
        p: Id)
    requires KInv(k) && Granted(k, t, o, token, access, origin, k', h) && access <= origin
    requires p < |k.objs| && k.objs[o].refs >= 1 && k.objs[p].refs >= 1 && k.objs[o].handles >= 1
    requires i < |s.threads|
    requires var moved := k'.(transferred := k'.transferred + multiset{(t, h)});
             p < |moved.objs| && Inv(At(s, i, Counted(moved, p, 1), [DisposeHandle(t, h), Release(p)]))
    ensures var moved := k'.(transferred := k'.transferred + multiset{(t, h)});
            var u := Alone(At(s, i, Counted(moved, p, 1), [DisposeHandle(t, h), Release(p)]), i).k;
            && u.objs == k.objs && u.delivered == k.delivered && u.faults == k.faults
            && u.transferred == k.transferred + multiset{(t, h)} && u.disposed == k.disposed + multiset{(t, h)}
            && |u.tables| == |k.tables| && (forall j :: 0 <= j < |k.tables| && j != t ==> u.tables[j] == k.tables[j])
            && Withdrawn(k.tables[t], k'.tables[t], h, u.tables[t])
  {
    hide Inv, Alone, KInv, Grant, Encode, FirstFree, Resolve, EntriesHaveObjects, Withdrawn, TableValid;
    var table := k.tables[t];
    var j := FirstFree(table.entries, 0);
    NotSwept(k, t);
    WithdrawnTable(table, j, o, access, origin);
    var moved := k'.(transferred := k'.transferred + multiset{(t, h)});
    var k1 := Counted(moved, p, 1);
    var stack := [DisposeHandle(t, h), Release(p)];
    Advance(s, i, k1, stack);
    var k2 := SetTable(k1, t, Vacate(k1.tables[t], j)).(disposed := k1.disposed + multiset{(t, h)});
    assert Exec(k1, stack[0]) == (k2, [RemoveHandle(o)]);
    assert [RemoveHandle(o)] + stack[1..] == [RemoveHandle(o), Release(p)];
    Advance(s, i, k2, [RemoveHandle(o), Release(p)]);
    var x := k2.objs[o];
    Living(s, i, k2, [RemoveHandle(o), Release(p)], o);
    var k3 := SetObj(k2, o, x.(handles := x.handles - 1));
    assert Exec(k2, RemoveHandle(o)) == (k3, [Release(o)]);
    assert [Release(o)] + [RemoveHandle(o), Release(p)][1..] == [Release(o), Release(p)];
    var u := k2.(objs := k.objs);
    assert k3 == Holding(u, p, o);
    ReleaseBoth(s, i, u, p, o);
  }

  lemma NotSwept(k: Kernel, t: TableId)
    requires KInv(k) && t < |k.tables| && !k.tables[t].closing
    ensures TableValid(k.tables[t]) && !k.tables[t].swept
  {
    InvTable(k, t);
  }

  /** The queue turned out to be full. */
  lemma CarriedBack(s: State, i: nat, k: Kernel, c: Id, m: Msg, o: Id)
    requires Accepts(k, c, m) && CanCarry(k, c, m) && m.transfers && i < |s.threads| && KInv(k)
    requires var ch := k.objs[c].body; Some(o) == EntryOf(k, ch.owner, m.handle).obj && o < |k.objs|
    requires var ch := k.objs[c].body; m.access <= EntryOf(k, ch.owner, m.handle).origin
    requires k.objs[o].refs >= 1 && k.objs[k.objs[c].body.peer.value].refs >= 1 && k.objs[o].handles >= 1
    requires var p := k.objs[c].body.peer.value;
             var (k', h) := Carried(k, c, m);
             && p < |k'.objs| && o < |k'.objs|
             && Inv(At(s, i, Holding(k', p, o), [Release(o), SendFinish(c, p, k.objs[p].body.owner, m.(handle := h))]))
    requires !HasRoom(k, k.objs[c].body.peer.value)
    ensures var p := k.objs[c].body.peer.value;
            var (k', h) := Carried(k, c, m);
            var finish := SendFinish(c, p, k.objs[p].body.owner, m.(handle := h));
            SendOutcome(k, c, m, Alone(At(s, i, Holding(k', p, o), [Release(o), finish]), i).k)
  {
    hide Inv, Alone, KInv, Grant, Encode, FirstFree, Resolve, EntriesHaveObjects, Withdrawn;
    var ch := k.objs[c].body;
    var p := ch.peer.value;
    var dst := k.objs[p].body.owner;
    var e := EntryOf(k, ch.owner, m.handle);
    var (k', h) := Carried(k, c, m);
    var finish := SendFinish(c, p, dst, m.(handle := h));
    assert [Release(o), finish] == [Release(o)] + [finish];
    var k1 := Counted(k', p, 1);
    GiveBack(s, i, Holding(k', p, o), o, [finish], k1);
    Advance(s, i, k1, [finish]);
    LastRegion(k1, c, p, dst, m.(handle := h));
    var back := [DisposeHandle(dst, h), Release(p)];
    assert Exec(k1, finish) == (k1, back);
    assert back + [finish][1..] == back;
    var k0 := InsertHandle(k, dst, o, k.objs[p].body.token, m.access, e.origin).value.0;
    WithdrawDuplicate(s, i, k, dst, o, k.objs[p].body.token, m.access, e.origin, k0, h, p);
  }

  /** The first two regions of a send that carries a handle: the references taken, or none. */
  lemma SourceRegion(k: Kernel, c: Id, m: Msg)
    requires Accepts(k, c, m) && m.transfers && KInv(k) && k.objs[c].body.owner < |k.tables|
    ensures var ch := k.objs[c].body;
            var p := ch.peer.value;
            var k1 := Counted(k, p, 1);
            var dst := k.objs[p].body.owner;
            var cont := IntoSend(c, p, m);
            var r := ExecDupSource(k1, ch.owner, m.handle, dst, k.objs[p].body.token, m.access, false, cont);
            if k.tables[ch.owner].closing || Resolve(k.tables[ch.owner], m.handle).None? then r == (k1, [Release(p)])
            else
              var e := EntryOf(k, ch.owner, m.handle);
              if e.obj.value >= |k.objs| || !CanReference(k1.objs[e.obj.value]) then r == (k1, [Release(p)])
              else if !(m.access <= e.access) then r == (Holding(k, p, e.obj.value), [Release(e.obj.value), Release(p)])
              else r == (Holding(k, p, e.obj.value), [DupTarget(e.obj.value, m.access, e.origin, dst, k.objs[p].body.token, cont)])
  {
    hide KInv, Resolve;
    var ch := k.objs[c].body;
    var p := ch.peer.value;
    if Resolve(k.tables[ch.owner], m.handle).Some? {
      var o := EntryOf(k, ch.owner, m.handle).obj.value;
      assert [Release(o)] + [Release(p)] == [Release(o), Release(p)];
    }
  }

  /** A message that carries a handle. */
  lemma CarryingSend(s: State, i: nat, k: Kernel, c: Id, m: Msg)
    requires i < |s.threads| && Inv(At(s, i, k, [SendBegin(c, m)])) && Accepts(k, c, m) && m.transfers
    ensures SendOutcome(k, c, m, Alone(At(s, i, k, [SendBegin(c, m)]), i).k)
  {
    hide Inv, Alone, KInv, EntriesHaveObjects, Resolve, InsertHandle, Withdrawn;
    var ch := k.objs[c].body;
    var p := ch.peer.value;
    var dst := k.objs[p].body.owner;
    Living(s, i, k, [SendBegin(c, m)], c);
    Living(s, i, k, [SendBegin(c, m)], p);
    var k1 := Counted(k, p, 1);
    var duplicate := DupSource(ch.owner, m.handle, dst, k.objs[p].body.token, m.access, false, IntoSend(c, p, m));
    Advance(s, i, k, [SendBegin(c, m)]);
    assert Exec(k, SendBegin(c, m)) == (k1, [duplicate]);
    assert [duplicate] + [SendBegin(c, m)][1..] == [duplicate];
    Advance(s, i, k1, [duplicate]);
    SourceRegion(k, c, m);
    if k.tables[ch.owner].closing || Resolve(k.tables[ch.owner], m.handle).None? {
      NothingTaken(s, i, k, p, duplicate);
    } else {
      var e := EntryOf(k, ch.owner, m.handle);
      var o := e.obj.value;
      LiveHandleCounts(At(s, i, k, [SendBegin(c, m)]), ch.owner, m.handle);
      Living(s, i, k, [SendBegin(c, m)], o);
      if !CanReference(k1.objs[o]) {
        NotCarried(k, c, m);
        NothingTaken(s, i, k, p, duplicate);
      } else if !(m.access <= e.access) {
        assert [Release(o), Release(p)] + [duplicate][1..] == [Release(o), Release(p)];
        ReleaseBoth(s, i, k, p, o);
      } else {
        var target := DupTarget(o, m.access, e.origin, dst, k.objs[p].body.token, IntoSend(c, p, m));
        assert [target] + [duplicate][1..] == [target];
        TargetRegion(s, i, k, c, m, o);
      }
    }
  }

  lemma NotCarried(k: Kernel, c: Id, m: Msg)
    requires Accepts(k, c, m) && k.objs[c].body.owner < |k.tables|
    requires Resolve(k.tables[k.objs[c].body.owner], m.handle).Some?
    requires var o := EntryOf(k, k.objs[c].body.owner, m.handle).obj.value;
             o < |k.objs| && !CanReference(Counted(k, k.objs[c].body.peer.value, 1).objs[o]) && k.objs[o].refs <= UINT32_MAX
    ensures !CanCarry(k, c, m)
  {
    hide Resolve, Grant, FirstFree;
  }

  lemma NothingTaken(s: State, i: nat, k: Kernel, p: Id, task: Task)
    requires p < |k.objs| && k.objs[p].refs >= 1 && i < |s.threads|
    requires Inv(At(s, i, Counted(k, p, 1), [Release(p)] + [task][1..]))
    ensures Alone(At(s, i, Counted(k, p, 1), [Release(p)] + [task][1..]), i) == At(s, i, k, [])
  {
    hide Inv, Alone;
    assert [Release(p)] + [task][1..] == [Release(p)] + [];
    GiveBack(s, i, Counted(k, p, 1), p, [], k);
    Returned(s, i, k);
  }

  /** From the receiver's table on. */
  lemma TargetRegion(s: State, i: nat, k: Kernel, c: Id, m: Msg, o: Id)
    requires Accepts(k, c, m) && m.transfers && KInv(k) && i < |s.threads| && k.objs[c].body.owner < |k.tables|
    requires var ch := k.objs[c].body;
             && !k.tables[ch.owner].closing && Resolve(k.tables[ch.owner], m.handle).Some?
             && var e := EntryOf(k, ch.owner, m.handle);
                e.obj == Some(o) && o < |k.objs| && m.access <= e.access <= e.origin
    requires k.objs[o].refs >= 1 && k.objs[o].handles >= 1 && k.objs[k.objs[c].body.peer.value].refs >= 1
    requires CanReference(Counted(k, k.objs[c].body.peer.value, 1).objs[o])
    requires k.objs[k.objs[c].body.peer.value].body.owner < |k.tables|
    requires var p := k.objs[c].body.peer.value;
             var e := EntryOf(k, k.objs[c].body.owner, m.handle);
             Inv(At(s, i, Holding(k, p, o),
                    [DupTarget(o, m.access, e.origin, k.objs[p].body.owner, k.objs[p].body.token, IntoSend(c, p, m))]))
    ensures var p := k.objs[c].body.peer.value;
            var e := EntryOf(k, k.objs[c].body.owner, m.handle);
            SendOutcome(k, c, m, Alone(At(s, i, Holding(k, p, o),
              [DupTarget(o, m.access, e.origin, k.objs[p].body.owner, k.objs[p].body.token, IntoSend(c, p, m))]), i).k)
  {
    hide Inv, Alone, KInv, EntriesHaveObjects, Resolve, InsertHandle, Withdrawn;
    var p := k.objs[c].body.peer.value;
    var dst := k.objs[p].body.owner;
    var token := k.objs[p].body.token;
    var e := EntryOf(k, k.objs[c].body.owner, m.handle);
    var target := DupTarget(o, m.access, e.origin, dst, token, IntoSend(c, p, m));
    Advance(s, i, Holding(k, p, o), [target]);
    InsertHeld(k, p, dst, o, token, m.access, e.origin);
    var r := InsertHandle(Holding(k, p, o), dst, o, token, m.access, e.origin);
    if r.None? {
      assert [Release(o)] + [Release(p)] + [target][1..] == [Release(o), Release(p)];
      assert Exec(Holding(k, p, o), target) == (Holding(k, p, o), [Release(o)] + [Release(p)]);
      ReleaseBoth(s, i, k, p, o);
    } else {
      var (k', h) := Carried(k, c, m);
      var finish := SendFinish(c, p, dst, m.(handle := h));
      assert Exec(Holding(k, p, o), target) == (Holding(k', p, o), [Release(o), finish]);
      assert [Release(o), finish] + [target][1..] == [Release(o), finish];
      if HasRoom(k, p) {
        CarriedFinish(s, i, k, c, m, o);
      } else {
        CarriedBack(s, i, k, c, m, o);
      }
    }
  }

  /**
   * A send that runs with no other thread in between is all or nothing, whatever else is in flight
   * and whatever its message names.
   */
  lemma SendAllOrNothing(s: State, i: nat, c: Id, m: Msg)
    requires Inv(s) && i < |s.threads| && s.threads[i] == [SendBegin(c, m)]
    ensures SendOutcome(s.k, c, m, Alone(s, i).k)
  {
    hide Inv, Alone, SendOutcome;
    assert s == At(s, i, s.k, [SendBegin(c, m)]);
    if Accepts(s.k, c, m) {
      if m.transfers {
        CarryingSend(s, i, s.k, c, m);
      } else {
        PlainSend(s, i, s.k, c, m);
      }
    } else {
      NotAccepted(s, i, c, m);
    }
  }

  lemma NotAccepted(s: State, i: nat, c: Id, m: Msg)
    requires Inv(s) && i < |s.threads| && s.threads[i] == [SendBegin(c, m)] && !Accepts(s.k, c, m)
    ensures SendOutcome(s.k, c, m, Alone(s, i).k)
  {
    hide Inv, Alone, KInv, EntriesHaveObjects;
    assert s == At(s, i, s.k, [SendBegin(c, m)]);
    Advance(s, i, s.k, [SendBegin(c, m)]);
    Living(s, i, s.k, [SendBegin(c, m)], c);
    assert Exec(s.k, SendBegin(c, m)) == (s.k, []);
    assert [] + [SendBegin(c, m)][1..] == [];
    Returned(s, i, s.k);
  }

  lemma FillKeepsOthers(t: Table, j: nat, o: Id, access: Mask, origin: Mask, g: nat)
    requires j < |t.entries| && Free(t.entries[j]) && Resolve(t, g).Some?
    ensures var u := Fill(t, j, o, access, origin);
            Resolve(u, g) == Resolve(t, g) && u.entries[Resolve(t, g).value] == t.entries[Resolve(t, g).value]
  {
  }

  /** The receiver's handle is live, names the sender's object with the access asked for, and the sender keeps its own. */
  lemma CarriedHandles(k: Kernel, c: Id, m: Msg)
    requires KInv(k) && Accepts(k, c, m) && CanCarry(k, c, m) && m.transfers
    requires var e := EntryOf(k, k.objs[c].body.owner, m.handle); e.access <= e.origin
    ensures var (k', h) := Carried(k, c, m);
            var src, dst := k.objs[c].body.owner, k.objs[k.objs[c].body.peer.value].body.owner;
            && |k'.tables| == |k.tables|
            && Resolve(k'.tables[dst], h).Some? && Resolve(k'.tables[src], m.handle).Some?
            && EntryOf(k', dst, h).obj == EntryOf(k, src, m.handle).obj && EntryOf(k', dst, h).access == m.access
            && EntryOf(k', src, m.handle) == EntryOf(k, src, m.handle)
  {
    hide KInv, Resolve, Grant, Encode, TableValid;
    var src, dst := k.objs[c].body.owner, k.objs[k.objs[c].body.peer.value].body.owner;
    var e := EntryOf(k, src, m.handle);
    var table := k.tables[dst];
    var j := FirstFree(table.entries, 0);
    NotSwept(k, dst);
    FillIsFresh(table, j, e.obj.value, m.access, e.origin);
    if src == dst {
      FillKeepsOthers(table, j, e.obj.value, m.access, e.origin, m.handle);
    }
  }

  /** The message as the receiver sees it. */
  ghost function Seen(k: Kernel, c: Id, m: Msg): Msg
    requires Accepts(k, c, m) && (m.transfers ==> CanCarry(k, c, m))
  {
    if m.transfers then m.(handle := Carried(k, c, m).1) else m
  }

  /** The kernel v, in which p has received the message: its handle is the receiver's own. */
  ghost predicate HandedOver(k: Kernel, c: Id, m: Msg, v: Kernel)
    requires Accepts(k, c, m) && (m.transfers ==> CanCarry(k, c, m))
  {
    var p := k.objs[c].body.peer.value;
    && IsChannel(v, p) && v.objs[p].body.queue == []
    && v.objs[p].body.got == k.objs[p].body.got + k.objs[p].body.queue + [Seen(k, c, m)]
    && (m.transfers ==> HandleHandedOver(k, k.objs[c].body.owner, m.handle, v, k.objs[p].body.owner, Seen(k, c, m).handle, m.access))
  }

  ghost predicate HandleHandedOver(k: Kernel, src: TableId, g: nat, v: Kernel, dst: TableId, h: nat, access: Mask) {
    && src < |k.tables| && src < |v.tables| && dst < |v.tables|
    && Resolve(k.tables[src], g).Some? && Resolve(v.tables[src], g).Some? && Resolve(v.tables[dst], h).Some?
    && EntryOf(v, src, g) == EntryOf(k, src, g)
    && EntryOf(v, dst, h).obj == EntryOf(k, src, g).obj && EntryOf(v, dst, h).access == access
    && (dst, h) in v.delivered
  }

  /** A number of receives, one after another. */
  ghost function Received(k: Kernel, p: Id, n: nat): (v: Kernel)
    requires IsChannel(k, p)
    ensures IsChannel(v, p)
  {
    if n == 0 then k else ExecReceive(Received(k, p, n - 1), p).0
  }

  lemma ReceiveOne(k: Kernel, p: Id)
    requires IsChannel(k, p) && k.objs[p].body.queue != []
    ensures var v := ExecReceive(k, p).0;
            var ch := k.objs[p].body;
            && IsChannel(v, p) && v.tables == k.tables && v.objs[p].body.owner == ch.owner
            && v.objs[p].body.queue == ch.queue[1..] && v.objs[p].body.got == ch.got + [ch.queue[0]]
            && k.delivered <= v.delivered && (ch.queue[0].transfers ==> (ch.owner, ch.queue[0].handle) in v.delivered)
  {
  }

  /** They take the first messages off the queue, in order, and deliver the handles in them. */
  lemma {:induction false} ReceivedFirst(k: Kernel, p: Id, n: nat)
    requires IsChannel(k, p) && n <= |k.objs[p].body.queue|
    ensures var v := Received(k, p, n);
            var ch := k.objs[p].body;
            && v.tables == k.tables && v.objs[p].body.owner == ch.owner
            && v.objs[p].body.queue == ch.queue[n..] && v.objs[p].body.got == ch.got + ch.queue[..n]
            && forall j :: 0 <= j < n && ch.queue[j].transfers ==> (ch.owner, ch.queue[j].handle) in v.delivered
  {
    hide ExecReceive;
    if n > 0 {
      ReceivedFirst(k, p, n - 1);
      var queue := k.objs[p].body.queue;
      assert queue[n - 1..][0] == queue[n - 1] && queue[n - 1..][1..] == queue[n..];
      assert queue[..n - 1] + [queue[n - 1]] == queue[..n];
      ReceiveOne(Received(k, p, n - 1), p);
    }
  }

  /** A delivered message is handed over by the receive after those of the messages queued before it. */
  lemma SendThenReceive(s: State, i: nat, c: Id, m: Msg)
    requires Inv(s) && i < |s.threads| && s.threads[i] == [SendBegin(c, m)]
    requires Accepts(s.k, c, m) && HasRoom(s.k, s.k.objs[c].body.peer.value) && (m.transfers ==> CanCarry(s.k, c, m))
    ensures var p := s.k.objs[c].body.peer.value;
            && IsChannel(Alone(s, i).k, p)
            && HandedOver(s.k, c, m, Received(Alone(s, i).k, p, |s.k.objs[p].body.queue| + 1))
  {
    hide Inv, Alone, KInv, Resolve, InsertHandle, CanCarry, EntryOf, BodyOk, HandleHandedOver, Carried, Received;
    SendAllOrNothing(s, i, c, m);
    var p := s.k.objs[c].body.peer.value;
    var n := |s.k.objs[p].body.queue|;
    assert s == At(s, i, s.k, s.threads[i]);
    Living(s, i, s.k, s.threads[i], p);
    if m.transfers {
      CarriedBody(s.k, c, m);
    }
    var u := Alone(s, i).k;
    assert u.objs[p].body.queue == s.k.objs[p].body.queue + [Seen(s.k, c, m)] == u.objs[p].body.queue[..n + 1];
    ReceivedFirst(u, p, n + 1);
    if m.transfers {
      assert u.objs[p].body.queue[n] == Seen(s.k, c, m);
      HandleArrives(s, c, m, Received(u, p, n + 1));
    }
  }

  lemma HandleArrives(s: State, c: Id, m: Msg, v: Kernel)
    requires Inv(s) && Accepts(s.k, c, m) && m.transfers && CanCarry(s.k, c, m)
    requires var p := s.k.objs[c].body.peer.value;
             var (k', h) := Carried(s.k, c, m);
             v.tables == k'.tables && (s.k.objs[p].body.owner, h) in v.delivered
    ensures HandleHandedOver(s.k, s.k.objs[c].body.owner, m.handle, v, s.k.objs[s.k.objs[c].body.peer.value].body.owner,
                             Carried(s.k, c, m).1, m.access)
  {
    hide Inv, KInv, Resolve, InsertHandle;
    assert KInv(s.k) by { InvKernel(s); }
    LiveHandleCounts(s, s.k.objs[c].body.owner, m.handle);
    CarriedHandles(s.k, c, m);
  }

  lemma InvKernel(s: State)
    requires Inv(s)
    ensures KInv(s.k)
  {
  }

  lemma CarriedBody(k: Kernel, c: Id, m: Msg)
    requires Accepts(k, c, m) && CanCarry(k, c, m)
    ensures var p := k.objs[c].body.peer.value;
            var k' := Carried(k, c, m).0;
            IsChannel(k', p) && k'.objs[p].body == k.objs[p].body && |k'.tables| == |k.tables|
  {
    hide Grant, FirstFree, Decode;
    var p := k.objs[c].body.peer.value;
    var e := EntryOf(k, k.objs[c].body.owner, m.handle);
    var r := InsertHandle(k, k.objs[p].body.owner, e.obj.value, k.objs[p].body.token, m.access, e.origin);
    assert Carried(k, c, m).0.objs == r.value.0.objs;
  }
}
