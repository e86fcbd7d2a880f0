/** What every step of the executive keeps: the structure of objects and tables, and pending tasks. */
module ExecutiveInvariant {
  import opened Status
  import opened AccessCheck
  import opened HandleTables
  import opened RingQueue
  import opened Executive

  predicate HeaderOk(x: Obj) {
    && x.refs <= UINT32_MAX
    && (x.destroyed <==> x.refs == 0)
    && x.destroyRuns == (if x.destroyed then 1 else 0)
    && x.callbackRuns == (if x.disabled then 1 else 0)
    && (x.disabled ==> x.handles == 0)
  }

  /** Channels are linked in pairs, queues are bounded and FIFO, and readiness is never stale. */
  predicate BodyOk(k: Kernel, i: Id)
    requires i < |k.objs|
  {
    match k.objs[i].body
    case Channel(peer, owner, _, queue, limit, open, peerClosed, signal, sent, got, dropped) =>
      && 1 <= limit <= QUEUE_CAPACITY
      && |queue| <= limit
      && owner < |k.tables|
      && (peer.Some? ==>
            && peer.value < |k.objs| && peer.value != i
            && k.objs[peer.value].body.Channel? && k.objs[peer.value].body.peer == Some(i)
            && open && !peerClosed)
      && (open && !peerClosed ==> peer.Some?)
      && (!open ==> queue == [])
      && (open ==> dropped == [])
      && sent == got + queue + dropped
      && (signal != 0 <==> queue != [] || peerClosed || !open)
      && (forall j :: 0 <= j < |queue| && queue[j].transfers ==> queue[j].handle in k.tables[owner].issued)
    case Port(pending, limit, closed, signal, offered, accepted, refused) =>
      && offered == accepted + pending + refused
      && (!closed ==> refused == [])
      && 1 <= limit <= QUEUE_CAPACITY
      && |pending| <= limit
      && (closed ==> pending == [])
      && (signal != 0 <==> pending != [] || closed)
      && (forall j :: 0 <= j < |pending| ==> pending[j] < |k.objs| && k.objs[pending[j]].body.Channel?)
    case Section(_) => true
  }

  ghost predicate ObjsOk(k: Kernel) {
    forall i :: 0 <= i < |k.objs| ==> HeaderOk(k.objs[i]) && BodyOk(k, i)
  }

  /** Entries in use name objects. */
  ghost predicate EntriesNameObjects(entries: seq<Entry>, n: nat) {
    forall i :: 0 <= i < |entries| && entries[i].inUse ==> entries[i].obj.Some? && entries[i].obj.value < n
  }

  ghost predicate TablesOk(k: Kernel) {
    forall t :: 0 <= t < |k.tables| ==>
      TableValid(k.tables[t]) && EntriesNameObjects(k.tables[t].entries, |k.objs|)
  }

  ghost predicate Dead(k: Kernel, key: Key) {
    Issued(k, key.0, key.1) && Resolve(k.tables[key.0], key.1).None?
  }

  /** A transferred handle is a new one each time; a disposed one no longer resolves. */
  ghost predicate KeysOk(k: Kernel) {
    && (forall key :: key in k.transferred ==> k.transferred[key] == 1 && Issued(k, key.0, key.1))
    && (forall key :: key in k.disposed ==> Dead(k, key))
  }

  ghost predicate KInv(k: Kernel) {
    ObjsOk(k) && TablesOk(k) && KeysOk(k)
  }

  // ----- Evolution: what never goes back -----

  predicate ObjEvolves(x: Obj, y: Obj) {
    && (x.destroyed ==> y.destroyed)
    && (x.disabled ==> y.disabled)
    && match x.body
       case Channel(_, owner, _, _, _, open, peerClosed, _, sent, got, _) =>
         && y.body.Channel? && y.body.owner == owner && y.body.token == x.body.token
         && y.body.limit == x.body.limit
         && (y.body.open ==> open) && (peerClosed ==> y.body.peerClosed)
         && sent <= y.body.sent && got <= y.body.got
       case Port(_, limit, closed, _, offered, accepted, _) =>
         && y.body.Port? && y.body.limit == limit && (closed ==> y.body.closed)
         && offered <= y.body.offered && accepted <= y.body.accepted
       case Section(_) => y.body.Section?
  }

  ghost predicate TableEvolves(t: Table, u: Table) {
    && |t.entries| == |u.entries|
    && t.issued <= u.issued
    && (t.closing ==> u.closing)
    && (t.swept ==> u.swept)
    && (t.closing ==> forall i :: 0 <= i < |t.entries| && !t.entries[i].inUse ==> !u.entries[i].inUse)
    && (forall h :: h in t.issued && Resolve(t, h).None? ==> Resolve(u, h).None?)
  }

  /** A link between two channels stays, or it is gone and one of the two is closed. */
  ghost predicate LinkEvolves(k: Kernel, k': Kernel, i: Id)
    requires i < |k.objs| <= |k'.objs|
  {
    IsChannel(k, i) ==>
      && IsChannel(k', i)
      && (k'.objs[i].body.peer == k.objs[i].body.peer
          || (k'.objs[i].body.peer.None? && (k.objs[i].body.peer.value < |k.objs| ==> Parted(k', i, k.objs[i].body.peer.value))))
  }

  ghost predicate Parted(k: Kernel, c: Id, d: Id)
    requires IsChannel(k, c) && d < |k.objs|
  {
    !k.objs[c].body.open || (IsChannel(k, d) && !k.objs[d].body.open)
  }

  ghost predicate Evolves(k: Kernel, k': Kernel) {
    && |k.objs| <= |k'.objs|
    && (forall i :: 0 <= i < |k.objs| ==> ObjEvolves(k.objs[i], k'.objs[i]))
    && (forall i :: 0 <= i < |k.objs| ==> LinkEvolves(k, k', i))
    && |k.tables| <= |k'.tables|
    && (forall t :: 0 <= t < |k.tables| ==> TableEvolves(k.tables[t], k'.tables[t]))
  }

  lemma EvolvesTransitive(a: Kernel, b: Kernel, c: Kernel)
    requires Evolves(a, b) && Evolves(b, c)
    ensures Evolves(a, c)
  {
    forall t | 0 <= t < |a.tables| ensures TableEvolves(a.tables[t], c.tables[t]) {
      assert TableEvolves(a.tables[t], b.tables[t]) && TableEvolves(b.tables[t], c.tables[t]);
      forall h | h in a.tables[t].issued && Resolve(a.tables[t], h).None?
        ensures Resolve(c.tables[t], h).None?
      {
        assert h in b.tables[t].issued;
      }
    }
    forall i | 0 <= i < |a.objs| ensures ObjEvolves(a.objs[i], c.objs[i]) {
      assert ObjEvolves(a.objs[i], b.objs[i]) && ObjEvolves(b.objs[i], c.objs[i]);
    }
    forall i | 0 <= i < |a.objs| ensures LinkEvolves(a, c, i) {
      assert LinkEvolves(a, b, i) && LinkEvolves(b, c, i) && ObjEvolves(b.objs[i], c.objs[i]);
      if IsChannel(a, i) && a.objs[i].body.peer.Some? && a.objs[i].body.peer.value < |a.objs| {
        var j := a.objs[i].body.peer.value;
        assert ObjEvolves(b.objs[j], c.objs[j]);
      }
    }
  }

  /** A pending task stays executable while others run. */
  lemma TaskOkStable(k: Kernel, k': Kernel, task: Task)
    requires Evolves(k, k') && TaskOk(k, task)
    ensures TaskOk(k', task)
  {
    match task {
      case RemoveHandle(o) =>
      case Release(o) =>
      case DisposeHandle(t, h) => assert TableEvolves(k.tables[t], k'.tables[t]);
      case DupTarget(o, access, origin, dst, _, cont) => ContOkStable(k, k', dst, cont);
      case SendFinish(c, p, dst, m) =>
        assert ObjEvolves(k.objs[c], k'.objs[c]) && ObjEvolves(k.objs[p], k'.objs[p]);
        assert TableEvolves(k.tables[dst], k'.tables[dst]);
      case ConnectFinish(port, client, server) =>
        assert ObjEvolves(k.objs[port], k'.objs[port]);
        assert ObjEvolves(k.objs[client], k'.objs[client]) && ObjEvolves(k.objs[server], k'.objs[server]);
      case CloseAll(t, from) => assert TableEvolves(k.tables[t], k'.tables[t]);
      case SendBegin(c, _) => assert ObjEvolves(k.objs[c], k'.objs[c]);
      case Receive(c) => assert ObjEvolves(k.objs[c], k'.objs[c]);
      case DupSource(src, _, dst, _, _, _, cont) => ContOkStable(k, k', dst, cont);
      case Accept(p) => assert ObjEvolves(k.objs[p], k'.objs[p]);
      case ConnectBegin(p, _) => assert ObjEvolves(k.objs[p], k'.objs[p]);
      case _ =>
    }
  }

  lemma ContOkStable(k: Kernel, k': Kernel, dst: TableId, cont: Cont)
    requires Evolves(k, k') && ContOk(k, dst, cont)
    ensures ContOk(k', dst, cont)
  {
    if cont.IntoSend? {
      assert ObjEvolves(k.objs[cont.channel], k'.objs[cont.channel]);
      assert ObjEvolves(k.objs[cont.peer], k'.objs[cont.peer]);
    }
  }

  lemma InvObj(k: Kernel, o: Id)
    requires KInv(k) && o < |k.objs|
    ensures HeaderOk(k.objs[o]) && BodyOk(k, o)
  {
  }

  lemma InvTable(k: Kernel, t: TableId)
    requires KInv(k) && t < |k.tables|
    ensures TableValid(k.tables[t]) && EntriesNameObjects(k.tables[t].entries, |k.objs|)
  {
  }

  lemma EvolvesReflexive(k: Kernel)
    ensures Evolves(k, k)
  {
  }

  // ----- Updates -----

  /** Replacing headers only: the body stays. */
  lemma HeaderUpdate(k: Kernel, o: Id, x: Obj)
    requires KInv(k) && o < |k.objs|
    requires x.body == k.objs[o].body && HeaderOk(x)
    requires (k.objs[o].destroyed ==> x.destroyed) && (k.objs[o].disabled ==> x.disabled)
    ensures KInv(SetObj(k, o, x)) && Evolves(k, SetObj(k, o, x))
  {
    hide TableValid, EntriesNameObjects, TableEvolves, KeysOk;
    var k' := SetObj(k, o, x);
    forall i | 0 <= i < |k'.objs| ensures HeaderOk(k'.objs[i]) && BodyOk(k', i) {
      InvObj(k, i);
      assert k'.objs[i].body == k.objs[i].body;
    }
    SameTables(k, k');
  }

  /** Replacing a body, when kind and peer link stay. */
  lemma BodyUpdate(k: Kernel, o: Id, x: Obj)
    requires KInv(k) && o < |k.objs|
    requires HeaderOk(x) && ObjEvolves(k.objs[o], x)
    requires x.body.Channel? ==> x.body.peer == k.objs[o].body.peer
    requires BodyOk(SetObj(k, o, x), o)
    ensures KInv(SetObj(k, o, x)) && Evolves(k, SetObj(k, o, x))
  {
    var k' := SetObj(k, o, x);
    forall i | 0 <= i < |k'.objs| ensures HeaderOk(k'.objs[i]) && BodyOk(k', i) {
      InvObj(k, i);
      if i != o { OtherBody(k, o, x, i); }
    }
    SameTables(k, k');
  }

  lemma OtherBody(k: Kernel, o: Id, x: Obj, i: Id)
    requires o < |k.objs| && i < |k.objs| && i != o && BodyOk(k, i)
    requires ObjEvolves(k.objs[o], x)
    requires x.body.Channel? && k.objs[i].body.Channel? && k.objs[i].body.peer == Some(o) ==> x.body.peer == Some(i)
    ensures BodyOk(SetObj(k, o, x), i)
  {
  }

  /** Objects may be replaced or added without disturbing tables or keys. */
  lemma SameTables(k: Kernel, k': Kernel)
    requires TablesOk(k) && KeysOk(k)
    requires k'.tables == k.tables && |k.objs| <= |k'.objs|
    requires k'.transferred == k.transferred && k'.disposed == k.disposed
    ensures TablesOk(k') && KeysOk(k')
    ensures forall t :: 0 <= t < |k.tables| ==> TableEvolves(k.tables[t], k'.tables[t])
  {
    forall t | 0 <= t < |k'.tables|
      ensures TableValid(k'.tables[t]) && EntriesNameObjects(k'.tables[t].entries, |k'.objs|)
    {
      assert TableValid(k.tables[t]) && EntriesNameObjects(k.tables[t].entries, |k.objs|);
    }
    forall key | key in k'.disposed ensures Dead(k', key) { assert Dead(k, key); }
  }

  /** Replacing one table by a later version of itself. */
  lemma TableUpdate(k: Kernel, t: TableId, u: Table)
    requires KInv(k) && t < |k.tables|
    requires TableValid(u) && TableEvolves(k.tables[t], u) && EntriesNameObjects(u.entries, |k.objs|)
    ensures KInv(SetTable(k, t, u)) && Evolves(k, SetTable(k, t, u))
  {
    hide TableValid, EntriesNameObjects, Resolve, IssuedOnce;
    var k' := SetTable(k, t, u);
    forall i | 0 <= i < |k'.objs| ensures HeaderOk(k'.objs[i]) && BodyOk(k', i) {
      InvObj(k, i);
      assert k'.objs[i] == k.objs[i];
    }
    assert TablesOk(k');
    forall j | 0 <= j < |k.tables| ensures TableEvolves(k.tables[j], k'.tables[j]) {
    }
    KeysUpdate(k, k');
  }

  lemma KeysUpdate(k: Kernel, k': Kernel)
    requires KeysOk(k)
    requires |k.tables| == |k'.tables|
    requires forall j :: 0 <= j < |k.tables| ==> TableEvolves(k.tables[j], k'.tables[j])
    requires k'.transferred == k.transferred && k'.disposed == k.disposed
    ensures KeysOk(k')
  {
    hide Resolve;
    forall key | key in k'.disposed ensures Dead(k', key) {
      assert Dead(k, key);
      assert TableEvolves(k.tables[key.0], k'.tables[key.0]);
    }
    forall key | key in k'.transferred ensures Issued(k', key.0, key.1) {
      assert TableEvolves(k.tables[key.0], k'.tables[key.0]);
    }
  }

  lemma VacateEvolves(t: Table, i: nat)
    requires TableValid(t) && i < |t.entries| && t.entries[i].inUse
    ensures TableEvolves(t, Vacate(t, i))
  {
    var u := Vacate(t, i);
    forall h | h in t.issued && Resolve(t, h).None? ensures Resolve(u, h).None? {
      assert IssuedOnce(t, h);
    }
  }

  lemma FillEvolves(t: Table, i: nat, obj: nat, access: Mask, origin: Mask)
    requires TableValid(t) && i < |t.entries| && Free(t.entries[i]) && !t.closing
    ensures TableEvolves(t, Fill(t, i, obj, access, origin))
  {
    var u := Fill(t, i, obj, access, origin);
    forall h | h in t.issued && Resolve(t, h).None? ensures Resolve(u, h).None? {
      assert IssuedOnce(t, h);
    }
  }

  /** Marking a table closing or swept changes no entry. */
  lemma MarkValid(t: Table, u: Table)
    requires TableValid(t)
    requires u.entries == t.entries && u.active == t.active && u.issued == t.issued
    requires (t.closing ==> u.closing) && (t.swept ==> u.swept)
    requires u.swept ==> u.closing && forall i :: 0 <= i < |u.entries| ==> !u.entries[i].inUse
    ensures TableValid(u) && TableEvolves(t, u)
  {
    forall h | h in u.issued ensures IssuedOnce(u, h) { assert IssuedOnce(t, h); }
  }

  /** Only the record of keys changes. */
  lemma RecordUpdate(k: Kernel, k': Kernel)
    requires KInv(k) && KeysOk(k')
    requires k'.objs == k.objs && k'.tables == k.tables
    ensures KInv(k') && Evolves(k, k')
  {
    forall i | 0 <= i < |k'.objs| ensures HeaderOk(k'.objs[i]) && BodyOk(k', i) { InvObj(k, i); }
  }

  // ----- Steps -----

  /** The step's own references are really there. It follows from the ledger. */
  ghost predicate Funded(k: Kernel, task: Task) {
    match task
    case RemoveHandle(o) => o < |k.objs| && !k.objs[o].destroyed && k.objs[o].handles >= 1
    case Release(o) =>
      o < |k.objs| && !k.objs[o].destroyed && (k.objs[o].refs == 1 ==> k.objs[o].handles == 0)
    case _ => true
  }

  ghost predicate Keeps(k: Kernel, r: (Kernel, seq<Task>)) {
    && KInv(r.0) && Evolves(k, r.0)
    && r.0.faults == k.faults
    && forall i :: 0 <= i < |r.1| ==> TaskOk(r.0, r.1[i])
  }

  lemma KeepsRelease(k: Kernel, o: Id)
    requires KInv(k) && Funded(k, Release(o))
    ensures Keeps(k, ExecRelease(k, o))
  {
    hide KInv, Evolves, TableValid, EntriesNameObjects;
    var x := k.objs[o];
    InvObj(k, o);
    if x.refs - 1 != 0 {
      HeaderUpdate(k, o, x.(refs := x.refs - 1));
    } else {
      HeaderUpdate(k, o, x.(refs := 0, destroyed := true, destroyRuns := x.destroyRuns + 1));
    }
  }

  lemma KeepsRemoveHandle(k: Kernel, o: Id)
    requires KInv(k) && Funded(k, RemoveHandle(o))
    ensures Keeps(k, ExecRemoveHandle(k, o))
  {
    hide KInv, Evolves, TableValid, EntriesNameObjects;
    var x := k.objs[o];
    InvObj(k, o);
    if x.handles - 1 == 0 && x.body.HasCallback() {
      HeaderUpdate(k, o, x.(handles := 0, disabled := true, callbackRuns := x.callbackRuns + 1));
    } else {
      HeaderUpdate(k, o, x.(handles := x.handles - 1));
    }
  }

  lemma KeepsReference(k: Kernel, o: Id)
    requires KInv(k) && o < |k.objs|
    ensures Keeps(k, ExecReference(k, o))
  {
    hide KInv, Evolves, TableValid, EntriesNameObjects;
    var x := k.objs[o];
    InvObj(k, o);
    EvolvesReflexive(k);
    if CanReference(x) { HeaderUpdate(k, o, x.(refs := x.refs + 1, client := x.client + 1)); }
  }

  lemma KeepsCloseHandle(k: Kernel, t: TableId, h: nat)
    requires KInv(k) && t < |k.tables|
    ensures Keeps(k, ExecCloseHandle(k, t, h))
  {
    hide KInv, Evolves, TableValid;
    var table := k.tables[t];
    InvTable(k, t);
    EvolvesReflexive(k);
    if Resolve(table, h).Some? {
      var i := Resolve(table, h).value;
      ResolveNames(table, h);
      VacateValid(table, i);
      VacateEvolves(table, i);
      TableUpdate(k, t, Vacate(table, i));
    }
  }

  lemma KeepsDispose(k: Kernel, t: TableId, h: nat)
    requires KInv(k) && TaskOk(k, DisposeHandle(t, h))
    ensures Keeps(k, ExecDispose(k, t, h))
  {
    var table := k.tables[t];
    InvTable(k, t);
    KeepsCloseHandle(k, t, h);
    var (k1, push) := ExecCloseHandle(k, t, h);
    assert Dead(k1, (t, h)) by {
      if Resolve(table, h).Some? {
        ResolveNames(table, h);
        VacateValid(table, Resolve(table, h).value);
      }
    }
    DisposedOk(k1, (t, h));
    hide KInv, Evolves, TableValid, EntriesNameObjects;
    var k2 := k1.(disposed := k1.disposed + multiset{(t, h)});
    EvolvesTransitive(k, k1, k2);
    forall i | 0 <= i < |push| ensures TaskOk(k2, push[i]) { TaskOkStable(k1, k2, push[i]); }
  }

  lemma DisposedOk(k: Kernel, key: Key)
    requires KInv(k) && Dead(k, key)
    ensures var k' := k.(disposed := k.disposed + multiset{key}); KInv(k') && Evolves(k, k')
  {
    var k' := k.(disposed := k.disposed + multiset{key});
    forall other | other in k'.disposed ensures Dead(k', other) {
      assert other == key || other in k.disposed;
      assert Dead(k, other);
    }
    RecordUpdate(k, k');
  }

  lemma TransferredOk(k: Kernel, key: Key)
    requires KInv(k) && Issued(k, key.0, key.1) && key !in k.transferred
    ensures var k' := k.(transferred := k.transferred + multiset{key}); KInv(k') && Evolves(k, k')
  {
    var k' := k.(transferred := k.transferred + multiset{key});
    forall other | other in k'.transferred ensures k'.transferred[other] == 1 && Issued(k', other.0, other.1) {
      assert other == key || other in k.transferred;
    }
    forall other | other in k'.disposed ensures Dead(k', other) { assert Dead(k, other); }
    RecordUpdate(k, k');
  }

  lemma InvTransferred(k: Kernel, key: Key)
    requires KInv(k) && key in k.transferred
    ensures Issued(k, key.0, key.1) && k.transferred[key] == 1
  {
  }

  lemma KeepsCloseAll(k: Kernel, t: TableId, from: nat)
    requires KInv(k) && TaskOk(k, CloseAll(t, from))
    requires EntriesHaveObjects(k)
    ensures Keeps(k, Exec(k, CloseAll(t, from)))
  {
    hide KInv, Evolves, TableValid, EntriesNameObjects;
    InvTable(k, t);
    var i := FirstInUse(k.tables[t].entries, from);
    if i == |k.tables[t].entries| {
      SweepEnds(k.tables[t], from);
      TableUpdate(k, t, k.tables[t].(closing := true, swept := true));
    } else {
      SweepVacates(k.tables[t], from, |k.objs|);
      TableUpdate(k, t, Vacate(k.tables[t].(closing := true), i));
    }
  }

  lemma SweepEnds(table: Table, from: nat)
    requires TableValid(table) && from <= |table.entries|
    requires forall j :: 0 <= j < from ==> !table.entries[j].inUse
    requires FirstInUse(table.entries, from) == |table.entries|
    ensures var u := table.(closing := true, swept := true); TableValid(u) && TableEvolves(table, u)
  {
    MarkValid(table, table.(closing := true, swept := true));
  }

  lemma SweepVacates(table: Table, from: nat, n: nat)
    requires TableValid(table) && from <= |table.entries| && EntriesNameObjects(table.entries, n)
    requires forall j :: 0 <= j < from ==> !table.entries[j].inUse
    requires FirstInUse(table.entries, from) < |table.entries|
    ensures var i := FirstInUse(table.entries, from);
            var u := Vacate(table.(closing := true), i);
            && TableValid(u) && TableEvolves(table, u) && EntriesNameObjects(u.entries, n)
            && table.entries[i].obj.Some? && table.entries[i].obj.value < n
            && forall j :: 0 <= j < i + 1 ==> !u.entries[j].inUse
  {
    hide TableValid, TableEvolves;
    var i := FirstInUse(table.entries, from);
    var closing := table.(closing := true);
    UsedIsNotSwept(table, i);
    MarkValid(table, closing);
    VacateValid(closing, i);
    VacateEvolves(closing, i);
    TableEvolvesTransitive(table, closing, Vacate(closing, i));
  }

  lemma UsedIsNotSwept(t: Table, i: nat)
    requires TableValid(t) && i < |t.entries| && t.entries[i].inUse
    ensures !t.swept
  {
  }

  lemma TableEvolvesTransitive(a: Table, b: Table, c: Table)
    requires TableEvolves(a, b) && TableEvolves(b, c)
    ensures TableEvolves(a, c)
  {
    hide Resolve;
    forall h | h in a.issued && Resolve(a, h).None? ensures Resolve(c, h).None? { assert h in b.issued; }
  }

  /** Opening a slot: both the object's counts and the table change. */
  lemma KeepsInsert(k: Kernel, t: TableId, o: Id, token: Token, access: Mask, origin: Mask)
    requires KInv(k) && t < |k.tables| && o < |k.objs| && access <= origin
    requires InsertHandle(k, t, o, token, access, origin).Some?
    ensures var (k1, h) := InsertHandle(k, t, o, token, access, origin).value;
            && KInv(k1) && Evolves(k, k1) && k1.faults == k.faults
            && Issued(k1, t, h) && !Issued(k, t, h)
            && k1.transferred == k.transferred && k1.delivered == k.delivered && k1.disposed == k.disposed
  {
    hide KInv, Evolves, TableValid;
    var x := k.objs[o];
    var table := k.tables[t];
    var i := FirstFree(table.entries, 0);
    InvObj(k, o);
    InvTable(k, t);
    var y := x.(refs := x.refs + 1, handles := x.handles + 1);
    HeaderUpdate(k, o, y);
    var k0 := SetObj(k, o, y);
    FillIsFresh(table, i, o, access, origin);
    FillEvolves(table, i, o, access, origin);
    TableUpdate(k0, t, Fill(table, i, o, access, origin));
    EvolvesTransitive(k, k0, SetTable(k0, t, Fill(table, i, o, access, origin)));
  }

  lemma KeepsOpenHandle(k: Kernel, t: TableId, o: Id, token: Token, access: Mask)
    requires KInv(k) && t < |k.tables| && o < |k.objs|
    ensures Keeps(k, ExecOpenHandle(k, t, o, token, access))
  {
    hide KInv, Evolves, TableValid, EntriesNameObjects;
    EvolvesReflexive(k);
    if InsertHandle(k, t, o, token, access, access).Some? { KeepsInsert(k, t, o, token, access, access); }
  }

  /** An entry that resolves names an object, and its access lies within its origin. */
  lemma InvEntry(k: Kernel, t: TableId, h: nat)
    requires KInv(k) && t < |k.tables| && Resolve(k.tables[t], h).Some?
    ensures var e := k.tables[t].entries[Resolve(k.tables[t], h).value];
            e.obj.Some? && e.obj.value < |k.objs| && e.access <= e.origin && e.access != {}
  {
    InvTable(k, t);
    ResolveNames(k.tables[t], h);
    assert EntryValid(k.tables[t].entries[Resolve(k.tables[t], h).value]);
  }

  lemma KeepsReferenceEntry(k: Kernel, t: TableId, h: nat)
    requires KInv(k) && t < |k.tables| && ReferenceEntry(k, t, h).Some?
    ensures var (k1, e) := ReferenceEntry(k, t, h).value;
            && KInv(k1) && Evolves(k, k1) && k1.faults == k.faults && k1.tables == k.tables
            && e.obj.value < |k.objs| && e.access <= e.origin && e.access != {}
            && k1 == SetObj(k, e.obj.value, k.objs[e.obj.value].(refs := k.objs[e.obj.value].refs + 1))
  {
    hide KInv, Evolves, TableValid, EntriesNameObjects;
    InvEntry(k, t, h);
    var o := ReferenceEntry(k, t, h).value.1.obj.value;
    InvObj(k, o);
    HeaderUpdate(k, o, k.objs[o].(refs := k.objs[o].refs + 1));
  }

  lemma KeepsLookup(k: Kernel, t: TableId, h: nat, access: Mask, kind: Kind)
    requires KInv(k) && t < |k.tables|
    ensures Keeps(k, ExecLookup(k, t, h, access, kind))
  {
    hide KInv, Evolves, TableValid, EntriesNameObjects;
    EvolvesReflexive(k);
    var r := ReferenceEntry(k, t, h);
    if r.Some? {
      KeepsReferenceEntry(k, t, h);
      var k1 := r.value.0;
      var o := r.value.1.obj.value;
      InvObj(k1, o);
      var k2 := SetObj(k1, o, k1.objs[o].(client := k1.objs[o].client + 1));
      HeaderUpdate(k1, o, k1.objs[o].(client := k1.objs[o].client + 1));
      EvolvesTransitive(k, k1, k2);
    }
  }

  lemma AbandonOk(k: Kernel, dst: TableId, cont: Cont)
    requires ContOk(k, dst, cont)
    ensures forall i :: 0 <= i < |Abandon(cont)| ==> TaskOk(k, Abandon(cont)[i])
  {
  }

  lemma KeepsDupSource(k: Kernel, src: TableId, h: nat, dst: TableId, token: Token, access: Mask, same: bool, cont: Cont)
    requires KInv(k) && src < |k.tables| && dst < |k.tables| && ContOk(k, dst, cont)
    ensures Keeps(k, ExecDupSource(k, src, h, dst, token, access, same, cont))
  {
    hide KInv, Evolves, TableValid, EntriesNameObjects;
    EvolvesReflexive(k);
    AbandonOk(k, dst, cont);
    var r := ReferenceEntry(k, src, h);
    if r.Some? {
      KeepsReferenceEntry(k, src, h);
      ContOkStable(k, r.value.0, dst, cont);
      AbandonOk(r.value.0, dst, cont);
    }
  }

  lemma KeepsDupTarget(k: Kernel, o: Id, access: Mask, origin: Mask, dst: TableId, token: Token, cont: Cont)
    requires KInv(k) && TaskOk(k, DupTarget(o, access, origin, dst, token, cont))
    ensures Keeps(k, ExecDupTarget(k, o, access, origin, dst, token, cont))
  {
    hide KInv, Evolves, TableValid, EntriesNameObjects;
    EvolvesReflexive(k);
    AbandonOk(k, dst, cont);
    var r := InsertHandle(k, dst, o, token, access, origin);
    if r.Some? {
      KeepsInsert(k, dst, o, token, access, origin);
      var (k1, h) := r.value;
      ContOkStable(k, k1, dst, cont);
      if cont.IntoSend? {
        if (dst, h) in k.transferred { InvTransferred(k, (dst, h)); }
        TransferredOk(k1, (dst, h));
        var k2 := k1.(transferred := k1.transferred + multiset{(dst, h)});
        EvolvesTransitive(k, k1, k2);
        ContOkStable(k1, k2, dst, cont);
      }
    }
  }

  lemma KeepsSendBegin(k: Kernel, c: Id, m: Msg)
    requires KInv(k) && IsChannel(k, c)
    ensures Keeps(k, ExecSendBegin(k, c, m))
  {
    hide KInv, Evolves;
    EvolvesReflexive(k);
    InvObj(k, c);
    var ch := k.objs[c].body;
    if ch.peer.Some? {
      var p := ch.peer.value;
      InvObj(k, p);
      if CanReference(k.objs[p]) { HeaderUpdate(k, p, k.objs[p].(refs := k.objs[p].refs + 1)); }
    }
  }

  lemma KeepsSendFinish(k: Kernel, c: Id, p: Id, dst: TableId, m: Msg)
    requires KInv(k) && TaskOk(k, SendFinish(c, p, dst, m))
    ensures Keeps(k, ExecSendFinish(k, c, p, dst, m))
  {
    hide KInv, Evolves;
    EvolvesReflexive(k);
    var (k', push) := ExecSendFinish(k, c, p, dst, m);
    if push == [Release(p)] && k' != k {
      InvObj(k, p);
      var y := k'.objs[p];
      QueueGrows(k.objs[p].body.got, k.objs[p].body.queue, m);
      BodyUpdate(k, p, y);
    }
  }

  lemma QueueGrows(got: seq<Msg>, queue: seq<Msg>, m: Msg)
    ensures got + queue + [] + [m] == got + (queue + [m]) + []
  {
  }

  lemma KeepsReceive(k: Kernel, c: Id)
    requires KInv(k) && IsChannel(k, c)
    ensures Keeps(k, ExecReceive(k, c))
  {
    hide KInv, Evolves;
    EvolvesReflexive(k);
    InvObj(k, c);
    var x := k.objs[c];
    var ch := x.body;
    if ch.queue != [] {
      var rest := ch.queue[1..];
      var body := ch.(queue := rest, got := ch.got + [ch.queue[0]],
                      signal := if rest != [] || ch.peerClosed then |rest| + 1 else 0);
      assert ch.got + ch.queue + [] == ch.got + [ch.queue[0]] + rest + [];
      BodyUpdate(k, c, x.(body := body));
      var k1 := SetObj(k, c, x.(body := body));
      EvolvesReflexive(k1);
      if ch.queue[0].transfers { DeliveredOk(k1, (ch.owner, ch.queue[0].handle)); }
      EvolvesTransitive(k, k1, ExecReceive(k, c).0);
    }
  }

  lemma DeliveredOk(k: Kernel, key: Key)
    requires KInv(k)
    ensures var k' := k.(delivered := k.delivered + multiset{key}); KInv(k') && Evolves(k, k')
  {
    var k' := k.(delivered := k.delivered + multiset{key});
    forall other | other in k'.disposed ensures Dead(k', other) { assert Dead(k, other); }
    RecordUpdate(k, k');
  }

  lemma {:induction false} DisposalsOk(k: Kernel, owner: TableId, queue: seq<Msg>)
    requires owner < |k.tables|
    requires forall j :: 0 <= j < |queue| && queue[j].transfers ==> queue[j].handle in k.tables[owner].issued
    ensures forall i :: 0 <= i < |Disposals(owner, queue)| ==> TaskOk(k, Disposals(owner, queue)[i])
  {
    if queue != [] {
      forall j | 0 <= j < |queue[1..]| && queue[1..][j].transfers
        ensures queue[1..][j].handle in k.tables[owner].issued
      {
        assert queue[1..][j] == queue[j + 1];
      }
      DisposalsOk(k, owner, queue[1..]);
    }
  }

  lemma SeverBody(k: Kernel, c: Id, i: Id)
    requires IsChannel(k, c) && k.objs[c].body.open && BodyOk(k, c)
    requires k.objs[c].body.peer.Some? ==> BodyOk(k, k.objs[c].body.peer.value)
    requires i < |k.objs| && BodyOk(k, i)
    ensures BodyOk(ExecCloseChannel(k, c).0, i) && ObjEvolves(k.objs[i], ExecCloseChannel(k, c).0.objs[i])
    ensures LinkEvolves(k, ExecCloseChannel(k, c).0, i)
  {
    var ch := k.objs[c].body;
    if i == c {
      assert ch.got + ch.queue + [] == ch.got + [] + ch.queue;
    }
  }

  /** Closing severs both links of a pair at once. */
  lemma SeverOk(k: Kernel, c: Id)
    requires KInv(k) && IsChannel(k, c) && k.objs[c].body.open
    ensures KInv(ExecCloseChannel(k, c).0) && Evolves(k, ExecCloseChannel(k, c).0)
  {
    hide BodyOk, TableValid, ObjEvolves, LinkEvolves, TableEvolves, KeysOk;
    var k' := ExecCloseChannel(k, c).0;
    forall i | 0 <= i < |k'.objs|
      ensures HeaderOk(k'.objs[i]) && BodyOk(k', i) && ObjEvolves(k.objs[i], k'.objs[i]) && LinkEvolves(k, k', i)
    {
      InvObj(k, c);
      InvObj(k, i);
      InvPeer(k, c);
      if k.objs[c].body.peer.Some? { InvObj(k, k.objs[c].body.peer.value); }
      SeverBody(k, c, i);
    }
    SameTables(k, k');
  }

  lemma InvPeer(k: Kernel, c: Id)
    requires IsChannel(k, c) && BodyOk(k, c)
    ensures k.objs[c].body.peer.Some? ==> k.objs[c].body.peer.value < |k.objs|
  {
  }

  lemma KeepsCloseChannel(k: Kernel, c: Id)
    requires KInv(k) && IsChannel(k, c)
    ensures Keeps(k, ExecCloseChannel(k, c))
  {
    hide KInv, Evolves;
    EvolvesReflexive(k);
    if k.objs[c].body.open {
      SeverOk(k, c);
      InvObj(k, c);
      DisposalsOk(ExecCloseChannel(k, c).0, k.objs[c].body.owner, k.objs[c].body.queue);
    }
  }

  lemma {:induction false} AbandonmentsOk(k: Kernel, pending: seq<Id>)
    requires forall j :: 0 <= j < |pending| ==> pending[j] < |k.objs|
    ensures forall i :: 0 <= i < |Abandonments(pending)| ==> TaskOk(k, Abandonments(pending)[i])
  {
    if pending != [] { AbandonmentsOk(k, pending[1..]); }
  }

  lemma KeepsClosePort(k: Kernel, p: Id)
    requires KInv(k) && IsPort(k, p)
    ensures Keeps(k, ExecClosePort(k, p))
  {
    hide KInv, Evolves;
    EvolvesReflexive(k);
    InvObj(k, p);
    if !k.objs[p].body.closed {
      var k' := ExecClosePort(k, p).0;
      assert k.objs[p].body.accepted + k.objs[p].body.pending + [] == k.objs[p].body.accepted + [] + k.objs[p].body.pending;
      BodyUpdate(k, p, k'.objs[p]);
      AbandonmentsOk(k', k.objs[p].body.pending);
    }
  }

  lemma KeepsCloseObject(k: Kernel, o: Id)
    requires KInv(k) && o < |k.objs|
    ensures Keeps(k, ExecCloseObject(k, o))
  {
    hide KInv, Evolves;
    match k.objs[o].body
    case Channel(_, _, _, _, _, _, _, _, _, _, _) => KeepsCloseChannel(k, o);
    case Port(_, _, _, _, _, _, _) => KeepsClosePort(k, o);
    case Section(_) =>
      InvObj(k, o);
      BodyUpdate(k, o, k.objs[o].(body := Section(false)));
  }

  lemma MoreObjects(k: Kernel, k': Kernel)
    requires |k.objs| <= |k'.objs| && k'.objs[..|k.objs|] == k.objs
    ensures forall i :: 0 <= i < |k.objs| ==> ObjEvolves(k.objs[i], k'.objs[i]) && LinkEvolves(k, k', i)
  {
    assert forall i :: 0 <= i < |k.objs| ==> k'.objs[i] == k'.objs[..|k.objs|][i];
  }

  lemma AddPairOk(k: Kernel, options: PairOptions, client: nat, extra: nat)
    requires KInv(k) && OptionsValid(k, options) && extra <= 1
    ensures KInv(AddPair(k, options, client, extra)) && Evolves(k, AddPair(k, options, client, extra))
  {
    hide ObjEvolves, LinkEvolves, TableEvolves, TableValid, KeysOk;
    var k' := AddPair(k, options, client, extra);
    MoreObjects(k, k');
    forall i | 0 <= i < |k'.objs| ensures HeaderOk(k'.objs[i]) && BodyOk(k', i) {
      if i < |k.objs| {
        InvObj(k, i);
        assert k'.objs[i] == k.objs[i];
      }
    }
    SameTables(k, k');
  }

  lemma KeepsPair(k: Kernel, port: Id, options: PairOptions)
    requires KInv(k) && IsPort(k, port)
    ensures Keeps(k, ExecConnectBegin(k, port, options))
  {
    hide KInv;
    EvolvesReflexive(k);
    if OptionsValid(k, options) { AddPairOk(k, options, 0, 1); }
  }

  lemma KeepsCreatePair(k: Kernel, options: PairOptions)
    requires KInv(k)
    ensures Keeps(k, ExecCreatePair(k, options))
  {
    hide KInv;
    EvolvesReflexive(k);
    if OptionsValid(k, options) { AddPairOk(k, options, 1, 0); }
  }

  lemma ClientUpdate(k: Kernel, o: Id, client: nat)
    requires KInv(k) && o < |k.objs|
    ensures KInv(SetObj(k, o, k.objs[o].(client := client)))
    ensures Evolves(k, SetObj(k, o, k.objs[o].(client := client)))
  {
    hide KInv, Evolves;
    InvObj(k, o);
    HeaderUpdate(k, o, k.objs[o].(client := client));
  }

  lemma KeepsConnectFinish(k: Kernel, port: Id, client: Id, server: Id)
    requires KInv(k) && TaskOk(k, ConnectFinish(port, client, server))
    ensures Keeps(k, ExecConnectFinish(k, port, client, server))
  {
    hide KInv, Evolves;
    EvolvesReflexive(k);
    var x := k.objs[port];
    InvObj(k, port);
    if !x.body.closed && |x.body.pending| != x.body.limit {
      var body := x.body.(pending := x.body.pending + [server], signal := |x.body.pending| + 1,
                          offered := x.body.offered + [server]);
      assert x.body.accepted + x.body.pending + [] + [server] == x.body.accepted + (x.body.pending + [server]) + [];
      var k1 := SetObj(k, port, x.(body := body));
      BodyUpdate(k, port, x.(body := body));
      var k2 := SetObj(k1, client, k1.objs[client].(client := k1.objs[client].client + 1));
      ClientUpdate(k1, client, k1.objs[client].client + 1);
      EvolvesTransitive(k, k1, k2);
      var k3 := SetObj(k2, server, k2.objs[server].(client := k2.objs[server].client + 1));
      ClientUpdate(k2, server, k2.objs[server].client + 1);
      EvolvesTransitive(k, k2, k3);
    }
  }

  lemma KeepsAccept(k: Kernel, port: Id)
    requires KInv(k) && IsPort(k, port)
    ensures Keeps(k, ExecAccept(k, port))
  {
    hide KInv, Evolves;
    EvolvesReflexive(k);
    var x := k.objs[port];
    InvObj(k, port);
    if x.body.pending != [] {
      var rest := x.body.pending[1..];
      var c := x.body.pending[0];
      var body := x.body.(pending := rest, signal := |rest|, accepted := x.body.accepted + [c]);
      var k1 := SetObj(k, port, x.(body := body));
      assert x.body.accepted + x.body.pending + [] == x.body.accepted + [c] + rest + [];
      BodyUpdate(k, port, x.(body := body));
      ClientUpdate(k1, c, k1.objs[c].client + 1);
      EvolvesTransitive(k, k1, SetObj(k1, c, k1.objs[c].(client := k1.objs[c].client + 1)));
    }
  }

  lemma AppendObjOk(k: Kernel, x: Obj)
    requires KInv(k) && HeaderOk(x)
    requires
      || x.body.Section?
      || (x.body.Port? && x.body == Port([], x.body.limit, false, 0, [], [], []) && 1 <= x.body.limit <= QUEUE_CAPACITY)
    ensures KInv(k.(objs := k.objs + [x])) && Evolves(k, k.(objs := k.objs + [x]))
  {
    var k' := k.(objs := k.objs + [x]);
    forall i | 0 <= i < |k'.objs| ensures HeaderOk(k'.objs[i]) && BodyOk(k', i) {
      if i < |k.objs| {
        InvObj(k, i);
        assert k'.objs[i] == k.objs[i];
      }
    }
    SameTables(k, k');
  }

  lemma AppendTableOk(k: Kernel, u: Table)
    requires KInv(k) && TableValid(u) && EntriesNameObjects(u.entries, |k.objs|)
    ensures KInv(k.(tables := k.tables + [u])) && Evolves(k, k.(tables := k.tables + [u]))
  {
    hide TableValid, EntriesNameObjects, Resolve;
    var k' := k.(tables := k.tables + [u]);
    forall i | 0 <= i < |k'.objs| ensures HeaderOk(k'.objs[i]) && BodyOk(k', i) {
      InvObj(k, i);
      assert k.objs[i].body.Channel? ==> k'.tables[k.objs[i].body.owner] == k.tables[k.objs[i].body.owner];
    }
    forall key | key in k'.disposed ensures Dead(k', key) { assert Dead(k, key); }
    forall t | 0 <= t < |k.tables| ensures TableEvolves(k.tables[t], k'.tables[t]) {
      assert k'.tables[t] == k.tables[t];
    }
  }

  lemma KeepsCreateTable(k: Kernel, capacity: nat)
    requires KInv(k)
    ensures Keeps(k, ExecCreateTable(k, capacity))
  {
    hide KInv, Evolves, TableValid;
    EvolvesReflexive(k);
    if 1 <= capacity < UINT32_MAX {
      FreshValid(capacity);
      AppendTableOk(k, Fresh(capacity));
    }
  }

  /** Every locked region keeps the invariant, and leaves the thread with tasks that can run. */
  lemma ExecKeeps(k: Kernel, task: Task)
    requires KInv(k) && EntriesHaveObjects(k) && TaskOk(k, task) && Funded(k, task)
    ensures Keeps(k, Exec(k, task))
  {
    hide KInv, Evolves, EntriesHaveObjects;
    match task {
      case RemoveHandle(o) => KeepsRemoveHandle(k, o);
      case Release(o) => KeepsRelease(k, o);
      case DisposeHandle(t, h) => KeepsDispose(k, t, h);
      case DupTarget(o, access, origin, dst, token, cont) => KeepsDupTarget(k, o, access, origin, dst, token, cont);
      case SendFinish(c, p, dst, m) => KeepsSendFinish(k, c, p, dst, m);
      case ConnectFinish(port, client, server) => KeepsConnectFinish(k, port, client, server);
      case CloseObject(o) => KeepsCloseObject(k, o);
      case CloseHandle(t, h) => KeepsCloseHandle(k, t, h);
      case CloseAll(t, from) => KeepsCloseAll(k, t, from);
      case SendBegin(c, m) => KeepsSendBegin(k, c, m);
      case Receive(c) => KeepsReceive(k, c);
      case DupSource(src, h, dst, token, access, same, cont) =>
        KeepsDupSource(k, src, h, dst, token, access, same, cont);
      case OpenHandle(t, o, token, access) => KeepsOpenHandle(k, t, o, token, access);
      case Lookup(t, h, access, kind) => KeepsLookup(k, t, h, access, kind);
      case Reference(o) => KeepsReference(k, o);
      case Accept(p) => KeepsAccept(k, p);
      case ConnectBegin(p, options) => KeepsPair(k, p, options);
      case CreatePair(options) => KeepsCreatePair(k, options);
      case CreatePort(limit, security) =>
        EvolvesReflexive(k);
        if 1 <= limit <= QUEUE_CAPACITY { AppendObjOk(k, NewObj(Port([], limit, false, 0, [], [], []), security, 1, 1)); }
      case CreateSection(security) =>
        EvolvesReflexive(k);
        AppendObjOk(k, NewObj(Section(true), security, 1, 1));
      case CreateTable(capacity) => KeepsCreateTable(k, capacity);
    }
  }
}
